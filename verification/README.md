# Forage pricing layer — a Dafny model

This project models the pricing layer of the Forage domain tool
(`grove_domain_tool/pricing.py`) and the part of its command-line front end
(`grove_domain_search/cli.py`) that merges prices into availability results.

- **Pricing** — a `DomainPrice` with its three threshold flags, recomputed on
  every construction, and its category (bundled > recommended > premium >
  standard); the TLD of a domain name; grouping priced domains by category.
- **PriceCache** — the `CloudflarePricing` client as an immutable `Client`
  value: a per-TLD cache plus a count of catalog requests sent. A cache hit
  sends no request. A miss sends one request, returns the first catalog row
  for the TLD and caches only a price that was found. A failed request raises
  `PricingError` and leaves the cache alone. On top of this sit
  `get_domain_pricing` and `batch_pricing`. The batch looks each distinct TLD
  up once and skips TLDs whose lookup fails.
- **Cli** — `check_multiple_domains` and `check_single_domain`, which attach
  prices to results of the availability check. Also the domain-file line
  filter and the grouping of results by status.
- **Text** — the string operations these rely on: lower-casing,
  `split(".")[-1]` and Python's `str.strip()`.

The catalog request is not performed. Each lookup receives the response it
would get (`FetchOutcome`). A batch receives `oracle(n)` as the response to
the client's request number `n`. The results of the availability checker are
inputs, and the configured thresholds are a `Thresholds` parameter.

Notes on the code:
- The premium flag is `price >= premium_flag_above`: a price equal to the threshold is flagged premium.
- The code assumes no order among the three thresholds, and neither does the model.
- Prices are attached to every result whose *domain* is a key of the batch's
  map. A domain listed twice, once AVAILABLE and once not, is priced in both
  places.
- `batch_pricing` catches only `PricingError`.

## Model

| member | source | states |
|---|---|---|
| Pricing.PostInit | src/grove_domain_tool/pricing.py:28-32 | the three flags hold exactly when the price is within the bundled and recommended maxima and at or above the premium threshold; every other field is kept |
| Pricing.NewDomainPrice | src/grove_domain_tool/pricing.py:16-32 | a constructed price carries the given domain, TLD, price, currency and renewal, with flags agreeing with the thresholds |
| Pricing.FlagsOverridden | src/grove_domain_tool/pricing.py:28-32 | flag values passed to the constructor make no difference to the constructed price |
| Pricing.PostInitIdempotent | src/grove_domain_tool/pricing.py:28-32 | recomputing the flags a second time changes nothing, and a price whose flags already agree is left as is |
| Pricing.CategoryByPrice | src/grove_domain_tool/pricing.py:40-49 | for a constructed price each category holds exactly on its price band: bundled up to the bundled max, recommended above it up to the recommended max, premium above both and at or above the premium threshold, standard above both and below it |
| Pricing.CategoryMonotone | src/grove_domain_tool/pricing.py:28-49 | a dearer price never falls in a cheaper category, whatever the thresholds |
| Pricing.BundledAlsoRecommended | src/grove_domain_tool/pricing.py:28-49 | with ordered thresholds a bundled price also carries the recommended flag, yet its category is bundled |
| Pricing.CategoryExamples | src/grove_domain_tool/pricing.py:28-49 | under thresholds 500/1500/3000, prices 400, 1000, 3500, 2000 are bundled, recommended, premium, standard |
| Pricing.TierNamesDistinct | src/grove_domain_tool/pricing.py:40-49 | the four category names are distinct, so the category is exactly one of four values |
| Text.LowerShape | src/grove_domain_tool/pricing.py:137 | lower-casing keeps the length and the positions of '.', changes no non-capital, and leaves no ASCII capital |
| Text.LowerIdempotent | src/grove_domain_tool/pricing.py:137 | lower-casing twice is lower-casing once |
| Text.Split | src/grove_domain_tool/pricing.py:137 | splitting never gives an empty list, and gives more than one piece exactly when the separator occurs |
| Text.SplitPieces | src/grove_domain_tool/pricing.py:137 | splitting gives exactly one more piece than there are separators |
| Text.LastIndex | src/grove_domain_tool/pricing.py:137 | the right-to-left scan finds the last '.', or -1 when there is none |
| Text.SplitLastIsAfterLast | src/grove_domain_tool/pricing.py:137 | the last piece of Python's left-to-right split equals the text after the last separator |
| Pricing.TldShape | src/grove_domain_tool/pricing.py:137 | the TLD contains no '.', is the suffix of the lower-cased domain that follows its last '.', and is the whole lower-cased domain when there is no '.' |
| Pricing.TldIsLastPiece | src/grove_domain_tool/pricing.py:163 | the TLD is the last element of `domain.lower().split(".")` |
| Pricing.TldOfMixedCase | src/grove_domain_tool/pricing.py:179 | the TLD of "Example.COM" is "com" |
| Pricing.TldOfSubdomain | src/grove_domain_tool/pricing.py:179 | the TLD of "a.b.io" is "io" |
| Pricing.TldOfDotless | src/grove_domain_tool/pricing.py:137 | the lower-case dotless name "localhost" is its own TLD (an example; the general dotless case is in `Pricing.TldShape`) |
| Pricing.TldOfTrailingDot | src/grove_domain_tool/pricing.py:137 | a name ending in '.' has the empty TLD |
| Pricing.Categorize | src/grove_domain_tool/pricing.py:233-243 | the result has exactly the four category keys, each list holds the domains of that category in iteration order, and the list sizes sum to the number of items |
| Pricing.GroupSizes | src/grove_domain_tool/pricing.py:240-241 | every item lands in exactly one of the four lists |
| Pricing.InGroupIff | src/grove_domain_tool/pricing.py:240-241 | a domain is in a category's list exactly when some item with that domain has that category |
| Pricing.InOwnGroupOnly | src/grove_domain_tool/pricing.py:240-241 | for a dict, each domain appears in the list of its own category and in no other |
| Pricing.GroupsKeepOrder | src/grove_domain_tool/pricing.py:240-241 | categorising a concatenation concatenates the lists, so input order is kept |
| PriceCache.NewClientValid | src/grove_domain_tool/pricing.py:74-77 | a new client has an empty, well-formed cache and has sent no request |
| PriceCache.FirstMatch | src/grove_domain_tool/pricing.py:103-104 | the scan returns the first row for the TLD, or nothing exactly when no row names it |
| PriceCache.PriceFromEntry | src/grove_domain_tool/pricing.py:105-113 | a cached price is bound to ".tld", in USD, with the row's price and renewal and flags set from the thresholds |
| PriceCache.AnswerShape | src/grove_domain_tool/pricing.py:96-124 | a response yields an error exactly when it is not a successful payload (HTTP error for a transport failure, API error otherwise); otherwise a price exactly when some row names the TLD, built from the first such row |
| PriceCache.GetTldPricing | src/grove_domain_tool/pricing.py:79-124 | a cached TLD returns the stored price with no request; a miss sends exactly one request and returns its answer; only a found price is cached, under its TLD; failure or absence leaves the cache unchanged; the cache stays well-formed |
| PriceCache.SecondLookupHits | src/grove_domain_tool/pricing.py:89-90 | after a TLD is found, asking again sends no request and returns the same price |
| PriceCache.MissIsRetried | src/grove_domain_tool/pricing.py:118-124 | a TLD that was absent or whose request failed is not cached, so the next lookup sends another request |
| PriceCache.FirstRowWins | src/grove_domain_tool/pricing.py:103-116 | when several rows name the TLD, the first one is returned |
| PriceCache.Rebind | src/grove_domain_tool/pricing.py:142-148 | the copy for a domain has that domain, the TLD price's tld, price, currency and renewal, and the same category |
| PriceCache.GetDomainPricing | src/grove_domain_tool/pricing.py:126-150 | the result is empty exactly when the TLD lookup is empty, fails exactly when it fails, and otherwise is the TLD price carried over to the domain with the same category |
| PriceCache.DomainPriceHasDomainTld | src/grove_domain_tool/pricing.py:137-148 | a price found for a domain is for the domain's TLD, which is then cached |
| PriceCache.CountUncachedIsSize | src/grove_domain_tool/pricing.py:163-169 | counting the uncached TLDs of a repeat-free order gives the size of the uncached TLD set |
| PriceCache.Step | src/grove_domain_tool/pricing.py:165-174 | one lookup extends the loop state: one more request exactly when the TLD is uncached, the cache stays the old cache plus the prices found, and the new TLD resolves to its cached price or its own answer |
| PriceCache.ResolveTlds | src/grove_domain_tool/pricing.py:165-174 | each TLD resolves to its cached price or to the answer to its own request, unaffected by other TLDs' failures; the cache becomes the old cache plus the prices found; one request per uncached TLD |
| PriceCache.ProjectPrices | src/grove_domain_tool/pricing.py:176-190 | the keys are exactly the domains whose TLD has a price, each mapped to that price carried over to it |
| PriceCache.BatchPricing | src/grove_domain_tool/pricing.py:152-190 | one lookup per distinct TLD; a failed TLD does not stop the others; the result maps exactly the domains whose TLD resolved, each to its TLD price carried over; the requests sent equal the number of distinct TLDs not already cached |
| Cli.AvailableDomains | src/grove_domain_search/cli.py:128 | a domain is listed exactly when some result for it is AVAILABLE |
| Cli.CacheAfterBatch | src/grove_domain_tool/pricing.py:115-116 | after a batch the cache holds a TLD of the batch exactly when the batch found a price for it, and holds that price |
| Cli.TldsCoverSet | src/grove_domain_tool/pricing.py:163 | the TLDs listed for the domains, as a set, are exactly the set the comprehension builds |
| Cli.TldOrder | src/grove_domain_tool/pricing.py:163-167 | the visiting order lists each TLD of the domains exactly once |
| Cli.MergePricing | src/grove_domain_search/cli.py:133-139 | the results keep length and order and change only in price: a result whose domain is a key gets that key's price, others are untouched, and a failed batch attaches nothing |
| Cli.CheckMultipleDomains | src/grove_domain_search/cli.py:119-139 | results keep the checks' length and order and change only in price; no request and no batch when pricing is off or nothing is available; otherwise the batch map gives each TLD of the available domains its cached price or the answer to its own request (`BatchOutcome`), the cache becomes the old cache plus that map, requests equal the uncached TLDs; a result is priced exactly when its domain is available and its TLD is in the batch map, with that price carried over |
| Cli.PricedFromOwnLookup | src/grove_domain_search/cli.py:128-135 | an available domain whose TLD lookup finds a price gets that price carried over, whatever the lookups of other TLDs return |
| Cli.CheckSingleDomain | src/grove_domain_search/cli.py:105-118 | the result changes only in price; no lookup unless pricing is on and the domain is AVAILABLE; a found price is attached, and nothing else is |
| Cli.SingleFailureSwallowed | src/grove_domain_search/cli.py:109-118 | a failed pricing request returns the check result unchanged, and the attempt is counted but nothing is cached |
| Cli.SinglePriceForDomain | src/grove_domain_search/cli.py:109-114 | a price attached to a single domain is for that domain and its TLD, with flags agreeing with the thresholds |
| Text.Strip | src/grove_domain_search/cli.py:191 | a stripped string is no longer than the input and neither starts nor ends with white space |
| Text.StripIsSlice | src/grove_domain_search/cli.py:191 | stripping removes only white space, and only at the two ends |
| Text.StripEmptyIffBlank | src/grove_domain_search/cli.py:191 | a line strips to nothing exactly when it is all white space |
| Text.StripIdempotent | src/grove_domain_search/cli.py:191 | stripping twice is stripping once |
| Text.TrimStartAt | src/grove_domain_search/cli.py:191 | leading white space ending before a non-space character is exactly what is removed at the front |
| Text.TrimEndAt | src/grove_domain_search/cli.py:191 | trailing white space starting after a non-space character is exactly what is removed at the back |
| Cli.DomainLines | src/grove_domain_search/cli.py:191 | no more domains than lines are read, and every domain read is non-empty and has no surrounding white space |
| Cli.DomainLinesMember | src/grove_domain_search/cli.py:191 | a domain is read exactly when some line that is not blank and does not start with '#' strips to it |
| Cli.DomainLinesAppend | src/grove_domain_search/cli.py:191 | reading two parts of a file in turn reads the whole file, so domains keep file order |
| Cli.IndentedHashIsKept | src/grove_domain_search/cli.py:191 | "  #x" is read as the domain "#x", while "#x" is skipped |
| Cli.GroupByStatus | src/grove_domain_search/cli.py:59-61 | the three groups together are exactly the results (as a multiset) and each holds only its own status |
| Cli.StatusPartition | src/grove_domain_search/cli.py:59-61 | the AVAILABLE, REGISTERED and UNKNOWN filters partition the results |
| Cli.GroupsKeepOrder | src/grove_domain_search/cli.py:59-61 | grouping a concatenation concatenates the groups, so input order is kept |

## Left out

- The catalog request: the HTTP client, timeout, URL and JSON decoding are replaced by `FetchOutcome`. A decoding error is a `TransportFailure`, which becomes an HTTP error, where the source wraps it as a generic pricing error.
- Prices in dollars: the catalog's float dollars and the `int(price * 100)` conversion are not modelled. Catalog rows carry integer cents. So the default at pricing.py:106 is not modelled either: when `renewal_price` is missing it multiplies the price *in cents* by 100 again. `price_dollars` is left out for the same reason.
- Output: `__str__`, `format_domain_result`, terminal colours, printing (including the pricing summary in `print_results_summary`) and JSON output. They only format.
- `main`: argument parsing, file existence checks and reading, the choice between the single and multiple check by list length, and `sys.exit`. A domain file enters the model as the list of its lines.
- Concurrency: `asyncio` calls are sequential calls.
- The module-level `pricing_client` singleton and its wrappers `get_domain_pricing` and `get_batch_pricing` (pricing.py:193-220) only delegate to it. The model threads an explicit `Client` through every call instead.
- The availability checker (`check_domain`, `check_domains`, lookups, rate-limit delays and progress output) is not part of this model. Its results are inputs. The `config` module is not part of this model either. The thresholds are a parameter.
- Python set iteration order: `BatchPricing` accepts any order that lists each TLD once. `CheckMultipleDomains` uses first-appearance order.
- Exceptions other than `PricingError` inside `batch_pricing` do not arise in the model. The source catches them at cli.py:136. That branch is modelled by `MergePricing` given a failure.
- Text.Lower, Text.LowerShape: lower-cases ASCII capitals only. Python's `str.lower` also maps non-ASCII capitals.
- Warnings written to standard error.
