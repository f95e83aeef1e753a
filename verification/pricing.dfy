/** The pricing data of `grove_domain_tool/pricing.py`: a price bound to a
    domain, the tier it falls in under the configured thresholds, the TLD of
    a domain name, and the grouping of priced domains by tier. */
module Pricing {
  import opened Wrappers
  import opened Text

  /** The three configured cent thresholds (`config.pricing`). Nothing is
      assumed about their order. */
  datatype Thresholds = Thresholds(
    bundledMaxCents: int,
    recommendedMaxCents: int,
    premiumFlagAboveCents: int)

  /** The four pricing categories. */
  datatype Tier = Bundled | Recommended | Standard | Premium {
    /** The name the program reports for the category. */
    function Name(): string {
      match this
      case Bundled => "bundled"
      case Recommended => "recommended"
      case Standard => "standard"
      case Premium => "premium"
    }

    /** Position of the category from cheapest to dearest. */
    function Rank(): nat {
      match this
      case Bundled => 0
      case Recommended => 1
      case Standard => 2
      case Premium => 3
    }
  }

  const AllTiers: set<Tier> := {Bundled, Recommended, Standard, Premium}

  /** A price for one domain. The three flags are stored fields, as in the
      dataclass; `NewDomainPrice` is the only way the program builds one. */
  datatype DomainPrice = DomainPrice(
    domain: string,
    tld: string,
    priceCents: int,
    currency: string,
    isPremium: bool,
    isBundled: bool,
    isRecommended: bool,
    annualRenewalCents: Option<int>)
  {
    /** The category, read from the flags: bundled first, then recommended,
        then premium, else standard. */
    function Category(): Tier {
      if isBundled then Bundled
      else if isRecommended then Recommended
      else if isPremium then Premium
      else Standard
    }
  }

  /** The flags agree with the thresholds. */
  predicate FlagsMatch(th: Thresholds, p: DomainPrice) {
    && (p.isBundled <==> p.priceCents <= th.bundledMaxCents)
    && (p.isRecommended <==> p.priceCents <= th.recommendedMaxCents)
    && (p.isPremium <==> p.priceCents >= th.premiumFlagAboveCents)
  }

  /** `__post_init__`: the flags are recomputed from the price, whatever
      values they held; every other field is kept. */
  function PostInit(th: Thresholds, p: DomainPrice): (q: DomainPrice)
    ensures FlagsMatch(th, q)
    ensures q.domain == p.domain && q.tld == p.tld && q.priceCents == p.priceCents
    ensures q.currency == p.currency && q.annualRenewalCents == p.annualRenewalCents
  {
    p.(isBundled := p.priceCents <= th.bundledMaxCents,
       isRecommended := p.priceCents <= th.recommendedMaxCents,
       isPremium := p.priceCents >= th.premiumFlagAboveCents)
  }

  /** The dataclass constructor: flags start at their defaults and are then
      overwritten by `__post_init__`. */
  function NewDomainPrice(th: Thresholds, domain: string, tld: string, priceCents: int,
                          currency: string, renewal: Option<int>): (p: DomainPrice)
    ensures FlagsMatch(th, p)
    ensures p.domain == domain && p.tld == tld && p.priceCents == priceCents
    ensures p.currency == currency && p.annualRenewalCents == renewal
  {
    PostInit(th, DomainPrice(domain, tld, priceCents, currency, false, false, false, renewal))
  }

  /** Flag values passed to the constructor make no difference. */
  lemma FlagsOverridden(th: Thresholds, p: DomainPrice, premium: bool, bundled: bool, recommended: bool)
    ensures PostInit(th, p.(isPremium := premium, isBundled := bundled, isRecommended := recommended))
            == PostInit(th, p)
  {
  }

  /** Running `__post_init__` again changes nothing. */
  lemma PostInitIdempotent(th: Thresholds, p: DomainPrice)
    ensures PostInit(th, PostInit(th, p)) == PostInit(th, p)
    ensures FlagsMatch(th, p) ==> PostInit(th, p) == p
  {
  }

  /** The category of a constructed price, stated on the price alone: each
      tier holds exactly for the prices that fail every earlier tier's test
      and pass its own. */
  lemma CategoryByPrice(th: Thresholds, p: DomainPrice)
    requires FlagsMatch(th, p)
    ensures p.Category() == Bundled <==> p.priceCents <= th.bundledMaxCents
    ensures p.Category() == Recommended
            <==> th.bundledMaxCents < p.priceCents <= th.recommendedMaxCents
    ensures p.Category() == Premium
            <==> p.priceCents > th.bundledMaxCents && p.priceCents > th.recommendedMaxCents
                 && p.priceCents >= th.premiumFlagAboveCents
    ensures p.Category() == Standard
            <==> p.priceCents > th.bundledMaxCents && p.priceCents > th.recommendedMaxCents
                 && p.priceCents < th.premiumFlagAboveCents
  {
  }

  /** A dearer price never falls in a cheaper category, whatever the
      thresholds. */
  lemma CategoryMonotone(th: Thresholds, p: DomainPrice, q: DomainPrice)
    requires FlagsMatch(th, p) && FlagsMatch(th, q)
    requires p.priceCents <= q.priceCents
    ensures p.Category().Rank() <= q.Category().Rank()
  {
  }

  /** The flags are not exclusive: with ordered thresholds a bundled price is
      also flagged recommended, yet its category is bundled alone. */
  lemma BundledAlsoRecommended(th: Thresholds, p: DomainPrice)
    requires FlagsMatch(th, p)
    requires th.bundledMaxCents <= th.recommendedMaxCents
    requires p.priceCents <= th.bundledMaxCents
    ensures p.isBundled && p.isRecommended && p.Category() == Bundled
  {
  }

  /** The four reference prices under thresholds 500 / 1500 / 3000. */
  lemma CategoryExamples(domain: string, tld: string)
    ensures var th := Thresholds(500, 1500, 3000);
            && NewDomainPrice(th, domain, tld, 400, "USD", None).Category() == Bundled
            && NewDomainPrice(th, domain, tld, 1000, "USD", None).Category() == Recommended
            && NewDomainPrice(th, domain, tld, 3500, "USD", None).Category() == Premium
            && NewDomainPrice(th, domain, tld, 2000, "USD", None).Category() == Standard
  {
  }

  /** The category names are four distinct strings. */
  lemma TierNamesDistinct(a: Tier, b: Tier)
    ensures a.Name() == b.Name() <==> a == b
  {
  }

  // ---------------------------------------------------------------------
  // TLD extraction
  // ---------------------------------------------------------------------

  /** `domain.lower().split(".")[-1]`. */
  function Tld(domain: string): string {
    AfterLast(Lower(domain), '.')
  }

  /** The TLD has no '.'; it is the part of the lower-cased domain after its
      last '.', or the whole lower-cased domain when there is no '.'. */
  lemma TldShape(domain: string)
    ensures '.' !in Tld(domain)
    ensures |Tld(domain)| <= |domain| && Tld(domain) == Lower(domain)[|domain| - |Tld(domain)|..]
    ensures |Tld(domain)| < |domain| ==> domain[|domain| - |Tld(domain)| - 1] == '.'
    ensures '.' !in domain ==> Tld(domain) == Lower(domain)
  {
    LowerShape(domain);
    AfterLastShape(Lower(domain), '.');
    if '.' !in domain {
      assert '.' !in Lower(domain);
      AfterLastWithout(Lower(domain), '.');
    }
  }

  /** `Tld` is the last piece of Python's `split`. */
  lemma TldIsLastPiece(domain: string)
    ensures var parts := Split(Lower(domain), '.');
            Tld(domain) == parts[|parts| - 1]
  {
    SplitLastIsAfterLast(Lower(domain), '.');
  }

  lemma TldOfMixedCase()
    ensures Tld("Example.COM") == "com"
  {
    assert Lower("Example.COM") == "example.com";
    LastIndexUnique("example.com", '.', 7);
  }

  lemma TldOfSubdomain()
    ensures Tld("a.b.io") == "io"
  {
    assert Lower("a.b.io") == "a.b.io";
    LastIndexUnique("a.b.io", '.', 3);
  }

  /** A lower-case name without a dot, here "localhost", is its own TLD. */
  lemma TldOfDotless()
    ensures Tld("localhost") == "localhost"
  {
    var s := "localhost";
    assert Lower(s) == s;
    assert forall i :: 0 <= i < |s| ==> s[i] != '.';
    AfterLastWithout(s, '.');
  }

  /** A name ending in '.' has the empty TLD. */
  lemma TldOfTrailingDot(domain: string)
    requires |domain| > 0 && domain[|domain| - 1] == '.'
    ensures Tld(domain) == ""
  {
    var s := Lower(domain);
    LowerShape(domain);
    LastIndexUnique(s, '.', |s| - 1);
  }

  /** The set of TLDs among `domains` (`{domain.lower().split(".")[-1] ...}`). */
  function TldSet(domains: seq<string>): set<string> {
    set d | d in domains :: Tld(d)
  }

  // ---------------------------------------------------------------------
  // Grouping by category (`categorize_domains_by_pricing`)
  // ---------------------------------------------------------------------

  /** The items of a `Dict[str, DomainPrice]` in iteration order; a dict has
      no key twice. */
  predicate DistinctKeys(items: seq<(string, DomainPrice)>) {
    forall i, j :: 0 <= i < j < |items| ==> items[i].0 != items[j].0
  }

  /** The domains of `items`, in order, whose category is `tier`. */
  function DomainsIn(items: seq<(string, DomainPrice)>, tier: Tier): seq<string>
    decreases |items|
  {
    if |items| == 0 then []
    else
      var last := items[|items| - 1];
      DomainsIn(items[..|items| - 1], tier) + (if last.1.Category() == tier then [last.0] else [])
  }

  /** `categorize_domains_by_pricing`: one list per category, filled in one
      pass over the items. */
  method Categorize(items: seq<(string, DomainPrice)>) returns (groups: map<Tier, seq<string>>)
    ensures groups.Keys == AllTiers
    ensures forall t :: t in groups ==> groups[t] == DomainsIn(items, t)
    ensures |groups[Bundled]| + |groups[Recommended]| + |groups[Standard]| + |groups[Premium]|
            == |items|
  {
    groups := map[Bundled := [], Recommended := [], Standard := [], Premium := []];
    for i := 0 to |items|
      invariant groups.Keys == AllTiers
      invariant forall t :: t in groups ==> groups[t] == DomainsIn(items[..i], t)
    {
      var (domain, price) := items[i];
      var c := price.Category();
      groups := groups[c := groups[c] + [domain]];
      assert items[..i + 1][..i] == items[..i];
    }
    assert items[..|items|] == items;
    GroupSizes(items);
  }

  /** Each item lands in exactly one list. */
  lemma {:induction false} GroupSizes(items: seq<(string, DomainPrice)>)
    ensures |DomainsIn(items, Bundled)| + |DomainsIn(items, Recommended)|
            + |DomainsIn(items, Standard)| + |DomainsIn(items, Premium)| == |items|
    decreases |items|
  {
    if |items| > 0 {
      GroupSizes(items[..|items| - 1]);
    }
  }

  /** A domain is in the list of a category exactly when some item with that
      domain has that category. */
  lemma {:induction false} InGroupIff(items: seq<(string, DomainPrice)>, tier: Tier, d: string)
    ensures d in DomainsIn(items, tier)
            <==> exists i :: 0 <= i < |items| && items[i].0 == d && items[i].1.Category() == tier
    decreases |items|
  {
    if |items| > 0 {
      var init := items[..|items| - 1];
      InGroupIff(init, tier, d);
      if d in DomainsIn(init, tier) {
        var i :| 0 <= i < |init| && init[i].0 == d && init[i].1.Category() == tier;
        assert items[i] == init[i];
      }
      if exists i :: 0 <= i < |items| && items[i].0 == d && items[i].1.Category() == tier {
        var i :| 0 <= i < |items| && items[i].0 == d && items[i].1.Category() == tier;
        if i < |init| {
          assert init[i] == items[i];
        }
      }
    }
  }

  /** For a dict, every domain appears in the list of its own category and
      in no other. */
  lemma InOwnGroupOnly(items: seq<(string, DomainPrice)>, i: int, tier: Tier)
    requires DistinctKeys(items)
    requires 0 <= i < |items|
    ensures items[i].0 in DomainsIn(items, tier) <==> items[i].1.Category() == tier
  {
    InGroupIff(items, tier, items[i].0);
  }

  /** Appending items appends to each list: the lists keep iteration order. */
  lemma {:induction false} GroupsKeepOrder(a: seq<(string, DomainPrice)>, b: seq<(string, DomainPrice)>, tier: Tier)
    ensures DomainsIn(a + b, tier) == DomainsIn(a, tier) + DomainsIn(b, tier)
    decreases |b|
  {
    if |b| > 0 {
      var b' := b[..|b| - 1];
      assert (a + b)[..|a + b| - 1] == a + b';
      GroupsKeepOrder(a, b', tier);
    } else {
      assert a + b == a;
    }
  }
}
