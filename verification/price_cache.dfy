/** The pricing client of `grove_domain_tool/pricing.py` (`CloudflarePricing`):
    a per-TLD cache in front of a request that returns the whole catalog,
    the per-domain lookup built on it, and the batch lookup.

    The request itself is not modelled: each call receives the response it
    would get, and the client counts the requests it sends. */
module PriceCache {
  import opened Wrappers
  import opened Text
  import opened Pricing

  /** One row of the catalog, its prices already in cents. */
  datatype CatalogEntry = CatalogEntry(tld: string, priceCents: int, renewalCents: int)

  /** What one request for the catalog yields: a transport or decoding
      failure, or a decoded payload with its `success` flag and its rows. */
  datatype FetchOutcome =
    | TransportFailure(reason: string)
    | Payload(success: bool, result: seq<CatalogEntry>)

  /** `PricingError`, by cause. */
  datatype PricingError = HttpError(reason: string) | ApiError

  /** The client's state: the TLD cache and the number of requests sent. */
  datatype Client = Client(cache: map<string, DomainPrice>, fetches: nat)

  /** A fresh client, as each run of the program starts with. */
  const NewClient: Client := Client(map[], 0)

  /** The outcome of a lookup together with the client state after it. */
  datatype Reply = Reply(client: Client, outcome: Result<Option<DomainPrice>, PricingError>)

  /** The form of a price the client stores: bound to the pseudo-domain
      ".tld", in US dollars, with flags set from the thresholds. */
  predicate StoredForm(th: Thresholds, tld: string, p: DomainPrice) {
    && p.tld == tld
    && p.domain == "." + tld
    && p.currency == "USD"
    && FlagsMatch(th, p)
  }

  /** Every cache entry is stored under its own TLD. */
  predicate Valid(th: Thresholds, c: Client) {
    forall t :: t in c.cache ==> StoredForm(th, t, c.cache[t])
  }

  lemma NewClientValid(th: Thresholds)
    ensures Valid(th, NewClient) && NewClient.fetches == 0
  {
  }

  // ---------------------------------------------------------------------
  // Reading a response
  // ---------------------------------------------------------------------

  /** Entry `j` is the first row of `entries` for `tld`. */
  predicate IsFirstMatch(entries: seq<CatalogEntry>, tld: string, j: int) {
    && 0 <= j < |entries|
    && entries[j].tld == tld
    && forall i :: 0 <= i < j ==> entries[i].tld != tld
  }

  /** The scan of the catalog rows for `tld`, front to back. */
  function FirstMatch(entries: seq<CatalogEntry>, tld: string): (k: Option<nat>)
    ensures k.Some? ==> IsFirstMatch(entries, tld, k.value)
    ensures k.None? <==> forall j :: 0 <= j < |entries| ==> entries[j].tld != tld
    decreases |entries|
  {
    if |entries| == 0 then None
    else if entries[0].tld == tld then Some(0)
    else
      match FirstMatch(entries[1..], tld)
      case None => None
      case Some(k) => Some(k + 1)
  }

  /** The price built from a catalog row. */
  function PriceFromEntry(th: Thresholds, e: CatalogEntry): (p: DomainPrice)
    ensures StoredForm(th, e.tld, p)
    ensures p.priceCents == e.priceCents && p.annualRenewalCents == Some(e.renewalCents)
  {
    NewDomainPrice(th, "." + e.tld, e.tld, e.priceCents, "USD", Some(e.renewalCents))
  }

  /** What a response says about `tld`: an error unless it is a successful
      payload, otherwise the price from the first row for `tld`, if any. */
  function Answer(th: Thresholds, response: FetchOutcome, tld: string)
    : Result<Option<DomainPrice>, PricingError>
  {
    match response
    case TransportFailure(reason) => Failure(HttpError(reason))
    case Payload(success, result) =>
      if !success then Failure(ApiError)
      else
        match FirstMatch(result, tld)
        case Some(k) => Success(Some(PriceFromEntry(th, result[k])))
        case None => Success(None)
  }

  /** A response yields an error exactly when it is not a successful
      payload; otherwise a price exactly when some row names the TLD, built
      from the first such row. */
  lemma AnswerShape(th: Thresholds, response: FetchOutcome, tld: string)
    ensures var r := Answer(th, response, tld);
            && (r.Failure? <==> !(response.Payload? && response.success))
            && (response.TransportFailure? ==> r == Failure(HttpError(response.reason)))
            && (response.Payload? && !response.success ==> r == Failure(ApiError))
            && (r.Success? ==>
                  (r.value.Some? <==> exists j :: 0 <= j < |response.result| && response.result[j].tld == tld))
            && (r.Success? && r.value.Some? ==>
                  exists j :: IsFirstMatch(response.result, tld, j)
                              && r.value.value == PriceFromEntry(th, response.result[j]))
  {
  }

  // ---------------------------------------------------------------------
  // get_tld_pricing
  // ---------------------------------------------------------------------

  /** `get_tld_pricing`: a cached TLD is answered from the cache with no
      request; otherwise one request is sent, its answer returned, and only
      a price that was found is stored. */
  function GetTldPricing(th: Thresholds, c: Client, tld: string, response: FetchOutcome): (r: Reply)
    ensures tld in c.cache ==> r == Reply(c, Success(Some(c.cache[tld])))
    ensures tld !in c.cache ==> r.client.fetches == c.fetches + 1
    ensures tld !in c.cache ==> r.outcome == Answer(th, response, tld)
    ensures r.outcome.Success? && r.outcome.value.Some? ==>
              r.client.cache == c.cache[tld := r.outcome.value.value]
    ensures !(r.outcome.Success? && r.outcome.value.Some?) ==> r.client.cache == c.cache
    ensures Valid(th, c) ==> Valid(th, r.client)
  {
    if tld in c.cache then Reply(c, Success(Some(c.cache[tld])))
    else
      var answer := Answer(th, response, tld);
      var cache := if answer.Success? && answer.value.Some? then c.cache[tld := answer.value.value]
                   else c.cache;
      Reply(Client(cache, c.fetches + 1), answer)
  }

  /** Asking twice for a TLD that was found sends no second request and gets
      the same price. */
  lemma SecondLookupHits(th: Thresholds, c: Client, tld: string, first: FetchOutcome, second: FetchOutcome)
    requires GetTldPricing(th, c, tld, first).outcome.Success?
    requires GetTldPricing(th, c, tld, first).outcome.value.Some?
    ensures var r1 := GetTldPricing(th, c, tld, first);
            var r2 := GetTldPricing(th, r1.client, tld, second);
            r2.client == r1.client && r2.outcome == r1.outcome
  {
  }

  /** A TLD that was not found, or whose request failed, is not cached: the
      next lookup sends a request again. */
  lemma MissIsRetried(th: Thresholds, c: Client, tld: string, first: FetchOutcome, second: FetchOutcome)
    requires tld !in c.cache
    requires !(GetTldPricing(th, c, tld, first).outcome.Success?
               && GetTldPricing(th, c, tld, first).outcome.value.Some?)
    ensures var r1 := GetTldPricing(th, c, tld, first);
            var r2 := GetTldPricing(th, r1.client, tld, second);
            r1.client.cache == c.cache && r2.client.fetches == c.fetches + 2
  {
  }

  /** The first catalog row for the TLD wins over later ones. */
  lemma FirstRowWins(th: Thresholds, c: Client, tld: string, rows: seq<CatalogEntry>,
                     a: CatalogEntry, b: CatalogEntry)
    requires tld !in c.cache
    requires a.tld == tld && b.tld == tld
    requires forall i :: 0 <= i < |rows| ==> rows[i].tld != tld
    ensures GetTldPricing(th, c, tld, Payload(true, rows + [a, b])).outcome
            == Success(Some(PriceFromEntry(th, a)))
  {
    var entries := rows + [a, b];
    var r := GetTldPricing(th, c, tld, Payload(true, entries));
    assert entries[|rows|].tld == tld;
    AnswerShape(th, Payload(true, entries), tld);
    var j :| IsFirstMatch(entries, tld, j) && r.outcome.value.value == PriceFromEntry(th, entries[j]);
    assert j == |rows|;
  }

  // ---------------------------------------------------------------------
  // get_domain_pricing
  // ---------------------------------------------------------------------

  /** A TLD price carried over to `domain` (the copy the program makes). */
  function Rebind(th: Thresholds, domain: string, q: DomainPrice): (p: DomainPrice)
    ensures p.domain == domain
    ensures p.tld == q.tld && p.priceCents == q.priceCents
    ensures p.currency == q.currency && p.annualRenewalCents == q.annualRenewalCents
    ensures FlagsMatch(th, p)
    ensures FlagsMatch(th, q) ==> p.Category() == q.Category()
  {
    var p := NewDomainPrice(th, domain, q.tld, q.priceCents, q.currency, q.annualRenewalCents);
    assert FlagsMatch(th, q) ==> p.Category() == q.Category() by {
      if FlagsMatch(th, q) {
        CategoryByPrice(th, p);
        CategoryByPrice(th, q);
      }
    }
    p
  }

  /** `get_domain_pricing`: the TLD lookup for the domain's TLD, its price
      carried over to the domain; errors pass through. */
  function GetDomainPricing(th: Thresholds, c: Client, domain: string, response: FetchOutcome): (r: Reply)
    ensures var l := GetTldPricing(th, c, Tld(domain), response);
            && r.client == l.client
            && (r.outcome.Failure? <==> l.outcome.Failure?)
            && (r.outcome == Success(None) <==> l.outcome == Success(None))
            && (r.outcome.Success? && r.outcome.value.Some? ==>
                  var p := r.outcome.value.value;
                  var q := l.outcome.value.value;
                  && l.outcome.Success? && l.outcome.value.Some?
                  && p.domain == domain && p.tld == q.tld && p.priceCents == q.priceCents
                  && p.currency == q.currency && p.annualRenewalCents == q.annualRenewalCents
                  && (Valid(th, c) ==> p.Category() == q.Category()))
  {
    var l := GetTldPricing(th, c, Tld(domain), response);
    match l.outcome
    case Success(Some(q)) => Reply(l.client, Success(Some(Rebind(th, domain, q))))
    case _ => l
  }

  /** With a valid cache, the price found for a domain is stored under the
      domain's TLD. */
  lemma DomainPriceHasDomainTld(th: Thresholds, c: Client, domain: string, response: FetchOutcome)
    requires Valid(th, c)
    requires GetDomainPricing(th, c, domain, response).outcome.Success?
    requires GetDomainPricing(th, c, domain, response).outcome.value.Some?
    ensures var r := GetDomainPricing(th, c, domain, response);
            && r.outcome.value.value.tld == Tld(domain)
            && Tld(domain) in r.client.cache
  {
  }

  // ---------------------------------------------------------------------
  // batch_pricing
  // ---------------------------------------------------------------------

  /** `order` lists each element of `s` exactly once, as iterating a Python
      set does. */
  predicate Enumerates(order: seq<string>, s: set<string>) {
    && (forall i, j :: 0 <= i < j < |order| ==> order[i] != order[j])
    && (set t | t in order) == s
  }

  /** The number of entries of `order` that are not in `cached`. */
  function CountUncached(order: seq<string>, cached: set<string>): nat
    decreases |order|
  {
    if |order| == 0 then 0
    else CountUncached(order[..|order| - 1], cached) + (if order[|order| - 1] in cached then 0 else 1)
  }

  /** Without repeats, that number is the size of the uncached set. */
  lemma {:induction false} CountUncachedIsSize(order: seq<string>, cached: set<string>)
    requires forall i, j :: 0 <= i < j < |order| ==> order[i] != order[j]
    ensures CountUncached(order, cached) == |(set t | t in order) - cached|
    decreases |order|
  {
    if |order| > 0 {
      var init := order[..|order| - 1];
      var x := order[|order| - 1];
      CountUncachedIsSize(init, cached);
      assert order == init + [x];
      ElementsSnoc(init, x);
      assert forall j :: 0 <= j < |init| ==> init[j] != x;
      var a := set t | t in init;
      UncachedGrowth(a, x, cached);
    }
  }

  lemma ElementsSnoc<T>(init: seq<T>, x: T)
    ensures (set t | t in init + [x]) == (set t | t in init) + {x}
  {
  }

  lemma UncachedGrowth(a: set<string>, x: string, cached: set<string>)
    requires x !in a
    ensures |(a + {x}) - cached| == |a - cached| + (if x in cached then 0 else 1)
  {
    if x in cached {
      assert (a + {x}) - cached == a - cached;
    } else {
      assert (a + {x}) - cached == (a - cached) + {x};
    }
  }

  /** What the `i`-th TLD of a batch resolves to, read off the state before
      the batch: its cached price, or else the answer to the request it
      sends, which is the request numbered by the client's count plus the
      uncached TLDs before it. */
  function BatchOutcome(th: Thresholds, c: Client, order: seq<string>, i: int,
                        oracle: nat -> FetchOutcome): Option<DomainPrice>
    requires 0 <= i < |order|
  {
    var t := order[i];
    if t in c.cache then Some(c.cache[t])
    else
      Found(Answer(th, oracle(c.fetches + CountUncached(order[..i], c.cache.Keys)), t))
  }

  /** The entry of `m` for `k`, if any. */
  function Lookup(m: map<string, DomainPrice>, k: string): Option<DomainPrice> {
    if k in m then Some(m[k]) else None
  }

  /** The prices found for a TLD lookup: a found price, or nothing. */
  function Found(outcome: Result<Option<DomainPrice>, PricingError>): Option<DomainPrice> {
    match outcome
    case Success(found) => found
    case Failure(_) => None
  }

  lemma UnionUpdate<K, V>(a: map<K, V>, b: map<K, V>, k: K, v: V)
    ensures (a + b)[k := v] == a + b[k := v]
  {
  }

  lemma UnionRestore<K, V>(a: map<K, V>, b: map<K, V>, k: K)
    requires k in a && k !in b
    ensures a + b == a + b[k := a[k]]
  {
  }

  /** The lookup of the `i`-th TLD finds its `BatchOutcome`. */
  lemma StepOutcome(th: Thresholds, c: Client, order: seq<string>, oracle: nat -> FetchOutcome,
                    i: int, cur: Client, tldPrices: map<string, DomainPrice>)
    requires 0 <= i < |order|
    requires order[i] !in tldPrices
    requires cur.fetches == c.fetches + CountUncached(order[..i], c.cache.Keys)
    requires cur.cache == c.cache + tldPrices
    ensures Found(GetTldPricing(th, cur, order[i], oracle(cur.fetches)).outcome)
            == BatchOutcome(th, c, order, i, oracle)
  {
    var t := order[i];
    assert t in cur.cache <==> t in c.cache;
    if t in c.cache {
      assert cur.cache[t] == c.cache[t];
    }
  }

  /** The request counter follows `CountUncached`. */
  lemma StepCounts(c: Client, order: seq<string>, i: int, before: nat, after: nat)
    requires 0 <= i < |order|
    requires before == c.fetches + CountUncached(order[..i], c.cache.Keys)
    requires after == before + (if order[i] in c.cache then 0 else 1)
    ensures after == c.fetches + CountUncached(order[..i + 1], c.cache.Keys)
  {
    assert order[..i + 1][..i] == order[..i];
  }

  /** The cache stays the initial cache overlaid with the prices found. */
  lemma StepCache(cache0: map<string, DomainPrice>, tldPrices: map<string, DomainPrice>,
                  cur: Client, reply: Reply, t: string)
    requires t !in tldPrices
    requires cur.cache == cache0 + tldPrices
    requires t in cur.cache ==> reply == Reply(cur, Success(Some(cur.cache[t])))
    requires Found(reply.outcome).Some? ==> reply.client.cache == cur.cache[t := Found(reply.outcome).value]
    requires Found(reply.outcome).None? ==> reply.client.cache == cur.cache
    ensures reply.client.cache == cache0 + match Found(reply.outcome)
                                           case Some(p) => tldPrices[t := p]
                                           case None => tldPrices
  {
    if t in cur.cache {
      UnionRestore(cache0, tldPrices, t);
    } else if Found(reply.outcome).Some? {
      UnionUpdate(cache0, tldPrices, t, Found(reply.outcome).value);
    }
  }

  /** The prices found so far, extended by what the lookup of `t` found. */
  function Extend(tldPrices: map<string, DomainPrice>, t: string, found: Option<DomainPrice>)
    : map<string, DomainPrice>
  {
    match found
    case Some(p) => tldPrices[t := p]
    case None => tldPrices
  }

  /** The prices found agree with `BatchOutcome` on the `j`-th TLD. */
  predicate Agrees(th: Thresholds, c: Client, order: seq<string>, oracle: nat -> FetchOutcome,
                   tldPrices: map<string, DomainPrice>, j: int)
    requires 0 <= j < |order|
  {
    Lookup(tldPrices, order[j]) == BatchOutcome(th, c, order, j, oracle)
  }

  /** The per-TLD facts extend from the first `i` TLDs to the first `i + 1`. */
  lemma StepKeys(th: Thresholds, c: Client, order: seq<string>, oracle: nat -> FetchOutcome,
                 i: int, tldPrices: map<string, DomainPrice>)
    requires forall a, b :: 0 <= a < b < |order| ==> order[a] != order[b]
    requires 0 <= i < |order|
    requires forall t :: t in tldPrices ==> t in order[..i]
    requires forall j :: 0 <= j < i ==> Agrees(th, c, order, oracle, tldPrices, j)
    ensures var next := Extend(tldPrices, order[i], BatchOutcome(th, c, order, i, oracle));
            && (forall t :: t in next ==> t in order[..i + 1])
            && (forall j :: 0 <= j < i + 1 ==> Agrees(th, c, order, oracle, next, j))
  {
    var t := order[i];
    var next := Extend(tldPrices, t, BatchOutcome(th, c, order, i, oracle));
    assert order[..i + 1] == order[..i] + [t];
    assert t !in tldPrices;
    forall j | 0 <= j < i + 1
      ensures Agrees(th, c, order, oracle, next, j)
    {
      if j < i {
        assert Agrees(th, c, order, oracle, tldPrices, j);
        assert order[j] != t;
        assert Lookup(next, order[j]) == Lookup(tldPrices, order[j]);
      }
    }
  }

  /** The state of the first loop of `batch_pricing` after its first `i`
      TLDs: the requests sent, the cache, and what was found for each. */
  predicate Resolved(th: Thresholds, c: Client, order: seq<string>, oracle: nat -> FetchOutcome,
                     i: int, cur: Client, tldPrices: map<string, DomainPrice>)
    requires 0 <= i <= |order|
  {
    && cur.fetches == c.fetches + CountUncached(order[..i], c.cache.Keys)
    && cur.cache == c.cache + tldPrices
    && (forall t :: t in tldPrices ==> t in order[..i])
    && (forall j :: 0 <= j < i ==> Agrees(th, c, order, oracle, tldPrices, j))
    && (Valid(th, c) ==> Valid(th, cur))
  }

  /** One iteration of that loop: the lookup of the `i`-th TLD. */
  lemma Step(th: Thresholds, c: Client, order: seq<string>, oracle: nat -> FetchOutcome,
             i: int, cur: Client, tldPrices: map<string, DomainPrice>)
    requires forall a, b :: 0 <= a < b < |order| ==> order[a] != order[b]
    requires 0 <= i < |order|
    requires Resolved(th, c, order, oracle, i, cur, tldPrices)
    ensures var reply := GetTldPricing(th, cur, order[i], oracle(cur.fetches));
            Resolved(th, c, order, oracle, i + 1, reply.client,
                     Extend(tldPrices, order[i], Found(reply.outcome)))
  {
    var t := order[i];
    assert t !in tldPrices;
    var reply := GetTldPricing(th, cur, t, oracle(cur.fetches));
    StepOutcome(th, c, order, oracle, i, cur, tldPrices);
    StepCounts(c, order, i, cur.fetches, reply.client.fetches);
    StepCache(c.cache, tldPrices, cur, reply, t);
    StepKeys(th, c, order, oracle, i, tldPrices);
  }

  /** The first loop of `batch_pricing`: one TLD lookup per TLD of
      `order`, skipping TLDs whose lookup fails. Request number `n` of the
      client gets the response `oracle(n)`. */
  method ResolveTlds(th: Thresholds, c: Client, order: seq<string>, oracle: nat -> FetchOutcome)
    returns (c': Client, tldPrices: map<string, DomainPrice>)
    requires forall i, j :: 0 <= i < j < |order| ==> order[i] != order[j]
    ensures forall i :: 0 <= i < |order| ==> Agrees(th, c, order, oracle, tldPrices, i)
    ensures forall t :: t in tldPrices ==> t in order
    ensures c'.cache == c.cache + tldPrices
    ensures c'.fetches == c.fetches + CountUncached(order, c.cache.Keys)
    ensures Valid(th, c) ==> Valid(th, c')
  {
    c' := c;
    tldPrices := map[];
    for i := 0 to |order|
      invariant Resolved(th, c, order, oracle, i, c', tldPrices)
    {
      var reply := GetTldPricing(th, c', order[i], oracle(c'.fetches));
      Step(th, c, order, oracle, i, c', tldPrices);
      c', tldPrices := reply.client, Extend(tldPrices, order[i], Found(reply.outcome));
    }
    assert order[..|order|] == order;
  }

  /** The second loop of `batch_pricing`: every domain whose TLD has a price
      gets that price carried over to it. */
  method ProjectPrices(th: Thresholds, domains: seq<string>, tldPrices: map<string, DomainPrice>)
    returns (prices: map<string, DomainPrice>)
    ensures forall d :: d in prices <==> d in domains && Tld(d) in tldPrices
    ensures forall d :: d in prices ==> prices[d] == Rebind(th, d, tldPrices[Tld(d)])
  {
    prices := map[];
    for k := 0 to |domains|
      invariant forall d :: d in prices <==> d in domains[..k] && Tld(d) in tldPrices
      invariant forall d :: d in prices ==> prices[d] == Rebind(th, d, tldPrices[Tld(d)])
    {
      var d := domains[k];
      assert forall x :: x in domains[..k + 1] <==> x in domains[..k] || x == d by {
        assert domains[..k + 1] == domains[..k] + [d];
      }
      var t := Tld(d);
      if t in tldPrices {
        prices := prices[d := Rebind(th, d, tldPrices[t])];
      }
    }
    assert domains[..|domains|] == domains;
  }

  /** `batch_pricing`: the TLDs of `domains`, looked up once each in the
      iteration order `order`; a TLD whose lookup fails is skipped without
      affecting the others; each domain whose TLD has a price gets it. */
  method BatchPricing(th: Thresholds, c: Client, domains: seq<string>, order: seq<string>,
                      oracle: nat -> FetchOutcome)
    returns (c': Client, tldPrices: map<string, DomainPrice>, prices: map<string, DomainPrice>)
    requires Enumerates(order, TldSet(domains))
    ensures forall i :: 0 <= i < |order| ==> Agrees(th, c, order, oracle, tldPrices, i)
    ensures tldPrices.Keys <= TldSet(domains)
    ensures forall d :: d in prices <==> d in domains && Tld(d) in tldPrices
    ensures forall d :: d in prices ==> prices[d] == Rebind(th, d, tldPrices[Tld(d)])
    ensures c'.cache == c.cache + tldPrices
    ensures c'.fetches == c.fetches + |TldSet(domains) - c.cache.Keys|
    ensures Valid(th, c) ==> Valid(th, c')
  {
    c', tldPrices := ResolveTlds(th, c, order, oracle);
    CountUncachedIsSize(order, c.cache.Keys);
    prices := ProjectPrices(th, domains, tldPrices);
  }
}
