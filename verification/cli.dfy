/** The logic of `grove_domain_search/cli.py` around the pricing layer:
    attaching prices to check results for one domain or many, reading a
    domain file, and grouping results by status. The availability checker
    is not part of this model: its results are inputs. */
module Cli {
  import opened Wrappers
  import opened Text
  import opened Pricing
  import opened PriceCache

  /** The three statuses a check result can have. */
  datatype Status = Available | Registered | Unknown

  /** A check result with the price the CLI may attach to it (`_pricing_info`). */
  datatype DomainResult = DomainResult(
    domain: string,
    status: Status,
    registrar: Option<string>,
    expiration: Option<string>,
    creation: Option<string>,
    error: Option<string>,
    pricing: Option<DomainPrice>)

  /** `b` is `a` with at most its price changed. */
  predicate SameCheck(a: DomainResult, b: DomainResult) {
    b.(pricing := a.pricing) == a
  }

  // ---------------------------------------------------------------------
  // check_multiple_domains
  // ---------------------------------------------------------------------

  /** The domains of the AVAILABLE results, in order. */
  function AvailableDomains(results: seq<DomainResult>): (ds: seq<string>)
    ensures |ds| <= |results|
    ensures forall d :: d in ds <==>
              exists i :: 0 <= i < |results| && results[i].domain == d && results[i].status == Available
    decreases |results|
  {
    if |results| == 0 then []
    else
      var init := results[..|results| - 1];
      var last := results[|results| - 1];
      var ds := AvailableDomains(init);
      assert forall i :: 0 <= i < |init| ==> init[i] == results[i];
      if last.status == Available then ds + [last.domain] else ds
  }

  /** The TLD of each domain, in order. */
  function Tlds(domains: seq<string>): (ts: seq<string>)
    ensures |ts| == |domains|
    ensures forall i :: 0 <= i < |domains| ==> ts[i] == Tld(domains[i])
  {
    seq(|domains|, i requires 0 <= i < |domains| => Tld(domains[i]))
  }

  /** The distinct elements of `s` in order of first occurrence. */
  function Dedup(s: seq<string>): (r: seq<string>)
    ensures forall i, j :: 0 <= i < j < |r| ==> r[i] != r[j]
    ensures forall x :: x in r <==> x in s
    decreases |s|
  {
    if |s| == 0 then []
    else
      var r := Dedup(s[..|s| - 1]);
      var x := s[|s| - 1];
      assert forall y :: y in s <==> y in s[..|s| - 1] || y == x;
      if x in r then r else r + [x]
  }

  /** The order in which the batch visits the TLDs of `domains`: each TLD
      once, in order of first appearance. */
  function TldOrder(domains: seq<string>): (order: seq<string>)
    ensures Enumerates(order, TldSet(domains))
  {
    var order := Dedup(Tlds(domains));
    TldsCoverSet(domains);
    order
  }

  /** The listed TLDs are exactly the TLDs of the domains. */
  lemma TldsCoverSet(domains: seq<string>)
    ensures (set t | t in Tlds(domains)) == TldSet(domains)
  {
    ImageOfList(domains, Tlds(domains), Tld);
  }

  /** A list of images has the image set as its elements. */
  lemma ImageOfList<A, B>(xs: seq<A>, ys: seq<B>, f: A -> B)
    requires |ys| == |xs|
    requires forall i :: 0 <= i < |xs| ==> ys[i] == f(xs[i])
    ensures (set y | y in ys) == (set x | x in xs :: f(x))
  {
    forall y | y in (set x | x in xs :: f(x))
      ensures y in ys
    {
      var x :| x in xs && f(x) == y;
      var i :| 0 <= i < |xs| && xs[i] == x;
      assert ys[i] == y;
    }
  }

  /** The loop at cli.py:133-135: each result whose domain has a price gets
      it; when the batch raised, nothing is attached. */
  function MergePricing(results: seq<DomainResult>, batch: Result<map<string, DomainPrice>, string>)
    : (merged: seq<DomainResult>)
    ensures |merged| == |results|
    ensures forall i :: 0 <= i < |results| ==> SameCheck(results[i], merged[i])
    ensures forall i :: 0 <= i < |results| ==>
              merged[i].pricing == if batch.Success? && results[i].domain in batch.value
                                   then Some(batch.value[results[i].domain]) else results[i].pricing
    ensures batch.Failure? ==> merged == results
  {
    match batch
    case Failure(_) => results
    case Success(prices) =>
      seq(|results|, i requires 0 <= i < |results| =>
        if results[i].domain in prices then results[i].(pricing := Some(prices[results[i].domain]))
        else results[i])
  }

  /** After a batch, the cache holds a price for a TLD of the batch exactly
      when the batch found one, and it is the same price. */
  lemma CacheAfterBatch(c: Client, c': Client, order: seq<string>, tldPrices: map<string, DomainPrice>,
                        th: Thresholds, oracle: nat -> FetchOutcome, t: string)
    requires t in order
    requires forall i :: 0 <= i < |order| ==> Agrees(th, c, order, oracle, tldPrices, i)
    requires c'.cache == c.cache + tldPrices
    ensures t in tldPrices <==> t in c'.cache
    ensures t in tldPrices ==> c'.cache[t] == tldPrices[t]
  {
    var i :| 0 <= i < |order| && order[i] == t;
    assert Agrees(th, c, order, oracle, tldPrices, i);
  }

  /** `check_multiple_domains`, given the results of the availability check:
      when pricing is wanted and some domain is available, the TLDs of the
      available domains are priced in one batch (`tldPrices`, empty when no
      batch runs) and the prices attached. The result list keeps the length
      and order of the checks. */
  method CheckMultipleDomains(th: Thresholds, c: Client, checked: seq<DomainResult>,
                              includePricing: bool, oracle: nat -> FetchOutcome)
    returns (results: seq<DomainResult>, c': Client, tldPrices: map<string, DomainPrice>)
    ensures |results| == |checked|
    ensures forall i :: 0 <= i < |checked| ==> SameCheck(checked[i], results[i])
    ensures !includePricing || AvailableDomains(checked) == [] ==>
              results == checked && c' == c && tldPrices == map[]
    ensures includePricing && AvailableDomains(checked) != [] ==>
              var order := TldOrder(AvailableDomains(checked));
              forall i :: 0 <= i < |order| ==> Agrees(th, c, order, oracle, tldPrices, i)
    ensures tldPrices.Keys <= TldSet(AvailableDomains(checked))
    ensures c'.cache == c.cache + tldPrices
    ensures includePricing ==>
              c'.fetches == c.fetches + |TldSet(AvailableDomains(checked)) - c.cache.Keys|
    ensures forall i :: 0 <= i < |checked| ==>
              var d := checked[i].domain;
              results[i].pricing
                == if includePricing && d in AvailableDomains(checked) && Tld(d) in tldPrices
                   then Some(Rebind(th, d, tldPrices[Tld(d)]))
                   else checked[i].pricing
    ensures Valid(th, c) ==> Valid(th, c')
  {
    results, c', tldPrices := checked, c, map[];
    if includePricing {
      var available := AvailableDomains(checked);
      if available != [] {
        var order := TldOrder(available);
        var prices;
        c', tldPrices, prices := BatchPricing(th, c, available, order, oracle);
        results := MergePricing(checked, Success(prices));
      }
    }
  }

  /** Each available domain is priced from its own TLD's lookup, whatever
      the other lookups return: given an outcome of `CheckMultipleDomains`
      with pricing on, when the lookup of the domain's TLD finds a price,
      the result carries that price, carried over to the domain. */
  lemma PricedFromOwnLookup(th: Thresholds, c: Client, checked: seq<DomainResult>,
                            oracle: nat -> FetchOutcome, results: seq<DomainResult>,
                            tldPrices: map<string, DomainPrice>, i: int, k: int)
    requires AvailableDomains(checked) != []
    requires var order := TldOrder(AvailableDomains(checked));
             forall j :: 0 <= j < |order| ==> Agrees(th, c, order, oracle, tldPrices, j)
    requires |results| == |checked|
    requires forall j :: 0 <= j < |checked| ==>
               var d := checked[j].domain;
               results[j].pricing
                 == if d in AvailableDomains(checked) && Tld(d) in tldPrices
                    then Some(Rebind(th, d, tldPrices[Tld(d)]))
                    else checked[j].pricing
    requires 0 <= i < |checked| && checked[i].status == Available
    requires var order := TldOrder(AvailableDomains(checked));
             0 <= k < |order| && order[k] == Tld(checked[i].domain)
    ensures var found := BatchOutcome(th, c, TldOrder(AvailableDomains(checked)), k, oracle);
            found.Some? ==> results[i].pricing == Some(Rebind(th, checked[i].domain, found.value))
  {
    var order := TldOrder(AvailableDomains(checked));
    assert checked[i].domain in AvailableDomains(checked);
    assert Agrees(th, c, order, oracle, tldPrices, k);
  }

  // ---------------------------------------------------------------------
  // check_single_domain
  // ---------------------------------------------------------------------

  /** A check result and the client state after it. */
  datatype Checked = Checked(result: DomainResult, client: Client)

  /** `check_single_domain`, given the result of the availability check:
      an AVAILABLE domain is priced when pricing is wanted, and a failed
      lookup is swallowed. */
  function CheckSingleDomain(th: Thresholds, c: Client, domain: string, checked: DomainResult,
                             includePricing: bool, response: FetchOutcome): (r: Checked)
    ensures SameCheck(checked, r.result)
    ensures !(includePricing && checked.status == Available) ==> r == Checked(checked, c)
    ensures includePricing && checked.status == Available ==>
              var l := GetDomainPricing(th, c, domain, response);
              && r.client == l.client
              && (r.result.pricing != checked.pricing ==> l.outcome.Success? && l.outcome.value.Some?)
              && (l.outcome.Success? && l.outcome.value.Some? ==>
                    r.result.pricing == Some(l.outcome.value.value))
  {
    if includePricing && checked.status == Available then
      var l := GetDomainPricing(th, c, domain, response);
      match l.outcome
      case Success(Some(p)) => Checked(checked.(pricing := Some(p)), l.client)
      case _ => Checked(checked, l.client)
    else Checked(checked, c)
  }

  /** When the pricing request fails, the check result comes back unchanged
      and the error goes no further. */
  lemma SingleFailureSwallowed(th: Thresholds, c: Client, domain: string, checked: DomainResult,
                               response: FetchOutcome)
    requires checked.status == Available
    requires Tld(domain) !in c.cache
    requires !(response.Payload? && response.success)
    ensures CheckSingleDomain(th, c, domain, checked, true, response).result == checked
    ensures CheckSingleDomain(th, c, domain, checked, true, response).client
            == Client(c.cache, c.fetches + 1)
  {
  }

  /** A price attached to a single domain is for that domain, under its TLD. */
  lemma SinglePriceForDomain(th: Thresholds, c: Client, domain: string, checked: DomainResult,
                             response: FetchOutcome)
    requires Valid(th, c)
    requires checked.pricing.None?
    requires CheckSingleDomain(th, c, domain, checked, true, response).result.pricing.Some?
    ensures var p := CheckSingleDomain(th, c, domain, checked, true, response).result.pricing.value;
            p.domain == domain && p.tld == Tld(domain) && FlagsMatch(th, p)
  {
    var l := GetDomainPricing(th, c, domain, response);
    DomainPriceHasDomainTld(th, c, domain, response);
  }

  // ---------------------------------------------------------------------
  // Reading a domain file
  // ---------------------------------------------------------------------

  /** A line is kept when it is not blank and the raw line does not start
      with '#'. */
  predicate KeepLine(line: string) {
    Strip(line) != "" && !(|line| > 0 && line[0] == '#')
  }

  /** The domains listed in a file, given its lines as iterating the file
      yields them: the kept lines, stripped, in file order. Every domain
      read is non-empty and has no surrounding white space. */
  function DomainLines(lines: seq<string>): (ds: seq<string>)
    ensures |ds| <= |lines|
    ensures forall i :: 0 <= i < |ds| ==> ds[i] != "" && Strip(ds[i]) == ds[i]
    decreases |lines|
  {
    if |lines| == 0 then []
    else
      var line := lines[|lines| - 1];
      var rest := DomainLines(lines[..|lines| - 1]);
      if KeepLine(line) then
        StripIdempotent(line);
        rest + [Strip(line)]
      else rest
  }

  /** The kept line `line` strips to `d`. */
  predicate Yields(line: string, d: string) {
    KeepLine(line) && Strip(line) == d
  }

  /** A domain is read exactly when some kept line strips to it. */
  lemma {:induction false} DomainLinesMember(lines: seq<string>, d: string)
    ensures d in DomainLines(lines) <==> exists i :: 0 <= i < |lines| && Yields(lines[i], d)
    decreases |lines|
  {
    if |lines| > 0 {
      var init := lines[..|lines| - 1];
      DomainLinesMember(init, d);
      SomeSplit(lines, init, (line: string) => Yields(line, d));
      assert d in DomainLines(lines) <==> d in DomainLines(init) || Yields(lines[|lines| - 1], d);
    }
  }

  /** Some element satisfies `p` exactly when some element before the last
      does, or the last one does. */
  lemma SomeSplit<T>(xs: seq<T>, init: seq<T>, p: T -> bool)
    requires |xs| > 0 && init == xs[..|xs| - 1]
    ensures (exists i :: 0 <= i < |xs| && p(xs[i]))
            <==> (exists i :: 0 <= i < |init| && p(init[i])) || p(xs[|xs| - 1])
  {
    if exists i :: 0 <= i < |xs| && p(xs[i]) {
      var i :| 0 <= i < |xs| && p(xs[i]);
      if i < |init| {
        assert init[i] == xs[i];
      }
    }
  }

  /** Reading two parts of a file one after the other reads the whole file:
      the domains keep file order. */
  lemma {:induction false} DomainLinesAppend(a: seq<string>, b: seq<string>)
    ensures DomainLines(a + b) == DomainLines(a) + DomainLines(b)
    decreases |b|
  {
    if |b| == 0 {
      assert a + b == a;
    } else {
      var b' := b[..|b| - 1];
      assert (a + b)[..|a + b| - 1] == a + b';
      DomainLinesAppend(a, b');
    }
  }

  /** A comment marker counts only in the first column: an indented '#'
      line is read as a domain. */
  lemma IndentedHashIsKept()
    ensures DomainLines(["  #x\n"]) == ["#x"]
    ensures DomainLines(["#x\n"]) == []
  {
    StripIndentedHash();
    var one: seq<string> := ["  #x\n"];
    assert one[..0] == [];
    assert KeepLine(one[0]);
    var other: seq<string> := ["#x\n"];
    assert other[..0] == [];
    assert !KeepLine(other[0]);
  }

  lemma StripIndentedHash()
    ensures Strip("  #x\n") == "#x"
  {
    var s := "  #x\n";
    TrimStartAt(s, 2);
    assert s[2..] == "#x\n";
    TrimEndAt("#x\n", 2);
    assert "#x\n"[..2] == "#x";
  }

  // ---------------------------------------------------------------------
  // Grouping by status (print_results_summary)
  // ---------------------------------------------------------------------

  /** The results with status `s`, in order. */
  function WithStatus(results: seq<DomainResult>, s: Status): seq<DomainResult>
    decreases |results|
  {
    if |results| == 0 then []
    else
      var last := results[|results| - 1];
      WithStatus(results[..|results| - 1], s) + (if last.status == s then [last] else [])
  }

  /** The three groups the summary prints. */
  datatype Groups = Groups(available: seq<DomainResult>, registered: seq<DomainResult>,
                           unknown: seq<DomainResult>)

  /** The grouping at cli.py:59-61: the three groups together are the
      results, each in input order, each holding only its own status. */
  function GroupByStatus(results: seq<DomainResult>): (g: Groups)
    ensures multiset(g.available) + multiset(g.registered) + multiset(g.unknown) == multiset(results)
    ensures forall r :: r in g.available ==> r.status == Available
    ensures forall r :: r in g.registered ==> r.status == Registered
    ensures forall r :: r in g.unknown ==> r.status == Unknown
  {
    StatusPartition(results);
    Groups(WithStatus(results, Available), WithStatus(results, Registered), WithStatus(results, Unknown))
  }

  lemma StatusPartition(results: seq<DomainResult>)
    ensures Grouped(results) == multiset(results)
    ensures forall s, r :: r in WithStatus(results, s) ==> r.status == s
  {
    StatusCounts(results);
    forall s: Status ensures forall r :: r in WithStatus(results, s) ==> r.status == s {
      OnlyStatus(results, s);
    }
  }

  /** The three groups of `results`, together, as a multiset. */
  function Grouped(results: seq<DomainResult>): multiset<DomainResult> {
    multiset(WithStatus(results, Available)) + multiset(WithStatus(results, Registered))
    + multiset(WithStatus(results, Unknown))
  }

  /** The groups together hold each result once. */
  lemma {:induction false} StatusCounts(results: seq<DomainResult>)
    ensures Grouped(results) == multiset(results)
    decreases |results|
  {
    if |results| > 0 {
      var init := results[..|results| - 1];
      var last := results[|results| - 1];
      StatusCounts(init);
      GroupedSnoc(init, last);
      assert results == init + [last];
    }
  }

  /** Adding a result adds it to exactly one group. */
  lemma GroupedSnoc(init: seq<DomainResult>, last: DomainResult)
    ensures Grouped(init + [last]) == Grouped(init) + multiset{last}
  {
    var results := init + [last];
    assert results[..|results| - 1] == init;
    var a, r, u := WithStatus(init, Available), WithStatus(init, Registered), WithStatus(init, Unknown);
    var l := multiset{last};
    match last.status
    case Available =>
      assert multiset(WithStatus(results, Available)) == multiset(a) + l;
      Shuffle(multiset(a), multiset(r), multiset(u), l);
    case Registered =>
      assert multiset(WithStatus(results, Registered)) == multiset(r) + l;
      Shuffle(multiset(r), multiset(a), multiset(u), l);
    case Unknown =>
      assert multiset(WithStatus(results, Unknown)) == multiset(u) + l;
      Shuffle(multiset(u), multiset(a), multiset(r), l);
  }

  lemma Shuffle<T>(x: multiset<T>, y: multiset<T>, z: multiset<T>, l: multiset<T>)
    ensures (x + l) + y + z == (x + y + z) + l
    ensures y + (x + l) + z == (y + x + z) + l
    ensures y + z + (x + l) == (y + z + x) + l
  {
  }

  /** A group holds only results of its own status. */
  lemma {:induction false} OnlyStatus(results: seq<DomainResult>, s: Status)
    ensures forall r :: r in WithStatus(results, s) ==> r.status == s
    decreases |results|
  {
    if |results| > 0 {
      OnlyStatus(results[..|results| - 1], s);
    }
  }

  /** Each group keeps input order: grouping a concatenation concatenates
      the groups. */
  lemma {:induction false} GroupsKeepOrder(a: seq<DomainResult>, b: seq<DomainResult>, s: Status)
    ensures WithStatus(a + b, s) == WithStatus(a, s) + WithStatus(b, s)
    decreases |b|
  {
    if |b| == 0 {
      assert a + b == a;
    } else {
      var b' := b[..|b| - 1];
      assert (a + b)[..|a + b| - 1] == a + b';
      GroupsKeepOrder(a, b', s);
    }
  }
}
