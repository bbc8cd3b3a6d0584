/**
 The normal form of detail URLs (crawler/tender_crawler/services/deduplication.py and
 crawler/tender_crawler/utils.py), on URLs already split into components and decoded query pairs.
 */
module UrlNormalForm {
  import opened Options
  import opened Ordering
  import opened Text

  type Pair = (string, string)

  datatype Url = Url(scheme: string, netloc: string, path: string, query: seq<Pair>, fragment: string)

  const IRRELEVANT_NAMES := {
    "_", "_t", "_ts", "from", "rand", "random", "ref", "referer", "sessionid", "sid", "spm", "timestamp", "track", "tracking"
  }
  const IRRELEVANT_PREFIX := "utm_"

  predicate IsNoiseName(name: string) { name in IRRELEVANT_NAMES }

  predicate HasNoisePrefix(name: string) { StartsWith(name, IRRELEVANT_PREFIX) }

  predicate Relevant(p: Pair) {
    var name := Lower(Strip(p.0));
    !IsNoiseName(name) && !HasNoisePrefix(name)
  }

  function Keep(): Pair -> bool { p => Relevant(p) }

  // ---------------------------------------------------------------- the order of pairs

  /** Code-point order on strings, shorter first among prefixes. */
  predicate NotAfter(a: string, b: string) {
    a == "" || (b != "" && (a[0] < b[0] || (a[0] == b[0] && NotAfter(a[1..], b[1..]))))
  }

  lemma {:induction false} NotAfterIsTotal(a: string, b: string)
    ensures NotAfter(a, b) || NotAfter(b, a)
    ensures NotAfter(a, b) && NotAfter(b, a) ==> a == b
  {
    if a != "" && b != "" {
      NotAfterIsTotal(a[1..], b[1..]);
      assert a == [a[0]] + a[1..] && b == [b[0]] + b[1..];
    }
  }

  lemma {:induction false} NotAfterChains(a: string, b: string, c: string)
    requires NotAfter(a, b) && NotAfter(b, c)
    ensures NotAfter(a, c)
  {
    if a != "" && a[0] == b[0] == c[0] { NotAfterChains(a[1..], b[1..], c[1..]); }
  }

  predicate PairNotAfter(p: Pair, q: Pair) {
    if p.0 != q.0 then NotAfter(p.0, q.0) else NotAfter(p.1, q.1)
  }

  function PairOrder(): (Pair, Pair) -> bool { (p: Pair, q: Pair) => PairNotAfter(p, q) }

  lemma PairOrderIsTotal(s: seq<Pair>)
    ensures TotalOrderOn(PairOrder(), s)
  {
    forall p: Pair, q: Pair ensures PairNotAfter(p, q) || PairNotAfter(q, p) {
      NotAfterIsTotal(p.0, q.0);
      NotAfterIsTotal(p.1, q.1);
    }
    forall p: Pair, q: Pair | PairNotAfter(p, q) && PairNotAfter(q, p) ensures p == q {
      NotAfterIsTotal(p.0, q.0);
      NotAfterIsTotal(p.1, q.1);
    }
    forall p: Pair, q: Pair, r: Pair | PairNotAfter(p, q) && PairNotAfter(q, r) ensures PairNotAfter(p, r) {
      PairsChain(p, q, r);
    }
  }

  lemma PairsChain(p: Pair, q: Pair, r: Pair)
    requires PairNotAfter(p, q) && PairNotAfter(q, r)
    ensures PairNotAfter(p, r)
  {
    if p.0 == q.0 == r.0 {
      NotAfterChains(p.1, q.1, r.1);
    } else if p.0 != q.0 && q.0 != r.0 {
      NotAfterChains(p.0, q.0, r.0);
      NotAfterIsTotal(p.0, q.0);
    }
  }

  // ---------------------------------------------------------------- normalisation

  function Sorted(query: seq<Pair>): seq<Pair> { Sort(PairOrder(), query) }

  function Dropped(url: Url): Url {
    Url(url.scheme, url.netloc, url.path, Sorted(Filter(Keep(), url.query)), "")
  }

  lemma FilterNext(query: seq<Pair>, i: nat)
    requires i < |query|
    ensures Filter(Keep(), query[..i + 1]) == Filter(Keep(), query[..i]) + if Relevant(query[i]) then [query[i]] else []
  {
    assert query[..i + 1] == query[..i] + [query[i]];
    FilterSnoc(Keep(), query[..i], query[i]);
  }

  method DropIrrelevantQueryParams(url: Url) returns (r: Url)
    ensures r == Dropped(url)
  {
    hide IsNoiseName, HasNoisePrefix, Lower, Strip, Sorted, Filter;
    var filtered: seq<Pair> := [];
    assert url.query[..0] == [] == Filter(Keep(), []);
    for i := 0 to |url.query|
      invariant filtered == Filter(Keep(), url.query[..i])
    {
      FilterNext(url.query, i);
      var pair := url.query[i];
      var lowered := Lower(Strip(pair.0));
      if IsNoiseName(lowered) {
        continue;
      }
      if HasNoisePrefix(lowered) {
        continue;
      }
      filtered := filtered + [pair];
    }
    assert url.query[..|url.query|] == url.query;
    r := Url(url.scheme, url.netloc, url.path, Sorted(filtered), "");
  }

  function PathOrRoot(path: string): string { if path == "" then "/" else path }

  /** Section 6.2.2.1 of RFC 3986 folds scheme and host; section 6.2.3 reads an empty path as "/". */
  function NormalizeUrl(url: Url): Url {
    Url(Lower(url.scheme), Lower(url.netloc), PathOrRoot(url.path), Sorted(url.query), "")
  }

  /** A blank text has no normal form. */
  function NormalizeDetailUrl(url: Option<Url>): Option<Url> {
    if url.None? then None else Some(NormalizeUrl(Dropped(url.value)))
  }

  /** Equal paths, the empty one being the root. */
  predicate SamePath(a: string, b: string) {
    a == b || (a == "" && b == "/") || (a == "/" && b == "")
  }

  lemma NormalPathsExactly(a: string, b: string)
    ensures PathOrRoot(a) == PathOrRoot(b) <==> SamePath(a, b)
  {
  }

  /** What the normal form depends on. */
  ghost predicate SameTarget(a: Url, b: Url) {
    && Lower(a.scheme) == Lower(b.scheme) && Lower(a.netloc) == Lower(b.netloc)
    && SamePath(a.path, b.path)
    && forall p | Relevant(p) :: multiset(a.query)[p] == multiset(b.query)[p]
  }

  lemma SortedFacts(query: seq<Pair>)
    ensures multiset(Sorted(query)) == multiset(query) && Sorted(Sorted(query)) == Sorted(query)
  {
    PairOrderIsTotal(query);
    SortOrders(PairOrder(), query);
    PairOrderIsTotal(Sorted(query));
    SortOfSorted(PairOrder(), Sorted(query));
  }

  lemma {:induction false} AllKept(keep: Pair -> bool, s: seq<Pair>)
    requires forall p | p in s :: keep(p)
    ensures Filter(keep, s) == s
  {
    if s != [] {
      assert s[0] in s && forall p | p in s[1..] :: p in s;
      AllKept(keep, s[1..]);
      assert s == [s[0]] + s[1..];
    }
  }

  /** The query of the normal form: the relevant pairs, sorted. */
  lemma {:induction false} NormalQuery(url: Url)
    ensures NormalizeUrl(Dropped(url)).query == Sorted(Filter(Keep(), url.query))
    ensures Filter(Keep(), Sorted(Filter(Keep(), url.query))) == Sorted(Filter(Keep(), url.query))
  {
    var kept := Filter(Keep(), url.query);
    SortedFacts(kept);
    FilterMembers(Keep(), url.query);
    SameMembers(Sorted(kept), kept);
    AllKept(Keep(), Sorted(kept));
  }

  /** Normalising a normal form changes nothing. */
  lemma {:induction false} NormalFormIsStable(url: Option<Url>)
    ensures NormalizeDetailUrl(NormalizeDetailUrl(url)) == NormalizeDetailUrl(url)
  {
    if url.Some? {
      var normal := NormalizeUrl(Dropped(url.value));
      NormalQuery(url.value);
      NormalQuery(normal);
      SortedFacts(Filter(Keep(), url.value.query));
      hide Sorted, Filter;
      LowerTwice(url.value.scheme);
      LowerTwice(url.value.netloc);
    }
  }

  lemma {:induction false} FilterCounts(keep: Pair -> bool, s: seq<Pair>, p: Pair)
    ensures multiset(Filter(keep, s))[p] == if keep(p) then multiset(s)[p] else 0
  {
    if s != [] {
      FilterCounts(keep, s[1..], p);
      assert s == [s[0]] + s[1..];
      assert Filter(keep, s) == (if keep(s[0]) then [s[0]] else []) + Filter(keep, s[1..]);
    }
  }

  lemma SameRelevantPairs(a: seq<Pair>, b: seq<Pair>)
    ensures multiset(Filter(Keep(), a)) == multiset(Filter(Keep(), b)) <==> forall p | Relevant(p) :: multiset(a)[p] == multiset(b)[p]
  {
    forall p: Pair
      ensures multiset(Filter(Keep(), a))[p] == if Relevant(p) then multiset(a)[p] else 0
      ensures multiset(Filter(Keep(), b))[p] == if Relevant(p) then multiset(b)[p] else 0
    {
      FilterCounts(Keep(), a, p);
      FilterCounts(Keep(), b, p);
    }
    hide Filter, Relevant;
  }

  /** Two URLs have the same normal form exactly if they agree on scheme and host up to case, on the
      path with the empty one read as "/", and on how often each relevant query pair occurs. */
  lemma {:induction false} NormalFormsExactly(a: Url, b: Url)
    ensures NormalizeDetailUrl(Some(a)) == NormalizeDetailUrl(Some(b)) <==> SameTarget(a, b)
  {
    var keptA, keptB := Filter(Keep(), a.query), Filter(Keep(), b.query);
    NormalPathsExactly(a.path, b.path);
    hide PathOrRoot, SamePath, Lower;
    SameRelevantPairs(a.query, b.query);
    NormalQuery(a);
    NormalQuery(b);
    SortedFacts(keptA);
    SortedFacts(keptB);
    if multiset(keptA) == multiset(keptB) {
      PairOrderIsTotal(keptA);
      SortIgnoresArrangement(PairOrder(), keptA, keptB);
    }
    hide Sorted, Filter, Relevant;
  }

  /** The order of the query pairs does not matter. */
  lemma {:induction false} OrderOfPairsIsInvisible(url: Url, query: seq<Pair>)
    requires multiset(query) == multiset(url.query)
    ensures NormalizeDetailUrl(Some(url.(query := query))) == NormalizeDetailUrl(Some(url))
  {
    NormalFormsExactly(url.(query := query), url);
  }

  /** `noisy` is `query` with irrelevant pairs inserted anywhere. */
  predicate WithNoise(query: seq<Pair>, noisy: seq<Pair>)
    decreases |noisy|
  {
    if noisy == [] then query == []
    else || (query != [] && noisy[0] == query[0] && WithNoise(query[1..], noisy[1..]))
         || (!Relevant(noisy[0]) && WithNoise(query, noisy[1..]))
  }

  lemma {:induction false} NoiseIsFiltered(query: seq<Pair>, noisy: seq<Pair>)
    requires WithNoise(query, noisy)
    ensures Filter(Keep(), query) == Filter(Keep(), noisy)
    decreases |noisy|
  {
    if noisy != [] {
      if query != [] && noisy[0] == query[0] && WithNoise(query[1..], noisy[1..]) {
        NoiseIsFiltered(query[1..], noisy[1..]);
      } else {
        NoiseIsFiltered(query, noisy[1..]);
        assert Filter(Keep(), noisy) == [] + Filter(Keep(), noisy[1..]);
      }
    }
  }

  /** Tracking parameters, however many and wherever inserted, do not change the normal form. */
  lemma {:induction false} NoiseIsInvisible(url: Url, noisy: seq<Pair>)
    requires WithNoise(url.query, noisy)
    ensures NormalizeDetailUrl(Some(url.(query := noisy))) == NormalizeDetailUrl(Some(url))
  {
    NoiseIsFiltered(url.query, noisy);
    SameRelevantPairs(url.query, noisy);
    NormalFormsExactly(url.(query := noisy), url);
  }

  // ---------------------------------------------------------------- the parts of a normal form

  /** Up to case and white space around it, the name of a parameter that says nothing about the page. */
  ghost predicate Tracking(name: string) {
    exists left, core, right ::
      && name == left + core + right && AllSpaces(left) && AllSpaces(right) && core != "" && Trimmed(core)
      && (Lower(core) in ["timestamp", "_t", "_ts", "_", "random", "rand", "spm", "from", "ref", "referer", "track", "tracking",
                          "sessionid", "sid"]
          || "utm_" <= Lower(core))
  }

  /** Code points decide at the first difference; a prefix comes first. */
  ghost predicate Precedes(a: string, b: string) {
    exists k: nat :: k <= |a| && k <= |b| && a[..k] == b[..k] && (k == |a| || (k < |b| && a[k] < b[k]))
  }

  lemma {:induction false} NotAfterPrecedes(a: string, b: string)
    requires NotAfter(a, b)
    ensures Precedes(a, b)
  {
    if a == "" || a[0] < b[0] {
      assert a[..0] == b[..0];
    } else {
      NotAfterPrecedes(a[1..], b[1..]);
      var k: nat :| k <= |a[1..]| && k <= |b[1..]| && a[1..][..k] == b[1..][..k]
                    && (k == |a[1..]| || (k < |b[1..]| && a[1..][k] < b[1..][k]));
      assert a[..k + 1] == [a[0]] + a[1..][..k] && b[..k + 1] == [b[0]] + b[1..][..k];
    }
  }

  lemma TrackingIsDropped(p: Pair)
    ensures Relevant(p) <==> !Tracking(p.0)
  {
    var left, right := StripSplits(p.0);
    StrippedEnds(p.0);
    assert p.0 == left + Strip(p.0) + right;
    hide Strip;
    if !Relevant(p) {
      assert Strip(p.0) != "" && Trimmed(Strip(p.0));
    }
    forall l, core, r | p.0 == l + core + r && AllSpaces(l) && AllSpaces(r) && core != "" && Trimmed(core) ensures Strip(p.0) == core {
      StripOfPadded(l, core, r);
    }
    hide Lower;
  }

  /** A normal form, part by part: scheme and host in lower case, the root for an empty path, no fragment,
      and of the query exactly the pairs that are not tracking parameters, by name and then by value. */
  lemma {:induction false} NormalFormPartByPart(url: Url, p: Pair, i: nat, j: nat)
    ensures var normal := NormalizeUrl(Dropped(url));
            && normal.scheme == Lower(url.scheme) && normal.netloc == Lower(url.netloc) && normal.fragment == ""
            && (url.path != "" ==> normal.path == url.path) && (url.path == "" ==> normal.path == "/")
            && multiset(normal.query)[p] == (if Tracking(p.0) then 0 else multiset(url.query)[p])
            && (i < j < |normal.query| ==>
                  var (m, n) := (normal.query[i], normal.query[j]);
                  if m.0 == n.0 then Precedes(m.1, n.1) else Precedes(m.0, n.0))
  {
    NormalQuery(url);
    var kept := Filter(Keep(), url.query);
    TrackingIsDropped(p);
    FilterCounts(Keep(), url.query, p);
    SortedFacts(kept);
    PairOrderIsTotal(kept);
    SortOrders(PairOrder(), kept);
    hide Filter, Tracking, Relevant, Lower, Precedes, Sort;
    var query := Sorted(kept);
    if i < j < |query| {
      assert PairOrder()(query[i], query[j]);
      if query[i].0 == query[j].0 {
        NotAfterPrecedes(query[i].1, query[j].1);
      } else {
        NotAfterPrecedes(query[i].0, query[j].0);
      }
    }
  }
}
