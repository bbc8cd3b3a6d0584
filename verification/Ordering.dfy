/** `ORDER BY`, `LIMIT` and sorting, by an arbitrary total order on the rows at hand. */
module Ordering {

  ghost predicate TotalOrderOn<T(!new)>(leq: (T, T) -> bool, s: seq<T>) {
    && (forall x, y | x in s && y in s :: leq(x, y) || leq(y, x))
    && (forall x, y | x in s && y in s && leq(x, y) && leq(y, x) :: x == y)
    && (forall x, y, z | x in s && y in s && z in s && leq(x, y) && leq(y, z) :: leq(x, z))
  }

  ghost predicate SortedBy<T(!new)>(leq: (T, T) -> bool, s: seq<T>) {
    forall i, j | 0 <= i < j < |s| :: leq(s[i], s[j])
  }

  /** What a query may return for `SELECT rows ORDER BY leq`: any sorted arrangement. */
  ghost predicate IsOrderingOf<T(!new)>(leq: (T, T) -> bool, rows: seq<T>, result: seq<T>) {
    SortedBy(leq, result) && multiset(result) == multiset(rows)
  }

  function Insert<T>(leq: (T, T) -> bool, x: T, s: seq<T>): seq<T> {
    if s == [] then [x]
    else if leq(x, s[0]) then [x] + s
    else [s[0]] + Insert(leq, x, s[1..])
  }

  function Sort<T>(leq: (T, T) -> bool, s: seq<T>): seq<T> {
    if s == [] then [] else Insert(leq, s[0], Sort(leq, s[1..]))
  }

  lemma SameMembers<T(!new)>(a: seq<T>, b: seq<T>)
    requires multiset(a) == multiset(b)
    ensures forall x :: x in a <==> x in b
    ensures |a| == |b|
  {
    forall x ensures x in a <==> x in b {
      assert x in a <==> x in multiset(a);
      assert x in b <==> x in multiset(b);
    }
    assert |a| == |multiset(a)| && |b| == |multiset(b)|;
  }

  lemma EmptyOrInhabited<T(!new)>(s: seq<T>)
    ensures s == [] || exists x :: x in s
  {
    if s != [] { assert s[0] in s; }
  }

  lemma OrderOnMembers<T(!new)>(leq: (T, T) -> bool, s: seq<T>, part: seq<T>)
    requires TotalOrderOn(leq, s) && forall x :: x in part ==> x in s
    ensures TotalOrderOn(leq, part)
  {
  }

  lemma FirstIsLeast<T(!new)>(leq: (T, T) -> bool, s: seq<T>, x: T)
    requires TotalOrderOn(leq, s) && SortedBy(leq, s) && x in s
    ensures leq(s[0], x)
  {
    var i :| 0 <= i < |s| && s[i] == x;
    assert s[0] in s && s[i] in s;
  }

  lemma {:induction false} InsertKeepsMembers<T(!new)>(leq: (T, T) -> bool, x: T, s: seq<T>)
    ensures multiset(Insert(leq, x, s)) == multiset{x} + multiset(s)
    ensures forall y :: y in Insert(leq, x, s) <==> y == x || y in s
  {
    if s != [] {
      assert s == [s[0]] + s[1..];
      InsertKeepsMembers(leq, x, s[1..]);
    }
  }

  lemma PrependKeepsOrder<T(!new)>(leq: (T, T) -> bool, x: T, s: seq<T>)
    requires SortedBy(leq, s) && forall y | y in s :: leq(x, y)
    ensures SortedBy(leq, [x] + s)
  {
  }

  lemma {:induction false} InsertKeepsOrder<T(!new)>(leq: (T, T) -> bool, x: T, s: seq<T>)
    requires TotalOrderOn(leq, [x] + s) && SortedBy(leq, s)
    ensures SortedBy(leq, Insert(leq, x, s))
  {
    assert x in [x] + s && forall y :: y in s ==> y in [x] + s;
    if s != [] {
      OrderOnMembers(leq, [x] + s, s);
      assert s[0] in s;
      forall y | y in s ensures leq(s[0], y) {
        FirstIsLeast(leq, s, y);
      }
      if leq(x, s[0]) {
        PrependKeepsOrder(leq, x, s);
      } else {
        OrderOnMembers(leq, [x] + s, [x] + s[1..]);
        InsertKeepsOrder(leq, x, s[1..]);
        InsertKeepsMembers(leq, x, s[1..]);
        PrependKeepsOrder(leq, s[0], Insert(leq, x, s[1..]));
      }
    }
  }

  lemma {:induction false} SortOrders<T(!new)>(leq: (T, T) -> bool, s: seq<T>)
    requires TotalOrderOn(leq, s)
    ensures IsOrderingOf(leq, s, Sort(leq, s))
  {
    if s != [] {
      var tail := Sort(leq, s[1..]);
      SortOrders(leq, s[1..]);
      assert s == [s[0]] + s[1..];
      SameMembers(tail, s[1..]);
      OrderOnMembers(leq, s, [s[0]] + tail);
      InsertKeepsOrder(leq, s[0], tail);
      InsertKeepsMembers(leq, s[0], tail);
    }
  }

  lemma FirstRestsAgree<T(!new)>(a: seq<T>, b: seq<T>)
    requires a != [] && b != [] && a[0] == b[0] && multiset(a) == multiset(b)
    ensures multiset(a[1..]) == multiset(b[1..])
  {
    assert a == [a[0]] + a[1..] && b == [b[0]] + b[1..];
    assert multiset(a[1..]) == multiset(a) - multiset{a[0]};
    assert multiset(b[1..]) == multiset(b) - multiset{b[0]};
  }

  /** Over a total order a sorted arrangement is unique: two evaluations of one query agree. */
  lemma {:induction false} OrderingIsUnique<T(!new)>(leq: (T, T) -> bool, a: seq<T>, b: seq<T>)
    requires TotalOrderOn(leq, a) && SortedBy(leq, a) && SortedBy(leq, b)
    requires multiset(a) == multiset(b)
    ensures a == b
  {
    SameMembers(a, b);
    if a != [] {
      OrderOnMembers(leq, a, b);
      FirstIsLeast(leq, a, b[0]);
      FirstIsLeast(leq, b, a[0]);
      assert a[0] in a && b[0] in a;
      assert a[0] == b[0];
      OrderOnMembers(leq, a, a[1..]);
      FirstRestsAgree(a, b);
      OrderingIsUnique(leq, a[1..], b[1..]);
    }
  }

  /** Sorting forgets the input arrangement. */
  lemma SortIgnoresArrangement<T(!new)>(leq: (T, T) -> bool, a: seq<T>, b: seq<T>)
    requires TotalOrderOn(leq, a) && multiset(a) == multiset(b)
    ensures Sort(leq, a) == Sort(leq, b)
  {
    SameMembers(a, b);
    SortOrders(leq, a);
    SortOrders(leq, b);
    SameMembers(Sort(leq, a), a);
    OrderingIsUnique(leq, Sort(leq, a), Sort(leq, b));
  }

  /** Sorting what is already sorted changes nothing. */
  lemma SortOfSorted<T(!new)>(leq: (T, T) -> bool, s: seq<T>)
    requires TotalOrderOn(leq, s) && SortedBy(leq, s)
    ensures Sort(leq, s) == s
  {
    SortOrders(leq, s);
    SameMembers(Sort(leq, s), s);
    OrderingIsUnique(leq, Sort(leq, s), s);
  }

  function Filter<T>(keep: T -> bool, s: seq<T>): (r: seq<T>)
    ensures |r| <= |s|
  {
    if s == [] then [] else (if keep(s[0]) then [s[0]] else []) + Filter(keep, s[1..])
  }

  lemma {:induction false} FilterMembers<T(!new)>(keep: T -> bool, s: seq<T>)
    ensures forall x :: x in Filter(keep, s) <==> x in s && keep(x)
  {
    if s != [] {
      FilterMembers(keep, s[1..]);
      assert s == [s[0]] + s[1..];
    }
  }

  lemma {:induction false} FilterSnoc<T(!new)>(keep: T -> bool, s: seq<T>, x: T)
    ensures Filter(keep, s + [x]) == Filter(keep, s) + if keep(x) then [x] else []
  {
    if s == [] {
      assert [] + [x] == [x] && [x][1..] == [];
    } else {
      var rest := s[1..];
      var all := s + [x];
      assert all[1..] == rest + [x] && all[0] == s[0] && all != [];
      assert Filter(keep, all) == (if keep(s[0]) then [s[0]] else []) + Filter(keep, rest + [x]);
      assert Filter(keep, s) == (if keep(s[0]) then [s[0]] else []) + Filter(keep, rest);
      FilterSnoc(keep, rest, x);
      hide Filter;
    }
  }

  lemma {:induction false} FilterKeepsOrder<T(!new)>(leq: (T, T) -> bool, keep: T -> bool, s: seq<T>)
    requires SortedBy(leq, s)
    ensures SortedBy(leq, Filter(keep, s))
  {
    if s != [] {
      FilterKeepsOrder(leq, keep, s[1..]);
      FilterMembers(keep, s[1..]);
      if keep(s[0]) {
        forall y | y in Filter(keep, s[1..]) ensures leq(s[0], y) {
          var i :| 0 <= i < |s[1..]| && s[1..][i] == y;
          assert y == s[i + 1];
        }
        PrependKeepsOrder(leq, s[0], Filter(keep, s[1..]));
        assert Filter(keep, s) == [s[0]] + Filter(keep, s[1..]);
      } else {
        assert Filter(keep, s) == Filter(keep, s[1..]);
      }
    }
  }

  /** `LIMIT n`; no limit keeps every row. */
  function Limit<T>(n: nat, s: seq<T>): (r: seq<T>)
    ensures r <= s && |r| == if n <= |s| then n else |s|
  {
    if n <= |s| then s[..n] else s
  }

  ghost predicate Distinct<T(!new)>(s: seq<T>) {
    forall i, j | 0 <= i < j < |s| :: s[i] != s[j]
  }

  lemma PrependDistinct<T(!new)>(x: T, s: seq<T>)
    requires Distinct(s) && x !in s
    ensures Distinct([x] + s)
  {
  }

  lemma {:induction false} DistinctAsMultiset<T(!new)>(s: seq<T>)
    requires Distinct(s)
    ensures forall x | x in s :: multiset(s)[x] == 1
  {
    if s != [] {
      assert s == [s[0]] + s[1..];
      DistinctAsMultiset(s[1..]);
      assert s[0] !in multiset(s[1..]) by {
        assert forall j | 0 <= j < |s[1..]| :: s[1..][j] == s[j + 1];
      }
    }
  }

  lemma {:induction false} MultisetAsDistinct<T(!new)>(s: seq<T>)
    requires forall x | x in s :: multiset(s)[x] == 1
    ensures Distinct(s)
  {
    if s != [] {
      assert s == [s[0]] + s[1..];
      assert multiset(s) == multiset{s[0]} + multiset(s[1..]);
      forall x | x in s[1..] ensures multiset(s[1..])[x] == 1 {
        assert x in s && x in multiset(s[1..]);
        assert multiset(s)[x] == multiset{s[0]}[x] + multiset(s[1..])[x];
      }
      MultisetAsDistinct(s[1..]);
      forall j | 0 < j < |s| ensures s[0] != s[j] {
        assert s[j] == s[1..][j - 1] && s[j] in s[1..];
        assert multiset(s)[s[j]] == multiset{s[0]}[s[j]] + multiset(s[1..])[s[j]];
      }
      forall i, j | 0 < i < j < |s| ensures s[i] != s[j] {
        assert s[i] == s[1..][i - 1] && s[j] == s[1..][j - 1];
      }
    }
  }

  lemma DistinctWithSameMembers<T(!new)>(a: seq<T>, b: seq<T>)
    requires Distinct(a) && Distinct(b) && forall x :: x in a <==> x in b
    ensures multiset(a) == multiset(b)
  {
    DistinctAsMultiset(a);
    DistinctAsMultiset(b);
    forall x ensures multiset(a)[x] == multiset(b)[x] {
      assert x in a <==> x in multiset(a);
      assert x in b <==> x in multiset(b);
    }
  }

  function Members<T(==,!new)>(s: seq<T>): set<T> {
    set x | x in s
  }

  lemma {:induction false} DistinctMembers<T(!new)>(s: seq<T>)
    requires Distinct(s)
    ensures |Members(s)| == |s|
  {
    if s != [] {
      var rest := s[1..];
      assert forall i | 0 <= i < |rest| :: rest[i] == s[i + 1];
      DistinctMembers(rest);
      assert s[0] !in Members(rest);
      assert Members(s) == {s[0]} + Members(rest) by {
        assert s == [s[0]] + rest;
      }
    } else {
      assert Members(s) == {};
    }
  }

  lemma SubsetsAreSmaller<T(!new)>(a: set<T>, b: set<T>)
    requires a <= b
    ensures |a| <= |b| && |b - a| == |b| - |a|
  {
    assert b == a + (b - a);
  }

  lemma RearrangementIsDistinct<T(!new)>(a: seq<T>, b: seq<T>)
    requires Distinct(a) && multiset(a) == multiset(b)
    ensures Distinct(b)
  {
    SameMembers(a, b);
    DistinctAsMultiset(a);
    MultisetAsDistinct(b);
  }

  lemma {:induction false} MinimumBelow(s: set<nat>, m: nat) returns (least: nat)
    requires m in s
    ensures least in s && forall x | x in s :: least <= x
  {
    if x: nat :| x in s && x < m {
      least := MinimumBelow(s, x);
    } else {
      least := m;
    }
  }

  lemma MinimumExists(s: set<nat>)
    requires s != {}
    ensures exists m :: m in s && forall x | x in s :: m <= x
  {
    var m :| m in s;
    var least := MinimumBelow(s, m);
  }

  function Least(s: set<nat>): (r: nat)
    requires s != {}
    ensures r in s && forall x | x in s :: r <= x
  {
    MinimumExists(s);
    var m :| m in s && forall x | x in s :: m <= x;
    m
  }

  /** The primary keys of a table, ascending. */
  function Ascending(s: set<nat>): (r: seq<nat>)
    ensures forall x :: x in r <==> x in s
    ensures Distinct(r) && |r| == |s|
  {
    if s == {} then []
    else
      var m := Least(s);
      var rest := Ascending(s - {m});
      PrependDistinct(m, rest);
      [m] + rest
  }
}
