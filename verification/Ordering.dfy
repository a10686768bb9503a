/** Comparing text, and the stable sort of JavaScript arrays as a function of its input. */
module Ordering {
  /** Two texts, compared one after the other. */
  type Key = (string, string)

  function CompareText(a: string, b: string): int {
    if a == [] then (if b == [] then 0 else -1)
    else if b == [] then 1
    else if a[0] < b[0] then -1
    else if a[0] > b[0] then 1
    else CompareText(a[1..], b[1..])
  }

  /** `compareText(...) || compareText(...)`. */
  function Compare(a: Key, b: Key): int {
    var first := CompareText(a.0, b.0);
    if first != 0 then first else CompareText(a.1, b.1)
  }

  lemma {:induction false} CompareTextOrder(a: string, b: string)
    ensures CompareText(b, a) == -CompareText(a, b)
    ensures CompareText(a, b) == 0 <==> a == b
    decreases |a|
  {
    if a != [] && b != [] && a[0] == b[0] {
      CompareTextOrder(a[1..], b[1..]);
      assert a == [a[0]] + a[1..] && b == [b[0]] + b[1..];
    }
  }

  lemma {:induction false} CompareTextTransitive(a: string, b: string, c: string)
    requires CompareText(a, b) <= 0 && CompareText(b, c) <= 0
    ensures CompareText(a, c) <= 0
    ensures CompareText(a, c) == 0 ==> CompareText(a, b) == 0 && CompareText(b, c) == 0
    decreases |a|
  {
    if a != [] && b != [] && c != [] && a[0] == b[0] == c[0] {
      CompareTextTransitive(a[1..], b[1..], c[1..]);
    }
  }

  lemma CompareOrder(a: Key, b: Key)
    ensures Compare(b, a) == -Compare(a, b)
    ensures Compare(a, b) == 0 <==> a == b
  {
    CompareTextOrder(a.0, b.0);
    CompareTextOrder(a.1, b.1);
  }

  lemma CompareTransitive(a: Key, b: Key, c: Key)
    requires Compare(a, b) <= 0 && Compare(b, c) <= 0
    ensures Compare(a, c) <= 0
  {
    CompareTextTransitive(a.0, b.0, c.0);
    if CompareText(a.0, c.0) == 0 { CompareTextTransitive(a.1, b.1, c.1); }
  }

  // ---------- Sorting ----------

  ghost predicate Ordered<T>(key: T -> Key, s: seq<T>) {
    forall i, j :: 0 <= i < j < |s| ==> Compare(key(s[i]), key(s[j])) <= 0
  }

  /** Put `x` behind everything that does not compare greater. */
  function Insert<T>(key: T -> Key, s: seq<T>, x: T): seq<T> {
    if s == [] then [x]
    else
      var last := |s| - 1;
      if Compare(key(s[last]), key(x)) <= 0 then s + [x] else Insert(key, s[..last], x) + [s[last]]
  }

  /** A stable sort: elements with equal keys stay in their order. */
  function SortOn<T>(key: T -> Key, s: seq<T>): seq<T> {
    if s == [] then [] else Insert(key, SortOn(key, s[..|s| - 1]), s[|s| - 1])
  }

  lemma {:induction false} InsertIsPermutation<T>(key: T -> Key, s: seq<T>, x: T)
    ensures multiset(Insert(key, s, x)) == multiset(s) + multiset{x}
  {
    if s != [] && Compare(key(s[|s| - 1]), key(x)) > 0 {
      var last := |s| - 1;
      InsertIsPermutation(key, s[..last], x);
      assert s == s[..last] + [s[last]];
    }
  }

  lemma {:induction false} InsertKeepsOrder<T>(key: T -> Key, s: seq<T>, x: T)
    requires Ordered(key, s)
    ensures Ordered(key, Insert(key, s, x))
  {
    if s != [] {
      var last := |s| - 1;
      if Compare(key(s[last]), key(x)) <= 0 {
        forall i | 0 <= i < |s|
          ensures Compare(key(s[i]), key(x)) <= 0
        {
          if i < last { CompareTransitive(key(s[i]), key(s[last]), key(x)); }
        }
      } else {
        InsertKeepsOrder(key, s[..last], x);
        var front := Insert(key, s[..last], x);
        CompareOrder(key(s[last]), key(x));
        forall i | 0 <= i < |front|
          ensures Compare(key(front[i]), key(s[last])) <= 0
        {
          InsertIsPermutation(key, s[..last], x);
          assert front[i] in multiset(front);
          assert front[i] == x || front[i] in s[..last];
        }
      }
    }
  }

  lemma {:induction false} SortIsOrderedPermutation<T>(key: T -> Key, s: seq<T>)
    ensures multiset(SortOn(key, s)) == multiset(s)
    ensures |SortOn(key, s)| == |s|
    ensures Ordered(key, SortOn(key, s))
  {
    hide Ordered, Insert, Compare;
    if s == [] {
      NothingOrdered(key);
    } else {
      var last := |s| - 1;
      SortIsOrderedPermutation(key, s[..last]);
      InsertIsPermutation(key, SortOn(key, s[..last]), s[last]);
      InsertKeepsOrder(key, SortOn(key, s[..last]), s[last]);
      assert s == s[..last] + [s[last]];
    }
    assert |multiset(SortOn(key, s))| == |multiset(s)|;
  }

  lemma NothingOrdered<T>(key: T -> Key)
    ensures Ordered(key, [])
  {
  }

  /** Equal keys mean equal elements. */
  ghost predicate KeysTell<T>(key: T -> Key, s: seq<T>) {
    forall x, y :: x in s && y in s && key(x) == key(y) ==> x == y
  }

  lemma SameMembers<T>(a: seq<T>, b: seq<T>)
    requires multiset(a) == multiset(b)
    ensures |a| == |b| && forall x :: x in a <==> x in b
  {
    assert |multiset(a)| == |multiset(b)|;
    forall x | x in a
      ensures x in b
    {
      assert x in multiset(a);
    }
    forall x | x in b
      ensures x in a
    {
      assert x in multiset(b);
    }
  }

  /** Two ordered arrangements of the same elements end with the same element. */
  lemma LastAgrees<T>(key: T -> Key, a: seq<T>, b: seq<T>)
    requires Ordered(key, a) && Ordered(key, b) && multiset(a) == multiset(b) && KeysTell(key, a) && a != []
    ensures |a| == |b| && a[|a| - 1] == b[|b| - 1]
  {
    hide Compare;
    SameMembers(a, b);
    var x, y := a[|a| - 1], b[|b| - 1];
    assert x in b && y in a;
    var i :| 0 <= i < |b| && b[i] == x;
    var j :| 0 <= j < |a| && a[j] == y;
    CompareOrder(key(x), key(y));
    CompareOrder(key(x), key(x));
    assert Compare(key(x), key(y)) <= 0 && Compare(key(y), key(x)) <= 0;
  }

  lemma DropLast<T>(key: T -> Key, a: seq<T>)
    requires a != []
    ensures multiset(a[..|a| - 1]) == multiset(a) - multiset{a[|a| - 1]}
    ensures Ordered(key, a) ==> Ordered(key, a[..|a| - 1])
    ensures KeysTell(key, a) ==> KeysTell(key, a[..|a| - 1])
  {
    var last := |a| - 1;
    assert a == a[..last] + [a[last]];
  }

  lemma {:induction false} OrderedIsUnique<T>(key: T -> Key, a: seq<T>, b: seq<T>)
    requires Ordered(key, a) && Ordered(key, b) && multiset(a) == multiset(b) && KeysTell(key, a)
    ensures a == b
    decreases |a|
  {
    hide Ordered, KeysTell;
    SameMembers(a, b);
    if a != [] {
      var last := |a| - 1;
      LastAgrees(key, a, b);
      DropLast(key, a);
      DropLast(key, b);
      OrderedIsUnique(key, a[..last], b[..last]);
      assert a == a[..last] + [a[last]] && b == b[..last] + [b[last]];
    }
  }

  lemma KeysTellOfPermutation<T>(key: T -> Key, a: seq<T>, b: seq<T>)
    requires multiset(a) == multiset(b) && KeysTell(key, a)
    ensures KeysTell(key, b)
  {
    SameMembers(a, b);
    forall x, y | x in b && y in b && key(x) == key(y)
      ensures x == y
    {
      assert x in a && y in a;
    }
  }

  /** When keys tell elements apart, the order of the input does not matter. */
  lemma SortForgetsOrder<T>(key: T -> Key, a: seq<T>, b: seq<T>)
    requires multiset(a) == multiset(b) && KeysTell(key, a)
    ensures SortOn(key, a) == SortOn(key, b)
  {
    hide Ordered, SortOn;
    SortIsOrderedPermutation(key, a);
    SortIsOrderedPermutation(key, b);
    KeysTellOfPermutation(key, a, SortOn(key, a));
    OrderedIsUnique(key, SortOn(key, a), SortOn(key, b));
  }

  // ---------- Filtering ----------

  function Filter<T(!new)>(keep: T -> bool, s: seq<T>): (r: seq<T>)
    ensures forall x :: x in r <==> x in s && keep(x)
  {
    if s == [] then []
    else
      assert forall x :: x in s <==> x == s[0] || x in s[1..];
      if keep(s[0]) then [s[0]] + Filter(keep, s[1..]) else Filter(keep, s[1..])
  }

  lemma {:induction false} FilterAgrees<T(!new)>(keep: T -> bool, other: T -> bool, s: seq<T>)
    requires forall x :: x in s ==> keep(x) == other(x)
    ensures Filter(keep, s) == Filter(other, s)
    decreases |s|
  {
    if s != [] { FilterAgrees(keep, other, s[1..]); }
  }

  lemma {:induction false} FilterSize<T(!new)>(keep: T -> bool, s: seq<T>)
    ensures |Filter(keep, s)| <= |s| && (Filter(keep, s) == s <==> forall x :: x in s ==> keep(x))
    decreases |s|
  {
    if s != [] { FilterSize(keep, s[1..]); }
  }

  lemma {:induction false} FilterSnoc<T(!new)>(keep: T -> bool, s: seq<T>, x: T)
    ensures Filter(keep, s + [x]) == Filter(keep, s) + (if keep(x) then [x] else [])
    decreases |s|
  {
    if s == [] {
      assert [x][1..] == [];
    } else {
      assert (s + [x])[1..] == s[1..] + [x];
      FilterSnoc(keep, s[1..], x);
    }
  }

  lemma {:induction false} FilterKeepsOrdered<T(!new)>(key: T -> Key, keep: T -> bool, s: seq<T>)
    requires Ordered(key, s)
    ensures Ordered(key, Filter(keep, s))
    decreases |s|
  {
    if s != [] {
      FilterKeepsOrdered(key, keep, s[1..]);
      forall x | x in Filter(keep, s[1..])
        ensures Compare(key(s[0]), key(x)) <= 0
      {
        var i :| 0 <= i < |s| - 1 && s[1..][i] == x;
        assert s[i + 1] == x;
      }
    }
  }

  lemma {:induction false} FilterCounts<T(!new)>(keep: T -> bool, s: seq<T>, x: T)
    ensures multiset(Filter(keep, s))[x] == if keep(x) then multiset(s)[x] else 0
    decreases |s|
  {
    if s != [] {
      FilterCounts(keep, s[1..], x);
      assert s == [s[0]] + s[1..];
    }
  }

  /** Filtering a permutation gives a permutation of what filtering gives. */
  lemma FilterOfPermutation<T(!new)>(keep: T -> bool, a: seq<T>, b: seq<T>)
    requires multiset(a) == multiset(b)
    ensures multiset(Filter(keep, a)) == multiset(Filter(keep, b))
  {
    forall x: T
      ensures multiset(Filter(keep, a))[x] == multiset(Filter(keep, b))[x]
    {
      FilterCounts(keep, a, x);
      FilterCounts(keep, b, x);
    }
  }

  // ---------- Mapping ----------

  function Map<T, U>(f: T -> U, s: seq<T>): (r: seq<U>)
    ensures |r| == |s| && (forall i :: 0 <= i < |s| ==> r[i] == f(s[i]))
  {
    seq(|s|, i requires 0 <= i < |s| => f(s[i]))
  }

  lemma MapAppends<T, U>(f: T -> U, a: seq<T>, b: seq<T>)
    ensures Map(f, a + b) == Map(f, a) + Map(f, b)
  {
  }

  lemma Without<T>(s: seq<T>, i: nat)
    requires i < |s|
    ensures multiset(s[..i] + s[i + 1..]) == multiset(s) - multiset{s[i]}
  {
    assert s == s[..i] + [s[i]] + s[i + 1..];
  }

  lemma MapWithout<T, U>(f: T -> U, s: seq<T>, i: nat)
    requires i < |s|
    ensures multiset(Map(f, s)) == multiset(Map(f, s[..i] + s[i + 1..])) + multiset{f(s[i])}
  {
    hide Map;
    var before, after := s[..i], s[i + 1..];
    assert s == before + [s[i]] + after;
    MapAppends(f, before + [s[i]], after);
    MapAppends(f, before, [s[i]]);
    MapAppends(f, before, after);
    assert Map(f, [s[i]]) == [f(s[i])];
  }

  /** Mapping a permutation gives a permutation of what mapping gives. */
  lemma {:induction false} MapOfPermutation<T, U>(f: T -> U, a: seq<T>, b: seq<T>)
    requires multiset(a) == multiset(b)
    ensures multiset(Map(f, a)) == multiset(Map(f, b))
    decreases |a|
  {
    hide Map;
    SameMembers(a, b);
    if a == [] {
      assert a == b;
    } else {
      assert a[0] in b;
      var i :| 0 <= i < |b| && b[i] == a[0];
      MapWithout(f, a, 0);
      MapWithout(f, b, i);
      Without(a, 0);
      Without(b, i);
      MapOfPermutation(f, a[..0] + a[1..], b[..i] + b[i + 1..]);
    }
  }
}
