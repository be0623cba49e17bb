/** Sequences up to order: filtering, mapping and counting. */
module Bags {
  function Filter<T>(p: T -> bool, s: seq<T>): seq<T> {
    if s == [] then [] else (if p(s[0]) then [s[0]] else []) + Filter(p, s[1..])
  }

  function Map<T, U>(f: T -> U, s: seq<T>): (r: seq<U>)
    ensures |r| == |s| && forall i :: 0 <= i < |s| ==> r[i] == f(s[i])
  {
    if s == [] then [] else [f(s[0])] + Map(f, s[1..])
  }

  /** The same elements as often, in any order. */
  ghost predicate Permutes<T>(a: seq<T>, b: seq<T>) {
    multiset(a) == multiset(b)
  }

  lemma HeadTail<T>(s: seq<T>)
    requires s != []
    ensures multiset(s) == multiset{s[0]} + multiset(s[1..])
  {
    assert s == [s[0]] + s[1..];
  }

  lemma {:induction false} FilterCount<T>(p: T -> bool, s: seq<T>, x: T)
    ensures multiset(Filter(p, s))[x] == if p(x) then multiset(s)[x] else 0
  {
    if s != [] {
      HeadTail(s);
      FilterCount(p, s[1..], x);
    }
  }

  lemma FilterPermutes<T(!new)>(p: T -> bool, a: seq<T>, b: seq<T>)
    requires Permutes(a, b)
    ensures Permutes(Filter(p, a), Filter(p, b))
  {
    forall x ensures multiset(Filter(p, a))[x] == multiset(Filter(p, b))[x] {
      FilterCount(p, a, x);
      FilterCount(p, b, x);
    }
  }

  function Kept<T>(p: T -> bool, x: T): seq<T> {
    if p(x) then [x] else []
  }

  lemma FilterCons<T>(p: T -> bool, s: seq<T>)
    ensures Filter(p, []) == []
    ensures s != [] ==> Filter(p, s) == Kept(p, s[0]) + Filter(p, s[1..])
  {
  }

  lemma Associates<T>(a: seq<T>, b: seq<T>, c: seq<T>)
    ensures a + (b + c) == a + b + c && [] + c == c
  {
  }

  lemma {:induction false} FilterConcat<T>(p: T -> bool, a: seq<T>, b: seq<T>)
    ensures Filter(p, a + b) == Filter(p, a) + Filter(p, b)
  {
    hide *;
    FilterCons(p, a);
    if a == [] {
      assert a + b == b;
      Associates([], [], Filter(p, b));
    } else {
      FilterConcat(p, a[1..], b);
      assert (a + b)[1..] == a[1..] + b;
      FilterCons(p, a + b);
      Associates(Kept(p, a[0]), Filter(p, a[1..]), Filter(p, b));
    }
  }

  lemma {:induction false} FilterIn<T(!new)>(p: T -> bool, s: seq<T>)
    ensures forall x :: x in Filter(p, s) <==> x in s && p(x)
  {
    forall x ensures x in Filter(p, s) <==> x in s && p(x) {
      FilterCount(p, s, x);
      assert x in s <==> multiset(s)[x] > 0;
      assert x in Filter(p, s) <==> multiset(Filter(p, s))[x] > 0;
    }
  }

  function Without<T>(s: seq<T>, i: nat): seq<T>
    requires i < |s|
  {
    s[..i] + s[i + 1..]
  }

  lemma WithoutBag<T>(s: seq<T>, i: nat)
    requires i < |s|
    ensures multiset(s) == multiset{s[i]} + multiset(Without(s, i))
  {
    assert s == s[..i] + ([s[i]] + s[i + 1..]);
  }

  lemma MapWithout<T, U>(f: T -> U, s: seq<T>, i: nat)
    requires i < |s|
    ensures multiset(Map(f, s)) == multiset{f(s[i])} + multiset(Map(f, Without(s, i)))
  {
    hide Map;
    WithoutBag(Map(f, s), i);
    WithoutMap(f, s, i);
  }

  lemma WithoutMap<T, U>(f: T -> U, s: seq<T>, i: nat)
    requires i < |s|
    ensures Without(Map(f, s), i) == Map(f, Without(s, i))
  {
    hide *;
    var a, b := Without(Map(f, s), i), Map(f, Without(s, i));
    WithoutLength(s, i);
    WithoutLength(Map(f, s), i);
    forall j | 0 <= j < |a| ensures a[j] == b[j] {
      WithoutAt(s, i, j);
      WithoutAt(Map(f, s), i, j);
    }
  }

  lemma WithoutLength<T>(s: seq<T>, i: nat)
    requires i < |s|
    ensures |Without(s, i)| == |s| - 1
  {
  }

  lemma WithoutAt<T>(s: seq<T>, i: nat, j: nat)
    requires i < |s| && j < |s| - 1
    ensures |Without(s, i)| == |s| - 1 && Without(s, i)[j] == if j < i then s[j] else s[j + 1]
  {
  }

  /** Taking one occurrence of the same element out of two permutations leaves permutations. */
  lemma TakeOut<T>(a: seq<T>, b: seq<T>) returns (i: nat)
    requires Permutes(a, b) && a != []
    ensures i < |b| && b[i] == a[0] && Permutes(a[1..], Without(b, i))
  {
    HeadTail(a);
    assert a[0] in multiset(b);
    i :| 0 <= i < |b| && b[i] == a[0];
    WithoutBag(b, i);
    assert multiset(a[1..]) == multiset(a) - multiset{a[0]};
    assert multiset(Without(b, i)) == multiset(b) - multiset{a[0]};
  }

  lemma {:induction false} MapPermutes<T, U>(f: T -> U, a: seq<T>, b: seq<T>)
    requires Permutes(a, b)
    ensures Permutes(Map(f, a), Map(f, b))
  {
    if a == [] {
      assert |b| == |multiset(b)|;
    } else {
      var i := TakeOut(a, b);
      MapPermutes(f, a[1..], Without(b, i));
      MapWithout(f, a, 0);
      MapWithout(f, b, i);
      assert Without(a, 0) == a[1..];
    }
  }

  ghost predicate Distinct<T>(s: seq<T>) {
    forall i, j :: 0 <= i < j < |s| ==> s[i] != s[j]
  }

  lemma {:induction false} DistinctCounts<T>(s: seq<T>, x: T)
    requires Distinct(s)
    ensures multiset(s)[x] == if x in s then 1 else 0
  {
    if s != [] {
      HeadTail(s);
      DistinctCounts(s[1..], x);
      assert x in s <==> x == s[0] || x in s[1..];
    }
  }
}
