/**
 Sorting as the program uses it: a stable sort by a strict order, and the fact that a
 strictly sorted sequence is determined by the set of its elements.
 */
module Ordering {

  /** `lt` is a strict partial order. */
  ghost predicate StrictOrder<T(!new)>(lt: (T, T) -> bool) {
    && (forall x :: !lt(x, x))
    && (forall x, y, z :: lt(x, y) && lt(y, z) ==> lt(x, z))
  }

  /** Any two different elements can be compared. */
  ghost predicate Trichotomous<T(!new)>(lt: (T, T) -> bool) {
    forall x, y :: x == y || lt(x, y) || lt(y, x)
  }

  ghost predicate StrictlySorted<T>(lt: (T, T) -> bool, s: seq<T>) {
    forall i, j | 0 <= i < j < |s| :: lt(s[i], s[j])
  }

  /** No element stands before a smaller one; equal keys may stand side by side. */
  ghost predicate WeaklySorted<T>(lt: (T, T) -> bool, s: seq<T>) {
    forall i, j | 0 <= i < j < |s| :: !lt(s[j], s[i])
  }

  ghost predicate Distinct<T>(s: seq<T>) {
    forall i, j | 0 <= i < j < |s| :: s[i] != s[j]
  }

  /** Puts `x` behind every element that is not greater, which keeps the sort stable. */
  function Insert<T>(lt: (T, T) -> bool, s: seq<T>, x: T): (r: seq<T>)
    ensures multiset(r) == multiset(s) + multiset{x}
    ensures |r| == |s| + 1
  {
    if s == [] then [x]
    else if lt(x, s[|s| - 1]) then
      assert s == s[..|s| - 1] + [s[|s| - 1]];
      Insert(lt, s[..|s| - 1], x) + [s[|s| - 1]]
    else s + [x]
  }

  /** Stable insertion sort by `lt`. */
  function Sort<T>(lt: (T, T) -> bool, s: seq<T>): (r: seq<T>)
    ensures multiset(r) == multiset(s)
    ensures |r| == |s|
  {
    if s == [] then []
    else
      assert s == s[..|s| - 1] + [s[|s| - 1]];
      Insert(lt, Sort(lt, s[..|s| - 1]), s[|s| - 1])
  }

  lemma SameElements<T>(a: seq<T>, b: seq<T>)
    requires multiset(a) == multiset(b)
    ensures forall x :: x in a <==> x in b
  {
    forall x
      ensures x in a <==> x in b
    {
      assert x in multiset(a) <==> x in a;
      assert x in multiset(b) <==> x in b;
    }
  }

  /** Negative transitivity: what orders by a comparable key satisfies. */
  ghost predicate WeakOrder<T(!new)>(lt: (T, T) -> bool) {
    && StrictOrder(lt)
    && (forall x, y, z :: lt(x, z) ==> lt(x, y) || lt(y, z))
  }

  lemma {:induction false} InsertSorted<T(!new)>(lt: (T, T) -> bool, s: seq<T>, x: T)
    requires WeakOrder(lt) && WeaklySorted(lt, s)
    ensures WeaklySorted(lt, Insert(lt, s, x))
  {
    if s != [] {
      var last := s[|s| - 1];
      if lt(x, last) {
        var front := s[..|s| - 1];
        InsertSorted(lt, front, x);
        var r := Insert(lt, front, x);
        SameElements(r, front + [x]);
        forall i | 0 <= i < |r|
          ensures !lt(last, r[i])
        {
          assert r[i] in front + [x];
        }
      } else {
        forall i | 0 <= i < |s|
          ensures !lt(x, s[i])
        {
          if i < |s| - 1 { assert !lt(last, s[i]); }
        }
      }
    }
  }

  lemma {:induction false} SortSorts<T(!new)>(lt: (T, T) -> bool, s: seq<T>)
    requires WeakOrder(lt)
    ensures WeaklySorted(lt, Sort(lt, s))
  {
    if s != [] {
      SortSorts(lt, s[..|s| - 1]);
      InsertSorted(lt, Sort(lt, s[..|s| - 1]), s[|s| - 1]);
    }
  }

  lemma DistinctMultiplicity<T>(s: seq<T>)
    requires Distinct(s)
    ensures forall x :: multiset(s)[x] <= 1
  {
    if s != [] {
      var front, last := s[..|s| - 1], s[|s| - 1];
      assert s == front + [last];
      DistinctMultiplicity(front);
      assert last !in front;
    }
  }

  lemma MultiplicityDistinct<T>(s: seq<T>)
    requires forall x :: multiset(s)[x] <= 1
    ensures Distinct(s)
  {
    forall i, j | 0 <= i < j < |s|
      ensures s[i] != s[j]
    {
      assert s == s[..j] + s[j..];
      assert s[..j][i] == s[i] && s[j..][0] == s[j];
      assert multiset(s)[s[i]] == multiset(s[..j])[s[i]] + multiset(s[j..])[s[i]];
    }
  }

  /** A distinct, pairwise comparable sequence sorts strictly. */
  lemma SortStrict<T(!new)>(lt: (T, T) -> bool, s: seq<T>)
    requires WeakOrder(lt) && Distinct(s)
    requires forall x, y | x in s && y in s && x != y :: lt(x, y) || lt(y, x)
    ensures StrictlySorted(lt, Sort(lt, s))
  {
    var r := Sort(lt, s);
    SortSorts(lt, s);
    SameElements(r, s);
    DistinctMultiplicity(s);
    MultiplicityDistinct(r);
    forall i, j | 0 <= i < j < |r|
      ensures lt(r[i], r[j])
    {
      assert r[i] in s && r[j] in s && r[i] != r[j];
      assert !lt(r[j], r[i]);
    }
  }

  lemma EmptyHasNoElements<T>(s: seq<T>)
    ensures s == [] <==> forall x :: x !in s
  {
    if s != [] { assert s[0] in s; }
  }

  /** Two strictly sorted sequences with the same elements are the same sequence. */
  lemma {:induction false} StrictlySortedUnique<T(!new)>(lt: (T, T) -> bool, a: seq<T>, b: seq<T>)
    requires StrictOrder(lt) && StrictlySorted(lt, a) && StrictlySorted(lt, b)
    requires forall x :: x in a <==> x in b
    ensures a == b
  {
    if a == [] {
      EmptyHasNoElements(b);
    } else {
      assert a[0] in b;
      var k :| 0 <= k < |b| && b[k] == a[0];
      assert b[0] in a;
      var m :| 0 <= m < |a| && a[m] == b[0];
      assert forall j | 0 <= j < |a| :: j == 0 || lt(a[0], a[j]);
      assert forall j | 0 <= j < |b| :: j == 0 || lt(b[0], b[j]);
      assert a[0] == b[0];
      forall x
        ensures x in a[1..] <==> x in b[1..]
      {
        if x in a[1..] { assert x in b && x != a[0]; }
        if x in b[1..] { assert x in a && x != b[0]; }
      }
      StrictlySortedUnique(lt, a[1..], b[1..]);
      assert a == [a[0]] + a[1..] && b == [b[0]] + b[1..];
    }
  }

  /** Sorting forgets the order in which distinct, comparable elements arrived. */
  lemma SortForgetsOrder<T(!new)>(lt: (T, T) -> bool, s: seq<T>, t: seq<T>)
    requires WeakOrder(lt) && Distinct(s) && multiset(s) == multiset(t)
    requires forall x, y | x in s && y in s && x != y :: lt(x, y) || lt(y, x)
    ensures Sort(lt, s) == Sort(lt, t)
  {
    SameElements(s, t);
    DistinctMultiplicity(s);
    MultiplicityDistinct(t);
    SortStrict(lt, s);
    SortStrict(lt, t);
    SameElements(Sort(lt, s), s);
    SameElements(Sort(lt, t), t);
    StrictlySortedUnique(lt, Sort(lt, s), Sort(lt, t));
  }

  /** The elements of `s` that satisfy `p`, in their order. */
  function Filter<T(!new)>(p: T -> bool, s: seq<T>): (r: seq<T>)
    ensures forall x :: x in r <==> x in s && p(x)
    ensures |r| <= |s|
  {
    if s == [] then []
    else Filter(p, s[..|s| - 1]) + (if p(s[|s| - 1]) then [s[|s| - 1]] else [])
  }

  lemma {:induction false} FilterConcat<T(!new)>(p: T -> bool, s: seq<T>, t: seq<T>)
    ensures Filter(p, s + t) == Filter(p, s) + Filter(p, t)
  {
    if t == [] {
      assert s + t == s;
    } else {
      var front, last := t[..|t| - 1], [t[|t| - 1]];
      FilterConcat(p, s, front);
      FilterAppend(p, s + front, t[|t| - 1]);
      SplitLast(t);
      ConcatAssociates(s, front, last);
      ConcatAssociates(Filter(p, s), Filter(p, front), if p(last[0]) then last else []);
    }
  }

  lemma SplitLast<T>(s: seq<T>)
    requires s != []
    ensures s == s[..|s| - 1] + [s[|s| - 1]]
  {
  }

  lemma ConcatAssociates<T>(a: seq<T>, b: seq<T>, c: seq<T>)
    ensures (a + b) + c == a + (b + c)
  {
  }

  lemma FilterAppend<T(!new)>(p: T -> bool, s: seq<T>, x: T)
    ensures Filter(p, s + [x]) == Filter(p, s) + (if p(x) then [x] else [])
  {
    assert (s + [x])[..|s|] == s;
  }

  lemma {:induction false} FilterMultiplicity<T(!new)>(p: T -> bool, s: seq<T>, x: T)
    ensures multiset(Filter(p, s))[x] == if p(x) then multiset(s)[x] else 0
  {
    if s != [] {
      FilterMultiplicity(p, s[..|s| - 1], x);
      assert s == s[..|s| - 1] + [s[|s| - 1]];
    }
  }

  /** Filtering two arrangements of the same elements keeps the same elements. */
  lemma FilterForgetsOrder<T(!new)>(p: T -> bool, s: seq<T>, t: seq<T>)
    requires multiset(s) == multiset(t)
    ensures multiset(Filter(p, s)) == multiset(Filter(p, t))
  {
    forall x
      ensures multiset(Filter(p, s))[x] == multiset(Filter(p, t))[x]
    {
      FilterMultiplicity(p, s, x);
      FilterMultiplicity(p, t, x);
    }
  }

  lemma FilterDistinct<T(!new)>(p: T -> bool, s: seq<T>)
    requires Distinct(s)
    ensures Distinct(Filter(p, s))
  {
    DistinctMultiplicity(s);
    forall x
      ensures multiset(Filter(p, s))[x] <= 1
    {
      FilterMultiplicity(p, s, x);
    }
    MultiplicityDistinct(Filter(p, s));
  }

  /** Order of strings by code point, a proper prefix first. */
  predicate StringLt(a: string, b: string) {
    b != [] && (a == [] || a[0] < b[0] || (a[0] == b[0] && StringLt(a[1..], b[1..])))
  }

  lemma {:induction false} StringLtTransitive(a: string, b: string, c: string)
    requires StringLt(a, b) && StringLt(b, c)
    ensures StringLt(a, c)
  {
    if a != [] && a[0] == b[0] && b[0] == c[0] {
      StringLtTransitive(a[1..], b[1..], c[1..]);
    }
  }

  lemma {:induction false} StringLtIrreflexive(a: string)
    ensures !StringLt(a, a)
  {
    if a != [] { StringLtIrreflexive(a[1..]); }
  }

  lemma {:induction false} StringLtTotal(a: string, b: string)
    ensures a == b || StringLt(a, b) || StringLt(b, a)
  {
    if a != [] && b != [] && a[0] == b[0] {
      StringLtTotal(a[1..], b[1..]);
      assert a == [a[0]] + a[1..] && b == [b[0]] + b[1..];
    }
  }

  lemma StringLtIsOrder()
    ensures WeakOrder(StringLt) && Trichotomous(StringLt)
  {
    forall a ensures !StringLt(a, a) { StringLtIrreflexive(a); }
    forall a, b, c | StringLt(a, b) && StringLt(b, c) ensures StringLt(a, c) { StringLtTransitive(a, b, c); }
    forall a, b ensures a == b || StringLt(a, b) || StringLt(b, a) { StringLtTotal(a, b); }
  }

  /** Order of tuples of strings, component by component. */
  predicate TupleLt(a: seq<string>, b: seq<string>) {
    b != [] && (a == [] || StringLt(a[0], b[0]) || (a[0] == b[0] && TupleLt(a[1..], b[1..])))
  }

  lemma {:induction false} TupleLtTransitive(a: seq<string>, b: seq<string>, c: seq<string>)
    requires TupleLt(a, b) && TupleLt(b, c)
    ensures TupleLt(a, c)
  {
    StringLtIsOrder();
    if a != [] && a[0] == b[0] && b[0] == c[0] {
      TupleLtTransitive(a[1..], b[1..], c[1..]);
    }
  }

  lemma {:induction false} TupleLtIrreflexive(a: seq<string>)
    ensures !TupleLt(a, a)
  {
    StringLtIsOrder();
    if a != [] { TupleLtIrreflexive(a[1..]); }
  }

  lemma {:induction false} TupleLtTotal(a: seq<string>, b: seq<string>)
    ensures a == b || TupleLt(a, b) || TupleLt(b, a)
  {
    StringLtIsOrder();
    if a != [] && b != [] && a[0] == b[0] {
      TupleLtTotal(a[1..], b[1..]);
      assert a == [a[0]] + a[1..] && b == [b[0]] + b[1..];
    }
  }

  lemma TupleLtIsOrder()
    ensures WeakOrder(TupleLt) && Trichotomous(TupleLt)
  {
    forall a ensures !TupleLt(a, a) { TupleLtIrreflexive(a); }
    forall a, b, c | TupleLt(a, b) && TupleLt(b, c) ensures TupleLt(a, c) { TupleLtTransitive(a, b, c); }
    forall a, b ensures a == b || TupleLt(a, b) || TupleLt(b, a) { TupleLtTotal(a, b); }
  }
}
