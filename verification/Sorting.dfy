/** A stable insertion sort standing for the library sorts of Go and JavaScript, and what
    every caller relies on: the result is a sorted rearrangement, and it is the only one
    when the order tells all elements apart. Also: sequences without repetition. */
module Sorting {

  ghost predicate Total<T(!new)>(le: (T, T) -> bool) {
    && (forall x, y :: le(x, y) || le(y, x))
    && (forall x, y, z :: le(x, y) && le(y, z) ==> le(x, z))
  }

  ghost predicate Sorted<T(!new)>(le: (T, T) -> bool, s: seq<T>) {
    forall i, j :: 0 <= i < j < |s| ==> le(s[i], s[j])
  }

  function Insert<T>(le: (T, T) -> bool, x: T, s: seq<T>): (r: seq<T>)
    ensures multiset(r) == multiset{x} + multiset(s)
  {
    if s == [] then [x]
    else if le(x, s[0]) then [x] + s
    else assert s == [s[0]] + s[1..]; [s[0]] + Insert(le, x, s[1..])
  }

  function Sort<T>(le: (T, T) -> bool, s: seq<T>): (r: seq<T>)
    ensures multiset(r) == multiset(s)
    ensures |r| == |s|
  {
    if s == [] then [] else
      var r := Insert(le, s[0], Sort(le, s[1..]));
      assert s == [s[0]] + s[1..];
      assert |multiset(r)| == |multiset(s)|;
      r
  }

  lemma {:induction false} InsertSorted<T(!new)>(le: (T, T) -> bool, x: T, s: seq<T>)
    requires Total(le) && Sorted(le, s)
    ensures Sorted(le, Insert(le, x, s))
  {
    if s != [] && !le(x, s[0]) {
      InsertSorted(le, x, s[1..]);
      var t := Insert(le, x, s[1..]);
      forall y | y in t
        ensures le(s[0], y)
      {
        assert y in multiset(t);
        assert y == x || y in multiset(s[1..]);
      }
    }
  }

  lemma {:induction false} SortSorts<T(!new)>(le: (T, T) -> bool, s: seq<T>)
    requires Total(le)
    ensures Sorted(le, Sort(le, s))
  {
    if s != [] {
      SortSorts(le, s[1..]);
      InsertSorted(le, s[0], Sort(le, s[1..]));
    }
  }

  /** The order tells the elements of s apart. */
  ghost predicate Separates<T(!new)>(le: (T, T) -> bool, s: seq<T>) {
    forall x, y :: x in s && y in s && le(x, y) && le(y, x) ==> x == y
  }

  lemma SortedHeads<T(!new)>(le: (T, T) -> bool, a: seq<T>, b: seq<T>)
    requires Sorted(le, a) && Sorted(le, b) && multiset(a) == multiset(b) && a != []
    requires Separates(le, a)
    ensures b != [] && a[0] == b[0]
  {
    assert a[0] in multiset(b);
    assert b[0] in multiset(a);
    var i :| 0 <= i < |b| && b[i] == a[0];
    var j :| 0 <= j < |a| && a[j] == b[0];
    if i != 0 && j != 0 {
      assert le(b[0], b[i]) && le(a[0], a[j]);
    }
  }

  lemma TailMultiset<T>(s: seq<T>)
    requires s != []
    ensures multiset(s[1..]) == multiset(s) - multiset{s[0]}
  {
    assert s == [s[0]] + s[1..];
  }

  /** Two sorted rearrangements of the same elements agree when the order tells them apart. */
  lemma {:induction false} SortedUnique<T(!new)>(le: (T, T) -> bool, a: seq<T>, b: seq<T>)
    requires Sorted(le, a) && Sorted(le, b) && multiset(a) == multiset(b)
    requires Separates(le, a)
    ensures a == b
  {
    if a == [] {
      assert |multiset(b)| == 0;
    } else {
      SortedHeads(le, a, b);
      TailMultiset(a);
      TailMultiset(b);
      SortedUnique(le, a[1..], b[1..]);
      assert a == [a[0]] + a[1..] && b == [b[0]] + b[1..];
    }
  }

  // --- sequences without repetition ---

  ghost predicate NoDup<T(!new)>(s: seq<T>) {
    forall i, j :: 0 <= i < j < |s| ==> s[i] != s[j]
  }

  /** xs lists the elements of S, each once. */
  ghost predicate Lists<T(!new)>(xs: seq<T>, S: set<T>) {
    NoDup(xs) && forall x :: x in xs <==> x in S
  }

  lemma NoDupInit<T(!new)>(s: seq<T>)
    requires s != [] && NoDup(s)
    ensures NoDup(s[..|s| - 1]) && s[|s| - 1] !in s[..|s| - 1]
  {
  }

  function Elements<T>(s: seq<T>): (r: set<T>) {
    set x | x in s
  }

  lemma {:induction false} NoDupCount<T(!new)>(s: seq<T>)
    requires NoDup(s)
    ensures |Elements(s)| == |s|
  {
    if s != [] {
      NoDupCount(s[1..]);
      assert Elements(s) == {s[0]} + Elements(s[1..]);
      assert s[0] !in s[1..];
    }
  }

  /** A list without repetition drawn from S and as long as S is large names all of S. */
  lemma Pigeonhole<T(!new)>(xs: seq<T>, S: set<T>)
    requires NoDup(xs) && |xs| == |S|
    requires forall x :: x in xs ==> x in S
    ensures Lists(xs, S)
  {
    NoDupCount(xs);
    assert Elements(xs) <= S;
    assert |S - Elements(xs)| == |S| - |Elements(xs)|;
    assert S == Elements(xs) + (S - Elements(xs));
    forall x
      ensures x in xs <==> x in S
    {
      assert x in xs <==> x in Elements(xs);
    }
  }

  lemma ListsCount<T(!new)>(xs: seq<T>, S: set<T>)
    requires Lists(xs, S)
    ensures |xs| == |S|
  {
    NoDupCount(xs);
    assert Elements(xs) == S;
  }

  function IndexOf<T(==)>(s: seq<T>, x: T): (i: nat)
    requires x in s
    ensures i < |s| && s[i] == x
    ensures forall j :: 0 <= j < i ==> s[j] != x
  {
    if s[0] == x then 0 else 1 + IndexOf(s[1..], x)
  }

  /** ys are the different non-empty entries of xs, in the order in which they first occur. */
  ghost predicate KeepsFirsts(xs: seq<string>, ys: seq<string>) {
    && NoDup(ys) && (forall y :: y in ys <==> y in xs && y != "")
    && forall p, q :: 0 <= p < q < |ys| ==> ys[p] in xs && ys[q] in xs && IndexOf(xs, ys[p]) < IndexOf(xs, ys[q])
  }

  lemma IndexOfPrefix<T>(xs: seq<T>, x: T, y: T)
    requires y in xs
    ensures y in xs + [x] && IndexOf(xs + [x], y) == IndexOf(xs, y)
  {
    var i := IndexOf(xs, y);
    assert (xs + [x])[i] == y && forall j :: 0 <= j < i ==> (xs + [x])[j] != y;
    assert y in xs + [x];
  }

  /** The entries of ys come from xs, in the order in which they first occur there. */
  ghost predicate InOrderOf<T(!new)>(xs: seq<T>, ys: seq<T>) {
    && (forall y :: y in ys ==> y in xs)
    && forall p, q :: 0 <= p < q < |ys| ==> ys[p] in xs && ys[q] in xs && IndexOf(xs, ys[p]) < IndexOf(xs, ys[q])
  }

  lemma InOrderNext<T(!new)>(xs: seq<T>, ys: seq<T>, x: T)
    requires InOrderOf(xs, ys) && x !in xs
    ensures InOrderOf(xs + [x], ys) && InOrderOf(xs + [x], ys + [x])
  {
    forall y | y in xs
      ensures y in xs + [x] && IndexOf(xs + [x], y) == IndexOf(xs, y)
    {
      IndexOfPrefix(xs, x, y);
    }
    assert (xs + [x])[|xs|] == x;
    assert IndexOf(xs + [x], x) == |xs|;
    assert forall y :: y in ys + [x] <==> y in ys || y == x;
  }

  lemma KeepsFirstsNext(xs: seq<string>, ys: seq<string>, x: string)
    requires KeepsFirsts(xs, ys)
    ensures KeepsFirsts(xs + [x], if x == "" || x in ys then ys else ys + [x])
  {
    var next := if x == "" || x in ys then ys else ys + [x];
    forall y | y in xs
      ensures y in xs + [x] && IndexOf(xs + [x], y) == IndexOf(xs, y)
    {
      IndexOfPrefix(xs, x, y);
    }
    assert forall y :: y in xs + [x] <==> y in xs || y == x;
    assert forall y :: y in next <==> y in ys || (y == x && x != "");
    forall p, q | 0 <= p < q < |next|
      ensures next[p] in xs + [x] && next[q] in xs + [x] && IndexOf(xs + [x], next[p]) < IndexOf(xs + [x], next[q])
    {
      assert next[p] in ys && next[q] in next;
      if q == |ys| {
        assert x !in xs;
        assert IndexOf(xs + [x], x) == |xs|;
      }
    }
  }

  lemma {:induction false} SameMultisetNoDup<T(!new)>(a: seq<T>, b: seq<T>)
    requires NoDup(a) && NoDup(b)
    requires forall x :: x in a <==> x in b
    ensures multiset(a) == multiset(b)
  {
    forall x
      ensures multiset(a)[x] == multiset(b)[x]
    {
      NoDupMultiplicity(a, x);
      NoDupMultiplicity(b, x);
    }
  }

  lemma {:induction false} NoDupMultiplicity<T(!new)>(s: seq<T>, x: T)
    requires NoDup(s)
    ensures multiset(s)[x] == if x in s then 1 else 0
  {
    if s != [] {
      NoDupMultiplicity(s[1..], x);
      assert s == [s[0]] + s[1..];
      assert s[0] !in s[1..];
    }
  }

  // --- largest element ---

  /** The largest element of S, or -1 when nothing in S is above -1. */
  ghost function MaxOf(S: set<int>): (m: int)
    ensures m >= -1 && (m == -1 || m in S)
    ensures forall x :: x in S ==> x <= m
  {
    if exists x :: x in S then
      var x :| x in S;
      var m := MaxOf(S - {x});
      assert S == (S - {x}) + {x};
      if x > m then x else m
    else -1
  }

  lemma IsMaxOf(m: int, S: set<int>)
    requires m >= -1 && (m == -1 || m in S)
    requires forall x :: x in S ==> x <= m
    ensures m == MaxOf(S)
  {
  }
}
