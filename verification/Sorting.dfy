/** Stable sorting, and why the result does not depend on the order of the input. */
module Sorting {
  /** Order(a, b) says that a may stand before b. */
  type Order<!T> = (T, T) -> bool

  ghost predicate IsOrder<T(!new)>(le: Order<T>) {
    && (forall a, b :: le(a, b) || le(b, a))
    && (forall a, b, c :: le(a, b) && le(b, c) ==> le(a, c))
  }

  ghost predicate Sorted<T>(le: Order<T>, s: seq<T>) {
    forall i, j :: 0 <= i < j < |s| ==> le(s[i], s[j])
  }

  /** x goes behind everything that it need not come before. */
  function Place<T>(le: Order<T>, s: seq<T>, x: T): seq<T> {
    if s == [] then [x]
    else if le(s[|s| - 1], x) then s + [x]
    else Place(le, s[..|s| - 1], x) + [s[|s| - 1]]
  }

  function Sort<T>(le: Order<T>, s: seq<T>): seq<T> {
    if s == [] then [] else Place(le, Sort(le, s[..|s| - 1]), s[|s| - 1])
  }

  ghost predicate AllBefore<T(!new)>(le: Order<T>, s: seq<T>, x: T) {
    forall y :: y in s ==> le(y, x)
  }

  lemma SortedOneMore<T(!new)>(le: Order<T>, s: seq<T>, x: T)
    requires Sorted(le, s) && AllBefore(le, s, x)
    ensures Sorted(le, s + [x])
  {
    forall i | 0 <= i < |s|
      ensures le(s[i], x)
    {
      assert s[i] in s;
    }
  }

  lemma LastIsLast<T(!new)>(le: Order<T>, s: seq<T>)
    requires Sorted(le, s) && s != []
    ensures Sorted(le, s[..|s| - 1]) && AllBefore(le, s[..|s| - 1], s[|s| - 1])
  {
    var front := s[..|s| - 1];
    forall y | y in front
      ensures le(y, s[|s| - 1])
    {
      var i :| 0 <= i < |front| && front[i] == y;
    }
  }

  lemma BeforeLater<T(!new)>(le: Order<T>, s: seq<T>, x: T, y: T)
    requires IsOrder(le) && AllBefore(le, s, x) && le(x, y)
    ensures AllBefore(le, s, y)
  {
  }

  lemma {:induction false} PlaceBefore<T(!new)>(le: Order<T>, s: seq<T>, x: T, y: T)
    requires AllBefore(le, s, y) && le(x, y)
    ensures AllBefore(le, Place(le, s, x), y)
  {
    if s != [] {
      var front := s[..|s| - 1];
      assert AllBefore(le, front, y);
      PlaceBefore(le, front, x, y);
      assert s[|s| - 1] in s;
    }
  }

  lemma {:induction false} PlaceSorts<T(!new)>(le: Order<T>, s: seq<T>, x: T)
    requires IsOrder(le) && Sorted(le, s)
    ensures Sorted(le, Place(le, s, x))
  {
    if s != [] {
      var front, last := s[..|s| - 1], s[|s| - 1];
      LastIsLast(le, s);
      if le(last, x) {
        BeforeLater(le, front, last, x);
        assert s == front + [last];
        SortedOneMore(le, s, x);
      } else {
        PlaceSorts(le, front, x);
        PlaceBefore(le, front, x, last);
        SortedOneMore(le, Place(le, front, x), last);
      }
    }
  }

  lemma LastApart<T>(s: seq<T>)
    requires s != []
    ensures s == s[..|s| - 1] + [s[|s| - 1]]
    ensures multiset(s) == multiset(s[..|s| - 1]) + multiset{s[|s| - 1]}
    ensures multiset(s[..|s| - 1]) == multiset(s) - multiset{s[|s| - 1]}
  {
    assert s == s[..|s| - 1] + [s[|s| - 1]];
  }

  lemma {:induction false} PlacePermutes<T>(le: Order<T>, s: seq<T>, x: T)
    ensures multiset(Place(le, s, x)) == multiset(s) + multiset{x}
  {
    if s != [] && !le(s[|s| - 1], x) {
      PlacePermutes(le, s[..|s| - 1], x);
      LastApart(s);
    }
  }

  /** Sort yields a sorted permutation. */
  lemma {:induction false} SortSorts<T(!new)>(le: Order<T>, s: seq<T>)
    requires IsOrder(le)
    ensures Sorted(le, Sort(le, s)) && multiset(Sort(le, s)) == multiset(s)
  {
    if s != [] {
      var sorted := Sort(le, s[..|s| - 1]);
      SortSorts(le, s[..|s| - 1]);
      PlaceSorts(le, sorted, s[|s| - 1]);
      PlacePermutes(le, sorted, s[|s| - 1]);
      LastApart(s);
    }
  }

  /** No two different elements may stand in either order. */
  ghost predicate Distinguishes<T(!new)>(le: Order<T>, s: multiset<T>) {
    forall a, b :: a in s && b in s && le(a, b) && le(b, a) ==> a == b
  }

  lemma LastIsLatest<T(!new)>(le: Order<T>, s: seq<T>, x: T)
    requires IsOrder(le) && Sorted(le, s) && s != [] && x in s
    ensures le(x, s[|s| - 1])
  {
    var i :| 0 <= i < |s| && s[i] == x;
    assert i < |s| - 1 ==> le(s[i], s[|s| - 1]);
  }

  lemma SameLast<T(!new)>(le: Order<T>, s: seq<T>, t: seq<T>)
    requires IsOrder(le) && Sorted(le, s) && Sorted(le, t) && s != [] && t != []
    requires multiset(s) == multiset(t) && Distinguishes(le, multiset(s))
    ensures s[|s| - 1] == t[|t| - 1]
  {
    var x, y := s[|s| - 1], t[|t| - 1];
    assert x in multiset(t) && y in multiset(s);
    LastIsLatest(le, s, y);
    LastIsLatest(le, t, x);
  }

  lemma FewerDistinguished<T(!new)>(le: Order<T>, s: multiset<T>, x: T)
    requires Distinguishes(le, s)
    ensures Distinguishes(le, s - multiset{x})
  {
  }

  lemma SameSize<T>(s: seq<T>, t: seq<T>)
    requires multiset(s) == multiset(t)
    ensures |s| == |t|
  {
    assert |multiset(s)| == |multiset(t)|;
  }

  /** There is only one sorted arrangement. */
  lemma {:induction false} SortedIsUnique<T(!new)>(le: Order<T>, s: seq<T>, t: seq<T>)
    requires IsOrder(le) && Sorted(le, s) && Sorted(le, t) && multiset(s) == multiset(t)
      && Distinguishes(le, multiset(s))
    ensures s == t
  {
    hide *;
    SameSize(s, t);
    if s != [] {
      SameLast(le, s, t);
      LastApart(s);
      LastApart(t);
      FewerDistinguished(le, multiset(s), s[|s| - 1]);
      LastIsLast(le, s);
      LastIsLast(le, t);
      SortedIsUnique(le, s[..|s| - 1], t[..|t| - 1]);
    }
  }

  /** Sorting forgets the order of its input. */
  lemma SortForgetsOrder<T(!new)>(le: Order<T>, s: seq<T>, t: seq<T>)
    requires IsOrder(le) && multiset(s) == multiset(t) && Distinguishes(le, multiset(s))
    ensures Sort(le, s) == Sort(le, t)
  {
    SortSorts(le, s);
    SortSorts(le, t);
    SortedIsUnique(le, Sort(le, s), Sort(le, t));
  }
}
