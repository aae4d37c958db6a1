/**
 Finite directed graphs, given by their adjacency lists, and reachability in them.
 A node without an entry has no outgoing edges.  Reachability is defined by explicit
 paths; depth-first walks are proved against it through closed sets.
 */
module Graphs {
  type Graph<T> = map<T, seq<T>>

  predicate Edge<T(==)>(g: Graph<T>, v: T, w: T) {
    v in g && w in g[v]
  }

  ghost predicate IsPath<T>(g: Graph<T>, p: seq<T>) {
    |p| > 0 && forall i :: 0 <= i < |p| - 1 ==> Edge(g, p[i], p[i + 1])
  }

  ghost predicate Reaches<T(!new)>(g: Graph<T>, a: T, b: T) {
    exists p: seq<T> :: IsPath(g, p) && p[0] == a && p[|p| - 1] == b
  }

  /** At least one edge leads from a towards b. */
  ghost predicate ReachesProperly<T(!new)>(g: Graph<T>, a: T, b: T) {
    exists w :: Edge(g, a, w) && Reaches(g, w, b)
  }

  /** No edge leaves s. */
  ghost predicate Closed<T(!new)>(g: Graph<T>, s: set<T>) {
    forall v, w :: v in s && Edge(g, v, w) ==> w in s
  }

  /** s holds exactly the nodes reachable from a. */
  ghost predicate IsClosure<T(!new)>(g: Graph<T>, a: T, s: set<T>) {
    forall v :: v in s <==> Reaches(g, a, v)
  }

  lemma ReachesSelf<T(!new)>(g: Graph<T>, a: T)
    ensures Reaches(g, a, a)
  {
    assert IsPath(g, [a]);
  }

  lemma ReachesStep<T(!new)>(g: Graph<T>, a: T, b: T, c: T)
    requires Reaches(g, a, b) && Edge(g, b, c)
    ensures Reaches(g, a, c)
  {
    var p :| IsPath(g, p) && p[0] == a && p[|p| - 1] == b;
    assert IsPath(g, p + [c]);
  }

  lemma {:induction false} ReachesTransitive<T(!new)>(g: Graph<T>, a: T, b: T, c: T)
    requires Reaches(g, a, b) && Reaches(g, b, c)
    ensures Reaches(g, a, c)
  {
    var p :| IsPath(g, p) && p[0] == a && p[|p| - 1] == b;
    var q :| IsPath(g, q) && q[0] == b && q[|q| - 1] == c;
    assert IsPath(g, p + q[1..]);
  }

  /** A path that starts in a closed set never leaves it. */
  lemma {:induction false} PathStaysInside<T(!new)>(g: Graph<T>, s: set<T>, p: seq<T>)
    requires Closed(g, s) && IsPath(g, p) && p[0] in s
    ensures p[|p| - 1] in s
    decreases |p|
  {
    if |p| > 1 {
      assert Edge(g, p[0], p[1]);
      PathStaysInside(g, s, p[1..]);
    }
  }

  lemma ClosedKeepsReachable<T(!new)>(g: Graph<T>, s: set<T>, a: T)
    requires Closed(g, s) && a in s
    ensures forall v :: Reaches(g, a, v) ==> v in s
  {
    forall v | Reaches(g, a, v)
      ensures v in s
    {
      var p :| IsPath(g, p) && p[0] == a && p[|p| - 1] == v;
      PathStaysInside(g, s, p);
    }
  }

  /** The form in which walks establish reachability: a closed set of reachable nodes that
      holds the start is the closure. */
  lemma ClosedReachableIsClosure<T(!new)>(g: Graph<T>, a: T, s: set<T>)
    requires a in s && Closed(g, s)
    requires forall v :: v in s ==> Reaches(g, a, v)
    ensures IsClosure(g, a, s)
  {
    ClosedKeepsReachable(g, s, a);
  }

  lemma ReachesInLarger<T(!new)>(g: Graph<T>, larger: Graph<T>, a: T, b: T)
    requires Reaches(g, a, b)
    requires forall v, w :: Edge(g, v, w) ==> Edge(larger, v, w)
    ensures Reaches(larger, a, b)
  {
    var p :| IsPath(g, p) && p[0] == a && p[|p| - 1] == b;
    assert IsPath(larger, p);
  }
}
