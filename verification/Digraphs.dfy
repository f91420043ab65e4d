/** Directed graphs with labelled edges over string vertices: walks, reachability and cycles. */
module Digraphs {
  import opened StringOrder

  datatype Edge<L> = Edge(to: string, info: L)

  /** The edges of a vertex in the order they were added; a missing vertex has none, as in a Go map. */
  type Digraph<L> = map<string, seq<Edge<L>>>

  function Out<L>(g: Digraph<L>, v: string): seq<Edge<L>> {
    if v in g then g[v] else []
  }

  ghost predicate Step<L>(g: Digraph<L>, v: string, w: string) {
    exists i :: 0 <= i < |Out(g, v)| && Out(g, v)[i].to == w
  }

  ghost predicate IsWalk<L>(g: Digraph<L>, p: seq<string>) {
    && |p| > 0
    && forall i :: 0 <= i < |p| - 1 ==> Step(g, p[i], p[i + 1])
  }

  ghost predicate WalkFromTo<L>(g: Digraph<L>, p: seq<string>, v: string, w: string) {
    IsWalk(g, p) && p[0] == v && p[|p| - 1] == w
  }

  /** Reflexive and transitive reachability. */
  ghost predicate Reaches<L>(g: Digraph<L>, v: string, w: string) {
    exists p :: WalkFromTo(g, p, v, w)
  }

  /** p is a closed walk with at least one edge; a self-loop is [v, v]. */
  ghost predicate IsCycle<L>(g: Digraph<L>, p: seq<string>) {
    IsWalk(g, p) && |p| >= 2 && p[0] == p[|p| - 1]
  }

  ghost predicate Acyclic<L>(g: Digraph<L>) {
    forall p :: !IsCycle(g, p)
  }

  /** Every edge of g leads into vs, from a vertex of vs. */
  ghost predicate Within<L>(g: Digraph<L>, vs: set<string>) {
    forall v, w :: Step(g, v, w) ==> v in vs && w in vs
  }

  lemma ReachesSelf<L>(g: Digraph<L>, v: string)
    ensures Reaches(g, v, v)
  {
    assert WalkFromTo(g, [v], v, v);
  }

  lemma ReachesStep<L>(g: Digraph<L>, v: string, w: string)
    requires Step(g, v, w)
    ensures Reaches(g, v, w)
  {
    assert WalkFromTo(g, [v, w], v, w);
  }

  lemma WalkConcat<L>(g: Digraph<L>, p: seq<string>, q: seq<string>)
    requires IsWalk(g, p) && IsWalk(g, q) && p[|p| - 1] == q[0]
    ensures IsWalk(g, p + q[1..])
    ensures (p + q[1..])[|p + q[1..]| - 1] == q[|q| - 1]
  {
    var r := p + q[1..];
    forall i | 0 <= i < |r| - 1 ensures Step(g, r[i], r[i + 1]) {
      if i < |p| - 1 {
        assert r[i] == p[i] && r[i + 1] == p[i + 1];
      } else {
        var k := i - (|p| - 1);
        assert r[i] == q[k] && r[i + 1] == q[k + 1];
      }
    }
  }

  lemma ReachesTransitive<L>(g: Digraph<L>, u: string, v: string, w: string)
    requires Reaches(g, u, v) && Reaches(g, v, w)
    ensures Reaches(g, u, w)
  {
    var p :| WalkFromTo(g, p, u, v);
    var q :| WalkFromTo(g, q, v, w);
    WalkConcat(g, p, q);
    assert WalkFromTo(g, p + q[1..], u, w);
  }

  /** A set that no edge leaves is never left by a walk. */
  lemma {:induction false} WalkStaysIn<L>(g: Digraph<L>, s: set<string>, p: seq<string>)
    requires IsWalk(g, p) && p[0] in s
    requires forall v, w :: v in s && Step(g, v, w) ==> w in s
    ensures forall i :: 0 <= i < |p| ==> p[i] in s
  {
    if |p| > 1 {
      assert Step(g, p[0], p[1]);
      var q := p[1..];
      forall i | 0 <= i < |q| - 1 ensures Step(g, q[i], q[i + 1]) {
        assert Step(g, p[i + 1], p[i + 2]);
      }
      WalkStaysIn(g, s, q);
      forall i | 0 <= i < |p| ensures p[i] in s {
        if i > 0 { assert p[i] == q[i - 1]; }
      }
    }
  }

  lemma ReachStaysIn<L>(g: Digraph<L>, s: set<string>, v: string, w: string)
    requires v in s && Reaches(g, v, w)
    requires forall x, y :: x in s && Step(g, x, y) ==> y in s
    ensures w in s
  {
    var p :| WalkFromTo(g, p, v, w);
    WalkStaysIn(g, s, p);
  }

  /** The first vertex of a cycle reaches itself through its second one, and conversely. */
  lemma CycleIsReturn<L>(g: Digraph<L>, v: string)
    ensures (exists p :: IsCycle(g, p) && p[0] == v) <==> (exists w :: Step(g, v, w) && Reaches(g, w, v))
  {
    if p :| IsCycle(g, p) && p[0] == v {
      assert Step(g, v, p[1]);
      var q := p[1..];
      forall i | 0 <= i < |q| - 1 ensures Step(g, q[i], q[i + 1]) {
        assert Step(g, p[i + 1], p[i + 2]);
      }
      assert WalkFromTo(g, q, p[1], v);
    }
    if w :| Step(g, v, w) && Reaches(g, w, v) {
      var q :| WalkFromTo(g, q, w, v);
      assert IsWalk(g, [v, w]);
      WalkConcat(g, [v, w], q);
      assert IsCycle(g, [v, w] + q[1..]);
    }
  }

  /** In an acyclic graph no walk returns to a vertex. */
  lemma AcyclicWalkDistinct<L>(g: Digraph<L>, p: seq<string>)
    requires Acyclic(g) && IsWalk(g, p)
    ensures Distinct(p)
  {
    forall i, j | 0 <= i < j < |p| ensures p[i] != p[j] {
      var q := p[i..j + 1];
      forall k | 0 <= k < |q| - 1 ensures Step(g, q[k], q[k + 1]) {
        assert Step(g, p[i + k], p[i + k + 1]);
      }
      assert !IsCycle(g, q);
    }
  }
}
