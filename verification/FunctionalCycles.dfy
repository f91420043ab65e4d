/**
 The cycles of a graph in which each vertex has at most one edge (common/loopcheck/loopcheck.go, Functional). A cycle
 is the list of its vertices from the smallest one; it is printed back to that one.
 */
module FunctionalCycles {
  import opened StringOrder

  /** c lists a cycle of next once around. */
  ghost predicate IsLoop(next: map<string, string>, c: seq<string>) {
    && c != [] && Distinct(c)
    && (forall i :: 0 <= i < |c| ==> c[i] in next)
    && (forall i {:trigger next[c[i]]} :: 0 <= i < |c| - 1 ==> next[c[i]] == c[i + 1])
    && next[c[|c| - 1]] == c[0]
  }

  ghost predicate SmallestFirst(c: seq<string>) {
    c != [] && forall x :: x in c ==> Le(c[0], x)
  }

  /** s is left by no edge. */
  ghost predicate Closed(next: map<string, string>, s: set<string>) {
    forall v :: v in s && v in next ==> next[v] in s
  }

  lemma LoopStep(next: map<string, string>, c: seq<string>, x: string)
    requires IsLoop(next, c) && x in c
    ensures x in next && next[x] in c
  {
    var i :| 0 <= i < |c| && c[i] == x;
    if i < |c| - 1 { assert next[c[i]] == c[i + 1]; }
  }

  /** A closed set that meets a loop contains it. */
  lemma {:induction false} LoopInside(next: map<string, string>, c: seq<string>, s: set<string>, i: nat, k: nat)
    requires IsLoop(next, c) && Closed(next, s) && i < |c| && c[i] in s && k < |c|
    ensures c[k] in s
  {
    LoopAfter(next, c, s, i, |c| - 1);
    assert c[|c| - 1] in next;
    LoopAfter(next, c, s, 0, k);
  }

  lemma {:induction false} LoopAfter(next: map<string, string>, c: seq<string>, s: set<string>, i: nat, k: nat)
    requires IsLoop(next, c) && Closed(next, s) && i <= k < |c| && c[i] in s
    ensures c[k] in s
    decreases k - i
  {
    if i < k {
      assert next[c[i]] == c[i + 1];
      LoopAfter(next, c, s, i + 1, k);
    }
  }

  lemma LoopMeets(next: map<string, string>, c: seq<string>, s: set<string>, x: string)
    requires IsLoop(next, c) && Closed(next, s) && x in c && x in s
    ensures forall y :: y in c ==> y in s
  {
    var i :| 0 <= i < |c| && c[i] == x;
    forall y | y in c ensures y in s {
      var k :| 0 <= k < |c| && c[k] == y;
      LoopInside(next, c, s, i, k);
    }
  }

  lemma LoopIsClosed(next: map<string, string>, c: seq<string>)
    requires IsLoop(next, c)
    ensures Closed(next, set x | x in c)
  {
    forall x | x in c ensures next[x] in c { LoopStep(next, c, x); }
  }

  lemma {:induction false} SameStart(next: map<string, string>, c: seq<string>, d: seq<string>, k: nat)
    requires IsLoop(next, c) && IsLoop(next, d) && c[0] == d[0] && k < |c| && k < |d|
    ensures c[k] == d[k]
  {
    if k > 0 {
      SameStart(next, c, d, k - 1);
      assert next[c[k - 1]] == c[k] && next[d[k - 1]] == d[k];
    }
  }

  lemma StartsNoLonger(next: map<string, string>, c: seq<string>, d: seq<string>)
    requires IsLoop(next, c) && IsLoop(next, d) && c[0] == d[0]
    ensures |d| <= |c|
  {
    if |c| < |d| {
      SameStart(next, c, d, |c| - 1);
      assert false;
    }
  }

  /** A vertex is on one cycle at most, and a cycle is listed from its smallest vertex in one way. */
  lemma LoopUnique(next: map<string, string>, c: seq<string>, d: seq<string>, x: string)
    requires IsLoop(next, c) && IsLoop(next, d) && SmallestFirst(c) && SmallestFirst(d) && x in c && x in d
    ensures c == d
  {
    LoopIsClosed(next, c);
    LoopIsClosed(next, d);
    LoopMeets(next, d, (set y | y in c), x);
    LoopMeets(next, c, (set y | y in d), x);
    assert d[0] in d && c[0] in c;
    LeAntisymmetric(c[0], d[0]);
    StartsNoLonger(next, c, d);
    StartsNoLonger(next, d, c);
    forall k | 0 <= k < |c| ensures c[k] == d[k] { SameStart(next, c, d, k); }
  }

  /** slices.Index of slices.Min. */
  method SmallestIndex(c: seq<string>) returns (first: nat)
    requires c != []
    ensures first < |c| && forall x :: x in c ==> Le(c[first], x)
  {
    first := 0;
    LeReflexive(c[0]);
    for i := 1 to |c|
      invariant first < |c| && forall k :: 0 <= k < i ==> Le(c[first], c[k])
    {
      LeTotal(c[i], c[first]);
      if !Le(c[first], c[i]) {
        forall k | 0 <= k < i ensures Le(c[i], c[k]) { LeTransitive(c[i], c[first], c[k]); }
        first := i;
      }
      LeReflexive(c[i]);
    }
  }

  lemma RotatedElements(c: seq<string>, first: nat)
    requires first < |c|
    ensures forall x :: x in c[first..] + c[..first] <==> x in c
  {
    assert c == c[..first] + c[first..];
  }

  lemma RotatedLoop(next: map<string, string>, c: seq<string>, first: nat)
    requires IsLoop(next, c) && first < |c|
    ensures IsLoop(next, c[first..] + c[..first])
  {
    var r, n := c[first..] + c[..first], |c|;
    assert forall i :: 0 <= i < n ==> r[i] == if i < n - first then c[first + i] else c[i - (n - first)];
    RotatedElements(c, first);
    forall i | 0 <= i < n - 1 ensures next[r[i]] == r[i + 1] {
      if i < n - first - 1 {
        assert next[c[first + i]] == c[first + i + 1];
      } else if i >= n - first {
        assert next[c[i - (n - first)]] == c[i - (n - first) + 1];
      }
    }
    if first > 0 { assert next[c[first - 1]] == c[first]; }
  }

  /** Format: the same cycle, from its smallest vertex. */
  method Rotate(next: map<string, string>, c: seq<string>) returns (r: seq<string>)
    requires IsLoop(next, c)
    ensures IsLoop(next, r) && SmallestFirst(r) && forall x :: x in r <==> x in c
  {
    var first := SmallestIndex(c);
    r := c[first..] + c[..first];
    RotatedElements(c, first);
    RotatedLoop(next, c, first);
    assert r[0] == c[first];
  }

  datatype Colour = Walking | Done

  ghost predicate IsTrail(next: map<string, string>, walk: seq<string>, v: string) {
    && Distinct(walk) && (forall i :: 0 <= i < |walk| ==> walk[i] in next)
    && (forall i {:trigger next[walk[i]]} :: 0 <= i < |walk| - 1 ==> next[walk[i]] == walk[i + 1])
    && (walk != [] ==> next[walk[|walk| - 1]] == v)
  }

  /** A loop through a vertex of a trail runs on to the trail's end. */
  lemma {:induction false} LoopFollowsTrail(next: map<string, string>, walk: seq<string>, v: string, c: seq<string>, i: nat)
    requires IsTrail(next, walk, v) && IsLoop(next, c) && i < |walk| && walk[i] in c
    ensures v in c
    decreases |walk| - i
  {
    LoopStep(next, c, walk[i]);
    if i < |walk| - 1 {
      assert next[walk[i]] == walk[i + 1];
      LoopFollowsTrail(next, walk, v, c, i + 1);
    }
  }

  /** The colours while a walk runs: the walk is Walking, the rest of what was seen is Done. */
  ghost predicate Painted(state: map<string, Colour>, done: set<string>, walk: seq<string>) {
    && state.Keys == done + (set x | x in walk) && (forall x :: x in walk ==> x !in done)
    && (forall x :: x in state ==> (state[x] == Walking <==> x in walk))
  }

  /** A loop that the walk from start met is the one it reports. */
  ghost predicate Finds(next: map<string, string>, done: set<string>, seen: set<string>, cycle: seq<string>) {
    && (cycle != [] ==> IsLoop(next, cycle) && forall x :: x in cycle ==> x in seen && x !in done)
    && (forall c {:trigger IsLoop(next, c)} :: IsLoop(next, c) && c[0] in seen && c[0] !in done ==> cycle != [] && cycle[0] in c)
  }

  lemma LoopAtEnd(next: map<string, string>, walk: seq<string>, v: string, k: nat)
    requires IsTrail(next, walk, v) && k < |walk| && walk[k] == v
    ensures IsLoop(next, walk[k..])
  {
    var c := walk[k..];
    forall i | 0 <= i < |c| - 1 ensures next[c[i]] == c[i + 1] { assert next[walk[k + i]] == walk[k + i + 1]; }
    assert c[|c| - 1] == walk[|walk| - 1];
  }

  lemma FoundAll(next: map<string, string>, done: set<string>, walk: seq<string>, v: string, k: nat)
    requires IsTrail(next, walk, v) && k < |walk| && walk[k] == v && forall x :: x in walk ==> x !in done
    ensures Finds(next, done, done + (set x | x in walk), walk[k..])
  {
    LoopAtEnd(next, walk, v, k);
    forall x | x in walk[k..] ensures x in walk {}
    forall c | IsLoop(next, c) && c[0] in walk ensures walk[k..][0] in c {
      var i :| 0 <= i < |walk| && walk[i] == c[0];
      assert c[0] in c;
      LoopFollowsTrail(next, walk, v, c, i);
    }
  }

  /** A walk that ends outside its own trail, in what was done or where no edge leads on, met no loop. */
  lemma FoundNone(next: map<string, string>, done: set<string>, walk: seq<string>, v: string)
    requires IsTrail(next, walk, v) && Closed(next, done) && (forall x :: x in walk ==> x !in done)
    requires v in done || v !in next
    ensures Finds(next, done, done + (set x | x in walk) + {v}, [])
  {
    forall c | IsLoop(next, c) && c[0] in done + (set x | x in walk) + {v} && c[0] !in done ensures false {
      assert c[0] in c;
      if c[0] in walk {
        var i :| 0 <= i < |walk| && walk[i] == c[0];
        LoopFollowsTrail(next, walk, v, c, i);
      }
      LoopStep(next, c, v);
      LoopMeets(next, c, done, v);
      assert false;
    }
  }

  /** The walk from start until it meets something seen or no edge leads on. */
  method WalkFrom(next: map<string, string>, state: map<string, Colour>, start: string)
    returns (state': map<string, Colour>, walk: seq<string>, cycle: seq<string>)
    requires Closed(next, state.Keys) && forall x :: x in state ==> state[x] == Done
    ensures Painted(state', state.Keys, walk) && Closed(next, state'.Keys) && start in state'
    ensures Finds(next, state.Keys, state'.Keys, cycle)
  {
    state', walk, cycle := state, [], [];
    var v := start;
    while !(v in state' && state'[v] == Done)
      invariant Painted(state', state.Keys, walk) && IsTrail(next, walk, v)
      invariant walk != [] ==> start in state'
      invariant walk == [] ==> v == start
      invariant forall x :: x in state && x in next ==> next[x] in state
      decreases next.Keys - state'.Keys
    {
      if v in state' && state'[v] == Walking {
        var k :| 0 <= k < |walk| && walk[k] == v;
        cycle := walk[k..];
        FoundAll(next, state.Keys, walk, v, k);
        TrailClosed(next, state.Keys, walk, v);
        return;
      }
      PushPainted(state', state.Keys, walk, v);
      if v !in next {
        FoundNone(next, state.Keys, walk, v);
        TrailClosed(next, state.Keys, walk, v);
        assert (set x | x in walk + [v]) == (set x | x in walk) + {v};
        state', walk := state'[v := Walking], walk + [v];
        return;
      }
      PushTrail(next, walk, v);
      state', walk, v := state'[v := Walking], walk + [v], next[v];
    }
    FoundNone(next, state.Keys, walk, v);
    assert state.Keys + (set x | x in walk) + {v} == state'.Keys;
    TrailClosed(next, state.Keys, walk, v);
  }

  lemma PushPainted(state: map<string, Colour>, done: set<string>, walk: seq<string>, v: string)
    requires Painted(state, done, walk) && v !in state
    ensures Painted(state[v := Walking], done, walk + [v])
  {
    assert forall x :: x in walk + [v] <==> x in walk || x == v;
  }

  lemma PushTrail(next: map<string, string>, walk: seq<string>, v: string)
    requires IsTrail(next, walk, v) && v !in walk && v in next
    ensures IsTrail(next, walk + [v], next[v])
  {}

  lemma TrailClosed(next: map<string, string>, done: set<string>, walk: seq<string>, v: string)
    requires IsTrail(next, walk, v) && Closed(next, done)
    ensures Closed(next, done + (set x | x in walk) + {v}) || v in next
    ensures v in done || v in walk ==> Closed(next, done + (set x | x in walk))
  {
    forall x | x in walk ensures next[x] in walk || next[x] == v {
      var i :| 0 <= i < |walk| && walk[i] == x;
      if i < |walk| - 1 { assert next[walk[i]] == walk[i + 1]; }
    }
  }

  function Join(vertices: seq<string>): string
    requires vertices != []
  {
    if |vertices| == 1 then vertices[0] else vertices[0] + " -> " + Join(vertices[1..])
  }

  /** Format of a cycle that starts with its smallest vertex. */
  function Format(c: seq<string>): string {
    if c == [] then "" else Join(c + [c[0]])
  }

  ghost predicate NoArrow(vertices: seq<string>) {
    forall i :: 0 <= i < |vertices| ==> '>' !in vertices[i]
  }

  /** The first arrow ends the first vertex. */
  lemma FirstArrow(vertices: seq<string>)
    requires |vertices| > 1 && NoArrow(vertices)
    ensures var j, n := Join(vertices), |vertices[0]|;
      && |j| >= n + 4 && j[n + 2] == '>' && (forall i :: 0 <= i < n + 2 ==> j[i] != '>')
      && j[..n] == vertices[0] && j[n + 4..] == Join(vertices[1..])
  {
    var j, n := Join(vertices), |vertices[0]|;
    var rest := Join(vertices[1..]);
    assert j == vertices[0] + " -> " + rest;
    assert forall i :: 0 <= i < n ==> j[i] == vertices[0][i];
    assert j[n] == ' ' && j[n + 1] == '-' && j[n + 2] == '>';
  }

  lemma {:induction false} JoinTells(a: seq<string>, b: seq<string>)
    requires a != [] && b != [] && NoArrow(a) && NoArrow(b) && Join(a) == Join(b)
    ensures a == b
    decreases |a|
  {
    if |a| > 1 { FirstArrow(a); }
    if |b| > 1 { FirstArrow(b); }
    if |a| > 1 && |b| > 1 { JoinTells(a[1..], b[1..]); }
    assert |a| > 1 ==> a == [a[0]] + a[1..];
    assert |b| > 1 ==> b == [b[0]] + b[1..];
  }

  /** The texts tell cycles apart whose vertices have no arrow in their names. */
  lemma FormatTells(c: seq<string>, d: seq<string>)
    requires c != [] && d != [] && NoArrow(c) && NoArrow(d) && Format(c) == Format(d)
    ensures c == d
  {
    JoinTells(c + [c[0]], d + [d[0]]);
    assert c == (c + [c[0]])[..|c|] && d == (d + [d[0]])[..|d|];
  }

  ghost function Formats(cycles: seq<seq<string>>): (texts: seq<string>)
    ensures |texts| == |cycles| && forall i :: 0 <= i < |texts| ==> texts[i] == Format(cycles[i])
  {
    seq(|cycles|, i requires 0 <= i < |cycles| => Format(cycles[i]))
  }

  /** Functional: the texts of exactly the cycles of the graph, each once and from its smallest vertex, in order. */
  method Functional(next: map<string, string>) returns (texts: seq<string>, ghost cycles: seq<seq<string>>)
    ensures forall c :: c in cycles <==> IsLoop(next, c) && SmallestFirst(c)
    ensures Distinct(cycles)
    ensures Sorted(texts) && multiset(texts) == multiset(Formats(cycles))
  {
    var found := Cycles(next);
    texts, cycles := [], found;
    for i := 0 to |found|
      invariant texts == Formats(found)[..i]
    {
      texts := texts + [Format(found[i])];
    }
    assert texts == Formats(found);
    SortSorts(texts);
    texts := Sort(texts);
  }

  /** The loop of Functional: exactly the cycles, each once. */
  method Cycles(next: map<string, string>) returns (cycles: seq<seq<string>>)
    ensures forall c :: c in cycles <==> IsLoop(next, c) && SmallestFirst(c)
    ensures Distinct(cycles)
  {
    cycles := [];
    var state: map<string, Colour> := map[];
    var keys := SortedKeys(next.Keys);
    for i := 0 to |keys|
      invariant Closed(next, state.Keys) && forall x :: x in state ==> state[x] == Done
      invariant forall k :: 0 <= k < i ==> keys[k] in state
      invariant forall c :: c in cycles <==> IsLoop(next, c) && SmallestFirst(c) && c[0] in state
      invariant Distinct(cycles)
    {
      var state', walk, cycle := WalkFrom(next, state, keys[i]);
      if cycle != [] {
        var r := Rotate(next, cycle);
        OneMore(next, state.Keys, state'.Keys, cycles, cycle, r);
        cycles := cycles + [r];
      }
      assert forall x :: x in walk ==> x in state';
      state := map x | x in state' :: Done;
    }
    forall c | IsLoop(next, c) ensures c[0] in state { assert c[0] in keys; }
  }

  lemma OneMore(next: map<string, string>, done: set<string>, seen: set<string>, cycles: seq<seq<string>>,
                cycle: seq<string>, r: seq<string>)
    requires done <= seen && Closed(next, done) && Closed(next, seen) && cycle != [] && Finds(next, done, seen, cycle)
    requires IsLoop(next, r) && SmallestFirst(r) && forall x :: x in r <==> x in cycle
    requires forall c :: c in cycles <==> IsLoop(next, c) && SmallestFirst(c) && c[0] in done
    ensures r !in cycles
    ensures forall c :: c in cycles + [r] <==> IsLoop(next, c) && SmallestFirst(c) && c[0] in seen
  {
    assert r[0] in r && cycle[0] in cycle;
    forall c | IsLoop(next, c) && SmallestFirst(c) && c[0] in seen && c[0] !in done ensures c == r {
      LoopUnique(next, c, r, cycle[0]);
    }
  }
}
