/**
 The breadth-first search for a shortest cycle through the smallest vertex of a component
 (app/router/fallback_chain.go, shortestBalancerCycle; app/router/loops.go, shortestCycle).
 */
module ShortestCycles {
  import opened Options
  import opened StringOrder
  import opened Digraphs
  import opened StrongComponents

  datatype Parent<L> = Parent(from: string, edge: Edge<L>)

  /** path is a sequence of edges of g that leads from v to w. */
  ghost predicate IsPath<L>(g: Digraph<L>, v: string, path: seq<Edge<L>>, w: string)
    decreases |path|
  {
    if path == [] then v == w else path[0] in Out(g, v) && IsPath(g, path[0].to, path[1..], w)
  }

  /** The vertices of a path, one more than its edges. */
  ghost function Vertices<L>(v: string, path: seq<Edge<L>>): (p: seq<string>)
    ensures |p| == |path| + 1
    decreases |path|
  {
    if path == [] then [v] else [v] + Vertices(path[0].to, path[1..])
  }

  lemma {:induction false} PathIsWalk<L>(g: Digraph<L>, v: string, path: seq<Edge<L>>, w: string)
    requires IsPath(g, v, path, w)
    ensures WalkFromTo(g, Vertices(v, path), v, w)
    decreases |path|
  {
    if path != [] {
      PathIsWalk(g, path[0].to, path[1..], w);
      var i :| 0 <= i < |Out(g, v)| && Out(g, v)[i] == path[0];
      assert Step(g, v, path[0].to);
      var q := Vertices(path[0].to, path[1..]);
      assert IsWalk(g, [v, path[0].to]);
      WalkConcat(g, [v, path[0].to], q);
      assert [v] + q == [v, path[0].to] + q[1..];
    }
  }

  // The search. order lists the vertices in the order they were queued; the first h have been processed.

  datatype Search<L> = Search(start: string, inside: set<string>, order: seq<string>, h: nat, dist: map<string, nat>,
                              parent: map<string, Parent<L>>)

  ghost predicate Queued<L>(s: Search<L>) {
    && s.h <= |s.order| && |s.order| > 0 && s.order[0] == s.start && Distinct(s.order)
    && s.dist.Keys == (set x | x in s.order)
    && s.parent.Keys == s.dist.Keys - {s.start} && s.dist.Keys <= s.inside
  }

  /** Distances grow along the queue, by at most one from its head to its end. */
  ghost predicate Leveled<L>(s: Search<L>)
    requires Queued(s)
  {
    && s.dist[s.start] == 0
    && (forall i, j {:trigger s.order[i], s.order[j]} :: 0 <= i <= j < |s.order| ==> s.dist[s.order[i]] <= s.dist[s.order[j]])
    && (forall i {:trigger s.order[i]} :: 0 <= i < |s.order| && s.h < |s.order| ==> s.dist[s.order[i]] <= s.dist[s.order[s.h]] + 1)
  }

  ghost predicate Parented<L>(g: Digraph<L>, s: Search<L>)
    requires Queued(s)
  {
    forall x {:trigger s.parent[x]} :: x in s.parent ==>
      var p := s.parent[x];
      p.edge.to == x && p.edge in Out(g, p.from) && p.from in s.dist && s.dist[x] == s.dist[p.from] + 1
  }

  /** An edge e of a vertex at distance d, if it stays inside, does not close a cycle and was taken. */
  ghost predicate Settled<L>(s: Search<L>, d: nat, e: Edge<L>) {
    e.to in s.inside ==> e.to != s.start && e.to in s.dist && s.dist[e.to] <= d + 1
  }

  ghost predicate Processed<L>(g: Digraph<L>, s: Search<L>)
    requires Queued(s)
  {
    forall i, k {:trigger Out(g, s.order[i])[k]} :: 0 <= i < s.h && 0 <= k < |Out(g, s.order[i])| ==>
      Settled(s, s.dist[s.order[i]], Out(g, s.order[i])[k])
  }

  ghost predicate Ok<L>(g: Digraph<L>, s: Search<L>) {
    Queued(s) && Leveled(s) && Parented(g, s) && Processed(g, s)
  }

  // A vertex seen for the first time is queued one level below the vertex being processed.

  lemma EnqueueQueued<L>(s: Search<L>, e: Edge<L>)
    requires Queued(s) && s.h < |s.order| && e.to in s.inside && e.to !in s.dist
    ensures Queued(Enqueued(s, e))
  {
    assert e.to !in s.order;
    assert s.start in s.dist;
  }

  lemma EnqueueLeveled<L>(s: Search<L>, e: Edge<L>)
    requires Queued(s) && s.h < |s.order| && e.to !in s.dist && Leveled(s) && Queued(Enqueued(s, e))
    ensures Leveled(Enqueued(s, e))
  {
    var t := Enqueued(s, e);
    forall i | 0 <= i < |s.order| ensures t.order[i] == s.order[i] && t.dist[t.order[i]] == s.dist[s.order[i]] {
      assert s.order[i] in s.dist;
    }
    assert s.start in s.dist;
  }

  lemma EnqueueParented<L>(g: Digraph<L>, s: Search<L>, e: Edge<L>)
    requires Queued(s) && s.h < |s.order| && e in Out(g, s.order[s.h]) && e.to !in s.dist && Parented(g, s)
    requires Queued(Enqueued(s, e))
    ensures Parented(g, Enqueued(s, e))
  {
    assert s.order[s.h] in s.dist;
  }

  lemma EnqueueProcessed<L>(g: Digraph<L>, s: Search<L>, e: Edge<L>)
    requires Queued(s) && s.h < |s.order| && e.to !in s.dist && Processed(g, s) && Queued(Enqueued(s, e))
    ensures Processed(g, Enqueued(s, e))
  {
    var t := Enqueued(s, e);
    forall i, k | 0 <= i < t.h && 0 <= k < |Out(g, t.order[i])|
      ensures Settled(t, t.dist[t.order[i]], Out(g, t.order[i])[k])
    {
      assert s.order[i] in s.dist && t.order[i] == s.order[i];
      assert Settled(s, s.dist[s.order[i]], Out(g, s.order[i])[k]);
    }
  }

  lemma EnqueueKeeps<L>(g: Digraph<L>, s: Search<L>, e: Edge<L>)
    requires Ok(g, s) && s.h < |s.order| && e in Out(g, s.order[s.h])
    requires e.to in s.inside && e.to != s.start && e.to !in s.parent
    ensures Ok(g, Enqueued(s, e))
  {
    EnqueueQueued(s, e);
    EnqueueLeveled(s, e);
    EnqueueParented(g, s, e);
    EnqueueProcessed(g, s, e);
  }

  ghost function Enqueued<L>(s: Search<L>, e: Edge<L>): Search<L>
    requires Queued(s) && s.h < |s.order|
  {
    var v := s.order[s.h];
    s.(order := s.order + [e.to], dist := s.dist[e.to := s.dist[v] + 1], parent := s.parent[e.to := Parent(v, e)])
  }

  lemma DequeueKeeps<L>(g: Digraph<L>, s: Search<L>)
    requires Ok(g, s) && s.h < |s.order|
    requires var v := s.order[s.h]; forall k :: 0 <= k < |Out(g, v)| ==> Settled(s, s.dist[v], Out(g, v)[k])
    ensures Ok(g, s.(h := s.h + 1))
  {
    DequeueLeveled(s);
    DequeueProcessed(g, s);
  }

  lemma DequeueLeveled<L>(s: Search<L>)
    requires Queued(s) && Leveled(s) && s.h < |s.order|
    ensures Queued(s.(h := s.h + 1)) && Leveled(s.(h := s.h + 1))
  {
  }

  lemma DequeueProcessed<L>(g: Digraph<L>, s: Search<L>)
    requires Queued(s) && Processed(g, s) && s.h < |s.order| && s.order[s.h] in s.dist
    requires var v := s.order[s.h]; forall k :: 0 <= k < |Out(g, v)| ==> Settled(s, s.dist[v], Out(g, v)[k])
    ensures Queued(s.(h := s.h + 1)) && Processed(g, s.(h := s.h + 1))
  {
  }

  lemma {:induction false} DistinctFits(order: seq<string>, inside: set<string>)
    requires Distinct(order) && forall x :: x in order ==> x in inside
    ensures |order| <= |inside|
  {
    if order != [] {
      var n := |order| - 1;
      assert forall x :: x in order[..n] ==> x in inside - {order[n]};
      DistinctFits(order[..n], inside - {order[n]});
    }
  }

  /** A cycle through the start runs through vertices processed in time, as far as distance d has been settled. */
  lemma {:induction false} CycleProcessed<L>(g: Digraph<L>, s: Search<L>, p: seq<string>, d: nat, k: nat)
    requires Ok(g, s) && IsCycle(g, p) && p[0] == s.start && k < |p| - 1 && k < d
    requires forall i :: 0 <= i < |p| ==> p[i] in s.inside
    requires forall i :: 0 <= i < |s.order| && s.dist[s.order[i]] < d ==> i < s.h
    ensures p[k] in s.order && s.dist[p[k]] <= k && p[k + 1] != s.start
  {
    if k > 0 { CycleProcessed(g, s, p, d, k - 1); }
    if k > 0 {
      var i := ProcessedAt(s, p[k - 1], d);
      var e := TakenEdge(g, p, k - 1);
      assert Settled(s, s.dist[s.order[i]], Out(g, s.order[i])[e]);
    }
    var i := ProcessedAt(s, p[k], d);
    var e := TakenEdge(g, p, k);
    assert Settled(s, s.dist[s.order[i]], Out(g, s.order[i])[e]);
  }

  lemma ProcessedAt<L>(s: Search<L>, x: string, d: nat) returns (i: nat)
    requires Queued(s) && x in s.order && s.dist[x] < d
    requires forall i :: 0 <= i < |s.order| && s.dist[s.order[i]] < d ==> i < s.h
    ensures i < s.h && s.order[i] == x
  {
    i :| 0 <= i < |s.order| && s.order[i] == x;
  }

  lemma TakenEdge<L>(g: Digraph<L>, p: seq<string>, k: nat) returns (e: nat)
    requires IsWalk(g, p) && k < |p| - 1
    ensures e < |Out(g, p[k])| && Out(g, p[k])[e].to == p[k + 1]
  {
    assert Step(g, p[k], p[k + 1]);
    e :| 0 <= e < |Out(g, p[k])| && Out(g, p[k])[e].to == p[k + 1];
  }

  /** Once every vertex nearer than d is processed, no cycle through the start has d edges or fewer. */
  lemma NoShorterCycle<L>(g: Digraph<L>, s: Search<L>, p: seq<string>, d: nat)
    requires Ok(g, s) && IsCycle(g, p) && p[0] == s.start
    requires forall i :: 0 <= i < |p| ==> p[i] in s.inside
    requires forall i :: 0 <= i < |s.order| && s.dist[s.order[i]] < d ==> i < s.h
    ensures d < |p| - 1
  {
    if |p| - 1 <= d {
      CycleProcessed(g, s, p, d, |p| - 2);
      assert false;
    }
  }

  /** A cycle through a vertex of a component stays in it. */
  lemma CycleInside<L>(g: Digraph<L>, c: seq<string>, p: seq<string>)
    requires IsComponent(g, c) && IsCycle(g, p) && p[0] in c
    ensures forall i :: 0 <= i < |p| ==> p[i] in c
  {
    forall i | 0 <= i < |p| ensures p[i] in c {
      assert WalkFromTo(g, p[..i + 1], p[0], p[i]);
      forall k | 0 <= k < |p| - i - 1 ensures Step(g, p[i..][k], p[i..][k + 1]) {
        assert Step(g, p[i + k], p[i + k + 1]);
      }
      assert WalkFromTo(g, p[i..], p[i], p[0]);
      assert Reaches(g, p[0], p[i]) && Reaches(g, p[i], p[0]);
    }
  }

  /** Follows the parents from v back to the start. */
  method TracePath<L>(g: Digraph<L>, ghost s: Search<L>, parent: map<string, Parent<L>>, start: string, v: string,
                      e: Edge<L>) returns (path: seq<Edge<L>>)
    requires Ok(g, s) && s.parent == parent && s.start == start && v in s.order && e in Out(g, v)
    ensures IsPath(g, start, path, e.to) && |path| == s.dist[v] + 1
  {
    path := [e];
    var at := v;
    while at != start
      invariant at in s.order && IsPath(g, at, path, e.to) && |path| == s.dist[v] - s.dist[at] + 1
      decreases s.dist[at]
    {
      path := [parent[at].edge] + path;
      at := parent[at].from;
    }
  }

  ghost predicate Running<L>(g: Digraph<L>, s: Search<L>, component: seq<string>, queue: seq<string>,
                             parent: map<string, Parent<L>>)
  {
    && component != [] && s.start == component[0] && s.inside == (set x | x in component)
    && Ok(g, s) && s.parent == parent && queue == s.order[s.h..]
  }

  /** The loop over the edges of the queue's head. */
  method Expand<L>(g: Digraph<L>, component: seq<string>, inside: set<string>, queue: seq<string>,
                   parent: map<string, Parent<L>>, ghost s: Search<L>)
    returns (found: Option<Edge<L>>, queue': seq<string>, parent': map<string, Parent<L>>, ghost s': Search<L>)
    requires Running(g, s, component, queue, parent) && queue != [] && inside == s.inside
    ensures Running(g, s', component, queue', parent') && queue' != [] && queue'[0] == queue[0] && s'.h == s.h
    ensures found.Some? ==> found.value in Out(g, queue[0]) && found.value.to == s.start
    ensures found.None? ==> forall k :: 0 <= k < |Out(g, queue[0])| ==> Settled(s', s'.dist[queue[0]], Out(g, queue[0])[k])
  {
    found, queue', parent', s' := None, queue, parent, s;
    var v := queue[0];
    var es := Out(g, v);
    for i := 0 to |es|
      invariant Running(g, s', component, queue', parent') && queue' != [] && queue'[0] == v && s'.h == s.h
      invariant forall k :: 0 <= k < i ==> Settled(s', s'.dist[v], es[k])
    {
      var e := es[i];
      assert s'.order[s'.h] == v;
      if e.to !in inside { continue; }
      if e.to == component[0] { return Some(e), queue', parent', s'; }
      if e.to !in parent' {
        EnqueueRunning(g, s', component, queue', parent', es, i);
        s', parent', queue' := Enqueued(s', e), parent'[e.to := Parent(v, e)], queue' + [e.to];
      } else {
        SeenIsNear(s', e.to);
      }
    }
  }

  lemma EnqueueOk<L>(g: Digraph<L>, s: Search<L>, component: seq<string>, queue: seq<string>,
                     parent: map<string, Parent<L>>, e: Edge<L>)
    requires Running(g, s, component, queue, parent) && queue != [] && e in Out(g, queue[0])
    requires e.to in s.inside && e.to != s.start && e.to !in parent
    ensures queue[0] in s.dist && queue[0] in Enqueued(s, e).dist && Enqueued(s, e).dist[queue[0]] == s.dist[queue[0]]
    ensures Running(g, Enqueued(s, e), component, queue + [e.to], parent[e.to := Parent(queue[0], e)])
    ensures Settled(Enqueued(s, e), s.dist[queue[0]], e)
    ensures Queued(s) && s.h < |s.order| && e.to !in s.dist
  {
    HeadOfQueue(s, queue);
    EnqueueKeeps(g, s, e);
    TailNext(s.order, s.h, e.to);
  }

  lemma HeadOfQueue<L>(s: Search<L>, queue: seq<string>)
    requires Queued(s) && queue == s.order[s.h..] && queue != []
    ensures s.h < |s.order| && s.order[s.h] == queue[0] && queue[0] in s.dist
  {
    assert s.order[s.h] in s.order;
  }

  lemma TailNext(order: seq<string>, h: nat, x: string)
    requires h <= |order|
    ensures (order + [x])[h..] == order[h..] + [x]
  {
  }

  lemma EnqueueRunning<L>(g: Digraph<L>, s: Search<L>, component: seq<string>, queue: seq<string>,
                          parent: map<string, Parent<L>>, es: seq<Edge<L>>, i: nat)
    requires Running(g, s, component, queue, parent) && queue != [] && es == Out(g, queue[0]) && i < |es|
    requires forall k :: 0 <= k < i ==> Settled(s, s.dist[queue[0]], es[k])
    requires es[i].to in s.inside && es[i].to != s.start && es[i].to !in parent
    ensures var t := Enqueued(s, es[i]);
            && Running(g, t, component, queue + [es[i].to], parent[es[i].to := Parent(queue[0], es[i])])
            && forall k :: 0 <= k <= i ==> Settled(t, t.dist[queue[0]], es[k])
  {
    var e := es[i];
    EnqueueOk(g, s, component, queue, parent, e);
    forall k | 0 <= k < i ensures Settled(Enqueued(s, e), s.dist[queue[0]], es[k]) { EnqueueSettled(s, e, s.dist[queue[0]], es[k]); }
  }

  lemma EnqueueSettled<L>(s: Search<L>, e: Edge<L>, d: nat, f: Edge<L>)
    requires Queued(s) && s.h < |s.order| && e.to !in s.dist && Settled(s, d, f)
    ensures Settled(Enqueued(s, e), d, f)
  {}

  /** What has been queued is at most one level below the vertex being processed. */
  lemma SeenIsNear<L>(s: Search<L>, x: string)
    requires Queued(s) && Leveled(s) && s.h < |s.order| && x in s.parent
    ensures x in s.dist && s.dist[x] <= s.dist[s.order[s.h]] + 1
  {
    var i :| 0 <= i < |s.order| && s.order[i] == x;
  }

  lemma DequeueRunning<L>(g: Digraph<L>, s: Search<L>, component: seq<string>, queue: seq<string>, parent: map<string, Parent<L>>)
    requires Running(g, s, component, queue, parent) && queue != []
    requires queue[0] in s.dist && forall k :: 0 <= k < |Out(g, queue[0])| ==> Settled(s, s.dist[queue[0]], Out(g, queue[0])[k])
    ensures Running(g, s.(h := s.h + 1), component, queue[1..], parent)
  {
    HeadOfQueue(s, queue);
    DequeueKeeps(g, s);
    assert s.order[s.h..][1..] == s.order[s.h + 1..];
  }

  /** The edges of a cycle through the component's first vertex with as few edges as possible, if there is one. */
  method ShortestCycle<L>(g: Digraph<L>, component: seq<string>) returns (cycle: Option<seq<Edge<L>>>)
    requires IsComponent(g, component)
    ensures cycle.Some? ==> cycle.value != [] && IsPath(g, component[0], cycle.value, component[0])
    ensures cycle.Some? ==> forall p :: IsCycle(g, p) && p[0] == component[0] ==> |cycle.value| <= |p| - 1
    ensures cycle.None? ==> forall p :: IsCycle(g, p) ==> p[0] != component[0]
  {
    var start := component[0];
    var inside := set x | x in component;
    var queue := [start];
    var parent: map<string, Parent<L>> := map[];
    ghost var s := Search(start, inside, queue, 0, map[start := 0], parent);
    while queue != []
      invariant Running(g, s, component, queue, parent)
      decreases |inside| - s.h
    {
      var v, found := queue[0], None;
      found, queue, parent, s := Expand(g, component, inside, queue, parent, s);
      assert s.order[s.h] == v && v in s.order;
      if found.Some? {
        var path := TracePath(g, s, parent, start, v, found.value);
        NoCycleBelow(g, s, component, s.dist[v]);
        return Some(path);
      }
      DequeueRunning(g, s, component, queue, parent);
      DistinctFits(s.order, inside);
      s := s.(h := s.h + 1);
      queue := queue[1..];
    }
    NoCycleAtAll(g, s, component);
    cycle := None;
  }

  lemma NoCycleBelow<L>(g: Digraph<L>, s: Search<L>, component: seq<string>, d: nat)
    requires s.h < |s.order| && Running(g, s, component, s.order[s.h..], s.parent) && IsComponent(g, component)
    requires d == s.dist[s.order[s.h]]
    ensures forall p :: IsCycle(g, p) && p[0] == s.start ==> d + 1 <= |p| - 1
  {
    forall p | IsCycle(g, p) && p[0] == s.start ensures d + 1 <= |p| - 1 {
      CycleInside(g, component, p);
      NoShorterCycle(g, s, p, d);
    }
  }

  lemma NoCycleAtAll<L>(g: Digraph<L>, s: Search<L>, component: seq<string>)
    requires Running(g, s, component, [], s.parent) && IsComponent(g, component)
    ensures forall p :: IsCycle(g, p) ==> p[0] != s.start
  {
    forall p | IsCycle(g, p) ensures p[0] != s.start {
      if p[0] == s.start {
        CycleInside(g, component, p);
        NoShorterCycle(g, s, p, |p|);
        assert false;
      }
    }
  }

  // One cycle per strongly connected set.

  datatype Cycle<L> = Cycle(start: string, path: seq<Edge<L>>)

  ghost predicate Mutual<L>(g: Digraph<L>, v: string, w: string) {
    Reaches(g, v, w) && Reaches(g, w, v)
  }

  /** c is a cycle through the smallest vertex of its strongly connected set, and no cycle through it is shorter. */
  ghost predicate IsReport<L>(g: Digraph<L>, c: Cycle<L>) {
    && c.path != [] && IsPath(g, c.start, c.path, c.start)
    && (forall p :: IsCycle(g, p) && p[0] == c.start ==> |c.path| <= |p| - 1)
    && (forall v :: Mutual(g, c.start, v) ==> Le(c.start, v))
  }

  ghost predicate Reported<L>(g: Digraph<L>, cycles: seq<Cycle<L>>, v: string) {
    exists k :: 0 <= k < |cycles| && Mutual(g, cycles[k].start, v)
  }

  /** Exactly one report for every strongly connected set with a cycle. */
  ghost predicate ReportsAll<L>(g: Digraph<L>, cycles: seq<Cycle<L>>) {
    && (forall k {:trigger cycles[k]} :: 0 <= k < |cycles| ==> IsReport(g, cycles[k]))
    && (forall k, l {:trigger cycles[k], cycles[l]} :: 0 <= k < l < |cycles| ==> !Mutual(g, cycles[k].start, cycles[l].start))
    && (forall p {:trigger IsCycle(g, p)} :: IsCycle(g, p) ==> Reported(g, cycles, p[0]))
  }

  /** Mutually reachable vertices are on a cycle together or not at all. */
  lemma CycleMoves<L>(g: Digraph<L>, p: seq<string>, y: string)
    requires IsCycle(g, p) && Mutual(g, p[0], y)
    ensures exists q :: IsCycle(g, q) && q[0] == y
  {
    var there :| WalkFromTo(g, there, y, p[0]);
    var back :| WalkFromTo(g, back, p[0], y);
    WalkConcat(g, there, p);
    var q := there + p[1..];
    WalkConcat(g, q, back);
    assert IsCycle(g, q + back[1..]);
  }

  lemma MutualIsInside<L>(g: Digraph<L>, c: seq<string>, x: string, y: string)
    requires IsComponent(g, c) && x in c
    ensures Mutual(g, x, y) <==> y in c
  {
    var linked := Reaches(g, x, y);
  }

  lemma FirstIsSmallest<L>(g: Digraph<L>, c: seq<string>)
    requires IsComponent(g, c)
    ensures forall v :: Mutual(g, c[0], v) ==> Le(c[0], v)
  {
    LeReflexive(c[0]);
    assert c[0] in c;
  }

  /** What is known after the first i components: a report for each that has a cycle. */
  ghost predicate Progress<L>(g: Digraph<L>, out: seq<seq<string>>, i: nat, cycles: seq<Cycle<L>>, from: seq<nat>)
    requires i <= |out|
  {
    && |from| == |cycles|
    && (forall k :: 0 <= k < |cycles| ==>
          from[k] < i && out[from[k]] != [] && cycles[k].start == out[from[k]][0] && IsReport(g, cycles[k]))
    && (forall k, l :: 0 <= k < l < |from| ==> from[k] < from[l])
    && (forall j, p {:trigger out[j], IsCycle(g, p)} ::
          0 <= j < i && IsCycle(g, p) && out[j] != [] && p[0] == out[j][0] ==> j in from)
  }

  lemma ProgressReportsAll<L>(g: Digraph<L>, tags: seq<string>, out: seq<seq<string>>, cycles: seq<Cycle<L>>, from: seq<nat>)
    requires Within(g, set t | t in tags) && Disjoint(out) && forall v :: Covered(out, v) <==> v in tags
    requires forall k :: 0 <= k < |out| ==> IsComponent(g, out[k])
    requires Progress(g, out, |out|, cycles, from)
    ensures ReportsAll(g, cycles)
  {
    forall p | IsCycle(g, p) ensures Reported(g, cycles, p[0]) {
      assert Step(g, p[0], p[1]);
      assert Covered(out, p[0]);
      var j :| 0 <= j < |out| && p[0] in out[j];
      assert Mutual(g, p[0], out[j][0]);
      CycleMoves(g, p, out[j][0]);
      var q :| IsCycle(g, q) && q[0] == out[j][0];
      var k :| 0 <= k < |from| && from[k] == j;
      assert Mutual(g, cycles[k].start, p[0]);
    }
    forall k, l | 0 <= k < l < |cycles| ensures !Mutual(g, cycles[k].start, cycles[l].start) {
      var c, d := out[from[k]], out[from[l]];
      assert c[0] in c && d[0] in d;
      MutualIsInside(g, c, c[0], d[0]);
    }
  }

  /** The cycles that both graph checks report. */
  method CyclesOf<L>(g: Digraph<L>, tags: seq<string>) returns (cycles: seq<Cycle<L>>)
    requires Within(g, set t | t in tags)
    ensures ReportsAll(g, cycles)
    ensures cycles == [] <==> Acyclic(g)
  {
    var out := Components(g, tags);
    cycles := [];
    ghost var from: seq<nat> := [];
    for i := 0 to |out|
      invariant Progress(g, out, i, cycles, from)
    {
      assert IsComponent(g, out[i]);
      var cycle := ShortestCycle(g, out[i]);
      if cycle.Some? {
        FirstIsSmallest(g, out[i]);
        assert IsReport(g, Cycle(out[i][0], cycle.value));
        cycles, from := cycles + [Cycle(out[i][0], cycle.value)], from + [i];
      }
    }
    ProgressReportsAll(g, tags, out, cycles, from);
    if cycles != [] {
      var c := cycles[0];
      PathIsWalk(g, c.start, c.path, c.start);
      assert IsCycle(g, Vertices(c.start, c.path));
    }
  }
}
