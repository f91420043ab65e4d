/**
 The balancers of one map, the graph they form, and the check every map passes before it is published
 (app/router/fallback_chain.go, checkBalancerGraph).
 */
module BalancerGraph {
  import opened Options
  import opened StringOrder
  import opened Digraphs
  import opened ShortestCycles

  /** What a balancer is configured with. */
  datatype Balancer = Balancer(tag: string, selectors: seq<string>, fallbackTag: string, members: seq<string>)

  type Balancers = map<string, Balancer>

  /** The override of a balancer, empty for none. */
  function OverrideOf(overrides: map<string, string>, tag: string): string {
    if tag in overrides then overrides[tag] else ""
  }

  datatype EdgeKind = Member | Fallback

  datatype GraphError =
    | MemberIsNoBalancer(tag: string, member: string)
    | MemberListedTwice(tag: string, member: string)
    | MemberWithoutFallback(tag: string)
    | FallbackCycles(cycles: seq<Cycle<EdgeKind>>)
    | MemberCycles(cycles: seq<Cycle<EdgeKind>>)

  function MemberEdges(members: seq<string>): (es: seq<Edge<EdgeKind>>)
    ensures |es| == |members| && forall i :: 0 <= i < |es| ==> es[i] == Edge(members[i], Member)
  {
    seq(|members|, i requires 0 <= i < |members| => Edge(members[i], Member))
  }

  function EdgesOf(m: Balancers, b: Balancer): seq<Edge<EdgeKind>> {
    MemberEdges(b.members) + if b.fallbackTag in m then [Edge(b.fallbackTag, Fallback)] else []
  }

  /** An edge leads from a balancer to each member and to its fallbackTag when that names a balancer. */
  function GraphOf(m: Balancers): Digraph<EdgeKind> {
    map tag | tag in m :: EdgesOf(m, m[tag])
  }

  lemma GraphSteps(m: Balancers, v: string, w: string)
    ensures Step(GraphOf(m), v, w) <==> v in m && (w in m[v].members || (w in m && w == m[v].fallbackTag))
  {
    if v in m {
      var es, n := EdgesOf(m, m[v]), |m[v].members|;
      assert Out(GraphOf(m), v) == es;
      if w in m[v].members {
        var i :| 0 <= i < n && m[v].members[i] == w;
        assert es[i].to == w;
      }
      if w in m && w == m[v].fallbackTag { assert es[n].to == w; }
    }
  }

  ghost predicate MembersOk(m: Balancers) {
    && (forall tag :: tag in m ==> Distinct(m[tag].members))
    && (forall tag, member :: tag in m && member in m[tag].members ==> member in m && m[member].fallbackTag != "")
  }

  /** What is asked of a published map: members that are balancers with a fallback tag, each listed once, and no cycle. */
  ghost predicate Publishable(m: Balancers) {
    MembersOk(m) && Acyclic(GraphOf(m))
  }

  predicate HasMemberEdge(path: seq<Edge<EdgeKind>>) {
    exists i :: 0 <= i < |path| && path[i].info == Member
  }

  ghost predicate ListedTwice(members: seq<string>, x: string) {
    exists i, j :: 0 <= i < j < |members| && members[i] == x && members[j] == x
  }

  /** What an error says of the map. */
  ghost predicate Explains(m: Balancers, e: GraphError) {
    match e
    case MemberIsNoBalancer(tag, member) => tag in m && member in m[tag].members && member !in m
    case MemberListedTwice(tag, member) => tag in m && ListedTwice(m[tag].members, member)
    case MemberWithoutFallback(tag) =>
      tag in m && m[tag].fallbackTag == "" && exists up :: up in m && tag in m[up].members
    case FallbackCycles(cycles) =>
      MembersOk(m) && cycles != [] && ReportsAll(GraphOf(m), cycles) &&
      forall k :: 0 <= k < |cycles| ==> !HasMemberEdge(cycles[k].path)
    case MemberCycles(cycles) =>
      MembersOk(m) && ReportsAll(GraphOf(m), cycles) &&
      exists k :: 0 <= k < |cycles| && HasMemberEdge(cycles[k].path)
  }

  /** The step from v along the edge: to one of its members, or to its fallback tag. */
  ghost predicate IsMemberStep(m: Balancers, v: string, w: string) {
    v in m && w in m[v].members
  }

  ghost predicate IsFallbackStep(m: Balancers, v: string, w: string) {
    v in m && w in m && w == m[v].fallbackTag
  }

  lemma {:induction false} PathKinds(m: Balancers, v: string, path: seq<Edge<EdgeKind>>, w: string, i: nat)
    requires IsPath(GraphOf(m), v, path, w) && i < |path|
    ensures path[i].info == Member ==> IsMemberStep(m, Vertices(v, path)[i], path[i].to)
    ensures path[i].info == Fallback ==> IsFallbackStep(m, Vertices(v, path)[i], path[i].to)
    decreases |path|
  {
    if i == 0 {
      var k :| 0 <= k < |Out(GraphOf(m), v)| && Out(GraphOf(m), v)[k] == path[0];
      assert k < |m[v].members| ==> m[v].members[k] in m[v].members;
    } else {
      PathKinds(m, path[0].to, path[1..], w, i - 1);
    }
  }

  /** The cycles of a fallback error run along fallback tags alone; some cycle of a member error leads to a member. */
  lemma CycleKinds(m: Balancers, e: GraphError)
    requires Explains(m, e)
    ensures e.FallbackCycles? ==> forall k, i :: 0 <= k < |e.cycles| && 0 <= i < |e.cycles[k].path| ==>
      IsFallbackStep(m, Vertices(e.cycles[k].start, e.cycles[k].path)[i], e.cycles[k].path[i].to)
    ensures e.MemberCycles? ==>
      exists k, i :: 0 <= k < |e.cycles| && 0 <= i < |e.cycles[k].path| &&
                     IsMemberStep(m, Vertices(e.cycles[k].start, e.cycles[k].path)[i], e.cycles[k].path[i].to)
  {
    if e.FallbackCycles? {
      forall k, i | 0 <= k < |e.cycles| && 0 <= i < |e.cycles[k].path|
        ensures IsFallbackStep(m, Vertices(e.cycles[k].start, e.cycles[k].path)[i], e.cycles[k].path[i].to)
      {
        var c := e.cycles[k];
        assert IsReport(GraphOf(m), c);
        PathKinds(m, c.start, c.path, c.start, i);
        assert !HasMemberEdge(c.path);
      }
    }
    if e.MemberCycles? {
      var k :| 0 <= k < |e.cycles| && HasMemberEdge(e.cycles[k].path);
      var c := e.cycles[k];
      assert IsReport(GraphOf(m), c);
      var i :| 0 <= i < |c.path| && c.path[i].info == Member;
      PathKinds(m, c.start, c.path, c.start, i);
    }
  }

  /** The member at i is no balancer or is there before. */
  predicate Refused(m: Balancers, b: Balancer, i: nat)
    requires i < |b.members|
  {
    b.members[i] !in m || b.members[i] in b.members[..i]
  }

  predicate NoneRefused(m: Balancers, b: Balancer, n: nat)
    requires n <= |b.members|
  {
    forall k :: 0 <= k < n ==> !Refused(m, b, k)
  }

  /** The error names the first member of the balancer that is refused. */
  ghost predicate NamesFirst(m: Balancers, tag: string, e: GraphError)
    requires tag in m
  {
    exists i :: 0 <= i < |m[tag].members| && NoneRefused(m, m[tag], i) && Refused(m, m[tag], i) &&
                var x := m[tag].members[i]; e == if x !in m then MemberIsNoBalancer(tag, x) else MemberListedTwice(tag, x)
  }

  /** The edges of one balancer, or the member that is refused. */
  method CollectEdges(m: Balancers, tag: string) returns (err: Option<GraphError>, es: seq<Edge<EdgeKind>>)
    requires tag in m
    ensures err.None? ==> es == EdgesOf(m, m[tag]) && Distinct(m[tag].members) && forall x :: x in m[tag].members ==> x in m
    ensures err.None? ==> NoneRefused(m, m[tag], |m[tag].members|)
    ensures err.Some? ==> Explains(m, err.value) && NamesFirst(m, tag, err.value)
    ensures err.Some? ==> !MembersOk(m)
  {
    var b := m[tag];
    var listed := {};
    es := [];
    for i := 0 to |b.members|
      invariant listed == set x | x in b.members[..i]
      invariant Distinct(b.members[..i]) && listed <= m.Keys && NoneRefused(m, b, i)
      invariant es == MemberEdges(b.members[..i])
    {
      var member := b.members[i];
      assert Refused(m, b, i) <==> member !in m || member in listed;
      if member !in m { return Some(MemberIsNoBalancer(tag, member)), []; }
      if member in listed {
        ghost var j :| 0 <= j < i && b.members[j] == member;
        assert b.members[i] == member;
        return Some(MemberListedTwice(tag, member)), [];
      }
      assert b.members[..i + 1] == b.members[..i] + [member];
      listed, es := listed + {member}, es + [Edge(member, Member)];
    }
    assert b.members[..|b.members|] == b.members;
    if b.fallbackTag in m { es := es + [Edge(b.fallbackTag, Fallback)]; }
    err := None;
  }

  /** No balancer before j has a member that is refused. */
  ghost predicate NoneBefore(m: Balancers, tags: seq<string>, j: nat)
    requires j <= |tags| && forall x :: x in tags ==> x in m
  {
    forall k :: 0 <= k < j ==> NoneRefused(m, m[tags[k]], |m[tags[k]].members|)
  }

  ghost predicate NamesFirstOf(m: Balancers, tags: seq<string>, e: GraphError)
    requires forall x :: x in tags ==> x in m
  {
    exists j :: 0 <= j < |tags| && NamesFirst(m, tags[j], e) && NoneBefore(m, tags, j)
  }

  /** The edges of every balancer, and who is a member of one; or the first member that is refused. */
  method CollectGraph(m: Balancers, tags: seq<string>)
    returns (err: Option<GraphError>, edges: Digraph<EdgeKind>, isMember: set<string>)
    requires forall x :: x in tags <==> x in m
    ensures err.Some? ==> Explains(m, err.value) && !MembersOk(m)
    ensures err.Some? ==> NamesFirstOf(m, tags, err.value)
    ensures err.None? ==> edges == GraphOf(m)
    ensures err.None? ==> forall t :: t in m ==> Distinct(m[t].members)
    ensures err.None? ==> forall t, x :: t in m && x in m[t].members ==> x in m && x in isMember
    ensures forall x :: x in isMember ==> x in m && exists t :: t in m && x in m[t].members
  {
    isMember, edges, err := {}, map[], None;
    for i := 0 to |tags|
      invariant err.None? && Collected(m, tags[..i], edges, isMember) && NoneBefore(m, tags, i)
    {
      var tag, es := tags[i], [];
      err, es := CollectEdges(m, tag);
      if err.Some? {
        assert NamesFirst(m, tags[i], err.value);
        return;
      }
      CollectedNext(m, tags[..i], edges, isMember, tag);
      assert tags[..i + 1] == tags[..i] + [tag];
      edges := edges[tag := es];
      isMember := isMember + set x | x in m[tag].members;
    }
    assert tags[..|tags|] == tags;
    CollectedAll(m, tags, edges, isMember);
  }

  lemma CollectedAll(m: Balancers, tags: seq<string>, edges: Digraph<EdgeKind>, isMember: set<string>)
    requires Collected(m, tags, edges, isMember) && forall x :: x in tags <==> x in m
    ensures edges == GraphOf(m) && forall t :: t in m ==> Distinct(m[t].members)
    ensures forall t, x :: t in m && x in m[t].members ==> x in m && x in isMember
  {
    assert edges.Keys == m.Keys;
  }

  /** The edges of the balancers done, whose members are all balancers, and exactly who is a member of one. */
  ghost predicate Collected(m: Balancers, done: seq<string>, edges: Digraph<EdgeKind>, isMember: set<string>) {
    && edges.Keys == (set x | x in done)
    && (forall t :: t in edges ==> t in m && edges[t] == EdgesOf(m, m[t]) && Distinct(m[t].members))
    && (forall t, x :: t in edges && x in m[t].members ==> x in m && x in isMember)
    && (forall x :: x in isMember ==> x in m && exists t :: t in m && x in m[t].members)
  }

  lemma CollectedNext(m: Balancers, done: seq<string>, edges: Digraph<EdgeKind>, isMember: set<string>, tag: string)
    requires Collected(m, done, edges, isMember) && tag in m
    requires Distinct(m[tag].members) && forall x :: x in m[tag].members ==> x in m
    ensures Collected(m, done + [tag], edges[tag := EdgesOf(m, m[tag])], isMember + set x | x in m[tag].members)
  {
    assert (set x | x in done + [tag]) == (set x | x in done) + {tag};
  }

  /** A map is accepted exactly when it may be published; an error names what is wrong with it. */
  method CheckBalancerGraph(m: Balancers) returns (err: Option<GraphError>)
    ensures err.None? <==> Publishable(m)
    ensures err.Some? ==> Explains(m, err.value)
  {
    var tags := SortedKeys(m.Keys);
    var edges, isMember;
    err, edges, isMember := CollectGraph(m, tags);
    if err.Some? { return; }
    var members := SortedKeys(isMember);
    for i := 0 to |members|
      invariant forall k :: 0 <= k < i ==> members[k] in m && m[members[k]].fallbackTag != ""
    {
      assert members[i] in isMember;
      if m[members[i]].fallbackTag == "" {
        return Some(MemberWithoutFallback(members[i]));
      }
    }
    forall tag, member | tag in m && member in m[tag].members ensures member in m && m[member].fallbackTag != "" {
      assert member in members;
    }
    forall v, w | Step(edges, v, w) ensures v in m && w in m { GraphSteps(m, v, w); }
    var cycles := CyclesOf(edges, tags);
    if |cycles| == 0 { return None; }
    if forall k :: 0 <= k < |cycles| ==> !HasMemberEdge(cycles[k].path) {
      err := Some(FallbackCycles(cycles));
    } else {
      err := Some(MemberCycles(cycles));
    }
  }
}
