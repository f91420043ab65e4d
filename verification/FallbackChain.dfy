/**
 One pick through the balancers of a map (app/router/balancing.go, Balancer.pick; app/router/fallback_chain.go,
 resolveChain). What a level reads from outside, the manager, its override and its strategy, is a parameter.
 */
module FallbackChain {
  import opened Options
  import opened StringOrder
  import opened Digraphs
  import opened ShortestCycles
  import opened BalancerGraph

  /** What one level reads: whether the manager selects handlers, the override, and the strategy's answer. */
  datatype Turn = Turn(selects: bool, override: string, choice: string)

  datatype Pick = Picked(tag: string, fallback: bool) | PickFailed

  datatype Route = ToOutbound(tag: string) | RouteFailed | RouteDropped

  function FallBack(b: Balancer): Pick {
    if b.fallbackTag != "" then Picked(b.fallbackTag, true) else PickFailed
  }

  /** Balancer.pick. */
  function PickOne(b: Balancer, t: Turn): Pick {
    if b.selectors != [] && !t.selects then FallBack(b)
    else
      var tag := if t.override != "" then t.override else t.choice;
      if tag == "" then FallBack(b) else Picked(tag, false)
  }

  /** The balancer a level's result goes on to: only its own fallbackTag or one of its members. */
  function NextLevel(m: Balancers, b: Balancer, t: Turn): Option<string> {
    match PickOne(b, t)
    case PickFailed => None
    case Picked(tag, fallback) => if (fallback || tag in b.members) && tag in m then Some(tag) else None
  }

  function Outcome(b: Balancer, t: Turn): Route {
    match PickOne(b, t)
    case PickFailed => RouteFailed
    case Picked(tag, _) => ToOutbound(tag)
  }

  /** The balancer at level i of a chain: the first one, then those the map names. */
  function LevelAt(m: Balancers, first: Balancer, chain: seq<string>, i: nat): Balancer
    requires i <= |chain| && forall k :: 0 <= k < |chain| ==> chain[k] in m
  {
    if i == 0 then first else m[chain[i - 1]]
  }

  /** chain lists the levels after the first one that the turns lead through. */
  ghost predicate IsChain(m: Balancers, first: Balancer, turns: nat -> Turn, chain: seq<string>) {
    && (forall k :: 0 <= k < |chain| ==> chain[k] in m)
    && (forall i {:trigger turns(i)} ::
          0 <= i < |chain| ==> NextLevel(m, LevelAt(m, first, chain, i), turns(i)) == Some(chain[i]))
  }

  // What the levels of a pick mean to its caller.

  /** The manager can give this level its candidates. */
  predicate CanSelect(b: Balancer, t: Turn) {
    b.selectors == [] || t.selects
  }

  /** A level's tag leads on to the balancer it names, if it may, and is the outbound otherwise. */
  ghost predicate Goes(m: Balancers, tag: string, mayLeadOn: bool, on: Option<string>, r: Route) {
    if mayLeadOn && tag in m then on == Some(tag) else on == None && r == ToOutbound(tag)
  }

  /** An override goes before the strategy's answer, and the fallback is taken only for want of both or of candidates. */
  ghost predicate LevelObeys(m: Balancers, b: Balancer, t: Turn, on: Option<string>, r: Route) {
    && (CanSelect(b, t) && t.override != "" ==> Goes(m, t.override, t.override in b.members, on, r))
    && (CanSelect(b, t) && t.override == "" && t.choice != "" ==> Goes(m, t.choice, t.choice in b.members, on, r))
    && (!CanSelect(b, t) || (t.override == "" && t.choice == "") ==>
          if b.fallbackTag == "" then on == None && r == RouteFailed else Goes(m, b.fallbackTag, true, on, r))
  }

  function LevelAfter(chain: seq<string>, i: nat): Option<string> {
    if i < |chain| then Some(chain[i]) else None
  }

  /** Every level obeys what it read, up to the last one, whose answer is the route. */
  ghost predicate Obeys(m: Balancers, first: Balancer, turns: nat -> Turn, chain: seq<string>, r: Route) {
    && (forall k :: 0 <= k < |chain| ==> chain[k] in m)
    && (forall i {:trigger turns(i)} ::
          0 <= i <= |chain| ==> LevelObeys(m, LevelAt(m, first, chain, i), turns(i), LevelAfter(chain, i), r))
  }

  lemma ChainObeys(m: Balancers, first: Balancer, turns: nat -> Turn, chain: seq<string>, r: Route)
    requires IsChain(m, first, turns, chain)
    requires var last := LevelAt(m, first, chain, |chain|);
      NextLevel(m, last, turns(|chain|)) == None && r == Outcome(last, turns(|chain|))
    ensures Obeys(m, first, turns, chain, r)
  {
    forall i | 0 <= i <= |chain|
      ensures LevelObeys(m, LevelAt(m, first, chain, i), turns(i), LevelAfter(chain, i), r)
    {
      if i < |chain| { assert NextLevel(m, LevelAt(m, first, chain, i), turns(i)) == Some(chain[i]); }
    }
  }

  /** A level that reads an override that is no member of it is the last, and the override is the route. */
  lemma OverrideEnds(m: Balancers, first: Balancer, turns: nat -> Turn, chain: seq<string>, r: Route, i: nat)
    requires Obeys(m, first, turns, chain, r) && i <= |chain|
    requires var b := LevelAt(m, first, chain, i);
      CanSelect(b, turns(i)) && turns(i).override != "" && turns(i).override !in b.members
    ensures i == |chain| && r == ToOutbound(turns(i).override)
  {
    assert LevelObeys(m, LevelAt(m, first, chain, i), turns(i), LevelAfter(chain, i), r);
  }

  /** The edges a pick can take: as the map's graph, but an empty fallbackTag never leads to a balancer. */
  function PickGraph(m: Balancers): Digraph<EdgeKind> {
    map tag | tag in m ::
      MemberEdges(m[tag].members) +
      if m[tag].fallbackTag != "" && m[tag].fallbackTag in m then [Edge(m[tag].fallbackTag, Fallback)] else []
  }

  lemma PickSteps(m: Balancers, v: string, w: string)
    ensures Step(PickGraph(m), v, w) <==> v in m && (w in m[v].members || (w != "" && w in m && w == m[v].fallbackTag))
    ensures Step(PickGraph(m), v, w) ==> Step(GraphOf(m), v, w)
  {
    GraphSteps(m, v, w);
    if v in m {
      var es, n := Out(PickGraph(m), v), |m[v].members|;
      if w in m[v].members {
        var i :| 0 <= i < n && m[v].members[i] == w;
        assert es[i].to == w;
      }
      if w != "" && w in m && w == m[v].fallbackTag { assert es[n].to == w; }
    }
  }

  /** Where a level goes on is such an edge, whatever the strategy and the override answer. */
  lemma NextIsEdge(m: Balancers, v: string, t: Turn)
    requires v in m && NextLevel(m, m[v], t).Some?
    ensures Step(PickGraph(m), v, NextLevel(m, m[v], t).value)
  {
    PickSteps(m, v, NextLevel(m, m[v], t).value);
  }

  lemma PickWalk(m: Balancers, p: seq<string>)
    requires IsWalk(PickGraph(m), p)
    ensures IsWalk(GraphOf(m), p)
  {
    forall i | 0 <= i < |p| - 1 ensures Step(GraphOf(m), p[i], p[i + 1]) { PickSteps(m, p[i], p[i + 1]); }
  }

  /** The levels after the first form a walk of the graph. */
  lemma ChainIsWalk(m: Balancers, first: Balancer, turns: nat -> Turn, chain: seq<string>)
    requires IsChain(m, first, turns, chain)
    ensures chain != [] ==> IsWalk(PickGraph(m), chain)
    ensures first.tag in m && m[first.tag] == first ==> IsWalk(PickGraph(m), [first.tag] + chain)
  {
    forall i | 0 <= i < |chain| - 1 ensures Step(PickGraph(m), chain[i], chain[i + 1]) {
      assert NextLevel(m, LevelAt(m, first, chain, i + 1), turns(i + 1)) == Some(chain[i + 1]);
      NextIsEdge(m, chain[i], turns(i + 1));
    }
    if first.tag in m && m[first.tag] == first && chain != [] {
      assert NextLevel(m, LevelAt(m, first, chain, 0), turns(0)) == Some(chain[0]);
      NextIsEdge(m, first.tag, turns(0));
      var p := [first.tag] + chain;
      forall i | 0 <= i < |p| - 1 ensures Step(PickGraph(m), p[i], p[i + 1]) {
        if i > 0 { assert Step(PickGraph(m), chain[i - 1], chain[i]); }
      }
    }
  }

  /** On a publishable map a chain repeats no balancer, so it has at most one level per balancer. */
  lemma ChainIsBounded(m: Balancers, first: Balancer, turns: nat -> Turn, chain: seq<string>)
    requires Publishable(m) && IsChain(m, first, turns, chain)
    ensures Distinct(chain) && |chain| <= |m|
    ensures first.tag in m && m[first.tag] == first ==> Distinct([first.tag] + chain) && |chain| + 1 <= |m|
  {
    ChainIsWalk(m, first, turns, chain);
    if chain != [] {
      PickWalk(m, chain);
      AcyclicWalkDistinct(GraphOf(m), chain);
    }
    DistinctFits(chain, m.Keys);
    if first.tag in m && m[first.tag] == first {
      PickWalk(m, [first.tag] + chain);
      AcyclicWalkDistinct(GraphOf(m), [first.tag] + chain);
      DistinctFits([first.tag] + chain, m.Keys);
    }
  }

  /**
   The pick of first, resolved on m: every level goes where what it read says. On a publishable map the guard is never
   reached, from any balancer and for every answer of every strategy, override and manager.
   */
  method ResolveChain(m: Balancers, first: Balancer, turns: nat -> Turn) returns (r: Route, ghost chain: seq<string>)
    ensures IsChain(m, first, turns, chain)
    ensures r != RouteDropped ==>
              var last := LevelAt(m, first, chain, |chain|);
              NextLevel(m, last, turns(|chain|)) == None && r == Outcome(last, turns(|chain|))
    ensures r != RouteDropped ==> Obeys(m, first, turns, chain, r)
    ensures r == RouteDropped ==> |chain| == |m| + 1
    ensures Publishable(m) ==> r != RouteDropped
    ensures Publishable(m) ==> Distinct(chain) && |chain| <= |m|
    ensures Publishable(m) && first.tag in m && m[first.tag] == first ==> |chain| < |m| && first.tag !in chain
  {
    var b := first;
    chain := [];
    for i := 0 to |m| + 1
      invariant |chain| == i && IsChain(m, first, turns, chain) && b == LevelAt(m, first, chain, i)
    {
      match PickOne(b, turns(i)) {
        case PickFailed =>
          BoundIfPublishable(m, first, turns, chain);
          ChainObeys(m, first, turns, chain, RouteFailed);
          return RouteFailed, chain;
        case Picked(tag, fallback) =>
          if (!fallback && tag !in b.members) || tag !in m {
            BoundIfPublishable(m, first, turns, chain);
            ChainObeys(m, first, turns, chain, ToOutbound(tag));
            return ToOutbound(tag), chain;
          }
          ChainExtends(m, first, turns, chain, tag);
          chain := chain + [tag];
          b := m[tag];
      }
    }
    BoundIfPublishable(m, first, turns, chain);
    r := RouteDropped;
  }

  lemma ChainExtends(m: Balancers, first: Balancer, turns: nat -> Turn, chain: seq<string>, tag: string)
    requires IsChain(m, first, turns, chain)
    requires NextLevel(m, LevelAt(m, first, chain, |chain|), turns(|chain|)) == Some(tag)
    ensures IsChain(m, first, turns, chain + [tag])
  {
    var longer := chain + [tag];
    forall i | 0 <= i < |longer| ensures NextLevel(m, LevelAt(m, first, longer, i), turns(i)) == Some(longer[i]) {
      assert LevelAt(m, first, longer, i) == LevelAt(m, first, chain, i);
      if i < |chain| { assert longer[i] == chain[i]; }
    }
  }

  lemma HeadNotInTail(x: string, s: seq<string>)
    requires Distinct([x] + s)
    ensures x !in s
  {
    forall k | 0 <= k < |s| ensures s[k] != x {
      assert ([x] + s)[0] != ([x] + s)[k + 1];
    }
  }

  lemma BoundIfPublishable(m: Balancers, first: Balancer, turns: nat -> Turn, chain: seq<string>)
    requires IsChain(m, first, turns, chain)
    ensures Publishable(m) ==> Distinct(chain) && |chain| <= |m|
    ensures Publishable(m) && first.tag in m && m[first.tag] == first ==> |chain| < |m| && first.tag !in chain
  {
    if Publishable(m) {
      ChainIsBounded(m, first, turns, chain);
      if first.tag in m && m[first.tag] == first { HeadNotInTail(first.tag, chain); }
    }
  }
}
