/**
 The check that everything a balancer with members may lead to is observed (app/router/loops.go, checkMemberObservation).
 What the observatory observes is given.
 */
module ObservedMembers {
  import opened StringOrder
  import opened Digraphs
  import opened BalancerGraph
  import opened LoopbackLoops

  /** A balancer with members, or one reached from it through members or fallbacks. */
  ghost predicate Relevant(m: Balancers, t: string) {
    t in m && exists s :: s in m && m[s].members != [] && Reaches(GraphOf(m), s, t)
  }

  predicate IsBlackhole(byTag: map<string, Handler>, tag: string) {
    tag in byTag && byTag[tag].blackhole
  }

  /** The newest handler with the tag is at i; a handler without one is not found. */
  ghost predicate IsNewest(handlers: seq<Handler>, tag: string, i: nat) {
    && i < |handlers| && tag != "" && handlers[i].tag == tag
    && forall j :: i < j < |handlers| ==> handlers[j].tag != tag
  }

  lemma {:induction false} FoundExactly(handlers: seq<Handler>, tag: string)
    ensures tag in ByTag(handlers) <==> exists i: nat :: IsNewest(handlers, tag, i)
    ensures forall i: nat :: IsNewest(handlers, tag, i) ==> ByTag(handlers)[tag] == handlers[i]
  {
    if handlers != [] {
      var n := |handlers| - 1;
      FoundExactly(handlers[..n], tag);
      if handlers[n].tag == tag && tag != "" {
        assert IsNewest(handlers, tag, n);
      } else {
        forall i: nat ensures IsNewest(handlers, tag, i) <==> IsNewest(handlers[..n], tag, i) {
          if i < n { assert handlers[..n][i] == handlers[i]; }
        }
      }
    }
  }

  /** A tag is that of a blackhole exactly if the newest handler with it is one. */
  lemma BlackholeExactly(handlers: seq<Handler>, tag: string)
    ensures IsBlackhole(ByTag(handlers), tag) <==> exists i: nat :: IsNewest(handlers, tag, i) && handlers[i].blackhole
  {
    FoundExactly(handlers, tag);
  }

  /** Every candidate is observed, and so is an outbound fallback that is no blackhole. */
  ghost predicate LevelObserved(m: Balancers, b: Balancer, handlers: seq<Handler>, observes: string -> bool) {
    && (forall h :: h in handlers && Selected(b, h.tag) ==> observes(h.tag))
    && (b.fallbackTag != "" && b.fallbackTag !in m && !IsBlackhole(ByTag(handlers), b.fallbackTag) ==> observes(b.fallbackTag))
  }

  ghost predicate MembersObserved(m: Balancers, handlers: seq<Handler>, observes: string -> bool) {
    forall t :: Relevant(m, t) ==> LevelObserved(m, m[t], handlers, observes)
  }

  /** Where the new vertices lead is reached too. */
  ghost predicate ClosedSince(m: Balancers, before: set<string>, now: set<string>) {
    forall v, w :: v in now - before && w in m && Step(GraphOf(m), v, w) ==> w in now
  }

  /** Every vertex since before is reached from the tag. */
  ghost predicate AllFrom(m: Balancers, tag: string, before: set<string>, now: set<string>) {
    forall v :: v in now - before ==> Reaches(GraphOf(m), tag, v)
  }

  lemma AllFromNext(m: Balancers, tag: string, next: string, before: set<string>, now: set<string>, then': set<string>)
    requires AllFrom(m, tag, before, now) && AllFrom(m, next, now, then') && Step(GraphOf(m), tag, next)
    ensures AllFrom(m, tag, before, then')
  {
    ReachesStep(GraphOf(m), tag, next);
    forall v | v in then' - before ensures Reaches(GraphOf(m), tag, v) {
      if v !in now { ReachesTransitive(GraphOf(m), tag, next, v); }
    }
  }

  /** The walk from one tag: what it adds is reached from there, and so is everything that leads to. */
  method Reach(m: Balancers, tag: string, reached: set<string>) returns (reached': set<string>)
    requires reached <= m.Keys
    ensures reached <= reached' <= m.Keys && if tag in m then tag in reached' else reached' == reached
    ensures AllFrom(m, tag, reached, reached') && ClosedSince(m, reached, reached')
    decreases m.Keys - reached
  {
    if tag !in m || tag in reached { return reached; }
    var b := m[tag];
    reached' := reached + {tag};
    ReachesSelf(GraphOf(m), tag);
    for i := 0 to |b.members|
      invariant reached + {tag} <= reached' <= m.Keys
      invariant AllFrom(m, tag, reached, reached') && ClosedSince(m, reached + {tag}, reached')
      invariant forall j :: 0 <= j < i && b.members[j] in m ==> b.members[j] in reached'
    {
      GraphSteps(m, tag, b.members[i]);
      var more := Reach(m, b.members[i], reached');
      AllFromNext(m, tag, b.members[i], reached, reached', more);
      reached' := more;
    }
    var more := Reach(m, b.fallbackTag, reached');
    if b.fallbackTag in m {
      GraphSteps(m, tag, b.fallbackTag);
      AllFromNext(m, tag, b.fallbackTag, reached, reached', more);
    }
    reached' := more;
    forall w | w in m && Step(GraphOf(m), tag, w) ensures w in reached' { GraphSteps(m, tag, w); }
  }

  /** The walks from every balancer with members. */
  method ReachAll(m: Balancers) returns (reached: set<string>)
    ensures forall t :: t in reached <==> Relevant(m, t)
  {
    reached := {};
    var tags := SortedKeys(m.Keys);
    for i := 0 to |tags|
      invariant reached <= m.Keys && ClosedSince(m, {}, reached)
      invariant forall t :: t in reached ==> Relevant(m, t)
      invariant forall j :: 0 <= j < i && m[tags[j]].members != [] ==> tags[j] in reached
    {
      if |m[tags[i]].members| > 0 { reached := Reach(m, tags[i], reached); }
    }
    forall t | Relevant(m, t) ensures t in reached {
      var s :| s in m && m[s].members != [] && Reaches(GraphOf(m), s, t);
      assert s in tags;
      StaysReached(m, reached, s, t);
    }
  }

  lemma StaysReached(m: Balancers, reached: set<string>, s: string, t: string)
    requires reached <= m.Keys && ClosedSince(m, {}, reached) && s in reached && t in m && Reaches(GraphOf(m), s, t)
    ensures t in reached
  {
    var outside := set v, i | v in m && 0 <= i < |m[v].members| && m[v].members[i] !in m :: m[v].members[i];
    forall v, w | v in reached + outside && Step(GraphOf(m), v, w) ensures w in reached + outside { GraphSteps(m, v, w); }
    ReachStaysIn(GraphOf(m), reached + outside, s, t);
  }

  /** One balancer of the check. */
  method LevelIsObserved(m: Balancers, b: Balancer, handlers: seq<Handler>, observes: string -> bool) returns (ok: bool)
    ensures ok <==> LevelObserved(m, b, handlers, observes)
  {
    for i := 0 to |handlers|
      invariant forall j :: 0 <= j < i && Selected(b, handlers[j].tag) ==> observes(handlers[j].tag)
    {
      if Selected(b, handlers[i].tag) && !observes(handlers[i].tag) { return false; }
    }
    if b.fallbackTag !in m && b.fallbackTag != "" {
      if !IsBlackhole(ByTag(handlers), b.fallbackTag) { return observes(b.fallbackTag); }
    }
    ok := true;
  }

  /** checkMemberObservation. */
  method CheckMemberObservation(m: Balancers, handlers: seq<Handler>, observes: string -> bool) returns (ok: bool)
    ensures ok <==> MembersObserved(m, handlers, observes)
  {
    var reached := ReachAll(m);
    var tags := SortedKeys(reached);
    for i := 0 to |tags|
      invariant forall j :: 0 <= j < i ==> tags[j] in m && LevelObserved(m, m[tags[j]], handlers, observes)
    {
      assert tags[i] in reached;
      ok := LevelIsObserved(m, m[tags[i]], handlers, observes);
      if !ok { return; }
    }
    forall t | Relevant(m, t) ensures LevelObserved(m, m[t], handlers, observes) {
      assert t in tags;
    }
    ok := true;
  }
}
