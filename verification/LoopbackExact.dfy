/**
 Where the loop check over loopbacks (app/router/loops.go) is exact: with tags that tell balancers from outbounds, which
 trips routing can make, and which of those that the check takes as possible it cannot.
 */
module LoopbackExact {
  import opened Options
  import opened StringOrder
  import opened Digraphs
  import opened BalancerGraph
  import opened FallbackChain
  import opened LoopbackLoops

  ghost predicate NoOverrides(r: Routing) {
    forall t :: OverrideOf(r.overrides, t) == ""
  }

  /** No tag is empty, no outbound has the tag of a balancer, and no override names a balancer. */
  ghost predicate PlainTags(r: Routing) {
    && "" !in r.balancers && (forall t :: t in r.byTag ==> t != "" && t !in r.balancers)
    && forall t :: OverrideOf(r.overrides, t) !in r.balancers
  }

  ghost predicate AllEffective(r: Routing) {
    forall i :: 0 <= i < |r.rules| ==> Effective(r.rules[i])
  }

  ghost predicate IsPlain(r: Routing) {
    Consistent(r) && PlainTags(r) && AllEffective(r)
  }

  // Where routing can lead when every override is taken at its word.

  /** The level can come to its fallback: it has no override, or the manager may fail to select for it. */
  predicate MayFall(r: Routing, b: Balancer) {
    OverrideOf(r.overrides, b.tag) == "" || b.selectors != []
  }

  /** A level ends at a candidate without an override, at its override with one, or at its fallback outbound or the default. */
  ghost predicate Ends(r: Routing, b: Balancer, h: Handler) {
    var override := OverrideOf(r.overrides, b.tag);
    || (override == "" && exists tag :: tag in r.byTag && Selected(b, tag) && r.byTag[tag] == h)
    || (override != "" && Find(r.byTag, override) == Some(h))
    || (MayFall(r, b) && b.fallbackTag == "" && r.def == Some(h))
    || (MayFall(r, b) && b.fallbackTag != "" && b.fallbackTag !in r.balancers && Find(r.byTag, b.fallbackTag) == Some(h))
  }

  /** A level leads on to a member without an override, or to a fallback balancer. */
  ghost predicate LeadsOn(r: Routing, v: string, w: string) {
    && v in r.balancers && w in r.balancers
    && var b := r.balancers[v];
       || (OverrideOf(r.overrides, b.tag) == "" && w in b.members)
       || (MayFall(r, b) && w == b.fallbackTag)
  }

  /** Levels one after the other, and where the last one ends. */
  ghost predicate Passes(r: Routing, p: seq<string>, h: Handler) {
    && p != [] && (forall i :: 0 <= i < |p| ==> p[i] in r.balancers)
    && (forall i :: 0 <= i < |p| - 1 ==> LeadsOn(r, p[i], p[i + 1]))
    && Ends(r, r.balancers[p[|p| - 1]], h)
  }

  ghost predicate CanFeedBy(r: Routing, rule: Rule, s: string) {
    if rule.balancer.None? then HandlerFeeds(r, Find(r.byTag, rule.tag), s)
    else exists p, h :: Passes(r, p, h) && p[0] == rule.balancer.value.tag && Feeds(r.byTag, h, s)
  }

  /** No rule before k is certain to match in the state. */
  ghost predicate ComesTo(r: Routing, state: string, k: nat) {
    k <= |r.rules| && forall j :: 0 <= j < k ==> !(Considers(r.rules[j], state) && MatchesOnInboundOnly(r.rules[j]))
  }

  ghost predicate CanFeedAt(r: Routing, state: string, k: nat, s: string) {
    && ComesTo(r, state, k)
    && if k < |r.rules| then Considers(r.rules[k], state) && CanFeedBy(r, r.rules[k], s) else HandlerFeeds(r, r.def, s)
  }

  ghost predicate CanFeed(r: Routing, state: string, s: string) {
    exists k: nat :: CanFeedAt(r, state, k, s)
  }

  // What the definitions of the check mean.

  /** Dialing through a handler reaches a loopback: it is one itself, or the outbound it dials through reaches it. */
  lemma FeedsExactly(byTag: map<string, Handler>, h: Handler, s: string)
    ensures Feeds(byTag, h, s) <==>
      h.isView && (h.loopback == Some(s) ||
                   (h.loopback == None && h.dialerProxy != "" && h.dialerProxy in byTag && Feeds(byTag, byTag[h.dialerProxy], s)))
  {
    if Feeds(byTag, h, s) {
      var k: nat :| FeedsAt(byTag, h, k, s);
      if k > 0 {
        HopsBefore(byTag, h, 1, k);
        HopShift(byTag, h, k - 1);
        assert FeedsAt(byTag, byTag[h.dialerProxy], k - 1, s);
      }
    }
    if h.isView && h.loopback == Some(s) { assert FeedsAt(byTag, h, 0, s); }
    if h.isView && h.loopback == None && h.dialerProxy != "" && h.dialerProxy in byTag && Feeds(byTag, byTag[h.dialerProxy], s) {
      var k: nat :| FeedsAt(byTag, byTag[h.dialerProxy], k, s);
      HopShift(byTag, h, k);
      assert FeedsAt(byTag, h, k + 1, s);
    }
  }

  lemma {:induction false} HopShift(byTag: map<string, Handler>, h: Handler, k: nat)
    requires NextHop(byTag, h).Some?
    ensures Hop(byTag, h, k + 1) == Hop(byTag, NextHop(byTag, h).value, k)
  {
    if k > 0 { HopShift(byTag, h, k - 1); }
  }

  /** A candidate is an outbound whose tag starts with a selector. */
  lemma SelectedExactly(b: Balancer, tag: string)
    ensures Selected(b, tag) <==> exists i, rest :: 0 <= i < |b.selectors| && tag == b.selectors[i] + rest
  {
    if Selected(b, tag) {
      var i :| 0 <= i < |b.selectors| && HasPrefix(tag, b.selectors[i]);
      assert tag == b.selectors[i] + tag[|b.selectors[i]|..];
    }
    if i, rest :| 0 <= i < |b.selectors| && tag == b.selectors[i] + rest { assert HasPrefix(tag, b.selectors[i]); }
  }

  // Every step is real.

  /** Where a level may end it does end for some turn. */
  lemma LevelIsReal(r: Routing, b: Balancer, h: Handler) returns (t: Turn)
    requires IsPlain(r) && b.tag in r.balancers && r.balancers[b.tag] == b && Ends(r, b, h)
    ensures Honest(r, b, t) && NextLevel(r.balancers, b, t) == None && Takes(r, Outcome(b, t), h)
  {
    var override := OverrideOf(r.overrides, b.tag);
    MembersAreBalancers(r, b);
    if override == "" {
      if tag :| tag in r.byTag && Selected(b, tag) && r.byTag[tag] == h {
        t := Turn(true, "", tag);
      } else {
        t := Turn(true, "", "");
      }
    } else if Find(r.byTag, override) == Some(h) {
      t := Turn(true, override, "");
    } else {
      t := Turn(false, override, "");
    }
  }

  lemma MembersAreBalancers(r: Routing, b: Balancer)
    requires Consistent(r) && b.tag in r.balancers && r.balancers[b.tag] == b
    ensures forall x :: x in b.members ==> x in r.balancers
  {
  }

  lemma StepIsReal(r: Routing, v: string, w: string) returns (t: Turn)
    requires IsPlain(r) && LeadsOn(r, v, w)
    ensures Honest(r, r.balancers[v], t) && NextLevel(r.balancers, r.balancers[v], t) == Some(w)
  {
    var b := r.balancers[v];
    var override := OverrideOf(r.overrides, b.tag);
    if override == "" {
      t := Turn(true, "", if w in b.members then w else "");
    } else {
      t := Turn(false, override, "");
    }
  }

  /** The turn leads a level of a walk to the next one. */
  ghost predicate TurnsTo(r: Routing, v: string, t: Turn, w: string) {
    v in r.balancers && Honest(r, r.balancers[v], t) && NextLevel(r.balancers, r.balancers[v], t) == Some(w)
  }

  ghost predicate Turned(r: Routing, p: seq<string>, turns: nat -> Turn) {
    forall i {:trigger turns(i)} :: 0 <= i < |p| - 1 ==> TurnsTo(r, p[i], turns(i), p[i + 1])
  }

  lemma TurnedBefore(r: Routing, p: seq<string>, first: Turn, later: nat -> Turn, turns: nat -> Turn)
    requires |p| > 1 && Turned(r, p[1..], later) && TurnsTo(r, p[0], first, p[1])
    requires turns(0) == first && forall i: nat :: i > 0 ==> turns(i) == later(i - 1)
    ensures Turned(r, p, turns)
  {
    forall i | 0 <= i < |p| - 1 ensures TurnsTo(r, p[i], turns(i), p[i + 1]) {
      if i > 0 { assert TurnsTo(r, p[1..][i - 1], later(i - 1), p[1..][i]); }
    }
  }

  ghost predicate IsWay(r: Routing, p: seq<string>) {
    p != [] && forall i :: 0 <= i < |p| - 1 ==> LeadsOn(r, p[i], p[i + 1])
  }

  lemma WayRest(r: Routing, p: seq<string>)
    requires IsWay(r, p) && |p| > 1
    ensures IsWay(r, p[1..]) && LeadsOn(r, p[0], p[1])
  {
    forall i | 0 <= i < |p[1..]| - 1 ensures LeadsOn(r, p[1..][i], p[1..][i + 1]) { assert LeadsOn(r, p[i + 1], p[i + 2]); }
  }

  /** Every way has turns that lead along it, with any turn after it. */
  lemma {:induction false} WalkIsReal(r: Routing, p: seq<string>, last: Turn) returns (turns: nat -> Turn)
    requires IsPlain(r) && IsWay(r, p)
    ensures Turned(r, p, turns) && turns(|p| - 1) == last
    decreases |p|
  {
    if |p| == 1 {
      turns := _ => last;
    } else {
      WayRest(r, p);
      var first := StepIsReal(r, p[0], p[1]);
      var later := WalkIsReal(r, p[1..], last);
      turns := (i: nat) => if i == 0 then first else later(i - 1);
      TurnedBefore(r, p, first, later, turns);
    }
  }

  /** The levels of a chain along a walk are those of the walk. */
  ghost predicate OnWalk(m: Balancers, b: Balancer, p: seq<string>) {
    p != [] && b.tag in m && m[b.tag] == b && p[0] == b.tag && forall i :: 0 <= i < |p| ==> p[i] in m
  }

  lemma LevelOnWalk(m: Balancers, b: Balancer, p: seq<string>, i: nat)
    requires OnWalk(m, b, p) && i < |p|
    ensures (forall k :: 0 <= k < |p[1..]| ==> p[1..][k] in m) && LevelAt(m, b, p[1..], i) == m[p[i]]
  {
    assert forall k :: 0 <= k < |p[1..]| ==> p[1..][k] == p[k + 1];
  }

  lemma WalkIsChain(r: Routing, b: Balancer, p: seq<string>, turns: nat -> Turn)
    requires OnWalk(r.balancers, b, p) && Turned(r, p, turns)
    ensures IsChain(r.balancers, b, turns, p[1..])
  {
    var m, chain := r.balancers, p[1..];
    LevelOnWalk(m, b, p, 0);
    forall i {:trigger turns(i)} | 0 <= i < |chain| ensures NextLevel(m, LevelAt(m, b, chain, i), turns(i)) == Some(chain[i]) {
      LevelOnWalk(m, b, p, i);
      assert TurnsTo(r, p[i], turns(i), p[i + 1]);
    }
  }

  /** A walk of a balancer's graph with a last turn that ends it is a route. */
  lemma WalkIsRoute(r: Routing, b: Balancer, p: seq<string>, turns: nat -> Turn)
    requires OnWalk(r.balancers, b, p) && Turned(r, p, turns)
    requires var last := r.balancers[p[|p| - 1]];
      Honest(r, last, turns(|p| - 1)) && NextLevel(r.balancers, last, turns(|p| - 1)) == None
    ensures IsRoute(r, b, turns, p[1..], Outcome(r.balancers[p[|p| - 1]], turns(|p| - 1)))
  {
    WalkIsChain(r, b, p, turns);
    LevelOnWalk(r.balancers, b, p, |p| - 1);
    forall i | 0 <= i <= |p[1..]| ensures Honest(r, LevelAt(r.balancers, b, p[1..], i), turns(i)) {
      LevelOnWalk(r.balancers, b, p, i);
      if i < |p| - 1 { assert TurnsTo(r, p[i], turns(i), p[i + 1]); }
    }
  }

  /** What a rule can feed it does feed for some turns. */
  lemma RuleIsReal(r: Routing, rule: Rule, s: string) returns (route: Route, h: Handler)
    requires IsPlain(r) && rule in r.rules && CanFeedBy(r, rule, s)
    ensures RouteOf(r, rule, route) && Takes(r, route, h) && Feeds(r.byTag, h, s)
  {
    if rule.balancer.None? {
      route, h := ToOutbound(rule.tag), r.byTag[rule.tag];
    } else {
      var p: seq<string>;
      p, h :| Passes(r, p, h) && p[0] == rule.balancer.value.tag && Feeds(r.byTag, h, s);
      var b := r.balancers[p[|p| - 1]];
      var last := LevelIsReal(r, b, h);
      var turns := WalkIsReal(r, p, last);
      WalkIsRoute(r, rule.balancer.value, p, turns);
      route := Outcome(b, last);
    }
  }

  // And nothing else is.

  lemma RealLeadsOn(r: Routing, v: string, t: Turn, w: string)
    requires IsPlain(r) && v in r.balancers && Honest(r, r.balancers[v], t)
    requires NextLevel(r.balancers, r.balancers[v], t) == Some(w)
    ensures LeadsOn(r, v, w)
  {
  }

  lemma RealEnds(r: Routing, b: Balancer, t: Turn, h: Handler)
    requires IsPlain(r) && b.tag in r.balancers && r.balancers[b.tag] == b && Honest(r, b, t)
    requires NextLevel(r.balancers, b, t) == None && Takes(r, Outcome(b, t), h)
    ensures Ends(r, b, h)
  {
    MembersAreBalancers(r, b);
  }

  lemma RoutePasses(r: Routing, b: Balancer, turns: nat -> Turn, chain: seq<string>, route: Route, h: Handler)
    requires IsPlain(r) && b.tag in r.balancers && r.balancers[b.tag] == b
    requires IsRoute(r, b, turns, chain, route) && Takes(r, route, h)
    ensures Passes(r, [b.tag] + chain, h)
  {
    var p := [b.tag] + chain;
    forall i | 0 <= i < |p| ensures p[i] in r.balancers && LevelAt(r.balancers, b, chain, i) == r.balancers[p[i]] {}
    forall i | 0 <= i < |p| - 1 ensures LeadsOn(r, p[i], p[i + 1]) {
      assert Honest(r, LevelAt(r.balancers, b, chain, i), turns(i));
      assert NextLevel(r.balancers, LevelAt(r.balancers, b, chain, i), turns(i)) == Some(chain[i]);
      RealLeadsOn(r, p[i], turns(i), p[i + 1]);
    }
    assert Honest(r, LevelAt(r.balancers, b, chain, |chain|), turns(|chain|));
    RealEnds(r, r.balancers[p[|chain|]], turns(|chain|), h);
  }

  lemma RouteCanFeed(r: Routing, rule: Rule, route: Route, h: Handler, s: string)
    requires IsPlain(r) && rule in r.rules && RouteOf(r, rule, route) && Takes(r, route, h) && Feeds(r.byTag, h, s)
    ensures CanFeedBy(r, rule, s)
  {
    if rule.balancer.Some? {
      var b := rule.balancer.value;
      var turns: nat -> Turn, chain :| IsRoute(r, b, turns, chain, route);
      RoutePasses(r, b, turns, chain, route, h);
      assert ([b.tag] + chain)[0] == b.tag;
    }
  }

  lemma Comes(r: Routing, state: string, other: nat -> Field -> bool, k: nat)
    requires state != "" && k <= |r.rules| && forall j :: 0 <= j < k ==> !Matches(r.rules[j], state, other(j))
    ensures ComesTo(r, state, k)
  {
    forall j | 0 <= j < k ensures !(Considers(r.rules[j], state) && MatchesOnInboundOnly(r.rules[j])) {
      PassedOver(r, state, other(j), j);
    }
  }

  lemma ReturnCanFeed(r: Routing, state: string, s: string)
    requires IsPlain(r) && state != "" && Returns(r, state, s)
    ensures CanFeed(r, state, s)
  {
    var h :| DispatchesTo(r, state, h) && Feeds(r.byTag, h, s);
    if other: nat -> Field -> bool, i: nat, route :|
       FirstMatch(r, state, other, i) && RouteOf(r, r.rules[i], route) && Takes(r, route, h) {
      RouteCanFeed(r, r.rules[i], route, h, s);
      Comes(r, state, other, i);
      assert CanFeedAt(r, state, i, s);
    } else {
      var other: nat -> Field -> bool :| NoMatch(r, state, other) && r.def == Some(h);
      Comes(r, state, other, |r.rules|);
      assert CanFeedAt(r, state, |r.rules|, s);
    }
  }

  /** Where a trip comes from: the first rule that feeds and that no rule certain to match comes before, or the default. */
  lemma {:induction false} FirstFeeder(r: Routing, state: string, i: nat, s: string) returns (k: nat)
    requires i <= |r.rules| && MayFeedFrom(r, state, i, s)
    ensures i <= k <= |r.rules|
    ensures forall j :: i <= j < k ==> !(Considers(r.rules[j], state) && MatchesOnInboundOnly(r.rules[j]))
    ensures if k < |r.rules| then Considers(r.rules[k], state) && RuleFeeds(r, r.rules[k], s) else HandlerFeeds(r, r.def, s)
    decreases |r.rules| - i
  {
    if i == |r.rules| || (Considers(r.rules[i], state) && RuleFeeds(r, r.rules[i], s)) {
      k := i;
    } else {
      k := FirstFeeder(r, state, i + 1, s);
    }
  }

  /** A rule that does not end the walk can fail to match. */
  lemma CanPass(rule: Rule, state: string)
    requires Effective(rule) && !(Considers(rule, state) && MatchesOnInboundOnly(rule))
    ensures !Matches(rule, state, _ => false)
  {
    if Considers(rule, state) && state != "" { EndingRuleMatches(rule, state); }
  }

  lemma CanMatch(rule: Rule, state: string)
    requires Considers(rule, state) && state != ""
    ensures Matches(rule, state, _ => true)
  {
  }

  /** Everything holds of rule k and nothing of the others. */
  function Only(k: nat): nat -> Field -> bool {
    i => _ => i == k
  }

  lemma OnlyMatches(r: Routing, state: string, k: nat)
    requires AllEffective(r) && state != "" && k <= |r.rules|
    requires forall j :: 0 <= j < k ==> !(Considers(r.rules[j], state) && MatchesOnInboundOnly(r.rules[j]))
    ensures if k < |r.rules| then Considers(r.rules[k], state) ==> FirstMatch(r, state, Only(k), k) else NoMatch(r, state, Only(k))
  {
    forall j | 0 <= j < k ensures !Matches(r.rules[j], state, Only(k)(j)) {
      CanPass(r.rules[j], state);
      assert forall f :: Only(k)(j)(f) == false;
    }
    if k < |r.rules| && Considers(r.rules[k], state) { CanMatch(r.rules[k], state); }
  }

  /** In a state that is not empty routing can make exactly the trips that can be, with overrides taken at their word. */
  lemma TripsExactly(r: Routing, state: string, s: string)
    requires IsPlain(r) && state != ""
    ensures Returns(r, state, s) <==> CanFeed(r, state, s)
  {
    if Returns(r, state, s) { ReturnCanFeed(r, state, s); }
    if CanFeed(r, state, s) {
      var k: nat :| CanFeedAt(r, state, k, s);
      OnlyMatches(r, state, k);
      if k < |r.rules| {
        var route, h := RuleIsReal(r, r.rules[k], s);
        assert FirstMatch(r, state, Only(k), k) && RouteOf(r, r.rules[k], route) && Takes(r, route, h);
        assert DispatchesTo(r, state, h);
      } else {
        assert NoMatch(r, state, Only(k)) && r.def.Some?;
        assert DispatchesTo(r, state, r.def.value);
      }
    }
  }

  ghost predicate RealCycle(r: Routing, states: set<string>, p: seq<string>) {
    && |p| >= 2 && p[0] == p[|p| - 1]
    && forall k :: 0 <= k < |p| - 1 ==> p[k] in states && CanFeed(r, p[k], p[k + 1])
  }

  /** Routing cannot loop exactly if these trips have no cycle. */
  lemma LoopFreeExactly(r: Routing, handlers: seq<Handler>)
    requires IsPlain(r) && r.byTag == ByTag(handlers) && (r.def.Some? ==> r.def.value in handlers) && NoEmptyLoopback(handlers)
    ensures LoopFree(r) <==> forall p :: !RealCycle(r, States(handlers), p)
  {
    NoEmptyState(handlers);
    if LoopFree(r) {
      forall p ensures !RealCycle(r, States(handlers), p) {
        if RealCycle(r, States(handlers), p) {
          forall k | 0 <= k < |p| - 1 ensures Returns(r, p[k], p[k + 1]) { TripsExactly(r, p[k], p[k + 1]); }
          assert IsTrip(r, p);
          assert false;
        }
      }
    }
    if !LoopFree(r) {
      var p :| IsTrip(r, p) && !Distinct(p);
      var c := RealCycleOf(r, handlers, p);
    }
  }

  lemma NoEmptyState(handlers: seq<Handler>)
    requires NoEmptyLoopback(handlers)
    ensures "" !in States(handlers)
  {
  }

  /** A walk that comes back to a state has a cycle between two visits. */
  lemma RealCycleOf(r: Routing, handlers: seq<Handler>, p: seq<string>) returns (c: seq<string>)
    requires IsPlain(r) && r.byTag == ByTag(handlers) && (r.def.Some? ==> r.def.value in handlers) && NoEmptyLoopback(handlers)
    requires IsTrip(r, p) && !Distinct(p)
    ensures RealCycle(r, States(handlers), c)
  {
    var i, j :| 0 <= i < j < |p| && p[i] == p[j];
    c := p[i..j + 1];
    forall k | 0 <= k < |c| - 1 ensures c[k] in States(handlers) && CanFeed(r, c[k], c[k + 1]) {
      var v := ComesFrom(r, p, i, j, i + k);
      ReturnIsFed(r, handlers, v, p[i + k]);
      TripsExactly(r, p[i + k], p[i + k + 1]);
    }
  }

  // What that says of the check.

  lemma WithoutOverrides(r: Routing, rule: Rule, s: string)
    requires IsPlain(r) && NoOverrides(r) && rule in r.rules && RuleFeeds(r, rule, s)
    ensures CanFeedBy(r, rule, s)
  {
    if rule.balancer.Some? {
      var b, m := rule.balancer.value, r.balancers;
      var t :| t in m && Reaches(PickGraph(m), b.tag, t) && LevelFeeds(r, m[t], s);
      var p :| WalkFromTo(PickGraph(m), p, b.tag, t);
      var h :| LevelLeads(r, m[t], h) && Feeds(r.byTag, h, s);
      WalkLeadsOn(r, p);
      EndsIfLeads(r, m[t], h);
      assert Passes(r, p, h);
    }
  }

  lemma EndsIfLeads(r: Routing, b: Balancer, h: Handler)
    requires NoOverrides(r) && LevelLeads(r, b, h)
    ensures Ends(r, b, h)
  {
  }

  lemma WalkLeadsOn(r: Routing, p: seq<string>)
    requires IsPlain(r) && NoOverrides(r) && IsWalk(PickGraph(r.balancers), p) && p[0] in r.balancers
    ensures (forall i :: 0 <= i < |p| ==> p[i] in r.balancers) && forall i :: 0 <= i < |p| - 1 ==> LeadsOn(r, p[i], p[i + 1])
  {
    forall i | 0 <= i < |p| - 1 ensures LeadsOn(r, p[i], p[i + 1]) {
      assert Step(PickGraph(r.balancers), p[i], p[i + 1]);
      PickSteps(r.balancers, p[i], p[i + 1]);
    }
    forall i | 0 < i < |p| ensures p[i] in r.balancers { assert LeadsOn(r, p[i - 1], p[i]); }
  }

  /** Without overrides a trip is possible to the check exactly if routing can make it. */
  lemma TripsAreReal(r: Routing, state: string, s: string)
    requires IsPlain(r) && NoOverrides(r) && state != ""
    ensures Returns(r, state, s) <==> MayFeed(r, state, s)
  {
    if Returns(r, state, s) { ReturnIsPossible(r, state, s); }
    if MayFeed(r, state, s) {
      var k := FirstFeeder(r, state, 0, s);
      if k < |r.rules| { WithoutOverrides(r, r.rules[k], s); }
      assert CanFeedAt(r, state, k, s);
      TripsExactly(r, state, s);
    }
  }

  /**
   The check is exact, accepting a routing if and only if it cannot loop, exactly if its own trips have no cycle or the trips
   with overrides taken at their word have one.
   */
  lemma ExactWhen(r: Routing, handlers: seq<Handler>)
    requires IsPlain(r) && r.byTag == ByTag(handlers) && (r.def.Some? ==> r.def.value in handlers) && NoEmptyLoopback(handlers)
    ensures (NoFeedCycle(r, handlers) <==> LoopFree(r)) <==>
      NoFeedCycle(r, handlers) || exists p :: RealCycle(r, States(handlers), p)
  {
    LoopFreeExactly(r, handlers);
    if NoFeedCycle(r, handlers) { AcceptedIsLoopFree(r, handlers); }
  }

  /** It is whenever there is no override. */
  lemma AcceptedExactly(r: Routing, handlers: seq<Handler>)
    requires IsPlain(r) && NoOverrides(r) && NoEmptyLoopback(handlers)
    requires r.byTag == ByTag(handlers) && (r.def.Some? ==> r.def.value in handlers)
    ensures NoFeedCycle(r, handlers) <==> LoopFree(r)
  {
    if NoFeedCycle(r, handlers) { AcceptedIsLoopFree(r, handlers); }
    if LoopFree(r) {
      NoEmptyState(handlers);
      forall p ensures !FeedCycle(r, States(handlers), p) {
        if FeedCycle(r, States(handlers), p) {
          forall k | 0 <= k < |p| - 1 ensures Returns(r, p[k], p[k + 1]) { TripsAreReal(r, p[k], p[k + 1]); }
          assert IsTrip(r, p);
          assert false;
        }
      }
    }
  }

  // A routing that is refused although it cannot loop.

  const FEED := Handler("lo", true, "", Some("in"), false)
  const DIRECT_OUT := Handler("direct", true, "", None, false)
  const PINNED := Balancer("b", ["lo"], "", [])
  const PINNED_RULE := Rule("", "", Some(PINNED), ["in"], {InboundTag, BalancingTag})
  const PINNED_ROUTING :=
    Routing([PINNED_RULE], map["b" := PINNED], map["b" := "direct"], map["lo" := FEED, "direct" := DIRECT_OUT], Some(DIRECT_OUT))

  lemma PinnedByTag()
    ensures ByTag([FEED, DIRECT_OUT]) == PINNED_ROUTING.byTag && States([FEED, DIRECT_OUT]) == {"in"}
  {
    assert [FEED, DIRECT_OUT][..1] == [FEED] && [FEED][..0] == [];
    assert ByTag([FEED]) == map["lo" := FEED];
    assert FEED in [FEED, DIRECT_OUT];
    assert Loopback(FEED) == Some("in");
  }

  lemma PinnedIsPlain()
    ensures IsPlain(PINNED_ROUTING)
  {
    var m := PINNED_ROUTING.balancers;
    forall p ensures !IsCycle(GraphOf(m), p) {
      if IsCycle(GraphOf(m), p) {
        assert Step(GraphOf(m), p[0], p[1]);
        GraphSteps(m, p[0], p[1]);
        assert false;
      }
    }
    assert PINNED_ROUTING.rules[0] == PINNED_RULE;
  }

  lemma PinnedEndsDirect(p: seq<string>, h: Handler)
    requires Passes(PINNED_ROUTING, p, h)
    ensures h == DIRECT_OUT
  {
    assert p[|p| - 1] == "b";
  }

  lemma PinnedFeedsNothing(s: string)
    ensures !CanFeed(PINNED_ROUTING, "in", s)
  {
    var r := PINNED_ROUTING;
    assert r.rules[0] == PINNED_RULE && PINNED_RULE.inboundTags[0] == "in";
    FeedsExactly(r.byTag, DIRECT_OUT, s);
    forall k: nat ensures !CanFeedAt(r, "in", k, s) {
      if k == 0 {
        forall p, h ensures !(Passes(r, p, h) && Feeds(r.byTag, h, s)) {
          if Passes(r, p, h) { PinnedEndsDirect(p, h); }
        }
      } else {
        assert Considers(r.rules[0], "in") && MatchesOnInboundOnly(r.rules[0]);
      }
    }
  }

  /** The override sends everything to an outbound, but the check still takes the loopback among the candidates as possible. */
  lemma PinnedExample()
    ensures IsPlain(PINNED_ROUTING) && LoopFree(PINNED_ROUTING) && !NoFeedCycle(PINNED_ROUTING, [FEED, DIRECT_OUT])
  {
    var r, handlers := PINNED_ROUTING, [FEED, DIRECT_OUT];
    PinnedByTag();
    PinnedIsPlain();
    forall p ensures !RealCycle(r, States(handlers), p) {
      if RealCycle(r, States(handlers), p) { PinnedFeedsNothing(p[1]); }
    }
    LoopFreeExactly(r, handlers);
    PinnedMayFeed();
    assert FeedCycle(r, States(handlers), ["in", "in"]);
  }

  lemma PinnedMayFeed()
    ensures MayFeed(PINNED_ROUTING, "in", "in")
  {
    var r := PINNED_ROUTING;
    assert r.rules[0] == PINNED_RULE && PINNED_RULE.inboundTags[0] == "in";
    FeedsExactly(r.byTag, FEED, "in");
    assert PINNED.selectors[0] == "lo" && HasPrefix("lo", "lo");
    assert Selected(PINNED, "lo");
    assert LevelLeads(r, PINNED, FEED);
    assert LevelFeeds(r, r.balancers["b"], "in");
    ReachesSelf(PickGraph(r.balancers), "b");
    assert ChainFeeds(r, PINNED, "in");
  }
}
