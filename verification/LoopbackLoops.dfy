/**
 Can routing bring a connection that a loopback fed back into routing to a loopback again? (app/router/loops.go;
 features/outbound/loops.go, LoopbackReached.) The check over-approximates one routing step per loopback state and
 refuses a cycle of states; what it accepts cannot loop, whatever the rules' other conditions and the strategies do.
 */
module LoopbackLoops {
  import opened Options
  import opened StringOrder
  import opened Digraphs
  import opened ShortestCycles
  import opened BalancerGraph
  import opened FallbackChain

  /** What the loop checks read of an outbound handler; a handler without that view is neither. */
  datatype Handler = Handler(tag: string, isView: bool, dialerProxy: string, loopback: Option<string>, blackhole: bool)

  /** The fields of a routing rule. */
  datatype Field =
    | Tag | BalancingTag | RuleTag | Webhook
    | InboundTag | Domain | Ip | PortList | Networks | SourceIp | SourcePortList | UserEmail | Protocol | Attributes
    | LocalIp | LocalPortList | VlessRouteList | Process | LocalOs

  /** A rule: where it leads, the inbound tags it names, and its fields that are set. */
  datatype Rule = Rule(ruleTag: string, tag: string, balancer: Option<Balancer>, inboundTags: seq<string>,
                       fields: set<Field>)

  /** What one check reads; overrides has a target about to be set in place of the current one. */
  datatype Routing = Routing(rules: seq<Rule>, balancers: Balancers, overrides: map<string, string>,
                             byTag: map<string, Handler>, def: Option<Handler>)

  // The loopback a handler reaches through its dialerProxy chain.

  function Loopback(h: Handler): Option<string> {
    if h.isView then h.loopback else None
  }

  function NextHop(byTag: map<string, Handler>, h: Handler): Option<Handler> {
    if !h.isView || h.loopback.Some? || h.dialerProxy == "" then None else Find(byTag, h.dialerProxy)
  }

  ghost function Hop(byTag: map<string, Handler>, h: Handler, k: nat): Option<Handler> {
    if k == 0 then Some(h) else match Hop(byTag, h, k - 1) case None => None case Some(x) => NextHop(byTag, x)
  }

  /** The handler k hops down the chain is a loopback that feeds s. */
  ghost predicate FeedsAt(byTag: map<string, Handler>, h: Handler, k: nat, s: string) {
    Hop(byTag, h, k).Some? && Loopback(Hop(byTag, h, k).value) == Some(s)
  }

  /** Dialing through h reaches, after any number of hops, a loopback that feeds s. */
  ghost predicate Feeds(byTag: map<string, Handler>, h: Handler, s: string) {
    exists k: nat :: FeedsAt(byTag, h, k, s)
  }

  lemma {:induction false} HopStays(byTag: map<string, Handler>, h: Handler, i: nat, j: nat, d: nat)
    requires Hop(byTag, h, i) == Hop(byTag, h, j)
    ensures Hop(byTag, h, i + d) == Hop(byTag, h, j + d)
  {
    if d > 0 { HopStays(byTag, h, i, j, d - 1); }
  }

  /** A chain that has reached a loopback ends there. */
  lemma {:induction false} LoopbackEnds(byTag: map<string, Handler>, h: Handler, k: nat, l: nat)
    requires Hop(byTag, h, k).Some? && Loopback(Hop(byTag, h, k).value).Some? && k < l
    ensures Hop(byTag, h, l).None?
  {
    if l > k + 1 { LoopbackEnds(byTag, h, k, l - 1); }
  }

  lemma FeedsOnce(byTag: map<string, Handler>, h: Handler, k: nat, s: string, l: nat, t: string)
    requires FeedsAt(byTag, h, k, s) && FeedsAt(byTag, h, l, t)
    ensures k == l && s == t
  {
    if k < l { LoopbackEnds(byTag, h, k, l); }
    if l < k { LoopbackEnds(byTag, h, l, k); }
  }

  lemma {:induction false} HopsBefore(byTag: map<string, Handler>, h: Handler, i: nat, k: nat)
    requires i <= k && Hop(byTag, h, k).Some?
    ensures Hop(byTag, h, i).Some?
  {
    if i < k { HopsBefore(byTag, h, i, k - 1); }
  }

  /** The hops after the first are handlers of byTag, found under the dialerProxy of the hop before. */
  ghost function HopTag(byTag: map<string, Handler>, h: Handler, i: nat): string
    requires i > 0 && Hop(byTag, h, i).Some?
    ensures HopTag(byTag, h, i) in byTag && byTag[HopTag(byTag, h, i)] == Hop(byTag, h, i).value
  {
    Hop(byTag, h, i - 1).value.dialerProxy
  }

  /** A chain that reaches a loopback at all does so within |byTag| hops: the bound of the walk cuts off none. */
  lemma LoopbackIsNear(byTag: map<string, Handler>, h: Handler, k: nat, s: string)
    requires FeedsAt(byTag, h, k, s)
    ensures k <= |byTag|
  {
    forall i | 1 <= i <= k ensures Hop(byTag, h, i).Some? { HopsBefore(byTag, h, i, k); }
    var tags := seq(k, i requires 0 <= i < k => HopTag(byTag, h, i + 1));
    forall i, j | 0 <= i < j < k ensures tags[i] != tags[j] {
      if tags[i] == tags[j] {
        HopStays(byTag, h, i + 1, j + 1, k - j - 1);
        FeedsOnce(byTag, h, k, s, k - (j - i), s);
        assert false;
      }
    }
    DistinctFits(tags, byTag.Keys);
  }

  /** LoopbackReached: exactly the loopback that dialing through h reaches. */
  method LoopbackReached(start: Handler, byTag: map<string, Handler>) returns (inbound: Option<string>)
    ensures inbound.Some? ==> Feeds(byTag, start, inbound.value)
    ensures inbound.None? ==> forall s :: !Feeds(byTag, start, s)
  {
    var h := Some(start);
    var i := 0;
    while h.Some? && i <= |byTag|
      invariant i <= |byTag| + 1 && h == Hop(byTag, start, i)
      invariant forall k: nat, s :: FeedsAt(byTag, start, k, s) ==> k >= i
    {
      if Loopback(h.value).Some? {
        assert FeedsAt(byTag, start, i, Loopback(h.value).value);
        return Loopback(h.value);
      }
      h := NextHop(byTag, h.value);
      i := i + 1;
    }
    forall k: nat, s | FeedsAt(byTag, start, k, s) ensures false {
      LoopbackIsNear(byTag, start, k, s);
      HopsBefore(byTag, start, i, k);
      assert false;
    }
    inbound := None;
  }

  // What the check takes as possible, stated without the walk.

  predicate HasPrefix(s: string, prefix: string) {
    |prefix| <= |s| && s[..|prefix|] == prefix
  }

  predicate Selected(b: Balancer, tag: string) {
    exists i :: 0 <= i < |b.selectors| && HasPrefix(tag, b.selectors[i])
  }

  /** One level of a balancer may lead to h: a candidate, its override, its fallback outbound, or the default. */
  ghost predicate LevelLeads(r: Routing, b: Balancer, h: Handler) {
    || (exists tag :: tag in r.byTag && Selected(b, tag) && r.byTag[tag] == h)
    || (OverrideOf(r.overrides, b.tag) != "" && Find(r.byTag, OverrideOf(r.overrides, b.tag)) == Some(h))
    || (b.fallbackTag == "" && r.def == Some(h))
    || (b.fallbackTag != "" && b.fallbackTag !in r.balancers && Find(r.byTag, b.fallbackTag) == Some(h))
  }

  ghost predicate LevelFeeds(r: Routing, b: Balancer, s: string) {
    exists h :: LevelLeads(r, b, h) && Feeds(r.byTag, h, s)
  }

  /** Some level of b's graph of members and fallbacks feeds s. */
  ghost predicate ChainFeeds(r: Routing, b: Balancer, s: string) {
    exists t :: t in r.balancers && Reaches(PickGraph(r.balancers), b.tag, t) && LevelFeeds(r, r.balancers[t], s)
  }

  ghost predicate HandlerFeeds(r: Routing, h: Option<Handler>, s: string) {
    h.Some? && Feeds(r.byTag, h.value, s)
  }

  ghost predicate RuleFeeds(r: Routing, rule: Rule, s: string) {
    if rule.balancer.Some? then ChainFeeds(r, rule.balancer.value, s) else HandlerFeeds(r, Find(r.byTag, rule.tag), s)
  }

  predicate Considers(rule: Rule, state: string) {
    rule.inboundTags == [] || state in rule.inboundTags
  }

  /** The fields that say where a rule leads, not when it matches. */
  const NOT_CONDITIONS := {Tag, BalancingTag, RuleTag, Webhook}

  predicate NoOtherCondition(rule: Rule) {
    forall f :: f in rule.fields ==> f == InboundTag || f in NOT_CONDITIONS
  }

  /** The inbound tag is the rule's only condition. */
  predicate MatchesOnInboundOnly(rule: Rule) {
    rule.inboundTags != [] && NoOtherCondition(rule)
  }

  /** Some rule from i on may feed s from the state, or the default outbound when no rule certainly matches first. */
  ghost predicate MayFeedFrom(r: Routing, state: string, i: nat, s: string)
    requires i <= |r.rules|
    decreases |r.rules| - i
  {
    if i == |r.rules| then HandlerFeeds(r, r.def, s)
    else if !Considers(r.rules[i], state) then MayFeedFrom(r, state, i + 1, s)
    else RuleFeeds(r, r.rules[i], s) || (!MatchesOnInboundOnly(r.rules[i]) && MayFeedFrom(r, state, i + 1, s))
  }

  ghost predicate MayFeed(r: Routing, state: string, s: string) {
    MayFeedFrom(r, state, 0, s)
  }

  /** Rules name balancers of the map, and the map passed its own check. */
  ghost predicate Consistent(r: Routing) {
    && Publishable(r.balancers)
    && (forall t :: t in r.balancers ==> r.balancers[t].tag == t)
    && (forall i :: 0 <= i < |r.rules| && r.rules[i].balancer.Some? ==>
          var b := r.rules[i].balancer.value; b.tag in r.balancers && r.balancers[b.tag] == b)
  }

  // What routing does with a connection in a state.

  /** The fields that BuildCondition turns into conditions, beside the inbound tag. */
  const CONDITIONS :=
    {LocalOs, Networks, Protocol, PortList, SourcePortList, LocalPortList, VlessRouteList, UserEmail, Attributes, Ip, SourceIp,
     LocalIp, Domain, Process}

  /** BuildCondition refuses a rule without any condition. */
  predicate Effective(rule: Rule) {
    rule.inboundTags != [] || exists f :: f in rule.fields && f in CONDITIONS
  }

  /** The conjunction of the rule's conditions; whether one beside the inbound tag holds is what answers says. */
  predicate Matches(rule: Rule, state: string, answers: Field -> bool) {
    && (rule.inboundTags == [] || (state != "" && state in rule.inboundTags))
    && (forall f :: f in rule.fields && f in CONDITIONS ==> answers(f))
  }

  /** pickRouteInternal's scan: rule i is the first that matches. */
  ghost predicate FirstMatch(r: Routing, state: string, other: nat -> Field -> bool, i: nat) {
    && i < |r.rules| && Matches(r.rules[i], state, other(i))
    && forall j :: 0 <= j < i ==> !Matches(r.rules[j], state, other(j))
  }

  ghost predicate NoMatch(r: Routing, state: string, other: nat -> Field -> bool) {
    forall j :: 0 <= j < |r.rules| ==> !Matches(r.rules[j], state, other(j))
  }

  /** No condition holds beside the inbound tag. */
  const NOTHING_HOLDS: nat -> Field -> bool := _ => _ => false

  /** A level's turn: its override as it is, and an answer of its strategy that is a candidate or empty. */
  ghost predicate Honest(r: Routing, b: Balancer, t: Turn) {
    && t.override == OverrideOf(r.overrides, b.tag)
    && (t.choice == "" || t.choice in b.members || (t.choice in r.byTag && Selected(b, t.choice)))
  }

  ghost predicate RouteOf(r: Routing, rule: Rule, route: Route) {
    if rule.balancer.None? then route == ToOutbound(rule.tag)
    else exists turns: nat -> Turn, chain :: IsRoute(r, rule.balancer.value, turns, chain, route)
  }

  /** route is what resolveChain answers for honest turns. */
  ghost predicate IsRoute(r: Routing, b: Balancer, turns: nat -> Turn, chain: seq<string>, route: Route) {
    && IsChain(r.balancers, b, turns, chain)
    && (forall i :: 0 <= i <= |chain| ==> Honest(r, LevelAt(r.balancers, b, chain, i), turns(i)))
    && (var last := LevelAt(r.balancers, b, chain, |chain|);
        NextLevel(r.balancers, last, turns(|chain|)) == None && route == Outcome(last, turns(|chain|)))
  }

  /** routedDispatch: a picked tag or nothing, the default outbound for a pick that failed. */
  ghost predicate Takes(r: Routing, route: Route, h: Handler) {
    match route
    case ToOutbound(tag) => Find(r.byTag, tag) == Some(h)
    case RouteFailed => r.def == Some(h)
    case RouteDropped => false
  }

  /** A connection in the state is dispatched to h, for some outcome of everything routing reads. */
  ghost predicate DispatchesTo(r: Routing, state: string, h: Handler) {
    || (exists other: nat -> Field -> bool, i: nat, route ::
          FirstMatch(r, state, other, i) && RouteOf(r, r.rules[i], route) && Takes(r, route, h))
    || (exists other: nat -> Field -> bool :: NoMatch(r, state, other) && r.def == Some(h))
  }

  /** One trip: dispatched from the state, the connection comes back into routing as next. */
  ghost predicate Returns(r: Routing, state: string, next: string) {
    exists h :: DispatchesTo(r, state, h) && Feeds(r.byTag, h, next)
  }

  ghost predicate IsTrip(r: Routing, p: seq<string>) {
    forall i :: 0 <= i < |p| - 1 ==> Returns(r, p[i], p[i + 1])
  }

  // Soundness: routing does nothing the check does not take as possible.

  /** No rule that names the empty inbound tag has it as its only condition; such a rule never matches it. */
  ghost predicate EmptyTagOk(r: Routing) {
    forall i :: 0 <= i < |r.rules| && MatchesOnInboundOnly(r.rules[i]) ==> "" !in r.rules[i].inboundTags
  }

  /** The last level of an honest chain leads only where the check takes that level to lead. */
  lemma OutcomeIsPossible(r: Routing, b: Balancer, t: Turn, h: Handler)
    requires MembersOk(r.balancers) && b.tag in r.balancers && r.balancers[b.tag] == b
    requires Honest(r, b, t) && NextLevel(r.balancers, b, t) == None && Takes(r, Outcome(b, t), h)
    ensures LevelLeads(r, b, h)
  {
    match PickOne(b, t) {
      case PickFailed =>
      case Picked(tag, fallback) =>
        if !fallback && tag == t.choice && tag !in b.members && t.override == "" {
          assert tag in r.byTag && Selected(b, tag) && r.byTag[tag] == h;
        }
    }
  }

  lemma RouteIsPossible(r: Routing, rule: Rule, route: Route, h: Handler, s: string)
    requires Consistent(r) && rule in r.rules && RouteOf(r, rule, route) && Takes(r, route, h) && Feeds(r.byTag, h, s)
    ensures RuleFeeds(r, rule, s)
  {
    if rule.balancer.Some? {
      var m, b := r.balancers, rule.balancer.value;
      var turns: nat -> Turn, chain :| IsRoute(r, b, turns, chain, route);
      var t := if chain == [] then b.tag else chain[|chain| - 1];
      var last := LevelAt(m, b, chain, |chain|);
      assert m[t] == last && last.tag == t;
      OutcomeIsPossible(r, last, turns(|chain|), h);
      ChainIsWalk(m, b, turns, chain);
      var p := [b.tag] + chain;
      assert WalkFromTo(PickGraph(m), p, b.tag, t);
      assert LevelFeeds(r, m[t], s);
    }
  }

  /** A rule that ends the walk at a state matches every connection in it. */
  lemma AlwaysMatches(rule: Rule, state: string, answers: Field -> bool)
    requires Considers(rule, state) && MatchesOnInboundOnly(rule) && state != ""
    ensures Matches(rule, state, answers)
  {
  }

  /** A rule that was passed over does not end the walk. */
  lemma PassedOver(r: Routing, state: string, answers: Field -> bool, j: nat)
    requires j < |r.rules| && !Matches(r.rules[j], state, answers) && (state != "" || EmptyTagOk(r))
    ensures !(Considers(r.rules[j], state) && MatchesOnInboundOnly(r.rules[j]))
  {
    if state != "" && Considers(r.rules[j], state) && MatchesOnInboundOnly(r.rules[j]) {
      AlwaysMatches(r.rules[j], state, answers);
    }
  }

  lemma {:induction false} RuleIsConsidered(r: Routing, state: string, other: nat -> Field -> bool, i: nat, j: nat, s: string)
    requires FirstMatch(r, state, other, i) && RuleFeeds(r, r.rules[i], s) && j <= i
    requires state != "" || EmptyTagOk(r)
    ensures MayFeedFrom(r, state, j, s)
    decreases i - j
  {
    if j < i {
      RuleIsConsidered(r, state, other, i, j + 1, s);
      PassedOver(r, state, other(j), j);
    }
  }

  lemma {:induction false} DefaultIsConsidered(r: Routing, state: string, other: nat -> Field -> bool, j: nat, s: string)
    requires NoMatch(r, state, other) && HandlerFeeds(r, r.def, s) && j <= |r.rules|
    requires state != "" || EmptyTagOk(r)
    ensures MayFeedFrom(r, state, j, s)
    decreases |r.rules| - j
  {
    if j < |r.rules| {
      DefaultIsConsidered(r, state, other, j + 1, s);
      PassedOver(r, state, other(j), j);
    }
  }

  /** Every trip routing can make is one the check takes as possible. */
  lemma ReturnIsPossible(r: Routing, state: string, s: string)
    requires Consistent(r) && Returns(r, state, s)
    requires state != "" || EmptyTagOk(r)
    ensures MayFeed(r, state, s)
  {
    var h :| DispatchesTo(r, state, h) && Feeds(r.byTag, h, s);
    if other: nat -> Field -> bool, i: nat, route :|
       FirstMatch(r, state, other, i) && RouteOf(r, r.rules[i], route) && Takes(r, route, h) {
      RouteIsPossible(r, r.rules[i], route, h, s);
      RuleIsConsidered(r, state, other, i, 0, s);
    } else {
      var other: nat -> Field -> bool :| NoMatch(r, state, other) && r.def == Some(h);
      DefaultIsConsidered(r, state, other, 0, s);
    }
  }

  // The walk that lists a state's edges.

  ghost predicate HasEdge(out: seq<Edge<string>>, s: string) {
    exists i :: 0 <= i < |out| && out[i].to == s
  }

  ghost predicate CandidateFeeds(r: Routing, b: Balancer, s: string) {
    exists tag :: tag in r.byTag && Selected(b, tag) && Feeds(r.byTag, r.byTag[tag], s)
  }

  ghost predicate OverrideFeeds(r: Routing, b: Balancer, s: string) {
    OverrideOf(r.overrides, b.tag) != "" && HandlerFeeds(r, Find(r.byTag, OverrideOf(r.overrides, b.tag)), s)
  }

  ghost predicate EndFeeds(r: Routing, b: Balancer, s: string) {
    if b.fallbackTag == "" then HandlerFeeds(r, r.def, s)
    else b.fallbackTag !in r.balancers && HandlerFeeds(r, Find(r.byTag, b.fallbackTag), s)
  }

  lemma LevelParts(r: Routing, b: Balancer, s: string)
    ensures LevelFeeds(r, b, s) <==> CandidateFeeds(r, b, s) || OverrideFeeds(r, b, s) || EndFeeds(r, b, s)
  {
    if CandidateFeeds(r, b, s) {
      var tag :| tag in r.byTag && Selected(b, tag) && Feeds(r.byTag, r.byTag[tag], s);
      assert LevelLeads(r, b, r.byTag[tag]);
    }
    if OverrideFeeds(r, b, s) { assert LevelLeads(r, b, r.byTag[OverrideOf(r.overrides, b.tag)]); }
    if EndFeeds(r, b, s) {
      assert LevelLeads(r, b, if b.fallbackTag == "" then r.def.value else r.byTag[b.fallbackTag]);
    }
  }

  /** reach: an edge to the state of the loopback that h reaches, if it reaches one. */
  method Reach(r: Routing, h: Option<Handler>, out: seq<Edge<string>>) returns (out': seq<Edge<string>>)
    ensures forall s :: HasEdge(out', s) <==> HasEdge(out, s) || HandlerFeeds(r, h, s)
  {
    out' := out;
    if h.None? { return; }
    var inbound := LoopbackReached(h.value, r.byTag);
    if inbound.Some? {
      out' := out + [Edge(inbound.value, h.value.tag)];
      forall s ensures HasEdge(out', s) <==> HasEdge(out, s) || HandlerFeeds(r, h, s) {
        if Feeds(r.byTag, h.value, s) { FeedsOne(r.byTag, h.value, s, inbound.value); }
        assert forall i :: 0 <= i < |out| ==> out'[i] == out[i];
        assert out'[|out|].to == inbound.value;
      }
    }
  }

  lemma FeedsOne(byTag: map<string, Handler>, h: Handler, s: string, t: string)
    requires Feeds(byTag, h, s) && Feeds(byTag, h, t)
    ensures s == t
  {
    var k: nat :| FeedsAt(byTag, h, k, s);
    var l: nat :| FeedsAt(byTag, h, l, t);
    FeedsOnce(byTag, h, k, s, l, t);
  }

  /** The candidates of a level. */
  method ReachCandidates(r: Routing, tags: seq<string>, b: Balancer, out: seq<Edge<string>>)
    returns (out': seq<Edge<string>>)
    requires forall t :: t in tags <==> t in r.byTag
    ensures forall s :: HasEdge(out', s) <==> HasEdge(out, s) || CandidateFeeds(r, b, s)
  {
    out' := out;
    for i := 0 to |tags|
      invariant forall s :: HasEdge(out', s) <==>
        HasEdge(out, s) || exists k :: 0 <= k < i && Selected(b, tags[k]) && Feeds(r.byTag, r.byTag[tags[k]], s)
    {
      for j := 0 to |b.selectors|
        invariant forall k :: 0 <= k < j ==> !HasPrefix(tags[i], b.selectors[k])
        invariant forall s :: HasEdge(out', s) <==>
          HasEdge(out, s) || exists k :: 0 <= k < i && Selected(b, tags[k]) && Feeds(r.byTag, r.byTag[tags[k]], s)
      {
        if HasPrefix(tags[i], b.selectors[j]) {
          out' := Reach(r, Some(r.byTag[tags[i]]), out');
          break;
        }
      }
    }
    forall s ensures HasEdge(out', s) <==> HasEdge(out, s) || CandidateFeeds(r, b, s) {
      if CandidateFeeds(r, b, s) {
        var tag :| tag in r.byTag && Selected(b, tag) && Feeds(r.byTag, r.byTag[tag], s);
        var k :| 0 <= k < |tags| && tags[k] == tag;
      }
    }
  }

  // What a walk from first has done: seen grew from seen0 to seen, and out0 to out.

  /** Each balancer of new has its edges in out and its successors in seen, one still to come aside. */
  ghost predicate Complete(r: Routing, added: set<string>, seen: set<string>, coming: Option<string>, out: seq<Edge<string>>)
    requires added <= r.balancers.Keys
  {
    && (forall t, s {:trigger LevelFeeds(r, r.balancers[t], s)} ::
          t in added && LevelFeeds(r, r.balancers[t], s) ==> HasEdge(out, s))
    && (forall t, w {:trigger Step(PickGraph(r.balancers), t, w)} ::
          t in added && Step(PickGraph(r.balancers), t, w) ==> w in seen || coming == Some(w))
  }

  /** Every edge is an old one or one of the balancers of new, and no old one is lost. */
  ghost predicate Grown(r: Routing, added: set<string>, out0: seq<Edge<string>>, out: seq<Edge<string>>)
    requires added <= r.balancers.Keys
  {
    && (forall s {:trigger HasEdge(out0, s)} :: HasEdge(out0, s) ==> HasEdge(out, s))
    && (forall s {:trigger HasEdge(out, s)} :: HasEdge(out, s) ==> HasEdge(out0, s) || Origin(r, added, s))
  }

  ghost predicate Origin(r: Routing, added: set<string>, s: string)
    requires added <= r.balancers.Keys
  {
    exists t :: t in added && LevelFeeds(r, r.balancers[t], s)
  }

  ghost predicate AllReached(r: Routing, from: string, added: set<string>) {
    forall t :: t in added ==> Reaches(PickGraph(r.balancers), from, t)
  }

  ghost predicate TagsOk(r: Routing) {
    MembersOk(r.balancers) && forall t :: t in r.balancers ==> r.balancers[t].tag == t
  }

  ghost predicate Walked(r: Routing, from: string, seen0: set<string>, seen: set<string>, coming: Option<string>,
                         out0: seq<Edge<string>>, out: seq<Edge<string>>)
  {
    && seen0 <= seen <= r.balancers.Keys
    && AllReached(r, from, seen - seen0)
    && Complete(r, seen - seen0, seen, coming, out)
    && Grown(r, seen - seen0, out0, out)
  }

  /** Two walks, the second from a balancer that the first one reached. */
  lemma WalkedOn(r: Routing, from: string, via: string, seen0: set<string>, seen1: set<string>, seen2: set<string>,
                 coming: Option<string>, out0: seq<Edge<string>>, out1: seq<Edge<string>>, out2: seq<Edge<string>>)
    requires Reaches(PickGraph(r.balancers), from, via) && via in seen2
    requires Walked(r, from, seen0, seen1, None, out0, out1) || Walked(r, from, seen0, seen1, Some(via), out0, out1)
    requires Walked(r, via, seen1, seen2, coming, out1, out2)
    ensures Walked(r, from, seen0, seen2, coming, out0, out2)
  {
    forall t | t in seen2 - seen0 ensures Reaches(PickGraph(r.balancers), from, t) {
      if t !in seen1 { ReachesTransitive(PickGraph(r.balancers), from, via, t); }
    }
    forall s | HasEdge(out2, s) ensures HasEdge(out0, s) || Origin(r, seen2 - seen0, s) {
      if HasEdge(out1, s) && !HasEdge(out0, s) {
        var t :| t in seen1 - seen0 && LevelFeeds(r, r.balancers[t], s);
        assert t in seen2 - seen0;
      } else if !HasEdge(out0, s) {
        var t :| t in seen2 - seen1 && LevelFeeds(r, r.balancers[t], s);
        assert t in seen2 - seen0;
      }
    }
  }

  lemma WalkedNothing(r: Routing, from: string, seen: set<string>, coming: Option<string>, out: seq<Edge<string>>)
    requires seen <= r.balancers.Keys
    ensures Walked(r, from, seen, seen, coming, out, out)
  {}

  ghost function TagOf(b: Option<Balancer>): Option<string> {
    if b.Some? then Some(b.value.tag) else None
  }

  /** b's own edges and what was walked below its members make b's level complete. */
  lemma LevelDone(r: Routing, b: Balancer, seen0: set<string>, seen: set<string>, next: Option<Balancer>,
                  out0: seq<Edge<string>>, out1: seq<Edge<string>>, out2: seq<Edge<string>>, out: seq<Edge<string>>)
    requires TagsOk(r) && b.tag in r.balancers && r.balancers[b.tag] == b && b.tag !in seen0
    requires seen0 <= r.balancers.Keys
    requires forall s :: HasEdge(out1, s) <==> HasEdge(out0, s) || CandidateFeeds(r, b, s)
    requires Walked(r, b.tag, seen0 + {b.tag}, seen, None, out1, out2)
    requires forall s :: HasEdge(out, s) <==> HasEdge(out2, s) || OverrideFeeds(r, b, s) || EndFeeds(r, b, s)
    requires forall x :: x in b.members ==> x in seen
    requires TagOf(next) == if b.fallbackTag != "" && b.fallbackTag in r.balancers then Some(b.fallbackTag) else None
    ensures Walked(r, b.tag, seen0, seen, TagOf(next), out0, out)
  {
    var added, below := seen - seen0, seen - (seen0 + {b.tag});
    ReachesSelf(PickGraph(r.balancers), b.tag);
    forall t, s | t in added && LevelFeeds(r, r.balancers[t], s) ensures HasEdge(out, s) {
      if t == b.tag { LevelParts(r, b, s); } else { assert t in below; }
    }
    forall t, w | t in added && Step(PickGraph(r.balancers), t, w) ensures w in seen || TagOf(next) == Some(w) {
      if t == b.tag { PickSteps(r.balancers, t, w); } else { assert t in below; }
    }
    forall s | HasEdge(out, s) ensures HasEdge(out0, s) || Origin(r, added, s) {
      LevelParts(r, b, s);
      if HasEdge(out2, s) && !HasEdge(out1, s) {
        var t :| t in below && LevelFeeds(r, r.balancers[t], s);
        assert t in added;
      } else if !HasEdge(out0, s) {
        assert b.tag in added && LevelFeeds(r, r.balancers[b.tag], s);
      }
    }
  }

  lemma MemberIsReached(r: Routing, b: Balancer, member: string)
    requires TagsOk(r) && b.tag in r.balancers && r.balancers[b.tag] == b && member in b.members
    ensures member in r.balancers && r.balancers[member].tag == member && Reaches(PickGraph(r.balancers), b.tag, member)
  {
    PickSteps(r.balancers, b.tag, member);
    ReachesStep(PickGraph(r.balancers), b.tag, member);
  }

  /** Walks each member balancer of b that was not seen before. */
  method WalkMembers(r: Routing, tags: seq<string>, b: Balancer, out: seq<Edge<string>>, seen: set<string>)
    returns (out': seq<Edge<string>>, seen': set<string>)
    requires TagsOk(r) && forall t :: t in tags <==> t in r.byTag
    requires b.tag in r.balancers && r.balancers[b.tag] == b && seen <= r.balancers.Keys
    ensures Walked(r, b.tag, seen, seen', None, out, out')
    ensures forall x :: x in b.members ==> x in seen'
    decreases r.balancers.Keys - seen, 2
  {
    out', seen' := out, seen;
    WalkedNothing(r, b.tag, seen, None, out);
    for i := 0 to |b.members|
      invariant Walked(r, b.tag, seen, seen', None, out, out')
      invariant forall k :: 0 <= k < i ==> b.members[k] in seen'
    {
      var member := b.members[i];
      MemberIsReached(r, b, member);
      ghost var seen2, out2 := seen', out';
      out', seen' := Level(r, tags, r.balancers[member], out', seen');
      WalkedOn(r, b.tag, member, seen, seen2, seen', None, out, out2, out');
    }
  }

  /** b's override, and its fallback outbound or the default; a fallback balancer is left to the caller. */
  method ReachEnd(r: Routing, b: Balancer, out: seq<Edge<string>>) returns (out': seq<Edge<string>>, next: Option<Balancer>)
    requires TagsOk(r)
    ensures forall s :: HasEdge(out', s) <==> HasEdge(out, s) || OverrideFeeds(r, b, s) || EndFeeds(r, b, s)
    ensures TagOf(next) == if b.fallbackTag != "" && b.fallbackTag in r.balancers then Some(b.fallbackTag) else None
    ensures next.Some? ==> next.value == r.balancers[b.fallbackTag]
  {
    out' := out;
    var target := OverrideOf(r.overrides, b.tag);
    if target != "" { out' := Reach(r, Find(r.byTag, target), out'); }
    next := None;
    if b.fallbackTag == "" {
      out' := Reach(r, r.def, out');
    } else if b.fallbackTag in r.balancers {
      next := Some(r.balancers[b.fallbackTag]);
    } else {
      out' := Reach(r, Find(r.byTag, b.fallbackTag), out');
    }
  }

  /** One turn of level's loop: b's candidates, members, override, and what its fallbackTag leads to. */
  method OneLevel(r: Routing, tags: seq<string>, b: Balancer, out: seq<Edge<string>>, seen: set<string>)
    returns (out': seq<Edge<string>>, seen': set<string>, next: Option<Balancer>)
    requires TagsOk(r) && forall t :: t in tags <==> t in r.byTag
    requires b.tag in r.balancers && r.balancers[b.tag] == b && b.tag !in seen && seen <= r.balancers.Keys
    ensures Walked(r, b.tag, seen, seen', TagOf(next), out, out') && b.tag in seen'
    ensures TagOf(next) == if b.fallbackTag != "" && b.fallbackTag in r.balancers then Some(b.fallbackTag) else None
    ensures next.Some? ==> next.value == r.balancers[b.fallbackTag]
    decreases r.balancers.Keys - seen, 0
  {
    var out1 := ReachCandidates(r, tags, b, out);
    var out2;
    out2, seen' := WalkMembers(r, tags, b, out1, seen + {b.tag});
    out', next := ReachEnd(r, b, out2);
    LevelDone(r, b, seen, seen', next, out, out1, out2, out');
  }

  /** level: the edges of every balancer reached from first that was not seen before. */
  method Level(r: Routing, tags: seq<string>, first: Balancer, out: seq<Edge<string>>, seen: set<string>)
    returns (out': seq<Edge<string>>, seen': set<string>)
    requires TagsOk(r) && forall t :: t in tags <==> t in r.byTag
    requires first.tag in r.balancers && r.balancers[first.tag] == first && seen <= r.balancers.Keys
    ensures Walked(r, first.tag, seen, seen', None, out, out') && first.tag in seen'
    decreases r.balancers.Keys - seen, 1
  {
    var b := Some(first);
    out', seen' := out, seen;
    ReachesSelf(PickGraph(r.balancers), first.tag);
    WalkedNothing(r, first.tag, seen, TagOf(b), out);
    while b.Some? && b.value.tag !in seen'
      invariant Walked(r, first.tag, seen, seen', TagOf(b), out, out')
      invariant b.Some? ==> b.value.tag in r.balancers && r.balancers[b.value.tag] == b.value
      invariant b.Some? ==> Reaches(PickGraph(r.balancers), first.tag, b.value.tag)
      invariant b != Some(first) ==> first.tag in seen'
      decreases r.balancers.Keys - seen'
    {
      var cur := b.value;
      ghost var seen1, out1 := seen', out';
      out', seen', b := OneLevel(r, tags, cur, out', seen');
      if b.Some? {
        PickSteps(r.balancers, cur.tag, b.value.tag);
        ReachesStep(PickGraph(r.balancers), cur.tag, b.value.tag);
        ReachesTransitive(PickGraph(r.balancers), first.tag, cur.tag, b.value.tag);
      }
      WalkedOn(r, first.tag, cur.tag, seen, seen1, seen', TagOf(b), out, out1, out');
    }
  }

  /** chain: the edges of every balancer reached from b. */
  method Chain(r: Routing, tags: seq<string>, b: Balancer, out: seq<Edge<string>>) returns (out': seq<Edge<string>>)
    requires TagsOk(r) && forall t :: t in tags <==> t in r.byTag
    requires b.tag in r.balancers && r.balancers[b.tag] == b
    ensures forall s :: HasEdge(out', s) <==> HasEdge(out, s) || ChainFeeds(r, b, s)
  {
    var seen;
    out', seen := Level(r, tags, b, out, {});
    forall s ensures HasEdge(out', s) <==> HasEdge(out, s) || ChainFeeds(r, b, s) {
      if ChainFeeds(r, b, s) {
        var t :| t in r.balancers && Reaches(PickGraph(r.balancers), b.tag, t) && LevelFeeds(r, r.balancers[t], s);
        ReachStaysIn(PickGraph(r.balancers), seen, b.tag, t);
      }
      if HasEdge(out', s) && !HasEdge(out, s) {
        var t :| t in seen && LevelFeeds(r, r.balancers[t], s);
      }
    }
  }

  /** from: the edges of a state are exactly the states it may feed. */
  method From(r: Routing, tags: seq<string>, state: string) returns (out: seq<Edge<string>>)
    requires Consistent(r) && forall t :: t in tags <==> t in r.byTag
    ensures forall s :: HasEdge(out, s) <==> MayFeed(r, state, s)
  {
    out := [];
    for i := 0 to |r.rules|
      invariant forall s :: MayFeed(r, state, s) <==> HasEdge(out, s) || MayFeedFrom(r, state, i, s)
    {
      var rule := r.rules[i];
      if !Considers(rule, state) { continue; }
      if rule.balancer.Some? {
        out := Chain(r, tags, rule.balancer.value, out);
      } else {
        out := Reach(r, Find(r.byTag, rule.tag), out);
      }
      if MatchesOnInboundOnly(rule) { return; }
    }
    out := Reach(r, r.def, out);
  }

  // The check.

  /** Handlers by tag, an untagged one left out, and the inbound tags that loopbacks feed. */
  method Index(handlers: seq<Handler>) returns (byTag: map<string, Handler>, states: set<string>)
    ensures byTag == ByTag(handlers) && states == States(handlers)
  {
    byTag, states := map[], {};
    for i := 0 to |handlers|
      invariant byTag == ByTag(handlers[..i]) && states == States(handlers[..i])
    {
      var h := handlers[i];
      assert handlers[..i + 1][..i] == handlers[..i];
      assert handlers[..i + 1] == handlers[..i] + [h];
      if h.tag != "" { byTag := byTag[h.tag := h]; }
      if Loopback(h).Some? { states := states + {Loopback(h).value}; }
    }
    assert handlers[..|handlers|] == handlers;
  }

  /** The inbound tags that loopbacks feed. */
  function States(handlers: seq<Handler>): set<string> {
    set h | h in handlers && Loopback(h).Some? :: Loopback(h).value
  }

  function ByTag(handlers: seq<Handler>): map<string, Handler> {
    if handlers == [] then map[]
    else
      var n := |handlers| - 1;
      var m := ByTag(handlers[..n]);
      if handlers[n].tag != "" then m[handlers[n].tag := handlers[n]] else m
  }

  lemma {:induction false} ByTagHolds(handlers: seq<Handler>, tag: string)
    requires tag in ByTag(handlers)
    ensures ByTag(handlers)[tag] in handlers
  {
    var n := |handlers| - 1;
    if handlers[n].tag != tag || tag == "" { ByTagHolds(handlers[..n], tag); }
  }

  /** What a handler of the list feeds is a state. */
  lemma FedIsState(handlers: seq<Handler>, h: Handler, s: string)
    requires h in handlers && Feeds(ByTag(handlers), h, s)
    ensures s in States(handlers)
  {
    var byTag := ByTag(handlers);
    var k: nat :| FeedsAt(byTag, h, k, s);
    if k > 0 { ByTagHolds(handlers, HopTag(byTag, h, k)); }
  }

  lemma LevelFedIsState(r: Routing, handlers: seq<Handler>, b: Balancer, s: string)
    requires r.byTag == ByTag(handlers) && (r.def.Some? ==> r.def.value in handlers) && LevelFeeds(r, b, s)
    ensures s in States(handlers)
  {
    var h :| LevelLeads(r, b, h) && Feeds(r.byTag, h, s);
    if tag :| tag in r.byTag && r.byTag[tag] == h { ByTagHolds(handlers, tag); }
    FedIsState(handlers, h, s);
  }

  lemma {:induction false} MayFeedIsState(r: Routing, handlers: seq<Handler>, state: string, i: nat, s: string)
    requires r.byTag == ByTag(handlers) && (r.def.Some? ==> r.def.value in handlers)
    requires i <= |r.rules| && MayFeedFrom(r, state, i, s)
    ensures s in States(handlers)
    decreases |r.rules| - i
  {
    if i == |r.rules| {
      FedIsState(handlers, r.def.value, s);
    } else if Considers(r.rules[i], state) && RuleFeeds(r, r.rules[i], s) {
      var rule := r.rules[i];
      if rule.balancer.Some? {
        var t :| t in r.balancers && Reaches(PickGraph(r.balancers), rule.balancer.value.tag, t) &&
          LevelFeeds(r, r.balancers[t], s);
        LevelFedIsState(r, handlers, r.balancers[t], s);
      } else {
        ByTagHolds(handlers, rule.tag);
        FedIsState(handlers, r.byTag[rule.tag], s);
      }
    } else {
      MayFeedIsState(r, handlers, state, i + 1, s);
    }
  }

  /** The graph the check builds: exactly the trips between states that it takes as possible. */
  ghost predicate IsStateGraph(r: Routing, states: set<string>, g: Digraph<string>) {
    g.Keys == states && forall v, w :: v in states ==> (Step(g, v, w) <==> MayFeed(r, v, w))
  }

  /** Trips between states that the check takes as possible, back to where they start. */
  ghost predicate FeedCycle(r: Routing, states: set<string>, p: seq<string>) {
    && |p| >= 2 && p[0] == p[|p| - 1]
    && forall k :: 0 <= k < |p| - 1 ==> p[k] in states && MayFeed(r, p[k], p[k + 1])
  }

  ghost predicate NoFeedCycle(r: Routing, handlers: seq<Handler>) {
    forall p :: !FeedCycle(r, States(handlers), p)
  }

  lemma CyclesAreFeedCycles(r: Routing, states: set<string>, g: Digraph<string>, p: seq<string>)
    requires IsStateGraph(r, states, g)
    ensures IsCycle(g, p) <==> FeedCycle(r, states, p)
  {
    if IsCycle(g, p) {
      forall k | 0 <= k < |p| - 1 ensures p[k] in states && MayFeed(r, p[k], p[k + 1]) { assert Step(g, p[k], p[k + 1]); }
    }
  }

  /** No connection comes back to a state, whatever conditions hold and whatever the strategies pick. */
  ghost predicate LoopFree(r: Routing) {
    forall p :: IsTrip(r, p) ==> Distinct(p)
  }

  ghost predicate NoEmptyLoopback(handlers: seq<Handler>) {
    forall x :: x in handlers ==> Loopback(x) != Some("")
  }

  /** What makes the check sound: no loopback feeds the empty tag, or no rule mistakes it for one it matches. */
  ghost predicate Sound(r: Routing, handlers: seq<Handler>) {
    NoEmptyLoopback(handlers) || EmptyTagOk(r)
  }

  /** A connection comes back only under the tag of a loopback. */
  lemma ReturnIsFed(r: Routing, handlers: seq<Handler>, v: string, w: string)
    requires r.byTag == ByTag(handlers) && (r.def.Some? ==> r.def.value in handlers) && Returns(r, v, w)
    ensures w in States(handlers) && (NoEmptyLoopback(handlers) ==> w != "")
  {
    var h :| DispatchesTo(r, v, h) && Feeds(r.byTag, h, w);
    if other: nat -> Field -> bool, i: nat, route :|
       FirstMatch(r, v, other, i) && RouteOf(r, r.rules[i], route) && Takes(r, route, h) {
      match route {
        case ToOutbound(tag) => ByTagHolds(handlers, tag);
        case RouteFailed =>
        case RouteDropped =>
      }
    }
    FedIsState(handlers, h, w);
  }

  lemma TripStep(r: Routing, handlers: seq<Handler>, v: string, w: string, x: string)
    requires r.byTag == ByTag(handlers) && (r.def.Some? ==> r.def.value in handlers) && Consistent(r) && Sound(r, handlers)
    requires Returns(r, v, w) && Returns(r, w, x)
    ensures MayFeed(r, w, x) && w in States(handlers)
  {
    ReturnIsFed(r, handlers, v, w);
    ReturnIsPossible(r, w, x);
  }

  /** Where a walk that returns to p[i] at j comes from at each place between. */
  lemma ComesFrom(r: Routing, p: seq<string>, i: nat, j: nat, k: nat) returns (v: string)
    requires IsTrip(r, p) && i <= k < j < |p| && p[i] == p[j]
    ensures Returns(r, v, p[k]) && Returns(r, p[k], p[k + 1])
  {
    var before := if k > i then k - 1 else j - 1;
    v := p[before];
    assert Returns(r, p[before], p[before + 1]);
  }

  /** A trip that comes back to a state is a cycle of the graph the check builds. */
  lemma TripIsCycle(r: Routing, handlers: seq<Handler>, p: seq<string>, i: nat, j: nat)
    requires r.byTag == ByTag(handlers) && (r.def.Some? ==> r.def.value in handlers) && Consistent(r) && Sound(r, handlers)
    requires IsTrip(r, p) && i < j < |p| && p[i] == p[j]
    ensures FeedCycle(r, States(handlers), p[i..j + 1])
  {
    forall k | i <= k < j ensures p[k] in States(handlers) && MayFeed(r, p[k], p[k + 1]) {
      TripBetween(r, handlers, p, i, j, k);
    }
    SliceIsCycle(r, States(handlers), p, i, j);
  }

  lemma TripBetween(r: Routing, handlers: seq<Handler>, p: seq<string>, i: nat, j: nat, k: nat)
    requires r.byTag == ByTag(handlers) && (r.def.Some? ==> r.def.value in handlers) && Consistent(r) && Sound(r, handlers)
    requires IsTrip(r, p) && i <= k < j < |p| && p[i] == p[j]
    ensures p[k] in States(handlers) && MayFeed(r, p[k], p[k + 1])
  {
    var v := ComesFrom(r, p, i, j, k);
    TripStep(r, handlers, v, p[k], p[k + 1]);
  }

  lemma SliceIsCycle(r: Routing, states: set<string>, p: seq<string>, i: nat, j: nat)
    requires i < j < |p| && p[i] == p[j] && forall k :: i <= k < j ==> p[k] in states && MayFeed(r, p[k], p[k + 1])
    ensures FeedCycle(r, states, p[i..j + 1])
  {
    var q := p[i..j + 1];
    forall k | 0 <= k < |q| - 1 ensures q[k] in states && MayFeed(r, q[k], q[k + 1]) {
      assert q[k] == p[i + k] && q[k + 1] == p[i + k + 1];
    }
  }

  /** What the check accepts cannot loop. */
  lemma AcceptedIsLoopFree(r: Routing, handlers: seq<Handler>)
    requires r.byTag == ByTag(handlers) && (r.def.Some? ==> r.def.value in handlers) && Consistent(r) && Sound(r, handlers)
    requires NoFeedCycle(r, handlers)
    ensures LoopFree(r)
  {
    forall p, i, j | IsTrip(r, p) && 0 <= i < j < |p| ensures p[i] != p[j] {
      if p[i] == p[j] {
        TripIsCycle(r, handlers, p, i, j);
        assert false;
      }
    }
  }

  /**
   loopbackLoops: the cycles of the state graph, one per strongly connected set. When it reports none, no connection
   passes a state twice, unless a loopback feeds the empty inbound tag and a rule has that tag as its only condition.
   */
  method CheckLoopbacks(r: Routing, handlers: seq<Handler>) returns (cycles: seq<Cycle<string>>, ghost g: Digraph<string>)
    requires Consistent(r) && r.byTag == ByTag(handlers) && (r.def.Some? ==> r.def.value in handlers)
    ensures IsStateGraph(r, States(handlers), g) && ReportsAll(g, cycles)
    ensures cycles == [] <==> NoFeedCycle(r, handlers)
    ensures cycles == [] && Sound(r, handlers) ==> LoopFree(r)
  {
    var byTag, states := Index(handlers);
    var tags := SortedKeys(byTag.Keys);
    var edges: Digraph<string> := map[];
    var rest := states;
    while rest != {}
      invariant rest <= states && edges.Keys == states - rest
      invariant forall v, s :: v in edges ==> (HasEdge(edges[v], s) <==> MayFeed(r, v, s))
    {
      var state :| state in rest;
      var out := From(r, tags, state);
      edges, rest := edges[state := out], rest - {state};
    }
    forall v, w | v in states ensures Step(edges, v, w) <==> MayFeed(r, v, w) {
      assert Out(edges, v) == edges[v];
      assert HasEdge(edges[v], w) <==> MayFeed(r, v, w);
    }
    assert IsStateGraph(r, states, edges);
    forall v, w | Step(edges, v, w) ensures v in states && w in states {
      MayFeedIsState(r, handlers, v, 0, w);
    }
    var order := SortedKeys(states);
    cycles := CyclesOf(edges, order);
    g := edges;
    forall p ensures IsCycle(g, p) <==> FeedCycle(r, states, p) { CyclesAreFeedCycles(r, states, g, p); }
    if cycles == [] && Sound(r, handlers) { AcceptedIsLoopFree(r, handlers); }
  }

  // Why the empty inbound tag is set apart: a rule with only that condition never matches, yet ends the check's walk.

  /**
   In a state that is not empty the rules that end the walk are exactly those that match every connection, whatever holds of
   it; the empty state they never match.
   */
  lemma EndingRuleMatches(rule: Rule, state: string)
    requires Considers(rule, state) && Effective(rule)
    ensures state != "" ==> (MatchesOnInboundOnly(rule) <==> forall answers: Field -> bool :: Matches(rule, state, answers))
    ensures state == "" && MatchesOnInboundOnly(rule) ==> forall answers: Field -> bool :: !Matches(rule, state, answers)
  {
    if state != "" && !MatchesOnInboundOnly(rule) {
      var f :| f in rule.fields && f in CONDITIONS;
      assert !Matches(rule, state, _ => false);
    }
  }

  /**
   A rule that ends the walk at the empty tag hides everything after it: the check takes no trip from that tag as possible,
   yet routing passes the rule over, and a default outbound that feeds the tag brings the connection back to it for ever.
   */
  lemma EmptyTagEscapes(r: Routing, i: nat)
    requires i < |r.rules| && MatchesOnInboundOnly(r.rules[i]) && "" in r.rules[i].inboundTags
    requires forall j, s :: 0 <= j <= i && Considers(r.rules[j], "") ==> !RuleFeeds(r, r.rules[j], s)
    ensures forall s :: !MayFeed(r, "", s)
    ensures HandlerFeeds(r, r.def, "") && NoMatch(r, "", NOTHING_HOLDS) ==> Returns(r, "", "") && !LoopFree(r)
  {
    forall s ensures !MayFeed(r, "", s) { FeedsNothingFrom(r, i, 0, s); }
    if HandlerFeeds(r, r.def, "") && NoMatch(r, "", NOTHING_HOLDS) {
      assert DispatchesTo(r, "", r.def.value);
      assert Returns(r, "", "");
      assert IsTrip(r, ["", ""]);
      assert !Distinct(["", ""]) by { assert ["", ""][0] == ["", ""][1]; }
    }
  }

  lemma {:induction false} FeedsNothingFrom(r: Routing, i: nat, j: nat, s: string)
    requires j <= i < |r.rules| && MatchesOnInboundOnly(r.rules[i]) && "" in r.rules[i].inboundTags
    requires forall k :: 0 <= k <= i && Considers(r.rules[k], "") ==> !RuleFeeds(r, r.rules[k], s)
    ensures !MayFeedFrom(r, "", j, s)
    decreases i - j
  {
    if j < i { FeedsNothingFrom(r, i, j + 1, s); }
  }

  const UNTAGGED_FEED := Handler("lo", true, "", Some(""), false)
  const EMPTY_TAG_RULE := Rule("", "elsewhere", None, [""], {InboundTag, Tag})
  const EMPTY_TAG_ROUTING :=
    Routing([EMPTY_TAG_RULE], map[], map[], map["lo" := UNTAGGED_FEED], Some(UNTAGGED_FEED))

  lemma EmptyTagExample()
    ensures Consistent(EMPTY_TAG_ROUTING) && !EmptyTagOk(EMPTY_TAG_ROUTING)
    ensures forall s :: !MayFeed(EMPTY_TAG_ROUTING, "", s)
    ensures Returns(EMPTY_TAG_ROUTING, "", "") && !LoopFree(EMPTY_TAG_ROUTING)
  {
    EmptyTagRule();
    NoBalancers();
    forall s ensures !MayFeed(EMPTY_TAG_ROUTING, "", s) { EmptyTagFeedsNothing(s); }
    assert FeedsAt(EMPTY_TAG_ROUTING.byTag, UNTAGGED_FEED, 0, "");
    assert EMPTY_TAG_ROUTING.rules[0] == EMPTY_TAG_RULE;
    EmptyTagEscapes(EMPTY_TAG_ROUTING, 0);
  }

  lemma NoBalancers()
    ensures Publishable(map[])
  {
    var g := GraphOf(map[]);
    assert forall p :: IsCycle(g, p) ==> Step(g, p[0], p[1]);
  }

  lemma EmptyTagFeedsNothing(s: string)
    ensures !MayFeed(EMPTY_TAG_ROUTING, "", s)
  {
    EmptyTagRule();
    assert EMPTY_TAG_ROUTING.rules[0] == EMPTY_TAG_RULE;
    assert !RuleFeeds(EMPTY_TAG_ROUTING, EMPTY_TAG_RULE, s);
  }

  lemma EmptyTagRule()
    ensures "" in EMPTY_TAG_RULE.inboundTags && MatchesOnInboundOnly(EMPTY_TAG_RULE)
  {
    assert EMPTY_TAG_RULE.inboundTags[0] == "";
  }

  // Clearing an override.

  /** The routing with fewer overrides: those left are as they were. */
  ghost predicate FewerOverrides(r: Routing, less: Routing) {
    && less == r.(overrides := less.overrides)
    && forall t :: OverrideOf(less.overrides, t) == "" || OverrideOf(less.overrides, t) == OverrideOf(r.overrides, t)
  }

  lemma FewerRuleFeeds(r: Routing, less: Routing, rule: Rule, s: string)
    requires FewerOverrides(r, less) && RuleFeeds(less, rule, s)
    ensures RuleFeeds(r, rule, s)
  {
    if rule.balancer.Some? {
      var t :| t in less.balancers && Reaches(PickGraph(less.balancers), rule.balancer.value.tag, t) &&
        LevelFeeds(less, less.balancers[t], s);
      var b := less.balancers[t];
      var h :| LevelLeads(less, b, h) && Feeds(less.byTag, h, s);
      assert LevelLeads(r, b, h);
    }
  }

  /** Clearing overrides only takes edges away. */
  lemma {:induction false} FewerMayFeed(r: Routing, less: Routing, state: string, i: nat, s: string)
    requires FewerOverrides(r, less) && i <= |less.rules| && MayFeedFrom(less, state, i, s)
    ensures MayFeedFrom(r, state, i, s)
    decreases |less.rules| - i
  {
    if i < |less.rules| {
      if Considers(less.rules[i], state) && RuleFeeds(less, less.rules[i], s) {
        FewerRuleFeeds(r, less, less.rules[i], s);
      } else {
        FewerMayFeed(r, less, state, i + 1, s);
      }
    }
  }

  lemma ClearingIsSafe(r: Routing, less: Routing, handlers: seq<Handler>)
    requires FewerOverrides(r, less) && NoFeedCycle(r, handlers)
    ensures NoFeedCycle(less, handlers)
  {
    forall p | FeedCycle(less, States(handlers), p) ensures false {
      forall k | 0 <= k < |p| - 1 ensures MayFeed(r, p[k], p[k + 1]) { FewerMayFeed(r, less, p[k], 0, p[k + 1]); }
      assert FeedCycle(r, States(handlers), p);
    }
  }
}
