/**
 Whole runs of a router: changes of the routing, accepted or refused, with picks on rules of any age between them
 (app/router/router.go, balancing.go and fallback_chain.go).
 */
module RoutingRuns {
  import opened Options
  import opened BalancerGraph
  import opened FallbackChain
  import opened LoopbackLoops
  import opened PublishedRouting

  // On values.

  /** A rule that was published, and how often everything had been replaced until then. */
  datatype Known = Known(rule: Rule, generation: nat)

  /** How many of n calls have replaced everything. */
  ghost function Generation(calls: seq<Call>, n: nat): nat
    requires n <= |calls|
  {
    if n == 0 then 0
    else Generation(calls, n - 1) + if Replaces(AfterAll(calls, n - 1), calls[n - 1]) then 1 else 0
  }

  ghost predicate Replaces(v: View, c: Call) {
    Publishes(v, c) && !c.shouldAppend
  }

  ghost function KnownIn(rules: seq<Rule>, generation: nat): (known: seq<Known>)
    ensures |known| == |rules| && forall i :: 0 <= i < |known| ==> known[i] == Known(rules[i], generation)
  {
    seq(|rules|, i requires 0 <= i < |rules| => Known(rules[i], generation))
  }

  /** All rules that n calls have published, those that are gone included. */
  ghost function EverKnown(calls: seq<Call>, n: nat): seq<Known>
    requires n <= |calls|
  {
    if n == 0 then []
    else
      EverKnown(calls, n - 1) +
      if Publishes(AfterAll(calls, n - 1), calls[n - 1]) then KnownIn(AfterAll(calls, n).rules, Generation(calls, n)) else []
  }

  /** The newest map of a generation. */
  ghost function LastMap(calls: seq<Call>, n: nat, generation: nat): Balancers
    requires n <= |calls|
  {
    if Generation(calls, n) == generation then AfterAll(calls, n).balancers
    else if n == 0 then map[]
    else LastMap(calls, n - 1, generation)
  }

  /** The overrides of the newest map of a generation. */
  ghost function LastOverrides(calls: seq<Call>, n: nat, generation: nat): map<string, string>
    requires n <= |calls|
  {
    if Generation(calls, n) == generation then AfterAll(calls, n).overrides
    else if n == 0 then map[]
    else LastOverrides(calls, n - 1, generation)
  }

  /** The route is what a pick on the rule resolves to on the map. */
  ghost predicate Resolves(rule: Rule, m: Balancers, turns: nat -> Turn, route: Route) {
    if rule.balancer.None? then route == ToOutbound(rule.tag)
    else exists chain :: ResolvesBy(rule.balancer.value, m, turns, chain, route)
  }

  ghost predicate ResolvesBy(b: Balancer, m: Balancers, turns: nat -> Turn, chain: seq<string>, route: Route) {
    && IsChain(m, b, turns, chain)
    && var last := LevelAt(m, b, chain, |chain|);
       NextLevel(m, last, turns(|chain|)) == None && route == Outcome(last, turns(|chain|))
  }

  /** What call i answers: a pick on a rule ever published resolves on the newest map of the rule's generation. */
  ghost predicate Answers(calls: seq<Call>, i: nat, route: Option<Route>)
    requires i < |calls|
  {
    var known := EverKnown(calls, i);
    if calls[i].Pick? && calls[i].which < |known| then
      var k := known[calls[i].which];
      route.Some? && route.value != RouteDropped && Resolves(k.rule, LastMap(calls, i, k.generation), calls[i].turns, route.value)
    else route == None
  }

  /** What the calls so far have led to. */
  ghost predicate Follows(calls: seq<Call>, n: nat, views: seq<View>, routes: seq<Option<Route>>)
    requires n <= |calls|
  {
    && |views| == n + 1 && |routes| == n
    && (forall i :: 0 <= i <= n ==> views[i] == AfterAll(calls, i))
    && (forall i :: 0 <= i < n ==> Answers(calls, i, routes[i]))
  }

  lemma FollowsNext(calls: seq<Call>, n: nat, views: seq<View>, routes: seq<Option<Route>>, v: View, route: Option<Route>)
    requires n < |calls| && Follows(calls, n, views, routes) && v == AfterAll(calls, n + 1) && Answers(calls, n, route)
    ensures Follows(calls, n + 1, views + [v], routes + [route])
  {
  }

  lemma FollowsPublishable(calls: seq<Call>, views: seq<View>, routes: seq<Option<Route>>)
    requires Follows(calls, |calls|, views, routes)
    ensures forall i :: 0 <= i < |views| ==> Publishable(views[i].balancers)
  {
    forall i | 0 <= i < |views| ensures Publishable(views[i].balancers) { AllGood(calls, i); }
  }

  // On objects.

  lemma NewestOnce(published: seq<BalancerMap>, b: BalancerObject, i: nat, j: nat)
    requires NewestWith(published, b, i) && NewestWith(published, b, j)
    ensures i == j
  {
  }

  /** m takes the place of the current map: in append mode it keeps all of it, and everything else in it is new. */
  ghost predicate Follower(current: BalancerMap, everyone: set<BalancerObject>, append: bool, m: BalancerMap) {
    && (append ==> forall t :: t in current ==> t in m && m[t] == current[t])
    && (forall b :: b in m.Values ==> (append && b in current.Values) || b !in everyone)
  }

  /** ends has for every generation where its newest map is among the published ones. */
  ghost predicate Ends(published: seq<BalancerMap>, ends: seq<nat>) {
    && ends != [] && ends[|ends| - 1] == |published| - 1
    && forall g :: 0 <= g < |ends| - 1 ==> ends[g] < |published| - 1
  }

  /** The balancer of a rule is in the newest map of its generation and in none after. */
  ghost predicate DatedAt(published: seq<BalancerMap>, ends: seq<nat>, rule: RuleObject, k: Known) {
    && AsRule(rule) == k.rule && k.generation < |ends|
    && (rule.balancer.Some? ==> NewestWith(published, rule.balancer.value, ends[k.generation]))
  }

  ghost predicate Dated(published: seq<BalancerMap>, ends: seq<nat>, ever: seq<RuleObject>, known: seq<Known>) {
    |ever| == |known| && forall i :: 0 <= i < |ever| ==> DatedAt(published, ends, ever[i], known[i])
  }

  ghost function EndsAfter(published: seq<BalancerMap>, ends: seq<nat>, append: bool): seq<nat>
    requires ends != []
  {
    if append then ends[|ends| - 1 := |published|] else ends + [|published|]
  }

  lemma {:induction false} NewestLater(published: seq<BalancerMap>, ends: seq<nat>, append: bool, everyone: set<BalancerObject>,
                                       m: BalancerMap, b: BalancerObject, g: nat)
    requires published != [] && TagsAgree(published[|published| - 1]) && Ends(published, ends) && g < |ends|
    requires Follower(published[|published| - 1], everyone, append, m) && b in everyone
    requires NewestWith(published, b, ends[g])
    ensures NewestWith(published + [m], b, EndsAfter(published, ends, append)[g])
  {
    var current, longer := published[|published| - 1], published + [m];
    assert longer[|published|] == m && forall i :: 0 <= i < |published| ==> longer[i] == published[i];
    if append && g == |ends| - 1 {
      assert Holds(m, b);
    } else {
      assert !Holds(m, b) by {
        assert Holds(m, b) ==> b in m.Values;
        if g < |ends| - 1 { assert !Holds(published[|published| - 1], b); }
      }
    }
  }

  lemma DatedAtReload(published: seq<BalancerMap>, ends: seq<nat>, append: bool, everyone: set<BalancerObject>, m: BalancerMap,
                      rule: RuleObject, k: Known)
    requires published != [] && TagsAgree(published[|published| - 1]) && Ends(published, ends)
    requires Follower(published[|published| - 1], everyone, append, m) && DatedAt(published, ends, rule, k)
    requires rule.balancer.Some? ==> rule.balancer.value in everyone
    ensures DatedAt(published + [m], EndsAfter(published, ends, append), rule, k)
  {
    if rule.balancer.Some? { NewestLater(published, ends, append, everyone, m, rule.balancer.value, k.generation); }
  }

  lemma DatedNew(published: seq<BalancerMap>, ends: seq<nat>, append: bool, m: BalancerMap, rules: seq<RuleObject>, i: nat)
    requires ends != [] && GoodRules(rules, m) && i < |rules|
    ensures var ends' := EndsAfter(published, ends, append);
      DatedAt(published + [m], ends', rules[i], Known(AsRules(rules)[i], |ends'| - 1))
  {
    assert (published + [m])[|published|] == m;
    if rules[i].balancer.Some? { assert Holds(m, rules[i].balancer.value); }
  }

  lemma DatedReload(published: seq<BalancerMap>, ends: seq<nat>, append: bool, everyone: set<BalancerObject>, m: BalancerMap,
                    ever: seq<RuleObject>, known: seq<Known>, rules: seq<RuleObject>)
    requires published != [] && TagsAgree(published[|published| - 1]) && Ends(published, ends)
    requires Follower(published[|published| - 1], everyone, append, m) && Dated(published, ends, ever, known)
    requires AllKnown(ever, everyone) && GoodRules(rules, m)
    ensures var ends' := EndsAfter(published, ends, append);
      && Ends(published + [m], ends')
      && Dated(published + [m], ends', ever + rules, known + KnownIn(AsRules(rules), |ends'| - 1))
  {
    var ends' := EndsAfter(published, ends, append);
    var more := known + KnownIn(AsRules(rules), |ends'| - 1);
    forall i | 0 <= i < |ever + rules| ensures DatedAt(published + [m], ends', (ever + rules)[i], more[i]) {
      if i < |ever| {
        DatedAtReload(published, ends, append, everyone, m, ever[i], known[i]);
      } else {
        DatedNew(published, ends, append, m, rules, i - |ever|);
      }
    }
  }

  ghost predicate AllKnown(rules: seq<RuleObject>, everyone: set<BalancerObject>) {
    forall i :: 0 <= i < |rules| && rules[i].balancer.Some? ==> rules[i].balancer.value in everyone
  }

  /** The newest map of every generation is what the calls have led to in it. */
  ghost predicate MapsAt(published: seq<BalancerMap>, ends: seq<nat>, calls: seq<Call>, n: nat)
    requires n <= |calls|
  {
    && Ends(published, ends) && |ends| == Generation(calls, n) + 1
    && forall g :: 0 <= g < |ends| ==> ends[g] < |published| && CfgOf(published[ends[g]]) == LastMap(calls, n, g)
  }

  lemma MapsAfterReload(published: seq<BalancerMap>, ends: seq<nat>, calls: seq<Call>, n: nat, m: BalancerMap)
    requires n < |calls| && MapsAt(published, ends, calls, n) && Publishes(AfterAll(calls, n), calls[n])
    requires CfgOf(m) == AfterAll(calls, n + 1).balancers
    ensures MapsAt(published + [m], EndsAfter(published, ends, calls[n].shouldAppend), calls, n + 1)
  {
    var longer, ends' := published + [m], EndsAfter(published, ends, calls[n].shouldAppend);
    assert longer[|published|] == m && forall i :: 0 <= i < |published| ==> longer[i] == published[i];
    forall g | 0 <= g < |ends'| ensures ends'[g] < |longer| && CfgOf(longer[ends'[g]]) == LastMap(calls, n + 1, g) {
      if g < |ends'| - 1 { assert ends'[g] == ends[g]; }
    }
  }

  lemma MapsAfterOther(published: seq<BalancerMap>, ends: seq<nat>, calls: seq<Call>, n: nat)
    requires n < |calls| && MapsAt(published, ends, calls, n) && !Publishes(AfterAll(calls, n), calls[n])
    ensures MapsAt(published, ends, calls, n + 1)
  {
    assert AfterAll(calls, n + 1).balancers == AfterAll(calls, n).balancers;
    forall g | 0 <= g < |ends| ensures LastMap(calls, n + 1, g) == LastMap(calls, n, g) {}
  }

  ghost function OverridesOf(everyone: set<BalancerObject>): map<BalancerObject, string>
    reads everyone`override
  {
    map b | b in everyone :: b.override
  }

  /** A call other than one that sets an override keeps all overrides, and that one keeps those outside the current map. */
  ghost predicate SameBut(before: map<BalancerObject, string>, now: map<BalancerObject, string>, sets: bool,
                          current: set<BalancerObject>)
  {
    forall b :: b in before && !(sets && b in current) ==> b in now && now[b] == before[b]
  }

  /** One call; the balancer of a published rule stays known however the routing changes after it. */
  method Serve(r: Router, c: Call, ever: seq<RuleObject>) returns (ever': seq<RuleObject>, route: Option<Route>, ghost at: nat)
    requires r.Valid() && HandlersOk(c) && AllKnown(ever, r.everyone)
    modifies r, r.everyone
    ensures r.Valid() && old(r.everyone) <= r.everyone && fresh(r.everyone - old(r.everyone)) && AllKnown(ever', r.everyone)
    ensures r.Now() == After(old(r.Now()), c)
    ensures if Publishes(old(r.Now()), c)
      then r.published == old(r.published) + [r.balancers] && ever' == ever + r.rules &&
           Follower(old(r.balancers), old(r.everyone), c.shouldAppend, r.balancers)
      else r.published == old(r.published) && ever' == ever
    ensures route.Some? <==> c.Pick? && c.which < |ever|
    ensures route.Some? ==> PicksOn(r.published, ever[c.which], c.turns, route.value, at)
    ensures SameBut(old(OverridesOf(r.everyone)), OverridesOf(r.everyone), c.Override?, old(r.balancers.Values))
  {
    ever', route, at := ever, None, 0;
    match c
    case Reload(config, shouldAppend, hs) =>
      ever' := ServeReload(r, config, shouldAppend, hs, ever);
    case Remove(_, _) =>
      ServeChange(r, c);
    case Override(_, _, _) =>
      ServeChange(r, c);
    case Pick(which, turns) =>
      if which < |ever| {
        var answer;
        answer, at := ServePick(r, ever[which], turns);
        route := Some(answer);
      }
  }

  /** A call that changes the rules or an override in place. */
  method ServeChange(r: Router, c: Call)
    requires r.Valid() && HandlersOk(c) && (c.Remove? || c.Override?)
    modifies r`rules, r.everyone`override
    ensures r.Valid() && r.Now() == After(old(r.Now()), c)
    ensures SameBut(old(OverridesOf(r.everyone)), OverridesOf(r.everyone), c.Override?, old(r.balancers.Values))
  {
    CurrentIsGood(r.published, r.everyone, r.balancers);
    match c
    case Remove(tag, hs) =>
      var ok := r.RemoveRule(tag, hs);
    case Override(tag, target, hs) =>
      var ok := r.SetOverrideTarget(tag, target, hs);
  }

  /** The pick is resolved on the newest published map with the rule's balancer. */
  ghost predicate PicksOn(published: seq<BalancerMap>, rule: RuleObject, turns: nat -> Turn, route: Route, at: nat) {
    && route != RouteDropped && at < |published| && Resolves(AsRule(rule), CfgOf(published[at]), turns, route)
    && (rule.balancer.Some? ==> NewestWith(published, rule.balancer.value, at))
  }

  method ServePick(r: Router, rule: RuleObject, turns: nat -> Turn) returns (route: Route, ghost at: nat)
    requires r.Valid() && (rule.balancer.Some? ==> rule.balancer.value in r.everyone)
    ensures PicksOn(r.published, rule, turns, route, at)
  {
    ghost var m, chain;
    route, m, chain := r.PickTag(rule, turns);
    at := 0;
    if rule.balancer.Some? {
      at :| NewestWith(r.published, rule.balancer.value, at) && m == r.published[at];
      assert ResolvesBy(rule.balancer.value.cfg, CfgOf(m), turns, chain, route);
    }
  }

  method ServeReload(r: Router, config: Config, shouldAppend: bool, hs: Handlers, ever: seq<RuleObject>)
    returns (ever': seq<RuleObject>)
    requires r.Valid() && (hs.def.Some? ==> hs.def.value in hs.all) && AllKnown(ever, r.everyone)
    modifies r, r.everyone`peers
    ensures r.Valid() && old(r.everyone) <= r.everyone && fresh(r.everyone - old(r.everyone)) && AllKnown(ever', r.everyone)
    ensures if MayReload(old(r.Now()), config, shouldAppend, hs)
      then r.Now() == Reloaded(old(r.Now()), config, shouldAppend) &&
           r.published == old(r.published) + [r.balancers] && ever' == ever + r.rules &&
           Follower(old(r.balancers), old(r.everyone), shouldAppend, r.balancers)
      else r.Now() == old(r.Now()) && r.published == old(r.published) && ever' == ever
    ensures SameBut(old(OverridesOf(r.everyone)), OverridesOf(r.everyone), false, {})
  {
    ever' := ever;
    CurrentIsGood(r.published, r.everyone, r.balancers);
    var ok := r.ReloadRules(config, shouldAppend, hs);
    if ok {
      CurrentIsGood(r.published, r.everyone, r.balancers);
      ever' := ever + r.rules;
    }
  }

  /** The published maps and all rules ever published are where n calls have led to. */
  ghost predicate Keeping(calls: seq<Call>, n: nat, published: seq<BalancerMap>, everyone: set<BalancerObject>, ends: seq<nat>,
                          ever: seq<RuleObject>)
    requires n <= |calls|
  {
    MapsAt(published, ends, calls, n) && AllKnown(ever, everyone) && Dated(published, ends, ever, EverKnown(calls, n))
  }

  lemma KeepsAfterReload(calls: seq<Call>, n: nat, published: seq<BalancerMap>, everyone: set<BalancerObject>, ends: seq<nat>,
                         ever: seq<RuleObject>, m: BalancerMap, rules: seq<RuleObject>, everyone': set<BalancerObject>)
    requires n < |calls| && Keeping(calls, n, published, everyone, ends, ever) && Publishes(AfterAll(calls, n), calls[n])
    requires published != [] && TagsAgree(published[|published| - 1]) && GoodRules(rules, m)
    requires Follower(published[|published| - 1], everyone, calls[n].shouldAppend, m) && AllKnown(ever + rules, everyone')
    requires CfgOf(m) == AfterAll(calls, n + 1).balancers && AsRules(rules) == AfterAll(calls, n + 1).rules
    ensures Keeping(calls, n + 1, published + [m], everyone', EndsAfter(published, ends, calls[n].shouldAppend), ever + rules)
  {
    MapsAfterReload(published, ends, calls, n, m);
    DatedReload(published, ends, calls[n].shouldAppend, everyone, m, ever, EverKnown(calls, n), rules);
  }

  /** A pick on the newest map with the rule's balancer is one on the newest map of the rule's generation. */
  lemma PickAnswers(calls: seq<Call>, n: nat, published: seq<BalancerMap>, everyone: set<BalancerObject>, ends: seq<nat>,
                    ever: seq<RuleObject>, route: Route, at: nat)
    requires n < |calls| && Keeping(calls, n, published, everyone, ends, ever) && calls[n].Pick? && calls[n].which < |ever|
    requires PicksOn(published, ever[calls[n].which], calls[n].turns, route, at)
    ensures Answers(calls, n, Some(route))
  {
    var rule, k := ever[calls[n].which], EverKnown(calls, n)[calls[n].which];
    assert DatedAt(published, ends, rule, k);
    if rule.balancer.Some? { NewestOnce(published, rule.balancer.value, at, ends[k.generation]); }
  }

  /** The router is where n calls have led to. */
  ghost predicate Serving(r: Router, calls: seq<Call>, n: nat, ends: seq<nat>, ever: seq<RuleObject>)
    requires n <= |calls|
    reads r, r.everyone, r.balancers.Values
  {
    && r.Valid() && r.Now() == AfterAll(calls, n) && Keeping(calls, n, r.published, r.everyone, ends, ever)
    && Apart(r.published, ends, r.everyone)
    && OverridesAt(r.published, ends, calls, n, OverridesOf(r.everyone))
  }

  /** No balancer of an older generation is in the current map. */
  ghost predicate Apart(published: seq<BalancerMap>, ends: seq<nat>, everyone: set<BalancerObject>) {
    forall g, b {:trigger HeldAt(published, ends, g, b)} ::
      0 <= g < |ends| - 1 && b in everyone && HeldAt(published, ends, g, b) ==> b !in published[|published| - 1].Values
  }

  ghost predicate HeldAt(published: seq<BalancerMap>, ends: seq<nat>, g: nat, b: BalancerObject) {
    g < |ends| && ends[g] < |published| && Holds(published[ends[g]], b)
  }

  /** Every balancer of the newest map of a generation has the override that the calls have led to in it. */
  ghost predicate OverridesAt(published: seq<BalancerMap>, ends: seq<nat>, calls: seq<Call>, n: nat,
                              overrides: map<BalancerObject, string>)
    requires n <= |calls|
  {
    forall g, b {:trigger HeldAt(published, ends, g, b)} ::
      0 <= g < |ends| && b in overrides && HeldAt(published, ends, g, b) ==>
        Has(LastOverrides(calls, n, g), b.cfg.tag, overrides[b])
  }

  ghost predicate Has(overrides: map<string, string>, tag: string, target: string) {
    tag in overrides && overrides[tag] == target
  }

  /** One call, with what it does to the published maps and to the overrides. */
  method ServeKeeping(r: Router, calls: seq<Call>, n: nat, ghost ends: seq<nat>, ever: seq<RuleObject>)
    returns (ghost ends': seq<nat>, ever': seq<RuleObject>, route: Option<Route>)
    requires n < |calls| && HandlersOk(calls[n])
    requires r.Valid() && r.Now() == AfterAll(calls, n) && Keeping(calls, n, r.published, r.everyone, ends, ever)
    modifies r, r.everyone
    ensures r.Valid() && r.Now() == AfterAll(calls, n + 1) && Keeping(calls, n + 1, r.published, r.everyone, ends', ever')
    ensures fresh(r.everyone - old(r.everyone)) && Answers(calls, n, route)
    ensures Moved(old(r.published), old(r.everyone), ends, r.published, ends', calls, n)
    ensures SameBut(old(OverridesOf(r.everyone)), OverridesOf(r.everyone), calls[n].Override?, old(r.balancers.Values))
  {
    CurrentIsGood(r.published, r.everyone, r.balancers);
    ghost var published, everyone, at := r.published, r.everyone, 0;
    ever', route, at := Serve(r, calls[n], ever);
    ends' := ends;
    if Publishes(AfterAll(calls, n), calls[n]) {
      ends' := EndsAfter(published, ends, calls[n].shouldAppend);
      KeepsAfterReload(calls, n, published, everyone, ends, ever, r.balancers, r.rules, r.everyone);
    } else {
      MapsAfterOther(published, ends, calls, n);
    }
    if route.Some? { PickAnswers(calls, n, published, everyone, ends, ever, route.value, at); }
  }

  method ServeNext(r: Router, calls: seq<Call>, n: nat, ghost ends: seq<nat>, ever: seq<RuleObject>)
    returns (ghost ends': seq<nat>, ever': seq<RuleObject>, route: Option<Route>)
    requires n < |calls| && HandlersOk(calls[n]) && Serving(r, calls, n, ends, ever)
    modifies r, r.everyone
    ensures Serving(r, calls, n + 1, ends', ever') && fresh(r.everyone - old(r.everyone))
    ensures Answers(calls, n, route)
  {
    ghost var published, everyone, was := r.published, r.everyone, OverridesOf(r.everyone);
    ends', ever', route := ServeKeeping(r, calls, n, ends, ever);
    CurrentOverrides(r.rules, r.balancers, r.everyone);
    OverridesNext(published, everyone, ends, was, r.published, r.everyone, ends', OverridesOf(r.everyone), calls, n);
  }

  lemma CurrentOverrides(rules: seq<RuleObject>, m: BalancerMap, everyone: set<BalancerObject>)
    ensures forall b :: b in everyone && Holds(m, b) ==>
      Has(ViewOf(rules, m).overrides, b.cfg.tag, OverridesOf(everyone)[b])
  {
  }

  /** What the newest maps of the generations become by one call. */
  ghost predicate Moved(published: seq<BalancerMap>, everyone: set<BalancerObject>, ends: seq<nat>, published': seq<BalancerMap>,
                        ends': seq<nat>, calls: seq<Call>, n: nat)
    requires n < |calls|
  {
    && Ends(published, ends) && published != []
    && if Publishes(AfterAll(calls, n), calls[n]) then
         && |published'| == |published| + 1 && published'[..|published|] == published
         && ends' == EndsAfter(published, ends, calls[n].shouldAppend)
         && Follower(published[|published| - 1], everyone, calls[n].shouldAppend, published'[|published|])
       else published' == published && ends' == ends
  }

  lemma HeldBefore(published: seq<BalancerMap>, everyone: set<BalancerObject>, ends: seq<nat>, published': seq<BalancerMap>,
                   ends': seq<nat>, calls: seq<Call>, n: nat, g: nat, b: BalancerObject)
    requires n < |calls| && Moved(published, everyone, ends, published', ends', calls, n)
    requires g < |ends'| - 1 && HeldAt(published', ends', g, b)
    ensures g < |ends| && HeldAt(published, ends, g, b)
  {
    if Publishes(AfterAll(calls, n), calls[n]) { assert ends'[g] == ends[g] < |published|; }
  }

  lemma StillApart(published: seq<BalancerMap>, everyone: set<BalancerObject>, ends: seq<nat>, published': seq<BalancerMap>,
                   everyone': set<BalancerObject>, ends': seq<nat>, calls: seq<Call>, n: nat)
    requires n < |calls| && Moved(published, everyone, ends, published', ends', calls, n) && Apart(published, ends, everyone)
    requires forall i :: 0 <= i < |published| ==> published[i].Values <= everyone
    ensures Apart(published', ends', everyone')
  {
    forall g, b | 0 <= g < |ends'| - 1 && b in everyone' && HeldAt(published', ends', g, b)
      ensures b !in published'[|published'| - 1].Values
    {
      HeldBefore(published, everyone, ends, published', ends', calls, n, g, b);
      assert b in published[ends[g]].Values;
    }
  }

  lemma OverridesStay(published: seq<BalancerMap>, everyone: set<BalancerObject>, ends: seq<nat>,
                      overrides: map<BalancerObject, string>, published': seq<BalancerMap>, ends': seq<nat>,
                      overrides': map<BalancerObject, string>, calls: seq<Call>, n: nat)
    requires n < |calls| && Moved(published, everyone, ends, published', ends', calls, n)
    requires |ends'| == Generation(calls, n + 1) + 1 && |ends| == Generation(calls, n) + 1 && Apart(published, ends, everyone)
    requires OverridesAt(published, ends, calls, n, overrides) && overrides.Keys == everyone
    requires forall i :: 0 <= i < |published| ==> published[i].Values <= everyone
    requires SameBut(overrides, overrides', calls[n].Override?, published[|published| - 1].Values)
    requires forall b :: b in overrides' && Holds(published'[|published'| - 1], b) ==>
      Has(AfterAll(calls, n + 1).overrides, b.cfg.tag, overrides'[b])
    ensures OverridesAt(published', ends', calls, n + 1, overrides')
  {
    forall g, b | 0 <= g < |ends'| && b in overrides' && HeldAt(published', ends', g, b)
      ensures Has(LastOverrides(calls, n + 1, g), b.cfg.tag, overrides'[b])
    {
      if g < |ends'| - 1 {
        HeldBefore(published, everyone, ends, published', ends', calls, n, g, b);
        assert b in published[ends[g]].Values;
      }
    }
  }

  lemma OverridesNext(published: seq<BalancerMap>, everyone: set<BalancerObject>, ends: seq<nat>,
                      overrides: map<BalancerObject, string>, published': seq<BalancerMap>, everyone': set<BalancerObject>,
                      ends': seq<nat>, overrides': map<BalancerObject, string>, calls: seq<Call>, n: nat)
    requires n < |calls| && Moved(published, everyone, ends, published', ends', calls, n)
    requires |ends'| == Generation(calls, n + 1) + 1 && |ends| == Generation(calls, n) + 1 && Apart(published, ends, everyone)
    requires OverridesAt(published, ends, calls, n, overrides) && overrides.Keys == everyone
    requires forall i :: 0 <= i < |published| ==> published[i].Values <= everyone
    requires SameBut(overrides, overrides', calls[n].Override?, published[|published| - 1].Values)
    requires forall b :: b in overrides' && Holds(published'[|published'| - 1], b) ==>
      Has(AfterAll(calls, n + 1).overrides, b.cfg.tag, overrides'[b])
    ensures Apart(published', ends', everyone') && OverridesAt(published', ends', calls, n + 1, overrides')
  {
    StillApart(published, everyone, ends, published', everyone', ends', calls, n);
    OverridesStay(published, everyone, ends, overrides, published', ends', overrides', calls, n);
  }

  method Start(calls: seq<Call>) returns (r: Router)
    ensures fresh(r) && fresh(r.everyone) && Serving(r, calls, 0, [0], [])
  {
    r := new Router();
    assert ViewOf(r.rules, r.balancers) == NOTHING;
  }

  /** The calls from n on. */
  method ServeFrom(r: Router, calls: seq<Call>, n: nat, ghost ends: seq<nat>, ever: seq<RuleObject>, views: seq<View>,
                   routes: seq<Option<Route>>)
    returns (views': seq<View>, routes': seq<Option<Route>>)
    requires n <= |calls| && forall i :: 0 <= i < |calls| ==> HandlersOk(calls[i])
    requires Serving(r, calls, n, ends, ever) && Follows(calls, n, views, routes)
    modifies r, r.everyone
    ensures Follows(calls, |calls|, views', routes')
    decreases |calls| - n
  {
    if n == |calls| { return views, routes; }
    ghost var ends';
    var ever';
    ends', ever', views', routes' := ServeTurn(r, calls, n, ends, ever, views, routes);
    views', routes' := ServeFrom(r, calls, n + 1, ends', ever', views', routes');
  }

  method ServeEach(calls: seq<Call>) returns (views: seq<View>, routes: seq<Option<Route>>)
    requires forall i :: 0 <= i < |calls| ==> HandlersOk(calls[i])
    ensures Follows(calls, |calls|, views, routes)
  {
    var r := Start(calls);
    views, routes := ServeFrom(r, calls, 0, [0], [], [NOTHING], []);
  }

  /** One call after the others. */
  method ServeTurn(r: Router, calls: seq<Call>, n: nat, ghost ends: seq<nat>, ever: seq<RuleObject>, views: seq<View>,
                   routes: seq<Option<Route>>)
    returns (ghost ends': seq<nat>, ever': seq<RuleObject>, views': seq<View>, routes': seq<Option<Route>>)
    requires n < |calls| && HandlersOk(calls[n]) && Serving(r, calls, n, ends, ever) && Follows(calls, n, views, routes)
    modifies r, r.everyone
    ensures Serving(r, calls, n + 1, ends', ever') && fresh(r.everyone - old(r.everyone))
    ensures Follows(calls, n + 1, views', routes')
  {
    var route;
    ends', ever', route := ServeNext(r, calls, n, ends, ever);
    var v := ViewOf(r.rules, r.balancers);
    FollowsNext(calls, n, views, routes, v, route);
    views', routes' := views + [v], routes + [route];
  }

  /**
   Any run: after every call there is published what the calls ask for, every map that was ever published is publishable,
   and every pick on a rule ever published resolves, without being dropped, on the newest map that its balancer is in.
   */
  method ServeAll(calls: seq<Call>) returns (views: seq<View>, routes: seq<Option<Route>>)
    requires forall i :: 0 <= i < |calls| ==> HandlersOk(calls[i])
    ensures Follows(calls, |calls|, views, routes)
    ensures forall i :: 0 <= i < |views| ==> Publishable(views[i].balancers)
  {
    views, routes := ServeEach(calls);
    FollowsPublishable(calls, views, routes);
  }
}
