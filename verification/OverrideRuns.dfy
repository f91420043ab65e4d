/**
 What an override is worth over a whole run of a router (app/router/balancing.go, SetOverrideTarget and pick): from the
 call that sets it until one that changes it, every pick that arrives at its balancer goes to the target.
 */
module OverrideRuns {
  import opened Options
  import opened BalancerGraph
  import opened FallbackChain
  import opened LoopbackLoops
  import opened PublishedRouting
  import opened RoutingRuns

  /** No override names a member of its balancer. */
  ghost predicate NoMembers(v: View) {
    forall t :: t in v.overrides && v.overrides[t] != "" ==> t in v.balancers && v.overrides[t] !in v.balancers[t].members
  }

  lemma NoMembersAfter(v: View, c: Call)
    requires GoodView(v) && NoMembers(v)
    ensures NoMembers(After(v, c))
  {
    match c
    case Reload(config, shouldAppend, hs) =>
      if MayReload(v, config, shouldAppend, hs) {
        NothingIsGood();
        WithBalancersKeeps((if shouldAppend then v else NOTHING).balancers, config.balancing);
      }
    case Remove(tag, hs) =>
    case Override(tag, target, hs) =>
      if MayOverride(v, tag, target, hs) {
        assert forall x :: x in v.balancers[tag].members ==> x in v.balancers;
      }
    case Pick(_, _) =>
  }

  lemma {:induction false} NeverMembers(calls: seq<Call>, n: nat)
    requires n <= |calls|
    ensures NoMembers(AfterAll(calls, n))
  {
    if n > 0 {
      AllGood(calls, n - 1);
      NeverMembers(calls, n - 1);
      NoMembersAfter(AfterAll(calls, n - 1), calls[n - 1]);
    }
  }

  lemma {:induction false} GenerationsGrow(calls: seq<Call>, n: nat, k: nat)
    requires n <= k <= |calls|
    ensures Generation(calls, n) <= Generation(calls, k)
    decreases k
  {
    if n < k { GenerationsGrow(calls, n, k - 1); }
  }

  /** The newest map of a generation and its overrides were published together. */
  lemma {:induction false} LastAt(calls: seq<Call>, n: nat, g: nat) returns (j: nat)
    requires n <= |calls| && g <= Generation(calls, n)
    ensures j <= n && Generation(calls, j) == g
    ensures LastMap(calls, n, g) == AfterAll(calls, j).balancers && LastOverrides(calls, n, g) == AfterAll(calls, j).overrides
  {
    j := n;
    if Generation(calls, n) != g { j := LastAt(calls, n - 1, g); }
  }

  lemma StillThere(v: View, c: Call)
    requires GoodView(v) && !Replaces(v, c)
    ensures forall t :: t in v.balancers ==> t in After(v, c).balancers && After(v, c).balancers[t] == v.balancers[t]
  {
    if c.Reload? && MayReload(v, c.config, c.shouldAppend, c.hs) { WithBalancersKeeps(v.balancers, c.config.balancing); }
  }

  /** The balancer of a rule ever published is in the newest map of the rule's generation. */
  lemma {:induction false} KnownIsThere(calls: seq<Call>, n: nat, i: nat)
    requires n <= |calls| && i < |EverKnown(calls, n)|
    ensures var k := EverKnown(calls, n)[i];
      && k.generation <= Generation(calls, n)
      && (k.rule.balancer.Some? ==> InMap(k.rule.balancer.value, LastMap(calls, n, k.generation)))
  {
    if i < |EverKnown(calls, n - 1)| {
      var k := EverKnown(calls, n - 1)[i];
      KnownIsThere(calls, n - 1, i);
      AllGood(calls, n - 1);
      if Generation(calls, n) == k.generation { StillThere(AfterAll(calls, n - 1), calls[n - 1]); }
    } else {
      AllGood(calls, n);
      var rules := AfterAll(calls, n).rules;
      assert EverKnown(calls, n)[i] == Known(rules[i - |EverKnown(calls, n - 1)|], Generation(calls, n));
    }
  }

  ghost predicate InMap(b: Balancer, m: Balancers) {
    b.tag in m && m[b.tag] == b
  }

  /** A level of a pick on a known rule, and the override it has by the calls so far. */
  ghost predicate ArrivesAt(calls: seq<Call>, n: nat, chain: seq<string>, route: Route, i: nat, override: string)
    requires n < |calls|
  {
    && calls[n].Pick? && calls[n].which < |EverKnown(calls, n)| && i <= |chain|
    && var k := EverKnown(calls, n)[calls[n].which];
       var m := LastMap(calls, n, k.generation);
       && k.rule.balancer.Some? && ResolvesBy(k.rule.balancer.value, m, calls[n].turns, chain, route)
       && var level := LevelAt(m, k.rule.balancer.value, chain, i);
          CanSelect(level, calls[n].turns(i)) && Has(LastOverrides(calls, n, k.generation), level.tag, override)
  }


  /** A pick that arrives at a balancer with an override, and reads it, ends there and goes to its target. */
  lemma PickHonors(calls: seq<Call>, n: nat, chain: seq<string>, route: Route, i: nat, target: string)
    requires n < |calls| && target != "" && ArrivesAt(calls, n, chain, route, i, target) && calls[n].turns(i).override == target
    ensures i == |chain| && route == ToOutbound(target)
  {
    var k := EverKnown(calls, n)[calls[n].which];
    var m, first := LastMap(calls, n, k.generation), k.rule.balancer.value;
    KnownIsThere(calls, n, calls[n].which);
    var j := LastAt(calls, n, k.generation);
    NeverMembers(calls, j);
    AllGood(calls, j);
    var level := LevelAt(m, first, chain, i);
    assert m[level.tag] == level;
    ChainObeys(m, first, calls[n].turns, chain, route);
    OverrideEnds(m, first, calls[n].turns, chain, route, i);
  }

  /** The call is an accepted change of the override of tag. */
  ghost predicate Sets(v: View, c: Call, tag: string) {
    c.Override? && c.tag == tag && MayOverride(v, tag, c.target, c.hs)
  }

  /** No call from n up to k changes the override of tag. */
  ghost predicate NotSet(calls: seq<Call>, n: nat, k: nat, tag: string)
    requires k <= |calls|
  {
    forall j {:trigger Sets(AfterAll(calls, j), calls[j], tag)} :: n <= j < k ==> !Sets(AfterAll(calls, j), calls[j], tag)
  }

  lemma KeptByCall(v: View, c: Call, tag: string, target: string)
    requires GoodView(v) && Has(v.overrides, tag, target) && !Replaces(v, c) && !Sets(v, c, tag)
    ensures Has(After(v, c).overrides, tag, target)
  {
    StillThere(v, c);
  }

  lemma StandsNext(calls: seq<Call>, n: nat, g: nat, tag: string, target: string)
    requires n < |calls| && g <= Generation(calls, n) && Has(LastOverrides(calls, n, g), tag, target)
    requires !Sets(AfterAll(calls, n), calls[n], tag)
    ensures Has(LastOverrides(calls, n + 1, g), tag, target)
  {
    AllGood(calls, n);
    if Generation(calls, n + 1) == g { KeptByCall(AfterAll(calls, n), calls[n], tag, target); }
  }

  lemma JustSet(calls: seq<Call>, n: nat, tag: string)
    requires n < |calls| && Sets(AfterAll(calls, n), calls[n], tag)
    ensures Has(LastOverrides(calls, n + 1, Generation(calls, n)), tag, calls[n].target)
  {
    assert Generation(calls, n + 1) == Generation(calls, n);
    assert AfterAll(calls, n + 1) == Overridden(AfterAll(calls, n), tag, calls[n].target);
  }

  lemma {:induction false} Stands(calls: seq<Call>, n: nat, k: nat, g: nat, tag: string, target: string)
    requires n <= k <= |calls| && g <= Generation(calls, n) && Has(LastOverrides(calls, n, g), tag, target)
    requires NotSet(calls, n, k, tag)
    ensures Has(LastOverrides(calls, k, g), tag, target)
    decreases k
  {
    if n < k {
      Stands(calls, n, k - 1, g, tag, target);
      GenerationsGrow(calls, n, k - 1);
      StandsNext(calls, k - 1, g, tag, target);
    }
  }

  /**
   An override that was set stands until it is changed: in the newest map of its generation, which stays what it is for the
   rules of that generation when everything has been replaced.
   */
  lemma OverrideStands(calls: seq<Call>, n: nat, k: nat, tag: string)
    requires n < k <= |calls| && Sets(AfterAll(calls, n), calls[n], tag)
    requires NotSet(calls, n + 1, k, tag)
    ensures Has(LastOverrides(calls, k, Generation(calls, n)), tag, calls[n].target)
  {
    JustSet(calls, n, tag);
    GenerationsGrow(calls, n, n + 1);
    Stands(calls, n + 1, k, Generation(calls, n), tag, calls[n].target);
  }

  /**
   After an accepted SetOverrideTarget, until it is changed, every pick of a rule of that time that arrives at the balancer,
   and reads its override as it is, goes to the target.
   */
  lemma OverrideRules(calls: seq<Call>, n: nat, k: nat, tag: string, chain: seq<string>, route: Route, i: nat)
    requires n < k < |calls| && Sets(AfterAll(calls, n), calls[n], tag) && calls[n].target != ""
    requires NotSet(calls, n + 1, k, tag)
    requires calls[k].Pick? && calls[k].which < |EverKnown(calls, k)| && i <= |chain|
    requires var known := EverKnown(calls, k)[calls[k].which];
      var m := LastMap(calls, k, Generation(calls, n));
      && known.generation == Generation(calls, n) && known.rule.balancer.Some?
      && ResolvesBy(known.rule.balancer.value, m, calls[k].turns, chain, route)
      && var level := LevelAt(m, known.rule.balancer.value, chain, i);
         && level.tag == tag && CanSelect(level, calls[k].turns(i))
         && calls[k].turns(i).override == OverrideOf(LastOverrides(calls, k, Generation(calls, n)), tag)
    ensures i == |chain| && route == ToOutbound(calls[n].target)
  {
    OverrideStands(calls, n, k, tag);
    PickHonors(calls, k, chain, route, i, calls[n].target);
  }
}
