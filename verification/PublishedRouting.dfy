/**
 The rules and balancers a router publishes, and the changes it accepts or refuses (app/router/router.go, reloadRules
 and RemoveRule; app/router/balancing.go, SetOverrideTarget; app/router/fallback_chain.go, pickTag).
 */
module PublishedRouting {
  import opened Options
  import opened StringOrder
  import opened Digraphs
  import opened BalancerGraph
  import opened FallbackChain
  import opened LoopbackLoops
  import opened ObservedMembers

  /** A balancer object: its configuration, its override, and the newest published map that contains it. */
  class BalancerObject {
    const cfg: Balancer
    var override: string
    var peers: Option<map<string, BalancerObject>>

    constructor (cfg: Balancer)
      ensures this.cfg == cfg && override == "" && peers == None
    {
      this.cfg, override, peers := cfg, "", None;
    }
  }

  type BalancerMap = map<string, BalancerObject>

  datatype RuleObject = RuleObject(ruleTag: string, tag: string, balancer: Option<BalancerObject>,
                                   inboundTags: seq<string>, fields: set<Field>)

  /** One balancing rule of a configuration; builds is false when its strategy settings are refused. */
  datatype BalancingRule = BalancingRule(cfg: Balancer, builds: bool)

  /** One rule of a configuration; builds is false when its condition or its webhook is refused. */
  datatype RoutingRule = RoutingRule(ruleTag: string, tag: string, balancingTag: string, inboundTags: seq<string>,
                                     fields: set<Field>, builds: bool)

  datatype Config = Config(balancing: seq<BalancingRule>, rules: seq<RoutingRule>)

  /**
   What a change is checked against: whether there is a guard, whether the start check has run, whether a script replaces
   the rules, the handlers, and what is observed.
   */
  datatype Handlers = Handlers(guarded: bool, started: bool, scripted: bool, all: seq<Handler>, def: Option<Handler>,
                               observes: string -> bool)

  // The changes on values.

  /** What is published: rules, balancers and the override of each. */
  datatype View = View(rules: seq<Rule>, balancers: Balancers, overrides: map<string, string>)

  function RoutingOf(v: View, hs: Handlers): Routing {
    Routing(v.rules, v.balancers, v.overrides, ByTag(hs.all), hs.def)
  }

  ghost predicate OwnTags(m: Balancers) {
    forall t :: t in m ==> m[t].tag == t
  }

  /** Every map entry is filed under its own tag, the map may be published, and the rules name balancers of it. */
  ghost predicate GoodView(v: View) {
    && Publishable(v.balancers) && OwnTags(v.balancers)
    && v.overrides.Keys == v.balancers.Keys
    && forall i :: 0 <= i < |v.rules| && v.rules[i].balancer.Some? ==>
         var b := v.rules[i].balancer.value; b.tag in v.balancers && v.balancers[b.tag] == b
  }

  /** guardRouting accepts a change that leads to v. */
  ghost predicate Accepts(v: View, hs: Handlers) {
    hs.guarded ==>
      && (hs.started ==> MembersObserved(v.balancers, hs.all, hs.observes))
      && (hs.scripted || NoFeedCycle(RoutingOf(v, hs), hs.all))
  }

  /** Routing by the rules cannot loop (unless a loopback and a rule share the empty inbound tag). */
  ghost predicate Safe(v: View, hs: Handlers) {
    Sound(RoutingOf(v, hs), hs.all) ==> LoopFree(RoutingOf(v, hs))
  }

  /** What a guarded change is judged by: the rules, balancers and overrides that it leads to, and the handlers there are. */
  lemma JudgedBy(v: View, hs: Handlers)
    ensures var r := Routing(v.rules, v.balancers, v.overrides, ByTag(hs.all), hs.def);
      && (Safe(v, hs) <==> (Sound(r, hs.all) ==> LoopFree(r)))
      && (hs.guarded && !hs.scripted && Accepts(v, hs) ==> NoFeedCycle(r, hs.all))
  {
  }

  lemma NoCycleIsSafe(v: View, hs: Handlers)
    requires GoodView(v) && (hs.def.Some? ==> hs.def.value in hs.all) && NoFeedCycle(RoutingOf(v, hs), hs.all)
    ensures Safe(v, hs)
  {
    var r := RoutingOf(v, hs);
    assert Consistent(r);
    if Sound(r, hs.all) { AcceptedIsLoopFree(r, hs.all); }
  }

  /** Every balancing rule builds, and no tag is there twice. */
  ghost predicate BuildsBalancers(kept: set<string>, balancing: seq<BalancingRule>) {
    forall i :: 0 <= i < |balancing| ==>
      && balancing[i].builds && balancing[i].cfg.tag !in kept
      && forall j :: 0 <= j < i ==> balancing[j].cfg.tag != balancing[i].cfg.tag
  }

  ghost function WithBalancers(kept: Balancers, balancing: seq<BalancingRule>): Balancers {
    if balancing == [] then kept
    else
      var n := |balancing| - 1;
      WithBalancers(kept, balancing[..n])[balancing[n].cfg.tag := balancing[n].cfg]
  }

  ghost predicate NewTag(kept: seq<Rule>, config: seq<RoutingRule>, i: nat)
    requires i < |config|
  {
    && (forall k :: 0 <= k < |kept| ==> kept[k].ruleTag != config[i].ruleTag)
    && (forall j :: 0 <= j < i ==> config[j].ruleTag != config[i].ruleTag)
  }

  /** Every rule builds, its tag is empty or new, and the balancer it names is there. */
  ghost predicate BuildsRules(kept: seq<Rule>, config: seq<RoutingRule>, tags: set<string>) {
    forall i :: 0 <= i < |config| ==> RuleBuilds(kept, config, tags, i)
  }

  ghost predicate RuleBuilds(kept: seq<Rule>, config: seq<RoutingRule>, tags: set<string>, i: nat)
    requires i < |config|
  {
    && config[i].builds && (config[i].ruleTag == "" || NewTag(kept, config, i))
    && (config[i].balancingTag == "" || config[i].balancingTag in tags)
  }

  /** Whether a rule builds does not depend on those after it. */
  lemma RuleBuildsAlone(kept: seq<Rule>, config: seq<RoutingRule>, tags: set<string>, i: nat, n: nat)
    requires i < n <= |config|
    ensures RuleBuilds(kept, config[..n], tags, i) <==> RuleBuilds(kept, config, tags, i)
  {
    assert forall j :: 0 <= j < n ==> config[..n][j] == config[j];
  }

  ghost function NewRule(c: RoutingRule, m: Balancers): Rule {
    Rule(c.ruleTag, c.tag, if c.balancingTag == "" then None else Find(m, c.balancingTag), c.inboundTags, c.fields)
  }

  ghost function NewRules(config: seq<RoutingRule>, m: Balancers): (rs: seq<Rule>)
    ensures |rs| == |config| && forall i :: 0 <= i < |rs| ==> rs[i] == NewRule(config[i], m)
  {
    seq(|config|, i requires 0 <= i < |config| => NewRule(config[i], m))
  }

  const NOTHING := View([], map[], map[])

  ghost function OverridesFor(m: Balancers, overrides: map<string, string>): map<string, string> {
    map t | t in m :: if t in overrides then overrides[t] else ""
  }

  /** What a configuration asks for: on top of what there is in append mode, in its place otherwise. */
  ghost function Reloaded(v: View, config: Config, shouldAppend: bool): View {
    var kept := if shouldAppend then v else NOTHING;
    var m := WithBalancers(kept.balancers, config.balancing);
    View(kept.rules + NewRules(config.rules, m), m, OverridesFor(m, kept.overrides))
  }

  /** Everything the configuration asks for can be built. */
  ghost predicate Builds(kept: View, config: Config) {
    && BuildsBalancers(kept.balancers.Keys, config.balancing)
    && BuildsRules(kept.rules, config.rules, WithBalancers(kept.balancers, config.balancing).Keys)
  }

  ghost predicate MayReload(v: View, config: Config, shouldAppend: bool, hs: Handlers) {
    && Builds(if shouldAppend then v else NOTHING, config)
    && Publishable(Reloaded(v, config, shouldAppend).balancers) && Accepts(Reloaded(v, config, shouldAppend), hs)
  }

  ghost function WithoutTag(rules: seq<Rule>, tag: string): seq<Rule> {
    if rules == [] then []
    else
      var n := |rules| - 1;
      WithoutTag(rules[..n], tag) + if rules[n].ruleTag != tag then [rules[n]] else []
  }

  ghost function Removed(v: View, tag: string): View {
    v.(rules := WithoutTag(v.rules, tag))
  }

  ghost predicate MayRemove(v: View, tag: string, hs: Handlers) {
    tag != "" && Accepts(Removed(v, tag), hs)
  }

  ghost function Overridden(v: View, tag: string, target: string): View {
    v.(overrides := v.overrides[tag := target])
  }

  /** A target is no balancer; clearing one needs no check. */
  ghost predicate MayOverride(v: View, tag: string, target: string, hs: Handlers) {
    tag in v.balancers && target !in v.balancers && (target != "" ==> Accepts(Overridden(v, tag, target), hs))
  }

  lemma {:induction false} WithBalancersKeeps(kept: Balancers, balancing: seq<BalancingRule>)
    requires OwnTags(kept) && BuildsBalancers(kept.Keys, balancing)
    ensures var m := WithBalancers(kept, balancing); OwnTags(m) && forall t :: t in kept ==> t in m && m[t] == kept[t]
  {
    if balancing != [] {
      var n := |balancing| - 1;
      assert BuildsBalancers(kept.Keys, balancing[..n]);
      WithBalancersKeeps(kept, balancing[..n]);
      var last := balancing[n].cfg;
      assert OwnTags(WithBalancers(kept, balancing[..n])[last.tag := last]);
    }
  }

  lemma NewRulesAreGood(kept: View, config: seq<RoutingRule>, m: Balancers, i: nat)
    requires GoodView(kept) && OwnTags(m) && (forall t :: t in kept.balancers ==> t in m && m[t] == kept.balancers[t])
    requires i < |kept.rules + NewRules(config, m)|
    ensures var b := (kept.rules + NewRules(config, m))[i].balancer;
      b.Some? ==> b.value.tag in m && m[b.value.tag] == b.value
  {
    if i >= |kept.rules| { assert (kept.rules + NewRules(config, m))[i] == NewRule(config[i - |kept.rules|], m); }
  }

  lemma ReloadedIsGood(v: View, config: Config, shouldAppend: bool, hs: Handlers)
    requires GoodView(v) && MayReload(v, config, shouldAppend, hs)
    ensures GoodView(Reloaded(v, config, shouldAppend))
  {
    NothingIsGood();
    var kept := if shouldAppend then v else NOTHING;
    WithBalancersKeeps(kept.balancers, config.balancing);
    var m := WithBalancers(kept.balancers, config.balancing);
    forall i | 0 <= i < |kept.rules + NewRules(config.rules, m)|
      ensures var b := (kept.rules + NewRules(config.rules, m))[i].balancer;
        b.Some? ==> b.value.tag in m && m[b.value.tag] == b.value
    {
      NewRulesAreGood(kept, config.rules, m, i);
    }
  }

  lemma {:induction false} WithoutIsSome(rules: seq<Rule>, tag: string)
    ensures forall x :: x in WithoutTag(rules, tag) <==> x in rules && x.ruleTag != tag
  {
    if rules != [] {
      var n := |rules| - 1;
      WithoutIsSome(rules[..n], tag);
      assert rules == rules[..n] + [rules[n]];
    }
  }

  lemma RemovedIsGood(v: View, tag: string)
    requires GoodView(v)
    ensures GoodView(Removed(v, tag))
  {
    WithoutIsSome(v.rules, tag);
    var rs := WithoutTag(v.rules, tag);
    forall i | 0 <= i < |rs| && rs[i].balancer.Some?
      ensures var b := rs[i].balancer.value; b.tag in v.balancers && v.balancers[b.tag] == b
    {
      assert rs[i] in rs;
      var k :| 0 <= k < |v.rules| && v.rules[k] == rs[i];
    }
  }

  /** checkLoopbacks on what is about to be published. */
  method CheckView(v: View, hs: Handlers) returns (ok: bool)
    requires GoodView(v) && (hs.def.Some? ==> hs.def.value in hs.all)
    ensures ok <==> NoFeedCycle(RoutingOf(v, hs), hs.all)
    ensures ok ==> Safe(v, hs)
  {
    var r := RoutingOf(v, hs);
    assert Consistent(r);
    var cycles, _ := CheckLoopbacks(r, hs.all);
    ok := cycles == [];
  }

  // The changes on objects.

  function CfgOf(m: BalancerMap): Balancers {
    map t | t in m :: m[t].cfg
  }

  function AsRule(rule: RuleObject): Rule {
    Rule(rule.ruleTag, rule.tag, if rule.balancer.Some? then Some(rule.balancer.value.cfg) else None,
         rule.inboundTags, rule.fields)
  }

  function AsRules(rules: seq<RuleObject>): (rs: seq<Rule>)
    ensures |rs| == |rules| && forall i :: 0 <= i < |rs| ==> rs[i] == AsRule(rules[i])
  {
    seq(|rules|, i requires 0 <= i < |rules| => AsRule(rules[i]))
  }

  /** The overrides of a map's balancers, with those about to be set in their place. */
  function Overrides(m: BalancerMap, pending: map<string, string>): map<string, string>
    reads m.Values`override
  {
    map t | t in m :: if t in pending then pending[t] else m[t].override
  }

  function ViewOf(rules: seq<RuleObject>, m: BalancerMap): View
    reads m.Values`override
  {
    View(AsRules(rules), CfgOf(m), Overrides(m, map[]))
  }

  /** Every map entry is filed under its own tag, and the map may be published. */
  ghost predicate GoodMap(m: BalancerMap) {
    Publishable(CfgOf(m)) && TagsAgree(m)
  }

  ghost predicate GoodRules(rules: seq<RuleObject>, m: BalancerMap) {
    forall i :: 0 <= i < |rules| && rules[i].balancer.Some? ==>
      var b := rules[i].balancer.value; b.cfg.tag in m && m[b.cfg.tag] == b
  }

  lemma GoodIsGoodView(rules: seq<RuleObject>, m: BalancerMap, overrides: map<string, string>)
    requires GoodMap(m) && GoodRules(rules, m) && overrides.Keys == m.Keys
    ensures GoodView(View(AsRules(rules), CfgOf(m), overrides))
  {}

  /** guardRouting: the observation check, once started, and the loopback check on a change about to be published. */
  method Guard(rules: seq<RuleObject>, m: BalancerMap, pending: map<string, string>, hs: Handlers) returns (ok: bool)
    requires GoodMap(m) && GoodRules(rules, m) && (hs.def.Some? ==> hs.def.value in hs.all)
    ensures ok <==> Accepts(View(AsRules(rules), CfgOf(m), Overrides(m, pending)), hs)
    ensures ok && hs.guarded && !hs.scripted ==> Safe(View(AsRules(rules), CfgOf(m), Overrides(m, pending)), hs)
  {
    if !hs.guarded { return true; }
    if hs.started {
      ok := CheckMemberObservation(CfgOf(m), hs.all, hs.observes);
      if !ok { return; }
    }
    if hs.scripted { return true; }
    GoodIsGoodView(rules, m, Overrides(m, pending));
    ok := CheckView(View(AsRules(rules), CfgOf(m), Overrides(m, pending)), hs);
  }

  ghost predicate TagsAgree(m: BalancerMap) {
    forall t :: t in m ==> m[t].cfg.tag == t
  }

  /** The two checks on what is about to be published. */
  method Check(rules: seq<RuleObject>, m: BalancerMap, hs: Handlers) returns (ok: bool)
    requires TagsAgree(m) && GoodRules(rules, m) && (hs.def.Some? ==> hs.def.value in hs.all)
    ensures ok <==> Publishable(CfgOf(m)) && Accepts(ViewOf(rules, m), hs)
    ensures ok && hs.guarded && !hs.scripted ==> Safe(ViewOf(rules, m), hs)
  {
    var err := CheckBalancerGraph(CfgOf(m));
    if err.Some? { return false; }
    ok := Guard(rules, m, map[], hs);
  }

  /** m holds the balancers kept, and one built for each balancing rule, no tag twice. */
  ghost predicate BalancersAsked(balancing: seq<BalancingRule>, kept: BalancerMap, m: BalancerMap) {
    && (forall t :: t in kept ==> t in m && m[t] == kept[t])
    && (forall i :: 0 <= i < |balancing| ==>
          var cfg := balancing[i].cfg; balancing[i].builds && cfg.tag !in kept && cfg.tag in m && m[cfg.tag].cfg == cfg)
    && (forall t :: t in m && t !in kept ==> exists i :: 0 <= i < |balancing| && balancing[i].cfg.tag == t)
  }

  lemma NextBalancerAsked(balancing: seq<BalancingRule>, i: nat, kept: BalancerMap, m: BalancerMap, b: BalancerObject)
    requires i < |balancing| && BalancersAsked(balancing[..i], kept, m)
    requires balancing[i].builds && balancing[i].cfg.tag !in m && b.cfg == balancing[i].cfg
    ensures BalancersAsked(balancing[..i + 1], kept, m[b.cfg.tag := b])
  {
    var longer, m' := balancing[..i + 1], m[b.cfg.tag := b];
    assert forall k :: 0 <= k < i ==> longer[k] == balancing[..i][k];
    forall t | t in m' && t !in kept ensures exists k :: 0 <= k < |longer| && longer[k].cfg.tag == t {
      if t == b.cfg.tag {
        assert longer[i].cfg.tag == t;
      } else {
        var k :| 0 <= k < i && balancing[..i][k].cfg.tag == t;
        assert longer[k].cfg.tag == t;
      }
    }
  }

  /** rule is what the configuration asks for on map m. */
  ghost predicate Built(c: RoutingRule, m: BalancerMap, rule: RuleObject) {
    && c.builds && rule.ruleTag == c.ruleTag && rule.tag == c.tag
    && rule.inboundTags == c.inboundTags && rule.fields == c.fields
    && rule.balancer == (if c.balancingTag == "" then None else Find(m, c.balancingTag))
    && (c.balancingTag != "" ==> c.balancingTag in m)
  }

  /** The rules kept, then one for each rule of the configuration. */
  ghost predicate RulesAsked(config: seq<RoutingRule>, kept: seq<RuleObject>, m: BalancerMap, all: seq<RuleObject>) {
    && |all| == |kept| + |config| && kept <= all
    && (forall i :: 0 <= i < |config| ==> Built(config[i], m, all[|kept| + i]))
  }

  /** What a configuration asks for: on top of the old map and rules in append mode, in their place otherwise. */
  ghost predicate Asked(config: Config, shouldAppend: bool, oldMap: BalancerMap, oldRules: seq<RuleObject>,
                        m: BalancerMap, all: seq<RuleObject>)
  {
    && BalancersAsked(config.balancing, if shouldAppend then oldMap else map[], m)
    && RulesAsked(config.rules, if shouldAppend then oldRules else [], m, all)
  }

  lemma MembersInMap(m: BalancerMap, tag: string)
    requires GoodMap(m) && tag in m
    ensures forall x :: x in m[tag].cfg.members ==> x in m
  {
    var cfgs := CfgOf(m);
    assert cfgs.Keys == m.Keys && cfgs[tag] == m[tag].cfg;
    forall x | x in m[tag].cfg.members ensures x in m { assert x in cfgs[tag].members; }
  }

  /** m files b under its tag. */
  ghost predicate Holds(m: BalancerMap, b: BalancerObject) {
    b.cfg.tag in m && m[b.cfg.tag] == b
  }

  /** i is the newest of the published maps with b in it. */
  ghost predicate NewestWith(published: seq<BalancerMap>, b: BalancerObject, i: nat) {
    && i < |published| && Holds(published[i], b)
    && forall j :: i < j < |published| ==> !Holds(published[j], b)
  }

  ghost predicate HeldBySome(published: seq<BalancerMap>, b: BalancerObject) {
    exists i :: 0 <= i < |published| && Holds(published[i], b)
  }

  lemma {:induction false} NewestExists(published: seq<BalancerMap>, b: BalancerObject) returns (i: nat)
    requires HeldBySome(published, b)
    ensures NewestWith(published, b, i)
  {
    var n := |published| - 1;
    if Holds(published[n], b) {
      i := n;
    } else {
      var k :| 0 <= k < |published| && Holds(published[k], b);
      assert Holds(published[..n][k], b);
      i := NewestExists(published[..n], b);
      assert forall j :: 0 <= j < n ==> published[..n][j] == published[j];
    }
  }

  lemma NewestAfter(published: seq<BalancerMap>, m: BalancerMap, b: BalancerObject, i: nat)
    requires NewestWith(published + [m], b, i)
    ensures if Holds(m, b) then i == |published| else NewestWith(published, b, i)
  {
    var longer := published + [m];
    assert longer[|published|] == m;
    assert forall j :: 0 <= j < |published| ==> longer[j] == published[j];
    if i < |published| { assert !Holds(longer[|published|], b); }
  }

  /** The published maps, the current one last, are all good, and everyone is who is in one of them. */
  ghost predicate History(published: seq<BalancerMap>, everyone: set<BalancerObject>, current: BalancerMap) {
    && |published| > 0 && published[|published| - 1] == current
    && (forall i {:trigger GoodMap(published[i])} :: 0 <= i < |published| ==> GoodMap(published[i]))
    && (forall i {:trigger published[i].Values} :: 0 <= i < |published| ==> published[i].Values <= everyone)
    && (forall b {:trigger HeldBySome(published, b)} :: b in everyone ==> HeldBySome(published, b))
  }

  lemma CurrentIsGood(published: seq<BalancerMap>, everyone: set<BalancerObject>, current: BalancerMap)
    requires History(published, everyone, current)
    ensures GoodMap(current) && current.Values <= everyone
  {
    assert GoodMap(published[|published| - 1]) && published[|published| - 1].Values <= everyone;
  }

  lemma HistoryGrows(published: seq<BalancerMap>, everyone: set<BalancerObject>, current: BalancerMap, m: BalancerMap)
    requires History(published, everyone, current) && GoodMap(m)
    ensures History(published + [m], everyone + m.Values, m)
  {
    var longer := published + [m];
    forall b | b in everyone + m.Values ensures HeldBySome(longer, b) {
      if b in m.Values {
        assert Holds(longer[|published|], b);
      } else {
        assert HeldBySome(published, b);
        var k :| 0 <= k < |published| && Holds(published[k], b);
        assert Holds(longer[k], b);
      }
    }
  }

  /** Each balancer's peers is the newest published map that contains it. */
  ghost predicate PeersNewest(published: seq<BalancerMap>, everyone: set<BalancerObject>)
    reads everyone`peers
  {
    forall b, i: nat {:trigger NewestWith(published, b, i)} ::
      b in everyone && NewestWith(published, b, i) ==> b.peers == Some(published[i])
  }

  /** No override names a member of its balancer, so an override result ends the chain. */
  ghost predicate OverridesNoMember(everyone: set<BalancerObject>)
    reads everyone`override
  {
    forall b :: b in everyone ==> b.override == "" || b.override !in b.cfg.members
  }

  /** Hands every balancer of the map about to be published that map. */
  method HandOut(ghost published: seq<BalancerMap>, ghost everyone: set<BalancerObject>, m: BalancerMap)
    requires PeersNewest(published, everyone) && TagsAgree(m)
    modifies m.Values`peers
    ensures PeersNewest(published + [m], everyone + m.Values)
    ensures forall b :: b in m.Values ==> b.peers == Some(m)
  {
    var rest := m.Values;
    while rest != {}
      invariant rest <= m.Values && forall b :: b in m.Values - rest ==> b.peers == Some(m)
    {
      var b :| b in rest;
      b.peers := Some(m);
      rest := rest - {b};
    }
    forall b, i: nat | b in everyone + m.Values && NewestWith(published + [m], b, i)
      ensures b.peers == Some((published + [m])[i])
    {
      NewestAfter(published, m, b, i);
      if Holds(m, b) { assert b in m.Values; } else { assert b !in m.Values; }
    }
  }

  method PutOverride(m: BalancerMap, tag: string, target: string, ghost everyone: set<BalancerObject>)
    requires tag in m && TagsAgree(m) && m[tag] in everyone && OverridesNoMember(everyone) && target !in m[tag].cfg.members
    modifies {m[tag]}`override
    ensures OverridesNoMember(everyone) && m[tag].override == target
    ensures Overrides(m, map[]) == old(Overrides(m, map[tag := target]))
  {
    m[tag].override := target;
    assert forall t :: t in m && t != tag ==> m[t] != m[tag];
  }

  lemma {:induction false} WithoutAsRules(rules: seq<RuleObject>, tag: string)
    ensures AsRules(Router.Without(rules, tag)) == WithoutTag(AsRules(rules), tag)
  {
    if rules != [] {
      var n := |rules| - 1;
      WithoutAsRules(rules[..n], tag);
      assert AsRules(rules)[..n] == AsRules(rules[..n]);
      var last := if rules[n].ruleTag != tag then [rules[n]] else [];
      assert AsRules(Router.Without(rules[..n], tag) + last) == AsRules(Router.Without(rules[..n], tag)) + AsRules(last);
    }
  }

  /** One more balancer is built. */
  lemma NextWithBalancers(kept: BalancerMap, balancing: seq<BalancingRule>, i: nat, m: BalancerMap, b: BalancerObject)
    requires i < |balancing| && CfgOf(m) == WithBalancers(CfgOf(kept), balancing[..i]) && b.cfg == balancing[i].cfg
    ensures CfgOf(m[b.cfg.tag := b]) == WithBalancers(CfgOf(kept), balancing[..i + 1])
  {
    assert balancing[..i + 1][..i] == balancing[..i];
    assert CfgOf(m[b.cfg.tag := b]) == CfgOf(m)[b.cfg.tag := b.cfg];
  }

  lemma {:induction false} TagsWithBalancers(kept: Balancers, balancing: seq<BalancingRule>, t: string)
    ensures t in WithBalancers(kept, balancing) <==> t in kept || exists i :: 0 <= i < |balancing| && balancing[i].cfg.tag == t
  {
    if balancing != [] {
      var n := |balancing| - 1;
      TagsWithBalancers(kept, balancing[..n], t);
      assert forall i :: 0 <= i < n ==> balancing[..n][i] == balancing[i];
    }
  }

  lemma NextBuilds(kept: Balancers, balancing: seq<BalancingRule>, i: nat)
    requires i < |balancing| && BuildsBalancers(kept.Keys, balancing[..i])
    ensures BuildsBalancers(kept.Keys, balancing[..i + 1]) <==>
      balancing[i].builds && balancing[i].cfg.tag !in WithBalancers(kept, balancing[..i])
  {
    TagsWithBalancers(kept, balancing[..i], balancing[i].cfg.tag);
    var longer := balancing[..i + 1];
    assert longer[i] == balancing[i];
    assert forall k :: 0 <= k < i ==> longer[k] == balancing[..i][k];
  }

  lemma BuildsPrefix(kept: set<string>, balancing: seq<BalancingRule>, i: nat)
    requires i <= |balancing| && !BuildsBalancers(kept, balancing[..i])
    ensures !BuildsBalancers(kept, balancing)
  {
    assert forall k :: 0 <= k < i ==> balancing[..i][k] == balancing[k];
  }

  lemma NextBuildsRule(kept: seq<Rule>, config: seq<RoutingRule>, tags: set<string>, i: nat)
    requires i < |config| && BuildsRules(kept, config[..i], tags)
    ensures BuildsRules(kept, config[..i + 1], tags) <==>
      && config[i].builds && (config[i].ruleTag == "" || NewTag(kept, config, i))
      && (config[i].balancingTag == "" || config[i].balancingTag in tags)
  {
    var longer := config[..i + 1];
    RuleBuildsAlone(kept, config, tags, i, i + 1);
    forall k | 0 <= k < i ensures RuleBuilds(kept, longer, tags, k) {
      assert RuleBuilds(kept, config[..i], tags, k);
      RuleBuildsAlone(kept, config, tags, k, i);
      RuleBuildsAlone(kept, config, tags, k, i + 1);
    }
    if RuleBuilds(kept, config, tags, i) {
      forall k | 0 <= k < |longer| ensures RuleBuilds(kept, longer, tags, k) {}
      assert BuildsRules(kept, longer, tags);
    } else {
      assert !RuleBuilds(kept, longer, tags, i);
    }
  }

  lemma BuildsRulesPrefix(kept: seq<Rule>, config: seq<RoutingRule>, tags: set<string>, i: nat)
    requires i <= |config| && !BuildsRules(kept, config[..i], tags)
    ensures !BuildsRules(kept, config, tags)
  {
    var k :| 0 <= k < i && !RuleBuilds(kept, config[..i], tags, k);
    RuleBuildsAlone(kept, config, tags, k, i);
  }

  lemma NewOverrides(kept: BalancerMap, m: BalancerMap)
    requires forall t :: t in kept ==> t in m && m[t] == kept[t]
    requires forall t :: t in m && t !in kept ==> m[t].override == ""
    ensures Overrides(m, map[]) == OverridesFor(CfgOf(m), Overrides(kept, map[]))
  {
  }

  ghost predicate TagsSeen(kept: seq<RuleObject>, config: seq<RoutingRule>, i: nat, tags: set<string>)
    requires i <= |config|
  {
    forall t :: t in tags <==>
      (exists k :: 0 <= k < |kept| && kept[k].ruleTag == t) || (exists j :: 0 <= j < i && config[j].ruleTag == t)
  }

  lemma SeenIsOld(kept: seq<RuleObject>, config: seq<RoutingRule>, i: nat, tags: set<string>)
    requires i < |config| && TagsSeen(kept, config, i, tags)
    ensures config[i].ruleTag in tags <==> !NewTag(AsRules(kept), config, i)
    ensures TagsSeen(kept, config, i + 1, tags + {config[i].ruleTag})
  {
    assert forall k :: 0 <= k < |kept| ==> AsRules(kept)[k].ruleTag == kept[k].ruleTag;
  }

  lemma AskedIsReloaded(kept: seq<RuleObject>, config: seq<RoutingRule>, m: BalancerMap, all: seq<RuleObject>)
    requires RulesAsked(config, kept, m, all)
    ensures AsRules(all) == AsRules(kept) + NewRules(config, CfgOf(m))
  {
    forall i | 0 <= i < |config| ensures AsRule(all[|kept| + i]) == NewRule(config[i], CfgOf(m)) {
      assert Built(config[i], m, all[|kept| + i]);
    }
    forall i | 0 <= i < |all| ensures AsRules(all)[i] == (AsRules(kept) + NewRules(config, CfgOf(m)))[i] {
      if i >= |kept| { assert all[|kept| + (i - |kept|)] == all[i]; }
    }
  }

  /** The balancer object at level i of a chain. */
  ghost function LevelObject(m: BalancerMap, first: BalancerObject, chain: seq<string>, i: nat): BalancerObject
    requires i <= |chain| && forall k :: 0 <= k < |chain| ==> chain[k] in m
  {
    if i == 0 then first else m[chain[i - 1]]
  }

  /** A level that reads its own override, and can select, ends the pick with it. */
  ghost predicate HonorsOverride(b: BalancerObject, t: Turn, last: bool, route: Route)
    reads b`override
  {
    t.override == b.override != "" && CanSelect(b.cfg, t) ==> last && route == ToOutbound(b.override)
  }

  ghost predicate HonorsOverrides(m: BalancerMap, first: BalancerObject, turns: nat -> Turn, chain: seq<string>, route: Route)
    requires forall k :: 0 <= k < |chain| ==> chain[k] in m
    reads {first} + m.Values
  {
    forall i {:trigger turns(i)} :: 0 <= i <= |chain| ==>
      HonorsOverride(LevelObject(m, first, chain, i), turns(i), i == |chain|, route)
  }

  lemma OverridesHonored(m: BalancerMap, first: BalancerObject, everyone: set<BalancerObject>, turns: nat -> Turn,
                         chain: seq<string>, route: Route)
    requires Obeys(CfgOf(m), first.cfg, turns, chain, route)
    requires OverridesNoMember(everyone) && first in everyone && m.Values <= everyone
    ensures forall k :: 0 <= k < |chain| ==> chain[k] in m
    ensures HonorsOverrides(m, first, turns, chain, route)
  {
    forall i | 0 <= i <= |chain|
      ensures HonorsOverride(LevelObject(m, first, chain, i), turns(i), i == |chain|, route)
    {
      var b := LevelObject(m, first, chain, i);
      assert b.cfg == LevelAt(CfgOf(m), first.cfg, chain, i) && b in everyone;
      if turns(i).override == b.override != "" && CanSelect(b.cfg, turns(i)) {
        OverrideEnds(CfgOf(m), first.cfg, turns, chain, route, i);
      }
    }
  }

  class Router {
    var rules: seq<RuleObject>
    var balancers: BalancerMap
    /** Every map published so far, the current one last, and every balancer in one of them. */
    ghost var published: seq<BalancerMap>
    ghost var everyone: set<BalancerObject>

    ghost predicate Valid()
      reads this, everyone
    {
      && History(published, everyone, balancers) && GoodRules(rules, balancers)
      && PeersNewest(published, everyone) && OverridesNoMember(everyone)
    }

    /** What is published now. */
    ghost function Now(): View
      reads this, balancers.Values`override
    {
      ViewOf(rules, balancers)
    }

    constructor ()
      ensures Valid() && rules == [] && balancers == map[] && published == [map[]] && everyone == {}
    {
      rules, balancers, published, everyone := [], map[], [map[]], {};
      new;
      assert Publishable(CfgOf(map[])) by {
        var g := GraphOf(CfgOf(map[]));
        assert forall p :: IsCycle(g, p) ==> Step(g, p[0], p[1]);
      }
    }

    /** Builds the balancers of a configuration over those kept. */
    method BuildBalancers(kept: BalancerMap, balancing: seq<BalancingRule>) returns (ok: bool, m: BalancerMap)
      requires TagsAgree(kept)
      ensures ok <==> BuildsBalancers(kept.Keys, balancing)
      ensures ok ==> TagsAgree(m) && BalancersAsked(balancing, kept, m) && CfgOf(m) == WithBalancers(CfgOf(kept), balancing)
      ensures ok ==> forall t :: t in m && t !in kept ==> fresh(m[t]) && m[t].override == ""
    {
      m := kept;
      for i := 0 to |balancing|
        invariant TagsAgree(m) && BalancersAsked(balancing[..i], kept, m)
        invariant BuildsBalancers(kept.Keys, balancing[..i]) && CfgOf(m) == WithBalancers(CfgOf(kept), balancing[..i])
        invariant forall t :: t in m && t !in kept ==> fresh(m[t]) && m[t].override == ""
      {
        var rule := balancing[i];
        NextBuilds(CfgOf(kept), balancing, i);
        assert CfgOf(kept).Keys == kept.Keys && CfgOf(m).Keys == m.Keys;
        if rule.cfg.tag in m || !rule.builds {
          BuildsPrefix(kept.Keys, balancing, i + 1);
          return false, map[];
        }
        var b := new BalancerObject(rule.cfg);
        NextBalancerAsked(balancing, i, kept, m, b);
        NextWithBalancers(kept, balancing, i, m, b);
        m := m[rule.cfg.tag := b];
      }
      assert balancing[..|balancing|] == balancing;
      ok := true;
    }

    /** Builds the rules of a configuration after those kept. */
    method BuildRules(kept: seq<RuleObject>, m: BalancerMap, config: seq<RoutingRule>) returns (ok: bool, all: seq<RuleObject>)
      requires GoodRules(kept, m) && TagsAgree(m)
      ensures ok <==> BuildsRules(AsRules(kept), config, m.Keys)
      ensures ok ==> GoodRules(all, m) && RulesAsked(config, kept, m, all)
    {
      all := kept;
      var existTags := set r | r in kept :: r.ruleTag;
      for i := 0 to |config|
        invariant GoodRules(all, m) && RulesAsked(config[..i], kept, m, all) && BuildsRules(AsRules(kept), config[..i], m.Keys)
        invariant TagsSeen(kept, config, i, existTags)
      {
        var rule := config[i];
        NextBuildsRule(AsRules(kept), config, m.Keys, i);
        SeenIsOld(kept, config, i, existTags);
        if !rule.builds || (rule.ruleTag != "" && rule.ruleTag in existTags) ||
           (|rule.balancingTag| > 0 && rule.balancingTag !in m) {
          BuildsRulesPrefix(AsRules(kept), config, m.Keys, i + 1);
          return false, [];
        }
        existTags := existTags + {rule.ruleTag};
        var b := if |rule.balancingTag| > 0 then Some(m[rule.balancingTag]) else None;
        all := all + [RuleObject(rule.ruleTag, rule.tag, b, rule.inboundTags, rule.fields)];
      }
      assert config[..|config|] == config;
      ok := true;
    }

    /** Stores the new map in its balancers, then the map and the rules. */
    method Publish(all: seq<RuleObject>, m: BalancerMap)
      requires Valid() && GoodMap(m) && GoodRules(all, m)
      requires forall b :: b in m.Values ==> b in everyone || b.override == ""
      modifies this, m.Values`peers
      ensures Valid() && rules == all && balancers == m
      ensures published == old(published) + [m] && everyone == old(everyone) + m.Values
      ensures forall b :: b in m.Values ==> b.peers == Some(m)
    {
      HistoryGrows(published, everyone, balancers, m);
      HandOut(published, everyone, m);
      assert OverridesNoMember(everyone + m.Values);
      balancers, rules := m, all;
      published, everyone := published + [m], everyone + m.Values;
    }

    /** The part of reloadRules that builds. */
    method Build(config: Config, shouldAppend: bool) returns (ok: bool, m: BalancerMap, all: seq<RuleObject>)
      requires Valid()
      ensures ok <==> Builds(if shouldAppend then Now() else NOTHING, config)
      ensures ok ==> TagsAgree(m) && GoodRules(all, m) && Asked(config, shouldAppend, balancers, rules, m, all)
      ensures ok ==> forall b :: b in m.Values ==> (shouldAppend && b in balancers.Values) || (fresh(b) && b.override == "")
      ensures ok ==> ViewOf(all, m) == Reloaded(Now(), config, shouldAppend)
    {
      CurrentIsGood(published, everyone, balancers);
      all := [];
      var keptMap: BalancerMap, kept := if shouldAppend then balancers else map[], if shouldAppend then rules else [];
      ghost var keptView := if shouldAppend then Now() else NOTHING;
      assert keptView == ViewOf(kept, keptMap) && keptView.balancers.Keys == keptMap.Keys;
      ok, m := BuildBalancers(keptMap, config.balancing);
      if !ok { return; }
      assert CfgOf(m).Keys == m.Keys;
      ok, all := BuildRules(kept, m, config.rules);
      if !ok { return; }
      AskedIsReloaded(kept, config.rules, m, all);
      NewOverrides(keptMap, m);
    }

    /** Everything reloadRules does before it publishes. */
    method Prepare(config: Config, shouldAppend: bool, hs: Handlers)
      returns (ok: bool, m: BalancerMap, all: seq<RuleObject>)
      requires Valid() && (hs.def.Some? ==> hs.def.value in hs.all)
      ensures ok ==> GoodMap(m) && GoodRules(all, m) && Asked(config, shouldAppend, balancers, rules, m, all)
      ensures ok ==> forall b :: b in m.Values ==> (shouldAppend && b in balancers.Values) || (fresh(b) && b.override == "")
      ensures ok <==> MayReload(Now(), config, shouldAppend, hs)
      ensures ok ==> ViewOf(all, m) == Reloaded(Now(), config, shouldAppend)
      ensures ok && hs.guarded && !hs.scripted ==> Safe(ViewOf(all, m), hs)
    {
      ok, m, all := Build(config, shouldAppend);
      if ok { ok := Check(all, m, hs); }
    }

    /** reloadRules: nothing is published unless every check passes. */
    method ReloadRules(config: Config, shouldAppend: bool, hs: Handlers) returns (ok: bool)
      requires Valid() && (hs.def.Some? ==> hs.def.value in hs.all)
      modifies this, everyone`peers
      ensures Valid()
      ensures !ok ==> unchanged(this) && forall b :: b in old(everyone) ==> unchanged(b)
      ensures ok <==> MayReload(old(Now()), config, shouldAppend, hs)
      ensures ok ==> Now() == Reloaded(old(Now()), config, shouldAppend)
      ensures ok ==> published == old(published) + [balancers]
      ensures ok ==> Asked(config, shouldAppend, old(balancers), old(rules), balancers, rules)
      ensures ok ==> forall b :: b in balancers.Values ==> b.peers == Some(balancers)
      ensures ok ==> forall b :: b in old(everyone) && b !in balancers.Values ==> unchanged(b)
      ensures ok ==> forall b :: b in balancers.Values ==> (shouldAppend && b in old(balancers.Values)) || fresh(b)
      ensures old(everyone) <= everyone && fresh(everyone - old(everyone))
      ensures ok && hs.guarded && !hs.scripted ==> Safe(Now(), hs)
    {
      CurrentIsGood(published, everyone, balancers);
      var newBalancers, newRules;
      ok, newBalancers, newRules := Prepare(config, shouldAppend, hs);
      if !ok { return; }
      ghost var next := ViewOf(newRules, newBalancers);
      Publish(newRules, newBalancers);
      assert Now() == next;
    }

    /** RemoveRule: drops the rules with a tag, unless a walk they ended could then loop. */
    method RemoveRule(tag: string, hs: Handlers) returns (ok: bool)
      requires Valid() && (hs.def.Some? ==> hs.def.value in hs.all)
      modifies this`rules
      ensures Valid()
      ensures !ok ==> rules == old(rules)
      ensures ok ==> tag != "" && rules == Without(old(rules), tag)
      ensures ok <==> MayRemove(old(Now()), tag, hs)
      ensures ok ==> Now() == Removed(old(Now()), tag)
      ensures ok && hs.guarded && !hs.scripted ==> Safe(Now(), hs)
    {
      CurrentIsGood(published, everyone, balancers);
      var newRules;
      ok, newRules := CheckRemove(tag, hs);
      if ok {
        ghost var next := ViewOf(newRules, balancers);
        rules := newRules;
        assert Now() == next;
      }
    }

    /** The checks of RemoveRule. */
    method CheckRemove(tag: string, hs: Handlers) returns (ok: bool, newRules: seq<RuleObject>)
      requires GoodMap(balancers) && GoodRules(rules, balancers) && (hs.def.Some? ==> hs.def.value in hs.all)
      ensures ok <==> MayRemove(Now(), tag, hs)
      ensures ok ==> newRules == Without(rules, tag) && GoodRules(newRules, balancers)
      ensures ok ==> ViewOf(newRules, balancers) == Removed(Now(), tag)
      ensures ok && hs.guarded && !hs.scripted ==> Safe(Removed(Now(), tag), hs)
    {
      if tag == "" { return false, rules; }
      newRules := Others(tag);
      ok := Guard(newRules, balancers, map[], hs);
    }

    /** The loop of RemoveRule. */
    method Others(tag: string) returns (newRules: seq<RuleObject>)
      requires GoodRules(rules, balancers)
      ensures newRules == Without(rules, tag) && GoodRules(newRules, balancers)
      ensures AsRules(newRules) == WithoutTag(AsRules(rules), tag)
    {
      newRules := [];
      for i := 0 to |rules|
        invariant newRules == Without(rules[..i], tag) && GoodRules(newRules, balancers)
      {
        assert rules[..i + 1][..i] == rules[..i];
        if rules[i].ruleTag != tag { newRules := newRules + [rules[i]]; }
      }
      assert rules[..|rules|] == rules;
      WithoutAsRules(rules, tag);
    }

    static function Without(rs: seq<RuleObject>, tag: string): seq<RuleObject> {
      if rs == [] then []
      else
        var n := |rs| - 1;
        Without(rs[..n], tag) + if rs[n].ruleTag != tag then [rs[n]] else []
    }

    /** SetOverrideTarget: a target is no balancer, and does not close a loop. */
    method SetOverrideTarget(tag: string, target: string, hs: Handlers) returns (ok: bool)
      requires Valid() && (hs.def.Some? ==> hs.def.value in hs.all)
      modifies (if tag in balancers then {balancers[tag]} else {})`override
      ensures Valid()
      ensures !ok ==> forall b :: b in everyone ==> unchanged(b)
      ensures ok ==> tag in balancers && target !in balancers && balancers[tag].override == target
      ensures ok ==> forall b :: b in everyone && b != balancers[tag] ==> unchanged(b)
      ensures ok <==> MayOverride(old(Now()), tag, target, hs)
      ensures ok ==> Now() == Overridden(old(Now()), tag, target)
      ensures ok && hs.guarded && !hs.scripted && target != "" ==> Safe(Now(), hs)
    {
      CurrentIsGood(published, everyone, balancers);
      ok := CheckOverride(tag, target, hs);
      if ok {
        MembersInMap(balancers, tag);
        PutOverride(balancers, tag, target, everyone);
      }
    }

    /** The checks of SetOverrideTarget. */
    method CheckOverride(tag: string, target: string, hs: Handlers) returns (ok: bool)
      requires GoodMap(balancers) && GoodRules(rules, balancers) && (hs.def.Some? ==> hs.def.value in hs.all)
      ensures ok <==> MayOverride(Now(), tag, target, hs)
      ensures ok ==> tag in balancers && target !in balancers
      ensures ok ==> Overridden(Now(), tag, target).overrides == Overrides(balancers, map[tag := target])
      ensures ok && hs.guarded && !hs.scripted && target != "" ==> Safe(Overridden(Now(), tag, target), hs)
    {
      assert CfgOf(balancers).Keys == balancers.Keys;
      if tag !in balancers { return false; }
      if target in balancers { return false; }
      assert Overrides(balancers, map[tag := target]) == Overrides(balancers, map[])[tag := target];
      ok := true;
      if target != "" { ok := Guard(rules, balancers, map[tag := target], hs); }
    }

    /**
     pickTag: a rule that was ever published picks on one map, the newest that holds its balancer, and the pick is
     never dropped by the guard.
     */
    method PickTag(rule: RuleObject, turns: nat -> Turn) returns (route: Route, ghost m: BalancerMap, ghost chain: seq<string>)
      requires Valid()
      requires rule.balancer.Some? && rule.balancer.value !in everyone ==> rule.balancer.value.peers == None
      ensures route != RouteDropped && m in published && Distinct(chain)
      ensures rule.balancer.None? ==> route == ToOutbound(rule.tag)
      ensures rule.balancer.Some? && rule.balancer.value in everyone ==>
                exists i: nat :: NewestWith(published, rule.balancer.value, i) && m == published[i]
      ensures rule.balancer.Some? ==>
                var first := rule.balancer.value.cfg;
                && IsChain(CfgOf(m), first, turns, chain)
                && var last := LevelAt(CfgOf(m), first, chain, |chain|);
                   NextLevel(CfgOf(m), last, turns(|chain|)) == None && route == Outcome(last, turns(|chain|))
      ensures rule.balancer.Some? ==> Obeys(CfgOf(m), rule.balancer.value.cfg, turns, chain, route)
      ensures rule.balancer.Some? && rule.balancer.value in everyone ==>
                && (forall k :: 0 <= k < |chain| ==> chain[k] in m)
                && HonorsOverrides(m, rule.balancer.value, turns, chain, route)
    {
      m, chain := balancers, [];
      if rule.balancer.None? { return ToOutbound(rule.tag), m, chain; }
      var b := rule.balancer.value;
      CurrentIsGood(published, everyone, balancers);
      if b in everyone {
        var i := NewestExists(published, b);
        assert GoodMap(published[i]);
      }
      var on := if b.peers.Some? then b.peers.value else balancers;
      m := on;
      route, chain := ResolveChain(CfgOf(on), b.cfg, turns);
      if b in everyone { OverridesHonored(on, b, everyone, turns, chain, route); }
    }
  }

  // Whole runs.

  /** A change of the routing, or a pick on the rule numbered which of all rules ever published. */
  datatype Call =
    | Reload(config: Config, shouldAppend: bool, hs: Handlers)
    | Remove(tag: string, hs: Handlers)
    | Override(tag: string, target: string, hs: Handlers)
    | Pick(which: nat, turns: nat -> Turn)

  predicate HandlersOk(c: Call) {
    !c.Pick? && c.hs.def.Some? ==> c.hs.def.value in c.hs.all
  }

  ghost function After(v: View, c: Call): View {
    match c
    case Reload(config, shouldAppend, hs) => if MayReload(v, config, shouldAppend, hs) then Reloaded(v, config, shouldAppend) else v
    case Remove(tag, hs) => if MayRemove(v, tag, hs) then Removed(v, tag) else v
    case Override(tag, target, hs) => if MayOverride(v, tag, target, hs) then Overridden(v, tag, target) else v
    case Pick(_, _) => v
  }

  /** What is published after n calls. */
  ghost function AfterAll(calls: seq<Call>, n: nat): View
    requires n <= |calls|
  {
    if n == 0 then NOTHING else After(AfterAll(calls, n - 1), calls[n - 1])
  }

  ghost predicate Publishes(v: View, c: Call) {
    c.Reload? && MayReload(v, c.config, c.shouldAppend, c.hs)
  }

  lemma AfterIsGood(v: View, c: Call)
    requires GoodView(v)
    ensures GoodView(After(v, c))
  {
    match c
    case Reload(config, shouldAppend, hs) =>
      if MayReload(v, config, shouldAppend, hs) { ReloadedIsGood(v, config, shouldAppend, hs); }
    case Remove(tag, hs) => RemovedIsGood(v, tag);
    case Override(tag, target, hs) =>
    case Pick(_, _) =>
  }

  lemma NothingIsGood()
    ensures GoodView(NOTHING)
  {
    var g := GraphOf(NOTHING.balancers);
    assert forall p :: IsCycle(g, p) ==> Step(g, p[0], p[1]);
  }

  /** After any calls everything published is good: the map may be published and the rules name its balancers. */
  lemma {:induction false} AllGood(calls: seq<Call>, n: nat)
    requires n <= |calls|
    ensures GoodView(AfterAll(calls, n))
  {
    if n == 0 {
      NothingIsGood();
    } else {
      AllGood(calls, n - 1);
      AfterIsGood(AfterAll(calls, n - 1), calls[n - 1]);
    }
  }

  /** The call is checked against the given handlers. */
  ghost predicate CheckedBy(c: Call, hs: Handlers) {
    c.Pick? || (c.hs.guarded && !c.hs.scripted && c.hs.all == hs.all && c.hs.def == hs.def)
  }

  /** One call keeps the state graph free of cycles; an override that is cleared only takes edges away. */
  lemma StaysAcyclic(v: View, c: Call, hs: Handlers)
    requires GoodView(v) && CheckedBy(c, hs) && NoFeedCycle(RoutingOf(v, hs), hs.all)
    ensures NoFeedCycle(RoutingOf(After(v, c), hs), hs.all)
  {
    if !c.Pick? { assert RoutingOf(After(v, c), hs) == RoutingOf(After(v, c), c.hs); }
    if c.Override? && MayOverride(v, c.tag, c.target, c.hs) && c.target == "" {
      ClearingIsSafe(RoutingOf(v, hs), RoutingOf(After(v, c), hs), hs.all);
    }
  }

  lemma {:induction false} StaysAcyclicFrom(calls: seq<Call>, n: nat, k: nat, hs: Handlers)
    requires n <= k <= |calls| && NoFeedCycle(RoutingOf(AfterAll(calls, n), hs), hs.all)
    requires forall j :: n <= j < k ==> CheckedBy(calls[j], hs)
    ensures NoFeedCycle(RoutingOf(AfterAll(calls, k), hs), hs.all)
    decreases k
  {
    if n < k {
      StaysAcyclicFrom(calls, n, k - 1, hs);
      StaysAcyclicNext(calls, k - 1, hs);
    }
  }

  lemma StaysAcyclicNext(calls: seq<Call>, n: nat, hs: Handlers)
    requires n < |calls| && CheckedBy(calls[n], hs) && NoFeedCycle(RoutingOf(AfterAll(calls, n), hs), hs.all)
    ensures NoFeedCycle(RoutingOf(AfterAll(calls, n + 1), hs), hs.all)
  {
    AllGood(calls, n);
    StaysAcyclic(AfterAll(calls, n), calls[n], hs);
  }

  /**
   From the moment a routing has passed the loop check, every routing that follows it is safe, whatever changes are made,
   accepted or refused, as long as the handlers stay as they are.
   */
  lemma StaysSafe(calls: seq<Call>, n: nat, k: nat, hs: Handlers)
    requires n <= k <= |calls| && (hs.def.Some? ==> hs.def.value in hs.all)
    requires NoFeedCycle(RoutingOf(AfterAll(calls, n), hs), hs.all)
    requires forall j :: n <= j < k ==> CheckedBy(calls[j], hs)
    ensures NoFeedCycle(RoutingOf(AfterAll(calls, k), hs), hs.all) && Safe(AfterAll(calls, k), hs)
  {
    StaysAcyclicFrom(calls, n, k, hs);
    AllGood(calls, k);
    NoCycleIsSafe(AfterAll(calls, k), hs);
  }
}
