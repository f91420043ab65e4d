/**
 The pool that weighted picks rotate over (app/router/strategy_weightedleastping.go, filterNodes). An observation is a map
 by tag; round trip times are int64 nanoseconds, and a sum or a product of them wraps around.
 */
module WeightedPool {
  import opened Options
  import opened StringOrder
  import opened WeightedRoundRobin

  const MAX_DURATION := 0x7FFF_FFFF_FFFF_FFFF
  const MILLISECOND := 1_000_000

  type Int64 = x: int | -MAX_DURATION - 1 <= x <= MAX_DURATION

  /** What int64 arithmetic leaves of x. */
  function Wrap(x: int): Int64 {
    (x + MAX_DURATION + 1) % 0x1_0000_0000_0000_0000 - MAX_DURATION - 1
  }

  datatype Health = Health(average: Int64, all: Int64, fail: Int64)

  datatype Observation = Observation(alive: bool, delay: Int64, health: Option<Health>)

  datatype Settings = Settings(maxRTT: Int64, minSamples: nat, tolerance: real, rttTolerance: Int64)

  function Average(o: Observation): Int64 {
    if o.health.Some? then o.health.value.average else Wrap(o.delay * MILLISECOND)
  }

  function All(o: Observation): int { if o.health.Some? then o.health.value.all else 1 }

  function Failed(o: Observation): int { if o.health.Some? then o.health.value.fail else 0 }

  /** The candidate has a verdict. */
  predicate HasVerdict(s: Settings, o: Observation) {
    o.health.None? || o.health.value.all >= if s.minSamples > 1 then s.minSamples else 1
  }

  predicate IsHealthy(s: Settings, o: Observation) {
    && o.alive
    && !(s.minSamples > 0 && All(o) < s.minSamples)
    && !(s.tolerance > 0.0 && All(o) > 0 && Failed(o) as real / All(o) as real > s.tolerance)
    && !(s.maxRTT > 0 && Average(o) >= s.maxRTT)
  }

  /**
   A candidate is healthy that is alive and has been measured often enough, of whose measurements no more than the
   tolerated share has failed, and whose average stays below the limit. A setting of zero or less asks nothing.
   */
  lemma HealthyExactly(s: Settings, o: Observation, h: Health)
    requires o.health == Some(h)
    ensures IsHealthy(s, o) <==>
      && o.alive && (s.minSamples > 0 ==> h.all >= s.minSamples)
      && (s.tolerance > 0.0 && h.all > 0 ==> h.fail as real <= s.tolerance * h.all as real)
      && (s.maxRTT > 0 ==> h.average < s.maxRTT)
  {
    if h.all > 0 { Share(h.fail as real, h.all as real, s.tolerance); }
  }

  lemma Share(fail: real, all: real, tolerance: real)
    requires all > 0.0
    ensures fail / all > tolerance <==> fail > tolerance * all
  {
    assert fail == (fail / all) * all;
    if fail / all > tolerance {
      Times(fail / all - tolerance, all);
    } else {
      Times(tolerance - fail / all, all);
    }
  }

  lemma Times(x: real, y: real)
    requires y > 0.0
    ensures x > 0.0 ==> x * y > 0.0
    ensures x >= 0.0 ==> x * y >= 0.0
  {
  }

  /** Without measurements the observed delay, in milliseconds, stands for one that succeeded. */
  lemma UnmeasuredExactly(s: Settings, o: Observation)
    requires o.health == None && 0 <= o.delay <= MAX_DURATION / MILLISECOND
    ensures IsHealthy(s, o) <==> o.alive && s.minSamples <= 1 && (s.maxRTT > 0 ==> o.delay * 1_000_000 < s.maxRTT)
  {
  }

  /** An observation without measurements is a verdict; otherwise it takes one measurement, and as many as are asked for. */
  lemma VerdictExactly(s: Settings, o: Observation)
    ensures HasVerdict(s, o) <==> o.health == None || (o.health.value.all >= 1 && o.health.value.all >= s.minSamples)
  {
  }

  /** What one call reads. */
  datatype Input = Input(candidates: seq<string>, weightOf: string -> real, observed: map<string, Observation>,
                         settings: Settings, fallbackTag: string)

  ghost predicate Usable(x: Input, t: string) {
    t in x.candidates && x.weightOf(t) > 0.0
  }

  ghost predicate Healthy(x: Input, t: string) {
    Usable(x, t) && t in x.observed && IsHealthy(x.settings, x.observed[t])
  }

  /** Healthy, and no healthy candidate is faster by more than the tolerance. */
  ghost predicate InWindow(x: Input, t: string) {
    && Healthy(x, t)
    && (x.settings.rttTolerance > 0 ==>
          forall u :: Healthy(x, u) ==> Average(x.observed[t]) <= Average(x.observed[u]) + x.settings.rttTolerance)
  }

  /** Every usable candidate is measured and none is alive. */
  ghost predicate AllDown(x: Input) {
    forall t :: Usable(x, t) ==> t in x.observed && HasVerdict(x.settings, x.observed[t]) && !x.observed[t].alive
  }

  /** The tolerance cannot be added to the fastest healthy average: the sum leaves the int64 range. */
  ghost predicate Overflows(x: Input) {
    && (exists u :: Healthy(x, u)) && x.settings.rttTolerance > 0
    && forall u :: Healthy(x, u) ==> Average(x.observed[u]) + x.settings.rttTolerance > MAX_DURATION
  }

  /** The pool as it is meant: the healthy window, else nothing when all are down and there is a fallback, else all. */
  ghost predicate Intended(x: Input, t: string) {
    if exists u :: Healthy(x, u) then InWindow(x, t)
    else Usable(x, t) && !(x.fallbackTag != "" && AllDown(x))
  }

  /** The pool as it is: a window whose limit has wrapped around is empty, and all candidates take its place. */
  ghost predicate InPool(x: Input, t: string) {
    if Overflows(x) then Usable(x, t) else Intended(x, t)
  }

  /** Exactly when the pool is as it is meant. */
  lemma PoolIsIntended(x: Input)
    ensures (forall t :: InPool(x, t) <==> Intended(x, t)) <==> !Overflows(x) || forall t :: Usable(x, t) ==> Healthy(x, t)
  {
    if Overflows(x) {
      forall t ensures (InPool(x, t) <==> Usable(x, t)) && (Intended(x, t) <==> Healthy(x, t)) {}
      if forall t :: InPool(x, t) <==> Intended(x, t) {
        forall t | Usable(x, t) ensures Healthy(x, t) { assert InPool(x, t); }
      }
    }
  }

  /** One candidate is alive and one is not; the largest tolerance brings the dead one into the pool. */
  lemma OverflowExample(x: Input)
    requires x.candidates == ["a", "b"] && x.weightOf("a") > 0.0 && x.weightOf("b") > 0.0
    requires x.observed == map["a" := Observation(true, 20, None), "b" := Observation(false, 0, None)]
    requires x.settings == Settings(0, 0, 0.0, MAX_DURATION)
    ensures InPool(x, "b") && !Intended(x, "b") && !Healthy(x, "b")
  {
    assert x.candidates[0] == "a" && x.candidates[1] == "b";
    assert Average(x.observed["a"]) == 20 * MILLISECOND;
    assert Healthy(x, "a");
    forall u | Healthy(x, u) ensures u == "a" {}
  }

  /** What the loop over the candidates has found among the first n. */
  datatype Scan = Scan(all: seq<string>, healthy: seq<string>, seen: set<string>, measured: nat, alive: nat, best: Int64)

  ghost predicate AllOk(x: Input, seen: set<string>, all: seq<string>) {
    Distinct(all) && forall t :: t in all <==> t in seen && x.weightOf(t) > 0.0
  }

  ghost predicate HealthyOk(x: Input, all: seq<string>, healthy: seq<string>) {
    Distinct(healthy) && forall t :: t in healthy <==> t in all && t in x.observed && IsHealthy(x.settings, x.observed[t])
  }

  /** best is the smallest average of the healthy ones. */
  ghost predicate BestOk(x: Input, healthy: seq<string>, best: Int64) {
    && (forall t :: t in healthy ==> t in x.observed && best <= Average(x.observed[t]))
    && (if healthy == [] then best == MAX_DURATION
        else exists t :: t in healthy && t in x.observed && best == Average(x.observed[t]))
  }

  ghost predicate MeasuredOk(x: Input, all: seq<string>, measured: nat) {
    && measured <= |all|
    && (measured == |all| <==> forall t :: t in all ==> t in x.observed && HasVerdict(x.settings, x.observed[t]))
  }

  ghost predicate AliveOk(x: Input, all: seq<string>, alive: nat) {
    alive == 0 <==> forall t :: t in all && t in x.observed ==> !x.observed[t].alive
  }

  ghost predicate Scanned(x: Input, n: nat, c: Scan)
    requires n <= |x.candidates|
  {
    && c.seen == (set i | 0 <= i < n :: x.candidates[i])
    && AllOk(x, c.seen, c.all) && HealthyOk(x, c.all, c.healthy) && BestOk(x, c.healthy, c.best)
    && MeasuredOk(x, c.all, c.measured) && AliveOk(x, c.all, c.alive)
  }

  lemma Pushed(s: seq<string>, t: string)
    ensures forall u :: u in s + [t] <==> u in s || u == t
  {}

  lemma HealthyPush(x: Input, c: Scan, t: string)
    requires HealthyOk(x, c.all, c.healthy) && t !in c.all
    ensures HealthyOk(x, c.all + [t],
                      if t in x.observed && IsHealthy(x.settings, x.observed[t]) then c.healthy + [t] else c.healthy)
  {
    Pushed(c.all, t);
    Pushed(c.healthy, t);
  }

  lemma BestPush(x: Input, c: Scan, t: string)
    requires BestOk(x, c.healthy, c.best) && t in x.observed
    ensures BestOk(x, c.healthy + [t], if Average(x.observed[t]) < c.best then Average(x.observed[t]) else c.best)
  {
    Pushed(c.healthy, t);
    if c.healthy != [] {
      var u :| u in c.healthy && u in x.observed && c.best == Average(x.observed[u]);
      assert u in c.healthy + [t];
    }
    assert t in c.healthy + [t];
  }

  lemma MeasuredPush(x: Input, c: Scan, t: string)
    requires MeasuredOk(x, c.all, c.measured)
    ensures MeasuredOk(x, c.all + [t],
                       if t in x.observed && HasVerdict(x.settings, x.observed[t]) then c.measured + 1 else c.measured)
  {
    Pushed(c.all, t);
  }

  lemma AlivePush(x: Input, c: Scan, t: string)
    requires AliveOk(x, c.all, c.alive)
    ensures AliveOk(x, c.all + [t], if t in x.observed && x.observed[t].alive then c.alive + 1 else c.alive)
  {
    Pushed(c.all, t);
  }

  /** One turn of the loop. */
  method ScanNext(x: Input, ghost n: nat, c: Scan, candidate: string) returns (d: Scan)
    requires n < |x.candidates| && candidate == x.candidates[n] && Scanned(x, n, c)
    ensures Scanned(x, n + 1, d)
  {
    d := c.(seen := c.seen + {candidate});
    assert (set i | 0 <= i < n + 1 :: x.candidates[i]) == (set i | 0 <= i < n :: x.candidates[i]) + {candidate};
    if candidate in c.seen { return; }
    if x.weightOf(candidate) <= 0.0 { return; }
    Pushed(c.all, candidate);
    HealthyPush(x, c, candidate);
    MeasuredPush(x, c, candidate);
    AlivePush(x, c, candidate);
    d := d.(all := c.all + [candidate]);
    var known := candidate in x.observed;
    if known && HasVerdict(x.settings, x.observed[candidate]) { d := d.(measured := c.measured + 1); }
    if !known || !x.observed[candidate].alive { return; }
    d := d.(alive := c.alive + 1);
    if !IsHealthy(x.settings, x.observed[candidate]) { return; }
    BestPush(x, c, candidate);
    d := d.(healthy := c.healthy + [candidate]);
    if Average(x.observed[candidate]) < c.best { d := d.(best := Average(x.observed[candidate])); }
  }

  /** The nodes with the given tags, by tag. */
  method SortedNodes(x: Input, tags: seq<string>) returns (nodes: seq<Node>)
    requires Distinct(tags)
    ensures |nodes| == |tags| && DistinctTags(nodes)
    ensures forall i, j :: 0 <= i < j < |nodes| ==> Le(nodes[i].tag, nodes[j].tag)
    ensures forall i :: 0 <= i < |nodes| ==> nodes[i].tag in tags && nodes[i].weight == x.weightOf(nodes[i].tag)
    ensures forall t :: t in tags ==> exists i :: 0 <= i < |nodes| && nodes[i].tag == t
  {
    SortSorts(tags);
    var sorted := Sort(tags);
    nodes := seq(|sorted|, i requires 0 <= i < |sorted| => Node(sorted[i], x.weightOf(sorted[i])));
    forall t | t in tags ensures exists i :: 0 <= i < |nodes| && nodes[i].tag == t {
      assert t in sorted;
      var i :| 0 <= i < |sorted| && sorted[i] == t;
      assert nodes[i].tag == t;
    }
  }

  /** The loop that keeps the healthy candidates up to the limit. */
  method Narrow(x: Input, healthy: seq<string>, limit: Int64) returns (kept: seq<string>)
    requires Distinct(healthy) && forall t :: t in healthy ==> t in x.observed
    ensures Distinct(kept)
    ensures forall t :: t in kept <==> t in healthy && Average(x.observed[t]) <= limit
  {
    kept := [];
    for i := 0 to |healthy|
      invariant Distinct(kept)
      invariant forall t :: t in kept <==> t in healthy[..i] && Average(x.observed[t]) <= limit
    {
      assert healthy[..i + 1] == healthy[..i] + [healthy[i]];
      assert healthy[i] !in healthy[..i];
      if Average(x.observed[healthy[i]]) <= limit { kept := kept + [healthy[i]]; }
    }
    assert healthy[..|healthy|] == healthy;
  }

  /** The sum of two durations, the second one positive, wraps around to less than the first or is their sum. */
  lemma WrappedSum(best: Int64, tolerance: Int64)
    requires tolerance > 0
    ensures if best + tolerance > MAX_DURATION then Wrap(best + tolerance) < best else Wrap(best + tolerance) == best + tolerance
  {
  }

  /** What the window keeps, and that it is empty exactly when its limit wraps around. */
  method Window(x: Input, c: Scan) returns (kept: seq<string>)
    requires Scanned(x, |x.candidates|, c) && c.healthy != [] && x.settings.rttTolerance > 0
    ensures Distinct(kept) && (kept == [] <==> Overflows(x))
    ensures !Overflows(x) ==> forall t :: t in kept <==> InWindow(x, t)
  {
    HealthyAre(x, c);
    kept := Narrow(x, c.healthy, Wrap(c.best + x.settings.rttTolerance));
    WrappedSum(c.best, x.settings.rttTolerance);
    ghost var u :| u in c.healthy && u in x.observed && c.best == Average(x.observed[u]);
    assert Healthy(x, u) && Healthy(x, c.healthy[0]);
    assert kept != [] ==> kept[0] in kept;
    if c.best + x.settings.rttTolerance <= MAX_DURATION { assert u in kept; }
  }

  lemma HealthyAre(x: Input, c: Scan)
    requires Scanned(x, |x.candidates|, c)
    ensures forall t :: t in c.all <==> Usable(x, t)
    ensures forall t :: t in c.healthy <==> Healthy(x, t)
  {
  }

  /** filterNodes: exactly the pool, each tag once and in order, each node with its own positive weight. */
  method FilterNodes(x: Input) returns (nodes: seq<Node>)
    ensures forall t :: InPool(x, t) <==> exists i :: 0 <= i < |nodes| && nodes[i].tag == t
    ensures forall i :: 0 <= i < |nodes| ==> nodes[i].weight == x.weightOf(nodes[i].tag)
    ensures forall i, j :: 0 <= i < j < |nodes| ==> Le(nodes[i].tag, nodes[j].tag)
    ensures nodes != [] ==> IsPool(nodes)
  {
    var c := Scan([], [], {}, 0, 0, MAX_DURATION);
    for i := 0 to |x.candidates|
      invariant Scanned(x, i, c)
    {
      c := ScanNext(x, i, c, x.candidates[i]);
    }
    HealthyAre(x, c);
    var kept := c.healthy;
    if c.healthy != [] { assert Healthy(x, c.healthy[0]); }
    if x.settings.rttTolerance > 0 && |kept| > 0 { kept := Window(x, c); }
    if |kept| == 0 {
      if x.fallbackTag != "" && |c.all| > 0 && c.measured == |c.all| && c.alive == 0 { return []; }
      kept := c.all;
    }
    nodes := SortedNodes(x, kept);
  }
}
