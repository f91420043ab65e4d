/**
 The status of a balancer as the level above it reads it (app/router/member_status.go, statusReader): computed with a
 memo over one map and one observation, and equal to the plain recursive definition.
 */
module MemberStatus {
  import opened Options
  import opened StringOrder
  import opened Digraphs
  import opened BalancerGraph
  import opened Sets

  /** One outbound's observation; probe stands for the measurement fields that are only copied. */
  datatype Status = Status(outboundTag: string, alive: bool, delay: int, trackedFrom: string, probe: int)

  /** What a reader is created with: the map, the observation, and what the manager and the overrides answer. */
  datatype Source = Source(m: Balancers, observed: map<string, Status>, selected: map<string, seq<string>>,
                           overrides: map<string, string>, blackholes: set<string>)

  /** SelectOutbounds with its error ignored: no candidate at all when the manager cannot select. */
  function Candidates(src: Source, b: Balancer): seq<string> {
    if b.selectors == [] then b.members
    else if b.tag in src.selected then src.selected[b.tag] + b.members
    else []
  }

  function Relabel(s: Option<Status>, tag: string): Option<Status> {
    match s
    case None => None
    case Some(v) => Some(v.(outboundTag := tag, trackedFrom := ""))
  }

  /** The status of a level that is down, measured as its first down candidate was. */
  function Down(dead: Option<Status>): Status {
    match dead
    case None => Status("", false, 0, "", 0)
    case Some(d) => d.(alive := false, delay := 0)
  }

  // What the statuses of a level's candidates say.

  /** i is the first of the alive candidates with the least delay. */
  ghost predicate IsBest(ss: seq<Option<Status>>, i: nat) {
    && i < |ss| && ss[i].Some? && ss[i].value.alive
    && (forall j :: 0 <= j < |ss| && ss[j].Some? && ss[j].value.alive ==> ss[i].value.delay <= ss[j].value.delay)
    && (forall j :: 0 <= j < i && ss[j].Some? && ss[j].value.alive ==> ss[i].value.delay < ss[j].value.delay)
  }

  /** i is the first candidate known to be down. */
  ghost predicate IsFirstDead(ss: seq<Option<Status>>, i: nat) {
    && i < |ss| && ss[i].Some? && !ss[i].value.alive
    && (forall j :: 0 <= j < i && ss[j].Some? ==> ss[j].value.alive)
  }

  ghost function Best(ss: seq<Option<Status>>): Option<Status> {
    if i: nat :| IsBest(ss, i) then ss[i] else None
  }

  ghost function FirstDead(ss: seq<Option<Status>>): Option<Status> {
    if i: nat :| IsFirstDead(ss, i) then ss[i] else None
  }

  /** The number of balancers below tag, itself included; it shrinks along every edge. */
  ghost function Rank(m: Balancers, tag: string): nat {
    |set v | v in m && Reaches(GraphOf(m), tag, v)|
  }

  lemma RankDecreases(m: Balancers, v: string, w: string)
    requires Acyclic(GraphOf(m)) && v in m && Step(GraphOf(m), v, w)
    ensures Rank(m, w) < Rank(m, v)
  {
    var g := GraphOf(m);
    var below, above := set x | x in m && Reaches(g, w, x), set x | x in m && Reaches(g, v, x);
    ReachesSelf(g, v);
    ReachesStep(g, v, w);
    forall x | x in below ensures x in above { ReachesTransitive(g, v, w, x); }
    assert v !in below by {
      CycleIsReturn(g, v);
    }
    assert below <= above - {v};
    Fewer(below, above - {v});
  }

  lemma EdgeDecreases(m: Balancers, tag: string)
    requires Publishable(m) && tag in m
    ensures forall x :: x in m[tag].members ==> x in m && Rank(m, x) < Rank(m, tag)
    ensures m[tag].fallbackTag in m ==> Rank(m, m[tag].fallbackTag) < Rank(m, tag)
  {
    forall x | x in m[tag].members ensures x in m && Rank(m, x) < Rank(m, tag) {
      GraphSteps(m, tag, x);
      RankDecreases(m, tag, x);
    }
    if m[tag].fallbackTag in m {
      GraphSteps(m, tag, m[tag].fallbackTag);
      RankDecreases(m, tag, m[tag].fallbackTag);
    }
  }

  /** The plain definition: override, else best candidate, else unknown while a candidate is, else fallback. */
  ghost function StatusOf(src: Source, tag: string): Option<Status>
    requires Publishable(src.m)
    decreases Rank(src.m, tag), 2
  {
    if tag !in src.m then None
    else if OverrideOf(src.overrides, tag) != "" then Relabel(Find(src.observed, OverrideOf(src.overrides, tag)), tag)
    else
      var ss := CandidateStatuses(src, tag);
      if Best(ss).Some? then Relabel(Best(ss), tag)
      else if None in ss then None
      else Relabel(FallbackStatus(src, tag, FirstDead(ss)), tag)
  }

  ghost function CandidateStatuses(src: Source, tag: string): (ss: seq<Option<Status>>)
    requires Publishable(src.m) && tag in src.m
    ensures |ss| == |Candidates(src, src.m[tag])|
    decreases Rank(src.m, tag), 1
  {
    EdgeDecreases(src.m, tag);
    var cs := Candidates(src, src.m[tag]);
    seq(|cs|, i requires 0 <= i < |cs| => CandidateStatus(src, tag, cs[i]))
  }

  ghost function CandidateStatus(src: Source, tag: string, c: string): Option<Status>
    requires Publishable(src.m) && tag in src.m
    decreases Rank(src.m, tag), 0
  {
    EdgeDecreases(src.m, tag);
    if c in src.m[tag].members then StatusOf(src, c) else Find(src.observed, c)
  }

  ghost function FallbackStatus(src: Source, tag: string, dead: Option<Status>): Option<Status>
    requires Publishable(src.m) && tag in src.m
    decreases Rank(src.m, tag), 0
  {
    EdgeDecreases(src.m, tag);
    var fallback := src.m[tag].fallbackTag;
    if fallback == "" || fallback in src.blackholes then Some(Down(dead))
    else if fallback in src.m then StatusOf(src, fallback)
    else Find(src.observed, fallback)
  }

  // The loop over a level's candidates.

  ghost predicate Scanned(ss: seq<Option<Status>>, best: Option<Status>, dead: Option<Status>, unknown: bool) {
    best == Best(ss) && dead == FirstDead(ss) && (unknown <==> None in ss)
  }

  lemma BestIs(ss: seq<Option<Status>>, i: nat)
    requires IsBest(ss, i)
    ensures Best(ss) == ss[i]
  {
    var j: nat :| IsBest(ss, j) && Best(ss) == ss[j];
  }

  lemma FirstDeadIs(ss: seq<Option<Status>>, i: nat)
    requires IsFirstDead(ss, i)
    ensures FirstDead(ss) == ss[i]
  {
    var j: nat :| IsFirstDead(ss, j) && FirstDead(ss) == ss[j];
  }

  /** Some candidate is best unless none is alive. */
  lemma {:induction false} BestExists(ss: seq<Option<Status>>)
    ensures Best(ss).None? ==> forall j :: 0 <= j < |ss| && ss[j].Some? ==> !ss[j].value.alive
  {
    if ss != [] {
      var n := |ss| - 1;
      BestExists(ss[..n]);
      BestStep(ss[..n], ss[n]);
      assert ss[..n] + [ss[n]] == ss;
      forall j | 0 <= j < n && ss[j].Some? && Best(ss).None? ensures !ss[j].value.alive { assert ss[..n][j] == ss[j]; }
    }
  }

  /** How the best candidate changes with one more candidate. */
  lemma BestStep(ss: seq<Option<Status>>, s: Option<Status>)
    requires Best(ss).None? ==> forall j :: 0 <= j < |ss| && ss[j].Some? ==> !ss[j].value.alive
    ensures Best(ss + [s]) == if s.Some? && s.value.alive && (Best(ss).None? || s.value.delay < Best(ss).value.delay)
                              then s else Best(ss)
  {
    var longer := ss + [s];
    if s.Some? && s.value.alive && (Best(ss).None? || s.value.delay < Best(ss).value.delay) {
      if Best(ss).Some? { var i: nat :| IsBest(ss, i) && Best(ss) == ss[i]; }
      assert IsBest(longer, |ss|);
      BestIs(longer, |ss|);
    } else if Best(ss).Some? {
      var i: nat :| IsBest(ss, i) && Best(ss) == ss[i];
      assert IsBest(longer, i);
      BestIs(longer, i);
    } else {
      assert forall i: nat :: !IsBest(longer, i);
    }
  }

  lemma FirstDeadStep(ss: seq<Option<Status>>, s: Option<Status>)
    ensures FirstDead(ss + [s]) == if FirstDead(ss).None? && s.Some? && !s.value.alive then s else FirstDead(ss)
  {
    var longer := ss + [s];
    FirstDeadExists(ss);
    if FirstDead(ss).Some? {
      var i: nat :| IsFirstDead(ss, i) && FirstDead(ss) == ss[i];
      assert IsFirstDead(longer, i);
      FirstDeadIs(longer, i);
    } else if s.Some? && !s.value.alive {
      assert IsFirstDead(longer, |ss|);
      FirstDeadIs(longer, |ss|);
    } else {
      assert forall i: nat :: !IsFirstDead(longer, i);
    }
  }

  lemma {:induction false} FirstDeadExists(ss: seq<Option<Status>>)
    ensures FirstDead(ss).None? ==> forall j :: 0 <= j < |ss| && ss[j].Some? ==> ss[j].value.alive
  {
    if ss != [] {
      var n := |ss| - 1;
      FirstDeadExists(ss[..n]);
      if FirstDead(ss[..n]).Some? {
        var i: nat :| IsFirstDead(ss[..n], i);
        assert IsFirstDead(ss, i);
      } else if ss[n].Some? && !ss[n].value.alive {
        assert forall j :: 0 <= j < n ==> ss[..n][j] == ss[j];
        assert IsFirstDead(ss, n);
      } else {
        assert forall j :: 0 <= j < n ==> ss[..n][j] == ss[j];
      }
    }
  }

  lemma ScanStep(ss: seq<Option<Status>>, best: Option<Status>, dead: Option<Status>, unknown: bool, s: Option<Status>)
    requires Scanned(ss, best, dead, unknown)
    ensures Scanned(ss + [s],
                    if s.Some? && s.value.alive && (best.None? || s.value.delay < best.value.delay) then s else best,
                    if s.Some? && !s.value.alive && dead.None? then s else dead,
                    unknown || s.None?)
  {
    BestExists(ss);
    BestStep(ss, s);
    FirstDeadStep(ss, s);
  }

  /** In an acyclic graph, a vertex below v reaches neither v nor what v does not reach. */
  lemma NoWayBack<L>(g: Digraph<L>, above: set<string>, v: string)
    requires Acyclic(g) && forall a :: a in above ==> !Reaches(g, v, a)
    ensures forall w, a :: a in above + {v} && Step(g, v, w) ==> !Reaches(g, w, a)
  {
    forall w, a | a in above + {v} && Step(g, v, w) ensures !Reaches(g, w, a) {
      ReachesStep(g, v, w);
      if a == v {
        CycleIsReturn(g, v);
      } else if Reaches(g, w, a) {
        ReachesTransitive(g, v, w, a);
      }
    }
  }

  class StatusReader {
    const src: Source
    var memo: map<string, Option<Status>>
    var done: set<string>
    ghost var evaluated: seq<string>

    constructor (src: Source)
      ensures this.src == src && memo == map[] && done == {} && evaluated == []
      ensures Valid({})
    {
      this.src := src;
      memo, done, evaluated := map[], {}, [];
    }

    /** Everything done, except what is being evaluated, is remembered right; each balancer was evaluated once at most. */
    ghost predicate Valid(active: set<string>)
      reads this
    {
      && active <= done && memo.Keys <= done
      && (Publishable(src.m) ==> forall t :: t in done && t !in active ==> Remembered(t) == StatusOf(src, t))
      && Distinct(evaluated) && (forall t :: t in evaluated ==> t in done)
      && (forall t :: t in done && t in src.m ==> t in evaluated)
    }

    function Remembered(tag: string): Option<Status>
      reads this
    {
      if tag in memo then memo[tag] else None
    }

    method Status(tag: string, ghost active: set<string>) returns (s: Option<Status>)
      requires Publishable(src.m) && Valid(active)
      requires forall a :: a in active ==> !Reaches(GraphOf(src.m), tag, a)
      modifies this
      ensures Valid(active) && old(done) <= done && old(evaluated) <= evaluated && tag in done
      ensures s == StatusOf(src, tag)
      decreases Rank(src.m, tag), 2
    {
      ReachesSelf(GraphOf(src.m), tag);
      if tag in done { return Remembered(tag); }
      done := done + {tag};
      if tag !in src.m { return None; }
      evaluated := evaluated + [tag];
      var b := src.m[tag];
      if OverrideOf(src.overrides, tag) != "" {
        s := Find(src.observed, OverrideOf(src.overrides, tag));
      } else {
        NoWayBack(GraphOf(src.m), active, tag);
        s := Level(tag, active + {tag});
      }
      s := Relabel(s, tag);
      memo := memo[tag := s];
    }

    method Level(tag: string, ghost active: set<string>) returns (s: Option<Status>)
      requires Publishable(src.m) && Valid(active) && tag in src.m && OverrideOf(src.overrides, tag) == ""
      requires forall w, a :: a in active && Step(GraphOf(src.m), tag, w) ==> !Reaches(GraphOf(src.m), w, a)
      modifies this
      ensures Valid(active) && old(done) <= done && old(evaluated) <= evaluated
      ensures Relabel(s, tag) == StatusOf(src, tag)
      decreases Rank(src.m, tag), 1
    {
      EdgeDecreases(src.m, tag);
      var b := src.m[tag];
      var candidates := Candidates(src, b);
      ghost var ss := CandidateStatuses(src, tag);
      var best, dead, unknown := None, None, false;
      for i := 0 to |candidates|
        invariant Valid(active) && old(done) <= done && old(evaluated) <= evaluated
        invariant Scanned(ss[..i], best, dead, unknown)
      {
        var cs := Candidate(tag, candidates[i], active);
        assert ss[..i + 1] == ss[..i] + [cs];
        ScanStep(ss[..i], best, dead, unknown, cs);
        if cs == None {
          unknown := true;
        } else if cs.value.alive {
          if best == None || cs.value.delay < best.value.delay { best := cs; }
        } else if dead == None {
          dead := cs;
        }
      }
      assert ss[..|candidates|] == ss;
      if best != None { return best; }
      if unknown { return None; }
      s := Fallback(tag, dead, active);
    }

    /** The status of one candidate: a member's own, or as observed. */
    method Candidate(tag: string, c: string, ghost active: set<string>) returns (s: Option<Status>)
      requires Publishable(src.m) && Valid(active) && tag in src.m && c in Candidates(src, src.m[tag])
      requires forall w, a :: a in active && Step(GraphOf(src.m), tag, w) ==> !Reaches(GraphOf(src.m), w, a)
      modifies this
      ensures Valid(active) && old(done) <= done && old(evaluated) <= evaluated
      ensures s == CandidateStatus(src, tag, c)
      decreases Rank(src.m, tag), 0
    {
      EdgeDecreases(src.m, tag);
      if c in src.m[tag].members {
        GraphSteps(src.m, tag, c);
        s := Status(c, active);
      } else {
        s := Find(src.observed, c);
      }
    }

    /** fallback: a level's status once every candidate is down. */
    method Fallback(tag: string, dead: Option<Status>, ghost active: set<string>) returns (s: Option<Status>)
      requires Publishable(src.m) && Valid(active) && tag in src.m
      requires forall w, a :: a in active && Step(GraphOf(src.m), tag, w) ==> !Reaches(GraphOf(src.m), w, a)
      modifies this
      ensures Valid(active) && old(done) <= done && old(evaluated) <= evaluated
      ensures s == FallbackStatus(src, tag, dead)
      decreases Rank(src.m, tag), 0
    {
      EdgeDecreases(src.m, tag);
      var fallback := src.m[tag].fallbackTag;
      if fallback == "" || fallback in src.blackholes { return Some(Down(dead)); }
      if fallback in src.m {
        GraphSteps(src.m, tag, fallback);
        s := Status(fallback, active);
      } else {
        s := Find(src.observed, fallback);
      }
    }
  }

  /** The known statuses of some balancers, in order, each by the plain recursive definition. */
  ghost function KnownStatuses(src: Source, tags: seq<string>): seq<Status>
    requires Publishable(src.m)
  {
    if tags == [] then []
    else
      var last := StatusOf(src, tags[|tags| - 1]);
      KnownStatuses(src, tags[..|tags| - 1]) + if last.Some? then [last.value] else []
  }

  /**
   What GetObservation adds for the members of a balancer with one reader for all of them, in any order: the memoised
   results are those of the plain definition, and no balancer was evaluated twice.
   */
  method MemberObservation(src: Source, members: seq<string>) returns (added: seq<Status>, ghost evaluated: seq<string>)
    requires Publishable(src.m)
    ensures added == KnownStatuses(src, members) && Distinct(evaluated)
    ensures forall t :: t in members && t in src.m ==> t in evaluated
  {
    var reader := new StatusReader(src);
    added := [];
    for i := 0 to |members|
      invariant fresh(reader) && reader.src == src && reader.Valid({}) && added == KnownStatuses(src, members[..i])
      invariant forall t :: t in members[..i] && t in src.m ==> t in reader.evaluated
    {
      assert members[..i + 1][..i] == members[..i];
      var s := reader.Status(members[i], {});
      if s.Some? { added := added + [s.value]; }
    }
    assert members[..|members|] == members;
    evaluated := reader.evaluated;
  }
}
