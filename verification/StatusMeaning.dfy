/**
 What the status of a balancer says of the outbounds below it (app/router/member_status.go): an alive one is that of an
 observed outbound, and a level is alive, down or unknown as its override, its candidates and its fallback are.
 */
module StatusMeaning {
  import opened Options
  import opened BalancerGraph
  import opened Digraphs
  import opened MemberStatus

  /** c is an outbound that the manager selects for b, or a member of b; without the manager b has no candidate. */
  predicate IsCandidate(src: Source, b: Balancer, c: string) {
    if b.selectors == [] then c in b.members
    else b.tag in src.selected && (c in src.selected[b.tag] || c in b.members)
  }

  lemma CandidatesAre(src: Source, b: Balancer, c: string)
    ensures c in Candidates(src, b) <==> IsCandidate(src, b, c)
  {
  }

  /** The outbounds that the manager selects come before the members. */
  predicate IsFirst(src: Source, b: Balancer, c: string) {
    && IsCandidate(src, b, c)
    && if b.selectors != [] && src.selected[b.tag] != [] then c == src.selected[b.tag][0] else c == b.members[0]
  }

  predicate HasOverride(src: Source, tag: string) {
    tag in src.overrides && src.overrides[tag] != ""
  }

  /** How the level of tag sees one of its candidates: a member by its own status, an outbound as it is observed. */
  ghost predicate Sees(src: Source, tag: string, c: string, s: Status)
    requires Publishable(src.m) && tag in src.m
  {
    if c in src.m[tag].members then StatusOf(src, c) == Some(s) else c in src.observed && src.observed[c] == s
  }

  lemma SeesIt(src: Source, tag: string, c: string)
    requires Publishable(src.m) && tag in src.m
    ensures forall s :: CandidateStatus(src, tag, c) == Some(s) <==> Sees(src, tag, c, s)
  {
  }

  ghost predicate SeesSome(src: Source, tag: string, c: string)
    requires Publishable(src.m) && tag in src.m
  {
    exists s :: Sees(src, tag, c, s)
  }

  /** Two statuses with the same measurement. */
  predicate SameMeasure(s: Status, t: Status) {
    s.alive == t.alive && s.delay == t.delay && s.probe == t.probe
  }

  /** A known status goes by the balancer's own tag. */
  lemma OwnTag(src: Source, tag: string)
    requires Publishable(src.m) && StatusOf(src, tag).Some?
    ensures tag in src.m && StatusOf(src, tag).value.outboundTag == tag && StatusOf(src, tag).value.trackedFrom == ""
  {
  }

  /** An override is all that counts. */
  lemma OverrideStatus(src: Source, tag: string)
    requires Publishable(src.m) && tag in src.m && HasOverride(src, tag)
    ensures StatusOf(src, tag).Some? <==> src.overrides[tag] in src.observed
    ensures StatusOf(src, tag).Some? ==> SameMeasure(StatusOf(src, tag).value, src.observed[src.overrides[tag]])
  {
  }

  lemma StatusAt(src: Source, tag: string, c: string) returns (i: nat)
    requires Publishable(src.m) && tag in src.m && IsCandidate(src, src.m[tag], c)
    ensures i < |CandidateStatuses(src, tag)| && CandidateStatuses(src, tag)[i] == CandidateStatus(src, tag, c)
  {
    CandidatesAre(src, src.m[tag], c);
    i :| 0 <= i < |Candidates(src, src.m[tag])| && Candidates(src, src.m[tag])[i] == c;
  }

  lemma CandidateAt(src: Source, tag: string, i: nat) returns (c: string)
    requires Publishable(src.m) && tag in src.m && i < |CandidateStatuses(src, tag)|
    ensures IsCandidate(src, src.m[tag], c) && CandidateStatuses(src, tag)[i] == CandidateStatus(src, tag, c)
    ensures c == Candidates(src, src.m[tag])[i]
  {
    c := Candidates(src, src.m[tag])[i];
    CandidatesAre(src, src.m[tag], c);
  }

  /** Without an override a level with an alive candidate is alive, with the measurement of one that has the least delay. */
  lemma AliveLevel(src: Source, tag: string, c: string, s: Status) returns (best: string, t: Status)
    requires Publishable(src.m) && tag in src.m && !HasOverride(src, tag)
    requires IsCandidate(src, src.m[tag], c) && Sees(src, tag, c, s) && s.alive
    ensures StatusOf(src, tag).Some? && SameMeasure(StatusOf(src, tag).value, t)
    ensures IsCandidate(src, src.m[tag], best) && Sees(src, tag, best, t) && t.alive && t.delay <= s.delay
  {
    var ss := CandidateStatuses(src, tag);
    var i := StatusAt(src, tag, c);
    SeesIt(src, tag, c);
    BestExists(ss);
    var k: nat :| IsBest(ss, k) && Best(ss) == ss[k];
    best := CandidateAt(src, tag, k);
    t := ss[k].value;
    SeesIt(src, tag, best);
  }

  /** No candidate of the level is seen alive. */
  ghost predicate NoneAlive(src: Source, tag: string)
    requires Publishable(src.m) && tag in src.m
  {
    forall c, s :: IsCandidate(src, src.m[tag], c) && Sees(src, tag, c, s) ==> !s.alive
  }

  /** Every candidate of the level is seen, and seen down. */
  ghost predicate AllDown(src: Source, tag: string)
    requires Publishable(src.m) && tag in src.m
  {
    NoneAlive(src, tag) && forall c :: IsCandidate(src, src.m[tag], c) ==> SeesSome(src, tag, c)
  }

  lemma NoBest(src: Source, tag: string)
    requires Publishable(src.m) && tag in src.m && NoneAlive(src, tag)
    ensures Best(CandidateStatuses(src, tag)).None?
  {
    var ss := CandidateStatuses(src, tag);
    if i: nat :| IsBest(ss, i) {
      var c := CandidateAt(src, tag, i);
      SeesIt(src, tag, c);
    }
  }

  lemma AllSeen(src: Source, tag: string)
    requires Publishable(src.m) && tag in src.m
    ensures None !in CandidateStatuses(src, tag) <==> forall c :: IsCandidate(src, src.m[tag], c) ==> SeesSome(src, tag, c)
  {
    var ss := CandidateStatuses(src, tag);
    forall c | IsCandidate(src, src.m[tag], c)
      ensures CandidateStatus(src, tag, c) in ss && (SeesSome(src, tag, c) <==> CandidateStatus(src, tag, c).Some?)
    {
      var i := StatusAt(src, tag, c);
      SeesIt(src, tag, c);
      if CandidateStatus(src, tag, c).Some? { assert Sees(src, tag, c, CandidateStatus(src, tag, c).value); }
    }
    forall i | 0 <= i < |ss| && ss[i] == None
      ensures exists c :: IsCandidate(src, src.m[tag], c) && !SeesSome(src, tag, c)
    {
      var c := CandidateAt(src, tag, i);
      SeesIt(src, tag, c);
      assert !SeesSome(src, tag, c);
    }
  }

  /** Without an override and an alive candidate, a level with one that is not seen is unknown. */
  lemma UnknownLevel(src: Source, tag: string, c: string)
    requires Publishable(src.m) && tag in src.m && !HasOverride(src, tag) && NoneAlive(src, tag)
    requires IsCandidate(src, src.m[tag], c) && !SeesSome(src, tag, c)
    ensures StatusOf(src, tag).None?
  {
    NoBest(src, tag);
    AllSeen(src, tag);
  }

  ghost predicate EndsAtFallback(src: Source, tag: string)
    requires tag in src.m
  {
    src.m[tag].fallbackTag == "" || src.m[tag].fallbackTag in src.blackholes
  }

  /** A level all of whose candidates are down, with no fallback or a blackhole, is known to be down. */
  lemma DownLevel(src: Source, tag: string)
    requires Publishable(src.m) && tag in src.m && !HasOverride(src, tag) && AllDown(src, tag) && EndsAtFallback(src, tag)
    ensures StatusOf(src, tag).Some? && !StatusOf(src, tag).value.alive && StatusOf(src, tag).value.delay == 0
  {
    DownIs(src, tag);
  }

  lemma DownIs(src: Source, tag: string)
    requires Publishable(src.m) && tag in src.m && !HasOverride(src, tag) && AllDown(src, tag) && EndsAtFallback(src, tag)
    ensures StatusOf(src, tag) == Relabel(Some(Down(FirstDead(CandidateStatuses(src, tag)))), tag)
  {
    NoBest(src, tag);
    AllSeen(src, tag);
  }

  lemma FirstIs(src: Source, b: Balancer, c: string)
    requires IsFirst(src, b, c)
    ensures Candidates(src, b) != [] && Candidates(src, b)[0] == c
  {
  }

  /** It is measured as its first candidate was. */
  lemma DownMeasured(src: Source, tag: string, c: string, s: Status)
    requires Publishable(src.m) && tag in src.m && !HasOverride(src, tag) && AllDown(src, tag) && EndsAtFallback(src, tag)
    requires IsFirst(src, src.m[tag], c) && Sees(src, tag, c, s)
    ensures StatusOf(src, tag).Some? && StatusOf(src, tag).value.probe == s.probe
  {
    DownIs(src, tag);
    FirstIs(src, src.m[tag], c);
    SeesIt(src, tag, c);
    var ss := CandidateStatuses(src, tag);
    assert ss[0] == Some(s);
    assert IsFirstDead(ss, 0);
    FirstDeadIs(ss, 0);
  }

  /** A level all of whose candidates are down is as its fallback is: a balancer by its status, an outbound as observed. */
  lemma FallbackLevel(src: Source, tag: string)
    requires Publishable(src.m) && tag in src.m && !HasOverride(src, tag) && AllDown(src, tag) && !EndsAtFallback(src, tag)
    ensures var fallback := src.m[tag].fallbackTag;
      && (fallback in src.m ==>
            && (StatusOf(src, tag).Some? <==> StatusOf(src, fallback).Some?)
            && (StatusOf(src, tag).Some? ==> SameMeasure(StatusOf(src, tag).value, StatusOf(src, fallback).value)))
      && (fallback !in src.m ==>
            && (StatusOf(src, tag).Some? <==> fallback in src.observed)
            && (StatusOf(src, tag).Some? ==> SameMeasure(StatusOf(src, tag).value, src.observed[fallback])))
  {
    NoBest(src, tag);
    AllSeen(src, tag);
  }

  // Over all levels.

  /** Where the status of a level may come from: its override, or one of its candidates or its fallback without one. */
  ghost predicate MayCopy(src: Source, v: string, w: string) {
    && v in src.m
    && if HasOverride(src, v) then w == src.overrides[v]
       else IsCandidate(src, src.m[v], w) || (w == src.m[v].fallbackTag && !EndsAtFallback(src, v))
  }

  /** A chain of balancers, each of which may copy the status of the next, down to an outbound. */
  ghost predicate IsTrail(src: Source, p: seq<string>) {
    |p| >= 2 && forall i :: 0 <= i < |p| - 1 ==> MayCopy(src, p[i], p[i + 1])
  }

  lemma TrailGrows(src: Source, v: string, p: seq<string>)
    requires IsTrail(src, p) && MayCopy(src, v, p[0])
    ensures IsTrail(src, [v] + p)
  {
    var q := [v] + p;
    forall i | 0 <= i < |q| - 1 ensures MayCopy(src, q[i], q[i + 1]) {
      if i > 0 { assert MayCopy(src, p[i - 1], p[i]); }
    }
  }

  /** An alive level takes its measurement from something it may copy, which is alive. */
  lemma AliveFrom(src: Source, tag: string) returns (w: string)
    requires Publishable(src.m) && StatusOf(src, tag).Some? && StatusOf(src, tag).value.alive
    ensures MayCopy(src, tag, w)
    ensures (w in src.observed && SameMeasure(StatusOf(src, tag).value, src.observed[w]))
         || (!HasOverride(src, tag) && (w in src.m[tag].members || w == src.m[tag].fallbackTag) && w in src.m
             && StatusOf(src, w).Some? && SameMeasure(StatusOf(src, tag).value, StatusOf(src, w).value))
  {
    if HasOverride(src, tag) { return src.overrides[tag]; }
    var ss := CandidateStatuses(src, tag);
    if k: nat :| IsBest(ss, k) && Best(ss) == ss[k] {
      w := CandidateAt(src, tag, k);
      EdgeDecreases(src.m, tag);
    } else {
      w := src.m[tag].fallbackTag;
    }
  }

  /**
   The status of an alive balancer is that of an alive outbound that is observed, with its delay and its measurement, and
   that is reached from the balancer through overrides, candidates and fallbacks.
   */
  lemma {:induction false} AliveIsObserved(src: Source, tag: string) returns (p: seq<string>)
    requires Publishable(src.m) && StatusOf(src, tag).Some? && StatusOf(src, tag).value.alive
    ensures IsTrail(src, p) && p[0] == tag
    ensures p[|p| - 1] in src.observed && src.observed[p[|p| - 1]].alive
    ensures SameMeasure(StatusOf(src, tag).value, src.observed[p[|p| - 1]])
    decreases Rank(src.m, tag)
  {
    var w := AliveFrom(src, tag);
    if w in src.observed && SameMeasure(StatusOf(src, tag).value, src.observed[w]) {
      p := [tag, w];
    } else {
      EdgeDecreases(src.m, tag);
      var rest := AliveIsObserved(src, w);
      TrailGrows(src, tag, rest);
      p := [tag] + rest;
    }
  }
}
