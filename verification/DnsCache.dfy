/**
 The DNS answer cache and the migration of its map in the background (app/dns/cache_controller.go). Each locked section
 is one step; a run is any interleaving of steps. Records are values: they are changed in place only while no migration
 runs. Times are numbers, and the time of a step is a parameter.
 */
module DnsCache {
  import opened Options

  datatype Answer = Answer(ips: seq<int>, expire: int)

  datatype Record = Record(a: Option<Answer>, aaaa: Option<Answer>)

  type Records = map<string, Record>

  const MIN_SIZE_FOR_EMPTY_REBUILD := 512
  const SHRINK_ABSOLUTE_THRESHOLD := 10240
  const SHRINK_RATIO_THRESHOLD := 0.65

  /** The two maps, the high watermark, and the keys of the dirty map that its migration has still to flush. */
  datatype Cache = Cache(ips: Records, dirtyips: Option<Records>, highWatermark: nat, pending: set<string>)

  function Get(m: Records, d: string): Record {
    if d in m then m[d] else Record(None, None)
  }

  function Dirty(c: Cache, d: string): Record {
    if c.dirtyips.Some? then Get(c.dirtyips.value, d) else Record(None, None)
  }

  function Over<T>(x: Option<T>, y: Option<T>): Option<T> {
    if x.Some? then x else y
  }

  /** x field by field where it has one, else y. */
  function MergeOver(x: Record, y: Record): Record {
    Record(Over(x.a, y.a), Over(x.aaaa, y.aaaa))
  }

  /** What the cache holds for a domain: ips over dirtyips. */
  function ViewAt(c: Cache, d: string): Record {
    MergeOver(Get(c.ips, d), Dirty(c, d))
  }

  /** A flushed dirty record has no field that ips lacks. */
  ghost predicate Covered(x: Record, y: Record) {
    (y.a.Some? ==> x.a.Some?) && (y.aaaa.Some? ==> x.aaaa.Some?)
  }

  ghost predicate Valid(c: Cache) {
    && (c.dirtyips.None? ==> c.pending == {})
    && (c.dirtyips.Some? ==> c.pending <= c.dirtyips.value.Keys)
    && (c.dirtyips.Some? ==> forall k :: k in c.dirtyips.value && k !in c.pending ==> Covered(Get(c.ips, k), c.dirtyips.value[k]))
  }

  // The steps, without their loops.

  function UpdateStep(c: Cache, domain: string, v4: bool, rep: Answer): Cache {
    var rec0 := Get(c.ips, domain);
    var rec := if v4 then Record(Some(rep), rec0.aaaa) else Record(rec0.a, Some(rep));
    c.(ips := c.ips[domain := rec])
  }

  function Expire(x: Option<Answer>, now: int): Option<Answer> {
    if x.Some? && x.value.expire < now then None else x
  }

  function ExpireRecord(r: Record, now: int): Record {
    Record(Expire(r.a, now), Expire(r.aaaa, now))
  }

  function FlushOne(ips: Records, key: string, dirty: Record): Records {
    ips[key := if key in ips then MergeOver(ips[key], dirty) else dirty]
  }

  function FlushAll(ips: Records, dirty: Records, batch: seq<string>): Records
    requires forall k :: k in batch ==> k in dirty
  {
    if batch == [] then ips
    else
      var n := |batch| - 1;
      FlushOne(FlushAll(ips, dirty, batch[..n]), batch[n], dirty[batch[n]])
  }

  lemma {:induction false} FlushAllAt(ips: Records, dirty: Records, batch: seq<string>, d: string)
    requires forall k :: k in batch ==> k in dirty
    ensures Get(FlushAll(ips, dirty, batch), d) == if d in batch then MergeOver(Get(ips, d), dirty[d]) else Get(ips, d)
    ensures d in ips ==> d in FlushAll(ips, dirty, batch)
  {
    if batch != [] {
      var n := |batch| - 1;
      FlushAllAt(ips, dirty, batch[..n], d);
      FlushAllAt(ips, dirty, batch[..n], batch[n]);
      assert d in batch <==> d in batch[..n] || d == batch[n];
    }
  }

  /** The given keys without what expired, and without the records that this leaves empty. */
  function Cleaned(ips: Records, keys: seq<string>, now: int): Records {
    map d | d in ips && !(d in keys && ExpireRecord(ips[d], now) == Record(None, None)) ::
      if d in keys then ExpireRecord(ips[d], now) else ips[d]
  }

  /** A map that fell far enough below its peak is migrated to a new one, an emptied one replaced at once. */
  function ShrinkStep(c: Cache, m: Records, hw: nat): Cache {
    if |m| == 0 then
      if hw >= MIN_SIZE_FOR_EMPTY_REBUILD then c.(ips := map[], highWatermark := 0)
      else c.(ips := m, highWatermark := hw)
    else if hw - |m| > SHRINK_ABSOLUTE_THRESHOLD && (hw - |m|) as real > hw as real * SHRINK_RATIO_THRESHOLD then
      Cache(map[], Some(m), |m|, m.Keys)
    else c.(ips := m, highWatermark := hw)
  }

  function CleanupStep(c: Cache, keys: seq<string>, now: int): Cache {
    if c.dirtyips.Some? then c
    else ShrinkStep(c, Cleaned(c.ips, keys, now), if |c.ips| > c.highWatermark then |c.ips| else c.highWatermark)
  }

  class CacheController {
    var ips: Records
    var dirtyips: Option<Records>
    var highWatermark: nat
    /** What the migration goroutine has still to flush. */
    ghost var pending: set<string>

    constructor ()
      ensures Now() == Cache(map[], None, 0, {})
    {
      ips, dirtyips, highWatermark, pending := map[], None, 0, {};
    }

    ghost function Now(): Cache
      reads this
    {
      Cache(ips, dirtyips, highWatermark, pending)
    }

    /** updateRecord; other is the other family's answer that is published along with this one. */
    method UpdateRecord(domain: string, v4: bool, rep: Answer) returns (other: Option<Answer>)
      modifies this
      ensures Now() == UpdateStep(old(Now()), domain, v4, rep)
      ensures other == if v4 then ViewAt(old(Now()), domain).aaaa else ViewAt(old(Now()), domain).a
    {
      var oldRec := if domain in ips then Some(ips[domain]) else None;
      var dirtyRec := None;
      if dirtyips.Some? && domain in dirtyips.value { dirtyRec := Some(dirtyips.value[domain]); }
      var newRec := Record(None, None);
      other := None;
      if v4 {
        newRec := newRec.(a := Some(rep));
        if oldRec.Some? && oldRec.value.aaaa.Some? {
          newRec := newRec.(aaaa := oldRec.value.aaaa);
          other := oldRec.value.aaaa;
        } else if dirtyRec.Some? && dirtyRec.value.aaaa.Some? {
          other := dirtyRec.value.aaaa;
        }
      } else {
        newRec := newRec.(aaaa := Some(rep));
        if oldRec.Some? && oldRec.value.a.Some? {
          newRec := newRec.(a := oldRec.value.a);
          other := oldRec.value.a;
        } else if dirtyRec.Some? && dirtyRec.value.a.Some? {
          other := dirtyRec.value.a;
        }
      }
      ips := ips[domain := newRec];
    }

    /** The loop of writeAndShrink over the keys that were found expired. */
    method Clean(expiredKeys: seq<string>, now: int)
      modifies this`ips
      ensures ips == Cleaned(old(ips), expiredKeys, now)
    {
      assert Cleaned(ips, [], now) == ips;
      for i := 0 to |expiredKeys|
        invariant ips == Cleaned(old(ips), expiredKeys[..i], now)
      {
        var domain := expiredKeys[i];
        assert forall d :: d in expiredKeys[..i + 1] <==> d in expiredKeys[..i] || d == domain;
        if domain in ips {
          var rec := ips[domain];
          if rec.a.Some? && rec.a.value.expire < now { rec := rec.(a := None); }
          if rec.aaaa.Some? && rec.aaaa.value.expire < now { rec := rec.(aaaa := None); }
          ips := ips[domain := rec];
          if rec.a.None? && rec.aaaa.None? { ips := ips - {domain}; }
        }
      }
      assert expiredKeys[..|expiredKeys|] == expiredKeys;
    }

    /** writeAndShrink. */
    method WriteAndShrink(expiredKeys: seq<string>, now: int)
      requires Valid(Now())
      modifies this
      ensures Now() == CleanupStep(old(Now()), expiredKeys, now)
    {
      if dirtyips.Some? { return; }
      var lenBefore := |ips|;
      if lenBefore > highWatermark { highWatermark := lenBefore; }
      Clean(expiredKeys, now);
      var lenAfter := |ips|;
      if lenAfter == 0 {
        if highWatermark >= MIN_SIZE_FOR_EMPTY_REBUILD { ips, highWatermark := map[], 0; }
        return;
      }
      var reduction := highWatermark - lenAfter;
      if reduction > SHRINK_ABSOLUTE_THRESHOLD && reduction as real > highWatermark as real * SHRINK_RATIO_THRESHOLD {
        dirtyips, ips, highWatermark := Some(ips), map[], lenAfter;
        pending := dirtyips.value.Keys;
      }
    }

    /** flush of one batch of the migration. */
    method Flush(batch: seq<string>)
      requires dirtyips.Some? && forall k :: k in batch ==> k in dirtyips.value
      modifies this
      ensures Now() == FlushStep(old(Now()), batch)
    {
      for i := 0 to |batch|
        invariant dirtyips == old(dirtyips) && highWatermark == old(highWatermark) && pending == old(pending)
        invariant ips == FlushAll(old(ips), dirtyips.value, batch[..i])
      {
        var key, dirty := batch[i], dirtyips.value[batch[i]];
        assert batch[..i + 1][..i] == batch[..i];
        if key in ips {
          var cur := ips[key];
          var merge := Record(None, None);
          if cur.a.None? { merge := merge.(a := dirty.a); } else { merge := merge.(a := cur.a); }
          if cur.aaaa.None? { merge := merge.(aaaa := dirty.aaaa); } else { merge := merge.(aaaa := cur.aaaa); }
          ips := ips[key := merge];
        } else {
          ips := ips[key := dirty];
        }
      }
      assert batch[..|batch|] == batch;
      pending := pending - set k | k in batch;
    }

    /** The end of migrate: the dirty map is dropped, and nothing that could be seen is lost with it. */
    method Complete()
      requires Valid(Now()) && dirtyips.Some? && pending == {}
      modifies this
      ensures Now() == old(Now()).(dirtyips := None) && Valid(Now())
      ensures forall d :: ViewAt(Now(), d) == ViewAt(old(Now()), d)
      ensures forall d, v4 :: !Misses(Now(), d, v4)
    {
      CompleteView(Now());
      dirtyips := None;
    }

    /** findRecords: of each family what the cache holds, unless it misses it. */
    method FindRecords(domain: string) returns (rec: Option<Record>)
      requires Valid(Now())
      ensures rec == LookUp(Now(), domain)
      ensures forall v4 ::
        (if rec.Some? then Field(rec.value, v4) else None) ==
        (if Misses(Now(), domain, v4) then None else Field(ViewAt(Now(), domain), v4))
    {
      FindShowsView(Now(), domain, true);
      FindShowsView(Now(), domain, false);
      rec := if domain in ips then Some(ips[domain]) else None;
      if rec.None? && dirtyips.Some? && domain in dirtyips.value { rec := Some(dirtyips.value[domain]); }
    }
  }

  function LookUp(c: Cache, d: string): Option<Record> {
    if d in c.ips then Some(c.ips[d])
    else if c.dirtyips.Some? && d in c.dirtyips.value then Some(c.dirtyips.value[d])
    else None
  }

  function FlushStep(c: Cache, batch: seq<string>): Cache
    requires c.dirtyips.Some? && forall k :: k in batch ==> k in c.dirtyips.value
  {
    c.(ips := FlushAll(c.ips, c.dirtyips.value, batch), pending := c.pending - set k | k in batch)
  }

  // What each step does to the view.

  lemma UpdateView(c: Cache, domain: string, v4: bool, rep: Answer)
    requires Valid(c)
    ensures Valid(UpdateStep(c, domain, v4, rep))
    ensures forall d :: ViewAt(UpdateStep(c, domain, v4, rep), d) ==
              if d != domain then ViewAt(c, d)
              else if v4 then ViewAt(c, d).(a := Some(rep)) else ViewAt(c, d).(aaaa := Some(rep))
  {}

  /** A cleanup takes what expired out of the view and nothing else, also when it starts a migration. */
  lemma CleanupView(c: Cache, keys: seq<string>, now: int)
    requires Valid(c)
    ensures Valid(CleanupStep(c, keys, now))
    ensures c.dirtyips.None? ==> forall d ::
      ViewAt(CleanupStep(c, keys, now), d) == if d in keys then ExpireRecord(ViewAt(c, d), now) else ViewAt(c, d)
  {}

  /** A flush changes nothing that can be seen, and no answer in ips. */
  lemma FlushView(c: Cache, batch: seq<string>)
    requires Valid(c) && c.dirtyips.Some? && forall k :: k in batch ==> k in c.dirtyips.value
    ensures var f := FlushStep(c, batch);
            && Valid(f)
            && (forall d :: ViewAt(f, d) == ViewAt(c, d))
            && (forall d :: (Get(c.ips, d).a.Some? ==> Get(f.ips, d).a == Get(c.ips, d).a) &&
                            (Get(c.ips, d).aaaa.Some? ==> Get(f.ips, d).aaaa == Get(c.ips, d).aaaa))
  {
    forall d
      ensures Get(FlushStep(c, batch).ips, d) == if d in batch then MergeOver(Get(c.ips, d), c.dirtyips.value[d]) else Get(c.ips, d)
    {
      FlushAllAt(c.ips, c.dirtyips.value, batch, d);
    }
  }

  /** When the migration completes, ips alone is what was seen before. */
  lemma CompleteView(c: Cache)
    requires Valid(c) && c.dirtyips.Some? && c.pending == {}
    ensures var e := c.(dirtyips := None);
            Valid(e) && forall d :: ViewAt(e, d) == ViewAt(c, d) && Get(c.ips, d) == ViewAt(c, d)
  {}

  // What a lookup sees.

  function Field(r: Record, v4: bool): Option<Answer> {
    if v4 then r.a else r.aaaa
  }

  /** What a lookup shows of one family. */
  function Shown(c: Cache, d: string, v4: bool): Option<Answer> {
    if LookUp(c, d).Some? then Field(LookUp(c, d).value, v4) else None
  }

  /** The cache holds an answer that a lookup does not show. */
  predicate Misses(c: Cache, d: string, v4: bool) {
    Field(ViewAt(c, d), v4).Some? && Shown(c, d, v4).None?
  }

  /** A lookup never shows an answer that the cache does not hold, and misses one only while its record is to be flushed. */
  lemma FindShowsView(c: Cache, d: string, v4: bool)
    requires Valid(c)
    ensures Shown(c, d, v4) == if Misses(c, d, v4) then None else Field(ViewAt(c, d), v4)
    ensures Misses(c, d, v4) ==> d in c.pending
  {}

  /** An update hides the other family's answer exactly if only the dirty map has it. */
  lemma UpdateHides(c: Cache, d: string, v4: bool, rep: Answer)
    requires Valid(c)
    ensures Misses(UpdateStep(c, d, v4, rep), d, !v4) <==> Field(Dirty(c, d), !v4).Some? && Field(Get(c.ips, d), !v4).None?
    ensures Misses(UpdateStep(c, d, v4, rep), d, !v4) ==> d in c.pending
  {
    var n := UpdateStep(c, d, v4, rep);
    UpdateView(c, d, v4, rep);
    FindShowsView(n, d, !v4);
    assert n.pending == c.pending;
  }

  // Runs.

  datatype Event =
    | Update(domain: string, v4: bool, rep: Answer)
    | Cleanup(keys: seq<string>, now: int)
    | Flush(batch: seq<string>)
    | Complete

  /** One step of the cache; a migration flushes entries of its dirty map and completes when none is left. */
  ghost predicate IsStep(c: Cache, e: Event, n: Cache) {
    match e
    case Update(domain, v4, rep) => n == UpdateStep(c, domain, v4, rep)
    case Cleanup(keys, now) => n == CleanupStep(c, keys, now)
    case Flush(batch) =>
      c.dirtyips.Some? && (forall k :: k in batch ==> k in c.dirtyips.value) && n == FlushStep(c, batch)
    case Complete => c.dirtyips.Some? && c.pending == {} && n == c.(dirtyips := None)
  }

  ghost predicate IsRun(states: seq<Cache>, events: seq<Event>) {
    && |states| == |events| + 1 && states[0] == Cache(map[], None, 0, {})
    && forall i {:trigger events[i]} :: 0 <= i < |events| ==> IsStep(states[i], events[i], states[i + 1])
  }

  /** The same events on a plain record, without maps or migrations; a cleanup is skipped while one is under way. */
  ghost function Plain(r: Record, e: Event, d: string, migrating: bool): Record {
    match e
    case Update(domain, v4, rep) =>
      if d != domain then r else if v4 then r.(a := Some(rep)) else r.(aaaa := Some(rep))
    case Cleanup(keys, now) => if d in keys && !migrating then ExpireRecord(r, now) else r
    case Flush(_) => r
    case Complete => r
  }

  ghost function PlainRun(states: seq<Cache>, events: seq<Event>, d: string, k: nat): Record
    requires k <= |events| < |states|
  {
    if k == 0 then Record(None, None)
    else Plain(PlainRun(states, events, d, k - 1), events[k - 1], d, states[k - 1].dirtyips.Some?)
  }

  lemma StepRefines(c: Cache, e: Event, n: Cache, d: string)
    requires Valid(c) && IsStep(c, e, n)
    ensures Valid(n) && ViewAt(n, d) == Plain(ViewAt(c, d), e, d, c.dirtyips.Some?)
  {
    match e
    case Update(domain, v4, rep) => UpdateView(c, domain, v4, rep);
    case Cleanup(keys, now) => CleanupView(c, keys, now);
    case Flush(batch) => FlushView(c, batch);
    case Complete => CompleteView(c);
  }

  /** Refinement: in every interleaving the cache shows what one plain record per domain would hold. */
  lemma {:induction false} RunRefines(states: seq<Cache>, events: seq<Event>, d: string, k: nat)
    requires IsRun(states, events) && k <= |events|
    ensures Valid(states[k]) && ViewAt(states[k], d) == PlainRun(states, events, d, k)
  {
    if k > 0 {
      RunRefines(states, events, d, k - 1);
      assert IsStep(states[k - 1], events[k - 1], states[k]);
      StepRefines(states[k - 1], events[k - 1], states[k], d);
    }
  }

  /** e neither answers the family again nor cleans its key at a time when rep has expired. */
  ghost predicate Spares(e: Event, d: string, v4: bool, rep: Answer) {
    && !(e.Update? && e.domain == d && e.v4 == v4)
    && (e.Cleanup? && d in e.keys ==> e.now <= rep.expire)
  }

  lemma PlainKeeps(r: Record, e: Event, d: string, migrating: bool, v4: bool, rep: Answer)
    requires if e.Update? && e.domain == d && e.v4 == v4 then e.rep == rep else Spares(e, d, v4, rep) && Field(r, v4) == Some(rep)
    ensures Field(Plain(r, e, d, migrating), v4) == Some(rep)
  {}

  /** The newest answer of a family stays what the cache shows until a cleanup of its key finds it expired. */
  lemma {:induction false} NewestStays(states: seq<Cache>, events: seq<Event>, d: string, v4: bool, i: nat, k: nat, rep: Answer)
    requires IsRun(states, events) && i < k <= |events| && events[i] == Update(d, v4, rep)
    requires forall j :: i < j < k ==> Spares(events[j], d, v4, rep)
    ensures Field(ViewAt(states[k], d), v4) == Some(rep)
    decreases k
  {
    if i < k - 1 { NewestStays(states, events, d, v4, i, k - 1, rep); }
    RunRefines(states, events, d, k - 1);
    RunRefines(states, events, d, k);
    PlainKeeps(ViewAt(states[k - 1], d), events[k - 1], d, states[k - 1].dirtyips.Some?, v4, rep);
  }

  /** A cleanup outside a migration takes away what has expired of the keys it is given, of either family, and no more. */
  lemma ExpiredGoes(states: seq<Cache>, events: seq<Event>, d: string, v4: bool, k: nat)
    requires IsRun(states, events) && k < |events| && events[k].Cleanup? && states[k].dirtyips.None?
    ensures var before, after := Field(ViewAt(states[k], d), v4), Field(ViewAt(states[k + 1], d), v4);
      if d in events[k].keys && before.Some? && before.value.expire < events[k].now then after == None else after == before
  {
    RunRefines(states, events, d, k);
    RunRefines(states, events, d, k + 1);
  }

  // When a lookup misses an answer.

  ghost predicate UpdatedIn(events: seq<Event>, from: nat, to: nat, d: string, v4: bool)
    requires to <= |events|
  {
    exists j :: from <= j < to && events[j].Update? && events[j].domain == d && events[j].v4 == v4
  }

  ghost predicate FlushedIn(events: seq<Event>, from: nat, to: nat, d: string)
    requires to <= |events|
  {
    exists j :: from <= j < to && events[j].Flush? && d in events[j].batch
  }

  /** The migration that is under way after k events was started by event i. */
  ghost predicate StartedBy(states: seq<Cache>, i: nat, k: nat)
    requires k < |states|
  {
    i < k && states[i].dirtyips.None? && forall j :: i < j <= k ==> states[j].dirtyips.Some?
  }

  /** What ips has of a domain since a migration of m started: as long as it is not flushed, what was updated since. */
  ghost predicate SinceStart(c: Cache, m: Records, events: seq<Event>, i: nat, k: nat, d: string)
    requires i < k <= |events|
  {
    && c.dirtyips == Some(m) && Valid(c)
    && (d in c.pending <==> d in m && !FlushedIn(events, i + 1, k, d))
    && (!FlushedIn(events, i + 1, k, d) ==>
          && (Field(Get(c.ips, d), true).Some? <==> UpdatedIn(events, i + 1, k, d, true))
          && (Field(Get(c.ips, d), false).Some? <==> UpdatedIn(events, i + 1, k, d, false))
          && (d in c.ips <==> UpdatedIn(events, i + 1, k, d, true) || UpdatedIn(events, i + 1, k, d, false)))
  }

  lemma StartIs(states: seq<Cache>, events: seq<Event>, i: nat, d: string)
    requires IsRun(states, events) && i < |events| && states[i].dirtyips.None? && states[i + 1].dirtyips.Some?
    ensures SinceStart(states[i + 1], states[i + 1].dirtyips.value, events, i, i + 1, d)
    ensures ViewAt(states[i + 1], d) == Get(states[i + 1].dirtyips.value, d)
  {
    RunRefines(states, events, d, i + 1);
    assert IsStep(states[i], events[i], states[i + 1]);
  }

  lemma UpdatedNext(events: seq<Event>, from: nat, to: nat, d: string, v4: bool)
    requires from <= to < |events|
    ensures var e := events[to];
      UpdatedIn(events, from, to + 1, d, v4) <==> UpdatedIn(events, from, to, d, v4) || (e.Update? && e.domain == d && e.v4 == v4)
  {}

  lemma FlushedNext(events: seq<Event>, from: nat, to: nat, d: string)
    requires from <= to < |events|
    ensures var e := events[to];
      FlushedIn(events, from, to + 1, d) <==> FlushedIn(events, from, to, d) || (e.Flush? && d in e.batch)
  {}

  lemma SinceNext(c: Cache, e: Event, n: Cache, m: Records, events: seq<Event>, i: nat, k: nat, d: string)
    requires i < k < |events| && events[k] == e && SinceStart(c, m, events, i, k, d) && IsStep(c, e, n) && n.dirtyips.Some?
    ensures SinceStart(n, m, events, i, k + 1, d)
  {
    UpdatedNext(events, i + 1, k, d, true);
    UpdatedNext(events, i + 1, k, d, false);
    FlushedNext(events, i + 1, k, d);
    StepRefines(c, e, n, d);
    if e.Flush? && d !in e.batch { FlushKeeps(c.ips, m, e.batch, d); }
  }

  lemma {:induction false} FlushKeeps(ips: Records, dirty: Records, batch: seq<string>, d: string)
    requires (forall k :: k in batch ==> k in dirty) && d !in batch
    ensures d in FlushAll(ips, dirty, batch) <==> d in ips
    ensures d in ips ==> FlushAll(ips, dirty, batch)[d] == ips[d]
  {
    if batch != [] {
      var n := |batch| - 1;
      assert d != batch[n] && d !in batch[..n];
      FlushKeeps(ips, dirty, batch[..n], d);
    }
  }

  lemma {:induction false} SinceStarted(states: seq<Cache>, events: seq<Event>, i: nat, k: nat, d: string)
    requires IsRun(states, events) && k <= |events| && StartedBy(states, i, k)
    ensures states[i + 1].dirtyips.Some? && SinceStart(states[k], states[i + 1].dirtyips.value, events, i, k, d)
  {
    StartIs(states, events, i, d);
    if i + 1 < k {
      SinceStarted(states, events, i, k - 1, d);
      assert IsStep(states[k - 1], events[k - 1], states[k]);
      SinceNext(states[k - 1], events[k - 1], states[k], states[i + 1].dirtyips.value, events, i, k - 1, d);
    }
  }

  lemma {:induction false} StartOf(states: seq<Cache>, events: seq<Event>, k: nat) returns (i: nat)
    requires IsRun(states, events) && k <= |events| && states[k].dirtyips.Some?
    ensures StartedBy(states, i, k)
  {
    if states[k - 1].dirtyips.None? { i := k - 1; } else { i := StartOf(states, events, k - 1); }
  }

  /**
   The record was in the cache when the migration started and is not flushed, and since then the domain was updated in the
   other family but not in this one.
   */
  ghost predicate HiddenSince(states: seq<Cache>, events: seq<Event>, i: nat, k: nat, d: string, v4: bool)
    requires k <= |events| < |states|
  {
    && StartedBy(states, i, k) && Field(ViewAt(states[i + 1], d), v4).Some? && !FlushedIn(events, i + 1, k, d)
    && UpdatedIn(events, i + 1, k, d, !v4) && !UpdatedIn(events, i + 1, k, d, v4)
  }

  lemma MissesSince(states: seq<Cache>, events: seq<Event>, i: nat, k: nat, d: string, v4: bool)
    requires IsRun(states, events) && k <= |events| && StartedBy(states, i, k)
    ensures Misses(states[k], d, v4) <==> HiddenSince(states, events, i, k, d, v4)
  {
    SinceStarted(states, events, i, k, d);
    StartIs(states, events, i, d);
  }

  /** Over every run, exactly when a lookup misses an answer that the cache holds. */
  lemma MissesExactly(states: seq<Cache>, events: seq<Event>, k: nat, d: string, v4: bool)
    requires IsRun(states, events) && k <= |events|
    ensures Misses(states[k], d, v4) <==> exists i :: HiddenSince(states, events, i, k, d, v4)
  {
    if states[k].dirtyips.Some? {
      var i := StartOf(states, events, k);
      MissesSince(states, events, i, k, d, v4);
    }
    forall i: nat | HiddenSince(states, events, i, k, d, v4) ensures Misses(states[k], d, v4) {
      MissesSince(states, events, i, k, d, v4);
    }
  }

  // A run that misses one.

  /** The n domains of the run, told apart by their length. */
  function Name(j: nat): string {
    seq(j, _ => 'x')
  }

  /** The first one outlives the others. */
  function Reply(j: nat): Answer {
    Answer([1], if j == 0 then 1 else 0)
  }

  ghost function Filled(n: nat): Records {
    if n == 0 then map[] else Filled(n - 1)[Name(n - 1) := Record(Some(Reply(n - 1)), None)]
  }

  lemma {:induction false} FilledIs(n: nat)
    ensures |Filled(n)| == n
    ensures forall s :: s in Filled(n) <==> |s| < n && s == Name(|s|)
    ensures forall s :: s in Filled(n) ==> Filled(n)[s] == Record(Some(Reply(|s|)), None)
  {
    if n > 0 { FilledIs(n - 1); }
  }

  ghost function Filling(j: nat): Event {
    Update(Name(j), true, Reply(j))
  }

  ghost function FilledTo(j: nat): Cache {
    Cache(Filled(j), None, 0, {})
  }

  lemma FillingIs(j: nat)
    ensures IsStep(FilledTo(j), Filling(j), FilledTo(j + 1))
  {
    FilledIs(j);
  }

  /** Cleaning all but the first leaves one record and starts a migration of it. */
  lemma CleaningIs(n: nat, keys: seq<string>)
    requires n == SHRINK_ABSOLUTE_THRESHOLD + 2 && keys == seq(n - 1, j requires 0 <= j < n - 1 => Name(j + 1))
    ensures CleanupStep(FilledTo(n), keys, 1) ==
      Cache(map[], Some(map[Name(0) := Record(Some(Reply(0)), None)]), 1, {Name(0)})
  {
    FilledIs(n);
    var left := Cleaned(Filled(n), keys, 1);
    forall s ensures s in left <==> s == Name(0) {
      if s in Filled(n) && s != Name(0) { assert keys[|s| - 1] == s; }
    }
    assert left == map[Name(0) := Record(Some(Reply(0)), None)];
  }

  /** The surviving IPv4 answer is in the cache, and an IPv6 answer of the same domain hides it from lookups. */
  lemma HiddenExample()
    ensures exists states, events, d :: IsRun(states, events) && Misses(states[|events|], d, true)
  {
    var n, d := SHRINK_ABSOLUTE_THRESHOLD + 2, Name(0);
    var keys := seq(n - 1, j requires 0 <= j < n - 1 => Name(j + 1));
    var clean := CleanupStep(FilledTo(n), keys, 1);
    var last := Update(d, false, Answer([2], 1));
    var events := seq(n, j requires 0 <= j < n => Filling(j)) + [Cleanup(keys, 1), last];
    var states := seq(n + 1, j requires 0 <= j < n + 1 => FilledTo(j)) + [clean, UpdateStep(clean, d, false, last.rep)];
    CleaningIs(n, keys);
    forall j | 0 <= j < |events| ensures IsStep(states[j], events[j], states[j + 1]) {
      if j < n { FillingIs(j); }
    }
    assert IsRun(states, events) && Misses(states[|events|], d, true);
  }
}
