/**
 Traffic by domain in time buckets (app/stats/domain_traffic.go). Times and durations are nanoseconds since the zero
 time; a bucket's key is its start. A domain is taken as already normalised, "unknown" when there is none.
 */
module DomainTraffic {

  import opened Arithmetic
  import opened Options
  import opened Sets

  const MAX := 0xFFFF_FFFF_FFFF_FFFF

  type Count = n: int | 0 <= n <= MAX

  datatype Traffic = Traffic(up: Count, down: Count)

  datatype Entry = Entry(domain: string, user: string, traffic: Traffic)

  datatype Bucket = Bucket(start: int, sequence: nat, entries: map<string, Entry>, unknown: Traffic)

  type Buckets = map<int, Bucket>

  function SaturatingAdd(current: Count, delta: Count): Count {
    if MAX - current < delta then MAX else current + delta
  }

  function Add(t: Traffic, up: Count, down: Count): Traffic {
    Traffic(SaturatingAdd(t.up, up), SaturatingAdd(t.down, down))
  }

  function Identity(user: string, domain: string): string {
    user + "\0" + domain
  }

  /** time.Truncate. */
  function Truncate(t: int, d: int): int
    requires d > 0
  {
    t - t % d
  }

  lemma TruncateBounds(t: int, d: int)
    requires d > 0
    ensures Truncate(t, d) <= t < Truncate(t, d) + d && Truncate(t, d) % d == 0
  {
    assert t == (t / d) * d + t % d;
    Multiple(t / d, 0, d);
  }

  /** Two starts of intervals are equal or at least one interval apart. */
  lemma AlignedApart(a: int, b: int, d: int)
    requires d > 0 && a % d == 0 && b % d == 0 && a < b
    ensures a + d <= b
  {
    var m, n := a / d, b / d;
    assert a == m * d && b == n * d;
    Distribute(m, n, d);
    Scale(n - m, d);
  }

  lemma TruncateMonotone(s: int, t: int, d: int)
    requires d > 0 && s <= t
    ensures Truncate(s, d) <= Truncate(t, d)
  {
    TruncateBounds(s, d);
    TruncateBounds(t, d);
    if Truncate(t, d) < Truncate(s, d) {
      AlignedApart(Truncate(t, d), Truncate(s, d), d);
      assert false;
    }
  }

  // What a run keeps.

  ghost predicate Stored(buckets: Buckets, identity: string) {
    exists k :: k in buckets && identity in buckets[k].entries
  }

  ghost function Identities(buckets: Buckets): (ids: set<string>)
    ensures forall i :: i in ids <==> Stored(buckets, i)
  {
    set k, i | k in buckets && i in buckets[k].entries :: i
  }

  /**
   The starts of all the buckets ever opened, in the order of their sequence numbers, which is the order of time; the
   first pruned of them are gone and all the others are there.
   */
  ghost predicate Chronological(buckets: Buckets, history: seq<int>, pruned: nat) {
    && pruned <= |history|
    && (forall i, j :: 0 <= i < j < |history| ==> history[i] < history[j])
    && (forall i :: 0 <= i < |history| ==> (history[i] in buckets <==> pruned <= i))
    && (forall k {:trigger Numbered(buckets[k], k, history)} :: k in buckets ==> Numbered(buckets[k], k, history))
  }

  ghost predicate Numbered(b: Bucket, k: int, history: seq<int>) {
    1 <= b.sequence <= |history| && history[b.sequence - 1] == k && b.start == k
  }

  /** No bucket was opened after the current interval, and those pruned are not the current one. */
  ghost predicate Past(history: seq<int>, pruned: nat, current: int) {
    forall i :: 0 <= i < |history| ==> history[i] <= current && (i < pruned ==> history[i] < current)
  }

  /** A closed bucket may lose an evicted identity, and nothing else changes. */
  ghost predicate Shrunk(before: Bucket, after: Bucket) {
    && after.start == before.start && after.sequence == before.sequence && after.unknown == before.unknown
    && after.entries.Keys <= before.entries.Keys
    && forall i :: i in after.entries ==> after.entries[i] == before.entries[i]
  }

  /** lastSeen has an entry for every stored identity and no other, and there are at most maxDomains of them. */
  ghost predicate Bounded(buckets: Buckets, lastSeen: map<string, int>, maxDomains: int) {
    lastSeen.Keys == Identities(buckets) && |lastSeen.Keys| <= maxDomains
  }

  // Pruning.

  function Kept(buckets: Buckets, cutoff: int): Buckets {
    map k | k in buckets && cutoff <= k :: buckets[k]
  }

  ghost function CountBelow(history: seq<int>, cutoff: int): (n: nat)
    requires forall i, j :: 0 <= i < j < |history| ==> history[i] < history[j]
    ensures n <= |history| && forall i :: 0 <= i < |history| ==> (history[i] < cutoff <==> i < n)
  {
    if history == [] || history[|history| - 1] < cutoff then |history|
    else CountBelow(history[..|history| - 1], cutoff)
  }

  ghost function PrunedBy(history: seq<int>, pruned: nat, cutoff: int): (n: nat)
    requires forall i, j :: 0 <= i < j < |history| ==> history[i] < history[j]
    ensures pruned <= n && (n <= |history| || n == pruned)
  {
    var n := CountBelow(history, cutoff);
    if n < pruned then pruned else n
  }

  lemma KeptChronological(buckets: Buckets, history: seq<int>, pruned: nat, cutoff: int)
    requires Chronological(buckets, history, pruned)
    ensures Chronological(Kept(buckets, cutoff), history, PrunedBy(history, pruned, cutoff))
  {
  }

  lemma KeptPast(history: seq<int>, pruned: nat, current: int, cutoff: int)
    requires cutoff <= current && Past(history, pruned, current)
    requires forall i, j :: 0 <= i < j < |history| ==> history[i] < history[j]
    ensures Past(history, PrunedBy(history, pruned, cutoff), current)
  {
  }

  // The loops over the maps, which the source takes in any order.

  method DropBelow(buckets: Buckets, cutoff: int) returns (r: Buckets)
    ensures r == Kept(buckets, cutoff)
  {
    r := buckets;
    var todo := buckets.Keys;
    while todo != {}
      invariant todo <= r.Keys <= buckets.Keys
      invariant forall k :: k in r ==> r[k] == buckets[k] && (k in todo || cutoff <= k)
      invariant forall k :: k in buckets && cutoff <= k ==> k in r
      decreases |todo|
    {
      var k := Pick(todo);
      todo := todo - {k};
      if k < cutoff { r := r - {k}; }
    }
  }

  /** domainExistsLocked. */
  method Exists(buckets: Buckets, identity: string) returns (found: bool)
    ensures found == Stored(buckets, identity)
  {
    var todo := buckets.Keys;
    while todo != {}
      invariant todo <= buckets.Keys
      invariant forall k :: k in buckets && k !in todo ==> identity !in buckets[k].entries
      decreases |todo|
    {
      var k := Pick(todo);
      if identity in buckets[k].entries { return true; }
      todo := todo - {k};
    }
    found := false;
  }

  /** domainsLocked. */
  method Domains(buckets: Buckets) returns (ids: set<string>)
    ensures ids == Identities(buckets)
  {
    ids := {};
    var todo := buckets.Keys;
    while todo != {}
      invariant todo <= buckets.Keys
      invariant forall i :: i in ids ==> Stored(buckets, i)
      invariant forall k, i :: k in buckets && k !in todo && i in buckets[k].entries ==> i in ids
      decreases |todo|
    {
      var k := Pick(todo);
      todo := todo - {k};
      ids := ids + buckets[k].entries.Keys;
    }
  }

  method DropUnstored(lastSeen: map<string, int>, buckets: Buckets) returns (r: map<string, int>)
    ensures r.Keys == lastSeen.Keys * Identities(buckets)
    ensures forall i :: i in r ==> r[i] == lastSeen[i]
  {
    r := lastSeen;
    var todo := lastSeen.Keys;
    while todo != {}
      invariant todo <= r.Keys <= lastSeen.Keys
      invariant forall i :: i in r ==> r[i] == lastSeen[i] && (i in todo || Stored(buckets, i))
      invariant forall i :: i in lastSeen && Stored(buckets, i) ==> i in r
      decreases |todo|
    {
      var i := Pick(todo);
      todo := todo - {i};
      var found := Exists(buckets, i);
      if !found { r := r - {i}; }
    }
  }

  // Eviction.

  function Drop(b: Bucket, identity: string): Bucket {
    b.(entries := b.entries - {identity})
  }

  function Without(buckets: Buckets, identity: string): Buckets {
    map k | k in buckets :: Drop(buckets[k], identity)
  }

  lemma WithoutIdentities(buckets: Buckets, identity: string)
    ensures Identities(Without(buckets, identity)) == Identities(buckets) - {identity}
  {
    var w := Without(buckets, identity);
    forall i | i in Identities(buckets) && i != identity ensures i in Identities(w) {
      var k :| k in buckets && i in buckets[k].entries;
      assert k in w && i in w[k].entries;
    }
  }

  method DropEntries(buckets: Buckets, identity: string) returns (r: Buckets)
    ensures r == Without(buckets, identity)
  {
    r := buckets;
    var todo := buckets.Keys;
    while todo != {}
      invariant todo <= r.Keys == buckets.Keys
      invariant forall k :: k in r ==>
        r[k] == if k in todo then buckets[k] else Drop(buckets[k], identity)
      decreases |todo|
    {
      var k := Pick(todo);
      todo := todo - {k};
      r := r[k := Drop(r[k], identity)];
    }
    assert forall k :: k in r ==> r[k] == Without(buckets, identity)[k];
  }

  /** The search for an identity with the oldest lastSeen. */
  method Oldest(ids: set<string>, lastSeen: map<string, int>) returns (oldest: Option<string>)
    requires ids <= lastSeen.Keys
    ensures oldest == None <==> ids == {}
    ensures oldest.Some? ==>
      oldest.value in ids && forall i :: i in ids ==> lastSeen[oldest.value] <= lastSeen[i]
  {
    oldest := None;
    var todo := ids;
    while todo != {}
      invariant todo <= ids && (oldest == None <==> todo == ids)
      invariant oldest.Some? ==>
        oldest.value in ids && forall i :: i in ids - todo ==> lastSeen[oldest.value] <= lastSeen[i]
      decreases |todo|
    {
      var i := Pick(todo);
      todo := todo - {i};
      if oldest == None || lastSeen[i] < lastSeen[oldest.value] { oldest := Some(i); }
    }
  }

  // The recorder.

  function Later(a: int, b: int): int {
    if a < b then b else a
  }

  function Fresh(start: int, sequence: nat): Bucket {
    Bucket(start, sequence, map[], Traffic(0, 0))
  }

  /** The bucket of an interval, new if it has none. */
  function Opened(buckets: Buckets, start: int, sequence: nat): Bucket {
    if start in buckets then buckets[start] else Fresh(start, sequence)
  }

  lemma OpenedChronological(buckets: Buckets, history: seq<int>, pruned: nat, current: int)
    requires Chronological(buckets, history, pruned) && Past(history, pruned, current) && current !in buckets
    ensures Chronological(buckets[current := Fresh(current, |history| + 1)], history + [current], pruned)
    ensures Past(history + [current], pruned, current)
  {
    forall i | 0 <= i < |history| ensures history[i] < current {
    }
    var opened' := buckets[current := Fresh(current, |history| + 1)];
    forall k | k in opened' ensures Numbered(opened'[k], k, history + [current]) {
      if k != current { assert Numbered(buckets[k], k, history); }
    }
  }

  /** Numbers and starts are all that the order of the buckets depends on. */
  lemma SameOrder(buckets: Buckets, after: Buckets, history: seq<int>, pruned: nat)
    requires Chronological(buckets, history, pruned) && after.Keys == buckets.Keys
    requires forall k :: k in after ==> after[k].start == buckets[k].start && after[k].sequence == buckets[k].sequence
    ensures Chronological(after, history, pruned)
  {
    forall k | k in after ensures Numbered(after[k], k, history) {
      assert Numbered(buckets[k], k, history);
    }
  }

  /** Five seconds unless an interval is configured. */
  function IntervalOf(configured: int): int {
    if configured <= 0 then 5_000_000_000 else configured
  }

  /** 4096 unless a cap is configured. */
  function CapOf(configured: int): int {
    if configured <= 0 then 4096 else configured
  }

  class Recorder {
    const bootID: string
    const interval: int
    const retention: int
    const maxDomains: int
    var lastTime: int
    var buckets: Buckets
    var lastSeen: map<string, int>
    var nextSeq: nat
    ghost var history: seq<int>
    ghost var pruned: nat

    ghost predicate Valid()
      reads this
    {
      && interval > 0 && retention > 0 && maxDomains > 0
      && Chronological(buckets, history, pruned) && nextSeq == |history| + 1
      && Past(history, pruned, Truncate(lastTime, interval))
      && Bounded(buckets, lastSeen, maxDomains)
    }

    constructor (bootID: string, bucketInterval: int, keep: int, domains: int)
      ensures Valid() && this.bootID == bootID && buckets == map[] && history == [] && lastTime == 0
      ensures interval == IntervalOf(bucketInterval) && maxDomains == CapOf(domains)
    {
      this.bootID := bootID;
      interval := IntervalOf(bucketInterval);
      retention := if keep <= 0 then 300_000_000_000 else keep;
      maxDomains := CapOf(domains);
      lastTime, buckets, lastSeen, nextSeq := 0, map[], map[], 1;
      history, pruned := [], 0;
    }

    /** nowLocked: the clock, but never before an earlier reading. */
    method Now(clock: int) returns (now: int)
      requires Valid()
      modifies `lastTime
      ensures Valid() && now == lastTime == Later(old(lastTime), clock)
    {
      if clock < lastTime { return lastTime; }
      TruncateMonotone(lastTime, clock, interval);
      lastTime := clock;
      now := clock;
    }

    /** pruneLocked. */
    method Prune(now: int)
      requires Valid() && now <= lastTime
      modifies `buckets, `lastSeen, `pruned
      ensures Valid() && buckets == Kept(old(buckets), Truncate(now - retention, interval))
      ensures lastSeen.Keys <= old(lastSeen.Keys) && forall i :: i in lastSeen ==> lastSeen[i] == old(lastSeen)[i]
      ensures pruned == PrunedBy(history, old(pruned), Truncate(now - retention, interval))
    {
      var cutoff := Truncate(now - retention, interval);
      TruncateMonotone(now - retention, lastTime, interval);
      KeptChronological(buckets, history, pruned, cutoff);
      KeptPast(history, pruned, Truncate(lastTime, interval), cutoff);
      var kept := DropBelow(buckets, cutoff);
      var seen := DropUnstored(lastSeen, kept);
      KeptBounded(buckets, lastSeen, maxDomains, cutoff, seen);
      buckets, lastSeen := kept, seen;
      pruned := PrunedBy(history, pruned, cutoff);
    }

    /** The bucket of the current interval, opened by the first record in it. */
    method Open(start: int)
      requires Valid() && start == Truncate(lastTime, interval)
      modifies `buckets, `nextSeq, `history
      ensures Valid() && buckets == old(buckets)[start := Opened(old(buckets), start, old(nextSeq))]
      ensures history == if start in old(buckets) then old(history) else old(history) + [start]
    {
      if start in buckets { return; }
      TruncateBounds(lastTime, interval);
      OpenedChronological(buckets, history, pruned, start);
      assert Identities(buckets[start := Fresh(start, nextSeq)]) == Identities(buckets) by {
        OpenedIdentities(buckets, start, Fresh(start, nextSeq));
      }
      buckets := buckets[start := Fresh(start, nextSeq)];
      nextSeq := nextSeq + 1;
      history := history + [start];
    }

    /** At the cap an identity with the oldest lastSeen leaves every bucket. */
    method Evict() returns (ok: bool, evicted: Option<string>)
      requires Valid() && |lastSeen.Keys| == maxDomains
      modifies `buckets, `lastSeen
      ensures Valid() && ok && |lastSeen.Keys| < maxDomains
      ensures Evicted(old(buckets), old(lastSeen), evicted, buckets, lastSeen)
    {
      var ids := Domains(buckets);
      assert ids == lastSeen.Keys && |ids| > 0;
      evicted := Oldest(ids, lastSeen);
      if evicted == None { return false, evicted; }
      EvictKeeps(buckets, lastSeen, maxDomains, history, pruned, evicted.value);
      buckets := DropEntries(buckets, evicted.value);
      lastSeen := lastSeen - {evicted.value};
      ok := true;
    }

    /** ensureDomainLocked: room for one more identity. */
    method EnsureDomain(identity: string) returns (ok: bool, ghost evicted: Option<string>)
      requires Valid()
      modifies `buckets, `lastSeen
      ensures Valid() && ok
      ensures evicted == None <==> identity in old(lastSeen) || |old(lastSeen.Keys)| < maxDomains
      ensures if evicted == None then buckets == old(buckets) && lastSeen == old(lastSeen)
        else Evicted(old(buckets), old(lastSeen), evicted, buckets, lastSeen)
      ensures identity in lastSeen || |lastSeen.Keys| < maxDomains
    {
      evicted := None;
      var found := Exists(buckets, identity);
      if found { return true, evicted; }
      var ids := Domains(buckets);
      if |ids| < maxDomains { return true, evicted; }
      ok, evicted := Evict();
    }

    method Update(start: int, b: Bucket)
      requires Valid() && start in buckets && b == buckets[start].(unknown := b.unknown)
      modifies `buckets
      ensures Valid() && buckets == old(buckets)[start := b]
    {
      SameOrder(buckets, buckets[start := b], history, pruned);
      SameIdentities(buckets, buckets[start := b]);
      buckets := buckets[start := b];
    }

    /** The traffic of an identity that there is room for. */
    method Charge(start: int, domain: string, user: string, up: Count, down: Count)
      requires Valid() && start in buckets
      requires Identity(user, domain) in lastSeen || |lastSeen.Keys| < maxDomains
      modifies `buckets, `lastSeen
      ensures Valid() && buckets == Charged(old(buckets), start, domain, user, up, down)
      ensures lastSeen == old(lastSeen)[Identity(user, domain) := lastTime]
    {
      var identity := Identity(user, domain);
      var b := buckets[start];
      var e := if identity in b.entries then b.entries[identity] else Entry(domain, user, Traffic(0, 0));
      SameOrder(buckets, Charged(buckets, start, domain, user, up, down), history, pruned);
      ChargedBounded(buckets, lastSeen, maxDomains, start, domain, user, up, down, lastTime);
      lastSeen := lastSeen[identity := lastTime];
      buckets := buckets[start := b.(entries := b.entries[identity := e.(traffic := Add(e.traffic, up, down))])];
    }

    /** What Record does first: the time, pruning, and the bucket of the current interval. */
    method Begin(clock: int) returns (start: int)
      requires Valid()
      modifies this
      ensures Valid() && lastTime == Later(old(lastTime), clock) && start == Truncate(lastTime, interval)
      ensures buckets == Base(old(buckets), Cutoff(lastTime), start, old(nextSeq))
      ensures lastSeen.Keys == Identities(Kept(old(buckets), Cutoff(lastTime))) <= old(lastSeen.Keys)
      ensures forall i :: i in lastSeen ==> lastSeen[i] == old(lastSeen)[i]
      ensures old(history) <= history && old(pruned) <= pruned
    {
      var now := Now(clock);
      start := Truncate(now, interval);
      TruncateBounds(now, interval);
      Prune(start);
      ghost var kept := buckets;
      assert kept == Kept(old(buckets), Cutoff(lastTime)) && lastSeen.Keys == Identities(kept);
      Open(start);
    }

    /** The rest of Record for traffic with an identity. */
    method RecordIdentity(start: int, domain: string, user: string, up: Count, down: Count)
      returns (ghost evicted: Option<string>)
      requires Valid() && start in buckets
      modifies `buckets, `lastSeen
      ensures Valid() && start in Room(old(buckets), evicted)
      ensures buckets == Charged(Room(old(buckets), evicted), start, domain, user, up, down)
      ensures EvictionOf(old(lastSeen.Keys), old(lastSeen), maxDomains, Identity(user, domain), evicted)
      ensures Identity(user, domain) in lastSeen && lastSeen[Identity(user, domain)] == lastTime
    {
      evicted := None;
      var identity := Identity(user, domain);
      if identity !in buckets[start].entries {
        var ok;
        ok, evicted := EnsureDomain(identity);
        if !ok { return; }
      } else {
        assert Stored(buckets, identity);
      }
      Charge(start, domain, user, up, down);
    }

    /**
     Record. Only the bucket of the current interval gains traffic; every other bucket is as before but for an evicted
     identity, and an identity is evicted only to make room at the cap.
     */
    method Record(clock: int, domain: string, up: Count, down: Count, user: string) returns (ghost evicted: Option<string>)
      requires Valid()
      modifies this
      ensures Valid() && lastTime == Later(old(lastTime), clock)
      ensures Recorded(old(buckets), old(nextSeq), Truncate(lastTime, interval), Cutoff(lastTime), domain, user, up, down,
                       evicted, buckets)
      ensures OthersShrink(old(buckets), buckets, Truncate(lastTime, interval))
      ensures old(history) <= history && old(pruned) <= pruned
      ensures domain != "unknown" || user != "" ==>
        && EvictionOf(Identities(Kept(old(buckets), Cutoff(lastTime))), old(lastSeen), maxDomains, Identity(user, domain), evicted)
        && Identity(user, domain) in lastSeen && lastSeen[Identity(user, domain)] == lastTime
    {
      evicted := None;
      var start := Begin(clock);
      if domain == "unknown" && user == "" {
        Update(start, buckets[start].(unknown := Add(buckets[start].unknown, up, down)));
      } else {
        ghost var seen := lastSeen;
        evicted := RecordIdentity(start, domain, user, up, down);
        EvictionSame(seen, old(lastSeen), maxDomains, Identity(user, domain), evicted);
      }
      RecordedShrinks(old(buckets), old(nextSeq), start, Cutoff(lastTime), domain, user, up, down, evicted, buckets);
    }

    /**
     Snapshot. The buckets returned are the closed ones next after the cursor, with consecutive sequence numbers; a gap
     is reported exactly when a bucket after the cursor of this boot has been pruned and others remain.
     */
    method Snapshot(clock: int, afterBootID: string, afterSequence: nat, maxBuckets: nat) returns (r: View)
      requires Valid()
      modifies this
      ensures Valid() && lastTime == Later(old(lastTime), clock)
      ensures history == old(history) && old(pruned) <= pruned
      ensures buckets == Kept(old(buckets), Truncate(lastTime - retention, interval))
      ensures ViewOf(buckets, history, pruned, afterBootID == bootID, afterSequence, lastTime - interval, maxBuckets, r)
    {
      var now := Now(clock);
      Prune(now);
      r := Look(buckets, afterBootID == bootID, afterSequence, now - interval, maxBuckets, history, pruned);
    }

    ghost function Cutoff(now: int): int
      requires interval > 0
    {
      Truncate(Truncate(now, interval) - retention, interval)
    }
  }

  ghost predicate OthersShrink(before: Buckets, after: Buckets, current: int) {
    forall k :: k in after && k != current ==> k in before && Shrunk(before[k], after[k])
  }

  /** The buckets after one record: pruned, with the current bucket opened, room made and the traffic added. */
  ghost predicate Recorded(before: Buckets, sequence: nat, current: int, cutoff: int, domain: string, user: string,
                           up: Count, down: Count, evicted: Option<string>, after: Buckets) {
    var base := Base(before, cutoff, current, sequence);
    if domain == "unknown" && user == ""
    then evicted == None && after == base[current := base[current].(unknown := Add(base[current].unknown, up, down))]
    else after == Charged(Room(base, evicted), current, domain, user, up, down)
  }

  /** The buckets a record finds: pruned, and with a bucket for the current interval. */
  function Base(before: Buckets, cutoff: int, current: int, sequence: nat): (r: Buckets)
    ensures current in r
  {
    var kept := Kept(before, cutoff);
    kept[current := Opened(kept, current, sequence)]
  }

  function Room(buckets: Buckets, evicted: Option<string>): (r: Buckets)
    ensures r.Keys == buckets.Keys
  {
    if evicted == None then buckets else Without(buckets, evicted.value)
  }

  lemma RecordedShrinks(before: Buckets, sequence: nat, current: int, cutoff: int, domain: string, user: string,
                        up: Count, down: Count, evicted: Option<string>, after: Buckets)
    requires Recorded(before, sequence, current, cutoff, domain, user, up, down, evicted, after)
    ensures OthersShrink(before, after, current)
  {
    var base := Base(before, cutoff, current, sequence);
    forall k | k in after && k != current ensures k in before && Shrunk(before[k], after[k]) {
      assert after[k] == Room(base, evicted)[k];
    }
  }

  function Charged(buckets: Buckets, current: int, domain: string, user: string, up: Count, down: Count): Buckets
    requires current in buckets
  {
    var b := buckets[current];
    var identity := Identity(user, domain);
    var e := if identity in b.entries then b.entries[identity] else Entry(domain, user, Traffic(0, 0));
    buckets[current := b.(entries := b.entries[identity := e.(traffic := Add(e.traffic, up, down))])]
  }

  ghost predicate Evicted(buckets: Buckets, lastSeen: map<string, int>, evicted: Option<string>, after: Buckets,
                          seen: map<string, int>)
  {
    && evicted.Some? && evicted.value in lastSeen
    && (forall i :: i in lastSeen ==> lastSeen[evicted.value] <= lastSeen[i])
    && after == Without(buckets, evicted.value) && seen == lastSeen - {evicted.value}
  }

  /** None when the identity is stored or there is room, else a stored identity with the oldest lastSeen. */
  ghost predicate EvictionOf(ids: set<string>, lastSeen: map<string, int>, maxDomains: int, identity: string,
                             evicted: Option<string>)
  {
    && ids <= lastSeen.Keys
    && (evicted == None <==> identity in ids || |ids| < maxDomains)
    && (evicted.Some? ==> evicted.value in ids && forall i :: i in ids ==> lastSeen[evicted.value] <= lastSeen[i])
  }

  lemma EvictionSame(seen: map<string, int>, lastSeen: map<string, int>, maxDomains: int, identity: string, evicted: Option<string>)
    requires EvictionOf(seen.Keys, seen, maxDomains, identity, evicted)
    requires seen.Keys <= lastSeen.Keys && forall i :: i in seen ==> seen[i] == lastSeen[i]
    ensures EvictionOf(seen.Keys, lastSeen, maxDomains, identity, evicted)
  {
  }

  lemma SameIdentities(buckets: Buckets, after: Buckets)
    requires after.Keys == buckets.Keys && forall k :: k in after ==> after[k].entries == buckets[k].entries
    ensures Identities(after) == Identities(buckets)
  {
    forall i | i in Identities(buckets) ensures i in Identities(after) {
      var k :| k in buckets && i in buckets[k].entries;
      assert k in after && i in after[k].entries;
    }
  }

  lemma ChargedBounded(buckets: Buckets, lastSeen: map<string, int>, maxDomains: int, current: int, domain: string,
                       user: string, up: Count, down: Count, now: int)
    requires Bounded(buckets, lastSeen, maxDomains) && current in buckets
    requires Identity(user, domain) in lastSeen || |lastSeen.Keys| < maxDomains
    ensures Bounded(Charged(buckets, current, domain, user, up, down), lastSeen[Identity(user, domain) := now], maxDomains)
  {
    var identity := Identity(user, domain);
    var after := Charged(buckets, current, domain, user, up, down);
    assert (lastSeen[identity := now]).Keys == lastSeen.Keys + {identity};
    forall i | i in Identities(buckets) ensures i in Identities(after) {
      var k :| k in buckets && i in buckets[k].entries;
      assert k in after && i in after[k].entries;
    }
    assert current in after && identity in after[current].entries;
  }

  lemma KeptBounded(buckets: Buckets, lastSeen: map<string, int>, maxDomains: int, cutoff: int, seen: map<string, int>)
    requires Bounded(buckets, lastSeen, maxDomains)
    requires seen.Keys == lastSeen.Keys * Identities(Kept(buckets, cutoff))
    ensures Bounded(Kept(buckets, cutoff), seen, maxDomains)
  {
    assert Identities(Kept(buckets, cutoff)) <= Identities(buckets);
    Fewer(seen.Keys, lastSeen.Keys);
  }

  lemma EvictKeeps(buckets: Buckets, lastSeen: map<string, int>, maxDomains: int, history: seq<int>, pruned: nat, identity: string)
    requires Bounded(buckets, lastSeen, maxDomains) && identity in lastSeen && Chronological(buckets, history, pruned)
    ensures Bounded(Without(buckets, identity), lastSeen - {identity}, maxDomains)
    ensures |(lastSeen - {identity}).Keys| < maxDomains
    ensures Chronological(Without(buckets, identity), history, pruned)
  {
    WithoutBounded(buckets, lastSeen, maxDomains, identity);
    SameOrder(buckets, Without(buckets, identity), history, pruned);
  }

  lemma WithoutBounded(buckets: Buckets, lastSeen: map<string, int>, maxDomains: int, identity: string)
    requires Bounded(buckets, lastSeen, maxDomains) && identity in lastSeen
    ensures Bounded(Without(buckets, identity), lastSeen - {identity}, maxDomains - 1)
  {
    WithoutIdentities(buckets, identity);
    assert (lastSeen - {identity}).Keys == lastSeen.Keys - {identity};
  }

  lemma OpenedIdentities(buckets: Buckets, start: int, b: Bucket)
    requires start !in buckets && b.entries == map[]
    ensures Identities(buckets[start := b]) == Identities(buckets)
  {
    forall i | i in Identities(buckets) ensures i in Identities(buckets[start := b]) {
      var k :| k in buckets && i in buckets[k].entries;
      assert k in buckets[start := b] && i in buckets[start := b][k].entries;
    }
  }

  // Snapshots.

  datatype View = View(oldest: nat, latest: nat, hasGap: bool, buckets: seq<Bucket>)

  /** The first sequence number a snapshot may return. */
  function FirstAfter(sameBoot: bool, afterSequence: nat, pruned: nat): nat {
    if sameBoot && afterSequence > pruned then afterSequence + 1 else pruned + 1
  }

  /** The buckets numbered first, first + 1, ..., all started by the deadline. */
  ghost predicate Consecutive(buckets: Buckets, history: seq<int>, first: nat, deadline: int, page: seq<Bucket>) {
    forall i :: 0 <= i < |page| ==>
      && first + i < |history| + 1 && first > 0 && history[first + i - 1] in buckets
      && page[i] == buckets[history[first + i - 1]] && page[i].sequence == first + i && page[i].start <= deadline
  }

  /** As many of them as there are and may be. */
  ghost predicate Page(buckets: Buckets, history: seq<int>, first: nat, deadline: int, maxBuckets: nat, page: seq<Bucket>) {
    && first > 0 && Consecutive(buckets, history, first, deadline, page)
    && (maxBuckets > 0 ==> |page| <= maxBuckets)
    && (|page| == maxBuckets > 0 || first + |page| > |history| || history[first + |page| - 1] > deadline)
  }

  ghost predicate ViewOf(buckets: Buckets, history: seq<int>, pruned: nat, sameBoot: bool, afterSequence: nat, deadline: int,
                         maxBuckets: nat, r: View) {
    if pruned == |history| then r == View(0, 0, false, [])
    else
      && r.oldest == pruned + 1 && r.latest == |history|
      && (r.hasGap <==> sameBoot && afterSequence < pruned)
      && Page(buckets, history, FirstAfter(sameBoot, afterSequence, pruned), deadline, maxBuckets, r.buckets)
  }

  ghost predicate Ascending(keys: seq<int>) {
    forall i, j :: 0 <= i < j < |keys| ==> keys[i] < keys[j]
  }

  lemma InsertedAscending(keys: seq<int>, k: int, i: nat)
    requires Ascending(keys) && i <= |keys|
    requires (i > 0 ==> keys[i - 1] < k) && (i < |keys| ==> k < keys[i])
    ensures Ascending(keys[..i] + [k] + keys[i..])
  {
    var r := keys[..i] + [k] + keys[i..];
    forall x, y | 0 <= x < y < |r| ensures r[x] < r[y] {
      assert x < i ==> r[x] == keys[x] < k;
      assert y > i ==> r[y] == keys[y - 1] > k;
    }
  }

  method Insert(keys: seq<int>, k: int) returns (r: seq<int>)
    requires Ascending(keys) && k !in keys
    ensures Ascending(r) && forall x :: x in r <==> x in keys || x == k
  {
    var i := |keys|;
    while i > 0 && keys[i - 1] > k
      invariant 0 <= i <= |keys| && forall j :: i <= j < |keys| ==> keys[j] > k
    {
      i := i - 1;
    }
    r := keys[..i] + [k] + keys[i..];
    assert forall x :: x in keys <==> x in keys[..i] || x in keys[i..] by {
      assert keys == keys[..i] + keys[i..];
    }
    assert i > 0 ==> keys[i - 1] != k;
    InsertedAscending(keys, k, i);
  }

  method SortedKeys(s: set<int>) returns (keys: seq<int>)
    ensures Ascending(keys) && forall x :: x in keys <==> x in s
  {
    keys := [];
    var todo := s;
    while todo != {}
      invariant Ascending(keys) && todo <= s && forall x :: x in keys <==> x in s && x !in todo
      decreases |todo|
    {
      var k := Pick(todo);
      todo := todo - {k};
      keys := Insert(keys, k);
    }
  }

  lemma WithoutLast(a: seq<int>)
    requires Ascending(a) && a != []
    ensures Ascending(a[..|a| - 1])
    ensures forall x :: x in a ==> x <= a[|a| - 1]
    ensures forall x :: x in a[..|a| - 1] <==> x in a && x != a[|a| - 1]
    ensures a == a[..|a| - 1] + [a[|a| - 1]]
  {
    assert a == a[..|a| - 1] + [a[|a| - 1]];
  }

  lemma {:induction false} AscendingUnique(a: seq<int>, b: seq<int>)
    requires Ascending(a) && Ascending(b) && forall x :: x in a <==> x in b
    ensures a == b
  {
    assert (a != [] ==> a[0] in a) && (b != [] ==> b[0] in b);
    if a != [] && b != [] {
      var m, n := a[|a| - 1], b[|b| - 1];
      assert m in b && n in a;
      var a', b' := a[..|a| - 1], b[..|b| - 1];
      WithoutLast(a);
      WithoutLast(b);
      assert m == n;
      forall x ensures x in a' <==> x in b' {
        assert x in a' <==> x in a && x != m;
        assert x in b' <==> x in b && x != n;
      }
      AscendingUnique(a', b');
    }
  }

  lemma SortedIsHistory(keys: seq<int>, buckets: Buckets, history: seq<int>, pruned: nat)
    requires Ascending(keys) && (forall x :: x in keys <==> x in buckets)
    requires Chronological(buckets, history, pruned)
    ensures keys == history[pruned..]
  {
    var rest := history[pruned..];
    forall x ensures x in keys <==> x in rest {
      if x in buckets {
        assert Numbered(buckets[x], x, history);
        assert rest[buckets[x].sequence - 1 - pruned] == x;
      }
    }
    AscendingUnique(keys, rest);
  }

  lemma KeyNumber(buckets: Buckets, history: seq<int>, pruned: nat, i: nat)
    requires Chronological(buckets, history, pruned) && pruned + i < |history|
    ensures history[pruned + i] in buckets && buckets[history[pruned + i]].sequence == pruned + i + 1
    ensures buckets[history[pruned + i]].start == history[pruned + i]
  {
    assert Numbered(buckets[history[pruned + i]], history[pruned + i], history);
  }

  /** The loop of Snapshot over the sorted keys. */
  method Collect(buckets: Buckets, keys: seq<int>, sameBoot: bool, afterSequence: nat, deadline: int, maxBuckets: nat,
                 ghost history: seq<int>, ghost pruned: nat) returns (page: seq<Bucket>)
    requires Chronological(buckets, history, pruned) && keys == history[pruned..]
    ensures Page(buckets, history, FirstAfter(sameBoot, afterSequence, pruned), deadline, maxBuckets, page)
  {
    page := [];
    ghost var first := FirstAfter(sameBoot, afterSequence, pruned);
    for i := 0 to |keys|
      invariant Consecutive(buckets, history, first, deadline, page)
      invariant maxBuckets > 0 ==> |page| < maxBuckets
      invariant pruned + i < first ==> page == []
      invariant pruned + i >= first ==>
        first + |page| == pruned + i + 1 || (first + |page| <= pruned + i && history[first + |page| - 1] > deadline)
    {
      KeyNumber(buckets, history, pruned, i);
      var bucket := buckets[keys[i]];
      if sameBoot && bucket.sequence <= afterSequence { continue; }
      if bucket.start > deadline { continue; }
      page := page + [bucket];
      if maxBuckets > 0 && |page| >= maxBuckets { break; }
    }
  }

  /** The part of Snapshot after pruning. */
  method Look(buckets: Buckets, sameBoot: bool, afterSequence: nat, deadline: int, maxBuckets: nat,
              ghost history: seq<int>, ghost pruned: nat) returns (r: View)
    requires Chronological(buckets, history, pruned)
    ensures ViewOf(buckets, history, pruned, sameBoot, afterSequence, deadline, maxBuckets, r)
  {
    var keys := SortedKeys(buckets.Keys);
    SortedIsHistory(keys, buckets, history, pruned);
    if |keys| == 0 { return View(0, 0, false, []); }
    KeyNumber(buckets, history, pruned, 0);
    KeyNumber(buckets, history, pruned, |keys| - 1);
    var oldest, latest := buckets[keys[0]].sequence, buckets[keys[|keys| - 1]].sequence;
    var hasGap := sameBoot && oldest > afterSequence && oldest - afterSequence > 1;
    var page := Collect(buckets, keys, sameBoot, afterSequence, deadline, maxBuckets, history, pruned);
    r := View(oldest, latest, hasGap, page);
  }

  // Whole runs, with a consumer that follows the cursor.

  datatype Call =
    | Traffics(clock: int, domain: string, up: Count, down: Count, user: string)
    | Asks(clock: int, maxBuckets: nat)

  /** What the consumer has got: closed buckets, none of which has gained anything since. */
  ghost predicate Settled(got: seq<Bucket>, buckets: Buckets, closed: int) {
    forall i :: 0 <= i < |got| ==>
      && got[i].start <= closed
      && (got[i].start in buckets ==> Shrunk(got[i], buckets[got[i].start]))
  }

  ghost predicate Increasing(got: seq<Bucket>, cursor: nat) {
    && (forall i, j :: 0 <= i < j < |got| ==> got[i].sequence < got[j].sequence)
    && (forall i :: 0 <= i < |got| ==> got[i].sequence <= cursor)
  }

  ghost predicate Complete(got: seq<Bucket>) {
    forall i :: 0 <= i < |got| ==> got[i].sequence == i + 1
  }

  lemma SettledAfterRecord(got: seq<Bucket>, before: Buckets, closed: int, after: Buckets, current: int, later: int)
    requires Settled(got, before, closed) && OthersShrink(before, after, current) && closed <= later && closed < current
    ensures Settled(got, after, later)
  {
  }

  lemma SettledAfterPage(got: seq<Bucket>, before: Buckets, closed: int, after: Buckets, cutoff: int, later: int,
                         history: seq<int>, first: nat, page: seq<Bucket>)
    requires Settled(got, before, closed) && closed <= later && after == Kept(before, cutoff)
    requires Consecutive(after, history, first, later, page)
    requires forall k :: k in after ==> after[k].start == k
    ensures Settled(got + page, after, later)
  {
    forall i | 0 <= i < |got + page|
      ensures var p := (got + page)[i]; p.start <= later && (p.start in after ==> Shrunk(p, after[p.start]))
    {
      if i >= |got| {
        var p := page[i - |got|];
        assert p.start <= later && p == after[history[first + (i - |got|) - 1]];
      }
    }
  }

  lemma IncreasingPage(got: seq<Bucket>, cursor: nat, buckets: Buckets, history: seq<int>, first: nat, deadline: int,
                       page: seq<Bucket>)
    requires Increasing(got, cursor) && cursor < first && Consecutive(buckets, history, first, deadline, page)
    ensures Increasing(got + page, if page == [] then cursor else page[|page| - 1].sequence)
  {
  }

  /** Every number that is not pruned has been delivered up to the cursor. */
  ghost predicate Delivered(got: seq<Bucket>, cursor: nat, pruned: nat) {
    forall q {:trigger HasNumber(got, q)} :: pruned < q <= cursor ==> HasNumber(got, q)
  }

  ghost predicate HasNumber(got: seq<Bucket>, q: nat) {
    exists i :: 0 <= i < |got| && got[i].sequence == q
  }

  lemma DeliveredPage(got: seq<Bucket>, cursor: nat, before: nat, buckets: Buckets, history: seq<int>, pruned: nat,
                      deadline: int, maxBuckets: nat, view: View)
    requires Delivered(got, cursor, before) && before <= pruned
    requires ViewOf(buckets, history, pruned, true, cursor, deadline, maxBuckets, view)
    ensures var page := view.buckets;
      Delivered(got + page, if page == [] then cursor else page[|page| - 1].sequence, pruned)
  {
    var page, first := view.buckets, FirstAfter(true, cursor, pruned);
    var cursor' := if page == [] then cursor else page[|page| - 1].sequence;
    forall q | pruned < q <= cursor' ensures HasNumber(got + page, q) {
      if q <= cursor {
        assert HasNumber(got, q);
        var i :| 0 <= i < |got| && got[i].sequence == q;
        assert (got + page)[i].sequence == q;
      } else {
        assert page[q - first].sequence == q;
        assert (got + page)[|got| + (q - first)].sequence == q;
      }
    }
  }

  /** Every closed bucket that is left has been delivered. */
  ghost predicate AllDelivered(got: seq<Bucket>, left: Buckets, deadline: int) {
    forall k :: k in left && k <= deadline ==> HasNumber(got, left[k].sequence)
  }

  /** An unlimited page brings the cursor past every closed bucket. */
  lemma UnlimitedPage(got: seq<Bucket>, cursor: nat, buckets: Buckets, history: seq<int>, pruned: nat, deadline: int, view: View)
    requires Chronological(buckets, history, pruned) && ViewOf(buckets, history, pruned, true, cursor, deadline, 0, view)
    requires Delivered(got + view.buckets, if view.buckets == [] then cursor else view.buckets[|view.buckets| - 1].sequence, pruned)
    ensures AllDelivered(got + view.buckets, buckets, deadline)
  {
    var page, first := view.buckets, FirstAfter(true, cursor, pruned);
    forall k | k in buckets && k <= deadline ensures HasNumber(got + page, buckets[k].sequence) {
      var q := buckets[k].sequence;
      assert Numbered(buckets[k], k, history);
      assert history[q - 1] in buckets;
      assert page != [] ==> page[|page| - 1].sequence == first + |page| - 1;
    }
  }

  /** The time of the last call: clocks that go back are ignored. */
  ghost function LastTime(calls: seq<Call>, n: nat): int
    requires n <= |calls|
  {
    if n == 0 then 0 else Later(LastTime(calls, n - 1), calls[n - 1].clock)
  }

  /** The consumer's state after any number of calls. */
  ghost predicate Following(got: seq<Bucket>, gap: bool, cursor: nat, buckets: Buckets, closed: int) {
    && Increasing(got, cursor) && Settled(got, buckets, closed)
    && (!gap ==> Complete(got) && cursor == |got|)
  }

  method FollowRecord(r: Recorder, clock: int, domain: string, up: Count, down: Count, user: string,
                      ghost got: seq<Bucket>, ghost gap: bool, ghost cursor: nat)
    requires r.Valid() && Following(got, gap, cursor, r.buckets, r.lastTime - r.interval) && Delivered(got, cursor, r.pruned)
    modifies r
    ensures r.Valid() && Following(got, gap, cursor, r.buckets, r.lastTime - r.interval) && Delivered(got, cursor, r.pruned)
    ensures r.lastTime == Later(old(r.lastTime), clock)
  {
    ghost var before, closed := r.buckets, r.lastTime - r.interval;
    ghost var evicted := r.Record(clock, domain, up, down, user);
    TruncateBounds(r.lastTime, r.interval);
    SettledAfterRecord(got, before, closed, r.buckets, Truncate(r.lastTime, r.interval), r.lastTime - r.interval);
  }

  method FollowSnapshot(r: Recorder, clock: int, maxBuckets: nat, got: seq<Bucket>, gap: bool, cursor: nat)
    returns (got': seq<Bucket>, gap': bool, cursor': nat)
    requires r.Valid() && Following(got, gap, cursor, r.buckets, r.lastTime - r.interval) && Delivered(got, cursor, r.pruned)
    modifies r
    ensures r.Valid() && Following(got', gap', cursor', r.buckets, r.lastTime - r.interval) && Delivered(got', cursor', r.pruned)
    ensures r.lastTime == Later(old(r.lastTime), clock)
    ensures maxBuckets == 0 ==> AllDelivered(got', r.buckets, r.lastTime - r.interval)
  {
    ghost var before, closed, pruned := r.buckets, r.lastTime - r.interval, r.pruned;
    var view := r.Snapshot(clock, r.bootID, cursor, maxBuckets);
    var page := view.buckets;
    got', gap', cursor' := got + page, gap || view.hasGap, if page == [] then cursor else page[|page| - 1].sequence;
    PageFollows(got, gap, cursor, before, closed, r.buckets, Truncate(r.lastTime - r.retention, r.interval), r.history,
                pruned, r.pruned, r.lastTime - r.interval, maxBuckets, view);
  }

  lemma PageFollows(got: seq<Bucket>, gap: bool, cursor: nat, before: Buckets, closed: int, after: Buckets, cutoff: int,
                    history: seq<int>, prunedBefore: nat, pruned: nat, later: int, maxBuckets: nat, view: View)
    requires Following(got, gap, cursor, before, closed) && closed <= later && after == Kept(before, cutoff)
    requires Delivered(got, cursor, prunedBefore) && prunedBefore <= pruned && Chronological(after, history, pruned)
    requires ViewOf(after, history, pruned, true, cursor, later, maxBuckets, view)
    ensures var page := view.buckets;
      var cursor' := if page == [] then cursor else page[|page| - 1].sequence;
      && Following(got + page, gap || view.hasGap, cursor', after, later) && Delivered(got + page, cursor', pruned)
      && (maxBuckets == 0 ==> AllDelivered(got + page, after, later))
  {
    StartsAreKeys(after, history, pruned);
    FollowingPage(got, gap, cursor, before, closed, after, cutoff, history, pruned, later, maxBuckets, view);
    DeliveredPage(got, cursor, prunedBefore, after, history, pruned, later, maxBuckets, view);
    if maxBuckets == 0 { UnlimitedPage(got, cursor, after, history, pruned, later, view); }
  }

  lemma FollowingPage(got: seq<Bucket>, gap: bool, cursor: nat, before: Buckets, closed: int, after: Buckets, cutoff: int,
                      history: seq<int>, pruned: nat, later: int, maxBuckets: nat, view: View)
    requires Following(got, gap, cursor, before, closed) && closed <= later && after == Kept(before, cutoff)
    requires forall k :: k in after ==> after[k].start == k
    requires ViewOf(after, history, pruned, true, cursor, later, maxBuckets, view)
    ensures var page := view.buckets;
      Following(got + page, gap || view.hasGap, if page == [] then cursor else page[|page| - 1].sequence, after, later)
  {
    var first, page := FirstAfter(true, cursor, pruned), view.buckets;
    SettledAfterPage(got, before, closed, after, cutoff, later, history, first, page);
    IncreasingPage(got, cursor, after, history, first, later, page);
    if !gap && !view.hasGap && page != [] { CompletePage(got, after, history, later, page); }
  }

  lemma CompletePage(got: seq<Bucket>, buckets: Buckets, history: seq<int>, deadline: int, page: seq<Bucket>)
    requires Complete(got) && Consecutive(buckets, history, |got| + 1, deadline, page)
    ensures Complete(got + page)
  {
  }

  /**
   Any run of records and snapshots, the consumer asking from the last sequence number it was given: the numbers it gets
   increase strictly, they are 1, 2, 3, ... unless a gap was reported, no bucket it got has gained traffic since, after an
   unlimited snapshot it has every closed bucket that is left, and the identities stored stay within the cap.
   */
  method Follow(bootID: string, interval: int, retention: int, maxDomains: int, calls: seq<Call>)
    returns (got: seq<Bucket>, gap: bool, left: Buckets)
    ensures forall i, j :: 0 <= i < j < |got| ==> got[i].sequence < got[j].sequence
    ensures !gap ==> Complete(got)
    ensures forall i :: 0 <= i < |got| && got[i].start in left ==> Shrunk(got[i], left[got[i].start])
    ensures forall i :: 0 <= i < |got| ==> got[i].start <= LastTime(calls, |calls|) - IntervalOf(interval)
    ensures calls != [] && calls[|calls| - 1].Asks? && calls[|calls| - 1].maxBuckets == 0 ==>
      AllDelivered(got, left, LastTime(calls, |calls|) - IntervalOf(interval))
    ensures |Identities(left)| <= CapOf(maxDomains)
  {
    var r := new Recorder(bootID, interval, retention, maxDomains);
    got, gap := [], false;
    var cursor: nat := 0;
    for n := 0 to |calls|
      invariant r.Valid() && fresh(r) && r.maxDomains == CapOf(maxDomains) && r.interval == IntervalOf(interval)
      invariant Following(got, gap, cursor, r.buckets, r.lastTime - r.interval) && Delivered(got, cursor, r.pruned)
      invariant r.lastTime == LastTime(calls, n)
      invariant n > 0 && calls[n - 1].Asks? && calls[n - 1].maxBuckets == 0 ==>
        AllDelivered(got, r.buckets, r.lastTime - r.interval)
    {
      match calls[n]
      case Traffics(clock, domain, up, down, user) =>
        FollowRecord(r, clock, domain, up, down, user, got, gap, cursor);
      case Asks(clock, maxBuckets) =>
        got, gap, cursor := FollowSnapshot(r, clock, maxBuckets, got, gap, cursor);
    }
    left := r.buckets;
  }

  lemma StartsAreKeys(buckets: Buckets, history: seq<int>, pruned: nat)
    requires Chronological(buckets, history, pruned)
    ensures forall k :: k in buckets ==> buckets[k].start == k
  {
    forall k | k in buckets ensures buckets[k].start == k {
      assert Numbered(buckets[k], k, history);
    }
  }
}
