/**
 What the counts of a bucket are worth over a whole run (app/stats/domain_traffic.go): the traffic that was recorded in its
 interval, up to the largest count.
 */
module DomainTotals {

  import opened Options
  import opened DomainTraffic
  import opened Sets

  /** Whose traffic a record is: that of an identity, or unknown. */
  function Who(domain: string, user: string): Option<string> {
    if domain == "unknown" && user == "" then None else Some(Identity(user, domain))
  }

  /** The first NUL of an identity ends the name of the user. */
  lemma FirstNul(user: string, domain: string)
    requires '\0' !in user
    ensures var i := Identity(user, domain);
      && |user| < |i| && i[|user|] == '\0' && (forall j :: 0 <= j < |user| ==> i[j] != '\0')
      && i[..|user|] == user && i[|user| + 1..] == domain
  {
    var i := Identity(user, domain);
    assert forall j :: 0 <= j < |user| ==> i[j] == user[j];
  }

  /** Users without a NUL in their name are told apart, and so are the domains of each. */
  lemma IdentityTells(user: string, domain: string, user2: string, domain2: string)
    requires '\0' !in user && '\0' !in user2
    ensures Identity(user, domain) == Identity(user2, domain2) <==> user == user2 && domain == domain2
  {
    FirstNul(user, domain);
    FirstNul(user2, domain2);
  }

  /** The name of the second user is that of the first, a NUL, and more. */
  predicate Extends(user: string, user2: string) {
    |user| < |user2| && user2[..|user|] == user && user2[|user|] == '\0'
  }

  lemma MeetsLonger(user: string, domain: string, user2: string, domain2: string)
    requires Identity(user, domain) == Identity(user2, domain2) && |user| < |user2|
    ensures Extends(user, user2)
  {
    var i, i2 := Identity(user, domain), Identity(user2, domain2);
    assert i[|user|] == '\0' && i2[|user|] == user2[|user|];
    assert i[..|user|] == user && i2[..|user|] == user2[..|user|];
  }

  lemma MeetsEqual(user: string, domain: string, user2: string, domain2: string)
    requires Identity(user, domain) == Identity(user2, domain2) && |user| == |user2|
    ensures user == user2 && domain == domain2
  {
    var i, i2 := Identity(user, domain), Identity(user2, domain2);
    assert i[..|user|] == user && i2[..|user|] == user2;
    assert i[|user| + 1..] == domain && i2[|user| + 1..] == domain2;
  }

  lemma ExtendedMeets(user: string, user2: string)
    requires Extends(user, user2)
    ensures Identity(user, user2[|user| + 1..] + "\0") == Identity(user2, "")
  {
    assert user2 == user + "\0" + user2[|user| + 1..];
  }

  /** Traffic of two users can end up under one identity exactly if the name of one extends that of the other with a NUL. */
  lemma IdentitiesMeet(user: string, user2: string)
    requires user != user2
    ensures (exists domain, domain2 :: Identity(user, domain) == Identity(user2, domain2)) <==>
      Extends(user, user2) || Extends(user2, user)
  {
    if domain, domain2 :| Identity(user, domain) == Identity(user2, domain2) {
      if |user| < |user2| {
        MeetsLonger(user, domain, user2, domain2);
      } else if |user2| < |user| {
        MeetsLonger(user2, domain2, user, domain);
      } else {
        MeetsEqual(user, domain, user2, domain2);
      }
    }
    if Extends(user, user2) { ExtendedMeets(user, user2); }
    if Extends(user2, user) { ExtendedMeets(user2, user); }
  }

  /** The start of the interval that the time after each call is in. */
  ghost function StartsOf(calls: seq<Call>, interval: int): (starts: seq<int>)
    requires interval > 0
    ensures |starts| == |calls| + 1
    ensures forall n {:trigger starts[n]} :: 0 <= n <= |calls| ==> starts[n] == Truncate(LastTime(calls, n), interval)
  {
    seq(|calls| + 1, n requires 0 <= n <= |calls| => Truncate(LastTime(calls, n), interval))
  }

  /** Call n is a record of who's traffic in the interval that starts at k. */
  ghost predicate Falls(calls: seq<Call>, n: nat, starts: seq<int>, k: int, who: Option<string>)
    requires n < |calls| && |starts| == |calls| + 1
  {
    calls[n].Traffics? && starts[n + 1] == k && Who(calls[n].domain, calls[n].user) == who
  }

  /** The traffic of n calls in one interval, without a largest count. */
  ghost function Total(calls: seq<Call>, n: nat, starts: seq<int>, k: int, who: Option<string>, uplink: bool): nat
    requires n <= |calls| && |starts| == |calls| + 1
  {
    if n == 0 then 0
    else
      Total(calls, n - 1, starts, k, who, uplink) +
      if Falls(calls, n - 1, starts, k, who) then (if uplink then calls[n - 1].up else calls[n - 1].down) else 0
  }

  /** A total as a count of 64 bits that stays at its largest value. */
  function Counted(total: nat): Count {
    if total < MAX then total else MAX
  }

  /** Counts that are added one after the other are the count of their total. */
  lemma AddCounts(total: nat, more: Count)
    ensures SaturatingAdd(Counted(total), more) == Counted(total + more)
    ensures forall c: Count :: c <= Counted(total) ==> SaturatingAdd(c, more) <= Counted(total + more)
  {
  }

  ghost function TotalOf(calls: seq<Call>, n: nat, starts: seq<int>, k: int, who: Option<string>): Traffic
    requires n <= |calls| && |starts| == |calls| + 1
  {
    Traffic(Counted(Total(calls, n, starts, k, who, true)), Counted(Total(calls, n, starts, k, who, false)))
  }

  predicate AtMost(t: Traffic, u: Traffic) {
    t.up <= u.up && t.down <= u.down
  }

  /** The entry is filed under its own identity and has no more than the identity's total, and all of it in full. */
  ghost predicate EntryOk(id: string, e: Entry, total: Traffic, full: bool) {
    Identity(e.user, e.domain) == id && AtMost(e.traffic, total) && (full ==> e.traffic == total)
  }

  /** Every identity with a record in the interval has an entry. */
  ghost predicate HasAll(b: Bucket, calls: seq<Call>, n: nat, starts: seq<int>)
    requires n <= |calls| && |starts| == |calls| + 1
  {
    forall j, id {:trigger Falls(calls, j, starts, b.start, Some(id))} ::
      0 <= j < n && Falls(calls, j, starts, b.start, Some(id)) ==> id in b.entries
  }

  /** The counts of a bucket after n calls: unknown traffic in full, that of an identity too if none was ever evicted. */
  ghost predicate BucketOk(b: Bucket, calls: seq<Call>, n: nat, starts: seq<int>, full: bool)
    requires n <= |calls| && |starts| == |calls| + 1
  {
    && b.unknown == TotalOf(calls, n, starts, b.start, None)
    && (forall id :: id in b.entries ==> EntryOk(id, b.entries[id], TotalOf(calls, n, starts, b.start, Some(id)), full))
    && (full ==> HasAll(b, calls, n, starts))
  }

  /** A record in another interval changes nothing. */
  lemma OtherInterval(b: Bucket, calls: seq<Call>, n: nat, starts: seq<int>, full: bool, after: Bucket)
    requires n < |calls| && |starts| == |calls| + 1 && BucketOk(b, calls, n, starts, full)
    requires calls[n].Traffics? ==> starts[n + 1] != b.start
    requires Shrunk(b, after) && (full ==> after == b)
    ensures BucketOk(after, calls, n + 1, starts, full)
  {
    forall id | id in after.entries
      ensures EntryOk(id, after.entries[id], TotalOf(calls, n + 1, starts, after.start, Some(id)), full)
    {
      assert TotalOf(calls, n + 1, starts, b.start, Some(id)) == TotalOf(calls, n, starts, b.start, Some(id));
    }
  }

  lemma Unknown(b: Bucket, calls: seq<Call>, n: nat, starts: seq<int>, full: bool, after: Bucket)
    requires n < |calls| && |starts| == |calls| + 1 && BucketOk(b, calls, n, starts, full) && Falls(calls, n, starts, b.start, None)
    requires after == b.(unknown := Add(b.unknown, calls[n].up, calls[n].down))
    ensures BucketOk(after, calls, n + 1, starts, full)
  {
    AddCounts(Total(calls, n, starts, b.start, None, true), calls[n].up);
    AddCounts(Total(calls, n, starts, b.start, None, false), calls[n].down);
    forall id | id in after.entries
      ensures EntryOk(id, after.entries[id], TotalOf(calls, n + 1, starts, after.start, Some(id)), full)
    {
      assert TotalOf(calls, n + 1, starts, b.start, Some(id)) == TotalOf(calls, n, starts, b.start, Some(id));
    }
  }

  lemma NoTotal(calls: seq<Call>, n: nat, starts: seq<int>, k: int, who: Option<string>, uplink: bool)
    requires n <= |calls| && |starts| == |calls| + 1 && forall j :: 0 <= j < n ==> !Falls(calls, j, starts, k, who)
    ensures Total(calls, n, starts, k, who, uplink) == 0
  {
    if n > 0 { NoTotal(calls, n - 1, starts, k, who, uplink); }
  }

  /** One more record of an identity. */
  lemma EntryGrows(e: Entry, id: string, calls: seq<Call>, n: nat, starts: seq<int>, k: int, full: bool)
    requires n < |calls| && |starts| == |calls| + 1 && Falls(calls, n, starts, k, Some(id))
    requires EntryOk(id, e, TotalOf(calls, n, starts, k, Some(id)), full)
    ensures EntryOk(id, e.(traffic := Add(e.traffic, calls[n].up, calls[n].down)), TotalOf(calls, n + 1, starts, k, Some(id)), full)
  {
    AddCounts(Total(calls, n, starts, k, Some(id), true), calls[n].up);
    AddCounts(Total(calls, n, starts, k, Some(id), false), calls[n].down);
  }

  /** The entry that a record finds or makes; a new one is of an identity without a record yet. */
  ghost function EntryFor(b: Bucket, id: string, domain: string, user: string): Entry {
    if id in b.entries then b.entries[id] else Entry(domain, user, Traffic(0, 0))
  }

  lemma FirstEntry(b: Bucket, calls: seq<Call>, n: nat, starts: seq<int>, full: bool, domain: string, user: string)
    requires n <= |calls| && |starts| == |calls| + 1 && BucketOk(b, calls, n, starts, full)
    ensures var id := Identity(user, domain);
      EntryOk(id, EntryFor(b, id, domain, user), TotalOf(calls, n, starts, b.start, Some(id)), full)
  {
    var id := Identity(user, domain);
    if id !in b.entries && full {
      NoTotal(calls, n, starts, b.start, Some(id), true);
      NoTotal(calls, n, starts, b.start, Some(id), false);
    }
  }

  lemma Known(b: Bucket, calls: seq<Call>, n: nat, starts: seq<int>, full: bool, after: Bucket)
    requires n < |calls| && |starts| == |calls| + 1 && BucketOk(b, calls, n, starts, full) && calls[n].Traffics?
    requires var id := Identity(calls[n].user, calls[n].domain);
      && Falls(calls, n, starts, b.start, Some(id))
      && var e := EntryFor(b, id, calls[n].domain, calls[n].user);
         after == b.(entries := b.entries[id := e.(traffic := Add(e.traffic, calls[n].up, calls[n].down))])
    ensures BucketOk(after, calls, n + 1, starts, full)
  {
    var own := Identity(calls[n].user, calls[n].domain);
    FirstEntry(b, calls, n, starts, full, calls[n].domain, calls[n].user);
    EntryGrows(EntryFor(b, own, calls[n].domain, calls[n].user), own, calls, n, starts, b.start, full);
    forall id | id in after.entries
      ensures EntryOk(id, after.entries[id], TotalOf(calls, n + 1, starts, after.start, Some(id)), full)
    {
      if id != own { assert TotalOf(calls, n + 1, starts, b.start, Some(id)) == TotalOf(calls, n, starts, b.start, Some(id)); }
    }
  }

  /** The bucket of an interval in which nothing was recorded yet. */
  lemma Empty(calls: seq<Call>, n: nat, starts: seq<int>, full: bool, k: int, sequence: nat)
    requires n <= |calls| && |starts| == |calls| + 1 && forall j, who :: 0 <= j < n ==> !Falls(calls, j, starts, k, who)
    ensures BucketOk(Fresh(k, sequence), calls, n, starts, full)
  {
    NoTotal(calls, n, starts, k, None, true);
    NoTotal(calls, n, starts, k, None, false);
  }

  // A run.

  ghost predicate AllOk(buckets: Buckets, calls: seq<Call>, n: nat, starts: seq<int>, full: bool)
    requires n <= |calls| && |starts| == |calls| + 1
  {
    forall k :: k in buckets ==> buckets[k].start == k && BucketOk(buckets[k], calls, n, starts, full)
  }

  /** Records so far are of intervals up to the current one, and if of the current one then its bucket is there. */
  ghost predicate Opened(buckets: Buckets, calls: seq<Call>, n: nat, starts: seq<int>)
    requires n <= |calls| && |starts| == |calls| + 1
  {
    forall j, k, who {:trigger Falls(calls, j, starts, k, who)} :: 0 <= j < n && Falls(calls, j, starts, k, who) ==>
      k <= starts[n] && (k == starts[n] ==> k in buckets)
  }

  lemma KeptOk(buckets: Buckets, calls: seq<Call>, n: nat, starts: seq<int>, full: bool, cutoff: int)
    requires n <= |calls| && |starts| == |calls| + 1 && AllOk(buckets, calls, n, starts, full)
    ensures AllOk(Kept(buckets, cutoff), calls, n, starts, full)
  {
  }

  lemma BaseOk(buckets: Buckets, calls: seq<Call>, n: nat, starts: seq<int>, full: bool, cutoff: int, sequence: nat)
    requires n < |calls| && |starts| == |calls| + 1 && AllOk(buckets, calls, n, starts, full) && Opened(buckets, calls, n, starts)
    requires cutoff <= starts[n + 1] && starts[n] <= starts[n + 1]
    ensures AllOk(Base(buckets, cutoff, starts[n + 1], sequence), calls, n, starts, full)
  {
    var current := starts[n + 1];
    KeptOk(buckets, calls, n, starts, full, cutoff);
    if current !in buckets { Empty(calls, n, starts, full, current, sequence); }
  }

  lemma RoomOk(buckets: Buckets, calls: seq<Call>, n: nat, starts: seq<int>, full: bool, evicted: Option<string>)
    requires n <= |calls| && |starts| == |calls| + 1 && AllOk(buckets, calls, n, starts, full) && (full ==> evicted == None)
    ensures AllOk(Room(buckets, evicted), calls, n, starts, full)
  {
  }

  /** A record keeps the accounts. */
  lemma RecordOk(before: Buckets, calls: seq<Call>, n: nat, starts: seq<int>, full: bool, cutoff: int, sequence: nat,
                 evicted: Option<string>, after: Buckets)
    requires n < |calls| && |starts| == |calls| + 1 && calls[n].Traffics?
    requires AllOk(before, calls, n, starts, full) && Opened(before, calls, n, starts)
    requires cutoff <= starts[n + 1] && starts[n] <= starts[n + 1] && (full ==> evicted == None)
    requires Recorded(before, sequence, starts[n + 1], cutoff, calls[n].domain, calls[n].user, calls[n].up,
                      calls[n].down, evicted, after)
    ensures AllOk(after, calls, n + 1, starts, full)
  {
    var current := starts[n + 1];
    var base := Base(before, cutoff, current, sequence);
    BaseOk(before, calls, n, starts, full, cutoff, sequence);
    RoomOk(base, calls, n, starts, full, evicted);
    var room := Room(base, evicted);
    forall k | k in after ensures after[k].start == k && BucketOk(after[k], calls, n + 1, starts, full) {
      if k != current {
        OtherInterval(room[k], calls, n, starts, full, room[k]);
      } else if calls[n].domain == "unknown" && calls[n].user == "" {
        Unknown(room[k], calls, n, starts, full, after[k]);
      } else {
        Known(room[k], calls, n, starts, full, after[k]);
      }
    }
  }

  lemma OpenedNext(before: Buckets, after: Buckets, calls: seq<Call>, n: nat, starts: seq<int>)
    requires n < |calls| && |starts| == |calls| + 1 && Opened(before, calls, n, starts) && starts[n] <= starts[n + 1]
    requires var current := starts[n + 1];
      (current in before ==> current in after) && (calls[n].Traffics? ==> current in after)
    ensures Opened(after, calls, n + 1, starts)
  {
    var current := starts[n + 1];
    forall j, k, who | 0 <= j < n + 1 && Falls(calls, j, starts, k, who)
      ensures k <= current && (k == current ==> k in after)
    {
      if j < n { assert Falls(calls, j, starts, k, who); }
    }
  }

  ghost function IdentitiesIn(calls: seq<Call>): set<string> {
    set j | 0 <= j < |calls| && calls[j].Traffics? :: Identity(calls[j].user, calls[j].domain)
  }

  /** Every identity that is stored was recorded. */
  ghost predicate OnlyRecorded(buckets: Buckets, calls: seq<Call>) {
    forall k, id :: k in buckets && id in buckets[k].entries ==> id in IdentitiesIn(calls)
  }

  /** There is always room for one more identity of a run that has no more of them than the cap. */
  lemma NeverEvicts(buckets: Buckets, lastSeen: map<string, int>, calls: seq<Call>, n: nat, cap: int, evicted: Option<string>)
    requires n < |calls| && calls[n].Traffics? && OnlyRecorded(buckets, calls) && |IdentitiesIn(calls)| <= cap
    requires EvictionOf(Identities(buckets), lastSeen, cap, Identity(calls[n].user, calls[n].domain), evicted)
    ensures evicted == None
  {
    var ids, own := Identities(buckets), Identity(calls[n].user, calls[n].domain);
    if own !in ids {
      assert own in IdentitiesIn(calls);
      assert ids + {own} <= IdentitiesIn(calls);
      Fewer(ids + {own}, IdentitiesIn(calls));
    }
  }

  lemma RecordedOnly(before: Buckets, calls: seq<Call>, n: nat, cutoff: int, current: int, sequence: nat,
                     evicted: Option<string>, after: Buckets)
    requires n < |calls| && calls[n].Traffics? && OnlyRecorded(before, calls)
    requires Recorded(before, sequence, current, cutoff, calls[n].domain, calls[n].user, calls[n].up, calls[n].down, evicted, after)
    ensures OnlyRecorded(after, calls)
  {
    var own := Identity(calls[n].user, calls[n].domain);
    assert own in IdentitiesIn(calls);
    forall k, id | k in after && id in after[k].entries ensures id in IdentitiesIn(calls) {
      if id != own { assert k in before && id in before[k].entries; }
    }
  }

  /** The accounts of a run: of the buckets there are, and of those that were delivered, which are closed. */
  ghost predicate Accounts(buckets: Buckets, got: seq<Bucket>, calls: seq<Call>, n: nat, starts: seq<int>, full: bool)
    requires n <= |calls| && |starts| == |calls| + 1
  {
    && AllOk(buckets, calls, n, starts, full) && Opened(buckets, calls, n, starts) && OnlyRecorded(buckets, calls)
    && forall i :: 0 <= i < |got| ==> got[i].start < starts[n] && BucketOk(got[i], calls, n, starts, full)
  }

  lemma NoAccounts(calls: seq<Call>, starts: seq<int>, full: bool)
    requires |starts| == |calls| + 1
    ensures Accounts(map[], [], calls, 0, starts, full)
  {
  }

  lemma GotOk(got: seq<Bucket>, calls: seq<Call>, n: nat, starts: seq<int>, full: bool)
    requires n < |calls| && |starts| == |calls| + 1 && starts[n] <= starts[n + 1]
    requires forall i :: 0 <= i < |got| ==> got[i].start < starts[n] && BucketOk(got[i], calls, n, starts, full)
    ensures forall i :: 0 <= i < |got| ==> got[i].start < starts[n + 1] && BucketOk(got[i], calls, n + 1, starts, full)
  {
    forall i | 0 <= i < |got| ensures BucketOk(got[i], calls, n + 1, starts, full) {
      OtherInterval(got[i], calls, n, starts, full, got[i]);
    }
  }

  lemma AfterRecord(before: Buckets, got: seq<Bucket>, calls: seq<Call>, n: nat, starts: seq<int>, full: bool, cutoff: int,
                    sequence: nat, evicted: Option<string>, after: Buckets)
    requires n < |calls| && |starts| == |calls| + 1 && calls[n].Traffics? && Accounts(before, got, calls, n, starts, full)
    requires cutoff <= starts[n + 1] && starts[n] <= starts[n + 1] && (full ==> evicted == None)
    requires Recorded(before, sequence, starts[n + 1], cutoff, calls[n].domain, calls[n].user, calls[n].up,
                      calls[n].down, evicted, after)
    ensures Accounts(after, got, calls, n + 1, starts, full)
  {
    var current := starts[n + 1];
    RecordOk(before, calls, n, starts, full, cutoff, sequence, evicted, after);
    OpenedNext(before, after, calls, n, starts);
    RecordedOnly(before, calls, n, cutoff, current, sequence, evicted, after);
    GotOk(got, calls, n, starts, full);
  }

  lemma AfterSnapshot(before: Buckets, got: seq<Bucket>, calls: seq<Call>, n: nat, starts: seq<int>, full: bool, cutoff: int,
                      page: seq<Bucket>)
    requires n < |calls| && |starts| == |calls| + 1 && calls[n].Asks? && Accounts(before, got, calls, n, starts, full)
    requires cutoff <= starts[n + 1] && starts[n] <= starts[n + 1]
    requires forall i :: 0 <= i < |page| ==>
      page[i].start in Kept(before, cutoff) && page[i] == before[page[i].start] && page[i].start < starts[n + 1]
    ensures Accounts(Kept(before, cutoff), got + page, calls, n + 1, starts, full)
  {
    var after := Kept(before, cutoff);
    forall k | k in before ensures BucketOk(before[k], calls, n + 1, starts, full) {
      OtherInterval(before[k], calls, n, starts, full, before[k]);
    }
    OpenedNext(before, after, calls, n, starts);
    GotOk(got, calls, n, starts, full);
  }

  /** What one call did: the number the next bucket got, what was pruned and seen, who was evicted, and what it delivered. */
  datatype Turn = Turn(sequence: nat, cutoff: int, lastSeen: map<string, int>, evicted: Option<string>, page: seq<Bucket>)

  /** Call n led from the buckets before to those after. */
  ghost predicate IsTurn(before: Buckets, after: Buckets, t: Turn, calls: seq<Call>, n: nat, starts: seq<int>, cap: int)
    requires n < |calls| && |starts| == |calls| + 1
  {
    && t.cutoff <= starts[n + 1] && starts[n] <= starts[n + 1]
    && match calls[n]
       case Traffics(_, domain, up, down, user) =>
         && t.page == [] && Recorded(before, t.sequence, starts[n + 1], t.cutoff, domain, user, up, down, t.evicted, after)
         && (Who(domain, user).Some? ==>
               EvictionOf(Identities(Kept(before, t.cutoff)), t.lastSeen, cap, Identity(user, domain), t.evicted))
       case Asks(_, _) =>
         && after == Kept(before, t.cutoff)
         && forall i :: 0 <= i < |t.page| ==>
              t.page[i].start in after && t.page[i] == before[t.page[i].start] && t.page[i].start < starts[n + 1]
  }

  ghost function Delivered(ts: seq<Turn>): seq<Bucket> {
    if ts == [] then [] else Delivered(ts[..|ts| - 1]) + ts[|ts| - 1].page
  }

  ghost predicate IsRun(states: seq<Buckets>, ts: seq<Turn>, calls: seq<Call>, n: nat, starts: seq<int>, cap: int)
    requires n <= |calls| && |starts| == |calls| + 1
  {
    && |states| == n + 1 && |ts| == n && states[0] == map[]
    && forall i :: 0 <= i < n ==> IsTurn(states[i], states[i + 1], ts[i], calls, i, starts, cap)
  }

  lemma TurnKeeps(before: Buckets, after: Buckets, t: Turn, got: seq<Bucket>, calls: seq<Call>, n: nat, starts: seq<int>, cap: int)
    requires n < |calls| && |starts| == |calls| + 1 && IsTurn(before, after, t, calls, n, starts, cap)
    requires Accounts(before, got, calls, n, starts, |IdentitiesIn(calls)| <= cap)
    ensures Accounts(after, got + t.page, calls, n + 1, starts, |IdentitiesIn(calls)| <= cap)
  {
    var full := |IdentitiesIn(calls)| <= cap;
    if calls[n].Traffics? {
      if full && Who(calls[n].domain, calls[n].user).Some? {
        NeverEvicts(Kept(before, t.cutoff), t.lastSeen, calls, n, cap, t.evicted);
      }
      AfterRecord(before, got, calls, n, starts, full, t.cutoff, t.sequence, t.evicted, after);
      assert got + [] == got;
    } else {
      AfterSnapshot(before, got, calls, n, starts, full, t.cutoff, t.page);
    }
  }

  lemma {:induction false} RunKeeps(states: seq<Buckets>, ts: seq<Turn>, calls: seq<Call>, n: nat, starts: seq<int>, cap: int)
    requires n <= |calls| && |starts| == |calls| + 1 && IsRun(states, ts, calls, n, starts, cap)
    ensures Accounts(states[n], Delivered(ts), calls, n, starts, |IdentitiesIn(calls)| <= cap)
  {
    if n == 0 {
      NoAccounts(calls, starts, |IdentitiesIn(calls)| <= cap);
    } else {
      RunKeeps(states[..n], ts[..n - 1], calls, n - 1, starts, cap);
      TurnKeeps(states[n - 1], states[n], ts[n - 1], Delivered(ts[..n - 1]), calls, n - 1, starts, cap);
    }
  }

  lemma RunGrows(states: seq<Buckets>, ts: seq<Turn>, calls: seq<Call>, n: nat, starts: seq<int>, cap: int, after: Buckets, t: Turn)
    requires n < |calls| && |starts| == |calls| + 1 && IsRun(states, ts, calls, n, starts, cap)
    requires IsTurn(states[n], after, t, calls, n, starts, cap)
    ensures IsRun(states + [after], ts + [t], calls, n + 1, starts, cap)
    ensures Delivered(ts + [t]) == Delivered(ts) + t.page
  {
    assert (ts + [t])[..|ts|] == ts;
  }

  method Recording(r: Recorder, calls: seq<Call>, n: nat, ghost starts: seq<int>) returns (ghost t: Turn)
    requires r.Valid() && n < |calls| && calls[n].Traffics? && r.lastTime == LastTime(calls, n)
    requires starts == StartsOf(calls, r.interval)
    modifies r
    ensures r.Valid() && r.lastTime == LastTime(calls, n + 1)
    ensures IsTurn(old(r.buckets), r.buckets, t, calls, n, starts, r.maxDomains)
  {
    t := Turn(r.nextSeq, 0, r.lastSeen, None, []);
    var c := calls[n];
    ghost var evicted := r.Record(c.clock, c.domain, c.up, c.down, c.user);
    t := t.(cutoff := r.Cutoff(r.lastTime), evicted := evicted);
    TruncateBounds(Truncate(r.lastTime, r.interval) - r.retention, r.interval);
    TruncateMonotone(LastTime(calls, n), LastTime(calls, n + 1), r.interval);
  }

  method Asking(r: Recorder, calls: seq<Call>, n: nat, cursor: nat, ghost starts: seq<int>)
    returns (page: seq<Bucket>, ghost t: Turn)
    requires r.Valid() && n < |calls| && calls[n].Asks? && r.lastTime == LastTime(calls, n)
    requires starts == StartsOf(calls, r.interval)
    modifies r
    ensures r.Valid() && r.lastTime == LastTime(calls, n + 1) && t.page == page
    ensures IsTurn(old(r.buckets), r.buckets, t, calls, n, starts, r.maxDomains)
  {
    var view := r.Snapshot(calls[n].clock, r.bootID, cursor, calls[n].maxBuckets);
    page := view.buckets;
    t := Turn(0, Truncate(r.lastTime - r.retention, r.interval), map[], None, page);
    StartsAreKeys(r.buckets, r.history, r.pruned);
    TruncateMonotone(r.lastTime - r.retention, r.lastTime, r.interval);
    TruncateMonotone(LastTime(calls, n), LastTime(calls, n + 1), r.interval);
    TruncateBounds(r.lastTime, r.interval);
  }

  /** The calls of a run one after the other, each snapshot from the last number that was delivered. */
  method Serve(bootID: string, interval: int, retention: int, maxDomains: int, calls: seq<Call>)
    returns (got: seq<Bucket>, left: Buckets, ghost states: seq<Buckets>, ghost ts: seq<Turn>)
    ensures IsRun(states, ts, calls, |calls|, StartsOf(calls, IntervalOf(interval)), CapOf(maxDomains))
    ensures left == states[|calls|] && got == Delivered(ts)
  {
    var r := new Recorder(bootID, interval, retention, maxDomains);
    ghost var starts := StartsOf(calls, r.interval);
    got, states, ts := [], [map[]], [];
    var cursor: nat := 0;
    for n := 0 to |calls|
      invariant r.Valid() && fresh(r) && r.maxDomains == CapOf(maxDomains) && r.interval == IntervalOf(interval)
      invariant r.lastTime == LastTime(calls, n) && IsRun(states, ts, calls, n, starts, CapOf(maxDomains))
      invariant r.buckets == states[n] && got == Delivered(ts)
    {
      var page: seq<Bucket> := [];
      ghost var t;
      if calls[n].Traffics? {
        t := Recording(r, calls, n, starts);
      } else {
        page, t := Asking(r, calls, n, cursor, starts);
        cursor := if page == [] then cursor else page[|page| - 1].sequence;
      }
      RunGrows(states, ts, calls, n, starts, CapOf(maxDomains), r.buckets, t);
      got, states, ts := got + page, states + [r.buckets], ts + [t];
    }
    left := r.buckets;
  }

  /**
   Any run of records and snapshots: every bucket that was delivered, and every one that is left, has the unknown traffic of
   its interval in full, and of an identity no more than was recorded. If the run has no more identities than the cap every
   identity is there with all its traffic.
   */
  method Account(bootID: string, interval: int, retention: int, maxDomains: int, calls: seq<Call>)
    returns (got: seq<Bucket>, left: Buckets)
    ensures Accounts(left, got, calls, |calls|, StartsOf(calls, IntervalOf(interval)), |IdentitiesIn(calls)| <= CapOf(maxDomains))
  {
    ghost var states, ts;
    got, left, states, ts := Serve(bootID, interval, retention, maxDomains, calls);
    RunKeeps(states, ts, calls, |calls|, StartsOf(calls, IntervalOf(interval)), CapOf(maxDomains));
  }
}
