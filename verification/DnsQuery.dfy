/**
 Serial and parallel DNS queries (app/dns/dns.go: serialQuery, parallelQuery, makeGroups) and what a client makes of its
 server's answer (Client.QueryIP of app/dns/nameserver.go). The servers' answers are given; the order in which those of
 the clients arrive is any permutation of them.
 */
module DnsQuery {
  import opened Options

  /** What a query needs of a client: its policy, and whether it is skipped because fake answers are not wanted. */
  datatype Client = Client(policyID: nat, skipped: bool)

  datatype Error = RecordNotFound | EmptyResponse | OtherError(code: int)

  datatype Reply = Reply(ips: seq<int>, ttl: nat, err: Option<Error>)

  datatype Group = Group(start: nat, end: nat)

  datatype Outcome = Found(ips: seq<int>, ttl: nat) | Failed(errs: seq<Error>)

  // What one client answers.

  /** The two lists that FilterIPs makes of some addresses. */
  datatype Filter = Filter(matched: seq<int> -> seq<int>, unmatched: seq<int> -> seq<int>)

  /** What a client does with the answer of its server; a prior filter only prefers. */
  datatype Policy = Policy(ipv4: bool, ipv6: bool, expected: Option<Filter>, unexpected: Option<Filter>,
                           actPrior: bool, actUnprior: bool)

  /** Addresses exactly where there is no error, and no time to live beside an error. */
  predicate Lawful(r: Reply) {
    (r.err.None? <==> r.ips != []) && (r.err.Some? ==> r.ttl == 0)
  }

  function Fail(e: Error): (r: Reply)
    ensures Lawful(r) && r.err == Some(e)
  {
    Reply([], 0, Some(e))
  }

  /** The filters that must leave something. */
  function Strict(p: Policy, ips: seq<int>): seq<int> {
    var expected := if p.expected.Some? && !p.actPrior then p.expected.value.matched(ips) else ips;
    if expected == [] || p.unexpected.None? || p.actUnprior then expected else p.unexpected.value.unmatched(expected)
  }

  /** The filters that are kept to only if they leave something. */
  function Prefer(p: Policy, ips: seq<int>): (r: seq<int>)
    ensures ips != [] ==> r != []
  {
    var first := if p.expected.Some? && p.actPrior then p.expected.value.matched(ips) else [];
    var expected := if first == [] then ips else first;
    var second := if p.unexpected.Some? && p.actUnprior then p.unexpected.value.unmatched(expected) else [];
    if second == [] then expected else second
  }

  /** Client.QueryIP, for the answer that the server gives. */
  function QueryIP(p: Policy, want4: bool, want6: bool, answer: Reply): (r: Reply)
    ensures Lawful(r)
    ensures r.err.Some? ==> r.err == answer.err || r.err == Some(EmptyResponse)
    ensures r.err.None? ==> answer.err.None? && r.ttl == answer.ttl
  {
    if !(want4 && p.ipv4) && !(want6 && p.ipv6) then Fail(EmptyResponse)
    else if answer.err.Some? then Fail(answer.err.value)
    else
      var ips := Strict(p, answer.ips);
      if answer.ips == [] || ips == [] then Fail(EmptyResponse) else Reply(Prefer(p, ips), answer.ttl, None)
  }

  /** With prior filters alone an address is lost only if the server gave none or both families are off. */
  lemma PriorKeepsAnswers(p: Policy, want4: bool, want6: bool, answer: Reply)
    requires p.expected.Some? ==> p.actPrior
    requires p.unexpected.Some? ==> p.actUnprior
    ensures QueryIP(p, want4, want6, answer).ips != [] <==>
      answer.err.None? && answer.ips != [] && ((want4 && p.ipv4) || (want6 && p.ipv6))
  {
  }

  /** The filter tells the addresses with the property from the others. */
  ghost predicate Sorts(f: Filter, has: int -> bool) {
    && (forall ips, x {:trigger x in f.matched(ips)} :: x in f.matched(ips) <==> x in ips && has(x))
    && (forall ips, x {:trigger x in f.unmatched(ips)} :: x in f.unmatched(ips) <==> x in ips && !has(x))
  }

  /** The address was given and passes the filters that must leave something. */
  ghost predicate Passes(p: Policy, answer: Reply, expected: int -> bool, unexpected: int -> bool, x: int) {
    && x in answer.ips && (p.expected.Some? && !p.actPrior ==> expected(x))
    && (p.unexpected.Some? && !p.actUnprior ==> !unexpected(x))
  }

  /** It is expected, if that is preferred and one that passes is. */
  ghost predicate Favoured(p: Policy, answer: Reply, expected: int -> bool, unexpected: int -> bool, x: int) {
    && Passes(p, answer, expected, unexpected, x)
    && (p.expected.Some? && p.actPrior && (exists y :: Passes(p, answer, expected, unexpected, y) && expected(y)) ==> expected(x))
  }

  /** And it is not unexpected, if that is preferred and one of those is not. */
  ghost predicate Chosen(p: Policy, answer: Reply, expected: int -> bool, unexpected: int -> bool, x: int) {
    && Favoured(p, answer, expected, unexpected, x)
    && (p.unexpected.Some? && p.actUnprior && (exists y :: Favoured(p, answer, expected, unexpected, y) && !unexpected(y)) ==>
          !unexpected(x))
  }

  lemma StrictIs(p: Policy, answer: Reply, expected: int -> bool, unexpected: int -> bool, x: int)
    requires p.expected.Some? ==> Sorts(p.expected.value, expected)
    requires p.unexpected.Some? ==> Sorts(p.unexpected.value, unexpected)
    ensures x in Strict(p, answer.ips) <==> Passes(p, answer, expected, unexpected, x)
  {
  }

  /** Narrowing some addresses down to those that are wanted, if there are any. */
  lemma Narrowed(ips: seq<int>, wanted: seq<int>, wants: int -> bool, x: int)
    requires forall y :: y in wanted <==> y in ips && wants(y)
    ensures (x in if wanted == [] then ips else wanted) <==> x in ips && ((exists y :: y in ips && wants(y)) ==> wants(x))
  {
    if wanted == [] {
      forall y | y in ips ensures !wants(y) { assert y !in wanted; }
    } else {
      var y := wanted[0];
      assert y in wanted;
      assert y in ips && wants(y);
    }
  }

  function FavouredIps(p: Policy, ips: seq<int>): seq<int> {
    var first := if p.expected.Some? && p.actPrior then p.expected.value.matched(ips) else [];
    if first == [] then ips else first
  }

  lemma FavouredIs(p: Policy, answer: Reply, expected: int -> bool, unexpected: int -> bool, x: int)
    requires p.expected.Some? ==> Sorts(p.expected.value, expected)
    requires p.unexpected.Some? ==> Sorts(p.unexpected.value, unexpected)
    ensures x in FavouredIps(p, Strict(p, answer.ips)) <==> Favoured(p, answer, expected, unexpected, x)
  {
    var ips := Strict(p, answer.ips);
    forall y ensures y in ips <==> Passes(p, answer, expected, unexpected, y) {
      StrictIs(p, answer, expected, unexpected, y);
    }
    if p.expected.Some? && p.actPrior { Narrowed(ips, p.expected.value.matched(ips), expected, x); }
  }

  lemma PreferIs(p: Policy, answer: Reply, expected: int -> bool, unexpected: int -> bool, x: int)
    requires p.expected.Some? ==> Sorts(p.expected.value, expected)
    requires p.unexpected.Some? ==> Sorts(p.unexpected.value, unexpected)
    ensures x in Prefer(p, Strict(p, answer.ips)) <==> Chosen(p, answer, expected, unexpected, x)
  {
    var favoured := FavouredIps(p, Strict(p, answer.ips));
    forall y ensures y in favoured <==> Favoured(p, answer, expected, unexpected, y) {
      FavouredIs(p, answer, expected, unexpected, y);
    }
    if p.unexpected.Some? && p.actUnprior {
      Narrowed(favoured, p.unexpected.value.unmatched(favoured), y => !unexpected(y), x);
    }
  }

  /** Exactly which addresses a client answers, and when it answers none, by what its filters are meant to tell. */
  lemma AnswersExactly(p: Policy, want4: bool, want6: bool, answer: Reply, expected: int -> bool, unexpected: int -> bool)
    requires p.expected.Some? ==> Sorts(p.expected.value, expected)
    requires p.unexpected.Some? ==> Sorts(p.unexpected.value, unexpected)
    ensures var r := QueryIP(p, want4, want6, answer);
      && (r.err.None? <==>
            && answer.err.None? && ((want4 && p.ipv4) || (want6 && p.ipv6))
            && exists x :: Passes(p, answer, expected, unexpected, x))
      && (r.err.None? ==> forall x :: x in r.ips <==> Chosen(p, answer, expected, unexpected, x))
  {
    var ips := Strict(p, answer.ips);
    forall x
      ensures x in ips <==> Passes(p, answer, expected, unexpected, x)
      ensures x in Prefer(p, ips) <==> Chosen(p, answer, expected, unexpected, x)
    {
      StrictIs(p, answer, expected, unexpected, x);
      PreferIs(p, answer, expected, unexpected, x);
    }
    if ips != [] { assert Passes(p, answer, expected, unexpected, ips[0]); }
    if x :| Passes(p, answer, expected, unexpected, x) { assert x in ips; }
  }

  // Groups.

  predicate Holds(g: Group, i: nat) {
    g.start <= i <= g.end
  }

  ghost predicate Adjoins(groups: seq<Group>, k: nat)
    requires k < |groups| - 1
  {
    groups[k].end + 1 == groups[k + 1].start
  }

  /** The groups are the maximal runs of equal policies, in order. */
  ghost predicate IsGrouping(clients: seq<Client>, groups: seq<Group>, n: nat)
    requires n <= |clients|
  {
    && (groups == [] <==> n == 0)
    && (groups != [] ==> groups[0].start == 0 && groups[|groups| - 1].end == n - 1)
    && (forall k :: 0 <= k < |groups| ==> groups[k].start <= groups[k].end < n)
    && (forall k :: 0 <= k < |groups| - 1 ==> Adjoins(groups, k))
    && (forall k, i: nat :: 0 <= k < |groups| && Holds(groups[k], i) ==> clients[i].policyID == clients[groups[k].start].policyID)
    && (forall k {:trigger groups[k].start} :: 0 < k < |groups| ==>
          groups[k].start > 0 && clients[groups[k].start - 1].policyID != clients[groups[k].start].policyID)
  }

  ghost predicate IsIndex(groups: seq<Group>, groupOf: seq<nat>, n: nat)
    requires n <= |groupOf|
  {
    forall i :: 0 <= i < n ==> groupOf[i] < |groups| && Holds(groups[groupOf[i]], i)
  }

  /** makeGroups. */
  method MakeGroups(clients: seq<Client>) returns (groups: seq<Group>, groupOf: seq<nat>)
    ensures IsGrouping(clients, groups, |clients|)
    ensures |groupOf| == |clients| && IsIndex(groups, groupOf, |clients|)
  {
    var n := |clients|;
    groups, groupOf := [], seq(n, _ => 0);
    if n == 0 { return; }
    var s: nat, e: nat := 0, 0;
    for i := 1 to n
      invariant e == i - 1 && IsOpenRun(clients, groups, groupOf, s, e)
    {
      if clients[i - 1].policyID == clients[i].policyID {
        e := i;
      } else {
        groups, groupOf := CloseRun(clients, groups, groupOf, s, e);
        s, e := i, i;
      }
    }
    groups, groupOf := CloseRun(clients, groups, groupOf, s, e);
  }

  /** Everything before s is grouped, and s to e is a run of one policy that starts there. */
  ghost predicate IsOpenRun(clients: seq<Client>, groups: seq<Group>, groupOf: seq<nat>, s: nat, e: nat) {
    && s <= e < |clients| == |groupOf|
    && IsGrouping(clients, groups, s) && IsIndex(groups, groupOf, s)
    && (s > 0 ==> clients[s - 1].policyID != clients[s].policyID)
    && (forall k :: s <= k <= e ==> clients[k].policyID == clients[s].policyID)
  }

  method CloseRun(clients: seq<Client>, groups: seq<Group>, groupOf: seq<nat>, s: nat, e: nat)
    returns (groups': seq<Group>, groupOf': seq<nat>)
    requires IsOpenRun(clients, groups, groupOf, s, e)
    ensures |groupOf'| == |clients| && IsGrouping(clients, groups', e + 1) && IsIndex(groups', groupOf', e + 1)
  {
    groupOf' := Mark(groups, groupOf, s, e);
    CloseGroup(clients, groups, s, e);
    groups' := groups + [Group(s, e)];
  }

  /** The loop that files s to e under the group about to be added. */
  method Mark(groups: seq<Group>, groupOf: seq<nat>, s: nat, e: nat) returns (marked: seq<nat>)
    requires s <= e < |groupOf| && IsIndex(groups, groupOf, s)
    ensures |marked| == |groupOf| && IsIndex(groups + [Group(s, e)], marked, e + 1)
  {
    marked := groupOf;
    for k := s to e + 1
      invariant |marked| == |groupOf| && marked[..s] == groupOf[..s]
      invariant forall j :: s <= j < k ==> marked[j] == |groups|
    {
      marked := marked[k := |groups|];
    }
    forall i | 0 <= i < s ensures marked[i] == groupOf[i] { assert marked[..s][i] == groupOf[..s][i]; }
  }

  lemma CloseGroup(clients: seq<Client>, groups: seq<Group>, s: nat, e: nat)
    requires s <= e < |clients| && IsGrouping(clients, groups, s)
    requires s > 0 ==> clients[s - 1].policyID != clients[s].policyID
    requires forall k :: s <= k <= e ==> clients[k].policyID == clients[s].policyID
    ensures IsGrouping(clients, groups + [Group(s, e)], e + 1)
  {
    var more := groups + [Group(s, e)];
    assert forall k :: 0 <= k < |groups| ==> more[k] == groups[k];
    forall k | 0 <= k < |more| - 1 ensures Adjoins(more, k) {
      if k < |groups| - 1 { assert Adjoins(groups, k); }
    }
    forall k, i: nat | 0 <= k < |more| && Holds(more[k], i)
      ensures i < |clients| && clients[i].policyID == clients[more[k].start].policyID
    {
      if k < |groups| { assert Holds(groups[k], i); }
    }
  }

  /** Every index is in one group only. */
  lemma {:induction false} GroupsInOrder(clients: seq<Client>, groups: seq<Group>, n: nat, k: nat, l: nat)
    requires n <= |clients| && IsGrouping(clients, groups, n) && k < l < |groups|
    ensures groups[k].end < groups[l].start
    decreases l
  {
    assert Adjoins(groups, l - 1);
    if k < l - 1 { GroupsInOrder(clients, groups, n, k, l - 1); }
  }

  // Serial queries.

  /** The first client that is asked and answers with addresses. */
  ghost predicate IsSerialWinner(clients: seq<Client>, replies: seq<Reply>, w: nat)
    requires |replies| == |clients|
  {
    && w < |clients| && !clients[w].skipped && replies[w].ips != []
    && forall j :: 0 <= j < w ==> clients[j].skipped || replies[j].ips == []
  }

  function ErrorOf(r: Reply): Error {
    if r.err.Some? then r.err.value else EmptyResponse
  }

  /** The errors of the first n clients that were asked, in order. */
  ghost function SerialErrors(clients: seq<Client>, replies: seq<Reply>, n: nat): seq<Error>
    requires |replies| == |clients| && n <= |clients|
  {
    if n == 0 then []
    else SerialErrors(clients, replies, n - 1) + if clients[n - 1].skipped then [] else [ErrorOf(replies[n - 1])]
  }

  /** A client that was asked adds the error of its reply, or that the reply was empty; a skipped one adds nothing. */
  lemma SerialErrorsAre(clients: seq<Client>, replies: seq<Reply>, i: nat)
    requires |replies| == |clients| && i < |clients|
    ensures var before, after := SerialErrors(clients, replies, i), SerialErrors(clients, replies, i + 1);
      && (clients[i].skipped ==> after == before)
      && (!clients[i].skipped && replies[i].err.Some? ==> after == before + [replies[i].err.value])
      && (!clients[i].skipped && replies[i].err.None? ==> after == before + [EmptyResponse])
  {
  }

  /** serialQuery. */
  method SerialQuery(clients: seq<Client>, replies: seq<Reply>) returns (r: Outcome)
    requires |replies| == |clients|
    ensures r.Found? ==> exists w: nat :: IsSerialWinner(clients, replies, w) && r == Found(replies[w].ips, replies[w].ttl)
    ensures r.Failed? <==> forall j :: 0 <= j < |clients| ==> clients[j].skipped || replies[j].ips == []
    ensures r.Failed? ==> r == Failed(SerialErrors(clients, replies, |clients|))
  {
    var errs := [];
    for i := 0 to |clients|
      invariant forall j :: 0 <= j < i ==> clients[j].skipped || replies[j].ips == []
      invariant errs == SerialErrors(clients, replies, i)
    {
      if clients[i].skipped { continue; }
      if |replies[i].ips| > 0 {
        assert IsSerialWinner(clients, replies, i);
        return Found(replies[i].ips, replies[i].ttl);
      }
      errs := errs + [ErrorOf(replies[i])];
    }
    return Failed(errs);
  }

  // Parallel queries.

  /** What arrives for a client: a skipped one fails at once. */
  function Arrival(clients: seq<Client>, replies: seq<Reply>, i: nat): Reply
    requires |replies| == |clients| && i < |clients|
  {
    if clients[i].skipped then Reply([], 0, Some(EmptyResponse)) else replies[i]
  }

  predicate Succeeds(r: Reply) {
    r.err.None? && r.ips != []
  }

  ghost predicate ClientSucceeds(clients: seq<Client>, replies: seq<Reply>, i: nat)
    requires |replies| == |clients|
  {
    i < |clients| && Succeeds(Arrival(clients, replies, i))
  }

  /** A client succeeds exactly if it was asked and answered addresses without an error. */
  lemma SucceedsExactly(clients: seq<Client>, replies: seq<Reply>, i: nat)
    requires |replies| == |clients|
    ensures ClientSucceeds(clients, replies, i) <==>
      i < |clients| && !clients[i].skipped && replies[i].err == None && replies[i].ips != []
    ensures ClientSucceeds(clients, replies, i) ==> Arrival(clients, replies, i) == replies[i]
  {
  }

  ghost predicate NoneSucceeds(clients: seq<Client>, replies: seq<Reply>)
    requires |replies| == |clients|
  {
    forall i: nat :: !ClientSucceeds(clients, replies, i)
  }

  ghost predicate IsOrder(order: seq<nat>, n: nat) {
    && |order| == n && (forall k :: 0 <= k < n ==> order[k] < n)
    && (forall j, k :: 0 <= j < k < n ==> order[j] != order[k])
  }

  /** w succeeds, and no client of an earlier group does. */
  ghost predicate IsParallelWinner(clients: seq<Client>, replies: seq<Reply>, groups: seq<Group>, w: nat)
    requires |replies| == |clients|
  {
    && ClientSucceeds(clients, replies, w)
    && exists g :: 0 <= g < |groups| && Holds(groups[g], w) &&
                   forall i :: 0 <= i < groups[g].start ==> !ClientSucceeds(clients, replies, i)
  }

  /** The members of a group that have not arrived. */
  ghost function Missing(g: Group, arrived: set<nat>): set<nat> {
    set i: nat | i <= g.end && g.start <= i && i !in arrived
  }

  /** Where group k starts, or the number of clients after the last group. */
  function Bound(clients: seq<Client>, groups: seq<Group>, k: nat): nat
    requires k <= |groups|
  {
    if k < |groups| then groups[k].start else |clients|
  }

  /** What has arrived is filed, and counted off its group. */
  ghost predicate Filed(clients: seq<Client>, replies: seq<Reply>, groups: seq<Group>, arrived: set<nat>,
                        results: seq<Option<Reply>>, pending: seq<nat>)
    requires |replies| == |clients|
  {
    && |results| == |clients| && |pending| == |groups|
    && (forall i :: 0 <= i < |clients| ==> results[i] == if i in arrived then Some(Arrival(clients, replies, i)) else None)
    && (forall g :: 0 <= g < |groups| ==> pending[g] == |Missing(groups[g], arrived)|)
  }

  /** The groups before k have arrived and failed. */
  ghost predicate Cleared(clients: seq<Client>, replies: seq<Reply>, groups: seq<Group>, arrived: set<nat>, k: nat)
    requires |replies| == |clients| && k <= |groups|
  {
    forall i: nat :: i < Bound(clients, groups, k) ==> i in arrived && !ClientSucceeds(clients, replies, i)
  }

  /** With these arrivals w wins: it is the first that succeeded of group g, and all earlier groups have arrived and failed. */
  ghost predicate Decides(clients: seq<Client>, replies: seq<Reply>, groups: seq<Group>, arrived: set<nat>, g: nat, w: nat)
    requires |replies| == |clients|
  {
    && g < |groups| && Holds(groups[g], w) && w in arrived && ClientSucceeds(clients, replies, w)
    && (forall i: nat :: Holds(groups[g], i) && i < w && i in arrived ==> !ClientSucceeds(clients, replies, i))
    && (forall i: nat :: i < groups[g].start ==> i in arrived && !ClientSucceeds(clients, replies, i))
  }

  ghost predicate Undecided(clients: seq<Client>, replies: seq<Reply>, groups: seq<Group>, arrived: set<nat>)
    requires |replies| == |clients|
  {
    forall g: nat, w: nat :: !Decides(clients, replies, groups, arrived, g, w)
  }

  /** There is one decision at most. */
  lemma DecidesOnce(clients: seq<Client>, replies: seq<Reply>, groups: seq<Group>, arrived: set<nat>, g: nat, w: nat,
                    g': nat, w': nat)
    requires |replies| == |clients| && IsGrouping(clients, groups, |clients|)
    requires Decides(clients, replies, groups, arrived, g, w) && Decides(clients, replies, groups, arrived, g', w')
    ensures g == g' && w == w'
  {
    if g < g' { GroupsInOrder(clients, groups, |clients|, g, g'); }
    if g' < g { GroupsInOrder(clients, groups, |clients|, g', g); }
  }

  /** The first member of a group that has arrived and succeeded. */
  method RaceGroup(clients: seq<Client>, replies: seq<Reply>, groups: seq<Group>, ghost arrived: set<nat>,
                   results: seq<Option<Reply>>, ghost pending: seq<nat>, g: Group) returns (winner: Option<nat>)
    requires |replies| == |clients| && Filed(clients, replies, groups, arrived, results, pending) && g.end < |clients|
    ensures winner.Some? ==> Holds(g, winner.value) && ClientSucceeds(clients, replies, winner.value) && winner.value in arrived
    ensures winner.Some? ==>
      forall i: nat :: Holds(g, i) && i < winner.value && i in arrived ==> !ClientSucceeds(clients, replies, i)
    ensures winner.None? ==> forall i: nat :: Holds(g, i) && i in arrived ==> !ClientSucceeds(clients, replies, i)
  {
    if g.end < g.start { return None; }
    for j := g.start to g.end + 1
      invariant forall i: nat :: g.start <= i < j && i in arrived ==> !ClientSucceeds(clients, replies, i)
    {
      if results[j].Some? && Succeeds(results[j].value) { return Some(j); }
    }
    winner := None;
  }

  /** Moves on over groups that have arrived and failed, until one wins or is incomplete. */
  method Advance(clients: seq<Client>, replies: seq<Reply>, groups: seq<Group>, ghost arrived: set<nat>,
                 results: seq<Option<Reply>>, pending: seq<nat>, from: nat, errs0: seq<Error>)
    returns (winner: Option<nat>, nextGroup: nat, errs: seq<Error>)
    requires |replies| == |clients| && IsGrouping(clients, groups, |clients|) && from <= |groups|
    requires Filed(clients, replies, groups, arrived, results, pending) && Cleared(clients, replies, groups, arrived, from)
    requires errs0 == Errors(clients, replies, Bound(clients, groups, from))
    ensures nextGroup <= |groups| && Cleared(clients, replies, groups, arrived, nextGroup)
    ensures winner.Some? ==> IsParallelWinner(clients, replies, groups, winner.value) && winner.value in arrived
    ensures winner.None? && nextGroup < |groups| ==> pending[nextGroup] > 0
    ensures winner.Some? ==> Decides(clients, replies, groups, arrived, nextGroup, winner.value)
    ensures winner.None? ==> Undecided(clients, replies, groups, arrived)
    ensures errs == Errors(clients, replies, Bound(clients, groups, nextGroup))
  {
    nextGroup, errs := from, errs0;
    while nextGroup < |groups|
      invariant nextGroup <= |groups| && Cleared(clients, replies, groups, arrived, nextGroup)
      invariant errs == Errors(clients, replies, Bound(clients, groups, nextGroup))
    {
      var g := groups[nextGroup];
      winner := RaceGroup(clients, replies, groups, arrived, results, pending, g);
      if winner.Some? {
        assert Holds(groups[nextGroup], winner.value);
        return;
      }
      if pending[nextGroup] > 0 {
        StillUndecided(clients, replies, groups, arrived, nextGroup);
        return;
      }
      ClearNext(clients, replies, groups, arrived, nextGroup);
      errs := CollectErrors(clients, replies, groups, arrived, results, pending, nextGroup, errs);
      nextGroup := nextGroup + 1;
    }
    StillUndecided(clients, replies, groups, arrived, nextGroup);
    winner := None;
  }

  /** With the groups before k failed, and group k without a success and incomplete, nothing is decided. */
  lemma StillUndecided(clients: seq<Client>, replies: seq<Reply>, groups: seq<Group>, arrived: set<nat>, k: nat)
    requires |replies| == |clients| && IsGrouping(clients, groups, |clients|) && k <= |groups|
    requires Cleared(clients, replies, groups, arrived, k)
    requires k < |groups| ==> |Missing(groups[k], arrived)| > 0
    requires k < |groups| ==> forall i: nat :: Holds(groups[k], i) && i in arrived ==> !ClientSucceeds(clients, replies, i)
    ensures Undecided(clients, replies, groups, arrived)
  {
    forall g: nat, w: nat ensures !Decides(clients, replies, groups, arrived, g, w) {
      if g < |groups| && Holds(groups[g], w) {
        if g < k {
          if k < |groups| { GroupsInOrder(clients, groups, |clients|, g, k); }
          assert w < Bound(clients, groups, k);
        } else if g > k {
          GroupsInOrder(clients, groups, |clients|, k, g);
          var i :| i in Missing(groups[k], arrived);
          assert i < groups[g].start;
        }
      }
    }
  }

  /** The errors of the first n clients, in order. */
  ghost function Errors(clients: seq<Client>, replies: seq<Reply>, n: nat): seq<Error>
    requires |replies| == |clients| && n <= |clients|
  {
    seq(n, i requires 0 <= i < n => ErrorOf(Arrival(clients, replies, i)))
  }

  /** The loop over a group that has failed. */
  method CollectErrors(clients: seq<Client>, replies: seq<Reply>, groups: seq<Group>, ghost arrived: set<nat>,
                       results: seq<Option<Reply>>, ghost pending: seq<nat>, k: nat, errs0: seq<Error>)
    returns (errs: seq<Error>)
    requires |replies| == |clients| && IsGrouping(clients, groups, |clients|) && k < |groups|
    requires Filed(clients, replies, groups, arrived, results, pending)
    requires forall i: nat :: Holds(groups[k], i) ==> i in arrived
    requires errs0 == Errors(clients, replies, groups[k].start)
    ensures Bound(clients, groups, k + 1) <= |clients| && errs == Errors(clients, replies, Bound(clients, groups, k + 1))
  {
    errs := errs0;
    if k < |groups| - 1 { assert Adjoins(groups, k); }
    assert groups[k].end + 1 == Bound(clients, groups, k + 1);
    for j := groups[k].start to groups[k].end + 1
      invariant errs == Errors(clients, replies, j)
    {
      assert Holds(groups[k], j);
      errs := errs + [ErrorOf(results[j].value)];
    }
  }

  lemma ClearNext(clients: seq<Client>, replies: seq<Reply>, groups: seq<Group>, arrived: set<nat>, k: nat)
    requires |replies| == |clients| && IsGrouping(clients, groups, |clients|) && k < |groups|
    requires Cleared(clients, replies, groups, arrived, k) && |Missing(groups[k], arrived)| == 0
    requires forall i: nat :: Holds(groups[k], i) && i in arrived ==> !ClientSucceeds(clients, replies, i)
    ensures Cleared(clients, replies, groups, arrived, k + 1)
    ensures forall i: nat :: Holds(groups[k], i) ==> i in arrived
  {
    if k < |groups| - 1 { assert Adjoins(groups, k); }
    assert groups[k].end + 1 == Bound(clients, groups, k + 1);
    forall i: nat | Holds(groups[k], i) ensures i in arrived { assert i !in Missing(groups[k], arrived); }
    forall i: nat | i < Bound(clients, groups, k + 1) ensures i in arrived && !ClientSucceeds(clients, replies, i) {
      if i >= groups[k].start { assert Holds(groups[k], i); }
    }
  }

  /** One arrival: filed under its client and counted off its group. */
  lemma FileNext(clients: seq<Client>, replies: seq<Reply>, groups: seq<Group>, arrived: set<nat>,
                 results: seq<Option<Reply>>, pending: seq<nat>, i: nat, gi: nat)
    requires |replies| == |clients| && IsGrouping(clients, groups, |clients|)
    requires Filed(clients, replies, groups, arrived, results, pending)
    requires i < |clients| && i !in arrived && gi < |groups| && Holds(groups[gi], i)
    ensures pending[gi] > 0
    ensures Filed(clients, replies, groups, arrived + {i}, results[i := Some(Arrival(clients, replies, i))],
                  pending[gi := pending[gi] - 1])
  {
    forall g | 0 <= g < |groups| ensures Missing(groups[g], arrived + {i}) == Missing(groups[g], arrived) - {i} {}
    forall g | 0 <= g < |groups| && g != gi ensures i !in Missing(groups[g], arrived) {
      if g < gi { GroupsInOrder(clients, groups, |clients|, g, gi); } else { GroupsInOrder(clients, groups, |clients|, gi, g); }
    }
    assert i in Missing(groups[gi], arrived);
  }

  /** The first t of the order, and no others, have arrived. */
  ghost predicate ArrivedFirst(order: seq<nat>, t: nat, arrived: set<nat>) {
    && |arrived| == t <= |order| && (forall i :: i in arrived ==> i < |order|)
    && (forall k :: t <= k < |order| ==> order[k] !in arrived)
  }

  lemma ArrivesNext(order: seq<nat>, t: nat, arrived: set<nat>)
    requires IsOrder(order, |order|) && t < |order| && ArrivedFirst(order, t, arrived)
    ensures order[t] < |order| && order[t] !in arrived && ArrivedFirst(order, t + 1, arrived + {order[t]})
  {}

  /** In the end everyone has arrived. */
  lemma AllArrive(order: seq<nat>, arrived: set<nat>)
    requires ArrivedFirst(order, |order|, arrived)
    ensures forall i: nat :: i < |order| ==> i in arrived
  {
    if order != [] {
      var n := |order|;
      RangeSize(0, n - 1);
      var all := Missing(Group(0, n - 1), {});
      assert all == arrived + (all - arrived);
      assert all - arrived == {};
      forall i: nat | i < n ensures i in arrived { assert i in all; }
    }
  }

  lemma NoneMissing(clients: seq<Client>, groups: seq<Group>, arrived: set<nat>, g: nat)
    requires IsGrouping(clients, groups, |clients|) && g < |groups| && forall i: nat :: i < |clients| ==> i in arrived
    ensures Missing(groups[g], arrived) == {}
  {}

  lemma StartFiled(clients: seq<Client>, replies: seq<Reply>, groups: seq<Group>, results: seq<Option<Reply>>, pending: seq<nat>)
    requires |replies| == |clients| && IsGrouping(clients, groups, |clients|)
    requires |results| == |clients| && forall i :: 0 <= i < |clients| ==> results[i] == None
    requires |pending| == |groups| && forall g :: 0 <= g < |groups| ==> pending[g] == groups[g].end - groups[g].start + 1
    ensures Filed(clients, replies, groups, {}, results, pending)
  {
    forall g | 0 <= g < |groups| ensures pending[g] == |Missing(groups[g], {})| { RangeSize(groups[g].start, groups[g].end); }
  }

  /** The clients that are among the first t to answer. */
  ghost function Early(order: seq<nat>, t: nat): set<nat>
    requires t <= |order|
  {
    set k | 0 <= k < t :: order[k]
  }

  /** The answer at t is the first that decides, and it decides for w. */
  ghost predicate WinsAt(clients: seq<Client>, replies: seq<Reply>, groups: seq<Group>, order: seq<nat>, t: nat, g: nat, w: nat)
    requires |replies| == |clients| && t < |order|
  {
    Undecided(clients, replies, groups, Early(order, t)) && Decides(clients, replies, groups, Early(order, t + 1), g, w)
  }

  /** The answer of the client that the first deciding arrival decides for. */
  ghost predicate Won(clients: seq<Client>, replies: seq<Reply>, order: seq<nat>, r: Outcome)
    requires |replies| == |clients|
  {
    exists groups, t: nat, g: nat, w: nat ::
      && IsGrouping(clients, groups, |clients|) && t < |order| && WinsAt(clients, replies, groups, order, t, g, w)
      && r == Found(replies[w].ips, replies[w].ttl)
  }

  lemma EarlyNext(order: seq<nat>, t: nat)
    requires t < |order|
    ensures Early(order, t + 1) == Early(order, t) + {order[t]}
  {
  }

  /** parallelQuery, for the arrival order given. */
  method ParallelQuery(clients: seq<Client>, replies: seq<Reply>, order: seq<nat>) returns (r: Outcome)
    requires |replies| == |clients| && IsOrder(order, |clients|)
    ensures r.Found? ==> exists groups, w: nat ::
      && IsGrouping(clients, groups, |clients|) && IsParallelWinner(clients, replies, groups, w)
      && r == Found(replies[w].ips, replies[w].ttl)
    ensures r.Found? ==> Won(clients, replies, order, r)
    ensures r.Failed? <==> NoneSucceeds(clients, replies)
    ensures r.Failed? ==> r == Failed(Errors(clients, replies, |clients|))
  {
    var gs, groupOf := MakeGroups(clients);
    var results, pending := Start(clients, replies, gs);
    var nextGroup: nat, errs: seq<Error> := 0, [];
    ghost var arrived: set<nat> := {};
    for t := 0 to |clients|
      invariant ArrivedFirst(order, t, arrived) && arrived == Early(order, t)
      invariant Undecided(clients, replies, gs, arrived)
      invariant Running(clients, replies, gs, arrived, results, pending, nextGroup, errs)
      invariant nextGroup < |gs| ==> pending[nextGroup] > 0
    {
      var winner;
      ArrivesNext(order, t, arrived);
      winner, results, pending, nextGroup, errs :=
        Arrive(clients, replies, gs, groupOf, arrived, results, pending, nextGroup, errs, order[t]);
      EarlyNext(order, t);
      arrived := arrived + {order[t]};
      if winner.Some? {
        assert WinsAt(clients, replies, gs, order, t, nextGroup, winner.value);
        WinnerFiled(clients, replies, gs, arrived, results, pending, winner.value);
        return Found(results[winner.value].value.ips, results[winner.value].value.ttl);
      }
    }
    AllArrive(order, arrived);
    AllDecided(clients, replies, gs, arrived, results, pending, nextGroup, errs);
    return Failed(errs);
  }

  /** The state between two arrivals. */
  ghost predicate Running(clients: seq<Client>, replies: seq<Reply>, groups: seq<Group>, arrived: set<nat>,
                          results: seq<Option<Reply>>, pending: seq<nat>, nextGroup: nat, errs: seq<Error>)
    requires |replies| == |clients|
  {
    && Filed(clients, replies, groups, arrived, results, pending)
    && nextGroup <= |groups| && Cleared(clients, replies, groups, arrived, nextGroup)
    && Bound(clients, groups, nextGroup) <= |clients|
    && errs == Errors(clients, replies, Bound(clients, groups, nextGroup))
  }

  lemma WinnerFiled(clients: seq<Client>, replies: seq<Reply>, groups: seq<Group>, arrived: set<nat>,
                    results: seq<Option<Reply>>, pending: seq<nat>, w: nat)
    requires |replies| == |clients| && Filed(clients, replies, groups, arrived, results, pending) && w in arrived
    requires IsParallelWinner(clients, replies, groups, w)
    ensures w < |results| && results[w] == Some(replies[w]) && !NoneSucceeds(clients, replies)
  {}

  /** When everyone has arrived and no group has won, every group has failed. */
  lemma AllDecided(clients: seq<Client>, replies: seq<Reply>, groups: seq<Group>, arrived: set<nat>,
                   results: seq<Option<Reply>>, pending: seq<nat>, nextGroup: nat, errs: seq<Error>)
    requires |replies| == |clients| && IsGrouping(clients, groups, |clients|)
    requires Running(clients, replies, groups, arrived, results, pending, nextGroup, errs)
    requires nextGroup < |groups| ==> pending[nextGroup] > 0
    requires forall i: nat :: i < |clients| ==> i in arrived
    ensures errs == Errors(clients, replies, |clients|) && NoneSucceeds(clients, replies)
  {
    if nextGroup < |groups| {
      NoneMissing(clients, groups, arrived, nextGroup);
      assert false;
    }
  }

  method Start(clients: seq<Client>, ghost replies: seq<Reply>, groups: seq<Group>)
    returns (results: seq<Option<Reply>>, pending: seq<nat>)
    requires |replies| == |clients| && IsGrouping(clients, groups, |clients|)
    ensures Running(clients, replies, groups, {}, results, pending, 0, [])
    ensures groups != [] ==> pending[0] > 0
  {
    results := seq(|clients|, _ => None);
    pending := [];
    for g := 0 to |groups|
      invariant |pending| == g && forall k :: 0 <= k < g ==> pending[k] == groups[k].end - groups[k].start + 1
    {
      pending := pending + [groups[g].end - groups[g].start + 1];
    }
    StartFiled(clients, replies, groups, results, pending);
  }

  /** One turn of the loop: an answer is filed, and the groups that it decides are decided. */
  method Arrive(clients: seq<Client>, replies: seq<Reply>, groups: seq<Group>, groupOf: seq<nat>, ghost arrived: set<nat>,
                results0: seq<Option<Reply>>, pending0: seq<nat>, from: nat, errs0: seq<Error>, i: nat)
    returns (winner: Option<nat>, results: seq<Option<Reply>>, pending: seq<nat>, nextGroup: nat, errs: seq<Error>)
    requires |replies| == |clients| && IsGrouping(clients, groups, |clients|)
    requires |groupOf| == |clients| && IsIndex(groups, groupOf, |clients|)
    requires Running(clients, replies, groups, arrived, results0, pending0, from, errs0) && i < |clients| && i !in arrived
    ensures Running(clients, replies, groups, arrived + {i}, results, pending, nextGroup, errs)
    ensures winner.Some? ==> IsParallelWinner(clients, replies, groups, winner.value) && winner.value in arrived + {i}
    ensures winner.None? && nextGroup < |groups| ==> pending[nextGroup] > 0
    ensures winner.Some? ==> Decides(clients, replies, groups, arrived + {i}, nextGroup, winner.value)
    ensures winner.None? ==> Undecided(clients, replies, groups, arrived + {i})
  {
    var gi := groupOf[i];
    FileNext(clients, replies, groups, arrived, results0, pending0, i, gi);
    results := results0[i := Some(Arrival(clients, replies, i))];
    pending := pending0[gi := pending0[gi] - 1];
    winner, nextGroup, errs := Advance(clients, replies, groups, arrived + {i}, results, pending, from, errs0);
  }

  // Serial and parallel.

  /** No two neighbours share a policy. */
  ghost predicate AllDiffer(clients: seq<Client>) {
    forall i {:trigger clients[i]} :: 0 < i < |clients| ==> clients[i - 1].policyID != clients[i].policyID
  }

  lemma SingletonGroup(clients: seq<Client>, groups: seq<Group>, g: nat)
    requires IsGrouping(clients, groups, |clients|) && AllDiffer(clients) && g < |groups|
    ensures groups[g].start == groups[g].end
  {
    var s, e := groups[g].start, groups[g].end;
    assert Holds(groups[g], e);
    assert s < e ==> Holds(groups[g], e - 1);
    if s < e { assert false; }
  }

  /** With singleton groups the winner does not depend on the order: it is the first client that succeeds. */
  lemma ParallelIsFirst(clients: seq<Client>, replies: seq<Reply>, groups: seq<Group>, w: nat)
    requires |replies| == |clients| && IsGrouping(clients, groups, |clients|) && AllDiffer(clients)
    requires IsParallelWinner(clients, replies, groups, w)
    ensures forall i: nat :: i < w ==> !ClientSucceeds(clients, replies, i)
  {
    var g :| 0 <= g < |groups| && Holds(groups[g], w) &&
      forall i :: 0 <= i < groups[g].start ==> !ClientSucceeds(clients, replies, i);
    SingletonGroup(clients, groups, g);
  }

  /** Every client is in a group. */
  lemma {:induction false} GroupHolding(clients: seq<Client>, groups: seq<Group>, k: nat, i: nat) returns (g: nat)
    requires IsGrouping(clients, groups, |clients|) && k < |groups| && groups[k].start <= i < |clients|
    ensures k <= g < |groups| && Holds(groups[g], i)
    decreases |groups| - k
  {
    if i <= groups[k].end {
      g := k;
    } else {
      assert Adjoins(groups, k);
      g := GroupHolding(clients, groups, k + 1, i);
    }
  }

  /** Addresses come without an error, and an error without addresses. */
  ghost predicate AllLawful(replies: seq<Reply>) {
    forall i :: 0 <= i < |replies| ==> Lawful(replies[i])
  }

  lemma SucceedsIsAnswered(clients: seq<Client>, replies: seq<Reply>, i: nat)
    requires |replies| == |clients| && AllLawful(replies) && i < |clients|
    ensures ClientSucceeds(clients, replies, i) <==> !clients[i].skipped && replies[i].ips != []
  {
    assert Lawful(replies[i]);
  }

  /** Both queries fail on the same replies. */
  lemma SameFailures(clients: seq<Client>, replies: seq<Reply>)
    requires |replies| == |clients| && AllLawful(replies)
    ensures NoneSucceeds(clients, replies) <==> forall j :: 0 <= j < |clients| ==> clients[j].skipped || replies[j].ips == []
  {
    forall i | 0 <= i < |clients| ensures ClientSucceeds(clients, replies, i) <==> !clients[i].skipped && replies[i].ips != [] {
      SucceedsIsAnswered(clients, replies, i);
    }
  }

  /** The client that the serial query takes is one that the parallel query may take. */
  lemma SerialMayWin(clients: seq<Client>, replies: seq<Reply>, groups: seq<Group>, s: nat)
    requires |replies| == |clients| && AllLawful(replies) && IsGrouping(clients, groups, |clients|)
    requires IsSerialWinner(clients, replies, s)
    ensures IsParallelWinner(clients, replies, groups, s)
  {
    var g := GroupHolding(clients, groups, 0, s);
    SucceedsIsAnswered(clients, replies, s);
    forall i | 0 <= i < groups[g].start ensures !ClientSucceeds(clients, replies, i) { SucceedsIsAnswered(clients, replies, i); }
  }

  /** Whatever the parallel query takes is in the group of the client that the serial query takes. */
  lemma WinnersShareGroup(clients: seq<Client>, replies: seq<Reply>, groups: seq<Group>, s: nat, w: nat)
    requires |replies| == |clients| && AllLawful(replies) && IsGrouping(clients, groups, |clients|)
    requires IsSerialWinner(clients, replies, s) && IsParallelWinner(clients, replies, groups, w)
    ensures s <= w && exists g :: 0 <= g < |groups| && Holds(groups[g], s) && Holds(groups[g], w)
  {
    var g :| 0 <= g < |groups| && Holds(groups[g], w) &&
      forall i :: 0 <= i < groups[g].start ==> !ClientSucceeds(clients, replies, i);
    SucceedsIsAnswered(clients, replies, s);
    SucceedsIsAnswered(clients, replies, w);
  }

  /** Where no two neighbours share a policy, both queries take the same client, whatever the order. */
  lemma SerialIsParallel(clients: seq<Client>, replies: seq<Reply>, groups: seq<Group>, w: nat)
    requires |replies| == |clients| && AllLawful(replies) && IsGrouping(clients, groups, |clients|) && AllDiffer(clients)
    ensures IsSerialWinner(clients, replies, w) <==> IsParallelWinner(clients, replies, groups, w)
  {
    if IsSerialWinner(clients, replies, w) { SerialMayWin(clients, replies, groups, w); }
    if IsParallelWinner(clients, replies, groups, w) {
      ParallelIsFirst(clients, replies, groups, w);
      SucceedsIsAnswered(clients, replies, w);
      forall j | 0 <= j < w ensures clients[j].skipped || replies[j].ips == [] { SucceedsIsAnswered(clients, replies, j); }
    }
  }

  /** The two queries side by side. */
  method QueryBoth(clients: seq<Client>, replies: seq<Reply>, order: seq<nat>) returns (serial: Outcome, parallel: Outcome)
    requires |replies| == |clients| && IsOrder(order, |clients|) && AllLawful(replies)
    ensures serial.Found? <==> parallel.Found?
    ensures serial.Found? && AllDiffer(clients) ==> serial == parallel
  {
    serial := SerialQuery(clients, replies);
    parallel := ParallelQuery(clients, replies, order);
    SameFailures(clients, replies);
    if serial.Found? && AllDiffer(clients) {
      ghost var s: nat :| IsSerialWinner(clients, replies, s) && serial == Found(replies[s].ips, replies[s].ttl);
      ghost var groups, w: nat :| IsGrouping(clients, groups, |clients|) && IsParallelWinner(clients, replies, groups, w) &&
        parallel == Found(replies[w].ips, replies[w].ttl);
      SerialIsParallel(clients, replies, groups, w);
    }
  }

  lemma {:induction false} RangeSize(s: nat, e: nat)
    requires s <= e
    ensures |Missing(Group(s, e), {})| == e - s + 1
    decreases e - s
  {
    if s == e {
      assert Missing(Group(s, e), {}) == {s};
    } else {
      RangeSize(s, e - 1);
      assert Missing(Group(s, e), {}) == Missing(Group(s, e - 1), {}) + {e};
    }
  }
}
