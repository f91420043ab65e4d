/**
 Smooth weighted round robin (app/router/strategy_weightedleastping.go, pickWeighted): the current weights, one pick,
 and how far any number of picks on an unchanged pool can be from the weights' shares. Weights are real numbers.
 */
module WeightedRoundRobin {
  datatype Node = Node(tag: string, weight: real)

  ghost predicate DistinctTags(nodes: seq<Node>) {
    forall i, j :: 0 <= i < j < |nodes| ==> nodes[i].tag != nodes[j].tag
  }

  /** A pool as filterNodes builds it. */
  ghost predicate IsPool(nodes: seq<Node>) {
    nodes != [] && DistinctTags(nodes) && forall i :: 0 <= i < |nodes| ==> nodes[i].weight > 0.0
  }

  /** A current weight; a tag without one counts as zero, as in a Go map. */
  function At(current: map<string, real>, tag: string): real {
    if tag in current then current[tag] else 0.0
  }

  /** The weights of the first n nodes together. */
  function TotalTo(nodes: seq<Node>, n: nat): real
    requires n <= |nodes|
  {
    if n == 0 then 0.0 else TotalTo(nodes, n - 1) + nodes[n - 1].weight
  }

  function Total(nodes: seq<Node>): real {
    TotalTo(nodes, |nodes|)
  }

  // One pick, without the loop: every current weight rises by the node's weight, the first largest one is chosen and
  // falls by the total.

  function Raised(current: map<string, real>, node: Node): real {
    At(current, node.tag) + node.weight
  }

  /** i is the first of the largest among the first n nodes. */
  ghost predicate IsFirstLargest(current: map<string, real>, nodes: seq<Node>, n: nat, i: nat) {
    && i < n <= |nodes|
    && (forall j :: 0 <= j < n ==> Raised(current, nodes[j]) <= Raised(current, nodes[i]))
    && (forall j :: 0 <= j < i ==> Raised(current, nodes[j]) < Raised(current, nodes[i]))
  }

  ghost predicate IsChosen(current: map<string, real>, nodes: seq<Node>, i: nat) {
    IsFirstLargest(current, nodes, |nodes|, i)
  }

  function TagsOf(nodes: seq<Node>): set<string> {
    set k | 0 <= k < |nodes| :: nodes[k].tag
  }

  /** next is the state after the node at i was picked from current. */
  ghost predicate IsPick(current: map<string, real>, nodes: seq<Node>, i: nat, next: map<string, real>) {
    && IsChosen(current, nodes, i)
    && next.Keys == TagsOf(nodes)
    && forall j :: 0 <= j < |nodes| ==>
         next[nodes[j].tag] == Raised(current, nodes[j]) - if j == i then Total(nodes) else 0.0
  }

  class Strategy {
    var current: map<string, real>

    constructor ()
      ensures current == map[]
    {
      current := map[];
    }

    /** Forgets the current weights of tags that left the pool. */
    method DropInactive(active: set<string>)
      modifies this
      ensures current == map t | t in old(current) && t in active :: old(current)[t]
    {
      var keys := current.Keys;
      while keys != {}
        invariant keys <= old(current).Keys
        invariant current.Keys <= old(current).Keys && keys <= current.Keys
        invariant forall t :: t in current <==> t in keys || (t in old(current) && t in active)
        invariant forall t :: t in current ==> current[t] == old(current)[t]
      {
        var tag :| tag in keys;
        if tag !in active { current := current - {tag}; }
        keys := keys - {tag};
      }
    }

    /** The loop that raises the current weights and finds the first largest. */
    method RaiseAll(nodes: seq<Node>) returns (totalWeight: real, selected: nat)
      requires nodes != [] && DistinctTags(nodes)
      modifies this
      ensures totalWeight == Total(nodes) && IsChosen(old(current), nodes, selected)
      ensures RaisedBy(old(current), nodes, |nodes|, current) && current.Keys <= old(current).Keys + TagsOf(nodes)
    {
      totalWeight, selected := 0.0, 0;
      var selectedCurrent := 0.0;
      for i := 0 to |nodes|
        invariant totalWeight == TotalTo(nodes, i) && RaisedBy(old(current), nodes, i, current)
        invariant selected < |nodes| && current.Keys <= old(current).Keys + TagsOf(nodes)
        invariant i > 0 ==>
          IsFirstLargest(old(current), nodes, i, selected) && selectedCurrent == Raised(old(current), nodes[selected])
      {
        RaiseNext(old(current), nodes, i, current);
        assert nodes[i].tag in TagsOf(nodes);
        current := current[nodes[i].tag := At(current, nodes[i].tag) + nodes[i].weight];
        totalWeight := totalWeight + nodes[i].weight;
        if i == 0 || current[nodes[i].tag] > selectedCurrent {
          selected, selectedCurrent := i, current[nodes[i].tag];
        }
      }
    }

    /** pickWeighted. */
    method PickWeighted(nodes: seq<Node>) returns (tag: string)
      requires DistinctTags(nodes)
      modifies this
      ensures nodes == [] ==> tag == "" && current == map[]
      ensures nodes != [] ==> exists i :: 0 <= i < |nodes| && tag == nodes[i].tag && IsPick(old(current), nodes, i, current)
    {
      var active := TagsOf(nodes);
      DropInactive(active);
      if |nodes| == 0 {
        assert current == map[];
        return "";
      }
      ghost var kept := current;
      var totalWeight, selected := RaiseAll(nodes);
      tag := nodes[selected].tag;
      KeptIsEnough(old(current), kept, active, nodes, selected, current);
      current := current[tag := current[tag] - totalWeight];
    }
  }

  /** The first n nodes have been raised from current0, and nothing else changed. */
  ghost predicate RaisedBy(current0: map<string, real>, nodes: seq<Node>, n: nat, current: map<string, real>)
    requires n <= |nodes|
  {
    && (forall k :: 0 <= k < n ==> nodes[k].tag in current && current[nodes[k].tag] == Raised(current0, nodes[k]))
    && (forall k :: n <= k < |nodes| ==> At(current, nodes[k].tag) == At(current0, nodes[k].tag))
  }

  lemma RaiseNext(current0: map<string, real>, nodes: seq<Node>, n: nat, current: map<string, real>)
    requires n < |nodes| && DistinctTags(nodes) && RaisedBy(current0, nodes, n, current)
    ensures RaisedBy(current0, nodes, n + 1, current[nodes[n].tag := Raised(current0, nodes[n])])
    ensures Raised(current, nodes[n]) == Raised(current0, nodes[n])
  {}

  /** Forgetting tags outside the pool makes no difference to a pick. */
  lemma KeptIsEnough(current: map<string, real>, kept: map<string, real>, active: set<string>, nodes: seq<Node>, i: nat,
                     raised: map<string, real>)
    requires active == TagsOf(nodes) && raised.Keys <= kept.Keys + active
    requires kept == map t | t in current && t in active :: current[t]
    requires DistinctTags(nodes) && IsChosen(kept, nodes, i) && RaisedBy(kept, nodes, |nodes|, raised)
    ensures IsPick(current, nodes, i, raised[nodes[i].tag := raised[nodes[i].tag] - Total(nodes)])
  {
    forall k | 0 <= k < |nodes| ensures Raised(kept, nodes[k]) == Raised(current, nodes[k]) {
      assert nodes[k].tag in active;
    }
    assert raised.Keys == active;
  }

  // Runs of picks on one pool.

  /** states[k] is the state after k picks and picks[k] the node picked then, from no state at all. */
  ghost predicate IsRun(nodes: seq<Node>, states: seq<map<string, real>>, picks: seq<nat>) {
    && |states| == |picks| + 1 && states[0] == map[]
    && forall k :: 0 <= k < |picks| ==> PickAt(nodes, states, picks, k)
  }

  ghost predicate PickAt(nodes: seq<Node>, states: seq<map<string, real>>, picks: seq<nat>, k: nat)
    requires k < |picks| < |states|
  {
    IsPick(states[k], nodes, picks[k], states[k + 1])
  }

  /** How often node i is among the first k picks. */
  function Count(picks: seq<nat>, k: nat, i: nat): nat
    requires k <= |picks|
  {
    if k == 0 then 0 else Count(picks, k - 1, i) + if picks[k - 1] == i then 1 else 0
  }

  ghost function SumAt(current: map<string, real>, nodes: seq<Node>, n: nat): real
    requires n <= |nodes|
  {
    if n == 0 then 0.0 else SumAt(current, nodes, n - 1) + At(current, nodes[n - 1].tag)
  }

  ghost function SumRaised(current: map<string, real>, nodes: seq<Node>, n: nat): real
    requires n <= |nodes|
  {
    if n == 0 then 0.0 else SumRaised(current, nodes, n - 1) + Raised(current, nodes[n - 1])
  }

  lemma {:induction false} SumRaisedIs(current: map<string, real>, nodes: seq<Node>, n: nat)
    requires n <= |nodes|
    ensures SumRaised(current, nodes, n) == SumAt(current, nodes, n) + TotalTo(nodes, n)
  {
    if n > 0 { SumRaisedIs(current, nodes, n - 1); }
  }

  lemma {:induction false} SumAtMostZero(current: map<string, real>, nodes: seq<Node>, n: nat)
    requires n <= |nodes| && forall j :: 0 <= j < |nodes| ==> Raised(current, nodes[j]) <= 0.0
    ensures SumRaised(current, nodes, n) <= 0.0
  {
    if n > 0 { SumAtMostZero(current, nodes, n - 1); }
  }

  /** A pick lowers the sum of the raised weights by the total, once. */
  lemma {:induction false} SumAfterPick(current: map<string, real>, nodes: seq<Node>, i: nat, next: map<string, real>, n: nat)
    requires IsPick(current, nodes, i, next) && n <= |nodes|
    ensures SumAt(next, nodes, n) == SumRaised(current, nodes, n) - if i < n then Total(nodes) else 0.0
  {
    if n > 0 { SumAfterPick(current, nodes, i, next, n - 1); }
  }

  lemma {:induction false} TotalPositive(nodes: seq<Node>, n: nat)
    requires n <= |nodes| && forall i :: 0 <= i < |nodes| ==> nodes[i].weight > 0.0
    ensures TotalTo(nodes, n) >= 0.0 && (n > 0 ==> TotalTo(nodes, n) > 0.0)
  {
    if n > 0 { TotalPositive(nodes, n - 1); }
  }

  /** What every state of a run keeps: the current weights sum to zero and none falls to minus the total. */
  ghost predicate Balanced(current: map<string, real>, nodes: seq<Node>) {
    SumAt(current, nodes, |nodes|) == 0.0 && forall j :: 0 <= j < |nodes| ==> At(current, nodes[j].tag) > -Total(nodes)
  }

  /** The chosen weight is above zero before it falls: raised weights that sum to the total cannot all be below. */
  lemma PickKeepsBalanced(current: map<string, real>, nodes: seq<Node>, i: nat, next: map<string, real>)
    requires IsPool(nodes) && Balanced(current, nodes) && IsPick(current, nodes, i, next)
    ensures Balanced(next, nodes)
  {
    TotalPositive(nodes, |nodes|);
    SumRaisedIs(current, nodes, |nodes|);
    SumAfterPick(current, nodes, i, next, |nodes|);
    if Raised(current, nodes[i]) <= 0.0 {
      SumAtMostZero(current, nodes, |nodes|);
      assert false;
    }
  }

  lemma {:induction false} EmptyIsBalanced(nodes: seq<Node>, n: nat)
    requires n <= |nodes|
    ensures SumAt(map[], nodes, n) == 0.0
  {
    if n > 0 { EmptyIsBalanced(nodes, n - 1); }
  }

  lemma {:induction false} RunIsBalanced(nodes: seq<Node>, states: seq<map<string, real>>, picks: seq<nat>, k: nat)
    requires IsPool(nodes) && IsRun(nodes, states, picks) && k <= |picks|
    ensures Balanced(states[k], nodes)
  {
    if k == 0 {
      EmptyIsBalanced(nodes, |nodes|);
      TotalPositive(nodes, |nodes|);
    } else {
      RunIsBalanced(nodes, states, picks, k - 1);
      assert PickAt(nodes, states, picks, k - 1);
      PickKeepsBalanced(states[k - 1], nodes, picks[k - 1], states[k]);
    }
  }

  /** n times t, added up. */
  function Times(n: nat, t: real): real {
    if n == 0 then 0.0 else Times(n - 1, t) + t
  }

  lemma {:induction false} TimesIs(n: nat, t: real)
    ensures Times(n, t) == n as real * t
  {
    if n > 0 {
      TimesIs(n - 1, t);
      LessOne(n as real, t);
    }
  }

  /** What a node has earned in k picks less what c picks of its own cost. */
  function Debt(k: nat, w: real, c: nat, t: real): real {
    Times(k, w) - Times(c, t)
  }

  lemma PickChanges(nodes: seq<Node>, states: seq<map<string, real>>, picks: seq<nat>, k: nat, i: nat)
    requires IsRun(nodes, states, picks) && k < |picks| && i < |nodes|
    ensures At(states[k + 1], nodes[i].tag) ==
            At(states[k], nodes[i].tag) + nodes[i].weight - if picks[k] == i then Total(nodes) else 0.0
  {
    assert PickAt(nodes, states, picks, k);
  }

  lemma {:induction false} CurrentIsDebt(nodes: seq<Node>, states: seq<map<string, real>>, picks: seq<nat>, k: nat, i: nat)
    requires IsRun(nodes, states, picks) && k <= |picks| && i < |nodes|
    ensures At(states[k], nodes[i].tag) == Debt(k, nodes[i].weight, Count(picks, k, i), Total(nodes))
  {
    if k > 0 {
      CurrentIsDebt(nodes, states, picks, k - 1, i);
      PickChanges(nodes, states, picks, k - 1, i);
    }
  }

  /** In a balanced state one weight is at most what all the others could have lost. */
  lemma {:induction false} AtMostOthers(current: map<string, real>, nodes: seq<Node>, n: nat, i: nat)
    requires n <= |nodes| && i < |nodes| && Total(nodes) > 0.0
    requires forall j :: 0 <= j < |nodes| ==> At(current, nodes[j].tag) > -Total(nodes)
    ensures i < n ==> At(current, nodes[i].tag) <= SumAt(current, nodes, n) + Times(n - 1, Total(nodes))
    ensures i >= n ==> SumAt(current, nodes, n) >= -Times(n, Total(nodes))
  {
    if n > 0 { AtMostOthers(current, nodes, n - 1, i); }
  }

  lemma DebtBounds(nodes: seq<Node>, states: seq<map<string, real>>, picks: seq<nat>, k: nat, i: nat)
    requires IsPool(nodes) && IsRun(nodes, states, picks) && k <= |picks| && i < |nodes|
    ensures Total(nodes) > 0.0
    ensures -Total(nodes) < Debt(k, nodes[i].weight, Count(picks, k, i), Total(nodes)) <= Times(|nodes| - 1, Total(nodes))
  {
    TotalPositive(nodes, |nodes|);
    RunIsBalanced(nodes, states, picks, k);
    CurrentIsDebt(nodes, states, picks, k, i);
    AtMostOthers(states[k], nodes, |nodes|, i);
  }

  /** c of k picks are fewer than k shares plus one, and at least k shares less one per other node. */
  ghost predicate WithinShare(k: nat, c: nat, share: real, others: nat) {
    k as real * share - others as real <= c as real < k as real * share + 1.0
  }

  /** Fairness: after any k picks on an unchanged pool, each node has been picked about as often as its share says. */
  lemma Fairness(nodes: seq<Node>, states: seq<map<string, real>>, picks: seq<nat>, k: nat, i: nat)
    requires IsPool(nodes) && IsRun(nodes, states, picks) && k <= |picks| && i < |nodes|
    ensures Total(nodes) > 0.0
    ensures WithinShare(k, Count(picks, k, i), nodes[i].weight / Total(nodes), |nodes| - 1)
  {
    DebtBounds(nodes, states, picks, k, i);
    DebtIsShare(k, nodes[i].weight, Count(picks, k, i), Total(nodes), |nodes| - 1);
  }

  lemma DebtIsShare(k: nat, w: real, c: nat, t: real, others: nat)
    requires t > 0.0 && -t < Debt(k, w, c, t) <= Times(others, t)
    ensures WithinShare(k, c, w / t, others)
  {
    TimesIs(k, w);
    TimesIs(c, t);
    TimesIs(others, t);
    ShareBounds(k as real, w, c as real, t, others as real);
  }

  lemma ShareBounds(k: real, w: real, c: real, t: real, n: real)
    requires t > 0.0 && -t < k * w - c * t <= n * t
    ensures k * (w / t) - n <= c < k * (w / t) + 1.0
  {
    var q := k * (w / t);
    assert (w / t) * t == w;
    assert q * t == k * w;
    assert (q - c) * t == q * t - c * t;
    Cancel(q - c, n, t);
    LessOne(c, t);
    Cancel(c - 1.0, q, t);
  }

  /** Of two products with a positive factor, the smaller has the smaller other factor. */
  lemma Cancel(x: real, y: real, t: real)
    requires t > 0.0
    ensures x * t <= y * t ==> x <= y
    ensures x * t < y * t ==> x < y
  {}

  lemma LessOne(n: real, t: real)
    ensures (n - 1.0) * t == n * t - t
  {}

  // Whole weights: the picks repeat with the total as period.

  ghost predicate WholeWeights(nodes: seq<Node>, ws: seq<nat>) {
    |ws| == |nodes| && forall i :: 0 <= i < |ws| ==> nodes[i].weight == ws[i] as real
  }

  function SumTo(ws: seq<nat>, n: nat): nat
    requires n <= |ws|
  {
    if n == 0 then 0 else SumTo(ws, n - 1) + ws[n - 1]
  }

  lemma {:induction false} WholeTotal(nodes: seq<Node>, ws: seq<nat>, n: nat)
    requires WholeWeights(nodes, ws) && n <= |ws|
    ensures TotalTo(nodes, n) == SumTo(ws, n) as real
  {
    if n > 0 { WholeTotal(nodes, ws, n - 1); }
  }

  function Counts(picks: seq<nat>, k: nat, n: nat): (cs: seq<nat>)
    requires k <= |picks|
    ensures |cs| == n && forall i :: 0 <= i < n ==> cs[i] == Count(picks, k, i)
  {
    seq(n, i requires 0 <= i < n => Count(picks, k, i))
  }

  lemma {:induction false} SumToAdds(a: seq<nat>, b: seq<nat>, p: nat, n: nat)
    requires |a| == |b| && n <= |a| && forall i :: 0 <= i < |a| ==> b[i] == a[i] + if i == p then 1 else 0
    ensures SumTo(b, n) == SumTo(a, n) + if p < n then 1 else 0
  {
    if n > 0 { SumToAdds(a, b, p, n - 1); }
  }

  lemma {:induction false} SumToZero(a: seq<nat>, n: nat)
    requires n <= |a| && forall i :: 0 <= i < |a| ==> a[i] == 0
    ensures SumTo(a, n) == 0
  {
    if n > 0 { SumToZero(a, n - 1); }
  }

  /** Every pick is a pick of one node of the pool. */
  lemma {:induction false} CountsSum(nodes: seq<Node>, states: seq<map<string, real>>, picks: seq<nat>, k: nat)
    requires IsRun(nodes, states, picks) && k <= |picks|
    ensures SumTo(Counts(picks, k, |nodes|), |nodes|) == k
  {
    if k == 0 {
      SumToZero(Counts(picks, 0, |nodes|), |nodes|);
    } else {
      CountsSum(nodes, states, picks, k - 1);
      assert PickAt(nodes, states, picks, k - 1);
      SumToAdds(Counts(picks, k - 1, |nodes|), Counts(picks, k, |nodes|), picks[k - 1], |nodes|);
    }
  }

  lemma {:induction false} SumToScaled(ws: seq<nat>, bs: seq<nat>, m: nat, n: nat)
    requires |bs| == |ws| && n <= |ws| && forall i :: 0 <= i < |ws| ==> bs[i] == m * ws[i]
    ensures SumTo(bs, n) == m * SumTo(ws, n)
  {
    if n > 0 { SumToScaled(ws, bs, m, n - 1); }
  }

  /** Terms that are no larger one by one and sum to the same are equal one by one. */
  lemma {:induction false} EqualSums(a: seq<nat>, b: seq<nat>, n: nat)
    requires |a| == |b| && n <= |a| && forall i :: 0 <= i < |a| ==> a[i] <= b[i]
    ensures SumTo(a, n) <= SumTo(b, n)
    ensures SumTo(a, n) == SumTo(b, n) ==> forall i :: 0 <= i < n ==> a[i] == b[i]
  {
    if n > 0 { EqualSums(a, b, n - 1); }
  }

  lemma WholeDebt(k: nat, w: nat, c: nat, t: nat)
    ensures Debt(k, w as real, c, t as real) == (k * w - c * t) as real
  {
    TimesIs(k, w as real);
    TimesIs(c, t as real);
    WholeProduct(k, w);
    WholeProduct(c, t);
  }

  lemma WholeProduct(a: nat, b: nat)
    ensures a as real * b as real == (a * b) as real
  {}

  /** A debt above minus the total, after m rounds of total picks, leaves no more than m times the weight picks. */
  lemma RoundsBound(m: nat, w: nat, c: nat, t: nat)
    requires t > 0 && c * t < (m * t) * w + t
    ensures c <= m * w
  {
    RoundsSwap(m, w, t);
    if c >= m * w + 1 {
      TimesMore(c, m * w + 1, t);
      assert false;
    }
  }

  lemma RoundsSwap(m: nat, w: nat, t: nat)
    ensures (m * t) * w == (m * w) * t
  {}

  lemma TimesMore(a: nat, b: nat, t: nat)
    requires a >= b
    ensures a * t >= b * t
  {}

  /** Period: after every m times the total picks, each node has been picked m times its weight and owes nothing. */
  lemma Period(nodes: seq<Node>, ws: seq<nat>, states: seq<map<string, real>>, picks: seq<nat>, m: nat, i: nat)
    requires IsPool(nodes) && WholeWeights(nodes, ws) && IsRun(nodes, states, picks) && i < |nodes|
    requires m * SumTo(ws, |ws|) <= |picks|
    ensures Count(picks, m * SumTo(ws, |ws|), i) == m * ws[i]
    ensures At(states[m * SumTo(ws, |ws|)], nodes[i].tag) == 0.0
  {
    var t := SumTo(ws, |ws|);
    var k := m * t;
    WholeTotal(nodes, ws, |ws|);
    var cs, bs := Counts(picks, k, |nodes|), seq(|ws|, j requires 0 <= j < |ws| => m * ws[j]);
    forall j | 0 <= j < |nodes| ensures cs[j] <= bs[j] {
      DebtBounds(nodes, states, picks, k, j);
      WholeDebt(k, ws[j], cs[j], t);
      RoundsBound(m, ws[j], cs[j], t);
    }
    CountsSum(nodes, states, picks, k);
    SumToScaled(ws, bs, m, |ws|);
    EqualSums(cs, bs, |ws|);
    assert cs[i] == bs[i];
    CurrentIsDebt(nodes, states, picks, k, i);
    WholeDebt(k, ws[i], m * ws[i], t);
    RoundsSwap(m, ws[i], t);
  }

  // The strategy itself over many calls.

  /** How often a tag is among the first k. */
  function CountTag(tags: seq<string>, k: nat, tag: string): nat
    requires k <= |tags|
  {
    if k == 0 then 0 else CountTag(tags, k - 1, tag) + if tags[k - 1] == tag then 1 else 0
  }

  ghost predicate Names(nodes: seq<Node>, picks: seq<nat>, tags: seq<string>) {
    |tags| == |picks| && forall j :: 0 <= j < |picks| ==> picks[j] < |nodes| && tags[j] == nodes[picks[j]].tag
  }

  lemma {:induction false} CountsAgree(nodes: seq<Node>, picks: seq<nat>, tags: seq<string>, k: nat, i: nat)
    requires DistinctTags(nodes) && Names(nodes, picks, tags) && k <= |picks| && i < |nodes|
    ensures CountTag(tags, k, nodes[i].tag) == Count(picks, k, i)
  {
    if k > 0 {
      CountsAgree(nodes, picks, tags, k - 1, i);
      assert tags[k - 1] == nodes[picks[k - 1]].tag;
    }
  }

  /** Any number of picks from one strategy on an unchanged pool: every tag gets its share at every moment. */
  method PickTimes(nodes: seq<Node>, n: nat) returns (tags: seq<string>)
    requires IsPool(nodes)
    ensures |tags| == n && Total(nodes) > 0.0
    ensures forall k, i :: 0 <= k <= n && 0 <= i < |nodes| ==>
      WithinShare(k, CountTag(tags, k, nodes[i].tag), nodes[i].weight / Total(nodes), |nodes| - 1)
  {
    var s := new Strategy();
    tags := [];
    ghost var states, picks: seq<nat> := [s.current], [];
    for j := 0 to n
      invariant fresh(s) && |picks| == j && IsRun(nodes, states, picks) && Names(nodes, picks, tags)
      invariant states[j] == s.current
    {
      ghost var before := s.current;
      var tag := s.PickWeighted(nodes);
      ghost var i :| 0 <= i < |nodes| && tag == nodes[i].tag && IsPick(before, nodes, i, s.current);
      RunNext(nodes, states, picks, i, s.current);
      tags, states, picks := tags + [tag], states + [s.current], picks + [i];
    }
    TotalPositive(nodes, |nodes|);
    forall k, i | 0 <= k <= n && 0 <= i < |nodes|
      ensures WithinShare(k, CountTag(tags, k, nodes[i].tag), nodes[i].weight / Total(nodes), |nodes| - 1)
    {
      Fairness(nodes, states, picks, k, i);
      CountsAgree(nodes, picks, tags, k, i);
    }
  }

  lemma RunNext(nodes: seq<Node>, states: seq<map<string, real>>, picks: seq<nat>, i: nat, next: map<string, real>)
    requires IsRun(nodes, states, picks) && i < |nodes| && IsPick(states[|picks|], nodes, i, next)
    ensures IsRun(nodes, states + [next], picks + [i])
  {
    forall k | 0 <= k < |picks + [i]| ensures PickAt(nodes, states + [next], picks + [i], k) {
      if k < |picks| { assert PickAt(nodes, states, picks, k); }
    }
  }
}
