/**
 From several lists of CIDRs to answers: what AnyMatch, Matches and FilterIPs of the matchers created from them say of any
 IPs (common/geodata/ip_matcher.go).
 */
module CidrLists {
  import opened IpMatcher
  import opened MultiIpMatcher
  import opened MultiIpFilter
  import opened Options


  /** The CIDRs of some list match the IP. */
  ghost predicate ListMatches(lists: seq<seq<Cidr>>, reverses: seq<bool>, ip: Ip)
    requires |reverses| == |lists|
  {
    exists j :: 0 <= j < |lists| && CidrsMatch(lists[j], reverses[j], ip)
  }

  /** The matchers answer for these IPs as the lists do. */
  ghost predicate AllAgree(lists: seq<seq<Cidr>>, reverses: seq<bool>, mm: seq<Matcher>, ips: seq<Ip>) {
    && |mm| == |lists| == |reverses| && AllBuilt(mm)
    && forall j :: 0 <= j < |mm| ==> mm[j].reverse == reverses[j] && Agrees(lists[j], mm[j], ips)
  }

  ghost predicate EveryMatches(cidrs: seq<Cidr>, reverse: bool, ips: seq<Ip>) {
    forall i :: 0 <= i < |ips| ==> CidrsMatch(cidrs, reverse, ips[i])
  }

  method CreateMatchers(lists: seq<seq<Cidr>>, reverses: seq<bool>, build: seq<Prefix> -> seq<Prefix>, ghost ips: seq<Ip>)
    returns (mm: seq<Matcher>)
    requires |reverses| == |lists| && Builds(build, 4) && Builds(build, 16)
    ensures AllAgree(lists, reverses, mm, ips)
  {
    mm := [];
    for j := 0 to |lists|
      invariant |mm| == j && AllBuilt(mm)
      invariant forall k :: 0 <= k < j ==> mm[k].reverse == reverses[k] && Agrees(lists[k], mm[k], ips)
    {
      var m := CreateMatcher(lists[j], build, reverses[j], ips);
      mm := mm + [m];
    }
  }

  lemma MatchesAsLists(lists: seq<seq<Cidr>>, reverses: seq<bool>, mm: seq<Matcher>, ips: seq<Ip>, j: nat, x: Ip)
    requires AllAgree(lists, reverses, mm, ips) && j < |mm| && x in ips
    ensures Match(mm[j], x) <==> CidrsMatch(lists[j], reverses[j], x)
  {
    assert Agrees(lists[j], mm[j], ips);
  }

  lemma MatchOneAsLists(lists: seq<seq<Cidr>>, reverses: seq<bool>, mm: seq<Matcher>, ips: seq<Ip>, x: Ip)
    requires AllAgree(lists, reverses, mm, ips) && x in ips
    ensures MatchOne(mm, x) <==> ListMatches(lists, reverses, x)
  {
    forall j: nat | j < |mm| ensures Match(mm[j], x) <==> CidrsMatch(lists[j], reverses[j], x) {
      MatchesAsLists(lists, reverses, mm, ips, j, x);
    }
  }

  /** What AnyMatch and Matches of several created matchers say of any IPs. */
  method MatchLists(lists: seq<seq<Cidr>>, reverses: seq<bool>, build: seq<Prefix> -> seq<Prefix>, ips: seq<Ip>)
    returns (any: bool, all: bool)
    requires |reverses| == |lists| && Builds(build, 4) && Builds(build, 16)
    ensures any <==> exists i :: 0 <= i < |ips| && ListMatches(lists, reverses, ips[i])
    ensures all <==> ips != [] && exists j :: 0 <= j < |lists| && EveryMatches(lists[j], reverses[j], ips)
  {
    var mm := CreateMatchers(lists, reverses, build, ips);
    any := MultiIpMatcher.AnyMatch(mm, ips);
    all := MultiIpMatcher.Matches(mm, ips);
    forall j: nat | j < |mm| ensures MatchesEvery(mm[j], ips) <==> EveryMatches(lists[j], reverses[j], ips) {
      forall i | 0 <= i < |ips| ensures Match(mm[j], ips[i]) <==> CidrsMatch(lists[j], reverses[j], ips[i]) {
        MatchesAsLists(lists, reverses, mm, ips, j, ips[i]);
      }
    }
    forall i | 0 <= i < |ips| ensures MatchOne(mm, ips[i]) <==> ListMatches(lists, reverses, ips[i]) {
      MatchOneAsLists(lists, reverses, mm, ips, ips[i]);
    }
  }

  /** An IP that stands for its address is matched at all exactly if some matcher matches it. */
  lemma LastIsMatched(mm: seq<Matcher>, ips: seq<Ip>, x: Ip)
    requires IsLast(ips, x)
    ensures x in ips && (MatchedTimes(mm, ips, x) > 0 <==> MatchOne(mm, x))
  {
    HitsAre(mm, x);
    LastTwice(ips, x);
    ValidIn(ips, |ips|, x);
    assert ips[..|ips|] == ips;
  }

  /** FilterIPs of several created matchers: the matched addresses are those that some list matches. */
  method FilterLists(lists: seq<seq<Cidr>>, reverses: seq<bool>, build: seq<Prefix> -> seq<Prefix>, ips: seq<Ip>)
    returns (r: Option<Parts>)
    requires |reverses| == |lists| && Builds(build, 4) && Builds(build, 16)
    ensures r.Some? && |ips| >= 2 ==> forall x :: IsLast(ips, x) ==> (x in r.value.matched <==> ListMatches(lists, reverses, x))
    ensures |ips| < 2 ==>
      && r.Some? && multiset(r.value.matched) + multiset(r.value.unmatched) == multiset(Valids(ips))
      && forall x :: x in Valids(ips) ==> (x in r.value.matched <==> ListMatches(lists, reverses, x))
  {
    var mm := CreateMatchers(lists, reverses, build, ips);
    r := MultiIpFilter.FilterIPs(mm, ips);
    if r.Some? && |ips| >= 2 {
      forall x | IsLast(ips, x) ensures x in r.value.matched <==> ListMatches(lists, reverses, x) {
        LastIsMatched(mm, ips, x);
        MatchOneAsLists(lists, reverses, mm, ips, x);
        assert multiset(r.value.matched)[x] == MatchedTimes(mm, ips, x);
      }
    }
    if |ips| < 2 {
      forall x | x in Valids(ips) ensures x in r.value.matched <==> ListMatches(lists, reverses, x) {
        ValidIn(ips, |ips|, x);
        assert ips[..|ips|] == ips;
        MatchOneAsLists(lists, reverses, mm, ips, x);
      }
    }
  }
}
