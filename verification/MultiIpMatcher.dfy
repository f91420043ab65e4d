/** Several prefix sets at once (HeuristicMultiIPMatcher and ipViews of common/geodata/ip_matcher.go). */
module MultiIpMatcher {

  import opened Buffers
  import opened IpMatcher
  import opened Options

  predicate MatchOne(mm: seq<Matcher>, ip: seq<Byte>) {
    exists j :: 0 <= j < |mm| && Match(mm[j], ip)
  }

  ghost predicate AllBuilt(mm: seq<Matcher>) {
    forall j :: 0 <= j < |mm| ==> Built(mm[j].ipset)
  }

  // AnyMatch.

  /** A block with an IP that no matcher matches. */
  ghost predicate Dull(mm: seq<Matcher>, key: seq<Byte>) {
    exists x :: KeyOf(x) == Some(key) && !MatchOne(mm, x)
  }

  /** A matcher that looks at blocks need not look at an IP of a block that none matches. */
  lemma SkipSound(mm: seq<Matcher>, j: nat, ip: seq<Byte>, key: seq<Byte>)
    requires AllBuilt(mm) && j < |mm| && KeyOf(ip) == Some(key) && Heuristic(mm[j], key) && Dull(mm, key)
    ensures !Match(mm[j], ip)
  {
    var x :| KeyOf(x) == Some(key) && !MatchOne(mm, x);
    MatchesBlock(mm[j], ip, x);
  }

  datatype Skip = Unset | Look | Family(v: int)

  /** The loop over the matchers for one IP. */
  method Try(mm: seq<Matcher>, ip: seq<Byte>, keys: set<seq<Byte>>) returns (hit: bool, keys': set<seq<Byte>>)
    requires AllBuilt(mm) && forall key :: key in keys ==> Dull(mm, key)
    ensures hit <==> MatchOne(mm, ip)
    ensures keys' == keys || (KeyOf(ip).Some? && keys' == keys + {KeyOf(ip).value})
  {
    keys' := keys;
    var state := Unset;
    KeyIsBlock(ip);
    for j := 0 to |mm|
      invariant forall k :: 0 <= k < j ==> !Match(mm[k], ip)
      invariant keys' == keys || (KeyOf(ip).Some? && keys' == keys + {KeyOf(ip).value})
      invariant state == Unset ==> keys' == keys
      invariant state.Family? ==> KeyOf(ip).Some? && state.v == KeyOf(ip).value[0] && KeyOf(ip).value in keys
    {
      var m := mm[j];
      var heur4, heur6 := m.ipset.max4 <= 24, m.ipset.max6 <= 64;
      if state == Unset && (heur4 || heur6) {
        var key := KeyOf(ip);
        if key == None { return false, keys'; }
        if key.value in keys' {
          state := Family(key.value[0]);
        } else {
          keys' := keys' + {key.value};
          state := Look;
        }
      }
      if (heur4 && state == Family(4)) || (heur6 && state == Family(6)) {
        SkipSound(mm, j, ip, KeyOf(ip).value);
        continue;
      }
      if AddrOf(ip) == None { return false, keys'; }
      if MatchAddr(m, AddrOf(ip).value) { return true, keys'; }
    }
    hit := false;
  }

  method AnyMatch(mm: seq<Matcher>, ips: seq<seq<Byte>>) returns (r: bool)
    requires AllBuilt(mm)
    ensures r <==> exists i :: 0 <= i < |ips| && MatchOne(mm, ips[i])
  {
    if |ips| == 0 { return false; }
    if |ips| == 1 { return MatchOne(mm, ips[0]); }
    var keys: set<seq<Byte>> := {};
    for i := 0 to |ips|
      invariant forall k :: 0 <= k < i ==> !MatchOne(mm, ips[k])
      invariant forall key :: key in keys ==> Dull(mm, key)
    {
      r, keys := Try(mm, ips[i], keys);
      if r { return; }
    }
    r := false;
  }

  // Matches.

  ghost predicate NoneInvalid(ips: seq<seq<Byte>>, n: nat)
    requires n <= |ips|
  {
    forall i :: 0 <= i < n ==> AddrOf(ips[i]).Some?
  }

  ghost predicate InFamily(ip: seq<Byte>, four: bool) {
    AddrOf(ip).Some? && AddrOf(ip).value.V4? == four
  }

  /** One address for each block of a family. */
  ghost predicate BucketView(b: map<seq<Byte>, Addr>, four: bool, ips: seq<seq<Byte>>, n: nat)
    requires n <= |ips|
  {
    && (forall i :: 0 <= i < n && InFamily(ips[i], four) ==> Block(AddrOf(ips[i]).value) in b)
    && (forall key :: key in b ==> Block(b[key]) == key && b[key].V4? == four && Seen(ips, n, b[key]))
  }

  /** Every address of a family. */
  ghost predicate PreciseView(p: seq<Addr>, four: bool, ips: seq<seq<Byte>>, n: nat)
    requires n <= |ips|
  {
    && (forall i :: 0 <= i < n && InFamily(ips[i], four) ==> AddrOf(ips[i]).value in p)
    && (forall a :: a in p ==> a.V4? == four && Seen(ips, n, a))
  }

  ghost predicate FamilyMatches(m: Matcher, four: bool, ips: seq<seq<Byte>>) {
    forall i :: 0 <= i < |ips| && InFamily(ips[i], four) ==> Match(m, ips[i])
  }

  lemma BucketsDecide(m: Matcher, b: map<seq<Byte>, Addr>, four: bool, ips: seq<seq<Byte>>)
    requires Built(m.ipset) && BucketView(b, four, ips, |ips|)
    requires if four then m.ipset.max4 <= 24 else m.ipset.max6 <= 64
    ensures (forall key :: key in b ==> MatchAddr(m, b[key])) <==> FamilyMatches(m, four, ips)
  {
    forall i | 0 <= i < |ips| && InFamily(ips[i], four)
      ensures Block(AddrOf(ips[i]).value) in b && Match(m, ips[i]) == MatchAddr(m, b[Block(AddrOf(ips[i]).value)])
    {
      KeyIsBlock(ips[i]);
      var a := AddrOf(ips[i]).value;
      SeenValid(ips, b[Block(a)]);
      SameBlock(m, a, b[Block(a)]);
    }
    forall key | key in b ensures exists i :: 0 <= i < |ips| && InFamily(ips[i], four) && AddrOf(ips[i]).value == b[key] {
    }
  }

  lemma SeenValid(ips: seq<seq<Byte>>, a: Addr)
    requires Seen(ips, |ips|, a)
    ensures ValidAddr(a)
  {
    var i :| 0 <= i < |ips| && AddrOf(ips[i]) == Some(a);
    KeyIsBlock(ips[i]);
  }

  lemma PreciseDecide(m: Matcher, p: seq<Addr>, four: bool, ips: seq<seq<Byte>>)
    requires PreciseView(p, four, ips, |ips|)
    ensures (forall a :: a in p ==> MatchAddr(m, a)) <==> FamilyMatches(m, four, ips)
  {
  }

  function Put(b: map<seq<Byte>, Addr>, a: Addr): map<seq<Byte>, Addr> {
    if Block(a) in b then b else b[Block(a) := a]
  }

  lemma BucketViewNext(b: map<seq<Byte>, Addr>, four: bool, ips: seq<seq<Byte>>, n: nat, a: Addr)
    requires n < |ips| && BucketView(b, four, ips, n) && AddrOf(ips[n]) == Some(a)
    ensures BucketView(if a.V4? == four then Put(b, a) else b, four, ips, n + 1)
  {
    SeenLater(ips, n, a);
    forall key | key in b ensures Seen(ips, n + 1, b[key]) {
      SeenLater(ips, n, b[key]);
    }
  }

  lemma PreciseViewNext(p: seq<Addr>, four: bool, ips: seq<seq<Byte>>, n: nat, a: Addr)
    requires n < |ips| && PreciseView(p, four, ips, n) && AddrOf(ips[n]) == Some(a)
    ensures PreciseView(if a.V4? == four then p + [a] else p, four, ips, n + 1)
  {
    SeenLater(ips, n, a);
    forall x | x in p ensures Seen(ips, n + 1, x) {
      SeenLater(ips, n, x);
    }
  }

  /** The views that Matches builds on demand, one pair for each family. */
  class Views {
    var buckets4: Option<map<seq<Byte>, Addr>>
    var buckets6: Option<map<seq<Byte>, Addr>>
    var precise4: Option<seq<Addr>>
    var precise6: Option<seq<Addr>>

    ghost predicate Valid(ips: seq<seq<Byte>>)
      reads this
    {
      && (buckets4.Some? ==> BucketView(buckets4.value, true, ips, |ips|))
      && (buckets6.Some? ==> BucketView(buckets6.value, false, ips, |ips|))
      && (precise4.Some? ==> PreciseView(precise4.value, true, ips, |ips|))
      && (precise6.Some? ==> PreciseView(precise6.value, false, ips, |ips|))
      && (buckets4.Some? || precise4.Some? ==> NoneInvalid(ips, |ips|))
    }

    predicate Serves(m: Matcher)
      reads this
    {
      && (if m.ipset.max4 <= 24 then buckets4.Some? else precise4.Some?)
      && (if m.ipset.max6 <= 64 then buckets6.Some? else precise6.Some?)
    }

    constructor ()
      ensures forall ips :: Valid(ips)
    {
      buckets4, buckets6, precise4, precise6 := None, None, None, None;
    }

    /** ensureForMatcher: the views a matcher needs, or failure when an IP is invalid. */
    method Ensure(m: Matcher, ips: seq<seq<Byte>>) returns (ok: bool)
      requires Valid(ips)
      modifies this
      ensures ok <==> NoneInvalid(ips, |ips|)
      ensures ok ==> Valid(ips) && Serves(m)
    {
      var needHeur4 := m.ipset.max4 <= 24 && buckets4 == None;
      var needHeur6 := m.ipset.max6 <= 64 && buckets6 == None;
      var needPrec4 := m.ipset.max4 > 24 && precise4 == None;
      var needPrec6 := m.ipset.max6 > 64 && precise6 == None;
      if !needHeur4 && !needHeur6 && !needPrec4 && !needPrec6 { return true; }
      var b4, b6: map<seq<Byte>, Addr>, p4, p6: seq<Addr>;
      ok, b4, b6, p4, p6 := Collect(ips, needHeur4, needHeur6, needPrec4, needPrec6);
      if !ok { return; }
      if needHeur4 { buckets4 := Some(b4); }
      if needHeur6 { buckets6 := Some(b6); }
      if needPrec4 { precise4 := Some(p4); }
      if needPrec6 { precise6 := Some(p6); }
    }
  }

  /** The loop of ensureForMatcher, which fills the views that are needed. */
  method Collect(ips: seq<seq<Byte>>, heur4: bool, heur6: bool, prec4: bool, prec6: bool)
    returns (ok: bool, b4: map<seq<Byte>, Addr>, b6: map<seq<Byte>, Addr>, p4: seq<Addr>, p6: seq<Addr>)
    ensures ok <==> NoneInvalid(ips, |ips|)
    ensures ok && heur4 ==> BucketView(b4, true, ips, |ips|)
    ensures ok && heur6 ==> BucketView(b6, false, ips, |ips|)
    ensures ok && prec4 ==> PreciseView(p4, true, ips, |ips|)
    ensures ok && prec6 ==> PreciseView(p6, false, ips, |ips|)
  {
    b4, b6, p4, p6 := map[], map[], [], [];
    for i := 0 to |ips|
      invariant NoneInvalid(ips, i)
      invariant (heur4 ==> BucketView(b4, true, ips, i)) && (heur6 ==> BucketView(b6, false, ips, i))
      invariant (prec4 ==> PreciseView(p4, true, ips, i)) && (prec6 ==> PreciseView(p6, false, ips, i))
    {
      KeyIsBlock(ips[i]);
      if KeyOf(ips[i]) == None { return false, b4, b6, p4, p6; }
      var a := AddrOf(ips[i]).value;
      if heur4 { BucketViewNext(b4, true, ips, i, a); }
      if heur6 { BucketViewNext(b6, false, ips, i, a); }
      if prec4 { PreciseViewNext(p4, true, ips, i, a); }
      if prec6 { PreciseViewNext(p6, false, ips, i, a); }
      if a.V4? {
        if heur4 { b4 := Put(b4, a); }
        if prec4 { p4 := p4 + [a]; }
      } else {
        if heur6 { b6 := Put(b6, a); }
        if prec6 { p6 := p6 + [a]; }
      }
    }
    ok := true;
  }

  /** What Matches asks of one matcher. */
  method MatchesAll(v: Views, m: Matcher, ips: seq<seq<Byte>>) returns (matched: bool)
    requires v.Valid(ips) && v.Serves(m) && Built(m.ipset)
    ensures matched <==> MatchesEvery(m, ips)
  {
    FamiliesAreAll(m, ips);
    if m.ipset.max4 <= 24 {
      BucketsDecide(m, v.buckets4.value, true, ips);
      matched := AllBuckets(m, v.buckets4.value);
    } else {
      PreciseDecide(m, v.precise4.value, true, ips);
      matched := AllAddresses(m, v.precise4.value);
    }
    if !matched { return; }
    if m.ipset.max6 <= 64 {
      BucketsDecide(m, v.buckets6.value, false, ips);
      matched := AllBuckets(m, v.buckets6.value);
    } else {
      PreciseDecide(m, v.precise6.value, false, ips);
      matched := AllAddresses(m, v.precise6.value);
    }
  }

  /** One turn of Matches. */
  method Ask(v: Views, m: Matcher, ips: seq<seq<Byte>>) returns (ok: bool, matched: bool)
    requires v.Valid(ips) && Built(m.ipset)
    modifies v
    ensures ok <==> NoneInvalid(ips, |ips|)
    ensures ok ==> v.Valid(ips) && (matched <==> MatchesEvery(m, ips))
  {
    matched := false;
    ok := v.Ensure(m, ips);
    if ok { matched := MatchesAll(v, m, ips); }
  }

  /** Matches: one of the matchers matches every IP. */
  method Matches(mm: seq<Matcher>, ips: seq<seq<Byte>>) returns (r: bool)
    requires AllBuilt(mm)
    ensures r <==> ips != [] && exists j :: 0 <= j < |mm| && MatchesEvery(mm[j], ips)
  {
    if |ips| == 0 { return false; }
    if |ips| == 1 {
      OnlyOne(mm, ips);
      return MatchOne(mm, ips[0]);
    }
    var views := new Views();
    for j := 0 to |mm|
      invariant fresh(views) && views.Valid(ips)
      invariant forall k :: 0 <= k < j ==> !MatchesEvery(mm[k], ips)
    {
      var ok, matched := Ask(views, mm[j], ips);
      if !ok {
        InvalidMatchesNone(mm, ips);
        return false;
      }
      if matched { return true; }
    }
    r := false;
  }

  ghost predicate MatchesEvery(m: Matcher, ips: seq<seq<Byte>>) {
    forall i :: 0 <= i < |ips| ==> Match(m, ips[i])
  }

  lemma OnlyOne(mm: seq<Matcher>, ips: seq<seq<Byte>>)
    requires |ips| == 1
    ensures MatchOne(mm, ips[0]) <==> exists j :: 0 <= j < |mm| && MatchesEvery(mm[j], ips)
  {
    forall j | 0 <= j < |mm| ensures Match(mm[j], ips[0]) <==> MatchesEvery(mm[j], ips) {
    }
  }

  lemma InvalidMatchesNone(mm: seq<Matcher>, ips: seq<seq<Byte>>)
    requires !NoneInvalid(ips, |ips|)
    ensures forall j :: 0 <= j < |mm| ==> !MatchesEvery(mm[j], ips)
  {
    var i :| 0 <= i < |ips| && AddrOf(ips[i]) == None;
    forall j | 0 <= j < |mm| ensures !MatchesEvery(mm[j], ips) {
      assert !Match(mm[j], ips[i]);
    }
  }

  lemma FamiliesAreAll(m: Matcher, ips: seq<seq<Byte>>)
    requires NoneInvalid(ips, |ips|)
    ensures MatchesEvery(m, ips) <==> FamilyMatches(m, true, ips) && FamilyMatches(m, false, ips)
  {
    forall i | 0 <= i < |ips| ensures InFamily(ips[i], true) || InFamily(ips[i], false) {
    }
  }

  /**
   Matches asks more than that some matcher matches each IP: one matcher for IPv4 and one for IPv6 together match an
   address of each family, and none of them matches both.
   */
  lemma MatchesIsNotEach()
    ensures var all4 := Matcher(IpSet([Prefix([0, 0, 0, 0], 0)], [], ONLY_ZERO, NONE), false);
      var all6 := Matcher(IpSet([], [Prefix(Zeros(16), 0)], NONE, ONLY_ZERO), false);
      var mm, ips := [all4, all6], [[1, 2, 3, 4], Zeros(16)];
      && AllBuilt(mm) && MatchOne(mm, ips[0]) && MatchOne(mm, ips[1])
      && !exists j :: 0 <= j < |mm| && MatchesEvery(mm[j], ips)
  {
    var all4 := Matcher(IpSet([Prefix([0, 0, 0, 0], 0)], [], ONLY_ZERO, NONE), false);
    var all6 := Matcher(IpSet([], [Prefix(Zeros(16), 0)], NONE, ONLY_ZERO), false);
    var mm, ips := [all4, all6], [[1, 2, 3, 4], Zeros(16)];
    assert Covers(all4.ipset.ipv4[0], ips[0]);
    assert Covers(all6.ipset.ipv6[0], ips[1]);
    assert Match(mm[0], ips[0]) && !Match(mm[0], ips[1]);
    assert Match(mm[1], ips[1]) && !Match(mm[1], ips[0]);
  }

  function Zeros(n: nat): (r: seq<Byte>)
    ensures |r| == n && forall i :: 0 <= i < n ==> r[i] == 0
  {
    if n == 0 then [] else Zeros(n - 1) + [0]
  }
}
