/**
 IP matching by prefix sets (common/geodata/ip_matcher.go). A net.IP is a sequence of bytes of any length; an IP set is
 the list of prefixes that cover it.
 */
module IpMatcher {

  import opened Buffers
  import opened Options
  import opened Sets

  // Addresses.

  datatype Addr = V4(bytes: seq<Byte>) | V6(bytes: seq<Byte>)

  /** The IPv4-mapped IPv6 addresses. */
  predicate IsMapped(ip: seq<Byte>) {
    |ip| == 16 && ip[10] == 255 && ip[11] == 255 && forall i :: 0 <= i < 10 ==> ip[i] == 0
  }

  /** netipx.FromStdIP: an address of four or sixteen bytes, a mapped one as the IPv4 address that it maps. */
  function AddrOf(ip: seq<Byte>): Option<Addr> {
    if |ip| == 4 then Some(V4(ip))
    else if IsMapped(ip) then Some(V4(ip[12..]))
    else if |ip| == 16 then Some(V6(ip))
    else None
  }

  /** net.IP.To4. */
  function To4(ip: seq<Byte>): Option<seq<Byte>> {
    if |ip| == 4 then Some(ip) else if IsMapped(ip) then Some(ip[12..]) else None
  }

  /** prefixKeyFromIP: the family and the /24 or /64 block. */
  function KeyOf(ip: seq<Byte>): Option<seq<Byte>> {
    match To4(ip)
    case Some(ip4) => Some([4] + ip4[..3] + [0, 0, 0, 0, 0])
    case None => if |ip| == 16 then Some([6] + ip[..8]) else None
  }

  function Block(a: Addr): seq<Byte> {
    if a.V4? then (if |a.bytes| >= 3 then [4] + a.bytes[..3] + [0, 0, 0, 0, 0] else [])
    else (if |a.bytes| >= 8 then [6] + a.bytes[..8] else [])
  }

  /** The key of an IP is the block of its address: both are missing together. */
  lemma KeyIsBlock(ip: seq<Byte>)
    ensures match AddrOf(ip)
      case None => KeyOf(ip) == None
      case Some(a) =>
        KeyOf(ip) == Some(Block(a)) && |a.bytes| == (if a.V4? then 4 else 16) && Block(a)[0] == (if a.V4? then 4 else 6)
  {
  }

  // Prefixes.

  function Pow2(n: nat): (p: nat)
    ensures p > 0
  {
    if n == 0 then 1 else 2 * Pow2(n - 1)
  }

  /** Bit i of an address, the most significant first. */
  function Bit(a: seq<Byte>, i: nat): nat
    requires i / 8 < |a|
  {
    (a[i / 8] as int / Pow2(7 - i % 8)) % 2
  }

  datatype Prefix = Prefix(bytes: seq<Byte>, bits: nat)

  predicate Covers(p: Prefix, a: seq<Byte>) {
    p.bits <= 8 * |a| && |p.bytes| == |a| && forall i {:trigger Bit(a, i)} :: 0 <= i < p.bits ==> Bit(p.bytes, i) == Bit(a, i)
  }

  /** IPSet.Contains. */
  predicate Contains(prefixes: seq<Prefix>, a: seq<Byte>) {
    exists i :: 0 <= i < |prefixes| && Covers(prefixes[i], a)
  }

  lemma CoversBlock(p: Prefix, a: seq<Byte>, b: seq<Byte>, n: nat)
    requires p.bits <= 8 * n && n <= |a| == |b| && a[..n] == b[..n]
    ensures Covers(p, a) <==> Covers(p, b)
  {
    if |p.bytes| == |a| {
      forall i | 0 <= i < p.bits ensures Bit(a, i) == Bit(b, i) {
        assert a[i / 8] == a[..n][i / 8] && b[i / 8] == b[..n][i / 8];
      }
    }
  }

  lemma ContainsBlock(prefixes: seq<Prefix>, a: seq<Byte>, b: seq<Byte>, n: nat)
    requires forall i :: 0 <= i < |prefixes| ==> prefixes[i].bits <= 8 * n
    requires n <= |a| == |b| && a[..n] == b[..n]
    ensures Contains(prefixes, a) <==> Contains(prefixes, b)
  {
    forall i | 0 <= i < |prefixes| ensures Covers(prefixes[i], a) <==> Covers(prefixes[i], b) {
      CoversBlock(prefixes[i], a, b, n);
    }
  }

  // The IP sets that createFrom builds.

  datatype IpSet = IpSet(ipv4: seq<Prefix>, ipv6: seq<Prefix>, max4: int, max6: int)

  const NONE := 255
  const ONLY_ZERO := 254

  ghost predicate IsMax(prefixes: seq<Prefix>, max: int) {
    if prefixes == [] then max == NONE
    else if forall i :: 0 <= i < |prefixes| ==> prefixes[i].bits == 0 then max == ONLY_ZERO
    else
      && (forall i :: 0 <= i < |prefixes| ==> prefixes[i].bits <= max)
      && (exists i :: 0 <= i < |prefixes| && prefixes[i].bits == max > 0)
  }

  ghost predicate Built(s: IpSet) {
    IsMax(s.ipv4, s.max4) && IsMax(s.ipv6, s.max6)
  }

  /** The loop over Prefixes() and the two special values. */
  method MaxBits(prefixes: seq<Prefix>) returns (max: int)
    ensures IsMax(prefixes, max)
  {
    var has := false;
    max := 0;
    for i := 0 to |prefixes|
      invariant has <==> i > 0
      invariant max >= 0 && forall j :: 0 <= j < i ==> prefixes[j].bits <= max
      invariant max == 0 || exists j :: 0 <= j < i && prefixes[j].bits == max
    {
      has := true;
      if prefixes[i].bits > max { max := prefixes[i].bits; }
    }
    if !has { max := NONE; } else if max == 0 { max := ONLY_ZERO; }
  }

  datatype Cidr = Cidr(ip: seq<Byte>, prefix: nat)

  /** The prefixes of one family among the valid CIDRs; a mapped address counts as IPv6 here. */
  function PrefixesOf(cidrs: seq<Cidr>, size: nat): (r: seq<Prefix>)
    ensures forall p :: p in r <==> exists c :: c in cidrs && |c.ip| == size && c.prefix <= 8 * size && p == Prefix(c.ip, c.prefix)
  {
    if cidrs == [] then []
    else
      var c := cidrs[|cidrs| - 1];
      PrefixesOf(cidrs[..|cidrs| - 1], size) + if |c.ip| == size && c.prefix <= 8 * size then [Prefix(c.ip, c.prefix)] else []
  }

  /** Valid prefixes of one family. */
  ghost predicate OfSize(ps: seq<Prefix>, size: nat) {
    forall i :: 0 <= i < |ps| ==> |ps[i].bytes| == size && ps[i].bits <= 8 * size
  }

  ghost predicate SameAddresses(ps: seq<Prefix>, qs: seq<Prefix>, size: nat) {
    forall a :: |a| == size ==> (Contains(ps, a) <==> Contains(qs, a))
  }

  /** The set builder on one family: from valid prefixes other valid prefixes for the same addresses. */
  ghost predicate Builds(build: seq<Prefix> -> seq<Prefix>, size: nat) {
    forall ps {:trigger build(ps)} :: OfSize(ps, size) ==> OfSize(build(ps), size) && SameAddresses(build(ps), ps, size)
  }

  /** Keeping the prefixes as they are is one way to build a set. */
  lemma IdentityBuilds(size: nat)
    ensures Builds((ps: seq<Prefix>) => ps, size)
  {
  }

  /** Prefixes of a family cover no address only if there are none. */
  lemma EmptyTogether(ps: seq<Prefix>, qs: seq<Prefix>, size: nat)
    requires OfSize(ps, size) && OfSize(qs, size) && SameAddresses(ps, qs, size)
    ensures ps == [] <==> qs == []
  {
    if ps != [] {
      assert Covers(ps[0], ps[0].bytes);
      assert Contains(ps, ps[0].bytes);
    }
    if qs != [] {
      assert Covers(qs[0], qs[0].bytes);
      assert Contains(qs, qs[0].bytes);
    }
  }

  /** Some valid CIDR of a family covers the address. */
  ghost predicate CoveredBy(cidrs: seq<Cidr>, a: seq<Byte>) {
    exists c :: c in cidrs && |c.ip| == |a| && c.prefix <= 8 * |a| && Covers(Prefix(c.ip, c.prefix), a)
  }

  ghost predicate HasFamily(cidrs: seq<Cidr>, size: nat) {
    exists c :: c in cidrs && |c.ip| == size && c.prefix <= 8 * size
  }

  lemma PrefixesCover(cidrs: seq<Cidr>, a: seq<Byte>)
    ensures OfSize(PrefixesOf(cidrs, |a|), |a|)
    ensures Contains(PrefixesOf(cidrs, |a|), a) <==> CoveredBy(cidrs, a)
    ensures PrefixesOf(cidrs, |a|) != [] <==> HasFamily(cidrs, |a|)
  {
    var ps := PrefixesOf(cidrs, |a|);
    forall i | 0 <= i < |ps| ensures |ps[i].bytes| == |a| && ps[i].bits <= 8 * |a| {
      assert ps[i] in ps;
    }
    if CoveredBy(cidrs, a) {
      var c :| c in cidrs && |c.ip| == |a| && c.prefix <= 8 * |a| && Covers(Prefix(c.ip, c.prefix), a);
      assert Prefix(c.ip, c.prefix) in ps;
    }
    if Contains(ps, a) {
      var i :| 0 <= i < |ps| && Covers(ps[i], a);
      assert ps[i] in ps;
    }
    if HasFamily(cidrs, |a|) {
      var c :| c in cidrs && |c.ip| == |a| && c.prefix <= 8 * |a|;
      assert Prefix(c.ip, c.prefix) in ps;
    }
    if ps != [] { assert ps[0] in ps; }
  }

  /** The prefixes of a created set for one family: they cover what the CIDRs cover. */
  ghost predicate Created(cidrs: seq<Cidr>, size: nat, ps: seq<Prefix>, max: int) {
    && IsMax(ps, max) && 0 <= max < 256 && (max == NONE <==> !HasFamily(cidrs, size))
    && forall a :: |a| == size ==> (Contains(ps, a) <==> CoveredBy(cidrs, a))
  }

  lemma CreatedFamily(cidrs: seq<Cidr>, build: seq<Prefix> -> seq<Prefix>, size: nat, max: int)
    requires Builds(build, size) && size <= 16 && IsMax(build(PrefixesOf(cidrs, size)), max)
    ensures Created(cidrs, size, build(PrefixesOf(cidrs, size)), max)
  {
    var ps := PrefixesOf(cidrs, size);
    forall a: seq<Byte> | |a| == size
      ensures OfSize(ps, size) && (Contains(ps, a) <==> CoveredBy(cidrs, a)) && (ps != [] <==> HasFamily(cidrs, size))
    {
      PrefixesCover(cidrs, a);
    }
    var zero: seq<Byte> := seq(size, _ => 0);
    assert |zero| == size;
    EmptyTogether(build(ps), ps, size);
  }

  /** createFrom: a set of exactly the addresses that the valid CIDRs cover. */
  method CreateFrom(cidrs: seq<Cidr>, build: seq<Prefix> -> seq<Prefix>) returns (s: IpSet)
    requires Builds(build, 4) && Builds(build, 16)
    ensures Built(s) && Created(cidrs, 4, s.ipv4, s.max4) && Created(cidrs, 16, s.ipv6, s.max6)
  {
    var b4: seq<Prefix>, b6: seq<Prefix> := [], [];
    for i := 0 to |cidrs|
      invariant b4 == PrefixesOf(cidrs[..i], 4) && b6 == PrefixesOf(cidrs[..i], 16)
    {
      var c := cidrs[i];
      assert cidrs[..i + 1][..i] == cidrs[..i];
      if (|c.ip| == 4 || |c.ip| == 16) && c.prefix <= 8 * |c.ip| {
        if |c.ip| == 4 { b4 := b4 + [Prefix(c.ip, c.prefix)]; } else { b6 := b6 + [Prefix(c.ip, c.prefix)]; }
      }
    }
    assert cidrs[..|cidrs|] == cidrs;
    var max4 := MaxBits(build(b4));
    var max6 := MaxBits(build(b6));
    CreatedFamily(cidrs, build, 4, max4);
    CreatedFamily(cidrs, build, 16, max6);
    s := IpSet(build(b4), build(b6), max4, max6);
  }

  // One matcher.

  datatype Matcher = Matcher(ipset: IpSet, reverse: bool)

  predicate MatchAddr(m: Matcher, a: Addr) {
    match a
    case V4(b) => m.ipset.max4 != NONE && Contains(m.ipset.ipv4, b) != m.reverse
    case V6(b) => m.ipset.max6 != NONE && Contains(m.ipset.ipv6, b) != m.reverse
  }

  /** Match: an invalid IP matches nothing. */
  predicate Match(m: Matcher, ip: seq<Byte>) {
    match AddrOf(ip)
    case None => false
    case Some(a) => MatchAddr(m, a)
  }

  /** Whether the matcher looks at the block of a key instead of the address. */
  predicate Heuristic(m: Matcher, key: seq<Byte>) {
    key != [] && ((key[0] == 4 && m.ipset.max4 <= 24) || (key[0] == 6 && m.ipset.max6 <= 64))
  }

  predicate ValidAddr(a: Addr) {
    |a.bytes| == if a.V4? then 4 else 16
  }

  /** Under the heuristic all addresses of a block match alike. */
  lemma SameBlock(m: Matcher, a: Addr, b: Addr)
    requires Built(m.ipset) && ValidAddr(a) && ValidAddr(b) && Block(a) == Block(b) && Heuristic(m, Block(a))
    ensures MatchAddr(m, a) == MatchAddr(m, b)
  {
    assert Block(a)[0] == if a.V4? then 4 else 6;
    assert Block(b)[0] == if b.V4? then 4 else 6;
    if a.V4? {
      assert a.bytes[..3] == Block(a)[1..4] == Block(b)[1..4] == b.bytes[..3];
      SmallBits(m.ipset.ipv4, m.ipset.max4, 3);
      ContainsBlock(m.ipset.ipv4, a.bytes, b.bytes, 3);
    } else {
      assert a.bytes[..8] == Block(a)[1..9] == Block(b)[1..9] == b.bytes[..8];
      SmallBits(m.ipset.ipv6, m.ipset.max6, 8);
      ContainsBlock(m.ipset.ipv6, a.bytes, b.bytes, 8);
    }
  }

  lemma MatchesBlock(m: Matcher, x: seq<Byte>, y: seq<Byte>)
    requires Built(m.ipset) && KeyOf(x).Some? && KeyOf(x) == KeyOf(y) && Heuristic(m, KeyOf(x).value)
    ensures Match(m, x) == Match(m, y)
  {
    KeyIsBlock(x);
    KeyIsBlock(y);
    SameBlock(m, AddrOf(x).value, AddrOf(y).value);
  }

  lemma SmallBits(prefixes: seq<Prefix>, max: int, n: nat)
    requires IsMax(prefixes, max) && max <= 8 * n < ONLY_ZERO
    ensures forall i :: 0 <= i < |prefixes| ==> prefixes[i].bits <= 8 * n
  {
  }

  method AnyMatch(m: Matcher, ips: seq<seq<Byte>>) returns (r: bool)
    requires Built(m.ipset)
    ensures r <==> exists i :: 0 <= i < |ips| && Match(m, ips[i])
  {
    if |ips| == 0 { return false; }
    if |ips| == 1 { return Match(m, ips[0]); }
    if m.ipset.max4 > 24 && m.ipset.max6 > 64 {
      for i := 0 to |ips|
        invariant forall j :: 0 <= j < i ==> !Match(m, ips[j])
      {
        if Match(m, ips[i]) { return true; }
      }
      return false;
    }
    var buckets: set<seq<Byte>> := {};
    for i := 0 to |ips|
      invariant forall j :: 0 <= j < i ==> !Match(m, ips[j])
      invariant forall key :: key in buckets ==> exists j :: 0 <= j < i && KeyOf(ips[j]) == Some(key)
    {
      var key := KeyOf(ips[i]);
      KeyIsBlock(ips[i]);
      if key == None { continue; }
      var heur := Heuristic(m, key.value);
      if heur && key.value in buckets {
        var j :| 0 <= j < i && KeyOf(ips[j]) == key;
        MatchesBlock(m, ips[i], ips[j]);
        continue;
      }
      if Match(m, ips[i]) { return true; }
      if heur { buckets := buckets + {key.value}; }
    }
    r := false;
  }

  ghost predicate Seen(ips: seq<seq<Byte>>, n: nat, a: Addr)
    requires n <= |ips|
  {
    exists i :: 0 <= i < n && AddrOf(ips[i]) == Some(a)
  }

  /** The addresses seen: one for each block that is looked at as a block, and every other address. */
  ghost predicate Viewed(m: Matcher, ips: seq<seq<Byte>>, n: nat, buckets: map<seq<Byte>, Addr>, precise: seq<Addr>)
    requires n <= |ips|
  {
    && (forall i :: 0 <= i < n ==> Held(m, ips[i], buckets, precise))
    && (forall key :: key in buckets ==> Block(buckets[key]) == key && Heuristic(m, key) && Seen(ips, n, buckets[key]))
    && (forall a :: a in precise ==> Seen(ips, n, a))
  }

  ghost predicate Held(m: Matcher, ip: seq<Byte>, buckets: map<seq<Byte>, Addr>, precise: seq<Addr>) {
    && AddrOf(ip).Some?
    && (Block(AddrOf(ip).value) in buckets || AddrOf(ip).value in precise)
  }

  lemma ViewDecides(m: Matcher, ips: seq<seq<Byte>>, buckets: map<seq<Byte>, Addr>, precise: seq<Addr>)
    requires Built(m.ipset) && Viewed(m, ips, |ips|, buckets, precise)
    ensures (forall i :: 0 <= i < |ips| ==> Match(m, ips[i])) <==>
      (forall key :: key in buckets ==> MatchAddr(m, buckets[key])) && (forall a :: a in precise ==> MatchAddr(m, a))
  {
    forall i | 0 <= i < |ips| ensures Held(m, ips[i], buckets, precise) && ValidAddr(AddrOf(ips[i]).value) {
      KeyIsBlock(ips[i]);
    }
    forall i | 0 <= i < |ips| && Block(AddrOf(ips[i]).value) in buckets
      ensures Match(m, ips[i]) == MatchAddr(m, buckets[Block(AddrOf(ips[i]).value)])
    {
      var a := AddrOf(ips[i]).value;
      SameBlock(m, a, buckets[Block(a)]);
    }
  }

  lemma SeenLater(ips: seq<seq<Byte>>, n: nat, a: Addr)
    requires n < |ips|
    ensures Seen(ips, n, a) || AddrOf(ips[n]) == Some(a) ==> Seen(ips, n + 1, a)
  {
  }

  /** The next IP is in a bucket or in the list, and what was seen is still seen. */
  lemma ViewNext(m: Matcher, ips: seq<seq<Byte>>, n: nat, buckets: map<seq<Byte>, Addr>, precise: seq<Addr>)
    requires n < |ips| && Viewed(m, ips, n, buckets, precise) && Held(m, ips[n], buckets, precise)
    ensures Viewed(m, ips, n + 1, buckets, precise)
  {
    forall key | key in buckets ensures Seen(ips, n + 1, buckets[key]) {
      SeenLater(ips, n, buckets[key]);
    }
    forall p | p in precise ensures Seen(ips, n + 1, p) {
      SeenLater(ips, n, p);
    }
  }

  lemma ViewBucket(m: Matcher, ips: seq<seq<Byte>>, n: nat, buckets: map<seq<Byte>, Addr>, precise: seq<Addr>, a: Addr)
    requires n < |ips| && Viewed(m, ips, n, buckets, precise) && AddrOf(ips[n]) == Some(a) && Heuristic(m, Block(a))
    requires Block(a) !in buckets
    ensures Viewed(m, ips, n + 1, buckets[Block(a) := a], precise)
  {
    SeenLater(ips, n, a);
    forall key | key in buckets ensures Seen(ips, n + 1, buckets[key]) {
      SeenLater(ips, n, buckets[key]);
    }
    forall p | p in precise ensures Seen(ips, n + 1, p) {
      SeenLater(ips, n, p);
    }
    forall i | 0 <= i < n ensures Held(m, ips[i], buckets[Block(a) := a], precise) {
      assert Held(m, ips[i], buckets, precise);
    }
  }

  lemma ViewPrecise(m: Matcher, ips: seq<seq<Byte>>, n: nat, buckets: map<seq<Byte>, Addr>, precise: seq<Addr>, a: Addr)
    requires n < |ips| && Viewed(m, ips, n, buckets, precise) && AddrOf(ips[n]) == Some(a)
    ensures Viewed(m, ips, n + 1, buckets, precise + [a])
  {
    SeenLater(ips, n, a);
    forall key | key in buckets ensures Seen(ips, n + 1, buckets[key]) {
      SeenLater(ips, n, buckets[key]);
    }
    forall p | p in precise ensures Seen(ips, n + 1, p) {
      SeenLater(ips, n, p);
    }
    forall i | 0 <= i < n ensures Held(m, ips[i], buckets, precise + [a]) {
      assert Held(m, ips[i], buckets, precise);
    }
  }

  method ViewOne(m: Matcher, ips: seq<seq<Byte>>, i: nat, buckets: map<seq<Byte>, Addr>, precise: seq<Addr>)
    returns (ok: bool, buckets': map<seq<Byte>, Addr>, precise': seq<Addr>)
    requires i < |ips| && Viewed(m, ips, i, buckets, precise)
    ensures ok <==> AddrOf(ips[i]).Some?
    ensures ok ==> Viewed(m, ips, i + 1, buckets', precise')
  {
    buckets', precise' := buckets, precise;
    var key := KeyOf(ips[i]);
    KeyIsBlock(ips[i]);
    if key == None { return false, buckets', precise'; }
    var a := AddrOf(ips[i]).value;
    if Heuristic(m, key.value) {
      if key.value !in buckets {
        ViewBucket(m, ips, i, buckets, precise, a);
        buckets' := buckets[key.value := a];
      } else {
        ViewNext(m, ips, i, buckets, precise);
      }
    } else {
      ViewPrecise(m, ips, i, buckets, precise, a);
      precise' := precise + [a];
    }
    ok := true;
  }

  /** The first loop of Matches. It fails on an invalid IP. */
  method View(m: Matcher, ips: seq<seq<Byte>>) returns (ok: bool, buckets: map<seq<Byte>, Addr>, precise: seq<Addr>)
    ensures ok <==> forall i :: 0 <= i < |ips| ==> AddrOf(ips[i]).Some?
    ensures ok ==> Viewed(m, ips, |ips|, buckets, precise)
  {
    buckets, precise := map[], [];
    for i := 0 to |ips|
      invariant Viewed(m, ips, i, buckets, precise)
    {
      ok, buckets, precise := ViewOne(m, ips, i, buckets, precise);
      if !ok { return; }
    }
    ok := true;
  }

  method AllBuckets(m: Matcher, buckets: map<seq<Byte>, Addr>) returns (r: bool)
    ensures r <==> forall key :: key in buckets ==> MatchAddr(m, buckets[key])
  {
    var todo := buckets.Keys;
    while todo != {}
      invariant todo <= buckets.Keys
      invariant forall key :: key in buckets && key !in todo ==> MatchAddr(m, buckets[key])
      decreases |todo|
    {
      var key := Pick(todo);
      todo := todo - {key};
      if !MatchAddr(m, buckets[key]) { return false; }
    }
    r := true;
  }

  method AllAddresses(m: Matcher, precise: seq<Addr>) returns (r: bool)
    ensures r <==> forall a :: a in precise ==> MatchAddr(m, a)
  {
    for i := 0 to |precise|
      invariant forall j :: 0 <= j < i ==> MatchAddr(m, precise[j])
    {
      if !MatchAddr(m, precise[i]) { return false; }
    }
    r := true;
  }

  method Matches(m: Matcher, ips: seq<seq<Byte>>) returns (r: bool)
    requires Built(m.ipset)
    ensures r <==> ips != [] && forall i :: 0 <= i < |ips| ==> Match(m, ips[i])
  {
    if |ips| == 0 { return false; }
    if |ips| == 1 { return Match(m, ips[0]); }
    if m.ipset.max4 > 24 && m.ipset.max6 > 64 {
      for i := 0 to |ips|
        invariant forall j :: 0 <= j < i ==> Match(m, ips[j])
      {
        if !Match(m, ips[i]) { return false; }
      }
      return true;
    }
    var ok, buckets, precise := View(m, ips);
    if !ok { return false; }
    ViewDecides(m, ips, buckets, precise);
    r := AllBuckets(m, buckets);
    if r { r := AllAddresses(m, precise); }
  }

  /**
   Which IPs a matcher on a created set matches, said of the CIDRs: those that a valid CIDR of their family covers, or
   in reverse those that none covers; none at all when the family has no valid CIDR.
   */
  ghost predicate CidrsMatch(cidrs: seq<Cidr>, reverse: bool, ip: seq<Byte>) {
    match AddrOf(ip)
    case None => false
    case Some(a) => HasFamily(cidrs, |a.bytes|) && CoveredBy(cidrs, a.bytes) != reverse
  }

  lemma CreatedMatches(cidrs: seq<Cidr>, m: Matcher, ip: seq<Byte>)
    requires Created(cidrs, 4, m.ipset.ipv4, m.ipset.max4) && Created(cidrs, 16, m.ipset.ipv6, m.ipset.max6)
    ensures Match(m, ip) <==> CidrsMatch(cidrs, m.reverse, ip)
  {
    KeyIsBlock(ip);
    match AddrOf(ip)
    case None =>
    case Some(V4(b)) => assert Contains(m.ipset.ipv4, b) <==> CoveredBy(cidrs, b);
    case Some(V6(b)) => assert Contains(m.ipset.ipv6, b) <==> CoveredBy(cidrs, b);
  }

  ghost predicate Agrees(cidrs: seq<Cidr>, m: Matcher, ips: seq<seq<Byte>>) {
    forall x {:trigger Match(m, x)} {:trigger x in ips} :: x in ips ==> (Match(m, x) <==> CidrsMatch(cidrs, m.reverse, x))
  }

  method CreateMatcher(cidrs: seq<Cidr>, build: seq<Prefix> -> seq<Prefix>, reverse: bool, ghost ips: seq<seq<Byte>>)
    returns (m: Matcher)
    requires Builds(build, 4) && Builds(build, 16)
    ensures Built(m.ipset) && m.reverse == reverse && Agrees(cidrs, m, ips)
  {
    var s := CreateFrom(cidrs, build);
    m := Matcher(s, reverse);
    forall x | x in ips ensures Match(m, x) <==> CidrsMatch(cidrs, reverse, x) {
      CreatedMatches(cidrs, m, x);
    }
  }

  /** From CIDRs to answers: what AnyMatch and Matches of a matcher on the created set say of any IPs. */
  method MatchCidrs(cidrs: seq<Cidr>, build: seq<Prefix> -> seq<Prefix>, reverse: bool, ips: seq<seq<Byte>>)
    returns (any: bool, all: bool)
    requires Builds(build, 4) && Builds(build, 16)
    ensures any <==> exists i :: 0 <= i < |ips| && CidrsMatch(cidrs, reverse, ips[i])
    ensures all <==> ips != [] && forall i :: 0 <= i < |ips| ==> CidrsMatch(cidrs, reverse, ips[i])
  {
    var m := CreateMatcher(cidrs, build, reverse, ips);
    any := AnyMatch(m, ips);
    all := Matches(m, ips);
  }

  // Filtering.

  function Valids(ips: seq<seq<Byte>>): (r: seq<seq<Byte>>)
    ensures forall x :: x in r ==> AddrOf(x).Some?
  {
    if ips == [] then []
    else
      var last := ips[|ips| - 1];
      Valids(ips[..|ips| - 1]) + if AddrOf(last).Some? then [last] else []
  }

  lemma ValidsNext(ips: seq<seq<Byte>>, i: nat)
    requires i < |ips|
    ensures Valids(ips[..i + 1]) == Valids(ips[..i]) + if AddrOf(ips[i]).Some? then [ips[i]] else []
  {
    assert ips[..i + 1][..i] == ips[..i];
  }

  ghost predicate Sorted(m: Matcher, matched: seq<seq<Byte>>, unmatched: seq<seq<Byte>>) {
    && (forall x :: x in matched ==> Match(m, x))
    && (forall x :: x in unmatched ==> AddrOf(x).Some? && !Match(m, x))
  }

  lemma SortedAdd(m: Matcher, yes: seq<seq<Byte>>, no: seq<seq<Byte>>, xs: seq<seq<Byte>>, side: bool)
    requires Sorted(m, yes, no) && forall x :: x in xs ==> AddrOf(x).Some? && Match(m, x) == side
    ensures side ==> Sorted(m, yes + xs, no)
    ensures !side ==> Sorted(m, yes, no + xs)
  {
  }

  /** One turn of the loop below. */
  method Decide(m: Matcher, x: seq<Byte>, matched: seq<seq<Byte>>, unmatched: seq<seq<Byte>>)
    returns (yes: seq<seq<Byte>>, no: seq<seq<Byte>>)
    requires Sorted(m, matched, unmatched)
    ensures Sorted(m, yes, no)
    ensures multiset(yes) + multiset(no) ==
      multiset(matched) + multiset(unmatched) + if AddrOf(x).Some? then multiset{x} else multiset{}
  {
    if AddrOf(x) == None { return matched, unmatched; }
    SortedAdd(m, matched, unmatched, [x], Match(m, x));
    if Match(m, x) { return matched + [x], unmatched; }
    return matched, unmatched + [x];
  }

  /** The loop that decides every IP of a list by itself. */
  method Split(m: Matcher, ips: seq<seq<Byte>>, matched: seq<seq<Byte>>, unmatched: seq<seq<Byte>>)
    returns (yes: seq<seq<Byte>>, no: seq<seq<Byte>>)
    requires Sorted(m, matched, unmatched)
    ensures Sorted(m, yes, no)
    ensures multiset(yes) + multiset(no) == multiset(matched) + multiset(unmatched) + multiset(Valids(ips))
  {
    yes, no := matched, unmatched;
    for i := 0 to |ips|
      invariant Sorted(m, yes, no)
      invariant multiset(yes) + multiset(no) == multiset(matched) + multiset(unmatched) + multiset(Valids(ips[..i]))
    {
      ValidsNext(ips, i);
      yes, no := Decide(m, ips[i], yes, no);
    }
    assert ips[..|ips|] == ips;
  }

  datatype Bucket = Bucket(rep: Addr, ips: seq<seq<Byte>>)

  ghost predicate InBlock(m: Matcher, key: seq<Byte>, b: Bucket) {
    && ValidAddr(b.rep) && Block(b.rep) == key && Heuristic(m, key)
    && forall y :: y in b.ips ==> KeyOf(y) == Some(key)
  }

  /** How often an IP is in its bucket. */
  ghost function InBuckets(buckets: map<seq<Byte>, Bucket>, keys: set<seq<Byte>>, x: seq<Byte>): nat {
    if KeyOf(x).Some? && KeyOf(x).value in buckets && KeyOf(x).value in keys then multiset(buckets[KeyOf(x).value].ips)[x] else 0
  }

  ghost predicate Filed(m: Matcher, ips: seq<seq<Byte>>, buckets: map<seq<Byte>, Bucket>, precise: seq<seq<Byte>>) {
    && (forall key :: key in buckets ==> InBlock(m, key, buckets[key]))
    && (forall x :: InBuckets(buckets, buckets.Keys, x) + multiset(precise)[x] == multiset(Valids(ips))[x])
  }

  function Extended(buckets: map<seq<Byte>, Bucket>, key: seq<Byte>, a: Addr, x: seq<Byte>): map<seq<Byte>, Bucket> {
    var b := if key in buckets then buckets[key] else Bucket(a, []);
    buckets[key := Bucket(b.rep, b.ips + [x])]
  }

  lemma ExtendedCount(buckets: map<seq<Byte>, Bucket>, key: seq<Byte>, a: Addr, x: seq<Byte>, y: seq<Byte>)
    requires KeyOf(x) == Some(key)
    ensures var more := Extended(buckets, key, a, x);
      InBuckets(more, more.Keys, y) == InBuckets(buckets, buckets.Keys, y) + multiset{x}[y]
  {
    var more := Extended(buckets, key, a, x);
    if KeyOf(y) == Some(key) {
      var before := if key in buckets then buckets[key].ips else [];
      assert multiset(before + [x])[y] == multiset(before)[y] + multiset{x}[y];
    } else {
      assert x != y;
    }
  }

  lemma FiledPrecise(m: Matcher, ips: seq<seq<Byte>>, i: nat, buckets: map<seq<Byte>, Bucket>, precise: seq<seq<Byte>>)
    requires i < |ips| && Filed(m, ips[..i], buckets, precise) && AddrOf(ips[i]).Some?
    ensures Filed(m, ips[..i + 1], buckets, precise + [ips[i]])
  {
    ValidsNext(ips, i);
  }

  lemma FiledBucket(m: Matcher, ips: seq<seq<Byte>>, i: nat, buckets: map<seq<Byte>, Bucket>, precise: seq<seq<Byte>>,
                    key: seq<Byte>, a: Addr)
    requires i < |ips| && Filed(m, ips[..i], buckets, precise)
    requires AddrOf(ips[i]) == Some(a) && KeyOf(ips[i]) == Some(key) && Heuristic(m, key)
    ensures Filed(m, ips[..i + 1], Extended(buckets, key, a, ips[i]), precise)
  {
    KeyIsBlock(ips[i]);
    ExtendedInBlock(m, buckets, key, a, ips[i]);
    ValidsNext(ips, i);
    var more := Extended(buckets, key, a, ips[i]);
    forall y ensures InBuckets(more, more.Keys, y) + multiset(precise)[y] == multiset(Valids(ips[..i + 1]))[y] {
      ExtendedCount(buckets, key, a, ips[i], y);
      assert InBuckets(buckets, buckets.Keys, y) + multiset(precise)[y] == multiset(Valids(ips[..i]))[y];
    }
  }

  lemma ExtendedInBlock(m: Matcher, buckets: map<seq<Byte>, Bucket>, key: seq<Byte>, a: Addr, x: seq<Byte>)
    requires forall k :: k in buckets ==> InBlock(m, k, buckets[k])
    requires ValidAddr(a) && Block(a) == key && Heuristic(m, key) && KeyOf(x) == Some(key)
    ensures var more := Extended(buckets, key, a, x); forall k :: k in more ==> InBlock(m, k, more[k])
  {
  }

  /** The loop that files every valid IP under its block, or by itself. */
  method File(m: Matcher, ips: seq<seq<Byte>>) returns (buckets: map<seq<Byte>, Bucket>, precise: seq<seq<Byte>>)
    ensures Filed(m, ips, buckets, precise) && forall x :: x in precise ==> AddrOf(x).Some?
  {
    buckets, precise := map[], [];
    for i := 0 to |ips|
      invariant Filed(m, ips[..i], buckets, precise) && forall x :: x in precise ==> AddrOf(x).Some?
    {
      var key := KeyOf(ips[i]);
      KeyIsBlock(ips[i]);
      ValidsNext(ips, i);
      if key == None { continue; }
      if !Heuristic(m, key.value) {
        FiledPrecise(m, ips, i, buckets, precise);
        precise := precise + [ips[i]];
        continue;
      }
      FiledBucket(m, ips, i, buckets, precise, key.value, AddrOf(ips[i]).value);
      var b := if key.value in buckets then buckets[key.value] else Bucket(AddrOf(ips[i]).value, []);
      buckets := buckets[key.value := Bucket(b.rep, b.ips + [ips[i]])];
    }
    assert ips[..|ips|] == ips;
  }

  /** The loop over the buckets, each decided by its representative. */
  method Drain(m: Matcher, buckets: map<seq<Byte>, Bucket>) returns (yes: seq<seq<Byte>>, no: seq<seq<Byte>>)
    requires Built(m.ipset) && forall key :: key in buckets ==> InBlock(m, key, buckets[key])
    ensures Sorted(m, yes, no)
    ensures forall x :: multiset(yes)[x] + multiset(no)[x] == InBuckets(buckets, buckets.Keys, x)
  {
    yes, no := [], [];
    var done: set<seq<Byte>>, todo := {}, buckets.Keys;
    while todo != {}
      invariant done + todo == buckets.Keys && done !! todo
      invariant Sorted(m, yes, no)
      invariant forall x :: multiset(yes)[x] + multiset(no)[x] == InBuckets(buckets, done, x)
      decreases |todo|
    {
      var key := Pick(todo);
      BucketDecides(m, key, buckets[key]);
      SortedAdd(m, yes, no, buckets[key].ips, MatchAddr(m, buckets[key].rep));
      DrainNext(m, buckets, done, key);
      if MatchAddr(m, buckets[key].rep) {
        yes := yes + buckets[key].ips;
      } else {
        no := no + buckets[key].ips;
      }
      done, todo := done + {key}, todo - {key};
    }
  }

  lemma DrainNext(m: Matcher, buckets: map<seq<Byte>, Bucket>, done: set<seq<Byte>>, key: seq<Byte>)
    requires key in buckets && key !in done && InBlock(m, key, buckets[key])
    ensures forall x :: InBuckets(buckets, done + {key}, x) == InBuckets(buckets, done, x) + multiset(buckets[key].ips)[x]
  {
    forall x ensures InBuckets(buckets, done + {key}, x) == InBuckets(buckets, done, x) + multiset(buckets[key].ips)[x] {
      if KeyOf(x) != Some(key) { assert x !in buckets[key].ips; }
    }
  }

  lemma BucketDecides(m: Matcher, key: seq<Byte>, b: Bucket)
    requires Built(m.ipset) && InBlock(m, key, b)
    ensures forall y :: y in b.ips ==> AddrOf(y).Some? && Match(m, y) == MatchAddr(m, b.rep)
  {
    forall y | y in b.ips ensures AddrOf(y).Some? && Match(m, y) == MatchAddr(m, b.rep) {
      KeyIsBlock(y);
      SameBlock(m, AddrOf(y).value, b.rep);
    }
  }

  /** FilterIPs: the valid IPs, each as often as it was given, on the side that Match puts it. */
  method FilterIPs(m: Matcher, ips: seq<seq<Byte>>) returns (matched: seq<seq<Byte>>, unmatched: seq<seq<Byte>>)
    requires Built(m.ipset)
    ensures Sorted(m, matched, unmatched)
    ensures multiset(matched) + multiset(unmatched) == multiset(Valids(ips))
  {
    if |ips| == 0 { return [], []; }
    if |ips| == 1 {
      ValidsNext(ips, 0);
      assert ips[..1] == ips && ips == [ips[0]];
      if AddrOf(ips[0]) == None { return [], []; }
      if Match(m, ips[0]) { return ips, []; }
      return [], ips;
    }
    if m.ipset.max4 > 24 && m.ipset.max6 > 64 {
      matched, unmatched := Split(m, ips, [], []);
      return;
    }
    var buckets, precise := File(m, ips);
    var yes, no := Drain(m, buckets);
    AllValid(precise);
    matched, unmatched := Split(m, precise, yes, no);
  }

  lemma {:induction false} AllValid(ips: seq<seq<Byte>>)
    requires forall x :: x in ips ==> AddrOf(x).Some?
    ensures Valids(ips) == ips
  {
    if ips != [] {
      AllValid(ips[..|ips| - 1]);
      assert ips == ips[..|ips| - 1] + [ips[|ips| - 1]];
    }
  }

  lemma {:induction false} ValidsAreGiven(ips: seq<seq<Byte>>, x: seq<Byte>)
    requires x in Valids(ips)
    ensures x in ips
  {
    var n := |ips| - 1;
    if x != ips[n] { ValidsAreGiven(ips[..n], x); }
  }

  /** The same of FilterIPs: the valid IPs, each on the side that the CIDRs put it. */
  method FilterCidrs(cidrs: seq<Cidr>, build: seq<Prefix> -> seq<Prefix>, reverse: bool, ips: seq<seq<Byte>>)
    returns (matched: seq<seq<Byte>>, unmatched: seq<seq<Byte>>)
    requires Builds(build, 4) && Builds(build, 16)
    ensures multiset(matched) + multiset(unmatched) == multiset(Valids(ips))
    ensures forall x :: x in matched ==> CidrsMatch(cidrs, reverse, x)
    ensures forall x :: x in unmatched ==> !CidrsMatch(cidrs, reverse, x)
  {
    var m := CreateMatcher(cidrs, build, reverse, ips);
    matched, unmatched := FilterIPs(m, ips);
    forall x | x in matched || x in unmatched ensures x in ips {
      assert x in multiset(matched) + multiset(unmatched);
      ValidsAreGiven(ips, x);
    }
  }
}
