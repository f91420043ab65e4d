/**
 What a prefix covers, by the addresses as numbers: the addresses whose leading bits, read as one number in network byte
 order, are those of the prefix.
 */
module IpNumbers {

  import opened Arithmetic
  import opened Buffers
  import opened IpMatcher
  import opened Options

  /** The address as a number, its first byte the most significant. */
  function Number(a: seq<Byte>): nat {
    if a == [] then 0 else 256 * Number(a[..|a| - 1]) + a[|a| - 1]
  }

  /** The first bits of the address as a number. */
  function Leading(a: seq<Byte>, bits: nat): int
    requires bits <= 8 * |a|
  {
    Number(a) / Pow2(8 * |a| - bits)
  }

  lemma {:induction false} PowSum(m: nat, n: nat)
    ensures Pow2(m + n) == Pow2(m) * Pow2(n)
  {
    if m > 0 {
      PowSum(m - 1, n);
      Doubled(Pow2(m - 1), Pow2(n));
    }
  }

  lemma Doubled(x: int, y: int)
    ensures 2 * (x * y) == (2 * x) * y
  {
  }

  lemma {:induction false} NumberBound(a: seq<Byte>)
    ensures Number(a) < Pow2(8 * |a|)
  {
    if a != [] {
      NumberBound(a[..|a| - 1]);
      PowSum(8, 8 * (|a| - 1));
      SmallPowers();
    }
  }

  lemma DivideByProduct(x: nat, m: nat, n: nat)
    requires m > 0 && n > 0
    ensures m * n > 0 && x / (m * n) == (x / m) / n
  {
    var y, r := x / m, x % m;
    var q, s := y / n, y % n;
    assert x == (q * n + s) * m + r;
    assert (q * n + s) * m == q * (m * n) + s * m;
    Scale(n - s, m);
    Distribute(s, n, m);
    assert s * m + r < n * m == m * n;
    assert x == q * (m * n) + (s * m + r);
    Multiple(q, s * m + r, m * n);
  }

  /** In a byte behind the one that is looked at nothing changes. */
  lemma ShiftByte(n: nat, last: Byte, e: nat)
    requires e >= 8
    ensures (256 * n + last) / Pow2(e) == n / Pow2(e - 8)
  {
    PowSum(8, e - 8);
    SmallPowers();
    DivideByProduct(256 * n + last, 256, Pow2(e - 8));
    assert (256 * n + last) / 256 == n;
  }

  lemma SmallPowers()
    ensures Pow2(0) == 1 && Pow2(1) == 2 && Pow2(2) == 4 && Pow2(3) == 8
    ensures Pow2(4) == 16 && Pow2(5) == 32 && Pow2(6) == 64 && Pow2(7) == 128 && Pow2(8) == 256
  {
  }

  lemma Swap(a: int, b: int, c: int)
    ensures (a * b) * c == (a * c) * b
  {
  }

  lemma EvenPart(x: int, q: int)
    ensures (2 * x + q) % 2 == q % 2
  {
  }

  lemma LowBit(n: nat, last: nat, p: nat, h: nat)
    requires p > 0 && 256 == 2 * (h * p)
    ensures ((256 * n + last) / p) % 2 == (last / p) % 2
  {
    var x, q, r := h * n, last / p, last % p;
    Swap(h, p, n);
    assert 256 * n == 2 * (x * p);
    assert last == q * p + r;
    assert (2 * x + q) * p == 2 * (x * p) + q * p;
    Multiple(2 * x + q, r, p);
    EvenPart(x, q);
  }

  lemma LastByte(n: nat, last: Byte, e: nat)
    requires e < 8
    ensures ((256 * n + last) / Pow2(e)) % 2 == (last / Pow2(e)) % 2
  {
    SmallPowers();
    PowSum(7 - e, e);
    LowBit(n, last, Pow2(e), Pow2(7 - e));
  }

  lemma {:induction false} BitOfNumber(a: seq<Byte>, i: nat)
    requires i < 8 * |a|
    ensures Bit(a, i) == (Number(a) / Pow2(8 * |a| - 1 - i)) % 2
  {
    var n := |a| - 1;
    var e := 8 * |a| - 1 - i;
    if i / 8 == n {
      assert e == 7 - i % 8;
      LastByte(Number(a[..n]), a[n], e);
    } else {
      ShiftByte(Number(a[..n]), a[n], e);
      BitOfNumber(a[..n], i);
      assert a[..n][i / 8] == a[i / 8];
    }
  }

  /** One more leading bit. */
  lemma LeadingNext(a: seq<Byte>, bits: nat)
    requires bits < 8 * |a|
    ensures Leading(a, bits + 1) == 2 * Leading(a, bits) + Bit(a, bits)
  {
    BitOfNumber(a, bits);
    var x := Number(a) / Pow2(8 * |a| - 1 - bits);
    DivideByProduct(Number(a), Pow2(8 * |a| - 1 - bits), 2);
    assert x == 2 * (x / 2) + x % 2;
  }

  lemma NoLeading(a: seq<Byte>)
    ensures Leading(a, 0) == 0
  {
    NumberBound(a);
    Multiple(0, Number(a), Pow2(8 * |a|));
  }

  lemma {:induction false} SameLeading(a: seq<Byte>, b: seq<Byte>, bits: nat)
    requires |a| == |b| && bits <= 8 * |a|
    ensures (forall i {:trigger Bit(a, i)} :: 0 <= i < bits ==> Bit(b, i) == Bit(a, i)) <==> Leading(b, bits) == Leading(a, bits)
  {
    if bits == 0 {
      NoLeading(a);
      NoLeading(b);
    } else {
      SameLeading(a, b, bits - 1);
      LeadingNext(a, bits - 1);
      LeadingNext(b, bits - 1);
    }
  }

  /** A prefix covers the addresses of its own length whose leading bits are those of the prefix. */
  lemma CoversExactly(p: Prefix, a: seq<Byte>)
    ensures Covers(p, a) <==> |p.bytes| == |a| && p.bits <= 8 * |a| && Leading(p.bytes, p.bits) == Leading(a, p.bits)
  {
    if |p.bytes| == |a| && p.bits <= 8 * |a| { SameLeading(a, p.bytes, p.bits); }
  }

  lemma Shifted(x: nat, p: nat, y: nat, last: nat)
    ensures 256 * (x * p + y) + last == x * (256 * p) + (256 * y + last)
  {
  }

  lemma {:induction false} NumberSplit(a: seq<Byte>, n: nat)
    requires n <= |a|
    ensures Number(a) == Number(a[..n]) * Pow2(8 * (|a| - n)) + Number(a[n..])
    decreases |a|
  {
    if n == |a| {
      assert a[..n] == a && a[n..] == [];
    } else {
      var m := |a| - 1;
      NumberSplit(a[..m], n);
      assert a[..m][..n] == a[..n] && a[..m][n..] == a[n..m];
      assert a[n..][..m - n] == a[n..m];
      PowSum(8, 8 * (m - n));
      SmallPowers();
      Shifted(Number(a[..n]), Pow2(8 * (m - n)), Number(a[n..m]), a[m]);
    }
  }

  lemma {:induction false} Injective(a: seq<Byte>, b: seq<Byte>)
    requires |a| == |b| && Number(a) == Number(b)
    ensures a == b
  {
    if a != [] {
      var n := |a| - 1;
      Injective(a[..n], b[..n]);
      assert a == a[..n] + [a[n]] && b == b[..n] + [b[n]];
    }
  }

  const MAPPED: seq<Byte> := [0, 0, 0, 0, 0, 0, 0, 0, 0, 0, 255, 255]

  lemma MappedNumber()
    ensures Number(MAPPED) == 0xFFFF
  {
    assert MAPPED[..11][..10] == seq(10, _ => 0);
    NoNumber(10);
    assert Number(MAPPED[..11]) == 255;
    assert MAPPED[..11] == MAPPED[..|MAPPED| - 1];
  }

  lemma {:induction false} NoNumber(n: nat)
    ensures Number(seq(n, _ => 0)) == 0
  {
    if n > 0 {
      assert seq(n, _ => 0)[..n - 1] == seq(n - 1, _ => 0);
      NoNumber(n - 1);
    }
  }

  /** The mapped addresses are those of ::ffff:0:0/96, and each is taken as the IPv4 address with its last 32 bits. */
  lemma MappedExactly(ip: seq<Byte>)
    requires |ip| == 16
    ensures IsMapped(ip) <==> Leading(ip, 96) == 0xFFFF
    ensures IsMapped(ip) ==> AddrOf(ip) == Some(V4(ip[12..])) && Number(ip) == 0xFFFF * Pow2(32) + Number(ip[12..])
    ensures !IsMapped(ip) ==> AddrOf(ip) == Some(V6(ip))
  {
    NumberSplit(ip, 12);
    NumberBound(ip[12..]);
    Multiple(Number(ip[..12]), Number(ip[12..]), Pow2(32));
    MappedNumber();
    MappedIs(ip);
    if Number(ip[..12]) == Number(MAPPED) { Injective(ip[..12], MAPPED); }
  }

  lemma MappedIs(ip: seq<Byte>)
    requires |ip| == 16
    ensures IsMapped(ip) <==> ip[..12] == MAPPED
  {
    assert forall i :: 0 <= i < 12 ==> ip[..12][i] == ip[i];
  }
}
