/**
 The nonce generators and size codecs that the chunk framing runs on (common/crypto/auth.go, common/crypto/chunk.go,
 proxy/vmess/encoding/auth.go), and the two suites the proxies build from them.
 */
module AeadSuites {

  import opened AeadStream
  import opened Arithmetic
  import opened Buffers
  import opened Options

  // The increasing nonce: a little-endian counter of any length.

  function Incremented(c: seq<Byte>): (r: seq<Byte>)
    ensures |r| == |c|
  {
    if c == [] then [] else if c[0] == 255 then [0] + Incremented(c[1..]) else [c[0] + 1] + c[1..]
  }

  function Power(n: nat): (p: nat)
    ensures p > 0
  {
    if n == 0 then 1 else 256 * Power(n - 1)
  }

  function Value(c: seq<Byte>): (v: nat)
    ensures v < Power(|c|)
  {
    if c == [] then 0 else c[0] as int + 256 * Value(c[1..])
  }

  /** The result of a call that has carried through the first i bytes. */
  ghost function Carried(c: seq<Byte>, i: nat): seq<Byte>
    requires i <= |c|
  {
    c[..i] + Incremented(c[i..])
  }

  lemma CarryAt(c: seq<Byte>, i: nat)
    requires i < |c|
    ensures c[i] != 255 ==> Carried(c, i) == c[i := c[i] + 1]
    ensures c[i] == 255 ==> Carried(c, i) == Carried(c[i := 0], i + 1)
  {
    var tail := c[i..];
    assert tail[1..] == c[i + 1..];
    if c[i] != 255 {
      assert Incremented(tail) == [c[i] + 1] + c[i + 1..];
      assert c[..i] + ([c[i] + 1] + c[i + 1..]) == c[i := c[i] + 1];
    } else {
      var next := c[i := 0];
      assert next[..i + 1] == c[..i] + [0] && next[i + 1..] == c[i + 1..];
      Assoc(c[..i], [0], Incremented(c[i + 1..]));
    }
  }

  lemma CarriedEnds(c: seq<Byte>)
    ensures Carried(c, 0) == Incremented(c) && Carried(c, |c|) == c
  {
    assert c[..0] == [] && c[0..] == c && c[|c|..] == [] && c[..|c|] == c;
  }

  /** One call of the generator: carry into the next byte as long as a byte wraps to zero. */
  method Increase(c: array<Byte>)
    modifies c
    ensures c[..] == Incremented(old(c[..]))
  {
    ghost var was, now := c[..], c[..];
    CarriedEnds(was);
    for i := 0 to c.Length
      invariant |now| == c.Length && forall j :: 0 <= j < c.Length ==> c[j] == now[j]
      invariant Carried(now, i) == Carried(was, 0)
    {
      CarryAt(now, i);
      c[i] := (c[i] as int + 1) % 256;
      now := now[i := c[i]];
      if c[i] != 0 {
        assert c[..] == now;
        return;
      }
    }
    CarriedEnds(now);
    assert c[..] == now;
  }

  lemma {:induction false} IncrementedValue(c: seq<Byte>)
    ensures Value(Incremented(c)) == (Value(c) + 1) % Power(|c|)
  {
    if c == [] {
    } else if c[0] == 255 {
      var r := Incremented(c);
      assert r[1..] == Incremented(c[1..]);
      IncrementedValue(c[1..]);
      Carry(Value(c[1..]), Power(|c| - 1));
    } else {
      var r := Incremented(c);
      assert r[1..] == c[1..];
      assert Value(c[1..]) + 1 <= Power(|c| - 1);
      Small(Value(c) + 1, Power(|c|));
    }
  }

  lemma Carry(v: nat, m: nat)
    requires v < m
    ensures 256 * ((v + 1) % m) == (256 * v + 256) % (256 * m)
  {
    if v + 1 == m {
      Multiple(1, 0, m);
      Multiple(1, 0, 256 * m);
      assert 256 * v + 256 == 256 * m;
    } else {
      Small(v + 1, m);
      Small(256 * v + 256, 256 * m);
    }
  }

  /** The nonce after k calls. */
  function NonceAfter(c: seq<Byte>, k: nat): (r: seq<Byte>)
    ensures |r| == |c|
  {
    if k == 0 then c else Incremented(NonceAfter(c, k - 1))
  }

  lemma {:induction false} NonceValue(c: seq<Byte>, k: nat)
    ensures Value(NonceAfter(c, k)) == (Value(c) + k) % Power(|c|)
  {
    if k == 0 {
      Small(Value(c), Power(|c|));
    } else {
      NonceValue(c, k - 1);
      IncrementedValue(NonceAfter(c, k - 1));
      ModNext(Value(c) + k - 1, Power(|c|));
    }
  }

  /** No nonce is used twice within 256^length calls. */
  lemma NonceFresh(c: seq<Byte>, i: nat, j: nat)
    requires i < j < i + Power(|c|)
    ensures NonceAfter(c, i) != NonceAfter(c, j)
  {
    NonceValue(c, i);
    NonceValue(c, j);
    ModDistinct(Value(c), i, j, Power(|c|));
  }

  // Size fields.

  function BigEndian(n: nat): (b: seq<Byte>)
    requires n < 65536
    ensures |b| == 2
  {
    [n / 256, n % 256]
  }

  function FromBigEndian(b: seq<Byte>): (n: nat)
    requires |b| == 2
    ensures n < 65536
  {
    (b[0] as int) * 256 + b[1] as int
  }

  lemma BigEndianInverts(n: nat)
    requires n < 65536
    ensures FromBigEndian(BigEndian(n)) == n
  {
  }

  // The cipher: an AEAD under one key.

  datatype Aead = Aead(
    overhead: nat,
    seal: (seq<Byte>, seq<Byte>) -> seq<Byte>,
    open: (seq<Byte>, seq<Byte>) -> Option<seq<Byte>>)

  ghost predicate Inverts(a: Aead) {
    forall nonce, p {:trigger a.seal(nonce, p)} ::
      |a.seal(nonce, p)| == |p| + a.overhead && a.open(nonce, a.seal(nonce, p)) == Some(p)
  }

  /** A cipher that only appends its overhead. */
  function Plain(overhead: nat): Aead {
    Aead(
      overhead,
      (nonce: seq<Byte>, p: seq<Byte>) => p + seq(overhead, _ => 0),
      (nonce: seq<Byte>, c: seq<Byte>) => if |c| < overhead then None else Some(c[..|c| - overhead]))
  }

  /** What is asked of a cipher can be met, with any overhead. */
  lemma PlainInverts(overhead: nat)
    ensures Inverts(Plain(overhead)) && Plain(overhead).overhead == overhead
  {
    var a := Plain(overhead);
    forall nonce, p: seq<Byte>
      ensures |a.seal(nonce, p)| == |p| + a.overhead && a.open(nonce, a.seal(nonce, p)) == Some(p)
    {
      assert (p + seq(overhead, _ => 0))[..|p|] == p;
    }
  }

  lemma Inverted(a: Aead, nonce: seq<Byte>, p: seq<Byte>)
    requires Inverts(a)
    ensures |a.seal(nonce, p)| == |p| + a.overhead && a.open(nonce, a.seal(nonce, p)) == Some(p)
  {
  }

  /** The number of nonces an authenticator has used. */
  datatype Counter = Counter(used: nat)

  function Nonce(nonce: seq<Byte>, g: Counter): seq<Byte> {
    NonceAfter(nonce, g.used + 1)
  }

  function Used(g: Counter): Counter {
    Counter(g.used + 1)
  }

  /** AEADChunkSizeParser: the size less the overhead, in 16-bit arithmetic, sealed. */
  function EncodeSize(a: Aead, nonce: seq<Byte>, n: nat): seq<Byte> {
    a.seal(nonce, BigEndian((n - a.overhead) % 65536))
  }

  function DecodeSize(a: Aead, nonce: seq<Byte>, b: seq<Byte>): Option<nat> {
    match a.open(nonce, b)
    case None => None
    case Some(v) => if |v| == 2 then Some((FromBigEndian(v) + a.overhead) % 65536) else None
  }

  lemma SizeInverts(a: Aead, nonce: seq<Byte>, n: nat)
    requires Inverts(a) && n < 65536
    ensures |EncodeSize(a, nonce, n)| == 2 + a.overhead
    ensures DecodeSize(a, nonce, EncodeSize(a, nonce, n)) == Some(n)
  {
    Inverted(a, nonce, BigEndian((n - a.overhead) % 65536));
    BigEndianInverts((n - a.overhead) % 65536);
  }

  function NoPadding<G>(g: G): (nat, G) {
    (0, g)
  }

  /**
   Shadowsocks: one authenticator seals the size field and the payload, so that both take their nonces from the same
   counter. There is no padding.
   */
  function Shadowsocks(a: Aead, nonce: seq<Byte>): Suite<Counter> {
    Suite(
      a.overhead, 2 + a.overhead, 0,
      NoPadding,
      (g: Counter, n: nat) => (EncodeSize(a, Nonce(nonce, g), n), Used(g)),
      (g: Counter, b: seq<Byte>) => (DecodeSize(a, Nonce(nonce, g), b), Used(g)),
      (g: Counter, p: seq<Byte>) => (a.seal(Nonce(nonce, g), p), Used(g)),
      (g: Counter, c: seq<Byte>) => (a.open(Nonce(nonce, g), c), Used(g)))
  }

  lemma ShadowsocksLawful(a: Aead, nonce: seq<Byte>)
    requires Inverts(a) && 2 * a.overhead + 2 < SIZE
    ensures Lawful(Shadowsocks(a, nonce))
  {
    var s := Shadowsocks(a, nonce);
    forall g: Counter, n: nat | n < 65536
      ensures |s.encode(g, n).0| == s.sizeBytes && s.decode(g, s.encode(g, n).0) == (Some(n), s.encode(g, n).1)
    {
      SizeInverts(a, Nonce(nonce, g), n);
    }
    forall g: Counter, p: seq<Byte>
      ensures |s.seal(g, p).0| == |p| + s.overhead && s.open(g, s.seal(g, p).0) == (Some(p), s.seal(g, p).1)
    {
      Inverted(a, Nonce(nonce, g), p);
    }
  }

  // VMess: the hash stream masks the size field and gives the padding lengths.

  function Xor(a: nat, b: nat, bits: nat): nat
    decreases bits, a
  {
    if bits == 0 then 0 else 2 * Xor(a / 2, b / 2, bits - 1) + (a % 2 + b % 2) % 2
  }

  function Two(n: nat): (p: nat)
    ensures p > 0
  {
    if n == 0 then 1 else 2 * Two(n - 1)
  }

  lemma Halves(x: nat, bit: nat)
    requires bit < 2
    ensures (2 * x + bit) / 2 == x && (2 * x + bit) % 2 == bit
  {
  }

  lemma Bits(a: nat, b: nat)
    requires a < 2 && b < 2
    ensures (a + (a + b) % 2) % 2 == b
  {
  }

  lemma {:induction false} XorTwice(a: nat, b: nat, bits: nat)
    requires b < Two(bits)
    ensures Xor(a, b, bits) < Two(bits) && Xor(a, Xor(a, b, bits), bits) == b
  {
    if bits > 0 {
      XorTwice(a / 2, b / 2, bits - 1);
      var x, bit := Xor(a / 2, b / 2, bits - 1), (a % 2 + b % 2) % 2;
      Halves(x, bit);
      var y := Xor(a, b, bits);
      assert y == 2 * x + bit;
      assert Xor(a, y, bits) == 2 * Xor(a / 2, x, bits - 1) + (a % 2 + bit) % 2;
      Bits(a % 2, b % 2);
    }
  }

  type Word = n: int | 0 <= n < 65536

  function Masked(mask: Word, n: nat): (r: Word) {
    Xor(mask, n, 16) % 65536
  }

  lemma TwoToSixteen()
    ensures Two(16) == 65536
  {
    assert Two(2) == 4;
    assert Two(4) == 16;
    assert Two(6) == 64;
    assert Two(8) == 256;
    assert Two(10) == 1024;
    assert Two(12) == 4096;
    assert Two(14) == 16384;
  }

  lemma XorWord(a: nat, b: nat, bits: nat)
    requires b < 65536 == Two(bits)
    ensures Xor(a, b, bits) % 65536 == Xor(a, b, bits) && Xor(a, Xor(a, b, bits) % 65536, bits) % 65536 == b
  {
    XorTwice(a, b, bits);
    Small(Xor(a, b, bits), 65536);
  }

  lemma MaskedTwice(mask: Word, n: nat)
    requires n < 65536
    ensures Masked(mask, Masked(mask, n)) == n
  {
    TwoToSixteen();
    XorWord(mask, n, 16);
  }

  /** The position in the hash stream and the number of data nonces used. */
  datatype Session = Session(mask: nat, count: nat)

  function Mask(g: Session): Session {
    g.(mask := g.mask + 1)
  }

  function Count(g: Session): Session {
    g.(count := g.count + 1)
  }

  function Draw(stream: nat -> Word, globalPadding: bool, g: Session): (nat, Session) {
    if globalPadding then (stream(g.mask) % 64, Mask(g)) else (0, g)
  }

  function Unmask(word: Word, b: seq<Byte>): Option<nat> {
    if |b| == 2 then Some(Masked(word, FromBigEndian(b))) else None
  }

  /**
   VMess with chunk masking: the size parser is also the padding generator, so a drawn padding length and a mask come
   from the same stream.
   */
  function VMess(a: Aead, nonce: nat -> seq<Byte>, stream: nat -> Word, globalPadding: bool): Suite<Session> {
    Suite(
      a.overhead, 2, if globalPadding then 64 else 0,
      (g: Session) => Draw(stream, globalPadding, g),
      (g: Session, n: nat) => (BigEndian(Masked(stream(g.mask), n)), Mask(g)),
      (g: Session, b: seq<Byte>) => (Unmask(stream(g.mask), b), Mask(g)),
      (g: Session, p: seq<Byte>) => (a.seal(nonce(g.count), p), Count(g)),
      (g: Session, c: seq<Byte>) => (a.open(nonce(g.count), c), Count(g)))
  }

  lemma VMessLawful(a: Aead, nonce: nat -> seq<Byte>, stream: nat -> Word, globalPadding: bool)
    requires Inverts(a) && a.overhead + 66 < SIZE
    ensures Lawful(VMess(a, nonce, stream, globalPadding))
  {
    var s := VMess(a, nonce, stream, globalPadding);
    forall g: Session, n: nat | n < 65536
      ensures |s.encode(g, n).0| == s.sizeBytes && s.decode(g, s.encode(g, n).0) == (Some(n), s.encode(g, n).1)
    {
      BigEndianInverts(Masked(stream(g.mask), n));
      MaskedTwice(stream(g.mask), n);
    }
    forall g: Session, p: seq<Byte>
      ensures |s.seal(g, p).0| == |p| + s.overhead && s.open(g, s.seal(g, p).0) == (Some(p), s.seal(g, p).1)
    {
      Inverted(a, nonce(g.count), p);
    }
  }
}
