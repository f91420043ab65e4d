/**
 What the proxies put on the wire: the fields of every chunk, each with the nonce that seals it, written out without the
 states that the two ends step (common/crypto/auth.go, common/crypto/chunk.go, proxy/vmess/encoding/client.go).
 */
module AeadWire {

  import opened AeadStream
  import opened AeadSuites
  import opened Arithmetic
  import opened Buffers

  // Shadowsocks.

  ghost predicate Short(ps: seq<seq<Byte>>) {
    forall i :: 0 <= i < |ps| ==> |ps[i]| < 65536
  }

  /** Chunk k and those after it: the size field under nonce 2k + 1 of the counter, the payload under nonce 2k + 2. */
  ghost function ShadowsocksWire(a: Aead, nonce: seq<Byte>, ps: seq<seq<Byte>>, k: nat): seq<Byte>
    requires Short(ps)
  {
    if ps == [] then []
    else
      a.seal(NonceAfter(nonce, 2 * k + 1), [|ps[0]| / 256, |ps[0]| % 256])
      + (a.seal(NonceAfter(nonce, 2 * k + 2), ps[0]) + ShadowsocksWire(a, nonce, ps[1..], k + 1))
  }

  lemma PlainsRest(bs: seq<Block>)
    requires bs != []
    ensures Plains(bs)[1..] == Plains(bs[1..])
  {
  }

  lemma {:induction false} ChunksShort<G(!new)>(s: Suite<G>, g: G, bs: seq<Block>)
    requires FitAll(s, g, bs)
    ensures Short(Plains(bs))
  {
    if bs != [] {
      ChunksShort(s, Next(s, g, bs[0]), bs[1..]);
      PlainsRest(bs);
      forall i | 0 <= i < |bs|
        ensures |Plains(bs)[i]| < 65536
      {
        if i > 0 {
          assert Plains(bs)[i] == Plains(bs[1..])[i - 1];
        }
      }
    }
  }

  lemma ShadowsocksChunk(a: Aead, nonce: seq<Byte>, k: nat, b: Block)
    requires Fits(Shadowsocks(a, nonce), Counter(2 * k), b)
    ensures Header(Shadowsocks(a, nonce), Counter(2 * k), b)
         == a.seal(NonceAfter(nonce, 2 * k + 1), [|b.plain| / 256, |b.plain| % 256])
    ensures Cipher(Shadowsocks(a, nonce), Counter(2 * k), b) == a.seal(NonceAfter(nonce, 2 * k + 2), b.plain)
    ensures Next(Shadowsocks(a, nonce), Counter(2 * k), b) == Counter(2 * (k + 1)) && b.noise == []
  {
    var s, g := Shadowsocks(a, nonce), Counter(2 * k);
    Small(|b.plain|, 65536);
    assert AfterHeader(s, g, b) == Counter(2 * k + 1);
    assert Nonce(nonce, Counter(2 * k + 1)) == NonceAfter(nonce, 2 * k + 2);
    assert Used(Counter(2 * k + 1)) == Counter(2 * (k + 1));
  }

  lemma {:induction false} ShadowsocksBytes(a: Aead, nonce: seq<Byte>, bs: seq<Block>, k: nat)
    requires FitAll(Shadowsocks(a, nonce), Counter(2 * k), bs) && Short(Plains(bs))
    ensures Bytes(Shadowsocks(a, nonce), Counter(2 * k), bs) == ShadowsocksWire(a, nonce, Plains(bs), k)
  {
    if bs != [] {
      var s := Shadowsocks(a, nonce);
      ShadowsocksChunk(a, nonce, k, bs[0]);
      PlainsRest(bs);
      ShadowsocksBytes(a, nonce, bs[1..], k + 1);
      var header, cipher := Header(s, Counter(2 * k), bs[0]), Cipher(s, Counter(2 * k), bs[0]);
      assert cipher + bs[0].noise == cipher;
      Assoc(header, cipher, Bytes(s, Counter(2 * (k + 1)), bs[1..]));
    }
  }

  /** The bytes are the sealed fields of chunks whose plaintext up to the end is that of the writes. */
  ghost predicate OnWire(a: Aead, nonce: seq<Byte>, ps: seq<seq<Byte>>, sent: seq<Byte>, writes: seq<seq<seq<Byte>>>) {
    Short(ps) && sent == ShadowsocksWire(a, nonce, ps, 0) && UpToEnd(ps) == UpToEnd(Contents(writes))
  }

  /** NewEncryptionWriter and any number of writes. */
  method SendShadowsocks(a: Aead, nonce: seq<Byte>, writes: seq<seq<seq<Byte>>>, random: (nat, nat, nat) -> Byte)
    returns (sent: seq<Byte>)
    requires Inverts(a) && 2 * a.overhead + 2 < SIZE
    ensures exists ps :: OnWire(a, nonce, ps, sent, writes)
  {
    ShadowsocksLawful(a, nonce);
    ghost var bs;
    sent, bs := SendAll(Shadowsocks(a, nonce), Counter(0), writes, random);
    ChunksShort(Shadowsocks(a, nonce), Counter(0), bs);
    assert Counter(2 * 0) == Counter(0);
    ShadowsocksBytes(a, nonce, bs, 0);
    assert OnWire(a, nonce, Plains(bs), sent, writes);
  }

  /** Two sealed fields share a nonce exactly if their numbers differ by a multiple of what the counter can hold. */
  lemma NonceShared(nonce: seq<Byte>, i: nat, j: nat)
    ensures NonceAfter(nonce, i) == NonceAfter(nonce, j) <==> i % Power(|nonce|) == j % Power(|nonce|)
  {
    NonceValue(nonce, i);
    NonceValue(nonce, j);
    ModShift(Value(nonce), i, j, Power(|nonce|));
    if Value(NonceAfter(nonce, i)) == Value(NonceAfter(nonce, j)) {
      ValueInjective(NonceAfter(nonce, i), NonceAfter(nonce, j));
    }
  }

  lemma {:induction false} ValueInjective(c: seq<Byte>, d: seq<Byte>)
    requires |c| == |d| && Value(c) == Value(d)
    ensures c == d
  {
    if c != [] {
      Halved(c[0], Value(c[1..]), d[0], Value(d[1..]));
      ValueInjective(c[1..], d[1..]);
      assert c == [c[0]] + c[1..];
      assert d == [d[0]] + d[1..];
    }
  }

  lemma Halved(a: Byte, x: nat, b: Byte, y: nat)
    requires a + 256 * x == b + 256 * y
    ensures a == b && x == y
  {
  }

  /** No two of the 2n fields of n chunks share a nonce while the counter can hold 2n values. */
  lemma FieldsFresh(nonce: seq<Byte>, n: nat, i: nat, j: nat)
    requires 2 * n <= Power(|nonce|) && 1 <= i < j <= 2 * n
    ensures NonceAfter(nonce, i) != NonceAfter(nonce, j)
  {
    NonceFresh(nonce, i, j);
  }

  lemma {:induction false} AllOnes(n: nat)
    ensures Value(seq(n, _ => 255)) == Power(n) - 1
  {
    if n > 0 {
      assert seq(n, _ => 255 as Byte)[1..] == seq(n - 1, _ => 255);
      AllOnes(n - 1);
    }
  }

  /** GenerateAEADNonceWithSize: field k of a connection, from 0, is sealed under the little-endian number k. */
  lemma FieldNonce(n: nat, k: nat)
    ensures Value(NonceAfter(seq(n, _ => 255), k + 1)) == k % Power(n)
  {
    AllOnes(n);
    NonceValue(seq(n, _ => 255), k + 1);
    Multiple(1, k % Power(n), Power(n));
    assert Power(n) - 1 + (k + 1) == (k / Power(n) + 1) * Power(n) + k % Power(n) by {
      Distribute(-1, k / Power(n), Power(n));
    }
    Multiple(k / Power(n) + 1, k % Power(n), Power(n));
  }

  // VMess.

  /** GenerateChunkNonce: the first two bytes are a 16-bit count, the others those of the initial vector. */
  function ChunkNonce(iv: seq<Byte>, size: nat, k: nat): (nonce: seq<Byte>)
    requires 2 <= size <= |iv|
    ensures |nonce| == size
  {
    (BigEndian(k % 65536) + iv[2..])[..size]
  }

  /** The count wraps: two chunks share a nonce exactly if their numbers differ by a multiple of 65536. */
  lemma ChunkNonceShared(iv: seq<Byte>, size: nat, i: nat, j: nat)
    requires 2 <= size <= |iv|
    ensures ChunkNonce(iv, size, i) == ChunkNonce(iv, size, j) <==> i % 65536 == j % 65536
  {
    var c, d := ChunkNonce(iv, size, i), ChunkNonce(iv, size, j);
    assert c[..2] == BigEndian(i % 65536) && d[..2] == BigEndian(j % 65536);
    BigEndianInverts(i % 65536);
    BigEndianInverts(j % 65536);
  }

  lemma HigherBit(x: nat, i: nat)
    requires i > 0
    ensures x / Two(i) == (x / 2) / Two(i - 1)
  {
    DivideTwice(x, Two(i - 1));
  }

  lemma XorHalf(a: nat, b: nat, bits: nat)
    requires bits > 0
    ensures Xor(a, b, bits) / 2 == Xor(a / 2, b / 2, bits - 1)
    ensures Xor(a, b, bits) % 2 == 1 <==> a % 2 != b % 2
  {
    Halves(Xor(a / 2, b / 2, bits - 1), (a % 2 + b % 2) % 2);
  }

  /** Bit i of a masked size is set exactly if bit i of one of the mask and the size is set. */
  lemma {:induction false} XorBit(a: nat, b: nat, bits: nat, i: nat)
    requires i < bits
    ensures (Xor(a, b, bits) / Two(i)) % 2 == 1 <==> (a / Two(i)) % 2 != (b / Two(i)) % 2
  {
    XorHalf(a, b, bits);
    if i > 0 {
      XorBit(a / 2, b / 2, bits - 1, i - 1);
      HigherBit(Xor(a, b, bits), i);
      HigherBit(a, i);
      HigherBit(b, i);
    }
  }

  /** The size of a masked size field read back bit by bit, from the mask that hid it. */
  lemma MaskedBit(mask: Word, n: nat, i: nat)
    requires i < 16 && n < 65536
    ensures (Masked(mask, n) / Two(i)) % 2 == 1 <==> (mask / Two(i)) % 2 != (n / Two(i)) % 2
  {
    TwoToSixteen();
    XorTwice(mask, n, 16);
    Small(Xor(mask, n, 16), 65536);
    XorBit(mask, n, 16, i);
  }

  /**
   Chunk k and those after it. With padding the hash stream gives two words a chunk, the padding length and the mask of
   the size; without it only the mask. The payload is sealed under data nonce k.
   */
  ghost function VMessWire(a: Aead, nonce: nat -> seq<Byte>, stream: nat -> Word, padded: bool, bs: seq<Block>, k: nat)
    : seq<Byte>
    requires forall i :: 0 <= i < |bs| ==> |bs[i].plain| + a.overhead + |bs[i].noise| < 65536
  {
    if bs == [] then []
    else
      var word := Masked(stream(if padded then 2 * k + 1 else k), |bs[0].plain| + a.overhead + |bs[0].noise|);
      [word / 256, word % 256]
      + (a.seal(nonce(k), bs[0].plain) + (bs[0].noise + VMessWire(a, nonce, stream, padded, bs[1..], k + 1)))
  }

  /** Every chunk is followed by as many bytes as its word of the hash stream says, and none without padding. */
  ghost predicate Padded(a: Aead, stream: nat -> Word, padded: bool, bs: seq<Block>, k: nat) {
    forall i :: 0 <= i < |bs| ==>
      && |bs[i].plain| + a.overhead + |bs[i].noise| < 65536
      && |bs[i].noise| == (if padded then stream(2 * (k + i)) % 64 else 0)
  }

  function SessionAt(padded: bool, k: nat): Session {
    Session(if padded then 2 * k else k, k)
  }

  lemma VMessChunk(a: Aead, nonce: nat -> seq<Byte>, stream: nat -> Word, padded: bool, k: nat, b: Block)
    requires Fits(VMess(a, nonce, stream, padded), SessionAt(padded, k), b)
    ensures |b.noise| == (if padded then stream(2 * k) % 64 else 0)
    ensures |b.plain| + a.overhead + |b.noise| < 65536
    ensures Header(VMess(a, nonce, stream, padded), SessionAt(padded, k), b)
         == BigEndian(Masked(stream(if padded then 2 * k + 1 else k), |b.plain| + a.overhead + |b.noise|))
    ensures Cipher(VMess(a, nonce, stream, padded), SessionAt(padded, k), b) == a.seal(nonce(k), b.plain)
    ensures Next(VMess(a, nonce, stream, padded), SessionAt(padded, k), b) == SessionAt(padded, k + 1)
  {
    var s, g := VMess(a, nonce, stream, padded), SessionAt(padded, k);
    var h := Session(if padded then 2 * k + 1 else k, k);
    assert AfterDraw(s, g) == h;
    assert AfterHeader(s, g, b) == Mask(h);
    assert Mask(h).count == k;
    assert Count(Mask(h)) == SessionAt(padded, k + 1);
  }

  lemma VMessFirst(a: Aead, nonce: nat -> seq<Byte>, stream: nat -> Word, padded: bool, bs: seq<Block>, k: nat, rest: seq<Byte>)
    requires bs != [] && Padded(a, stream, padded, bs, k) && Fits(VMess(a, nonce, stream, padded), SessionAt(padded, k), bs[0])
    requires Padded(a, stream, padded, bs[1..], k + 1) && rest == VMessWire(a, nonce, stream, padded, bs[1..], k + 1)
    ensures Frame(VMess(a, nonce, stream, padded), SessionAt(padded, k), bs[0]) + rest
         == VMessWire(a, nonce, stream, padded, bs, k)
  {
    var s, g := VMess(a, nonce, stream, padded), SessionAt(padded, k);
    VMessChunk(a, nonce, stream, padded, k, bs[0]);
    Regroup(Header(s, g, bs[0]), Cipher(s, g, bs[0]), bs[0].noise, rest);
  }

  lemma {:induction false} VMessBytes(a: Aead, nonce: nat -> seq<Byte>, stream: nat -> Word, padded: bool, bs: seq<Block>,
                                      k: nat)
    requires FitAll(VMess(a, nonce, stream, padded), SessionAt(padded, k), bs)
    ensures Padded(a, stream, padded, bs, k)
    ensures Bytes(VMess(a, nonce, stream, padded), SessionAt(padded, k), bs) == VMessWire(a, nonce, stream, padded, bs, k)
  {
    if bs != [] {
      VMessChunk(a, nonce, stream, padded, k, bs[0]);
      VMessBytes(a, nonce, stream, padded, bs[1..], k + 1);
      PaddedNext(a, stream, padded, bs, k);
      VMessFirst(a, nonce, stream, padded, bs, k, VMessWire(a, nonce, stream, padded, bs[1..], k + 1));
    }
  }

  lemma Regroup(header: seq<Byte>, cipher: seq<Byte>, noise: seq<Byte>, rest: seq<Byte>)
    ensures (header + (cipher + noise)) + rest == header + (cipher + (noise + rest))
  {
    Assoc(header, cipher + noise, rest);
    Assoc(cipher, noise, rest);
  }

  lemma PaddedNext(a: Aead, stream: nat -> Word, padded: bool, bs: seq<Block>, k: nat)
    requires bs != [] && Padded(a, stream, padded, bs[1..], k + 1) && Padded(a, stream, padded, [bs[0]], k)
    ensures Padded(a, stream, padded, bs, k)
  {
    forall i | 0 <= i < |bs|
      ensures |bs[i].plain| + a.overhead + |bs[i].noise| < 65536
      ensures |bs[i].noise| == (if padded then stream(2 * (k + i)) % 64 else 0)
    {
      if i == 0 {
        assert [bs[0]][0] == bs[0];
      } else {
        assert bs[1..][i - 1] == bs[i];
      }
    }
  }

  ghost predicate OnVMessWire(a: Aead, iv: seq<Byte>, size: nat, stream: nat -> Word, padded: bool, bs: seq<Block>,
                              sent: seq<Byte>, writes: seq<seq<seq<Byte>>>)
    requires 2 <= size <= |iv|
  {
    && Padded(a, stream, padded, bs, 0)
    && sent == VMessWire(a, i => ChunkNonce(iv, size, i), stream, padded, bs, 0)
    && UpToEnd(Plains(bs)) == UpToEnd(Contents(writes))
  }

  /** EncodeRequestBody with chunk masking and any number of writes. */
  method SendVMess(a: Aead, iv: seq<Byte>, size: nat, stream: nat -> Word, padded: bool, writes: seq<seq<seq<Byte>>>,
                   random: (nat, nat, nat) -> Byte)
    returns (sent: seq<Byte>)
    requires Inverts(a) && a.overhead + 66 < SIZE && 2 <= size <= |iv|
    ensures exists bs :: OnVMessWire(a, iv, size, stream, padded, bs, sent, writes)
  {
    var nonce := (i: nat) => ChunkNonce(iv, size, i);
    VMessLawful(a, nonce, stream, padded);
    ghost var bs;
    sent, bs := SendAll(VMess(a, nonce, stream, padded), Session(0, 0), writes, random);
    assert SessionAt(padded, 0) == Session(0, 0);
    VMessBytes(a, nonce, stream, padded, bs, 0);
    assert OnVMessWire(a, iv, size, stream, padded, bs, sent, writes);
  }
}
