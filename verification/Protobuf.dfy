/**
 The wire functions that the geosite decoder calls (ConsumeTag, ConsumeVarint, ConsumeBytes and ConsumeFieldValue of the
 protowire package), and that they meet what the decoder asks of them.
 */
module Protobuf {
  import opened Buffers
  import opened GeoSite

  const FIXED64 := 1
  const START_GROUP := 3
  const END_GROUP := 4
  const FIXED32 := 5

  const BAD_NUMBER := -2
  const OVERFLOW := -3
  const RESERVED := -4
  const BAD_END := -5
  const TOO_DEEP := -6

  const RECURSION_LIMIT := 10000

  /** Seven bits a byte, the lowest first, up to ten bytes and 64 bits. */
  function VarintFrom(b: seq<Byte>, i: nat): (r: Parsed<nat>)
    requires i <= 9
    ensures r.Got? ==> i < r.length <= |b|
    decreases 9 - i
  {
    if i >= |b| then Truncated
    else if i == 9 then (if b[9] < 2 then Got(b[9], 10) else Malformed(OVERFLOW))
    else if b[i] < 128 then Got(b[i], i + 1)
    else
      match VarintFrom(b, i + 1)
      case Got(v, n) => Got(v * 128 + b[i] - 128, n)
      case Truncated => Truncated
      case Malformed(c) => Malformed(c)
  }

  function ConsumeVarint(b: seq<Byte>): (r: Parsed<nat>)
    ensures r.Got? ==> 0 < r.length <= |b|
  {
    VarintFrom(b, 0)
  }

  function ConsumeTag(b: seq<Byte>): (r: Parsed<Tag>)
    ensures r.Got? ==> 0 < r.length <= |b|
  {
    match ConsumeVarint(b)
    case Got(v, n) => if 1 <= v / 8 <= 0x7FFF_FFFF then Got(Tag(v / 8, v % 8), n) else Malformed(BAD_NUMBER)
    case Truncated => Truncated
    case Malformed(c) => Malformed(c)
  }

  function ConsumeBytes(b: seq<Byte>): (r: Parsed<seq<Byte>>)
    ensures r.Got? ==> 0 < r.length <= |b|
  {
    match ConsumeVarint(b)
    case Got(m, n) => if m > |b| - n then Truncated else Got(b[n..n + m], n + m)
    case Truncated => Truncated
    case Malformed(c) => Malformed(c)
  }

  function ConsumeFixed(b: seq<Byte>, n: nat): Parsed<nat> {
    if |b| < n then Truncated else Got(0, n)
  }

  /** The length alone, behind n bytes more. */
  function Behind<T>(p: Parsed<T>, n: nat): Parsed<nat> {
    match p
    case Got(_, m) => Got(0, n + m)
    case Truncated => Truncated
    case Malformed(c) => Malformed(c)
  }

  function ConsumeValue(t: Tag, b: seq<Byte>, depth: int): (r: Parsed<nat>)
    ensures r.Got? ==> 0 < r.length <= |b|
    decreases |b|, 1
  {
    if t.typ == VARINT then Behind(ConsumeVarint(b), 0)
    else if t.typ == FIXED32 then ConsumeFixed(b, 4)
    else if t.typ == FIXED64 then ConsumeFixed(b, 8)
    else if t.typ == BYTES then Behind(ConsumeBytes(b), 0)
    else if t.typ == START_GROUP then (if depth < 0 then Malformed(TOO_DEEP) else ConsumeGroup(t.num, b, depth))
    else if t.typ == END_GROUP then Malformed(BAD_END)
    else Malformed(RESERVED)
  }

  /** The fields of a group up to its end. */
  function ConsumeGroup(num: nat, b: seq<Byte>, depth: int): (r: Parsed<nat>)
    ensures r.Got? ==> 0 < r.length <= |b|
    decreases |b|, 0
  {
    match ConsumeTag(b)
    case Truncated => Truncated
    case Malformed(c) => Malformed(c)
    case Got(t, n) =>
      if t.typ == END_GROUP then (if t.num == num then Got(0, n) else Malformed(BAD_END))
      else
        match ConsumeValue(t, b[n..], depth - 1)
        case Truncated => Truncated
        case Malformed(c) => Malformed(c)
        case Got(_, m) => Behind(ConsumeGroup(num, b[n + m..], depth), n + m)
  }

  function Protowire(utf8: seq<Byte> -> bool): Wire {
    Wire(ConsumeTag, ConsumeVarint, ConsumeBytes, (t, b) => ConsumeValue(t, b, RECURSION_LIMIT), utf8)
  }

  lemma {:induction false} VarintStable(b: seq<Byte>, k: nat, i: nat)
    requires k <= |b| && i <= 9
    ensures StableAt(VarintFrom(b, i), VarintFrom(b[..k], i), |b|, k)
    decreases 9 - i
  {
    if i < k && i < 9 && b[i] >= 128 { VarintStable(b, k, i + 1); }
  }

  lemma TagStable(b: seq<Byte>, k: nat)
    requires k <= |b|
    ensures StableAt(ConsumeTag(b), ConsumeTag(b[..k]), |b|, k)
  {
    VarintStable(b, k, 0);
  }

  lemma BytesStable(b: seq<Byte>, k: nat)
    requires k <= |b|
    ensures StableAt(ConsumeBytes(b), ConsumeBytes(b[..k]), |b|, k)
  {
    VarintStable(b, k, 0);
    if ConsumeBytes(b).Got? && ConsumeBytes(b).length <= k {
      var n := ConsumeVarint(b).length;
      assert b[..k][n..ConsumeBytes(b).length] == b[n..ConsumeBytes(b).length];
    }
  }

  lemma Window(b: seq<Byte>, k: nat, n: nat)
    requires n <= k <= |b|
    ensures b[..k][n..] == b[n..][..k - n]
  {
  }

  lemma BehindStable(whole: Parsed<nat>, part: Parsed<nat>, size: nat, k: nat, n: nat)
    requires n <= k <= size && StableAt(whole, part, size - n, k - n)
    ensures StableAt(Behind(whole, n), Behind(part, n), size, k)
  {
  }

  lemma {:induction false} ValueStable(t: Tag, b: seq<Byte>, k: nat, depth: int)
    requires k <= |b|
    ensures StableAt(ConsumeValue(t, b, depth), ConsumeValue(t, b[..k], depth), |b|, k)
    decreases |b|, 1
  {
    VarintStable(b, k, 0);
    BytesStable(b, k);
    if t.typ == START_GROUP && depth >= 0 { GroupStable(t.num, b, k, depth); }
  }

  lemma {:induction false} GroupStable(num: nat, b: seq<Byte>, k: nat, depth: int)
    requires k <= |b|
    ensures StableAt(ConsumeGroup(num, b, depth), ConsumeGroup(num, b[..k], depth), |b|, k)
    decreases |b|, 0
  {
    TagStable(b, k);
    if ConsumeTag(b).Got? && ConsumeTag(b).length <= k {
      var t, n := ConsumeTag(b).value, ConsumeTag(b).length;
      Window(b, k, n);
      if t.typ != END_GROUP {
        ValueStable(t, b[n..], k - n, depth - 1);
        var value := ConsumeValue(t, b[n..], depth - 1);
        if value.Got? && value.length <= k - n {
          var m := n + value.length;
          Window(b, k, m);
          GroupStable(num, b[m..], k - m, depth);
          BehindStable(ConsumeGroup(num, b[m..], depth), ConsumeGroup(num, b[m..][..k - m], depth), |b|, k, m);
        }
      }
    }
  }

  /** The decoder may run on the wire functions: what they say of the first bytes they say of all of them. */
  lemma ProtowireLawful(utf8: seq<Byte> -> bool)
    ensures Lawful(Protowire(utf8))
  {
    var w := Protowire(utf8);
    forall b, k | 0 <= k <= |b| ensures StableAt(w.tag(b), w.tag(b[..k]), |b|, k) { TagStable(b, k); }
    forall b, k | 0 <= k <= |b| ensures StableAt(w.varint(b), w.varint(b[..k]), |b|, k) { VarintStable(b, k, 0); }
    forall b, k | 0 <= k <= |b| ensures StableAt(w.bytes(b), w.bytes(b[..k]), |b|, k) { BytesStable(b, k); }
    forall t, b, k | 0 <= k <= |b| ensures StableAt(w.other(t, b), w.other(t, b[..k]), |b|, k) {
      ValueStable(t, b, k, RECURSION_LIMIT);
    }
  }
}
