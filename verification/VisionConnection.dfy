/**
 A whole Vision connection: every write of the sender (proxy/proxy.go, VisionWriter.WriteMultiBuffer) extends one
 padded stream, and however that stream is cut up the receiver gives back what was written.
 */
module VisionConnection {
  import opened Buffers
  import opened Options
  import opened Vision
  import opened VisionWrites

  ghost predicate AllFit(ks: seq<Block>) {
    forall i :: 0 <= i < |ks| ==> Fits(ks[i])
  }

  /** Only Continue blocks so far. */
  ghost predicate IsOpen(ks: seq<Block>) {
    forall i :: 0 <= i < |ks| ==> Fits(ks[i]) && ks[i].command == CONTINUE
  }

  lemma {:induction false} StreamAppend(ks: seq<Block>, k: Block)
    requires AllFit(ks) && Fits(k)
    ensures AllFit(ks + [k])
    ensures StreamBytes(ks + [k]) == StreamBytes(ks) + BlockBytes(k)
    ensures Contents(ks + [k]) == Contents(ks) + k.content
  {
    var longer := ks + [k];
    if ks != [] {
      StreamAppend(ks[1..], k);
      assert longer[1..] == ks[1..] + [k];
      Assoc(BlockBytes(ks[0]), StreamBytes(ks[1..]), BlockBytes(k));
      Assoc(ks[0].content, Contents(ks[1..]), k.content);
    } else {
      assert longer == [k] && longer[1..] == [];
      assert StreamBytes(longer) == BlockBytes(k) + [];
      assert Contents(longer) == k.content + [];
    }
  }

  /** The blocks sent, the bytes sent after them, and all bytes sent and written. */
  datatype Log = Log(blocks: seq<Block>, tail: seq<Byte>, sent: seq<Byte>, content: seq<Byte>)

  /** The log is one stream: padding while it lasts, then the block that ends it, then bytes as they are. */
  ghost predicate LogOk(uuid: seq<Byte>, toSend: seq<Byte>, padding: bool, l: Log) {
    && |uuid| == 16 && AllFit(l.blocks)
    && (padding ==> IsOpen(l.blocks) && l.tail == [])
    && (!padding ==> IsStream(l.blocks))
    && toSend == (if l.blocks == [] then uuid else [])
    && l.sent == (if l.blocks == [] then [] else Sent(uuid, l.blocks, l.tail))
    && l.content == Contents(l.blocks) + l.tail
  }

  lemma Whole(b: seq<Byte>)
    ensures b + [] == b && [] + b == b
  {
  }

  ghost function Padded(uuid: seq<Byte>, l: Log, k: Block): Log
    requires AllFit(l.blocks) && Fits(k)
  {
    var ks := l.blocks + [k];
    Log(ks, [], Sent(uuid, ks, []), Contents(ks))
  }

  lemma SentNext(uuid: seq<Byte>, ks: seq<Block>, k: Block)
    requires AllFit(ks) && Fits(k)
    ensures AllFit(ks + [k])
    ensures Sent(uuid, ks + [k], []) ==
      (if ks == [] then [] else Sent(uuid, ks, [])) + ((if ks == [] then uuid else []) + BlockBytes(k))
  {
    StreamAppend(ks, k);
    Whole(StreamBytes(ks));
    Whole(StreamBytes(ks + [k]));
    Whole(BlockBytes(k));
    Whole(uuid + BlockBytes(k));
    Assoc(uuid, StreamBytes(ks), BlockBytes(k));
  }

  lemma PaddedOk(uuid: seq<Byte>, toSend: seq<Byte>, l: Log, k: Block)
    requires LogOk(uuid, toSend, true, l) && Fits(k)
    ensures LogOk(uuid, [], k.command == CONTINUE, Padded(uuid, l, k))
    ensures Padded(uuid, l, k).sent == l.sent + (toSend + BlockBytes(k))
    ensures Padded(uuid, l, k).content == l.content + k.content
  {
    var ks := l.blocks + [k];
    StreamAppend(l.blocks, k);
    SentNext(uuid, l.blocks, k);
    Whole(Contents(ks));
    Whole(Contents(l.blocks));
  }

  ghost function Tailed(uuid: seq<Byte>, l: Log, bs: seq<Byte>): Log
    requires AllFit(l.blocks)
  {
    Log(l.blocks, l.tail + bs, Sent(uuid, l.blocks, l.tail + bs), Contents(l.blocks) + (l.tail + bs))
  }

  lemma TailedOk(uuid: seq<Byte>, toSend: seq<Byte>, l: Log, bs: seq<Byte>)
    requires LogOk(uuid, toSend, false, l)
    ensures LogOk(uuid, toSend, false, Tailed(uuid, l, bs))
    ensures Tailed(uuid, l, bs).sent == l.sent + bs && Tailed(uuid, l, bs).content == l.content + bs
  {
    var b := StreamBytes(l.blocks);
    Assoc(b, l.tail, bs);
    Assoc(uuid, b + l.tail, bs);
    Assoc(Contents(l.blocks), l.tail, bs);
  }

  lemma ConcatNext(before: seq<Byte>, ps: seq<seq<Byte>>, p: seq<Byte>)
    ensures (before + Concat(ps)) + p == before + Concat(ps + [p])
  {
    ConcatOne(ps, p);
    Assoc(before, Concat(ps), p);
  }

  lemma RestNext(before: seq<Byte>, mb: seq<seq<Byte>>, i: nat)
    requires i <= |mb|
    ensures before + Concat(mb[..i]) + Concat(mb[i..]) == before + Concat(mb)
  {
    ConcatAppend(mb[..i], mb[i..]);
    assert mb == mb[..i] + mb[i..];
    Assoc(before, Concat(mb[..i]), Concat(mb[i..]));
  }

  lemma RestOut(before: seq<Byte>, out: seq<seq<Byte>>, p: seq<Byte>, others: seq<seq<Byte>>)
    ensures before + Concat(out) + p + Concat(others) == before + Concat(out + [p] + others)
  {
    ConcatNext(before, out, p);
    ConcatAppend(out + [p], others);
    Assoc(before, Concat(out + [p]), Concat(others));
  }

  /** Since l0 the buffers out were sent and the first i buffers of mb written. */
  ghost predicate Wrote(l0: Log, out: seq<seq<Byte>>, mb: seq<seq<Byte>>, i: nat, l: Log)
    requires i <= |mb|
  {
    l.sent == l0.sent + Concat(out) && l.content == l0.content + Concat(mb[..i])
  }

  lemma WroteNext(l0: Log, out: seq<seq<Byte>>, mb: seq<seq<Byte>>, i: nat, l: Log, p: seq<Byte>, l1: Log)
    requires i < |mb| && Wrote(l0, out, mb, i, l) && l1.sent == l.sent + p && l1.content == l.content + mb[i]
    ensures Wrote(l0, out + [p], mb, i + 1, l1)
  {
    ConcatNext(l0.sent, out, p);
    assert mb[..i + 1] == mb[..i] + [mb[i]];
    ConcatNext(l0.content, mb[..i], mb[i]);
  }

  lemma WroteRest(l0: Log, out: seq<seq<Byte>>, mb: seq<seq<Byte>>, i: nat, l: Log, p: seq<Byte>, l1: Log)
    requires i < |mb| && Wrote(l0, out, mb, i, l)
    requires l1.sent == l.sent + p + Concat(mb[i + 1..]) && l1.content == l.content + mb[i] + Concat(mb[i + 1..])
    ensures l1.sent == l0.sent + Concat(out + [p] + mb[i + 1..]) && l1.content == l0.content + Concat(mb)
  {
    RestOut(l0.sent, out, p, mb[i + 1..]);
    assert mb[..i + 1] == mb[..i] + [mb[i]];
    ConcatNext(l0.content, mb[..i], mb[i]);
    RestNext(l0.content, mb, i + 1);
  }

  /** The log after is that before and the blocks of one write, and then the buffers that are no longer padded. */
  ghost predicate Extended(l0: Log, l: Log, w: Write, seeds: Seeds, ks: seq<Block>) {
    Lays(w, seeds, ks) && l.blocks == l0.blocks + ks && l.tail == l0.tail + Concat(w.mb[|ks|..])
  }

  /** While padding: the first i buffers are sent as blocks. */
  ghost predicate Padding(l0: Log, l: Log, w: Write, seeds: Seeds, ks: seq<Block>, i: nat) {
    && Laid(w, seeds, ks) && |ks| == i && l.blocks == l0.blocks + ks && l.tail == l0.tail == []
    && (i > 0 ==> !EndsEarly(w, w.mb[i - 1]))
  }

  lemma PaddingNext(l0: Log, l: Log, w: Write, seeds: Seeds, ks: seq<Block>, k: Block, l1: Log)
    requires Padding(l0, l, w, seeds, ks, |ks|) && |ks| < |w.mb| && BlockAt(w, seeds, |ks|, k)
    requires l1.blocks == l.blocks + [k]
    ensures Laid(w, seeds, ks + [k]) && l1.blocks == l0.blocks + (ks + [k])
    ensures l1.tail == [] && !EndsEarly(w, w.mb[|ks|]) ==> Padding(l0, l1, w, seeds, ks + [k], |ks| + 1)
    ensures EndsEarly(w, w.mb[|ks|]) && l1.tail == Concat(w.mb[|ks| + 1..]) ==> Extended(l0, l1, w, seeds, ks + [k])
  {
    LaidNext(w, seeds, ks, k);
    assert (l0.blocks + ks) + [k] == l0.blocks + (ks + [k]);
  }

  /** What the loop over the buffers of a write keeps: on is whether padding goes on, direct whether to copy directly. */
  ghost predicate Turning(l0: Log, l: Log, out: seq<seq<Byte>>, w: Write, seeds: Seeds, ks: seq<Block>, i: nat, on: bool,
                          longPadding: bool, direct0: bool, direct: bool)
  {
    && i <= |w.mb| && Wrote(l0, out, w.mb, i, l) && Padding(l0, l, w, seeds, ks, i)
    && on == !RecordIn(w, i) && longPadding == (w.flags.isTLS && on)
    && direct == (direct0 || (w.flags.enableXtls && !on))
  }

  /** The next buffer b of the write, sent as block k. */
  ghost predicate Next(l: Log, l1: Log, b: seq<Byte>, p: seq<Byte>, k: Block) {
    l1.sent == l.sent + p && l1.content == l.content + b && l1.blocks == l.blocks + [k] && l1.tail == [] && k.content == b
  }

  /** The last block k of the padding, with the content b, and the others after it. */
  ghost predicate Last(l: Log, l1: Log, b: seq<Byte>, others: seq<seq<Byte>>, p: seq<Byte>, k: Block) {
    && l1.sent == l.sent + p + Concat(others) && l1.content == l.content + b + Concat(others)
    && l1.blocks == l.blocks + [k] && l1.tail == Concat(others) && k.content == b && k.command == END
  }

  lemma Turned(l0: Log, l: Log, out: seq<seq<Byte>>, w: Write, seeds: Seeds, ks: seq<Block>, i: nat, on: bool,
               longPadding: bool, direct0: bool, direct: bool, p: seq<Byte>, k: Block, l1: Log)
    requires Turning(l0, l, out, w, seeds, ks, i, on, longPadding, direct0, direct) && i < |w.mb|
    requires !EndsEarly(w, w.mb[i]) && Next(l, l1, w.mb[i], p, k)
    requires var record := IsRecord(w, w.mb[i]);
      && k.command == (if i == |w.mb| - 1 && (record || !on) then LastCommand(w.flags) else CONTINUE)
      && (SafeSeeds(seeds) ==> RightPadding(|w.mb[i]|, |k.padding|, record || longPadding, seeds, w.raws(i)))
    ensures var record := IsRecord(w, w.mb[i]);
      Turning(l0, l1, out + [p], w, seeds, ks + [k], i + 1, on && !record, longPadding && !record, direct0,
              direct || (record && w.flags.enableXtls))
  {
    RecordNext(w, i);
    WroteNext(l0, out, w.mb, i, l, p, l1);
    PaddingNext(l0, l, w, seeds, ks, k, l1);
  }

  /** The whole write: what it sent and wrote, its blocks, whether padding goes on and whether to copy directly. */
  ghost predicate Finished(l0: Log, l: Log, out: seq<seq<Byte>>, w: Write, seeds: Seeds, ks: seq<Block>, on: bool,
                           direct0: bool, direct: bool)
  {
    && l.sent == l0.sent + Concat(out) && l.content == l0.content + Concat(w.mb)
    && Extended(l0, l, w, seeds, ks) && on == GoesOn(w, |ks|)
    && direct == (direct0 || (w.flags.enableXtls && RecordIn(w, |ks|)))
  }

  lemma TurnedLast(l0: Log, l: Log, out: seq<seq<Byte>>, w: Write, seeds: Seeds, ks: seq<Block>, i: nat, on: bool,
                   longPadding: bool, direct0: bool, direct: bool, p: seq<Byte>, k: Block, l1: Log)
    requires Turning(l0, l, out, w, seeds, ks, i, on, longPadding, direct0, direct) && i < |w.mb|
    requires EndsEarly(w, w.mb[i]) && Last(l, l1, w.mb[i], w.mb[i + 1..], p, k)
    requires SafeSeeds(seeds) ==> RightPadding(|w.mb[i]|, |k.padding|, longPadding, seeds, w.raws(i))
    ensures Finished(l0, l1, out + [p] + w.mb[i + 1..], w, seeds, ks + [k], false, direct0, direct)
  {
    RecordNext(w, i);
    WroteRest(l0, out, w.mb, i, l, p, l1);
    PaddingNext(l0, l, w, seeds, ks, k, l1);
  }

  lemma TurnedAll(l0: Log, l: Log, out: seq<seq<Byte>>, w: Write, seeds: Seeds, ks: seq<Block>, on: bool,
                  longPadding: bool, direct0: bool, direct: bool)
    requires Turning(l0, l, out, w, seeds, ks, |w.mb|, on, longPadding, direct0, direct)
    ensures Finished(l0, l, out, w, seeds, ks, on, direct0, direct)
  {
    assert w.mb[..|w.mb|] == w.mb;
    assert Concat(w.mb[|w.mb|..]) == [];
  }

  /** Once TLS 1.2 or above is seen with XTLS, a write leaves the sender and its last block in agreement. */
  lemma StillAgree(l0: Log, l: Log, w: Write, seeds: Seeds, ks: seq<Block>, direct0: bool, direct: bool)
    requires Extended(l0, l, w, seeds, ks) && IsOpen(l0.blocks)
    requires direct == (direct0 || (w.flags.enableXtls && RecordIn(w, |ks|)))
    ensures (w.flags.enableXtls ==> w.flags.isTLS12orAbove) && (direct0 <==> LastOf(l0.blocks) == DIRECT) ==>
      (direct <==> LastOf(l.blocks) == DIRECT)
  {
    DirectAgrees(w, seeds, ks);
    if ks != [] { assert l.blocks[|l.blocks| - 1] == ks[|ks| - 1]; }
  }

  class Writer {
    const userUUID: seq<Byte>
    const seeds: Seeds
    var writeOnceUserUUID: seq<Byte>
    var isPadding: bool
    /** Set once the write after the padding is to go straight to the connection below. */
    var directCopy: bool
    ghost var log: Log

    constructor (uuid: seq<Byte>, testseed: seq<Uint32>)
      requires |uuid| == 16
      ensures userUUID == uuid && seeds == SeedsOf(testseed) && Valid() && log == Log([], [], [], [])
      ensures isPadding && Agrees()
    {
      seeds := SeedsOf(testseed);
      userUUID, writeOnceUserUUID, isPadding, directCopy, log := uuid, uuid, true, false, Log([], [], [], []);
    }

    ghost predicate Valid()
      reads this
    {
      LogOk(userUUID, writeOnceUserUUID, isPadding, log)
    }

    /** The sender copies directly exactly if the last block of the padding said so. */
    ghost predicate Agrees()
      reads this
    {
      directCopy <==> LastOf(log.blocks) == DIRECT
    }

    /** One padded buffer; there is none exactly if the seeds and the draw do not allow it. */
    method Pad(b: seq<Byte>, command: Byte, longPadding: bool, raw: nat) returns (out: Option<seq<Byte>>, ghost k: Block)
      requires LogOk(userUUID, writeOnceUserUUID, true, log) && |b| <= SIZE - 21
      modifies this`writeOnceUserUUID, this`log
      ensures out.Some? <==> CanPad(|b|, longPadding, seeds, Draw(|b|, longPadding, seeds, raw))
      ensures SafeSeeds(seeds) ==> out.Some?
      ensures out.Some? ==> LogOk(userUUID, writeOnceUserUUID, command == CONTINUE, log)
      ensures out.Some? ==>
        log.sent == old(log.sent) + out.value && log.content == old(log.content) + b && |out.value| <= SIZE
      ensures out.Some? ==> log.blocks == old(log.blocks) + [k] && log.tail == [] && k.command == command && k.content == b
      ensures out.Some? && SafeSeeds(seeds) ==> RightPadding(|b|, |k.padding|, longPadding, seeds, raw)
    {
      if SafeSeeds(seeds) { SafePads(seeds, |b|, longPadding, Draw(|b|, longPadding, seeds, raw)); }
      out, k := XtlsPadding(b, command, writeOnceUserUUID, longPadding, seeds, raw);
      if out.Some? {
        PaddedOk(userUUID, writeOnceUserUUID, log, k);
        writeOnceUserUUID, log := [], Padded(userUUID, log, k);
      }
    }

    /** The loop over the buffers of one write while padding lasts. */
    method PadBuffers(mb: seq<seq<Byte>>, isComplete: bool, flags: Flags, raws: nat -> nat)
      returns (result: Option<seq<seq<Byte>>>, ghost ks: seq<Block>)
      requires Valid() && isPadding && forall i :: 0 <= i < |mb| ==> |mb[i]| <= SIZE - 21
      modifies this
      ensures SafeSeeds(seeds) ==> result.Some?
      ensures result.Some? ==> Valid()
      ensures result.Some? ==>
        var w := Write(mb, isComplete, flags, raws);
        Finished(old(log), log, result.value, w, seeds, ks, isPadding, old(directCopy), directCopy)
    {
      var w := Write(mb, isComplete, flags, raws);
      var out: seq<seq<Byte>>, longPadding := [], flags.isTLS;
      var going := true;
      ghost var l0, direct0 := log, directCopy;
      ks := [];
      for i := 0 to |mb|
        invariant LogOk(userUUID, writeOnceUserUUID, !(i == |mb| && !isPadding), log)
        invariant Turning(l0, log, out, w, seeds, ks, i, isPadding, longPadding, direct0, directCopy)
      {
        var record := StartsRecord(mb[i], isComplete, flags);
        if !record && !flags.isTLS12orAbove && flags.packetsToFilter <= 1 {
          result, ks := PadEarly(w, i, longPadding, out, l0, ks, direct0);
          return;
        }
        going, out, longPadding, ks := PadNext(w, i, record, longPadding, out, l0, ks, direct0);
        if !going { return None, ks; }
      }
      TurnedAll(l0, log, out, w, seeds, ks, isPadding, longPadding, direct0, directCopy);
      return Some(out), ks;
    }

    /** A buffer of a write that is whole records, and that starts with a header of application data. */
    static method StartsRecord(b: seq<Byte>, isComplete: bool, flags: Flags) returns (record: bool)
      ensures record == (flags.isTLS && isComplete && |b| >= 6 && b[0] == 0x17 && b[1] == 0x03 && b[2] == 0x03)
    {
      record := flags.isTLS && |b| >= 6 && HeaderAt(b, 0) && isComplete;
      if |b| >= 6 { HeaderStarts(b); }
    }

    /** One buffer of the loop; a record ends the padding with the last buffer of its write. */
    method PadOne(b: seq<Byte>, record: bool, isLast: bool, flags: Flags, longPadding: bool, raw: nat)
      returns (p: Option<seq<Byte>>, ghost k: Block)
      requires LogOk(userUUID, writeOnceUserUUID, true, log) && |b| <= SIZE - 21
      modifies this
      ensures SafeSeeds(seeds) ==> p.Some?
      ensures isPadding == (old(isPadding) && !record) && directCopy == (old(directCopy) || (record && flags.enableXtls))
      ensures p.Some? ==> LogOk(userUUID, writeOnceUserUUID, !(isLast && !isPadding), log)
      ensures p.Some? ==> Next(old(log), log, b, p.value, k)
      ensures p.Some? ==> k.command == if isLast && !isPadding then LastCommand(flags) else CONTINUE
      ensures p.Some? && SafeSeeds(seeds) ==> RightPadding(|b|, |k.padding|, record || longPadding, seeds, raw)
    {
      var last: Byte := if flags.enableXtls then DIRECT else END;
      var command := CONTINUE;
      if record {
        if flags.enableXtls { directCopy := true; }
        if isLast { command := last; }
        p, k := Pad(b, command, true, raw);
        isPadding := false;
      } else {
        if isLast && !isPadding { command := last; }
        p, k := Pad(b, command, longPadding, raw);
      }
    }

    /** A turn of the loop that goes on to the next buffer. */
    method PadNext(w: Write, i: nat, record: bool, longPadding: bool, out: seq<seq<Byte>>, ghost l0: Log,
                   ghost ks: seq<Block>, ghost direct0: bool)
      returns (ok: bool, nextOut: seq<seq<Byte>>, nextLong: bool, ghost nextKs: seq<Block>)
      requires LogOk(userUUID, writeOnceUserUUID, true, log) && i < |w.mb| && |w.mb[i]| <= SIZE - 21
      requires Turning(l0, log, out, w, seeds, ks, i, isPadding, longPadding, direct0, directCopy)
      requires record == IsRecord(w, w.mb[i]) && !EndsEarly(w, w.mb[i])
      modifies this
      ensures SafeSeeds(seeds) ==> ok
      ensures ok ==> LogOk(userUUID, writeOnceUserUUID, !(i == |w.mb| - 1 && !isPadding), log)
      ensures ok ==> Turning(l0, log, nextOut, w, seeds, nextKs, i + 1, isPadding, nextLong, direct0, directCopy)
    {
      ghost var l, on, direct := log, isPadding, directCopy;
      var p;
      ghost var k;
      p, k := PadOne(w.mb[i], record, i == |w.mb| - 1, w.flags, longPadding, w.raws(i));
      if p == None { return false, out, longPadding, ks; }
      ok, nextOut, nextLong, nextKs := true, out + [p.value], longPadding && !record, ks + [k];
      Turned(l0, l, out, w, seeds, ks, i, on, longPadding, direct0, direct, p.value, k, log);
    }

    /** The early end: this buffer is the last padded one, and the others of the write follow as they are. */
    method PadLast(b: seq<Byte>, others: seq<seq<Byte>>, longPadding: bool, raw: nat)
      returns (p: Option<seq<Byte>>, ghost k: Block)
      requires LogOk(userUUID, writeOnceUserUUID, true, log) && |b| <= SIZE - 21
      modifies this`writeOnceUserUUID, this`log, this`isPadding
      ensures SafeSeeds(seeds) ==> p.Some?
      ensures p.Some? ==> Valid() && !isPadding
      ensures p.Some? ==> Last(old(log), log, b, others, p.value, k)
      ensures p.Some? && SafeSeeds(seeds) ==> RightPadding(|b|, |k.padding|, longPadding, seeds, raw)
    {
      isPadding := false;
      p, k := Pad(b, END, longPadding, raw);
      if p.Some? { Send(others); }
    }

    /** The turn of the loop that ends it early. */
    method PadEarly(w: Write, i: nat, longPadding: bool, out: seq<seq<Byte>>, ghost l0: Log, ghost ks: seq<Block>,
                    ghost direct0: bool)
      returns (result: Option<seq<seq<Byte>>>, ghost allKs: seq<Block>)
      requires LogOk(userUUID, writeOnceUserUUID, true, log) && i < |w.mb| && |w.mb[i]| <= SIZE - 21
      requires Turning(l0, log, out, w, seeds, ks, i, isPadding, longPadding, direct0, directCopy)
      requires EndsEarly(w, w.mb[i])
      modifies this
      ensures SafeSeeds(seeds) ==> result.Some?
      ensures result.Some? ==> Valid()
      ensures result.Some? ==> Finished(l0, log, result.value, w, seeds, allKs, isPadding, direct0, directCopy)
    {
      ghost var l, on := log, isPadding;
      var p;
      ghost var k;
      p, k := PadLast(w.mb[i], w.mb[i + 1..], longPadding, w.raws(i));
      if p == None { return None, ks; }
      TurnedLast(l0, l, out, w, seeds, ks, i, on, longPadding, direct0, directCopy, p.value, k, log);
      return Some(out + [p.value] + w.mb[i + 1..]), ks + [k];
    }

    /** Buffers sent as they are, after the padding. */
    ghost method Send(bs: seq<seq<Byte>>)
      requires LogOk(userUUID, writeOnceUserUUID, false, log)
      modifies this`log
      ensures LogOk(userUUID, writeOnceUserUUID, false, log)
      ensures log.sent == old(log.sent) + Concat(bs) && log.content == old(log.content) + Concat(bs)
      ensures log.blocks == old(log.blocks) && log.tail == old(log.tail) + Concat(bs)
    {
      TailedOk(userUUID, writeOnceUserUUID, log, Concat(bs));
      log := Tailed(userUUID, log, Concat(bs));
    }

    /** What a write leaves of the padding and adds to the log. */
    ghost predicate Written(before: Log, padding: bool, mb: seq<seq<Byte>>, header: bool, flags: Flags, raws: nat -> nat)
      reads this
    {
      if !padding then !isPadding && log.blocks == before.blocks && log.tail == before.tail + Concat(mb)
      else if header then
        && isPadding && log.tail == before.tail
        && exists k: Block :: log.blocks == before.blocks + [k] && HeaderBlock(k, raws(0))
      else
        exists shaped, ks :: Reshaped(mb, shaped) && Adds(before, Write(shaped, IsRecords(Concat(mb)), flags, raws), ks)
    }

    ghost predicate Adds(before: Log, w: Write, ks: seq<Block>)
      reads this
    {
      Extended(before, log, w, seeds, ks) && isPadding == GoesOn(w, |ks|)
    }

    /** The block of a write of nothing is padded as if it were to look long. */
    ghost predicate HeaderBlock(k: Block, raw: nat) {
      && k.content == [] && k.command == CONTINUE
      && (SafeSeeds(seeds) ==> RightPadding(0, |k.padding|, true, seeds, raw))
    }

    /** The buffers of a write while padding lasts. */
    method WriteBuffers(mb: seq<seq<Byte>>, flags: Flags, raws: nat -> nat) returns (out: Option<seq<seq<Byte>>>)
      requires Valid() && isPadding && forall i :: 0 <= i < |mb| ==> |mb[i]| <= SIZE
      modifies this
      ensures SafeSeeds(seeds) ==> out.Some?
      ensures out.Some? ==> Valid()
      ensures out.Some? ==> log.sent == old(log.sent) + Concat(out.value) && log.content == old(log.content) + Concat(mb)
      ensures out.Some? ==> Written(old(log), true, mb, false, flags, raws)
      ensures out.Some? && old(Agrees()) && (flags.enableXtls ==> flags.isTLS12orAbove) ==> Agrees()
    {
      var isComplete := IsCompleteRecord(Concat(mb));
      var shaped := ReshapeMultiBuffer(mb);
      ghost var ks;
      ghost var w := Write(shaped, isComplete, flags, raws);
      out, ks := PadBuffers(shaped, isComplete, flags, raws);
      if out.Some? {
        assert Adds(old(log), w, ks);
        StillAgree(old(log), log, w, seeds, ks, old(directCopy), directCopy);
      }
    }

    /**
     WriteMultiBuffer; header stands for the write of a single nil buffer, which only sends padding. There is no result only
     if the seeds are not safe and a padding length comes out negative.
     */
    method WriteMultiBuffer(mb: seq<seq<Byte>>, header: bool, flags: Flags, raws: nat -> nat)
      returns (out: Option<seq<seq<Byte>>>)
      requires Valid() && (header ==> mb == []) && forall i :: 0 <= i < |mb| ==> |mb[i]| <= SIZE
      modifies this
      ensures SafeSeeds(seeds) || !old(isPadding) ==> out.Some?
      ensures out.Some? ==> Valid()
      ensures out.Some? ==> log.sent == old(log.sent) + Concat(out.value) && log.content == old(log.content) + Concat(mb)
      ensures out.Some? ==> Written(old(log), old(isPadding), mb, header, flags, raws)
      ensures out.Some? && old(Agrees()) && (flags.enableXtls ==> flags.isTLS12orAbove) ==> Agrees()
    {
      if !isPadding {
        Send(mb);
        return Some(mb);
      }
      if header {
        var p;
        ghost var k;
        p, k := Pad([], CONTINUE, true, raws(0));
        if p == None { return None; }
        assert Concat([p.value]) == p.value;
        assert HeaderBlock(k, raws(0));
        return Some([p.value]);
      }
      out := WriteBuffers(mb, flags, raws);
    }
  }

  lemma {:induction false} FeedOpen(s: State, ks: seq<Block>)
    requires InBlock(s) && s.command == 5 && IsOpen(ks)
    ensures Feed(s, StreamBytes(ks)).out == Contents(ks)
    decreases |ks|
  {
    if ks != [] {
      FeedBlock(s, ks[0]);
      FeedSplit(s, BlockBytes(ks[0]), StreamBytes(ks[1..]));
      FeedOpen(State(5, 0, 0, 0), ks[1..]);
    }
  }

  /** At any moment, whatever was sent so far and however it is cut up, the receiver has what was written so far. */
  lemma Delivered(uuid: seq<Byte>, toSend: seq<Byte>, padding: bool, l: Log, ps: seq<seq<Byte>>)
    requires LogOk(uuid, toSend, padding, l) && l.blocks != [] && Concat(ps) == l.sent && ps != [] && |ps[0]| >= 21
    requires CleanAfter(uuid, Piece(uuid, INITIAL, ps[0]).state, ps[1..])
    ensures Pieces(uuid, INITIAL, ps).out == l.content
  {
    if padding {
      var s := State(5, -1, -1, 0);
      FirstPieceStarts(uuid, StreamBytes(l.blocks) + l.tail, ps);
      SplitInvariance(uuid, Feed(s, ps[0][16..]).state, ps[1..]);
      FeedSplit(s, ps[0][16..], Concat(ps[1..]));
      assert StreamBytes(l.blocks) + l.tail == StreamBytes(l.blocks);
      FeedOpen(s, l.blocks);
    } else {
      RoundTrip(uuid, l.blocks, l.tail, ps);
    }
  }
}
