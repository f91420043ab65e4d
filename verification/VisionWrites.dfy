/**
 What one write of the Vision sender adds to the padded stream (proxy/proxy.go, VisionWriter.WriteMultiBuffer): which
 buffers are padded and how far, and which command each block carries.
 */
module VisionWrites {
  import opened Buffers
  import opened Vision

  /** What a write reads of the traffic state; it may differ at every write. */
  datatype Flags = Flags(isTLS: bool, isTLS12orAbove: bool, enableXtls: bool, packetsToFilter: int)

  /** One write of a connection that is padding: its buffers, whether they are whole TLS records, the flags and draws. */
  datatype Write = Write(mb: seq<seq<Byte>>, isComplete: bool, flags: Flags, raws: nat -> nat)

  /** A buffer of application data, with which the padding comes to its end. */
  predicate IsRecord(w: Write, b: seq<Byte>) {
    w.flags.isTLS && w.isComplete && |b| >= 6 && b[0] == 0x17 && b[1] == 0x03 && b[2] == 0x03
  }

  /** A buffer that ends the padding at once. */
  predicate EndsEarly(w: Write, b: seq<Byte>) {
    !IsRecord(w, b) && !w.flags.isTLS12orAbove && w.flags.packetsToFilter <= 1
  }

  /** One of the first n buffers is application data. */
  ghost predicate RecordIn(w: Write, n: nat)
    requires n <= |w.mb|
  {
    exists j :: 0 <= j < n && IsRecord(w, w.mb[j])
  }

  function LastCommand(flags: Flags): Byte {
    if flags.enableXtls then DIRECT else END
  }

  /** Block k is that of buffer i. */
  ghost predicate BlockAt(w: Write, seeds: Seeds, i: nat, k: Block)
    requires i < |w.mb|
  {
    && k.content == w.mb[i]
    && k.command ==
         (if EndsEarly(w, w.mb[i]) then END
          else if i == |w.mb| - 1 && RecordIn(w, i + 1) then LastCommand(w.flags)
          else CONTINUE)
    && var longPadding := IsRecord(w, w.mb[i]) || (w.flags.isTLS && !RecordIn(w, i));
       SafeSeeds(seeds) ==> RightPadding(|w.mb[i]|, |k.padding|, longPadding, seeds, w.raws(i))
  }

  /** The blocks are those of the first buffers, and none of these but the last ends the padding early. */
  ghost predicate Laid(w: Write, seeds: Seeds, ks: seq<Block>) {
    && |ks| <= |w.mb|
    && (forall i :: 0 <= i < |ks| ==> BlockAt(w, seeds, i, ks[i]))
    && (forall i :: 0 <= i < |ks| - 1 ==> !EndsEarly(w, w.mb[i]))
  }

  /** All buffers are padded, or those up to the first that ends the padding early. */
  ghost predicate Lays(w: Write, seeds: Seeds, ks: seq<Block>) {
    && Laid(w, seeds, ks)
    && (|ks| < |w.mb| ==> ks != [] && EndsEarly(w, w.mb[|ks| - 1]))
  }

  lemma LaidNext(w: Write, seeds: Seeds, ks: seq<Block>, k: Block)
    requires Laid(w, seeds, ks) && |ks| < |w.mb| && BlockAt(w, seeds, |ks|, k)
    requires ks != [] ==> !EndsEarly(w, w.mb[|ks| - 1])
    ensures Laid(w, seeds, ks + [k])
  {
  }

  lemma RecordNext(w: Write, n: nat)
    requires n < |w.mb|
    ensures RecordIn(w, n + 1) <==> RecordIn(w, n) || IsRecord(w, w.mb[n])
  {
  }

  lemma HeaderStarts(b: seq<Byte>)
    requires |b| >= 6
    ensures HeaderAt(b, 0) <==> b[0] == 0x17 && b[1] == 0x03 && b[2] == 0x03
  {
    HeaderIs(b);
  }

  /** The padding goes on after the write exactly if no padded buffer is application data or ends it early. */
  ghost predicate GoesOn(w: Write, n: nat)
    requires n <= |w.mb|
  {
    !RecordIn(w, n) && (n > 0 ==> !EndsEarly(w, w.mb[n - 1]))
  }

  ghost function LastOf(ks: seq<Block>): Byte {
    if ks == [] then CONTINUE else ks[|ks| - 1].command
  }

  /** The last block of the write carries a command other than Continue exactly if the padding ends with the write. */
  lemma EndsWith(w: Write, seeds: Seeds, ks: seq<Block>)
    requires Lays(w, seeds, ks)
    ensures forall i :: 0 <= i < |ks| - 1 ==> ks[i].command == CONTINUE
    ensures LastOf(ks) == CONTINUE <==> GoesOn(w, |ks|)
  {
    if ks != [] {
      assert BlockAt(w, seeds, |ks| - 1, ks[|ks| - 1]);
    }
  }

  /**
   A write with application data and XTLS makes the sender copy directly from then on. The last block says so exactly if it
   does not end the padding early, and it never does so once TLS 1.2 or above has been seen.
   */
  lemma DirectAgrees(w: Write, seeds: Seeds, ks: seq<Block>)
    requires Lays(w, seeds, ks)
    ensures LastOf(ks) == DIRECT <==>
      w.flags.enableXtls && RecordIn(w, |ks|) && !EndsEarly(w, w.mb[|ks| - 1])
    ensures w.flags.isTLS12orAbove ==> (LastOf(ks) == DIRECT <==> w.flags.enableXtls && RecordIn(w, |ks|))
  {
    if ks != [] {
      assert BlockAt(w, seeds, |ks| - 1, ks[|ks| - 1]);
    }
  }
}
