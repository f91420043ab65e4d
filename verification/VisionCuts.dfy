/**
 Which cuts of a stream make the reader of a Vision connection lose track (proxy/proxy.go, VisionReader.ReadMultiBuffer),
 said of the bytes of the stream and of where the reads begin.
 */
module VisionCuts {
  import opened Buffers
  import opened Vision
  import opened VisionReading

  /** How many bytes of the stream come before its last block. */
  function BeforeLast(ks: seq<Block>): nat
    requires forall i :: 0 <= i < |ks| ==> Fits(ks[i])
  {
    if |ks| <= 1 then 0 else |BlockBytes(ks[0])| + BeforeLast(ks[1..])
  }

  function LastHeader(ks: seq<Block>): (h: seq<Byte>)
    requires ks != [] && forall i :: 0 <= i < |ks| ==> Fits(ks[i])
    ensures |h| == 5
  {
    var k := ks[|ks| - 1];
    assert Fits(k);
    Header(k.command, |k.content|, |k.padding|)
  }

  /**
   A read begins n bytes into the blocks, and that is inside the header of the last one, behind a command that ends the
   padding and before any size byte but zeros; it does no harm to End while packets are filtered.
   */
  predicate HeaderCut(ks: seq<Block>, n: int, filtering: bool)
    requires IsStream(ks)
  {
    var k, h := n - BeforeLast(ks), LastHeader(ks);
    && 1 <= k <= 4 && (forall j :: 1 <= j < k ==> h[j] == 0)
    && (h[0] == DIRECT || (h[0] == END && !filtering))
  }

  /** The reader takes the state for the end of the padding although a block is under way. */
  predicate Breaks(s: State, filtering: bool) {
    InBlock(s) && s.content <= 0 && s.padding <= 0 && (s.current == 2 || (s.current == 1 && !filtering))
  }

  // The states of a stream.

  /** Inside a Continue block the command is Continue. */
  lemma InsideContinue(s: State, k: Block, n: nat)
    requires InBlock(s) && s.command == 5 && s.current == 0 && Fits(k) && k.command == CONTINUE && n <= |BlockBytes(k)|
    ensures Feed(s, BlockBytes(k)[..n]).state.current == 0
  {
    var b := BlockBytes(k);
    var t := Feed(s, b[..n]).state;
    assert b == b[..n] + b[n..];
    FeedSplit(s, b[..n], b[n..]);
    FeedBlock(s, k);
    FeedSane(s, b[..n]);
    if t.current != 0 && InBlock(t) { FeedLast(t, b[n..]); }
  }

  /** After the header of the last block there is content or padding to come until the initial state. */
  lemma {:induction false} InsideBody(s: State, bs: seq<Byte>)
    requires InBlock(s) && s.command == 0 && s.current != 0
    ensures var t := Feed(s, bs).state; IsInitial(t) || (InBlock(t) && t.command == 0)
    decreases |bs|
  {
    if bs != [] {
      NextStateOk(s, bs[0]);
      var t := NextState(s, bs[0]);
      if !IsInitial(t) { InsideBody(t, bs[1..]); }
    }
  }

  /** The state inside a header: a size byte is above zero exactly if a size is. */
  lemma InsideHeader(s: State, h: seq<Byte>, n: nat)
    requires InBlock(s) && s.command == 5 && s.content <= 0 && s.padding <= 0 && |h| == 5 && 1 <= n <= 4
    ensures var t := Feed(s, h[..n]).state;
      && InBlock(t) && t.current == h[0]
      && (t.content <= 0 && t.padding <= 0 <==> forall j :: 1 <= j < n ==> h[j] == 0)
  {
    var b := h[..n];
    var s4 := s.(current := h[0], command := 4);
    FeedOne(s, b, s4, []);
    if n >= 2 {
      var s3 := s4.(content := h[1] as int * 256, command := 3);
      FeedOne(s4, b[1..], s3, []);
      if n >= 3 {
        var s2 := s3.(content := s3.content + h[2], command := 2);
        FeedOne(s3, b[1..][1..], s2, []);
        if n >= 4 { FeedOne(s2, b[1..][1..][1..], s2.(padding := h[3] as int * 256, command := 1), []); }
      }
    }
  }

  lemma InsideLast(s: State, k: Block, n: nat, filtering: bool)
    requires InBlock(s) && s.command == 5 && s.current == 0 && s.content <= 0 && s.padding <= 0
    requires Fits(k) && k.command != CONTINUE && n <= |BlockBytes(k)|
    ensures Breaks(Feed(s, BlockBytes(k)[..n]).state, filtering) <==> HeaderCut([k], n, filtering)
  {
    var h, b := Header(k.command, |k.content|, |k.padding|), BlockBytes(k);
    if 1 <= n <= 4 {
      assert b[..n] == h[..n];
      InsideHeader(s, h, n);
    } else if n >= 5 {
      assert b[..n] == h + b[5..n];
      FeedHeader(s, k.command, |k.content|, |k.padding|);
      FeedSplit(s, h, b[5..n]);
      var t := Settle(State(0, |k.content|, |k.padding|, k.command));
      if !IsInitial(t) { InsideBody(t, b[5..n]); }
    }
  }

  lemma CutFurther(ks: seq<Block>, n: int, filtering: bool)
    requires IsStream(ks) && |ks| > 1
    ensures IsStream(ks[1..]) && (HeaderCut(ks, n, filtering) <==> HeaderCut(ks[1..], n - |BlockBytes(ks[0])|, filtering))
  {
    assert ks[1..][|ks[1..]| - 1] == ks[|ks| - 1];
  }

  lemma InsideFirst(s: State, ks: seq<Block>, n: nat, filtering: bool)
    requires InBlock(s) && s.command == 5 && s.current == 0 && s.content <= 0 && s.padding <= 0
    requires IsStream(ks) && n <= |BlockBytes(ks[0])|
    ensures Breaks(Feed(s, BlockBytes(ks[0])[..n]).state, filtering) <==> HeaderCut(ks, n, filtering)
  {
    if |ks| > 1 {
      InsideContinue(s, ks[0], n);
    } else {
      assert ks == [ks[0]];
      InsideLast(s, ks[0], n, filtering);
    }
  }

  lemma PastFirst(s: State, k: Block, more: seq<Byte>)
    requires InBlock(s) && s.command == 5 && Fits(k)
    ensures Feed(s, BlockBytes(k) + more).state ==
      Feed(if k.command == CONTINUE then State(5, 0, 0, 0) else State(-1, -1, -1, k.command), more).state
  {
    FeedSplit(s, BlockBytes(k), more);
    FeedBlock(s, k);
  }

  /** Exactly after which bytes of a stream the reader takes a block for ended. */
  lemma {:induction false} StreamBreaks(s: State, ks: seq<Block>, tail: seq<Byte>, n: nat, filtering: bool)
    requires InBlock(s) && s.command == 5 && s.current == 0 && s.content <= 0 && s.padding <= 0
    requires IsStream(ks) && n <= |StreamBytes(ks) + tail|
    ensures Breaks(Feed(s, (StreamBytes(ks) + tail)[..n]).state, filtering) <==> HeaderCut(ks, n, filtering)
    decreases |ks|
  {
    var b, rest := BlockBytes(ks[0]), StreamBytes(ks[1..]) + tail;
    Assoc(b, StreamBytes(ks[1..]), tail);
    if n <= |b| {
      assert (b + rest)[..n] == b[..n];
      InsideFirst(s, ks, n, filtering);
    } else {
      assert (b + rest)[..n] == b + rest[..n - |b|];
      PastFirst(s, ks[0], rest[..n - |b|]);
      if |ks| > 1 {
        CutFurther(ks, n, filtering);
        StreamBreaks(State(5, 0, 0, 0), ks[1..], tail, n - |b|, filtering);
      }
    }
  }

  // The states of a reader.

  /** While a block is under way the reader passes the next read on exactly if the state breaks it. */
  ghost predicate Tracks(m: Mode) {
    Headed(m) && (InBlock(m.state) ==> forall filtering :: TakesRaw(m, filtering) <==> Breaks(m.state, filtering))
  }

  lemma TracksNext(uuid: seq<Byte>, m: Mode, r: Read)
    requires Tracks(m) && CleanAfter(uuid, m.state, r.buffers) && !TakesRaw(m, r.filtering)
    ensures Tracks(After(uuid, m, r)) && After(uuid, m, r).state == Feed(m.state, Concat(r.buffers)).state
  {
    HeadedNext(uuid, m, r);
    UnpadsFirst(uuid, m, r);
    SplitInvariance(uuid, m.state, r.buffers);
    FeedSane(m.state, Concat(r.buffers));
    var s := Feed(m.state, Concat(r.buffers)).state;
    if InBlock(s) {
      if m.within {
        forall filtering ensures TakesRaw(Decide(m, s), filtering) <==> Breaks(s, filtering) { HeaderSplits(m, s, filtering); }
      } else if InBlock(m.state) {
        FeedLast(m.state, Concat(r.buffers));
      }
    }
  }

  /** The unpadder's state when read i begins. */
  function StateAt(s: State, rs: seq<Read>, i: nat): State
    requires (InBlock(s) || IsInitial(s)) && i <= |rs|
  {
    Feed(s, Concat(AllBuffers(rs[..i]))).state
  }

  predicate BreaksAt(s: State, rs: seq<Read>, i: nat)
    requires (InBlock(s) || IsInitial(s)) && i < |rs|
  {
    Breaks(StateAt(s, rs, i), rs[i].filtering)
  }

  lemma StateAfter(s: State, rs: seq<Read>, i: nat)
    requires (InBlock(s) || IsInitial(s)) && i < |rs|
    ensures StateAt(s, rs, i + 1) == StateAt(Feed(s, Concat(rs[0].buffers)).state, rs[1..], i)
  {
    var first, rest := rs[0].buffers, AllBuffers(rs[1..][..i]);
    assert rs[..i + 1][1..] == rs[1..][..i];
    assert AllBuffers(rs[..i + 1]) == first + rest;
    ConcatAppend(first, rest);
    FeedSplit(s, Concat(first), Concat(rest));
  }

  ghost predicate SomeBreaks(s: State, rs: seq<Read>)
    requires InBlock(s) || IsInitial(s)
    decreases |rs|
  {
    rs != [] && (Breaks(s, rs[0].filtering) || SomeBreaks(Feed(s, Concat(rs[0].buffers)).state, rs[1..]))
  }

  lemma {:induction false} BreaksSomewhere(s: State, rs: seq<Read>) returns (i: nat)
    requires (InBlock(s) || IsInitial(s)) && SomeBreaks(s, rs)
    ensures i < |rs| && BreaksAt(s, rs, i)
    decreases |rs|
  {
    if Breaks(s, rs[0].filtering) {
      i := 0;
      assert rs[..0] == [];
    } else {
      var j := BreaksSomewhere(Feed(s, Concat(rs[0].buffers)).state, rs[1..]);
      StateAfter(s, rs, j);
      i := j + 1;
    }
  }

  lemma {:induction false} BreaksHere(s: State, rs: seq<Read>, i: nat)
    requires (InBlock(s) || IsInitial(s)) && i < |rs| && BreaksAt(s, rs, i)
    ensures SomeBreaks(s, rs)
    decreases i
  {
    if i == 0 {
      assert rs[..0] == [];
    } else {
      StateAfter(s, rs, i - 1);
      BreaksHere(Feed(s, Concat(rs[0].buffers)).state, rs[1..], i - 1);
    }
  }

  lemma {:induction false} InitialNeverBreaks(s: State, rs: seq<Read>)
    requires IsInitial(s)
    ensures !SomeBreaks(s, rs)
    decreases |rs|
  {
    if rs != [] { InitialNeverBreaks(s, rs[1..]); }
  }

  /** A reader stays on track exactly if no read begins in a state that breaks it. */
  lemma {:induction false} OnTrackIs(uuid: seq<Byte>, m: Mode, rs: seq<Read>)
    requires Tracks(m) && CleanAfter(uuid, m.state, AllBuffers(rs))
    ensures OnTrack(uuid, m, rs) <==> !SomeBreaks(m.state, rs)
    decreases |rs|
  {
    if rs != [] {
      if IsInitial(m.state) {
        StaysInitial(uuid, m, rs);
        InitialNeverBreaks(m.state, rs);
      } else if !TakesRaw(m, rs[0].filtering) {
        FirstApart(uuid, m, rs);
        TracksNext(uuid, m, rs[0]);
        OnTrackIs(uuid, After(uuid, m, rs[0]), rs[1..]);
      }
    }
  }

  // The theorem.

  /** Some read after the first begins at a header cut. */
  ghost predicate SomeCut(ks: seq<Block>, rs: seq<Read>)
    requires IsStream(ks)
  {
    exists i :: 0 < i < |rs| && CutAt(ks, rs, i)
  }

  /** Read i begins at a header cut; the UUID comes before the blocks. */
  predicate CutAt(ks: seq<Block>, rs: seq<Read>, i: nat)
    requires IsStream(ks) && i < |rs|
  {
    HeaderCut(ks, |Concat(AllBuffers(rs[..i]))| - 16, rs[i].filtering)
  }

  /** What the statements ask of a stream and of the reads that bring it. */
  ghost predicate IsRead(uuid: seq<Byte>, ks: seq<Block>, tail: seq<Byte>, rs: seq<Read>) {
    && |uuid| == 16 && IsStream(ks) && rs != [] && NoneEmpty(rs) && FiltersFirst(rs)
    && rs[0].buffers != [] && |rs[0].buffers[0]| >= 21 && Concat(AllBuffers(rs)) == Sent(uuid, ks, tail)
    && CleanAfter(uuid, Piece(uuid, INITIAL, rs[0].buffers[0]).state, rs[0].buffers[1..] + AllBuffers(rs[1..]))
  }

  const BLOCKS := State(5, -1, -1, 0)

  /** The mode after the first read. */
  lemma AfterFirst(uuid: seq<Byte>, first: seq<seq<Byte>>, rest: seq<seq<Byte>>, filtering: bool)
    requires |uuid| == 16 && first != [] && StartsBlocks(uuid, first[0])
    requires CleanAfter(uuid, Piece(uuid, INITIAL, first[0]).state, first[1..] + rest)
    ensures var m := After(uuid, START, Read(first, filtering));
      && Tracks(m) && CleanAfter(uuid, m.state, rest)
      && |Concat(first)| >= 16 && m.state == Feed(BLOCKS, Concat(first)[16..]).state
  {
    var s := Piece(uuid, INITIAL, first[0]).state;
    FirstRead(uuid, first, rest);
    UnpadsFirst(uuid, START, Read(first, filtering));
    PiecesSplit(uuid, s, first[1..], rest);
    SplitInvariance(uuid, s, first[1..]);
    FeedSplit(BLOCKS, first[0][16..], Concat(first[1..]));
    assert Concat(first)[16..] == first[0][16..] + Concat(first[1..]);
    var t := Pieces(uuid, INITIAL, first).state;
    if InBlock(t) { forall f ensures TakesRaw(Decide(START, t), f) <==> Breaks(t, f) { HeaderSplits(START, t, f); } }
  }

  lemma {:induction false} BuffersSplit(rs: seq<Read>, i: nat)
    requires i <= |rs|
    ensures AllBuffers(rs) == AllBuffers(rs[..i]) + AllBuffers(rs[i..])
  {
    if i > 0 {
      BuffersSplit(rs[1..], i - 1);
      assert rs[..i][1..] == rs[1..][..i - 1] && rs[1..][i - 1..] == rs[i..];
    }
  }

  /** The bytes of the first reads are a first part of the stream. */
  lemma ReadSoFar(uuid: seq<Byte>, ks: seq<Block>, tail: seq<Byte>, rs: seq<Read>, i: nat)
    requires IsRead(uuid, ks, tail, rs) && 0 < i < |rs|
    ensures var p, body := Concat(AllBuffers(rs[..i])), StreamBytes(ks) + tail;
      && 16 <= |p| <= 16 + |body| && p[16..] == body[..|p| - 16]
      && p == Concat(rs[0].buffers) + Concat(AllBuffers(rs[1..][..i - 1])) && |Concat(rs[0].buffers)| >= 16
  {
    var p, q, body := Concat(AllBuffers(rs[..i])), Concat(AllBuffers(rs[i..])), StreamBytes(ks) + tail;
    BuffersSplit(rs, i);
    ConcatAppend(AllBuffers(rs[..i]), AllBuffers(rs[i..]));
    assert rs[..i][1..] == rs[1..][..i - 1];
    ConcatAppend(rs[0].buffers, AllBuffers(rs[1..][..i - 1]));
    assert p + q == uuid + body;
    assert p[16..] == (p + q)[16..|p|] && (uuid + body)[16..|p|] == body[..|p| - 16];
  }

  lemma CutIsBreak(uuid: seq<Byte>, ks: seq<Block>, tail: seq<Byte>, rs: seq<Read>, i: nat)
    requires IsRead(uuid, ks, tail, rs) && 0 < i < |rs|
    ensures |Concat(rs[0].buffers)| >= 16
    ensures BreaksAt(Feed(BLOCKS, Concat(rs[0].buffers)[16..]).state, rs[1..], i - 1) <==> CutAt(ks, rs, i)
  {
    ReadSoFar(uuid, ks, tail, rs, i);
    var p, first, more := Concat(AllBuffers(rs[..i])), Concat(rs[0].buffers), Concat(AllBuffers(rs[1..][..i - 1]));
    assert p[16..] == first[16..] + more;
    FeedSplit(BLOCKS, first[16..], more);
    StreamBreaks(BLOCKS, ks, tail, |p| - 16, rs[i].filtering);
  }

  lemma {:induction false} FirstIsLong(first: seq<seq<Byte>>)
    requires first != [] && |first[0]| >= 16
    ensures |Concat(first)| >= 16
  {
  }

  lemma BreaksAreCuts(uuid: seq<Byte>, ks: seq<Block>, tail: seq<Byte>, rs: seq<Read>)
    requires IsRead(uuid, ks, tail, rs)
    ensures |Concat(rs[0].buffers)| >= 16
    ensures SomeBreaks(Feed(BLOCKS, Concat(rs[0].buffers)[16..]).state, rs[1..]) <==> SomeCut(ks, rs)
  {
    FirstIsLong(rs[0].buffers);
    var s := Feed(BLOCKS, Concat(rs[0].buffers)[16..]).state;
    if SomeBreaks(s, rs[1..]) {
      var i := BreaksSomewhere(s, rs[1..]);
      CutIsBreak(uuid, ks, tail, rs, i + 1);
    }
    if SomeCut(ks, rs) {
      var i :| 0 < i < |rs| && CutAt(ks, rs, i);
      CutIsBreak(uuid, ks, tail, rs, i);
      BreaksHere(s, rs[1..], i - 1);
    }
  }

  /** For every stream and all reads that bring it, the reader loses track exactly if some read begins at a header cut. */
  lemma LosesTrackExactly(uuid: seq<Byte>, ks: seq<Block>, tail: seq<Byte>, rs: seq<Read>)
    requires IsRead(uuid, ks, tail, rs)
    ensures !OnTrack(uuid, START, rs) <==> SomeCut(ks, rs)
  {
    var first, rest := rs[0].buffers, rs[1..];
    StreamIsUnpadded(uuid, ks, tail, first, AllBuffers(rest));
    AfterFirst(uuid, first, AllBuffers(rest), rs[0].filtering);
    assert Read(first, rs[0].filtering) == rs[0];
    OnTrackIs(uuid, After(uuid, START, rs[0]), rest);
    BreaksAreCuts(uuid, ks, tail, rs);
  }

  /** The reader gives back what was written exactly if no read begins at a header cut. */
  lemma RecoversExactly(uuid: seq<Byte>, ks: seq<Block>, tail: seq<Byte>, rs: seq<Read>)
    requires IsRead(uuid, ks, tail, rs)
    ensures AllOutput(uuid, START, rs) == Contents(ks) + tail <==> !SomeCut(ks, rs)
  {
    ReaderRecovers(uuid, ks, tail, rs);
    LosesTrackExactly(uuid, ks, tail, rs);
  }

  /**
   An empty Continue block and a block that switches to direct copy, read up to the command of the second and then to the
   end: whatever that block holds and whatever follows it, the reader does not give back what was written.
   */
  lemma CutExample(uuid: seq<Byte>, k: Block, tail: seq<Byte>, filtering: bool)
    requires |uuid| == 16 && Fits(k) && k.command == DIRECT
    ensures var ks := [Block(CONTINUE, [], []), k];
      var rs := [Read([uuid + [0, 0, 0, 0, 0, 2]], true), Read([BlockBytes(k)[1..] + tail], filtering)];
      && Concat(AllBuffers(rs)) == Sent(uuid, ks, tail)
      && AllOutput(uuid, START, rs) != Contents(ks) + tail
  {
    var ks, a, b := [Block(CONTINUE, [], []), k], uuid + [0, 0, 0, 0, 0, 2], BlockBytes(k)[1..] + tail;
    ExampleBytes(uuid, k, tail);
    var rs := [Read([a], true), Read([b], filtering)];
    ExampleIsRead(uuid, ks, tail, a, b, filtering);
    assert rs[..1] == [rs[0]] && AllBuffers([rs[0]]) == [a] && Concat([a]) == a;
    assert CutAt(ks, rs, 1);
    RecoversExactly(uuid, ks, tail, rs);
  }

  lemma ExampleBytes(uuid: seq<Byte>, k: Block, tail: seq<Byte>)
    requires Fits(k) && k.command == DIRECT
    ensures var ks := [Block(CONTINUE, [], []), k];
      && BeforeLast(ks) == 5
      && (uuid + [0, 0, 0, 0, 0, 2]) + (BlockBytes(k)[1..] + tail) == Sent(uuid, ks, tail)
  {
    var empty := Block(CONTINUE, [], []);
    var ks := [empty, k];
    assert ks[1..] == [k] && [k][1..] == [];
    assert BlockBytes(empty) == [0, 0, 0, 0, 0] && BlockBytes(k) == [2] + BlockBytes(k)[1..];
    assert StreamBytes(ks) == BlockBytes(empty) + StreamBytes([k]) && StreamBytes([k]) == BlockBytes(k) + [];
  }

  lemma ExampleState(uuid: seq<Byte>, a: seq<Byte>)
    requires |uuid| == 16 && a == uuid + [0, 0, 0, 0, 0, 2]
    ensures StartsBlocks(uuid, a) && Piece(uuid, INITIAL, a).state == State(4, 0, 0, 2)
  {
    assert a[..16] == uuid && a[16..] == Header(0, 0, 0) + [2];
    FeedHeader(BLOCKS, 0, 0, 0);
    FeedSplit(BLOCKS, Header(0, 0, 0), [2]);
    FeedOne(State(5, 0, 0, 0), [2], State(4, 0, 0, 2), []);
  }

  /** Two reads of one buffer each, the second in a block. */
  lemma ExampleIsRead(uuid: seq<Byte>, ks: seq<Block>, tail: seq<Byte>, a: seq<Byte>, b: seq<Byte>, filtering: bool)
    requires |uuid| == 16 && IsStream(ks) && b != [] && a + b == Sent(uuid, ks, tail) && a == uuid + [0, 0, 0, 0, 0, 2]
    ensures IsRead(uuid, ks, tail, [Read([a], true), Read([b], filtering)])
    ensures Concat(AllBuffers([Read([a], true), Read([b], filtering)])) == a + b
  {
    var rs := [Read([a], true), Read([b], filtering)];
    assert rs[1..] == [rs[1]] && AllBuffers([rs[1]]) == [b] && AllBuffers(rs) == [a, b];
    assert Concat([a]) == a && Concat([b]) == b && Concat([a, b]) == a + b;
    assert [a][1..] + [b] == [b] && [b][1..] == [];
    ExampleState(uuid, a);
  }
}
