/**
 The reader of a Vision connection (proxy/proxy.go, VisionReader.ReadMultiBuffer) decides after every read whether the next
 one is unpadded, from the sizes and the command of the block it is in but not from how much of the header is still to
 come. In the statements what it takes out of the TLS layer when it switches to direct copy is a read of its own.
 */
module VisionReading {
  import opened Buffers
  import opened Options
  import opened Vision

  /** One read: its buffers, and whether packets are still being filtered. */
  datatype Read = Read(buffers: seq<seq<Byte>>, filtering: bool)

  /** What the reader knows: the unpadder's state, and whether it is within padding or copies directly. */
  datatype Mode = Mode(state: State, within: bool, direct: bool)

  const START := Mode(INITIAL, true, false)

  predicate Ok(m: Mode) {
    InBlock(m.state) || IsInitial(m.state)
  }

  /** The read is passed on as it is. */
  predicate TakesRaw(m: Mode, filtering: bool) {
    m.direct || !(m.within || filtering)
  }

  /** What the reader makes of the state after a read that it has unpadded. */
  function Decide(m: Mode, s: State): Mode {
    if s.content > 0 || s.padding > 0 || s.current == 0 then Mode(s, true, m.direct)
    else if s.current == 1 then Mode(s, false, m.direct)
    else if s.current == 2 then Mode(s, false, true)
    else Mode(s, m.within, m.direct)
  }

  function After(uuid: seq<Byte>, m: Mode, r: Read): (m': Mode)
    requires Ok(m)
    ensures Ok(m')
  {
    if TakesRaw(m, r.filtering) then m
    else
      PiecesOk(uuid, m.state, r.buffers);
      Decide(m, Pieces(uuid, m.state, r.buffers).state)
  }

  function Output(uuid: seq<Byte>, m: Mode, r: Read): seq<Byte>
    requires Ok(m)
  {
    if TakesRaw(m, r.filtering) then Concat(r.buffers) else Pieces(uuid, m.state, r.buffers).out
  }

  function AllOutput(uuid: seq<Byte>, m: Mode, rs: seq<Read>): seq<Byte>
    requires Ok(m)
    decreases |rs|
  {
    if rs == [] then [] else Output(uuid, m, rs[0]) + AllOutput(uuid, After(uuid, m, rs[0]), rs[1..])
  }

  lemma {:induction false} PiecesOk(uuid: seq<Byte>, s: State, ps: seq<seq<Byte>>)
    requires InBlock(s) || IsInitial(s)
    ensures InBlock(Pieces(uuid, s, ps).state) || IsInitial(Pieces(uuid, s, ps).state)
    decreases |ps|
  {
    if ps != [] { PiecesOk(uuid, Piece(uuid, s, ps[0]).state, ps[1..]); }
  }

  class Reader {
    const receiver: Receiver
    var within: bool
    var direct: bool

    ghost function Now(): Mode
      reads this, receiver
    {
      Mode(receiver.Now(), within, direct)
    }

    constructor (userUUID: seq<Byte>)
      ensures Now() == START && receiver.userUUID == userUUID && fresh(receiver)
    {
      receiver := new Receiver(userUUID);
      within, direct := true, false;
    }

    /**
     ReadMultiBuffer of what one read has brought. A read that switches to direct copy also brings what is taken out of the
     TLS layer, or fails with that.
     */
    method ReadMultiBuffer(r: Read, taken: Option<seq<seq<Byte>>>) returns (out: Option<seq<seq<Byte>>>)
      requires receiver.Valid() && forall i :: 0 <= i < |r.buffers| ==> |r.buffers[i]| <= SIZE
      modifies this, receiver
      ensures receiver.Valid()
      ensures var m := After(receiver.userUUID, old(Now()), r);
        if old(direct) || !m.direct
        then Now() == m && out.Some? && Concat(out.value) == Output(receiver.userUUID, old(Now()), r)
        else if taken == None then Now() == m.(direct := false) && out == None
        else Now() == m && out.Some? && Concat(out.value) == Output(receiver.userUUID, old(Now()), r) + Concat(taken.value)
    {
      if direct { return Some(r.buffers); }
      if !within && !r.filtering { return Some(r.buffers); }
      var unpadded := Unpad(r.buffers);
      if receiver.remainingContent > 0 || receiver.remainingPadding > 0 || receiver.currentCommand == 0 {
        within := true;
      } else if receiver.currentCommand == 1 {
        within := false;
      } else if receiver.currentCommand == 2 {
        within, direct := false, true;
      }
      if direct {
        if taken == None {
          direct := false;
          return None;
        }
        ConcatAppend(unpadded, taken.value);
        return Some(unpadded + taken.value);
      }
      out := Some(unpadded);
    }

    /** The loop that unpads the buffers of a read and drops those that are empty then. */
    method Unpad(buffers: seq<seq<Byte>>) returns (out: seq<seq<Byte>>)
      requires receiver.Valid() && forall i :: 0 <= i < |buffers| ==> |buffers[i]| <= SIZE
      modifies receiver
      ensures receiver.Valid()
      ensures Pieces(receiver.userUUID, old(receiver.Now()), buffers) == Fed(receiver.Now(), Concat(out))
    {
      out := [];
      for i := 0 to |buffers|
        invariant receiver.Valid()
        invariant Pieces(receiver.userUUID, old(receiver.Now()), buffers[..i]) == Fed(receiver.Now(), Concat(out))
      {
        var newbuffer := receiver.XtlsUnpadding(buffers[i]);
        PiecesNext(receiver.userUUID, old(receiver.Now()), buffers, i);
        ConcatOne(out, newbuffer);
        if |newbuffer| > 0 { out := out + [newbuffer]; }
      }
      assert buffers[..|buffers|] == buffers;
    }
  }

  lemma {:induction false} PiecesOne(uuid: seq<Byte>, s: State, ps: seq<seq<Byte>>, p: seq<Byte>)
    requires InBlock(s) || IsInitial(s)
    ensures var r := Pieces(uuid, s, ps);
      && (InBlock(r.state) || IsInitial(r.state))
      && Pieces(uuid, s, ps + [p]) == Fed(Piece(uuid, r.state, p).state, r.out + Piece(uuid, r.state, p).out)
    decreases |ps|
  {
    PiecesOk(uuid, s, ps);
    if ps == [] {
      assert (ps + [p])[1..] == [];
      assert Pieces(uuid, s, [p]).out == Piece(uuid, s, p).out + [];
    } else {
      assert (ps + [p])[1..] == ps[1..] + [p];
      var one := Piece(uuid, s, ps[0]);
      PiecesOne(uuid, one.state, ps[1..], p);
      var r := Pieces(uuid, one.state, ps[1..]);
      Assoc(one.out, r.out, Piece(uuid, r.state, p).out);
    }
  }

  lemma PiecesNext(uuid: seq<Byte>, s: State, ps: seq<seq<Byte>>, i: nat)
    requires (InBlock(s) || IsInitial(s)) && i < |ps|
    ensures var r := Pieces(uuid, s, ps[..i]);
      && (InBlock(r.state) || IsInitial(r.state))
      && Pieces(uuid, s, ps[..i + 1]) == Fed(Piece(uuid, r.state, ps[i]).state, r.out + Piece(uuid, r.state, ps[i]).out)
  {
    PiecesOne(uuid, s, ps[..i], ps[i]);
    assert ps[..i + 1] == ps[..i] + [ps[i]];
  }

  // Against the unpadder alone.

  /** The buffers of all reads in order. */
  function AllBuffers(rs: seq<Read>): seq<seq<Byte>> {
    if rs == [] then [] else rs[0].buffers + AllBuffers(rs[1..])
  }

  /** The unpadder alone on everything that is read. */
  function Unpadded(uuid: seq<Byte>, s: State, rs: seq<Read>): seq<Byte>
    requires InBlock(s) || IsInitial(s)
  {
    Pieces(uuid, s, AllBuffers(rs)).out
  }

  lemma {:induction false} PiecesSplit(uuid: seq<Byte>, s: State, ps: seq<seq<Byte>>, qs: seq<seq<Byte>>)
    requires InBlock(s) || IsInitial(s)
    ensures var r := Pieces(uuid, s, ps);
      && (InBlock(r.state) || IsInitial(r.state))
      && Pieces(uuid, s, ps + qs).out == r.out + Pieces(uuid, r.state, qs).out
    ensures CleanAfter(uuid, s, ps + qs) <==> CleanAfter(uuid, s, ps) && CleanAfter(uuid, Pieces(uuid, s, ps).state, qs)
    decreases |ps|
  {
    PiecesOk(uuid, s, ps);
    if ps == [] {
      assert ps + qs == qs;
      assert [] + Pieces(uuid, s, qs).out == Pieces(uuid, s, qs).out;
    } else {
      assert (ps + qs)[1..] == ps[1..] + qs && (ps + qs)[0] == ps[0];
      var one := Piece(uuid, s, ps[0]);
      PiecesSplit(uuid, one.state, ps[1..], qs);
      var r := Pieces(uuid, one.state, ps[1..]);
      Assoc(one.out, r.out, Pieces(uuid, r.state, qs).out);
    }
  }

  /** No read is passed on as it is while a block is under way. */
  ghost predicate OnTrack(uuid: seq<Byte>, m: Mode, rs: seq<Read>)
    requires Ok(m)
    decreases |rs|
  {
    rs == [] || ((TakesRaw(m, rs[0].filtering) ==> IsInitial(m.state)) && OnTrack(uuid, After(uuid, m, rs[0]), rs[1..]))
  }

  /** In the initial state bytes pass the unpadder unchanged. */
  lemma {:induction false} InitialPasses(uuid: seq<Byte>, s: State, ps: seq<seq<Byte>>)
    requires IsInitial(s) && CleanAfter(uuid, s, ps)
    ensures Pieces(uuid, s, ps) == Fed(s, Concat(ps))
    decreases |ps|
  {
    if ps != [] { InitialPasses(uuid, s, ps[1..]); }
  }

  /** The first read apart from the others. */
  lemma FirstApart(uuid: seq<Byte>, m: Mode, rs: seq<Read>)
    requires Ok(m) && rs != [] && CleanAfter(uuid, m.state, AllBuffers(rs))
    ensures CleanAfter(uuid, m.state, rs[0].buffers)
    ensures !TakesRaw(m, rs[0].filtering) || IsInitial(m.state) ==>
      && CleanAfter(uuid, After(uuid, m, rs[0]).state, AllBuffers(rs[1..]))
      && Unpadded(uuid, m.state, rs) == Output(uuid, m, rs[0]) + Unpadded(uuid, After(uuid, m, rs[0]).state, rs[1..])
  {
    var first, rest := rs[0].buffers, AllBuffers(rs[1..]);
    assert AllBuffers(rs) == first + rest;
    PiecesSplit(uuid, m.state, first, rest);
    if !TakesRaw(m, rs[0].filtering) {
      UnpadsFirst(uuid, m, rs[0]);
    } else if IsInitial(m.state) {
      InitialPasses(uuid, m.state, first);
    }
  }

  lemma UnpadsFirst(uuid: seq<Byte>, m: Mode, r: Read)
    requires Ok(m) && !TakesRaw(m, r.filtering)
    ensures After(uuid, m, r).state == Pieces(uuid, m.state, r.buffers).state
    ensures Output(uuid, m, r) == Pieces(uuid, m.state, r.buffers).out
  {
  }

  lemma {:induction false} OnTrackRecovers(uuid: seq<Byte>, m: Mode, rs: seq<Read>)
    requires Ok(m) && CleanAfter(uuid, m.state, AllBuffers(rs)) && OnTrack(uuid, m, rs)
    ensures AllOutput(uuid, m, rs) == Unpadded(uuid, m.state, rs)
    decreases |rs|
  {
    if rs != [] {
      FirstApart(uuid, m, rs);
      OnTrackRecovers(uuid, After(uuid, m, rs[0]), rs[1..]);
    }
  }

  /** Packets are filtered up to some read and never after. */
  ghost predicate FiltersFirst(rs: seq<Read>) {
    forall i, j :: 0 <= i < j < |rs| && rs[j].filtering ==> rs[i].filtering
  }

  ghost predicate NoneEmpty(rs: seq<Read>) {
    forall i :: 0 <= i < |rs| ==> Concat(rs[i].buffers) != []
  }

  /** A reader that has stopped unpadding does not start again. */
  lemma {:induction false} RawStays(uuid: seq<Byte>, m: Mode, rs: seq<Read>)
    requires Ok(m) && FiltersFirst(rs) && rs != [] && TakesRaw(m, rs[0].filtering)
    ensures AllOutput(uuid, m, rs) == Concat(AllBuffers(rs))
    decreases |rs|
  {
    var rest := rs[1..];
    ConcatAppend(rs[0].buffers, AllBuffers(rest));
    if rest != [] {
      assert rs[1] == rest[0] && FiltersFirst(rest);
      RawStays(uuid, m, rest);
    }
  }

  /** Inside a header the unpadder takes at least one byte away. */
  lemma HeaderShrinks(uuid: seq<Byte>, s: State, ps: seq<seq<Byte>>)
    requires InBlock(s) && s.command > 0 && Concat(ps) != [] && CleanAfter(uuid, s, ps)
    ensures |Pieces(uuid, s, ps).out| < |Concat(ps)|
  {
    var b := Concat(ps);
    SplitInvariance(uuid, s, ps);
    NextStateOk(s, b[0]);
    FeedOne(s, b, NextState(s, b[0]), []);
  }

  /** A header is begun with the command of a finished block, which is Continue. */
  ghost predicate Sane(s: State) {
    InBlock(s) && s.command == 5 ==> s.current == 0
  }

  lemma {:induction false} FeedSane(s: State, bs: seq<Byte>)
    requires (InBlock(s) || IsInitial(s)) && Sane(s)
    ensures Sane(Feed(s, bs).state)
    decreases |bs|
  {
    if bs != [] && !IsInitial(s) {
      NextStateOk(s, bs[0]);
      FeedSane(NextState(s, bs[0]), bs[1..]);
    }
  }

  /** The last block is left only for the initial state. */
  lemma {:induction false} FeedLast(s: State, bs: seq<Byte>)
    requires InBlock(s) && s.command < 5 && s.current != 0
    ensures var t := Feed(s, bs).state; t.current == s.current && (IsInitial(t) || (InBlock(t) && t.command < 5))
    decreases |bs|
  {
    if bs != [] {
      NextStateOk(s, bs[0]);
      var t := NextState(s, bs[0]);
      if !IsInitial(t) { FeedLast(t, bs[1..]); }
    }
  }

  /** A mode in which a read may be passed on as it is has a block under way only in the header of the last one. */
  ghost predicate Headed(m: Mode) {
    && Ok(m) && Sane(m.state)
    && (InBlock(m.state) && (m.direct || !m.within) ==> 0 < m.state.command < 5 && 1 <= m.state.current <= 2)
  }

  lemma HeadedNext(uuid: seq<Byte>, m: Mode, r: Read)
    requires Headed(m) && CleanAfter(uuid, m.state, r.buffers)
    ensures Headed(After(uuid, m, r))
  {
    if !TakesRaw(m, r.filtering) {
      SplitInvariance(uuid, m.state, r.buffers);
      FeedSane(m.state, Concat(r.buffers));
      if InBlock(m.state) && !m.within { FeedLast(m.state, Concat(r.buffers)); }
    }
  }

  /** Exactly which reads throw the next one off: those that end in a header of which no size is above zero yet. */
  lemma HeaderSplits(m: Mode, s: State, filtering: bool)
    requires m.within && !m.direct && InBlock(s) && Sane(s)
    ensures TakesRaw(Decide(m, s), filtering) <==>
      s.content <= 0 && s.padding <= 0 && (s.current == 2 || (s.current == 1 && !filtering))
    ensures TakesRaw(Decide(m, s), filtering) ==> 1 <= s.command <= 4
  {
  }

  lemma {:induction false} StaysInitial(uuid: seq<Byte>, m: Mode, rs: seq<Read>)
    requires IsInitial(m.state) && CleanAfter(uuid, m.state, AllBuffers(rs))
    ensures OnTrack(uuid, m, rs)
    decreases |rs|
  {
    if rs != [] {
      FirstApart(uuid, m, rs);
      InitialPasses(uuid, m.state, rs[0].buffers);
      StaysInitial(uuid, After(uuid, m, rs[0]), rs[1..]);
    }
  }

  /** A read that is passed on inside a header leaks its bytes, and everything after it. */
  lemma RawLeaks(uuid: seq<Byte>, m: Mode, rs: seq<Read>)
    requires rs != [] && InBlock(m.state) && m.state.command > 0 && TakesRaw(m, rs[0].filtering)
    requires CleanAfter(uuid, m.state, AllBuffers(rs)) && FiltersFirst(rs) && NoneEmpty(rs)
    ensures |AllOutput(uuid, m, rs)| > |Unpadded(uuid, m.state, rs)|
  {
    ConcatAppend(rs[0].buffers, AllBuffers(rs[1..]));
    assert Concat(rs[0].buffers) != [];
    RawStays(uuid, m, rs);
    HeaderShrinks(uuid, m.state, AllBuffers(rs));
  }

  lemma {:induction false} OffTrackDiffers(uuid: seq<Byte>, m: Mode, rs: seq<Read>)
    requires Headed(m) && CleanAfter(uuid, m.state, AllBuffers(rs)) && FiltersFirst(rs) && NoneEmpty(rs)
    requires !OnTrack(uuid, m, rs)
    ensures |AllOutput(uuid, m, rs)| > |Unpadded(uuid, m.state, rs)|
    decreases |rs|
  {
    if IsInitial(m.state) {
      StaysInitial(uuid, m, rs);
      assert false;
    } else if TakesRaw(m, rs[0].filtering) {
      RawLeaks(uuid, m, rs);
    } else {
      FirstApart(uuid, m, rs);
      HeadedNext(uuid, m, rs[0]);
      assert forall i :: 0 <= i < |rs[1..]| ==> rs[1..][i] == rs[i + 1];
      OffTrackDiffers(uuid, After(uuid, m, rs[0]), rs[1..]);
    }
  }

  /** The first read takes the reader into the stream. */
  lemma FirstRead(uuid: seq<Byte>, first: seq<seq<Byte>>, rest: seq<seq<Byte>>)
    requires |uuid| == 16 && first != [] && StartsBlocks(uuid, first[0])
    requires CleanAfter(uuid, Piece(uuid, INITIAL, first[0]).state, first[1..] + rest)
    ensures var s := Pieces(uuid, INITIAL, first).state;
      (InBlock(s) || IsInitial(s)) && Sane(s) && CleanAfter(uuid, s, rest)
  {
    var s := Piece(uuid, INITIAL, first[0]).state;
    PiecesOk(uuid, INITIAL, first);
    PiecesSplit(uuid, s, first[1..], rest);
    FeedSane(State(5, -1, -1, 0), first[0][16..]);
    SplitInvariance(uuid, s, first[1..]);
    FeedSane(s, Concat(first[1..]));
  }

  /** The reader after its first read gives back what the unpadder does exactly if it is on track. */
  lemma RestRecovers(uuid: seq<Byte>, m: Mode, rs: seq<Read>)
    requires Headed(m) && CleanAfter(uuid, m.state, AllBuffers(rs)) && FiltersFirst(rs) && NoneEmpty(rs)
    ensures AllOutput(uuid, m, rs) == Unpadded(uuid, m.state, rs) <==> OnTrack(uuid, m, rs)
  {
    if OnTrack(uuid, m, rs) { OnTrackRecovers(uuid, m, rs); } else { OffTrackDiffers(uuid, m, rs); }
  }

  lemma AllRecovers(uuid: seq<Byte>, rs: seq<Read>)
    requires |uuid| == 16 && rs != [] && NoneEmpty(rs) && FiltersFirst(rs)
    requires rs[0].buffers != [] && StartsBlocks(uuid, rs[0].buffers[0])
    requires CleanAfter(uuid, Piece(uuid, INITIAL, rs[0].buffers[0]).state, rs[0].buffers[1..] + AllBuffers(rs[1..]))
    ensures AllOutput(uuid, START, rs) == Unpadded(uuid, INITIAL, rs) <==> OnTrack(uuid, START, rs)
  {
    var rest, m := rs[1..], After(uuid, START, rs[0]);
    FirstRead(uuid, rs[0].buffers, AllBuffers(rest));
    UnpadsFirst(uuid, START, rs[0]);
    PiecesSplit(uuid, INITIAL, rs[0].buffers, AllBuffers(rest));
    assert forall i :: 0 <= i < |rest| ==> rest[i] == rs[i + 1];
    RestRecovers(uuid, m, rest);
    Cancel(Output(uuid, START, rs[0]), AllOutput(uuid, m, rest), Unpadded(uuid, m.state, rest));
  }

  lemma Cancel(a: seq<Byte>, x: seq<Byte>, y: seq<Byte>)
    ensures a + x == a + y <==> x == y
  {
    assert (a + x)[|a|..] == x && (a + y)[|a|..] == y;
  }

  lemma StreamIsUnpadded(uuid: seq<Byte>, ks: seq<Block>, tail: seq<Byte>, first: seq<seq<Byte>>, rest: seq<seq<Byte>>)
    requires |uuid| == 16 && IsStream(ks) && first != [] && |first[0]| >= 21 && Concat(first + rest) == Sent(uuid, ks, tail)
    requires CleanAfter(uuid, Piece(uuid, INITIAL, first[0]).state, first[1..] + rest)
    ensures StartsBlocks(uuid, first[0]) && Pieces(uuid, INITIAL, first + rest).out == Contents(ks) + tail
  {
    var ps := first + rest;
    assert ps[0] == first[0] && ps[1..] == first[1..] + rest;
    FirstPieceStarts(uuid, StreamBytes(ks) + tail, ps);
    RecoveredAfter(uuid, ks, tail, ps);
  }

  /**
   The reader gives back what was written exactly if it is on track: for every stream, cut into reads and buffers in any
   way, the first buffer with at least 21 bytes and no piece of the tail like a start.
   */
  lemma ReaderRecovers(uuid: seq<Byte>, ks: seq<Block>, tail: seq<Byte>, rs: seq<Read>)
    requires |uuid| == 16 && IsStream(ks) && rs != [] && NoneEmpty(rs) && FiltersFirst(rs)
    requires rs[0].buffers != [] && |rs[0].buffers[0]| >= 21 && Concat(AllBuffers(rs)) == Sent(uuid, ks, tail)
    requires CleanAfter(uuid, Piece(uuid, INITIAL, rs[0].buffers[0]).state, rs[0].buffers[1..] + AllBuffers(rs[1..]))
    ensures AllOutput(uuid, START, rs) == Contents(ks) + tail <==> OnTrack(uuid, START, rs)
  {
    StreamIsUnpadded(uuid, ks, tail, rs[0].buffers, AllBuffers(rs[1..]));
    AllRecovers(uuid, rs);
  }
}
