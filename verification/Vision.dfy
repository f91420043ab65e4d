/** XTLS Vision padding (proxy/proxy.go: XtlsPadding, XtlsUnpadding, ReshapeMultiBuffer, IsCompleteRecord). */
module Vision {

  import opened Arithmetic
  import opened Buffers
  import opened Options

  const CONTINUE: Byte := 0
  const END: Byte := 1
  const DIRECT: Byte := 2

  // The receiver as a machine over single bytes.

  /** The fields RemainingCommand, RemainingContent, RemainingPadding and CurrentCommand of one direction. */
  datatype State = State(command: int, content: int, padding: int, current: int)

  const INITIAL := State(-1, -1, -1, 0)

  predicate IsInitial(s: State) {
    s.command == -1 && s.content == -1 && s.padding == -1
  }

  /** Inside a block: in its header, or with content or padding still to come. */
  predicate InBlock(s: State) {
    || (1 <= s.command <= 5 && (s.command <= 3 ==> s.content >= 0) && (s.command <= 1 ==> s.padding >= 0))
    || (s.command == 0 && s.content >= 0 && s.padding >= 0 && s.content + s.padding > 0)
  }

  /** A low size byte is added; that is the bitwise or of the source, because the high one was stored as a multiple of 256. */
  function HeaderByte(s: State, x: Byte): State
    requires 1 <= s.command <= 5
  {
    var t := match s.command
      case 5 => s.(current := x)
      case 4 => s.(content := x * 256)
      case 3 => s.(content := s.content + x)
      case 2 => s.(padding := x * 256)
      case _ => s.(padding := s.padding + x);
    t.(command := s.command - 1)
  }

  /** A finished block leads to the next header, or after any command but Continue to the initial state. */
  function Settle(s: State): State {
    if s.command <= 0 && s.content <= 0 && s.padding <= 0 then
      if s.current == 0 then s.(command := 5) else State(-1, -1, -1, s.current)
    else s
  }

  function NextState(s: State, x: Byte): State
    requires InBlock(s)
  {
    Settle(if s.command > 0 then HeaderByte(s, x)
           else if s.content > 0 then s.(content := s.content - 1)
           else s.(padding := s.padding - 1))
  }

  function Emits(s: State, x: Byte): seq<Byte> {
    if s.command <= 0 && s.content > 0 then [x] else []
  }

  lemma NextStateOk(s: State, x: Byte)
    requires InBlock(s)
    ensures InBlock(NextState(s, x)) || IsInitial(NextState(s, x))
  {}

  datatype Fed = Fed(state: State, out: seq<Byte>)

  /** Feeds bytes to a block; what follows the last block in the same piece passes unchanged. */
  function Feed(s: State, bs: seq<Byte>): (r: Fed)
    requires InBlock(s) || IsInitial(s)
    ensures (InBlock(r.state) || IsInitial(r.state)) && |r.out| <= |bs|
    decreases |bs|
  {
    if bs == [] || IsInitial(s) then Fed(s, bs)
    else
      NextStateOk(s, bs[0]);
      var r := Feed(NextState(s, bs[0]), bs[1..]);
      Fed(r.state, Emits(s, bs[0]) + r.out)
  }

  /** Feeding in two parts is feeding the whole; after the last block the second part passes unchanged. */
  lemma {:induction false} FeedSplit(s: State, a: seq<Byte>, b: seq<Byte>)
    requires InBlock(s) || IsInitial(s)
    ensures var r := Feed(s, a);
            Feed(s, a + b) == Fed(Feed(r.state, b).state, r.out + Feed(r.state, b).out)
    decreases |a|
  {
    if a == [] {
      assert a + b == b;
      var r := Feed(s, b);
      assert [] + r.out == r.out;
    } else if IsInitial(s) {
      assert Feed(s, b) == Fed(s, b);
    } else {
      NextStateOk(s, a[0]);
      var t, e := NextState(s, a[0]), Emits(s, a[0]);
      FeedSplit(t, a[1..], b);
      assert (a + b)[0] == a[0] && (a + b)[1..] == a[1..] + b;
      FeedOne(s, a, t, e);
      FeedOne(s, a + b, t, e);
      var r := Feed(t, a[1..]);
      Assoc(e, r.out, Feed(r.state, b).out);
    }
  }

  lemma FeedOne(s: State, bs: seq<Byte>, t: State, e: seq<Byte>)
    requires InBlock(s) && bs != [] && t == NextState(s, bs[0]) && e == Emits(s, bs[0])
    ensures InBlock(t) || IsInitial(t)
    ensures Feed(s, bs) == Fed(Feed(t, bs[1..]).state, e + Feed(t, bs[1..]).out)
  {}

  /** A run of content bytes is emitted as it is. */
  lemma {:induction false} FeedContent(s: State, bs: seq<Byte>)
    requires InBlock(s) && s.command == 0 && 0 < |bs| <= s.content
    ensures Feed(s, bs) == Fed(Settle(s.(content := s.content - |bs|)), bs)
    decreases |bs|
  {
    assert Feed(s, bs).out == [bs[0]] + Feed(NextState(s, bs[0]), bs[1..]).out;
    if |bs| > 1 {
      FeedContent(NextState(s, bs[0]), bs[1..]);
    }
    assert [bs[0]] + bs[1..] == bs;
  }

  /** A run of padding bytes is dropped. */
  lemma {:induction false} FeedPadding(s: State, bs: seq<Byte>)
    requires InBlock(s) && s.command == 0 && s.content == 0 && 0 < |bs| <= s.padding
    ensures Feed(s, bs) == Fed(Settle(s.(padding := s.padding - |bs|)), [])
    decreases |bs|
  {
    if |bs| > 1 { FeedPadding(NextState(s, bs[0]), bs[1..]); }
  }

  /** One piece of the stream: only in the initial state, and only with a whole first header, does the UUID start a block. */
  predicate StartsBlocks(uuid: seq<Byte>, b: seq<Byte>) {
    |b| >= 21 && b[..16] == uuid
  }

  function Piece(uuid: seq<Byte>, s: State, b: seq<Byte>): (r: Fed)
    requires InBlock(s) || IsInitial(s)
    ensures InBlock(r.state) || IsInitial(r.state)
  {
    if !IsInitial(s) then Feed(s, b)
    else if StartsBlocks(uuid, b) then Feed(State(5, -1, -1, s.current), b[16..])
    else Fed(s, b)
  }

  /** What a buffer keeps of bytes written to it one after another. */
  function Cap(x: seq<Byte>): (c: seq<Byte>)
    ensures |c| <= SIZE
  {
    if |x| <= SIZE then x else x[..SIZE]
  }

  lemma WriteCap(x: seq<Byte>, data: seq<Byte>)
    ensures Write(Cap(x), data) == Cap(x + data)
  {
    if |x| <= SIZE && |x + data| > SIZE {
      assert (x + data)[..SIZE] == x + data[..SIZE - |x|];
    } else if |x| > SIZE {
      assert (x + data)[..SIZE] == x[..SIZE];
      assert data[..0] == [];
    }
  }

  class Receiver {
    const userUUID: seq<Byte>
    var remainingCommand: int
    var remainingContent: int
    var remainingPadding: int
    var currentCommand: int

    constructor (userUUID: seq<Byte>)
      ensures this.userUUID == userUUID && Now() == INITIAL
    {
      this.userUUID := userUUID;
      remainingCommand, remainingContent, remainingPadding, currentCommand := -1, -1, -1, 0;
    }

    function Now(): State
      reads this
    {
      State(remainingCommand, remainingContent, remainingPadding, currentCommand)
    }

    ghost predicate Valid()
      reads this
    {
      InBlock(Now()) || IsInitial(Now())
    }

    /** The byte loop's header case. */
    method ReadHeaderByte(data: Byte)
      requires 1 <= remainingCommand <= 5
      modifies this
      ensures Now() == HeaderByte(old(Now()), data)
    {
      match remainingCommand {
        case 5 => currentCommand := data;
        case 4 => remainingContent := data * 256;
        case 3 => remainingContent := remainingContent + data;
        case 2 => remainingPadding := data * 256;
        case _ => remainingPadding := remainingPadding + data;
      }
      remainingCommand := remainingCommand - 1;
    }

    /** One turn of the loop: a header byte, or as much content or padding as is there. At least one byte is used. */
    method Turn(b: seq<Byte>) returns (used: nat, written: seq<Byte>, done: bool)
      requires InBlock(Now()) && b != []
      modifies this
      ensures 1 <= used <= |b| && Valid() && (done <==> IsInitial(Now()))
      ensures Feed(old(Now()), b[..used]) == Fed(Now(), written)
    {
      ghost var s := Now();
      written, done := [], false;
      if remainingCommand > 0 {
        used := 1;
        ReadHeaderByte(b[0]);
        assert b[..1] == [b[0]];
        FeedOne(s, b[..1], NextState(s, b[0]), []);
      } else if remainingContent > 0 {
        used := if |b| < remainingContent then |b| else remainingContent;
        written := b[..used];
        FeedContent(s, b[..used]);
        remainingContent := remainingContent - used;
      } else {
        used := if |b| < remainingPadding then |b| else remainingPadding;
        FeedPadding(s, b[..used]);
        remainingPadding := remainingPadding - used;
      }
      if remainingCommand <= 0 && remainingContent <= 0 && remainingPadding <= 0 {
        if currentCommand == 0 {
          remainingCommand := 5;
        } else {
          remainingCommand, remainingContent, remainingPadding := -1, -1, -1;
          done := true;
        }
      }
    }

    /** XtlsUnpadding of one buffer. */
    method XtlsUnpadding(b: seq<Byte>) returns (out: seq<Byte>)
      requires Valid()
      modifies this
      ensures Valid()
      ensures Now() == Piece(userUUID, old(Now()), b).state
      ensures |b| <= SIZE ==> out == Piece(userUUID, old(Now()), b).out
    {
      var rest := b;
      if IsInitial(Now()) {
        if |b| >= 21 && userUUID == b[..16] {
          rest := b[16..];
          remainingCommand := 5;
        } else {
          return b;
        }
      }
      ghost var s, whole, fed := Now(), rest, [];
      out := [];
      while |rest| > 0
        invariant InBlock(Now()) && out == Cap(fed)
        invariant Feed(s, whole) == Fed(Feed(Now(), rest).state, fed + Feed(Now(), rest).out)
        decreases |rest|
      {
        ghost var before := Now();
        var used, written, done := Turn(rest);
        FeedSplit(before, rest[..used], rest[used..]);
        assert rest[..used] + rest[used..] == rest;
        Assoc(fed, written, Feed(Now(), rest[used..]).out);
        WriteCap(fed, written);
        out, fed, rest := Write(out, written), fed + written, rest[used..];
        if done {
          WriteCap(fed, rest);
          out := Write(out, rest);
          return;
        }
      }
      assert fed + [] == fed;
    }
  }

  // The sender's side of the format.

  datatype Block = Block(command: Byte, content: seq<Byte>, padding: seq<Byte>)

  ghost predicate Fits(k: Block) {
    |k.content| < 0x1_0000 && |k.padding| < 0x1_0000
  }

  function Header(command: Byte, content: nat, padding: nat): seq<Byte>
    requires content < 0x1_0000 && padding < 0x1_0000
  {
    [command, content / 256, content % 256, padding / 256, padding % 256]
  }

  function BlockBytes(k: Block): seq<Byte>
    requires Fits(k)
  {
    Header(k.command, |k.content|, |k.padding|) + k.content + k.padding
  }

  /** Continue blocks, then one block with another command. */
  ghost predicate IsStream(ks: seq<Block>) {
    && ks != [] && (forall i :: 0 <= i < |ks| ==> Fits(ks[i]))
    && (forall i :: 0 <= i < |ks| - 1 ==> ks[i].command == CONTINUE) && ks[|ks| - 1].command != CONTINUE
  }

  function StreamBytes(ks: seq<Block>): seq<Byte>
    requires forall i :: 0 <= i < |ks| ==> Fits(ks[i])
  {
    if ks == [] then [] else BlockBytes(ks[0]) + StreamBytes(ks[1..])
  }

  function Contents(ks: seq<Block>): seq<Byte> {
    if ks == [] then [] else ks[0].content + Contents(ks[1..])
  }

  /** A header is read back: its command, and its two lengths. */
  lemma FeedHeader(s: State, command: Byte, content: nat, padding: nat)
    requires InBlock(s) && s.command == 5 && content < 0x1_0000 && padding < 0x1_0000
    ensures Feed(s, Header(command, content, padding)) == Fed(Settle(State(0, content, padding, command)), [])
  {
    var h := Header(command, content, padding);
    var s4 := s.(current := command, command := 4);
    var s3 := s4.(content := content / 256 * 256, command := 3);
    var s2 := s3.(content := content, command := 2);
    var s1 := s2.(padding := padding / 256 * 256, command := 1);
    FeedOne(s, h, s4, []);
    FeedOne(s4, h[1..], s3, []);
    FeedOne(s3, h[2..], s2, []);
    FeedOne(s2, h[3..], s1, []);
    FeedOne(s1, h[4..], Settle(State(0, content, padding, command)), []);
    assert h[1..][1..] == h[2..] && h[2..][1..] == h[3..] && h[3..][1..] == h[4..] && h[4..][1..] == [];
  }

  /** A whole block yields its content and nothing else. */
  lemma FeedBlock(s: State, k: Block)
    requires InBlock(s) && s.command == 5 && Fits(k)
    ensures Feed(s, BlockBytes(k)) ==
      Fed(if k.command == CONTINUE then State(5, 0, 0, 0) else State(-1, -1, -1, k.command), k.content)
  {
    var h, c, q := Header(k.command, |k.content|, |k.padding|), k.content, k.padding;
    var after := State(0, |c|, |q|, k.command);
    FeedHeader(s, k.command, |c|, |q|);
    FeedSplit(s, h, c + q);
    assert BlockBytes(k) == h + (c + q);
    if |c| + |q| == 0 {
      assert c + q == [];
    } else {
      if c == [] {
        assert c + q == q;
        FeedPadding(after, q);
      } else {
        FeedContent(after, c);
        FeedSplit(after, c, q);
        if q != [] { FeedPadding(after.(content := 0), q); }
      }
    }
  }

  lemma {:induction false} FeedStream(s: State, ks: seq<Block>)
    requires InBlock(s) && s.command == 5 && IsStream(ks)
    ensures Feed(s, StreamBytes(ks)) == Fed(State(-1, -1, -1, ks[|ks| - 1].command), Contents(ks))
    decreases |ks|
  {
    FeedBlock(s, ks[0]);
    FeedSplit(s, BlockBytes(ks[0]), StreamBytes(ks[1..]));
    if |ks| > 1 {
      FeedStream(State(5, 0, 0, 0), ks[1..]);
    }
  }

  // The stream arrives in pieces.

  function Pieces(uuid: seq<Byte>, s: State, ps: seq<seq<Byte>>): Fed
    requires InBlock(s) || IsInitial(s)
    decreases |ps|
  {
    if ps == [] then Fed(s, [])
    else
      var one := Piece(uuid, s, ps[0]);
      var rest := Pieces(uuid, one.state, ps[1..]);
      Fed(rest.state, one.out + rest.out)
  }

  /** No piece that arrives in the initial state looks like the start of blocks. */
  ghost predicate CleanAfter(uuid: seq<Byte>, s: State, ps: seq<seq<Byte>>)
    requires InBlock(s) || IsInitial(s)
    decreases |ps|
  {
    if ps == [] then true
    else
      (IsInitial(s) ==> !StartsBlocks(uuid, ps[0])) && CleanAfter(uuid, Piece(uuid, s, ps[0]).state, ps[1..])
  }

  /** However a stream is split, its pieces yield together what the whole yields. */
  lemma {:induction false} SplitInvariance(uuid: seq<Byte>, s: State, ps: seq<seq<Byte>>)
    requires (InBlock(s) || IsInitial(s)) && CleanAfter(uuid, s, ps)
    ensures Pieces(uuid, s, ps) == Feed(s, Concat(ps))
    decreases |ps|
  {
    if ps != [] {
      var one := Piece(uuid, s, ps[0]);
      assert one == Feed(s, ps[0]);
      SplitInvariance(uuid, one.state, ps[1..]);
      FeedSplit(s, ps[0], Concat(ps[1..]));
    }
  }

  /** What a connection sends: the UUID once, the blocks, then unpadded bytes. */
  function Sent(uuid: seq<Byte>, ks: seq<Block>, tail: seq<Byte>): seq<Byte>
    requires forall i :: 0 <= i < |ks| ==> Fits(ks[i])
  {
    uuid + (StreamBytes(ks) + tail)
  }

  /**
   Round trip: a stream cut into pieces anywhere, the first with at least 21 bytes, is unpadded to its contents and
   what follows them, and the receiver is back in its initial state.
   */
  lemma RoundTrip(uuid: seq<Byte>, ks: seq<Block>, tail: seq<Byte>, ps: seq<seq<Byte>>)
    requires |uuid| == 16 && IsStream(ks) && ps != [] && |ps[0]| >= 21
    requires Concat(ps) == Sent(uuid, ks, tail)
    requires CleanAfter(uuid, Piece(uuid, INITIAL, ps[0]).state, ps[1..])
    ensures Pieces(uuid, INITIAL, ps) == Fed(State(-1, -1, -1, ks[|ks| - 1].command), Contents(ks) + tail)
  {
    var s := State(5, -1, -1, 0);
    FirstPieceStarts(uuid, StreamBytes(ks) + tail, ps);
    SplitInvariance(uuid, Feed(s, ps[0][16..]).state, ps[1..]);
    FeedSplit(s, ps[0][16..], Concat(ps[1..]));
    FeedStream(s, ks);
    FeedSplit(s, StreamBytes(ks), tail);
  }

  lemma FirstPieceStarts(uuid: seq<Byte>, body: seq<Byte>, ps: seq<seq<Byte>>)
    requires |uuid| == 16 && ps != [] && |ps[0]| >= 21 && Concat(ps) == uuid + body
    ensures StartsBlocks(uuid, ps[0]) && ps[0][16..] + Concat(ps[1..]) == body
  {
    var sent := ps[0] + Concat(ps[1..]);
    assert sent[..16] == uuid && sent[16..] == body;
    assert ps[0][..16] == sent[..16];
    assert ps[0][16..] + Concat(ps[1..]) == sent[16..];
  }

  // A first piece below 21 bytes is not recognised, and then nothing is unpadded.

  lemma {:induction false} PassUnchanged(uuid: seq<Byte>, s: State, ps: seq<seq<Byte>>)
    requires IsInitial(s) && forall i :: 0 <= i < |ps| ==> !StartsBlocks(uuid, ps[i])
    ensures Pieces(uuid, s, ps) == Fed(s, Concat(ps))
    decreases |ps|
  {
    if ps != [] {
      assert !StartsBlocks(uuid, ps[0]);
      assert forall i :: 0 <= i < |ps[1..]| ==> ps[1..][i] == ps[i + 1];
      PassUnchanged(uuid, s, ps[1..]);
    }
  }

  lemma {:induction false} StreamIsLonger(ks: seq<Block>)
    requires forall i :: 0 <= i < |ks| ==> Fits(ks[i])
    ensures |StreamBytes(ks)| >= |Contents(ks)|
  {
    if ks != [] { StreamIsLonger(ks[1..]); }
  }

  /**
   The receiver recovers the contents exactly when the first piece has at least 21 bytes, given that no later piece
   starts like the stream itself.
   */
  lemma RecoveredIff(uuid: seq<Byte>, ks: seq<Block>, tail: seq<Byte>, ps: seq<seq<Byte>>)
    requires |uuid| == 16 && IsStream(ks) && ps != [] && Concat(ps) == Sent(uuid, ks, tail)
    requires forall i :: 1 <= i < |ps| ==> !StartsBlocks(uuid, ps[i])
    ensures Pieces(uuid, INITIAL, ps).out == Contents(ks) + tail <==> |ps[0]| >= 21
  {
    if |ps[0]| >= 21 {
      NoneStartsIsClean(uuid, Piece(uuid, INITIAL, ps[0]).state, ps[1..]);
      RoundTrip(uuid, ks, tail, ps);
    } else {
      PassUnchanged(uuid, INITIAL, ps);
      StreamIsLonger(ks);
      assert |Concat(ps)| > |Contents(ks) + tail|;
    }
  }

  lemma {:induction false} PiecesShrink(uuid: seq<Byte>, s: State, ps: seq<seq<Byte>>)
    requires InBlock(s) || IsInitial(s)
    ensures |Pieces(uuid, s, ps).out| <= |Concat(ps)|
    decreases |ps|
  {
    if ps != [] { PiecesShrink(uuid, Piece(uuid, s, ps[0]).state, ps[1..]); }
  }

  /** A piece of the tail that looks like the start of a stream loses at least its first 16 bytes. */
  lemma {:induction false} UncleanLoses(uuid: seq<Byte>, s: State, ps: seq<seq<Byte>>)
    requires (InBlock(s) || IsInitial(s)) && !CleanAfter(uuid, s, ps)
    ensures |Pieces(uuid, s, ps).out| < |Feed(s, Concat(ps)).out|
    decreases |ps|
  {
    var one := Piece(uuid, s, ps[0]);
    if IsInitial(s) && StartsBlocks(uuid, ps[0]) {
      PiecesShrink(uuid, one.state, ps[1..]);
    } else {
      assert one == Feed(s, ps[0]);
      UncleanLoses(uuid, one.state, ps[1..]);
      FeedSplit(s, ps[0], Concat(ps[1..]));
    }
  }

  /** After a first piece of at least 21 bytes the stream is recovered exactly if no piece of its tail looks like a start. */
  lemma RecoveredAfter(uuid: seq<Byte>, ks: seq<Block>, tail: seq<Byte>, ps: seq<seq<Byte>>)
    requires |uuid| == 16 && IsStream(ks) && ps != [] && |ps[0]| >= 21 && Concat(ps) == Sent(uuid, ks, tail)
    ensures Pieces(uuid, INITIAL, ps).out == Contents(ks) + tail <==> CleanAfter(uuid, Piece(uuid, INITIAL, ps[0]).state, ps[1..])
  {
    var s, after := State(5, -1, -1, 0), Piece(uuid, INITIAL, ps[0]).state;
    if CleanAfter(uuid, after, ps[1..]) {
      RoundTrip(uuid, ks, tail, ps);
    } else {
      FirstPieceStarts(uuid, StreamBytes(ks) + tail, ps);
      UncleanLoses(uuid, after, ps[1..]);
      FeedSplit(s, ps[0][16..], Concat(ps[1..]));
      FeedStream(s, ks);
      FeedSplit(s, StreamBytes(ks), tail);
    }
  }

  /** An empty End block, and a piece of the tail that begins with the UUID and has at least 21 bytes. */
  lemma TailExample(uuid: seq<Byte>, x: seq<Byte>)
    requires |uuid| == 16 && |x| >= 5
    ensures var ks := [Block(END, [], [])];
      var ps := [uuid + [1, 0, 0, 0, 0], uuid + x];
      Concat(ps) == Sent(uuid, ks, uuid + x) && Pieces(uuid, INITIAL, ps).out != Contents(ks) + (uuid + x)
  {
    var k, first := Block(END, [], []), uuid + [1, 0, 0, 0, 0];
    var ks, ps := [k], [first, uuid + x];
    assert BlockBytes(k) == [1, 0, 0, 0, 0] && ks[1..] == [] && StreamBytes(ks) == BlockBytes(k) + [];
    assert ps[1..] == [uuid + x] && Concat(ps[1..]) == (uuid + x) + [];
    assert Concat(ps) == Sent(uuid, ks, uuid + x);
    assert first[..16] == uuid && first[16..] == BlockBytes(k) && (uuid + x)[..16] == uuid;
    FeedBlock(State(5, -1, -1, 0), k);
    RecoveredAfter(uuid, ks, uuid + x, ps);
  }

  lemma {:induction false} NoneStartsIsClean(uuid: seq<Byte>, s: State, ps: seq<seq<Byte>>)
    requires InBlock(s) || IsInitial(s)
    requires forall i :: 0 <= i < |ps| ==> !StartsBlocks(uuid, ps[i])
    ensures CleanAfter(uuid, s, ps)
    decreases |ps|
  {
    if ps != [] {
      assert !StartsBlocks(uuid, ps[0]);
      assert forall i :: 0 <= i < |ps[1..]| ==> ps[1..][i] == ps[i + 1];
      NoneStartsIsClean(uuid, Piece(uuid, s, ps[0]).state, ps[1..]);
    }
  }

  // The sender.

  type Uint32 = x: nat | x < 0x1_0000_0000

  /** int32(x), and what int32 arithmetic leaves of x. */
  function Int32(x: int): int {
    (x + 0x8000_0000) % 0x1_0000_0000 - 0x8000_0000
  }

  /** testseed: below the first value a long padding draws from the second and third, else the fourth bounds it. */
  datatype Seeds = Seeds(longBelow: Uint32, longRange: Uint32, longBase: Uint32, shortRange: Uint32)

  const DEFAULT_SEEDS := Seeds(900, 500, 900, 256)

  /** The seeds of a writer: the configured ones if there are four. */
  function SeedsOf(testseed: seq<Uint32>): Seeds {
    if |testseed| < 4 then DEFAULT_SEEDS else Seeds(testseed[0], testseed[1], testseed[2], testseed[3])
  }

  predicate IsLong(content: nat, longPadding: bool, seeds: Seeds) {
    content < Int32(seeds.longBelow) && longPadding
  }

  /** Truncation to 32 bits, as a number from -2^31 up that differs by a multiple of 2^32. */
  lemma Int32Is(x: int)
    ensures -0x8000_0000 <= Int32(x) < 0x8000_0000 && (Int32(x) - x) % 0x1_0000_0000 == 0
    ensures -0x8000_0000 <= x < 0x8000_0000 ==> Int32(x) == x
  {
  }

  /** What rand.Int draws below; it draws nothing below zero. */
  function Range(content: nat, longPadding: bool, seeds: Seeds): Uint32 {
    if IsLong(content, longPadding, seeds) then seeds.longRange else seeds.shortRange
  }

  /** A draw of rand.Int, from any raw number. */
  function Draw(content: nat, longPadding: bool, seeds: Seeds, raw: nat): (draw: nat)
    ensures var range := Range(content, longPadding, seeds); range > 0 ==> draw < range
  {
    var range := Range(content, longPadding, seeds);
    if range == 0 then 0 else raw % range
  }

  /** The padding length XtlsPadding computes from a draw. */
  function PaddingLen(content: nat, longPadding: bool, seeds: Seeds, draw: nat): int {
    var p := Int32(if IsLong(content, longPadding, seeds) then draw + seeds.longBase - content else draw);
    if p > SIZE - 21 - content then SIZE - 21 - content else p
  }

  predicate CanPad(content: nat, longPadding: bool, seeds: Seeds, draw: nat) {
    Range(content, longPadding, seeds) > 0 && PaddingLen(content, longPadding, seeds, draw) >= 0
  }

  /** Every draw can pad every content that leaves room for the UUID and a header. */
  ghost predicate AlwaysPads(seeds: Seeds) {
    forall content: nat, longPadding, raw: nat :: content <= SIZE - 21 ==>
      CanPad(content, longPadding, seeds, Draw(content, longPadding, seeds, raw))
  }

  /** The longest content that the long padding is drawn for, -1 for none. */
  function LongestLong(seeds: Seeds): int {
    if seeds.longBelow >= 0x8000_0000 then -1
    else if seeds.longBelow > SIZE - 21 then SIZE - 21
    else seeds.longBelow - 1
  }

  /** The long padding never has to take more than its base, and no sum passes the largest int32. */
  predicate SafeSeeds(seeds: Seeds) {
    && 0 < seeds.shortRange <= 0x8000_0000
    && (LongestLong(seeds) >= 0 ==>
          LongestLong(seeds) <= seeds.longBase && 0 < seeds.longRange && seeds.longBase + seeds.longRange <= 0x8000_0000)
  }

  lemma SafePads(seeds: Seeds, content: nat, longPadding: bool, draw: nat)
    requires SafeSeeds(seeds) && draw < Range(content, longPadding, seeds)
    ensures CanPad(content, longPadding, seeds, draw) <==> content <= SIZE - 21
  {
  }

  lemma SmallDraw(seeds: Seeds, content: nat, longPadding: bool, raw: nat)
    requires raw < Range(content, longPadding, seeds)
    ensures Draw(content, longPadding, seeds, raw) == raw
  {
    Small(raw, Range(content, longPadding, seeds));
  }

  lemma ShortFails(seeds: Seeds)
    requires !(0 < seeds.shortRange <= 0x8000_0000)
    ensures !AlwaysPads(seeds)
  {
    var raw: nat := if seeds.shortRange == 0 then 0 else 0x8000_0000;
    if seeds.shortRange > 0 { SmallDraw(seeds, 0, false, raw); }
    assert !CanPad(0, false, seeds, Draw(0, false, seeds, raw));
  }

  lemma LongFails(seeds: Seeds)
    requires LongestLong(seeds) >= 0
    requires !(LongestLong(seeds) <= seeds.longBase && 0 < seeds.longRange && seeds.longBase + seeds.longRange <= 0x8000_0000)
    ensures !AlwaysPads(seeds)
  {
    var top := LongestLong(seeds);
    var content := if seeds.longRange > 0 && top > seeds.longBase then top else 0;
    var raw: nat := if top > seeds.longBase || seeds.longBase >= 0x8000_0000 then 0 else 0x8000_0000 - seeds.longBase;
    assert IsLong(content, true, seeds);
    if seeds.longRange > 0 { SmallDraw(seeds, content, true, raw); }
    assert !CanPad(content, true, seeds, Draw(content, true, seeds, raw));
  }

  /** Seeds that are not safe fail for some content and draw. */
  lemma UnsafeFails(seeds: Seeds)
    requires !SafeSeeds(seeds)
    ensures !AlwaysPads(seeds)
  {
    if 0 < seeds.shortRange <= 0x8000_0000 { LongFails(seeds); } else { ShortFails(seeds); }
  }

  /** The configured seeds pad everything exactly if they are safe. */
  lemma PadsExactly(seeds: Seeds)
    ensures AlwaysPads(seeds) <==> SafeSeeds(seeds)
  {
    if SafeSeeds(seeds) {
      forall content: nat, longPadding, raw: nat | content <= SIZE - 21
        ensures CanPad(content, longPadding, seeds, Draw(content, longPadding, seeds, raw))
      {
        SafePads(seeds, content, longPadding, Draw(content, longPadding, seeds, raw));
      }
    } else {
      UnsafeFails(seeds);
    }
  }

  function Min(a: int, b: int): int {
    if a < b then a else b
  }

  /**
   How much padding follows a content: a short content that is to look long gets what makes the two together the base and
   the draw, any other content the draw alone, and neither more than the buffer has room for.
   */
  predicate RightPadding(content: nat, padding: nat, longPadding: bool, seeds: Seeds, raw: nat) {
    if longPadding && content < seeds.longBelow < 0x8000_0000
    then seeds.longRange > 0 && content + padding == Min(seeds.longBase + raw % seeds.longRange, SIZE - 21)
    else seeds.shortRange > 0 && padding == Min(raw % seeds.shortRange, SIZE - 21 - content)
  }

  lemma LongIs(seeds: Seeds, content: nat, longPadding: bool)
    ensures IsLong(content, longPadding, seeds) <==> longPadding && content < seeds.longBelow < 0x8000_0000
  {
    Int32Is(seeds.longBelow);
  }

  lemma LongPadding(seeds: Seeds, content: nat, draw: nat)
    requires SafeSeeds(seeds) && content < seeds.longBelow < 0x8000_0000 && content <= SIZE - 21 && draw < seeds.longRange
    ensures PaddingLen(content, true, seeds, draw) == Min(seeds.longBase + draw, SIZE - 21) - content >= 0
  {
    LongIs(seeds, content, true);
    Int32Is(draw + seeds.longBase - content);
  }

  lemma ShortPadding(seeds: Seeds, content: nat, longPadding: bool, draw: nat)
    requires SafeSeeds(seeds) && !IsLong(content, longPadding, seeds) && content <= SIZE - 21 && draw < seeds.shortRange
    ensures PaddingLen(content, longPadding, seeds, draw) == Min(draw, SIZE - 21 - content) >= 0
  {
    Int32Is(draw);
  }

  lemma SafePadding(seeds: Seeds, content: nat, longPadding: bool, raw: nat)
    requires SafeSeeds(seeds) && content <= SIZE - 21
    ensures var p := PaddingLen(content, longPadding, seeds, Draw(content, longPadding, seeds, raw));
      p >= 0 && RightPadding(content, p, longPadding, seeds, raw)
  {
    LongIs(seeds, content, longPadding);
    var draw := Draw(content, longPadding, seeds, raw);
    if IsLong(content, longPadding, seeds) {
      LongPadding(seeds, content, draw);
    } else {
      ShortPadding(seeds, content, longPadding, draw);
    }
  }

  /** With the default seeds, less than 900 bytes that are to look long go out as 900 to 1399 bytes with their padding. */
  lemma LooksLong(content: nat, padding: nat, raw: nat)
    requires content < 900 && RightPadding(content, padding, true, SeedsOf([]), raw)
    ensures 900 <= content + padding < 1400
  {
  }

  /** The default seeds are safe; with a base of zero 600 bytes of content are padded with -600. */
  lemma SomeSeeds()
    ensures SafeSeeds(SeedsOf([]))
    ensures PaddingLen(600, true, SeedsOf([900, 500, 0, 256]), 0) == -600
  {
    assert [900, 500, 0, 256][0] == 900;
  }

  function Zeros(n: nat): (z: seq<Byte>)
    ensures |z| == n
  {
    seq(n, i => 0)
  }

  /**
   XtlsPadding: the UUID if it is still to be sent, then one whole block, nothing of it cut off, with the padding that its
   content asks for. There is no buffer exactly if the padding length cannot be drawn or is negative.
   */
  method XtlsPadding(content: seq<Byte>, command: Byte, uuid: seq<Byte>, longPadding: bool, seeds: Seeds, raw: nat)
    returns (out: Option<seq<Byte>>, ghost k: Block)
    requires |content| <= SIZE && |uuid| <= 16
    ensures out.Some? <==> CanPad(|content|, longPadding, seeds, Draw(|content|, longPadding, seeds, raw))
    ensures out.Some? ==> k.command == command && k.content == content && Fits(k)
    ensures out.Some? ==> out.value == uuid + BlockBytes(k) && |out.value| <= SIZE
    ensures out.Some? ==> |out.value| == |uuid| + 5 + |content| + |k.padding|
    ensures out.Some? ==>
      |k.padding| == PaddingLen(|content|, longPadding, seeds, Draw(|content|, longPadding, seeds, raw))
    ensures out.Some? && SafeSeeds(seeds) ==> RightPadding(|content|, |k.padding|, longPadding, seeds, raw)
  {
    if SafeSeeds(seeds) && |content| <= SIZE - 21 { SafePadding(seeds, |content|, longPadding, raw); }
    k := Block(command, content, []);
    if Range(|content|, longPadding, seeds) == 0 { return None, k; }
    var paddingLen := PaddingLen(|content|, longPadding, seeds, Draw(|content|, longPadding, seeds, raw));
    if paddingLen < 0 { return None, k; }
    var bytes := Write([], uuid);
    bytes := Write(bytes, Header(command, |content|, paddingLen));
    bytes := Write(bytes, content);
    bytes := bytes + Zeros(paddingLen);
    k := Block(command, content, Zeros(paddingLen));
    assert bytes == uuid + BlockBytes(k);
    out := Some(bytes);
  }

  const APPLICATION_DATA: seq<Byte> := [0x17, 0x03, 0x03]

  predicate HeaderAt(b: seq<Byte>, i: int) {
    0 <= i <= |b| - 3 && b[i..i + 3] == APPLICATION_DATA
  }

  /** bytes.LastIndex of the application data header, -1 for none. */
  method LastIndex(b: seq<Byte>) returns (index: int)
    ensures index == -1 || HeaderAt(b, index)
    ensures forall i :: index < i ==> !HeaderAt(b, i)
  {
    index := |b| - 3;
    while index >= 0
      invariant index <= |b| - 3 && forall i :: index < i ==> !HeaderAt(b, i)
    {
      if HeaderAt(b, index) { return; }
      index := index - 1;
    }
    index := -1;
  }

  /** The last application data header of b that leaves room on both sides is at i. */
  predicate CutsAt(b: seq<Byte>, i: int) {
    21 <= i <= SIZE - 21 && HeaderAt(b, i) && forall j :: i < j <= |b| ==> !HeaderAt(b, j)
  }

  /** A buffer without room for the UUID and a header is cut before its last header, in the middle if that is no place. */
  ghost predicate Cut(b: seq<Byte>, next: seq<seq<Byte>>) {
    && Concat(next) == b
    && (if |b| < SIZE - 21 then next == [b]
        else
          && |next| == 2
          && (if exists i :: CutsAt(b, i) then CutsAt(b, |next[0]|) else |next[0]| == SIZE / 2))
  }

  ghost predicate CutAll(buffers: seq<seq<Byte>>, out: seq<seq<Byte>>)
    decreases |buffers|
  {
    if buffers == [] then out == []
    else
      var last := |buffers| - 1;
      exists n :: 0 <= n <= |out| && CutAll(buffers[..last], out[..n]) && Cut(buffers[last], out[n..])
  }

  lemma CutNext(buffers: seq<seq<Byte>>, out: seq<seq<Byte>>, b: seq<Byte>, next: seq<seq<Byte>>)
    requires CutAll(buffers, out) && Cut(b, next)
    ensures CutAll(buffers + [b], out + next)
  {
    assert (buffers + [b])[..|buffers|] == buffers;
    assert (out + next)[..|out|] == out && (out + next)[|out|..] == next;
  }

  lemma {:induction false} NoneCut(buffers: seq<seq<Byte>>)
    requires forall i :: 0 <= i < |buffers| ==> |buffers[i]| < SIZE - 21
    ensures CutAll(buffers, buffers)
  {
    if buffers != [] {
      var b := buffers[|buffers| - 1];
      NoneCut(buffers[..|buffers| - 1]);
      assert Concat([b]) == b + [];
      CutNext(buffers[..|buffers| - 1], buffers[..|buffers| - 1], b, [b]);
      assert buffers == buffers[..|buffers| - 1] + [b];
    }
  }

  /** One buffer as it is, or as two that are cut before a record or in the middle. */
  method Reshape(b: seq<Byte>) returns (next: seq<seq<Byte>>)
    requires |b| <= SIZE
    ensures Cut(b, next) && forall k :: 0 <= k < |next| ==> |next[k]| <= SIZE - 21
  {
    next := [b];
    assert Concat([b]) == b + [];
    if |b| >= SIZE - 21 {
      var index := LastIndex(b);
      assert index == -1 || forall i :: CutsAt(b, i) ==> i == index;
      if index < 21 || index > SIZE - 21 { index := SIZE / 2; }
      next := [b[..index], b[index..]];
      ConcatOne([b[..index]], b[index..]);
      assert Concat([b[..index]]) == b[..index] + [];
      assert b[..index] + b[index..] == b;
    }
  }

  /** The same bytes, every buffer with room for the UUID and a header. */
  ghost predicate Reshaped(buffers: seq<seq<Byte>>, out: seq<seq<Byte>>) {
    && CutAll(buffers, out) && Concat(out) == Concat(buffers) && |out| >= |buffers|
    && forall i :: 0 <= i < |out| ==> |out[i]| <= SIZE - 21
  }

  lemma ReshapedNext(buffers: seq<seq<Byte>>, out: seq<seq<Byte>>, b: seq<Byte>, next: seq<seq<Byte>>)
    requires Reshaped(buffers, out) && Cut(b, next) && forall k :: 0 <= k < |next| ==> |next[k]| <= SIZE - 21
    ensures Reshaped(buffers + [b], out + next)
  {
    CutNext(buffers, out, b, next);
    ConcatOne(buffers, b);
    ConcatAppend(out, next);
  }

  /** ReshapeMultiBuffer: the buffers as they are if all are short enough, else those that are not cut in two. */
  method ReshapeMultiBuffer(buffers: seq<seq<Byte>>) returns (out: seq<seq<Byte>>)
    requires forall i :: 0 <= i < |buffers| ==> |buffers[i]| <= SIZE
    ensures Reshaped(buffers, out)
  {
    var needReshape := 0;
    for i := 0 to |buffers|
      invariant needReshape >= 0
      invariant needReshape == 0 ==> forall k :: 0 <= k < i ==> |buffers[k]| < SIZE - 21
    {
      if |buffers[i]| >= SIZE - 21 { needReshape := needReshape + 1; }
    }
    if needReshape == 0 {
      NoneCut(buffers);
      return buffers;
    }
    out := [];
    for i := 0 to |buffers|
      invariant Reshaped(buffers[..i], out)
    {
      var next := Reshape(buffers[i]);
      ReshapedNext(buffers[..i], out, buffers[i], next);
      assert buffers[..i + 1] == buffers[..i] + [buffers[i]];
      out := out + next;
    }
    assert buffers[..|buffers|] == buffers;
  }

  // TLS records (section 5.2 of RFC 8446): the application data type, the legacy version 3.3, and a two-byte length.

  function Length(b: seq<Byte>): nat
    requires |b| >= 5
  {
    (b[3] as int) * 256 + b[4] as int
  }

  /** b starts with a whole record that is not empty. */
  predicate HasRecord(b: seq<Byte>) {
    |b| >= 5 && HeaderAt(b, 0) && Length(b) > 0 && |b| >= 5 + Length(b)
  }

  /** b is any number of whole records, none of them empty, and nothing else. */
  predicate IsRecords(b: seq<Byte>)
    decreases |b|
  {
    b == [] || (HasRecord(b) && IsRecords(b[5 + Length(b)..]))
  }

  /** 5 - headerLen bytes of a header at start have been read, and recordLen has been taken from them. */
  ghost predicate HeaderRead(b: seq<Byte>, start: nat, headerLen: nat, recordLen: nat)
    requires headerLen <= 5 && start + 5 - headerLen <= |b|
  {
    && (headerLen <= 4 ==> b[start] == 0x17) && (headerLen <= 3 ==> b[start + 1] == 0x03)
    && (headerLen <= 2 ==> b[start + 2] == 0x03) && (headerLen >= 2 ==> recordLen == 0)
    && (headerLen == 1 ==> recordLen == (b[start + 3] as int) * 256)
    && (headerLen == 0 ==> recordLen == (b[start + 3] as int) * 256 + b[start + 4] as int)
  }

  /** One byte of a header. */
  method HeaderByteRead(b: seq<Byte>, ghost start: nat, i: nat, headerLen: nat, recordLen: nat) returns (ok: bool, r: nat)
    requires 0 < headerLen <= 5 && i == start + 5 - headerLen && i < |b| && HeaderRead(b, start, headerLen, recordLen)
    ensures if ok then HeaderRead(b, start, headerLen - 1, r) else !IsRecords(b[start..])
  {
    var data := b[i];
    r := recordLen;
    if (headerLen == 5 && data != 0x17) || (headerLen == 4 && data != 0x03) || (headerLen == 3 && data != 0x03) {
      WrongHeader(b[start..], 5 - headerLen);
      return false, r;
    }
    if headerLen == 2 { r := (data as int) * 256; }
    if headerLen == 1 { r := r + data; }
    ok := true;
  }

  /** The scan is at byte i, in or behind the header at start, and the bytes before start do not matter. */
  ghost predicate Scanning(b: seq<Byte>, start: nat, i: nat, headerLen: nat, recordLen: nat) {
    && start <= i <= |b| && headerLen <= 5 && i == start + 5 - headerLen
    && (IsRecords(b) <==> IsRecords(b[start..])) && HeaderRead(b, start, headerLen, recordLen)
  }

  /** Behind a whole record the scan is at the next header. */
  lemma Skipped(b: seq<Byte>, start: nat, recordLen: nat)
    requires Scanning(b, start, start + 5, 0, recordLen) && recordLen > 0 && |b| >= start + 5 + recordLen
    ensures Scanning(b, start + 5 + recordLen, start + 5 + recordLen, 5, 0)
  {
    RecordHere(b, start, recordLen);
  }

  lemma NotSkipped(b: seq<Byte>, start: nat, recordLen: nat)
    requires Scanning(b, start, start + 5, 0, recordLen) && (recordLen == 0 || |b| < start + 5 + recordLen)
    ensures !IsRecords(b)
  {
    RecordHere(b, start, recordLen);
  }

  /** The turn of the loop behind a header. */
  method SkipRecord(b: seq<Byte>, ghost start: nat, i: nat, recordLen: nat) returns (ok: bool, ghost next: nat)
    requires Scanning(b, start, i, 0, recordLen)
    ensures if ok then recordLen > 0 && next == start + 5 + recordLen && Scanning(b, next, i + recordLen, 5, 0) else !IsRecords(b)
  {
    next := start + 5 + recordLen;
    ok := recordLen != 0 && |b| - i >= recordLen;
    if ok { Skipped(b, start, recordLen); } else { NotSkipped(b, start, recordLen); }
  }

  /** IsCompleteRecord, byte by byte as the source does. */
  method IsCompleteRecord(b: seq<Byte>) returns (complete: bool)
    ensures complete <==> IsRecords(b)
  {
    var headerLen: nat, recordLen: nat, i: nat := 5, 0, 0;
    ghost var start: nat := 0;
    assert b[0..] == b;
    while i < |b|
      invariant Scanning(b, start, i, headerLen, recordLen)
      decreases |b| - i, headerLen
    {
      if headerLen > 0 {
        complete, recordLen := HeaderByteRead(b, start, i, headerLen, recordLen);
        if !complete { return; }
        i, headerLen := i + 1, headerLen - 1;
      } else {
        complete, start := SkipRecord(b, start, i, recordLen);
        if !complete { return; }
        i, recordLen, headerLen := i + recordLen, 0, 5;
      }
    }
    complete := headerLen == 5 && recordLen == 0;
    TooShort(b[start..]);
  }

  /** Where a header has been read the rest starts with a record, or is no sequence of records. */
  lemma RecordHere(b: seq<Byte>, start: nat, recordLen: nat)
    requires start + 5 <= |b| && HeaderRead(b, start, 0, recordLen)
    ensures recordLen == 0 || |b| < start + 5 + recordLen ==> !IsRecords(b[start..])
    ensures recordLen > 0 && |b| >= start + 5 + recordLen ==> (IsRecords(b[start..]) <==> IsRecords(b[start + 5 + recordLen..]))
  {
    var rest := b[start..];
    HeaderIs(rest);
    assert Length(rest) == recordLen;
    if recordLen > 0 && |b| >= start + 5 + recordLen { NextRecord(b, start); }
  }

  lemma TooShort(rest: seq<Byte>)
    ensures 0 < |rest| <= 5 ==> !IsRecords(rest)
    ensures rest == [] ==> IsRecords(rest)
  {
  }

  lemma NextRecord(b: seq<Byte>, start: nat)
    requires start <= |b| && HasRecord(b[start..])
    ensures var n := start + 5 + Length(b[start..]); n <= |b| && (IsRecords(b[start..]) <==> IsRecords(b[n..]))
  {
    var rest := b[start..];
    assert rest[5 + Length(rest)..] == b[start + 5 + Length(rest)..];
  }

  lemma HeaderIs(b: seq<Byte>)
    ensures HeaderAt(b, 0) <==> |b| >= 3 && b[0] == 0x17 && b[1] == 0x03 && b[2] == 0x03
  {}

  lemma WrongHeader(b: seq<Byte>, i: nat)
    requires i < 3 && i < |b| && b[i] != APPLICATION_DATA[i]
    ensures !IsRecords(b)
  {
    HeaderIs(b);
  }
}
