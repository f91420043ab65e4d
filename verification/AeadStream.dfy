/**
 AEAD chunk framing in stream mode (common/crypto/auth.go). The cipher, its nonce generators, the size codec and the
 padding generator of one end are a state g and functions that step it; both ends start in the same state.
 */
module AeadStream {

  import opened Buffers
  import opened Options

  datatype Suite<!G> = Suite(
    overhead: nat,
    sizeBytes: nat,
    maxPadding: nat,
    draw: G -> (nat, G),
    encode: (G, nat) -> (seq<Byte>, G),
    decode: (G, seq<Byte>) -> (Option<nat>, G),
    seal: (G, seq<Byte>) -> (seq<Byte>, G),
    open: (G, seq<Byte>) -> (Option<seq<Byte>>, G))

  /** One chunk: its plaintext and the random bytes that follow the ciphertext. */
  datatype Block = Block(plain: seq<Byte>, noise: seq<Byte>)

  ghost predicate SizesInvert<G(!new)>(s: Suite<G>) {
    forall g, n {:trigger s.encode(g, n)} :: 0 <= n < 65536 ==>
      var (bytes, next) := s.encode(g, n);
      |bytes| == s.sizeBytes && s.decode(g, bytes) == (Some(n), next)
  }

  ghost predicate CipherInverts<G(!new)>(s: Suite<G>) {
    forall g, p {:trigger s.seal(g, p)} ::
      var (c, next) := s.seal(g, p);
      |c| == |p| + s.overhead && s.open(g, c) == (Some(p), next)
  }

  ghost predicate PaddingBounded<G(!new)>(s: Suite<G>) {
    forall g {:trigger s.draw(g)} :: s.draw(g).0 <= s.maxPadding
  }

  /** What the framing asks of the cipher, the size codec and the padding generator, and room for one byte a chunk. */
  ghost predicate Lawful<G(!new)>(s: Suite<G>) {
    && s.sizeBytes > 0
    && s.overhead + s.sizeBytes + s.maxPadding < SIZE
    && SizesInvert(s) && CipherInverts(s) && PaddingBounded(s)
  }

  // The byte stream of a sequence of chunks.

  function ChunkSize<G>(s: Suite<G>, b: Block): nat {
    |b.plain| + s.overhead + |b.noise|
  }

  function AfterDraw<G>(s: Suite<G>, g: G): G {
    s.draw(g).1
  }

  function Header<G>(s: Suite<G>, g: G, b: Block): seq<Byte> {
    s.encode(AfterDraw(s, g), ChunkSize(s, b)).0
  }

  function AfterHeader<G>(s: Suite<G>, g: G, b: Block): G {
    s.encode(AfterDraw(s, g), ChunkSize(s, b)).1
  }

  function Cipher<G>(s: Suite<G>, g: G, b: Block): seq<Byte> {
    s.seal(AfterHeader(s, g, b), b.plain).0
  }

  function Next<G>(s: Suite<G>, g: G, b: Block): G {
    s.seal(AfterHeader(s, g, b), b.plain).1
  }

  predicate Fits<G>(s: Suite<G>, g: G, b: Block) {
    |b.noise| == s.draw(g).0 && ChunkSize(s, b) < 65536
  }

  predicate FitAll<G>(s: Suite<G>, g: G, bs: seq<Block>) {
    bs == [] || (Fits(s, g, bs[0]) && FitAll(s, Next(s, g, bs[0]), bs[1..]))
  }

  function Frame<G>(s: Suite<G>, g: G, b: Block): seq<Byte> {
    Header(s, g, b) + (Cipher(s, g, b) + b.noise)
  }

  function Bytes<G>(s: Suite<G>, g: G, bs: seq<Block>): seq<Byte> {
    if bs == [] then [] else Frame(s, g, bs[0]) + Bytes(s, Next(s, g, bs[0]), bs[1..])
  }

  function After<G>(s: Suite<G>, g: G, bs: seq<Block>): G {
    if bs == [] then g else After(s, Next(s, g, bs[0]), bs[1..])
  }

  lemma {:induction false} Appended<G(!new)>(s: Suite<G>, g: G, bs: seq<Block>, b: Block)
    requires FitAll(s, g, bs) && Fits(s, After(s, g, bs), b)
    ensures FitAll(s, g, bs + [b])
    ensures After(s, g, bs + [b]) == Next(s, After(s, g, bs), b)
    ensures Bytes(s, g, bs + [b]) == Bytes(s, g, bs) + Frame(s, After(s, g, bs), b)
  {
    if bs == [] {
      assert (bs + [b])[1..] == [];
      assert (bs + [b])[0] == b;
      assert Bytes(s, g, bs + [b]) == Frame(s, g, b) + Bytes(s, Next(s, g, b), []);
    } else {
      assert (bs + [b])[1..] == bs[1..] + [b];
      assert (bs + [b])[0] == bs[0];
      Appended(s, Next(s, g, bs[0]), bs[1..], b);
      Assoc(Frame(s, g, bs[0]), Bytes(s, Next(s, g, bs[0]), bs[1..]), Frame(s, After(s, g, bs), b));
    }
  }

  // Plaintexts.

  function Plains(bs: seq<Block>): (ps: seq<seq<Byte>>)
    ensures |ps| == |bs| && forall i :: 0 <= i < |bs| ==> ps[i] == bs[i].plain
  {
    if bs == [] then [] else Plains(bs[..|bs| - 1]) + [bs[|bs| - 1].plain]
  }

  /** What was written before the first empty write. */
  function UpToEnd(ps: seq<seq<Byte>>): seq<Byte> {
    if ps == [] || ps[0] == [] then [] else ps[0] + UpToEnd(ps[1..])
  }

  lemma {:induction false} EndOfBoth(a: seq<seq<Byte>>, b: seq<seq<Byte>>)
    ensures [] in a ==> UpToEnd(a + b) == UpToEnd(a)
    ensures [] !in a ==> UpToEnd(a + b) == UpToEnd(a) + UpToEnd(b) && UpToEnd(a) == Concat(a)
  {
    if a == [] {
      assert a + b == b;
    } else if a[0] == [] {
      assert (a + b)[0] == [];
    } else {
      assert (a + b)[1..] == a[1..] + b;
      EndOfBoth(a[1..], b);
      assert a == [a[0]] + a[1..];
    }
  }

  // The sending end.

  /** The bytes and the state g are those of the chunks sent from the state start. */
  ghost predicate Framed<G(!new)>(s: Suite<G>, start: G, bs: seq<Block>, bytes: seq<Byte>, g: G) {
    FitAll(s, start, bs) && bytes == Bytes(s, start, bs) && g == After(s, start, bs)
  }

  lemma FramedNext<G(!new)>(s: Suite<G>, start: G, bs: seq<Block>, bytes: seq<Byte>, g: G, b: Block)
    requires Framed(s, start, bs, bytes, g) && Fits(s, g, b)
    ensures Framed(s, start, bs + [b], bytes + Frame(s, g, b), Next(s, g, b))
  {
    Appended(s, start, bs, b);
  }

  /** A write of content as chunks: the end marker for an empty one, otherwise pieces none of which is empty. */
  ghost predicate Chunked(content: seq<Byte>, ps: seq<seq<Byte>>) {
    if content == [] then ps == [[]] else [] !in ps && Concat(ps) == content
  }

  /** The pieces so far of a write whose bytes rest are still to come. */
  ghost predicate Cutting(content: seq<Byte>, ps: seq<seq<Byte>>, rest: seq<Byte>) {
    [] !in ps && Concat(ps) + rest == content
  }

  lemma CutNext(content: seq<Byte>, new': seq<Block>, rest: seq<Byte>, b: Block, left: seq<Byte>)
    requires Cutting(content, Plains(new'), rest) && b.plain != [] && b.plain + left == rest
    ensures Cutting(content, Plains(new' + [b]), left)
  {
    assert (new' + [b])[..|new'|] == new';
    assert Plains(new' + [b]) == Plains(new') + [b.plain];
    ConcatOne(Plains(new'), b.plain);
    Assoc(Concat(Plains(new')), b.plain, left);
  }

  lemma WrittenNext(sent: seq<Byte>, mb: seq<seq<Byte>>, frame: seq<Byte>, bs: seq<Block>, new': seq<Block>, b: Block)
    ensures sent + Concat(mb + [frame]) == (sent + Concat(mb)) + frame
    ensures (bs + new') + [b] == bs + (new' + [b])
  {
    ConcatOne(mb, frame);
    Assoc(sent, Concat(mb), frame);
  }

  function Noise(n: nat, random: nat -> Byte): (r: seq<Byte>)
    ensures |r| == n
  {
    if n == 0 then [] else Noise(n - 1, random) + [random(n - 1)]
  }

  class Writer<G(!new)> {
    const suite: Suite<G>
    var g: G
    var sent: seq<Byte>
    ghost const start: G
    ghost var blocks: seq<Block>

    ghost predicate Valid()
      reads this
    {
      Lawful(suite) && Framed(suite, start, blocks, sent, g)
    }

    constructor (suite: Suite<G>, g: G)
      requires Lawful(suite)
      ensures Valid() && this.suite == suite && start == g && blocks == []
    {
      this.suite, this.g, sent := suite, g, [];
      start, blocks := g, [];
    }

    /** seal: None when the chunk does not fit one buffer. A padding length has been drawn either way. */
    method Seal(b: seq<Byte>, random: nat -> Byte) returns (chunk: Option<seq<Byte>>)
      requires Lawful(suite)
      modifies `g
      ensures var block := Block(b, Noise(suite.draw(old(g)).0, random));
        if suite.sizeBytes + ChunkSize(suite, block) <= SIZE
        then Fits(suite, old(g), block) && chunk == Some(Frame(suite, old(g), block)) && g == Next(suite, old(g), block)
        else chunk == None && g == AfterDraw(suite, old(g))
    {
      var encryptedSize := |b| + suite.overhead;
      var (paddingSize, g1) := suite.draw(g);
      g := g1;
      if suite.sizeBytes + encryptedSize + paddingSize > SIZE { return None; }
      var (header, g2) := suite.encode(g, encryptedSize + paddingSize);
      g := g2;
      var (cipher, g3) := suite.seal(g, b);
      g := g3;
      var noise := Noise(paddingSize, random);
      return Some(header + (cipher + noise));
    }

    /** A chunk of at most one payload is always sealed. */
    method SealPiece(piece: seq<Byte>, random: nat -> Byte, ghost done: seq<Block>, ghost bytes: seq<Byte>)
      returns (frame: seq<Byte>, ghost b: Block)
      requires Lawful(suite) && suite.overhead + suite.sizeBytes + suite.maxPadding + |piece| <= SIZE
      requires Framed(suite, start, done, bytes, g)
      modifies `g
      ensures b.plain == piece && Framed(suite, start, done + [b], bytes + frame, g)
    {
      assert PaddingBounded(suite);
      b := Block(piece, Noise(suite.draw(g).0, random));
      FramedNext(suite, start, done, bytes, g, b);
      var chunk := Seal(piece, random);
      frame := chunk.value;
    }

    /** One turn of writeStream: the next piece of what is left of the write, sealed. */
    method CutPiece(rest: seq<seq<Byte>>, random: nat -> Byte, ghost content: seq<Byte>, ghost all: seq<Block>,
                    ghost new': seq<Block>, ghost bytes: seq<Byte>)
      returns (left: seq<seq<Byte>>, frame: seq<Byte>, ghost b: Block)
      requires Lawful(suite) && Concat(rest) != []
      requires Framed(suite, start, all, bytes, g) && Cutting(content, Plains(new'), Concat(rest))
      modifies `g
      ensures Framed(suite, start, all + [b], bytes + frame, g)
      ensures Cutting(content, Plains(new' + [b]), Concat(left)) && |Concat(left)| < |Concat(rest)|
    {
      var payloadSize: nat := SIZE - suite.overhead - suite.sizeBytes - suite.maxPadding;
      var piece;
      left, piece := SplitBytes(rest, payloadSize);
      frame, b := SealPiece(piece, random, all, bytes);
      CutNext(content, new', Concat(rest), b, Concat(left));
    }

    /** writeStream: chunks of at most one payload each, sent together at the end. */
    method WriteStream(mb: seq<seq<Byte>>, random: (nat, nat) -> Byte)
      requires Valid() && !AllEmpty(mb)
      modifies `g, `sent, `blocks
      ensures Valid() && Added(old(blocks), blocks, Concat(mb))
    {
      var mb2Write: seq<seq<Byte>> := [];
      var rest := mb;
      ghost var bytes, new' := sent, [];
      EmptyConcat(mb);
      assert blocks + new' == blocks;
      while true
        invariant Concat(rest) != [] && bytes == sent + Concat(mb2Write)
        invariant Framed(suite, start, blocks + new', bytes, g)
        invariant Cutting(Concat(mb), Plains(new'), Concat(rest))
        invariant sent == old(sent) && blocks == old(blocks)
        decreases |Concat(rest)|
      {
        var left, frame;
        ghost var b;
        left, frame, b := CutPiece(rest, n => random(|mb2Write|, n), Concat(mb), blocks + new', new', bytes);
        WrittenNext(sent, mb2Write, frame, blocks, new', b);
        rest, mb2Write, bytes, new' := left, mb2Write + [frame], bytes + frame, new' + [b];
        EmptyConcat(rest);
        if AllEmpty(rest) { break; }
      }
      AddedAll(blocks, new', Concat(mb));
      sent := sent + Concat(mb2Write);
      blocks := blocks + new';
    }

    /** WriteMultiBuffer of a stream. */
    method WriteMultiBuffer(mb: seq<seq<Byte>>, random: (nat, nat) -> Byte)
      requires Valid()
      modifies this
      ensures Valid() && Added(old(blocks), blocks, Concat(mb))
    {
      EmptyConcat(mb);
      if AllEmpty(mb) {
        var frame;
        ghost var b;
        frame, b := SealPiece([], n => random(0, n), blocks, sent);
        assert (blocks + [b])[|blocks|..] == [b];
        assert Plains([b]) == [[]];
        sent := sent + frame;
        blocks := blocks + [b];
      } else {
        WriteStream(mb, random);
      }
    }
  }

  /** The chunks after are those before and the chunks of one more write. */
  ghost predicate Added(before: seq<Block>, after: seq<Block>, content: seq<Byte>) {
    && |before| <= |after| && after[..|before|] == before
    && Chunked(content, Plains(after[|before|..]))
  }

  lemma AddedAll(before: seq<Block>, new': seq<Block>, content: seq<Byte>)
    requires Cutting(content, Plains(new'), []) && content != []
    ensures Added(before, before + new', content)
  {
    assert (before + new')[|before|..] == new';
  }

  ghost predicate SameToEnd(ps: seq<seq<Byte>>, cs: seq<seq<Byte>>) {
    UpToEnd(ps) == UpToEnd(cs) && ([] in ps <==> [] in cs)
  }

  /** Every write adds its bytes up to the end, and the first empty one is the end. */
  lemma AddedEnd(before: seq<Block>, after: seq<Block>, cs: seq<seq<Byte>>, content: seq<Byte>)
    requires Added(before, after, content)
    requires SameToEnd(Plains(before), cs)
    ensures SameToEnd(Plains(after), cs + [content])
  {
    var ps := Plains(after[|before|..]);
    assert Plains(after) == Plains(before) + ps;
    EndOfBoth(Plains(before), ps);
    EndOfBoth(cs, [content]);
    OneWrite(content, ps);
  }

  lemma OneWrite(content: seq<Byte>, ps: seq<seq<Byte>>)
    requires Chunked(content, ps)
    ensures UpToEnd(ps) == UpToEnd([content]) && ([] in ps <==> content == [])
  {
    EndOfBoth(ps, []);
    assert ps + [] == ps;
    assert UpToEnd([content]) == content;
  }

  function Contents(writes: seq<seq<seq<Byte>>>): (cs: seq<seq<Byte>>)
    ensures |cs| == |writes| && forall i :: 0 <= i < |cs| ==> cs[i] == Concat(writes[i])
  {
    if writes == [] then [] else Contents(writes[..|writes| - 1]) + [Concat(writes[|writes| - 1])]
  }

  lemma ContentsNext(writes: seq<seq<seq<Byte>>>, i: nat)
    requires i < |writes|
    ensures Contents(writes[..i + 1]) == Contents(writes[..i]) + [Concat(writes[i])]
  {
  }

  /** The bytes are those of chunks whose plaintext up to the end is that of the writes. */
  ghost predicate Carries<G(!new)>(s: Suite<G>, g: G, bs: seq<Block>, sent: seq<Byte>, writes: seq<seq<seq<Byte>>>) {
    && FitAll(s, g, bs) && sent == Bytes(s, g, bs)
    && UpToEnd(Plains(bs)) == UpToEnd(Contents(writes))
  }

  /** Any number of writes: the bytes sent are those of chunks whose plaintext up to the end is what was written. */
  method SendAll<G(!new)>(suite: Suite<G>, g: G, writes: seq<seq<seq<Byte>>>, random: (nat, nat, nat) -> Byte)
    returns (sent: seq<Byte>, ghost blocks: seq<Block>)
    requires Lawful(suite)
    ensures Carries(suite, g, blocks, sent, writes)
    ensures exists bs :: Carries(suite, g, bs, sent, writes)
  {
    var w := new Writer(suite, g);
    for i := 0 to |writes|
      invariant w.Valid() && fresh(w) && w.suite == suite && w.start == g
      invariant SameToEnd(Plains(w.blocks), Contents(writes[..i]))
    {
      ghost var before := w.blocks;
      w.WriteMultiBuffer(writes[i], (c, n) => random(i, c, n));
      ContentsNext(writes, i);
      AddedEnd(before, w.blocks, Contents(writes[..i]), Concat(writes[i]));
    }
    assert writes[..|writes|] == writes;
    sent, blocks := w.sent, w.blocks;
    assert Carries(suite, g, blocks, sent, writes);
  }

  // The receiving end.

  datatype Status = Read | Waiting | Ended | Failed

  /**
   Where a reader is in the chunks it is sent: before a size field, or after one that it has kept, at the end, or at the end
   of a transport that broke off behind a size field.
   */
  datatype Position = Between | Kept(size: nat, padding: nat) | Done | Lost

  // What becomes of a stream of which only the first arrived bytes arrive.

  /** The plaintext of the chunks that arrive whole, up to the end. */
  ghost function Arrived<G>(s: Suite<G>, bs: seq<Block>, arrived: nat): seq<Byte>
    decreases |bs|, 1
  {
    if bs == [] || arrived < s.sizeBytes then [] else BodyArrived(s, bs, arrived - s.sizeBytes)
  }

  ghost function BodyArrived<G>(s: Suite<G>, bs: seq<Block>, arrived: nat): seq<Byte>
    requires bs != []
    decreases |bs|, 0
  {
    if bs[0].plain == [] || arrived < ChunkSize(s, bs[0]) then []
    else bs[0].plain + Arrived(s, bs[1..], arrived - ChunkSize(s, bs[0]))
  }

  /** The transport breaks off where a reader takes it for the end: at a chunk, behind a size field or after the end. */
  ghost predicate CleanCut<G>(s: Suite<G>, bs: seq<Block>, arrived: nat)
    decreases |bs|, 1
  {
    arrived == 0 || (bs != [] && arrived >= s.sizeBytes && BodyClean(s, bs, arrived - s.sizeBytes))
  }

  ghost predicate BodyClean<G>(s: Suite<G>, bs: seq<Block>, arrived: nat)
    requires bs != []
    decreases |bs|, 0
  {
    || bs[0].plain == [] || arrived == 0
    || (arrived >= ChunkSize(s, bs[0]) && CleanCut(s, bs[1..], arrived - ChunkSize(s, bs[0])))
  }

  /** What becomes of the next chunk when so many bytes behind its size field arrive. */
  lemma ChunkArrives<G>(s: Suite<G>, bs: seq<Block>, arrived: nat)
    requires bs != []
    ensures var whole := bs[0].plain != [] && arrived >= ChunkSize(s, bs[0]);
      && BodyArrived(s, bs, arrived) ==
         (if whole then bs[0].plain + Arrived(s, bs[1..], arrived - ChunkSize(s, bs[0])) else [])
      && (whole ==> (BodyClean(s, bs, arrived) <==> CleanCut(s, bs[1..], arrived - ChunkSize(s, bs[0]))))
      && (!whole ==> (BodyClean(s, bs, arrived) <==> bs[0].plain == [] || arrived == 0))
  {
  }

  lemma {:induction false} ArrivedIsPrefix<G>(s: Suite<G>, bs: seq<Block>, arrived: nat)
    ensures Arrived(s, bs, arrived) <= UpToEnd(Plains(bs))
  {
    if bs != [] {
      assert Plains(bs)[1..] == Plains(bs[1..]);
      if arrived >= s.sizeBytes + ChunkSize(s, bs[0]) { ArrivedIsPrefix(s, bs[1..], arrived - s.sizeBytes - ChunkSize(s, bs[0])); }
    }
  }

  lemma {:induction false} AllArrived<G(!new)>(s: Suite<G>, g: G, bs: seq<Block>)
    requires Lawful(s) && FitAll(s, g, bs)
    ensures Arrived(s, bs, |Bytes(s, g, bs)|) == UpToEnd(Plains(bs)) && CleanCut(s, bs, |Bytes(s, g, bs)|)
  {
    if bs != [] {
      assert SizesInvert(s) && CipherInverts(s);
      assert |Header(s, g, bs[0])| == s.sizeBytes && |Cipher(s, g, bs[0])| == |bs[0].plain| + s.overhead;
      assert Plains(bs)[1..] == Plains(bs[1..]);
      AllArrived(s, Next(s, g, bs[0]), bs[1..]);
    }
  }

  function Body<G>(s: Suite<G>, g: G, bs: seq<Block>): seq<Byte>
    requires bs != []
  {
    Cipher(s, g, bs[0]) + bs[0].noise + Bytes(s, Next(s, g, bs[0]), bs[1..])
  }

  lemma HeaderThenBody<G>(s: Suite<G>, g: G, bs: seq<Block>)
    requires bs != []
    ensures Bytes(s, g, bs) == Header(s, g, bs[0]) + Body(s, g, bs)
  {
    Assoc(Header(s, g, bs[0]), Cipher(s, g, bs[0]) + bs[0].noise, Bytes(s, Next(s, g, bs[0]), bs[1..]));
  }

  /** The size field of the first of the chunks todo has been read, and content is a prefix of what follows it. */
  ghost predicate SizeRead<G(!new)>(s: Suite<G>, at: G, todo: seq<Block>, g: G, n: nat, padding: nat, content: seq<Byte>) {
    && FitAll(s, at, todo) && todo != []
    && n == ChunkSize(s, todo[0]) && padding == |todo[0].noise|
    && g == AfterHeader(s, at, todo[0]) && content <= Body(s, at, todo)
  }

  /**
   With the chunks todo to come from the state at: g is the state of the receiving end, and content, what the transport
   still delivers, is a prefix of the bytes still expected.
   */
  ghost predicate InStep<G(!new)>(s: Suite<G>, at: G, todo: seq<Block>, g: G, position: Position, content: seq<Byte>) {
    match position
    case Between => FitAll(s, at, todo) && g == at && content <= Bytes(s, at, todo)
    case Kept(size, padding) => SizeRead(s, at, todo, g, size, padding, content) && todo[0].plain != []
    case Done => todo != [] && todo[0].plain == []
    case Lost => content == []
  }

  /** The plaintext that a reader still gets when so many bytes arrive. */
  ghost function Gets<G(!new)>(s: Suite<G>, todo: seq<Block>, position: Position, arrived: nat): seq<Byte> {
    match position
    case Between => Arrived(s, todo, arrived)
    case Kept(_, _) => if todo == [] then [] else BodyArrived(s, todo, arrived)
    case Done => []
    case Lost => []
  }

  /** Whether it then ends without an error. */
  ghost predicate EndsClean<G(!new)>(s: Suite<G>, todo: seq<Block>, position: Position, arrived: nat) {
    match position
    case Between => CleanCut(s, todo, arrived)
    case Kept(_, _) => todo != [] && BodyClean(s, todo, arrived)
    case Done => true
    case Lost => true
  }

  lemma HeaderRead<G(!new)>(s: Suite<G>, at: G, todo: seq<Block>, content: seq<Byte>, header: seq<Byte>, rest: seq<Byte>)
    requires Lawful(s) && InStep(s, at, todo, at, Between, content)
    requires content == header + rest && |header| == s.sizeBytes
    ensures todo != [] && s.draw(at).0 == |todo[0].noise|
    ensures s.decode(AfterDraw(s, at), header) == (Some(ChunkSize(s, todo[0])), AfterHeader(s, at, todo[0]))
    ensures SizeRead(s, at, todo, AfterHeader(s, at, todo[0]), ChunkSize(s, todo[0]), |todo[0].noise|, rest)
  {
    HeaderThenBody(s, at, todo);
    var h := Header(s, at, todo[0]);
    assert SizesInvert(s);
    assert |h| == s.sizeBytes;
    assert header == Bytes(s, at, todo)[..s.sizeBytes] == h;
  }

  lemma BodyRead<G(!new)>(s: Suite<G>, at: G, todo: seq<Block>, g: G, padding: nat, content: seq<Byte>, payload: seq<Byte>,
                          rest: seq<Byte>)
    requires Lawful(s) && SizeRead(s, at, todo, g, |payload|, padding, content) && content == payload + rest
    ensures InStep(s, Next(s, at, todo[0]), todo[1..], Next(s, at, todo[0]), Between, rest)
    ensures padding <= |payload|
    ensures s.open(g, payload[..|payload| - padding]) == (Some(todo[0].plain), Next(s, at, todo[0]))
  {
    assert CipherInverts(s);
    var c := Cipher(s, at, todo[0]);
    assert |c| == |todo[0].plain| + s.overhead;
    var body := Body(s, at, todo);
    assert body[..|payload|] == c + todo[0].noise;
    assert payload == c + todo[0].noise;
    assert rest == content[|payload|..];
    assert body[|payload|..] == Bytes(s, Next(s, at, todo[0]), todo[1..]);
  }

  class Reader<G(!new)> {
    const suite: Suite<G>
    const input: BufferedReader
    var g: G
    var size: nat
    var paddingLen: nat
    var hasSize: bool
    var done: bool
    ghost var at: G
    ghost var todo: seq<Block>
    /** The transport broke off behind a size field. */
    ghost var lost: bool

    ghost function Position(): Position
      reads this
    {
      if lost then Lost else if done then Done else if hasSize then Kept(size, paddingLen) else Between
    }

    ghost predicate Valid()
      reads this, input
    {
      Lawful(suite) && (lost ==> !done && !hasSize) && InStep(suite, at, todo, g, Position(), input.Content())
    }

    constructor (suite: Suite<G>, g: G, input: BufferedReader, ghost stream: seq<Block>)
      requires Lawful(suite) && FitAll(suite, g, stream) && input.Content() <= Bytes(suite, g, stream)
      ensures Valid() && this.suite == suite && this.input == input && todo == stream && Position() == Between
    {
      this.suite, this.g, this.input := suite, g, input;
      size, paddingLen, hasSize, done := 0, 0, false, false;
      at, todo, lost := g, stream, false;
    }

    /** The plaintext still to come. */
    ghost function ToCome(): seq<Byte>
      reads this, input
    {
      Gets(suite, todo, Position(), |input.Content()|)
    }

    /** Whether the end will come without an error. */
    ghost predicate WillEnd()
      reads this, input
    {
      EndsClean(suite, todo, Position(), |input.Content()|)
    }

    /** readSize: the kept size, or the next size field. */
    method ReadSize() returns (n: nat, padding: nat, status: Status)
      requires Valid() && !done
      modifies this, input
      ensures at == old(at) && todo == old(todo) && !done && !hasSize && lost == old(lost)
      ensures status == Ended ==> Valid() && input.Content() == [] && old(ToCome()) == [] && old(WillEnd())
      ensures status == Failed ==> |old(input.Content())| < suite.sizeBytes && old(ToCome()) == [] && !old(WillEnd())
      ensures status == Read ==>
        && !lost && SizeRead(suite, at, todo, g, n, padding, input.Content())
        && old(ToCome()) == BodyArrived(suite, todo, |input.Content()|)
        && (old(WillEnd()) <==> BodyClean(suite, todo, |input.Content()|))
      ensures status != Waiting
      ensures suite.sizeBytes <= old(input.BufferedBytes()) ==> input.pending == old(input.pending)
    {
      if hasSize {
        hasSize := false;
        return size, paddingLen, Read;
      }
      ghost var content := input.Content();
      var header, ok := input.ReadFull(suite.sizeBytes);
      if !ok {
        if !lost { CutHeader(suite, at, todo, content); }
        return 0, 0, if header == [] then Ended else Failed;
      }
      HeaderRead(suite, at, todo, content, header, input.Content());
      var (p, g1) := suite.draw(g);
      g := g1;
      var (decoded, g2) := suite.decode(g, header);
      g := g2;
      n, padding, status := 0, p, Failed;
      match decoded
      case None =>
      case Some(v) => n, status := v, Read;
    }

    /**
     The chunk whose size field has been read: readBuffer, or for a larger one a payload of its own. A transport that
     ends right behind the size field is taken for one that has ended.
     */
    method ReadChunk(n: nat, padding: nat, mb: seq<seq<Byte>>) returns (r: seq<seq<Byte>>, status: Status)
      requires Lawful(suite) && !done && !hasSize && !lost
      requires SizeRead(suite, at, todo, g, n, padding, input.Content()) && todo[0].plain != []
      requires InSize(mb)
      modifies this, input
      ensures InSize(r)
      ensures status == if n <= |old(input.Content())| then Read else if old(input.Content()) == [] then Ended else Failed
      ensures status != Read ==> r == mb && todo == old(todo) && input.Content() == []
      ensures status == Ended ==> Valid() && lost
      ensures status == Read ==> Valid() && todo == old(todo)[1..] && Concat(r) == Concat(mb) + old(todo)[0].plain
      ensures status == Read ==> Position() == Between && |input.Content()| == |old(input.Content())| - n
      ensures n <= old(input.BufferedBytes()) ==> input.pending == old(input.pending)
    {
      ghost var content := input.Content();
      var payload, ok := input.ReadFull(n);
      if !ok {
        lost := payload == [];
        return mb, if payload == [] then Ended else Failed;
      }
      BodyRead(suite, at, todo, g, padding, content, payload, input.Content());
      r, status := mb, Failed;
      var (plain, g1) := suite.open(g, payload[..n - padding]);
      g := g1;
      match plain
      case None =>
      case Some(rb) =>
        status := Read;
        r := Append(mb, rb, n);
        at, todo := g, todo[1..];
    }

    /** What was opened, in one buffer if the chunk fits one and merged into several otherwise. */
    static method Append(mb: seq<seq<Byte>>, rb: seq<Byte>, n: nat) returns (r: seq<seq<Byte>>)
      requires InSize(mb) && |rb| <= n
      ensures InSize(r) && Concat(r) == Concat(mb) + rb
    {
      ConcatOne(mb, rb);
      if n <= SIZE {
        r := mb + [rb];
      } else {
        r := MergeBytes(mb, rb);
      }
    }

    /** What readInternal does with the size it has read. */
    method AfterSize(soft: bool, n: nat, padding: nat, mb: seq<seq<Byte>>) returns (r: seq<seq<Byte>>, status: Status)
      requires Lawful(suite) && !done && !hasSize && !lost
      requires SizeRead(suite, at, todo, g, n, padding, input.Content())
      requires InSize(mb)
      modifies this, input
      ensures InSize(r)
      ensures status != Failed ==> Valid()
      ensures status == Read ==>
        todo == old(todo)[1..] && old(todo)[0].plain != [] && Concat(r) == Concat(mb) + old(todo)[0].plain
      ensures status != Read ==> r == mb && todo == old(todo)
      ensures status == Waiting ==> soft
      ensures status == Ended ==> done || (lost && !soft)
      ensures status == Failed ==> !soft && !BodyClean(suite, old(todo), |old(input.Content())|)
      ensures status == Failed || status == Ended ==> BodyArrived(suite, old(todo), |old(input.Content())|) == []
      ensures status == Read ==> BodyArrived(suite, old(todo), |old(input.Content())|) == old(todo)[0].plain + ToCome()
      ensures status == Waiting ==> BodyArrived(suite, old(todo), |old(input.Content())|) == ToCome()
      ensures status != Failed ==> (BodyClean(suite, old(todo), |old(input.Content())|) <==> WillEnd())
      ensures soft ==> input.pending == old(input.pending)
    {
      SizeOfChunk(suite, at, todo, g, n, padding, input.Content());
      r := mb;
      if n == (suite.overhead % 65536 + padding) % 65536 {
        done := true;
        return r, Ended;
      }
      if soft && n > input.BufferedBytes() {
        size, paddingLen, hasSize := n, padding, true;
        return r, Waiting;
      }
      r, status := ReadBody(n, padding, mb);
    }

    /** The chunk whose size field has been read, in terms of what is to come. */
    method ReadBody(n: nat, padding: nat, mb: seq<seq<Byte>>) returns (r: seq<seq<Byte>>, status: Status)
      requires Lawful(suite) && !done && !hasSize && !lost
      requires SizeRead(suite, at, todo, g, n, padding, input.Content()) && todo[0].plain != []
      requires InSize(mb)
      modifies this, input
      ensures InSize(r) && status != Waiting && (status != Failed ==> Valid())
      ensures status == Read ==> todo == old(todo)[1..] && Concat(r) == Concat(mb) + old(todo)[0].plain
      ensures status != Read ==> r == mb && todo == old(todo)
      ensures status == Ended ==> lost
      ensures status == Failed ==> !BodyClean(suite, old(todo), |old(input.Content())|)
      ensures BodyArrived(suite, old(todo), |old(input.Content())|) ==
        if status == Read then old(todo)[0].plain + ToCome() else []
      ensures status != Failed ==> (BodyClean(suite, old(todo), |old(input.Content())|) <==> WillEnd())
      ensures n <= old(input.BufferedBytes()) ==> input.pending == old(input.pending) && status == Read
    {
      ChunkArrives(suite, todo, |input.Content()|);
      r, status := ReadChunk(n, padding, mb);
    }

    /** readInternal. A soft read takes nothing from the transport and never fails. */
    method ReadInternal(soft: bool, mb: seq<seq<Byte>>) returns (r: seq<seq<Byte>>, status: Status)
      requires Valid() && InSize(mb)
      modifies this, input
      ensures InSize(r)
      ensures status != Failed ==> Valid()
      ensures status == Read ==>
        && old(todo) != [] && todo == old(todo)[1..] && old(todo)[0].plain != []
        && Concat(r) == Concat(mb) + old(todo)[0].plain
      ensures status != Read ==> r == mb && todo == old(todo)
      ensures status == Waiting ==> soft
      ensures status == Ended ==> done || input.Content() == []
      ensures status == Failed ==> !soft && !old(WillEnd()) && old(ToCome()) == []
      ensures status == Ended ==> old(WillEnd()) && old(ToCome()) == [] == ToCome()
      ensures status == Read ==> old(ToCome()) == old(todo)[0].plain + ToCome()
      ensures status == Waiting ==> old(ToCome()) == ToCome()
      ensures status != Failed ==> (old(WillEnd()) <==> WillEnd())
      ensures soft ==> input.pending == old(input.pending)
    {
      r := mb;
      if soft && input.BufferedBytes() < suite.sizeBytes { return r, Waiting; }
      if done { return r, Ended; }
      var n, padding;
      n, padding, status := ReadSize();
      if status != Read { return; }
      r, status := AfterSize(soft, n, padding, mb);
    }

    /** ReadMultiBuffer: the plaintexts of the next k chunks, k > 0, none of them the end. */
    method ReadMultiBuffer() returns (mb: seq<seq<Byte>>, status: Status, ghost k: nat)
      requires Valid()
      modifies this, input
      ensures status == Read || status == Ended || status == Failed
      ensures status == Read ==> 0 < k && Passed(old(todo), k, todo, mb)
      ensures status != Read ==> mb == [] && todo == old(todo)
      ensures status == Ended ==> done || input.Content() == []
      ensures old(ToCome()) == if status == Read then Concat(mb) + ToCome() else []
      ensures status == Failed ==> !old(WillEnd())
      ensures status == Ended ==> old(WillEnd())
      ensures status != Failed ==> Valid() && (WillEnd() <==> old(WillEnd()))
    {
      mb, status := ReadFirst();
      k := 0;
      if status == Read { mb, k := ReadSoft(mb, old(todo), 1, old(ToCome()), old(WillEnd())); }
    }

    /** The first chunk of a read. */
    method ReadFirst() returns (mb: seq<seq<Byte>>, status: Status)
      requires Valid()
      modifies this, input
      ensures status != Waiting && InSize(mb)
      ensures status == Read ==> Passed(old(todo), 1, todo, mb)
      ensures status != Read ==> mb == [] && todo == old(todo)
      ensures status == Ended ==> done || input.Content() == []
      ensures old(ToCome()) == if status == Read then Concat(mb) + ToCome() else []
      ensures status == Failed ==> !old(WillEnd())
      ensures status == Ended ==> old(WillEnd())
      ensures status != Failed ==> Valid() && (WillEnd() <==> old(WillEnd()))
    {
      mb, status := ReadInternal(false, []);
      if status == Read { PassedFirst(old(todo), mb); }
    }

    /** k chunks of those to come have been passed, and what has been read and what is to come is all there is. */
    ghost predicate Going(from: seq<Block>, k: nat, mb: seq<seq<Byte>>, all: seq<Byte>, clean: bool)
      reads this, input
    {
      && Valid() && InSize(mb) && 0 < k && Passed(from, k, todo, mb)
      && (WillEnd() <==> clean) && all == Concat(mb) + ToCome()
    }

    /** One soft read after the first chunk. */
    method ReadNext(mb0: seq<seq<Byte>>, ghost from: seq<Block>, ghost k0: nat, ghost all: seq<Byte>, ghost clean: bool)
      returns (mb: seq<seq<Byte>>, more: bool, ghost k: nat)
      requires Going(from, k0, mb0, all, clean)
      modifies this, input
      ensures Going(from, k, mb, all, clean) && input.pending == old(input.pending)
    {
      var status;
      mb, status := ReadInternal(true, mb0);
      k, more := k0, status == Read;
      if more {
        PassedNext(from, k0, old(todo), mb0, mb);
        Assoc(Concat(mb0), old(todo)[0].plain, ToCome());
        k := k0 + 1;
      }
    }

    /** The loop of soft reads after the first chunk. */
    method ReadSoft(mb0: seq<seq<Byte>>, ghost from: seq<Block>, ghost k0: nat, ghost all: seq<Byte>, ghost clean: bool)
      returns (mb: seq<seq<Byte>>, ghost k: nat)
      requires Going(from, k0, mb0, all, clean)
      modifies this, input
      ensures Going(from, k, mb, all, clean) && input.pending == old(input.pending)
    {
      mb, k := mb0, k0;
      for i := 1 to 16
        invariant Going(from, k, mb, all, clean) && input.pending == old(input.pending)
      {
        var more;
        mb, more, k := ReadNext(mb, from, k, all, clean);
        if !more { break; }
      }
    }
  }

  /** After k chunks of todo the chunks left are to come, and mb holds the plaintexts passed. */
  ghost predicate Passed(todo: seq<Block>, k: nat, left: seq<Block>, mb: seq<seq<Byte>>) {
    && k <= |todo| && left == todo[k..]
    && [] !in Plains(todo[..k]) && Concat(mb) == Concat(Plains(todo[..k]))
  }

  lemma PassedFirst(todo: seq<Block>, mb: seq<seq<Byte>>)
    requires todo != [] && todo[0].plain != [] && Concat(mb) == Concat([]) + todo[0].plain
    ensures Passed(todo, 1, todo[1..], mb) && Concat(mb) == todo[0].plain
  {
    PassedNext(todo, 0, todo, [], mb);
  }

  lemma PassedNext(todo: seq<Block>, k: nat, left: seq<Block>, mb: seq<seq<Byte>>, r: seq<seq<Byte>>)
    requires Passed(todo, k, left, mb)
    requires left != [] && left[0].plain != [] && Concat(r) == Concat(mb) + left[0].plain
    ensures Passed(todo, k + 1, left[1..], r)
  {
    assert todo[..k + 1][..k] == todo[..k];
    assert Plains(todo[..k + 1]) == Plains(todo[..k]) + [todo[k].plain];
    ConcatOne(Plains(todo[..k]), todo[k].plain);
  }

  /**
   Reading until the end from a transport that delivers some prefix of the chunks in any fragments: the result is the
   plaintext of the chunks that arrive whole, and there is no error exactly if the transport breaks off at a clean cut.
   When all the bytes arrive that is all of the plaintext.
   */
  method ReceiveAll<G(!new)>(suite: Suite<G>, g: G, fragments: seq<seq<seq<Byte>>>, ghost stream: seq<Block>)
    returns (got: seq<Byte>, ok: bool)
    requires Lawful(suite) && FitAll(suite, g, stream) && Arriving(fragments) <= Bytes(suite, g, stream)
    ensures got == Arrived(suite, stream, |Arriving(fragments)|)
    ensures ok <==> CleanCut(suite, stream, |Arriving(fragments)|)
    ensures got <= UpToEnd(Plains(stream))
    ensures Arriving(fragments) == Bytes(suite, g, stream) ==> ok && got == UpToEnd(Plains(stream))
  {
    var input := new BufferedReader(fragments);
    var r := new Reader(suite, g, input, stream);
    got := [];
    ghost var all, clean := Arrived(suite, stream, |Arriving(fragments)|), CleanCut(suite, stream, |Arriving(fragments)|);
    ArrivedIsPrefix(suite, stream, |Arriving(fragments)|);
    AllArrived(suite, g, stream);
    while true
      invariant r.Valid() && fresh(r) && r.input == input && fresh(input) && r.suite == suite
      invariant got + r.ToCome() == all && (r.WillEnd() <==> clean)
      decreases |r.todo|
    {
      var mb, status;
      ghost var k;
      mb, status, k := r.ReadMultiBuffer();
      if status == Failed { return got, false; }
      if status == Ended { break; }
      Assoc(got, Concat(mb), r.ToCome());
      got := got + Concat(mb);
    }
    ok := true;
  }

  /** A transport that breaks off right behind the size field of a chunk: no error, and nothing of the chunk. */
  lemma CutBehindSize<G(!new)>(s: Suite<G>, g: G, b: Block)
    requires Lawful(s) && Fits(s, g, b) && b.plain != []
    ensures Header(s, g, b) <= Bytes(s, g, [b])
    ensures var arrived := |Header(s, g, b)|;
      CleanCut(s, [b], arrived) && Arrived(s, [b], arrived) == [] && UpToEnd(Plains([b])) == b.plain
  {
    assert SizesInvert(s);
    HeaderThenBody(s, g, [b]);
    assert |Header(s, g, b)| == s.sizeBytes;
    assert Plains([b])[0] == b.plain && Plains([b])[1..] == [];
    assert UpToEnd(Plains([b])) == b.plain + [];
  }

  /**
   Both ends from one state, over a transport that cuts the bytes in any way: what is read until the end is what was
   written before the first empty write.
   */
  method Transfer<G(!new)>(suite: Suite<G>, g: G, writes: seq<seq<seq<Byte>>>, random: (nat, nat, nat) -> Byte,
                           deliver: seq<Byte> -> seq<seq<seq<Byte>>>)
    returns (got: seq<Byte>, ok: bool)
    requires Lawful(suite)
    requires forall bytes {:trigger deliver(bytes)} :: Arriving(deliver(bytes)) == bytes
    ensures ok && got == UpToEnd(Contents(writes))
  {
    var sent;
    ghost var blocks;
    sent, blocks := SendAll(suite, g, writes, random);
    got, ok := ReceiveAll(suite, g, deliver(sent), blocks);
  }

  lemma CutHeader<G(!new)>(s: Suite<G>, at: G, todo: seq<Block>, content: seq<Byte>)
    requires Lawful(s) && InStep(s, at, todo, at, Between, content) && |content| < s.sizeBytes
    ensures content != [] ==> |content| < |Bytes(s, at, todo)|
  {
    if todo != [] {
      HeaderThenBody(s, at, todo);
      assert SizesInvert(s);
      assert |Header(s, at, todo[0])| == s.sizeBytes;
    }
  }

  /** The size field tells the end marker from every other chunk, and the body is at least as long as it says. */
  lemma SizeOfChunk<G(!new)>(s: Suite<G>, at: G, todo: seq<Block>, g: G, n: nat, padding: nat, content: seq<Byte>)
    requires Lawful(s) && SizeRead(s, at, todo, g, n, padding, content)
    ensures n == (s.overhead % 65536 + padding) % 65536 <==> todo[0].plain == []
    ensures n <= |Body(s, at, todo)|
  {
    assert CipherInverts(s);
    assert |Cipher(s, at, todo[0])| == |todo[0].plain| + s.overhead;
  }

  ghost predicate InSize(mb: seq<seq<Byte>>) {
    forall i :: 0 <= i < |mb| ==> |mb[i]| <= SIZE
  }
}
