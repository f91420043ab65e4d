/**
 Buffers and multi-buffers (common/buf/buffer.go, common/buf/multi_buffer.go, common/buf/reader.go). A buffer is the
 sequence of its bytes, a multi-buffer a sequence of buffers.
 */
module Buffers {

  type Byte = b: int | 0 <= b < 256

  const SIZE := 8192

  function Concat(ps: seq<seq<Byte>>): seq<Byte> {
    if ps == [] then [] else ps[0] + Concat(ps[1..])
  }

  lemma Assoc(a: seq<Byte>, b: seq<Byte>, c: seq<Byte>)
    ensures a + (b + c) == (a + b) + c
  {
  }

  lemma {:induction false} ConcatAppend(a: seq<seq<Byte>>, b: seq<seq<Byte>>)
    ensures Concat(a + b) == Concat(a) + Concat(b)
  {
    if a == [] {
      assert a + b == b;
    } else {
      assert (a + b)[1..] == a[1..] + b;
      ConcatAppend(a[1..], b);
      Assoc(a[0], Concat(a[1..]), Concat(b));
    }
  }

  lemma ConcatOne(a: seq<seq<Byte>>, p: seq<Byte>)
    ensures Concat(a + [p]) == Concat(a) + p
  {
    ConcatAppend(a, [p]);
    assert Concat([p]) == p + [];
  }

  /** Buffer.Write: as much of data as fits. */
  function Write(buffer: seq<Byte>, data: seq<Byte>): seq<Byte>
    requires |buffer| <= SIZE
  {
    buffer + if |data| <= SIZE - |buffer| then data else data[..SIZE - |buffer|]
  }

  predicate AllEmpty(mb: seq<seq<Byte>>) {
    forall i :: 0 <= i < |mb| ==> mb[i] == []
  }

  lemma {:induction false} EmptyConcat(mb: seq<seq<Byte>>)
    ensures AllEmpty(mb) <==> Concat(mb) == []
  {
    if mb != [] {
      EmptyConcat(mb[1..]);
      assert mb == [mb[0]] + mb[1..];
    }
  }

  /** The first n bytes, or all of them. */
  function Front(b: seq<Byte>, n: nat): seq<Byte> {
    if n <= |b| then b[..n] else b
  }

  function Behind(b: seq<Byte>, n: nat): seq<Byte> {
    if n <= |b| then b[n..] else []
  }

  lemma SplitStep(got: seq<Byte>, p: seq<Byte>, rest: seq<Byte>, n: nat)
    requires |got| <= n
    ensures |p| <= n - |got| ==> got + Front(p + rest, n - |got|) == (got + p) + Front(rest, n - |got| - |p|)
    ensures |p| <= n - |got| ==> Behind(p + rest, n - |got|) == Behind(rest, n - |got| - |p|)
    ensures |p| > n - |got| ==> Front(p + rest, n - |got|) == p[..n - |got|]
    ensures |p| > n - |got| ==> Behind(p + rest, n - |got|) == p[n - |got|..] + rest
  {
  }

  /**
   SplitBytes with a slice of n bytes: the first bytes come out, the others stay in order, and what stays does not start
   with an empty buffer.
   */
  method SplitBytes(mb: seq<seq<Byte>>, n: nat) returns (rest: seq<seq<Byte>>, got: seq<Byte>)
    ensures got == Front(Concat(mb), n) && Concat(rest) == Behind(Concat(mb), n)
    ensures rest == [] || rest[0] != []
  {
    got := [];
    for i := 0 to |mb|
      invariant |got| <= n
      invariant got + Front(Concat(mb[i..]), n - |got|) == Front(Concat(mb), n)
      invariant Behind(Concat(mb[i..]), n - |got|) == Behind(Concat(mb), n)
    {
      assert mb[i..][1..] == mb[i + 1..];
      SplitStep(got, mb[i], Concat(mb[i + 1..]), n);
      var take := if |mb[i]| <= n - |got| then |mb[i]| else n - |got|;
      var left := mb[i][take..];
      got := got + mb[i][..take];
      if left != [] {
        rest := [left] + mb[i + 1..];
        assert rest[1..] == mb[i + 1..];
        return;
      }
      assert mb[i][..take] == mb[i];
    }
    rest := [];
  }

  /** MergeBytes fills the last buffer and then new ones: the bytes are appended, and no buffer outgrows its capacity. */
  method MergeBytes(dest: seq<seq<Byte>>, src: seq<Byte>) returns (r: seq<seq<Byte>>)
    requires forall i :: 0 <= i < |dest| ==> |dest[i]| <= SIZE
    ensures Concat(r) == Concat(dest) + src
    ensures forall i :: 0 <= i < |r| ==> |r[i]| <= SIZE
  {
    var data := src;
    r := dest;
    var n := |dest|;
    if n > 0 && |dest[n - 1]| < SIZE {
      var full := Write(dest[n - 1], data);
      var taken := |full| - |dest[n - 1]|;
      assert full == dest[n - 1] + data[..taken];
      assert dest == dest[..n - 1] + [dest[n - 1]];
      ConcatOne(dest[..n - 1], dest[n - 1]);
      r := dest[..n - 1] + [full];
      ConcatOne(dest[..n - 1], full);
      data := data[taken..];
    }
    while data != []
      invariant Concat(r) + data == Concat(dest) + src
      invariant forall i :: 0 <= i < |r| ==> |r[i]| <= SIZE
      decreases |data|
    {
      var b := Write([], data);
      ConcatOne(r, b);
      r := r + [b];
      data := data[|b|..];
    }
  }

  /** A buffered reader over a transport that delivers the multi-buffers of pending one after the other, then ends. */
  class BufferedReader {
    var buffer: seq<seq<Byte>>
    var pending: seq<seq<seq<Byte>>>

    constructor (fragments: seq<seq<seq<Byte>>>)
      ensures buffer == [] && pending == fragments
    {
      buffer, pending := [], fragments;
    }

    /** All the bytes still to be read. */
    ghost function Content(): seq<Byte>
      reads this
    {
      Concat(buffer) + Arriving(pending)
    }

    /** BufferedBytes. */
    function BufferedBytes(): (n: nat)
      reads this
      ensures n <= |Content()|
    {
      |Concat(buffer)|
    }

    /**
     Read: from the buffer, or when it is empty from the next delivery; None at the end of the transport.
     */
    method Read(n: nat) returns (got: seq<Byte>, ended: bool)
      modifies this
      ensures ended ==> got == [] && old(Content()) == [] && Content() == []
      ensures !ended ==> got + Content() == old(Content()) && |got| <= n
      ensures !ended && n > 0 ==> got != [] || |pending| < old(|pending|)
      ensures |pending| <= old(|pending|)
      ensures old(BufferedBytes()) > 0 ==> pending == old(pending) && got + Concat(buffer) == old(Concat(buffer))
    {
      EmptyConcat(buffer);
      if !AllEmpty(buffer) {
        var rest;
        rest, got := SplitBytes(buffer, n);
        buffer := rest;
        return got, false;
      }
      if pending == [] { return [], true; }
      var rest;
      rest, got := SplitBytes(pending[0], n);
      buffer := rest;
      pending := pending[1..];
      ended := false;
    }

    /** io.ReadFull: exactly the next n bytes, or everything that is left and a failure. */
    method ReadFull(n: nat) returns (got: seq<Byte>, ok: bool)
      modifies this
      ensures ok == (n <= |old(Content())|)
      ensures ok ==> |got| == n && got + Content() == old(Content())
      ensures !ok ==> got == old(Content()) && Content() == []
      ensures n <= old(BufferedBytes()) ==> pending == old(pending)
    {
      got := [];
      while |got| < n
        invariant |got| <= n && got + Content() == old(Content())
        invariant n <= old(BufferedBytes()) ==> pending == old(pending) && got + Concat(buffer) == old(Concat(buffer))
        decreases |pending|, n - |got|
      {
        var more, ended := Read(n - |got|);
        if ended { return got, false; }
        Assoc(got, more, Content());
        Assoc(got, more, Concat(buffer));
        got := got + more;
      }
      ok := true;
    }
  }

  ghost function Arriving(pending: seq<seq<seq<Byte>>>): seq<Byte> {
    if pending == [] then [] else Concat(pending[0]) + Arriving(pending[1..])
  }
}
