/**
 The streaming geosite decoder (common/geodata/geodat_loader.go). The protobuf wire functions and the UTF-8 check are
 parameters; the calls of fn are the sequence of its arguments.
 */
module GeoSite {

  import opened Buffers
  import opened Options

  /** A parse of the front of the bytes: a value and its length, bytes cut off, or bytes that no continuation mends. */
  datatype Parsed<+T> = Got(value: T, length: nat) | Truncated | Malformed(code: int)

  datatype Tag = Tag(num: nat, typ: nat)

  datatype Wire = Wire(
    tag: seq<Byte> -> Parsed<Tag>,
    varint: seq<Byte> -> Parsed<nat>,
    bytes: seq<Byte> -> Parsed<seq<Byte>>,
    other: (Tag, seq<Byte>) -> Parsed<nat>,
    utf8: seq<Byte> -> bool)

  const VARINT := 0
  const BYTES := 2
  const MAX_NUMBER := 536870911
  const INVALID_NUMBER := -100

  /** What the first k bytes tell: the same as all the bytes do, or that they are cut off. */
  ghost predicate StableAt<T>(whole: Parsed<T>, part: Parsed<T>, size: nat, k: nat) {
    && (part == Truncated || part == whole)
    && (whole.Got? ==> 0 < whole.length <= size)
    && (whole.Got? && whole.length <= k ==> part == whole)
    && (part.Got? ==> part.length <= k)
  }

  ghost predicate Stable<T(!new)>(f: seq<Byte> -> Parsed<T>) {
    forall b, k {:trigger StableAt(f(b), f(b[..k]), |b|, k)} :: 0 <= k <= |b| ==> StableAt(f(b), f(b[..k]), |b|, k)
  }

  ghost predicate StableOther(f: (Tag, seq<Byte>) -> Parsed<nat>) {
    forall t, b, k {:trigger StableAt(f(t, b), f(t, b[..k]), |b|, k)} :: 0 <= k <= |b| ==> StableAt(f(t, b), f(t, b[..k]), |b|, k)
  }

  ghost predicate Lawful(w: Wire) {
    Stable(w.tag) && Stable(w.varint) && Stable(w.bytes) && StableOther(w.other)
  }

  // One field.

  datatype Field = Field(num: nat, typ: nat, v: seq<Byte>, x: nat)

  function Payload(w: Wire, t: Tag, b: seq<Byte>): Parsed<Field> {
    if t.typ == BYTES then
      match w.bytes(b)
      case Got(v, m) => Got(Field(t.num, t.typ, v, 0), m)
      case Truncated => Truncated
      case Malformed(c) => Malformed(c)
    else if t.typ == VARINT then
      match w.varint(b)
      case Got(x, m) => Got(Field(t.num, t.typ, [], x), m)
      case Truncated => Truncated
      case Malformed(c) => Malformed(c)
    else
      match w.other(t, b)
      case Got(_, m) => Got(Field(t.num, t.typ, [], 0), m)
      case Truncated => Truncated
      case Malformed(c) => Malformed(c)
  }

  /** consumeField. */
  function ConsumeField(w: Wire, b: seq<Byte>): Parsed<Field> {
    match w.tag(b)
    case Truncated => Truncated
    case Malformed(c) => Malformed(c)
    case Got(t, n) =>
      if t.num > MAX_NUMBER || n > |b| then Malformed(INVALID_NUMBER)
      else
        match Payload(w, t, b[n..])
        case Got(f, m) => Got(f, n + m)
        case Truncated => Truncated
        case Malformed(c) => Malformed(c)
  }

  lemma PayloadStable(w: Wire, t: Tag, b: seq<Byte>, k: nat)
    requires Lawful(w) && k <= |b|
    ensures StableAt(Payload(w, t, b), Payload(w, t, b[..k]), |b|, k)
  {
    assert StableAt(w.bytes(b), w.bytes(b[..k]), |b|, k);
    assert StableAt(w.varint(b), w.varint(b[..k]), |b|, k);
    assert StableAt(w.other(t, b), w.other(t, b[..k]), |b|, k);
  }

  /** A field parsed from a window is the field of the whole, and only bytes that are cut off look so. */
  lemma FieldStable(w: Wire, b: seq<Byte>, k: nat)
    requires Lawful(w) && k <= |b|
    ensures StableAt(ConsumeField(w, b), ConsumeField(w, b[..k]), |b|, k)
  {
    assert StableAt(w.tag(b), w.tag(b[..k]), |b|, k);
    if w.tag(b).Got? {
      var t, n := w.tag(b).value, w.tag(b).length;
      PayloadStable(w, t, b[n..], if n <= k then k - n else 0);
      if n <= k { assert b[..k][n..] == b[n..][..k - n]; }
    }
  }

  // What a whole message means.

  datatype Error = UnexpectedEOF | InvalidUTF8 | Bad(code: int)

  function ErrorOf<T>(p: Parsed<T>): Error
    requires !p.Got?
  {
    if p.Truncated? then UnexpectedEOF else Bad(p.code)
  }

  datatype Result<+T> = Ok(value: T) | Err(error: Error)

  /** The fields of a message one after the other, up to the first that fails to parse. */
  datatype Fields = Fields(list: seq<Field>, error: Option<Error>)

  function FieldsOf(w: Wire, b: seq<Byte>): Fields
    decreases |b|
  {
    if b == [] then Fields([], None)
    else
      match ConsumeField(w, b)
      case Got(f, n) =>
        if 0 < n <= |b| then
          var rest := FieldsOf(w, b[n..]);
          rest.(list := [f] + rest.list)
        else Fields([], Some(Bad(INVALID_NUMBER)))
      case Truncated => Fields([], Some(UnexpectedEOF))
      case Malformed(c) => Fields([], Some(Bad(c)))
  }

  predicate IsBytes(f: Field, num: nat) {
    f.num == num && f.typ == BYTES
  }

  /** The last field that is the key, nothing without one; an error in order of the bytes. */
  function KeyOf(w: Wire, fs: Fields, key: seq<Byte>): Result<seq<Byte>>
    decreases |fs.list|
  {
    if fs.list == [] then
      if fs.error.Some? then Err(fs.error.value) else Ok(key)
    else
      var f, rest := fs.list[0], fs.(list := fs.list[1..]);
      if !IsBytes(f, 1) then KeyOf(w, rest, key)
      else if !w.utf8(f.v) then Err(InvalidUTF8)
      else KeyOf(w, rest, f.v)
  }

  function Int32(x: nat): int {
    var y := x % 0x1_0000_0000;
    if y < 0x8000_0000 then y else y - 0x1_0000_0000
  }

  datatype Domain = Domain(kind: int, value: seq<Byte>, keys: set<seq<Byte>>)

  /** A domain: its last type and value, and the keys of all its attributes. */
  function DomainOf(w: Wire, fs: Fields, d: Domain): Result<Domain>
    decreases |fs.list|
  {
    if fs.list == [] then
      if fs.error.Some? then Err(fs.error.value) else Ok(d)
    else
      var f, rest := fs.list[0], fs.(list := fs.list[1..]);
      if f.num == 1 && f.typ == VARINT then DomainOf(w, rest, d.(kind := Int32(f.x)))
      else if IsBytes(f, 2) then
        if w.utf8(f.v) then DomainOf(w, rest, d.(value := f.v)) else Err(InvalidUTF8)
      else if IsBytes(f, 3) then
        match KeyOf(w, FieldsOf(w, f.v), [])
        case Err(e) => Err(e)
        case Ok(key) => DomainOf(w, rest, d.(keys := d.keys + {key}))
      else DomainOf(w, rest, d)
  }

  const NO_DOMAIN := Domain(0, [], {})

  datatype Call = Call(kind: int, value: seq<Byte>)

  predicate HasAll(want: seq<seq<Byte>>, keys: set<seq<Byte>>) {
    forall i :: 0 <= i < |want| ==> want[i] in keys
  }

  /** The calls of one field of a site. */
  function CallsOf(w: Wire, want: seq<seq<Byte>>, f: Field): Result<seq<Call>> {
    if IsBytes(f, 1) && !w.utf8(f.v) then Err(InvalidUTF8)
    else if IsBytes(f, 2) then
      match DomainOf(w, FieldsOf(w, f.v), NO_DOMAIN)
      case Err(e) => Err(e)
      case Ok(d) => Ok(if HasAll(want, d.keys) then [Call(d.kind, d.value)] else [])
    else Ok([])
  }

  /** All the calls made for a site, and the error that ends it if any. */
  datatype Outcome = Outcome(calls: seq<Call>, error: Option<Error>)

  function SiteOf(w: Wire, want: seq<seq<Byte>>, fs: Fields): Outcome
    decreases |fs.list|
  {
    if fs.list == [] then Outcome([], fs.error)
    else
      match CallsOf(w, want, fs.list[0])
      case Err(e) => Outcome([], Some(e))
      case Ok(calls) =>
        var rest := SiteOf(w, want, fs.(list := fs.list[1..]));
        rest.(calls := calls + rest.calls)
  }

  function Site(w: Wire, want: seq<seq<Byte>>, b: seq<Byte>): Outcome {
    SiteOf(w, want, FieldsOf(w, b))
  }

  // The decoders.

  /** decodeAttributeKey. */
  method DecodeAttributeKey(w: Wire, b: seq<Byte>) returns (r: Result<seq<Byte>>)
    requires Lawful(w)
    ensures r == KeyOf(w, FieldsOf(w, b), [])
  {
    var rest, key := b, [];
    while rest != []
      invariant KeyOf(w, FieldsOf(w, rest), key) == KeyOf(w, FieldsOf(w, b), [])
      decreases |rest|
    {
      var p := ConsumeField(w, rest);
      if !p.Got? { return Err(ErrorOf(p)); }
      NextField(w, rest);
      rest := rest[p.length..];
      if IsBytes(p.value, 1) {
        if !w.utf8(p.value.v) { return Err(InvalidUTF8); }
        key := p.value.v;
      }
    }
    r := Ok(key);
  }

  lemma NextField(w: Wire, b: seq<Byte>)
    requires Lawful(w) && b != [] && ConsumeField(w, b).Got?
    ensures 0 < ConsumeField(w, b).length <= |b|
    ensures var p := ConsumeField(w, b);
      var fs, rest := FieldsOf(w, b), FieldsOf(w, b[p.length..]);
      fs.list != [] && fs.list[0] == p.value && fs.(list := fs.list[1..]) == rest
  {
    FieldStable(w, b, |b|);
    assert b[..|b|] == b;
  }

  /** The attributes found so far, position by position of want. */
  ghost predicate Marks(has: seq<bool>, want: seq<seq<Byte>>, keys: set<seq<Byte>>) {
    |has| == |want| && forall i :: 0 <= i < |want| ==> (has[i] <==> want[i] in keys)
  }

  /** The outcome of a message some of whose calls have been made. */
  function After(calls: seq<Call>, rest: Outcome): Outcome {
    rest.(calls := calls + rest.calls)
  }

  datatype LoadError = Short | Unmarshal(error: Error)

  class Decoder {
    const wire: Wire
    const want: seq<seq<Byte>>
    const has: array<bool>
    var calls: seq<Call>

    ghost predicate Valid() {
      Lawful(wire) && has.Length == |want|
    }

    constructor (wire: Wire, want: seq<seq<Byte>>)
      requires Lawful(wire)
      ensures Valid() && this.wire == wire && this.want == want && calls == [] && fresh(has)
    {
      this.wire, this.want, calls := wire, want, [];
      has := new bool[|want|];
    }

    /** The loop over want for one attribute. */
    method Mark(key: seq<Byte>, ghost keys: set<seq<Byte>>)
      requires Valid() && Marks(has[..], want, keys)
      modifies has
      ensures Marks(has[..], want, keys + {key})
    {
      for i := 0 to |want|
        invariant forall j :: 0 <= j < |want| ==> (has[j] <==> want[j] in keys || (j < i && want[j] == key))
      {
        if key == want[i] { has[i] := true; }
      }
    }

    /** decodeDomain: the domain, and in has which of the wanted attributes it carries. */
    method DecodeDomain(b: seq<Byte>) returns (r: Result<(int, seq<Byte>)>)
      requires Valid()
      modifies has
      ensures match DomainOf(wire, FieldsOf(wire, b), NO_DOMAIN)
        case Err(e) => r == Err(e)
        case Ok(d) => r == Ok((d.kind, d.value)) && Marks(has[..], want, d.keys)
    {
      for i := 0 to has.Length
        invariant forall j :: 0 <= j < i ==> !has[j]
      {
        has[i] := false;
      }
      var rest, kind, value := b, 0, [];
      ghost var keys: set<seq<Byte>> := {};
      while rest != []
        invariant Marks(has[..], want, keys)
        invariant DomainOf(wire, FieldsOf(wire, rest), Domain(kind, value, keys)) == DomainOf(wire, FieldsOf(wire, b), NO_DOMAIN)
        decreases |rest|
      {
        var p := ConsumeField(wire, rest);
        if !p.Got? { return Err(ErrorOf(p)); }
        NextField(wire, rest);
        rest := rest[p.length..];
        var f := p.value;
        if f.num == 1 && f.typ == VARINT {
          kind := Int32(f.x);
        } else if IsBytes(f, 2) {
          if !wire.utf8(f.v) { return Err(InvalidUTF8); }
          value := f.v;
        } else if IsBytes(f, 3) {
          var key := DecodeAttributeKey(wire, f.v);
          if key.Err? { return Err(key.error); }
          Mark(key.value, keys);
          keys := keys + {key.value};
        }
      }
      r := Ok((kind, value));
    }

    /** slices.Contains(has, false). */
    method Lacks() returns (missing: bool)
      ensures missing <==> exists i :: 0 <= i < has.Length && !has[i]
    {
      for i := 0 to has.Length
        invariant forall j :: 0 <= j < i ==> has[j]
      {
        if !has[i] { return true; }
      }
      missing := false;
    }

    /** What decode does with one field. */
    method Take(f: Field) returns (error: Option<Error>)
      requires Valid()
      modifies has, `calls
      ensures match CallsOf(wire, want, f)
        case Err(e) => error == Some(e) && calls == old(calls)
        case Ok(made) => error == None && calls == old(calls) + made
    {
      if f.typ != BYTES { return None; }
      if f.num == 1 {
        if !wire.utf8(f.v) { return Some(InvalidUTF8); }
      } else if f.num == 2 {
        var r := DecodeDomain(f.v);
        if r.Err? { return Some(r.error); }
        var missing := Lacks();
        if !missing { calls := calls + [Call(r.value.0, r.value.1)]; }
      }
      error := None;
    }

    /** One turn of decode. Nothing is used when the field is cut off by the end of the window. */
    method DecodeField(b: seq<Byte>, more: bool, at: nat, ghost whole: seq<Byte>, ghost before: seq<Call>)
      returns (used: nat, error: Option<Error>, ghost made: seq<Call>)
      requires Valid() && b <= whole && (!more ==> b == whole) && at < |b|
      requires Progress(wire, want, whole, at, before)
      modifies has, `calls
      ensures calls == old(calls) + made && at <= used <= |b|
      ensures error == None ==> Progress(wire, want, whole, used, before + made)
      ensures error.Some? ==> Site(wire, want, whole) == Outcome(before + made, error)
      ensures error == None && used == at ==> more
    {
      used, made := at, [];
      assert before + made == before;
      var p := ConsumeField(wire, b[at..]);
      FieldStep(wire, want, b, more, whole, at, before);
      if p == Truncated && more { return used, None, made; }
      if !p.Got? { return used, Some(ErrorOf(p)), made; }
      ghost var c := CallsOf(wire, want, p.value);
      used := at + p.length;
      error := Take(p.value);
      if error == None { made := c.value; }
    }

    /**
     decode of a window b at the start of the bytes whole that remain of the message. What it does is a first part of
     decoding the whole, and without more to come it is all of it.
     */
    method Decode(b: seq<Byte>, more: bool, ghost whole: seq<Byte>)
      returns (used: nat, error: Option<Error>, ghost made: seq<Call>)
      requires Valid() && b <= whole && (!more ==> b == whole)
      modifies has, `calls
      ensures calls == old(calls) + made && used <= |b|
      ensures error == None ==> Progress(wire, want, whole, used, made)
      ensures error.Some? ==> Site(wire, want, whole) == Outcome(made, error)
      ensures !more && error == None ==> used == |b|
    {
      used, made := 0, [];
      assert whole[0..] == whole;
      while used < |b|
        invariant used <= |b| && calls == old(calls) + made
        invariant Progress(wire, want, whole, used, made)
      {
        ghost var new';
        var at := used;
        used, error, new' := DecodeField(b, more, at, whole, made);
        made := made + new';
        if error.Some? { return; }
        if used == at { break; }
      }
      error := None;
    }

    /** decode of the w bytes of the body at a position. */
    method DecodeAt(body: seq<Byte>, at: nat, w: nat, more: bool) returns (used: nat, error: Option<Error>)
      requires Valid() && at + w <= |body| && (!more ==> at + w == |body|)
      requires Progress(wire, want, body, at, calls)
      modifies has, `calls
      ensures used <= w
      ensures error == None ==> Progress(wire, want, body, at + used, calls)
      ensures error.Some? ==> Site(wire, want, body) == Outcome(calls, error)
      ensures !more && error == None ==> used == w
    {
      ghost var before, made := calls, [];
      assert body[at..at + w] == body[at..][..w];
      used, error, made := Decode(body[at..at + w], more, body[at..]);
      ProgressOn(wire, want, body, at, before, used, made, error);
    }

    /**
     The body of loadSite: windows of at most size bytes while they hold a whole field, then all that is left. If the file holds
     the n bytes of the message, the calls and the error are those of decoding the message at once.
     */
    method Run(file: seq<Byte>, n: nat, size: nat) returns (error: Option<LoadError>)
      requires Valid() && calls == []
      modifies has, `calls
      ensures n <= |file| ==> Loaded(Site(wire, want, file[..n]), calls, error)
      ensures n > |file| ==> error.Some?
    {
      var body := Front(file, n);
      var at;
      at, error := Windows(body, n, size);
      if error.Some? { return; }
      if at < n {
        if |body| < n { return Some(Short); }
        var used, failed := DecodeAt(body, at, n - at, false);
        if failed.Some? { return Some(Unmarshal(failed.value)); }
      }
      AllDone(wire, want, body, calls);
    }

    /** The loop of loadSite: it stops at the end, or at a field longer than a window. */
    method Windows(body: seq<Byte>, n: nat, size: nat) returns (at: nat, error: Option<LoadError>)
      requires Valid() && calls == [] && |body| <= n
      modifies has, `calls
      ensures error == None ==> at <= |body| && Progress(wire, want, body, at, calls)
      ensures error.Some? && |body| == n ==> Loaded(Site(wire, want, body), calls, error)
    {
      at := 0;
      assert body[0..] == body;
      while at < n
        invariant at <= |body| && Progress(wire, want, body, at, calls)
      {
        var w := if n - at < size then n - at else size;
        if |body| - at < w { return at, Some(Short); }
        var used, failed := DecodeAt(body, at, w, w < n - at);
        if failed.Some? { return at, Some(Unmarshal(failed.value)); }
        if used == 0 { break; }
        at := at + used;
      }
      error := None;
    }
  }

  ghost predicate Loaded(whole: Outcome, calls: seq<Call>, error: Option<LoadError>) {
    && calls == whole.calls
    && error == if whole.error.Some? then Some(Unmarshal(whole.error.value)) else None
  }

  lemma AllDone(w: Wire, want: seq<seq<Byte>>, body: seq<Byte>, calls: seq<Call>)
    requires Progress(w, want, body, |body|, calls)
    ensures Site(w, want, body) == Outcome(calls, None)
  {
    assert body[|body|..] == [];
    assert calls + [] == calls;
  }

  lemma ProgressOn(w: Wire, want: seq<seq<Byte>>, body: seq<Byte>, at: nat, before: seq<Call>, used: nat, made: seq<Call>,
                   error: Option<Error>)
    requires Progress(w, want, body, at, before)
    ensures error == None && Progress(w, want, body[at..], used, made) ==> Progress(w, want, body, at + used, before + made)
    ensures error.Some? && Site(w, want, body[at..]) == Outcome(made, error) ==>
      Site(w, want, body) == Outcome(before + made, error)
  {
    if used <= |body[at..]| {
      assert body[at..][used..] == body[at + used..];
      NextCalls(before, made, Site(w, want, body[at + used..]));
    }
  }

  /** The calls made are the first of the whole message, and the bytes from used on make the others. */
  ghost predicate Progress(w: Wire, want: seq<seq<Byte>>, whole: seq<Byte>, used: nat, made: seq<Call>) {
    used <= |whole| && Site(w, want, whole) == After(made, Site(w, want, whole[used..]))
  }

  lemma WindowField(w: Wire, b: seq<Byte>, whole: seq<Byte>, used: nat)
    requires Lawful(w) && b <= whole && used < |b|
    ensures var p, q := ConsumeField(w, b[used..]), ConsumeField(w, whole[used..]);
      (p == Truncated || p == q) && (p.Got? ==> 0 < p.length <= |b| - used) && (b == whole ==> p == q)
  {
    assert b[used..] == whole[used..][..|b| - used];
    FieldStable(w, whole[used..], |b| - used);
  }

  lemma FailedField(w: Wire, want: seq<seq<Byte>>, whole: seq<Byte>, used: nat, made: seq<Call>)
    requires Progress(w, want, whole, used, made) && used < |whole| && !ConsumeField(w, whole[used..]).Got?
    ensures Site(w, want, whole) == Outcome(made, Some(ErrorOf(ConsumeField(w, whole[used..]))))
  {
  }

  lemma NextProgress(w: Wire, want: seq<seq<Byte>>, whole: seq<Byte>, used: nat, made: seq<Call>)
    requires Lawful(w) && Progress(w, want, whole, used, made) && used < |whole| && ConsumeField(w, whole[used..]).Got?
    ensures var p := ConsumeField(w, whole[used..]);
      match CallsOf(w, want, p.value)
      case Err(e) => Site(w, want, whole) == Outcome(made, Some(e))
      case Ok(calls) => Progress(w, want, whole, used + p.length, made + calls)
  {
    var rest := whole[used..];
    var p := ConsumeField(w, rest);
    NextField(w, rest);
    assert rest[p.length..] == whole[used + p.length..];
    if CallsOf(w, want, p.value).Ok? {
      NextCalls(made, CallsOf(w, want, p.value).value, Site(w, want, rest[p.length..]));
    }
  }

  lemma FieldStep(w: Wire, want: seq<seq<Byte>>, b: seq<Byte>, more: bool, whole: seq<Byte>, at: nat, before: seq<Call>)
    requires Lawful(w) && b <= whole && (!more ==> b == whole) && at < |b| && Progress(w, want, whole, at, before)
    ensures var p := ConsumeField(w, b[at..]);
      if p.Got? then
        && 0 < p.length <= |b| - at
        && match CallsOf(w, want, p.value)
           case Err(e) => Site(w, want, whole) == Outcome(before, Some(e))
           case Ok(calls) => Progress(w, want, whole, at + p.length, before + calls)
      else (p == Truncated && more) || Site(w, want, whole) == Outcome(before, Some(ErrorOf(p)))
  {
    WindowField(w, b, whole, at);
    if ConsumeField(w, whole[at..]).Got? {
      NextProgress(w, want, whole, at, before);
    } else {
      FailedField(w, want, whole, at, before);
    }
  }

  lemma NextCalls(before: seq<Call>, made: seq<Call>, rest: Outcome)
    ensures After(before, After(made, rest)) == After(before + made, rest)
  {
    assert before + (made + rest.calls) == (before + made) + rest.calls;
  }

  /** loadSite from a file positioned at the n bytes of a site, for any window size. */
  method LoadSite(w: Wire, want: seq<seq<Byte>>, file: seq<Byte>, n: nat, size: nat)
    returns (calls: seq<Call>, error: Option<LoadError>)
    requires Lawful(w)
    ensures n <= |file| ==> Loaded(Site(w, want, file[..n]), calls, error)
    ensures n > |file| ==> error.Some?
  {
    var d := new Decoder(w, want);
    error := d.Run(file, n, size);
    calls := d.calls;
  }
}
