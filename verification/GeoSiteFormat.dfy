/**
 The geosite file format (common/geodata/geodat.proto) in the protobuf wire encoding, and that the streaming decoder reads
 back what was written: of every domain with the wanted attributes its type and value, in order.
 */
module GeoSiteFormat {

  import opened Buffers
  import opened Options
  import opened GeoSite
  import opened Protobuf

  /** An attribute: its key and its value, the number of the field 2 for a boolean and 3 for an integer. */
  datatype Attribute = Attribute(key: seq<Byte>, number: nat, value: nat)

  /** A field that the format does not know, of any wire type. */
  datatype Extra =
    | Integer(num: nat, x: nat)
    | Four(num: nat, v: seq<Byte>)
    | Eight(num: nat, v: seq<Byte>)
    | Text(num: nat, v: seq<Byte>)
    | Group(num: nat, fields: seq<Extra>)

  type Kind = k: int | -0x8000_0000 <= k < 0x8000_0000

  datatype Entry = Entry(kind: Kind, value: seq<Byte>, attributes: seq<Attribute>, extras: seq<Extra>)

  // Writing.

  const LIMIT := 0x1_0000_0000_0000_0000

  function Varint(n: nat): (b: seq<Byte>)
    ensures |b| > 0
  {
    if n < 128 then [n] else [128 + n % 128] + Varint(n / 128)
  }

  function Numeric(num: nat, x: nat): seq<Byte> {
    Varint(8 * num) + Varint(x)
  }

  function Delimited(num: nat, v: seq<Byte>): seq<Byte> {
    Varint(8 * num + 2) + (Varint(|v|) + v)
  }

  function AttributeBytes(a: Attribute): seq<Byte> {
    Delimited(1, a.key) + Numeric(a.number, a.value)
  }

  function TypeOf(e: Extra): nat {
    match e
    case Integer(_, _) => VARINT
    case Four(_, _) => FIXED32
    case Eight(_, _) => FIXED64
    case Text(_, _) => BYTES
    case Group(_, _) => START_GROUP
  }

  /** What follows the tag of a field. */
  function ExtraBody(e: Extra): seq<Byte>
    decreases e, 0
  {
    match e
    case Integer(_, x) => Varint(x)
    case Four(_, v) => v
    case Eight(_, v) => v
    case Text(_, v) => Varint(|v|) + v
    case Group(num, fields) => ExtrasBytes(fields) + Varint(8 * num + END_GROUP)
  }

  function ExtrasBytes(es: seq<Extra>): seq<Byte>
    decreases es
  {
    if es == [] then [] else Varint(8 * es[0].num + TypeOf(es[0])) + (ExtraBody(es[0]) + ExtrasBytes(es[1..]))
  }

  function AttributesBytes(attributes: seq<Attribute>): seq<Byte> {
    if attributes == [] then [] else Delimited(3, AttributeBytes(attributes[0])) + AttributesBytes(attributes[1..])
  }

  /** A negative type is written as its 64-bit two's complement; a type of zero and an empty value are not written. */
  function KindBytes(kind: Kind): seq<Byte> {
    if kind == 0 then [] else Numeric(1, Written(kind))
  }

  function Written(kind: Kind): (x: nat)
    ensures x < LIMIT
  {
    if kind < 0 then kind + LIMIT else kind
  }

  function ValueBytes(value: seq<Byte>): seq<Byte> {
    if value == [] then [] else Delimited(2, value)
  }

  function DomainBytes(e: Entry): seq<Byte> {
    KindBytes(e.kind) + (ValueBytes(e.value) + (AttributesBytes(e.attributes) + ExtrasBytes(e.extras)))
  }

  function DomainsBytes(es: seq<Entry>): seq<Byte> {
    if es == [] then [] else Delimited(2, DomainBytes(es[0])) + DomainsBytes(es[1..])
  }

  function SiteBytes(code: seq<Byte>, es: seq<Entry>): seq<Byte> {
    Delimited(1, code) + DomainsBytes(es)
  }

  // What can be written: every number in 64 bits, every string in UTF-8.

  ghost predicate AttributeOk(utf8: seq<Byte> -> bool, a: Attribute) {
    && utf8(a.key) && |a.key| < LIMIT && 2 <= a.number <= 3 && a.value < LIMIT && |AttributeBytes(a)| < LIMIT
  }

  /** The numbers fit, the fixed fields have their size, and groups nest no deeper than the parser goes. */
  ghost predicate ExtraOk(e: Extra, depth: int)
    decreases e
  {
    && 1 <= e.num <= 15
    && match e
       case Integer(_, x) => x < LIMIT
       case Four(_, v) => |v| == 4
       case Eight(_, v) => |v| == 8
       case Text(_, v) => |v| < LIMIT
       case Group(_, fields) => depth >= 0 && forall i :: 0 <= i < |fields| ==> ExtraOk(fields[i], depth - 1)
  }

  ghost predicate EntryOk(utf8: seq<Byte> -> bool, e: Entry) {
    && utf8(e.value) && |e.value| < LIMIT
    && (forall i :: 0 <= i < |e.attributes| ==> AttributeOk(utf8, e.attributes[i]))
    && (forall i :: 0 <= i < |e.extras| ==> e.extras[i].num > 3 && ExtraOk(e.extras[i], RECURSION_LIMIT))
    && |DomainBytes(e)| < LIMIT
  }

  // Reading one field.

  /** What a varint can hold from its byte i on. */
  function Room(i: nat): nat
    requires i <= 9
    decreases 9 - i
  {
    if i == 9 then 2 else 128 * Room(i + 1)
  }

  lemma AllRoom()
    ensures Room(0) == LIMIT
  {
    assert Room(7) == 32768;
    assert Room(5) == 0x2000_0000;
    assert Room(3) == 0x800_0000_0000;
    assert Room(1) == 0x200_0000_0000_0000;
  }

  lemma {:induction false} VarintRead(before: seq<Byte>, n: nat, rest: seq<Byte>)
    requires |before| <= 9 && n < Room(|before|)
    ensures VarintFrom(before + Varint(n) + rest, |before|) == Got(n, |before| + |Varint(n)|)
    decreases 9 - |before|
  {
    var b, i := before + Varint(n) + rest, |before|;
    assert b[i] == Varint(n)[0];
    if n >= 128 {
      var longer := before + [b[i]];
      assert b == longer + Varint(n / 128) + rest;
      VarintRead(longer, n / 128, rest);
    }
  }

  lemma VarintInverts(n: nat, rest: seq<Byte>)
    requires n < LIMIT
    ensures ConsumeVarint(Varint(n) + rest) == Got(n, |Varint(n)|)
  {
    AllRoom();
    VarintRead([], n, rest);
    assert [] + Varint(n) + rest == Varint(n) + rest;
  }

  lemma TagInverts(num: nat, typ: nat, rest: seq<Byte>)
    requires 1 <= num <= 15 && typ < 8
    ensures ConsumeTag(Varint(8 * num + typ) + rest) == Got(Tag(num, typ), |Varint(8 * num + typ)|)
  {
    VarintInverts(8 * num + typ, rest);
  }

  lemma BytesInvert(v: seq<Byte>, rest: seq<Byte>)
    requires |v| < LIMIT
    ensures ConsumeBytes(Varint(|v|) + v + rest) == Got(v, |Varint(|v|)| + |v|)
  {
    var b := Varint(|v|) + v + rest;
    assert b == Varint(|v|) + (v + rest);
    VarintInverts(|v|, v + rest);
    assert b[|Varint(|v|)|..|Varint(|v|)| + |v|] == v;
  }

  lemma DelimitedRead(utf8: seq<Byte> -> bool, num: nat, v: seq<Byte>, rest: seq<Byte>)
    requires 1 <= num <= 15 && |v| < LIMIT
    ensures ConsumeField(Protowire(utf8), Delimited(num, v) + rest) == Got(Field(num, BYTES, v, 0), |Delimited(num, v)|)
  {
    var tag, body := Varint(8 * num + 2), Varint(|v|) + v;
    assert Delimited(num, v) + rest == tag + (body + rest);
    TagInverts(num, 2, body + rest);
    assert (tag + (body + rest))[|tag|..] == Varint(|v|) + v + rest;
    BytesInvert(v, rest);
  }

  lemma NumericRead(utf8: seq<Byte> -> bool, num: nat, x: nat, rest: seq<Byte>)
    requires 1 <= num <= 15 && x < LIMIT
    ensures ConsumeField(Protowire(utf8), Numeric(num, x) + rest) == Got(Field(num, VARINT, [], x), |Numeric(num, x)|)
  {
    var tag := Varint(8 * num);
    assert Numeric(num, x) + rest == tag + (Varint(x) + rest);
    TagInverts(num, 0, Varint(x) + rest);
    assert (tag + (Varint(x) + rest))[|tag|..] == Varint(x) + rest;
    VarintInverts(x, rest);
  }

  lemma Behind3(a: seq<Byte>, b: seq<Byte>, c: seq<Byte>)
    ensures (a + (b + c))[|a|..] == b + c && (a + (b + c))[|a| + |b|..] == c && (a + b) + c == a + (b + c)
  {
  }

  lemma SimpleRead(e: Extra, rest: seq<Byte>, depth: int)
    requires ExtraOk(e, depth) && !e.Group?
    ensures ConsumeValue(Tag(e.num, TypeOf(e)), ExtraBody(e) + rest, depth) == Got(0, |ExtraBody(e)|)
  {
    match e
    case Integer(_, x) => VarintInverts(x, rest);
    case Four(_, v) =>
    case Eight(_, v) =>
    case Text(_, v) => BytesInvert(v, rest);
  }

  lemma GroupValue(num: nat, b: seq<Byte>, k: nat, depth: int)
    requires depth >= 0 && ConsumeGroup(num, b, depth) == Got(0, k)
    ensures ConsumeValue(Tag(num, START_GROUP), b, depth) == Got(0, k)
  {
  }

  lemma GroupEnds(num: nat, rest: seq<Byte>, depth: int)
    requires 1 <= num <= 15
    ensures ConsumeGroup(num, Varint(8 * num + END_GROUP) + rest, depth) == Got(0, |Varint(8 * num + END_GROUP)|)
  {
    TagInverts(num, END_GROUP, rest);
  }

  /** The value of a field of any type is passed over in full. */
  lemma {:induction false} ExtraRead(e: Extra, rest: seq<Byte>, depth: int)
    requires ExtraOk(e, depth)
    ensures ConsumeValue(Tag(e.num, TypeOf(e)), ExtraBody(e) + rest, depth) == Got(0, |ExtraBody(e)|)
    decreases e, 0
  {
    if e.Group? {
      var fields, end := ExtrasBytes(e.fields), Varint(8 * e.num + END_GROUP);
      GroupRead(e.num, e.fields, rest, depth);
      Assoc(fields, end, rest);
      GroupValue(e.num, fields + (end + rest), |fields| + |end|, depth);
    } else {
      SimpleRead(e, rest, depth);
    }
  }

  /** One field of a group, and the rest of it. */
  lemma GroupStep(num: nat, tag: seq<Byte>, body: seq<Byte>, more: seq<Byte>, t: Tag, k: nat, depth: int)
    requires ConsumeTag(tag + (body + more)) == Got(t, |tag|) && t.typ != END_GROUP
    requires ConsumeValue(t, body + more, depth - 1) == Got(0, |body|) && ConsumeGroup(num, more, depth) == Got(0, k)
    ensures ConsumeGroup(num, tag + (body + more), depth) == Got(0, |tag| + |body| + k)
  {
    Behind3(tag, body, more);
  }

  lemma FieldsThenEnd(e: Extra, more: seq<Extra>, end: seq<Byte>)
    ensures ExtrasBytes([e] + more) + end == Varint(8 * e.num + TypeOf(e)) + (ExtraBody(e) + (ExtrasBytes(more) + end))
    ensures |ExtrasBytes([e] + more)| == |Varint(8 * e.num + TypeOf(e))| + |ExtraBody(e)| + |ExtrasBytes(more)|
  {
    assert ([e] + more)[1..] == more;
  }

  /** The bytes are the fields of a group and its end, and the parser passes over them. */
  ghost predicate ReadsGroup(num: nat, fields: seq<Extra>, rest: seq<Byte>, depth: int) {
    ConsumeGroup(num, ExtrasBytes(fields) + (Varint(8 * num + END_GROUP) + rest), depth)
    == Got(0, |ExtrasBytes(fields)| + |Varint(8 * num + END_GROUP)|)
  }

  lemma ReadsEmpty(num: nat, rest: seq<Byte>, depth: int)
    requires 1 <= num <= 15
    ensures ReadsGroup(num, [], rest, depth)
  {
    var end := Varint(8 * num + END_GROUP) + rest;
    assert [] + end == end;
    GroupEnds(num, rest, depth);
  }

  lemma ReadsMore(num: nat, e: Extra, fields: seq<Extra>, rest: seq<Byte>, depth: int)
    requires 1 <= e.num <= 15 && TypeOf(e) != END_GROUP && ReadsGroup(num, fields, rest, depth)
    requires var more := ExtrasBytes(fields) + (Varint(8 * num + END_GROUP) + rest);
      ConsumeValue(Tag(e.num, TypeOf(e)), ExtraBody(e) + more, depth - 1) == Got(0, |ExtraBody(e)|)
    ensures ReadsGroup(num, [e] + fields, rest, depth)
  {
    var end := Varint(8 * num + END_GROUP) + rest;
    var tag, body, more := Varint(8 * e.num + TypeOf(e)), ExtraBody(e), ExtrasBytes(fields) + end;
    FieldsThenEnd(e, fields, end);
    TagInverts(e.num, TypeOf(e), body + more);
    GroupStep(num, tag, body, more, Tag(e.num, TypeOf(e)), |ExtrasBytes(fields)| + |Varint(8 * num + END_GROUP)|, depth);
  }

  lemma {:induction false} GroupRead(num: nat, fields: seq<Extra>, rest: seq<Byte>, depth: int)
    requires 1 <= num <= 15 && forall i :: 0 <= i < |fields| ==> ExtraOk(fields[i], depth - 1)
    ensures ReadsGroup(num, fields, rest, depth)
    decreases fields
  {
    if fields == [] {
      ReadsEmpty(num, rest, depth);
    } else {
      ExtraRead(fields[0], ExtrasBytes(fields[1..]) + (Varint(8 * num + END_GROUP) + rest), depth - 1);
      GroupRead(num, fields[1..], rest, depth);
      ReadsMore(num, fields[0], fields[1..], rest, depth);
      assert fields == [fields[0]] + fields[1..];
    }
  }

  /** A field of unknown number is read as one that has no meaning. */
  lemma UnknownRead(utf8: seq<Byte> -> bool, e: Extra, rest: seq<Byte>)
    requires ExtraOk(e, RECURSION_LIMIT)
    ensures var front := Varint(8 * e.num + TypeOf(e)) + ExtraBody(e);
      var p := ConsumeField(Protowire(utf8), front + rest);
      p.Got? && p.length == |front| && p.value.num == e.num
  {
    var tag, body := Varint(8 * e.num + TypeOf(e)), ExtraBody(e);
    Behind3(tag, body, rest);
    TagInverts(e.num, TypeOf(e), body + rest);
    UnknownPayload(utf8, e, rest);
  }

  lemma UnknownPayload(utf8: seq<Byte> -> bool, e: Extra, rest: seq<Byte>)
    requires ExtraOk(e, RECURSION_LIMIT)
    ensures var p := Payload(Protowire(utf8), Tag(e.num, TypeOf(e)), ExtraBody(e) + rest);
      p.Got? && p.length == |ExtraBody(e)| && p.value.num == e.num
  {
    if e.Integer? {
      VarintInverts(e.x, rest);
    } else if e.Text? {
      BytesInvert(e.v, rest);
    } else {
      ExtraRead(e, rest, RECURSION_LIMIT);
    }
  }

  lemma FirstField(w: Wire, front: seq<Byte>, f: Field, rest: seq<Byte>)
    requires front != [] && ConsumeField(w, front + rest) == Got(f, |front|)
    ensures var fs := FieldsOf(w, front + rest); fs.list != [] && fs.list[0] == f && fs.(list := fs.list[1..]) == FieldsOf(w, rest)
  {
    assert (front + rest)[|front|..] == rest;
  }

  lemma FirstDelimited(utf8: seq<Byte> -> bool, num: nat, v: seq<Byte>, rest: seq<Byte>)
    requires 1 <= num <= 15 && |v| < LIMIT
    ensures var fs := FieldsOf(Protowire(utf8), Delimited(num, v) + rest);
      fs.list != [] && fs.list[0] == Field(num, BYTES, v, 0) && fs.(list := fs.list[1..]) == FieldsOf(Protowire(utf8), rest)
  {
    DelimitedRead(utf8, num, v, rest);
    FirstField(Protowire(utf8), Delimited(num, v), Field(num, BYTES, v, 0), rest);
  }

  lemma FirstNumeric(utf8: seq<Byte> -> bool, num: nat, x: nat, rest: seq<Byte>)
    requires 1 <= num <= 15 && x < LIMIT
    ensures var fs := FieldsOf(Protowire(utf8), Numeric(num, x) + rest);
      fs.list != [] && fs.list[0] == Field(num, VARINT, [], x) && fs.(list := fs.list[1..]) == FieldsOf(Protowire(utf8), rest)
  {
    NumericRead(utf8, num, x, rest);
    FirstField(Protowire(utf8), Numeric(num, x), Field(num, VARINT, [], x), rest);
  }

  // Reading whole messages.

  lemma NothingLeft(w: Wire, b: seq<Byte>)
    ensures b + [] == b && FieldsOf(w, []) == Fields([], None)
  {
  }

  lemma KeyRead(utf8: seq<Byte> -> bool, a: Attribute)
    requires AttributeOk(utf8, a)
    ensures KeyOf(Protowire(utf8), FieldsOf(Protowire(utf8), AttributeBytes(a)), []) == Ok(a.key)
  {
    var w, typed := Protowire(utf8), Numeric(a.number, a.value);
    FirstDelimited(utf8, 1, a.key, typed);
    NothingLeft(w, typed);
    FirstNumeric(utf8, a.number, a.value, []);
    KeyPasses(w, FieldsOf(w, typed), a.key);
  }

  lemma KeyPasses(w: Wire, fs: Fields, key: seq<Byte>)
    requires |fs.list| == 1 && fs.list[0].typ == VARINT && fs.error == None
    ensures KeyOf(w, fs, key) == Ok(key)
  {
    assert KeyOf(w, fs.(list := fs.list[1..]), key) == Ok(key);
  }

  function Keys(attributes: seq<Attribute>): set<seq<Byte>> {
    set a | a in attributes :: a.key
  }

  lemma DomainSkips(w: Wire, fs: Fields, d: Domain)
    requires fs.list != [] && fs.list[0].num > 3
    ensures DomainOf(w, fs, d) == DomainOf(w, fs.(list := fs.list[1..]), d)
  {
  }

  lemma FirstExtra(utf8: seq<Byte> -> bool, e: Extra, rest: seq<Extra>)
    requires ExtraOk(e, RECURSION_LIMIT)
    ensures var fs := FieldsOf(Protowire(utf8), ExtrasBytes([e] + rest));
      fs.list != [] && fs.list[0].num == e.num && fs.(list := fs.list[1..]) == FieldsOf(Protowire(utf8), ExtrasBytes(rest))
  {
    var w, front, more := Protowire(utf8), Varint(8 * e.num + TypeOf(e)) + ExtraBody(e), ExtrasBytes(rest);
    UnknownRead(utf8, e, more);
    FieldsThenEnd(e, rest, []);
    Behind3(Varint(8 * e.num + TypeOf(e)), ExtraBody(e), more);
    assert ExtrasBytes([e] + rest) + [] == ExtrasBytes([e] + rest) && more + [] == more;
    FirstField(w, front, ConsumeField(w, front + more).value, more);
  }

  lemma {:induction false} ExtrasRead(utf8: seq<Byte> -> bool, es: seq<Extra>, d: Domain)
    requires forall i :: 0 <= i < |es| ==> es[i].num > 3 && ExtraOk(es[i], RECURSION_LIMIT)
    ensures DomainOf(Protowire(utf8), FieldsOf(Protowire(utf8), ExtrasBytes(es)), d) == Ok(d)
    decreases |es|
  {
    if es != [] {
      assert es == [es[0]] + es[1..];
      FirstExtra(utf8, es[0], es[1..]);
      DomainSkips(Protowire(utf8), FieldsOf(Protowire(utf8), ExtrasBytes(es)), d);
      ExtrasRead(utf8, es[1..], d);
    }
  }

  lemma {:induction false} AttributesRead(utf8: seq<Byte> -> bool, attributes: seq<Attribute>, es: seq<Extra>, d: Domain)
    requires forall i :: 0 <= i < |attributes| ==> AttributeOk(utf8, attributes[i])
    requires forall i :: 0 <= i < |es| ==> es[i].num > 3 && ExtraOk(es[i], RECURSION_LIMIT)
    ensures DomainOf(Protowire(utf8), FieldsOf(Protowire(utf8), AttributesBytes(attributes) + ExtrasBytes(es)), d)
         == Ok(d.(keys := d.keys + Keys(attributes)))
    decreases |attributes|
  {
    if attributes == [] {
      assert d.keys + Keys(attributes) == d.keys;
      assert AttributesBytes(attributes) + ExtrasBytes(es) == ExtrasBytes(es);
      ExtrasRead(utf8, es, d);
    } else {
      var a, rest := attributes[0], attributes[1..];
      Assoc(Delimited(3, AttributeBytes(a)), AttributesBytes(rest), ExtrasBytes(es));
      FirstDelimited(utf8, 3, AttributeBytes(a), AttributesBytes(rest) + ExtrasBytes(es));
      KeyRead(utf8, a);
      AttributesRead(utf8, rest, es, d.(keys := d.keys + {a.key}));
      assert attributes == [a] + rest;
      assert d.keys + {a.key} + Keys(rest) == d.keys + Keys(attributes);
    }
  }

  lemma ValueRead(utf8: seq<Byte> -> bool, value: seq<Byte>, rest: seq<Byte>, d: Domain)
    requires utf8(value) && |value| < LIMIT && d.value == []
    ensures DomainOf(Protowire(utf8), FieldsOf(Protowire(utf8), ValueBytes(value) + rest), d)
         == DomainOf(Protowire(utf8), FieldsOf(Protowire(utf8), rest), d.(value := value))
  {
    if value == [] {
      assert [] + rest == rest;
    } else {
      FirstDelimited(utf8, 2, value, rest);
    }
  }

  lemma KindInverts(kind: Kind)
    ensures Int32(Written(kind)) == kind
  {
  }

  lemma KindRead(utf8: seq<Byte> -> bool, kind: Kind, rest: seq<Byte>, d: Domain)
    requires d.kind == 0
    ensures DomainOf(Protowire(utf8), FieldsOf(Protowire(utf8), KindBytes(kind) + rest), d)
         == DomainOf(Protowire(utf8), FieldsOf(Protowire(utf8), rest), d.(kind := kind))
  {
    if kind == 0 {
      assert [] + rest == rest;
    } else {
      FirstNumeric(utf8, 1, Written(kind), rest);
      KindInverts(kind);
    }
  }

  lemma DomainRead(utf8: seq<Byte> -> bool, e: Entry)
    requires EntryOk(utf8, e)
    ensures DomainOf(Protowire(utf8), FieldsOf(Protowire(utf8), DomainBytes(e)), NO_DOMAIN)
         == Ok(Domain(e.kind, e.value, Keys(e.attributes)))
  {
    var last := AttributesBytes(e.attributes) + ExtrasBytes(e.extras);
    KindRead(utf8, e.kind, ValueBytes(e.value) + last, NO_DOMAIN);
    var d := NO_DOMAIN.(kind := e.kind);
    ValueRead(utf8, e.value, last, d);
    AttributesRead(utf8, e.attributes, e.extras, d.(value := e.value));
    assert {} + Keys(e.attributes) == Keys(e.attributes);
  }

  /** Every wanted key is one of the attributes'. */
  ghost predicate Wanted(want: seq<seq<Byte>>, e: Entry) {
    forall i :: 0 <= i < |want| ==> HasKey(e, want[i])
  }

  ghost predicate HasKey(e: Entry, key: seq<Byte>) {
    exists j :: 0 <= j < |e.attributes| && e.attributes[j].key == key
  }

  /** The type and the value of every wanted domain, in order. */
  ghost function CallsFor(want: seq<seq<Byte>>, es: seq<Entry>): seq<Call> {
    if es == [] then []
    else (if Wanted(want, es[0]) then [Call(es[0].kind, es[0].value)] else []) + CallsFor(want, es[1..])
  }

  lemma KeyIs(e: Entry, key: seq<Byte>)
    ensures key in Keys(e.attributes) <==> HasKey(e, key)
  {
    if key in Keys(e.attributes) {
      var a :| a in e.attributes && a.key == key;
      var j :| 0 <= j < |e.attributes| && e.attributes[j] == a;
    }
    if j :| 0 <= j < |e.attributes| && e.attributes[j].key == key { assert e.attributes[j] in e.attributes; }
  }

  lemma WantedIs(want: seq<seq<Byte>>, e: Entry)
    ensures HasAll(want, Keys(e.attributes)) <==> Wanted(want, e)
  {
    forall i | 0 <= i < |want| ensures want[i] in Keys(e.attributes) <==> HasKey(e, want[i]) { KeyIs(e, want[i]); }
  }

  lemma DomainCalls(utf8: seq<Byte> -> bool, want: seq<seq<Byte>>, e: Entry)
    requires EntryOk(utf8, e)
    ensures CallsOf(Protowire(utf8), want, Field(2, BYTES, DomainBytes(e), 0))
         == Ok(if Wanted(want, e) then [Call(e.kind, e.value)] else [])
  {
    DomainRead(utf8, e);
    WantedIs(want, e);
  }

  lemma {:induction false} DomainsRead(utf8: seq<Byte> -> bool, want: seq<seq<Byte>>, es: seq<Entry>)
    requires forall i :: 0 <= i < |es| ==> EntryOk(utf8, es[i])
    ensures Site(Protowire(utf8), want, DomainsBytes(es)) == Outcome(CallsFor(want, es), None)
    decreases |es|
  {
    if es != [] {
      FirstDelimited(utf8, 2, DomainBytes(es[0]), DomainsBytes(es[1..]));
      DomainCalls(utf8, want, es[0]);
      DomainsRead(utf8, want, es[1..]);
    }
  }

  lemma CodePasses(w: Wire, want: seq<seq<Byte>>, fs: Fields)
    requires fs.list != [] && IsBytes(fs.list[0], 1) && w.utf8(fs.list[0].v)
    ensures SiteOf(w, want, fs) == SiteOf(w, want, fs.(list := fs.list[1..]))
  {
    var rest := SiteOf(w, want, fs.(list := fs.list[1..]));
    assert [] + rest.calls == rest.calls;
  }

  /** A site that is written and read back gives fn exactly the wanted domains, each with its type and value, in order. */
  lemma SiteRoundTrip(utf8: seq<Byte> -> bool, want: seq<seq<Byte>>, code: seq<Byte>, es: seq<Entry>)
    requires utf8(code) && |code| < LIMIT && forall i :: 0 <= i < |es| ==> EntryOk(utf8, es[i])
    ensures Site(Protowire(utf8), want, SiteBytes(code, es)) == Outcome(CallsFor(want, es), None)
  {
    FirstDelimited(utf8, 1, code, DomainsBytes(es));
    CodePasses(Protowire(utf8), want, FieldsOf(Protowire(utf8), SiteBytes(code, es)));
    DomainsRead(utf8, want, es);
  }

  /** loadSite on such a file, with windows of any size. */
  method LoadWritten(utf8: seq<Byte> -> bool, want: seq<seq<Byte>>, code: seq<Byte>, es: seq<Entry>, after: seq<Byte>, size: nat)
    returns (calls: seq<Call>, error: Option<LoadError>)
    requires utf8(code) && |code| < LIMIT && forall i :: 0 <= i < |es| ==> EntryOk(utf8, es[i])
    ensures calls == CallsFor(want, es) && error == None
  {
    var site := SiteBytes(code, es);
    ProtowireLawful(utf8);
    SiteRoundTrip(utf8, want, code, es);
    assert (site + after)[..|site|] == site;
    calls, error := LoadSite(Protowire(utf8), want, site + after, |site|, size);
  }
}
