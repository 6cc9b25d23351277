/** Schemas and message values: what gogo/protobuf/proto keeps in Properties and in Go
    structs (properties.go). A schema is a table of message types, so types may refer to
    themselves; fields are listed in the order enc_struct visits them. */
module Messages {
  import opened Words
  import opened Varint

  /** valEnc and valDec of a numeric field. */
  datatype Coding = Plain | Zigzag32 | Zigzag64 | Fixed32 | Fixed64

  /** The Go type that holds a numeric field; floats are held as their bit patterns. */
  datatype GoType = Bool | Int32 | Uint32 | Word64

  datatype Kind =
    | Scalar(go: GoType, coding: Coding)
    | Bytes                 // strings and byte slices share one encoding
    | Message(typ: nat)
    | Group(typ: nat)

  /** Implicit is a proto3 scalar or byte string: held by value, not written when zero. */
  datatype Presence = Required | Optional | Implicit | Repeated | Packed

  datatype Field = Field(tag: nat, presence: Presence, kind: Kind)

  datatype MsgType = MsgType(fields: seq<Field>, keepsUnknown: bool)

  type Schema = seq<MsgType>

  /** A field's value. A nil pointer is Absent; nil and empty slices are not told apart. */
  datatype Value =
    | Absent
    | Word(w: uint64)
    | Blob(b: seq<byte>)
    | Child(m: Msg)
    | Words(ws: seq<uint64>)
    | Blobs(bs: seq<seq<byte>>)
    | Children(ms: seq<Pointer>)

  /** An element of a slice of struct pointers. */
  datatype Pointer = Nil | To(m: Msg)

  /** One struct: its fields in schema order and its XXX_unrecognized bytes. */
  datatype Msg = Msg(fields: seq<Value>, unknown: seq<byte>)

  function FieldsOf(env: Schema, t: nat): seq<Field> {
    if t < |env| then env[t].fields else []
  }

  function KeepsUnknown(env: Schema, t: nat): bool {
    t < |env| && env[t].keepsUnknown
  }

  function TypeOf(k: Kind): nat {
    if k.Message? || k.Group? then k.typ else 0
  }

  // --------------------------------------------------------- valid schemas

  predicate LegalScalar(go: GoType, c: Coding) {
    match go
    case Bool => c == Plain
    case Int32 => c == Plain || c == Zigzag32 || c == Fixed32
    case Uint32 => c == Plain || c == Fixed32
    case Word64 => c == Plain || c == Zigzag64 || c == Fixed64
  }

  predicate ValidField(env: Schema, f: Field) {
    && 1 <= f.tag < 0x2000_0000
    && (f.kind.Scalar? ==> LegalScalar(f.kind.go, f.kind.coding))
    && (f.presence.Packed? ==> f.kind.Scalar?)
    && (f.presence.Implicit? ==> f.kind.Scalar? || f.kind.Bytes?)
    && (f.kind.Message? || f.kind.Group? ==> f.kind.typ < |env|)
  }

  predicate DistinctTags(fs: seq<Field>) {
    forall i, j :: 0 <= i < j < |fs| ==> fs[i].tag != fs[j].tag
  }

  predicate ValidSchema(env: Schema) {
    forall t :: 0 <= t < |env| ==>
      DistinctTags(env[t].fields) && forall i :: 0 <= i < |env[t].fields| ==> ValidField(env, env[t].fields[i])
  }

  // --------------------------------------------------------- typed values

  predicate FitsWord(go: GoType, w: uint64) {
    match go
    case Bool => w < 2
    case Int32 => w < 0x1_0000_0000
    case Uint32 => w < 0x1_0000_0000
    case Word64 => true
  }

  predicate Plural(p: Presence) {
    p.Repeated? || p.Packed?
  }

  ghost predicate TypedValue(env: Schema, f: Field, v: Value)
    decreases v
  {
    match v
    case Absent => f.presence.Required? || f.presence.Optional?
    case Word(w) => !Plural(f.presence) && f.kind.Scalar? && FitsWord(f.kind.go, w)
    case Blob(b) => !Plural(f.presence) && f.kind.Bytes?
    case Child(m) => !Plural(f.presence) && (f.kind.Message? || f.kind.Group?) && TypedMsg(env, f.kind.typ, m)
    case Words(ws) => Plural(f.presence) && f.kind.Scalar? && forall i :: 0 <= i < |ws| ==> FitsWord(f.kind.go, ws[i])
    case Blobs(bs) => Plural(f.presence) && f.kind.Bytes?
    case Children(ms) =>
      && Plural(f.presence) && (f.kind.Message? || f.kind.Group?)
      && forall i :: 0 <= i < |ms| && ms[i].To? ==> TypedMsg(env, f.kind.typ, ms[i].m)
  }

  /** The struct has the fields its type declares, each holding a value of its type. */
  ghost predicate TypedMsg(env: Schema, t: nat, m: Msg)
    decreases m
  {
    && |m.fields| == |FieldsOf(env, t)|
    && (forall i :: 0 <= i < |m.fields| ==> TypedValue(env, FieldsOf(env, t)[i], m.fields[i]))
    && (!KeepsUnknown(env, t) ==> m.unknown == [])
  }

  /** The zero value of a field, and a freshly allocated struct. */
  function ZeroValue(f: Field): Value {
    match f.presence
    case Required => Absent
    case Optional => Absent
    case Implicit => if f.kind.Scalar? then Word(0) else Blob([])
    case _ => if f.kind.Scalar? then Words([]) else if f.kind.Bytes? then Blobs([]) else Children([])
  }

  function ZeroFields(fs: seq<Field>): (vs: seq<Value>)
    ensures |vs| == |fs| && forall i :: 0 <= i < |fs| ==> vs[i] == ZeroValue(fs[i])
  {
    seq(|fs|, i requires 0 <= i < |fs| => ZeroValue(fs[i]))
  }

  function Empty(env: Schema, t: nat): Msg {
    Msg(ZeroFields(FieldsOf(env, t)), [])
  }

  lemma {:induction false} EmptyTyped(env: Schema, t: nat)
    requires ValidSchema(env) && t < |env|
    ensures TypedMsg(env, t, Empty(env, t))
  {
    forall i | 0 <= i < |FieldsOf(env, t)|
      ensures TypedValue(env, FieldsOf(env, t)[i], Empty(env, t).fields[i])
    {
      assert ValidField(env, env[t].fields[i]);
    }
  }

  // --------------------------------------------------------- scalar values

  /** The conversion to uint64 before valEnc: int32 is sign-extended, the others are not. */
  function Widen(go: GoType, w: uint64): uint64 {
    if go.Int32? && 0x8000_0000 <= w < 0x1_0000_0000 then w + 0xffff_ffff_0000_0000 else w
  }

  /** The conversion of valDec's result to the field's Go type. */
  function Narrow(go: GoType, u: uint64): uint64 {
    match go
    case Bool => if u != 0 then 1 else 0
    case Int32 => Wrap32(u)
    case Uint32 => Wrap32(u)
    case Word64 => u
  }

  function EncodeWord(c: Coding, x: uint64): seq<byte> {
    match c
    case Plain => Encode(x)
    case Zigzag32 => Encode(Varint.Zigzag32(x))
    case Zigzag64 => Encode(Varint.Zigzag64(x))
    case Fixed32 => EncodeFixed(x, 4)
    case Fixed64 => EncodeFixed(x, 8)
  }

  function DecodeWord(c: Coding, s: seq<byte>): (r: Number)
    ensures r.Ok? ==> 1 <= r.n <= |s|
    ensures r.Fail? ==> r.error == UnexpectedEOF || r.error == Overflow
  {
    match c
    case Plain => Decode(s)
    case Zigzag32 => (match Decode(s) case Fail(e) => Fail(e) case Ok(x, n) => Ok(Unzigzag32(x), n))
    case Zigzag64 => (match Decode(s) case Fail(e) => Fail(e) case Ok(x, n) => Ok(Unzigzag64(x), n))
    case Fixed32 => DecodeFixed(s, 4)
    case Fixed64 => DecodeFixed(s, 8)
  }

  lemma {:induction false} DecodeFixedAppended(x: uint64, rest: seq<byte>)
    ensures DecodeFixed(EncodeFixed(x, 8) + rest, 8) == Ok(x, 8)
    ensures DecodeFixed(EncodeFixed(x, 4) + rest, 4) == Ok(Wrap32(x), 4)
  {
    Pow256Values();
    DecodeEncodeFixed(x, 8);
    assert (EncodeFixed(x, 8) + rest)[..8] == EncodeFixed(x, 8);
    LowBytes(x);
    DecodeEncodeFixed(Wrap32(x), 4);
    assert (EncodeFixed(x, 4) + rest)[..4] == EncodeFixed(x, 4);
  }

  /** The four low bytes depend on the low word only. */
  lemma {:induction false} LowBytes(x: uint64)
    ensures EncodeFixed(x, 4) == EncodeFixed(Wrap32(x), 4)
  {
    LowBytesOf(x, Wrap32(x), x / 0x1_0000_0000, 4);
  }

  lemma {:induction false} LowBytesOf(x: nat, y: nat, q: nat, k: nat)
    requires x == y + Pow256(k) * q
    ensures EncodeFixed(x, k) == EncodeFixed(y, k)
  {
    if k > 0 {
      var p := Pow256(k - 1) * q;
      Grouped(Pow256(k - 1), q);
      LowByte(y, p);
      LowBytesOf(x / 256, y / 256, q, k - 1);
    }
  }

  lemma {:induction false} Grouped(a: nat, q: nat)
    ensures 256 * a * q == 256 * (a * q)
  {
  }

  lemma {:induction false} LowByte(y: nat, p: nat)
    ensures (y + 256 * p) % 256 == y % 256 && (y + 256 * p) / 256 == y / 256 + p
  {
  }

  /** Every word of a field's Go type survives encoding and decoding, whatever follows it. */
  lemma {:induction false} WordRoundTrip(go: GoType, c: Coding, w: uint64, rest: seq<byte>)
    requires LegalScalar(go, c) && FitsWord(go, w)
    ensures var r := DecodeWord(c, EncodeWord(c, Widen(go, w)) + rest);
            r.Ok? && r.n == |EncodeWord(c, Widen(go, w))| >= 1 && Narrow(go, r.x) == w
  {
    var x := Widen(go, w);
    WidenNarrow(go, w);
    hide Widen;
    match c
    case Plain => DecodeEncode(x, rest);
    case Zigzag32 => DecodeEncode(Varint.Zigzag32(x), rest); UnzigzagZigzag32(x);
    case Zigzag64 => DecodeEncode(Varint.Zigzag64(x), rest); UnzigzagZigzag64(x);
    case Fixed32 => DecodeFixedAppended(x, rest);
    case Fixed64 => DecodeFixedAppended(x, rest);
  }

  lemma {:induction false} WidenNarrow(go: GoType, w: uint64)
    requires FitsWord(go, w)
    ensures Narrow(go, Widen(go, w)) == w
    ensures go.Int32? || go.Uint32? ==> Wrap32(Widen(go, w)) == w && Wrap32(w) == w
  {
  }
}
