/** Extensions as the codec writes them: the records of gogo/protobuf/proto extensions_gogo.go
    carry the field numbers of the fields encoded in encode.go. */
module ExtensionCodec {
  import opened Words
  import opened Varint
  import opened Messages
  import opened Encoding
  import opened RoundTrip
  import opened Extensions

  /** The value of a singular field that is not a group, without its tag. */
  function Body(env: Schema, f: Field, v: Value): seq<byte> {
    match v
    case Word(w) => if f.kind.Scalar? then EncodeScalar(f.kind, w) else []
    case Blob(b) => EncodeRaw(b)
    case Child(m) => EncodeRaw(EncodeMsg(env, TypeOf(f.kind), m))
    case _ => []
  }

  /** One extension is written as one record of its number. */
  lemma {:induction false} WrittenRecord(env: Schema, f: Field, v: Value)
    requires ValidField(env, f) && f.presence.Optional? && !f.kind.Group? && AcceptableValue(env, f, v) && !v.Absent?
    requires |EncodeField(env, f, v)| < 0x8000_0000_0000_0000
    ensures var r := Record(TagCode(f), Body(env, f, v));
      && EncodeField(env, f, v) == r.tag + r.value && WellFormed(r) && NumberOf(r) == f.tag
  {
    hide WellFormed, NumberOf, EncodeMsg, AcceptableMsg;
    match v
    case Word(w) =>
      ScalarValue(f.kind, w);
      RecordNumber(f.tag, WireType(f.kind), EncodeScalar(f.kind, w));
    case Blob(b) =>
      RawValue(b);
      RecordNumber(f.tag, 2, EncodeRaw(b));
    case Child(m) =>
      RawValue(EncodeMsg(env, f.kind.typ, m));
      RecordNumber(f.tag, 2, EncodeRaw(EncodeMsg(env, f.kind.typ, m)));
  }

  lemma {:induction false} RawValue(b: seq<byte>)
    requires |EncodeRaw(b)| < 0x8000_0000_0000_0000
    ensures IsValue(2, EncodeRaw(b))
  {
    DecodeEncode(|b|, b);
    hide Decode, Encode;
  }

  lemma {:induction false} ScalarValue(k: Kind, w: uint64)
    requires k.Scalar? && LegalScalar(k.go, k.coding)
    ensures IsValue(WireType(k), EncodeScalar(k, w))
  {
    var x := Widen(k.go, w);
    OneVarint(x);
    OneVarint(Varint.Zigzag32(x));
    OneVarint(Varint.Zigzag64(x));
    hide Encode, Decode, Skipping.IsVarint;
  }

  lemma {:induction false} OneVarint(x: uint64)
    ensures Skipping.IsVarint(Encode(x))
  {
    DecodeEncode(x, []);
    assert Encode(x) + [] == Encode(x);
  }

  /** Setting an extension to a value: afterwards the bytes are those of the other fields and
      the field as the codec writes it; exactly this field has been added, and clearing it
      leaves the others. */
  lemma {:induction false} SetField(env: Schema, f: Field, v: Value, rs: seq<Record>) returns (qs: seq<Record>)
    requires ValidField(env, f) && f.presence.Optional? && !f.kind.Group? && AcceptableValue(env, f, v) && !v.Absent?
    requires |EncodeField(env, f, v)| < 0x8000_0000_0000_0000 && AllWellFormed(rs)
    ensures AllWellFormed(qs) && Concat(qs) == Concat(Without(rs, f.tag)) + EncodeField(env, f, v)
    ensures forall field :: Has(qs, field) <==> field == f.tag || Has(rs, field)
    ensures Without(qs, f.tag) == Without(rs, f.tag)
  {
    hide Has, WellFormed, NumberOf, EncodeField, AcceptableValue;
    var r := Record(TagCode(f), Body(env, f, v));
    WrittenRecord(env, f, v);
    var others := Without(rs, f.tag);
    qs := others + [r];
    forall field ensures Has(qs, field) <==> field == f.tag || Has(rs, field) {
      WithRecord(others, r, field);
      HasWithout(rs, f.tag, field);
    }
    WithRecord(others, r, f.tag);
    HasWithout(rs, f.tag, f.tag);
    WithoutAbsent(others, f.tag);
    assert others + [] == others;
  }
}
