/** The main theorems about the codec of gogo/protobuf/proto: what enc_struct accepts is
    decoded back unchanged, and what unmarshalType produces is well formed, so decoding,
    encoding and decoding again changes nothing. */
module Codec {
  import opened Words
  import opened Varint
  import opened Messages
  import opened Encoding
  import opened Skipping
  import opened Decoding
  import opened Merging
  import opened RoundTrip

  // ------------------------------------------------- clean unrecognized bytes

  ghost predicate CleanPointer(env: Schema, f: Field, p: Pointer)
    decreases p
  {
    p.To? ==> CleanMsg(env, TypeOf(f.kind), p.m)
  }

  ghost predicate CleanValue(env: Schema, f: Field, v: Value)
    decreases v
  {
    match v
    case Child(m) => CleanMsg(env, TypeOf(f.kind), m)
    case Children(ms) => forall i :: 0 <= i < |ms| ==> CleanPointer(env, f, ms[i])
    case _ => true
  }

  /** At every depth the unrecognized bytes are what skipAndSave collects. */
  ghost predicate CleanMsg(env: Schema, t: nat, m: Msg)
    decreases m
  {
    && |m.fields| == |FieldsOf(env, t)|
    && (forall i :: 0 <= i < |m.fields| ==> CleanValue(env, FieldsOf(env, t)[i], m.fields[i]))
    && UnknownRecords(FieldsOf(env, t), m.unknown)
  }

  // ------------------------------------------- accepted messages are full

  ghost predicate FullPointer(env: Schema, f: Field, p: Pointer)
    decreases p
  {
    p.To? && FullMsg(env, TypeOf(f.kind), p.m)
  }

  ghost predicate FullValue(env: Schema, f: Field, v: Value)
    decreases v
  {
    match v
    case Absent => !f.presence.Required?
    case Child(m) => FullMsg(env, TypeOf(f.kind), m)
    case Children(ms) => forall i :: 0 <= i < |ms| ==> FullPointer(env, f, ms[i])
    case _ => true
  }

  /** Every required field is set and no element is nil, at every depth. */
  ghost predicate FullMsg(env: Schema, t: nat, m: Msg)
    decreases m
  {
    && |m.fields| == |FieldsOf(env, t)|
    && forall i :: 0 <= i < |m.fields| ==> FullValue(env, FieldsOf(env, t)[i], m.fields[i])
  }

  lemma {:induction false} AcceptedChild(env: Schema, f: Field, m: Msg, at: nat)
    requires ValidSchema(env) && ValidField(env, f) && (f.kind.Message? || f.kind.Group?)
    requires TypedMsg(env, f.kind.typ, m)
    requires ChildError(env, f, m, at).None?
    ensures FullMsg(env, f.kind.typ, m)
    decreases m, 2
  {
    AcceptedMsg(env, TypeOf(f.kind), m, if f.kind.Group? then at + |StartTag(f)| else at + |TagCode(f)| + 4);
  }

  lemma {:induction false} AcceptedPointer(env: Schema, f: Field, p: Pointer, at: nat)
    requires ValidSchema(env) && ValidField(env, f) && (f.kind.Message? || f.kind.Group?)
    requires p.To? ==> TypedMsg(env, f.kind.typ, p.m)
    requires PointerError(env, f, p, at).None?
    ensures FullPointer(env, f, p)
    decreases p, 0
  {
    AcceptedChild(env, f, p.m, at);
  }

  lemma {:induction false} AcceptedChildren(env: Schema, f: Field, ms: seq<Pointer>, i: nat, at: nat, missing: bool)
    requires ValidSchema(env) && ValidField(env, f) && (f.kind.Message? || f.kind.Group?)
    requires forall j :: 0 <= j < |ms| && ms[j].To? ==> TypedMsg(env, f.kind.typ, ms[j].m)
    requires ChildrenError(env, f, ms, i, at, missing).None?
    ensures !missing && forall j :: i <= j < |ms| ==> FullPointer(env, f, ms[j])
    decreases ms, |ms| - i
  {
    if i < |ms| {
      var e := PointerError(env, f, ms[i], at);
      AcceptedChildren(env, f, ms, i + 1, at + |EncodePointer(env, f, ms[i])|, missing || e.Some?);
      AcceptedPointer(env, f, ms[i], at);
    }
  }

  lemma {:induction false} AcceptedValue(env: Schema, f: Field, v: Value, at: nat)
    requires ValidSchema(env) && ValidField(env, f) && TypedValue(env, f, v)
    requires FieldError(env, f, v, at).None? || (FieldError(env, f, v, at) == Some(NilValue) && !f.presence.Required?)
    ensures FullValue(env, f, v)
    decreases v, 0
  {
    match v
    case Child(m) => AcceptedChild(env, f, m, at);
    case Children(ms) => AcceptedChildren(env, f, ms, 0, at, false);
    case _ =>
  }

  lemma {:induction false} AcceptedFields(env: Schema, t: nat, m: Msg, vs: seq<Value>, i: nat, at: nat, missing: bool)
    requires ValidSchema(env) && t < |env| && |vs| == |env[t].fields|
    requires forall j :: 0 <= j < |vs| ==> TypedValue(env, env[t].fields[j], vs[j])
    requires FieldsError(env, t, m, vs, i, at, missing).None?
    ensures !missing && forall j :: i <= j < |vs| ==> FullValue(env, env[t].fields[j], vs[j])
    decreases vs, 0, |vs| - i
  {
    if i < |vs| {
      var f := env[t].fields[i];
      assert ValidField(env, f);
      var e := FieldError(env, f, vs[i], at);
      AcceptedFields(env, t, m, vs, i + 1, at + |EncodeField(env, f, vs[i])|,
        missing || e == Some(RequiredNotSet) || (e == Some(NilValue) && f.presence.Required?));
      AcceptedValue(env, f, vs[i], at);
    }
  }

  /** If enc_struct returns nil then every required field is set and no element is nil. */
  lemma {:induction false} AcceptedMsg(env: Schema, t: nat, m: Msg, at: nat)
    requires ValidSchema(env) && t < |env| && TypedMsg(env, t, m)
    requires MsgError(env, t, m, at).None?
    ensures FullMsg(env, t, m)
    decreases m, 1
  {
    AcceptedFields(env, t, m, m.fields, 0, at, false);
  }

  // ------------------------------------------------ and full messages are accepted

  /** A nested message is encoded behind four bytes reserved for its length, so up to three
      times its size has to fit. */
  lemma {:induction false} FullChildEncodes(env: Schema, f: Field, m: Msg, at: nat)
    requires ValidSchema(env) && ValidField(env, f) && (f.kind.Message? || f.kind.Group?)
    requires TypedMsg(env, f.kind.typ, m) && FullMsg(env, f.kind.typ, m)
    requires at + 3 * |EncodeChild(env, f, m)| <= MaxSize()
    ensures ChildError(env, f, m, at).None?
    decreases m, 2
  {
    hide EncodeMsg, MsgError, Encode;
    EncodeNotEmpty(8 * f.tag + if f.presence.Packed? then 2 else WireType(f.kind));
    EncodeNotEmpty(|EncodeMsg(env, f.kind.typ, m)|);
    FullEncodes(env, f.kind.typ, m, if f.kind.Group? then at + |StartTag(f)| else at + |TagCode(f)| + 4);
  }

  lemma {:induction false} FullPointerEncodes(env: Schema, f: Field, p: Pointer, at: nat)
    requires ValidSchema(env) && ValidField(env, f) && (f.kind.Message? || f.kind.Group?)
    requires p.To? ==> TypedMsg(env, f.kind.typ, p.m)
    requires FullPointer(env, f, p) && at + 3 * |EncodePointer(env, f, p)| <= MaxSize()
    ensures PointerError(env, f, p, at).None?
    decreases p, 0
  {
    FullChildEncodes(env, f, p.m, at);
  }

  lemma {:induction false} FullChildrenEncode(env: Schema, f: Field, ms: seq<Pointer>, i: nat, at: nat)
    requires ValidSchema(env) && ValidField(env, f) && (f.kind.Message? || f.kind.Group?)
    requires forall j :: 0 <= j < |ms| && ms[j].To? ==> TypedMsg(env, f.kind.typ, ms[j].m)
    requires forall j :: 0 <= j < |ms| ==> FullPointer(env, f, ms[j])
    requires at + 3 * |EncodeChildren(env, f, ms, i)| <= MaxSize()
    ensures ChildrenError(env, f, ms, i, at, false).None?
    decreases ms, |ms| - i
  {
    hide EncodePointer, PointerError, FullPointer, TypedMsg;
    if i < |ms| {
      FullPointerEncodes(env, f, ms[i], at);
      FullChildrenEncode(env, f, ms, i + 1, at + |EncodePointer(env, f, ms[i])|);
    }
  }

  lemma {:induction false} FullValueEncodes(env: Schema, f: Field, v: Value, at: nat)
    requires ValidSchema(env) && ValidField(env, f) && TypedValue(env, f, v) && FullValue(env, f, v)
    requires at + 3 * |EncodeField(env, f, v)| <= MaxSize()
    ensures var e := FieldError(env, f, v, at); e.None? || (e == Some(NilValue) && !f.presence.Required?)
    decreases v, 0
  {
    match v
    case Child(m) => FullChildEncodes(env, f, m, at);
    case Children(ms) => FullChildrenEncode(env, f, ms, 0, at);
    case _ =>
  }

  lemma {:induction false} FullFieldsEncode(env: Schema, t: nat, m: Msg, vs: seq<Value>, i: nat, at: nat)
    requires ValidSchema(env) && t < |env| && |vs| == |env[t].fields|
    requires forall j :: 0 <= j < |vs| ==> TypedValue(env, env[t].fields[j], vs[j]) && FullValue(env, env[t].fields[j], vs[j])
    requires at + 3 * |EncodeFields(env, env[t].fields, vs, i)| + (if env[t].keepsUnknown then |m.unknown| else 0) <= MaxSize()
    ensures FieldsError(env, t, m, vs, i, at, false).None?
    decreases vs, 0, |vs| - i
  {
    hide EncodeField, FieldError, TypedValue, FullValue;
    if i < |vs| {
      var f := env[t].fields[i];
      assert ValidField(env, f);
      FullValueEncodes(env, f, vs[i], at);
      FullFieldsEncode(env, t, m, vs, i + 1, at + |EncodeField(env, f, vs[i])|);
    }
  }

  lemma {:induction false} FullEncodes(env: Schema, t: nat, m: Msg, at: nat)
    requires ValidSchema(env) && t < |env| && TypedMsg(env, t, m) && FullMsg(env, t, m)
    requires at + 3 * |EncodeMsg(env, t, m)| <= MaxSize()
    ensures MsgError(env, t, m, at).None?
    decreases m, 1
  {
    FullFieldsEncode(env, t, m, m.fields, 0, at);
  }

  /** Within a third of the size limit, enc_struct returns nil if and only if every required
      field is set and no element is nil, at every depth. */
  lemma {:induction false} EncodesIff(env: Schema, t: nat, m: Msg, at: nat)
    requires ValidSchema(env) && t < |env| && TypedMsg(env, t, m) && at + 3 * |EncodeMsg(env, t, m)| <= 0x7fff_ffff
    ensures MsgError(env, t, m, at).None? <==> FullMsg(env, t, m)
  {
    hide MsgError, FullMsg, EncodeMsg, TypedMsg;
    if FullMsg(env, t, m) {
      FullEncodes(env, t, m, at);
    }
    if MsgError(env, t, m, at).None? {
      AcceptedMsg(env, t, m, at);
    }
  }

  lemma {:induction false} FullPointerAccepted(env: Schema, f: Field, p: Pointer)
    requires ValidSchema(env) && ValidField(env, f) && (f.kind.Message? || f.kind.Group?)
    requires p.To? ==> TypedMsg(env, f.kind.typ, p.m)
    requires CleanPointer(env, f, p) && FullPointer(env, f, p)
    ensures AcceptablePointer(env, f, p)
    decreases p
  {
    FullAccepted(env, f.kind.typ, p.m);
  }

  lemma {:induction false} FullValueAccepted(env: Schema, f: Field, v: Value)
    requires ValidSchema(env) && ValidField(env, f) && TypedValue(env, f, v)
    requires CleanValue(env, f, v) && FullValue(env, f, v)
    ensures AcceptableValue(env, f, v)
    decreases v
  {
    match v
    case Child(m) => FullAccepted(env, f.kind.typ, m);
    case Children(ms) =>
      forall i | 0 <= i < |ms| ensures AcceptablePointer(env, f, ms[i]) {
        assert CleanPointer(env, f, ms[i]) && FullPointer(env, f, ms[i]);
        FullPointerAccepted(env, f, ms[i]);
      }
    case _ =>
  }

  /** With whole unknown records it is what RoundTripMsg reads back. */
  lemma {:induction false} FullAccepted(env: Schema, t: nat, m: Msg)
    requires ValidSchema(env) && t < |env| && TypedMsg(env, t, m) && CleanMsg(env, t, m) && FullMsg(env, t, m)
    ensures AcceptableMsg(env, t, m)
    decreases m
  {
    forall i | 0 <= i < |m.fields| ensures AcceptableValue(env, env[t].fields[i], m.fields[i]) {
      assert ValidField(env, env[t].fields[i]);
      FullValueAccepted(env, env[t].fields[i], m.fields[i]);
    }
  }

  /** A message that encodes stays under maxMarshalSize. */
  lemma {:induction false} FinishedSize(env: Schema, t: nat, m: Msg, vs: seq<Value>, i: nat, at: nat, missing: bool)
    requires t < |env| && |vs| == |env[t].fields| && i <= |vs|
    requires Finished(FieldsError(env, t, m, vs, i, at, missing))
    requires i == |vs| ==> at <= MaxSize()
    ensures at + |EncodeFields(env, env[t].fields, vs, i)| + (if env[t].keepsUnknown then |m.unknown| else 0) <= 0x7fff_ffff
    decreases |vs| - i
  {
    if i < |vs| {
      var f := env[t].fields[i];
      var e := FieldError(env, f, vs[i], at);
      FinishedSize(env, t, m, vs, i + 1, at + |EncodeField(env, f, vs[i])|,
        missing || e == Some(RequiredNotSet) || (e == Some(NilValue) && f.presence.Required?));
    }
  }

  /** Round trip: a message that enc_struct accepts in an empty buffer is decoded back to
      itself from the bytes it appended, by an unmarshalType that reads all of them and
      reports no missing field. */
  lemma {:induction false} MarshalUnmarshal(env: Schema, t: nat, m: Msg)
    requires ValidSchema(env) && t < |env| && TypedMsg(env, t, m) && CleanMsg(env, t, m)
    requires MsgError(env, t, m, 0).None?
    ensures var bytes := EncodeMsg(env, t, m);
            UnmarshalMsg(env, t, false, bytes, Empty(env, t)) == Done(m, |bytes|, false)
  {
    AcceptedMsg(env, t, m, 0);
    FullAccepted(env, t, m);
    FinishedSize(env, t, m, m.fields, 0, 0, false);
    var bytes := EncodeMsg(env, t, m);
    var q := RoundTripMsg(env, t, m, false, []);
    assert bytes + [] == bytes;
  }

  /** The same inside an enclosing group: decoding stops behind the end-group tag. */
  lemma {:induction false} GroupUnmarshal(env: Schema, t: nat, m: Msg, f: Field, tail: seq<byte>)
    requires ValidSchema(env) && ValidField(env, f) && f.kind == Group(t)
    requires TypedMsg(env, t, m) && CleanMsg(env, t, m) && MsgError(env, t, m, 0).None?
    ensures var bytes := EncodeMsg(env, t, m) + EndTag(f);
            UnmarshalMsg(env, t, true, bytes + tail, Empty(env, t)) == Done(m, |bytes|, false)
  {
    AcceptedMsg(env, t, m, 0);
    FullAccepted(env, t, m);
    FinishedSize(env, t, m, m.fields, 0, 0, false);
    var q := RoundTripMsg(env, t, m, true, EndTag(f) + tail);
    GroupDone(env, f, EncodeMsg(env, t, m), tail, Empty(env, t), q);
  }

  // ------------------------------------------------------------- merging

  /** Merging: what enc_struct accepts is merged into the struct it is read into. */
  lemma {:induction false} UnmarshalMerge(env: Schema, t: nat, into: Msg, m: Msg)
    requires ValidSchema(env) && t < |env| && TypedMsg(env, t, into)
    requires TypedMsg(env, t, m) && CleanMsg(env, t, m) && MsgError(env, t, m, 0).None?
    ensures var bytes := EncodeMsg(env, t, m);
            UnmarshalMsg(env, t, false, bytes, into) == Done(MergeMsg(env, t, into, m), |bytes|, false)
  {
    AcceptedMsg(env, t, m, 0);
    FullAccepted(env, t, m);
    FinishedSize(env, t, m, m.fields, 0, 0, false);
    hide MergeMsg, TypedMsg, CleanMsg;
    var bytes := EncodeMsg(env, t, m);
    var q := TakeMsg(env, t, m, false, [], into);
    assert bytes + [] == bytes;
  }

  /** The bytes of two messages, one after the other, are the bytes of a message: the second
      merged into the first. */
  lemma {:induction false} ConcatMerges(env: Schema, t: nat, a: Msg, b: Msg)
    requires ValidSchema(env) && t < |env|
    requires TypedMsg(env, t, a) && CleanMsg(env, t, a) && MsgError(env, t, a, 0).None?
    requires TypedMsg(env, t, b) && CleanMsg(env, t, b) && MsgError(env, t, b, 0).None?
    ensures var bytes := EncodeMsg(env, t, a) + EncodeMsg(env, t, b);
            UnmarshalMsg(env, t, false, bytes, Empty(env, t)) == Done(MergeMsg(env, t, a, b), |bytes|, false)
  {
    Marshalled(env, t, a);
    Marshalled(env, t, b);
    hide MergeMsg, TypedMsg, CleanMsg, EncodeMsg, AcceptableMsg, Takes, MsgError, Unmarshal;
    var q := TakesTwo(env, t, a, b, false, []);
    UnmarshalEnd(env, t, EncodeMsg(env, t, a) + EncodeMsg(env, t, b), Start(env, t, Empty(env, t)), q);
  }

  lemma {:induction false} Marshalled(env: Schema, t: nat, m: Msg)
    requires ValidSchema(env) && t < |env|
    requires TypedMsg(env, t, m) && CleanMsg(env, t, m) && MsgError(env, t, m, 0).None?
    ensures AcceptableMsg(env, t, m) && |EncodeMsg(env, t, m)| <= MaxSize()
  {
    AcceptedMsg(env, t, m, 0);
    FullAccepted(env, t, m);
    FinishedSize(env, t, m, m.fields, 0, 0, false);
  }

  /** Bytes that lead to a state in which nothing is missing, and then nothing more. */
  lemma {:induction false} UnmarshalEnd(env: Schema, t: nat, bytes: seq<byte>, p: Progress, q: Progress)
    requires Takes(env, t, false, bytes, [], p, q) && q.required <= 0 && !q.nested
    ensures Unmarshal(env, t, false, bytes, p) == Done(q.m, |bytes|, false)
  {
    assert bytes + [] == bytes;
  }

  lemma {:induction false} TakesTwo(env: Schema, t: nat, a: Msg, b: Msg, isGroup: bool, tail: seq<byte>) returns (q: Progress)
    requires ValidSchema(env) && AcceptableMsg(env, t, a) && AcceptableMsg(env, t, b)
    requires |EncodeMsg(env, t, a)| < 0x8000_0000_0000_0000 && |EncodeMsg(env, t, b)| < 0x8000_0000_0000_0000
    ensures Takes(env, t, isGroup, EncodeMsg(env, t, a) + EncodeMsg(env, t, b), tail, Start(env, t, Empty(env, t)), q)
    ensures q.m == MergeMsg(env, t, a, b) && q.required <= 0 && !q.nested
  {
    hide Takes, MergeMsg, EncodeMsg, TypedMsg;
    AcceptableTyped(env, t, a);
    var r := RoundTripMsg(env, t, a, isGroup, EncodeMsg(env, t, b) + tail);
    q := TakeMore(env, t, b, isGroup, tail, r);
    TakesThen(env, t, isGroup, EncodeMsg(env, t, a), EncodeMsg(env, t, b), tail, Start(env, t, Empty(env, t)), r, q);
  }

  /** The same inside a group. */
  lemma {:induction false} ConcatMergesGroup(env: Schema, t: nat, a: Msg, b: Msg, f: Field, tail: seq<byte>)
    requires ValidSchema(env) && t < |env| && ValidField(env, f) && f.kind == Group(t)
    requires TypedMsg(env, t, a) && CleanMsg(env, t, a) && MsgError(env, t, a, 0).None?
    requires TypedMsg(env, t, b) && CleanMsg(env, t, b) && MsgError(env, t, b, 0).None?
    ensures var bytes := EncodeMsg(env, t, a) + EncodeMsg(env, t, b) + EndTag(f);
            UnmarshalMsg(env, t, true, bytes + tail, Empty(env, t)) == Done(MergeMsg(env, t, a, b), |bytes|, false)
  {
    Marshalled(env, t, a);
    Marshalled(env, t, b);
    hide MergeMsg, TypedMsg, CleanMsg, EncodeMsg, AcceptableMsg, Takes, MsgError, UnmarshalMsg;
    var q := TakesTwo(env, t, a, b, true, EndTag(f) + tail);
    GroupDone(env, f, EncodeMsg(env, t, a) + EncodeMsg(env, t, b), tail, Empty(env, t), q);
  }

  // ------------------------------------------ what decoding leaves behind

  lemma {:induction false} NoRecords(fs: seq<Field>)
    ensures UnknownRecords(fs, [])
  {
  }

  /** A record in front of records. */
  lemma {:induction false} ConsRecord(fs: seq<Field>, x: uint64, value: seq<byte>, tail: seq<byte>)
    requires x % 8 != 4 && x / 8 > 0 && FindField(fs, x / 8, 0).None? && Skip(value, x % 8) == SkipOk(|value|)
    requires UnknownRecords(fs, tail)
    ensures UnknownRecords(fs, Encode(x) + value + tail)
  {
    var n, u := |Encode(x)|, Encode(x) + value + tail;
    assert u == Encode(x) + (value + tail);
    DecodeEncode(x, value + tail);
    assert u[..n] == Encode(x) && u[n..] == value + tail;
    SkipPrefix(value, x % 8, tail);
    hide Decode, Encode, Skip, FindField;
    assert value[..|value|] == value;
    assert u[n + |value|..] == tail;
  }

  /** skipAndSave adds one record at the end. */
  lemma {:induction false} AppendRecord(fs: seq<Field>, u: seq<byte>, x: uint64, value: seq<byte>)
    requires UnknownRecords(fs, u)
    requires x % 8 != 4 && x / 8 > 0 && FindField(fs, x / 8, 0).None? && Skip(value, x % 8) == SkipOk(|value|)
    ensures UnknownRecords(fs, u + (Encode(x) + value))
    decreases |u|
  {
    hide UnknownRecords, Encode, Skip, FindField;
    var r := Encode(x) + value;
    if u == [] {
      NoRecords(fs);
      ConsRecord(fs, x, value, []);
      assert r + [] == u + r;
    } else {
      AfterFirst(fs, u);
      var k := FirstRecord(fs, u);
      var y, first := RecordParts(fs, u);
      AppendRecord(fs, u[k..], x, value);
      ConsRecord(fs, y, first, u[k..] + r);
      assert u + r == u[..k] + (u[k..] + r);
    }
  }

  lemma {:induction false} NarrowFits(go: GoType, u: uint64)
    ensures FitsWord(go, Narrow(go, u))
  {
  }

  lemma {:induction false} PackedFits(k: Kind, s: seq<byte>, left: int, ws: seq<uint64>)
    requires k.Scalar? && forall i :: 0 <= i < |ws| ==> FitsWord(k.go, ws[i])
    ensures var r := PackedLoop(k, s, left, ws);
            r.PackedOk? ==> forall i :: 0 <= i < |r.ws| ==> FitsWord(k.go, r.ws[i])
    decreases |s|
  {
    if left > 0 {
      match DecodeWord(k.coding, s)
      case Fail(_) =>
      case Ok(x, n) =>
        NarrowFits(k.go, x);
        PackedFits(k, s[n..], left - n, ws + [Narrow(k.go, x)]);
    }
  }

  /** A field decoder leaves a well-formed value. */
  lemma {:induction false} DecodedField(env: Schema, f: Field, packed: bool, s: seq<byte>, v: Value)
    requires ValidSchema(env) && ValidField(env, f) && (packed ==> Packable(f))
    requires TypedValue(env, f, v) && CleanValue(env, f, v)
    ensures var r := DecodeField(env, f, packed, s, v);
            r.Got? ==> TypedValue(env, f, r.v) && CleanValue(env, f, r.v)
    decreases |s|, 3
  {
    match f.kind
    case Scalar(go, c) =>
      if packed {
        if Decode(s).Ok? {
          PackedFits(f.kind, s[Decode(s).n..], Decode(s).x, WordsOf(v));
        }
      } else if DecodeWord(c, s).Ok? {
        NarrowFits(go, DecodeWord(c, s).x);
      }
    case Bytes =>
    case _ => DecodedStruct(env, f, s, v);
  }

  lemma {:induction false} DecodedStruct(env: Schema, f: Field, s: seq<byte>, v: Value)
    requires ValidSchema(env) && ValidField(env, f) && (f.kind.Message? || f.kind.Group?)
    requires TypedValue(env, f, v) && CleanValue(env, f, v)
    ensures var r := DecodeField(env, f, false, s, v);
            r.Got? ==> TypedValue(env, f, r.v) && CleanValue(env, f, r.v)
    decreases |s|, 2
  {
    hide Unmarshal, RawBytes;
    var typ := f.kind.typ;
    TargetGood(env, f, v);
    if f.kind.Group? {
      DecodedMsg(env, typ, true, s, Start(env, typ, Target(env, f, v)));
    } else if RawBytes(s).RawOk? {
      DecodedMsg(env, typ, false, RawBytes(s).b, Start(env, typ, Target(env, f, v)));
    }
  }

  lemma {:induction false} TargetGood(env: Schema, f: Field, v: Value)
    requires ValidSchema(env) && ValidField(env, f) && (f.kind.Message? || f.kind.Group?)
    requires TypedValue(env, f, v) && CleanValue(env, f, v)
    ensures TypedMsg(env, f.kind.typ, Target(env, f, v)) && CleanMsg(env, f.kind.typ, Target(env, f, v))
  {
    EmptyTyped(env, f.kind.typ);
  }

  /** One round of unmarshalType keeps the struct well formed. */
  lemma {:induction false} DecodedStep(env: Schema, t: nat, isGroup: bool, s: seq<byte>, p: Progress)
    requires ValidSchema(env) && t < |env| && TypedMsg(env, t, p.m) && CleanMsg(env, t, p.m)
    ensures var r := UnmarshalStep(env, t, isGroup, s, p);
            && (r.Next? ==> TypedMsg(env, t, r.p.m) && CleanMsg(env, t, r.p.m))
            && (r.Stop? && r.r.Done? ==> r.r.m == p.m)
    decreases |s|, 0
  {
    hide DecodeField, Skip, DecodeAt, TypedValue, CleanValue;
    var d := Decode(s);
    if d.Ok? && d.x % 8 != 4 && d.x / 8 != 0 {
      var rest := s[d.n..];
      var found := FindField(env[t].fields, d.x / 8, 0);
      if found.Some? {
        var f := env[t].fields[found.value];
        assert ValidField(env, f);
        if WireMatches(f, d.x % 8) || (d.x % 8 == 2 && Packable(f)) {
          DecodedField(env, f, !WireMatches(f, d.x % 8), rest, p.m.fields[found.value]);
        }
      } else if Skip(rest, d.x % 8).SkipOk? {
        var value := rest[..Skip(rest, d.x % 8).n];
        SkipPrefix(rest, d.x % 8, []);
        assert value + [] == value;
        AppendRecord(env[t].fields, p.m.unknown, d.x, value);
      }
    }
  }

  /** Whatever the input, a struct that unmarshalType fills is typed and clean. */
  lemma {:induction false} DecodedMsg(env: Schema, t: nat, isGroup: bool, s: seq<byte>, p: Progress)
    requires ValidSchema(env) && t < |env| && TypedMsg(env, t, p.m) && CleanMsg(env, t, p.m)
    ensures var r := Unmarshal(env, t, isGroup, s, p);
            r.Done? ==> TypedMsg(env, t, r.m) && CleanMsg(env, t, r.m)
    decreases |s|, 1
  {
    if |s| > 0 {
      DecodedStep(env, t, isGroup, s, p);
      match UnmarshalStep(env, t, isGroup, s, p)
      case Stop(_) =>
      case Next(q, n) => DecodedMsg(env, t, isGroup, s[n..], q);
    }
  }

  /** The exact condition: of the typed messages that encode without error, those and only
      those come back unchanged whose unrecognized bytes are what skipAndSave collects. */
  lemma {:induction false} RoundTripIff(env: Schema, t: nat, m: Msg)
    requires ValidSchema(env) && t < |env| && TypedMsg(env, t, m) && MsgError(env, t, m, 0).None?
    ensures var bytes := EncodeMsg(env, t, m);
            UnmarshalMsg(env, t, false, bytes, Empty(env, t)) == Done(m, |bytes|, false) <==> CleanMsg(env, t, m)
  {
    hide Unmarshal, EncodeMsg, MsgError;
    if CleanMsg(env, t, m) {
      MarshalUnmarshal(env, t, m);
    }
    EmptyTyped(env, t);
    DecodedMsg(env, t, false, EncodeMsg(env, t, m), Start(env, t, Empty(env, t)));
  }

  /** Decode, encode, decode: for arbitrary bytes that decode, if the result encodes without
      error then decoding its encoding gives the same struct, unknown fields included. */
  lemma {:induction false} Reencode(env: Schema, t: nat, s: seq<byte>)
    requires ValidSchema(env) && t < |env|
    ensures var r := UnmarshalMsg(env, t, false, s, Empty(env, t));
            r.Done? && MsgError(env, t, r.m, 0).None? ==>
              var again := EncodeMsg(env, t, r.m);
              UnmarshalMsg(env, t, false, again, Empty(env, t)) == Done(r.m, |again|, false)
  {
    EmptyTyped(env, t);
    DecodedMsg(env, t, false, s, Start(env, t, Empty(env, t)));
    var r := UnmarshalMsg(env, t, false, s, Empty(env, t));
    if r.Done? && MsgError(env, t, r.m, 0).None? {
      MarshalUnmarshal(env, t, r.m);
    }
  }
}
