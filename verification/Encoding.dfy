/** The bytes and the error of enc_struct as functions of the message
    (gogo/protobuf/proto encode.go). EncodeBuffers proves that the in-place encoder
    computes exactly these. */
module Encoding {
  import opened Words
  import opened Varint
  import opened Messages

  /** maxMarshalSize. */
  function MaxSize(): nat { 0x7fff_ffff }

  function WireType(k: Kind): nat {
    match k
    case Scalar(_, c) => if c.Fixed32? then 5 else if c.Fixed64? then 1 else 0
    case _ => 2
  }

  function TagCode(f: Field): seq<byte> {
    Encode(8 * f.tag + if f.presence.Packed? then 2 else WireType(f.kind))
  }

  function StartTag(f: Field): seq<byte> { Encode(8 * f.tag + 3) }

  function EndTag(f: Field): seq<byte> { Encode(8 * f.tag + 4) }

  // ------------------------------------------------------------------ bytes

  /** EncodeRawBytes: length, then content. */
  function EncodeRaw(b: seq<byte>): seq<byte> {
    Encode(|b|) + b
  }

  /** One numeric element without its tag. */
  function EncodeScalar(k: Kind, w: uint64): seq<byte>
    requires k.Scalar?
  {
    EncodeWord(k.coding, Widen(k.go, w))
  }

  /** The elements of a packed field from the i-th on. */
  function EncodePacked(k: Kind, ws: seq<uint64>, i: nat): seq<byte>
    requires k.Scalar?
    decreases |ws| - i
  {
    if i >= |ws| then [] else EncodeScalar(k, ws[i]) + EncodePacked(k, ws, i + 1)
  }

  /** Every bool takes exactly one byte, which lets the bool encoder write the length first. */
  lemma {:induction false} PackedBools(k: Kind, ws: seq<uint64>, i: nat)
    requires k.Scalar? && k.go.Bool? && k.coding.Plain? && i <= |ws|
    requires forall j :: 0 <= j < |ws| ==> FitsWord(k.go, ws[j])
    ensures |EncodePacked(k, ws, i)| == |ws| - i
    decreases |ws| - i
  {
    if i < |ws| {
      PackedBools(k, ws, i + 1);
    }
  }

  function EncodeWords(f: Field, ws: seq<uint64>, i: nat): seq<byte>
    requires f.kind.Scalar?
    decreases |ws| - i
  {
    if i >= |ws| then [] else TagCode(f) + EncodeScalar(f.kind, ws[i]) + EncodeWords(f, ws, i + 1)
  }

  function EncodeBlobs(f: Field, bs: seq<seq<byte>>, i: nat): seq<byte>
    decreases |bs| - i
  {
    if i >= |bs| then [] else TagCode(f) + EncodeRaw(bs[i]) + EncodeBlobs(f, bs, i + 1)
  }

  /** An embedded message is length-delimited, a group is bracketed by tags. */
  function EncodeChild(env: Schema, f: Field, m: Msg): seq<byte>
    decreases m, 2
  {
    var body := EncodeMsg(env, TypeOf(f.kind), m);
    if f.kind.Group? then StartTag(f) + body + EndTag(f) else TagCode(f) + EncodeRaw(body)
  }

  function EncodePointer(env: Schema, f: Field, p: Pointer): seq<byte>
    decreases p, 0
  {
    if p.Nil? then [] else EncodeChild(env, f, p.m)
  }

  function EncodeChildren(env: Schema, f: Field, ms: seq<Pointer>, i: nat): seq<byte>
    decreases ms, |ms| - i
  {
    if i >= |ms| then []
    else EncodePointer(env, f, ms[i]) + EncodeChildren(env, f, ms, i + 1)
  }

  function EncodeField(env: Schema, f: Field, v: Value): seq<byte>
    decreases v, 0
  {
    match v
    case Absent => []
    case Word(w) =>
      if !f.kind.Scalar? || (f.presence.Implicit? && w == 0) then [] else TagCode(f) + EncodeScalar(f.kind, w)
    case Blob(b) =>
      if f.presence.Implicit? && b == [] then [] else TagCode(f) + EncodeRaw(b)
    case Child(m) => EncodeChild(env, f, m)
    case Words(ws) =>
      if !f.kind.Scalar? || ws == [] then []
      else if f.presence.Packed? then TagCode(f) + EncodeRaw(EncodePacked(f.kind, ws, 0))
      else EncodeWords(f, ws, 0)
    case Blobs(bs) => EncodeBlobs(f, bs, 0)
    case Children(ms) => EncodeChildren(env, f, ms, 0)
  }

  function EncodeFields(env: Schema, fs: seq<Field>, vs: seq<Value>, i: nat): seq<byte>
    decreases vs, 0, |vs| - i
  {
    if i >= |vs| || i >= |fs| then [] else EncodeField(env, fs[i], vs[i]) + EncodeFields(env, fs, vs, i + 1)
  }

  /** What enc_struct appends. */
  function EncodeMsg(env: Schema, t: nat, m: Msg): seq<byte>
    decreases m, 1
  {
    EncodeFields(env, FieldsOf(env, t), m.fields, 0) + if KeepsUnknown(env, t) then m.unknown else []
  }

  // ----------------------------------------------------------------- errors

  /** The error of an encoder that starts when the buffer holds `at` bytes; None is nil. */
  type Outcome = Option<Error>

  function ChildError(env: Schema, f: Field, m: Msg, at: nat): (e: Outcome)
    ensures e != Some(NilValue) && e != Some(RepeatedHasNil)
    decreases m, 2
  {
    MsgError(env, TypeOf(f.kind), m, if f.kind.Group? then at + |StartTag(f)| else at + |TagCode(f)| + 4)
  }

  function PointerError(env: Schema, f: Field, p: Pointer, at: nat): (e: Outcome)
    ensures e != Some(NilValue)
    decreases p, 0
  {
    if p.Nil? then Some(RepeatedHasNil) else ChildError(env, f, p.m, at)
  }

  function ChildrenError(env: Schema, f: Field, ms: seq<Pointer>, i: nat, at: nat, missing: bool): (e: Outcome)
    ensures e != Some(NilValue)
    decreases ms, |ms| - i
  {
    if i >= |ms| then if missing then Some(RequiredNotSet) else None
    else
      var e := PointerError(env, f, ms[i], at);
      if e.Some? && e != Some(RequiredNotSet) then e
      else ChildrenError(env, f, ms, i + 1, at + |EncodePointer(env, f, ms[i])|, missing || e.Some?)
  }

  function FieldError(env: Schema, f: Field, v: Value, at: nat): Outcome
    decreases v, 0
  {
    match v
    case Absent => Some(NilValue)
    case Word(w) => if f.presence.Implicit? && w == 0 then Some(NilValue) else None
    case Blob(b) => if f.presence.Implicit? && b == [] then Some(NilValue) else None
    case Child(m) => ChildError(env, f, m, at)
    case Words(ws) => if ws == [] then Some(NilValue) else None
    case Blobs(bs) => if bs == [] then Some(NilValue) else None
    case Children(ms) => ChildrenError(env, f, ms, 0, at, false)
  }

  /** The end of enc_struct, after the fields; `missing` says a required field was nil. */
  function EndError(env: Schema, t: nat, m: Msg, at: nat, missing: bool): Outcome {
    if KeepsUnknown(env, t) && at + |m.unknown| > MaxSize() then Some(TooLarge)
    else if missing then Some(RequiredNotSet) else None
  }

  /** The loop of enc_struct from the i-th field on, and what follows it. */
  function FieldsError(env: Schema, t: nat, m: Msg, vs: seq<Value>, i: nat, at: nat, missing: bool): (e: Outcome)
    ensures e != Some(NilValue) && e != Some(RepeatedHasNil)
    decreases vs, 0, |vs| - i
  {
    var fs := FieldsOf(env, t);
    if i >= |vs| || i >= |fs| then EndError(env, t, m, at, missing)
    else
      var e := FieldError(env, fs[i], vs[i], at);
      var after := at + |EncodeField(env, fs[i], vs[i])|;
      if e == Some(RepeatedHasNil) then Some(RepeatedFieldHasNil)
      else if e.Some? && e != Some(NilValue) && e != Some(RequiredNotSet) then e
      else if after > MaxSize() then Some(TooLarge)
      else
        FieldsError(env, t, m, vs, i + 1, after,
          missing || e == Some(RequiredNotSet) || (e == Some(NilValue) && fs[i].presence.Required?))
  }

  /** The error of enc_struct: never one of the sentinels meant for the enclosing field. */
  function MsgError(env: Schema, t: nat, m: Msg, at: nat): (e: Outcome)
    ensures e != Some(NilValue) && e != Some(RepeatedHasNil)
    decreases m, 1
  {
    FieldsError(env, t, m, m.fields, 0, at, false)
  }

  /** Encoding went through to the end of the message: nil or RequiredNotSetError. */
  predicate Finished(e: Outcome) {
    e.None? || e == Some(RequiredNotSet)
  }
}
