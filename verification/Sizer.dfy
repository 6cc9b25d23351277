/** The size pass of gogo/protobuf/proto encode.go: the size_* functions, proved to
    predict exactly how many bytes the encode pass appends. */
module Sizer {
  import opened Words
  import opened Varint
  import opened Messages
  import opened Encoding

  ghost predicate NoNilPointer(p: Pointer)
    decreases p
  {
    p.To? && NoNilMsg(p.m)
  }

  ghost predicate NoNilValue(v: Value)
    decreases v
  {
    match v
    case Child(m) => NoNilMsg(m)
    case Children(ms) => forall i :: 0 <= i < |ms| ==> NoNilPointer(ms[i])
    case _ => true
  }

  /** No slice of struct pointers in the message, at any depth, holds nil. */
  ghost predicate NoNilMsg(m: Msg)
    decreases m
  {
    forall i :: 0 <= i < |m.fields| ==> NoNilValue(m.fields[i])
  }

  // ------------------------------------- a message that encodes holds no nil

  lemma {:induction false} FinishedChild(env: Schema, f: Field, m: Msg, at: nat)
    requires ValidSchema(env) && (f.kind.Message? || f.kind.Group?) && TypedMsg(env, f.kind.typ, m)
    requires Finished(ChildError(env, f, m, at))
    ensures NoNilMsg(m)
    decreases m, 2
  {
    FinishedMsg(env, TypeOf(f.kind), m, if f.kind.Group? then at + |StartTag(f)| else at + |TagCode(f)| + 4);
  }

  lemma {:induction false} FinishedPointer(env: Schema, f: Field, p: Pointer, at: nat)
    requires ValidSchema(env) && (f.kind.Message? || f.kind.Group?)
    requires p.To? ==> TypedMsg(env, f.kind.typ, p.m)
    requires Finished(PointerError(env, f, p, at))
    ensures NoNilPointer(p)
    decreases p, 0
  {
    FinishedChild(env, f, p.m, at);
  }

  lemma {:induction false} FinishedValue(env: Schema, f: Field, v: Value, at: nat)
    requires ValidSchema(env) && TypedValue(env, f, v)
    requires Finished(FieldError(env, f, v, at)) || FieldError(env, f, v, at) == Some(Error.NilValue)
    ensures NoNilValue(v)
    decreases v, 0
  {
    match v
    case Child(m) => FinishedChild(env, f, m, at);
    case Children(ms) => FinishedChildren(env, f, ms, 0, at, false);
    case _ =>
  }

  lemma {:induction false} FinishedChildren(env: Schema, f: Field, ms: seq<Pointer>, i: nat, at: nat, missing: bool)
    requires ValidSchema(env) && (f.kind.Message? || f.kind.Group?)
    requires forall j :: 0 <= j < |ms| && ms[j].To? ==> TypedMsg(env, f.kind.typ, ms[j].m)
    requires Finished(ChildrenError(env, f, ms, i, at, missing))
    ensures forall j :: i <= j < |ms| ==> NoNilPointer(ms[j])
    decreases ms, |ms| - i
  {
    if i < |ms| {
      FinishedPointer(env, f, ms[i], at);
      var e := PointerError(env, f, ms[i], at);
      FinishedChildren(env, f, ms, i + 1, at + |EncodePointer(env, f, ms[i])|, missing || e.Some?);
    }
  }

  lemma {:induction false} FinishedFields(env: Schema, t: nat, m: Msg, vs: seq<Value>, i: nat, at: nat, missing: bool)
    requires ValidSchema(env) && |vs| == |FieldsOf(env, t)|
    requires forall j :: 0 <= j < |vs| ==> TypedValue(env, FieldsOf(env, t)[j], vs[j])
    requires Finished(FieldsError(env, t, m, vs, i, at, missing))
    ensures forall j :: i <= j < |vs| ==> NoNilValue(vs[j])
    decreases vs, 0, |vs| - i
  {
    if i < |vs| {
      var f := FieldsOf(env, t)[i];
      var e := FieldError(env, f, vs[i], at);
      FinishedValue(env, f, vs[i], at);
      FinishedFields(env, t, m, vs, i + 1, at + |EncodeField(env, f, vs[i])|,
        missing || e == Some(RequiredNotSet) || (e == Some(Error.NilValue) && f.presence.Required?));
    }
  }

  /** If enc_struct returns nil or RequiredNotSetError, no repeated field held a nil element. */
  lemma {:induction false} FinishedMsg(env: Schema, t: nat, m: Msg, at: nat)
    requires ValidSchema(env) && TypedMsg(env, t, m)
    requires Finished(MsgError(env, t, m, at))
    ensures NoNilMsg(m)
    decreases m, 1
  {
    FinishedFields(env, t, m, m.fields, 0, at, false);
  }

  // ---------------------------------------------------------- the size pass

  /** valSize. */
  method SizeWord(c: Coding, x: uint64) returns (n: nat)
    ensures n == |EncodeWord(c, x)|
  {
    match c
    case Plain => n := Varint.SizeVarint(x);
    case Zigzag32 => n := Varint.SizeVarint(Varint.Zigzag32(x));
    case Zigzag64 => n := Varint.SizeVarint(Varint.Zigzag64(x));
    case Fixed32 => n := 4;
    case Fixed64 => n := 8;
  }

  /** sizeRawBytes and sizeStringBytes. */
  method SizeRaw(b: seq<byte>) returns (n: nat)
    ensures n == |EncodeRaw(b)|
  {
    var l := Varint.SizeVarint(|b|);
    n := l + |b|;
  }

  lemma {:induction false} BoolSize(k: Kind, w: uint64)
    requires k.Scalar? && k.go.Bool? && k.coding.Plain? && FitsWord(k.go, w)
    ensures |EncodeScalar(k, w)| == 1
  {
  }

  lemma {:induction false} BoolsSize(f: Field, ws: seq<uint64>, i: nat)
    requires f.kind.Scalar? && f.kind.go.Bool? && f.kind.coding.Plain? && i <= |ws|
    requires forall j :: 0 <= j < |ws| ==> FitsWord(f.kind.go, ws[j])
    ensures |EncodeWords(f, ws, i)| == (|ws| - i) * (|TagCode(f)| + 1)
    decreases |ws| - i
  {
    if i < |ws| {
      BoolSize(f.kind, ws[i]);
      BoolsSize(f, ws, i + 1);
      OneMore(|ws| - i - 1, |TagCode(f)| + 1);
    }
  }

  lemma {:induction false} OneMore(k: nat, c: nat)
    ensures (k + 1) * c == k * c + c
  {
  }

  /** size_bool, size_int32, size_uint32, size_int64 and their proto3 forms. */
  method SizeScalar(f: Field, w: uint64) returns (n: nat)
    requires f.kind.Scalar? && LegalScalar(f.kind.go, f.kind.coding) && FitsWord(f.kind.go, w)
    ensures n == |TagCode(f) + EncodeScalar(f.kind, w)|
  {
    if f.kind.go.Bool? {
      BoolSize(f.kind, w);
      return |TagCode(f)| + 1;
    }
    n := SizeWord(f.kind.coding, Widen(f.kind.go, w));
    n := |TagCode(f)| + n;
  }

  /** size_slice_bool, size_slice_int32, size_slice_uint32 and size_slice_int64. */
  method SizeWords(f: Field, ws: seq<uint64>) returns (n: nat)
    requires f.kind.Scalar? && LegalScalar(f.kind.go, f.kind.coding)
    requires forall j :: 0 <= j < |ws| ==> FitsWord(f.kind.go, ws[j])
    ensures n == |EncodeWords(f, ws, 0)|
  {
    if f.kind.go.Bool? {
      BoolsSize(f, ws, 0);
      return |ws| * (|TagCode(f)| + 1);
    }
    n := 0;
    for i := 0 to |ws|
      invariant n + |EncodeWords(f, ws, i)| == |EncodeWords(f, ws, 0)|
    {
      var k := SizeWord(f.kind.coding, Widen(f.kind.go, ws[i]));
      n := n + |TagCode(f)| + k;
    }
  }

  /** size_slice_packed_*. */
  method SizePacked(f: Field, ws: seq<uint64>) returns (n: nat)
    requires f.kind.Scalar? && LegalScalar(f.kind.go, f.kind.coding)
    requires forall j :: 0 <= j < |ws| ==> FitsWord(f.kind.go, ws[j])
    ensures n == |TagCode(f) + EncodeRaw(EncodePacked(f.kind, ws, 0))|
  {
    var bufSize := 0;
    if f.kind.go.Bool? {
      PackedBools(f.kind, ws, 0);
      bufSize := |ws|;
    } else {
      for i := 0 to |ws|
        invariant bufSize + |EncodePacked(f.kind, ws, i)| == |EncodePacked(f.kind, ws, 0)|
      {
        var k := SizeWord(f.kind.coding, Widen(f.kind.go, ws[i]));
        bufSize := bufSize + k;
      }
    }
    n := Varint.SizeVarint(bufSize);
    n := |TagCode(f)| + n + bufSize;
  }

  /** size_slice_slice_byte and size_slice_string: all the tags first, then the contents. */
  method SizeBlobs(f: Field, bs: seq<seq<byte>>) returns (n: nat)
    ensures n == |EncodeBlobs(f, bs, 0)|
  {
    n := |bs| * |TagCode(f)|;
    for i := 0 to |bs|
      invariant n + |EncodeBlobs(f, bs, i)| == |EncodeBlobs(f, bs, 0)| + (|bs| - i) * |TagCode(f)|
    {
      OneMore(|bs| - i - 1, |TagCode(f)|);
      var k := SizeRaw(bs[i]);
      n := n + k;
    }
  }

  /** size_struct_message without its tag, and size_struct_group without its brackets. */
  method SizeBody(env: Schema, f: Field, m: Msg) returns (n: nat)
    requires ValidSchema(env) && (f.kind.Message? || f.kind.Group?) && TypedMsg(env, f.kind.typ, m)
    ensures NoNilMsg(m) ==> n + |Brackets(f)| == |EncodeChild(env, f, m)|
    decreases m, 2
  {
    var body := SizeStruct(env, f.kind.typ, m);
    if f.kind.Group? {
      return body;
    }
    n := Varint.SizeVarint(body);
    n := n + body;
  }

  /** The bytes around a child that do not depend on it. */
  function Brackets(f: Field): seq<byte> {
    if f.kind.Group? then StartTag(f) + EndTag(f) else TagCode(f)
  }

  /** size_slice_struct_message and size_slice_struct_group: the tags of all elements first;
      a nil element ends the count. */
  method SizeChildren(env: Schema, f: Field, ms: seq<Pointer>) returns (n: nat)
    requires ValidSchema(env) && (f.kind.Message? || f.kind.Group?)
    requires forall i :: 0 <= i < |ms| && ms[i].To? ==> TypedMsg(env, f.kind.typ, ms[i].m)
    ensures NoNilValue(Children(ms)) ==> n == |EncodeChildren(env, f, ms, 0)|
    decreases ms, 3
  {
    n := |ms| * |Brackets(f)|;
    for i := 0 to |ms|
      invariant NoNilValue(Children(ms)) ==>
                  n + |EncodeChildren(env, f, ms, i)| == |EncodeChildren(env, f, ms, 0)| + (|ms| - i) * |Brackets(f)|
    {
      if ms[i].Nil? {
        assert !NoNilPointer(ms[i]);
        return;
      }
      assert NoNilValue(Children(ms)) ==> NoNilPointer(ms[i]);
      OneMore(|ms| - i - 1, |Brackets(f)|);
      var k := SizePointer(env, f, ms[i]);
      n := n + k;
    }
  }

  method SizePointer(env: Schema, f: Field, p: Pointer) returns (n: nat)
    requires ValidSchema(env) && (f.kind.Message? || f.kind.Group?)
    requires p.To? && TypedMsg(env, f.kind.typ, p.m)
    ensures NoNilPointer(p) ==> n + |Brackets(f)| == |EncodePointer(env, f, p)|
    decreases p, 3
  {
    n := SizeBody(env, f, p.m);
  }

  /** The field sizer that setEncAndDec picked. */
  method SizeField(env: Schema, f: Field, v: Value) returns (n: nat)
    requires ValidSchema(env) && ValidField(env, f) && TypedValue(env, f, v)
    ensures NoNilValue(v) ==> n == |EncodeField(env, f, v)|
    decreases v, 4
  {
    match v
    case Absent => n := 0;
    case Word(w) =>
      if f.presence.Implicit? && w == 0 {
        return 0;
      }
      n := SizeScalar(f, w);
    case Blob(b) =>
      if f.presence.Implicit? && b == [] {
        return 0;
      }
      n := SizeRaw(b);
      n := |TagCode(f)| + n;
    case Child(m) =>
      n := SizeBody(env, f, m);
      n := |Brackets(f)| + n;
    case Words(ws) =>
      if ws == [] {
        return 0;
      }
      if f.presence.Packed? {
        n := SizePacked(f, ws);
      } else {
        n := SizeWords(f, ws);
      }
    case Blobs(bs) =>
      n := SizeBlobs(f, bs);
    case Children(ms) =>
      n := SizeChildren(env, f, ms);
  }

  /** size_struct: the size pass predicts the encode pass. */
  method SizeStruct(env: Schema, t: nat, m: Msg) returns (n: nat)
    requires ValidSchema(env) && TypedMsg(env, t, m)
    ensures NoNilMsg(m) ==> n == |EncodeMsg(env, t, m)|
    decreases m, 1
  {
    var fs, vs := FieldsOf(env, t), m.fields;
    n := 0;
    for i := 0 to |vs|
      invariant NoNilMsg(m) ==> n + |EncodeFields(env, fs, vs, i)| == |EncodeFields(env, fs, vs, 0)|
    {
      assert t < |env| && ValidField(env, fs[i]);
      var k := SizeField(env, fs[i], vs[i]);
      n := n + k;
    }
    if KeepsUnknown(env, t) {
      n := n + |m.unknown|;
    }
  }

  /** Size: whenever enc_struct returns nil or only misses a required field, at whatever
      place in a buffer, it appends exactly this many bytes. */
  method Size(env: Schema, t: nat, m: Msg) returns (n: nat)
    requires ValidSchema(env) && TypedMsg(env, t, m)
    ensures forall at :: Finished(MsgError(env, t, m, at)) ==> n == |EncodeMsg(env, t, m)|
  {
    forall at | Finished(MsgError(env, t, m, at)) ensures NoNilMsg(m) {
      FinishedMsg(env, t, m, at);
    }
    n := SizeStruct(env, t, m);
  }
}
