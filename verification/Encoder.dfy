/** The encoders of gogo/protobuf/proto encode.go as methods on a buffer that is updated
    in place, proved to append exactly Encoding.EncodeMsg and to fail exactly as
    Encoding.MsgError says. */
module Encoder {
  import opened Words
  import opened Varint
  import opened Messages
  import opened Encoding
  import opened EncodeBuffers

  /** An encoder went from `before` to `after`: earlier bytes are never disturbed, and
      without an error, or if only a required field was missing or nothing was there to be
      encoded, the new bytes are bs. */
  ghost predicate Appended(before: seq<byte>, after: seq<byte>, e: Outcome, bs: seq<byte>) {
    && before <= after
    && (e.None? || e == Some(RequiredNotSet) || e == Some(NilValue) ==> after == before + bs)
  }

  /** valEnc. */
  method EncWord(o: EncodeBuffer, c: Coding, x: uint64)
    requires o.Valid()
    modifies o, o.data
    ensures o.Valid() && (o.data == old(o.data) || fresh(o.data))
    ensures o.Contents() == old(o.Contents()) + EncodeWord(c, x)
  {
    match c
    case Plain => o.EncodeVarint(x);
    case Zigzag32 => o.EncodeVarint(Varint.Zigzag32(x));
    case Zigzag64 => o.EncodeVarint(Varint.Zigzag64(x));
    case Fixed32 => o.Append(EncodeFixed(x, 4));
    case Fixed64 => o.Append(EncodeFixed(x, 8));
  }

  /** EncodeRawBytes and EncodeStringBytes, after the field's tag. */
  method EncTaggedRaw(o: EncodeBuffer, f: Field, b: seq<byte>)
    requires o.Valid()
    modifies o, o.data
    ensures o.Valid() && (o.data == old(o.data) || fresh(o.data))
    ensures o.Contents() == old(o.Contents()) + (TagCode(f) + EncodeRaw(b))
  {
    o.Append(TagCode(f));
    o.EncodeVarint(|b|);
    o.Append(b);
  }

  /** enc_slice_bool, enc_slice_int32, enc_slice_uint32 and enc_slice_int64. */
  method EncWords(o: EncodeBuffer, f: Field, ws: seq<uint64>)
    requires o.Valid() && f.kind.Scalar?
    modifies o, o.data
    ensures o.Valid() && (o.data == old(o.data) || fresh(o.data))
    ensures o.Contents() == old(o.Contents()) + EncodeWords(f, ws, 0)
  {
    hide EncodeWord, Widen, TagCode;
    for i := 0 to |ws|
      invariant o.Valid() && (o.data == old(o.data) || fresh(o.data))
      invariant o.Contents() + EncodeWords(f, ws, i) == old(o.Contents()) + EncodeWords(f, ws, 0)
    {
      o.Append(TagCode(f));
      EncWord(o, f.kind.coding, Widen(f.kind.go, ws[i]));
    }
  }

  /** The element loop of the packed encoders. */
  method EncPacked(o: EncodeBuffer, k: Kind, ws: seq<uint64>)
    requires o.Valid() && k.Scalar?
    modifies o, o.data
    ensures o.Valid() && (o.data == old(o.data) || fresh(o.data))
    ensures o.Contents() == old(o.Contents()) + EncodePacked(k, ws, 0)
  {
    hide EncodeWord, Widen;
    for i := 0 to |ws|
      invariant o.Valid() && (o.data == old(o.data) || fresh(o.data))
      invariant o.Contents() + EncodePacked(k, ws, i) == old(o.Contents()) + EncodePacked(k, ws, 0)
    {
      EncWord(o, k.coding, Widen(k.go, ws[i]));
    }
  }

  /** enc_slice_packed_bool writes straight into the buffer; the other packed encoders
      collect the elements in a buffer of their own to learn their length. */
  method EncPackedField(o: EncodeBuffer, f: Field, ws: seq<uint64>)
    requires o.Valid() && f.kind.Scalar? && LegalScalar(f.kind.go, f.kind.coding)
    requires forall j :: 0 <= j < |ws| ==> FitsWord(f.kind.go, ws[j])
    modifies o, o.data
    ensures o.Valid() && (o.data == old(o.data) || fresh(o.data))
    ensures o.Contents() == old(o.Contents()) + (TagCode(f) + EncodeRaw(EncodePacked(f.kind, ws, 0)))
  {
    hide TagCode, EncodePacked, Encode;
    ghost var head := o.Contents();
    if f.kind.go.Bool? {
      PackedBools(f.kind, ws, 0);
      o.Append(TagCode(f));
      o.EncodeVarint(|ws|);
      EncPacked(o, f.kind, ws);
      assert head + TagCode(f) + Encode(|ws|) + EncodePacked(f.kind, ws, 0)
          == head + (TagCode(f) + EncodeRaw(EncodePacked(f.kind, ws, 0)));
    } else {
      var buf := new EncodeBuffer();
      EncPacked(buf, f.kind, ws);
      assert buf.Contents() == EncodePacked(f.kind, ws, 0);
      EncTaggedRaw(o, f, buf.data[..buf.len]);
    }
  }

  /** enc_slice_slice_byte and enc_slice_string. */
  method EncBlobs(o: EncodeBuffer, f: Field, bs: seq<seq<byte>>)
    requires o.Valid()
    modifies o, o.data
    ensures o.Valid() && (o.data == old(o.data) || fresh(o.data))
    ensures o.Contents() == old(o.Contents()) + EncodeBlobs(f, bs, 0)
  {
    for i := 0 to |bs|
      invariant o.Valid() && (o.data == old(o.data) || fresh(o.data))
      invariant o.Contents() + EncodeBlobs(f, bs, i) == old(o.Contents()) + EncodeBlobs(f, bs, 0)
    {
      EncTaggedRaw(o, f, bs[i]);
    }
  }

  /** Something in front of what was appended, and, if that was finished, behind it. */
  lemma {:induction false} AppendedBetween(
    head: seq<byte>, front: seq<byte>, after: seq<byte>, e: Outcome, body: seq<byte>, back: seq<byte>)
    requires Appended(head + front, after, e, body) && e != Some(NilValue)
    ensures Appended(head, if Finished(e) then after + back else after, e, front + body + back)
  {
    assert head <= head + front <= after;
    if Finished(e) {
      assert head + front + body + back == head + (front + body + back);
    }
  }

  /** enc_struct_group. */
  method EncGroup(o: EncodeBuffer, env: Schema, f: Field, m: Msg) returns (e: Outcome)
    requires o.Valid() && ValidSchema(env) && f.kind.Group? && f.kind.typ < |env| && TypedMsg(env, f.kind.typ, m)
    modifies o, o.data
    ensures o.Valid() && (o.data == old(o.data) || fresh(o.data))
    ensures e == ChildError(env, f, m, |old(o.Contents())|)
    ensures Appended(old(o.Contents()), o.Contents(), e, EncodeChild(env, f, m))
    decreases m, 2
  {
    hide Appended, EncodeMsg, MsgError, Encode;
    ghost var head := o.Contents();
    o.EncodeVarint(8 * f.tag + 3);
    e := EncStruct(o, env, f.kind.typ, m);
    AppendedBetween(head, StartTag(f), o.Contents(), e, EncodeMsg(env, f.kind.typ, m), EndTag(f));
    if !Finished(e) {
      return;
    }
    o.EncodeVarint(8 * f.tag + 4);
  }

  /** enc_len_struct: reserve four bytes, encode, then patch the length. */
  method EncLenStruct(o: EncodeBuffer, env: Schema, t: nat, m: Msg) returns (e: Outcome)
    requires o.Valid() && ValidSchema(env) && t < |env| && TypedMsg(env, t, m)
    modifies o, o.data
    ensures o.Valid() && (o.data == old(o.data) || fresh(o.data))
    ensures e == MsgError(env, t, m, |old(o.Contents())| + 4)
    ensures Appended(old(o.Contents()), o.Contents(), e, EncodeRaw(EncodeMsg(env, t, m)))
    decreases m, 2
  {
    hide EncodeMsg, MsgError, Encode;
    var iLen := o.len;
    ghost var head, body := o.Contents(), EncodeMsg(env, t, m);
    o.Append([0, 0, 0, 0]);
    e := EncStruct(o, env, t, m);
    if Finished(e) {
      Reserved(head, body);
      o.PatchLength(iLen);
      assert o.Contents() == head + EncodeRaw(body);
    } else {
      assert head <= head + [0, 0, 0, 0] <= o.Contents();
    }
  }

  /** enc_struct_message. */
  method EncMessage(o: EncodeBuffer, env: Schema, f: Field, m: Msg) returns (e: Outcome)
    requires o.Valid() && ValidSchema(env) && f.kind.Message? && f.kind.typ < |env| && TypedMsg(env, f.kind.typ, m)
    modifies o, o.data
    ensures o.Valid() && (o.data == old(o.data) || fresh(o.data))
    ensures e == ChildError(env, f, m, |old(o.Contents())|)
    ensures Appended(old(o.Contents()), o.Contents(), e, EncodeChild(env, f, m))
    decreases m, 3
  {
    hide EncodeMsg, MsgError, TagCode, EncodeRaw, Appended;
    ghost var head := o.Contents();
    o.Append(TagCode(f));
    e := EncLenStruct(o, env, f.kind.typ, m);
    AppendedBetween(head, TagCode(f), o.Contents(), e, EncodeRaw(EncodeMsg(env, f.kind.typ, m)), []);
    assert o.Contents() + [] == o.Contents();
    assert TagCode(f) + EncodeRaw(EncodeMsg(env, f.kind.typ, m)) + [] == TagCode(f) + EncodeRaw(EncodeMsg(env, f.kind.typ, m));
  }

  lemma {:induction false} Reserved(head: seq<byte>, body: seq<byte>)
    ensures var c := head + [0, 0, 0, 0] + body;
            c[..|head|] == head && c[|head| + 4..] == body
  {
  }

  method EncPointer(o: EncodeBuffer, env: Schema, f: Field, p: Pointer) returns (e: Outcome)
    requires o.Valid() && ValidSchema(env) && ValidField(env, f) && (f.kind.Message? || f.kind.Group?)
    requires p.To? ==> TypedMsg(env, f.kind.typ, p.m)
    modifies o, o.data
    ensures o.Valid() && (o.data == old(o.data) || fresh(o.data))
    ensures e == PointerError(env, f, p, |old(o.Contents())|)
    ensures Appended(old(o.Contents()), o.Contents(), e, EncodePointer(env, f, p))
    decreases p, 4
  {
    if p.Nil? {
      return Some(RepeatedHasNil);
    }
    if f.kind.Group? {
      e := EncGroup(o, env, f, p.m);
    } else {
      e := EncMessage(o, env, f, p.m);
    }
  }

  /** enc_slice_struct_message and enc_slice_struct_group; `missing` is state.err. */
  method EncChildren(o: EncodeBuffer, env: Schema, f: Field, ms: seq<Pointer>) returns (e: Outcome)
    requires o.Valid() && ValidSchema(env) && ValidField(env, f) && (f.kind.Message? || f.kind.Group?)
    requires forall i :: 0 <= i < |ms| && ms[i].To? ==> TypedMsg(env, f.kind.typ, ms[i].m)
    modifies o, o.data
    ensures o.Valid() && (o.data == old(o.data) || fresh(o.data))
    ensures e == ChildrenError(env, f, ms, 0, |old(o.Contents())|, false)
    ensures Appended(old(o.Contents()), o.Contents(), e, EncodeChildren(env, f, ms, 0))
    decreases ms, 4
  {
    ghost var before, at := o.Contents(), |o.Contents()|;
    var missing := false;
    for i := 0 to |ms|
      invariant o.Valid() && (o.data == old(o.data) || fresh(o.data))
      invariant before <= o.Contents()
      invariant o.Contents() + EncodeChildren(env, f, ms, i) == before + EncodeChildren(env, f, ms, 0)
      invariant ChildrenError(env, f, ms, i, |o.Contents()|, missing) == ChildrenError(env, f, ms, 0, at, false)
    {
      ghost var here := o.Contents();
      e := EncPointer(o, env, f, ms[i]);
      if !Finished(e) {
        return;
      }
      missing := missing || e.Some?;
      assert o.Contents() + EncodeChildren(env, f, ms, i + 1) == here + EncodeChildren(env, f, ms, i);
    }
    e := if missing then Some(RequiredNotSet) else None;
  }

  /** The field encoder that setEncAndDec picked. */
  method EncField(o: EncodeBuffer, env: Schema, f: Field, v: Value) returns (e: Outcome)
    requires o.Valid() && ValidSchema(env) && ValidField(env, f) && TypedValue(env, f, v)
    modifies o, o.data
    ensures o.Valid() && (o.data == old(o.data) || fresh(o.data))
    ensures e == FieldError(env, f, v, |old(o.Contents())|)
    ensures Appended(old(o.Contents()), o.Contents(), e, EncodeField(env, f, v))
    decreases v, 5
  {
    hide MsgError, EncodeMsg, EncodeWord, EncodeRaw, EncodeChild, ChildError, EncodePacked, Encode;
    match v
    case Absent =>
      e := Some(NilValue);
    case Word(w) =>
      if f.presence.Implicit? && w == 0 {
        return Some(NilValue);
      }
      o.Append(TagCode(f));
      EncWord(o, f.kind.coding, Widen(f.kind.go, w));
      e := None;
    case Blob(b) =>
      if f.presence.Implicit? && b == [] {
        return Some(NilValue);
      }
      EncTaggedRaw(o, f, b);
      e := None;
    case Child(m) =>
      if f.kind.Group? {
        e := EncGroup(o, env, f, m);
      } else {
        e := EncMessage(o, env, f, m);
      }
    case Words(ws) =>
      if ws == [] {
        return Some(NilValue);
      }
      if f.presence.Packed? {
        EncPackedField(o, f, ws);
      } else {
        EncWords(o, f, ws);
      }
      e := None;
    case Blobs(bs) =>
      EncBlobs(o, f, bs);
      e := if bs == [] then Some(NilValue) else None;
    case Children(ms) =>
      e := EncChildren(o, env, f, ms);
  }

  /** The field loop of enc_struct. It either stops with an error or ends with `missing`
      saying whether a required field was nil. */
  method EncFields(o: EncodeBuffer, env: Schema, t: nat, m: Msg) returns (stop: Outcome, missing: bool)
    requires o.Valid() && ValidSchema(env) && TypedMsg(env, t, m) && t < |env|
    modifies o, o.data
    ensures o.Valid() && (o.data == old(o.data) || fresh(o.data))
    ensures old(o.Contents()) <= o.Contents()
    ensures var whole := MsgError(env, t, m, |old(o.Contents())|);
            if stop.Some? then whole == stop && !Finished(stop)
            else whole == EndError(env, t, m, |o.Contents()|, missing)
    ensures stop.None? ==>
              o.Contents() == old(o.Contents()) + EncodeFields(env, FieldsOf(env, t), m.fields, 0)
    decreases m, 0
  {
    hide FieldError, EncodeField, EncodeMsg;
    var fs, vs := FieldsOf(env, t), m.fields;
    ghost var before, at := o.Contents(), |o.Contents()|;
    missing := false;
    for i := 0 to |vs|
      invariant o.Valid() && (o.data == old(o.data) || fresh(o.data))
      invariant before <= o.Contents()
      invariant o.Contents() + EncodeFields(env, fs, vs, i) == before + EncodeFields(env, fs, vs, 0)
      invariant FieldsError(env, t, m, vs, i, |o.Contents()|, missing) == FieldsError(env, t, m, vs, 0, at, false)
    {
      ghost var here := o.Contents();
      var e := EncField(o, env, fs[i], vs[i]);
      if e == Some(RepeatedHasNil) {
        return Some(RepeatedFieldHasNil), missing;
      } else if e == Some(NilValue) {
        missing := missing || fs[i].presence.Required?;
      } else if e == Some(RequiredNotSet) {
        missing := true;
      } else if e.Some? {
        return e, missing;
      }
      assert o.Contents() + EncodeFields(env, fs, vs, i + 1) == here + EncodeFields(env, fs, vs, i);
      if o.len > MaxSize() {
        return Some(TooLarge), missing;
      }
    }
    stop := None;
  }

  /** enc_struct: the fields in order, then the unrecognized bytes. */
  method EncStruct(o: EncodeBuffer, env: Schema, t: nat, m: Msg) returns (e: Outcome)
    requires o.Valid() && ValidSchema(env) && TypedMsg(env, t, m) && t < |env|
    modifies o, o.data
    ensures o.Valid() && (o.data == old(o.data) || fresh(o.data))
    ensures e == MsgError(env, t, m, |old(o.Contents())|)
    ensures Appended(old(o.Contents()), o.Contents(), e, EncodeMsg(env, t, m))
    decreases m, 1
  {
    var stop, missing := EncFields(o, env, t, m);
    if stop.Some? {
      return stop;
    }
    if KeepsUnknown(env, t) {
      if o.len + |m.unknown| > MaxSize() {
        return Some(TooLarge);
      }
      o.Append(m.unknown);
    }
    e := if missing then Some(RequiredNotSet) else None;
  }

  /** Buffer.Marshal for a message that does not marshal itself: enc_struct, and ErrTooLarge
      whenever the buffer ends up above the limit. */
  method Marshal(o: EncodeBuffer, env: Schema, t: nat, m: Msg) returns (e: Outcome)
    requires o.Valid() && ValidSchema(env) && TypedMsg(env, t, m) && t < |env|
    modifies o, o.data
    ensures o.Valid() && (o.data == old(o.data) || fresh(o.data))
    ensures e == if |o.Contents()| > 0x7fff_ffff then Some(TooLarge) else MsgError(env, t, m, |old(o.Contents())|)
    ensures Appended(old(o.Contents()), o.Contents(), MsgError(env, t, m, |old(o.Contents())|), EncodeMsg(env, t, m))
  {
    e := EncStruct(o, env, t, m);
    if o.len > MaxSize() {
      e := Some(TooLarge);
    }
  }
}
