/** The decoders of gogo/protobuf/proto decode.go as methods that advance a buffer's
    index, proved to compute exactly Decoding.UnmarshalMsg. */
module Decoder {
  import opened Words
  import opened Varint
  import opened Messages
  import opened Encoding
  import opened Skipping
  import opened Decoding
  import opened DecodeBuffers

  /** RequiredNotSetError or nil. */
  function Report(missing: bool): Outcome {
    if missing then Some(RequiredNotSet) else None
  }

  /** A field decoder that started at byte `from` did what `spec` says: a hard error, or
      the new field value and the bytes read. */
  ghost predicate Decoded(spec: FieldResult, from: nat, o: DecodeBuffer, e: Outcome, v: Value)
    reads o
  {
    match spec
    case HardField(err) => e == Some(err)
    case Got(v', n, missing) => v == v' && o.index == from + n && e == Report(missing)
  }

  /** valDec. */
  method DecWord(o: DecodeBuffer, c: Coding) returns (r: Number)
    requires o.Valid()
    modifies o`index
    ensures o.Valid() && r == DecodeWord(c, old(o.Rest()))
    ensures o.index == old(o.index) + (if r.Ok? then r.n else 0)
  {
    match c
    case Plain =>
      r := o.DecodeVarint();
    case Zigzag32 =>
      r := o.DecodeVarint();
      if r.Ok? {
        r := Ok(Unzigzag32(r.x), r.n);
      }
    case Zigzag64 =>
      r := o.DecodeVarint();
      if r.Ok? {
        r := Ok(Unzigzag64(r.x), r.n);
      }
    case Fixed32 =>
      r := o.DecodeFixed32();
    case Fixed64 =>
      r := o.DecodeFixed64();
  }

  /** The loop of dec_slice_packed_bool, dec_slice_packed_int32 and dec_slice_packed_int64. */
  method DecPackedLoop(o: DecodeBuffer, k: Kind, fin: nat, ws0: seq<uint64>) returns (r: PackedResult)
    requires o.Valid() && k.Scalar?
    modifies o`index
    ensures o.Valid() && r == PackedLoop(k, old(o.Rest()), fin - old(o.index), ws0)
    ensures r.PackedOk? ==> o.index == old(o.index) + r.n
  {
    hide DecodeWord, Narrow;
    var ws, start := ws0, o.index;
    ghost var whole := PackedLoop(k, o.Rest(), fin - o.index, ws0);
    while o.index < fin
      invariant o.Valid() && start <= o.index
      invariant whole == PackedLater(PackedLoop(k, o.Rest(), fin - o.index, ws), o.index - start)
      decreases |o.buf| - o.index
    {
      ghost var s := o.Rest();
      var x := DecWord(o, k.coding);
      if x.Fail? {
        return PackedFail(x.error);
      }
      assert s[x.n..] == o.Rest();
      ws := ws + [Narrow(k.go, x.x)];
    }
    r := PackedOk(ws, o.index - start);
  }

  /** dec_slice_packed_*. */
  method DecPacked(o: DecodeBuffer, k: Kind, ws: seq<uint64>) returns (r: PackedResult)
    requires o.Valid() && k.Scalar?
    modifies o`index
    ensures o.Valid() && r == DecodePacked(k, old(o.Rest()), ws)
    ensures r.PackedOk? ==> o.index == old(o.index) + r.n
  {
    hide Decode, PackedLoop;
    ghost var s := o.Rest();
    var nn := o.DecodeVarint();
    if nn.Fail? {
      return PackedFail(nn.error);
    }
    if nn.x >= 0x8000_0000_0000_0000 {
      return PackedFail(Overflow);
    }
    assert s[nn.n..] == o.Rest();
    r := DecPackedLoop(o, k, o.index + nn.x, ws);
    if r.PackedOk? {
      r := PackedOk(r.ws, nn.n + r.n);
    }
  }

  /** The numeric field decoders. */
  method DecScalar(o: DecodeBuffer, env: Schema, f: Field, packed: bool, v: Value) returns (v': Value, e: Outcome)
    requires o.Valid() && f.kind.Scalar?
    modifies o`index
    ensures o.Valid() && Decoded(DecodeField(env, f, packed, old(o.Rest()), v), old(o.index), o, e, v')
  {
    if packed {
      var r := DecPacked(o, f.kind, WordsOf(v));
      if r.PackedFail? {
        return v, Some(r.error);
      }
      return Words(r.ws), None;
    }
    var x := DecWord(o, f.kind.coding);
    if x.Fail? {
      return v, Some(x.error);
    }
    return StoreWord(f, v, Narrow(f.kind.go, x.x)), None;
  }

  /** dec_string, dec_slice_byte, dec_slice_string and dec_slice_slice_byte. */
  method DecBytes(o: DecodeBuffer, env: Schema, f: Field, v: Value) returns (v': Value, e: Outcome)
    requires o.Valid() && f.kind.Bytes?
    modifies o`index
    ensures o.Valid() && Decoded(DecodeField(env, f, false, old(o.Rest()), v), old(o.index), o, e, v')
  {
    var r := o.DecodeRawBytes();
    if r.RawFail? {
      return v, Some(r.error);
    }
    return StoreBlob(f, v, r.b), None;
  }

  /** dec_struct_message and the message case of dec_slice_struct: the buffer is swapped for
      the embedded bytes and swapped back, whether or not they decode. */
  method DecMessage(o: DecodeBuffer, env: Schema, f: Field, v: Value) returns (v': Value, e: Outcome)
    requires o.Valid() && f.kind.Message?
    modifies o
    ensures o.Valid() && o.buf == old(o.buf)
    ensures Decoded(DecodeField(env, f, false, old(o.Rest()), v), old(o.index), o, e, v')
    ensures RawBytes(old(o.Rest())).RawOk? ==> o.index == old(o.index) + RawBytes(old(o.Rest())).n
    decreases |o.buf| - o.index, 2
  {
    var raw := o.DecodeRawBytes();
    if raw.RawFail? {
      return v, Some(raw.error);
    }
    var obuf, oi := o.buf, o.index;
    o.buf, o.index := raw.b, 0;
    assert o.Rest() == raw.b;
    var m;
    m, e := UnmarshalType(o, env, f.kind.typ, false, Target(env, f, v));
    o.buf, o.index := obuf, oi;
    v' := StoreChild(f, v, m);
  }

  /** dec_struct_group and the group case of dec_slice_struct. */
  method DecGroup(o: DecodeBuffer, env: Schema, f: Field, v: Value) returns (v': Value, e: Outcome)
    requires o.Valid() && f.kind.Group?
    modifies o
    ensures o.Valid() && o.buf == old(o.buf)
    ensures Decoded(DecodeField(env, f, false, old(o.Rest()), v), old(o.index), o, e, v')
    decreases |o.buf| - o.index, 2
  {
    var m;
    m, e := UnmarshalType(o, env, f.kind.typ, true, Target(env, f, v));
    v' := StoreChild(f, v, m);
  }

  /** The field decoder that setEncAndDec picked. */
  method DecField(o: DecodeBuffer, env: Schema, f: Field, packed: bool, v: Value) returns (v': Value, e: Outcome)
    requires o.Valid() && (packed ==> f.kind.Scalar?)
    modifies o
    ensures o.Valid() && o.buf == old(o.buf)
    ensures Decoded(DecodeField(env, f, packed, old(o.Rest()), v), old(o.index), o, e, v')
    decreases |o.buf| - o.index, 3
  {
    match f.kind
    case Scalar(_, _) => v', e := DecScalar(o, env, f, packed, v);
    case Bytes => v', e := DecBytes(o, env, f, v);
    case Message(_) => v', e := DecMessage(o, env, f, v);
    case Group(_) => v', e := DecGroup(o, env, f, v);
  }

  /** skipAndSave: step over the value, then append its tag, re-encoded, and its bytes to
      the struct's unrecognized bytes. */
  method SkipAndSave(o: DecodeBuffer, env: Schema, t: nat, u: uint64, m: Msg) returns (m': Msg, e: Outcome)
    requires o.Valid()
    modifies o
    ensures o.Valid() && o.buf == old(o.buf)
    ensures match Skip(old(o.Rest()), u % 8)
            case SkipFail(err) => e == Some(err)
            case SkipOk(k) =>
              e.None? && o.index == old(o.index) + k && m' == KeepUnknown(env, t, m, u, old(o.Rest())[..k])
  {
    var oi := o.index;
    e := o.SkipField(u % 8);
    if e.Some? || !KeepsUnknown(env, t) {
      return m, e;
    }
    var obuf := o.buf;
    o.buf := m.unknown;
    var code := Varint.EncodeVarint(u);
    o.buf := o.buf + code;
    var unknown := o.buf + obuf[oi..o.index];
    o.buf := obuf;
    assert old(o.Rest())[..o.index - oi] == obuf[oi..o.index];
    assert unknown == m.unknown + (Encode(u) + obuf[oi..o.index]);
    m' := m.(unknown := unknown);
  }

  /** unmarshalType ran as `spec` says. */
  ghost predicate Unmarshalled(spec: Result, from: nat, o: DecodeBuffer, e: Outcome, m: Msg)
    reads o
  {
    match spec
    case Hard(err) => e == Some(err)
    case Done(m', n, missing) => m == m' && o.index == from + n && e == Report(missing)
  }

  method CountRequired(fs: seq<Field>) returns (n: nat)
    ensures n == ReqCount(fs, 0)
  {
    n := 0;
    for i := 0 to |fs|
      invariant n + ReqCount(fs, i) == ReqCount(fs, 0)
    {
      if fs[i].presence.Required? {
        n := n + 1;
      }
    }
  }

  /** One round of unmarshalType's loop; `stop` says that it returns. */
  method UnmarshalRound(o: DecodeBuffer, env: Schema, t: nat, isGroup: bool, p: Progress)
    returns (p': Progress, stop: bool, e: Outcome)
    requires o.Valid() && o.index < |o.buf|
    modifies o
    ensures o.Valid() && o.buf == old(o.buf)
    ensures match UnmarshalStep(env, t, isGroup, old(o.Rest()), p)
            case Stop(r) => stop && Unmarshalled(r, old(o.index), o, e, p'.m)
            case Next(q, n) => !stop && p' == q && o.index == old(o.index) + n
    decreases |o.buf| - o.index, 0
  {
    p', stop := p, true;
    ghost var s := o.Rest();
    var u := o.DecodeVarint();
    if u.Fail? {
      e := Some(u.error);
      return;
    }
    assert s[u.n..] == o.Rest();
    var wire, tag := u.x % 8, u.x / 8;
    if wire == 4 {
      e := if isGroup then Report(p.required > 0) else Some(EndGroupOutsideGroup);
      return;
    }
    if tag == 0 {
      e := Some(IllegalTag);
      return;
    }
    var at := FindField(FieldsOf(env, t), tag, 0);
    if at.None? {
      var m;
      m, e := SkipAndSave(o, env, t, u.x, p.m);
      stop, p' := e.Some?, p.(m := m);
    } else {
      var f := FieldsOf(env, t)[at.value];
      if at.value >= |p.m.fields| || !(WireMatches(f, wire) || (wire == 2 && Packable(f))) {
        e := Some(BadWireType);
        return;
      }
      var v;
      v, e := DecField(o, env, f, !WireMatches(f, wire), p.m.fields[at.value]);
      if e.None? || e == Some(RequiredNotSet) {
        stop, p' := false, StoreField(p, f, at.value, v, e.Some?);
      }
    }
  }

  /** unmarshalType. */
  method UnmarshalType(o: DecodeBuffer, env: Schema, t: nat, isGroup: bool, base: Msg) returns (m: Msg, e: Outcome)
    requires o.Valid()
    modifies o
    ensures o.Valid() && o.buf == old(o.buf)
    ensures Unmarshalled(UnmarshalMsg(env, t, isGroup, old(o.Rest()), base), old(o.index), o, e, m)
    decreases |o.buf| - o.index, 1
  {
    var required := CountRequired(FieldsOf(env, t));
    var p := Progress(base, required, {}, false);
    hide UnmarshalStep, ReqCount, FieldsOf;
    ghost var whole := Unmarshal(env, t, isGroup, o.Rest(), p);
    while o.index < |o.buf|
      invariant o.Valid() && o.buf == old(o.buf) && old(o.index) <= o.index
      invariant whole == Later(Unmarshal(env, t, isGroup, o.Rest(), p), o.index - old(o.index))
      decreases |o.buf| - o.index
    {
      ghost var s, from, before := o.Rest(), o.index, p;
      var stop;
      p, stop, e := UnmarshalRound(o, env, t, isGroup, p);
      if stop {
        UnmarshalStop(env, t, isGroup, s, before);
        return p.m, e;
      }
      UnmarshalNext(env, t, isGroup, s, before, o.index - from, p);
      assert s[o.index - from..] == o.Rest();
    }
    m := p.m;
    e := if isGroup then Some(UnexpectedEOF) else Report(p.nested || p.required > 0);
  }
}
