/** Decoding inverts encoding (encode.go and decode.go of gogo/protobuf/proto together):
    every message that enc_struct accepts comes back from unmarshalType unchanged. */
module RoundTrip {
  import opened Words
  import opened Varint
  import opened Messages
  import opened Encoding
  import opened Skipping
  import opened Decoding
  import opened Merging

  // -------------------------------------------------- unrecognized fields

  /** u is a sequence of records as skipAndSave leaves them: a shortest tag of a field the
      type does not declare, then one skippable value. */
  ghost predicate UnknownRecords(fs: seq<Field>, u: seq<byte>)
    decreases |u|
  {
    u == [] ||
    match Decode(u)
    case Fail(_) => false
    case Ok(x, n) =>
      && u[..n] == Encode(x) && x % 8 != 4 && x / 8 > 0 && FindField(fs, x / 8, 0).None?
      && match Skip(u[n..], x % 8)
         case SkipFail(_) => false
         case SkipOk(k) => UnknownRecords(fs, u[n + k..])
  }

  // --------------------------------------------------- acceptable messages

  ghost predicate AcceptablePointer(env: Schema, f: Field, p: Pointer)
    decreases p
  {
    p.To? && AcceptableMsg(env, TypeOf(f.kind), p.m)
  }

  /** A typed value with every required field set and no nil element, at any depth. */
  ghost predicate AcceptableValue(env: Schema, f: Field, v: Value)
    decreases v
  {
    match v
    case Absent => f.presence.Optional?
    case Word(w) => !Plural(f.presence) && f.kind.Scalar? && FitsWord(f.kind.go, w)
    case Blob(b) => !Plural(f.presence) && f.kind.Bytes?
    case Child(m) =>
      !Plural(f.presence) && (f.kind.Message? || f.kind.Group?) && AcceptableMsg(env, TypeOf(f.kind), m)
    case Words(ws) => Plural(f.presence) && f.kind.Scalar? && forall i :: 0 <= i < |ws| ==> FitsWord(f.kind.go, ws[i])
    case Blobs(bs) => Plural(f.presence) && f.kind.Bytes?
    case Children(ms) =>
      && Plural(f.presence) && (f.kind.Message? || f.kind.Group?)
      && forall i :: 0 <= i < |ms| ==> AcceptablePointer(env, f, ms[i])
  }

  ghost predicate AcceptableMsg(env: Schema, t: nat, m: Msg)
    decreases m
  {
    && t < |env| && |m.fields| == |env[t].fields|
    && (forall i :: 0 <= i < |m.fields| ==> AcceptableValue(env, env[t].fields[i], m.fields[i]))
    && UnknownRecords(env[t].fields, m.unknown)
    && (!env[t].keepsUnknown ==> m.unknown == [])
  }

  // ----------------------------------------------------------- single steps

  /** Reading `bytes` in front of `tail` takes the loop of unmarshalType from p to q. */
  ghost predicate Takes(env: Schema, t: nat, isGroup: bool, bytes: seq<byte>, tail: seq<byte>, p: Progress, q: Progress) {
    Unmarshal(env, t, isGroup, bytes + tail, p) == Later(Unmarshal(env, t, isGroup, tail, q), |bytes|)
  }

  lemma {:induction false} TakesNothing(env: Schema, t: nat, isGroup: bool, tail: seq<byte>, p: Progress)
    ensures Takes(env, t, isGroup, [], tail, p, p)
  {
    assert [] + tail == tail;
  }

  lemma {:induction false} TakesThen(env: Schema, t: nat, isGroup: bool, a: seq<byte>, b: seq<byte>, tail: seq<byte>,
                  p: Progress, q: Progress, r: Progress)
    requires Takes(env, t, isGroup, a, b + tail, p, q) && Takes(env, t, isGroup, b, tail, q, r)
    ensures Takes(env, t, isGroup, a + b, tail, p, r)
  {
    hide Unmarshal;
    assert a + b + tail == a + (b + tail);
  }

  /** One tagged value at the front of the input is decoded and stored. */
  lemma {:induction false} StepField(env: Schema, t: nat, isGroup: bool, i: nat, wire: nat, body: seq<byte>, tail: seq<byte>,
                  p: Progress, v: Value, missing: bool)
    requires ValidSchema(env) && t < |env| && i < |env[t].fields| == |p.m.fields|
    requires wire == 3 || wire == WireType(env[t].fields[i].kind) || (wire == 2 && Packable(env[t].fields[i]))
    requires var f := env[t].fields[i];
             DecodeField(env, f, !WireMatches(f, wire), body + tail, p.m.fields[i]) == Got(v, |body|, missing)
    ensures var f := env[t].fields[i];
            var tag := Encode(8 * f.tag + wire);
            UnmarshalStep(env, t, isGroup, tag + (body + tail), p) ==
            Next(StoreField(p, f, i, v, missing), |tag| + |body|)
  {
    hide DecodeField, StoreField, Encode, Decode;
    var f := env[t].fields[i];
    assert ValidField(env, f);
    assert wire < 8;
    var u := 8 * f.tag + wire;
    var tag := Encode(u);
    DecodeEncode(u, body + tail);
    assert (tag + (body + tail))[|tag|..] == body + tail;
    assert u % 8 == wire && u / 8 == f.tag;
    FindFieldAt(env[t].fields, i, 0);
  }

  /** Which wire types go with a declared field: its own, packed bytes for a repeated number,
      and a start of a group for every field (a group itself is declared as bytes). */
  predicate Suits(f: Field, wire: nat) {
    || wire == 3
    || match f.kind
       case Scalar(_, Fixed64) => wire == 1 || (wire == 2 && Plural(f.presence))
       case Scalar(_, Fixed32) => wire == 5 || (wire == 2 && Plural(f.presence))
       case Scalar(_, _) => wire == 0 || (wire == 2 && Plural(f.presence))
       case _ => wire == 2
  }

  /** Any other wire type is an error, and these are not. */
  lemma {:induction false} WrongWire(env: Schema, t: nat, isGroup: bool, i: nat, wire: nat, s: seq<byte>, p: Progress)
    requires ValidSchema(env) && t < |env| && i < |env[t].fields| == |p.m.fields| && wire < 8 && wire != 4
    ensures var f := env[t].fields[i]; var r := UnmarshalStep(env, t, isGroup, Encode(8 * f.tag + wire) + s, p);
      && (!Suits(f, wire) ==> r == Stop(Hard(BadWireType)))
      && (Suits(f, wire) && (f.kind.Scalar? || f.kind.Bytes?) ==> r != Stop(Hard(BadWireType)))
  {
    hide Decode, Encode, Skip, DecodePacked, DecodeWord, RawBytes;
    var f := env[t].fields[i];
    assert ValidField(env, f);
    var u := 8 * f.tag + wire;
    DecodeEncode(u, s);
    assert (Encode(u) + s)[|Encode(u)|..] == s;
    assert u % 8 == wire && u / 8 == f.tag;
    FindFieldAt(env[t].fields, i, 0);
    NeverWire(f.kind, s, WordsOf(p.m.fields[i]));
  }

  lemma {:induction false} NeverWire(k: Kind, s: seq<byte>, ws: seq<uint64>)
    ensures RawBytes(s).RawFail? ==> RawBytes(s).error != BadWireType
    ensures k.Scalar? && DecodePacked(k, s, ws).PackedFail? ==> DecodePacked(k, s, ws).error != BadWireType
  {
    if k.Scalar? && Decode(s).Ok? {
      NeverWireLoop(k, s[Decode(s).n..], Decode(s).x, ws);
    }
  }

  lemma {:induction false} NeverWireLoop(k: Kind, s: seq<byte>, left: int, ws: seq<uint64>)
    requires k.Scalar?
    ensures PackedLoop(k, s, left, ws).PackedFail? ==> PackedLoop(k, s, left, ws).error != BadWireType
    decreases |s|
  {
    hide DecodeWord, Narrow;
    if left > 0 && DecodeWord(k.coding, s).Ok? {
      var r := DecodeWord(k.coding, s);
      NeverWireLoop(k, s[r.n..], left - r.n, ws + [Narrow(k.go, r.x)]);
    }
  }

  lemma {:induction false} TakeTagged(env: Schema, t: nat, isGroup: bool, i: nat, wire: nat, body: seq<byte>, tail: seq<byte>,
                   p: Progress, v: Value, missing: bool)
    requires ValidSchema(env) && t < |env| && i < |env[t].fields| == |p.m.fields|
    requires wire == 3 || wire == WireType(env[t].fields[i].kind) || (wire == 2 && Packable(env[t].fields[i]))
    requires var f := env[t].fields[i];
             DecodeField(env, f, !WireMatches(f, wire), body + tail, p.m.fields[i]) == Got(v, |body|, missing)
    ensures var f := env[t].fields[i];
            Takes(env, t, isGroup, Encode(8 * f.tag + wire) + body, tail, p, StoreField(p, f, i, v, missing))
  {
    hide Unmarshal, UnmarshalStep, DecodeField, Encode, StoreField;
    StepField(env, t, isGroup, i, wire, body, tail, p, v, missing);
    var f := env[t].fields[i];
    var tag := Encode(8 * f.tag + wire);
    var s := tag + (body + tail);
    assert |tag| > 0 by {
      EncodeNotEmpty(8 * f.tag + wire);
    }
    UnmarshalNext(env, t, isGroup, s, p, |tag| + |body|, StoreField(p, f, i, v, missing));
    assert s[|tag| + |body|..] == tail;
    assert tag + body + tail == s;
  }

  /** The usual case: nothing was missing in the field. */
  lemma {:induction false} TakeField(env: Schema, t: nat, isGroup: bool, i: nat, wire: nat, body: seq<byte>, tail: seq<byte>,
                  p: Progress, v: Value)
    requires ValidSchema(env) && t < |env| && i < |env[t].fields| == |p.m.fields|
    requires wire == 3 || wire == WireType(env[t].fields[i].kind) || (wire == 2 && Packable(env[t].fields[i]))
    requires var f := env[t].fields[i];
             DecodeField(env, f, !WireMatches(f, wire), body + tail, p.m.fields[i]) == Got(v, |body|, false)
    ensures var f := env[t].fields[i];
            Takes(env, t, isGroup, Encode(8 * f.tag + wire) + body, tail, p, StoreField(p, f, i, v, false))
  {
    hide Takes, DecodeField, Encode, StoreField;
    TakeTagged(env, t, isGroup, i, wire, body, tail, p, v, false);
  }

  lemma {:induction false} EncodeNotEmpty(x: nat)
    ensures |Encode(x)| > 0
  {
  }

  /** A length-delimited value is read back, whatever follows it. */
  lemma {:induction false} RawRoundTrip(b: seq<byte>, tail: seq<byte>)
    requires |b| < 0x8000_0000_0000_0000
    ensures RawBytes(EncodeRaw(b) + tail) == RawOk(b, |EncodeRaw(b)|)
  {
    assert EncodeRaw(b) + tail == Encode(|b|) + (b + tail);
    DecodeEncode(|b|, b + tail);
  }

  // --------------------------------------------------------- repeated fields

  /** p with field i holding v; a plural field never counts as required. */
  function SetField(p: Progress, i: nat, v: Value): Progress
    requires i < |p.m.fields|
  {
    p.(m := p.m.(fields := p.m.fields[i := v]))
  }

  lemma {:induction false} SetFieldTwice(p: Progress, i: nat, v: Value, w: Value)
    requires i < |p.m.fields|
    ensures SetField(SetField(p, i, v), i, w) == SetField(p, i, w)
    ensures p.m.fields[i] == v ==> SetField(p, i, v) == p
  {
  }

  lemma {:induction false} StoreIsSet(p: Progress, f: Field, i: nat, v: Value)
    requires i < |p.m.fields| && !f.presence.Required?
    ensures StoreField(p, f, i, v, false) == SetField(p, i, v)
  {
  }

  /** The field as one whose elements are written one by one. */
  function Unpacked(f: Field): Field {
    f.(presence := Repeated)
  }

  lemma {:induction false} TakeWords(env: Schema, t: nat, isGroup: bool, i: nat, ws: seq<uint64>, j: nat,
                                     tail: seq<byte>, p: Progress)
    requires ValidSchema(env) && t < |env| && i < |env[t].fields| == |p.m.fields| && j <= |ws|
    requires Plural(env[t].fields[i].presence) && env[t].fields[i].kind.Scalar?
    requires forall k :: 0 <= k < |ws| ==> FitsWord(env[t].fields[i].kind.go, ws[k])
    requires p.m.fields[i].Words?
    ensures Takes(env, t, isGroup, EncodeWords(Unpacked(env[t].fields[i]), ws, j), tail, p,
                  SetField(p, i, Words(p.m.fields[i].ws + ws[j..])))
    decreases |ws| - j
  {
    hide Takes, DecodeWord, Narrow, SetField, EncodeScalar;
    var f, got := env[t].fields[i], p.m.fields[i].ws;
    assert ValidField(env, f);
    if j == |ws| {
      assert got + ws[j..] == got;
      SetFieldTwice(p, i, Words(got), Words(got));
      TakesNothing(env, t, isGroup, tail, p);
    } else {
      var body, rest, more := EncodeScalar(f.kind, ws[j]), EncodeWords(Unpacked(f), ws, j + 1), Words(got + [ws[j]]);
      var q := SetField(p, i, more);
      ScalarRead(env, f, ws[j], got, rest + tail);
      TakeField(env, t, isGroup, i, WireType(f.kind), body, rest + tail, p, more);
      StoreIsSet(p, f, i, more);
      SetFieldAt(p, i, more);
      TakeWords(env, t, isGroup, i, ws, j + 1, tail, q);
      assert got + [ws[j]] + ws[j + 1..] == got + ws[j..];
      SetFieldTwice(p, i, more, Words(got + ws[j..]));
      TakesThen(env, t, isGroup, TagCode(Unpacked(f)) + body, rest, tail, p, q, SetField(p, i, Words(got + ws[j..])));
    }
  }

  lemma {:induction false} SetFieldAt(p: Progress, i: nat, v: Value)
    requires i < |p.m.fields|
    ensures |SetField(p, i, v).m.fields| == |p.m.fields| && SetField(p, i, v).m.fields[i] == v
  {
  }

  /** An element of a repeated numeric field is read and appended. */
  lemma {:induction false} ScalarRead(env: Schema, f: Field, w: uint64, got: seq<uint64>, tail: seq<byte>)
    requires ValidField(env, f) && Plural(f.presence) && f.kind.Scalar? && FitsWord(f.kind.go, w)
    ensures DecodeField(env, f, false, EncodeScalar(f.kind, w) + tail, Words(got)) ==
            Got(Words(got + [w]), |EncodeScalar(f.kind, w)|, false)
  {
    WordRoundTrip(f.kind.go, f.kind.coding, w, tail);
    hide DecodeWord, Narrow;
  }

  lemma {:induction false} WordRead(env: Schema, f: Field, w: uint64, tail: seq<byte>, was: Value)
    requires ValidField(env, f) && !Plural(f.presence) && f.kind.Scalar? && FitsWord(f.kind.go, w)
    ensures DecodeField(env, f, false, EncodeScalar(f.kind, w) + tail, was) ==
            Got(Word(w), |EncodeScalar(f.kind, w)|, false)
  {
    WordRoundTrip(f.kind.go, f.kind.coding, w, tail);
    hide DecodeWord, Narrow;
  }

  lemma {:induction false} TakeBlobs(env: Schema, t: nat, isGroup: bool, i: nat, bs: seq<seq<byte>>, j: nat,
                                     tail: seq<byte>, p: Progress)
    requires ValidSchema(env) && t < |env| && i < |env[t].fields| == |p.m.fields| && j <= |bs|
    requires Plural(env[t].fields[i].presence) && env[t].fields[i].kind.Bytes?
    requires |EncodeBlobs(env[t].fields[i], bs, j)| < 0x8000_0000_0000_0000
    requires p.m.fields[i].Blobs?
    ensures Takes(env, t, isGroup, EncodeBlobs(env[t].fields[i], bs, j), tail, p,
                  SetField(p, i, Blobs(p.m.fields[i].bs + bs[j..])))
    decreases |bs| - j
  {
    hide Takes, SetField;
    var f, got := env[t].fields[i], p.m.fields[i].bs;
    assert ValidField(env, f);
    if j == |bs| {
      assert got + bs[j..] == got;
      SetFieldTwice(p, i, Blobs(got), Blobs(got));
      TakesNothing(env, t, isGroup, tail, p);
    } else {
      var body, rest, more := EncodeRaw(bs[j]), EncodeBlobs(f, bs, j + 1), Blobs(got + [bs[j]]);
      var q := SetField(p, i, more);
      RawRoundTrip(bs[j], rest + tail);
      TakeField(env, t, isGroup, i, 2, body, rest + tail, p, more);
      StoreIsSet(p, f, i, more);
      SetFieldAt(p, i, more);
      TakeBlobs(env, t, isGroup, i, bs, j + 1, tail, q);
      assert got + [bs[j]] + bs[j + 1..] == got + bs[j..];
      SetFieldTwice(p, i, more, Blobs(got + bs[j..]));
      TakesThen(env, t, isGroup, TagCode(f) + body, rest, tail, p, q, SetField(p, i, Blobs(got + bs[j..])));
    }
  }

  /** A packed loop that is given exactly the bytes of ws from the j-th on reads them all. */
  lemma {:induction false} PackedRoundTrip(k: Kind, ws: seq<uint64>, j: nat, tail: seq<byte>, got: seq<uint64>)
    requires k.Scalar? && LegalScalar(k.go, k.coding) && j <= |ws|
    requires forall i :: 0 <= i < |ws| ==> FitsWord(k.go, ws[i])
    ensures var bytes := EncodePacked(k, ws, j);
            PackedLoop(k, bytes + tail, |bytes|, got) == PackedOk(got + ws[j..], |bytes|)
    decreases |ws| - j
  {
    hide DecodeWord, Narrow, EncodeWord, Widen;
    if j == |ws| {
      assert got + ws[j..] == got;
    } else {
      var body, rest := EncodeScalar(k, ws[j]), EncodePacked(k, ws, j + 1) + tail;
      WordRoundTrip(k.go, k.coding, ws[j], rest);
      assert EncodePacked(k, ws, j) + tail == body + rest;
      assert (body + rest)[|body|..] == rest;
      PackedRoundTrip(k, ws, j + 1, tail, got + [ws[j]]);
      assert got + [ws[j]] + ws[j + 1..] == got + ws[j..];
    }
  }

  lemma {:induction false} TakePacked(env: Schema, t: nat, isGroup: bool, i: nat, ws: seq<uint64>, tail: seq<byte>, p: Progress)
    requires ValidSchema(env) && t < |env| && i < |env[t].fields| == |p.m.fields|
    requires Plural(env[t].fields[i].presence) && env[t].fields[i].kind.Scalar?
    requires forall k :: 0 <= k < |ws| ==> FitsWord(env[t].fields[i].kind.go, ws[k])
    requires |EncodePacked(env[t].fields[i].kind, ws, 0)| < 0x8000_0000_0000_0000
    requires p.m.fields[i].Words?
    ensures var f := env[t].fields[i];
            Takes(env, t, isGroup, Encode(8 * f.tag + 2) + EncodeRaw(EncodePacked(f.kind, ws, 0)), tail,
                  p, SetField(p, i, Words(p.m.fields[i].ws + ws)))
  {
    hide Takes, DecodePacked, EncodePacked, EncodeRaw, Encode;
    var f, got := env[t].fields[i], p.m.fields[i].ws;
    assert ValidField(env, f);
    var payload := EncodePacked(f.kind, ws, 0);
    PackedRead(f.kind, ws, tail, got);
    TakeField(env, t, isGroup, i, 2, EncodeRaw(payload), tail, p, Words(got + ws));
  }

  lemma {:induction false} PackedRead(k: Kind, ws: seq<uint64>, tail: seq<byte>, got: seq<uint64>)
    requires k.Scalar? && LegalScalar(k.go, k.coding)
    requires forall i :: 0 <= i < |ws| ==> FitsWord(k.go, ws[i])
    requires |EncodePacked(k, ws, 0)| < 0x8000_0000_0000_0000
    ensures var body := EncodeRaw(EncodePacked(k, ws, 0));
            DecodePacked(k, body + tail, got) == PackedOk(got + ws, |body|)
  {
    hide PackedLoop;
    var payload := EncodePacked(k, ws, 0);
    var l := Encode(|payload|);
    PackedRoundTrip(k, ws, 0, tail, got);
    DecodeEncode(|payload|, payload + tail);
    assert EncodeRaw(payload) + tail == l + (payload + tail);
    assert (l + (payload + tail))[|l|..] == payload + tail;
    assert ws[0..] == ws;
  }

  /** A repeated numeric field is read alike from one packed value and from its elements one
      by one, whichever of them the schema declares. */
  lemma {:induction false} PackedOrNot(env: Schema, t: nat, isGroup: bool, i: nat, ws: seq<uint64>, tail: seq<byte>, p: Progress)
    requires ValidSchema(env) && t < |env| && i < |env[t].fields| == |p.m.fields|
    requires Plural(env[t].fields[i].presence) && env[t].fields[i].kind.Scalar?
    requires forall k :: 0 <= k < |ws| ==> FitsWord(env[t].fields[i].kind.go, ws[k])
    requires |EncodePacked(env[t].fields[i].kind, ws, 0)| < 0x8000_0000_0000_0000
    requires p.m.fields[i].Words?
    ensures var f, q := env[t].fields[i], p.(m := p.m.(fields := p.m.fields[i := Words(p.m.fields[i].ws + ws)]));
            && Takes(env, t, isGroup, EncodeWords(f.(presence := Repeated), ws, 0), tail, p, q)
            && Takes(env, t, isGroup, Encode(8 * f.tag + 2) + EncodeRaw(EncodePacked(f.kind, ws, 0)), tail, p, q)
  {
    hide Takes;
    assert ws[0..] == ws;
    TakeWords(env, t, isGroup, i, ws, 0, tail, p);
    TakePacked(env, t, isGroup, i, ws, tail, p);
  }

  // --------------------------------------------------------- unknown fields

  /** p with u added to the unrecognized bytes of its struct. */
  function WithUnknown(p: Progress, u: seq<byte>): Progress {
    p.(m := p.m.(unknown := p.m.unknown + u))
  }

  lemma {:induction false} WithUnknownTwice(p: Progress, u: seq<byte>, v: seq<byte>)
    ensures WithUnknown(WithUnknown(p, u), v) == WithUnknown(p, u + v)
    ensures WithUnknown(p, []) == p
  {
    assert p.m.unknown + (u + v) == p.m.unknown + u + v;
    assert p.m.unknown + [] == p.m.unknown;
  }

  /** The unrecognized bytes of a struct are collected again, in order. */
  lemma {:induction false} TakeUnknown(env: Schema, t: nat, isGroup: bool, u: seq<byte>, tail: seq<byte>, p: Progress)
    requires t < |env| && env[t].keepsUnknown && UnknownRecords(env[t].fields, u)
    ensures Takes(env, t, isGroup, u, tail, p, WithUnknown(p, u))
    decreases |u|
  {
    hide Takes, UnknownRecords, WithUnknown, FirstRecord;
    WithUnknownTwice(p, [], []);
    if u == [] {
      TakesNothing(env, t, isGroup, tail, p);
    } else {
      AfterFirst(env[t].fields, u);
      var k := FirstRecord(env[t].fields, u);
      var head, rest := u[..k], u[k..];
      TakeRecord(env, t, isGroup, u, rest + tail, p);
      TakeUnknown(env, t, isGroup, rest, tail, WithUnknown(p, head));
      WithUnknownTwice(p, head, rest);
      assert u == head + rest;
      TakesThen(env, t, isGroup, head, rest, tail, p, WithUnknown(p, head), WithUnknown(p, u));
    }
  }

  /** The length of the first unknown record. */
  ghost function FirstRecord(fs: seq<Field>, u: seq<byte>): (k: nat)
    requires u != [] && UnknownRecords(fs, u)
    ensures 1 <= k <= |u|
  {
    var n := Decode(u).n;
    n + Skip(u[n..], Decode(u).x % 8).n
  }

  lemma {:induction false} AfterFirst(fs: seq<Field>, u: seq<byte>)
    requires u != [] && UnknownRecords(fs, u)
    ensures UnknownRecords(fs, u[FirstRecord(fs, u)..])
  {
    hide Decode, Skip, Encode, FindField;
  }

  lemma {:induction false} TakeRecord(env: Schema, t: nat, isGroup: bool, u: seq<byte>, more: seq<byte>, p: Progress)
    requires t < |env| && env[t].keepsUnknown && u != [] && UnknownRecords(env[t].fields, u)
    ensures var head := u[..FirstRecord(env[t].fields, u)];
            Takes(env, t, isGroup, head, more, p, WithUnknown(p, head))
  {
    UnknownStep(env, t, isGroup, u, more, p);
    hide UnmarshalStep, Unmarshal, UnknownRecords, Decode, Skip;
    var k := FirstRecord(env[t].fields, u);
    assert (u[..k] + more)[k..] == more;
    UnmarshalNext(env, t, isGroup, u[..k] + more, p, k, WithUnknown(p, u[..k]));
  }

  /** The first unknown record is a shortest tag and one value. */
  lemma {:induction false} RecordParts(fs: seq<Field>, u: seq<byte>) returns (x: uint64, value: seq<byte>)
    requires u != [] && UnknownRecords(fs, u)
    ensures x % 8 != 4 && x / 8 > 0 && FindField(fs, x / 8, 0).None?
    ensures Skip(value, x % 8) == SkipOk(|value|)
    ensures u[..FirstRecord(fs, u)] == Encode(x) + value
  {
    var n := Decode(u).n;
    x := Decode(u).x;
    var k := Skip(u[n..], x % 8).n;
    value := u[n..][..k];
    SkipPrefix(u[n..], x % 8, []);
    hide Decode, Skip, Encode;
    assert value + [] == value;
    assert u[..n + k] == u[..n] + value;
  }

  lemma {:induction false} UnknownStep(env: Schema, t: nat, isGroup: bool, u: seq<byte>, more: seq<byte>, p: Progress)
    requires t < |env| && env[t].keepsUnknown && u != [] && UnknownRecords(env[t].fields, u)
    ensures var k := FirstRecord(env[t].fields, u);
            UnmarshalStep(env, t, isGroup, u[..k] + more, p) == Next(WithUnknown(p, u[..k]), k)
  {
    hide UnmarshalStep, FirstRecord, UnknownRecords, WithUnknown, Encode, Skip, FindField;
    var x, value := RecordParts(env[t].fields, u);
    StepUnknown(env, t, isGroup, x, value, more, p);
    assert Encode(x) + value + more == Encode(x) + (value + more);
  }

  /** A tag the type does not declare and its value are kept. */
  lemma {:induction false} StepUnknown(env: Schema, t: nat, isGroup: bool, x: uint64, value: seq<byte>, more: seq<byte>, p: Progress)
    requires t < |env| && env[t].keepsUnknown
    requires x % 8 != 4 && x / 8 > 0 && FindField(env[t].fields, x / 8, 0).None?
    requires Skip(value, x % 8) == SkipOk(|value|)
    ensures UnmarshalStep(env, t, isGroup, Encode(x) + (value + more), p) ==
            Next(WithUnknown(p, Encode(x) + value), |Encode(x)| + |value|)
  {
    DecodeEncode(x, value + more);
    SkipPrefix(value, x % 8, more);
    hide Decode, Encode, Skip;
    var s := Encode(x) + (value + more);
    assert value[..|value|] == value;
    assert s[|Encode(x)|..] == value + more;
    assert (value + more)[..|value|] == value;
  }

  // ------------------------------------------------------- merging

  /** Acceptable values are typed. */
  lemma {:induction false} AcceptableTyped(env: Schema, t: nat, m: Msg)
    requires AcceptableMsg(env, t, m)
    ensures TypedMsg(env, t, m)
    decreases m, 1
  {
    forall i | 0 <= i < |m.fields| ensures TypedValue(env, env[t].fields[i], m.fields[i]) {
      AcceptableTypedValue(env, env[t].fields[i], m.fields[i]);
    }
  }

  lemma {:induction false} AcceptableTypedValue(env: Schema, f: Field, v: Value)
    requires AcceptableValue(env, f, v)
    ensures TypedValue(env, f, v)
    decreases v, 0
  {
    match v
    case Child(m) => AcceptableTyped(env, f.kind.typ, m);
    case Children(ms) =>
      forall i | 0 <= i < |ms| && ms[i].To? ensures TypedMsg(env, f.kind.typ, ms[i].m) {
        assert AcceptablePointer(env, f, ms[i]);
        AcceptableTyped(env, f.kind.typ, ms[i].m);
      }
    case _ =>
  }

  /** A struct field is read into the struct that is there, or into a fresh one. */
  lemma {:induction false} TakeChild(env: Schema, t: nat, isGroup: bool, i: nat, m: Msg, tail: seq<byte>, p: Progress)
    requires ValidSchema(env) && t < |env| && i < |env[t].fields| == |p.m.fields|
    requires var f := env[t].fields[i];
             (f.kind.Message? || f.kind.Group?) && AcceptableMsg(env, f.kind.typ, m)
             && TypedMsg(env, f.kind.typ, Target(env, f, p.m.fields[i]))
             && |EncodeChild(env, f, m)| < 0x8000_0000_0000_0000
    ensures var f, was := env[t].fields[i], p.m.fields[i];
            Takes(env, t, isGroup, EncodeChild(env, f, m), tail, p,
                  StoreField(p, f, i, StoreChild(f, was, MergeMsg(env, f.kind.typ, Target(env, f, was), m)), false))
    decreases m, 2
  {
    hide Takes, Target, MergeMsg, StoreChild, StoreField, AcceptableMsg, TypedMsg, Encode, EncodeMsg;
    var f, was := env[t].fields[i], p.m.fields[i];
    assert ValidField(env, f);
    var into := Target(env, f, was);
    var body, merged := EncodeMsg(env, f.kind.typ, m), MergeMsg(env, f.kind.typ, into, m);
    if f.kind.Group? {
      var q := TakeMsg(env, f.kind.typ, m, true, EndTag(f) + tail, into);
      GroupRead(env, f, m, tail, q, was);
      TakeField(env, t, isGroup, i, 3, body + EndTag(f), tail, p, StoreChild(f, was, merged));
      assert StartTag(f) + (body + EndTag(f)) == StartTag(f) + body + EndTag(f);
    } else {
      var q := TakeMsg(env, f.kind.typ, m, false, [], into);
      MessageRead(env, f, m, tail, q, was);
      TakeField(env, t, isGroup, i, 2, EncodeRaw(body), tail, p, StoreChild(f, was, merged));
    }
  }

  lemma {:induction false} MessageRead(env: Schema, f: Field, m: Msg, tail: seq<byte>, q: Progress, was: Value)
    requires f.kind.Message?
    requires |EncodeMsg(env, f.kind.typ, m)| < 0x8000_0000_0000_0000
    requires Takes(env, f.kind.typ, false, EncodeMsg(env, f.kind.typ, m), [], Start(env, f.kind.typ, Target(env, f, was)), q)
    requires q.required <= 0 && !q.nested
    ensures var body := EncodeRaw(EncodeMsg(env, f.kind.typ, m));
            DecodeField(env, f, false, body + tail, was) == Got(StoreChild(f, was, q.m), |body|, false)
  {
    var body := EncodeMsg(env, f.kind.typ, m);
    RawRoundTrip(body, tail);
    assert body + [] == body;
    assert UnmarshalMsg(env, f.kind.typ, false, body, Target(env, f, was)) == Done(q.m, |body|, false);
  }

  lemma {:induction false} GroupRead(env: Schema, f: Field, m: Msg, tail: seq<byte>, q: Progress, was: Value)
    requires f.kind.Group? && 1 <= f.tag < 0x2000_0000
    requires Takes(env, f.kind.typ, true, EncodeMsg(env, f.kind.typ, m), EndTag(f) + tail,
                   Start(env, f.kind.typ, Target(env, f, was)), q)
    requires q.required <= 0
    ensures var body := EncodeMsg(env, f.kind.typ, m) + EndTag(f);
            DecodeField(env, f, false, body + tail, was) == Got(StoreChild(f, was, q.m), |body|, false)
  {
    GroupDone(env, f, EncodeMsg(env, f.kind.typ, m), tail, Target(env, f, was), q);
    hide UnmarshalMsg, EncodeMsg, EndTag, Empty, StoreChild, Target;
  }

  lemma {:induction false} GroupDone(env: Schema, f: Field, body: seq<byte>, tail: seq<byte>, into: Msg, q: Progress)
    requires f.kind.Group? && 1 <= f.tag < 0x2000_0000
    requires Takes(env, f.kind.typ, true, body, EndTag(f) + tail, Start(env, f.kind.typ, into), q)
    requires q.required <= 0
    ensures var bytes := body + EndTag(f);
            UnmarshalMsg(env, f.kind.typ, true, bytes + tail, into) == Done(q.m, |bytes|, false)
  {
    hide Unmarshal, EndTag, FieldsOf, ReqCount;
    StopAtEnd(env, f.kind.typ, f, tail, q);
    var end := EndTag(f);
    assert body + end + tail == body + (end + tail);
    assert Unmarshal(env, f.kind.typ, true, body + end + tail, Start(env, f.kind.typ, into)) ==
           Later(Done(q.m, |end|, false), |body|);
  }

  /** An end-group tag ends a group. */
  lemma {:induction false} StopAtEnd(env: Schema, t: nat, f: Field, tail: seq<byte>, q: Progress)
    requires 1 <= f.tag < 0x2000_0000
    ensures Unmarshal(env, t, true, EndTag(f) + tail, q) == Done(q.m, |EndTag(f)|, q.required > 0)
  {
    EncodeNotEmpty(8 * f.tag + 4);
    DecodeEncode(8 * f.tag + 4, tail);
    hide Encode, Decode, Unmarshal, UnmarshalStep;
    StepAtEnd(env, t, EndTag(f) + tail, q);
    UnmarshalStop(env, t, true, EndTag(f) + tail, q);
  }

  lemma {:induction false} StepAtEnd(env: Schema, t: nat, s: seq<byte>, q: Progress)
    requires Decode(s).Ok? && Decode(s).x % 8 == 4
    ensures UnmarshalStep(env, t, true, s, q) == Stop(Done(q.m, Decode(s).n, q.required > 0))
  {
    hide Decode, DecodeField, Skip, FindField, StoreField, KeepUnknown;
  }

  lemma {:induction false} TakeChildren(env: Schema, t: nat, isGroup: bool, i: nat, ms: seq<Pointer>, j: nat,
                                        tail: seq<byte>, p: Progress)
    requires ValidSchema(env) && t < |env| && i < |env[t].fields| == |p.m.fields| && j <= |ms|
    requires var f := env[t].fields[i];
             Plural(f.presence) && (f.kind.Message? || f.kind.Group?)
             && (forall k :: 0 <= k < |ms| ==> AcceptablePointer(env, f, ms[k]))
             && |EncodeChildren(env, f, ms, j)| < 0x8000_0000_0000_0000
    requires p.m.fields[i].Children?
    ensures Takes(env, t, isGroup, EncodeChildren(env, env[t].fields[i], ms, j), tail, p,
                  SetField(p, i, Children(p.m.fields[i].ms + ms[j..])))
    decreases ms, 3, |ms| - j
  {
    hide Takes, SetField, EncodeChild;
    var f, got := env[t].fields[i], p.m.fields[i].ms;
    if j == |ms| {
      assert got + ms[j..] == got;
      SetFieldTwice(p, i, Children(got), Children(got));
      TakesNothing(env, t, isGroup, tail, p);
    } else {
      var rest, more := EncodeChildren(env, f, ms, j + 1), Children(got + [ms[j]]);
      var q := SetField(p, i, more);
      TakePointer(env, t, isGroup, i, ms[j], rest + tail, p);
      SetFieldAt(p, i, more);
      TakeChildren(env, t, isGroup, i, ms, j + 1, tail, q);
      assert got + [ms[j]] + ms[j + 1..] == got + ms[j..];
      SetFieldTwice(p, i, more, Children(got + ms[j..]));
      TakesThen(env, t, isGroup, EncodePointer(env, f, ms[j]), rest, tail, p, q, SetField(p, i, Children(got + ms[j..])));
    }
  }

  lemma {:induction false} TakePointer(env: Schema, t: nat, isGroup: bool, i: nat, x: Pointer, tail: seq<byte>, p: Progress)
    requires ValidSchema(env) && t < |env| && i < |env[t].fields| == |p.m.fields|
    requires var f := env[t].fields[i];
             Plural(f.presence) && (f.kind.Message? || f.kind.Group?) && AcceptablePointer(env, f, x)
             && |EncodePointer(env, f, x)| < 0x8000_0000_0000_0000
    requires p.m.fields[i].Children?
    ensures Takes(env, t, isGroup, EncodePointer(env, env[t].fields[i], x), tail, p,
                  SetField(p, i, Children(p.m.fields[i].ms + [x])))
    decreases x, 4
  {
    hide Takes, MergeMsg;
    var f := env[t].fields[i];
    assert ValidField(env, f);
    EmptyTyped(env, f.kind.typ);
    TakeChild(env, t, isGroup, i, x.m, tail, p);
    AcceptableTyped(env, f.kind.typ, x.m);
    MergeEmpty(env, f.kind.typ, x.m);
    assert x == To(x.m);
    StoreIsSet(p, f, i, Children(p.m.fields[i].ms + [x]));
  }

  /** A singular struct field is merged into the one that is there. */
  lemma {:induction false} TakeStruct(env: Schema, t: nat, isGroup: bool, i: nat, m: Msg, tail: seq<byte>, p: Progress)
    requires ValidSchema(env) && t < |env| && i < |env[t].fields| == |p.m.fields|
    requires AcceptableValue(env, env[t].fields[i], Child(m)) && TypedValue(env, env[t].fields[i], p.m.fields[i])
    requires |EncodeField(env, env[t].fields[i], Child(m))| < 0x8000_0000_0000_0000
    ensures var f := env[t].fields[i];
            Takes(env, t, isGroup, EncodeField(env, f, Child(m)), tail, p,
                  StoreField(p, f, i, MergeValue(env, f, p.m.fields[i], Child(m)), false))
    decreases m, 3
  {
    hide Takes, EncodeChild, MergeMsg, TypedMsg, AcceptableMsg;
    var f, was := env[t].fields[i], p.m.fields[i];
    assert ValidField(env, f);
    EmptyTyped(env, f.kind.typ);
    AcceptableTyped(env, f.kind.typ, m);
    MergeEmpty(env, f.kind.typ, m);
    TakeChild(env, t, isGroup, i, m, tail, p);
  }

  /** A singular number or byte string takes the place of what was there. */
  lemma {:induction false} TakePlain(env: Schema, t: nat, isGroup: bool, i: nat, v: Value, tail: seq<byte>, p: Progress)
    requires ValidSchema(env) && t < |env| && i < |env[t].fields| == |p.m.fields|
    requires AcceptableValue(env, env[t].fields[i], v) && (v.Word? || v.Blob?)
    requires env[t].fields[i].presence.Implicit? ==> v != Word(0) && v != Blob([])
    requires |EncodeField(env, env[t].fields[i], v)| < 0x8000_0000_0000_0000
    ensures var f := env[t].fields[i]; Takes(env, t, isGroup, EncodeField(env, f, v), tail, p, StoreField(p, f, i, v, false))
  {
    hide Takes, DecodeWord, Narrow, RawBytes, EncodeScalar;
    var f := env[t].fields[i];
    assert ValidField(env, f);
    if v.Word? {
      WordRead(env, f, v.w, tail, p.m.fields[i]);
      TakeField(env, t, isGroup, i, WireType(f.kind), EncodeScalar(f.kind, v.w), tail, p, v);
    } else {
      RawRoundTrip(v.b, tail);
      TakeField(env, t, isGroup, i, 2, EncodeRaw(v.b), tail, p, v);
    }
  }

  /** p and q before and after a field has been read: its value, and what it does to the counter. */
  predicate Stored(env: Schema, f: Field, i: nat, v: Value, p: Progress, q: Progress)
    requires i < |p.m.fields|
  {
    && q.m == p.m.(fields := p.m.fields[i := v]) && q.nested == p.nested
    && q.required <= p.required && q.seen <= p.seen + {f.tag}
    && (f.tag !in p.seen ==> q.required == p.required - (if f.presence.Required? then 1 else 0))
  }

  lemma {:induction false} AppendNothing(v: Value)
    ensures v.Words? ==> v.ws + [] == v.ws
    ensures v.Blobs? ==> v.bs + [] == v.bs
    ensures v.Children? ==> v.ms + [] == v.ms
  {
  }

  /** One field of the schema is written and read into a struct that may hold it already. */
  lemma {:induction false} TakeValue(env: Schema, t: nat, isGroup: bool, i: nat, v: Value, tail: seq<byte>, p: Progress)
    returns (q: Progress)
    requires ValidSchema(env) && t < |env| && i < |env[t].fields| == |p.m.fields|
    requires AcceptableValue(env, env[t].fields[i], v) && TypedValue(env, env[t].fields[i], p.m.fields[i])
    requires |EncodeField(env, env[t].fields[i], v)| < 0x8000_0000_0000_0000
    ensures var f := env[t].fields[i];
            && Takes(env, t, isGroup, EncodeField(env, f, v), tail, p, q)
            && Stored(env, f, i, MergeValue(env, f, p.m.fields[i], v), p, q)
    decreases v, 5
  {
    hide Takes, EncodeScalar, EncodeChild, MergeMsg, Encode;
    var f, was := env[t].fields[i], p.m.fields[i];
    assert ValidField(env, f);
    var merged := MergeValue(env, f, was, v);
    AppendNothing(was);
    q := p;
    if EncodeField(env, f, v) == [] && merged == was && !f.presence.Required? {
      assert p.m.fields[i := was] == p.m.fields;
      TakesNothing(env, t, isGroup, tail, p);
    } else {
      match v
      case Word(_) =>
        TakePlain(env, t, isGroup, i, v, tail, p);
        q := StoreField(p, f, i, v, false);
      case Blob(_) =>
        TakePlain(env, t, isGroup, i, v, tail, p);
        q := StoreField(p, f, i, v, false);
      case Child(m) =>
        TakeStruct(env, t, isGroup, i, m, tail, p);
        q := StoreField(p, f, i, merged, false);
      case Words(ws) =>
        assert was.ws + ws[0..] == was.ws + ws;
        q := SetField(p, i, merged);
        if f.presence.Packed? {
          TakePacked(env, t, isGroup, i, ws, tail, p);
        } else {
          assert Unpacked(f) == f;
          TakeWords(env, t, isGroup, i, ws, 0, tail, p);
        }
      case Blobs(bs) =>
        assert was.bs + bs[0..] == was.bs + bs;
        q := SetField(p, i, merged);
        TakeBlobs(env, t, isGroup, i, bs, 0, tail, p);
      case Children(ms) =>
        assert was.ms + ms[0..] == was.ms + ms;
        q := SetField(p, i, merged);
        TakeChildren(env, t, isGroup, i, ms, 0, tail, p);
    }
  }

  /** The loop when the fields before the i-th have been merged, and those from it on not yet. */
  predicate Halfway(env: Schema, t: nat, i: nat, a: Msg, b: Msg, p: Progress) {
    && t < |env| && |a.fields| == |b.fields| == |env[t].fields| == |p.m.fields| && i <= |b.fields|
    && p.m.unknown == a.unknown
    && forall j :: 0 <= j < |b.fields| ==>
         p.m.fields[j] == if j < i then MergeMsg(env, t, a, b).fields[j] else a.fields[j]
  }

  /** The fields from the i-th on are read and merged. In a run that starts afresh the
      counter ends at zero. */
  lemma {:induction false} TakeFields(env: Schema, t: nat, isGroup: bool, a: Msg, b: Msg, i: nat, tail: seq<byte>, p: Progress)
    returns (q: Progress)
    requires ValidSchema(env) && t < |env| && i <= |b.fields| && TypedMsg(env, t, a) && Halfway(env, t, i, a, b, p)
    requires forall j :: 0 <= j < |b.fields| ==> AcceptableValue(env, env[t].fields[j], b.fields[j])
    requires |EncodeFields(env, env[t].fields, b.fields, i)| < 0x8000_0000_0000_0000
    ensures Takes(env, t, isGroup, EncodeFields(env, env[t].fields, b.fields, i), tail, p, q)
    ensures Halfway(env, t, |b.fields|, a, b, q) && q.nested == p.nested && q.required <= p.required
    ensures p.required == ReqCount(env[t].fields, i) && (forall j :: i <= j < |b.fields| ==> env[t].fields[j].tag !in p.seen) ==>
      q.required == 0
    decreases b.fields, 6, |b.fields| - i
  {
    hide Takes, EncodeField, AcceptableValue, TypedValue, MergeValue;
    var fs := env[t].fields;
    if i == |b.fields| {
      TakesNothing(env, t, isGroup, tail, p);
      q := p;
    } else {
      var rest := EncodeFields(env, fs, b.fields, i + 1);
      var r := TakeValue(env, t, isGroup, i, b.fields[i], rest + tail, p);
      assert forall j :: i < j < |b.fields| ==> fs[j].tag != fs[i].tag;
      q := TakeFields(env, t, isGroup, a, b, i + 1, tail, r);
      TakesThen(env, t, isGroup, EncodeField(env, fs[i], b.fields[i]), rest, tail, p, r, q);
    }
  }

  /** A message written by enc_struct and read by unmarshalType, as a message or as a group,
      from any point of the loop at which a is in the struct. */
  lemma {:induction false} TakeMore(env: Schema, t: nat, m: Msg, isGroup: bool, tail: seq<byte>, p: Progress)
    returns (q: Progress)
    requires ValidSchema(env) && AcceptableMsg(env, t, m) && TypedMsg(env, t, p.m)
    requires |EncodeMsg(env, t, m)| < 0x8000_0000_0000_0000
    ensures Takes(env, t, isGroup, EncodeMsg(env, t, m), tail, p, q)
    ensures q.m == MergeMsg(env, t, p.m, m) && q.nested == p.nested && q.required <= p.required
    ensures p == Start(env, t, p.m) ==> q.required == 0
    decreases m, 0
  {
    hide Takes, MergeValue, EncodeFields, UnknownRecords, AcceptableValue, TypedValue;
    var fields := EncodeFields(env, env[t].fields, m.fields, 0);
    var unknown := if env[t].keepsUnknown then m.unknown else [];
    var r := TakeFields(env, t, isGroup, p.m, m, 0, unknown + tail, p);
    if env[t].keepsUnknown {
      TakeUnknown(env, t, isGroup, m.unknown, tail, r);
      q := WithUnknown(r, m.unknown);
    } else {
      TakesNothing(env, t, isGroup, tail, r);
      q := r;
    }
    assert p.m.unknown + [] == p.m.unknown;
    assert q.m.fields == MergeMsg(env, t, p.m, m).fields;
    TakesThen(env, t, isGroup, fields, unknown, tail, p, r, q);
  }

  /** Read into a struct from the start. */
  lemma {:induction false} TakeMsg(env: Schema, t: nat, m: Msg, isGroup: bool, tail: seq<byte>, into: Msg)
    returns (q: Progress)
    requires ValidSchema(env) && AcceptableMsg(env, t, m) && TypedMsg(env, t, into)
    requires |EncodeMsg(env, t, m)| < 0x8000_0000_0000_0000
    ensures Takes(env, t, isGroup, EncodeMsg(env, t, m), tail, Start(env, t, into), q)
    ensures q.m == MergeMsg(env, t, into, m) && q.required == 0 && !q.nested
    decreases m, 1
  {
    hide Takes, MergeMsg, EncodeMsg, AcceptableMsg, TypedMsg;
    q := TakeMore(env, t, m, isGroup, tail, Start(env, t, into));
  }

  /** And into a fresh one. */
  lemma {:induction false} RoundTripMsg(env: Schema, t: nat, m: Msg, isGroup: bool, tail: seq<byte>) returns (q: Progress)
    requires ValidSchema(env) && AcceptableMsg(env, t, m)
    requires |EncodeMsg(env, t, m)| < 0x8000_0000_0000_0000
    ensures Takes(env, t, isGroup, EncodeMsg(env, t, m), tail, Start(env, t, Empty(env, t)), q)
    ensures q.m == m && q.required == 0 && !q.nested
  {
    hide Takes, MergeMsg;
    EmptyTyped(env, t);
    AcceptableTyped(env, t, m);
    MergeEmpty(env, t, m);
    q := TakeMsg(env, t, m, isGroup, tail, Empty(env, t));
  }
}
