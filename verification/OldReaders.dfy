/** Programs with different versions of a schema: what an old reader does with fields it does
    not know, and that they survive it (the promise of XXX_unrecognized, gogo/protobuf/proto
    decode.go and encode.go). */
module OldReaders {
  import opened Words
  import opened Varint
  import opened Messages
  import opened Encoding
  import opened Skipping
  import opened Decoding
  import opened Merging
  import opened RoundTrip
  import opened Codec
  import opened Requirements

  // ----------------------------------------- what is written is tags and values

  lemma {:induction false} RecordsThen(fs: seq<Field>, u: seq<byte>, v: seq<byte>)
    requires UnknownRecords(fs, u) && UnknownRecords(fs, v)
    ensures UnknownRecords(fs, u + v)
    decreases |u|
  {
    hide UnknownRecords, Encode, Skip, FindField;
    if u == [] {
      assert u + v == v;
    } else {
      AfterFirst(fs, u);
      var k := FirstRecord(fs, u);
      var x, first := RecordParts(fs, u);
      RecordsThen(fs, u[k..], v);
      ConsRecord(fs, x, first, u[k..] + v);
      assert u + v == u[..k] + (u[k..] + v);
    }
  }

  lemma {:induction false} OneRecord(fs: seq<Field>, x: uint64, value: seq<byte>)
    requires x % 8 != 4 && x / 8 > 0 && FindField(fs, x / 8, 0).None? && Skip(value, x % 8) == SkipOk(|value|)
    ensures UnknownRecords(fs, Encode(x) + value)
  {
    NoRecords(fs);
    ConsRecord(fs, x, value, []);
    assert Encode(x) + value + [] == Encode(x) + value;
  }

  predicate Knows(fs: seq<Field>, tag: nat) {
    FindField(fs, tag, 0).Some?
  }

  /** Records of fields that nobody knows are so for whoever knows fewer. */
  lemma {:induction false} FewerFields(fs: seq<Field>, gs: seq<Field>, u: seq<byte>)
    requires UnknownRecords(fs, u) && forall i :: 0 <= i < |gs| ==> Knows(fs, gs[i].tag)
    ensures UnknownRecords(gs, u)
    decreases |u|
  {
    hide UnknownRecords, Encode, Skip;
    NoRecords(gs);
    if u != [] {
      AfterFirst(fs, u);
      var k := FirstRecord(fs, u);
      var x, first := RecordParts(fs, u);
      FewerFields(fs, gs, u[k..]);
      hide FindField;
      ConsRecord(gs, x, first, u[k..]);
      assert u == u[..k] + u[k..];
    }
  }

  /** One tagged value inside a group. */
  lemma {:induction false} SkipTagged(x: uint64, value: seq<byte>, rest: seq<byte>)
    requires x % 8 != 4 && Skip(value, x % 8) == SkipOk(|value|)
    ensures SkipGroup(Encode(x) + value + rest) == FurtherOn(SkipGroup(rest), |Encode(x)| + |value|)
  {
    DecodeEncode(x, value + rest);
    SkipPrefix(value, x % 8, rest);
    hide Decode, Encode, Skip;
    assert value[..|value|] == value;
    assert Encode(x) + value + rest == Encode(x) + (value + rest);
    assert (Encode(x) + (value + rest))[|Encode(x)|..] == value + rest;
    assert (value + rest)[|value|..] == rest;
  }

  /** Skipping over records inside a group. */
  lemma {:induction false} SkipRecords(fs: seq<Field>, u: seq<byte>, tail: seq<byte>)
    requires UnknownRecords(fs, u) && SkipGroup(tail).SkipOk?
    ensures SkipGroup(u + tail) == SkipOk(|u| + SkipGroup(tail).n)
    decreases |u|
  {
    hide Decode, Encode, Skip, SkipGroup, UnknownRecords, FindField;
    if u == [] {
      assert u + tail == tail;
    } else {
      AfterFirst(fs, u);
      var k := FirstRecord(fs, u);
      var x, value := RecordParts(fs, u);
      SkipRecords(fs, u[k..], tail);
      SkipTagged(x, value, u[k..] + tail);
      assert u + tail == Encode(x) + value + (u[k..] + tail);
    }
  }

  lemma {:induction false} TagParts(tag: nat, wire: nat)
    requires wire < 8
    ensures (8 * tag + wire) % 8 == wire && (8 * tag + wire) / 8 == tag
  {
  }

  lemma {:induction false} SkipEnd(f: Field)
    requires 1 <= f.tag < 0x2000_0000
    ensures SkipGroup(EndTag(f)) == SkipOk(|EndTag(f)|)
  {
    hide Decode, Encode, Skip;
    DecodeEncode(8 * f.tag + 4, []);
    assert EndTag(f) + [] == EndTag(f);
    TagParts(f.tag, 4);
  }

  lemma {:induction false} SkipRaw(b: seq<byte>)
    requires |b| < 0x8000_0000_0000_0000
    ensures Skip(EncodeRaw(b), 2) == SkipOk(|EncodeRaw(b)|)
  {
    RawRoundTrip(b, []);
    assert EncodeRaw(b) + [] == EncodeRaw(b);
    hide RawBytes;
  }

  /** A numeric element is one value of its wire type. */
  lemma {:induction false} SkipScalar(k: Kind, w: uint64)
    requires k.Scalar? && LegalScalar(k.go, k.coding)
    ensures Skip(EncodeScalar(k, w), WireType(k)) == SkipOk(|EncodeScalar(k, w)|)
  {
    var x := Widen(k.go, w);
    DecodeEncode(x, []);
    DecodeEncode(Varint.Zigzag32(x), []);
    DecodeEncode(Varint.Zigzag64(x), []);
    assert Encode(x) + [] == Encode(x);
    assert Encode(Varint.Zigzag32(x)) + [] == Encode(Varint.Zigzag32(x));
    assert Encode(Varint.Zigzag64(x)) + [] == Encode(Varint.Zigzag64(x));
    hide Encode, Decode;
  }

  /** The records of a field: to whoever does not know its tag they are unknown records. */
  lemma {:induction false} FieldRecords(env: Schema, f: Field, v: Value, gs: seq<Field>)
    requires ValidSchema(env) && ValidField(env, f) && AcceptableValue(env, f, v) && !Knows(gs, f.tag)
    requires |EncodeField(env, f, v)| < 0x8000_0000_0000_0000
    ensures UnknownRecords(gs, EncodeField(env, f, v))
    decreases v, 4
  {
    hide UnknownRecords, Encode, Skip, EncodeScalar, FindField, EncodeChild;
    NoRecords(gs);
    match v
    case Absent =>
    case Word(w) =>
      SkipScalar(f.kind, w);
      OneRecord(gs, 8 * f.tag + WireType(f.kind), EncodeScalar(f.kind, w));
    case Blob(b) =>
      SkipRaw(b);
      OneRecord(gs, 8 * f.tag + 2, EncodeRaw(b));
    case Child(m) => ChildRecord(env, f, m, gs);
    case Words(ws) =>
      if f.presence.Packed? {
        if ws != [] {
          SkipRaw(EncodePacked(f.kind, ws, 0));
          OneRecord(gs, 8 * f.tag + 2, EncodeRaw(EncodePacked(f.kind, ws, 0)));
        }
      } else {
        WordRecords(env, f, ws, 0, gs);
      }
    case Blobs(bs) => BlobRecords(env, f, bs, 0, gs);
    case Children(ms) => ChildRecords(env, f, ms, 0, gs);
  }

  lemma {:induction false} ChildRecord(env: Schema, f: Field, m: Msg, gs: seq<Field>)
    requires ValidSchema(env) && ValidField(env, f) && (f.kind.Message? || f.kind.Group?)
    requires AcceptableMsg(env, f.kind.typ, m) && !Knows(gs, f.tag)
    requires |EncodeChild(env, f, m)| < 0x8000_0000_0000_0000
    ensures UnknownRecords(gs, EncodeChild(env, f, m))
    decreases m, 2
  {
    hide UnknownRecords, Encode, FindField, EncodeMsg, AcceptableMsg, Skip, SkipGroup;
    var body := EncodeMsg(env, f.kind.typ, m);
    if f.kind.Group? {
      MsgRecords(env, f.kind.typ, m, []);
      GroupRecord(f, body, gs);
    } else {
      SkipRaw(body);
      TagParts(f.tag, 2);
      OneRecord(gs, 8 * f.tag + 2, EncodeRaw(body));
    }
  }

  lemma {:induction false} GroupRecord(f: Field, body: seq<byte>, gs: seq<Field>)
    requires 1 <= f.tag < 0x2000_0000 && !Knows(gs, f.tag) && UnknownRecords([], body)
    ensures UnknownRecords(gs, StartTag(f) + body + EndTag(f))
  {
    hide UnknownRecords, Encode, FindField, SkipGroup;
    SkipEnd(f);
    SkipRecords([], body, EndTag(f));
    TagParts(f.tag, 3);
    OneRecord(gs, 8 * f.tag + 3, body + EndTag(f));
    assert StartTag(f) + body + EndTag(f) == StartTag(f) + (body + EndTag(f));
  }

  lemma {:induction false} WordRecords(env: Schema, f: Field, ws: seq<uint64>, i: nat, gs: seq<Field>)
    requires ValidField(env, f) && f.kind.Scalar? && f.presence.Repeated? && !Knows(gs, f.tag)
    ensures UnknownRecords(gs, EncodeWords(f, ws, i))
    decreases |ws| - i
  {
    hide UnknownRecords, Encode, Skip, EncodeScalar, FindField;
    NoRecords(gs);
    if i < |ws| {
      SkipScalar(f.kind, ws[i]);
      OneRecord(gs, 8 * f.tag + WireType(f.kind), EncodeScalar(f.kind, ws[i]));
      WordRecords(env, f, ws, i + 1, gs);
      RecordsThen(gs, TagCode(f) + EncodeScalar(f.kind, ws[i]), EncodeWords(f, ws, i + 1));
    }
  }

  lemma {:induction false} BlobRecords(env: Schema, f: Field, bs: seq<seq<byte>>, i: nat, gs: seq<Field>)
    requires ValidField(env, f) && f.kind.Bytes? && f.presence.Repeated? && !Knows(gs, f.tag)
    requires |EncodeBlobs(f, bs, i)| < 0x8000_0000_0000_0000
    ensures UnknownRecords(gs, EncodeBlobs(f, bs, i))
    decreases |bs| - i
  {
    hide UnknownRecords, Encode, Skip, FindField;
    NoRecords(gs);
    if i < |bs| {
      SkipRaw(bs[i]);
      OneRecord(gs, 8 * f.tag + 2, EncodeRaw(bs[i]));
      BlobRecords(env, f, bs, i + 1, gs);
      RecordsThen(gs, TagCode(f) + EncodeRaw(bs[i]), EncodeBlobs(f, bs, i + 1));
    }
  }

  lemma {:induction false} ChildRecords(env: Schema, f: Field, ms: seq<Pointer>, i: nat, gs: seq<Field>)
    requires ValidSchema(env) && ValidField(env, f) && (f.kind.Message? || f.kind.Group?)
    requires (forall k :: 0 <= k < |ms| ==> AcceptablePointer(env, f, ms[k])) && !Knows(gs, f.tag)
    requires |EncodeChildren(env, f, ms, i)| < 0x8000_0000_0000_0000
    ensures UnknownRecords(gs, EncodeChildren(env, f, ms, i))
    decreases ms, 3, |ms| - i
  {
    hide UnknownRecords, EncodeChild, FindField, AcceptableMsg;
    NoRecords(gs);
    if i < |ms| {
      PointerRecord(env, f, ms[i], gs);
      ChildRecords(env, f, ms, i + 1, gs);
      RecordsThen(gs, EncodePointer(env, f, ms[i]), EncodeChildren(env, f, ms, i + 1));
    }
  }

  lemma {:induction false} PointerRecord(env: Schema, f: Field, p: Pointer, gs: seq<Field>)
    requires ValidSchema(env) && ValidField(env, f) && (f.kind.Message? || f.kind.Group?)
    requires AcceptablePointer(env, f, p) && !Knows(gs, f.tag)
    requires |EncodePointer(env, f, p)| < 0x8000_0000_0000_0000
    ensures UnknownRecords(gs, EncodePointer(env, f, p))
    decreases p, 4
  {
    hide UnknownRecords, EncodeChild, FindField, AcceptableMsg;
    ChildRecord(env, f, p.m, gs);
  }

  /** A whole message, to whoever knows none of its tags. */
  lemma {:induction false} MsgRecords(env: Schema, t: nat, m: Msg, gs: seq<Field>)
    requires ValidSchema(env) && AcceptableMsg(env, t, m) && |EncodeMsg(env, t, m)| < 0x8000_0000_0000_0000
    requires forall i :: 0 <= i < |env[t].fields| ==> !Knows(gs, env[t].fields[i].tag)
    requires UnknownRecords(gs, m.unknown) || gs == []
    ensures UnknownRecords(gs, EncodeMsg(env, t, m))
    decreases m, 1
  {
    hide UnknownRecords, EncodeFields;
    if gs == [] {
      FewerFields(env[t].fields, gs, m.unknown);
    }
    FieldsRecords(env, t, m, 0, gs);
    hide Knows;
    RecordsThen(gs, EncodeFields(env, env[t].fields, m.fields, 0), m.unknown);
    assert !env[t].keepsUnknown ==> m.unknown == [];
  }

  lemma {:induction false} FieldsRecords(env: Schema, t: nat, m: Msg, i: nat, gs: seq<Field>)
    requires ValidSchema(env) && AcceptableMsg(env, t, m)
    requires |EncodeFields(env, env[t].fields, m.fields, i)| < 0x8000_0000_0000_0000
    requires forall i :: 0 <= i < |env[t].fields| ==> !Knows(gs, env[t].fields[i].tag)
    ensures UnknownRecords(gs, EncodeFields(env, env[t].fields, m.fields, i))
    decreases m, 0, |m.fields| - i
  {
    hide UnknownRecords, EncodeField, AcceptableValue, Knows;
    NoRecords(gs);
    if i < |m.fields| {
      var f := env[t].fields[i];
      assert ValidField(env, f);
      FieldRecords(env, f, m.fields[i], gs);
      FieldsRecords(env, t, m, i + 1, gs);
      RecordsThen(gs, EncodeField(env, f, m.fields[i]), EncodeFields(env, env[t].fields, m.fields, i + 1));
    }
  }

  // ------------------------------------------------- reading a list of fields

  function At(fs: seq<Field>, tag: nat): (k: nat)
    requires Knows(fs, tag)
    ensures k < |fs| && fs[k].tag == tag
  {
    FindField(fs, tag, 0).value
  }

  lemma {:induction false} AtOnly(fs: seq<Field>, k: nat)
    requires DistinctTags(fs) && k < |fs|
    ensures Knows(fs, fs[k].tag) && At(fs, fs[k].tag) == k
  {
    FindFieldAt(fs, k, 0);
  }

  /** Fields of which type t declares the same, or nothing. */
  predicate Compatible(env: Schema, t: nat, gs: seq<Field>) {
    t < |env| && DistinctTags(gs) &&
    forall j :: 0 <= j < |gs| ==>
      ValidField(env, gs[j]) && (Knows(env[t].fields, gs[j].tag) ==> env[t].fields[At(env[t].fields, gs[j].tag)] == gs[j])
  }

  /** Those of the fields that `ks` knows, or those it does not. */
  predicate Picks(gs: seq<Field>, ks: seq<Field>, known: bool, j: int) {
    0 <= j < |gs| && Knows(ks, gs[j].tag) == known
  }

  /** Their bytes, from the i-th on. */
  function Picked(env: Schema, gs: seq<Field>, ws: seq<Value>, i: nat, ks: seq<Field>, known: bool): seq<byte>
    decreases |gs| - i
  {
    if i >= |gs| || i >= |ws| then []
    else (if Picks(gs, ks, known, i) then EncodeField(env, gs[i], ws[i]) else []) + Picked(env, gs, ws, i + 1, ks, known)
  }

  /** Those of these that `fs` does not know. */
  function Strange(env: Schema, fs: seq<Field>, gs: seq<Field>, ws: seq<Value>, i: nat, ks: seq<Field>, known: bool): seq<byte>
    decreases |gs| - i
  {
    if i >= |gs| || i >= |ws| then []
    else
      (if Picks(gs, ks, known, i) && !Knows(fs, gs[i].tag) then EncodeField(env, gs[i], ws[i]) else [])
      + Strange(env, fs, gs, ws, i + 1, ks, known)
  }

  /** The counter is right for the tags taken so far. */
  predicate Tally(fs: seq<Field>, p: Progress, taken: set<nat>) {
    |p.m.fields| == |fs| && p.required == Unseen(fs, taken, 0) && p.seen <= taken && !p.nested
  }

  lemma {:induction false} UnseenOther(fs: seq<Field>, taken: set<nat>, tag: nat, i: nat)
    requires forall k :: 0 <= k < |fs| ==> fs[k].tag != tag
    ensures Unseen(fs, taken + {tag}, i) == Unseen(fs, taken, i)
    decreases |fs| - i
  {
    if i < |fs| {
      UnseenOther(fs, taken, tag, i + 1);
    }
  }

  lemma {:induction false} UnseenNone(fs: seq<Field>, taken: set<nat>, i: nat)
    requires forall k :: 0 <= k < |fs| ==> fs[k].tag in taken
    ensures Unseen(fs, taken, i) == 0
    decreases |fs| - i
  {
    if i < |fs| {
      UnseenNone(fs, taken, i + 1);
    }
  }

  /** A field that the reader declares is read, another one is kept as it is. */
  lemma {:induction false} ReadOne(env: Schema, t: nat, f: Field, v: Value, tail: seq<byte>, p: Progress, taken: set<nat>)
    returns (q: Progress)
    requires ValidSchema(env) && Compatible(env, t, [f]) && AcceptableValue(env, f, v)
    requires |EncodeField(env, f, v)| < 0x8000_0000_0000_0000
    requires Tally(env[t].fields, p, taken) && f.tag !in taken
    requires if Knows(env[t].fields, f.tag) then p.m.fields[At(env[t].fields, f.tag)] == ZeroValue(f) else env[t].keepsUnknown
    ensures Takes(env, t, false, EncodeField(env, f, v), tail, p, q) && Tally(env[t].fields, q, taken + {f.tag})
    ensures q.m == if Knows(env[t].fields, f.tag) then p.m.(fields := p.m.fields[At(env[t].fields, f.tag) := v])
                   else p.m.(unknown := p.m.unknown + EncodeField(env, f, v))
  {
    hide Takes, EncodeField, UnknownRecords, MergeValue, TypedValue, AcceptableValue;
    var fs := env[t].fields;
    assert [f][0] == f;
    if Knows(fs, f.tag) {
      var i := At(fs, f.tag);
      ZeroTyped(env, f);
      AcceptableTypedValue(env, f, v);
      MergeZero(env, f, v);
      q := TakeValue(env, t, false, i, v, tail, p);
      UnseenLess(fs, taken, i, 0);
    } else {
      FieldRecords(env, f, v, fs);
      TakeUnknown(env, t, false, EncodeField(env, f, v), tail, p);
      q := WithUnknown(p, EncodeField(env, f, v));
      UnseenOther(fs, taken, f.tag, 0);
    }
  }

  lemma {:induction false} ZeroTyped(env: Schema, f: Field)
    requires ValidField(env, f)
    ensures TypedValue(env, f, ZeroValue(f))
  {
  }

  /** What a list of fields is read into: values in their places, the rest as unknown bytes. */
  predicate ReadInto(env: Schema, t: nat, gs: seq<Field>, ws: seq<Value>, i: nat, ks: seq<Field>, known: bool,
                     p: Progress, q: Progress)
    requires t < |env| && |gs| == |ws|
  {
    var fs := env[t].fields;
    && |q.m.fields| == |p.m.fields| == |fs|
    && (forall j :: i <= j < |gs| && Picks(gs, ks, known, j) && Knows(fs, gs[j].tag) ==> q.m.fields[At(fs, gs[j].tag)] == ws[j])
    && (forall k :: 0 <= k < |fs| && (forall j :: i <= j < |gs| && Picks(gs, ks, known, j) ==> gs[j].tag != fs[k].tag) ==>
          q.m.fields[k] == p.m.fields[k])
    && q.m.unknown == p.m.unknown + Strange(env, fs, gs, ws, i, ks, known)
  }

  /** The tags of the fields picked from the i-th on. */
  function Tags(gs: seq<Field>, i: nat, ks: seq<Field>, known: bool): set<nat> {
    set j | i <= j < |gs| && Picks(gs, ks, known, j) :: gs[j].tag
  }

  /** The reader is ready for the fields picked from the i-th on. */
  predicate Ready(env: Schema, t: nat, gs: seq<Field>, i: nat, ks: seq<Field>, known: bool, p: Progress, taken: set<nat>)
    requires t < |env|
  {
    var fs := env[t].fields;
    && |p.m.fields| == |fs|
    && forall j :: i <= j < |gs| && Picks(gs, ks, known, j) ==>
         && gs[j].tag !in taken
         && if Knows(fs, gs[j].tag) then p.m.fields[At(fs, gs[j].tag)] == ZeroValue(gs[j]) else env[t].keepsUnknown
  }

  lemma {:induction false} TagsNext(gs: seq<Field>, i: nat, ks: seq<Field>, known: bool)
    requires i < |gs|
    ensures Tags(gs, i, ks, known) == (if Picks(gs, ks, known, i) then {gs[i].tag} else {}) + Tags(gs, i + 1, ks, known)
  {
  }

  /** The state after field i. */
  predicate After(env: Schema, t: nat, f: Field, v: Value, p: Progress, r: Progress)
    requires t < |env| && |p.m.fields| == |env[t].fields|
  {
    var fs := env[t].fields;
    r.m == if Knows(fs, f.tag) then p.m.(fields := p.m.fields[At(fs, f.tag) := v])
           else p.m.(unknown := p.m.unknown + EncodeField(env, f, v))
  }

  lemma {:induction false} ReadyNext(env: Schema, t: nat, gs: seq<Field>, i: nat, ks: seq<Field>, known: bool,
                                     v: Value, p: Progress, r: Progress, taken: set<nat>)
    requires t < |env| && DistinctTags(gs) && i < |gs| && Ready(env, t, gs, i, ks, known, p, taken)
    requires After(env, t, gs[i], v, p, r)
    ensures Ready(env, t, gs, i + 1, ks, known, r, taken + {gs[i].tag})
  {
    hide FindField, EncodeField;
    assert forall j :: i < j < |gs| ==> gs[j].tag != gs[i].tag;
  }

  lemma {:induction false} ReadIntoThen(env: Schema, t: nat, gs: seq<Field>, ws: seq<Value>, i: nat, ks: seq<Field>, known: bool,
                                        p: Progress, r: Progress, q: Progress)
    requires t < |env| && |gs| == |ws| && DistinctTags(gs) && i < |gs| && Picks(gs, ks, known, i)
    requires |p.m.fields| == |env[t].fields| && After(env, t, gs[i], ws[i], p, r)
    requires ReadInto(env, t, gs, ws, i + 1, ks, known, r, q)
    ensures ReadInto(env, t, gs, ws, i, ks, known, p, q)
  {
    hide FindField, EncodeField;
    var fs, f := env[t].fields, gs[i];
    assert forall j :: i < j < |gs| ==> gs[j].tag != f.tag;
    var mine := if Knows(fs, f.tag) then [] else EncodeField(env, f, ws[i]);
    assert p.m.unknown + mine + Strange(env, fs, gs, ws, i + 1, ks, known)
        == p.m.unknown + (mine + Strange(env, fs, gs, ws, i + 1, ks, known));
    assert mine == [] ==> p.m.unknown + mine == p.m.unknown;
    if Knows(fs, f.tag) {
      var k := At(fs, f.tag);
      assert q.m.fields[k] == r.m.fields[k];
    }
  }

  lemma {:induction false} ReadList(env: Schema, t: nat, gs: seq<Field>, ws: seq<Value>, i: nat, ks: seq<Field>, known: bool,
                                    tail: seq<byte>, p: Progress, taken: set<nat>)
    returns (q: Progress)
    requires ValidSchema(env) && Compatible(env, t, gs) && |gs| == |ws| && i <= |gs|
    requires forall j :: 0 <= j < |gs| ==>
      AcceptableValue(env, gs[j], ws[j]) && |EncodeField(env, gs[j], ws[j])| < 0x8000_0000_0000_0000
    requires Tally(env[t].fields, p, taken) && Ready(env, t, gs, i, ks, known, p, taken)
    ensures Takes(env, t, false, Picked(env, gs, ws, i, ks, known), tail, p, q)
    ensures Tally(env[t].fields, q, taken + Tags(gs, i, ks, known)) && ReadInto(env, t, gs, ws, i, ks, known, p, q)
    decreases |gs| - i
  {
    hide Takes, EncodeField, AcceptableValue, ValidSchema, Tags, FindField, Tally;
    if i == |gs| {
      TakesNothing(env, t, false, tail, p);
      q := p;
      NoTags(gs, ks, known);
      assert taken + {} == taken;
      assert |p.m.fields| == |env[t].fields|;
      assert p.m.unknown + [] == p.m.unknown;
    } else {
      TagsNext(gs, i, ks, known);
      var rest, f := Picked(env, gs, ws, i + 1, ks, known), gs[i];
      if Picks(gs, ks, known, i) {
        assert Compatible(env, t, [f]);
        var r := ReadOne(env, t, f, ws[i], rest + tail, p, taken);
        ReadyNext(env, t, gs, i, ks, known, ws[i], p, r, taken);
        hide Ready, ReadInto, After, Picks, Compatible;
        q := ReadList(env, t, gs, ws, i + 1, ks, known, tail, r, taken + {f.tag});
        ReadIntoThen(env, t, gs, ws, i, ks, known, p, r, q);
        TakesThen(env, t, false, EncodeField(env, f, ws[i]), rest, tail, p, r, q);
        assert taken + {f.tag} + Tags(gs, i + 1, ks, known) == taken + ({f.tag} + Tags(gs, i + 1, ks, known));
      } else {
        q := ReadList(env, t, gs, ws, i + 1, ks, known, tail, p, taken);
        NotPicked(env, t, gs, ws, i, ks, known, p, q);
        assert {} + Tags(gs, i + 1, ks, known) == Tags(gs, i + 1, ks, known);
      }
    }
  }

  lemma {:induction false} NoTags(gs: seq<Field>, ks: seq<Field>, known: bool)
    ensures Tags(gs, |gs|, ks, known) == {}
  {
  }

  lemma {:induction false} NotPicked(env: Schema, t: nat, gs: seq<Field>, ws: seq<Value>, i: nat, ks: seq<Field>, known: bool,
                                     p: Progress, q: Progress)
    requires t < |env| && |gs| == |ws| && i < |gs| && !Picks(gs, ks, known, i)
    requires ReadInto(env, t, gs, ws, i + 1, ks, known, p, q)
    ensures ReadInto(env, t, gs, ws, i, ks, known, p, q)
    ensures Picked(env, gs, ws, i, ks, known) == Picked(env, gs, ws, i + 1, ks, known)
  {
    hide FindField, EncodeField;
    assert [] + Strange(env, env[t].fields, gs, ws, i + 1, ks, known) == Strange(env, env[t].fields, gs, ws, i + 1, ks, known);
    assert [] + Picked(env, gs, ws, i + 1, ks, known) == Picked(env, gs, ws, i + 1, ks, known);
  }

  // ---------------------------------------------------- an older type of the message

  /** Type `o` declares some of the fields of type t, and keeps what it does not know. */
  predicate Older(env: Schema, o: nat, t: nat) {
    && o < |env| && t < |env| && env[o].keepsUnknown
    && forall j :: 0 <= j < |env[o].fields| ==>
         && Knows(env[t].fields, env[o].fields[j].tag)
         && env[t].fields[At(env[t].fields, env[o].fields[j].tag)] == env[o].fields[j]
  }

  /** What the older program has: the fields it knows, and the bytes of the others, in the
      order of the schema, in front of those that nobody knew. */
  function OldView(env: Schema, o: nat, t: nat, m: Msg): Msg
    requires Older(env, o, t) && |m.fields| == |env[t].fields|
  {
    Msg(seq(|env[o].fields|, j requires 0 <= j < |env[o].fields| =>
              m.fields[At(env[t].fields, env[o].fields[j].tag)]),
        Picked(env, env[t].fields, m.fields, 0, env[o].fields, false) + m.unknown)
  }

  lemma {:induction false} OlderCompatible(env: Schema, o: nat, t: nat)
    requires ValidSchema(env) && Older(env, o, t)
    ensures Compatible(env, t, env[o].fields) && Compatible(env, o, env[t].fields)
  {
    hide FindField;
    var fs, gs := env[o].fields, env[t].fields;
    forall j | 0 <= j < |gs| && Knows(fs, gs[j].tag) ensures fs[At(fs, gs[j].tag)] == gs[j] {
      AtOnly(gs, j);
    }
  }

  lemma {:induction false} AllPicked(env: Schema, gs: seq<Field>, ws: seq<Value>, i: nat)
    ensures Picked(env, gs, ws, i, [], false) == EncodeFields(env, gs, ws, i)
    decreases |gs| - i
  {
    hide EncodeField;
    if i < |gs| && i < |ws| {
      AllPicked(env, gs, ws, i + 1);
    }
  }

  lemma {:induction false} StrangeAll(env: Schema, fs: seq<Field>, gs: seq<Field>, ws: seq<Value>, i: nat)
    ensures Strange(env, fs, gs, ws, i, [], false) == Picked(env, gs, ws, i, fs, false)
    decreases |gs| - i
  {
    hide EncodeField;
    if i < |gs| && i < |ws| {
      StrangeAll(env, fs, gs, ws, i + 1);
    }
  }

  lemma {:induction false} StrangeNone(env: Schema, fs: seq<Field>, gs: seq<Field>, ws: seq<Value>, i: nat, ks: seq<Field>,
                                       known: bool)
    requires forall j :: 0 <= j < |gs| ==> Knows(fs, gs[j].tag)
    ensures Strange(env, fs, gs, ws, i, ks, known) == []
    decreases |gs| - i
  {
    hide EncodeField;
    if i < |gs| && i < |ws| {
      StrangeNone(env, fs, gs, ws, i + 1, ks, known);
    }
  }

  lemma {:induction false} FieldFits(env: Schema, fs: seq<Field>, vs: seq<Value>, i: nat, j: nat)
    requires i <= j < |vs| == |fs|
    ensures |EncodeField(env, fs[j], vs[j])| <= |EncodeFields(env, fs, vs, i)|
    decreases j - i
  {
    hide EncodeField;
    if i < j {
      FieldFits(env, fs, vs, i + 1, j);
    }
  }

  /** Nothing is known yet. */
  lemma {:induction false} StartTally(env: Schema, t: nat)
    requires t < |env|
    ensures Tally(env[t].fields, Start(env, t, Empty(env, t)), {})
  {
    UnseenAtFirst(env[t].fields, 0);
  }

  lemma {:induction false} StartReady(env: Schema, t: nat, gs: seq<Field>)
    requires Compatible(env, t, gs) && (env[t].keepsUnknown || forall j :: 0 <= j < |gs| ==> Knows(env[t].fields, gs[j].tag))
    ensures Ready(env, t, gs, 0, [], false, Start(env, t, Empty(env, t)), {})
  {
  }

  /** An older program reads the fields it knows, reports nothing, and keeps all the others. */
  lemma {:induction false} OldReads(env: Schema, o: nat, t: nat, m: Msg)
    requires ValidSchema(env) && Older(env, o, t)
    requires TypedMsg(env, t, m) && CleanMsg(env, t, m) && MsgError(env, t, m, 0).None?
    ensures var bytes := EncodeMsg(env, t, m);
      UnmarshalMsg(env, o, false, bytes, Empty(env, o)) == Done(OldView(env, o, t, m), |bytes|, false)
  {
    hide EncodeField, FindField, Takes, Unmarshal, UnknownRecords, Unseen, TypedMsg, CleanMsg, FieldsError, AcceptableValue;
    Marshalled(env, t, m);
    var gs, start := env[t].fields, Start(env, o, Empty(env, o));
    OlderCompatible(env, o, t);
    forall j | 0 <= j < |gs| ensures |EncodeField(env, gs[j], m.fields[j])| < 0x8000_0000_0000_0000 {
      FieldFits(env, gs, m.fields, 0, j);
    }
    StartTally(env, o);
    StartReady(env, o, gs);
    var r := ReadList(env, o, gs, m.fields, 0, [], false, m.unknown + [], start, {});
    FewerFields(gs, env[o].fields, m.unknown);
    TakeUnknown(env, o, false, m.unknown, [], r);
    var q := WithUnknown(r, m.unknown);
    AllPicked(env, gs, m.fields, 0);
    assert EncodeMsg(env, t, m) == EncodeFields(env, gs, m.fields, 0) + m.unknown;
    TakesThen(env, o, false, EncodeFields(env, gs, m.fields, 0), m.unknown, [], start, r, q);
    OldDone(env, o, t, m, start, r);
    UnmarshalEnd(env, o, EncodeMsg(env, t, m), start, q);
  }

  lemma {:induction false} OldDone(env: Schema, o: nat, t: nat, m: Msg, start: Progress, r: Progress)
    requires ValidSchema(env) && Older(env, o, t) && |m.fields| == |env[t].fields| && start.m == Empty(env, o)
    requires Tally(env[o].fields, r, {} + Tags(env[t].fields, 0, [], false))
    requires ReadInto(env, o, env[t].fields, m.fields, 0, [], false, start, r)
    ensures WithUnknown(r, m.unknown).m == OldView(env, o, t, m) && r.required == 0
  {
    hide EncodeField, FindField, Unseen;
    var fs, gs, view := env[o].fields, env[t].fields, OldView(env, o, t, m);
    StrangeAll(env, fs, gs, m.fields, 0);
    forall k | 0 <= k < |fs| ensures r.m.fields[k] == view.fields[k] && fs[k].tag in Tags(gs, 0, [], false) {
      AtOnly(fs, k);
      var j := At(gs, fs[k].tag);
      assert Picks(gs, [], false, j) by {
        assert !Knows([], gs[j].tag);
      }
    }
    assert r.m.fields == view.fields;
    assert [] + Picked(env, gs, m.fields, 0, fs, false) == Picked(env, gs, m.fields, 0, fs, false);
    UnseenNone(fs, {} + Tags(gs, 0, [], false), 0);
  }

  /** What the older program writes, a newer one reads as the message it began with. */
  lemma {:induction false} NewReads(env: Schema, o: nat, t: nat, m: Msg)
    requires ValidSchema(env) && Older(env, o, t)
    requires TypedMsg(env, t, m) && CleanMsg(env, t, m) && MsgError(env, t, m, 0).None?
    ensures var bytes := EncodeMsg(env, o, OldView(env, o, t, m));
      UnmarshalMsg(env, t, false, bytes, Empty(env, t)) == Done(m, |bytes|, false)
  {
    hide EncodeField, FindField, Takes, Unmarshal, UnknownRecords, Unseen, TypedMsg, CleanMsg, FieldsError, AcceptableValue,
      EncodeFields, ReadInto, Tally, Ready, Tags, Compatible;
    Marshalled(env, t, m);
    var fs, gs, start, view := env[o].fields, env[t].fields, Start(env, t, Empty(env, t)), OldView(env, o, t, m);
    forall j | 0 <= j < |gs| ensures |EncodeField(env, gs[j], m.fields[j])| < 0x8000_0000_0000_0000 {
      FieldFits(env, gs, m.fields, 0, j);
    }
    OlderCompatible(env, o, t);
    ItselfCompatible(env, t);
    StartTally(env, t);
    StartReady(env, t, fs);
    var others := Picked(env, gs, m.fields, 0, fs, false);
    var r := ReadList(env, t, fs, view.fields, 0, [], false, others + (m.unknown + []), start, {});
    OthersReady(env, o, t, m, start, r);
    var s := ReadList(env, t, gs, m.fields, 0, fs, false, m.unknown + [], r, {} + Tags(fs, 0, [], false));
    NewDone(env, o, t, m, start, r, s);
    var q := KeepsRest(env, t, m.unknown, s);
    TakesThen(env, t, false, others, m.unknown, [], r, s, q);
    AllPicked(env, fs, view.fields, 0);
    assert others + (m.unknown + []) == others + m.unknown + [];
    TakesThen(env, t, false, EncodeFields(env, fs, view.fields, 0), others + m.unknown, [], start, r, q);
    assert EncodeMsg(env, o, view) == EncodeFields(env, fs, view.fields, 0) + (others + m.unknown);
    UnmarshalEnd(env, t, EncodeMsg(env, o, view), start, q);
  }

  lemma {:induction false} ItselfCompatible(env: Schema, t: nat)
    requires ValidSchema(env) && t < |env|
    ensures Compatible(env, t, env[t].fields)
  {
    hide FindField;
    forall j | 0 <= j < |env[t].fields| ensures At(env[t].fields, env[t].fields[j].tag) == j {
      AtOnly(env[t].fields, j);
    }
  }

  /** The records nobody knew. */
  lemma {:induction false} KeepsRest(env: Schema, t: nat, u: seq<byte>, s: Progress) returns (q: Progress)
    requires t < |env| && UnknownRecords(env[t].fields, u) && (!env[t].keepsUnknown ==> u == [])
    ensures Takes(env, t, false, u, [], s, q) && q == WithUnknown(s, u)
  {
    q := WithUnknown(s, u);
    if env[t].keepsUnknown {
      TakeUnknown(env, t, false, u, [], s);
    } else {
      TakesNothing(env, t, false, [], s);
      WithUnknownTwice(s, [], []);
    }
  }

  /** The fields the older program did not know are still to be read. */
  lemma {:induction false} OthersReady(env: Schema, o: nat, t: nat, m: Msg, start: Progress, r: Progress)
    requires ValidSchema(env) && Older(env, o, t) && |m.fields| == |env[t].fields| && start.m == Empty(env, t)
    requires ReadInto(env, t, env[o].fields, OldView(env, o, t, m).fields, 0, [], false, start, r)
    ensures Ready(env, t, env[t].fields, 0, env[o].fields, false, r, {} + Tags(env[o].fields, 0, [], false))
  {
    hide FindField, Strange;
    var fs, gs := env[o].fields, env[t].fields;
    forall j | 0 <= j < |gs| && !Knows(fs, gs[j].tag)
      ensures Knows(gs, gs[j].tag) && At(gs, gs[j].tag) == j && r.m.fields[j] == ZeroValue(gs[j])
      ensures gs[j].tag !in Tags(fs, 0, [], false)
    {
      AtOnly(gs, j);
      forall k | 0 <= k < |fs| ensures fs[k].tag != gs[j].tag {
        AtOnly(fs, k);
      }
    }
  }

  lemma {:induction false} NewDone(env: Schema, o: nat, t: nat, m: Msg, start: Progress, r: Progress, s: Progress)
    requires ValidSchema(env) && Older(env, o, t) && |m.fields| == |env[t].fields| && start.m == Empty(env, t)
    requires ReadInto(env, t, env[o].fields, OldView(env, o, t, m).fields, 0, [], false, start, r)
    requires ReadInto(env, t, env[t].fields, m.fields, 0, env[o].fields, false, r, s)
    requires Tally(env[t].fields, s, {} + Tags(env[o].fields, 0, [], false) + Tags(env[t].fields, 0, env[o].fields, false))
    ensures WithUnknown(s, m.unknown).m == m && s.required == 0 && !s.nested
  {
    hide EncodeField, FindField, Unseen, Strange;
    var fs, gs := env[o].fields, env[t].fields;
    var taken := {} + Tags(fs, 0, [], false) + Tags(gs, 0, fs, false);
    StrangeKnown(env, o, t, m);
    forall k | 0 <= k < |gs| ensures s.m.fields[k] == m.fields[k] && gs[k].tag in taken {
      AtOnly(gs, k);
      if Knows(fs, gs[k].tag) {
        var j := At(fs, gs[k].tag);
        assert Picks(fs, [], false, j) by {
          assert !Knows([], fs[j].tag);
        }
        assert r.m.fields[k] == m.fields[k];
        assert forall i :: 0 <= i < |gs| && Picks(gs, fs, false, i) ==> gs[i].tag != gs[k].tag;
      } else {
        assert Picks(gs, fs, false, k);
      }
    }
    assert s.m.fields == m.fields;
    assert s.m.unknown == [];
    assert [] + m.unknown == m.unknown;
    UnseenNone(gs, taken, 0);
  }

  lemma {:induction false} StrangeKnown(env: Schema, o: nat, t: nat, m: Msg)
    requires ValidSchema(env) && Older(env, o, t) && |m.fields| == |env[t].fields|
    ensures Strange(env, env[t].fields, env[o].fields, OldView(env, o, t, m).fields, 0, [], false) == []
    ensures Strange(env, env[t].fields, env[t].fields, m.fields, 0, env[o].fields, false) == []
  {
    hide FindField;
    forall j | 0 <= j < |env[t].fields| ensures Knows(env[t].fields, env[t].fields[j].tag) {
      AtOnly(env[t].fields, j);
    }
    StrangeNone(env, env[t].fields, env[o].fields, OldView(env, o, t, m).fields, 0, [], false);
    StrangeNone(env, env[t].fields, env[t].fields, m.fields, 0, env[o].fields, false);
  }
}
