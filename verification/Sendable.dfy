/** Which messages can be decoded into without a report, found by following the schema
    (unmarshalType in gogo/protobuf/proto decode.go). */
module Sendable {
  import opened Chains
  import opened Words
  import opened Varint
  import opened Messages
  import opened Encoding
  import opened Decoding
  import opened RoundTrip
  import opened Completeness
  import opened Requirements
  import opened Silence
  import opened Reliability

  // -------------------------------------------------------- following the schema

  /** The field can be sent in silence if the message types found so far can be. */
  predicate Sent(f: Field, found: set<nat>) {
    f.kind.Message? ==> f.kind.typ in found
  }

  /** All the required fields can be sent, or one with a tag above 64, again and again. */
  predicate Fills(fs: seq<Field>, found: set<nat>) {
    || (forall i :: 0 <= i < |fs| && fs[i].presence.Required? ==> Sent(fs[i], found))
    || (exists i :: 0 <= i < |fs| && fs[i].presence.Required? && fs[i].tag > 64 && Sent(fs[i], found))
  }

  /** The types that at most k messages, one inside the other, can fill. */
  function Found(env: Schema, k: nat): (found: set<nat>)
    ensures Below(found, |env|)
  {
    if k == 0 then {} else set t: nat | t < |env| && Fills(env[t].fields, Found(env, k - 1))
  }

  /** Another round finds no more. */
  predicate Closed(env: Schema, k: nat) {
    Found(env, k) == Found(env, k + 1)
  }

  lemma {:induction false} FillsMore(fs: seq<Field>, a: set<nat>, b: set<nat>)
    requires a <= b && Fills(fs, a)
    ensures Fills(fs, b)
  {
  }

  lemma {:induction false} FoundGrows(env: Schema, k: nat)
    ensures Found(env, k) <= Found(env, k + 1)
    decreases k
  {
    if k > 0 {
      FoundGrows(env, k - 1);
      forall t | t in Found(env, k) ensures t in Found(env, k + 1) {
        FillsMore(env[t].fields, Found(env, k - 1), Found(env, k));
      }
    }
  }

  /** As many rounds as there are types are always enough. */
  lemma {:induction false} ClosedInTime(env: Schema)
    ensures Closed(env, |env|)
  {
    var n := |env|;
    var levels := seq(n + 2, (k: nat) => Found(env, k));
    forall k: nat | k <= n ensures Rises(levels, k) {
      FoundGrows(env, k);
    }
    ChainStops(levels, n);
  }

  // ------------------------------------------------------- silent input is found

  /** Every type that some input fills in silence is found. */
  lemma {:induction false} SilentIsFound(env: Schema, t: nat, s: seq<byte>, k: nat)
    requires ValidSchema(env) && t < |env| && Closed(env, k) && Silent(env, t, false, s)
    ensures t in Found(env, k)
    decreases |s|
  {
    hide Silent, Found;
    var fs := env[t].fields;
    forall i | 0 <= i < |fs| && fs[i].presence.Required? && FillableIn(env, fs[i], |s|) ensures Sent(fs[i], Found(env, k)) {
      if fs[i].kind.Message? {
        assert ValidField(env, fs[i]);
        var b: seq<byte> :| Silent(env, fs[i].kind.typ, false, b) && |b| < |s|;
        SilentIsFound(env, fs[i].kind.typ, b, k);
      }
    }
    if CountsIn(env, fs, |s|) {
      SilentFills(env, t, s);
    }
    assert Fills(fs, Found(env, k));
    FoundNext(env, t, k);
  }

  lemma {:induction false} FoundNext(env: Schema, t: nat, k: nat)
    requires t < |env|
    ensures t in Found(env, k + 1) <==> Fills(env[t].fields, Found(env, k))
  {
  }

  // ------------------------------------------------------ what is found is silent

  /** No type has more than `wide` required fields. */
  predicate AtMostWide(env: Schema, wide: nat) {
    forall t :: 0 <= t < |env| ==> ReqCount(env[t].fields, 0) <= wide
  }

  /** Room for a required field with its tag, if a message inside it takes n bytes. */
  function FieldRoom(wide: nat, n: nat): (r: nat)
    ensures r >= 10
  {
    20 * wide + 20 + n
  }

  /** Room for k messages, one inside the other. */
  function Room(wide: nat, k: nat): nat {
    if k == 0 then 0 else wide * FieldRoom(wide, Room(wide, k - 1))
  }

  lemma {:induction false} ScalarShort(k: Kind)
    requires k.Scalar? && LegalScalar(k.go, k.coding)
    ensures |EncodeScalar(k, 0)| <= 10
  {
    DecodeEncode(0, []);
    DecodeEncode(Varint.Zigzag32(0), []);
    DecodeEncode(Varint.Zigzag64(0), []);
    hide Encode;
  }

  /** What is sent with a report is short. */
  lemma {:induction false} LoudShort(env: Schema, f: Field)
    requires ValidField(env, f)
    ensures |Piece(env, f, false).0| <= 10
  {
    if f.kind.Scalar? {
      ScalarShort(f.kind);
    }
    DecodeEncode(0, []);
    TagLength(f, 4);
    hide Encode, EncodeScalar;
  }

  lemma {:induction false} FillShort(env: Schema, fs: seq<Field>, i: nat, silent: bool, n: nat)
    requires forall j :: 0 <= j < |fs| ==> ValidField(env, fs[j])
    requires silent ==> AllFillable(env, fs, |fs|)
    requires forall j :: 0 <= j < |fs| && fs[j].presence.Required? ==> PieceWithin(env, fs[j], silent, n)
    ensures |FillBytes(env, fs, i, |fs|, silent)| <= ReqCount(fs, i) * (10 + n)
    decreases |fs| - i
  {
    hide Piece, Encode;
    if i < |fs| {
      FillShort(env, fs, i + 1, silent, n);
      if fs[i].presence.Required? {
        TagLength(fs[i], Wire(fs[i]));
        assert PieceWithin(env, fs[i], silent, n);
        assert ReqCount(fs, i) * (10 + n) == 10 + n + ReqCount(fs, i + 1) * (10 + n);
      }
    }
  }

  ghost predicate PieceWithin(env: Schema, f: Field, silent: bool, n: nat) {
    (silent ==> Fillable(env, f)) && |Piece(env, f, silent).0| <= n
  }

  /** A silent group body sends required fields with a report. */
  lemma {:induction false} GroupShort(env: Schema, f: Field, wide: nat)
    requires ValidSchema(env) && ValidField(env, f) && f.kind.Group? && AtMostWide(env, wide)
    ensures |Piece(env, f, true).0| <= 20 * wide + 10
  {
    var fs := env[f.kind.typ].fields;
    forall j | 0 <= j < |fs| ensures ValidField(env, fs[j]) && PieceWithin(env, fs[j], false, 10) {
      assert ValidField(env, fs[j]);
      LoudShort(env, fs[j]);
    }
    hide PieceWithin, Encode;
    FillShort(env, fs, 0, false, 10);
    TagLength(f, 4);
    hide FillBytes;
    assert ReqCount(fs, 0) * 20 <= wide * 20;
  }

  lemma {:induction false} MessageShort(env: Schema, f: Field, s: seq<byte>)
    requires f.kind.Message? && Silent(env, f.kind.typ, false, s) && |s| < 0x8000_0000_0000_0000
    ensures Fillable(env, f) && |Piece(env, f, true).0| <= |s| + 10
  {
    hide UnmarshalMsg;
    assert Fillable(env, f);
    ShortestOf(env, f);
    var b: seq<byte> :| Shortest(env, f.kind.typ, b) &&
      Piece(env, f, true) == (EncodeRaw(b), Child(UnmarshalMsg(env, f.kind.typ, false, b, Empty(env, f.kind.typ)).m), false);
    DecodeEncode(|b|, []);
    hide Encode, Decode;
  }

  /** What is sent in silence has room. */
  lemma {:induction false} SentShort(env: Schema, f: Field, k: nat, wide: nat)
    requires ValidSchema(env) && ValidField(env, f) && Sent(f, Found(env, k)) && AtMostWide(env, wide)
    requires Room(wide, k) < 0x8000_0000_0000_0000
    ensures PieceWithin(env, f, true, FieldRoom(wide, Room(wide, k)) - 10)
    decreases k, 1
  {
    hide Silent, Found, Piece;
    match f.kind
    case Message(typ) =>
      var s := FoundIsSilent(env, typ, k, wide);
      MessageShort(env, f, s);
    case Group(_) => GroupShort(env, f, wide);
    case _ => PlainShort(env, f);
  }

  lemma {:induction false} PlainShort(env: Schema, f: Field)
    requires ValidField(env, f) && !Struct(f)
    ensures |Piece(env, f, true).0| <= 10
  {
    if f.kind.Scalar? {
      ScalarShort(f.kind);
    }
    DecodeEncode(0, []);
    hide Encode, EncodeScalar;
  }

  /** All required fields, each in silence. */
  lemma {:induction false} AllSent(env: Schema, t: nat, n: nat) returns (s: seq<byte>)
    requires ValidSchema(env) && t < |env|
    requires forall j :: 0 <= j < |env[t].fields| && env[t].fields[j].presence.Required? ==>
      PieceWithin(env, env[t].fields[j], true, n)
    ensures Silent(env, t, false, s) && |s| <= ReqCount(env[t].fields, 0) * (10 + n)
  {
    hide Piece, Takes, Unmarshal, Fillable;
    var fs, start := env[t].fields, Start(env, t, Empty(env, t));
    forall j | 0 <= j < |fs| ensures ValidField(env, fs[j]) {
    }
    FillShort(env, fs, 0, true, n);
    FillTakes(env, t, false, 0, |fs|, true, [], start);
    FillCounts(env, fs, 0, |fs|, true, start);
    OthersAll(fs, 0);
    hide FillBytes, Fill;
    s := FillBytes(env, fs, 0, |fs|, true);
    Ends(env, t, false, s, start, Fill(env, fs, 0, |fs|, true, start));
    assert s + [] == s;
  }

  lemma {:induction false} CopiesLength(piece: seq<byte>, k: nat)
    ensures |Copies(piece, k)| == k * |piece|
  {
    if k > 0 {
      CopiesLength(piece, k - 1);
      assert k * |piece| == |piece| + (k - 1) * |piece|;
    }
  }

  /** One required field, again and again. */
  lemma {:induction false} OneSent(env: Schema, t: nat, i: nat, n: nat) returns (s: seq<byte>)
    requires ValidSchema(env) && t < |env| && i < |env[t].fields|
    requires env[t].fields[i].presence.Required? && env[t].fields[i].tag > 64
    requires PieceWithin(env, env[t].fields[i], true, n)
    ensures Silent(env, t, false, s) && |s| <= ReqCount(env[t].fields, 0) * (10 + n)
  {
    hide Piece, Unmarshal, Fillable, Copies, Encode;
    var f, k := env[t].fields[i], ReqCount(env[t].fields, 0);
    var m;
    s, m := Fooled(env, t, false, i);
    assert ValidField(env, f);
    TagLength(f, Wire(f));
    var one := Encode(8 * f.tag + Wire(f)) + Piece(env, f, true).0;
    CopiesLength(one, k);
    Scaled(k, |one|, 10 + n);
  }

  lemma {:induction false} Scaled(k: nat, a: nat, b: nat)
    requires a <= b
    ensures k * a <= k * b
  {
  }

  /** All of them, or one again and again. */
  lemma {:induction false} FilledIsSilent(env: Schema, t: nat, found: set<nat>, n: nat) returns (s: seq<byte>)
    requires ValidSchema(env) && t < |env| && Fills(env[t].fields, found)
    requires forall i :: 0 <= i < |env[t].fields| && env[t].fields[i].presence.Required? && Sent(env[t].fields[i], found) ==>
      PieceWithin(env, env[t].fields[i], true, n)
    ensures Silent(env, t, false, s) && |s| <= ReqCount(env[t].fields, 0) * (10 + n)
  {
    hide Silent, PieceWithin;
    var fs := env[t].fields;
    if forall i :: 0 <= i < |fs| && fs[i].presence.Required? ==> Sent(fs[i], found) {
      s := AllSent(env, t, n);
    } else {
      var i :| 0 <= i < |fs| && fs[i].presence.Required? && fs[i].tag > 64 && Sent(fs[i], found);
      s := OneSent(env, t, i, n);
    }
  }

  lemma {:induction false} RoomGrows(wide: nat, k: nat)
    requires wide > 0
    ensures Room(wide, k) <= Room(wide, k + 1)
  {
    Scaled(FieldRoom(wide, Room(wide, k)), 1, wide);
  }

  /** Every type that is found is filled in silence by some input. */
  lemma {:induction false} FoundIsSilent(env: Schema, t: nat, k: nat, wide: nat) returns (s: seq<byte>)
    requires ValidSchema(env) && t in Found(env, k) && AtMostWide(env, wide)
    requires Room(wide, k) < 0x8000_0000_0000_0000
    ensures t < |env| && Silent(env, t, false, s) && |s| <= Room(wide, k)
    decreases k, 0
  {
    hide Silent, PieceWithin, Fills, FieldRoom;
    var fs, found := env[t].fields, Found(env, k - 1);
    var n := FieldRoom(wide, Room(wide, k - 1));
    forall i | 0 <= i < |fs| && fs[i].presence.Required? && Sent(fs[i], found) ensures PieceWithin(env, fs[i], true, n - 10) {
      assert ValidField(env, fs[i]);
      AtLeastOne(fs, i, 0);
      RoomGrows(wide, k - 1);
      SentShort(env, fs[i], k - 1, wide);
    }
    s := FilledIsSilent(env, t, found, n - 10);
    Scaled(n, ReqCount(fs, 0), wide);
  }

  // ----------------------------------------------------------- exact conditions

  /** A bound on k messages, one inside the other, that fits a length prefix. */
  predicate Roomy(env: Schema, k: nat, wide: nat) {
    AtMostWide(env, wide) && Room(wide, k) < 0x8000_0000_0000_0000
  }

  /** A field can be sent in silence if and only if its type is found. */
  lemma {:induction false} FillableIff(env: Schema, f: Field, k: nat, wide: nat)
    requires ValidSchema(env) && ValidField(env, f) && Closed(env, k) && Roomy(env, k, wide)
    ensures Fillable(env, f) <==> Sent(f, Found(env, k))
  {
    hide Silent, Found;
    if f.kind.Message? {
      if Fillable(env, f) {
        var s: seq<byte> :| Silent(env, f.kind.typ, false, s) && |s| < 0x8000_0000_0000_0000;
        SilentIsFound(env, f.kind.typ, s, k);
      }
      if Sent(f, Found(env, k)) {
        var s := FoundIsSilent(env, f.kind.typ, k, wide);
      }
    }
  }

  /** What the schema has to be like, in terms of the types found: each counts its required
      fields, and the groups of those that can be sent in silence are sound. */
  predicate Sound(env: Schema, found: set<nat>) {
    forall t :: 0 <= t < |env| ==>
      CountsWith(env[t].fields, found) && (SendsAll(env[t].fields, found) ==> GroupsSound(env, t))
  }

  predicate CountsWith(fs: seq<Field>, found: set<nat>) {
    (forall i :: 0 <= i < |fs| && fs[i].presence.Required? && fs[i].tag > 64 ==> !Sent(fs[i], found)) || ReqCount(fs, 0) <= 1
  }

  predicate SendsAll(fs: seq<Field>, found: set<nat>) {
    forall i :: 0 <= i < |fs| && fs[i].presence.Required? ==> Sent(fs[i], found)
  }

  lemma {:induction false} TypeSound(env: Schema, t: nat, k: nat, wide: nat)
    requires ValidSchema(env) && t < |env| && Closed(env, k) && Roomy(env, k, wide)
    ensures CountsWith(env[t].fields, Found(env, k)) <==> CountsInMessage(env, env[t].fields)
    ensures SendsAll(env[t].fields, Found(env, k)) <==> Answers(env, t)
  {
    var fs := env[t].fields;
    forall i | 0 <= i < |fs| ensures Fillable(env, fs[i]) <==> Sent(fs[i], Found(env, k)) {
      assert ValidField(env, fs[i]);
      FillableIff(env, fs[i], k, wide);
    }
    assert forall i :: 0 <= i < |fs| ==> Sends(fs, i, |fs|) == fs[i].presence.Required?;
    hide Fillable, Found, Sent;
  }

  /** The exact condition for a message type, where it can be computed. */
  lemma {:induction false} CountsIff(env: Schema, t: nat, k: nat, wide: nat)
    requires ValidSchema(env) && t < |env| && Closed(env, k) && Roomy(env, k, wide)
    ensures TopTrusted(env, t, false) <==> CountsWith(env[t].fields, Found(env, k))
  {
    TypeSound(env, t, k, wide);
    TrustIff(env, t, false);
    hide CountsInMessage, CountsWith, TopTrusted, Answers, SendsAll, Found;
  }

  /** Where no required message field has a tag above 64 it is that of groups. */
  lemma {:induction false} PlainCounts(env: Schema, t: nat)
    requires ValidSchema(env) && t < |env|
    requires forall i :: 0 <= i < |env[t].fields| && env[t].fields[i].presence.Required? && env[t].fields[i].tag > 64 ==>
      !env[t].fields[i].kind.Message?
    ensures TopTrusted(env, t, false) <==> Counts(env[t].fields)
  {
    TrustIff(env, t, false);
    hide TopTrusted, Silent;
  }

  /** The exact condition for a schema, where it can be computed: messages that decode without
      a report have every required field set, at every depth. */
  lemma {:induction false} SoundIff(env: Schema, k: nat, wide: nat)
    requires ValidSchema(env) && |env| < 0x100_0000_0000_0000 && Closed(env, k) && Roomy(env, k, wide)
    ensures SilenceIsComplete(env) <==> Sound(env, Found(env, k))
  {
    hide SilenceIsComplete, CountsInMessage, CountsWith, Answers, SendsAll, GroupsSound, Found;
    ReliableIff(env);
    forall t | 0 <= t < |env|
      ensures CountsWith(env[t].fields, Found(env, k)) <==> CountsInMessage(env, env[t].fields)
      ensures SendsAll(env[t].fields, Found(env, k)) <==> Answers(env, t)
    {
      TypeSound(env, t, k, wide);
    }
  }
}
