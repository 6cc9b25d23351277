/** How unmarshalType counts required fields (gogo/protobuf/proto decode.go), and input that
    sets every one of them. */
module Requirements {
  import opened Words
  import opened Varint
  import opened Messages
  import opened Encoding
  import opened Skipping
  import opened Decoding
  import opened RoundTrip
  import opened Completeness

  // -------------------------------------------------------------- the counter

  /** The required fields from the i-th on whose tags have not been seen. */
  function Unseen(fs: seq<Field>, seen: set<nat>, i: nat): nat
    decreases |fs| - i
  {
    if i >= |fs| then 0
    else (if fs[i].presence.Required? && fs[i].tag !in seen then 1 else 0) + Unseen(fs, seen, i + 1)
  }

  lemma {:induction false} UnseenAtFirst(fs: seq<Field>, i: nat)
    ensures Unseen(fs, {}, i) == ReqCount(fs, i)
    decreases |fs| - i
  {
    if i < |fs| {
      UnseenAtFirst(fs, i + 1);
    }
  }

  lemma {:induction false} UnseenLess(fs: seq<Field>, seen: set<nat>, k: nat, i: nat)
    requires DistinctTags(fs) && k < |fs| && i <= |fs|
    ensures Unseen(fs, seen + {fs[k].tag}, i) ==
      Unseen(fs, seen, i) - if i <= k && fs[k].presence.Required? && fs[k].tag !in seen then 1 else 0
    decreases |fs| - i
  {
    if i < |fs| {
      UnseenLess(fs, seen, k, i + 1);
      assert i != k ==> fs[i].tag != fs[k].tag;
    }
  }

  lemma {:induction false} UnseenPositive(fs: seq<Field>, seen: set<nat>, k: nat, i: nat)
    requires i <= k < |fs| && fs[k].presence.Required? && fs[k].tag !in seen
    ensures Unseen(fs, seen, i) > 0
    decreases k - i
  {
    if i < k {
      UnseenPositive(fs, seen, k, i + 1);
    }
  }

  /** As long as a required field is not set, the counter is positive. With two required
      fields or more this is because it is exact. */
  ghost predicate TopCounted(fs: seq<Field>, p: Progress) {
    && |p.m.fields| == |fs|
    && (Lacks(fs, p.m) ==> p.required > 0)
    && (ReqCount(fs, 0) > 1 ==>
          p.required == Unseen(fs, p.seen, 0)
          && forall i :: 0 <= i < |fs| && fs[i].presence.Required? && fs[i].tag in p.seen ==> !p.m.fields[i].Absent?)
  }

  lemma {:induction false} StoreTop(fs: seq<Field>, p: Progress, i: nat, v: Value, missing: bool)
    requires DistinctTags(fs) && i < |fs| && TopCounted(fs, p) && !v.Absent?
    requires ReqCount(fs, 0) > 1 && fs[i].presence.Required? ==> fs[i].tag <= 64
    ensures TopCounted(fs, StoreField(p, fs[i], i, v, missing))
  {
    var q := StoreField(p, fs[i], i, v, missing);
    UnseenLess(fs, p.seen, i, 0);
    assert forall j :: 0 <= j < |fs| && j != i ==> fs[j].tag != fs[i].tag;
    if Lacks(fs, q.m) {
      var j :| 0 <= j < |fs| && fs[j].presence.Required? && q.m.fields[j].Absent?;
      assert p.m.fields[j].Absent? && Lacks(fs, p.m);
      if fs[i].presence.Required? {
        if i < j {
          TwoRequired(fs, i, j, 0);
        } else {
          TwoRequired(fs, j, i, 0);
        }
        UnseenPositive(fs, q.seen, j, 0);
      }
    }
  }

  lemma {:induction false} StartTop(env: Schema, t: nat, m: Msg)
    requires t < |env| && |m.fields| == |env[t].fields|
    ensures TopCounted(env[t].fields, Start(env, t, m))
  {
    var fs, p := env[t].fields, Start(env, t, m);
    UnseenAtFirst(fs, 0);
    if Lacks(fs, p.m) {
      var j :| 0 <= j < |fs| && fs[j].presence.Required? && p.m.fields[j].Absent?;
      AtLeastOne(fs, j, 0);
    }
  }

  lemma {:induction false} SameTop(fs: seq<Field>, p: Progress, m: Msg)
    requires TopCounted(fs, p) && m.fields == p.m.fields
    ensures TopCounted(fs, p.(m := m))
  {
  }

  lemma {:induction false} TopDone(fs: seq<Field>, p: Progress)
    requires TopCounted(fs, p) && p.required <= 0
    ensures !Lacks(fs, p.m)
  {
  }

  lemma {:induction false} NotAbsent(env: Schema, f: Field, packed: bool, s: seq<byte>, v: Value)
    ensures var r := DecodeField(env, f, packed, s, v);
      r.Got? ==> !r.v.Absent? && (!Struct(f) ==> !r.missing)
  {
  }

  // --------------------------------------------- types whose counter can be trusted

  /** The bitmap covers every required field, or there is at most one. */
  predicate Counts(fs: seq<Field>) {
    (forall i :: 0 <= i < |fs| && fs[i].presence.Required? ==> fs[i].tag <= 64) || ReqCount(fs, 0) <= 1
  }

  ghost predicate Silent(env: Schema, t: nat, isGroup: bool, s: seq<byte>) {
    var r := UnmarshalMsg(env, t, isGroup, s, Empty(env, t));
    r.Done? && !r.missing
  }

  /** The field can be sent without a report: only a message may have no such input. */
  ghost predicate Fillable(env: Schema, f: Field) {
    f.kind.Message? ==> exists s: seq<byte> :: Silent(env, f.kind.typ, false, s) && |s| < 0x8000_0000_0000_0000
  }

  /** The same with fewer than n bytes inside the length prefix. */
  ghost predicate FillableIn(env: Schema, f: Field, n: nat) {
    f.kind.Message? ==>
      exists s: seq<byte> :: Silent(env, f.kind.typ, false, s) && |s| < n && |s| < 0x8000_0000_0000_0000
  }

  /** The same for messages: there required fields that always report something do no harm. */
  ghost predicate CountsInMessage(env: Schema, fs: seq<Field>) {
    (forall i :: 0 <= i < |fs| && fs[i].presence.Required? && fs[i].tag > 64 ==> !Fillable(env, fs[i]))
    || ReqCount(fs, 0) <= 1
  }

  /** The same for messages of at most n bytes. */
  ghost predicate CountsIn(env: Schema, fs: seq<Field>, n: nat) {
    (forall i :: 0 <= i < |fs| && fs[i].presence.Required? && fs[i].tag > 64 ==> !FillableIn(env, fs[i], n))
    || ReqCount(fs, 0) <= 1
  }

  /** One of the shortest messages that decode in silence. */
  ghost predicate Shortest(env: Schema, t: nat, s: seq<byte>) {
    && Silent(env, t, false, s) && |s| < 0x8000_0000_0000_0000
    && forall b: seq<byte> {:induction false} :: Silent(env, t, false, b) ==> |s| <= |b|
  }

  lemma {:induction false} SomeShortest(env: Schema, t: nat, s: seq<byte>)
    requires Silent(env, t, false, s) && |s| < 0x8000_0000_0000_0000
    ensures exists b: seq<byte> :: Shortest(env, t, b)
    decreases |s|
  {
    hide Silent;
    if !Shortest(env, t, s) {
      var b: seq<byte> :| Silent(env, t, false, b) && |b| < |s|;
      SomeShortest(env, t, b);
    }
  }

  lemma {:induction false} ShortestOf(env: Schema, f: Field)
    requires Fillable(env, f) && f.kind.Message?
    ensures exists s: seq<byte> :: Shortest(env, f.kind.typ, s)
  {
    hide Silent;
    var s: seq<byte> :| Silent(env, f.kind.typ, false, s) && |s| < 0x8000_0000_0000_0000;
    SomeShortest(env, f.kind.typ, s);
  }

  // ------------------------------------------------- input that sets required fields

  /** A value for a field, what it decodes to, and whether it reports something. With `silent`
      it does not. */
  ghost function Piece(env: Schema, f: Field, silent: bool): (seq<byte>, Value, bool)
    requires silent ==> Fillable(env, f)
    decreases silent, 0
  {
    match f.kind
    case Scalar(_, _) => (EncodeScalar(f.kind, 0), Word(0), false)
    case Bytes => (EncodeRaw([]), Blob([]), false)
    case Message(typ) =>
      if silent then
        ShortestOf(env, f);
        var s: seq<byte> :| Shortest(env, typ, s);
        (EncodeRaw(s), Child(UnmarshalMsg(env, typ, false, s, Empty(env, typ)).m), false)
      else (EncodeRaw([]), Child(Empty(env, typ)), ReqCount(FieldsOf(env, typ), 0) > 0)
    case Group(typ) =>
      if silent then
        var fs := FieldsOf(env, typ);
        (FillBytes(env, fs, 0, |fs|, false) + EndTag(f),
         Child(Fill(env, fs, 0, |fs|, false, Start(env, typ, Empty(env, typ))).m), false)
      else (EndTag(f), Child(Empty(env, typ)), ReqCount(FieldsOf(env, typ), 0) > 0)
  }

  /** The wire type it goes by. */
  function Wire(f: Field): nat {
    if f.kind.Group? then 3 else WireType(f.kind)
  }

  /** Which fields are sent: the required ones but the one at `skip`. */
  predicate Sends(fs: seq<Field>, i: nat, skip: nat) {
    i < |fs| && fs[i].presence.Required? && i != skip
  }

  ghost predicate AllFillable(env: Schema, fs: seq<Field>, skip: nat) {
    forall i :: 0 <= i < |fs| && Sends(fs, i, skip) ==> Fillable(env, fs[i])
  }

  ghost function FillBytes(env: Schema, fs: seq<Field>, i: nat, skip: nat, silent: bool): seq<byte>
    requires silent ==> AllFillable(env, fs, skip)
    decreases silent, 1 + |fs| - i
  {
    if i >= |fs| then []
    else if !Sends(fs, i, skip) then FillBytes(env, fs, i + 1, skip, silent)
    else
      Encode(8 * fs[i].tag + Wire(fs[i])) + Piece(env, fs[i], silent).0 + FillBytes(env, fs, i + 1, skip, silent)
  }

  ghost function Fill(env: Schema, fs: seq<Field>, i: nat, skip: nat, silent: bool, p: Progress): Progress
    requires silent ==> AllFillable(env, fs, skip)
    decreases silent, 1 + |fs| - i
  {
    if i >= |fs| || i >= |p.m.fields| then p
    else if !Sends(fs, i, skip) then Fill(env, fs, i + 1, skip, silent, p)
    else
      var (_, v, missing) := Piece(env, fs[i], silent);
      Fill(env, fs, i + 1, skip, silent, StoreField(p, fs[i], i, v, missing))
  }

  // ------------------------------------------------------------ and it is read so

  lemma {:induction false} EmptyMsg(env: Schema, t: nat, f: Field, tail: seq<byte>)
    requires 1 <= f.tag < 0x2000_0000
    ensures UnmarshalMsg(env, t, false, [], Empty(env, t)) == Done(Empty(env, t), 0, ReqCount(FieldsOf(env, t), 0) > 0)
    ensures UnmarshalMsg(env, t, true, EndTag(f) + tail, Empty(env, t))
            == Done(Empty(env, t), |EndTag(f)|, ReqCount(FieldsOf(env, t), 0) > 0)
  {
    StopAtEnd(env, t, f, tail, Start(env, t, Empty(env, t)));
  }

  /** A struct field reads what the decoder of its type reads. */
  lemma {:induction false} StructRead(env: Schema, f: Field, s: seq<byte>, was: Value)
    requires Struct(f) && Target(env, f, was) == Empty(env, f.kind.typ)
    ensures f.kind.Message? && RawBytes(s).RawOk? ==>
      var r := UnmarshalMsg(env, f.kind.typ, false, RawBytes(s).b, Empty(env, f.kind.typ));
      r.Done? ==> DecodeField(env, f, false, s, was) == Got(StoreChild(f, was, r.m), RawBytes(s).n, r.missing)
    ensures f.kind.Group? ==>
      var r := UnmarshalMsg(env, f.kind.typ, true, s, Empty(env, f.kind.typ));
      r.Done? ==> DecodeField(env, f, false, s, was) == Got(StoreChild(f, was, r.m), r.n, r.missing)
  {
    hide UnmarshalMsg;
  }

  lemma {:induction false} PlainRead(env: Schema, f: Field, silent: bool, tail: seq<byte>, was: Value)
    requires ValidField(env, f) && f.presence.Required? && !Struct(f)
    ensures var (b, v, missing) := Piece(env, f, silent);
      DecodeField(env, f, false, b + tail, was) == Got(v, |b|, missing) && !v.Absent? && !missing
  {
    if f.kind.Scalar? {
      WordRead(env, f, 0, tail, was);
    } else {
      RawRoundTrip([], tail);
    }
  }

  lemma {:induction false} MessagePieceRead(env: Schema, f: Field, silent: bool, tail: seq<byte>, was: Value)
    requires ValidField(env, f) && f.presence.Required? && f.kind.Message? && !was.Child?
    requires silent ==> Fillable(env, f)
    ensures var (b, v, missing) := Piece(env, f, silent);
      DecodeField(env, f, false, b + tail, was) == Got(v, |b|, missing) && !v.Absent? && (silent ==> !missing)
  {
    hide UnmarshalMsg, DecodeField;
    var typ := f.kind.typ;
    EmptyMsg(env, typ, f, []);
    if silent {
      ShortestOf(env, f);
      var s: seq<byte> :| Shortest(env, typ, s) &&
        Piece(env, f, silent) == (EncodeRaw(s), Child(UnmarshalMsg(env, typ, false, s, Empty(env, typ)).m), false);
      RawRoundTrip(s, tail);
      StructRead(env, f, EncodeRaw(s) + tail, was);
    } else {
      RawRoundTrip([], tail);
      StructRead(env, f, EncodeRaw([]) + tail, was);
    }
  }

  lemma {:induction false} GroupPieceRead(env: Schema, f: Field, silent: bool, tail: seq<byte>, was: Value)
    requires ValidSchema(env) && ValidField(env, f) && f.presence.Required? && f.kind.Group? && !was.Child?
    ensures var (b, v, missing) := Piece(env, f, silent);
      DecodeField(env, f, false, b + tail, was) == Got(v, |b|, missing) && !v.Absent? && (silent ==> !missing)
    decreases silent, 0
  {
    var typ := f.kind.typ;
    var fs, start := FieldsOf(env, typ), Start(env, typ, Empty(env, typ));
    var b := Piece(env, f, silent).0;
    if silent {
      var bytes, q := FillBytes(env, fs, 0, |fs|, false), Fill(env, fs, 0, |fs|, false, start);
      FillTakes(env, typ, true, 0, |fs|, false, EndTag(f) + tail, start);
      FillCounts(env, fs, 0, |fs|, false, start);
      OthersAll(fs, 0);
      StopAtEnd(env, typ, f, tail, q);
      GroupBytes(env, typ, bytes, EndTag(f), tail, start, q);
    } else {
      EmptyMsg(env, typ, f, tail);
    }
    StructRead(env, f, b + tail, was);
  }

  /** Bytes that lead to a state and then the end-group tag are a whole group body. */
  lemma {:induction false} GroupBytes(env: Schema, t: nat, bytes: seq<byte>, end: seq<byte>, tail: seq<byte>,
                                      p: Progress, q: Progress)
    requires Takes(env, t, true, bytes, end + tail, p, q)
    requires Unmarshal(env, t, true, end + tail, q) == Done(q.m, |end|, q.required > 0)
    ensures Unmarshal(env, t, true, bytes + end + tail, p) == Done(q.m, |bytes + end|, q.required > 0)
  {
    hide Unmarshal;
    assert bytes + end + tail == bytes + (end + tail);
  }

  lemma {:induction false} PieceRead(env: Schema, f: Field, silent: bool, tail: seq<byte>, was: Value)
    requires ValidSchema(env) && ValidField(env, f) && f.presence.Required? && !was.Child?
    requires silent ==> Fillable(env, f)
    ensures var (b, v, missing) := Piece(env, f, silent);
      DecodeField(env, f, false, b + tail, was) == Got(v, |b|, missing) && !v.Absent? && (silent ==> !missing)
    decreases silent, 1
  {
    hide Piece, DecodeField;
    match f.kind
    case Message(_) => MessagePieceRead(env, f, silent, tail, was);
    case Group(_) => GroupPieceRead(env, f, silent, tail, was);
    case _ => PlainRead(env, f, silent, tail, was);
  }

  /** No value of a field that is still to be sent is a struct. */
  predicate Unsent(fs: seq<Field>, i: nat, skip: nat, p: Progress) {
    |p.m.fields| == |fs| && forall k :: i <= k < |fs| && Sends(fs, k, skip) ==> !p.m.fields[k].Child?
  }

  lemma {:induction false} FillTakes(env: Schema, t: nat, isGroup: bool, i: nat, skip: nat, silent: bool,
                                     tail: seq<byte>, p: Progress)
    requires ValidSchema(env) && t < |env| && Unsent(env[t].fields, i, skip, p)
    requires silent ==> AllFillable(env, env[t].fields, skip)
    ensures Takes(env, t, isGroup, FillBytes(env, env[t].fields, i, skip, silent), tail, p,
                  Fill(env, env[t].fields, i, skip, silent, p))
    decreases silent, 2 + |env[t].fields| - i
  {
    hide Takes, Piece, Encode;
    var fs := env[t].fields;
    if i >= |fs| {
      TakesNothing(env, t, isGroup, tail, p);
    } else if !Sends(fs, i, skip) {
      FillTakes(env, t, isGroup, i + 1, skip, silent, tail, p);
    } else {
      var f := fs[i];
      assert ValidField(env, f);
      var (b, v, missing) := Piece(env, f, silent);
      var p1 := StoreField(p, f, i, v, missing);
      var first, rest := Encode(8 * f.tag + Wire(f)) + b, FillBytes(env, fs, i + 1, skip, silent);
      PieceRead(env, f, silent, rest + tail, p.m.fields[i]);
      TakeTagged(env, t, isGroup, i, Wire(f), b, rest + tail, p, v, missing);
      FillTakes(env, t, isGroup, i + 1, skip, silent, tail, p1);
      TakesThen(env, t, isGroup, first, rest, tail, p, p1, Fill(env, fs, i + 1, skip, silent, p1));
    }
  }

  /** How many fields are sent from the i-th on. */
  function Others(fs: seq<Field>, i: nat, skip: nat): nat
    decreases |fs| - i
  {
    if i >= |fs| then 0 else (if Sends(fs, i, skip) then 1 else 0) + Others(fs, i + 1, skip)
  }

  lemma {:induction false} OthersAll(fs: seq<Field>, i: nat)
    ensures Others(fs, i, |fs|) == ReqCount(fs, i)
    decreases |fs| - i
  {
    if i < |fs| {
      OthersAll(fs, i + 1);
    }
  }

  lemma {:induction false} OthersButOne(fs: seq<Field>, i: nat, skip: nat)
    requires skip < |fs| && fs[skip].presence.Required?
    ensures Others(fs, i, skip) == ReqCount(fs, i) - if i <= skip then 1 else 0
    decreases |fs| - i
  {
    if i < |fs| {
      OthersButOne(fs, i + 1, skip);
    }
  }

  lemma {:induction false} OthersNone(fs: seq<Field>, i: nat, skip: nat)
    requires skip < |fs| ==> !fs[skip].presence.Required?
    ensures Others(fs, i, skip) == ReqCount(fs, i)
    decreases |fs| - i
  {
    if i < |fs| {
      OthersNone(fs, i + 1, skip);
    }
  }

  /** None of the tags still to be sent has been seen. */
  predicate Fresh(fs: seq<Field>, i: nat, p: Progress) {
    forall k :: i <= k < |fs| ==> fs[k].tag !in p.seen
  }

  /** Sending lowers the counter by one for each field, reports nothing if it is silent, and
      leaves the other fields alone. */
  lemma {:induction false} FillCounts(env: Schema, fs: seq<Field>, i: nat, skip: nat, silent: bool, p: Progress)
    requires DistinctTags(fs) && |p.m.fields| == |fs| && Fresh(fs, i, p)
    requires silent ==> AllFillable(env, fs, skip)
    ensures var q := Fill(env, fs, i, skip, silent, p);
      && q.required == p.required - Others(fs, i, skip)
      && |q.m.fields| == |fs|
      && (silent && !p.nested ==> !q.nested)
      && (forall k :: 0 <= k < |fs| && (k < i || !Sends(fs, k, skip)) ==> q.m.fields[k] == p.m.fields[k])
      && (forall k :: i <= k < |fs| && Sends(fs, k, skip) ==> q.m.fields[k] == Piece(env, fs[k], silent).1)
      && (skip < |fs| && fs[skip].tag !in p.seen ==> fs[skip].tag !in q.seen)
    decreases |fs| - i
  {
    if i < |fs| {
      if Sends(fs, i, skip) {
        var (b, v, missing) := Piece(env, fs[i], silent);
        var p1 := StoreField(p, fs[i], i, v, missing);
        assert forall k :: 0 <= k < |fs| && k != i ==> fs[k].tag != fs[i].tag;
        if silent {
          SilentPiece(env, fs[i]);
        }
        hide Piece;
        FillCounts(env, fs, i + 1, skip, silent, p1);
      } else {
        hide Piece;
        FillCounts(env, fs, i + 1, skip, silent, p);
      }
    }
  }

  lemma {:induction false} SilentPiece(env: Schema, f: Field)
    requires Fillable(env, f)
    ensures !Piece(env, f, true).2
  {
  }
}
