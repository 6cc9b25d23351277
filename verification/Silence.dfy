/** What a decode that reports no missing field is worth: for the fields of a message, of a
    group, and below them (unmarshalType in gogo/protobuf/proto decode.go). */
module Silence {
  import opened Words
  import opened Varint
  import opened Messages
  import opened Encoding
  import opened Skipping
  import opened Decoding
  import opened RoundTrip
  import opened Codec
  import opened Completeness
  import opened Courses
  import opened Requirements

  // ---------------------------------------------------- the own fields of a struct

  /** For every input, a decode that reports nothing lacks nothing at the top. */
  ghost predicate TopTrusted(env: Schema, t: nat, isGroup: bool) {
    forall s: seq<byte> {:induction false} :: Silent(env, t, isGroup, s) ==>
      !Lacks(FieldsOf(env, t), UnmarshalMsg(env, t, isGroup, s, Empty(env, t)).m)
  }

  ghost predicate Trust(env: Schema, t: nat, isGroup: bool) {
    t < |env| && if isGroup then Counts(env[t].fields) else CountsInMessage(env, env[t].fields)
  }

  /** The same for input of at most n bytes. */
  ghost predicate TrustIn(env: Schema, t: nat, isGroup: bool, n: nat) {
    t < |env| && if isGroup then Counts(env[t].fields) else CountsIn(env, env[t].fields, n)
  }

  lemma {:induction false} TrustShort(env: Schema, t: nat, isGroup: bool, n: nat)
    requires Trust(env, t, isGroup)
    ensures TrustIn(env, t, isGroup, n)
  {
    hide Silent;
  }

  /** What the loop keeps: the counter is right, unless a message has already reported
      something that it will report. */
  ghost predicate TopKept(env: Schema, t: nat, isGroup: bool, p: Progress) {
    && t < |env| && Good(env, t, p.m)
    && (isGroup || !p.nested ==> TopCounted(env[t].fields, p))
  }

  /** A message field read in silence contains a message that decodes in silence. */
  lemma {:induction false} ReadIsFillable(env: Schema, f: Field, s: seq<byte>, v: Value)
    requires ValidSchema(env) && ValidField(env, f) && GoodValue(env, f, v) && f.kind.Message?
    requires DecodeField(env, f, false, s, v).Got? && !DecodeField(env, f, false, s, v).missing
    ensures FillableIn(env, f, |s|)
  {
    var b, typ := RawBytes(s).b, f.kind.typ;
    TargetGood(env, f, v);
    EmptyGood(env, typ);
    MsgCourse(env, typ, false, b, Target(env, f, v), Empty(env, typ));
    RawLength(s);
    hide UnmarshalMsg;
    assert Silent(env, typ, false, b);
  }

  lemma {:induction false} RawLength(s: seq<byte>)
    requires RawBytes(s).RawOk?
    ensures |RawBytes(s).b| < 0x8000_0000_0000_0000 && |RawBytes(s).b| < |s|
  {
    hide Decode;
  }

  lemma {:induction false} EmptyGood(env: Schema, t: nat)
    requires ValidSchema(env) && t < |env|
    ensures Good(env, t, Empty(env, t))
  {
    EmptyTyped(env, t);
  }

  lemma {:induction false} StoreKept(env: Schema, t: nat, isGroup: bool, p: Progress, i: nat, packed: bool,
                                     s: seq<byte>, n: nat)
    requires ValidSchema(env) && TrustIn(env, t, isGroup, n) && |s| <= n && TopKept(env, t, isGroup, p) && i < |env[t].fields|
    requires packed ==> Packable(env[t].fields[i])
    requires DecodeField(env, env[t].fields[i], packed, s, p.m.fields[i]).Got?
    ensures var f := env[t].fields[i]; var r := DecodeField(env, f, packed, s, p.m.fields[i]);
      var q := StoreField(p, f, i, r.v, r.missing);
      isGroup || !q.nested ==> TopCounted(env[t].fields, q)
  {
    var fs := env[t].fields;
    var f := fs[i];
    assert ValidField(env, f) && GoodValue(env, f, p.m.fields[i]);
    NotAbsent(env, f, packed, s, p.m.fields[i]);
    var r := DecodeField(env, f, packed, s, p.m.fields[i]);
    var q := StoreField(p, f, i, r.v, r.missing);
    if !isGroup && ReqCount(fs, 0) > 1 && f.presence.Required? && f.tag > 64 {
      DeadReports(env, f, s, n, p.m.fields[i]);
    }
    hide DecodeField, TopCounted, Good, GoodValue, FillableIn;
    if isGroup || !q.nested {
      StoreTop(fs, p, i, r.v, r.missing);
    }
  }

  /** A required field that cannot be sent in silence is never read in silence. */
  lemma {:induction false} DeadReports(env: Schema, f: Field, s: seq<byte>, n: nat, v: Value)
    requires ValidSchema(env) && ValidField(env, f) && GoodValue(env, f, v) && !FillableIn(env, f, n) && |s| <= n
    requires DecodeField(env, f, false, s, v).Got?
    ensures DecodeField(env, f, false, s, v).missing
  {
    Longer(env, f, |s|, n);
    if !DecodeField(env, f, false, s, v).missing {
      ReadIsFillable(env, f, s, v);
    }
  }

  lemma {:induction false} Longer(env: Schema, f: Field, k: nat, n: nat)
    requires k <= n
    ensures FillableIn(env, f, k) ==> FillableIn(env, f, n) && Fillable(env, f)
  {
    hide Silent;
  }

  lemma {:induction false} StepKept(env: Schema, t: nat, isGroup: bool, s: seq<byte>, n: nat, p: Progress)
    requires ValidSchema(env) && TrustIn(env, t, isGroup, n) && |s| <= n && TopKept(env, t, isGroup, p)
    ensures var r := UnmarshalStep(env, t, isGroup, s, p);
      && (r.Next? ==> TopKept(env, t, isGroup, r.p))
      && (r.Stop? && r.r.Done? && !r.r.missing ==> isGroup && r.r.m == p.m && p.required <= 0)
  {
    DecodedStep(env, t, isGroup, s, p);
    var d := Decode(s);
    if d.Ok? && d.x % 8 != 4 && d.x / 8 != 0 {
      var found, rest := FindField(env[t].fields, d.x / 8, 0), s[d.n..];
      if found.Some? {
        var f, i := env[t].fields[found.value], found.value;
        if WireMatches(f, d.x % 8) || (d.x % 8 == 2 && Packable(f)) {
          var packed := !WireMatches(f, d.x % 8);
          if DecodeField(env, f, packed, rest, p.m.fields[i]).Got? {
            StoreKept(env, t, isGroup, p, i, packed, rest, n);
          }
        }
      } else if Skip(rest, d.x % 8).SkipOk? && TopCounted(env[t].fields, p) {
        SameTop(env[t].fields, p, KeepUnknown(env, t, p.m, d.x, rest[..Skip(rest, d.x % 8).n]));
      }
    }
    hide TopCounted, Good, TypedMsg, CleanMsg, DecodeField, StoreField, Skip, FindField, Decode, KeepUnknown;
  }

  lemma {:induction false} LoopKept(env: Schema, t: nat, isGroup: bool, s: seq<byte>, n: nat, p: Progress)
    requires ValidSchema(env) && TrustIn(env, t, isGroup, n) && |s| <= n && TopKept(env, t, isGroup, p)
    ensures var r := Unmarshal(env, t, isGroup, s, p); r.Done? && !r.missing ==> !Lacks(env[t].fields, r.m)
    decreases |s|
  {
    hide TopCounted, Lacks, UnmarshalStep, Good;
    if isGroup || !p.nested {
      if p.required <= 0 {
        TopDone(env[t].fields, p);
      }
    }
    if |s| > 0 {
      StepKept(env, t, isGroup, s, n, p);
      match UnmarshalStep(env, t, isGroup, s, p)
      case Stop(_) =>
      case Next(q, k) => LoopKept(env, t, isGroup, s[k..], n, q);
    }
  }

  lemma {:induction false} StartKept(env: Schema, t: nat, isGroup: bool)
    requires ValidSchema(env) && t < |env|
    ensures TopKept(env, t, isGroup, Start(env, t, Empty(env, t)))
  {
    EmptyGood(env, t);
    StartTop(env, t, Empty(env, t));
  }

  /** The counter of a struct can be trusted where Trust says so. */
  lemma {:induction false} TrustIsEnough(env: Schema, t: nat, isGroup: bool)
    requires ValidSchema(env) && Trust(env, t, isGroup)
    ensures TopTrusted(env, t, isGroup)
  {
    StartKept(env, t, isGroup);
    hide TopKept, Trust, TrustIn, Lacks;
    forall s: seq<byte> {:induction false} | Silent(env, t, isGroup, s)
      ensures !Lacks(FieldsOf(env, t), UnmarshalMsg(env, t, isGroup, s, Empty(env, t)).m)
    {
      TrustShort(env, t, isGroup, |s|);
      LoopKept(env, t, isGroup, s, |s|, Start(env, t, Empty(env, t)));
    }
  }

  // -------------------------------------------------------------- how to fool it

  lemma {:induction false} AbsentIsGood(env: Schema, f: Field)
    requires f.presence.Required?
    ensures GoodValue(env, f, Absent)
  {
  }

  /** A required field is read in the same way into any struct. */
  lemma {:induction false} PieceAgain(env: Schema, f: Field, silent: bool, tail: seq<byte>, was: Value)
    requires ValidSchema(env) && ValidField(env, f) && f.presence.Required? && GoodValue(env, f, was)
    requires silent ==> Fillable(env, f)
    ensures var b := Piece(env, f, silent).0; var r := DecodeField(env, f, false, b + tail, was);
      && r.Got? && r.n == |b| && !r.v.Absent? && (silent ==> !r.missing) && GoodValue(env, f, r.v)
  {
    var b := Piece(env, f, silent).0;
    AbsentIsGood(env, f);
    PieceRead(env, f, silent, tail, Absent);
    FieldCourse(env, f, false, b + tail, Absent, was);
    NotAbsent(env, f, false, b + tail, was);
    DecodedField(env, f, false, b + tail, was);
  }

  function Copies(piece: seq<byte>, k: nat): seq<byte> {
    if k == 0 then [] else piece + Copies(piece, k - 1)
  }

  /** A required field with a tag above 64, sent once more: it is counted again. */
  lemma {:induction false} CopyTakes(env: Schema, t: nat, isGroup: bool, i: nat, tail: seq<byte>, p: Progress)
    returns (q: Progress)
    requires ValidSchema(env) && t < |env| && Good(env, t, p.m) && i < |env[t].fields|
    requires env[t].fields[i].presence.Required? && env[t].fields[i].tag > 64
    requires !isGroup ==> Fillable(env, env[t].fields[i])
    ensures var f := env[t].fields[i];
      Takes(env, t, isGroup, Encode(8 * f.tag + Wire(f)) + Piece(env, f, !isGroup).0, tail, p, q)
    ensures Counted(env, t, isGroup, i, 1, p, q)
  {
    hide Takes, DecodeField, Piece, Encode, Fillable, TypedValue, CleanValue;
    var f, was := env[t].fields[i], p.m.fields[i];
    assert ValidField(env, f) && GoodValue(env, f, was);
    var b := Piece(env, f, !isGroup).0;
    PieceAgain(env, f, !isGroup, tail, was);
    var r := DecodeField(env, f, false, b + tail, was);
    q := StoreField(p, f, i, r.v, r.missing);
    TakeTagged(env, t, isGroup, i, Wire(f), b, tail, p, r.v, r.missing);
    StoredGood(env, t, p.m, i, r.v);
  }

  /** The counter is k lower, nothing was reported, and the other fields are as they were. */
  ghost predicate Counted(env: Schema, t: nat, isGroup: bool, i: nat, k: nat, p: Progress, q: Progress) {
    && t < |env| && |q.m.fields| == |p.m.fields| == |env[t].fields|
    && q.required == p.required - k && (!isGroup && !p.nested ==> !q.nested) && Good(env, t, q.m)
    && forall j :: 0 <= j < |p.m.fields| && j != i ==> q.m.fields[j] == p.m.fields[j]
  }

  lemma {:induction false} CopiesTake(env: Schema, t: nat, isGroup: bool, i: nat, k: nat, tail: seq<byte>, p: Progress)
    returns (q: Progress)
    requires ValidSchema(env) && t < |env| && Good(env, t, p.m) && i < |env[t].fields|
    requires env[t].fields[i].presence.Required? && env[t].fields[i].tag > 64
    requires !isGroup ==> Fillable(env, env[t].fields[i])
    ensures var f := env[t].fields[i];
      Takes(env, t, isGroup, Copies(Encode(8 * f.tag + Wire(f)) + Piece(env, f, !isGroup).0, k), tail, p, q)
    ensures Counted(env, t, isGroup, i, k, p, q)
    decreases k
  {
    hide Takes, Piece, Encode, Fillable, TypedValue, CleanValue, ValidSchema;
    var f := env[t].fields[i];
    var one := Encode(8 * f.tag + Wire(f)) + Piece(env, f, !isGroup).0;
    if k == 0 {
      q := p;
      TakesNothing(env, t, isGroup, tail, p);
    } else {
      var rest := Copies(one, k - 1);
      var p1 := CopyTakes(env, t, isGroup, i, rest + tail, p);
      q := CopiesTake(env, t, isGroup, i, k - 1, tail, p1);
      TakesThen(env, t, isGroup, one, rest, tail, p, p1, q);
    }
  }

  lemma {:induction false} StoredGood(env: Schema, t: nat, m: Msg, i: nat, v: Value)
    requires t < |env| && Good(env, t, m) && i < |env[t].fields| && GoodValue(env, env[t].fields[i], v)
    ensures |m.fields| == |env[t].fields| && Good(env, t, m.(fields := m.fields[i := v]))
  {
  }

  /** The end-group tag of some group. */
  function AnyGroup(t: nat): Field {
    Field(1, Optional, Group(t))
  }

  /** Sent as often as there are required fields, it hides that all the others are missing. */
  lemma {:induction false} Fooled(env: Schema, t: nat, isGroup: bool, i: nat) returns (s: seq<byte>, m: Msg)
    requires ValidSchema(env) && t < |env| && i < |env[t].fields|
    requires env[t].fields[i].presence.Required? && env[t].fields[i].tag > 64
    requires !isGroup ==> Fillable(env, env[t].fields[i])
    ensures var f := env[t].fields[i];
      s == Copies(Encode(8 * f.tag + Wire(f)) + Piece(env, f, !isGroup).0, ReqCount(env[t].fields, 0))
           + if isGroup then EndTag(AnyGroup(t)) else []
    ensures UnmarshalMsg(env, t, isGroup, s, Empty(env, t)) == Done(m, |s|, false)
    ensures |m.fields| == |env[t].fields|
    ensures forall j :: 0 <= j < |m.fields| && j != i && env[t].fields[j].presence.Required? ==> m.fields[j].Absent?
  {
    hide Encode, Piece, Good, Takes, Copies, Unmarshal;
    var start, f := Start(env, t, Empty(env, t)), env[t].fields[i];
    EmptyGood(env, t);
    var copies := Copies(Encode(8 * f.tag + Wire(f)) + Piece(env, f, !isGroup).0, ReqCount(env[t].fields, 0));
    var end := if isGroup then EndTag(AnyGroup(t)) else [];
    var q := CopiesTake(env, t, isGroup, i, ReqCount(env[t].fields, 0), end, start);
    s, m := copies + end, q.m;
    Ends(env, t, isGroup, copies, start, q);
    AtLeastOne(env[t].fields, i, 0);
  }

  /** Bytes that lead to a state, and the end of the message or of the group. */
  lemma {:induction false} Ends(env: Schema, t: nat, isGroup: bool, bytes: seq<byte>, p: Progress, q: Progress)
    requires Takes(env, t, isGroup, bytes, if isGroup then EndTag(AnyGroup(t)) else [], p, q)
    ensures var s := bytes + if isGroup then EndTag(AnyGroup(t)) else [];
      Unmarshal(env, t, isGroup, s, p) == Done(q.m, |s|, (!isGroup && q.nested) || q.required > 0)
  {
    if isGroup {
      StopAtEnd(env, t, AnyGroup(t), [], q);
      assert EndTag(AnyGroup(t)) + [] == EndTag(AnyGroup(t));
    }
  }

  /** The exact condition, for messages and for groups: silence means that no required field
      of the struct itself is missing, if and only if there is at most one required field or
      each of them has a tag of at most 64. In a message, those with larger tags do no harm
      that are messages no input can decode into in silence. */
  lemma {:induction false} TrustIff(env: Schema, t: nat, isGroup: bool)
    requires ValidSchema(env) && t < |env|
    ensures TopTrusted(env, t, isGroup) <==> Trust(env, t, isGroup)
  {
    var fs := env[t].fields;
    if Trust(env, t, isGroup) {
      TrustIsEnough(env, t, isGroup);
    } else {
      var i :| 0 <= i < |fs| && fs[i].presence.Required? && fs[i].tag > 64 && (!isGroup ==> Fillable(env, fs[i]));
      if forall j :: 0 <= j < |fs| && fs[j].presence.Required? ==> j == i {
        OnlyOne(fs, i, 0);
      }
      var j :| 0 <= j < |fs| && fs[j].presence.Required? && j != i;
      hide Fillable, UnmarshalMsg, Copies, Piece;
      var s, m := Fooled(env, t, isGroup, i);
      assert m.fields[j].Absent?;
    }
  }

  // ------------------------------------------------- what lies below a group

  /** Every silent decode of a group body is complete below the group. */
  ghost predicate HidesNothing(env: Schema, u: nat) {
    forall s: seq<byte> {:induction false} :: Silent(env, u, true, s) ==>
      BelowComplete(env, u, UnmarshalMsg(env, u, true, s, Empty(env, u)).m)
  }

  /** `body` in front of `tail` is read as the struct m by the decoder of f's type. */
  ghost predicate ChildReads(env: Schema, f: Field, body: seq<byte>, tail: seq<byte>, m: Msg, missing: bool) {
    if f.kind.Message? then
      && RawBytes(body + tail).RawOk? && RawBytes(body + tail).n == |body|
      && var r := UnmarshalMsg(env, f.kind.typ, false, RawBytes(body + tail).b, Empty(env, f.kind.typ));
         r.Done? && r.m == m && r.missing == missing
    else
      f.kind.Group?
      && UnmarshalMsg(env, f.kind.typ, true, body + tail, Empty(env, f.kind.typ)) == Done(m, |body|, missing)
  }

  lemma {:induction false} ChildGot(env: Schema, f: Field, body: seq<byte>, tail: seq<byte>, m: Msg, missing: bool, was: Value)
    requires ChildReads(env, f, body, tail, m, missing) && Target(env, f, was) == Empty(env, f.kind.typ)
    ensures DecodeField(env, f, false, body + tail, was) == Got(StoreChild(f, was, m), |body|, missing)
  {
    StructRead(env, f, body + tail, was);
  }

  lemma {:induction false} TagLength(f: Field, w: nat)
    requires 1 <= f.tag < 0x2000_0000 && w < 8
    ensures 1 <= |Encode(8 * f.tag + w)| <= 10
  {
    DecodeEncode(8 * f.tag + w, []);
  }

  /** Nothing at all, where a field is required. */
  lemma {:induction false} NothingSent(env: Schema, f: Field, tail: seq<byte>) returns (body: seq<byte>, m: Msg, missing: bool)
    requires ValidSchema(env) && ValidField(env, f) && Struct(f) && ReqCount(env[f.kind.typ].fields, 0) > 0
    ensures ChildReads(env, f, body, tail, m, missing) && !Complete(env, f.kind.typ, m) && |body| <= 10
  {
    var w := f.kind.typ;
    EmptyMsg(env, w, f, tail);
    EmptyIncomplete(env, w);
    m, missing := Empty(env, w), true;
    if f.kind.Message? {
      RawRoundTrip([], tail);
      body := EncodeRaw([]);
      DecodeEncode(0, []);
    } else {
      body := EndTag(f);
      TagLength(f, 4);
    }
  }

  /** Where a required field is reached within k struct fields there is input, of bounded
      length, that leaves it out. */
  lemma {:induction false} LeftOut(env: Schema, f: Field, k: nat, tail: seq<byte>)
    returns (body: seq<byte>, m: Msg, missing: bool)
    requires ValidSchema(env) && ValidField(env, f) && Struct(f) && NeedsWithin(env, f.kind.typ, k)
    requires k < 0x100_0000_0000_0000
    ensures ChildReads(env, f, body, tail, m, missing) && !Complete(env, f.kind.typ, m) && |body| <= 30 * k + 10
    decreases k
  {
    var w := f.kind.typ;
    if ReqCount(env[w].fields, 0) > 0 {
      body, m, missing := NothingSent(env, f, tail);
    } else {
      var i :| 0 <= i < |env[w].fields| && Struct(env[w].fields[i]) && NeedsWithin(env, env[w].fields[i].kind.typ, k - 1);
      var g := env[w].fields[i];
      assert ValidField(env, g);
      var inner, child, miss := LeftOut(env, g, k - 1, if f.kind.Message? then [] else EndTag(f) + tail);
      body, m, missing := Wrapped(env, f, i, inner, child, miss, tail);
    }
  }

  /** One struct field around it. */
  lemma {:induction false} Wrapped(env: Schema, f: Field, i: nat, inner: seq<byte>, child: Msg, miss: bool, tail: seq<byte>)
    returns (body: seq<byte>, m: Msg, missing: bool)
    requires ValidSchema(env) && ValidField(env, f) && Struct(f) && i < |env[f.kind.typ].fields|
    requires Struct(env[f.kind.typ].fields[i]) && !Complete(env, env[f.kind.typ].fields[i].kind.typ, child)
    requires ChildReads(env, env[f.kind.typ].fields[i], inner, if f.kind.Message? then [] else EndTag(f) + tail, child, miss)
    requires |inner| < 0x7000_0000_0000_0000
    ensures ChildReads(env, f, body, tail, m, missing) && !Complete(env, f.kind.typ, m) && |body| <= |inner| + 30
  {
    hide ChildReads, Takes, Complete, CompleteValue, Encode, Unmarshal;
    var w := f.kind.typ;
    var g := env[w].fields[i];
    assert ValidField(env, g);
    var start := Start(env, w, Empty(env, w));
    var was := ZeroValue(g);
    var end := if f.kind.Message? then [] else EndTag(f) + tail;
    ChildGot(env, g, inner, end, child, miss, was);
    var v := StoreChild(g, was, child);
    hide DecodeField;
    TakeTagged(env, w, f.kind.Group?, i, Wire(g), inner, end, start, v, miss);
    TagLength(g, Wire(g));
    var q := StoreField(start, g, i, v, miss);
    var content := Encode(8 * g.tag + Wire(g)) + inner;
    m := q.m;
    HeldComplete(env, w, i, m, was, child);
    body, missing := ContentChild(env, f, content, tail, start, q);
  }

  /** What the struct field holds, with its length in front or its end tag behind. */
  lemma {:induction false} ContentChild(env: Schema, f: Field, content: seq<byte>, tail: seq<byte>, p: Progress, q: Progress)
    returns (body: seq<byte>, missing: bool)
    requires ValidField(env, f) && Struct(f) && p == Start(env, f.kind.typ, Empty(env, f.kind.typ))
    requires Takes(env, f.kind.typ, f.kind.Group?, content, if f.kind.Message? then [] else EndTag(f) + tail, p, q)
    requires |content| < 0x8000_0000_0000_0000
    ensures ChildReads(env, f, body, tail, q.m, missing) && |body| <= |content| + 10
  {
    hide ChildReads, Takes, Encode, Unmarshal;
    if f.kind.Message? {
      missing := q.nested || q.required > 0;
      body := EncodeRaw(content);
      MessageChild(env, f, content, tail, p, q);
    } else {
      missing := q.required > 0;
      body := content + EndTag(f);
      TagLength(f, 4);
      GroupChild(env, f, content, tail, p, q);
    }
  }

  lemma {:induction false} MessageChild(env: Schema, f: Field, content: seq<byte>, tail: seq<byte>, p: Progress, q: Progress)
    requires f.kind.Message? && p == Start(env, f.kind.typ, Empty(env, f.kind.typ)) && |content| < 0x8000_0000_0000_0000
    requires Takes(env, f.kind.typ, false, content, [], p, q)
    ensures ChildReads(env, f, EncodeRaw(content), tail, q.m, q.nested || q.required > 0)
    ensures |EncodeRaw(content)| <= |content| + 10
  {
    RawRoundTrip(content, tail);
    DecodeEncode(|content|, []);
    Ends(env, f.kind.typ, false, content, p, q);
    assert content + [] == content;
    hide Unmarshal, Decode, Encode;
  }

  lemma {:induction false} GroupChild(env: Schema, f: Field, content: seq<byte>, tail: seq<byte>, p: Progress, q: Progress)
    requires f.kind.Group? && 1 <= f.tag < 0x2000_0000 && p == Start(env, f.kind.typ, Empty(env, f.kind.typ))
    requires Takes(env, f.kind.typ, true, content, EndTag(f) + tail, p, q)
    ensures ChildReads(env, f, content + EndTag(f), tail, q.m, q.required > 0)
  {
    StopAtEnd(env, f.kind.typ, f, tail, q);
    GroupBytes(env, f.kind.typ, content, EndTag(f), tail, p, q);
  }

  /** A group body that sends every required field of the group, and a child that leaves one
      out: it decodes in silence. `f` is the group's field. */
  lemma {:induction false} GroupHides(env: Schema, f: Field, tail: seq<byte>) returns (body: seq<byte>, m: Msg)
    requires ValidSchema(env) && ValidField(env, f) && f.kind.Group? && NeedsBelow(env, f.kind.typ)
    requires |env| < 0x100_0000_0000_0000
    ensures UnmarshalMsg(env, f.kind.typ, true, body + tail, Empty(env, f.kind.typ)) == Done(m, |body|, false)
    ensures !BelowComplete(env, f.kind.typ, m) && AllSet(FieldsOf(env, f.kind.typ), m.fields)
  {
    hide ChildReads, BelowComplete, Complete, Encode, Unmarshal, DecodeField, Piece;
    var u := f.kind.typ;
    var fs := env[u].fields;
    var j :| 0 <= j < |fs| && Struct(fs[j]) && Needs(env, fs[j].kind.typ);
    assert ValidField(env, fs[j]);
    var child, c, miss := LeftOut(env, fs[j], |env|, EndTag(f) + tail);
    body, m := FilledAround(env, f, j, child, c, miss, tail);
  }

  /** The required fields of the group, that child, and the end of the group. */
  lemma {:induction false} FilledAround(env: Schema, f: Field, j: nat, child: seq<byte>, c: Msg, miss: bool, tail: seq<byte>)
    returns (body: seq<byte>, m: Msg)
    requires ValidSchema(env) && ValidField(env, f) && f.kind.Group? && j < |env[f.kind.typ].fields|
    requires var g := env[f.kind.typ].fields[j];
      Struct(g) && ChildReads(env, g, child, EndTag(f) + tail, c, miss) && !Complete(env, g.kind.typ, c)
    ensures UnmarshalMsg(env, f.kind.typ, true, body + tail, Empty(env, f.kind.typ)) == Done(m, |body|, false)
    ensures !BelowComplete(env, f.kind.typ, m) && AllSet(FieldsOf(env, f.kind.typ), m.fields)
  {
    hide ChildReads, Takes, BelowComplete, Complete, Encode, Unmarshal, DecodeField, Piece;
    var u := f.kind.typ;
    var fs, start := env[u].fields, Start(env, u, Empty(env, u));
    var g, end := fs[j], EndTag(f) + tail;
    assert ValidField(env, g);
    var sent := Encode(8 * g.tag + Wire(g)) + child;
    var fill, q := FillBytes(env, fs, 0, |fs|, false), Fill(env, fs, 0, |fs|, false, start);
    FillTakes(env, u, true, 0, |fs|, false, sent + end, start);
    FillCounts(env, fs, 0, |fs|, false, start);
    OthersAll(fs, 0);
    hide Fill, FillBytes;
    var was := q.m.fields[j];
    FilledTarget(env, g, j, fs, q);
    ChildGot(env, g, child, end, c, miss, was);
    var v := StoreChild(g, was, c);
    TakeTagged(env, u, true, j, Wire(g), child, end, q, v, miss);
    var r := StoreField(q, g, j, v, miss);
    TakesThen(env, u, true, fill, sent, end, start, q, r);
    StopAtEnd(env, u, f, tail, r);
    GroupBytes(env, u, fill + sent, EndTag(f), tail, start, r);
    body, m := fill + sent + EndTag(f), r.m;
    HeldComplete(env, u, j, m, was, c);
    forall k | 0 <= k < |fs| && fs[k].presence.Required? ensures !m.fields[k].Absent? {
      PieceThere(env, fs[k]);
    }
  }

  lemma {:induction false} PieceThere(env: Schema, f: Field)
    ensures !Piece(env, f, false).1.Absent?
  {
  }

  /** After filling, a struct field is empty: not there, or an empty struct. */
  lemma {:induction false} FilledTarget(env: Schema, g: Field, j: nat, fs: seq<Field>, q: Progress)
    requires j < |fs| == |q.m.fields| && g == fs[j] && Struct(g)
    requires q.m.fields[j] == if Sends(fs, j, |fs|) then Piece(env, g, false).1 else ZeroValue(g)
    ensures Target(env, g, q.m.fields[j]) == Empty(env, g.kind.typ)
  {
  }

  /** The exact condition: every silent decode of a group is complete below it, if and only if
      no struct field of its type reaches a type with a required field. (The number of message
      types is bounded so that the lengths of the counterexample fit their prefixes.) */
  lemma {:induction false} HidesNothingIff(env: Schema, u: nat)
    requires ValidSchema(env) && u < |env| < 0x100_0000_0000_0000
    ensures HidesNothing(env, u) <==> !NeedsBelow(env, u)
  {
    if NeedsBelow(env, u) {
      var body, m := GroupHides(env, AnyGroup(u), []);
      assert body + [] == body;
      hide UnmarshalMsg, BelowComplete;
      assert Silent(env, u, true, body);
    } else {
      forall s: seq<byte> {:induction false} | Silent(env, u, true, s)
        ensures BelowComplete(env, u, UnmarshalMsg(env, u, true, s, Empty(env, u)).m)
      {
        EmptyTyped(env, u);
        DecodedMsg(env, u, true, s, Start(env, u, Empty(env, u)));
        NothingBelow(env, u, UnmarshalMsg(env, u, true, s, Empty(env, u)).m);
      }
    }
  }

  /** For a group as a whole: silence means that every required field is set, at every depth,
      if and only if its own are counted right and there are none below. */
  lemma {:induction false} GroupCompleteIff(env: Schema, u: nat)
    requires ValidSchema(env) && u < |env| < 0x100_0000_0000_0000
    ensures (forall s: seq<byte> {:induction false} :: Silent(env, u, true, s) ==>
               Complete(env, u, UnmarshalMsg(env, u, true, s, Empty(env, u)).m))
            <==> Counts(env[u].fields) && !NeedsBelow(env, u)
  {
    TrustIff(env, u, true);
    HidesNothingIff(env, u);
    hide Silent, NeedsBelow, Counts, UnmarshalMsg, Complete, BelowComplete, Lacks;
    forall s: seq<byte> {:induction false} | Silent(env, u, true, s)
      ensures var m := UnmarshalMsg(env, u, true, s, Empty(env, u)).m;
        Complete(env, u, m) <==> BelowComplete(env, u, m) && !Lacks(FieldsOf(env, u), m)
    {
      CompleteParts(env, u, UnmarshalMsg(env, u, true, s, Empty(env, u)).m);
    }
  }

  /** What a group field needs for its silence to mean that it is complete (GroupCompleteIff). */
  predicate GroupSound(env: Schema, f: Field) {
    f.kind.Group? ==> Counts(FieldsOf(env, f.kind.typ)) && !NeedsBelow(env, f.kind.typ)
  }

  /** A group body that decodes in silence with a required field missing. */
  lemma {:induction false} GroupUnsound(env: Schema, f: Field) returns (body: seq<byte>, m: Msg)
    requires ValidSchema(env) && |env| < 0x100_0000_0000_0000 && ValidField(env, f) && !GroupSound(env, f)
    ensures UnmarshalMsg(env, f.kind.typ, true, body, Empty(env, f.kind.typ)) == Done(m, |body|, false)
    ensures !Complete(env, f.kind.typ, m)
  {
    hide UnmarshalMsg, NeedsBelow, BelowComplete, Complete, Piece, Copies;
    var u := f.kind.typ;
    var fs := env[u].fields;
    if NeedsBelow(env, u) {
      body, m := GroupHides(env, f, []);
      assert body + [] == body;
    } else {
      var i :| 0 <= i < |fs| && fs[i].presence.Required? && fs[i].tag > 64;
      body, m := Fooled(env, u, true, i);
      if forall j :: 0 <= j < |fs| && fs[j].presence.Required? ==> j == i {
        OnlyOne(fs, i, 0);
      }
      var j :| 0 <= j < |fs| && fs[j].presence.Required? && j != i;
      assert Lacks(fs, m);
    }
    CompleteParts(env, u, m);
  }

  /** So a group field loses a report: a message whose other required fields can be sent in
      silence decodes in silence with a required field missing inside the group. */
  lemma {:induction false} GroupForgets(env: Schema, t: nat, i: nat) returns (s: seq<byte>)
    requires ValidSchema(env) && t < |env| < 0x100_0000_0000_0000
    requires i < |env[t].fields| && !GroupSound(env, env[t].fields[i])
    requires AllFillable(env, env[t].fields, i)
    ensures Silent(env, t, false, s) && !Complete(env, t, UnmarshalMsg(env, t, false, s, Empty(env, t)).m)
  {
    var f := env[t].fields[i];
    assert ValidField(env, f);
    hide GroupSound, UnmarshalMsg, Complete, AllFillable;
    var body, m := GroupUnsound(env, f);
    assert body + [] == body;
    s := FilledWith(env, t, i, body, m);
  }

  /** The other required fields, and that group. */
  lemma {:induction false} FilledWith(env: Schema, t: nat, i: nat, body: seq<byte>, m: Msg) returns (s: seq<byte>)
    requires ValidSchema(env) && t < |env| && i < |env[t].fields| && AllFillable(env, env[t].fields, i)
    requires var f := env[t].fields[i];
      && f.kind.Group? && !Complete(env, f.kind.typ, m)
      && UnmarshalMsg(env, f.kind.typ, true, body + [], Empty(env, f.kind.typ)) == Done(m, |body|, false)
    ensures Silent(env, t, false, s) && !Complete(env, t, UnmarshalMsg(env, t, false, s, Empty(env, t)).m)
  {
    var fs, start := env[t].fields, Start(env, t, Empty(env, t));
    var f := fs[i];
    assert ValidField(env, f);
    var fill, q := FillBytes(env, fs, 0, i, true), Fill(env, fs, 0, i, true, start);
    var sent := StartTag(f) + body;
    FillTakes(env, t, false, 0, i, true, sent + [], start);
    FillCounts(env, fs, 0, i, true, start);
    var was := q.m.fields[i];
    var v := StoreChild(f, was, m);
    assert ChildReads(env, f, body, [], m, false);
    ChildGot(env, f, body, [], m, false, was);
    hide ChildReads, Takes, BelowComplete, CompleteValue, Encode, Unmarshal, DecodeField, Piece, Fill, FillBytes;
    TakeTagged(env, t, false, i, 3, body, [], q, v, false);
    var r := StoreField(q, f, i, v, false);
    TakesThen(env, t, false, fill, sent, [], start, q, r);
    s := fill + sent;
    Ends(env, t, false, s, start, r);
    assert s + [] == s;
    if f.presence.Required? {
      OthersButOne(fs, 0, i);
    } else {
      OthersNone(fs, 0, i);
    }
    HeldComplete(env, t, i, r.m, was, m);
  }
}
