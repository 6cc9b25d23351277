/** The course of a decode (where it stops, what it reports) does not depend on the struct
    decoded into (unmarshalType in gogo/protobuf/proto decode.go). */
module Courses {
  import opened Words
  import opened Varint
  import opened Messages
  import opened Skipping
  import opened Decoding
  import opened Codec

  predicate Alike(r: Result, q: Result) {
    if r.Hard? then q.Hard? else q.Done? && q.n == r.n && q.missing == r.missing
  }

  predicate AlikeField(r: FieldResult, q: FieldResult) {
    if r.HardField? then q.HardField? else q.Got? && q.n == r.n && q.missing == r.missing
  }

  /** The loop with the same counters. */
  predicate SameCounters(p: Progress, q: Progress) {
    p.required == q.required && p.seen == q.seen && p.nested == q.nested
  }

  ghost predicate Good(env: Schema, t: nat, m: Msg) {
    TypedMsg(env, t, m) && CleanMsg(env, t, m)
  }

  ghost predicate GoodValue(env: Schema, f: Field, v: Value) {
    TypedValue(env, f, v) && CleanValue(env, f, v)
  }

  lemma {:induction false} PackedCourse(k: Kind, s: seq<byte>, left: int, ws: seq<uint64>, us: seq<uint64>)
    requires k.Scalar?
    ensures var r, q := PackedLoop(k, s, left, ws), PackedLoop(k, s, left, us);
      if r.PackedFail? then q.PackedFail? else q.PackedOk? && q.n == r.n
    decreases |s|
  {
    if left > 0 {
      match DecodeWord(k.coding, s)
      case Fail(_) =>
      case Ok(x, n) =>
        PackedCourse(k, s[n..], left - n, ws + [Narrow(k.go, x)], us + [Narrow(k.go, x)]);
    }
  }

  lemma {:induction false} FieldCourse(env: Schema, f: Field, packed: bool, s: seq<byte>, v: Value, w: Value)
    requires ValidSchema(env) && ValidField(env, f) && (packed ==> Packable(f))
    requires GoodValue(env, f, v) && GoodValue(env, f, w)
    ensures AlikeField(DecodeField(env, f, packed, s, v), DecodeField(env, f, packed, s, w))
    decreases |s|, 3
  {
    match f.kind
    case Scalar(_, _) =>
      if packed && Decode(s).Ok? {
        PackedCourse(f.kind, s[Decode(s).n..], Decode(s).x, WordsOf(v), WordsOf(w));
      }
    case Bytes =>
    case Message(typ) =>
      TargetGood(env, f, v);
      TargetGood(env, f, w);
      if RawBytes(s).RawOk? {
        MsgCourse(env, typ, false, RawBytes(s).b, Target(env, f, v), Target(env, f, w));
      }
      hide UnmarshalMsg, GoodValue, Good;
    case Group(typ) =>
      TargetGood(env, f, v);
      TargetGood(env, f, w);
      MsgCourse(env, typ, true, s, Target(env, f, v), Target(env, f, w));
      hide UnmarshalMsg, GoodValue, Good;
  }

  lemma {:induction false} MsgCourse(env: Schema, t: nat, isGroup: bool, s: seq<byte>, m: Msg, n: Msg)
    requires ValidSchema(env) && t < |env| && Good(env, t, m) && Good(env, t, n)
    ensures Alike(UnmarshalMsg(env, t, isGroup, s, m), UnmarshalMsg(env, t, isGroup, s, n))
    decreases |s|, 2
  {
    LoopCourse(env, t, isGroup, s, Start(env, t, m), Start(env, t, n));
  }

  lemma {:induction false} StepCourse(env: Schema, t: nat, isGroup: bool, s: seq<byte>, p: Progress, q: Progress)
    requires ValidSchema(env) && t < |env| && Good(env, t, p.m) && Good(env, t, q.m) && SameCounters(p, q)
    ensures var x, y := UnmarshalStep(env, t, isGroup, s, p), UnmarshalStep(env, t, isGroup, s, q);
      if x.Stop? then y.Stop? && Alike(x.r, y.r) else y.Next? && y.n == x.n && SameCounters(x.p, y.p)
    decreases |s|, 0
  {
    hide DecodeField, Skip, DecodeAt, KeepUnknown, TypedValue, CleanValue;
    var d := Decode(s);
    if d.Ok? && d.x % 8 != 4 && d.x / 8 != 0 {
      var found := FindField(env[t].fields, d.x / 8, 0);
      if found.Some? {
        var f, i := env[t].fields[found.value], found.value;
        assert ValidField(env, f);
        assert GoodValue(env, f, p.m.fields[i]) && GoodValue(env, f, q.m.fields[i]);
        if WireMatches(f, d.x % 8) || (d.x % 8 == 2 && Packable(f)) {
          FieldCourse(env, f, !WireMatches(f, d.x % 8), s[d.n..], p.m.fields[i], q.m.fields[i]);
        }
      }
    }
  }

  lemma {:induction false} LoopCourse(env: Schema, t: nat, isGroup: bool, s: seq<byte>, p: Progress, q: Progress)
    requires ValidSchema(env) && t < |env| && Good(env, t, p.m) && Good(env, t, q.m) && SameCounters(p, q)
    ensures Alike(Unmarshal(env, t, isGroup, s, p), Unmarshal(env, t, isGroup, s, q))
    decreases |s|, 1
  {
    if |s| > 0 {
      StepCourse(env, t, isGroup, s, p, q);
      DecodedStep(env, t, isGroup, s, p);
      DecodedStep(env, t, isGroup, s, q);
      hide UnmarshalStep, TypedMsg, CleanMsg;
      var x, y := UnmarshalStep(env, t, isGroup, s, p), UnmarshalStep(env, t, isGroup, s, q);
      if x.Next? {
        LoopCourse(env, t, isGroup, s[x.n..], x.p, y.p);
      }
    }
  }
}
