/** When every message that decodes without a report has every required field set, at every
    depth (unmarshalType in gogo/protobuf/proto decode.go). */
module Reliability {
  import opened Words
  import opened Varint
  import opened Messages
  import opened Skipping
  import opened Decoding
  import opened Codec
  import opened Completeness
  import opened Courses
  import opened Requirements
  import opened Silence

  // -------------------------------------------- fields that always report something

  /** A required field that no message within n bytes fills in silence is still unset. */
  ghost predicate Untouched(env: Schema, t: nat, n: nat, p: Progress) {
    && t < |env| && Good(env, t, p.m)
    && (!p.nested ==> Unset(env, t, n, p.m))
  }

  ghost predicate Unset(env: Schema, t: nat, n: nat, m: Msg) {
    && |m.fields| == |FieldsOf(env, t)|
    && forall j :: 0 <= j < |m.fields| && FieldsOf(env, t)[j].presence.Required? && !FillableIn(env, FieldsOf(env, t)[j], n) ==>
         m.fields[j].Absent?
  }

  lemma {:induction false} StepUntouched(env: Schema, t: nat, s: seq<byte>, n: nat, p: Progress)
    requires ValidSchema(env) && Untouched(env, t, n, p) && |s| <= n
    ensures var r := UnmarshalStep(env, t, false, s, p);
      (r.Next? ==> Untouched(env, t, n, r.p)) && (r.Stop? ==> r.r.Hard?)
  {
    DecodedStep(env, t, false, s, p);
    var d := Decode(s);
    if d.Ok? && d.x % 8 != 4 && d.x / 8 != 0 {
      var found, rest := FindField(env[t].fields, d.x / 8, 0), s[d.n..];
      if found.Some? {
        var f, i := env[t].fields[found.value], found.value;
        assert ValidField(env, f) && GoodValue(env, f, p.m.fields[i]);
        if f.presence.Required? && WireMatches(f, d.x % 8) && DecodeField(env, f, false, rest, p.m.fields[i]).Got?
           && !FillableIn(env, f, n) {
          DeadReports(env, f, rest, n, p.m.fields[i]);
        }
      }
    }
    hide FillableIn, TypedMsg, CleanMsg, DecodeField, Skip, FindField, Decode;
  }

  lemma {:induction false} LoopUntouched(env: Schema, t: nat, s: seq<byte>, n: nat, p: Progress)
    requires ValidSchema(env) && Untouched(env, t, n, p) && |s| <= n
    ensures var r := Unmarshal(env, t, false, s, p); r.Done? && !r.missing ==> Unset(env, t, n, r.m)
    decreases |s|
  {
    hide UnmarshalStep, Good, Unset;
    if |s| > 0 {
      StepUntouched(env, t, s, n, p);
      match UnmarshalStep(env, t, false, s, p)
      case Stop(_) =>
      case Next(q, k) => LoopUntouched(env, t, s[k..], n, q);
    }
  }

  /** Where the counter can be trusted, input that decodes in silence contains, for every
      required message field, a shorter one that does. */
  lemma {:induction false} SilentFills(env: Schema, t: nat, s: seq<byte>)
    requires ValidSchema(env) && t < |env| && CountsIn(env, env[t].fields, |s|) && Silent(env, t, false, s)
    ensures forall j :: 0 <= j < |env[t].fields| && env[t].fields[j].presence.Required? ==>
      FillableIn(env, env[t].fields[j], |s|)
  {
    var start := Start(env, t, Empty(env, t));
    EmptyGood(env, t);
    StartKept(env, t, false);
    LoopKept(env, t, false, s, |s|, start);
    hide FillableIn, TopKept, Good, Unmarshal, TopCounted;
    LoopUntouched(env, t, s, |s|, start);
  }

  // ------------------------------------------------------------- at every depth

  /** Every required field of the type can be sent in silence. */
  ghost predicate Answers(env: Schema, t: nat) {
    t < |env| && AllFillable(env, env[t].fields, |env[t].fields|)
  }

  /** Each type counts its required fields, and the groups of those that can be sent in
      silence can be trusted as a whole. */
  ghost predicate Reliable(env: Schema) {
    && ValidSchema(env)
    && forall t :: 0 <= t < |env| ==>
         CountsInMessage(env, env[t].fields) && (Answers(env, t) ==> GroupsSound(env, t))
  }

  predicate GroupsSound(env: Schema, t: nat) {
    forall i :: 0 <= i < |FieldsOf(env, t)| ==> GroupSound(env, FieldsOf(env, t)[i])
  }

  /** In a type that does not answer, every input reports something. */
  lemma {:induction false} SilentAnswers(env: Schema, t: nat, s: seq<byte>)
    requires ValidSchema(env) && t < |env| && CountsInMessage(env, env[t].fields) && Silent(env, t, false, s)
    ensures Answers(env, t)
  {
    hide Silent, FillableIn, Fillable;
    TrustShort(env, t, false, |s|);
    SilentFills(env, t, s);
    var fs := env[t].fields;
    forall j | 0 <= j < |fs| && Sends(fs, j, |fs|) ensures Fillable(env, fs[j]) {
      Longer(env, fs[j], |s|, |s|);
    }
  }

  /** Also when the struct decoded into is not empty. */
  lemma {:induction false} MsgAnswers(env: Schema, t: nat, s: seq<byte>, m: Msg)
    requires Reliable(env) && t < |env| && Good(env, t, m)
    ensures var r := UnmarshalMsg(env, t, false, s, m); r.Done? && !r.missing ==> Answers(env, t)
  {
    EmptyGood(env, t);
    MsgCourse(env, t, false, s, m, Empty(env, t));
    hide UnmarshalMsg, Answers, Good, CountsInMessage;
    if Silent(env, t, false, s) {
      SilentAnswers(env, t, s);
    }
  }

  ghost predicate DeepKept(env: Schema, t: nat, p: Progress) {
    TopKept(env, t, false, p) && (!p.nested ==> BelowComplete(env, t, p.m))
  }

  lemma {:induction false} GroupDeep(env: Schema, f: Field, s: seq<byte>, m: Msg)
    requires Reliable(env) && ValidField(env, f) && f.kind.Group? && GroupSound(env, f) && Good(env, f.kind.typ, m)
    ensures var r := UnmarshalMsg(env, f.kind.typ, true, s, m); r.Done? && !r.missing ==> Complete(env, f.kind.typ, r.m)
  {
    var u := f.kind.typ;
    StartTop(env, u, m);
    LoopKept(env, u, true, s, |s|, Start(env, u, m));
    DecodedMsg(env, u, true, s, Start(env, u, m));
    var r := UnmarshalMsg(env, u, true, s, m);
    if r.Done? && !r.missing {
      NothingBelow(env, u, r.m);
      CompleteParts(env, u, r.m);
    }
  }

  lemma {:induction false} FieldDeep(env: Schema, f: Field, packed: bool, s: seq<byte>, v: Value)
    requires Reliable(env) && ValidField(env, f) && GroupSound(env, f) && (packed ==> Packable(f))
    requires GoodValue(env, f, v) && CompleteValue(env, f, v)
    ensures var r := DecodeField(env, f, packed, s, v); r.Got? && !r.missing ==> CompleteValue(env, f, r.v)
    decreases |s|, 3
  {
    if Struct(f) {
      TargetGood(env, f, v);
      TargetBelow(env, f, v);
    }
    match f.kind
    case Message(typ) =>
      if RawBytes(s).RawOk? {
        StartDeep(env, typ, Target(env, f, v));
        MsgAnswers(env, typ, RawBytes(s).b, Target(env, f, v));
        if Answers(env, typ) {
          LoopDeep(env, typ, RawBytes(s).b, Start(env, typ, Target(env, f, v)));
        }
      }
      hide Good, Reliable, Unmarshal, Answers;
    case Group(typ) =>
      GroupDeep(env, f, s, Target(env, f, v));
      hide Good, Reliable, Unmarshal, Answers;
    case _ =>
  }

  lemma {:induction false} TargetBelow(env: Schema, f: Field, v: Value)
    requires Struct(f) && CompleteValue(env, f, v)
    ensures BelowComplete(env, f.kind.typ, Target(env, f, v))
  {
    EmptyBelow(env, f.kind.typ);
  }

  lemma {:induction false} StartDeep(env: Schema, t: nat, m: Msg)
    requires t < |env| && Good(env, t, m) && BelowComplete(env, t, m)
    ensures DeepKept(env, t, Start(env, t, m))
  {
    StartTop(env, t, m);
  }

  lemma {:induction false} StepDeep(env: Schema, t: nat, s: seq<byte>, p: Progress)
    requires Reliable(env) && Answers(env, t) && DeepKept(env, t, p)
    ensures var r := UnmarshalStep(env, t, false, s, p);
      r.Next? && !r.p.nested ==> BelowComplete(env, t, r.p.m)
    decreases |s|, 0
  {
    var d := Decode(s);
    if d.Ok? && d.x % 8 != 4 && d.x / 8 != 0 && !p.nested {
      var found := FindField(env[t].fields, d.x / 8, 0);
      if found.Some? {
        var f, i := env[t].fields[found.value], found.value;
        assert ValidField(env, f) && GroupsSound(env, t) && GroupSound(env, FieldsOf(env, t)[i]);
        if WireMatches(f, d.x % 8) || (d.x % 8 == 2 && Packable(f)) {
          assert GoodValue(env, f, p.m.fields[i]);
          FieldDeep(env, f, !WireMatches(f, d.x % 8), s[d.n..], p.m.fields[i]);
        }
      }
    }
    hide CompleteValue, DecodeField, Good, TopCounted, GroupSound, CountsInMessage, AllFillable, Skip;
  }

  lemma {:induction false} LoopDeep(env: Schema, t: nat, s: seq<byte>, p: Progress)
    requires Reliable(env) && Answers(env, t) && DeepKept(env, t, p)
    ensures var r := Unmarshal(env, t, false, s, p); r.Done? && !r.missing ==> Complete(env, t, r.m)
    decreases |s|, 1
  {
    hide TopCounted, UnmarshalStep, Good, CompleteValue, BelowComplete;
    if |s| == 0 {
      if !p.nested && p.required <= 0 {
        TopDone(env[t].fields, p);
        CompleteParts(env, t, p.m);
      }
    } else {
      TrustShort(env, t, false, |s|);
      StepKept(env, t, false, s, |s|, p);
      StepDeep(env, t, s, p);
      match UnmarshalStep(env, t, false, s, p)
      case Stop(_) =>
      case Next(q, n) => LoopDeep(env, t, s[n..], q);
    }
  }

  /** In a reliable schema, a message that decodes in silence has every required field set,
      at every depth. */
  lemma {:induction false} SilenceMeansComplete(env: Schema, t: nat, s: seq<byte>)
    requires Reliable(env) && t < |env| && Silent(env, t, false, s)
    ensures Complete(env, t, UnmarshalMsg(env, t, false, s, Empty(env, t)).m)
  {
    EmptyGood(env, t);
    EmptyBelow(env, t);
    SilentAnswers(env, t, s);
    StartDeep(env, t, Empty(env, t));
    hide Good, BelowComplete, Reliable, Answers, Unmarshal, Complete, DeepKept;
    LoopDeep(env, t, s, Start(env, t, Empty(env, t)));
  }

  /** Every message that decodes in silence is complete. */
  ghost predicate SilenceIsComplete(env: Schema) {
    forall t: nat, s: seq<byte> {:induction false} :: t < |env| && Silent(env, t, false, s) ==>
      Complete(env, t, UnmarshalMsg(env, t, false, s, Empty(env, t)).m)
  }

  /** The exact condition, for all the types of a schema. */
  lemma {:induction false} ReliableIff(env: Schema)
    requires ValidSchema(env) && |env| < 0x100_0000_0000_0000
    ensures SilenceIsComplete(env) <==> Reliable(env)
  {
    hide Complete, UnmarshalMsg, Reliable, CountsInMessage, GroupsSound, Answers;
    if Reliable(env) {
      forall t: nat, s: seq<byte> {:induction false} | t < |env| && Silent(env, t, false, s)
        ensures Complete(env, t, UnmarshalMsg(env, t, false, s, Empty(env, t)).m)
      {
        SilenceMeansComplete(env, t, s);
      }
    }
    if SilenceIsComplete(env) {
      forall t | 0 <= t < |env| ensures CountsInMessage(env, env[t].fields) && (Answers(env, t) ==> GroupsSound(env, t)) {
        CompleteCounts(env, t);
        if Answers(env, t) {
          CompleteGroups(env, t);
        }
      }
      AllReliable(env);
    }
  }

  lemma {:induction false} AllReliable(env: Schema)
    requires ValidSchema(env)
    requires forall t :: 0 <= t < |env| ==>
      CountsInMessage(env, env[t].fields) && (Answers(env, t) ==> GroupsSound(env, t))
    ensures Reliable(env)
  {
  }

  lemma {:induction false} CompleteCounts(env: Schema, t: nat)
    requires ValidSchema(env) && SilenceIsComplete(env) && t < |env|
    ensures CountsInMessage(env, env[t].fields)
  {
    TrustIff(env, t, false);
    hide Silent, UnmarshalMsg, CountsInMessage, Complete, Lacks;
    forall s: seq<byte> {:induction false} | Silent(env, t, false, s)
      ensures !Lacks(FieldsOf(env, t), UnmarshalMsg(env, t, false, s, Empty(env, t)).m)
    {
      CompleteParts(env, t, UnmarshalMsg(env, t, false, s, Empty(env, t)).m);
    }
  }

  lemma {:induction false} CompleteGroups(env: Schema, t: nat)
    requires ValidSchema(env) && SilenceIsComplete(env) && Answers(env, t) && |env| < 0x100_0000_0000_0000
    ensures GroupsSound(env, t)
  {
    hide Silent, UnmarshalMsg, Complete, GroupSound, Fillable;
    var fs := env[t].fields;
    forall i | 0 <= i < |fs| ensures GroupSound(env, fs[i]) {
      if !GroupSound(env, fs[i]) {
        forall k | 0 <= k < |fs| && Sends(fs, k, i) ensures Fillable(env, fs[k]) {
          assert Sends(fs, k, |fs|);
        }
        var s := GroupForgets(env, t, i);
      }
    }
  }
}
