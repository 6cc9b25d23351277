/** Which structs have all their required fields set, and which types have any below them
    (gogo/protobuf/proto decode.go, the promise of RequiredNotSetError). */
module Completeness {
  import opened Chains
  import opened Messages
  import opened Decoding

  // ---------------------------------------------------------- complete structs

  ghost predicate CompletePointer(env: Schema, f: Field, p: Pointer)
    decreases p
  {
    p.To? ==> Complete(env, TypeOf(f.kind), p.m)
  }

  ghost predicate CompleteValue(env: Schema, f: Field, v: Value)
    decreases v
  {
    match v
    case Child(m) => Complete(env, TypeOf(f.kind), m)
    case Children(ms) => forall i :: 0 <= i < |ms| ==> CompletePointer(env, f, ms[i])
    case _ => true
  }

  /** Every required field is set, at every depth. */
  ghost predicate Complete(env: Schema, t: nat, m: Msg)
    decreases m
  {
    && |m.fields| == |FieldsOf(env, t)|
    && AllSet(FieldsOf(env, t), m.fields)
    && forall i :: 0 <= i < |m.fields| ==> CompleteValue(env, FieldsOf(env, t)[i], m.fields[i])
  }

  predicate AllSet(fs: seq<Field>, vs: seq<Value>) {
    |vs| == |fs| && forall i :: 0 <= i < |fs| && fs[i].presence.Required? ==> !vs[i].Absent?
  }

  /** The same, but for the required fields of the outermost struct. */
  ghost predicate BelowComplete(env: Schema, t: nat, m: Msg) {
    && |m.fields| == |FieldsOf(env, t)|
    && forall i :: 0 <= i < |m.fields| ==> CompleteValue(env, FieldsOf(env, t)[i], m.fields[i])
  }

  /** Some required field of the outermost struct is not set. */
  predicate Lacks(fs: seq<Field>, m: Msg) {
    |m.fields| == |fs| && exists i :: 0 <= i < |fs| && fs[i].presence.Required? && m.fields[i].Absent?
  }

  predicate Struct(f: Field) {
    f.kind.Message? || f.kind.Group?
  }

  // ------------------------------------------------- required fields and their number

  lemma {:induction false} NoneRequired(fs: seq<Field>, k: nat, i: nat)
    requires ReqCount(fs, i) == 0 && i <= k < |fs|
    ensures !fs[k].presence.Required?
    decreases k - i
  {
    if i < k {
      NoneRequired(fs, k, i + 1);
    }
  }

  lemma {:induction false} AtLeastOne(fs: seq<Field>, k: nat, i: nat)
    requires i <= k < |fs| && fs[k].presence.Required?
    ensures ReqCount(fs, i) >= 1
    decreases k - i
  {
    if i < k {
      AtLeastOne(fs, k, i + 1);
    }
  }

  lemma {:induction false} TwoRequired(fs: seq<Field>, j: nat, k: nat, i: nat)
    requires i <= j < k < |fs| && fs[j].presence.Required? && fs[k].presence.Required?
    ensures ReqCount(fs, i) >= 2
    decreases j - i
  {
    if i == j {
      AtLeastOne(fs, k, i + 1);
    } else {
      TwoRequired(fs, j, k, i + 1);
    }
  }

  lemma {:induction false} OnlyOne(fs: seq<Field>, k: nat, i: nat)
    requires forall j :: i <= j < |fs| && fs[j].presence.Required? ==> j == k
    ensures ReqCount(fs, i) <= if i <= k then 1 else 0
    decreases |fs| - i
  {
    if i < |fs| {
      OnlyOne(fs, k, i + 1);
    }
  }

  lemma {:induction false} SomeRequired(fs: seq<Field>, i: nat) returns (k: nat)
    requires ReqCount(fs, i) > 0
    ensures i <= k < |fs| && fs[k].presence.Required?
    decreases |fs| - i
  {
    k := i;
    if !fs[i].presence.Required? {
      k := SomeRequired(fs, i + 1);
    }
  }

  // ------------------------------------------------------------- what a type reaches

  /** Type t, or one reached from it through at most k struct fields, has a required field. */
  predicate NeedsWithin(env: Schema, t: nat, k: nat)
    decreases k
  {
    t < |env| &&
    (ReqCount(env[t].fields, 0) > 0
     || (k > 0 && exists i :: 0 <= i < |env[t].fields| && Struct(env[t].fields[i])
                              && NeedsWithin(env, env[t].fields[i].kind.typ, k - 1)))
  }

  /** As many steps as there are types are enough (NeedsStep). */
  predicate Needs(env: Schema, t: nat) {
    NeedsWithin(env, t, |env|)
  }

  /** Some struct field of type t reaches a type with a required field. */
  predicate NeedsBelow(env: Schema, t: nat) {
    exists i :: 0 <= i < |FieldsOf(env, t)| && Struct(FieldsOf(env, t)[i]) && Needs(env, FieldsOf(env, t)[i].kind.typ)
  }

  function Level(env: Schema, k: nat): set<nat> {
    set t: nat | t < |env| && NeedsWithin(env, t, k)
  }

  lemma {:induction false} LevelsGrow(env: Schema, t: nat, k: nat)
    requires NeedsWithin(env, t, k)
    ensures NeedsWithin(env, t, k + 1)
    decreases k
  {
    if ReqCount(env[t].fields, 0) == 0 {
      var i :| 0 <= i < |env[t].fields| && Struct(env[t].fields[i]) && NeedsWithin(env, env[t].fields[i].kind.typ, k - 1);
      LevelsGrow(env, env[t].fields[i].kind.typ, k - 1);
    }
  }

  lemma {:induction false} LevelGrows(env: Schema, k: nat)
    ensures Level(env, k) <= Level(env, k + 1)
    ensures Level(env, k) == Level(env, k + 1) ==> Level(env, k + 1) == Level(env, k + 2)
  {
    forall t | t in Level(env, k) ensures t in Level(env, k + 1) {
      LevelsGrow(env, t, k);
    }
    if Level(env, k) == Level(env, k + 1) {
      LevelStays(env, k);
    }
  }

  lemma {:induction false} LevelStays(env: Schema, k: nat)
    requires Level(env, k) == Level(env, k + 1)
    ensures Level(env, k + 1) == Level(env, k + 2)
  {
    var a, b := Level(env, k + 1), Level(env, k + 2);
    forall t | t in a ensures t in b {
      LevelsGrow(env, t, k + 1);
    }
    forall t | t in b ensures t in a {
      if ReqCount(env[t].fields, 0) == 0 {
        var i :| 0 <= i < |env[t].fields| && Struct(env[t].fields[i]) && NeedsWithin(env, env[t].fields[i].kind.typ, k + 1);
        assert env[t].fields[i].kind.typ in a;
      }
    }
  }

  /** Reaching is what it should be: here, or one struct field further on. */
  lemma {:induction false} NeedsStep(env: Schema, t: nat)
    requires t < |env|
    ensures Needs(env, t) <==> ReqCount(env[t].fields, 0) > 0 || NeedsBelow(env, t)
  {
    var n := |env|;
    var levels := seq(n + 2, (k: nat) => Level(env, k));
    forall k: nat | k <= n ensures Rises(levels, k) {
      LevelGrows(env, k);
    }
    ChainStops(levels, n);
    assert t in Level(env, n) <==> t in Level(env, n + 1);
    if NeedsBelow(env, t) {
      assert NeedsWithin(env, t, n + 1);
    }
    if NeedsWithin(env, t, n + 1) && ReqCount(env[t].fields, 0) == 0 {
      var i :| 0 <= i < |env[t].fields| && Struct(env[t].fields[i]) && NeedsWithin(env, env[t].fields[i].kind.typ, n);
      assert Needs(env, FieldsOf(env, t)[i].kind.typ);
    }
  }

  // ------------------------------------------------------ nothing needed, nothing missing

  lemma {:induction false} NothingNeeded(env: Schema, t: nat, m: Msg)
    requires ValidSchema(env) && t < |env| && TypedMsg(env, t, m) && !Needs(env, t)
    ensures Complete(env, t, m)
    decreases m, 1
  {
    NeedsStep(env, t);
    forall i | 0 <= i < |m.fields| && env[t].fields[i].presence.Required? ensures false {
      NoneRequired(env[t].fields, i, 0);
    }
    NothingBelow(env, t, m);
  }

  /** A typed struct none of whose struct fields reaches a required field is complete below. */
  lemma {:induction false} NothingBelow(env: Schema, t: nat, m: Msg)
    requires ValidSchema(env) && t < |env| && TypedMsg(env, t, m) && !NeedsBelow(env, t)
    ensures BelowComplete(env, t, m)
    decreases m, 0
  {
    forall i | 0 <= i < |m.fields| ensures CompleteValue(env, env[t].fields[i], m.fields[i]) {
      assert ValidField(env, env[t].fields[i]) && TypedValue(env, env[t].fields[i], m.fields[i]);
      ValueNeedsNothing(env, env[t].fields[i], m.fields[i]);
    }
  }

  lemma {:induction false} ValueNeedsNothing(env: Schema, f: Field, v: Value)
    requires ValidSchema(env) && ValidField(env, f) && TypedValue(env, f, v)
    requires Struct(f) ==> !Needs(env, f.kind.typ)
    ensures CompleteValue(env, f, v)
    decreases v
  {
    match v
    case Child(m) => NothingNeeded(env, f.kind.typ, m);
    case Children(ms) =>
      forall i | 0 <= i < |ms| ensures CompletePointer(env, f, ms[i]) {
        PointerNeedsNothing(env, f, ms[i]);
      }
    case _ =>
  }

  lemma {:induction false} PointerNeedsNothing(env: Schema, f: Field, p: Pointer)
    requires ValidSchema(env) && ValidField(env, f) && Struct(f) && !Needs(env, f.kind.typ)
    requires p.To? ==> TypedMsg(env, f.kind.typ, p.m)
    ensures CompletePointer(env, f, p)
    decreases p
  {
    if p.To? {
      NothingNeeded(env, f.kind.typ, p.m);
    }
  }

  /** What a complete struct holds is complete. */
  lemma {:induction false} HeldComplete(env: Schema, t: nat, i: nat, m: Msg, was: Value, child: Msg)
    requires i < |FieldsOf(env, t)| == |m.fields| && Struct(FieldsOf(env, t)[i])
    requires m.fields[i] == StoreChild(FieldsOf(env, t)[i], was, child)
    ensures BelowComplete(env, t, m) ==> Complete(env, FieldsOf(env, t)[i].kind.typ, child)
    ensures Complete(env, t, m) ==> Complete(env, FieldsOf(env, t)[i].kind.typ, child)
  {
    if BelowComplete(env, t, m) {
      var f, v := FieldsOf(env, t)[i], m.fields[i];
      assert CompleteValue(env, f, v);
      if v.Children? {
        assert CompletePointer(env, f, v.ms[|v.ms| - 1]);
      }
    }
  }

  lemma {:induction false} EmptyIncomplete(env: Schema, t: nat)
    requires ReqCount(FieldsOf(env, t), 0) > 0
    ensures !Complete(env, t, Empty(env, t)) && Lacks(FieldsOf(env, t), Empty(env, t))
  {
    var k := SomeRequired(FieldsOf(env, t), 0);
    assert Empty(env, t).fields[k].Absent?;
  }

  lemma {:induction false} EmptyBelow(env: Schema, t: nat)
    ensures BelowComplete(env, t, Empty(env, t))
  {
  }

  lemma {:induction false} CompleteParts(env: Schema, t: nat, m: Msg)
    ensures Complete(env, t, m) <==> BelowComplete(env, t, m) && !Lacks(FieldsOf(env, t), m)
  {
  }
}
