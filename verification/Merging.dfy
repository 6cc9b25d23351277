/** What reading a message into a struct that already holds one should give (the documented
    meaning of UnmarshalMerge in gogo/protobuf/proto decode.go). */
module Merging {
  import opened Messages

  /** Of scalars and bytes the last one wins, structs are merged, repeated fields are
      appended. What is not written, because it is unset or zero, changes nothing. */
  function MergeValue(env: Schema, f: Field, v: Value, w: Value): Value
    decreases w
  {
    match w
    case Absent => v
    case Word(x) => if f.presence.Implicit? && x == 0 then v else w
    case Blob(b) => if f.presence.Implicit? && b == [] then v else w
    case Child(m) => if v.Child? then Child(MergeMsg(env, TypeOf(f.kind), v.m, m)) else w
    case Words(ws) => if v.Words? then Words(v.ws + ws) else w
    case Blobs(bs) => if v.Blobs? then Blobs(v.bs + bs) else w
    case Children(ms) => if v.Children? then Children(v.ms + ms) else w
  }

  /** Field by field, and the unrecognized bytes one after the other. */
  function MergeMsg(env: Schema, t: nat, a: Msg, b: Msg): (m: Msg)
    ensures |m.fields| == |b.fields|
    decreases b
  {
    Msg(seq(|b.fields|, i requires 0 <= i < |b.fields| =>
              if i < |a.fields| && i < |FieldsOf(env, t)| then
                MergeValue(env, FieldsOf(env, t)[i], a.fields[i], b.fields[i])
              else b.fields[i]),
        a.unknown + b.unknown)
  }

  /** Reading into a fresh struct gives the message itself. */
  lemma {:induction false} MergeEmpty(env: Schema, t: nat, m: Msg)
    requires ValidSchema(env) && t < |env| && TypedMsg(env, t, m)
    ensures MergeMsg(env, t, Empty(env, t), m) == m
  {
    var q := MergeMsg(env, t, Empty(env, t), m);
    forall i | 0 <= i < |m.fields| ensures q.fields[i] == m.fields[i] {
      MergeZero(env, env[t].fields[i], m.fields[i]);
    }
    assert q.fields == m.fields;
    assert [] + m.unknown == m.unknown;
  }

  lemma {:induction false} MergeZero(env: Schema, f: Field, v: Value)
    requires ValidField(env, f) && TypedValue(env, f, v)
    ensures MergeValue(env, f, ZeroValue(f), v) == v
  {
    match v
    case Words(ws) => assert [] + ws == ws;
    case Blobs(bs) => assert [] + bs == bs;
    case Children(ms) => assert [] + ms == ms;
    case _ =>
  }
}
