/** unmarshalType and the field decoders as functions of the bytes still to be read
    (gogo/protobuf/proto decode.go). Decoder proves that the in-place decoder computes
    exactly these. */
module Decoding {
  import opened Words
  import opened Varint
  import opened Messages
  import opened Encoding
  import opened Skipping

  /** A hard error, or the decoded struct, the bytes read, and whether a required field
      was reported missing (RequiredNotSetError). */
  datatype Result = Hard(error: Error) | Done(m: Msg, n: nat, missing: bool)

  /** The same for one field. */
  datatype FieldResult = HardField(error: Error) | Got(v: Value, n: nat, missing: bool)

  /** The variables of unmarshalType's loop: `required` counts the required fields not yet
      seen, `seen` is the bitmap reqFields, and `nested` says that an embedded message
      reported a missing field (state.err). */
  datatype Progress = Progress(m: Msg, required: int, seen: set<nat>, nested: bool)

  /** One round of the loop: it returns, or goes on after n bytes. */
  datatype Step = Stop(r: Result) | Next(p: Progress, n: nat)

  /** The elements of a packed field: read while fewer than `left` bytes are consumed. */
  datatype PackedResult = PackedFail(error: Error) | PackedOk(ws: seq<uint64>, n: nat)

  // -------------------------------------------------------------- lookup

  /** decoderTags.get. */
  function FindField(fs: seq<Field>, tag: nat, i: nat): (r: Option<nat>)
    ensures r.Some? ==> i <= r.value < |fs| && fs[r.value].tag == tag
    ensures r.None? ==> forall j :: i <= j < |fs| ==> fs[j].tag != tag
    decreases |fs| - i
  {
    if i >= |fs| then None else if fs[i].tag == tag then Some(i) else FindField(fs, tag, i + 1)
  }

  lemma {:induction false} FindFieldAt(fs: seq<Field>, k: nat, i: nat)
    requires DistinctTags(fs) && i <= k < |fs|
    ensures FindField(fs, fs[k].tag, i) == Some(k)
    decreases k - i
  {
    if i < k {
      FindFieldAt(fs, k, i + 1);
    }
  }

  /** reqCount from the i-th field on. */
  function ReqCount(fs: seq<Field>, i: nat): nat
    decreases |fs| - i
  {
    if i >= |fs| then 0 else (if fs[i].presence.Required? then 1 else 0) + ReqCount(fs, i + 1)
  }

  // ------------------------------------------------------------- decoders

  function WordsOf(v: Value): seq<uint64> { if v.Words? then v.ws else [] }

  function BlobsOf(v: Value): seq<seq<byte>> { if v.Blobs? then v.bs else [] }

  function ChildrenOf(v: Value): seq<Pointer> { if v.Children? then v.ms else [] }

  function PackedLoop(k: Kind, s: seq<byte>, left: int, ws: seq<uint64>): (r: PackedResult)
    requires k.Scalar?
    ensures r.PackedOk? ==> r.n <= |s|
    ensures r.PackedFail? ==> r.error != RequiredNotSet
    decreases |s|
  {
    if left <= 0 then PackedOk(ws, 0)
    else
      match DecodeWord(k.coding, s)
      case Fail(e) => PackedFail(e)
      case Ok(x, n) =>
        PackedLater(PackedLoop(k, s[n..], left - n, ws + [Narrow(k.go, x)]), n)
  }

  /** The result of a packed loop that has already read n bytes. */
  function PackedLater(r: PackedResult, n: nat): PackedResult {
    if r.PackedFail? then r else PackedOk(r.ws, n + r.n)
  }

  /** dec_slice_packed_*. */
  function DecodePacked(k: Kind, s: seq<byte>, ws: seq<uint64>): (r: PackedResult)
    requires k.Scalar?
    ensures r.PackedOk? ==> r.n <= |s|
    ensures r.PackedFail? ==> r.error != RequiredNotSet
  {
    match Decode(s)
    case Fail(e) => PackedFail(e)
    case Ok(nn, n) =>
      if nn >= 0x8000_0000_0000_0000 then PackedFail(Overflow)
      else
        match PackedLoop(k, s[n..], nn, ws)
        case PackedFail(e) => PackedFail(e)
        case PackedOk(all, m) => PackedOk(all, n + m)
  }

  /** The struct a singular message or group field decodes into. */
  function Target(env: Schema, f: Field, v: Value): Msg {
    if !Plural(f.presence) && v.Child? then v.m else Empty(env, TypeOf(f.kind))
  }

  /** The field after its struct has been decoded. */
  function StoreChild(f: Field, v: Value, m: Msg): Value {
    if Plural(f.presence) then Children(ChildrenOf(v) + [To(m)]) else Child(m)
  }

  function StoreWord(f: Field, v: Value, w: uint64): Value {
    if Plural(f.presence) then Words(WordsOf(v) + [w]) else Word(w)
  }

  function StoreBlob(f: Field, v: Value, b: seq<byte>): Value {
    if Plural(f.presence) then Blobs(BlobsOf(v) + [b]) else Blob(b)
  }

  /** dec, or packedDec when `packed`: s starts after the tag, v is the field's old value. */
  function DecodeField(env: Schema, f: Field, packed: bool, s: seq<byte>, v: Value): (r: FieldResult)
    ensures r.Got? ==> r.n <= |s|
    ensures r.HardField? ==> r.error != RequiredNotSet
    decreases |s|, 3
  {
    match f.kind
    case Scalar(go, c) =>
      if packed then
        match DecodePacked(f.kind, s, WordsOf(v))
        case PackedFail(e) => HardField(e)
        case PackedOk(ws, n) => Got(Words(ws), n, false)
      else (
        match DecodeWord(c, s)
        case Fail(e) => HardField(e)
        case Ok(x, n) => Got(StoreWord(f, v, Narrow(go, x)), n, false))
    case Bytes => (
      match RawBytes(s)
      case RawFail(e) => HardField(e)
      case RawOk(b, n) => Got(StoreBlob(f, v, b), n, false))
    case Message(typ) => (
      match RawBytes(s)
      case RawFail(e) => HardField(e)
      case RawOk(b, n) =>
        match UnmarshalMsg(env, typ, false, b, Target(env, f, v))
        case Hard(e) => HardField(e)
        case Done(m, _, missing) => Got(StoreChild(f, v, m), n, missing))
    case Group(typ) =>
      match UnmarshalMsg(env, typ, true, s, Target(env, f, v))
      case Hard(e) => HardField(e)
      case Done(m, n, missing) => Got(StoreChild(f, v, m), n, missing)
  }

  function Start(env: Schema, t: nat, m: Msg): Progress {
    Progress(m, ReqCount(FieldsOf(env, t), 0), {}, false)
  }

  /** unmarshalType from its first line. */
  function UnmarshalMsg(env: Schema, t: nat, isGroup: bool, s: seq<byte>, m: Msg): (r: Result)
    ensures r.Done? ==> r.n <= |s|
    ensures r.Hard? ==> r.error != RequiredNotSet
    decreases |s|, 2
  {
    Unmarshal(env, t, isGroup, s, Start(env, t, m))
  }

  /** A later stage of the loop, k bytes further on. */
  function Later(r: Result, k: nat): Result {
    if r.Hard? then r else Done(r.m, k + r.n, r.missing)
  }

  /** Does the wire type in front of the field suit it? A start-group always passes. */
  predicate WireMatches(f: Field, wire: nat) {
    wire == 3 || wire == WireType(f.kind)
  }

  predicate Packable(f: Field) {
    f.kind.Scalar? && Plural(f.presence)
  }

  /** The struct with the unknown field of tag u kept, or dropped if it has no room for it. */
  function KeepUnknown(env: Schema, t: nat, m: Msg, u: nat, value: seq<byte>): Msg {
    if KeepsUnknown(env, t) then m.(unknown := m.unknown + (Encode(u) + value)) else m
  }

  /** After field i was decoded to v. A set of tags up to 64 catches a repeated required
      field; larger tags are counted each time. */
  function StoreField(p: Progress, f: Field, i: nat, v: Value, missing: bool): Progress
    requires i < |p.m.fields|
  {
    var again := f.tag <= 64 && f.tag in p.seen;
    Progress(p.m.(fields := p.m.fields[i := v]),
             if f.presence.Required? && !again then p.required - 1 else p.required,
             if f.presence.Required? && f.tag <= 64 then p.seen + {f.tag} else p.seen,
             p.nested || missing)
  }

  /** One round of the loop of unmarshalType. */
  function UnmarshalStep(env: Schema, t: nat, isGroup: bool, s: seq<byte>, p: Progress): (r: Step)
    ensures r.Next? ==> 1 <= r.n <= |s|
    ensures r.Stop? && r.r.Done? ==> r.r.n <= |s|
    ensures r.Stop? && r.r.Hard? ==> r.r.error != RequiredNotSet
    decreases |s|, 0
  {
    match Decode(s)
    case Fail(e) => Stop(Hard(e))
    case Ok(u, n) =>
      var wire, tag := u % 8, u / 8;
      if wire == 4 then Stop(if isGroup then Done(p.m, n, p.required > 0) else Hard(EndGroupOutsideGroup))
      else if tag == 0 then Stop(Hard(IllegalTag))
      else
        match FindField(FieldsOf(env, t), tag, 0)
        case None => (
          match Skip(s[n..], wire)
          case SkipFail(e) => Stop(Hard(e))
          case SkipOk(k) => Next(p.(m := KeepUnknown(env, t, p.m, u, s[n..][..k])), n + k))
        case Some(i) =>
          var f := FieldsOf(env, t)[i];
          // a struct of type t always has the i-th field
          if i >= |p.m.fields| || !(WireMatches(f, wire) || (wire == 2 && Packable(f))) then Stop(Hard(BadWireType))
          else
            match DecodeField(env, f, !WireMatches(f, wire), s[n..], p.m.fields[i])
            case HardField(e) => Stop(Hard(e))
            case Got(v, k, missing) => Next(StoreField(p, f, i, v, missing), n + k)
  }

  /** The loop of unmarshalType, and what follows it. */
  function Unmarshal(env: Schema, t: nat, isGroup: bool, s: seq<byte>, p: Progress): (r: Result)
    ensures r.Done? ==> r.n <= |s|
    ensures r.Hard? ==> r.error != RequiredNotSet
    decreases |s|, 1
  {
    if |s| == 0 then
      if isGroup then Hard(UnexpectedEOF) else Done(p.m, 0, p.nested || p.required > 0)
    else
      match UnmarshalStep(env, t, isGroup, s, p)
      case Stop(r) => r
      case Next(p', n) => Later(Unmarshal(env, t, isGroup, s[n..], p'), n)
  }

  /** One round, then the rest of the loop. */
  lemma {:induction false} UnmarshalNext(env: Schema, t: nat, isGroup: bool, s: seq<byte>, p: Progress, n: nat, p': Progress)
    requires |s| > 0 && UnmarshalStep(env, t, isGroup, s, p) == Next(p', n)
    ensures n <= |s| && Unmarshal(env, t, isGroup, s, p) == Later(Unmarshal(env, t, isGroup, s[n..], p'), n)
  {
  }

  lemma {:induction false} UnmarshalStop(env: Schema, t: nat, isGroup: bool, s: seq<byte>, p: Progress)
    requires |s| > 0 && UnmarshalStep(env, t, isGroup, s, p).Stop?
    ensures Unmarshal(env, t, isGroup, s, p) == UnmarshalStep(env, t, isGroup, s, p).r
  {
  }
}
