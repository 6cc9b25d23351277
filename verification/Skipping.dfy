/** Stepping over one field value of any wire type (DecodeRawBytes and skip in
    gogo/protobuf/proto decode.go), and the grammar of the values it steps over. */
module Skipping {
  import opened Words
  import opened Varint

  /** A length-delimited value: its content, and the bytes taken with the length. */
  datatype Raw = RawOk(b: seq<byte>, n: nat) | RawFail(error: Error)

  datatype Skipped = SkipOk(n: nat) | SkipFail(error: Error)

  /** DecodeRawBytes. Lengths of 2^63 and more are negative as Go ints. */
  function RawBytes(s: seq<byte>): (r: Raw)
    ensures r.RawOk? ==> 1 <= r.n <= |s| && |r.b| < r.n
    ensures r.RawFail? ==> r.error != RequiredNotSet
  {
    match Decode(s)
    case Fail(e) => RawFail(e)
    case Ok(x, n) =>
      if x >= 0x8000_0000_0000_0000 then RawFail(BadLength)
      else if n + x > |s| then RawFail(UnexpectedEOF)
      else RawOk(s[n..n + x], n + x)
  }

  /** skip: the number of bytes of the value of wire type `wire` at the front of s. */
  function Skip(s: seq<byte>, wire: nat): (r: Skipped)
    ensures r.SkipOk? ==> 1 <= r.n <= |s|
    ensures r.SkipFail? ==> r.error != RequiredNotSet
    decreases |s|, 1
  {
    if wire == 0 then (match Decode(s) case Fail(e) => SkipFail(e) case Ok(_, n) => SkipOk(n))
    else if wire == 1 then if |s| < 8 then SkipFail(UnexpectedEOF) else SkipOk(8)
    else if wire == 2 then (match RawBytes(s) case RawFail(e) => SkipFail(e) case RawOk(_, n) => SkipOk(n))
    else if wire == 3 then SkipGroup(s)
    else if wire == 5 then if |s| < 4 then SkipFail(UnexpectedEOF) else SkipOk(4)
    else SkipFail(UnknownWireType)
  }

  /** The group case: fields up to and including an end-group tag, whatever its number. */
  function SkipGroup(s: seq<byte>): (r: Skipped)
    ensures r.SkipOk? ==> 1 <= r.n <= |s|
    ensures r.SkipFail? ==> r.error != RequiredNotSet
    decreases |s|, 0
  {
    match Decode(s)
    case Fail(e) => SkipFail(e)
    case Ok(u, n) =>
      if u % 8 == 4 then SkipOk(n)
      else
        match Skip(s[n..], u % 8)
        case SkipFail(e) => SkipFail(e)
        case SkipOk(k) =>
          FurtherOn(SkipGroup(s[n..][k..]), n + k)
  }

  /** The result of a skip that has already passed k bytes. */
  function FurtherOn(r: Skipped, k: nat): Skipped {
    if r.SkipFail? then r else SkipOk(k + r.n)
  }

  // ---------------------------------------------------------------- grammar

  /** One value on the wire, kept as the bytes it was written with. */
  datatype Item =
    | VarintItem(bs: seq<byte>)
    | Fixed64Item(bs: seq<byte>)
    | BytesItem(length: seq<byte>, content: seq<byte>)
    | GroupItem(members: Members)
    | Fixed32Item(bs: seq<byte>)

  /** The inside of a group: tagged values, then the end-group tag. */
  datatype Members = End(tag: seq<byte>) | More(tag: seq<byte>, item: Item, rest: Members)

  function WireOf(it: Item): nat {
    match it
    case VarintItem(_) => 0
    case Fixed64Item(_) => 1
    case BytesItem(_, _) => 2
    case GroupItem(_) => 3
    case Fixed32Item(_) => 5
  }

  /** bs is exactly one varint, possibly longer than necessary. */
  predicate IsVarint(bs: seq<byte>) {
    var r := Decode(bs);
    r.Ok? && r.n == |bs|
  }

  function VarintValue(bs: seq<byte>): uint64
    requires IsVarint(bs)
  {
    Decode(bs).x
  }

  predicate WellFormed(it: Item) {
    match it
    case VarintItem(bs) => IsVarint(bs)
    case Fixed64Item(bs) => |bs| == 8
    case BytesItem(l, c) => IsVarint(l) && VarintValue(l) == |c| < 0x8000_0000_0000_0000
    case GroupItem(ms) => WellFormedMembers(ms)
    case Fixed32Item(bs) => |bs| == 4
  }

  predicate WellFormedMembers(ms: Members) {
    IsVarint(ms.tag) &&
    match ms
    case End(tag) => VarintValue(tag) % 8 == 4
    case More(tag, it, rest) => WireOf(it) == VarintValue(tag) % 8 && WellFormed(it) && WellFormedMembers(rest)
  }

  function Flatten(it: Item): seq<byte> {
    match it
    case VarintItem(bs) => bs
    case Fixed64Item(bs) => bs
    case BytesItem(l, c) => l + c
    case GroupItem(ms) => FlattenMembers(ms)
    case Fixed32Item(bs) => bs
  }

  function FlattenMembers(ms: Members): seq<byte> {
    match ms
    case End(tag) => tag
    case More(tag, it, rest) => tag + Flatten(it) + FlattenMembers(rest)
  }

  // ------------------------------------------------------ skip = the grammar

  /** skip steps over every well-formed value, exactly. */
  lemma {:induction false} SkipItem(it: Item, rest: seq<byte>)
    requires WellFormed(it)
    ensures Skip(Flatten(it) + rest, WireOf(it)) == SkipOk(|Flatten(it)|)
    decreases it
  {
    match it
    case VarintItem(bs) => DecodePrefix(bs, rest);
    case BytesItem(l, c) =>
      assert l + c + rest == l + (c + rest);
      DecodePrefix(l, c + rest);
    case GroupItem(ms) => SkipMembers(ms, rest);
    case _ =>
  }

  lemma {:induction false} SkipMembers(ms: Members, rest: seq<byte>)
    requires WellFormedMembers(ms)
    ensures SkipGroup(FlattenMembers(ms) + rest) == SkipOk(|FlattenMembers(ms)|)
    decreases ms
  {
    var s := FlattenMembers(ms) + rest;
    match ms
    case End(tag) => DecodePrefix(tag, rest);
    case More(tag, it, more) =>
      var tail := FlattenMembers(more) + rest;
      var inner := Flatten(it) + tail;
      assert s == tag + inner;
      DecodePrefix(tag, inner);
      assert s[|tag|..] == inner && inner[|Flatten(it)|..] == tail;
      SkipItem(it, tail);
      SkipMembers(more, rest);
  }

  /** Whatever skip steps over is a well-formed value of that wire type. */
  lemma {:induction false} SkippedItem(s: seq<byte>, wire: nat) returns (it: Item)
    requires Skip(s, wire).SkipOk?
    ensures WellFormed(it) && WireOf(it) == wire && Flatten(it) == s[..Skip(s, wire).n]
    decreases |s|, 1
  {
    var n := Skip(s, wire).n;
    if wire == 0 {
      it := VarintItem(s[..n]);
      DecodeAtTrim(s, 0);
    } else if wire == 1 {
      it := Fixed64Item(s[..n]);
    } else if wire == 2 {
      var k := Decode(s).n;
      it := BytesItem(s[..k], s[k..n]);
      DecodeAtTrim(s, 0);
    } else if wire == 3 {
      var ms := SkippedMembers(s);
      it := GroupItem(ms);
    } else {
      it := Fixed32Item(s[..n]);
    }
  }

  lemma {:induction false} SkippedMembers(s: seq<byte>) returns (ms: Members)
    requires SkipGroup(s).SkipOk?
    ensures WellFormedMembers(ms) && FlattenMembers(ms) == s[..SkipGroup(s).n]
    decreases |s|, 0
  {
    var u, n := Decode(s).x, Decode(s).n;
    var tag := s[..n];
    DecodeAtTrim(s, 0);
    if u % 8 == 4 {
      ms := End(tag);
    } else {
      var inner := s[n..];
      var k := Skip(inner, u % 8).n;
      var it := SkippedItem(inner, u % 8);
      var rest := SkippedMembers(inner[k..]);
      ms := More(tag, it, rest);
      ThreeParts(s, n, k, SkipGroup(inner[k..]).n);
      assert VarintValue(tag) == u;
    }
  }

  lemma {:induction false} ThreeParts(s: seq<byte>, n: nat, k: nat, m: nat)
    requires n + k + m <= |s|
    ensures s[..n + k + m] == s[..n] + s[n..][..k] + s[n..][k..][..m]
  {
  }

  /** skip succeeds with n exactly when the first n bytes are one well-formed value. */
  lemma {:induction false} SkipIsGrammar(s: seq<byte>, wire: nat, n: nat)
    requires n <= |s|
    ensures Skip(s, wire) == SkipOk(n) <==>
            exists it :: WellFormed(it) && WireOf(it) == wire && Flatten(it) == s[..n]
  {
    if Skip(s, wire) == SkipOk(n) {
      var it := SkippedItem(s, wire);
    }
    if it :| WellFormed(it) && WireOf(it) == wire && Flatten(it) == s[..n] {
      assert s == Flatten(it) + s[n..];
      SkipItem(it, s[n..]);
    }
  }

  /** What was skipped does not depend on the bytes after it, and is skipped again alone. */
  lemma {:induction false} SkipPrefix(s: seq<byte>, wire: nat, rest: seq<byte>)
    requires Skip(s, wire).SkipOk?
    ensures Skip(s[..Skip(s, wire).n] + rest, wire) == Skip(s, wire)
  {
    var it := SkippedItem(s, wire);
    SkipItem(it, rest);
  }
}
