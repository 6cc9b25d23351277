/** The reading side of proto.Buffer (gogo/protobuf/proto decode.go). `buf` is the slice
    being read; it is replaced while an embedded message or an unknown field is handled. */
module DecodeBuffers {
  import opened Words
  import opened Varint
  import opened Skipping

  /** x << 7k, before truncation to 64 bits. */
  function Shl7(x: nat, k: nat): nat {
    if k == 0 then x else 128 * Shl7(x, k - 1)
  }

  lemma {:induction false} Shl7Sum(x: nat, y: nat, k: nat)
    ensures Shl7(x + y, k) == Shl7(x, k) + Shl7(y, k)
  {
    if k > 0 {
      Shl7Sum(x, y, k - 1);
    }
  }

  lemma {:induction false} Shl7Next(x: nat, k: nat)
    ensures Shl7(128 * x, k) == Shl7(x, k + 1)
  {
    if k > 0 {
      Shl7Next(x, k - 1);
    }
  }

  lemma {:induction false} Shl7Monotone(x: nat, y: nat, k: nat)
    requires x <= y
    ensures Shl7(x, k) <= Shl7(y, k)
  {
    if k > 0 {
      Shl7Monotone(x, y, k - 1);
    }
  }

  /** A value that fits above k bytes leaves room for k bytes below it. */
  lemma {:induction false} Shl7Room(x: nat, k: nat)
    requires k <= 9 && x < Room(k)
    ensures Shl7(x, k) <= 0x1_0000_0000_0000_0000 - Shl7(1, k)
  {
    Shl7Monotone(x, Room(k) - 1, k);
    Shl7Sum(Room(k) - 1, 1, k);
    Shl7OfRoom(k);
  }

  lemma {:induction false} Shl7OfRoom(k: nat)
    requires k <= 9
    ensures Shl7(Room(k), k) == 0x1_0000_0000_0000_0000
  {
    RoomValues();
    if k > 0 {
      Shl7OfRoom(k - 1);
      Shl7Next(Room(k), k - 1);
    }
  }

  /** The decoder has read k continuation bytes with total x and is at `part`; the whole
      input decodes to d. */
  ghost predicate HasRead(d: Number, part: seq<byte>, k: nat, x: nat)
    requires k <= 9
  {
    && x < Shl7(1, k)
    && match DecodeAt(part, k)
       case Fail(e) => d == Fail(e)
       case Ok(y, n) => d.Ok? && d.x == x + Shl7(y, k) && d.n == n + k
  }

  /** One more continuation byte. */
  lemma {:induction false} ReadMore(d: Number, part: seq<byte>, k: nat, x: nat)
    requires k < 9 && HasRead(d, part, k, x) && part != [] && part[0] >= 128
    ensures HasRead(d, part[1..], k + 1, x + Shl7(part[0] - 128, k))
  {
    var b := part[0] - 128;
    assert x + Shl7(b, k) < Shl7(1, k + 1) by {
      Shl7Monotone(b, 127, k);
      Shl7Sum(127, 1, k);
      Shl7Next(1, k);
    }
    var r, whole := DecodeAt(part[1..], k + 1), DecodeAt(part, k);
    if r.Ok? {
      assert whole.x == b + 128 * r.x;
      assert Shl7(whole.x, k) == Shl7(b, k) + Shl7(r.x, k + 1) by {
        Shl7Sum(b, 128 * r.x, k);
        Shl7Next(r.x, k);
      }
    }
  }

  lemma {:induction false} ReadTooMany(d: Number, part: seq<byte>, x: nat)
    requires HasRead(d, part, 9, x) && part != [] && part[0] >= 128
    ensures d == Fail(Overflow)
  {
    assert DecodeAt(part[1..], 10) == Fail(Overflow);
  }

  lemma {:induction false} FitsWord(x: int)
    requires 0 <= x < 0x1_0000_0000_0000_0000
    ensures Wrap64(x) == x
  {
  }

  /** What is left of a terminating byte at place k: all of it, or the lowest bit of the tenth. */
  function Kept(b: byte, k: nat): nat {
    if k == 9 then b % 2 else b
  }

  lemma {:induction false} KeptFits(b: byte, k: nat, x: nat)
    requires k <= 9 && b < 128 && x < Shl7(1, k)
    ensures x + Shl7(Kept(b, k), k) < 0x1_0000_0000_0000_0000
  {
    RoomFloor(k);
    hide Shl7, Room;
    Shl7Room(Kept(b, k), k);
  }

  /** Truncation takes the other bits off. */
  lemma {:induction false} KeptWrapped(b: byte, k: nat, x: nat)
    requires k <= 9 && b < 128 && x < Shl7(1, k)
    ensures Wrap64(x + Shl7(b, k)) == x + Shl7(Kept(b, k), k)
  {
    KeptFits(b, k, x);
    if k == 9 {
      Shl7Powers(b);
      Shl7Powers(b % 2);
      hide Shl7, Wrap64;
      WrapMultiple(b / 2, x + 0x8000_0000_0000_0000 * (b % 2));
    } else {
      hide Shl7, Wrap64;
      FitsWord(x + Shl7(b, k));
    }
  }

  lemma {:induction false} ShiftedOnePositive(k: nat)
    ensures Shl7(1, k) > 0 && Shl7(0, k) == 0
  {
    if k > 0 {
      ShiftedOnePositive(k - 1);
    }
  }

  /** The terminating byte. */
  lemma {:induction false} ReadLast(d: Number, part: seq<byte>, k: nat, x: nat)
    requires k <= 9 && HasRead(d, part, k, x) && part != [] && part[0] < 128
    ensures d.Ok? && d.n == k + 1
    ensures d.x == x + Wrap64(Shl7(part[0], k)) == Wrap64(x + Shl7(part[0], k))
  {
    assert DecodeAt(part, k) == Ok(Kept(part[0], k), 1);
    hide Shl7, Wrap64, DecodeAt, Kept;
    KeptWrapped(part[0], k, x);
    ShiftedOnePositive(k);
    KeptWrapped(part[0], k, 0);
  }

  /** HasRead, or ten continuation bytes were read. */
  ghost predicate Reading(d: Number, part: seq<byte>, k: nat, x: nat) {
    if k <= 9 then HasRead(d, part, k, x) else d == Fail(Overflow)
  }

  /** The same for the rest of a buffer. */
  ghost predicate ReadingAt(d: Number, buf: seq<byte>, i: nat, k: nat, x: nat) {
    i <= |buf| && Reading(d, buf[i..], k, x)
  }

  /** Below the tenth byte no bit is lost. */
  lemma {:induction false} NoBitLost(b: nat, k: nat)
    requires b < 128 && k < 9
    ensures Wrap64(Shl7(b, k)) == Shl7(b, k)
  {
    Shl7Monotone(b, 127, k);
    Shl7Powers(127);
    hide Shl7, Wrap64;
    FitsWord(Shl7(b, k));
  }

  lemma {:induction false} StartReading(buf: seq<byte>, i: nat)
    requires i <= |buf|
    ensures ReadingAt(Decode(buf[i..]), buf, i, 0, 0)
  {
  }

  lemma {:induction false} ReadEnd(d: Number, buf: seq<byte>, k: nat, x: nat)
    requires k <= 9 && ReadingAt(d, buf, |buf|, k, x)
    ensures d == Fail(UnexpectedEOF)
  {
  }

  lemma {:induction false} ReadAll(d: Number, buf: seq<byte>, i: nat, x: nat)
    requires ReadingAt(d, buf, i, 10, x)
    ensures d == Fail(Overflow)
  {
  }

  /** The seven bits of a byte at place k, as Go's shift gives them. */
  function Bits(b: byte, k: nat): uint64 {
    Wrap64(Shl7(b % 128, k))
  }

  lemma {:induction false} SevenBits(b: byte, k: nat)
    ensures Bits(b, k) == Wrap64(Shl7(if b < 128 then b else b - 128, k))
  {
    hide Wrap64, Shl7;
  }

  /** One round of the slow loop. */
  lemma {:induction false} ReadByte(d: Number, buf: seq<byte>, i: nat, k: nat, x: nat)
    requires k <= 9 && i < |buf| && Reading(d, buf[i..], k, x)
    ensures var x' := x + Bits(buf[i], k);
            if buf[i] < 128 then d.Ok? && d.x == x' && d.n == k + 1
            else Reading(d, buf[i + 1..], k + 1, x')
  {
    var part := buf[i..];
    assert part[1..] == buf[i + 1..];
    hide Shl7, DecodeAt, Wrap64, Bits;
    SevenBits(part[0], k);
    if part[0] < 128 {
      ReadLast(d, part, k, x);
    } else if k == 9 {
      ReadTooMany(d, part, x);
    } else {
      ReadMore(d, part, k, x);
      NoBitLost(part[0] - 128, k);
    }
  }

  lemma {:induction false} WrapMultiple(q: int, r: uint64)
    ensures Wrap64(0x1_0000_0000_0000_0000 * q + r) == r
  {
  }

  lemma {:induction false} Shl7Powers(b: nat)
    ensures Shl7(b, 1) == 0x80 * b && Shl7(b, 2) == 0x4000 * b && Shl7(b, 3) == 0x20_0000 * b
    ensures Shl7(b, 4) == 0x1000_0000 * b && Shl7(b, 5) == 0x8_0000_0000 * b
    ensures Shl7(b, 6) == 0x400_0000_0000 * b && Shl7(b, 7) == 0x2_0000_0000_0000 * b
    ensures Shl7(b, 8) == 0x100_0000_0000_0000 * b && Shl7(b, 9) == 0x8000_0000_0000_0000 * b
  {
    assert Shl7(b, 1) == 128 * Shl7(b, 0);
    assert Shl7(b, 2) == 128 * Shl7(b, 1);
    assert Shl7(b, 3) == 128 * Shl7(b, 2);
    assert Shl7(b, 4) == 128 * Shl7(b, 3);
    assert Shl7(b, 5) == 128 * Shl7(b, 4);
    assert Shl7(b, 6) == 128 * Shl7(b, 5);
    assert Shl7(b, 7) == 128 * Shl7(b, 6);
    assert Shl7(b, 8) == 128 * Shl7(b, 7);
    assert Shl7(b, 9) == 128 * Shl7(b, 8);
  }

  /** One step of the unrolled decoder: add the whole byte, then take its top bit off. */
  lemma {:induction false} ReadByteUnmasked(d: Number, buf: seq<byte>, i: nat, k: nat, x: nat)
    requires k <= 9 && i < |buf| && HasRead(d, buf[i..], k, x)
    ensures var x' := Wrap64(x + Shl7(buf[i], k));
            if buf[i] < 128 then d.Ok? && d.x == x' && d.n == k + 1
            else if k == 9 then d == Fail(Overflow)
            else HasRead(d, buf[i + 1..], k + 1, Wrap64(x' - Shl7(128, k)))
  {
    var part := buf[i..];
    assert part[1..] == buf[i + 1..];
    if part[0] < 128 {
      ReadLast(d, part, k, x);
    } else if k == 9 {
      ReadTooMany(d, part, x);
    } else {
      ReadMore(d, part, k, x);
      TopBitComesOff(part[0], k, x);
    }
    hide Shl7, Wrap64, DecodeAt;
  }

  lemma {:induction false} ReadFirstByte(buf: seq<byte>, i: nat)
    requires i < |buf| && buf[i] >= 128
    ensures HasRead(Decode(buf[i..]), buf[i + 1..], 1, buf[i] - 128)
  {
    var d := Decode(buf[i..]);
    ReadMore(d, buf[i..], 0, 0);
    assert buf[i..][1..] == buf[i + 1..];
  }

  lemma {:induction false} TopBitComesOff(b: byte, k: nat, x: nat)
    requires k < 9 && b >= 128 && x < Shl7(1, k)
    ensures Wrap64(Wrap64(x + Shl7(b, k)) - Shl7(128, k)) == x + Shl7(b - 128, k)
  {
    var bound: nat := b + 1;
    Shl7Sum(b - 128, 128, k);
    Shl7Sum(1, b, k);
    Shl7Monotone(bound, 256, k);
    Shl7Powers(256);
    hide Shl7, Wrap64;
    FitsWord(x + Shl7(b, k));
    FitsWord(x + Shl7(b - 128, k));
  }

  lemma {:induction false} FixedBytes32(s: seq<byte>)
    requires |s| >= 4
    ensures DecodeFixedBytes(s[..4]) == s[0] + 0x100 * (s[1] as int) + 0x1_0000 * (s[2] as int) + 0x100_0000 * (s[3] as int)
  {
    FourBytes(s, 0, 4);
    assert s[4..4] == [];
  }

  lemma {:induction false} FixedByte(s: seq<byte>, i: nat, k: nat)
    requires i < k <= |s|
    ensures DecodeFixedBytes(s[i..k]) == s[i] + 256 * DecodeFixedBytes(s[i + 1..k])
  {
    assert s[i..k][1..] == s[i + 1..k];
  }

  lemma {:induction false} FourBytes(s: seq<byte>, i: nat, k: nat)
    requires i + 4 <= k <= |s|
    ensures DecodeFixedBytes(s[i..k]) ==
            s[i] + 0x100 * (s[i + 1] as int) + 0x1_0000 * (s[i + 2] as int) + 0x100_0000 * (s[i + 3] as int)
            + 0x1_0000_0000 * DecodeFixedBytes(s[i + 4..k])
  {
    FixedByte(s, i, k);
    FixedByte(s, i + 1, k);
    FixedByte(s, i + 2, k);
    FixedByte(s, i + 3, k);
    hide DecodeFixedBytes;
  }

  lemma {:induction false} FixedBytes64(s: seq<byte>)
    requires |s| >= 8
    ensures DecodeFixedBytes(s[..8]) ==
            s[0] + 0x100 * (s[1] as int) + 0x1_0000 * (s[2] as int) + 0x100_0000 * (s[3] as int)
            + 0x1_0000_0000 * (s[4] as int) + 0x100_0000_0000 * (s[5] as int)
            + 0x1_0000_0000_0000 * (s[6] as int) + 0x100_0000_0000_0000 * (s[7] as int)
  {
    FourBytes(s, 0, 8);
    FourBytes(s, 4, 8);
    assert s[8..8] == [];
  }

  class DecodeBuffer {
    var buf: seq<byte>
    var index: nat

    ghost predicate Valid()
      reads this
    {
      index <= |buf|
    }

    /** The bytes still to be read. */
    ghost function Rest(): seq<byte>
      reads this
      requires Valid()
    {
      buf[index..]
    }

    constructor (s: seq<byte>)
      ensures Valid() && buf == s && index == 0
    {
      buf, index := s, 0;
    }

    /** decodeVarintSlow. */
    method DecodeVarintSlow() returns (r: Number)
      requires Valid()
      modifies this`index
      ensures Valid() && r == Decode(old(Rest()))
      ensures index == old(index) + (if r.Ok? then r.n else 0)
    {
      r := DecodeLoop(buf, index);
      if r.Ok? {
        index := index + r.n;
      }
    }

    /** DecodeVarint: one byte at once, the slow loop near the end of the input, otherwise
        ten unrolled steps in wrapping 64-bit arithmetic. */
    method DecodeVarint() returns (r: Number)
      requires Valid()
      modifies this`index
      ensures Valid() && r == Decode(old(Rest()))
      ensures index == old(index) + (if r.Ok? then r.n else 0)
    {
      var i, buf := index, this.buf;
      if i >= |buf| {
        return Fail(UnexpectedEOF);
      } else if buf[i] < 128 {
        index := index + 1;
        return Ok(buf[i], 1);
      } else if |buf| - i < 10 {
        r := DecodeVarintSlow();
        return;
      }
      r := DecodeUnrolled(buf, i);
      if r.Ok? {
        index := i + r.n;
      }
    }

    /** DecodeFixed64. */
    method DecodeFixed64() returns (r: Number)
      requires Valid()
      modifies this`index
      ensures Valid() && r == DecodeFixed(old(Rest()), 8)
      ensures index == old(index) + (if r.Ok? then r.n else 0)
    {
      var i := index + 8;
      if i > |buf| {
        return Fail(UnexpectedEOF);
      }
      FixedBytes64(buf[index..]);
      r := Ok(buf[i - 8] + 0x100 * (buf[i - 7] as int) + 0x1_0000 * (buf[i - 6] as int) + 0x100_0000 * (buf[i - 5] as int)
              + 0x1_0000_0000 * (buf[i - 4] as int) + 0x100_0000_0000 * (buf[i - 3] as int)
              + 0x1_0000_0000_0000 * (buf[i - 2] as int) + 0x100_0000_0000_0000 * (buf[i - 1] as int), 8);
      index := i;
    }

    /** DecodeFixed32. */
    method DecodeFixed32() returns (r: Number)
      requires Valid()
      modifies this`index
      ensures Valid() && r == DecodeFixed(old(Rest()), 4)
      ensures index == old(index) + (if r.Ok? then r.n else 0)
    {
      var i := index + 4;
      if i > |buf| {
        return Fail(UnexpectedEOF);
      }
      FixedBytes32(buf[index..]);
      r := Ok(buf[i - 4] + 0x100 * (buf[i - 3] as int) + 0x1_0000 * (buf[i - 2] as int) + 0x100_0000 * (buf[i - 1] as int), 4);
      index := i;
    }

    /** DecodeRawBytes. When it fails after its length, the index stays behind the length. */
    method DecodeRawBytes() returns (r: Raw)
      requires Valid()
      modifies this`index
      ensures Valid() && r == RawBytes(old(Rest())) && old(index) <= index
      ensures r.RawOk? ==> index == old(index) + r.n
    {
      hide Decode;
      var start := index;
      var l := DecodeVarint();
      if l.Fail? {
        return RawFail(l.error);
      }
      if l.x >= 0x8000_0000_0000_0000 {
        return RawFail(BadLength);
      }
      var end := index + l.x;
      if end > |buf| {
        return RawFail(UnexpectedEOF);
      }
      assert old(Rest())[l.n..l.n + l.x] == buf[index..end];
      r := RawOk(buf[index..end], end - start);
      index := end;
    }

    /** skip. The index never moves back and never passes the end, whatever the bytes are. */
    method SkipField(wire: nat) returns (e: Option<Error>)
      requires Valid()
      modifies this`index
      ensures Valid() && old(index) <= index
      ensures match Skip(old(Rest()), wire)
              case SkipFail(err) => e == Some(err)
              case SkipOk(n) => e.None? && index == old(index) + n
      decreases |buf| - index, 1
    {
      if wire == 0 {
        var r := DecodeVarint();
        e := if r.Fail? then Some(r.error) else None;
      } else if wire == 1 {
        var r := DecodeFixed64();
        e := if r.Fail? then Some(r.error) else None;
      } else if wire == 2 {
        var r := DecodeRawBytes();
        e := if r.RawFail? then Some(r.error) else None;
      } else if wire == 3 {
        e := SkipGroupFields();
      } else if wire == 5 {
        var r := DecodeFixed32();
        e := if r.Fail? then Some(r.error) else None;
      } else {
        e := Some(UnknownWireType);
      }
    }

    /** The loop of skip over the fields of a group. */
    method SkipGroupFields() returns (e: Option<Error>)
      requires Valid()
      modifies this`index
      ensures Valid() && old(index) <= index
      ensures match SkipGroup(old(Rest()))
              case SkipFail(err) => e == Some(err)
              case SkipOk(n) => e.None? && index == old(index) + n
      decreases |buf| - index, 0
    {
      hide DecodeAt, RawBytes;
      ghost var whole := SkipGroup(Rest());
      e := None;
      while true
        invariant Valid() && old(index) <= index && e.None?
        invariant whole == FurtherOn(SkipGroup(Rest()), index - old(index))
        decreases |buf| - index
      {
        ghost var s := Rest();
        var u := DecodeVarint();
        if u.Fail? {
          return Some(u.error);
        }
        if u.x % 8 == 4 {
          return;
        }
        assert s[u.n..] == Rest();
        e := SkipField(u.x % 8);
        if e.Some? {
          return;
        }
        assert s[u.n..][Skip(s[u.n..], u.x % 8).n..] == Rest();
      }
    }
  }

  /** The loop of decodeVarintSlow over shifts of seven. */
  method DecodeLoop(buf: seq<byte>, index: nat) returns (r: Number)
    requires index <= |buf|
    ensures r == Decode(buf[index..])
  {
    var i := index;
    var x: nat, k := 0, 0;
    ghost var d := Decode(buf[index..]);
    StartReading(buf, index);
    hide *;
    while k < 10
      invariant 0 <= k <= 10 && i == index + k <= |buf|
      invariant ReadingAt(d, buf, i, k, x)
    {
      if i >= |buf| {
        ReadEnd(d, buf, k, x);
        return Fail(UnexpectedEOF);
      }
      x := SlowStep(d, buf, i, k, x);
      if buf[i] < 128 {
        return Ok(x, k + 1);
      }
      i, k := i + 1, k + 1;
    }
    ReadAll(d, buf, i, x);
    return Fail(Overflow);
  }

  /** Its body: shift seven bits of the byte into place. */
  method SlowStep(ghost d: Number, buf: seq<byte>, i: nat, k: nat, x: nat) returns (x': nat)
    requires k <= 9 && i < |buf| && ReadingAt(d, buf, i, k, x)
    ensures if buf[i] < 128 then x' < 0x1_0000_0000_0000_0000 && d == Ok(x', k + 1)
            else ReadingAt(d, buf, i + 1, k + 1, x')
  {
    hide Reading, Bits;
    ReadByte(d, buf, i, k, x);
    x' := x + Bits(buf[i], k);
  }

  /** The straight-line part of DecodeVarint, for an input of at least ten bytes that
      starts with a continuation byte. */
  method DecodeUnrolled(buf: seq<byte>, i: nat) returns (r: Number)
    requires i + 10 <= |buf| && buf[i] >= 128
    ensures r == Decode(buf[i..])
  {
    ghost var d := Decode(buf[i..]);
    ReadFirstByte(buf, i);
    hide *;
    var x: uint64 := buf[i] - 128;
    x := UnrolledStep(d, buf, i + 1, 1, x);
    if buf[i + 1] < 128 { return Ok(x, 2); }
    x := UnrolledStep(d, buf, i + 2, 2, x);
    if buf[i + 2] < 128 { return Ok(x, 3); }
    x := UnrolledStep(d, buf, i + 3, 3, x);
    if buf[i + 3] < 128 { return Ok(x, 4); }
    x := UnrolledStep(d, buf, i + 4, 4, x);
    if buf[i + 4] < 128 { return Ok(x, 5); }
    x := UnrolledStep(d, buf, i + 5, 5, x);
    if buf[i + 5] < 128 { return Ok(x, 6); }
    x := UnrolledStep(d, buf, i + 6, 6, x);
    if buf[i + 6] < 128 { return Ok(x, 7); }
    x := UnrolledStep(d, buf, i + 7, 7, x);
    if buf[i + 7] < 128 { return Ok(x, 8); }
    x := UnrolledStep(d, buf, i + 8, 8, x);
    if buf[i + 8] < 128 { return Ok(x, 9); }
    x := UnrolledStep(d, buf, i + 9, 9, x);
    if buf[i + 9] < 128 { return Ok(x, 10); }
    return Fail(Overflow);
  }

  /** The block repeated nine times: add the shifted byte, then take its top bit off again. */
  method UnrolledStep(ghost d: Number, buf: seq<byte>, i: nat, k: nat, x: uint64) returns (x': uint64)
    requires k <= 9 && i < |buf| && HasRead(d, buf[i..], k, x)
    ensures if buf[i] < 128 then d == Ok(x', k + 1)
            else if k == 9 then d == Fail(Overflow)
            else HasRead(d, buf[i + 1..], k + 1, x')
  {
    ReadByteUnmasked(d, buf, i, k, x);
    x' := Wrap64(x + Shl7(buf[i], k));
    if buf[i] >= 128 {
      x' := Wrap64(x' - Shl7(128, k));
    }
  }
}
