/** Base-128 varints, little-endian fixed words and zigzag words
    (gogo/protobuf/proto encode.go and decode.go). Bit operations on disjoint
    bits are written as arithmetic: `b & 0x7f` is `b % 128`, `x >> 7` is `x / 128`. */
module Varint {
  import opened Words

  /** Why a decoder or an encoder stopped. */
  datatype Error =
    | UnexpectedEOF | Overflow | BadLength | BadWireType | IllegalTag
    | EndGroupOutsideGroup | UnknownWireType
    | NilValue            // ErrNil: nothing to encode
    | RepeatedHasNil      // errRepeatedHasNil, the sentinel
    | RepeatedFieldHasNil // the same with the field name added by enc_struct
    | TooLarge
    | RequiredNotSet

  /** A decoded number and how many bytes it took. */
  datatype Number = Ok(x: uint64, n: nat) | Fail(error: Error)

  // ---------------------------------------------------------------- varints

  function Encode(x: nat): seq<byte> {
    if x < 128 then [x] else [128 + x % 128] + Encode(x / 128)
  }

  /** One more than the largest value that fits from the k-th byte on: 2^(64-7k). */
  function Room(k: nat): nat
    requires k <= 9
    decreases 9 - k
  {
    if k == 9 then 2 else 128 * Room(k + 1)
  }

  /** Reference decoder: `s` starts at the k-th byte of a varint. The value is that of
      the remaining bytes, in units of 2^(7k); of the tenth byte only one bit survives. */
  function DecodeAt(s: seq<byte>, k: nat): (r: Number)
    requires k <= 10
    ensures r.Ok? ==> 1 <= r.n <= |s| && r.n + k <= 10 && k < 10 && r.x < Room(k)
    ensures r.Fail? ==> r.error == UnexpectedEOF || r.error == Overflow
    decreases 10 - k
  {
    if k == 10 then Fail(Overflow)
    else if |s| == 0 then Fail(UnexpectedEOF)
    else if s[0] < 128 then
      RoomFloor(k);
      Ok(if k == 9 then s[0] % 2 else s[0], 1)
    else
      match DecodeAt(s[1..], k + 1)
      case Fail(e) => Fail(e)
      case Ok(x, n) => RoomFloor(k); Ok(s[0] % 128 + 128 * x, n + 1)
  }

  lemma {:induction false} RoomFloor(k: nat)
    requires k <= 9
    ensures 2 <= Room(k) <= 0x1_0000_0000_0000_0000
    ensures k < 9 ==> Room(k) >= 256 && Room(k) == 128 * Room(k + 1)
    decreases k
  {
    RoomValues();
  }

  lemma {:induction false} RoomValues()
    ensures Room(9) == 2 && Room(8) == 0x100 && Room(7) == 0x8000 && Room(6) == 0x40_0000
    ensures Room(5) == 0x2000_0000 && Room(4) == 0x10_0000_0000 && Room(3) == 0x800_0000_0000
    ensures Room(2) == 0x4_0000_0000_0000 && Room(1) == 0x200_0000_0000_0000 && Room(0) == 0x1_0000_0000_0000_0000
  {
    assert Room(8) == 128 * Room(9);
    assert Room(7) == 128 * Room(8);
    assert Room(6) == 128 * Room(7);
    assert Room(5) == 128 * Room(6);
    assert Room(4) == 128 * Room(5);
    assert Room(3) == 128 * Room(4);
    assert Room(2) == 128 * Room(3);
    assert Room(1) == 128 * Room(2);
    assert Room(0) == 128 * Room(1);
  }

  function Decode(s: seq<byte>): (r: Number) {
    DecodeAt(s, 0)
  }

  /** Decoding inverts encoding for every value that fits, whatever follows. */
  lemma {:induction false} DecodeEncodeAt(x: uint64, k: nat, rest: seq<byte>)
    requires k <= 9 && x < Room(k)
    ensures DecodeAt(Encode(x) + rest, k) == Ok(x, |Encode(x)|)
    decreases 9 - k
  {
    RoomFloor(k);
    var s := Encode(x) + rest;
    if x >= 128 {
      assert k < 9;
      assert s[1..] == Encode(x / 128) + rest;
      DecodeEncodeAt(x / 128, k + 1, rest);
    }
  }

  lemma {:induction false} DecodeEncode(x: uint64, rest: seq<byte>)
    ensures Decode(Encode(x) + rest) == Ok(x, |Encode(x)|)
    ensures 1 <= |Encode(x)| <= 10
  {
    RoomValues();
    DecodeEncodeAt(x, 0, rest);
  }

  /** What was decoded does not depend on the bytes after it, and a decoder that met the
      end of the input stops there for every prefix. */
  lemma {:induction false} DecodeAtPrefix(s: seq<byte>, rest: seq<byte>, k: nat)
    requires k <= 10 && DecodeAt(s, k).Ok?
    ensures DecodeAt(s + rest, k) == DecodeAt(s, k)
    decreases 10 - k
  {
    if s[0] >= 128 {
      assert (s + rest)[1..] == s[1..] + rest;
      DecodeAtPrefix(s[1..], rest, k + 1);
    }
  }

  lemma {:induction false} DecodePrefix(s: seq<byte>, rest: seq<byte>)
    requires Decode(s).Ok?
    ensures Decode(s + rest) == Decode(s)
  {
    DecodeAtPrefix(s, rest, 0);
  }

  /** The bytes consumed decode by themselves. */
  lemma {:induction false} DecodeAtTrim(s: seq<byte>, k: nat)
    requires k <= 10 && DecodeAt(s, k).Ok?
    ensures DecodeAt(s[..DecodeAt(s, k).n], k) == DecodeAt(s, k)
    decreases 10 - k
  {
    var n := DecodeAt(s, k).n;
    if s[0] >= 128 {
      assert s[..n][1..] == s[1..][..n - 1];
      DecodeAtTrim(s[1..], k + 1);
    }
  }

  /** Encode yields the shortest code: no code of the same value is shorter. */
  lemma {:induction false} EncodeShortest(s: seq<byte>, k: nat)
    requires k <= 10 && DecodeAt(s, k).Ok?
    ensures |Encode(DecodeAt(s, k).x)| <= DecodeAt(s, k).n
    decreases 10 - k
  {
    if s[0] >= 128 {
      EncodeShortest(s[1..], k + 1);
      assert DecodeAt(s, k).x / 128 == DecodeAt(s[1..], k + 1).x;
    }
  }

  /** sizeVarint. */
  method SizeVarint(x0: nat) returns (n: nat)
    ensures n == |Encode(x0)|
  {
    var x := x0;
    n := 0;
    while true
      invariant n + |Encode(x)| == |Encode(x0)|
      decreases x
    {
      n := n + 1;
      if x / 128 == 0 {
        break;
      }
      x := x / 128;
    }
  }

  /** The free function EncodeVarint. */
  method EncodeVarint(x0: uint64) returns (buf: seq<byte>)
    ensures buf == Encode(x0)
  {
    var x: nat := x0;
    buf := [];
    while x > 127
      invariant buf + Encode(x) == Encode(x0)
    {
      buf := buf + [128 + x % 128];
      x := x / 128;
    }
    buf := buf + [x];
  }

  // ------------------------------------------------------------ fixed words

  /** The k low bytes of x, least significant first. */
  function EncodeFixed(x: nat, k: nat): (r: seq<byte>)
    ensures |r| == k
  {
    if k == 0 then [] else [x % 256] + EncodeFixed(x / 256, k - 1)
  }

  function DecodeFixedBytes(s: seq<byte>): nat {
    if s == [] then 0 else s[0] + 256 * DecodeFixedBytes(s[1..])
  }

  function Pow256(k: nat): nat {
    if k == 0 then 1 else 256 * Pow256(k - 1)
  }

  lemma {:induction false} DecodeEncodeFixed(x: nat, k: nat)
    requires x < Pow256(k)
    ensures DecodeFixedBytes(EncodeFixed(x, k)) == x
  {
    if k > 0 {
      assert EncodeFixed(x, k)[1..] == EncodeFixed(x / 256, k - 1);
      DecodeEncodeFixed(x / 256, k - 1);
    }
  }

  lemma {:induction false} DecodeFixedBound(s: seq<byte>)
    ensures DecodeFixedBytes(s) < Pow256(|s|)
  {
    if s != [] {
      DecodeFixedBound(s[1..]);
    }
  }

  lemma {:induction false} Pow256Values()
    ensures Pow256(4) == 0x1_0000_0000 && Pow256(8) == 0x1_0000_0000_0000_0000
  {
    assert Pow256(1) == 256;
    assert Pow256(2) == 256 * Pow256(1);
    assert Pow256(3) == 256 * Pow256(2);
    assert Pow256(4) == 256 * Pow256(3);
    assert Pow256(5) == 256 * Pow256(4);
    assert Pow256(6) == 256 * Pow256(5);
    assert Pow256(7) == 256 * Pow256(6);
  }

  function DecodeFixed(s: seq<byte>, k: nat): (r: Number)
    requires k == 4 || k == 8
  {
    if |s| < k then Fail(UnexpectedEOF)
    else
      DecodeFixedBound(s[..k]); Pow256Values();
      Ok(DecodeFixedBytes(s[..k]), k)
  }

  // ----------------------------------------------------------------- zigzag

  /** x << 1 ^ x >> 63 (arithmetic shift): an exclusive or with all ones is a complement. */
  function Zigzag64(x: uint64): uint64 {
    if x < 0x8000_0000_0000_0000 then 2 * x else 0x1_0000_0000_0000_0000 - 1 - (2 * x - 0x1_0000_0000_0000_0000)
  }

  function Unzigzag64(x: uint64): uint64 {
    if x % 2 == 0 then x / 2 else 0x1_0000_0000_0000_0000 - 1 - x / 2
  }

  /** The 32-bit forms read only the low half of x. */
  function Zigzag32(x: uint64): uint64 {
    var y := Wrap32(x);
    if y < 0x8000_0000 then 2 * y else 0x1_0000_0000 - 1 - (2 * y - 0x1_0000_0000)
  }

  function Unzigzag32(x: uint64): uint64 {
    var y := Wrap32(x);
    if y % 2 == 0 then y / 2 else 0x1_0000_0000 - 1 - y / 2
  }

  /** Each zigzag decoder undoes its encoder exactly. */
  lemma {:induction false} UnzigzagZigzag64(x: uint64)
    ensures Unzigzag64(Zigzag64(x)) == x
  {
  }

  lemma {:induction false} UnzigzagZigzag32(x: uint64)
    ensures Unzigzag32(Zigzag32(x)) == Wrap32(x)
  {
    var y := Wrap32(x);
    assert Wrap32(Zigzag32(x)) == Zigzag32(x);
  }
}
