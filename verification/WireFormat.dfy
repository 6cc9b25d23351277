/** What the bytes mean to any reader of the protobuf wire format, independently of the decoder
    modelled here (gogo/protobuf/proto encode.go). */
module WireFormat {
  import opened Words
  import opened Varint
  import opened Messages
  import opened Encoding

  // ---------------------------------------------------------------- numbers

  /** The two's complement readings of a word. */
  function Signed32(w: uint32): int {
    if w < 0x8000_0000 then w else w - 0x1_0000_0000
  }

  function Signed64(w: uint64): int {
    if w < 0x8000_0000_0000_0000 then w else w - 0x1_0000_0000_0000_0000
  }

  /** 0, -1, 1, -2, 2 and so on, counted from zero. */
  function Folded(i: int): nat {
    if i >= 0 then 2 * i else -2 * i - 1
  }

  /** An int32 is written as the int64 of the same value, so a reader that takes it for an
      int64 reads that value. */
  lemma {:induction false} Int32IsInt64(w: uint32)
    ensures var bytes := EncodeScalar(Scalar(Int32, Plain), w); var r := Decode(bytes);
      && r.Ok? && r.n == |bytes| && Signed64(r.x) == Signed32(w)
      && bytes == EncodeScalar(Scalar(Word64, Plain), r.x)
  {
    var x := Widen(Int32, w);
    DecodeEncode(x, []);
    assert Encode(x) + [] == Encode(x);
    hide Decode, Encode;
  }

  /** 128 to the k-th power. */
  function Pow128(k: nat): nat {
    if k == 0 then 1 else 128 * Pow128(k - 1)
  }

  lemma {:induction false} EncodeLong(x: nat, k: nat)
    requires x >= Pow128(k)
    ensures |Encode(x)| > k
    decreases k
  {
    if k > 0 {
      PowPositive(k - 1);
      EncodeLong(x / 128, k - 1);
    }
  }

  lemma {:induction false} PowPositive(k: nat)
    ensures Pow128(k) >= 1
  {
    if k > 0 {
      PowPositive(k - 1);
    }
  }

  lemma {:induction false} Pow128Nine()
    ensures Pow128(9) == 0x8000_0000_0000_0000
  {
    assert Pow128(1) == 128;
    assert Pow128(2) == 128 * Pow128(1);
    assert Pow128(3) == 128 * Pow128(2);
    assert Pow128(4) == 128 * Pow128(3);
    assert Pow128(5) == 128 * Pow128(4);
    assert Pow128(6) == 128 * Pow128(5);
    assert Pow128(7) == 128 * Pow128(6);
    assert Pow128(8) == 128 * Pow128(7);
  }

  /** So a negative int32 takes ten bytes. */
  lemma {:induction false} NegativeIsLong(w: uint32)
    requires Signed32(w) < 0
    ensures |EncodeScalar(Scalar(Int32, Plain), w)| == 10
  {
    Int32IsInt64(w);
    var x := Decode(EncodeScalar(Scalar(Int32, Plain), w)).x;
    Pow128Nine();
    EncodeLong(x, 9);
    DecodeEncode(x, []);
    hide Decode, Encode, Pow128;
  }

  /** What each coding puts on the wire: the value itself, modulo 2^64 if it is negative, its
      zigzag code, or its bytes from the lowest on. */
  lemma {:induction false} ScalarOnWire(go: GoType, c: Coding, w: uint64)
    requires LegalScalar(go, c) && FitsWord(go, w)
    ensures var bytes := EncodeScalar(Scalar(go, c), w); var r := Decode(bytes);
      match c
      case Plain => r == Ok(if go.Int32? && Signed32(w) < 0 then Signed32(w) + 0x1_0000_0000_0000_0000 else w, |bytes|)
      case Zigzag32 => r == Ok(Folded(Signed32(w)), |bytes|)
      case Zigzag64 => r == Ok(Folded(Signed64(w)), |bytes|)
      case Fixed32 => |bytes| == 4 && DecodeFixedBytes(bytes) == w
      case Fixed64 => |bytes| == 8 && DecodeFixedBytes(bytes) == w
  {
    var x := Widen(go, w);
    WidenNarrow(go, w);
    match c
    case Plain => Whole(x);
    case Zigzag32 => Whole(Varint.Zigzag32(x)); hide Decode, Encode;
    case Zigzag64 => Whole(Varint.Zigzag64(x)); hide Decode, Encode;
    case Fixed32 =>
      LowBytes(x);
      Pow256Values();
      DecodeEncodeFixed(Wrap32(x), 4);
      hide EncodeFixed, DecodeFixedBytes, Decode;
    case Fixed64 =>
      Pow256Values();
      DecodeEncodeFixed(x, 8);
      hide EncodeFixed, DecodeFixedBytes, Decode;
  }

  lemma {:induction false} Whole(x: uint64)
    ensures Decode(Encode(x)) == Ok(x, |Encode(x)|)
  {
    DecodeEncode(x, []);
    assert Encode(x) + [] == Encode(x);
  }

  /** What a word read from any bytes means: a bool is true for every number but zero, an int32
      or uint32 has the low 32 bits of the number, a zigzag code is unfolded. */
  lemma {:induction false} ScalarFromWire(go: GoType, c: Coding, s: seq<byte>)
    requires LegalScalar(go, c) && DecodeWord(c, s).Ok?
    ensures var w, v := Narrow(go, DecodeWord(c, s).x), Decode(s);
      match c
      case Plain => v.Ok? && (
        match go
        case Bool => w == if v.x == 0 then 0 else 1
        case Int32 => w < 0x1_0000_0000 && (Signed64(v.x) - Signed32(w)) % 0x1_0000_0000 == 0
        case Uint32 => w < 0x1_0000_0000 && (v.x - w) % 0x1_0000_0000 == 0
        case Word64 => w == v.x)
      case Zigzag32 => v.Ok? && w < 0x1_0000_0000 && Folded(Signed32(w)) == v.x % 0x1_0000_0000
      case Zigzag64 => v.Ok? && Folded(Signed64(w)) == v.x
      case Fixed32 => |s| >= 4 && w == DecodeFixedBytes(s[..4])
      case Fixed64 => |s| >= 8 && w == DecodeFixedBytes(s[..8])
  {
    hide Decode, DecodeFixedBytes;
    if c.Fixed32? {
      hide *;
      FixedFits(go, s);
    } else if c.Plain? {
      hide Unzigzag32, Unzigzag64;
    }
  }

  lemma {:induction false} FixedFits(go: GoType, s: seq<byte>)
    requires go.Int32? || go.Uint32?
    ensures DecodeWord(Fixed32, s).Ok? ==> |s| >= 4 && Narrow(go, DecodeWord(Fixed32, s).x) == DecodeFixedBytes(s[..4])
  {
    if |s| >= 4 {
      DecodeFixedBound(s[..4]);
      Pow256Values();
    }
  }
}
