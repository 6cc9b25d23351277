/** The percent-encoding of the grpc-message header (grpc/transport/http_util.go). */
module GrpcMessages {
  import opened Words

  /** A byte that is passed through: from space up to, but not including, tilde; no percent. */
  predicate Plain(c: byte) {
    0x20 <= c < 0x7E && c != 0x25
  }

  /** %02X: one hexadecimal digit. */
  function Hex(d: nat): byte
    requires d < 16
  {
    if d < 10 then 0x30 + d else 0x41 + d - 10
  }

  /** A digit as strconv.ParseUint reads it, in either case. */
  function Unhex(c: byte): Option<nat> {
    if 0x30 <= c <= 0x39 then Some(c - 0x30)
    else if 0x41 <= c <= 0x46 then Some(c - 0x41 + 10)
    else if 0x61 <= c <= 0x66 then Some(c - 0x61 + 10)
    else None
  }

  function EncodeByte(c: byte): seq<byte> {
    if Plain(c) then [c] else [0x25, Hex(c / 16), Hex(c % 16)]
  }

  /** encodeGrpcMessageUnchecked. */
  function EncodeUnchecked(msg: seq<byte>): seq<byte> {
    if msg == [] then [] else EncodeByte(msg[0]) + EncodeUnchecked(msg[1..])
  }

  /** What the decoder reads at the front: a byte and how much it takes. */
  function DecodeByte(msg: seq<byte>): (r: (byte, nat))
    requires msg != []
    ensures 1 <= r.1 <= |msg|
  {
    if msg[0] == 0x25 && |msg| > 2 && Unhex(msg[1]).Some? && Unhex(msg[2]).Some? then
      (16 * Unhex(msg[1]).value + Unhex(msg[2]).value, 3)
    else (msg[0], 1)
  }

  /** decodeGrpcMessageUnchecked. */
  function DecodeUnchecked(msg: seq<byte>): seq<byte> {
    if msg == [] then []
    else
      var (c, n) := DecodeByte(msg);
      [c] + DecodeUnchecked(msg[n..])
  }

  /** What decides for the slow path: some byte to escape; some percent with two bytes after it. */
  predicate AllPlain(msg: seq<byte>) {
    forall i :: 0 <= i < |msg| ==> Plain(msg[i])
  }

  predicate NoEscape(msg: seq<byte>) {
    forall i :: 0 <= i < |msg| - 2 ==> msg[i] != 0x25
  }

  // ------------------------------------------------------------- properties

  /** The fast paths are right: then, and only then when encoding, nothing changes. */
  lemma {:induction false} EncodeFast(msg: seq<byte>)
    ensures EncodeUnchecked(msg) == msg <==> AllPlain(msg)
    ensures |EncodeUnchecked(msg)| >= |msg|
    ensures !AllPlain(msg) ==> |EncodeUnchecked(msg)| > |msg|
  {
    if msg != [] {
      EncodeFast(msg[1..]);
      assert msg == [msg[0]] + msg[1..];
      assert AllPlain(msg) <==> Plain(msg[0]) && AllPlain(msg[1..]) by {
        assert forall i :: 0 < i < |msg| ==> msg[i] == msg[1..][i - 1];
      }
    }
  }

  lemma {:induction false} DecodeFast(msg: seq<byte>)
    requires NoEscape(msg)
    ensures DecodeUnchecked(msg) == msg
  {
    if msg != [] {
      DecodeFast(msg[1..]);
      assert msg == [msg[0]] + msg[1..];
    }
  }

  lemma {:induction false} UnhexHex(d: nat)
    requires d < 16
    ensures Unhex(Hex(d)) == Some(d)
  {
  }

  lemma {:induction false} DecodeEncodeByte(c: byte, rest: seq<byte>)
    ensures DecodeByte(EncodeByte(c) + rest) == (c, |EncodeByte(c)|)
  {
    UnhexHex(c / 16);
    UnhexHex(c % 16);
  }

  /** Decoding inverts encoding for every byte string. */
  lemma {:induction false} RoundTrip(msg: seq<byte>)
    ensures DecodeUnchecked(EncodeUnchecked(msg)) == msg
  {
    if msg != [] {
      var rest := EncodeUnchecked(msg[1..]);
      DecodeEncodeByte(msg[0], rest);
      RoundTrip(msg[1..]);
      assert (EncodeByte(msg[0]) + rest)[|EncodeByte(msg[0])|..] == rest;
    }
  }

  /** What encoding produces: plain bytes and percents with the two upper-case digits of a
      byte that is not plain. */
  predicate Canonical(s: seq<byte>) {
    s == []
    || (Plain(s[0]) && Canonical(s[1..]))
    || (|s| >= 3 && (exists c: byte :: !Plain(c) && EncodeByte(c) == s[..3]) && Canonical(s[3..]))
  }

  lemma {:induction false} EncodedIsCanonical(msg: seq<byte>)
    ensures Canonical(EncodeUnchecked(msg))
  {
    if msg != [] {
      var c, rest := msg[0], EncodeUnchecked(msg[1..]);
      EncodedIsCanonical(msg[1..]);
      var s := EncodeByte(c) + rest;
      if Plain(c) {
        assert s[1..] == rest;
      } else {
        assert s[..3] == EncodeByte(c) && s[3..] == rest;
      }
    }
  }

  lemma {:induction false} CanonicalDecodes(s: seq<byte>)
    requires Canonical(s)
    ensures EncodeUnchecked(DecodeUnchecked(s)) == s
  {
    if s != [] {
      if Plain(s[0]) && Canonical(s[1..]) {
        CanonicalDecodes(s[1..]);
        assert s == [s[0]] + s[1..];
      } else {
        var c: byte :| !Plain(c) && EncodeByte(c) == s[..3];
        DecodeEncodeByte(c, s[3..]);
        assert s == s[..3] + s[3..];
        CanonicalDecodes(s[3..]);
        assert DecodeUnchecked(s) == [c] + DecodeUnchecked(s[3..]);
      }
    }
  }

  /** The other way round it is the identity exactly on what encoding produces. */
  lemma {:induction false} ReencodeIff(s: seq<byte>)
    ensures EncodeUnchecked(DecodeUnchecked(s)) == s <==> Canonical(s)
  {
    EncodedIsCanonical(DecodeUnchecked(s));
    if Canonical(s) {
      CanonicalDecodes(s);
    }
  }

  /** Printable ASCII from space to the closing brace is sent as it is, but for percent. */
  lemma {:induction false} TextPasses(msg: seq<byte>)
    requires forall i :: 0 <= i < |msg| ==> ' ' as int <= msg[i] <= '}' as int && msg[i] != '%' as int
    ensures EncodeUnchecked(msg) == msg
  {
    EncodeFast(msg);
  }

  /** Every other byte becomes a percent and its two digits. */
  lemma {:induction false} OtherEscaped(c: byte)
    requires !(' ' as int <= c <= '}' as int) || c == '%' as int
    ensures var digits := "0123456789ABCDEF";
      EncodeUnchecked([c]) == ['%' as int, digits[c / 16] as int, digits[c % 16] as int]
  {
    assert EncodeUnchecked([c]) == EncodeByte(c) + [];
  }

  lemma {:induction false} UnhexDigit(d: nat, upper: bool)
    requires d < 16
    ensures var c := (if upper then "0123456789ABCDEF" else "0123456789abcdef")[d]; c < 128 as char && Unhex(c as int) == Some(d)
  {
  }

  /** A percent and two digits of either case stand for one byte, anything else for itself. */
  lemma {:induction false} DigitsDecode(hi: nat, lo: nat, upper: bool, rest: seq<byte>)
    requires hi < 16 && lo < 16
    ensures var digits := if upper then "0123456789ABCDEF" else "0123456789abcdef";
      DecodeUnchecked(['%' as int, digits[hi] as int, digits[lo] as int] + rest) == [16 * hi + lo] + DecodeUnchecked(rest)
  {
    var digits := if upper then "0123456789ABCDEF" else "0123456789abcdef";
    var h, l: byte := digits[hi] as int, digits[lo] as int;
    UnhexDigit(hi, upper);
    UnhexDigit(lo, upper);
    assert (['%' as int, h, l] + rest)[3..] == rest;
    hide Unhex;
  }

  lemma {:induction false} OtherDecodes(c: byte, rest: seq<byte>)
    requires c != '%' as int || |rest| < 2 || Unhex(rest[0]).None? || Unhex(rest[1]).None?
    ensures DecodeUnchecked([c] + rest) == [c] + DecodeUnchecked(rest)
  {
    assert ([c] + rest)[1..] == rest;
    if |rest| >= 2 {
      assert ([c] + rest)[1] == rest[0] && ([c] + rest)[2] == rest[1];
    }
  }

  /** And so on, byte by byte. */
  lemma {:induction false} EncodedApart(xs: seq<byte>, ys: seq<byte>)
    ensures EncodeUnchecked(xs + ys) == EncodeUnchecked(xs) + EncodeUnchecked(ys)
  {
    if xs == [] {
      assert xs + ys == ys;
    } else {
      assert (xs + ys)[0] == xs[0] && (xs + ys)[1..] == xs[1..] + ys;
      EncodedApart(xs[1..], ys);
      hide EncodeByte;
    }
  }

  /** Every byte of a canonical text is printable ASCII below tilde, as a header needs. */
  lemma {:induction false} CanonicalPrintable(s: seq<byte>)
    requires Canonical(s)
    ensures forall i :: 0 <= i < |s| ==> 0x20 <= s[i] < 0x7E
  {
    if s != [] {
      if Plain(s[0]) && Canonical(s[1..]) {
        CanonicalPrintable(s[1..]);
      } else {
        CanonicalPrintable(s[3..]);
        var c: byte :| !Plain(c) && EncodeByte(c) == s[..3];
        assert s[0] == EncodeByte(c)[0] && s[1] == EncodeByte(c)[1] && s[2] == EncodeByte(c)[2];
      }
    }
  }

  // ---------------------------------------------------------------- the loops

  lemma {:induction false} EncodeSplit(xs: seq<byte>, c: byte)
    ensures EncodeUnchecked(xs + [c]) == EncodeUnchecked(xs) + EncodeByte(c)
  {
    if xs == [] {
      assert EncodeUnchecked([c]) == EncodeByte(c) + [];
    } else {
      assert (xs + [c])[1..] == xs[1..] + [c];
      EncodeSplit(xs[1..], c);
    }
  }

  method EncodeUncheckedLoop(msg: seq<byte>) returns (buf: seq<byte>)
    ensures buf == EncodeUnchecked(msg)
  {
    buf := [];
    var i := 0;
    while i < |msg|
      invariant i <= |msg| && buf == EncodeUnchecked(msg[..i])
    {
      var c := msg[i];
      EncodeSplit(msg[..i], c);
      assert msg[..i + 1] == msg[..i] + [c];
      if c >= 0x20 && c < 0x7E && c != 0x25 {
        buf := buf + [c];
      } else {
        buf := buf + [0x25, Hex(c / 16), Hex(c % 16)];
      }
      i := i + 1;
    }
    assert msg[..i] == msg;
  }

  /** encodeGrpcMessage: with its fast path it computes the same. */
  method EncodeGrpcMessage(msg: seq<byte>) returns (r: seq<byte>)
    ensures r == EncodeUnchecked(msg)
  {
    if |msg| == 0 {
      return [];
    }
    var i := 0;
    while i < |msg|
      invariant i <= |msg| && forall j :: 0 <= j < i ==> Plain(msg[j])
    {
      var c := msg[i];
      if !(c >= 0x20 && c < 0x7E && c != 0x25) {
        r := EncodeUncheckedLoop(msg);
        return;
      }
      i := i + 1;
    }
    EncodeFast(msg);
    r := msg;
  }

  method DecodeUncheckedLoop(msg: seq<byte>) returns (buf: seq<byte>)
    ensures buf == DecodeUnchecked(msg)
  {
    buf := [];
    var i := 0;
    while i < |msg|
      invariant i <= |msg| && buf + DecodeUnchecked(msg[i..]) == DecodeUnchecked(msg)
    {
      var c := msg[i];
      ghost var was := buf;
      if c == 0x25 && i + 2 < |msg| {
        var hi, lo := Unhex(msg[i + 1]), Unhex(msg[i + 2]);
        if hi.None? || lo.None? {
          buf := buf + [c];
        } else {
          buf := buf + [16 * hi.value + lo.value];
          i := i + 2;
        }
      } else {
        buf := buf + [c];
      }
      i := i + 1;
      assert forall d: byte, x: seq<byte> :: was + ([d] + x) == was + [d] + x;
    }
  }

  /** decodeGrpcMessage: with its fast path it computes the same. */
  method DecodeGrpcMessage(msg: seq<byte>) returns (r: seq<byte>)
    ensures r == DecodeUnchecked(msg)
  {
    if |msg| == 0 {
      return [];
    }
    var i := 0;
    while i < |msg|
      invariant i <= |msg| && forall j :: 0 <= j < i && j + 2 < |msg| ==> msg[j] != 0x25
    {
      if msg[i] == 0x25 && i + 2 < |msg| {
        r := DecodeUncheckedLoop(msg);
        return;
      }
      i := i + 1;
    }
    DecodeFast(msg);
    r := msg;
  }
}
