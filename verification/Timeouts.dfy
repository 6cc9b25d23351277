/** The grpc-timeout header (grpc/transport/http_util.go). Durations are nanoseconds in an
    int64. */
module Timeouts {
  import opened Words

  type int64 = x: int | -0x8000_0000_0000_0000 <= x < 0x8000_0000_0000_0000

  /** Truncation of a product to int64. */
  function Wrapped(x: int): int64 {
    var w := Wrap64(x);
    if w < 0x8000_0000_0000_0000 then w else w - 0x1_0000_0000_0000_0000
  }

  /** Go's / and % round toward zero. */
  function Quotient(d: int, r: int): int
    requires r > 0
  {
    if d >= 0 then d / r else -((-d) / r)
  }

  function Remainder(d: int, r: int): int
    requires r > 0
  {
    if d >= 0 then d % r else -((-d) % r)
  }

  function Div(d: int, r: int): int
    requires r > 0
  {
    if Remainder(d, r) > 0 then Quotient(d, r) + 1 else Quotient(d, r)
  }

  /** timeoutUnitToDuration. */
  function UnitToDuration(u: char): Option<int> {
    match u
    case 'H' => Some(3_600_000_000_000)
    case 'M' => Some(60_000_000_000)
    case 'S' => Some(1_000_000_000)
    case 'm' => Some(1_000_000)
    case 'u' => Some(1_000)
    case 'n' => Some(1)
    case _ => None
  }

  // ----------------------------------------------------------------- decimals

  function Digit(d: nat): char
    requires d < 10
  {
    "0123456789"[d]
  }

  function DigitValue(c: char): Option<nat> {
    if '0' <= c <= '9' then Some(c as int - '0' as int) else None
  }

  /** strconv.FormatInt of a number that is not negative. */
  function FormatNat(n: nat): string {
    if n < 10 then [Digit(n)] else FormatNat(n / 10) + [Digit(n % 10)]
  }

  function ParseNat(s: string): Option<nat> {
    if s == "" then Some(0)
    else
      var d := DigitValue(s[|s| - 1]);
      if d.None? then None
      else
        match ParseNat(s[..|s| - 1])
        case None => None
        case Some(n) => Some(10 * n + d.value)
  }

  /** strconv.ParseInt(s, 10, 64); None is its syntax or range error. */
  function ParseInt(s: string): Option<int64> {
    if s == "" then None
    else
      var signed := s[0] == '+' || s[0] == '-';
      var digits := if signed then s[1..] else s;
      if digits == "" then None
      else
        match ParseNat(digits)
        case None => None
        case Some(m) =>
          var n: int := m;
          if s[0] == '-' then if n <= 0x8000_0000_0000_0000 then Some(0 - n) else None
          else if n < 0x8000_0000_0000_0000 then Some(n)
          else None
  }

  function Pow10(k: nat): nat {
    if k == 0 then 1 else 10 * Pow10(k - 1)
  }

  /** A decimal is read back, starts with a digit and has no more digits than it needs. */
  lemma {:induction false} ParseFormat(n: nat)
    ensures ParseNat(FormatNat(n)) == Some(n)
    ensures FormatNat(n) != "" && DigitValue(FormatNat(n)[0]).Some?
    decreases n
  {
    var s := FormatNat(n);
    if n < 10 {
      assert s[..0] == "" && ParseNat("") == Some(0);
    } else {
      ParseFormat(n / 10);
      assert s[..|s| - 1] == FormatNat(n / 10);
    }
  }

  lemma {:induction false} FormatLength(n: nat, k: nat)
    requires k > 0
    ensures |FormatNat(n)| <= k <==> n < Pow10(k)
    decreases k
  {
    if k == 1 {
      assert Pow10(1) == 10 * Pow10(0);
      FormatNonEmpty(n / 10);
    } else if n >= 10 {
      FormatLength(n / 10, k - 1);
    } else {
      assert Pow10(k - 1) >= 1 by { Pow10Positive(k - 1); }
    }
  }

  lemma {:induction false} FormatNonEmpty(n: nat)
    ensures |FormatNat(n)| >= 1
  {
  }

  lemma {:induction false} Pow10Positive(k: nat)
    ensures Pow10(k) >= 1
  {
    if k > 0 {
      Pow10Positive(k - 1);
    }
  }

  // ----------------------------------------------------------- encode, decode

  datatype Timeout = Timeout(value: int, unit: char)

  /** The number and unit encodeTimeout chooses. */
  function Chosen(t: int64): Timeout {
    if t <= 0 then Timeout(0, 'n')
    else if Div(t, 1) <= 99_999_999 then Timeout(Div(t, 1), 'n')
    else if Div(t, 1_000) <= 99_999_999 then Timeout(Div(t, 1_000), 'u')
    else if Div(t, 1_000_000) <= 99_999_999 then Timeout(Div(t, 1_000_000), 'm')
    else if Div(t, 1_000_000_000) <= 99_999_999 then Timeout(Div(t, 1_000_000_000), 'S')
    else if Div(t, 60_000_000_000) <= 99_999_999 then Timeout(Div(t, 60_000_000_000), 'M')
    else Timeout(Div(t, 3_600_000_000_000), 'H')
  }

  function EncodeTimeout(t: int64): string
  {
    ChosenIsNat(t);
    FormatNat(Chosen(t).value) + [Chosen(t).unit]
  }

  function DecodeTimeout(s: string): Option<int64> {
    if |s| < 2 then None
    else
      var d := UnitToDuration(s[|s| - 1]);
      if d.None? then None
      else
        match ParseInt(s[..|s| - 1])
        case None => None
        case Some(t) => Some(Wrapped(d.value * t))
  }

  // --------------------------------------------------------------- properties

  /** Division rounds up. */
  lemma {:induction false} DivRoundsUp(d: nat, r: nat)
    requires r > 0
    ensures d <= Div(d, r) * r < d + r && Div(d, r) >= 0
    ensures d > 0 ==> Div(d, r) > 0
  {
    var q, m := d / r, d % r;
    assert d == r * q + m;
    assert (q + 1) * r == q * r + r;
  }

  lemma {:induction false} ChosenIsNat(t: int64)
    ensures Chosen(t).value >= 0
  {
    if t > 0 {
      DivRoundsUp(t, 1);
      DivRoundsUp(t, 1_000);
      DivRoundsUp(t, 1_000_000);
      DivRoundsUp(t, 1_000_000_000);
      DivRoundsUp(t, 60_000_000_000);
      DivRoundsUp(t, 3_600_000_000_000);
    }
  }

  /** The chosen value covers t by less than one unit and has at most eight digits. */
  lemma {:induction false} ChosenCovers(t: int64)
    requires t > 0
    ensures var c := Chosen(t); var u := UnitToDuration(c.unit);
      && u.Some? && 0 <= c.value <= 99_999_999
      && t <= c.value * u.value < t + u.value && c.value * u.value < 0x1_0000_0000_0000_0000
      && (c.value * u.value < 0x8000_0000_0000_0000 <==> t <= 2_562_047 * 3_600_000_000_000)
  {
    hide Div;
    match Chosen(t).unit
    case 'n' => DivRoundsUp(t, 1);
    case 'u' => DivRoundsUp(t, 1_000);
    case 'm' => DivRoundsUp(t, 1_000_000);
    case 'S' => DivRoundsUp(t, 1_000_000_000);
    case 'M' => DivRoundsUp(t, 60_000_000_000);
    case _ => DivRoundsUp(t, 3_600_000_000_000);
  }

  /** Decoding gives back the chosen value in its unit, wrapped to 64 bits. */
  lemma {:induction false} DecodeEncode(t: int64)
    ensures var c := Chosen(t);
      c.value < 0x8000_0000_0000_0000 && UnitToDuration(c.unit).Some? ==>
        DecodeTimeout(EncodeTimeout(t)) == Some(Wrapped(UnitToDuration(c.unit).value * c.value))
  {
    ChosenIsNat(t);
    var c, s := Chosen(t), EncodeTimeout(t);
    var digits := FormatNat(c.value);
    ParseFormat(c.value);
    assert s[..|s| - 1] == digits && s[|s| - 1] == c.unit;
  }

  /** For every positive timeout the header has at most eight digits and a unit; it decodes to
      a duration of at least t and less than one unit more exactly up to 2562047 hours, beyond
      which the product wraps around and the decoded timeout is negative. */
  lemma {:induction false} TimeoutRoundTrip(t: int64)
    requires t > 0
    ensures 2 <= |EncodeTimeout(t)| <= 9
    ensures var v := DecodeTimeout(EncodeTimeout(t)); var u := UnitToDuration(EncodeTimeout(t)[|EncodeTimeout(t)| - 1]);
      && v.Some? && u.Some?
      && (t <= v.value < t + u.value <==> t <= 2_562_047 * 3_600_000_000_000)
      && (t > 2_562_047 * 3_600_000_000_000 ==> v.value < 0)
  {
    var c := Chosen(t);
    ChosenCovers(t);
    DecodeEncode(t);
    var u := UnitToDuration(c.unit).value;
    hide Chosen, UnitToDuration, DecodeTimeout, FormatNat, Pow10;
    FormatLength(c.value, 8);
    Pow10Eight();
    FormatNonEmpty(c.value);
    Commutes(u, c.value);
    WrapFits(c.value * u);
  }

  /** The unit of the header is the finest that will do: with a finer one, eight digits are not
      enough to cover the timeout. */
  lemma {:induction false} UnitIsFinest(t: int64, c: char)
    requires t > 0 && UnitToDuration(c).Some?
    ensures var s := EncodeTimeout(t); var u := UnitToDuration(s[|s| - 1]);
      u.Some? && (UnitToDuration(c).value < u.value ==> 99_999_999 * UnitToDuration(c).value < t)
  {
    ChosenCovers(t);
    var s, r := EncodeTimeout(t), UnitToDuration(c).value;
    assert s[|s| - 1] == Chosen(t).unit;
    DivRoundsUp(t, r);
    if UnitToDuration(Chosen(t).unit).value > r {
      assert Div(t, r) >= 100_000_000;
      TooMany(t, r, Div(t, r));
    }
  }

  lemma {:induction false} TooMany(t: int, r: nat, n: int)
    requires n * r < t + r && n >= 100_000_000
    ensures 99_999_999 * r < t
  {
    assert n * r >= 100_000_000 * r;
  }

  lemma {:induction false} Commutes(a: int, b: int)
    ensures a * b == b * a
  {
  }

  lemma {:induction false} WrapFits(x: nat)
    requires x < 0x1_0000_0000_0000_0000
    ensures if x < 0x8000_0000_0000_0000 then Wrapped(x) == x else Wrapped(x) < 0
  {
  }

  lemma {:induction false} Pow10Eight()
    ensures Pow10(8) == 100_000_000
  {
    assert Pow10(4) == 10_000;
  }

  /** A timeout that has passed is sent as zero. */
  lemma {:induction false} PassedIsZero(t: int64)
    requires t <= 0
    ensures EncodeTimeout(t) == "0n" && DecodeTimeout(EncodeTimeout(t)) == Some(0)
  {
    DecodeEncode(t);
  }
}
