/** Extensions kept as one byte string (gogo/protobuf/proto extensions.go and
    extensions_gogo.go): finding and clearing a field in a concatenation of records. */
module Extensions {
  import opened Words
  import opened Varint
  import Skipping
  import opened Chains

  /** The free function DecodeVarint: value and length, or (0, 0) when there is no varint. */
  function VarintOrZero(s: seq<byte>): (r: (uint64, nat))
    ensures r.1 <= |s|
  {
    match Decode(s)
    case Ok(x, n) => (x, n)
    case Fail(_) => (0, 0)
  }

  /** int32(tag >> 3). */
  function FieldNumber(tag: uint64): int {
    var w := Wrap32(tag / 8);
    if w < 0x8000_0000 then w else w - 0x1_0000_0000
  }

  /** int(w): the two's complement reading of a 64-bit word. */
  function Int64(w: uint64): int {
    if w < 0x8000_0000_0000_0000 then w else w - 0x1_0000_0000_0000_0000
  }

  /** size, for every wire type but groups; None is its error. */
  function SizeOf(s: seq<byte>, wire: nat): Option<int> {
    if wire == 0 then Some(VarintOrZero(s).1)
    else if wire == 1 then Some(8)
    else if wire == 2 then Some(Int64(Wrap64(VarintOrZero(s).0 + VarintOrZero(s).1)))
    else if wire == 5 then Some(4)
    else None
  }

  // ---------------------------------------------------------------- records

  /** One extension as it lies in the byte string. */
  datatype Record = Record(tag: seq<byte>, value: seq<byte>)

  predicate IsBytes(bs: seq<byte>) {
    var r := Decode(bs);
    r.Ok? && r.n + r.x == |bs| && |bs| < 0x8000_0000_0000_0000
  }

  /** A tag varint followed by a varint, a fixed word or a length-delimited value. */
  predicate WellFormed(r: Record) {
    Skipping.IsVarint(r.tag) && IsValue(Decode(r.tag).x % 8, r.value)
  }

  predicate IsValue(wire: nat, bs: seq<byte>) {
    || (wire == 0 && Skipping.IsVarint(bs)) || (wire == 1 && |bs| == 8)
    || (wire == 2 && IsBytes(bs)) || (wire == 5 && |bs| == 4)
  }

  function NumberOf(r: Record): int
    requires WellFormed(r)
  {
    FieldNumber(Decode(r.tag).x)
  }

  /** A field's tag on the wire carries its number. */
  lemma {:induction false} TagNumber(tag: nat, wire: nat)
    requires 1 <= tag < 0x2000_0000 && wire < 8
    ensures FieldNumber(8 * tag + wire) == tag
  {
    assert (8 * tag + wire) / 8 == tag;
    assert Wrap32(tag) == tag;
  }

  /** So does the record that is written with it. */
  lemma {:induction false} RecordNumber(tag: nat, wire: nat, value: seq<byte>)
    requires 1 <= tag < 0x2000_0000 && wire < 8 && IsValue(wire, value)
    ensures var r := Record(Encode(8 * tag + wire), value); WellFormed(r) && NumberOf(r) == tag
  {
    DecodeEncode(8 * tag + wire, []);
    assert Encode(8 * tag + wire) + [] == Encode(8 * tag + wire);
    assert (8 * tag + wire) % 8 == wire;
    TagNumber(tag, wire);
    hide Decode, Encode, FieldNumber, IsValue;
  }

  predicate AllWellFormed(rs: seq<Record>) {
    forall i :: 0 <= i < |rs| ==> WellFormed(rs[i])
  }

  function Concat(rs: seq<Record>): seq<byte> {
    if rs == [] then [] else rs[0].tag + rs[0].value + Concat(rs[1..])
  }

  /** The records of other fields, in order. */
  function Without(rs: seq<Record>, field: int): (r: seq<Record>)
    requires AllWellFormed(rs)
    ensures AllWellFormed(r)
  {
    if rs == [] then []
    else if NumberOf(rs[0]) == field then Without(rs[1..], field)
    else [rs[0]] + Without(rs[1..], field)
  }

  predicate Has(rs: seq<Record>, field: int)
    requires AllWellFormed(rs)
  {
    exists i :: 0 <= i < |rs| && NumberOf(rs[i]) == field
  }

  // ------------------------------------------------------------- properties

  lemma {:induction false} HasWithout(rs: seq<Record>, field: int, other: int)
    requires AllWellFormed(rs)
    ensures Has(Without(rs, field), other) <==> Has(rs, other) && other != field
  {
    if rs != [] {
      HasWithout(rs[1..], field, other);
      HasCons(rs, other);
      var w := Without(rs, field);
      if NumberOf(rs[0]) != field {
        assert w[1..] == Without(rs[1..], field);
        HasCons(w, other);
      }
    }
  }

  lemma {:induction false} HasCons(rs: seq<Record>, field: int)
    requires AllWellFormed(rs) && rs != []
    ensures Has(rs, field) <==> NumberOf(rs[0]) == field || Has(rs[1..], field)
  {
    if i :| 0 <= i < |rs| && NumberOf(rs[i]) == field {
      if i > 0 {
        assert rs[1..][i - 1] == rs[i];
      }
    }
    if Has(rs[1..], field) {
      var j :| 0 <= j < |rs| - 1 && NumberOf(rs[1..][j]) == field;
      assert rs[j + 1] == rs[1..][j];
    }
  }

  lemma {:induction false} ConcatSplit(xs: seq<Record>, ys: seq<Record>)
    ensures Concat(xs + ys) == Concat(xs) + Concat(ys)
  {
    if xs == [] {
      assert xs + ys == ys;
    } else {
      assert (xs + ys)[1..] == xs[1..] + ys && (xs + ys)[0] == xs[0];
      ConcatSplit(xs[1..], ys);
    }
  }

  lemma {:induction false} WithoutSplit(xs: seq<Record>, ys: seq<Record>, field: int)
    requires AllWellFormed(xs) && AllWellFormed(ys)
    ensures AllWellFormed(xs + ys) && Without(xs + ys, field) == Without(xs, field) + Without(ys, field)
  {
    hide WellFormed, NumberOf;
    if xs == [] {
      assert xs + ys == ys;
    } else {
      assert (xs + ys)[1..] == xs[1..] + ys && (xs + ys)[0] == xs[0];
      WithoutSplit(xs[1..], ys, field);
    }
  }

  /** The code's way of reading the record at the front of the input finds its tag and its
      exact length, so the scan moves forward. */
  lemma {:induction false} ReadRecord(r: Record, rest: seq<byte>)
    requires WellFormed(r)
    ensures var s := r.tag + r.value + rest;
            && Decode(r.tag).Ok? && VarintOrZero(s) == (Decode(r.tag).x, |r.tag|) && |r.tag| > 0
            && SizeOf(s[|r.tag|..], Decode(r.tag).x % 8) == Some(|r.value|)
  {
    hide SizeOf, DecodeAt, IsValue;
    var s := r.tag + r.value + rest;
    assert s == r.tag + (r.value + rest);
    DecodePrefix(r.tag, r.value + rest);
    assert s[|r.tag|..] == r.value + rest;
    ReadValue(Decode(r.tag).x % 8, r.value, rest);
  }

  lemma {:induction false} ReadValue(wire: nat, value: seq<byte>, rest: seq<byte>)
    requires IsValue(wire, value)
    ensures SizeOf(value + rest, wire) == Some(|value|)
  {
    hide DecodeAt;
    if Decode(value).Ok? {
      DecodePrefix(value, rest);
    }
  }

  lemma {:induction false} WithoutAbsent(rs: seq<Record>, field: int)
    requires AllWellFormed(rs) && !Has(rs, field)
    ensures Without(rs, field) == rs
  {
    if rs != [] {
      HasCons(rs, field);
      WithoutAbsent(rs[1..], field);
      assert rs == [rs[0]] + rs[1..];
    }
  }

  /** Dropping one record of the field leaves the same records of the others. */
  lemma {:induction false} WithoutDropped(rs: seq<Record>, j: nat, field: int)
    requires AllWellFormed(rs) && j < |rs| && NumberOf(rs[j]) == field
    ensures AllWellFormed(Dropped(rs, j)) && Without(Dropped(rs, j), field) == Without(rs, field)
  {
    hide Concat, WellFormed, NumberOf;
    assert rs == rs[..j] + rs[j..];
    assert rs[j..][1..] == rs[j + 1..];
    WithoutSplit(rs[..j], rs[j..], field);
    WithoutSplit(rs[..j], rs[j + 1..], field);
  }

  /** How far HasExtension and deleteExtension move over the record at the front. */
  function Advance(s: seq<byte>): Option<int> {
    var (tag, n) := VarintOrZero(s);
    match SizeOf(s[n..], tag % 8)
    case Some(l) => Some(n + l)
    case None => None
  }

  /** A length whose sum with its own size is negative in an int, by at least the tag's size. */
  predicate LengthGoesBack(s: seq<byte>) {
    var (tag, n) := VarintOrZero(s);
    var (v, m) := VarintOrZero(s[n..]);
    tag % 8 == 2 && var w := Wrap64(v + m); w >= 0x8000_0000_0000_0000 && w + n <= 0x1_0000_0000_0000_0000
  }

  /** On arbitrary bytes the two scans move forward exactly when the next tag is a readable
      varint and no length wraps. On a truncated or overlong tag the offset stays where it
      is, so unless field 0 is asked for their loops never end. */
  lemma {:induction false} AdvanceExactlyWhen(s: seq<byte>)
    requires Advance(s).Some?
    ensures Advance(s).value > 0 <==> Decode(s).Ok? && !LengthGoesBack(s)
    ensures Decode(s).Fail? ==> Advance(s) == Some(0) && FieldNumber(VarintOrZero(s).0) == 0
  {
    assert s[0..] == s;
  }

  /** For one, a tag cut short: the loops stay at its first byte. */
  lemma {:induction false} TruncatedTagSticks()
    ensures Advance([0x88]) == Some(0) && FieldNumber(VarintOrZero([0x88]).0) == 0
  {
    var s: seq<byte> := [0x88];
    assert s[1..] == [] && DecodeAt(s[1..], 1) == Fail(UnexpectedEOF);
    AdvanceExactlyWhen(s);
  }

  // ------------------------------------------ when the scans end, on arbitrary bytes

  datatype Turn = Ends | Goes(to: int)

  /** One turn of the loop of HasExtension or deleteExtension: it ends at the field, or where
      size fails, or goes on at another offset. */
  function ScanTurn(ext: seq<byte>, field: int, o: nat): Turn
    requires o < |ext|
  {
    var s := ext[o..];
    if FieldNumber(VarintOrZero(s).0) == field || Advance(s).None? then Ends
    else Goes(o + Advance(s).value)
  }

  /** The loop is left within k turns; a negative offset would panic. */
  predicate EndsWithin(ext: seq<byte>, field: int, o: int, k: nat)
    decreases k
  {
    o < 0 || o >= |ext| || ScanTurn(ext, field, o).Ends?
    || (k > 0 && EndsWithin(ext, field, ScanTurn(ext, field, o).to, k - 1))
  }

  /** The scan meets a tag that is no readable varint before it ends. Asked for field 0 it
      takes such a tag for the field. */
  predicate MeetsUnreadable(ext: seq<byte>, field: int, o: nat)
    decreases |ext| - o
  {
    o < |ext| &&
    if Decode(ext[o..]).Fail? then field != 0
    else
      var t := ScanTurn(ext, field, o);
      t.Goes? && t.to > o && MeetsUnreadable(ext, field, t.to)
  }

  /** It meets a group, or a length that wraps and leads back. */
  predicate MeetsOdd(ext: seq<byte>, field: int, o: nat)
    decreases |ext| - o
  {
    o < |ext| && Decode(ext[o..]).Ok? &&
    var t := ScanTurn(ext, field, o);
    || Decode(ext[o..]).x % 8 == 3
    || (t.Goes? && (t.to <= o || MeetsOdd(ext, field, t.to)))
  }

  lemma {:induction false} StuckForever(ext: seq<byte>, field: int, o: nat, k: nat)
    requires MeetsUnreadable(ext, field, o)
    ensures !EndsWithin(ext, field, o, k)
    decreases k
  {
    if Decode(ext[o..]).Fail? {
      AdvanceExactlyWhen(ext[o..]);
      assert ScanTurn(ext, field, o) == Goes(o);
    }
    if k > 0 {
      StuckForever(ext, field, ScanTurn(ext, field, o).to, k - 1);
    }
  }

  lemma {:induction false} EndsInTime(ext: seq<byte>, field: int, o: nat)
    requires !MeetsUnreadable(ext, field, o) && !MeetsOdd(ext, field, o)
    ensures EndsWithin(ext, field, o, if o < |ext| then |ext| - o else 0)
    decreases |ext| - o
  {
    hide Decode, ScanTurn;
    if o < |ext| {
      var t := ScanTurn(ext, field, o);
      if Decode(ext[o..]).Fail? {
        UnreadableIsZero(ext, o);
      } else if t.Goes? {
        EndsInTime(ext, field, t.to);
        EndsLater(ext, field, t.to, if t.to < |ext| then |ext| - t.to else 0, |ext| - o - 1);
      }
    }
  }

  lemma {:induction false} UnreadableIsZero(ext: seq<byte>, o: nat)
    requires o < |ext| && Decode(ext[o..]).Fail?
    ensures ScanTurn(ext, 0, o).Ends?
  {
  }

  lemma {:induction false} EndsLater(ext: seq<byte>, field: int, o: int, j: nat, k: nat)
    requires EndsWithin(ext, field, o, j) && j <= k
    ensures EndsWithin(ext, field, o, k)
    decreases j
  {
    if 0 <= o < |ext| && ScanTurn(ext, field, o).Goes? {
      EndsLater(ext, field, ScanTurn(ext, field, o).to, j - 1, k - 1);
    }
  }

  /** On arbitrary bytes, but for groups and lengths that wrap: a scan ends, and then within as
      many turns as there are bytes, if and only if every tag it meets is readable. */
  lemma {:induction false} ScanEndsIff(ext: seq<byte>, field: int, o: nat)
    requires !MeetsOdd(ext, field, o)
    ensures (exists k: nat :: EndsWithin(ext, field, o, k)) <==> !MeetsUnreadable(ext, field, o)
    ensures o < |ext| && !MeetsUnreadable(ext, field, o) ==> EndsWithin(ext, field, o, |ext| - o)
  {
    if MeetsUnreadable(ext, field, o) {
      forall k: nat ensures !EndsWithin(ext, field, o, k) {
        StuckForever(ext, field, o, k);
      }
    } else {
      EndsInTime(ext, field, o);
      var k: nat := if o < |ext| then |ext| - o else 0;
      assert EndsWithin(ext, field, o, k);
    }
  }

  /** The offsets from which the loop is left within k turns. */
  function Leaving(ext: seq<byte>, field: int, k: nat): set<nat> {
    set o: nat | o < |ext| && EndsWithin(ext, field, o, k)
  }

  lemma {:induction false} LeavingGrows(ext: seq<byte>, field: int, k: nat)
    ensures Leaving(ext, field, k) <= Leaving(ext, field, k + 1)
    ensures Leaving(ext, field, k) == Leaving(ext, field, k + 1) ==>
      Leaving(ext, field, k + 1) == Leaving(ext, field, k + 2)
  {
    hide ScanTurn;
    var a, b, c := Leaving(ext, field, k), Leaving(ext, field, k + 1), Leaving(ext, field, k + 2);
    forall o | o in a ensures o in b {
      EndsLater(ext, field, o, k, k + 1);
    }
    forall o | o in b ensures o in c {
      EndsLater(ext, field, o, k + 1, k + 2);
    }
    if a == b {
      forall o | o in c ensures o in b {
        if !ScanTurn(ext, field, o).Ends? {
          var to := ScanTurn(ext, field, o).to;
          assert EndsWithin(ext, field, to, k + 1);
          if 0 <= to < |ext| {
            assert to in b && to in a;
          }
          assert EndsWithin(ext, field, to, k);
        }
      }
    }
  }

  lemma {:induction false} LeavesInTime(ext: seq<byte>, field: int, o: int, k: nat)
    requires EndsWithin(ext, field, o, k)
    requires Leaving(ext, field, |ext|) == Leaving(ext, field, |ext| + 1)
    ensures EndsWithin(ext, field, o, |ext|)
    decreases k
  {
    hide ScanTurn;
    if 0 <= o < |ext| && ScanTurn(ext, field, o).Goes? {
      LeavesInTime(ext, field, ScanTurn(ext, field, o).to, k - 1);
      assert o in Leaving(ext, field, |ext| + 1);
    }
  }

  /** Whatever lengths lead back: a scan ends if and only if it ends within as many turns as
      there are bytes. After that it repeats itself. */
  lemma {:induction false} ScanEndsInTime(ext: seq<byte>, field: int, o: int)
    ensures (exists k: nat :: EndsWithin(ext, field, o, k)) <==> EndsWithin(ext, field, o, |ext|)
  {
    hide EndsWithin;
    if k: nat :| EndsWithin(ext, field, o, k) {
      var levels := seq(|ext| + 2, (j: nat) => Leaving(ext, field, j));
      forall j: nat | j <= |ext| ensures Rises(levels, j) {
        LeavingGrows(ext, field, j);
      }
      ChainStops(levels, |ext|);
      LeavesInTime(ext, field, o, k);
    }
  }

  // ---------------------------------------------------------------- methods

  function Dropped(rs: seq<Record>, j: nat): seq<Record>
    requires j < |rs|
  {
    rs[..j] + rs[j + 1..]
  }

  /** Offset o of ext is where record k starts. */
  ghost predicate At(ext: seq<byte>, o: nat, rs: seq<Record>, k: nat) {
    && k <= |rs| && o <= |ext|
    && ext[..o] == Concat(rs[..k]) && ext[o..] == Concat(rs[k..])
  }

  lemma {:induction false} AtEnd(ext: seq<byte>, o: nat, rs: seq<Record>, k: nat)
    requires AllWellFormed(rs) && At(ext, o, rs, k)
    ensures o == |ext| <==> k == |rs|
  {
    if k < |rs| {
      ReadRecord(rs[k], Concat(rs[k..][1..]));
    }
  }

  /** One step of either scan. */
  lemma {:induction false} AtNext(ext: seq<byte>, o: nat, rs: seq<Record>, k: nat) returns (tag: uint64, n: nat, l: nat)
    requires AllWellFormed(rs) && At(ext, o, rs, k) && o < |ext|
    ensures k < |rs| && o + n <= |ext|
    ensures VarintOrZero(ext[o..]) == (tag, n) && SizeOf(ext[o + n..], tag % 8) == Some(l)
    ensures FieldNumber(tag) == NumberOf(rs[k]) && At(ext, o + n + l, rs, k + 1)
  {
    hide SizeOf, VarintOrZero, WellFormed, FieldNumber;
    AtEnd(ext, o, rs, k);
    var r, rest := rs[k], Concat(rs[k + 1..]);
    ReadRecord(r, rest);
    tag, n, l := Decode(r.tag).x, |r.tag|, |r.value|;
    assert ext[o..] == r.tag + r.value + rest by {
      assert rs[k..][1..] == rs[k + 1..];
    }
    Cut(ext, o, r.tag + r.value, rest);
    assert ext[o + n..] == ext[o..][n..];
    AtMoved(ext, o, rs, k);
  }

  lemma {:induction false} AtMoved(ext: seq<byte>, o: nat, rs: seq<Record>, k: nat)
    requires k < |rs| && At(ext, o, rs, k)
    ensures At(ext, o + |rs[k].tag| + |rs[k].value|, rs, k + 1)
  {
    var x := rs[k].tag + rs[k].value;
    assert rs[k..][1..] == rs[k + 1..];
    Cut(ext, o, x, Concat(rs[k + 1..]));
    assert rs[..k + 1] == rs[..k] + [rs[k]];
    ConcatSplit(rs[..k], [rs[k]]);
    assert Concat([rs[k]]) == x + [];
  }

  lemma {:induction false} Cut(ext: seq<byte>, o: nat, x: seq<byte>, rest: seq<byte>)
    requires o <= |ext| && ext[o..] == x + rest
    ensures o + |x| <= |ext| && ext[..o + |x|] == ext[..o] + x && ext[o + |x|..] == rest
  {
    assert ext == ext[..o] + (x + rest);
  }

  /** Splicing one record out of the bytes. */
  lemma {:induction false} AtDropped(ext: seq<byte>, o: nat, q: nat, rs: seq<Record>, k: nat)
    requires k < |rs| && At(ext, o, rs, k) && At(ext, q, rs, k + 1)
    ensures At(ext[..o] + ext[q..], o, Dropped(rs, k), k)
  {
    assert Dropped(rs, k)[..k] == rs[..k] && Dropped(rs, k)[k..] == rs[k + 1..];
  }

  class ExtensionBytes {
    var ext: seq<byte>

    /** HasExtension. `rs` is what the bytes are made of. */
    method HasExtension(field: int, ghost rs: seq<Record>) returns (found: bool)
      requires AllWellFormed(rs) && ext == Concat(rs)
      ensures found <==> Has(rs, field)
    {
      hide Concat, WellFormed, NumberOf, FieldNumber, SizeOf, VarintOrZero;
      var o: nat := 0;
      ghost var k: nat := 0;
      AtStart(ext, rs);
      while o < |ext|
        invariant At(ext, o, rs, k)
        invariant forall i :: 0 <= i < k ==> NumberOf(rs[i]) != field
        decreases |rs| - k
      {
        ghost var _, _, _ := AtNext(ext, o, rs, k);
        var (tag, n) := VarintOrZero(ext[o..]);
        if FieldNumber(tag) == field {
          return true;
        }
        var l := SizeOf(ext[o + n..], tag % 8);
        if l.None? {
          return false;
        }
        o, k := o + n + l.value, k + 1;
      }
      AtEnd(ext, o, rs, k);
      found := false;
    }

    /** deleteExtension: removes the first record of the field at or after the offset and
        returns its offset, or -1. The panic on an unreadable size cannot happen here. */
    method DeleteExtension(field: int, offset: nat, ghost rs: seq<Record>, ghost k: nat)
      returns (r: int, ghost j: nat)
      requires AllWellFormed(rs) && At(ext, offset, rs, k)
      modifies this
      ensures r == -1 || r >= 0
      ensures k <= j <= |rs| && (r == -1 <==> j == |rs|)
      ensures forall i :: k <= i < j ==> NumberOf(rs[i]) != field
      ensures r == -1 ==> ext == old(ext)
      ensures r >= 0 ==> NumberOf(rs[j]) == field && At(ext, r, Dropped(rs, j), j)
    {
      hide Concat, WellFormed, NumberOf, FieldNumber, SizeOf, VarintOrZero;
      var o: nat := offset;
      j := k;
      while o < |ext|
        invariant k <= j && ext == old(ext) && At(ext, o, rs, j)
        invariant forall i :: k <= i < j ==> NumberOf(rs[i]) != field
        decreases |rs| - j
      {
        ghost var _, _, _ := AtNext(ext, o, rs, j);
        var (tag, n) := VarintOrZero(ext[o..]);
        var l := SizeOf(ext[o + n..], tag % 8);
        var next := o + n + l.value;
        if FieldNumber(tag) == field {
          AtDropped(ext, o, next, rs, j);
          ext := ext[..o] + ext[next..];
          return o, j;
        }
        o, j := next, j + 1;
      }
      AtEnd(ext, o, rs, j);
      r := -1;
    }

    /** SetRawExtension on bytes: the records of the field give way to b. */
    method SetRawExtension(id: int, b: seq<byte>, ghost rs: seq<Record>)
      requires AllWellFormed(rs) && ext == Concat(rs)
      modifies this
      ensures ext == Concat(Without(rs, id)) + b
    {
      ClearExtension(id, rs);
      ext := ext + b;
    }

    /** clearExtension: it ends, and exactly the records of the other fields remain, byte
        for byte and in order. */
    method ClearExtension(field: int, ghost rs: seq<Record>)
      requires AllWellFormed(rs) && ext == Concat(rs)
      modifies this
      ensures ext == Concat(Without(rs, field))
    {
      hide Concat, WellFormed, NumberOf;
      var offset := 0;
      ghost var now, k: nat := rs, 0;
      AtStart(ext, rs);
      while offset != -1
        invariant offset == -1 || offset >= 0
        invariant AllWellFormed(now) && Without(now, field) == Without(rs, field)
        invariant k <= |now| && forall i :: 0 <= i < k ==> NumberOf(now[i]) != field
        invariant offset >= 0 ==> At(ext, offset, now, k)
        invariant offset == -1 ==> k == |now| && ext == Concat(now)
        decreases |now|, offset >= 0
      {
        AtWhole(ext, offset, now, k);
        ghost var j: nat;
        offset, j := DeleteExtension(field, offset, now, k);
        k := j;
        if offset >= 0 {
          WithoutDropped(now, j, field);
          now := Dropped(now, j);
        }
      }
      WithoutAbsent(now, field);
    }
  }

  /** One more record: it is there, and clearing its field, and no other, takes it away. */
  lemma {:induction false} WithRecord(rs: seq<Record>, r: Record, field: int)
    requires AllWellFormed(rs) && WellFormed(r)
    ensures AllWellFormed(rs + [r]) && (Has(rs + [r], field) <==> Has(rs, field) || field == NumberOf(r))
    ensures Without(rs + [r], field) == Without(rs, field) + if field == NumberOf(r) then [] else [r]
    ensures Concat(rs + [r]) == Concat(rs) + (r.tag + r.value)
  {
    hide WellFormed, NumberOf;
    WithoutSplit(rs, [r], field);
    ConcatSplit(rs, [r]);
    assert Concat([r]) == r.tag + r.value + [];
    assert Without([r], field) == if field == NumberOf(r) then [] else [r];
    assert (rs + [r])[|rs|] == r;
    if Has(rs, field) {
      var i :| 0 <= i < |rs| && NumberOf(rs[i]) == field;
      assert (rs + [r])[i] == rs[i];
    }
    if i :| 0 <= i < |rs + [r]| && NumberOf((rs + [r])[i]) == field {
      assert i < |rs| ==> rs[i] == (rs + [r])[i];
    }
  }

  lemma {:induction false} AtStart(ext: seq<byte>, rs: seq<Record>)
    requires ext == Concat(rs)
    ensures At(ext, 0, rs, 0)
  {
    assert rs[0..] == rs && rs[..0] == [] && ext[0..] == ext && ext[..0] == [];
  }

  lemma {:induction false} AtWhole(ext: seq<byte>, o: nat, rs: seq<Record>, k: nat)
    requires At(ext, o, rs, k)
    ensures ext == Concat(rs)
  {
    assert rs == rs[..k] + rs[k..] && ext == ext[..o] + ext[o..];
    ConcatSplit(rs[..k], rs[k..]);
  }
}
