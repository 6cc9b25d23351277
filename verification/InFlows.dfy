/** inFlow of grpc/transport/control.go: inbound flow control in 32-bit words. */
module InFlows {
  import opened Words

  datatype Flow = Flow(limit: uint32, pendingData: uint32, pendingUpdate: uint32) {
    function OnData(n: uint32): (Flow, bool) {
      var d := Wrap32(pendingData + n);
      (this.(pendingData := d), Wrap32(d + pendingUpdate) <= limit)
    }

    function OnRead(n: uint32): (Flow, uint32) {
      if pendingData == 0 then (this, 0)
      else
        var d, u := Wrap32(pendingData - n), Wrap32(pendingUpdate + n);
        if u >= limit / 4 then (Flow(limit, d, 0), u) else (Flow(limit, d, u), 0)
    }

    function Reset(): (Flow, uint32) {
      (this.(pendingData := 0), pendingData)
    }

    /** What the two-party argument needs of a flow: update amounts below a quarter of the
        limit are kept back, larger ones never stay. */
    predicate Held() {
      pendingUpdate == 0 || pendingUpdate < limit / 4
    }
  }

  /** In range, onData adds exactly n and its verdict is the comparison with the limit. */
  lemma {:induction false} OnDataExact(f: Flow, n: uint32)
    requires f.pendingData + f.pendingUpdate + n < 0x1_0000_0000
    ensures f.OnData(n).0 == f.(pendingData := f.pendingData + n)
    ensures f.OnData(n).1 <==> f.pendingData + n + f.pendingUpdate <= f.limit
  {
  }

  /** Reading no more than is pending never underflows: the bytes move from pendingData to
      pendingUpdate or out as a window update, and what stays back is under a quarter. */
  lemma {:induction false} OnReadExact(f: Flow, n: uint32)
    requires f.Held() && n <= f.pendingData && f.pendingData + f.pendingUpdate < 0x1_0000_0000
    ensures var (g, w) := f.OnRead(n);
            && g.limit == f.limit && g.Held()
            && g.pendingData == f.pendingData - n
            && g.pendingUpdate + w == f.pendingUpdate + n
            && (w == 0 || (w >= f.limit / 4 && g.pendingUpdate == 0))
  {
  }

  /** Reading more than is pending is where the code goes wrong: pendingData wraps to a huge
      amount, exactly when something, but less than n, was pending. */
  lemma {:induction false} OnReadUnderflows(f: Flow, n: uint32)
    ensures f.OnRead(n).0.pendingData > f.pendingData <==> 0 < f.pendingData < n
  {
  }

  lemma {:induction false} PendingAfter(f: Flow, n: uint32)
    ensures f.OnRead(n).0.pendingData == if f.pendingData == 0 then 0 else Wrap32(f.pendingData - n)
  {
  }

  /** handleData for a padded frame on a finished stream gives the padding back and then the
      whole frame: the account is right exactly when there is no padding, or when the padding
      is all the frame carries and the frame is all that is pending. */
  lemma {:induction false} PaddingTwice(f: Flow, size: uint32, pad: uint32)
    requires pad <= size <= f.pendingData
    ensures f.OnRead(pad).0.OnRead(size).0.pendingData == f.pendingData - size
            <==> pad == 0 || pad == size == f.pendingData
  {
    hide Flow.OnRead, Wrap32;
    var g := f.OnRead(pad).0;
    PendingAfter(f, pad);
    PendingAfter(g, size);
    Wrapped(f.pendingData - pad);
    Wrapped(f.pendingData - pad - size);
  }

  lemma {:induction false} Wrapped(x: int)
    requires -0x1_0000_0000 < x < 0x1_0000_0000
    ensures Wrap32(x) == if x < 0 then x + 0x1_0000_0000 else x
  {
  }

  class InFlow {
    var limit: uint32
    var pendingData: uint32
    var pendingUpdate: uint32

    function Value(): Flow
      reads this
    {
      Flow(limit, pendingData, pendingUpdate)
    }

    constructor (l: uint32)
      ensures Value() == Flow(l, 0, 0)
    {
      limit, pendingData, pendingUpdate := l, 0, 0;
    }

    /** The result says whether there is no error. */
    method OnData(n: uint32) returns (ok: bool)
      modifies this
      ensures (Value(), ok) == old(Value()).OnData(n)
      ensures old(pendingData) + old(pendingUpdate) + n < 0x1_0000_0000 ==>
        && pendingData == old(pendingData) + n
        && (ok <==> pendingData + pendingUpdate <= limit)
    {
      pendingData := Wrap32(pendingData + n);
      if Wrap32(pendingData + pendingUpdate) > limit {
        return false;
      }
      return true;
    }

    method OnRead(n: uint32) returns (w: uint32)
      modifies this
      ensures (Value(), w) == old(Value()).OnRead(n)
      ensures old(Value().Held()) && n <= old(pendingData) && old(pendingData) + old(pendingUpdate) < 0x1_0000_0000 ==>
        && Value().Held() && pendingData == old(pendingData) - n
        && pendingUpdate + w == old(pendingUpdate) + n
    {
      if pendingData == 0 {
        return 0;
      }
      pendingData := Wrap32(pendingData - n);
      pendingUpdate := Wrap32(pendingUpdate + n);
      if pendingUpdate >= limit / 4 {
        w := pendingUpdate;
        pendingUpdate := 0;
        return;
      }
      return 0;
    }

    method ResetPendingData() returns (n: uint32)
      modifies this
      ensures (Value(), n) == old(Value()).Reset()
    {
      n := pendingData;
      pendingData := 0;
    }
  }
}
