/** Write of grpc/transport/http2_client.go as one call on the two quota pools, run by itself:
    a wait for an empty pool ends with an error, as when the context is done. */
module Sender {
  import opened Words
  import opened Quota
  import opened Frames
  import Outbound

  datatype Data = Data(id: nat, payload: seq<byte>, endStream: bool)

  function Payload(fs: seq<Data>): seq<byte> {
    if fs == [] then [] else Payload(fs[..|fs| - 1]) + fs[|fs| - 1].payload
  }

  lemma {:induction false} PayloadAppended(fs: seq<Data>, f: Data)
    ensures Payload(fs + [f]) == Payload(fs) + f.payload
  {
    assert (fs + [f])[..|fs|] == fs;
  }

  function Avail(balance: int): nat {
    if balance > 0 then balance else 0
  }

  /** How much of n bytes the two balances let through. */
  function Through(n: nat, sb: int, tb: int): nat {
    Outbound.Min(n, Outbound.Min(Avail(sb), Avail(tb)))
  }

  class Stream {
    const id: nat
    const sendQuotaPool: QuotaPool

    constructor (k: nat, window: int)
      ensures fresh(sendQuotaPool) && id == k && sendQuotaPool.Value() == New(window)
    {
      id := k;
      sendQuotaPool := new QuotaPool(window);
    }
  }

  class Transport {
    const sendQuotaPool: QuotaPool
    var wire: seq<Data>

    constructor ()
      ensures fresh(sendQuotaPool) && sendQuotaPool.Value() == New(65535) && wire == []
    {
      sendQuotaPool := new QuotaPool(65535);
      wire := [];
    }

    /** The two waits for quota, the next piece of the data and the overbooked rest. */
    method Reserve(s: Stream, rest: seq<byte>) returns (ok: bool, p: seq<byte>)
      requires s.sendQuotaPool != sendQuotaPool && rest != []
      requires sendQuotaPool.Value().Settled() && s.sendQuotaPool.Value().Settled()
      modifies sendQuotaPool, s.sendQuotaPool
      ensures var sb, tb := old(s.sendQuotaPool.Value().Balance()), old(sendQuotaPool.Value().Balance());
        && (ok <==> sb > 0 && tb > 0)
        && (ok ==>
              && p <= rest && |p| > 0 && Outbound.Longest(|p|, sb, tb, |rest|)
              && s.sendQuotaPool.Value() == New(sb - |p|) && sendQuotaPool.Value() == New(tb - |p|))
        && (!ok ==>
              && p == [] && sendQuotaPool.Value() == New(tb)
              && s.sendQuotaPool.Value() == New(if sb > 0 then 0 else sb))
    {
      SettledIsNew(sendQuotaPool.Value());
      SettledIsNew(s.sendQuotaPool.Value());
      var size := 16384;
      var sq := s.sendQuotaPool.Acquire();
      if sq.None? {
        return false, [];
      }
      var tq := sendQuotaPool.Acquire();
      if tq.None? {
        return false, [];
      }
      if sq.value < size {
        size := sq.value;
      }
      if tq.value < size {
        size := tq.value;
      }
      p := rest[..if size < |rest| then size else |rest|];
      if |p| < sq.value {
        s.sendQuotaPool.Add(sq.value - |p|);
      }
      if |p| < tq.value {
        sendQuotaPool.Add(tq.value - |p|);
      }
      ok := true;
    }

    /** One turn of the loop: the next frame, or the error of a wait for quota. */
    method Turn(s: Stream, rest: seq<byte>, last: bool, ghost sb: int, ghost tb: int)
      returns (ok: bool, p: seq<byte>)
      requires s.sendQuotaPool != sendQuotaPool
      requires s.sendQuotaPool.Value() == New(sb) && sendQuotaPool.Value() == New(tb)
      modifies this, sendQuotaPool, s.sendQuotaPool
      ensures ok <==> rest == [] || (sb > 0 && tb > 0)
      ensures p <= rest && |p| <= 16384
      ensures ok ==>
        && (rest != [] ==> 0 < |p| <= sb && |p| <= tb && (|p| in {16384, sb, tb} || p == rest))
        && wire == old(wire) + [Data(s.id, p, last && p == rest)]
        && s.sendQuotaPool.Value() == New(sb - |p|) && sendQuotaPool.Value() == New(tb - |p|)
      ensures !ok ==>
        && p == [] && wire == old(wire) && sendQuotaPool.Value() == New(tb)
        && s.sendQuotaPool.Value() == New(if sb > 0 then 0 else sb)
    {
      p := [];
      if rest != [] {
        SettledIsNew(New(tb));
        SettledIsNew(New(sb));
        ok, p := Reserve(s, rest);
        if !ok {
          return;
        }
      }
      wire := wire + [Data(s.id, p, last && |p| == |rest|)];
      ok := true;
    }

    /** Write. It sends as much of the data as the smaller balance allows, in frames of
        16384 bytes and a last one, succeeds exactly when that is all of it, and takes exactly what it
        sent from the connection. A stream whose call failed is left with nothing. */
    method Write(s: Stream, data: seq<byte>, last: bool, ghost sb: int, ghost tb: int)
      returns (ok: bool, ghost fs: seq<Data>)
      requires s.sendQuotaPool != sendQuotaPool
      requires s.sendQuotaPool.Value() == New(sb) && sendQuotaPool.Value() == New(tb)
      modifies this, sendQuotaPool, s.sendQuotaPool
      ensures wire == old(wire) + fs && FramesOf(fs, s.id, ok && last)
      ensures Payload(fs) == data[..Through(|data|, sb, tb)]
      ensures ok <==> Through(|data|, sb, tb) == |data|
      ensures sendQuotaPool.Value() == New(tb - Through(|data|, sb, tb))
      ensures s.sendQuotaPool.Value() == New(if ok then sb - |data| else if sb > 0 then 0 else sb)
      ensures ok ==> fs != []
    {
      hide Payload, FramesOf, New, QuotaPool.Value, FullSoFar, Outbound.Longest;
      assert FullSoFar([], sb, tb) by {
        NothingSent(sb, tb);
      }
      fs := [];
      NoFrames(s.id);
      ghost var n: nat := 0;
      var rest, more := data, true;
      while more
        invariant n <= |data| && rest == data[n..] && wire == old(wire) + fs && Payload(fs) == data[..n]
        invariant n == 0 || (n <= sb && n <= tb)
        invariant sendQuotaPool.Value() == New(tb - n) && s.sendQuotaPool.Value() == New(sb - n)
        invariant FramesOf(fs, s.id, !more && last)
        invariant (fs == [] ==> n == 0) && if more then rest != [] || fs == [] else rest == [] && fs != []
        invariant more ==> FullSoFar(fs, sb - n, tb - n)
        decreases |rest|, more
      {
        var sent, p := Turn(s, rest, last, sb - n, tb - n);
        if !sent {
          return false, fs;
        }
        ghost var f := Data(s.id, p, last && p == rest);
        FramesAppended(fs, f, sb - n, tb - n);
        Advance(data, n, rest, p);
        fs, n := fs + [f], n + |p|;
        rest := rest[|p|..];
        more := rest != [];
      }
      assert data[..|data|] == data;
      ok := true;
    }
  }

  /** Frames of one stream, all but the last one full, END_STREAM on the last one or on none. */
  ghost predicate FramesOf(fs: seq<Data>, id: nat, ended: bool) {
    forall i :: 0 <= i < |fs| ==>
      && fs[i].id == id && (fs[i].endStream <==> ended && i == |fs| - 1)
      && if i < |fs| - 1 then |fs[i].payload| == 16384 else |fs[i].payload| <= 16384
  }

  /** The last frame is full, or one of the balances is used up. */
  predicate FullSoFar(fs: seq<Data>, sb: int, tb: int) {
    fs == [] || |fs[|fs| - 1].payload| == 16384 || sb <= 0 || tb <= 0
  }

  lemma {:induction false} NothingSent(sb: int, tb: int)
    ensures FullSoFar([], sb, tb)
  {
  }

  lemma {:induction false} NoFrames(id: nat)
    ensures Payload([]) == [] && FramesOf([], id, false)
  {
  }

  lemma {:induction false} FramesAppended(fs: seq<Data>, f: Data, sb: int, tb: int)
    requires FramesOf(fs, f.id, false) && FullSoFar(fs, sb, tb) && |f.payload| <= 16384
    requires fs == [] || (sb > 0 && tb > 0)
    ensures FramesOf(fs + [f], f.id, f.endStream)
    ensures Payload(fs + [f]) == Payload(fs) + f.payload
    ensures |f.payload| in {16384, sb, tb} ==> FullSoFar(fs + [f], sb - |f.payload|, tb - |f.payload|)
  {
    PayloadAppended(fs, f);
  }

  lemma {:induction false} Advance(data: seq<byte>, n: nat, rest: seq<byte>, p: seq<byte>)
    requires n <= |data| && rest == data[n..] && p <= rest
    ensures data[..n + |p|] == data[..n] + p && data[n + |p|..] == rest[|p|..]
    ensures p == rest <==> rest[|p|..] == []
  {
  }

  // ----------------------------------------- a call by itself is a run of the machine

  /** The machine with call w, its stream and the connection's balance replaced. */
  function Put(s: Outbound.State, w: nat, x: Outbound.Writer, y: Outbound.Stream, quota: int): Outbound.State
    requires w < |s.writers| && x.k < |s.streams|
  {
    s.(writers := s.writers[w := x], streams := s.streams[x.k := y], quota := quota)
  }

  lemma {:induction false} PutTwice(s: Outbound.State, w: nat, x: Outbound.Writer, y: Outbound.Stream, q: int,
                 x': Outbound.Writer, y': Outbound.Stream, q': int)
    requires w < |s.writers| && x.k == x'.k < |s.streams|
    ensures var t := Put(s, w, x, y, q);
      && |t.writers| == |s.writers| && t.writers[w] == x && |t.streams| == |s.streams| && t.streams[x.k] == y
      && t.quota == q && t.writable == s.writable && t.sent == s.sent
      && Put(t, w, x', y', q') == Put(s, w, x', y', q')
    ensures x == s.writers[w] && y == s.streams[x.k] && q == s.quota ==> Put(s, w, x, y, q) == s
  {
    assert s.writers[w := x][w := x'] == s.writers[w := x'];
    assert s.streams[x.k := y][x.k := y'] == s.streams[x.k := y'];
    if x == s.writers[w] && y == s.streams[x.k] {
      assert s.writers[w := x] == s.writers && s.streams[x.k := y] == s.streams;
    }
  }

  /** One step that only touches call w, its stream and the connection's balance. */
  lemma {:induction false} PutStep(s: Outbound.State, w: nat, step: Outbound.Step, x: Outbound.Writer, y: Outbound.Stream, q: int)
    requires w < |s.writers| && x.k < |s.streams| && Outbound.Enabled(s, step)
    requires Outbound.After(s, step) == Put(s, w, x, y, q)
    ensures Outbound.Legal(s, [step]) && Outbound.Final(s, [step]) == Put(s, w, x, y, q)
  {
    assert [step][1..] == [];
  }

  /** The two waits. */
  lemma {:induction false} TakesBoth(s: Outbound.State, w: nat) returns (steps: seq<Outbound.Step>)
    requires Outbound.Enabled(s, Outbound.AcquireStream(w)) && s.quota > 0
    ensures var x := s.writers[w]; var y := s.streams[x.k];
      var n := Outbound.Size(y.quota, s.quota, |x.rest|);
      && Outbound.Legal(s, steps)
      && Outbound.Final(s, steps)
         == Put(s, w, x.(rest := x.rest[n..], phase := Outbound.Booked(x.rest[..n], y.quota - n, s.quota - n)),
                y.(quota := 0), 0)
  {
    var x := s.writers[w];
    var y := s.streams[x.k];
    var x1, y1 := x.(phase := Outbound.GotStream(y.quota)), y.(quota := 0);
    var s1 := Put(s, w, x1, y1, s.quota);
    PutStep(s, w, Outbound.AcquireStream(w), x1, y1, s.quota);
    var n := Outbound.Size(y.quota, s.quota, |x.rest|);
    var x2 := x.(rest := x.rest[n..], phase := Outbound.Booked(x.rest[..n], y.quota - n, s.quota - n));
    assert s1.streams[x.k := y1] == s1.streams;
    PutStep(s1, w, Outbound.Acquire(w), x2, y1, 0);
    PutTwice(s, w, x1, y1, s.quota, x2, y1, 0);
    hide Outbound.After, Outbound.Enabled;
    Outbound.Joined(s, [Outbound.AcquireStream(w)], [Outbound.Acquire(w)]);
    steps := [Outbound.AcquireStream(w)] + [Outbound.Acquire(w)];
  }

  /** The overbooked rest goes back. */
  lemma {:induction false} GivesBack(s: Outbound.State, w: nat) returns (steps: seq<Outbound.Step>)
    requires Outbound.At(s, w) && s.writers[w].phase.Booked?
    ensures var x := s.writers[w]; var y := s.streams[x.k];
      && Outbound.Legal(s, steps)
      && Outbound.Final(s, steps)
         == Put(s, w, x.(phase := Outbound.Booked(x.phase.p, 0, 0)), y.(quota := y.quota + x.phase.sBack),
                s.quota + x.phase.tBack)
  {
    hide Outbound.After, Outbound.Enabled, Outbound.Legal, Outbound.Final, Put;
    var x, y := s.writers[w], s.streams[s.writers[w].k];
    var x1, x2 := x.(phase := x.phase.(sBack := 0)), x.(phase := Outbound.Booked(x.phase.p, 0, 0));
    var y1 := y.(quota := y.quota + x.phase.sBack);
    PutTwice(s, w, x1, y1, s.quota, x2, y1, s.quota + x.phase.tBack);
    var first := GivesBackStream(s, w);
    var s1 := Outbound.Final(s, first);
    assert s1.writers[w] == x1 && s1.streams[x.k] == y1 && s1.quota == s.quota;
    var second := GivesBackConn(s1, w);
    assert Outbound.Final(s1, second) == Put(s, w, x2, y1, s.quota + x.phase.tBack);
    Outbound.Joined(s, first, second);
    steps := first + second;
  }

  lemma {:induction false} GivesBackStream(s: Outbound.State, w: nat) returns (steps: seq<Outbound.Step>)
    requires Outbound.At(s, w) && s.writers[w].phase.Booked?
    ensures var x := s.writers[w]; var y := s.streams[x.k];
      && Outbound.Legal(s, steps)
      && Outbound.Final(s, steps)
         == Put(s, w, x.(phase := x.phase.(sBack := 0)), y.(quota := y.quota + x.phase.sBack), s.quota)
  {
    var x := s.writers[w];
    var y := s.streams[x.k];
    PutTwice(s, w, x, y, s.quota, x, y, s.quota);
    steps := [];
    if x.phase.sBack > 0 {
      steps := [Outbound.GiveBackStream(w)];
      OneStep(s, Outbound.GiveBackStream(w));
    }
  }

  lemma {:induction false} GivesBackConn(s: Outbound.State, w: nat) returns (steps: seq<Outbound.Step>)
    requires Outbound.At(s, w) && s.writers[w].phase.Booked? && s.writers[w].phase.sBack == 0
    ensures var x := s.writers[w]; var y := s.streams[x.k];
      && Outbound.Legal(s, steps)
      && Outbound.Final(s, steps) == Put(s, w, x.(phase := Outbound.Booked(x.phase.p, 0, 0)), y, s.quota + x.phase.tBack)
  {
    var x := s.writers[w];
    var y := s.streams[x.k];
    PutTwice(s, w, x, y, s.quota, x, y, s.quota);
    steps := [];
    assert s.streams[x.k := y] == s.streams;
    if x.phase.tBack > 0 {
      steps := [Outbound.GiveBack(w)];
      OneStep(s, Outbound.GiveBack(w));
    }
  }

  /** The call after its next frame. */
  function Sent(x: Outbound.Writer, p: seq<byte>, rest: seq<byte>): Outbound.Writer {
    x.(rest := rest, out := x.out + p, phase := if rest == [] then Outbound.Finished else Outbound.Loop,
       ended := x.last && rest == [])
  }

  /** The write itself. */
  lemma {:induction false} Writes(s: Outbound.State, w: nat) returns (steps: seq<Outbound.Step>)
    requires Outbound.Enabled(s, Outbound.Lock(w))
    ensures var x := s.writers[w]; var p := x.phase.p;
      && Outbound.Legal(s, steps)
      && Outbound.Final(s, steps)
         == Put(s, w, Sent(x, p, x.rest), s.streams[x.k], s.quota)
            .(sent := s.sent + [Frame(x.k, |p|, x.last && x.rest == [])])
  {
    var x := s.writers[w];
    var p, y := x.phase.p, s.streams[x.k];
    OneStep(s, Outbound.Lock(w));
    var s1 := Outbound.After(s, Outbound.Lock(w));
    OneStep(s1, Outbound.WriteData(w));
    assert s1.writers[w := Sent(x, p, x.rest)] == s.writers[w := Sent(x, p, x.rest)];
    assert s.streams[x.k := y] == s.streams;
    Outbound.Joined(s, [Outbound.Lock(w)], [Outbound.WriteData(w)]);
    steps := [Outbound.Lock(w)] + [Outbound.WriteData(w)];
  }

  lemma {:induction false} OneStep(s: Outbound.State, step: Outbound.Step)
    requires Outbound.Enabled(s, step)
    ensures Outbound.Legal(s, [step]) && Outbound.Final(s, [step]) == Outbound.After(s, step)
  {
    assert [step][1..] == [];
  }

  lemma {:induction false} Totals(xs: seq<Frame>, ys: seq<Frame>)
    ensures Total(xs + ys) == Total(xs) + Total(ys)
    decreases |ys|
  {
    if ys == [] {
      assert xs + ys == xs;
    } else {
      var m := |ys| - 1;
      Totals(xs, ys[..m]);
      assert (xs + ys)[..|xs + ys| - 1] == xs + ys[..m];
    }
  }

  lemma {:induction false} PutAgain(s: Outbound.State, w: nat, x: Outbound.Writer, y: Outbound.Stream, q: int, sent: seq<Frame>,
                 x': Outbound.Writer, y': Outbound.Stream, q': int, sent': seq<Frame>)
    requires w < |s.writers| && x.k == x'.k < |s.streams|
    ensures var t := Put(s, w, x, y, q).(sent := sent);
      && |t.writers| == |s.writers| && t.writers[w] == x && |t.streams| == |s.streams| && t.streams[x.k] == y
      && t.quota == q && t.writable == s.writable && t.sent == sent
      && Put(t, w, x', y', q').(sent := sent') == Put(s, w, x', y', q').(sent := sent')
  {
    assert s.writers[w := x][w := x'] == s.writers[w := x'];
    assert s.streams[x.k := y][x.k := y'] == s.streams[x.k := y'];
  }

  /** Both waits, and the overbooked rest given back. */
  lemma {:induction false} Books(s: Outbound.State, w: nat) returns (steps: seq<Outbound.Step>)
    requires Outbound.Enabled(s, Outbound.AcquireStream(w)) && s.quota > 0
    ensures var x := s.writers[w]; var y := s.streams[x.k];
      var n := Outbound.Size(y.quota, s.quota, |x.rest|);
      && Outbound.Legal(s, steps)
      && Outbound.Final(s, steps)
         == Put(s, w, x.(rest := x.rest[n..], phase := Outbound.Booked(x.rest[..n], 0, 0)), y.(quota := y.quota - n), s.quota - n)
  {
    hide Outbound.After, Outbound.Legal, Outbound.Final, Put;
    var x := s.writers[w];
    var y := s.streams[x.k];
    var n := Outbound.Size(y.quota, s.quota, |x.rest|);
    var p, rest := x.rest[..n], x.rest[n..];
    var take := TakesBoth(s, w);
    var x1 := x.(rest := rest, phase := Outbound.Booked(p, y.quota - n, s.quota - n));
    var x2 := x.(rest := rest, phase := Outbound.Booked(p, 0, 0));
    PutTwice(s, w, x1, y.(quota := 0), 0, x2, y.(quota := y.quota - n), s.quota - n);
    var back := GivesBack(Outbound.Final(s, take), w);
    Outbound.Joined(s, take, back);
    steps := take + back;
  }

  /** One turn of the loop with quota in both pools. */
  lemma {:induction false} TurnRuns(s: Outbound.State, w: nat) returns (steps: seq<Outbound.Step>, news: seq<Frame>)
    requires Outbound.Enabled(s, Outbound.AcquireStream(w)) && s.quota > 0 && s.writable
    ensures var x := s.writers[w]; var y := s.streams[x.k];
      var n := Outbound.Size(y.quota, s.quota, |x.rest|);
      && Outbound.Legal(s, steps)
      && Outbound.Final(s, steps)
         == Put(s, w, Sent(x, x.rest[..n], x.rest[n..]), y.(quota := y.quota - n), s.quota - n).(sent := s.sent + news)
      && news == [Frame(x.k, n, x.last && x.rest[n..] == [])]
  {
    hide Outbound.After, Outbound.Legal, Outbound.Final, Sent;
    var x := s.writers[w];
    var y := s.streams[x.k];
    var n := Outbound.Size(y.quota, s.quota, |x.rest|);
    var p, rest := x.rest[..n], x.rest[n..];
    news := [Frame(x.k, n, x.last && rest == [])];
    var book := Books(s, w);
    var s2 := Outbound.Final(s, book);
    var x2, y2 := x.(rest := rest, phase := Outbound.Booked(p, 0, 0)), y.(quota := y.quota - n);
    SentOf(x, x2, p, rest);
    PutAgain(s, w, x2, y2, s.quota - n, s.sent, Sent(x, p, rest), y2, s.quota - n, s.sent + news);
    var write := Writes(s2, w);
    Outbound.Joined(s, book, write);
    steps := book + write;
  }

  lemma {:induction false} SentOf(x: Outbound.Writer, x2: Outbound.Writer, p: seq<byte>, rest: seq<byte>)
    requires x2 == x.(rest := rest, phase := x2.phase)
    ensures Sent(x2, p, rest) == Sent(x, p, rest) && Sent(x, p, rest).k == x.k
  {
  }

  /** The call after m of its remaining bytes, when it has returned. */
  function Returned(x: Outbound.Writer, m: nat): Outbound.Writer
    requires m <= |x.rest|
  {
    var ok := m == |x.rest|;
    x.(rest := x.rest[m..], out := x.out + x.rest[..m],
       phase := if ok then Outbound.Finished else Outbound.Aborted, ended := ok && x.last)
  }

  /** Its stream: a call that fails keeps what it had taken. */
  function Drawn(y: Outbound.Stream, m: nat, ok: bool): Outbound.Stream {
    if ok then y.(quota := y.quota - m)
    else y.(quota := y.quota - m - Avail(y.quota - m), lost := y.lost + Avail(y.quota - m))
  }

  /** A call that has to wait for an empty pool and is aborted there. */
  lemma {:induction false} GivesUp(s: Outbound.State, w: nat) returns (steps: seq<Outbound.Step>)
    requires Outbound.At(s, w) && s.writers[w].phase.Loop? && s.writers[w].rest != [] && !s.writers[w].ended
    requires s.streams[s.writers[w].k].quota <= 0 || s.quota <= 0
    ensures var x := s.writers[w]; var y := s.streams[x.k];
      Outbound.Legal(s, steps) && Outbound.Final(s, steps) == Put(s, w, Returned(x, 0), Drawn(y, 0, false), s.quota)
  {
    var x := s.writers[w];
    var y := s.streams[x.k];
    assert x.out + x.rest[..0] == x.out && x.rest[0..] == x.rest;
    if y.quota <= 0 {
      assert s.streams[x.k := y] == s.streams;
      PutStep(s, w, Outbound.Abort(w), Returned(x, 0), y, s.quota);
      steps := [Outbound.Abort(w)];
    } else {
      var x1, y1 := x.(phase := Outbound.GotStream(y.quota)), y.(quota := 0);
      var s1 := Put(s, w, x1, y1, s.quota);
      PutStep(s, w, Outbound.AcquireStream(w), x1, y1, s.quota);
      PutStep(s1, w, Outbound.Abort(w), Returned(x, 0), Drawn(y, 0, false), s.quota);
      PutTwice(s, w, x1, y1, s.quota, Returned(x, 0), Drawn(y, 0, false), s.quota);
      hide Outbound.After, Outbound.Enabled;
      Outbound.Joined(s, [Outbound.AcquireStream(w)], [Outbound.Abort(w)]);
      steps := [Outbound.AcquireStream(w)] + [Outbound.Abort(w)];
    }
  }

  /** What n bytes in one turn and m in the others come to. */
  lemma {:induction false} Chained(x: Outbound.Writer, y: Outbound.Stream, n: nat, m: nat)
    requires n + m <= |x.rest|
    ensures var x1, y1 := Sent(x, x.rest[..n], x.rest[n..]), y.(quota := y.quota - n);
      && |x1.rest| == |x.rest| - n && x1.k == x.k == Returned(x1, m).k
      && Returned(x1, m) == Returned(x, n + m).(phase := Returned(x1, m).phase)
      && Returned(x1, m).phase == Returned(x, n + m).phase
      && (forall ok :: Drawn(y1, m, ok) == Drawn(y, n + m, ok))
      && (x.rest[n..] == [] ==> x1 == Returned(x, n))
  {
    var rest := x.rest[n..];
    assert x.rest[..n + m] == x.rest[..n] + rest[..m] && x.rest[n + m..] == rest[m..];
    assert x.out + x.rest[..n] + rest[..m] == x.out + (x.rest[..n] + rest[..m]);
    if rest == [] {
      assert x.rest[..n] == x.rest;
    }
  }

  lemma {:induction false} ThroughMore(r: nat, sb: int, tb: int, n: nat)
    requires n <= r && n <= sb && n <= tb
    ensures Through(r, sb, tb) == n + Through(r - n, sb - n, tb - n)
    ensures Through(r - n, sb - n, tb - n) <= r - n
  {
  }

  /** The rest of the loop. */
  lemma {:induction false} LoopRuns(s: Outbound.State, w: nat) returns (steps: seq<Outbound.Step>, news: seq<Frame>)
    requires Outbound.At(s, w) && s.writable
    requires var x := s.writers[w]; x.phase.Loop? && x.rest != [] && !x.ended
    ensures var x := s.writers[w]; var y := s.streams[x.k];
      var m := Through(|x.rest|, y.quota, s.quota);
      && Outbound.Legal(s, steps)
      && Outbound.Final(s, steps)
         == Put(s, w, Returned(x, m), Drawn(y, m, m == |x.rest|), s.quota - m).(sent := s.sent + news)
      && Total(news) == m
    decreases |s.writers[w].rest|
  {
    var x := s.writers[w];
    var y := s.streams[x.k];
    if y.quota <= 0 || s.quota <= 0 {
      news := [];
      steps := GivesUp(s, w);
      assert s.sent + [] == s.sent;
    } else {
      steps, news := TurnThenLoop(s, w);
    }
  }

  lemma {:induction false} TurnThenLoop(s: Outbound.State, w: nat) returns (steps: seq<Outbound.Step>, news: seq<Frame>)
    requires Outbound.Enabled(s, Outbound.AcquireStream(w)) && s.quota > 0 && s.writable && !s.writers[w].ended
    ensures var x := s.writers[w]; var y := s.streams[x.k];
      var m := Through(|x.rest|, y.quota, s.quota);
      && Outbound.Legal(s, steps)
      && Outbound.Final(s, steps)
         == Put(s, w, Returned(x, m), Drawn(y, m, m == |x.rest|), s.quota - m).(sent := s.sent + news)
      && Total(news) == m
    decreases |s.writers[w].rest|, 0
  {
    hide Outbound.Legal, Outbound.Final, Outbound.After, Through, Drawn, Returned, Total, Put, Sent;
    var x := s.writers[w];
    var y := s.streams[x.k];
    var n := Outbound.Size(y.quota, s.quota, |x.rest|);
    var first, frame := TurnRuns(s, w);
    var s1 := Outbound.Final(s, first);
    One(frame[0], 0);
    ThroughMore(|x.rest|, y.quota, s.quota, n);
    AfterTurn(s, w, n, frame);
    if x.rest[n..] == [] {
      NothingLeft(y, n, y.quota - n, s.quota - n);
      Chained(x, y, n, 0);
      steps, news := first, frame;
    } else {
      var more, frames := LoopRuns(s1, w);
      Totals(frame, frames);
      Composed(s, w, n, Through(|x.rest| - n, y.quota - n, s.quota - n), frame, frames);
      Outbound.Joined(s, first, more);
      steps, news := first + more, frame + frames;
    }
  }

  lemma {:induction false} AfterTurn(s: Outbound.State, w: nat, n: nat, frame: seq<Frame>)
    requires Outbound.At(s, w) && n <= |s.writers[w].rest|
    ensures var x := s.writers[w]; var y := s.streams[x.k];
      var x1, y1 := Sent(x, x.rest[..n], x.rest[n..]), y.(quota := y.quota - n);
      x1.k == x.k &&
      var t := Put(s, w, x1, y1, s.quota - n).(sent := s.sent + frame);
      && Outbound.At(t, w) && t.writers[w] == x1 && t.streams[x.k] == y1 && t.quota == s.quota - n
      && t.writable == s.writable && t.sent == s.sent + frame && x1.rest == x.rest[n..]
      && (x1.rest != [] ==> x1.phase.Loop? && !x1.ended)
  {
  }

  lemma {:induction false} Composed(s: Outbound.State, w: nat, n: nat, m: nat, frame: seq<Frame>, frames: seq<Frame>)
    requires Outbound.At(s, w) && n + m <= |s.writers[w].rest|
    ensures var x := s.writers[w]; var y := s.streams[x.k];
      var x1, y1 := Sent(x, x.rest[..n], x.rest[n..]), y.(quota := y.quota - n);
      && x1.k == x.k && |x1.rest| == |x.rest| - n
      && var t := Put(s, w, x1, y1, s.quota - n).(sent := s.sent + frame);
      && Returned(x1, m).k == x.k && w < |t.writers| && |t.streams| == |s.streams|
      && Put(t, w, Returned(x1, m), Drawn(y1, m, m == |x.rest| - n), s.quota - n - m).(sent := s.sent + frame + frames)
         == Put(s, w, Returned(x, n + m), Drawn(y, n + m, n + m == |x.rest|), s.quota - (n + m))
              .(sent := s.sent + (frame + frames))
  {
    hide Put, Drawn, Returned, Sent;
    var x := s.writers[w];
    var y := s.streams[x.k];
    Chained(x, y, n, m);
    assert s.sent + frame + frames == s.sent + (frame + frames);
    var x1, y1 := Sent(x, x.rest[..n], x.rest[n..]), y.(quota := y.quota - n);
    PutAgain(s, w, x1, y1, s.quota - n, s.sent + frame,
             Returned(x1, m), Drawn(y1, m, m == |x1.rest|), s.quota - n - m, s.sent + frame + frames);
  }

  lemma {:induction false} NothingLeft(y: Outbound.Stream, n: nat, sb: int, tb: int)
    ensures Through(0, sb, tb) == 0 && Drawn(y, n, true) == y.(quota := y.quota - n)
  {
  }

  /** Write, from its call to its return, as a run of the machine: the same bytes, the same
      verdict and the same balances as the method has on the two pools. */
  lemma {:induction false} WriteIsRun(s: Outbound.State, k: nat, data: seq<byte>, last: bool)
    returns (steps: seq<Outbound.Step>, news: seq<Frame>)
    requires k < |s.streams| && s.writable
    ensures Outbound.Legal(s, steps)
    ensures var t := Outbound.Final(s, steps);
      var sb, tb := s.streams[k].quota, s.quota;
      var m := Through(|data|, sb, tb);
      && |t.writers| == |s.writers| + 1 && t.writers[..|s.writers|] == s.writers
      && t.writers[|s.writers|].out == data[..m]
      && (t.writers[|s.writers|].phase.Finished? <==> m == |data|)
      && (t.writers[|s.writers|].phase.Finished? || t.writers[|s.writers|].phase.Aborted?)
      && t.sent == s.sent + news && Total(news) == m
      && t.quota == tb - m
      && |t.streams| == |s.streams| && t.streams[k := s.streams[k]] == s.streams
      && t.streams[k].quota == if m == |data| then sb - m else if sb > 0 then 0 else sb
  {
    var w, call := |s.writers|, Outbound.Call(k, data, last);
    OneStep(s, call);
    hide Outbound.Legal, Outbound.Final, Total;
    var s1 := Outbound.After(s, call);
    var more;
    more, news := CallRuns(s1, w);
    assert [] + data[..Through(|data|, s.streams[k].quota, s.quota)] == data[..Through(|data|, s.streams[k].quota, s.quota)];
    hide Outbound.After;
    Outbound.Joined(s, [call], more);
    steps := [call] + more;
  }

  /** What follows the call. */
  lemma {:induction false} CallRuns(s: Outbound.State, w: nat) returns (steps: seq<Outbound.Step>, news: seq<Frame>)
    requires Outbound.At(s, w) && s.writable && s.writers[w].phase.Loop? && !s.writers[w].ended
    ensures var x := s.writers[w]; var y := s.streams[x.k];
      var m := Through(|x.rest|, y.quota, s.quota);
      && Outbound.Legal(s, steps)
      && Outbound.Final(s, steps)
         == Put(s, w, Returned(x, m), Drawn(y, m, m == |x.rest|), s.quota - m).(sent := s.sent + news)
      && Total(news) == m
  {
    hide Outbound.Legal, Outbound.Final, Total, Returned;
    if s.writers[w].rest == [] {
      steps, news := EmptyRuns(s, w);
    } else {
      steps, news := LoopRuns(s, w);
    }
  }

  /** Write of no data sends one empty frame. */
  lemma {:induction false} EmptyRuns(s: Outbound.State, w: nat) returns (steps: seq<Outbound.Step>, news: seq<Frame>)
    requires Outbound.Enabled(s, Outbound.Skip(w)) && s.writable
    ensures var x := s.writers[w]; var y := s.streams[x.k];
      && Outbound.Legal(s, steps)
      && Outbound.Final(s, steps) == Put(s, w, Returned(x, 0), y, s.quota).(sent := s.sent + news)
      && Total(news) == 0
  {
    var x := s.writers[w];
    OneStep(s, Outbound.Skip(w));
    var s1 := Outbound.After(s, Outbound.Skip(w));
    var write := Writes(s1, w);
    news := [Frame(x.k, 0, x.last)];
    One(news[0], 0);
    assert x.out + x.rest[..0] == x.out + [] && x.rest[0..] == [];
    assert s1.writers[w := Returned(x, 0)] == s.writers[w := Returned(x, 0)];
    hide Outbound.Legal, Outbound.Final, Outbound.After;
    Outbound.Joined(s, [Outbound.Skip(w)], write);
    steps := [Outbound.Skip(w)] + write;
  }
}
