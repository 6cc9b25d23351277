/** Outbound flow control of grpc/transport/http2_client.go: any number of Write calls, window
    updates and SETTINGS, one step for each channel receive or mutex-protected block. A quota
    pool is its balance: a receiver takes the whole of a positive one (module Quota). */
module Outbound {
  import opened Words
  import opened Frames

  /** `granted`: the send window the peer has announced so far. `lost`: quota that aborted
      calls did not give back. `excess`: what the code has added beyond `granted`. */
  datatype Stream = Stream(active: bool, quota: int, granted: int, lost: nat, excess: int)

  /** Where a Write call is in its loop. */
  datatype Phase =
    | Loop                                          // at the head of the loop
    | GotStream(sq: nat)                            // has the stream's quota
    | Booked(p: seq<byte>, sBack: nat, tBack: nat)  // cut p off; amounts still to give back
    | Holding(p: seq<byte>)                         // received from writableChan
    | Finished                                      // returned nil
    | Aborted                                       // returned an error

  /** A Write call on stream k. `out`: what it has put on the wire. */
  datatype Writer = Writer(
    k: nat, data: seq<byte>, last: bool, rest: seq<byte>, phase: Phase, out: seq<byte>, ended: bool)

  /** `sent`: all DATA frames put on the wire. `writable`: writableChan is full. */
  datatype State = State(
    streams: seq<Stream>, writers: seq<Writer>, sent: seq<Frame>, quota: int, granted: int, lost: nat,
    initial: uint32, writable: bool, broken: bool)

  datatype Step =
    | Open | Close(k: nat)
    | Update(incr: uint32) | UpdateStream(k: nat, incr: uint32) | Settings(val: uint32)
    | Call(k: nat, data: seq<byte>, last: bool)
    | AcquireStream(w: nat) | Skip(w: nat) | Acquire(w: nat)
    | GiveBackStream(w: nat) | GiveBack(w: nat)
    | Lock(w: nat) | WriteData(w: nat)
    | Abort(w: nat) | Closing(w: nat) | Fail(w: nat)

  /** The default windows, nothing open. */
  predicate Initial(s: State) {
    && s.streams == [] && s.writers == [] && s.sent == []
    && s.quota == 65535 && s.granted == 65535 && s.lost == 0 && s.initial == 65535
    && s.writable && !s.broken
  }

  predicate At(s: State, w: nat) {
    w < |s.writers| && s.writers[w].k < |s.streams|
  }

  predicate Enabled(s: State, step: Step) {
    match step
    case Open | Update(_) | Settings(_) => true
    case Close(k) => k < |s.streams|
    case UpdateStream(k, _) => k < |s.streams|
    case Call(k, _, _) => k < |s.streams|
    case AcquireStream(w) =>
      At(s, w) && var x := s.writers[w]; x.phase.Loop? && x.rest != [] && s.streams[x.k].quota > 0
    case Skip(w) => At(s, w) && s.writers[w].phase.Loop? && s.writers[w].rest == []
    case Acquire(w) => At(s, w) && s.writers[w].phase.GotStream? && s.quota > 0
    case GiveBackStream(w) => At(s, w) && s.writers[w].phase.Booked? && s.writers[w].phase.sBack > 0
    case GiveBack(w) =>
      At(s, w) && var p := s.writers[w].phase; p.Booked? && p.sBack == 0 && p.tBack > 0
    case Lock(w) =>
      At(s, w) && s.writable && var p := s.writers[w].phase; p.Booked? && p.sBack == 0 && p.tBack == 0
    case WriteData(w) => At(s, w) && s.writers[w].phase.Holding?
    case Abort(w) =>
      At(s, w) && var p := s.writers[w].phase;
                  !p.Finished? && !p.Aborted? && (p.Booked? ==> p.sBack == 0 && p.tBack == 0)
    case Closing(w) =>
      At(s, w) && var p := s.writers[w].phase; p.Booked? && p.sBack == 0 && p.tBack == 0
    case Fail(w) => At(s, w) && s.writers[w].phase.Holding?
  }

  // ------------------------------------------------------------------ steps

  function Adjusted(x: Stream, val: uint32, initial: uint32): Stream {
    // add(int(s.Val - t.streamSendQuota)), a difference of 32-bit words
    var d := Wrap32(val - initial);
    if x.active then
      x.(quota := x.quota + d, granted := x.granted + val - initial,
         excess := x.excess + d - (val - initial))
    else x
  }

  function Min(a: nat, b: nat): nat {
    if a < b then a else b
  }

  /** The size of the next frame. */
  function Size(sq: nat, tq: nat, rest: nat): nat {
    Min(Min(Min(16384, sq), tq), rest)
  }

  /** A piece of n bytes is as long as it can be: a full frame, all that is left, or all that
      one of the two amounts of quota allows. */
  predicate Longest(n: nat, sq: nat, tq: nat, rest: nat) {
    n <= 16384 && n <= sq && n <= tq && n <= rest && (n == 16384 || n == sq || n == tq || n == rest)
  }

  lemma {:induction false} SizeIsLongest(n: nat, sq: nat, tq: nat, rest: nat)
    ensures Longest(n, sq, tq, rest) <==> n == Size(sq, tq, rest)
  {
  }

  function SetWriter(s: State, w: nat, x: Writer): State
    requires w < |s.writers|
  {
    s.(writers := s.writers[w := x])
  }

  function SetStream(s: State, k: nat, x: Stream): State
    requires k < |s.streams|
  {
    s.(streams := s.streams[k := x])
  }

  function Acquired(s: State, w: nat): State
    requires Enabled(s, Acquire(w))
  {
    var x, tq := s.writers[w], s.quota;
    var n := Size(x.phase.sq, tq, |x.rest|);
    SetWriter(s, w, x.(rest := x.rest[n..], phase := Booked(x.rest[..n], x.phase.sq - n, tq - n))).(quota := 0)
  }

  function Wrote(s: State, w: nat): State
    requires Enabled(s, WriteData(w))
  {
    var x := s.writers[w];
    var end := x.last && x.rest == [];
    SetWriter(s, w, x.(out := x.out + x.phase.p, phase := if x.rest == [] then Finished else Loop, ended := end))
      .(sent := s.sent + [Frame(x.k, |x.phase.p|, end)], writable := true)
  }

  /** The call ends because its context or its stream is done. What it holds of the
      connection's quota goes back, what it holds of the stream's does not. */
  function AbortedAt(s: State, w: nat): State
    requires Enabled(s, Abort(w))
  {
    var x := s.writers[w];
    var t := SetWriter(s, w, x.(phase := Aborted));
    var y := s.streams[x.k];
    match x.phase
    case GotStream(sq) => SetStream(t, x.k, y.(lost := y.lost + sq))
    case Booked(p, _, _) => SetStream(t, x.k, y.(lost := y.lost + |p|)).(quota := s.quota + |p|)
    case Holding(p) => SetStream(t, x.k, y.(lost := y.lost + |p|)).(quota := s.quota + |p|, writable := true)
    case _ => t
  }

  /** The call ends with nothing given back: the transport is closing, or the frame could
      not be written. */
  function Dropped(s: State, w: nat): State
    requires Enabled(s, Closing(w)) || Enabled(s, Fail(w))
  {
    var x := s.writers[w];
    var y := s.streams[x.k];
    SetStream(SetWriter(s, w, x.(phase := Aborted)), x.k, y.(lost := y.lost + |x.phase.p|))
      .(lost := s.lost + |x.phase.p|, broken := true)
  }

  function After(s: State, step: Step): State
    requires Enabled(s, step)
  {
    match step
    case Open => s.(streams := s.streams + [Stream(true, s.initial, s.initial, 0, 0)])
    case Close(k) => SetStream(s, k, s.streams[k].(active := false))
    case Update(n) => s.(quota := s.quota + n, granted := s.granted + n)
    case UpdateStream(k, n) =>
      var x := s.streams[k];
      if x.active then SetStream(s, k, x.(quota := x.quota + n, granted := x.granted + n)) else s
    case Settings(val) =>
      s.(streams := seq(|s.streams|, k requires 0 <= k < |s.streams| => Adjusted(s.streams[k], val, s.initial)),
         initial := val)
    case Call(k, data, last) => s.(writers := s.writers + [Writer(k, data, last, data, Loop, [], false)])
    case AcquireStream(w) =>
      var x := s.writers[w];
      SetStream(SetWriter(s, w, x.(phase := GotStream(s.streams[x.k].quota))), x.k, s.streams[x.k].(quota := 0))
    case Skip(w) => SetWriter(s, w, s.writers[w].(phase := Booked([], 0, 0)))
    case Acquire(w) => Acquired(s, w)
    case GiveBackStream(w) =>
      var x := s.writers[w];
      SetStream(SetWriter(s, w, x.(phase := x.phase.(sBack := 0))), x.k,
                s.streams[x.k].(quota := s.streams[x.k].quota + x.phase.sBack))
    case GiveBack(w) =>
      var x := s.writers[w];
      SetWriter(s, w, x.(phase := x.phase.(tBack := 0))).(quota := s.quota + x.phase.tBack)
    case Lock(w) => SetWriter(s, w, s.writers[w].(phase := Holding(s.writers[w].phase.p))).(writable := false)
    case WriteData(w) => Wrote(s, w)
    case Abort(w) => AbortedAt(s, w)
    case Closing(w) => Dropped(s, w)
    case Fail(w) => Dropped(s, w)
  }

  // -------------------------------------------------------------- invariant

  function Chunk(p: Phase): seq<byte> {
    if p.Booked? || p.Holding? then p.p else []
  }

  /** Connection quota a call has in hand, and stream quota. */
  function Hand(x: Writer): nat {
    |Chunk(x.phase)| + if x.phase.Booked? then x.phase.tBack else 0
  }

  function HandFor(x: Writer, k: nat): nat {
    if x.k != k then 0
    else if x.phase.GotStream? then x.phase.sq
    else |Chunk(x.phase)| + if x.phase.Booked? then x.phase.sBack else 0
  }

  function Hands(ws: seq<Writer>): nat {
    if ws == [] then 0 else Hands(ws[..|ws| - 1]) + Hand(ws[|ws| - 1])
  }

  function HandsFor(ws: seq<Writer>, k: nat): nat {
    if ws == [] then 0 else HandsFor(ws[..|ws| - 1], k) + HandFor(ws[|ws| - 1], k)
  }

  ghost predicate ConnLaw(s: State) {
    && s.granted == Total(s.sent) + s.quota + Hands(s.writers) + s.lost
    && s.quota >= 0
    && (!s.broken ==> s.lost == 0)
  }

  ghost predicate StreamLaw(s: State, k: nat)
    requires k < |s.streams|
  {
    var x := s.streams[k];
    && x.granted + x.excess == For(s.sent, k) + x.quota + HandsFor(s.writers, k) + x.lost
    && x.quota >= 0 && x.excess >= 0
  }

  /** A call's data is what it has sent, what it holds and what is left, in order. */
  predicate WriterLaw(x: Writer) {
    && x.out + Chunk(x.phase) <= x.data
    && (!x.phase.Aborted? ==> x.data == x.out + Chunk(x.phase) + x.rest)
    && (x.phase.Finished? ==> x.out == x.data)
    && (x.ended <==> x.phase.Finished? && x.last)
    && |Chunk(x.phase)| <= 16384
  }

  ghost predicate Inv(s: State) {
    && ConnLaw(s)
    && (forall k :: 0 <= k < |s.streams| ==> StreamLaw(s, k))
    && (forall w :: 0 <= w < |s.writers| ==> WriterLaw(s.writers[w]) && s.writers[w].k < |s.streams|)
    && (forall i :: 0 <= i < |s.sent| ==> s.sent[i].size <= 16384 && 0 <= s.sent[i].to < |s.streams|)
  }

  // ---------------------------------------------------------- small lemmas

  lemma {:induction false} HandsSet(ws: seq<Writer>, w: nat, x: Writer)
    requires w < |ws|
    ensures Hands(ws[w := x]) == Hands(ws) - Hand(ws[w]) + Hand(x)
  {
    var m := |ws| - 1;
    if w < m {
      HandsSet(ws[..m], w, x);
      assert ws[w := x][..m] == ws[..m][w := x];
    } else {
      assert ws[w := x][..m] == ws[..m];
    }
  }

  lemma {:induction false} HandsForSet(ws: seq<Writer>, w: nat, x: Writer, k: nat)
    requires w < |ws|
    ensures HandsFor(ws[w := x], k) == HandsFor(ws, k) - HandFor(ws[w], k) + HandFor(x, k)
  {
    var m := |ws| - 1;
    if w < m {
      HandsForSet(ws[..m], w, x, k);
      assert ws[w := x][..m] == ws[..m][w := x];
    } else {
      assert ws[w := x][..m] == ws[..m];
    }
  }

  lemma {:induction false} HandsAppended(ws: seq<Writer>, x: Writer, k: nat)
    ensures Hands(ws + [x]) == Hands(ws) + Hand(x)
    ensures HandsFor(ws + [x], k) == HandsFor(ws, k) + HandFor(x, k)
  {
    assert (ws + [x])[..|ws|] == ws;
  }

  lemma {:induction false} NobodyYet(s: State, ws: seq<Writer>, fs: seq<Frame>)
    requires forall w :: 0 <= w < |ws| ==> ws[w].k < |s.streams|
    requires forall i :: 0 <= i < |fs| ==> fs[i].to < |s.streams|
    ensures HandsFor(ws, |s.streams|) == 0 && For(fs, |s.streams|) == 0
    decreases |ws| + |fs|
  {
    if ws != [] {
      NobodyYet(s, ws[..|ws| - 1], fs);
    } else if fs != [] {
      NobodyYet(s, ws, fs[..|fs| - 1]);
    }
  }

  // ------------------------------------------------------- every step keeps it

  function Size1(fs: seq<Frame>): nat {
    if fs == [] then 0 else fs[0].size
  }

  /** Stream quota is only moved: n of it onto the wire. */
  ghost predicate Kept(a: Stream, x: Writer, b: Stream, y: Writer, n: nat) {
    && a.quota + HandFor(x, x.k) + a.lost == n + b.quota + HandFor(y, x.k) + b.lost
    && b.granted == a.granted && b.excess == a.excess && (a.quota >= 0 ==> b.quota >= 0)
  }

  /** Everything a call's step can change, judged by the sums alone. `news`: what it put on
      the wire. */
  lemma {:induction false} CallKeeps(s: State, t: State, w: nat, news: seq<Frame>)
    requires Inv(s) && At(s, w) && |t.writers| == |s.writers| && |t.streams| == |s.streams|
    requires t.writers == s.writers[w := t.writers[w]] && t.writers[w].k == s.writers[w].k
    requires t.streams == s.streams[s.writers[w].k := t.streams[s.writers[w].k]]
    requires WriterLaw(t.writers[w])
    requires t.sent == s.sent + news && |news| <= 1
    requires news != [] ==> news[0].size <= 16384 && news[0].to == s.writers[w].k
    requires t.granted == s.granted && (t.broken || (!s.broken && t.lost == s.lost)) && t.quota >= 0
    requires s.quota + Hand(s.writers[w]) + s.lost
             == Size1(news) + t.quota + Hand(t.writers[w]) + t.lost
    requires Kept(s.streams[s.writers[w].k], s.writers[w], t.streams[s.writers[w].k], t.writers[w], Size1(news))
    ensures Inv(t)
  {
    hide Total, For, Hands, HandsFor, WriterLaw, Chunk;
    HandsSet(s.writers, w, t.writers[w]);
    assert if news == [] then t.sent == s.sent else news == [news[0]];
    if news != [] {
      Appended(s.sent, news[0], 0);
    }
    assert ConnLaw(t);
    forall k | 0 <= k < |t.streams| ensures StreamLaw(t, k) {
      assert StreamLaw(s, k);
      HandsForSet(s.writers, w, t.writers[w], k);
      if news != [] {
        Appended(s.sent, news[0], k);
      }
    }
  }

  lemma {:induction false} AcquireStreamKeeps(s: State, w: nat)
    requires Inv(s) && Enabled(s, AcquireStream(w))
    ensures Inv(After(s, AcquireStream(w)))
  {
    hide Total, For, Hands, HandsFor;
    CallKeeps(s, After(s, AcquireStream(w)), w, []);
  }

  lemma {:induction false} SkipKeeps(s: State, w: nat)
    requires Inv(s) && Enabled(s, Skip(w))
    ensures Inv(After(s, Skip(w)))
  {
    hide Total, For, Hands, HandsFor;
    CallKeeps(s, After(s, Skip(w)), w, []);
  }

  lemma {:induction false} CutKeeps(x: Writer, n: nat)
    requires WriterLaw(x) && x.phase.GotStream? && n <= |x.rest| && n <= 16384
    ensures forall a: nat, b: nat :: WriterLaw(x.(rest := x.rest[n..], phase := Booked(x.rest[..n], a, b)))
  {
    assert x.out + [] == x.out;
    assert x.data == x.out + x.rest[..n] + x.rest[n..];
    assert x.out + x.rest[..n] <= x.data;
  }

  lemma {:induction false} AcquireKeeps(s: State, w: nat)
    requires Inv(s) && Enabled(s, Acquire(w))
    ensures Inv(After(s, Acquire(w)))
  {
    hide Total, For, Hands, HandsFor, WriterLaw;
    var x := s.writers[w];
    CutKeeps(x, Size(x.phase.sq, s.quota, |x.rest|));
    CallKeeps(s, Acquired(s, w), w, []);
  }

  /** The piece a call books is the next of its data, and as long as it can be. */
  lemma {:induction false} AcquireCuts(s: State, w: nat)
    requires Enabled(s, Acquire(w))
    ensures var x, y := s.writers[w], After(s, Acquire(w)).writers[w];
      && y.phase.Booked? && x.rest == y.phase.p + y.rest && Longest(|y.phase.p|, x.phase.sq, s.quota, |x.rest|)
      && y.phase.sBack == x.phase.sq - |y.phase.p| && y.phase.tBack == s.quota - |y.phase.p|
  {
    var x := s.writers[w];
    SizeIsLongest(Size(x.phase.sq, s.quota, |x.rest|), x.phase.sq, s.quota, |x.rest|);
  }

  lemma {:induction false} GiveBackStreamKeeps(s: State, w: nat)
    requires Inv(s) && Enabled(s, GiveBackStream(w))
    ensures Inv(After(s, GiveBackStream(w)))
  {
    hide Total, For, Hands, HandsFor;
    CallKeeps(s, After(s, GiveBackStream(w)), w, []);
  }

  lemma {:induction false} GiveBackKeeps(s: State, w: nat)
    requires Inv(s) && Enabled(s, GiveBack(w))
    ensures Inv(After(s, GiveBack(w)))
  {
    hide Total, For, Hands, HandsFor;
    CallKeeps(s, After(s, GiveBack(w)), w, []);
  }

  lemma {:induction false} LockKeeps(s: State, w: nat)
    requires Inv(s) && Enabled(s, Lock(w))
    ensures Inv(After(s, Lock(w)))
  {
    hide Total, For, Hands, HandsFor;
    CallKeeps(s, After(s, Lock(w)), w, []);
  }

  lemma {:induction false} OutKeeps(x: Writer)
    requires WriterLaw(x) && x.phase.Holding?
    ensures WriterLaw(x.(out := x.out + x.phase.p, phase := if x.rest == [] then Finished else Loop,
                         ended := x.last && x.rest == []))
  {
    var o := x.out + x.phase.p;
    assert o + [] == o;
  }

  lemma {:induction false} WriteDataKeeps(s: State, w: nat)
    requires Inv(s) && Enabled(s, WriteData(w))
    ensures Inv(After(s, WriteData(w)))
  {
    hide Total, For, Hands, HandsFor, WriterLaw;
    var x, t := s.writers[w], Wrote(s, w);
    assert |x.phase.p| <= 16384 by {
      assert WriterLaw(x);
      Chunks(x);
    }
    OutKeeps(x);
    CallKeeps(s, t, w, [Frame(x.k, |x.phase.p|, x.last && x.rest == [])]);
  }

  lemma {:induction false} Chunks(x: Writer)
    requires WriterLaw(x)
    ensures |Chunk(x.phase)| <= 16384 && (x.phase.Aborted? || WriterLaw(x.(phase := Aborted)) || x.phase.Finished?)
  {
    assert x.out <= x.out + Chunk(x.phase);
    assert x.out + [] == x.out;
  }

  /** What the call held goes back or is lost to its stream. */
  lemma {:induction false} AbortMoves(s: State, w: nat)
    requires Inv(s) && Enabled(s, Abort(w))
    ensures var t := AbortedAt(s, w); var x, y := s.writers[w], t.writers[w];
      && WriterLaw(y) && y.k == x.k && t.quota >= 0
      && s.quota + Hand(x) == t.quota + Hand(y)
      && Kept(s.streams[x.k], x, t.streams[x.k], y, 0)
  {
    hide Total, For, Hands, HandsFor;
    Chunks(s.writers[w]);
  }

  lemma {:induction false} AbortKeeps(s: State, w: nat)
    requires Inv(s) && Enabled(s, Abort(w))
    ensures Inv(After(s, Abort(w)))
  {
    hide Inv, Total, For, Hands, HandsFor;
    var t := AbortedAt(s, w);
    var x, y := s.writers[w], t.writers[w];
    AbortMoves(s, w);
    assert t.writers == s.writers[w := y] && t.streams == s.streams[x.k := t.streams[x.k]];
    hide AbortedAt, WriterLaw, Kept, Enabled, Hand;
    CallKeeps(s, t, w, []);
  }

  /** However a call ends early, it sends nothing more; only an aborted one leaves the transport
      as it was. */
  lemma {:induction false} CallEnds(s: State, step: Step, w: nat)
    requires Enabled(s, step) && step in {Abort(w), Closing(w), Fail(w)}
    ensures var t := After(s, step);
      && |t.writers| == |s.writers| && t.writers[w] == s.writers[w].(phase := Aborted) && t.sent == s.sent
      && (t.broken <==> s.broken || step != Abort(w))
  {
  }

  lemma {:induction false} DropKeeps(s: State, w: nat)
    requires Inv(s) && (Enabled(s, Closing(w)) || Enabled(s, Fail(w)))
    ensures Inv(Dropped(s, w))
  {
    hide Total, For, Hands, HandsFor, WriterLaw;
    Chunks(s.writers[w]);
    CallKeeps(s, Dropped(s, w), w, []);
  }

  lemma {:induction false} OpenKeeps(s: State)
    requires Inv(s)
    ensures Inv(After(s, Open))
  {
    hide Total, WriterLaw;
    var t := After(s, Open);
    NobodyYet(s, s.writers, s.sent);
    forall k | 0 <= k < |t.streams| ensures StreamLaw(t, k) {
      if k < |s.streams| {
        assert StreamLaw(s, k);
      }
    }
  }

  lemma {:induction false} StreamsKeep(s: State, step: Step)
    requires Inv(s) && Enabled(s, step)
    requires step.Close? || step.Update? || step.UpdateStream? || step.Settings?
    ensures Inv(After(s, step))
  {
    hide Total, For, Hands, HandsFor, WriterLaw;
    var t := After(s, step);
    forall k | 0 <= k < |t.streams| ensures StreamLaw(t, k) {
      assert StreamLaw(s, k);
    }
  }

  lemma {:induction false} CallStarts(s: State, k: nat, data: seq<byte>, last: bool)
    requires Inv(s) && Enabled(s, Call(k, data, last))
    ensures Inv(After(s, Call(k, data, last)))
  {
    hide Total, For, Hands, HandsFor;
    var x := Writer(k, data, last, data, Loop, [], false);
    HandsAppended(s.writers, x, 0);
    var t := After(s, Call(k, data, last));
    assert [] + data == data;
    forall j | 0 <= j < |t.streams| ensures StreamLaw(t, j) {
      assert StreamLaw(s, j);
      HandsAppended(s.writers, x, j);
    }
  }

  lemma {:induction false} StepKeeps(s: State, step: Step)
    requires Inv(s) && Enabled(s, step)
    ensures Inv(After(s, step))
  {
    hide Inv, Acquired, Wrote, AbortedAt, Dropped, Adjusted;
    match step
    case Open => OpenKeeps(s);
    case Call(k, data, last) => CallStarts(s, k, data, last);
    case AcquireStream(w) => AcquireStreamKeeps(s, w);
    case Skip(w) => SkipKeeps(s, w);
    case Acquire(w) => AcquireKeeps(s, w);
    case GiveBackStream(w) => GiveBackStreamKeeps(s, w);
    case GiveBack(w) => GiveBackKeeps(s, w);
    case Lock(w) => LockKeeps(s, w);
    case WriteData(w) => WriteDataKeeps(s, w);
    case Abort(w) => AbortKeeps(s, w);
    case Closing(w) => DropKeeps(s, w);
    case Fail(w) => DropKeeps(s, w);
    case _ => StreamsKeep(s, step);
  }

  // ------------------------------------------------------------ whole runs

  predicate Legal(s: State, steps: seq<Step>)
    decreases |steps|
  {
    steps == [] || (Enabled(s, steps[0]) && Legal(After(s, steps[0]), steps[1..]))
  }

  function Final(s: State, steps: seq<Step>): State
    requires Legal(s, steps)
    decreases |steps|
  {
    if steps == [] then s else Final(After(s, steps[0]), steps[1..])
  }

  lemma {:induction false} RunKeeps(s: State, steps: seq<Step>)
    requires Inv(s) && Legal(s, steps)
    ensures Inv(Final(s, steps))
    decreases |steps|
  {
    hide Inv, After, Enabled;
    if steps != [] {
      StepKeeps(s, steps[0]);
      RunKeeps(After(s, steps[0]), steps[1..]);
    }
  }

  lemma {:induction false} InitInv(s: State)
    requires Initial(s)
    ensures Inv(s) && InStep(s)
  {
  }

  // ----------------------------------------- what the peer has announced, from the steps

  function Front(steps: seq<Step>): seq<Step>
    requires steps != []
  {
    steps[..|steps| - 1]
  }

  /** The increments of the connection's window updates. */
  function Updates(steps: seq<Step>): nat {
    if steps == [] then 0
    else Updates(Front(steps)) + match steps[|steps| - 1] case Update(incr) => incr case _ => 0
  }

  /** The initial window size announced last. */
  function InitialWindow(steps: seq<Step>): uint32 {
    if steps == [] then 65535
    else match steps[|steps| - 1] case Settings(val) => val case _ => InitialWindow(Front(steps))
  }

  function Opened(steps: seq<Step>): nat {
    if steps == [] then 0 else Opened(Front(steps)) + if steps[|steps| - 1].Open? then 1 else 0
  }

  predicate StillOpen(steps: seq<Step>, k: nat) {
    k < Opened(steps) && Close(k) !in steps
  }

  /** The send window of the k-th stream: the initial window when it was opened, and while it
      was open its window updates and what SETTINGS changed about the initial window. */
  function Announced(steps: seq<Step>, k: nat): int {
    if steps == [] then 0
    else
      var past := Front(steps);
      match steps[|steps| - 1]
      case Open => if k == Opened(past) then InitialWindow(past) else Announced(past, k)
      case UpdateStream(j, incr) => Announced(past, k) + if j == k && StillOpen(past, k) then incr else 0
      case Settings(val) => Announced(past, k) + if StillOpen(past, k) then val - InitialWindow(past) else 0
      case _ => Announced(past, k)
  }

  /** The last step of a run. */
  lemma {:induction false} LastStep(s: State, steps: seq<Step>)
    requires steps != [] && Legal(s, steps)
    ensures Legal(s, Front(steps)) && Enabled(Final(s, Front(steps)), steps[|steps| - 1])
    ensures Final(s, steps) == After(Final(s, Front(steps)), steps[|steps| - 1])
    decreases |steps|
  {
    hide After, Enabled;
    if |steps| > 1 {
      assert steps[1..][..|steps| - 2] == Front(steps)[1..];
      LastStep(After(s, steps[0]), steps[1..]);
    }
  }

  /** What a step announces about the k-th stream. */
  function Told(s: State, step: Step, k: nat): int
    requires k < |s.streams|
  {
    match step
    case UpdateStream(j, incr) => if j == k && s.streams[k].active then incr else 0
    case Settings(val) => if s.streams[k].active then val - s.initial else 0
    case _ => 0
  }

  lemma {:induction false} StepTells(s: State, step: Step)
    requires Enabled(s, step)
    ensures var t := After(s, step);
      && t.granted == s.granted + (match step case Update(incr) => incr case _ => 0)
      && t.initial == (match step case Settings(val) => val case _ => s.initial)
      && |t.streams| == |s.streams| + (if step.Open? then 1 else 0)
      && (step.Open? ==> t.streams[|s.streams|].active && t.streams[|s.streams|].granted == s.initial)
  {
  }

  lemma {:induction false} StepTellsStream(s: State, step: Step, k: nat)
    requires Enabled(s, step) && k < |s.streams|
    ensures k < |After(s, step).streams|
    ensures var x := After(s, step).streams[k];
      && (x.active <==> s.streams[k].active && step != Close(k))
      && x.granted == s.streams[k].granted + Told(s, step, k)
  {
    hide AbortedAt, Acquired, Wrote, Dropped;
    match step
    case Abort(w) => AbortTells(s, w, k);
    case Acquire(w) => AcquireTells(s, w);
    case WriteData(w) => AcquireTells(s, w);
    case Closing(w) => DropTells(s, w, k);
    case Fail(w) => DropTells(s, w, k);
    case _ =>
  }

  lemma {:induction false} AbortTells(s: State, w: nat, k: nat)
    requires Enabled(s, Abort(w)) && k < |s.streams|
    ensures k < |AbortedAt(s, w).streams|
    ensures var x := AbortedAt(s, w).streams[k]; x.active == s.streams[k].active && x.granted == s.streams[k].granted
  {
  }

  lemma {:induction false} DropTells(s: State, w: nat, k: nat)
    requires (Enabled(s, Closing(w)) || Enabled(s, Fail(w))) && k < |s.streams|
    ensures k < |Dropped(s, w).streams|
    ensures var x := Dropped(s, w).streams[k]; x.active == s.streams[k].active && x.granted == s.streams[k].granted
  {
  }

  lemma {:induction false} AcquireTells(s: State, w: nat)
    ensures Enabled(s, Acquire(w)) ==> Acquired(s, w).streams == s.streams
    ensures Enabled(s, WriteData(w)) ==> Wrote(s, w).streams == s.streams
  {
  }

  /** The windows the laws speak of are those the peer has announced. */
  lemma {:induction false} GrantedIsAnnounced(s: State, steps: seq<Step>)
    requires Initial(s) && Legal(s, steps)
    ensures var t := Final(s, steps);
      && t.granted == 65535 + Updates(steps) && t.initial == InitialWindow(steps) && |t.streams| == Opened(steps)
      && forall k :: 0 <= k < |t.streams| ==>
           t.streams[k].granted == Announced(steps, k) && (t.streams[k].active <==> StillOpen(steps, k))
    decreases |steps|
  {
    hide After, Enabled;
    if steps != [] {
      LastStep(s, steps);
      hide Legal, Final;
      var past, last := Front(steps), steps[|steps| - 1];
      assert steps == past + [last];
      GrantedIsAnnounced(s, past);
      StepTells(Final(s, past), last);
      NotClosedYet(s, past);
      forall k | 0 <= k < |Final(s, past).streams|
        ensures Final(s, steps).streams[k].granted == Announced(steps, k)
        ensures Final(s, steps).streams[k].active <==> StillOpen(steps, k)
      {
        StepTellsStream(Final(s, past), last, k);
      }
    }
  }

  /** Only streams that were opened are closed. */
  lemma {:induction false} NotClosedYet(s: State, steps: seq<Step>)
    requires Initial(s) && Legal(s, steps)
    ensures forall k: nat :: Close(k) in steps ==> k < |Final(s, steps).streams|
    decreases |steps|
  {
    hide After, Enabled;
    if steps != [] {
      LastStep(s, steps);
      hide Legal, Final;
      var past, last := Front(steps), steps[|steps| - 1];
      assert steps == past + [last];
      NotClosedYet(s, past);
      StepTells(Final(s, past), last);
      if last.Close? {
        CloseEnabled(Final(s, past), last);
      }
    }
  }

  lemma {:induction false} CloseEnabled(s: State, step: Step)
    requires Enabled(s, step) && step.Close?
    ensures step.k < |s.streams|
  {
  }

  // ------------------------------------------------------------------ the writer's token

  function Holders(ws: seq<Writer>): nat {
    if ws == [] then 0 else Holders(ws[..|ws| - 1]) + if ws[|ws| - 1].phase.Holding? then 1 else 0
  }

  lemma {:induction false} HoldersSet(ws: seq<Writer>, w: nat, x: Writer)
    requires w < |ws|
    ensures Holders(ws[w := x]) == Holders(ws) - (if ws[w].phase.Holding? then 1 else 0) + if x.phase.Holding? then 1 else 0
  {
    var m := |ws| - 1;
    if w < m {
      HoldersSet(ws[..m], w, x);
      assert ws[w := x][..m] == ws[..m][w := x];
    } else {
      assert ws[w := x][..m] == ws[..m];
    }
  }

  /** writableChan holds one token: at most one call is writing, and unless the transport is
      broken none gets lost. */
  predicate OneToken(s: State) {
    var n := Holders(s.writers) + if s.writable then 1 else 0;
    n <= 1 && (!s.broken ==> n == 1)
  }

  /** A step of call w. */
  lemma {:induction false} CallToken(s: State, t: State, w: nat)
    requires OneToken(s) && w < |s.writers| == |t.writers| && t.writers == s.writers[w := t.writers[w]]
    requires var a, b := s.writers[w].phase.Holding?, t.writers[w].phase.Holding?;
      if a == b then t.writable == s.writable
      else if b then s.writable && !t.writable
      else !s.writable && (t.writable || t.broken)
    requires s.broken ==> t.broken
    ensures OneToken(t)
  {
    HoldersSet(s.writers, w, t.writers[w]);
  }

  lemma {:induction false} HolderHasIt(s: State, w: nat)
    requires OneToken(s) && w < |s.writers| && s.writers[w].phase.Holding?
    ensures !s.writable
  {
    HoldersSet(s.writers, w, s.writers[w].(phase := Finished));
  }

  lemma {:induction false} StepToken(s: State, step: Step)
    requires OneToken(s) && Enabled(s, step)
    ensures OneToken(After(s, step))
  {
    hide OneToken, Chunk, Size, AbortedAt, Adjusted;
    var t := After(s, step);
    match step
    case Call(_, _, _) => NewCaller(s, t);
    case WriteData(w) => HolderHasIt(s, w); CallToken(s, t, w);
    case Fail(w) => HolderHasIt(s, w); CallToken(s, t, w);
    case Abort(w) => AbortToken(s, w);
    case AcquireStream(w) => CallToken(s, t, w);
    case Skip(w) => CallToken(s, t, w);
    case Acquire(w) => CallToken(s, t, w);
    case GiveBackStream(w) => CallToken(s, t, w);
    case GiveBack(w) => CallToken(s, t, w);
    case Lock(w) => CallToken(s, t, w);
    case Closing(w) => CallToken(s, t, w);
    case _ => SameToken(s, t);
  }

  lemma {:induction false} AbortToken(s: State, w: nat)
    requires OneToken(s) && Enabled(s, Abort(w))
    ensures OneToken(AbortedAt(s, w))
  {
    hide OneToken, Chunk;
    if s.writers[w].phase.Holding? {
      HolderHasIt(s, w);
    }
    CallToken(s, AbortedAt(s, w), w);
  }

  lemma {:induction false} SameToken(s: State, t: State)
    requires OneToken(s) && t.writers == s.writers && t.writable == s.writable && t.broken == s.broken
    ensures OneToken(t)
  {
  }

  lemma {:induction false} NewCaller(s: State, t: State)
    requires OneToken(s) && |t.writers| == |s.writers| + 1 && t.writers[..|s.writers|] == s.writers
    requires !t.writers[|s.writers|].phase.Holding? && t.writable == s.writable && t.broken == s.broken
    ensures OneToken(t)
  {
  }

  /** No two calls write at the same time, in any run. */
  lemma {:induction false} Exclusive(s: State, steps: seq<Step>)
    requires OneToken(s) && Legal(s, steps)
    ensures OneToken(Final(s, steps))
    decreases |steps|
  {
    if steps != [] {
      StepToken(s, steps[0]);
      hide After, Enabled, OneToken;
      Exclusive(After(s, steps[0]), steps[1..]);
    }
  }

  /** In every run, whatever the SETTINGS: the DATA bytes sent never exceed the connection
      window granted, no frame is longer than 16384 bytes, a Write that returned nil sent
      exactly its data, in order, and one that failed sent a prefix of it. */
  lemma {:induction false} ConnectionWindow(s: State, steps: seq<Step>)
    requires Initial(s) && Legal(s, steps)
    ensures var t := Final(s, steps);
      && Total(t.sent) <= 65535 + Updates(steps)
      && (forall i :: 0 <= i < |t.sent| ==> t.sent[i].size <= 16384)
      && (forall w :: 0 <= w < |t.writers| ==>
            var x := t.writers[w];
            x.out <= x.data && (x.phase.Finished? ==> x.out == x.data) && (x.ended <==> x.phase.Finished? && x.last))
  {
    hide Legal, Final, After, Enabled, Announced;
    InitInv(s);
    RunKeeps(s, steps);
    GrantedIsAnnounced(s, steps);
    var t := Final(s, steps);
    forall w | 0 <= w < |t.writers| ensures t.writers[w].out <= t.writers[w].data {
      assert WriterLaw(t.writers[w]);
      assert t.writers[w].out <= t.writers[w].out + Chunk(t.writers[w].phase);
    }
  }

  /** While the transport is not closing or broken, aborted calls take nothing from the
      connection: what the peer announced is sent, in the pool or in the hands of a call. */
  lemma {:induction false} ConnectionQuotaKept(s: State, steps: seq<Step>)
    requires Initial(s) && Legal(s, steps) && !Final(s, steps).broken
    ensures var t := Final(s, steps); 65535 + Updates(steps) == Total(t.sent) + t.quota + Hands(t.writers)
  {
    hide Legal, Final, After, Enabled, Announced;
    InitInv(s);
    RunKeeps(s, steps);
    GrantedIsAnnounced(s, steps);
  }

  // ------------------------------------------------------------------ SETTINGS

  /** An initial window size leaves the pools in step with the peer exactly when it does not
      shrink the window; otherwise every stream is given 2^32 bytes too much. */
  lemma {:induction false} SettingsExactIff(s: State, val: uint32, k: nat)
    requires k < |s.streams| && s.streams[k].active
    ensures var x, y := s.streams[k], After(s, Settings(val)).streams[k];
      && y.excess == x.excess + (if val < s.initial then 0x1_0000_0000 else 0)
      && (y.quota - x.quota == y.granted - x.granted <==> val >= s.initial)
  {
    assert After(s, Settings(val)).streams[k] == Adjusted(s.streams[k], val, s.initial);
  }

  /** No SETTINGS of the run shrinks the window while a stream is active. */
  predicate ShrinksIdle(s: State, steps: seq<Step>)
    requires Legal(s, steps)
    decreases |steps|
  {
    steps == [] || (!ShrinksActive(s, steps[0]) && ShrinksIdle(After(s, steps[0]), steps[1..]))
  }

  predicate ShrinksActive(s: State, step: Step) {
    step.Settings? && step.val < s.initial && exists k :: 0 <= k < |s.streams| && s.streams[k].active
  }

  /** No pool holds more or less than the peer announced and has not been sent. */
  predicate InStep(s: State) {
    forall k :: 0 <= k < |s.streams| ==> s.streams[k].excess == 0
  }

  predicate NoneShort(s: State) {
    forall k :: 0 <= k < |s.streams| ==> s.streams[k].excess >= 0
  }

  /** What was added beyond the window stays. */
  lemma {:induction false} ExcessGrows(s: State, step: Step)
    requires Enabled(s, step) && NoneShort(s)
    ensures NoneShort(After(s, step)) && |s.streams| <= |After(s, step).streams|
    ensures forall k :: 0 <= k < |s.streams| ==> s.streams[k].excess <= After(s, step).streams[k].excess
  {
  }

  lemma {:induction false} StepInStep(s: State, step: Step)
    requires InStep(s) && Enabled(s, step)
    ensures InStep(After(s, step)) <==> !ShrinksActive(s, step)
  {
    if ShrinksActive(s, step) {
      var k :| 0 <= k < |s.streams| && s.streams[k].active;
      SettingsExactIff(s, step.val, k);
    }
  }

  lemma {:induction false} ExcessStays(s: State, steps: seq<Step>, k: nat)
    requires NoneShort(s) && Legal(s, steps) && k < |s.streams| && s.streams[k].excess > 0
    ensures k < |Final(s, steps).streams| && Final(s, steps).streams[k].excess > 0
    decreases |steps|
  {
    if steps != [] {
      ExcessGrows(s, steps[0]);
      hide After, Enabled, NoneShort;
      ExcessStays(After(s, steps[0]), steps[1..], k);
    }
  }

  /** The exact condition: at the end of a run the pools are in step with the peer if and only
      if every SETTINGS that shrinks the window found no active stream. */
  lemma {:induction false} InStepIff(s: State, steps: seq<Step>)
    requires InStep(s) && Legal(s, steps)
    ensures InStep(Final(s, steps)) <==> ShrinksIdle(s, steps)
    decreases |steps|
  {
    if steps != [] {
      StepInStep(s, steps[0]);
      ExcessGrows(s, steps[0]);
      hide After, Enabled, ShrinksActive;
      var t := After(s, steps[0]);
      if InStep(t) {
        InStepIff(t, steps[1..]);
      } else {
        var k :| 0 <= k < |t.streams| && t.streams[k].excess > 0;
        ExcessStays(t, steps[1..], k);
      }
    }
  }

  /** Section 6.9.1 of RFC 7540: as long as no SETTINGS shrinks the initial window of an active
      stream, the bytes sent on a stream never exceed the window granted to it. */
  lemma {:induction false} StreamWindow(s: State, steps: seq<Step>, k: nat)
    requires Initial(s) && Legal(s, steps) && ShrinksIdle(s, steps) && k < |Final(s, steps).streams|
    ensures For(Final(s, steps).sent, k) <= Announced(steps, k)
  {
    hide Legal, Final, ShrinksIdle, After, Enabled, Announced;
    GrantedIsAnnounced(s, steps);
    InitInv(s);
    RunKeeps(s, steps);
    InStepIff(s, steps);
    assert StreamLaw(Final(s, steps), k);
  }

  lemma {:induction false} Before(s: State, step: Step, rest: seq<Step>)
    requires Enabled(s, step) && Legal(After(s, step), rest)
    ensures Legal(s, [step] + rest) && Final(s, [step] + rest) == Final(After(s, step), rest)
  {
    assert ([step] + rest)[1..] == rest;
  }

  /** The states of a run in which one byte is sent after the window has shrunk to zero. */
  function Shrunk(quota: int): Stream {
    Stream(true, quota, 0, 0, 0x1_0000_0000)
  }

  function OneByte(d: seq<byte>, rest: seq<byte>, phase: Phase): Writer {
    Writer(0, d, false, rest, phase, [], false)
  }

  function Midway(quota: int, w: Writer, conn: int, writable: bool): State {
    State([Shrunk(quota)], [w], [], conn, 65535, 0, 0, writable, false)
  }

  lemma {:induction false} ShrinkRun1(s: State, d: seq<byte>) returns (steps: seq<Step>)
    requires Initial(s)
    ensures Legal(s, steps)
    ensures Final(s, steps) == Midway(0x1_0000_0000, OneByte(d, d, Loop), 65535, true)
  {
    var s1 := After(s, Open);
    var s2 := After(s1, Settings(0));
    assert s2.streams == [Shrunk(0x1_0000_0000)];
    var s3 := After(s2, Call(0, d, false));
    assert Legal(s3, []) && Final(s3, []) == s3;
    Before(s2, Call(0, d, false), []);
    steps := [Call(0, d, false)] + [];
    Before(s1, Settings(0), steps);
    steps := [Settings(0)] + steps;
    Before(s, Open, steps);
    steps := [Open] + steps;
  }

  lemma {:induction false} ShrinkRun2(d: seq<byte>) returns (steps: seq<Step>)
    requires |d| == 1
    ensures var s := Midway(0x1_0000_0000, OneByte(d, d, Loop), 65535, true);
      && Legal(s, steps)
      && Final(s, steps) == Midway(0xFFFF_FFFF, OneByte(d, [], Booked(d, 0, 65534)), 0, true)
  {
    var s := Midway(0x1_0000_0000, OneByte(d, d, Loop), 65535, true);
    var s1 := Midway(0, OneByte(d, d, GotStream(0x1_0000_0000)), 65535, true);
    assert After(s, AcquireStream(0)) == s1;
    var s2 := Midway(0, OneByte(d, [], Booked(d, 0xFFFF_FFFF, 65534)), 0, true);
    assert d[1..] == [] && d[..1] == d;
    assert After(s1, Acquire(0)) == s2;
    var s3 := Midway(0xFFFF_FFFF, OneByte(d, [], Booked(d, 0, 65534)), 0, true);
    assert After(s2, GiveBackStream(0)) == s3;
    hide After, Enabled, For, Total;
    assert Legal(s3, []) && Final(s3, []) == s3;
    Before(s2, GiveBackStream(0), []);
    steps := [GiveBackStream(0)] + [];
    Before(s1, Acquire(0), steps);
    steps := [Acquire(0)] + steps;
    Before(s, AcquireStream(0), steps);
    steps := [AcquireStream(0)] + steps;
  }

  lemma {:induction false} ShrinkRun3(d: seq<byte>) returns (steps: seq<Step>)
    requires |d| == 1
    ensures var s := Midway(0xFFFF_FFFF, OneByte(d, [], Booked(d, 0, 65534)), 0, true);
      && Legal(s, steps)
      && var t := Final(s, steps); t.streams == [Shrunk(0xFFFF_FFFF)] && For(t.sent, 0) == 1
  {
    hide For, Total;
    var s := Midway(0xFFFF_FFFF, OneByte(d, [], Booked(d, 0, 65534)), 0, true);
    var s1 := Midway(0xFFFF_FFFF, OneByte(d, [], Booked(d, 0, 0)), 65534, true);
    assert After(s, GiveBack(0)) == s1;
    var s2 := Midway(0xFFFF_FFFF, OneByte(d, [], Holding(d)), 65534, false);
    assert After(s1, Lock(0)) == s2;
    hide After, Enabled;
    steps := ShrinkRun4(d);
    Before(s1, Lock(0), steps);
    steps := [Lock(0)] + steps;
    Before(s, GiveBack(0), steps);
    steps := [GiveBack(0)] + steps;
  }

  lemma {:induction false} ShrinkRun4(d: seq<byte>) returns (steps: seq<Step>)
    requires |d| == 1
    ensures var s := Midway(0xFFFF_FFFF, OneByte(d, [], Holding(d)), 65534, false);
      && Legal(s, steps)
      && var t := Final(s, steps); t.streams == [Shrunk(0xFFFF_FFFF)] && For(t.sent, 0) == 1
  {
    hide For, Total;
    var s := Midway(0xFFFF_FFFF, OneByte(d, [], Holding(d)), 65534, false);
    var t := After(s, WriteData(0));
    assert t.streams == [Shrunk(0xFFFF_FFFF)] && t.sent == [Frame(0, 1, false)];
    One(Frame(0, 1, false), 0);
    hide After, Enabled;
    assert Legal(t, []) && Final(t, []) == t;
    Before(s, WriteData(0), []);
    steps := [WriteData(0)] + [];
  }

  lemma {:induction false} Joined(s: State, xs: seq<Step>, ys: seq<Step>)
    requires Legal(s, xs) && Legal(Final(s, xs), ys)
    ensures Legal(s, xs + ys) && Final(s, xs + ys) == Final(Final(s, xs), ys)
    decreases |xs|
  {
    hide After, Enabled;
    if xs == [] {
      assert xs + ys == ys;
    } else {
      assert (xs + ys)[1..] == xs[1..] + ys;
      Joined(After(s, xs[0]), xs[1..], ys);
    }
  }

  /** With a shrinking SETTINGS it fails: a window of zero, and a byte is sent. */
  lemma {:induction false} ShrinkingBreaks(s: State) returns (steps: seq<Step>)
    requires Initial(s)
    ensures Legal(s, steps)
    ensures var t := Final(s, steps);
      |t.streams| == 1 && For(t.sent, 0) == 1 && Announced(steps, 0) == 0
  {
    hide Legal, Final, After, Enabled, Announced;
    var xs := ShrinkRun1(s, [7]);
    var ys := ShrinkRun2([7]);
    var zs := ShrinkRun3([7]);
    Joined(s, xs, ys);
    Joined(s, xs + ys, zs);
    steps := xs + ys + zs;
    GrantedIsAnnounced(s, steps);
  }
}
