/** Inbound flow control of grpc/transport/http2_client.go as a machine of two parties: the
    peer, the reader goroutine, the application and the controller, one step for each
    mutex-protected block or channel operation. */
module Inbound {
  import opened Words
  import opened InFlows
  import opened Frames

  /** A client stream and what the peer may still send on it. `buffered` bytes lie in its
      recvBuffer, `reading` bytes were returned by Read but not yet given to updateWindow. */
  datatype Stream = Stream(
    fc: Flow, active: bool, done: bool, rst: bool, buffered: nat, reading: nat, credit: int)

  /** Where the reader goroutine is in handleData. */
  datatype Phase =
    | Idle
    | Got(f: Frame)     // counted by the connection, stream not looked up
    | Looked(f: Frame)  // found among the active streams
    | Writing(f: Frame) // counted by the stream, not yet written to its buffer
    | Ending(f: Frame)  // written, END_STREAM not yet handled

  /** `credit`: what the peer may still send on the connection. `wire`: DATA in flight.
      `updates`: window updates in the control buffer or in flight. */
  datatype State = State(
    live: bool, fc: Flow, streams: seq<Stream>, phase: Phase,
    wire: seq<Frame>, updates: seq<Frame>, credit: int)

  datatype Step =
    | Send(f: Frame) | Deliver
    | Take | LookUp | Dispatch | Write | End
    | Finish(k: nat) | Read(k: nat, n: nat) | UpdateWindow(k: nat, n: nat)
    | Delete(k: nat) | Release(k: nat) | Open

  // ------------------------------------------------------------------ steps

  function NewStream(): Stream {
    Stream(Flow(65535, 0, 0), true, false, false, 0, 0, 65535)
  }

  /** The connection starts with the default window at the peer and the rest on its way. */
  predicate Initial(s: State) {
    && s.live && s.fc == Flow(1048560, 0, 0) && s.streams == [] && s.phase.Idle? && s.wire == []
    && s.updates == [Frame(-1, 983025, false)] && s.credit == 65535
  }

  predicate Known(s: State, k: int) {
    0 <= k < |s.streams|
  }

  function Queue(updates: seq<Frame>, to: int, w: nat): seq<Frame> {
    if w > 0 then updates + [Frame(to, w, false)] else updates
  }

  /** t.fc.onRead and, if it asks for one, a connection window update. */
  function Credit(s: State, n: uint32): State {
    var (fc, w) := s.fc.OnRead(n);
    s.(fc := fc, updates := Queue(s.updates, -1, w))
  }

  /** The same for a stream. */
  function CreditStream(s: State, k: nat, n: uint32): State
    requires Known(s, k)
  {
    var (fc, w) := s.streams[k].fc.OnRead(n);
    s.(streams := s.streams[k := s.streams[k].(fc := fc)], updates := Queue(s.updates, k, w))
  }

  /** Frame payloads are at most 2^24-1 bytes. The peer may use any stream that was opened,
      whatever its state, and ids that never were (-1). */
  predicate Enabled(s: State, step: Step) {
    s.live &&
    match step
    case Send(f) => -1 <= f.to < |s.streams| && f.size < 0x100_0000
    case Deliver => s.updates != []
    case Take => s.phase.Idle? && s.wire != []
    case LookUp => s.phase.Got?
    case Dispatch => s.phase.Looked? && Known(s, s.phase.f.to)
    case Write => s.phase.Writing? && Known(s, s.phase.f.to)
    case End => s.phase.Ending? && Known(s, s.phase.f.to)
    case Finish(k) => Known(s, k)
    case Read(k, n) => Known(s, k) && n <= s.streams[k].buffered
    case UpdateWindow(k, n) => Known(s, k) && n <= s.streams[k].reading && n < 0x1_0000_0000
    case Delete(k) => Known(s, k)
    case Release(k) => Known(s, k) && !s.streams[k].active
    case Open => true
  }

  function Sent(s: State, f: Frame): State
    requires Enabled(s, Send(f))
  {
    var t := s.(wire := s.wire + [f], credit := s.credit - f.size);
    if f.to < 0 then t
    else t.(streams := t.streams[f.to := t.streams[f.to].(credit := t.streams[f.to].credit - f.size)])
  }

  function Delivered(s: State): State
    requires Enabled(s, Deliver)
  {
    var u, t := s.updates[0], s.(updates := s.updates[1..]);
    if u.to == -1 then t.(credit := t.credit + u.size)
    else if Known(s, u.to) then
      t.(streams := t.streams[u.to := t.streams[u.to].(credit := t.streams[u.to].credit + u.size)])
    else t
  }

  /** t.fc.onData; an error ends the transport (notifyError). */
  function TakenIn(s: State): State
    requires Enabled(s, Take)
  {
    var f := s.wire[0];
    var (fc, ok) := s.fc.OnData(Wrap32(f.size));
    s.(live := ok, fc := fc, wire := s.wire[1..], phase := if ok then Got(f) else Idle)
  }

  /** getStream; a frame for no active stream goes back to the connection. */
  function LookedUp(s: State): State
    requires Enabled(s, LookUp)
  {
    var f := s.phase.f;
    if Known(s, f.to) && s.streams[f.to].active then s.(phase := Looked(f))
    else Credit(s, Wrap32(f.size)).(phase := Idle)
  }

  /** The block under s.mu. */
  function Dispatched(s: State): State
    requires Enabled(s, Dispatch)
  {
    var f, k := s.phase.f, s.phase.f.to;
    if f.size == 0 then s.(phase := Writing(f))
    else if s.streams[k].done then Credit(s, Wrap32(f.size)).(phase := Idle)
    else
      var (fc, ok) := s.streams[k].fc.OnData(Wrap32(f.size));
      if ok then s.(streams := s.streams[k := s.streams[k].(fc := fc)], phase := Writing(f))
      else s.(streams := s.streams[k := s.streams[k].(fc := fc, rst := true, done := true)], phase := Idle)
  }

  function Written(s: State): State
    requires Enabled(s, Write)
  {
    var f, k := s.phase.f, s.phase.f.to;
    s.(streams := s.streams[k := s.streams[k].(buffered := s.streams[k].buffered + f.size)],
       phase := if f.last then Ending(f) else Idle)
  }

  function Finished(s: State, k: nat): State
    requires Known(s, k)
  {
    s.(streams := s.streams[k := s.streams[k].(done := true)])
  }

  function WindowUpdated(s: State, k: nat, n: nat): State
    requires Enabled(s, UpdateWindow(k, n))
  {
    var x := s.streams[k].(reading := s.streams[k].reading - n);
    var t := s.(streams := s.streams[k := x]);
    if x.done then t else CreditStream(Credit(t, n), k, n)
  }

  /** The block of CloseStream under s.mu. */
  function Released(s: State, k: nat): State
    requires Enabled(s, Release(k))
  {
    var (fc, q) := s.streams[k].fc.Reset();
    var t := s.(streams := s.streams[k := s.streams[k].(fc := fc, done := true)]);
    if q > 0 then Credit(t, q) else t
  }

  function After(s: State, step: Step): State
    requires Enabled(s, step)
  {
    match step
    case Send(f) => Sent(s, f)
    case Deliver => Delivered(s)
    case Take => TakenIn(s)
    case LookUp => LookedUp(s)
    case Dispatch => Dispatched(s)
    case Write => Written(s)
    case End => Finished(s, s.phase.f.to).(phase := Idle)
    case Finish(k) => Finished(s, k)
    case Read(k, n) =>
      var x := s.streams[k];
      s.(streams := s.streams[k := x.(buffered := x.buffered - n, reading := x.reading + n)])
    case UpdateWindow(k, n) => WindowUpdated(s, k, n)
    case Delete(k) => s.(streams := s.streams[k := s.streams[k].(active := false)])
    case Release(k) => Released(s, k)
    case Open => s.(streams := s.streams + [NewStream()])
  }

  // -------------------------------------------------------------- invariant

  function Pending(ss: seq<Stream>): nat {
    if ss == [] then 0 else Pending(ss[..|ss| - 1]) + ss[|ss| - 1].fc.pendingData
  }

  /** The frame that only the connection has counted. */
  function InHand(p: Phase): seq<Frame> {
    if p.Got? || p.Looked? then [p.f] else []
  }

  function ToWrite(p: Phase, k: int): nat {
    if p.Writing? then Share(p.f, k) else 0
  }

  ghost predicate ConnLaw(s: State) {
    && s.fc.limit == 1048560 && s.fc.Held()
    && s.credit + Total(s.wire) + s.fc.pendingData + s.fc.pendingUpdate + For(s.updates, -1) == 1048560
    && s.fc.pendingData == Pending(s.streams) + Total(InHand(s.phase))
    && s.fc.pendingData + s.fc.pendingUpdate <= 1048560
  }

  function Window(s: State, k: nat): int
    requires k < |s.streams|
  {
    var x := s.streams[k];
    x.credit + For(s.wire, k) + For(InHand(s.phase), k) + x.fc.pendingData + x.fc.pendingUpdate
    + For(s.updates, k)
  }

  ghost predicate StreamLaw(s: State, k: nat)
    requires k < |s.streams|
  {
    var x := s.streams[k];
    && x.fc.limit == 65535 && x.fc.Held() && x.fc.pendingUpdate <= 65535
    && Window(s, k) <= 65535
    && (x.active && !x.done ==> Window(s, k) == 65535)
    && (!x.done ==> x.fc.pendingData == x.buffered + x.reading + ToWrite(s.phase, k))
    && (!x.done ==> x.fc.pendingData + x.fc.pendingUpdate <= 65535)
  }

  predicate Sane(f: Frame, s: State) {
    -1 <= f.to < |s.streams| && f.size < 0x100_0000
  }

  ghost predicate FramesSane(s: State) {
    && (forall i :: 0 <= i < |s.wire| ==> Sane(s.wire[i], s))
    && (forall i :: 0 <= i < |s.updates| ==> -1 <= s.updates[i].to < |s.streams|)
    && (!s.phase.Idle? ==> Sane(s.phase.f, s) && (s.phase.Got? || s.phase.f.to >= 0))
  }

  ghost predicate Inv(s: State) {
    && s.live && ConnLaw(s) && FramesSane(s)
    && forall k :: 0 <= k < |s.streams| ==> StreamLaw(s, k)
  }

  // ---------------------------------------------------------- small lemmas

  lemma {:induction false} PendingSet(ss: seq<Stream>, k: nat, x: Stream)
    requires k < |ss|
    ensures Pending(ss[k := x]) == Pending(ss) - ss[k].fc.pendingData + x.fc.pendingData
    ensures ss[k].fc.pendingData <= Pending(ss)
  {
    var m := |ss| - 1;
    if k < m {
      PendingSet(ss[..m], k, x);
      assert ss[k := x][..m] == ss[..m][k := x];
    } else {
      assert ss[k := x][..m] == ss[..m];
    }
  }

  lemma {:induction false} PendingAppended(ss: seq<Stream>, x: Stream)
    ensures Pending(ss + [x]) == Pending(ss) + x.fc.pendingData
  {
    assert (ss + [x])[..|ss|] == ss;
  }

  predicate InRange(us: seq<Frame>, n: nat) {
    forall i :: 0 <= i < |us| ==> -1 <= us[i].to < n
  }

  lemma {:induction false} Queued(us: seq<Frame>, to: int, w: nat, k: int)
    ensures For(Queue(us, to, w), k) == For(us, k) + if k == to then w else 0
  {
    if w > 0 {
      Appended(us, Frame(to, w, false), k);
    }
  }

  /** Crediting the connection with n of its pending bytes. */
  lemma {:induction false} CreditLaw(s: State, n: uint32)
    requires s.fc.limit == 1048560 && s.fc.Held()
    requires n <= s.fc.pendingData && s.fc.pendingData + s.fc.pendingUpdate <= 1048560
    ensures var t := Credit(s, n);
      && t == s.(fc := t.fc, updates := t.updates)
      && t.fc.limit == 1048560 && t.fc.Held()
      && t.fc.pendingData == s.fc.pendingData - n
      && t.fc.pendingData + t.fc.pendingUpdate <= 1048560
      && t.fc.pendingUpdate + For(t.updates, -1) == s.fc.pendingUpdate + For(s.updates, -1) + n
    ensures forall k :: k >= 0 ==> For(Credit(s, n).updates, k) == For(s.updates, k)
    ensures InRange(s.updates, |s.streams|) ==> InRange(Credit(s, n).updates, |s.streams|)
  {
    OnReadExact(s.fc, n);
    var w := s.fc.OnRead(n).1;
    Queued(s.updates, -1, w, -1);
    forall k | k >= 0 ensures For(Queue(s.updates, -1, w), k) == For(s.updates, k) {
      Queued(s.updates, -1, w, k);
    }
  }

  /** The same for a stream. */
  lemma {:induction false} CreditStreamLaw(s: State, k: nat, n: uint32)
    requires Known(s, k) && s.streams[k].fc.limit == 65535 && s.streams[k].fc.Held()
    requires n <= s.streams[k].fc.pendingData
    requires s.streams[k].fc.pendingData + s.streams[k].fc.pendingUpdate <= 65535
    ensures var t := CreditStream(s, k, n); var x, y := s.streams[k].fc, t.streams[k].fc;
      && t == s.(streams := s.streams[k := s.streams[k].(fc := y)], updates := t.updates)
      && y.limit == 65535 && y.Held()
      && y.pendingData == x.pendingData - n
      && y.pendingData + y.pendingUpdate <= 65535
      && y.pendingUpdate + For(t.updates, k) == x.pendingUpdate + For(s.updates, k) + n
    ensures forall j :: j != k ==> For(CreditStream(s, k, n).updates, j) == For(s.updates, j)
    ensures InRange(s.updates, |s.streams|) ==> InRange(CreditStream(s, k, n).updates, |s.streams|)
  {
    var f := s.streams[k].fc;
    OnReadExact(f, n);
    var w := f.OnRead(n).1;
    Queued(s.updates, k, w, k);
    forall j | j != k ensures For(Queue(s.updates, k, w), j) == For(s.updates, j) {
      Queued(s.updates, k, w, j);
    }
  }

  lemma {:induction false} Hand(p: Phase, k: int)
    ensures Total(InHand(p)) == if p.Got? || p.Looked? then p.f.size else 0
    ensures For(InHand(p), k) == if p.Got? || p.Looked? then Share(p.f, k) else 0
  {
    if p.Got? || p.Looked? {
      One(p.f, k);
    }
  }

  // ------------------------------------------------------- every step keeps it

  lemma {:induction false} SendKeeps(s: State, f: Frame)
    requires Inv(s) && Enabled(s, Send(f))
    ensures Inv(Sent(s, f))
  {
    hide For, Total, Pending, InHand;
    var t := Sent(s, f);
    Appended(s.wire, f, -1);
    if f.to >= 0 {
      PendingSet(s.streams, f.to, t.streams[f.to]);
    }
    forall k | 0 <= k < |t.streams| ensures StreamLaw(t, k) {
      assert StreamLaw(s, k);
      Appended(s.wire, f, k);
    }
  }

  lemma {:induction false} DeliverKeeps(s: State)
    requires Inv(s) && Enabled(s, Deliver)
    ensures Inv(Delivered(s))
  {
    hide For, Total, Pending, InHand;
    var t, u := Delivered(s), s.updates[0];
    Taken(s.updates, -1);
    if u.to >= 0 {
      PendingSet(s.streams, u.to, t.streams[u.to]);
    }
    forall k | 0 <= k < |t.streams| ensures StreamLaw(t, k) {
      assert StreamLaw(s, k);
      Taken(s.updates, k);
    }
  }

  lemma {:induction false} TakeKeeps(s: State)
    requires Inv(s) && Enabled(s, Take)
    ensures TakenIn(s).live ==> Inv(TakenIn(s))
  {
    hide For, Total, Pending, InHand;
    var t, f := TakenIn(s), s.wire[0];
    Taken(s.wire, -1);
    OnDataExact(s.fc, f.size);
    Hand(s.phase, -1);
    Hand(t.phase, -1);
    if t.live {
      forall k | 0 <= k < |t.streams| ensures StreamLaw(t, k) {
        assert StreamLaw(s, k);
        Taken(s.wire, k);
        Hand(s.phase, k);
        Hand(t.phase, k);
      }
    }
  }

  lemma {:induction false} LookUpKeeps(s: State)
    requires Inv(s) && Enabled(s, LookUp)
    ensures Inv(LookedUp(s))
  {
    hide Credit, For, Total, Pending, InHand;
    var t, f := LookedUp(s), s.phase.f;
    Hand(s.phase, -1);
    Hand(t.phase, -1);
    if t.phase.Idle? {
      CreditLaw(s, f.size);
    }
    forall k | 0 <= k < |t.streams| ensures StreamLaw(t, k) {
      assert StreamLaw(s, k);
      Hand(s.phase, k);
      Hand(t.phase, k);
    }
  }

  lemma {:induction false} DispatchDoneKeeps(s: State)
    requires Inv(s) && Enabled(s, Dispatch) && s.phase.f.size > 0 && s.streams[s.phase.f.to].done
    ensures Inv(Dispatched(s))
  {
    hide Credit, For, Total, Pending, InHand;
    var t, f := Dispatched(s), s.phase.f;
    Hand(s.phase, -1);
    CreditLaw(s, f.size);
    Hand(t.phase, -1);
    forall k | 0 <= k < |t.streams| ensures StreamLaw(t, k) {
      assert StreamLaw(s, k);
      Hand(s.phase, k);
      Hand(t.phase, k);
    }
  }

  /** The stream counts the frame that the connection has counted. */
  lemma {:induction false} DispatchCounts(s: State)
    requires Inv(s) && Enabled(s, Dispatch) && s.phase.f.size > 0 && !s.streams[s.phase.f.to].done
    ensures var f, t := s.phase.f, Dispatched(s); var x, y := s.streams[f.to], t.streams[f.to];
      && t == s.(streams := s.streams[f.to := y], phase := t.phase)
      && y == x.(fc := y.fc, rst := y.rst, done := y.done)
      && y.fc.limit == x.fc.limit && y.fc.pendingUpdate == x.fc.pendingUpdate
      && y.fc.pendingData == x.fc.pendingData + f.size
      && (if y.done then t.phase.Idle? else t.phase == Writing(f) && x.fc.pendingData + f.size + x.fc.pendingUpdate <= 65535)
  {
    hide For, Total, Pending, InHand, Credit;
    assert StreamLaw(s, s.phase.f.to);
    OnDataExact(s.streams[s.phase.f.to].fc, s.phase.f.size);
  }

  lemma {:induction false} DispatchKeeps(s: State)
    requires Inv(s) && Enabled(s, Dispatch)
    ensures Inv(Dispatched(s))
  {
    hide Credit, For, Total, Pending, InHand, Flow.OnData;
    var t, f := Dispatched(s), s.phase.f;
    if f.size > 0 && s.streams[f.to].done {
      DispatchDoneKeeps(s);
      return;
    }
    if f.size > 0 {
      DispatchCounts(s);
    }
    hide Dispatched;
    PendingSet(s.streams, f.to, t.streams[f.to]);
    Hand(s.phase, -1);
    Hand(t.phase, -1);
    forall k | 0 <= k < |t.streams| ensures StreamLaw(t, k) {
      assert StreamLaw(s, k);
      Hand(s.phase, k);
      Hand(t.phase, k);
    }
  }

  lemma {:induction false} WriteKeeps(s: State)
    requires Inv(s) && Enabled(s, Write)
    ensures Inv(Written(s))
  {
    hide For, Total, Pending;
    var t, f := Written(s), s.phase.f;
    PendingSet(s.streams, f.to, t.streams[f.to]);
    forall k | 0 <= k < |t.streams| ensures StreamLaw(t, k) {
      assert StreamLaw(s, k);
    }
  }

  lemma {:induction false} FinishKeeps(s: State, k: nat)
    requires Inv(s) && Known(s, k)
    ensures Inv(Finished(s, k))
  {
    var t := Finished(s, k);
    PendingSet(s.streams, k, t.streams[k]);
    forall j | 0 <= j < |t.streams| ensures StreamLaw(t, j) {
      assert StreamLaw(s, j);
    }
  }

  lemma {:induction false} EndKeeps(s: State)
    requires Inv(s) && Enabled(s, End)
    ensures Inv(After(s, End))
  {
    FinishKeeps(s, s.phase.f.to);
    var u, t := Finished(s, s.phase.f.to), After(s, End);
    assert InHand(u.phase) == InHand(t.phase);
    forall j | 0 <= j < |t.streams| ensures StreamLaw(t, j) {
      assert StreamLaw(u, j);
    }
  }

  lemma {:induction false} ReadKeeps(s: State, k: nat, n: nat)
    requires Inv(s) && Enabled(s, Read(k, n))
    ensures Inv(After(s, Read(k, n)))
  {
    hide For, Total, Pending, InHand;
    var t := After(s, Read(k, n));
    PendingSet(s.streams, k, t.streams[k]);
    forall j | 0 <= j < |t.streams| ensures StreamLaw(t, j) {
      assert StreamLaw(s, j);
    }
  }

  /** updateWindow on a stream that is not done: both flows move n bytes on. */
  lemma {:induction false} UpdateWindowMoves(s: State, k: nat, n: nat)
    requires Inv(s) && Enabled(s, UpdateWindow(k, n)) && !s.streams[k].done
    ensures var r := WindowUpdated(s, k, n); var x, y := s.streams[k], r.streams[k];
      && r == s.(fc := r.fc, streams := s.streams[k := y], updates := r.updates)
      && y == x.(reading := x.reading - n, fc := y.fc)
      && Moved(s.fc, r.fc, n) && Moved(x.fc, y.fc, n)
      && r.fc.pendingData + r.fc.pendingUpdate <= 1048560 && y.fc.pendingData + y.fc.pendingUpdate <= 65535
      && r.fc.pendingUpdate + For(r.updates, -1) == s.fc.pendingUpdate + For(s.updates, -1) + n
      && y.fc.pendingUpdate + For(r.updates, k) == x.fc.pendingUpdate + For(s.updates, k) + n
      && (forall j :: j >= 0 && j != k ==> For(r.updates, j) == For(s.updates, j))
      && InRange(r.updates, |s.streams|)
  {
    hide Credit, CreditStream, For, Total, Pending;
    assert StreamLaw(s, k);
    var t := s.(streams := s.streams[k := s.streams[k].(reading := s.streams[k].reading - n)]);
    PendingSet(s.streams, k, s.streams[k]);
    assert InRange(s.updates, |s.streams|);
    hide Inv, FramesSane;
    CreditLaw(t, n);
    CreditStreamLaw(Credit(t, n), k, n);
  }

  predicate Moved(f: Flow, g: Flow, n: nat) {
    g.limit == f.limit && g.Held() && g.pendingData == f.pendingData - n
  }

  lemma {:induction false} UpdateWindowKeeps(s: State, k: nat, n: nat)
    requires Inv(s) && Enabled(s, UpdateWindow(k, n))
    ensures Inv(WindowUpdated(s, k, n))
  {
    hide For, Total, Pending, InHand;
    var r := WindowUpdated(s, k, n);
    if !s.streams[k].done {
      UpdateWindowMoves(s, k, n);
      hide WindowUpdated;
    } else {
      hide Credit, CreditStream;
    }
    PendingSet(s.streams, k, r.streams[k]);
    forall j | 0 <= j < |r.streams| ensures StreamLaw(r, j) {
      assert StreamLaw(s, j);
    }
  }

  lemma {:induction false} DeleteKeeps(s: State, k: nat)
    requires Inv(s) && Enabled(s, Delete(k))
    ensures Inv(After(s, Delete(k)))
  {
    var t := After(s, Delete(k));
    PendingSet(s.streams, k, t.streams[k]);
    forall j | 0 <= j < |t.streams| ensures StreamLaw(t, j) {
      assert StreamLaw(s, j);
    }
  }

  lemma {:induction false} ReleaseKeeps(s: State, k: nat)
    requires Inv(s) && Enabled(s, Release(k))
    ensures Inv(Released(s, k))
  {
    hide Credit, For, Total, Pending;
    assert StreamLaw(s, k);
    var (fc, q) := s.streams[k].fc.Reset();
    var t := s.(streams := s.streams[k := s.streams[k].(fc := fc, done := true)]);
    var r := Released(s, k);
    PendingSet(s.streams, k, t.streams[k]);
    if q > 0 {
      CreditLaw(t, q);
    }
    forall j | 0 <= j < |r.streams| ensures StreamLaw(r, j) {
      assert StreamLaw(s, j);
    }
  }

  lemma {:induction false} ForNobody(fs: seq<Frame>, n: nat)
    requires InRange(fs, n)
    ensures For(fs, n) == 0
  {
    if fs != [] {
      ForNobody(fs[..|fs| - 1], n);
    }
  }

  lemma {:induction false} OpenKeeps(s: State)
    requires Inv(s)
    ensures Inv(After(s, Open))
  {
    hide For, Total, Pending, InHand;
    var t, n := After(s, Open), |s.streams|;
    PendingAppended(s.streams, NewStream());
    ForNobody(s.wire, n);
    ForNobody(s.updates, n);
    Hand(s.phase, n);
    forall j | 0 <= j < |t.streams| ensures StreamLaw(t, j) {
      if j < n {
        assert StreamLaw(s, j);
      }
    }
  }

  lemma {:induction false} StepKeeps(s: State, step: Step)
    requires Inv(s) && Enabled(s, step)
    ensures !step.Take? || After(s, step).live ==> Inv(After(s, step))
  {
    hide Inv, Sent, Delivered, TakenIn, LookedUp, Dispatched, Written, WindowUpdated, Released, Finished;
    match step
    case Send(f) => SendKeeps(s, f);
    case Deliver => DeliverKeeps(s);
    case Take => TakeKeeps(s);
    case LookUp => LookUpKeeps(s);
    case Dispatch => DispatchKeeps(s);
    case Write => WriteKeeps(s);
    case End => EndKeeps(s);
    case Finish(k) => FinishKeeps(s, k);
    case Read(k, n) => ReadKeeps(s, k, n);
    case UpdateWindow(k, n) => UpdateWindowKeeps(s, k, n);
    case Delete(k) => DeleteKeeps(s, k);
    case Release(k) => ReleaseKeeps(s, k);
    case Open => OpenKeeps(s);
  }

  // ------------------------------------------------------------ whole runs

  predicate Legal(s: State, steps: seq<Step>)
    decreases |steps|
  {
    steps == [] || (Enabled(s, steps[0]) && Legal(After(s, steps[0]), steps[1..]))
  }

  function Final(s: State, steps: seq<Step>): State
    requires Legal(s, steps)
    decreases |steps|
  {
    if steps == [] then s else Final(After(s, steps[0]), steps[1..])
  }

  lemma {:induction false} InitInv(s: State)
    requires Initial(s)
    ensures Inv(s) && Trusting(s)
  {
    One(Frame(-1, 983025, false), -1);
  }

  /** Whatever the peer does: in every run, as long as the transport is live, all the laws
      hold. In particular the connection's pendingData is the sum over the streams plus the
      frame in the reader's hand, and the windows of both sides add up. */
  lemma {:induction false} RunKeeps(s: State, steps: seq<Step>)
    requires Inv(s) && Legal(s, steps)
    ensures Final(s, steps).live ==> Inv(Final(s, steps))
    decreases |steps|
  {
    hide Inv, After, Enabled;
    if steps != [] {
      var t := After(s, steps[0]);
      StepKeeps(s, steps[0]);
      if t.live {
        RunKeeps(t, steps[1..]);
      } else {
        DeadStops(t, steps[1..]);
      }
    }
  }

  lemma {:induction false} DeadStops(s: State, steps: seq<Step>)
    requires !s.live && Legal(s, steps)
    ensures steps == []
  {
  }

  /** Between frames the connection's pendingData is exactly the sum over its streams. */
  lemma {:induction false} SumLaw(s: State, steps: seq<Step>)
    requires Initial(s) && Legal(s, steps)
    ensures var t := Final(s, steps);
      t.live && (t.phase.Idle? || t.phase.Writing? || t.phase.Ending?)
      ==> t.fc.pendingData == Pending(t.streams)
  {
    InitInv(s);
    RunKeeps(s, steps);
    Hand(Final(s, steps).phase, -1);
  }

  /** Section 6.9 of RFC 7540, both parties together: credit at the peer, data in flight, data
      pending, updates held back and updates in flight make up the window, for the connection
      and for every stream in use. */
  lemma {:induction false} WindowsAddUp(s: State, steps: seq<Step>, k: nat)
    requires Initial(s) && Legal(s, steps) && Final(s, steps).live
    ensures var t := Final(s, steps);
      t.credit + Total(t.wire) + t.fc.pendingData + t.fc.pendingUpdate + For(t.updates, -1) == 1048560
    ensures var t := Final(s, steps);
      k < |t.streams| && t.streams[k].active && !t.streams[k].done ==> Window(t, k) == 65535
  {
    InitInv(s);
    RunKeeps(s, steps);
    var t := Final(s, steps);
    if k < |t.streams| {
      assert StreamLaw(t, k);
    }
  }

  /** The calls of onRead a step makes: on which flow, and with what amount. */
  function Reads(s: State, step: Step): seq<(Flow, nat)>
    requires Enabled(s, step)
  {
    match step
    case LookUp =>
      var f := s.phase.f;
      if Known(s, f.to) && s.streams[f.to].active then [] else [(s.fc, f.size)]
    case Dispatch =>
      var f := s.phase.f;
      if f.size > 0 && s.streams[f.to].done then [(s.fc, f.size)] else []
    case UpdateWindow(k, n) =>
      if s.streams[k].done then [] else [(s.fc, n), (s.streams[k].fc, n)]
    case Release(k) =>
      var q := s.streams[k].fc.pendingData;
      if q > 0 then [(s.fc, q)] else []
    case _ => []
  }

  lemma {:induction false} ReadsCovered(s: State, step: Step)
    requires Inv(s) && Enabled(s, step)
    ensures forall i :: 0 <= i < |Reads(s, step)| ==> Reads(s, step)[i].1 <= Reads(s, step)[i].0.pendingData
  {
    hide For, Total, Pending;
    Hand(s.phase, -1);
    match step
    case UpdateWindow(k, n) =>
      assert StreamLaw(s, k);
      PendingSet(s.streams, k, s.streams[k]);
    case Release(k) => PendingSet(s.streams, k, s.streams[k]);
    case _ =>
  }

  /** No onRead ever takes more than is pending: not in any reachable state, for any step. */
  lemma {:induction false} NoUnderflow(s: State, steps: seq<Step>, step: Step)
    requires Initial(s) && Legal(s, steps) && Enabled(Final(s, steps), step)
    ensures var t := Final(s, steps);
      forall i :: 0 <= i < |Reads(t, step)| ==>
        var (f, n) := Reads(t, step)[i]; n <= f.pendingData && (n > 0 ==> f.OnRead(n).0.pendingData == f.pendingData - n)
  {
    hide Inv;
    InitInv(s);
    RunKeeps(s, steps);
    ReadsCovered(Final(s, steps), step);
  }

  // --------------------------------------------------- a peer that keeps count

  /** The peer sends only within both windows. */
  predicate Respectful(s: State, step: Step) {
    step.Send? ==>
      0 <= step.f.to < |s.streams| && step.f.size <= s.credit && step.f.size <= s.streams[step.f.to].credit
  }

  ghost predicate Trusting(s: State) {
    s.live && s.credit >= 0
    && forall k :: 0 <= k < |s.streams| ==> s.streams[k].credit >= 0 && !s.streams[k].rst
  }

  lemma {:induction false} TakeAccepts(s: State)
    requires Inv(s) && Trusting(s) && Enabled(s, Take)
    ensures TakenIn(s).live
  {
    hide For, Total, Pending, InHand, Flow.OnData, Wrap32;
    Taken(s.wire, -1);
    Hand(s.phase, -1);
    Wrapped(s.wire[0].size);
    OnDataExact(s.fc, s.wire[0].size);
  }

  lemma {:induction false} DispatchFits(s: State)
    requires Inv(s) && Trusting(s) && Enabled(s, Dispatch)
    ensures var f := s.phase.f;
      f.size > 0 && !s.streams[f.to].done ==> s.streams[f.to].fc.OnData(Wrap32(f.size)).1
  {
    hide For, Total, Pending, InHand, Credit, Flow.OnData, Wrap32;
    var f := s.phase.f;
    assert StreamLaw(s, f.to);
    Hand(s.phase, f.to);
    Wrapped(f.size);
    if f.size > 0 && !s.streams[f.to].done {
      OnDataExact(s.streams[f.to].fc, f.size);
    }
  }

  /** t is as good for the peer as s: no window is smaller, no further stream is reset. */
  predicate NotWorse(s: State, t: State) {
    && t.live == s.live && t.credit >= s.credit && |t.streams| == |s.streams|
    && forall k :: 0 <= k < |s.streams| ==>
         t.streams[k].credit >= s.streams[k].credit && t.streams[k].rst == s.streams[k].rst
  }

  lemma {:induction false} StaysTrusting(s: State, t: State)
    requires Trusting(s) && NotWorse(s, t)
    ensures Trusting(t)
  {
  }

  lemma {:induction false} CreditFrame(s: State, n: uint32)
    ensures var t := Credit(s, n); t == s.(fc := t.fc, updates := t.updates)
  {
  }

  lemma {:induction false} CreditStreamFrame(s: State, k: nat, n: uint32)
    requires Known(s, k)
    ensures NotWorse(s, CreditStream(s, k, n))
  {
    hide Flow.OnRead, Queue;
  }

  lemma {:induction false} DispatchNotWorse(s: State)
    requires Enabled(s, Dispatch)
    requires var f := s.phase.f;
      f.size > 0 && !s.streams[f.to].done ==> s.streams[f.to].fc.OnData(Wrap32(f.size)).1
    ensures NotWorse(s, Dispatched(s))
  {
    hide Credit, Flow.OnData, Wrap32;
    CreditFrame(s, Wrap32(s.phase.f.size));
  }

  lemma {:induction false} LookUpNotWorse(s: State)
    requires Enabled(s, LookUp)
    ensures NotWorse(s, LookedUp(s))
  {
    hide Credit, Wrap32;
    CreditFrame(s, Wrap32(s.phase.f.size));
  }

  lemma {:induction false} UpdateWindowNotWorse(s: State, k: nat, n: nat)
    requires Enabled(s, UpdateWindow(k, n))
    ensures NotWorse(s, WindowUpdated(s, k, n))
  {
    hide Credit, CreditStream;
    var t := s.(streams := s.streams[k := s.streams[k].(reading := s.streams[k].reading - n)]);
    CreditFrame(t, n);
    CreditStreamFrame(Credit(t, n), k, n);
  }

  lemma {:induction false} ReleaseNotWorse(s: State, k: nat)
    requires Enabled(s, Release(k))
    ensures NotWorse(s, Released(s, k))
  {
    hide Credit;
    var (fc, q) := s.streams[k].fc.Reset();
    CreditFrame(s.(streams := s.streams[k := s.streams[k].(fc := fc, done := true)]), q);
  }

  /** Only sending, taking in data and opening a stream change more than that. */
  lemma {:induction false} StepNotWorse(s: State, step: Step)
    requires Enabled(s, step) && !step.Send? && !step.Take? && !step.Dispatch? && !step.Open?
    ensures NotWorse(s, After(s, step))
  {
    hide Dispatched, LookedUp, WindowUpdated, Released;
    match step
    case LookUp => LookUpNotWorse(s);
    case UpdateWindow(k, n) => UpdateWindowNotWorse(s, k, n);
    case Release(k) => ReleaseNotWorse(s, k);
    case _ =>
  }

  lemma {:induction false} StepTrusts(s: State, step: Step)
    requires Inv(s) && Trusting(s) && Enabled(s, step) && Respectful(s, step)
    ensures Inv(After(s, step)) && Trusting(After(s, step))
  {
    if step.Dispatch? {
      DispatchFits(s);
    }
    hide Inv, Dispatched, NotWorse, LookedUp, WindowUpdated, Released, Flow.OnData;
    StepKeeps(s, step);
    match step
    case Send(_) =>
    case Take => TakeAccepts(s);
    case Open =>
    case Dispatch =>
      DispatchNotWorse(s);
      StaysTrusting(s, Dispatched(s));
    case _ =>
      StepNotWorse(s, step);
      StaysTrusting(s, After(s, step));
  }

  predicate AllRespectful(s: State, steps: seq<Step>)
    requires Legal(s, steps)
    decreases |steps|
  {
    steps == [] || (Respectful(s, steps[0]) && AllRespectful(After(s, steps[0]), steps[1..]))
  }

  /** A peer that stays within its windows is never rejected: over every run neither the
      connection nor any stream is ended by flow control. */
  lemma {:induction false} NeverRejected(s: State, steps: seq<Step>)
    requires Inv(s) && Trusting(s) && Legal(s, steps) && AllRespectful(s, steps)
    ensures Inv(Final(s, steps)) && Trusting(Final(s, steps))
    decreases |steps|
  {
    hide Inv, Trusting, After, Enabled, Respectful;
    if steps != [] {
      StepTrusts(s, steps[0]);
      NeverRejected(After(s, steps[0]), steps[1..]);
    }
  }

  // ------------------------------------------------------------- no starvation

  /** Nothing is in flight, every open stream is read out, every closed one released. */
  ghost predicate Quiet(s: State) {
    && s.phase.Idle? && s.wire == [] && s.updates == []
    && forall k :: 0 <= k < |s.streams| ==>
         var x := s.streams[k];
         if x.done then x.fc.pendingData == 0 else x.buffered == 0 && x.reading == 0
  }

  lemma {:induction false} NonePending(ss: seq<Stream>)
    requires forall k :: 0 <= k < |ss| ==> ss[k].fc.pendingData == 0
    ensures Pending(ss) == 0
  {
    if ss != [] {
      NonePending(ss[..|ss| - 1]);
    }
  }

  /** Then the peer has more than three quarters of every window, so it can always send. */
  lemma {:induction false} NotStarved(s: State)
    requires Inv(s) && Quiet(s)
    ensures 1048560 - 262140 < s.credit <= 1048560
    ensures forall k :: 0 <= k < |s.streams| && s.streams[k].active && !s.streams[k].done ==>
              65535 - 16383 < s.streams[k].credit <= 65535
  {
    forall k | 0 <= k < |s.streams|
      ensures s.streams[k].fc.pendingData == 0
      ensures s.streams[k].active && !s.streams[k].done ==> 65535 - 16383 < s.streams[k].credit <= 65535
    {
      assert StreamLaw(s, k);
    }
    NonePending(s.streams);
  }

  // ------------------------------------------------------- closed streams owe nothing

  predicate Settled(s: State, k: nat) {
    Known(s, k) && var x := s.streams[k]; !x.active && x.done && x.fc.pendingData == 0
  }

  lemma {:induction false} ReleaseSettles(s: State, k: nat)
    requires Inv(s) && Enabled(s, Release(k))
    ensures Settled(Released(s, k), k)
    ensures Released(s, k).fc.pendingData == s.fc.pendingData - s.streams[k].fc.pendingData
  {
    var (fc, q) := s.streams[k].fc.Reset();
    PendingSet(s.streams, k, s.streams[k]);
    CreditLaw(s.(streams := s.streams[k := s.streams[k].(fc := fc, done := true)]), q);
  }

  lemma {:induction false} StepStaysSettled(s: State, step: Step, k: nat)
    requires Settled(s, k) && Enabled(s, step)
    ensures Settled(After(s, step), k)
  {
  }

  /** Once CloseStream has released a stream, no later step counts data against it again. */
  lemma {:induction false} StaysSettled(s: State, steps: seq<Step>, k: nat)
    requires Settled(s, k) && Legal(s, steps)
    ensures Settled(Final(s, steps), k)
    decreases |steps|
  {
    hide After, Enabled, Settled;
    if steps != [] {
      StepStaysSettled(s, steps[0], k);
      StaysSettled(After(s, steps[0]), steps[1..], k);
    }
  }
}
