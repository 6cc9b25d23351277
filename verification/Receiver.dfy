/** The receiving half of http2Client as objects: handleData, updateWindow and the release
    in CloseStream, each proved against the machine of module Inbound. */
module Receiver {
  import opened Words
  import opened InFlows
  import opened Frames
  import opened Inbound

  /** What one call can see: the connection's flow, the stream (if it is active) and the
      queued window updates. */
  datatype Local = Local(live: bool, fc: Flow, stream: Option<Stream>, updates: seq<Frame>)

  function Returned(l: Local, n: uint32): Local {
    var (fc, w) := l.fc.OnRead(n);
    l.(fc := fc, updates := Queue(l.updates, -1, w))
  }

  /** handleData run without interruption. */
  function Handled(l: Local, f: Frame): Local
    requires f.size < 0x100_0000
  {
    var (fc, ok) := l.fc.OnData(f.size);
    var m := l.(fc := fc);
    if !ok then m.(live := false)
    else if m.stream.None? || (f.size > 0 && m.stream.value.done) then Returned(m, f.size)
    else
      var x := m.stream.value;
      var (g, good) := if f.size > 0 then x.fc.OnData(f.size) else (x.fc, true);
      if !good then m.(stream := Some(x.(fc := g, done := true, rst := true)))
      else m.(stream := Some(x.(fc := g, buffered := x.buffered + f.size, done := x.done || f.last)))
  }

  function UpdatedWindow(l: Local, k: nat, n: uint32): Local
    requires l.stream.Some?
  {
    var x := l.stream.value;
    if x.done then l
    else
      var m, (g, w) := Returned(l, n), x.fc.OnRead(n);
      m.(stream := Some(x.(fc := g)), updates := Queue(m.updates, k, w))
  }

  function ClosedLocal(l: Local): Local
    requires l.stream.Some?
  {
    var x := l.stream.value;
    var (g, q) := x.fc.Reset();
    var m := l.(stream := Some(x.(fc := g, done := true)));
    if q > 0 then Returned(m, q) else m
  }

  // ------------------------------------------------- these are runs of the machine

  function Project(s: State, k: int): Local {
    Local(s.live, s.fc, if Known(s, k) && s.streams[k].active then Some(s.streams[k]) else None, s.updates)
  }

  /** The machine with one call's effect put in. */
  function Embed(s: State, k: int, l: Local): State {
    var ss := if Known(s, k) && l.stream.Some? then s.streams[k := l.stream.value] else s.streams;
    s.(live := l.live, fc := l.fc, streams := ss, updates := l.updates)
  }

  /** The reader's own steps until it is idle again. */
  function ReaderRuns(s: State): State
    requires s.live && (s.phase.Idle? || s.phase.Got? || Known(s, s.phase.f.to))
    decreases match s.phase case Idle => 0 case Ending(_) => 1 case Writing(_) => 2 case Looked(_) => 3 case Got(_) => 4
  {
    match s.phase
    case Idle => s
    case Got(_) => ReaderRuns(After(s, LookUp))
    case Looked(_) => ReaderRuns(After(s, Dispatch))
    case Writing(_) => ReaderRuns(After(s, Write))
    case Ending(_) => ReaderRuns(After(s, End))
  }

  lemma {:induction false} WriteRuns(s: State)
    requires s.live && s.phase.Writing? && Known(s, s.phase.f.to)
    ensures var f, x := s.phase.f, s.streams[s.phase.f.to];
      ReaderRuns(s) == s.(phase := Idle, streams :=
        s.streams[f.to := x.(buffered := x.buffered + f.size, done := x.done || f.last)])
  {
    var v := After(s, Write);
    if s.phase.f.last {
      assert ReaderRuns(v) == After(v, End);
    }
  }

  lemma {:induction false} DispatchIsStep(s: State)
    requires Enabled(s, Dispatch)
    ensures After(s, Dispatch) == Dispatched(s)
  {
  }

  /** The block under s.mu refuses the frame: the reader is done with it. */
  lemma {:induction false} RefusedRuns(s: State)
    requires s.live && s.phase.Looked? && Known(s, s.phase.f.to) && Dispatched(s).phase.Idle?
    ensures ReaderRuns(s) == Dispatched(s)
  {
    hide Flow.OnData, Flow.OnRead;
    DispatchIsStep(s);
    CreditFrame(s, Wrap32(s.phase.f.size));
  }

  /** It accepts the frame: the bytes are written and END_STREAM is handled. */
  lemma {:induction false} AcceptedRuns(s: State)
    requires s.live && s.phase.Looked? && Known(s, s.phase.f.to) && Dispatched(s).phase.Writing?
    ensures var f, x := s.phase.f, Dispatched(s).streams[s.phase.f.to];
      ReaderRuns(s) == s.(phase := Idle, streams :=
        s.streams[f.to := x.(buffered := x.buffered + f.size, done := x.done || f.last)])
  {
    hide Flow.OnData, Flow.OnRead;
    DispatchIsStep(s);
    var u, f := Dispatched(s), s.phase.f;
    assert ReaderRuns(s) == ReaderRuns(u);
    WriteRuns(u);
    assert ReaderRuns(u).streams == s.streams[f.to := ReaderRuns(u).streams[f.to]];
  }

  /** handleData is the reader's steps Take, LookUp, Dispatch, Write and End in a row. */
  lemma {:induction false} HandledIsRun(s: State)
    requires s.live && s.phase.Idle? && s.wire != []
    requires s.wire[0].to >= -1 && s.wire[0].size < 0x100_0000
    ensures var f, t := s.wire[0], TakenIn(s);
      (if t.live then ReaderRuns(t) else t)
      == Embed(s, f.to, Handled(Project(s, f.to), f)).(wire := s.wire[1..])
  {
    hide Flow.OnData, Flow.OnRead;
    var f, t := s.wire[0], TakenIn(s);
    if t.live {
      var u := After(t, LookUp);
      if u.phase.Looked? {
        if Dispatched(u).phase.Writing? {
          AcceptedRuns(u);
        } else {
          RefusedRuns(u);
        }
        assert s.streams[f.to := s.streams[f.to]] == s.streams;
      }
    }
  }

  /** updateWindow and the release are single steps. */
  lemma {:induction false} UpdatedWindowIsStep(s: State, k: nat, n: uint32)
    requires Enabled(s, UpdateWindow(k, n))
    ensures var x := s.streams[k].(reading := s.streams[k].reading - n);
      After(s, UpdateWindow(k, n))
      == Embed(s, k, UpdatedWindow(Local(true, s.fc, Some(x), s.updates), k, n))
  {
    var x := s.streams[k].(reading := s.streams[k].reading - n);
    var y := x.(fc := x.fc.OnRead(n).0);
    assert s.streams[k := x][k := y] == s.streams[k := y];
  }

  lemma {:induction false} ClosedIsStep(s: State, k: nat)
    requires Enabled(s, Release(k))
    ensures After(s, Release(k)) == Embed(s, k, ClosedLocal(Local(true, s.fc, Some(s.streams[k]), s.updates)))
  {
    assert s.live;
  }

  // -------------------------------------------------------------------- objects

  class ClientStream {
    const id: nat
    const fc: InFlow
    var done: bool
    var rst: bool
    var buffered: nat

    function Value(): Stream
      reads this, fc
    {
      Stream(fc.Value(), true, done, rst, buffered, 0, 0)
    }

    constructor (k: nat)
      ensures fresh(fc) && id == k && Value() == Stream(Flow(65535, 0, 0), true, false, false, 0, 0, 0)
    {
      fc := new InFlow(65535);
      id, done, rst, buffered := k, false, false, 0;
    }
  }

  class ClientTransport {
    const fc: InFlow
    var reachable: bool
    var activeStreams: map<int, ClientStream>
    var controlBuf: seq<Frame>

    constructor ()
      ensures fresh(fc) && fc.Value() == Flow(1048560, 0, 0)
      ensures reachable && activeStreams == map[] && controlBuf == []
    {
      fc := new InFlow(1048560);
      reachable, activeStreams, controlBuf := true, map[], [];
    }

    function Seen(s: ClientStream?): Local
      reads this, fc, if s == null then {} else {s, s.fc}
    {
      Local(reachable, fc.Value(), if s == null then None else Some(s.Value()), controlBuf)
    }

    function Find(id: int): ClientStream?
      reads this
    {
      if id in activeStreams then activeStreams[id] else null
    }

    /** onRead on the connection, queueing the update it asks for. */
    method ReturnToConnection(n: uint32)
      modifies fc, `controlBuf
      ensures (fc.Value(), controlBuf) ==
        (var (g, w) := old(fc.Value()).OnRead(n); (g, Queue(old(controlBuf), -1, w)))
    {
      var w := fc.OnRead(n);
      if w > 0 {
        controlBuf := controlBuf + [Frame(-1, w, false)];
      }
    }

    /** handleData for an unpadded frame. */
    method HandleData(f: Frame)
      requires f.size < 0x100_0000
      requires Find(f.to) != null ==> Find(f.to).fc != fc
      modifies this, fc, if Find(f.to) == null then {} else {Find(f.to), Find(f.to).fc}
      ensures activeStreams == old(activeStreams)
      ensures Seen(Find(f.to)) == Handled(old(Seen(Find(f.to))), f)
    {
      var s := Find(f.to);
      var ok := fc.OnData(f.size);
      if !ok {
        reachable := false;
        return;
      }
      if s == null {
        ReturnToConnection(f.size);
        return;
      }
      if f.size > 0 {
        if s.done {
          ReturnToConnection(f.size);
          return;
        }
        ok := s.fc.OnData(f.size);
        if !ok {
          s.rst, s.done := true, true;
          return;
        }
        s.buffered := s.buffered + f.size;
      }
      if f.last {
        s.done := true;
      }
    }

    /** updateWindow. */
    method UpdateWindow(s: ClientStream, n: uint32)
      requires s.fc != fc
      modifies s.fc, fc, `controlBuf
      ensures Seen(s) == UpdatedWindow(old(Seen(s)), s.id, n)
    {
      if s.done {
        return;
      }
      ReturnToConnection(n);
      var w := s.fc.OnRead(n);
      if w > 0 {
        controlBuf := controlBuf + [Frame(s.id, w, false)];
      }
    }

    /** The flow-control part of CloseStream. */
    method CloseStream(s: ClientStream)
      requires s.fc != fc
      modifies this, fc, s, s.fc
      ensures activeStreams == old(activeStreams) - {s.id}
      ensures Seen(s) == ClosedLocal(old(Seen(s)))
    {
      activeStreams := activeStreams - {s.id};
      var q := s.fc.ResetPendingData();
      if q > 0 {
        ReturnToConnection(q);
      }
      s.done := true;
    }
  }
}
