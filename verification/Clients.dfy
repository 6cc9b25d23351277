/** http2Client's shutdown and admission methods (grpc/transport/http2_client.go), each run
    without interruption. Closing a channel that is closed already would panic, so every
    close() is guarded by a proof that the channel is open. */
module Clients {
  import opened Words
  import Quota
  import opened Lifecycle

  class Channel {
    var closed: bool

    constructor ()
      ensures !closed
    {
      closed := false;
    }

    method CloseChannel()
      requires !closed
      modifies this
      ensures closed
    {
      closed := true;
    }
  }

  // ----------------------------------------- what each method does to the machine

  function CloseRun(s: State): State {
    if s.state == Closing then s
    else Closed(s).(shutting := s.shutting, shutdownCloses := s.shutdownCloses + 1, active := {}, cleared := true)
  }

  function GracefulRun(s: State): State {
    match s.state
    case Unreachable => CloseRun(s)
    case Reachable => if s.active == {} then CloseRun(s.(state := Draining)) else s.(state := Draining)
    case _ => s
  }

  function NotifyRun(s: State): State {
    if s.state == Draining then CloseRun(s) else Notified(s)
  }

  function CloseStreamRun(s: State, id: nat, rst: bool): State {
    if s.cleared then s
    else
      var t := s.(active := s.active - {id});
      if t.state == Draining && t.active == {} then CloseRun(t)
      else
        var u := if id in s.active then t else t.(extra := t.extra + 1);
        if rst then u.(resets := u.resets + 1) else u.(quota := u.quota + 1)
  }

  /** A call that fails, or creates a stream; it leaves its entry behind. */
  function NewStreamRun(s: State, cancelled: bool): State {
    var t := s.(calls := s.calls + [Ended]);
    if s.cleared || s.state != Reachable || s.quota <= 0 || cancelled then t
    else t.(active := s.active + {s.nextID}, nextID := s.nextID + 2, quota := s.quota - 1)
  }

  /** The second block of a NewStream call, which looks at the state again. */
  function SecondLookRun(s: State): State {
    match s.state
    case Draining => s.(quota := s.quota + 1)
    case Reachable => s.(active := s.active + {s.nextID}, nextID := s.nextID + 2)
    case _ => s
  }

  /** Calls between their two blocks, each holding one of the quota. */
  function Holders(n: nat): seq<Call> {
    seq(n, _ => HasOne)
  }

  // -------------------------------------------------------- these are its runs

  /** Closing from a call that is about to, or from outside. */
  lemma {:induction false} CloseIsRun(s: State, step: Step) returns (steps: seq<Step>)
    requires (step.Close? || step.EnterClose?) && Enabled(s, step)
    ensures Legal(s, steps) && steps != [] && steps[0] == step
    ensures Final(s, steps) == CloseRun(if step.Close? then s else s.(pendingClose := s.pendingClose - 1))
  {
    OneStep(s, step);
    var s1 := After(s, step);
    steps := [step];
    if s.state != Closing {
      OneStep(s1, Shut);
      var s2 := After(s1, Shut);
      OneStep(s2, Clean);
      hide After, Enabled;
      Joined(s, [step], [Shut]);
      Joined(s, [step] + [Shut], [Clean]);
      steps := [step] + [Shut] + [Clean];
    }
  }

  /** A step that leads to one more Close, and that Close. */
  lemma {:induction false} ThenCloses(s: State, step: Step) returns (steps: seq<Step>)
    requires Enabled(s, step) && After(s, step).pendingClose == s.pendingClose + 1
    ensures Legal(s, steps)
    ensures Final(s, steps) == CloseRun(After(s, step).(pendingClose := s.pendingClose))
  {
    OneStep(s, step);
    var more := CloseIsRun(After(s, step), EnterClose);
    hide After, Enabled, CloseRun;
    Joined(s, [step], more);
    steps := [step] + more;
  }

  lemma {:induction false} GracefulIsRun(s: State) returns (steps: seq<Step>)
    ensures Legal(s, steps) && Final(s, steps) == GracefulRun(s)
  {
    if s.state == Unreachable || (s.state == Reachable && s.active == {}) {
      steps := ThenCloses(s, GracefulClose);
    } else {
      OneStep(s, GracefulClose);
      steps := [GracefulClose];
    }
  }

  lemma {:induction false} NotifyIsRun(s: State) returns (steps: seq<Step>)
    ensures Legal(s, steps) && Final(s, steps) == NotifyRun(s)
  {
    if s.state == Draining {
      steps := ThenCloses(s, NotifyError);
    } else {
      OneStep(s, NotifyError);
      steps := [NotifyError];
    }
  }

  lemma {:induction false} CloseStreamIsRun(s: State, id: nat, rst: bool) returns (steps: seq<Step>)
    ensures Legal(s, steps) && Final(s, steps) == CloseStreamRun(s, id, rst)
  {
    if !s.cleared && s.state == Draining && s.active - {id} == {} {
      steps := ThenCloses(s, CloseStream(id));
    } else {
      OneStep(s, CloseStream(id));
      steps := [CloseStream(id)];
      if !s.cleared {
        OneStep(After(s, CloseStream(id)), Release(rst));
        Joined(s, steps, [Release(rst)]);
        steps := steps + [Release(rst)];
      }
    }
  }

  lemma {:induction false} NewStreamIsRun(s: State, cancelled: bool) returns (steps: seq<Step>)
    ensures Legal(s, steps) && Final(s, steps) == NewStreamRun(s, cancelled)
  {
    if s.cleared || s.state != Reachable {
      OneStep(s, NewStream);
      steps := [NewStream];
    } else if s.quota <= 0 {
      steps := Blocked(s);
    } else {
      steps := Reserves(s);
      var c, t := |s.calls|, s.(calls := s.calls + [HasOne], quota := s.quota - 1);
      if cancelled {
        var more := GivesUp(t, c);
        assert t.calls[c := Ended] == s.calls + [Ended];
        Joined(s, steps, more);
        steps := steps + more;
      } else {
        OneStep(t, Create(c));
        assert t.calls[c := Ended] == s.calls + [Ended];
        Joined(s, steps, [Create(c)]);
        steps := steps + [Create(c)];
      }
    }
  }

  /** A wait for quota that ends with the context. */
  lemma {:induction false} Blocked(s: State) returns (steps: seq<Step>)
    requires !s.cleared && s.state == Reachable
    ensures Legal(s, steps) && Final(s, steps) == s.(calls := s.calls + [Ended])
  {
    var c, t := |s.calls|, s.(calls := s.calls + [Waiting]);
    OneStep(s, NewStream);
    assert t.calls[c := Ended] == s.calls + [Ended];
    OneStep(t, Cancel(c, false));
    Joined(s, [NewStream], [Cancel(c, false)]);
    steps := [NewStream] + [Cancel(c, false)];
  }

  lemma {:induction false} GivesUp(s: State, c: nat) returns (steps: seq<Step>)
    requires Is(s, c, HasOne)
    ensures Legal(s, steps) && Final(s, steps) == s.(calls := s.calls[c := Ended], quota := s.quota + 1)
  {
    OneStep(s, Cancel(c, false));
    var t := s.(calls := s.calls[c := Refunding]);
    assert t.calls[c := Ended] == s.calls[c := Ended];
    OneStep(t, Refund(c));
    Joined(s, [Cancel(c, false)], [Refund(c)]);
    steps := [Cancel(c, false)] + [Refund(c)];
  }

  /** Whatever has happened to the transport since the first block. */
  lemma {:induction false} SecondLookIsRun(s: State, c: nat) returns (steps: seq<Step>)
    requires Is(s, c, HasOne)
    ensures Legal(s, steps) && Final(s, steps) == SecondLookRun(s).(calls := s.calls[c := Ended])
  {
    OneStep(s, Create(c));
    steps := [Create(c)];
    if s.state == Draining {
      var t := s.(calls := s.calls[c := Refunding]);
      assert t.calls[c := Ended] == s.calls[c := Ended];
      OneStep(t, Refund(c));
      Joined(s, [Create(c)], [Refund(c)]);
      steps := [Create(c)] + [Refund(c)];
    }
  }

  lemma {:induction false} SettingsIsRun(s: State, val: uint32) returns (steps: seq<Step>)
    requires s.adjusting == 0
    ensures Legal(s, steps)
    ensures Final(s, steps) == s.(maxStreams := Limit(val), quota := s.quota + Limit(val) - s.maxStreams)
  {
    OneStep(s, Settings(val));
    OneStep(After(s, Settings(val)), Adjust);
    Joined(s, [Settings(val)], [Adjust]);
    steps := [Settings(val)] + [Adjust];
  }

  // ------------------------------------------------------------------ the object

  datatype Result = Created(id: nat) | ErrConnClosing | ErrStreamDrain | Cancelled

  class Client {
    const errorChan: Channel
    const shutdownChan: Channel
    const streamsQuota: Quota.QuotaPool
    var state: TransportState
    var activeStreams: set<nat>
    var cleared: bool
    var nextID: nat
    var maxStreams: int
    var controlBuf: seq<nat>  // resetStream items
    ghost var extra: nat      // CloseStream calls for streams that were not active
    ghost var held: nat       // NewStream calls between their two blocks

    ghost predicate Valid()
      reads this, errorChan, shutdownChan, streamsQuota
    {
      && errorChan != shutdownChan
      && (errorChan.closed <==> state == Unreachable || state == Closing)
      && (shutdownChan.closed <==> state == Closing)
      && (cleared <==> state == Closing)
      && (state == Draining ==> activeStreams != {})
      && (forall id :: id in activeStreams ==> id < nextID)
      && streamsQuota.Value().Settled()
      && (state == Reachable ==> Surplus() == extra)
    }

    /** The object as a state of the machine in which no other call is under way. */
    ghost function Value(): State
      reads this, errorChan, shutdownChan, streamsQuota
    {
      State(state, activeStreams, cleared, nextID,
            if errorChan.closed then 1 else 0, if shutdownChan.closed then 1 else 0, 0, 0, 0,
            maxStreams, streamsQuota.Value().Balance(), Holders(held), 0, |controlBuf|, 0, extra)
    }

    /** Pool, calls and streams against the limit: 0 while every stream is closed once. */
    ghost function Surplus(): int
      reads this, streamsQuota
    {
      streamsQuota.Value().Balance() + held + |activeStreams| + |controlBuf| - maxStreams
    }

    constructor ()
      ensures Valid() && fresh(errorChan) && fresh(shutdownChan) && fresh(streamsQuota)
      ensures state == Reachable && activeStreams == {} && Surplus() == 0 && Initial(Value())
    {
      errorChan := new Channel();
      shutdownChan := new Channel();
      streamsQuota := new Quota.QuotaPool(100);
      state, activeStreams, cleared, nextID, maxStreams, controlBuf := Reachable, {}, false, 1, 100, [];
      extra, held := 0, 0;
    }

    /** Close. */
    method Close()
      requires errorChan != shutdownChan
      requires errorChan.closed <==> state == Unreachable || state == Closing
      requires (shutdownChan.closed <==> state == Closing) && (cleared <==> state == Closing)
      modifies `state, `activeStreams, `cleared, errorChan, shutdownChan
      ensures state == Closing && errorChan.closed && shutdownChan.closed && cleared
      ensures activeStreams == if old(state) == Closing then old(activeStreams) else {}
      ensures Value() == CloseRun(old(Value()))
    {
      if state == Closing {
        return;
      }
      if state == Reachable || state == Draining {
        errorChan.CloseChannel();
      }
      state := Closing;
      shutdownChan.CloseChannel();
      activeStreams, cleared := {}, true;
    }

    /** GracefulClose: a transport without streams goes all the way to closing. */
    method GracefulClose()
      requires Valid()
      modifies `state, `activeStreams, `cleared, errorChan, shutdownChan
      ensures Valid()
      ensures state == match old(state)
        case Unreachable => Closing
        case Closing => Closing
        case Draining => Draining
        case Reachable => if old(activeStreams) == {} then Closing else Draining
      ensures state == Draining ==> activeStreams == old(activeStreams)
      ensures Value() == GracefulRun(old(Value()))
    {
      match state {
        case Unreachable =>
          Close();
          return;
        case Closing => return;
        case _ =>
      }
      if state == Draining {
        return;
      }
      state := Draining;
      if activeStreams == {} {
        Close();
      }
    }

    /** notifyError. */
    method NotifyError()
      requires Valid()
      modifies `state, `activeStreams, `cleared, errorChan, shutdownChan
      ensures Valid()
      ensures state == match old(state)
        case Reachable => Unreachable
        case Unreachable => Unreachable
        case _ => Closing
      ensures old(state) == Reachable ==> activeStreams == old(activeStreams)
      ensures Value() == NotifyRun(old(Value()))
    {
      if state == Draining {
        Close();
        return;
      }
      if state == Reachable {
        state := Unreachable;
        errorChan.CloseChannel();
      }
    }

    /** CloseStream: `rst` says that RST_STREAM has to be sent. The last stream of a draining
        transport closes it; otherwise the stream's quota goes to the pool, or to the control
        buffer with the reset. */
    method CloseStream(id: nat, rst: bool)
      requires Valid()
      modifies `state, `activeStreams, `cleared, `controlBuf, `extra, errorChan, shutdownChan, streamsQuota
      ensures Valid()
      ensures state == if old(state) == Draining && old(activeStreams) - {id} == {} then Closing else old(state)
      ensures old(state) != Closing ==> activeStreams == old(activeStreams) - {id}
      ensures old(state) == Reachable ==>
        Surplus() == old(Surplus()) + if id in old(activeStreams) then 0 else 1
      ensures Value() == CloseStreamRun(old(Value()), id, rst)
    {
      hide CloseRun, Quota.Pool.Settled, Quota.Pool.Balance;
      if cleared {
        return;
      }
      DeleteStream(id);
      if state == Draining && activeStreams == {} {
        CloseEmptied();
        return;
      }
      CountAndReturn(id, rst, id in old(activeStreams));
    }

    /** Close, once the last stream of a draining transport is gone. */
    method CloseEmptied()
      requires state == Draining && activeStreams == {} && !cleared && !errorChan.closed && !shutdownChan.closed
      requires errorChan != shutdownChan && streamsQuota.Value().Settled()
      modifies `state, `activeStreams, `cleared, errorChan, shutdownChan
      ensures state == Closing && activeStreams == {} && Valid()
      ensures Value() == CloseRun(old(Value()))
    {
      hide Quota.Pool.Settled, Quota.Pool.Balance;
      Close();
    }

    method DeleteStream(id: nat)
      modifies `activeStreams
      ensures activeStreams == old(activeStreams) - {id}
      ensures |activeStreams| == |old(activeStreams)| - if id in old(activeStreams) then 1 else 0
      ensures Value() == old(Value()).(active := old(activeStreams) - {id})
    {
      Remove(activeStreams, id);
      activeStreams := activeStreams - {id};
    }

    method CountAndReturn(id: nat, rst: bool, ghost was: bool)
      requires streamsQuota.Value().Settled()
      modifies `controlBuf, `extra, streamsQuota
      ensures streamsQuota.Value().Settled()
      ensures extra == old(extra) + if was then 0 else 1
      ensures Surplus() == old(Surplus()) + 1
      ensures Value() ==
        var s := old(Value()).(extra := old(extra) + if was then 0 else 1);
        if rst then s.(resets := s.resets + 1) else s.(quota := s.quota + 1)
    {
      extra := if was then extra else extra + 1;
      ReturnQuota(id, rst);
    }

    /** The deferred end of CloseStream. */
    method ReturnQuota(id: nat, rst: bool)
      requires streamsQuota.Value().Settled()
      modifies `controlBuf, streamsQuota
      ensures streamsQuota.Value().Settled()
      ensures streamsQuota.Value().Balance() + |controlBuf|
              == old(streamsQuota.Value().Balance()) + |old(controlBuf)| + 1
      ensures Value() == var s := old(Value()); if rst then s.(resets := s.resets + 1) else s.(quota := s.quota + 1)
    {
      hide Quota.Pool.Settled, Quota.Pool.Balance;
      if !rst {
        AddQuota(1);
        return;
      }
      controlBuf := controlBuf + [id];
    }

    method AddQuota(v: int)
      requires streamsQuota.Value().Settled()
      modifies streamsQuota
      ensures streamsQuota.Value().Settled()
      ensures streamsQuota.Value().Balance() == old(streamsQuota.Value().Balance()) + v
    {
      Quota.SettledIsNew(streamsQuota.Value());
      streamsQuota.Add(v);
      Quota.SettledIsNew(streamsQuota.Value());
    }

    /** The resetStream case of controller. */
    method HandleReset() returns (id: nat)
      requires Valid() && controlBuf != []
      modifies `controlBuf, streamsQuota
      ensures Valid() && Surplus() == old(Surplus())
      ensures id == old(controlBuf)[0] && controlBuf == old(controlBuf)[1..]
      ensures Value() == After(old(Value()), Reset)
    {
      hide Quota.Pool.Settled, Quota.Pool.Balance;
      id := controlBuf[0];
      controlBuf := controlBuf[1..];
      AddQuota(1);
    }

    /** The stream limit in applySettings. */
    method ApplyMaxStreams(val: uint32)
      requires Valid()
      modifies `maxStreams, streamsQuota
      ensures Valid() && Surplus() == old(Surplus())
      ensures maxStreams == if val <= 0x7FFF_FFFF then val else 0x7FFF_FFFF
      ensures Value() == var s := old(Value()); s.(maxStreams := Limit(val), quota := s.quota + Limit(val) - s.maxStreams)
    {
      hide Quota.Pool.Settled, Quota.Pool.Balance;
      var v := val;
      if v > 0x7FFF_FFFF {
        v := 0x7FFF_FFFF;
      }
      var ms := maxStreams;
      maxStreams := v;
      AddQuota(v - ms);
    }

    /** One of the stream quota, unless there is none or the context is done: then it goes back. */
    method TakeQuota(cancelled: bool) returns (ok: bool)
      requires streamsQuota.Value().Settled()
      modifies streamsQuota
      ensures streamsQuota.Value().Settled()
      ensures ok <==> old(streamsQuota.Value().Balance()) > 0 && !cancelled
      ensures streamsQuota.Value().Balance() == old(streamsQuota.Value().Balance()) - if ok then 1 else 0
    {
      var sq := streamsQuota.Acquire();
      if sq.None? {
        return false;
      }
      if sq.value > 1 {
        AddQuota(sq.value - 1);
      }
      if cancelled {
        AddQuota(1);
      }
      ok := !cancelled;
    }

    /** The first block of NewStream and its two waits; None goes on to the second. `cancelled`:
        the context is done by the time the write privilege is awaited. A wait for quota with
        none to be had ends as cancelled. */
    method FirstLook(cancelled: bool) returns (r: Option<Result>)
      requires Valid()
      modifies `held, streamsQuota
      ensures Valid() && Surplus() == old(Surplus())
      ensures r.None? <==> state == Reachable && !cancelled && old(streamsQuota.Value().Balance()) > 0
      ensures r.Some? ==> held == old(held) && r.value == match state
        case Draining => ErrStreamDrain
        case Reachable => Cancelled
        case _ => ErrConnClosing
      ensures r.None? ==> held == old(held) + 1 && |activeStreams| + |controlBuf| < maxStreams + Surplus()
      ensures Value() == old(Value()).(quota := old(Value()).quota - if r.None? then 1 else 0, calls := Holders(held))
    {
      if cleared {
        return Some(ErrConnClosing);
      }
      if state == Draining {
        return Some(ErrStreamDrain);
      }
      if state != Reachable {
        return Some(ErrConnClosing);
      }
      hide Quota.Pool.Settled, Quota.Pool.Balance, Holders;
      var ok := TakeQuota(cancelled);
      if !ok {
        return Some(Cancelled);
      }
      held := held + 1;
      r := None;
    }

    /** The second block of NewStream, whatever other calls have done since the first: a
        draining transport gets its quota back. */
    method SecondLook() returns (r: Result)
      requires Valid() && held > 0
      modifies `activeStreams, `nextID, `held, streamsQuota
      ensures Valid() && held == old(held) - 1
      ensures r == match state
        case Draining => ErrStreamDrain
        case Reachable => Created(old(nextID))
        case _ => ErrConnClosing
      ensures r.Created? ==> r.id !in old(activeStreams) && activeStreams == old(activeStreams) + {r.id}
      ensures !r.Created? ==> activeStreams == old(activeStreams)
      ensures state == Reachable || state == Draining ==> Surplus() == old(Surplus())
      ensures Value() == SecondLookRun(old(Value())).(calls := Holders(held))
    {
      hide Quota.Pool.Settled, Quota.Pool.Balance, Holders;
      held := held - 1;
      if state == Draining {
        AddQuota(1);
        return ErrStreamDrain;
      }
      if state != Reachable {
        return ErrConnClosing;
      }
      r := Created(nextID);
      activeStreams := activeStreams + {nextID};
      nextID := nextID + 2;
    }

    /** The admission part of NewStream, when no other call comes in between. */
    method NewStream(cancelled: bool) returns (r: Result)
      requires Valid()
      modifies `activeStreams, `nextID, `held, streamsQuota
      ensures Valid() && Surplus() == old(Surplus()) && held == old(held)
      ensures r.Created? <==>
        old(state) == Reachable && !cancelled && old(streamsQuota.Value().Balance()) > 0
      ensures r.Created? ==>
        && r.id == old(nextID) && r.id !in old(activeStreams) && activeStreams == old(activeStreams) + {r.id}
        && |old(activeStreams)| + |controlBuf| < maxStreams + Surplus()
      ensures !r.Created? ==> activeStreams == old(activeStreams)
      ensures Value() == NewStreamRun(old(Value()), cancelled).(calls := old(Value()).calls)
      ensures r.ErrStreamDrain? <==> old(state) == Draining
      ensures r.ErrConnClosing? <==> old(state) == Unreachable || old(state) == Closing
    {
      hide Quota.Pool.Settled, Quota.Pool.Balance, Holders;
      var failed := FirstLook(cancelled);
      if failed.Some? {
        return failed.value;
      }
      r := SecondLook();
    }
  }

  lemma {:induction false} Remove(s: set<nat>, id: nat)
    ensures |s - {id}| == if id in s then |s| - 1 else |s|
  {
    if id !in s {
      assert s - {id} == s;
    }
  }
}
