/** State, shutdown and stream admission of http2Client (grpc/transport/http2_client.go): any
    interleaving of NewStream, CloseStream, Close, GracefulClose, notifyError and the
    controller. The stream quota pool is its balance (module Quota). */
module Lifecycle {
  import opened Words

  datatype TransportState = Reachable | Unreachable | Closing | Draining

  /** Where a NewStream call is. */
  datatype Call =
    | Waiting            // for stream quota
    | Got(sq: nat)       // received the whole balance
    | HasOne             // kept one
    | Refunding          // about to give the one back
    | Ended

  /** `errorCloses`, `shutdownCloses`: how often close() was called on errorChan and
      shutdownChan. `pendingClose`: calls that are about to call Close. `shutting`: Close calls
      between releasing the mutex and close(shutdownChan). `releasing`: CloseStream calls
      between deleting the stream and giving its quota back. `resets`: resetStream items in the
      control buffer. `adjusting`: applySettings' difference not yet added to the pool.
      `extra`: CloseStream calls for a stream that was not active. */
  datatype State = State(
    state: TransportState, active: set<nat>, cleared: bool, nextID: nat,
    errorCloses: nat, shutdownCloses: nat, pendingClose: nat, shutting: nat, cleaning: nat,
    maxStreams: int, quota: int, calls: seq<Call>, releasing: nat, resets: nat, adjusting: int, extra: nat)

  datatype Step =
    | Close | EnterClose | Shut | Clean | GracefulClose | NotifyError
    | CloseStream(id: nat) | Release(rst: bool) | Reset
    | NewStream | Acquire(c: nat) | GiveBack(c: nat) | Cancel(c: nat, closing: bool) | Create(c: nat) | Refund(c: nat)
    | Settings(val: uint32) | Adjust

  predicate Initial(s: State) {
    && s.state == Reachable && s.active == {} && !s.cleared && s.nextID == 1
    && s.errorCloses == 0 && s.shutdownCloses == 0
    && s.pendingClose == 0 && s.shutting == 0 && s.cleaning == 0
    && s.maxStreams == 100 && s.quota == 100 && s.calls == []
    && s.releasing == 0 && s.resets == 0 && s.adjusting == 0 && s.extra == 0
  }

  predicate Is(s: State, c: nat, call: Call) {
    c < |s.calls| && s.calls[c] == call
  }

  predicate Enabled(s: State, step: Step) {
    match step
    case EnterClose => s.pendingClose > 0
    case Shut => s.shutting > 0
    case Clean => s.cleaning > 0
    case Release(_) => s.releasing > 0
    case Reset => s.resets > 0
    case Acquire(c) => Is(s, c, Waiting) && s.quota > 0
    case GiveBack(c) => c < |s.calls| && s.calls[c].Got? && s.calls[c].sq > 0
    case Cancel(c, closing) => (Is(s, c, Waiting) || Is(s, c, HasOne)) && (closing ==> s.shutdownCloses > 0)
    case Create(c) => Is(s, c, HasOne)
    case Refund(c) => Is(s, c, Refunding)
    case _ => true
  }

  /** The first block of Close. */
  function Closed(s: State): State {
    if s.state == Closing then s
    else
      var errs := if s.state == Reachable || s.state == Draining then s.errorCloses + 1 else s.errorCloses;
      s.(state := Closing, errorCloses := errs, shutting := s.shutting + 1)
  }

  function GracefullyClosed(s: State): State {
    match s.state
    case Unreachable => s.(pendingClose := s.pendingClose + 1)
    case Closing => s
    case Draining => s
    case Reachable =>
      s.(state := Draining, pendingClose := if s.active == {} then s.pendingClose + 1 else s.pendingClose)
  }

  function Notified(s: State): State {
    if s.state == Draining then s.(pendingClose := s.pendingClose + 1)
    else if s.state == Reachable then s.(state := Unreachable, errorCloses := s.errorCloses + 1)
    else s
  }

  /** The first block of CloseStream. */
  function StreamClosed(s: State, id: nat): State {
    if s.cleared then s
    else
      var t := s.(active := s.active - {id});
      if t.state == Draining && t.active == {} then t.(pendingClose := t.pendingClose + 1)
      else t.(releasing := t.releasing + 1, extra := if id in s.active then t.extra else t.extra + 1)
  }

  function SetCall(s: State, c: nat, call: Call): State
    requires c < |s.calls|
  {
    s.(calls := s.calls[c := call])
  }

  function NewCall(s: State): Call {
    if s.cleared || s.state != Reachable then Ended else Waiting
  }

  /** The second block of NewStream. */
  function Created(s: State, c: nat): State
    requires c < |s.calls|
  {
    match s.state
    case Draining => SetCall(s, c, Refunding)
    case Reachable => SetCall(s, c, Ended).(active := s.active + {s.nextID}, nextID := s.nextID + 2)
    case _ => SetCall(s, c, Ended)
  }

  function Limit(val: uint32): int {
    if val > 0x7FFF_FFFF then 0x7FFF_FFFF else val
  }

  function After(s: State, step: Step): State
    requires Enabled(s, step)
  {
    match step
    case Close => Closed(s)
    case EnterClose => Closed(s.(pendingClose := s.pendingClose - 1))
    case Shut => s.(shutting := s.shutting - 1, shutdownCloses := s.shutdownCloses + 1, cleaning := s.cleaning + 1)
    case Clean => s.(cleaning := s.cleaning - 1, active := {}, cleared := true)
    case GracefulClose => GracefullyClosed(s)
    case NotifyError => Notified(s)
    case CloseStream(id) => StreamClosed(s, id)
    case Release(rst) =>
      var t := s.(releasing := s.releasing - 1);
      if rst then t.(resets := t.resets + 1) else t.(quota := t.quota + 1)
    case Reset => s.(resets := s.resets - 1, quota := s.quota + 1)
    case NewStream => s.(calls := s.calls + [NewCall(s)])
    case Acquire(c) => SetCall(s, c, Got(s.quota)).(quota := 0)
    case GiveBack(c) => SetCall(s, c, HasOne).(quota := s.quota + s.calls[c].sq - 1)
    case Cancel(c, closing) =>
      // a context error: the one is given back; the transport shutting down: it is not
      SetCall(s, c, if s.calls[c] == Waiting || closing then Ended else Refunding)
    case Create(c) => Created(s, c)
    case Refund(c) => SetCall(s, c, Ended).(quota := s.quota + 1)
    case Settings(val) =>
      s.(maxStreams := Limit(val), adjusting := s.adjusting + Limit(val) - s.maxStreams)
    case Adjust => s.(quota := s.quota + s.adjusting, adjusting := 0)
  }

  // -------------------------------------------------------------- lifecycle

  predicate LifeInv(s: State) {
    && s.errorCloses == (if s.state == Unreachable || s.state == Closing then 1 else 0)
    && s.shutdownCloses + s.shutting == (if s.state == Closing then 1 else 0)
    && (s.cleared ==> s.state == Closing && s.shutdownCloses == 1)
    && (s.cleaning > 0 ==> s.state == Closing && s.shutdownCloses == 1)
    && (s.state == Draining && s.active == {} ==> s.pendingClose > 0)
    && forall id :: id in s.active ==> id < s.nextID
  }

  lemma {:induction false} StepLives(s: State, step: Step)
    requires LifeInv(s) && Enabled(s, step)
    ensures LifeInv(After(s, step))
    ensures s.state == Closing ==> After(s, step).state == Closing
    ensures s.state != Reachable ==> After(s, step).state != Reachable
    ensures s.state == Draining ==> After(s, step).state == Draining || After(s, step).state == Closing
  {
    match step
    case Close => assert LifeInv(Closed(s));
    case CloseStream(_) => assert LifeInv(StreamClosed(s, step.id));
    case Create(c) => assert LifeInv(Created(s, c));
    case _ =>
  }

  predicate Legal(s: State, steps: seq<Step>)
    decreases |steps|
  {
    steps == [] || (Enabled(s, steps[0]) && Legal(After(s, steps[0]), steps[1..]))
  }

  function Final(s: State, steps: seq<Step>): State
    requires Legal(s, steps)
    decreases |steps|
  {
    if steps == [] then s else Final(After(s, steps[0]), steps[1..])
  }

  lemma {:induction false} RunLives(s: State, steps: seq<Step>)
    requires LifeInv(s) && Legal(s, steps)
    ensures LifeInv(Final(s, steps))
    ensures s.state == Closing ==> Final(s, steps).state == Closing
    ensures s.state != Reachable ==> Final(s, steps).state != Reachable
    decreases |steps|
  {
    hide LifeInv, After, Enabled;
    if steps != [] {
      StepLives(s, steps[0]);
      RunLives(After(s, steps[0]), steps[1..]);
    }
  }

  /** Over every run: errorChan has been closed exactly when the state is unreachable or
      closing, neither channel is closed twice, and shutdownChan exactly when closing, but for
      the gap in Close after the mutex is released. */
  lemma {:induction false} Lifecycle(s: State, steps: seq<Step>)
    requires Initial(s) && Legal(s, steps)
    ensures var t := Final(s, steps);
      && t.errorCloses <= 1 && t.shutdownCloses <= 1
      && (t.errorCloses == 1 <==> t.state == Unreachable || t.state == Closing)
      && (t.shutdownCloses == 1 ==> t.state == Closing)
      && ((t.shutdownCloses == 1 <==> t.state == Closing) <==> t.shutting == 0)
  {
    RunLives(s, steps);
  }

  /** A draining transport without streams is always on its way to closing: some call is about
      to enter Close, and it takes the state there. */
  lemma {:induction false} DrainedIsClosed(s: State, steps: seq<Step>)
    requires Initial(s) && Legal(s, steps)
    ensures var t := Final(s, steps);
      t.state == Draining && t.active == {} ==>
        Enabled(t, EnterClose) && After(t, EnterClose).state == Closing
  {
    RunLives(s, steps);
  }

  // -------------------------------------------------------------- admission

  function Hold(call: Call): nat {
    match call
    case Got(sq) => sq
    case HasOne | Refunding => 1
    case Waiting | Ended => 0
  }

  function Held(calls: seq<Call>): nat {
    if calls == [] then 0 else Held(calls[..|calls| - 1]) + Hold(calls[|calls| - 1])
  }

  lemma {:induction false} HeldSet(calls: seq<Call>, c: nat, call: Call)
    requires c < |calls|
    ensures Held(calls[c := call]) == Held(calls) - Hold(calls[c]) + Hold(call)
  {
    var m := |calls| - 1;
    if c < m {
      HeldSet(calls[..m], c, call);
      assert calls[c := call][..m] == calls[..m][c := call];
    } else {
      assert calls[c := call][..m] == calls[..m];
    }
  }

  lemma {:induction false} HeldAppended(calls: seq<Call>, call: Call)
    ensures Held(calls + [call]) == Held(calls) + Hold(call)
  {
    assert (calls + [call])[..|calls|] == calls;
  }

  /** Streams the peer may still count, and quota on its way to becoming one. */
  function Occupied(s: State): nat {
    Held(s.calls) + |s.active| + s.releasing + s.resets
  }

  /** While the transport is reachable no stream quota is lost or made, but for CloseStream
      calls on streams that were closed before. */
  ghost predicate Admission(s: State) {
    s.state == Reachable ==> s.quota + Occupied(s) + s.adjusting == s.maxStreams + s.extra
  }

  /** What one NewStream call does to the sum. */
  lemma {:induction false} CallAdmits(s: State, t: State, c: nat)
    requires s.state == Reachable && Admission(s) && c < |s.calls| && |t.calls| == |s.calls|
    requires t.calls == s.calls[c := t.calls[c]] && t.releasing == s.releasing && t.resets == s.resets
    requires t.adjusting == s.adjusting && t.maxStreams == s.maxStreams && t.extra == s.extra
    requires t.quota + Hold(t.calls[c]) + |t.active| == s.quota + Hold(s.calls[c]) + |s.active|
    ensures Admission(t)
  {
    hide Held, Hold;
    HeldSet(s.calls, c, t.calls[c]);
  }

  lemma {:induction false} CloseAdmits(s: State, id: nat)
    requires LifeInv(s) && Admission(s)
    ensures Admission(StreamClosed(s, id))
  {
    hide Held;
    if id in s.active {
      assert |s.active - {id}| == |s.active| - 1;
    } else {
      assert s.active - {id} == s.active;
    }
  }

  lemma {:induction false} StepAdmits(s: State, step: Step)
    requires LifeInv(s) && Admission(s) && Enabled(s, step)
    ensures Admission(After(s, step))
  {
    hide Held;
    var t := After(s, step);
    if t.state == Reachable {
      StepLives(s, step);
      match step
      case CloseStream(id) => CloseAdmits(s, id);
      case NewStream => HeldAppended(s.calls, NewCall(s));
      case Acquire(c) => CallAdmits(s, t, c);
      case GiveBack(c) => CallAdmits(s, t, c);
      case Cancel(c, _) => CallAdmits(s, t, c);
      case Create(c) => CallAdmits(s, t, c);
      case Refund(c) => CallAdmits(s, t, c);
      case _ =>
    }
  }

  /** Section 5.1.2 of RFC 7540, over every run and across every raise or cut of the limit:
      quota in the pool, in the hands of NewStream calls, taken by active streams and by
      resets still queued makes up the limit. */
  lemma {:induction false} RunAdmits(s: State, steps: seq<Step>)
    requires LifeInv(s) && Admission(s) && Legal(s, steps)
    ensures Admission(Final(s, steps))
    decreases |steps|
  {
    hide LifeInv, Admission, After, Enabled;
    if steps != [] {
      StepLives(s, steps[0]);
      StepAdmits(s, steps[0]);
      RunAdmits(After(s, steps[0]), steps[1..]);
    }
  }

  /** So a NewStream call can take quota only while the streams in existence or on the way are
      fewer than the limit last applied, plus one for each time a stream was closed again. */
  lemma {:induction false} AdmittedBelowLimit(s: State, steps: seq<Step>, c: nat)
    requires Initial(s) && Legal(s, steps)
    ensures var t := Final(s, steps);
      t.state == Reachable && Enabled(t, Acquire(c)) ==>
        && Occupied(t) < t.maxStreams - t.adjusting + t.extra
        && (ClosedOnce(s, steps) ==> Occupied(t) < t.maxStreams - t.adjusting)
  {
    RunAdmits(s, steps);
    if Final(s, steps).state == Reachable {
      OnceIff(s, steps);
    }
  }

  /** No CloseStream call is for a stream that was closed before (or never opened). */
  predicate ClosedOnce(s: State, steps: seq<Step>)
    requires Legal(s, steps)
    decreases |steps|
  {
    steps == []
    || ((steps[0].CloseStream? ==> steps[0].id in s.active) && ClosedOnce(After(s, steps[0]), steps[1..]))
  }

  lemma {:induction false} ExtraGrows(s: State, steps: seq<Step>)
    requires Legal(s, steps)
    ensures Final(s, steps).extra >= s.extra
    decreases |steps|
  {
    if steps != [] {
      ExtraGrows(After(s, steps[0]), steps[1..]);
    }
  }

  lemma {:induction false} OnceNoExtra(s: State, steps: seq<Step>)
    requires Legal(s, steps) && ClosedOnce(s, steps)
    ensures Final(s, steps).extra == s.extra
    decreases |steps|
  {
    if steps != [] {
      OnceNoExtra(After(s, steps[0]), steps[1..]);
    }
  }

  /** Of a run that ends reachable, the surplus counts nothing else than closing twice. */
  lemma {:induction false} OnceIff(s: State, steps: seq<Step>)
    requires LifeInv(s) && Legal(s, steps) && Final(s, steps).state == Reachable
    ensures ClosedOnce(s, steps) <==> Final(s, steps).extra == s.extra
    decreases |steps|
  {
    RunLives(s, steps);
    if steps != [] {
      var t := After(s, steps[0]);
      StepLives(s, steps[0]);
      RunLives(t, steps[1..]);
      OnceIff(t, steps[1..]);
      ExtraGrows(t, steps[1..]);
    }
  }

  /** The admission law is exact in a reachable transport if and only if every stream was
      closed at most once. */
  lemma {:induction false} AdmissionIff(s: State, steps: seq<Step>)
    requires Initial(s) && Legal(s, steps) && Final(s, steps).state == Reachable
    ensures var t := Final(s, steps);
      && (t.quota + Occupied(t) + t.adjusting == t.maxStreams <==> ClosedOnce(s, steps))
      && (t.extra == 0 <==> ClosedOnce(s, steps))
  {
    RunAdmits(s, steps);
    OnceIff(s, steps);
  }

  // ------------------------------------------------- what closing twice leads to

  lemma {:induction false} Joined(s: State, xs: seq<Step>, ys: seq<Step>)
    requires Legal(s, xs) && Legal(Final(s, xs), ys)
    ensures Legal(s, xs + ys) && Final(s, xs + ys) == Final(Final(s, xs), ys)
    decreases |xs|
  {
    hide After, Enabled;
    if xs == [] {
      assert xs + ys == ys;
    } else {
      assert (xs + ys)[1..] == xs[1..] + ys;
      Joined(After(s, xs[0]), xs[1..], ys);
    }
  }

  lemma {:induction false} OneStep(s: State, step: Step)
    requires Enabled(s, step)
    ensures Legal(s, [step]) && Final(s, [step]) == After(s, step)
  {
    assert [step][1..] == [];
  }

  /** Nothing is under way. */
  predicate AtRest(s: State) {
    && s.state == Reachable && !s.cleared && s.releasing == 0 && s.resets == 0 && s.adjusting == 0
    && Held(s.calls) == 0
  }

  /** A call whose context ends gives the one it holds back, but not to a transport that is
      shutting down. */
  lemma {:induction false} CancelRefunds(s: State, c: nat, closing: bool)
    requires Enabled(s, Cancel(c, closing))
    ensures var t := After(s, Cancel(c, closing));
      && |t.calls| == |s.calls| && t.calls[c] in {Ended, Refunding}
      && (t.calls[c] == Refunding <==> s.calls[c] == HasOne && !closing)
  {
  }

  /** A NewStream call that nobody disturbs: it takes the quota and gives the rest back, */
  lemma {:induction false} Reserves(s: State) returns (steps: seq<Step>)
    requires s.state == Reachable && !s.cleared && s.quota > 0
    ensures Legal(s, steps)
    ensures Final(s, steps) == s.(calls := s.calls + [HasOne], quota := s.quota - 1)
  {
    var c := |s.calls|;
    var s1 := s.(calls := s.calls + [Waiting]);
    assert After(s, NewStream) == s1;
    OneStep(s, NewStream);
    var s2 := s.(calls := s.calls + [Got(s.quota)], quota := 0);
    assert s1.calls[c := Got(s.quota)] == s2.calls;
    OneStep(s1, Acquire(c));
    assert s2.calls[c := HasOne] == s.calls + [HasOne];
    OneStep(s2, GiveBack(c));
    hide After, Enabled, Legal, Final;
    Joined(s, [NewStream], [Acquire(c)]);
    Joined(s, [NewStream] + [Acquire(c)], [GiveBack(c)]);
    steps := [NewStream] + [Acquire(c)] + [GiveBack(c)];
  }

  /** and creates the stream. */
  lemma {:induction false} Opens(s: State) returns (steps: seq<Step>)
    requires AtRest(s) && s.quota > 0
    ensures Legal(s, steps)
    ensures Final(s, steps) == s.(calls := s.calls + [Ended], active := s.active + {s.nextID},
                                  nextID := s.nextID + 2, quota := s.quota - 1)
    ensures AtRest(Final(s, steps))
  {
    var c := |s.calls|;
    var reserve := Reserves(s);
    var s3 := s.(calls := s.calls + [HasOne], quota := s.quota - 1);
    assert s3.calls[c := Ended] == s.calls + [Ended];
    OneStep(s3, Create(c));
    Joined(s, reserve, [Create(c)]);
    steps := reserve + [Create(c)];
    HeldAppended(s.calls, Ended);
  }

  /** A CloseStream call without a reset. */
  lemma {:induction false} Closes(s: State, id: nat) returns (steps: seq<Step>)
    requires AtRest(s)
    ensures Legal(s, steps) && AtRest(Final(s, steps))
    ensures Final(s, steps) == s.(active := s.active - {id}, quota := s.quota + 1,
                                  extra := if id in s.active then s.extra else s.extra + 1)
  {
    OneStep(s, CloseStream(id));
    var s1 := After(s, CloseStream(id));
    OneStep(s1, Release(false));
    hide After, Enabled;
    Joined(s, [CloseStream(id)], [Release(false)]);
    steps := [CloseStream(id)] + [Release(false)];
  }

  lemma {:induction false} CutsToOne(s: State) returns (steps: seq<Step>)
    requires Initial(s)
    ensures Legal(s, steps)
    ensures var t := Final(s, steps);
      AtRest(t) && t.quota == 1 && t.nextID == 1 && t.active == {} && t.maxStreams == 1
  {
    OneStep(s, Settings(1));
    OneStep(After(s, Settings(1)), Adjust);
    Joined(s, [Settings(1)], [Adjust]);
    steps := [Settings(1)] + [Adjust];
  }

  /** A stream that is opened and closed twice leaves quota for one more. */
  lemma {:induction false} OpensClosesCloses(s: State) returns (steps: seq<Step>)
    requires AtRest(s) && s.quota > 0 && s.active == {}
    ensures Legal(s, steps)
    ensures var t := Final(s, steps);
      AtRest(t) && t.quota == s.quota + 1 && t.nextID == s.nextID + 2 && t.active == {} && t.maxStreams == s.maxStreams
  {
    hide After, Enabled, Legal, Final, Held;
    var open := Opens(s);
    var s1 := Final(s, open);
    var close1 := Closes(s1, s.nextID);
    Joined(s, open, close1);
    var s2 := Final(s1, close1);
    var close2 := Closes(s2, s.nextID);
    Joined(s, open + close1, close2);
    steps := open + close1 + close2;
  }

  lemma {:induction false} OpensOpens(s: State) returns (steps: seq<Step>)
    requires AtRest(s) && s.quota == 2 && s.active == {}
    ensures Legal(s, steps)
    ensures var t := Final(s, steps); AtRest(t) && |t.active| == 2 && t.maxStreams == s.maxStreams
  {
    hide After, Enabled, Legal, Final, Held;
    var open1 := Opens(s);
    var s1 := Final(s, open1);
    var open2 := Opens(s1);
    Joined(s, open1, open2);
    steps := open1 + open2;
    assert Final(s, steps).active == {s.nextID, s.nextID + 2};
  }

  /** After a cut of the limit to one and a stream closed twice, two streams are active. */
  lemma {:induction false} ClosingTwiceBreaks(s: State) returns (steps: seq<Step>)
    requires Initial(s)
    ensures Legal(s, steps)
    ensures var t := Final(s, steps); t.state == Reachable && t.adjusting == 0 && |t.active| == 2 && t.maxStreams == 1
  {
    hide After, Enabled, Legal, Final, Held, Initial;
    var cut := CutsToOne(s);
    var s1 := Final(s, cut);
    var twice := OpensClosesCloses(s1);
    Joined(s, cut, twice);
    var s2 := Final(s1, twice);
    var two := OpensOpens(s2);
    Joined(s, cut + twice, two);
    steps := cut + twice + two;
  }
}
