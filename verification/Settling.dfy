/** That inbound flow control never starves the peer for good: from every state it can reach,
    the reader, the application and the controller get to one in which the peer may send again
    (grpc/transport/http2_client.go, control.go). And what the state holds, from the steps alone. */
module Settling {
  import opened Words
  import opened InFlows
  import opened Frames
  import opened Inbound

  // --------------------------------------------------- the state, from the steps alone

  lemma {:induction false} LastStep(s: State, steps: seq<Step>)
    requires steps != [] && Legal(s, steps)
    ensures var past, last := steps[..|steps| - 1], steps[|steps| - 1];
      Legal(s, past) && Enabled(Final(s, past), last) && Final(s, steps) == After(Final(s, past), last)
    decreases |steps|
  {
    hide After, Enabled;
    if |steps| > 1 {
      assert steps[1..][..|steps| - 2] == steps[..|steps| - 1][1..];
      LastStep(After(s, steps[0]), steps[1..]);
    }
  }

  /** The frames the peer has sent. */
  function Sends(steps: seq<Step>): seq<Frame> {
    if steps == [] then []
    else Sends(steps[..|steps| - 1]) + match steps[|steps| - 1] case Send(f) => [f] case _ => []
  }

  /** How many steps are of a kind. */
  function Takes(steps: seq<Step>): nat {
    if steps == [] then 0 else Takes(steps[..|steps| - 1]) + if steps[|steps| - 1].Take? then 1 else 0
  }

  function Opens(steps: seq<Step>): nat {
    if steps == [] then 0 else Opens(steps[..|steps| - 1]) + if steps[|steps| - 1].Open? then 1 else 0
  }

  /** What a step adds to the bytes of stream k that Read has returned and updateWindow was not
      given yet. */
  function Used(step: Step, k: nat): int {
    match step
    case Read(j, n) => if j == k then n as int else 0
    case UpdateWindow(j, n) => if j == k then -(n as int) else 0
    case _ => 0
  }

  function InUse(steps: seq<Step>, k: nat): int {
    if steps == [] then 0 else InUse(steps[..|steps| - 1], k) + Used(steps[|steps| - 1], k)
  }

  /** What a step does to the wire and to the k-th stream. */
  lemma {:induction false} StepTells(s: State, step: Step)
    requires Enabled(s, step)
    ensures var t := After(s, step);
      && t.wire == (match step case Send(f) => s.wire + [f] case Take => s.wire[1..] case _ => s.wire)
      && |t.streams| == |s.streams| + (if step.Open? then 1 else 0)
      && (step.Open? ==> t.streams[|s.streams|].active && t.streams[|s.streams|].reading == 0)
  {
    hide Flow.OnRead, Flow.OnData, Wrap32;
  }

  lemma {:induction false} StepTellsStream(s: State, step: Step, k: nat)
    requires Enabled(s, step) && k < |s.streams|
    ensures k < |After(s, step).streams|
    ensures var x, y := s.streams[k], After(s, step).streams[k];
      && (y.active <==> x.active && step != Delete(k))
      && (x.done || step == Finish(k) ==> y.done)
      && y.reading == x.reading + Used(step, k)
  {
    hide Flow.OnRead, Flow.OnData, Wrap32;
  }

  /** The k-th stream, opened or not. */
  predicate StreamFromSteps(s: State, steps: seq<Step>, k: nat) {
    if k < |s.streams| then
      && (s.streams[k].active <==> Delete(k) !in steps) && (Finish(k) in steps ==> s.streams[k].done)
      && s.streams[k].reading == InUse(steps, k)
    else Delete(k) !in steps && Finish(k) !in steps && InUse(steps, k) == 0
  }

  lemma {:induction false} StreamNext(s: State, past: seq<Step>, last: Step, k: nat)
    requires Enabled(s, last) && StreamFromSteps(s, past, k)
    ensures StreamFromSteps(After(s, last), past + [last], k)
  {
    var steps := past + [last];
    assert steps[..|steps| - 1] == past;
    StepTells(s, last);
    LastFits(s, last);
    if k < |s.streams| {
      StepTellsStream(s, last, k);
    }
    hide After, Enabled;
  }

  /** In every run: data is taken in the order it was sent, a stream is active until it is
      deleted and done once it is finished, and what is being read is what Read returned less
      what updateWindow was given. */
  lemma {:induction false} FromSteps(s: State, steps: seq<Step>)
    requires Initial(s) && Legal(s, steps)
    ensures var t := Final(s, steps);
      && Takes(steps) <= |Sends(steps)| && t.wire == Sends(steps)[Takes(steps)..] && |t.streams| == Opens(steps)
      && forall k: nat :: StreamFromSteps(t, steps, k)
    decreases |steps|
  {
    if steps != [] {
      var past, last := steps[..|steps| - 1], steps[|steps| - 1];
      LastStep(s, steps);
      FromSteps(s, past);
      assert steps == past + [last];
      var u := Final(s, past);
      hide Legal, Final, Initial, StreamFromSteps;
      LastFits(u, last);
      StepTells(u, last);
      hide Enabled, After;
      forall k: nat ensures StreamFromSteps(Final(s, steps), steps, k) {
        StreamNext(u, past, last, k);
      }
    }
  }

  lemma {:induction false} LastFits(s: State, step: Step)
    requires Enabled(s, step)
    ensures step.Delete? || step.Finish? || step.Read? || step.UpdateWindow? ==> step.k < |s.streams|
    ensures step.Take? ==> s.wire != []
  {
  }

  // ----------------------------------------------------------- putting runs together

  lemma {:induction false} OneStep(s: State, step: Step)
    requires Enabled(s, step)
    ensures Legal(s, [step]) && Final(s, [step]) == After(s, step)
  {
    assert [step][1..] == [];
  }

  lemma {:induction false} Joined(s: State, xs: seq<Step>, ys: seq<Step>)
    requires Legal(s, xs) && Legal(Final(s, xs), ys)
    ensures Legal(s, xs + ys) && Final(s, xs + ys) == Final(Final(s, xs), ys)
    decreases |xs|
  {
    hide After, Enabled;
    if xs == [] {
      assert xs + ys == ys;
    } else {
      assert (xs + ys)[1..] == xs[1..] + ys;
      Joined(After(s, xs[0]), xs[1..], ys);
    }
  }

  /** The peer sends nothing, and nobody opens or ends a stream. */
  predicate Own(steps: seq<Step>) {
    forall i :: 0 <= i < |steps| ==> !steps[i].Send? && !steps[i].Open? && !steps[i].Finish?
  }

  lemma {:induction false} OwnRespectful(s: State, steps: seq<Step>)
    requires Legal(s, steps) && Own(steps)
    ensures AllRespectful(s, steps)
    decreases |steps|
  {
    hide After, Enabled;
    if steps != [] {
      assert !steps[0].Send?;
      assert Own(steps[1..]);
      OwnRespectful(After(s, steps[0]), steps[1..]);
    }
  }

  // --------------------------------------------------------------- delivering updates

  /** All window updates on their way reach the peer. */
  lemma {:induction false} DeliverAll(s: State) returns (steps: seq<Step>)
    requires s.live && InRange(s.updates, |s.streams|)
    ensures Legal(s, steps) && Own(steps)
    ensures var t := Final(s, steps);
      && t.updates == [] && |t.streams| == |s.streams|
      && t == s.(credit := s.credit + For(s.updates, -1), updates := [], streams := t.streams)
      && forall k :: 0 <= k < |s.streams| ==>
           t.streams[k] == s.streams[k].(credit := s.streams[k].credit + For(s.updates, k))
    decreases |s.updates|
  {
    steps := [];
    if s.updates != [] {
      var t := After(s, Deliver);
      DeliverOne(s);
      OneStep(s, Deliver);
      hide After, Enabled;
      forall k ensures For(s.updates, k) == Share(s.updates[0], k) + For(s.updates[1..], k) {
        Taken(s.updates, k);
      }
      hide For;
      var more := DeliverAll(t);
      Joined(s, [Deliver], more);
      steps := [Deliver] + more;
    }
  }

  lemma {:induction false} DeliverOne(s: State)
    requires s.live && s.updates != [] && InRange(s.updates, |s.streams|)
    ensures Enabled(s, Deliver)
    ensures var t, u := After(s, Deliver), s.updates[0];
      && t.live && t.updates == s.updates[1..] && InRange(t.updates, |t.streams|) && |t.streams| == |s.streams|
      && t == s.(credit := s.credit + Share(u, -1), updates := s.updates[1..], streams := t.streams)
      && forall k :: 0 <= k < |s.streams| ==> t.streams[k] == s.streams[k].(credit := s.streams[k].credit + Share(u, k))
  {
  }

  /** A run of one's own steps that keeps the laws. */
  predicate Leads(s: State, steps: seq<Step>) {
    Legal(s, steps) && Own(steps)
  }

  lemma {:induction false} LeadsOne(s: State, step: Step)
    requires Enabled(s, step) && !step.Send? && !step.Open? && !step.Finish?
    ensures Leads(s, [step]) && Final(s, [step]) == After(s, step)
  {
    OneStep(s, step);
  }

  lemma {:induction false} LeadsOn(s: State, xs: seq<Step>, ys: seq<Step>)
    requires Leads(s, xs) && Leads(Final(s, xs), ys)
    ensures Leads(s, xs + ys) && Final(s, xs + ys) == Final(Final(s, xs), ys)
  {
    hide Final, Legal;
    Joined(s, xs, ys);
  }

  lemma {:induction false} LeadsKeeps(s: State, steps: seq<Step>)
    requires Inv(s) && Trusting(s) && Leads(s, steps)
    ensures Inv(Final(s, steps)) && Trusting(Final(s, steps))
  {
    hide Inv, Trusting, Final, Legal;
    OwnRespectful(s, steps);
    NeverRejected(s, steps);
  }

  // ------------------------------------------------------------------ the reader is through

  predicate Drained(s: State) {
    s.phase.Idle? && s.wire == []
  }

  function NextStep(s: State): Step {
    match s.phase
    case Idle => Take
    case Got(_) => LookUp
    case Looked(_) => Dispatch
    case Writing(_) => Write
    case Ending(_) => End
  }

  function Rank(s: State): nat {
    5 * |s.wire| + match s.phase case Idle => 0 case Ending(_) => 1 case Writing(_) => 2 case Looked(_) => 3 case Got(_) => 4
  }

  lemma {:induction false} ReaderGoesOn(s: State)
    requires Inv(s) && !Drained(s)
    ensures Enabled(s, NextStep(s)) && Rank(After(s, NextStep(s))) < Rank(s)
    ensures |After(s, NextStep(s)).streams| == |s.streams|
    ensures forall k :: 0 <= k < |s.streams| ==> After(s, NextStep(s)).streams[k].active == s.streams[k].active
  {
    hide ConnLaw, StreamLaw, Flow.OnData, Flow.OnRead, Wrap32;
  }

  /** The reader goroutine gets through all the data on its way. */
  lemma {:induction false} ReaderDrains(s: State) returns (steps: seq<Step>)
    requires Inv(s) && Trusting(s)
    ensures Leads(s, steps) && Drained(Final(s, steps)) && |Final(s, steps).streams| == |s.streams|
    ensures forall k :: 0 <= k < |s.streams| ==> Final(s, steps).streams[k].active == s.streams[k].active
    decreases Rank(s)
  {
    steps := [];
    if !Drained(s) {
      var step := NextStep(s);
      ReaderGoesOn(s);
      StepTrusts(s, step);
      LeadsOne(s, step);
      hide Inv, Trusting, After, Enabled, Rank, Leads, Final, Drained;
      var more := ReaderDrains(After(s, step));
      LeadsOn(s, [step], more);
      steps := [step] + more;
    }
  }

  // ------------------------------------------------------ a stream is read out, or released

  /** Nothing of it is pending. */
  predicate QuietStream(x: Stream) {
    if x.done then x.fc.pendingData == 0 else x.buffered == 0 && x.reading == 0
  }

  lemma {:induction false} ReadOut(s: State, k: nat) returns (steps: seq<Step>)
    requires Inv(s) && Drained(s) && k < |s.streams| && !s.streams[k].done
    ensures Leads(s, steps) && Drained(Final(s, steps))
    ensures var t := Final(s, steps);
      |t.streams| == |s.streams| && t.streams == s.streams[k := t.streams[k]] && QuietStream(t.streams[k])
      && !t.streams[k].done && t.streams[k].active == s.streams[k].active
  {
    assert StreamLaw(s, k);
    hide ConnLaw, FramesSane, StreamLaw, Flow.OnRead, Leads, Final;
    var x := s.streams[k];
    var n := x.reading + x.buffered;
    var u := After(s, Read(k, x.buffered));
    LeadsOne(s, Read(k, x.buffered));
    LeadsOne(u, UpdateWindow(k, n));
    LeadsOn(s, [Read(k, x.buffered)], [UpdateWindow(k, n)]);
    steps := [Read(k, x.buffered)] + [UpdateWindow(k, n)];
  }

  lemma {:induction false} ReleaseDone(s: State, k: nat) returns (steps: seq<Step>)
    requires Inv(s) && Drained(s) && k < |s.streams| && s.streams[k].done
    ensures Leads(s, steps) && Drained(Final(s, steps))
    ensures var t := Final(s, steps);
      |t.streams| == |s.streams| && t.streams == s.streams[k := t.streams[k]] && QuietStream(t.streams[k])
      && t.streams[k].done
  {
    hide ConnLaw, FramesSane, StreamLaw, Flow.OnRead, Leads, Final;
    var u := After(s, Delete(k));
    LeadsOne(s, Delete(k));
    LeadsOne(u, Release(k));
    LeadsOn(s, [Delete(k)], [Release(k)]);
    steps := [Delete(k)] + [Release(k)];
  }

  /** Up to the n-th stream, all of them. */
  lemma {:induction false} SettleStreams(s: State, n: nat) returns (steps: seq<Step>)
    requires Inv(s) && Trusting(s) && Drained(s) && n <= |s.streams|
    ensures Leads(s, steps) && Drained(Final(s, steps))
    ensures var t := Final(s, steps);
      && |t.streams| == |s.streams|
      && (forall k :: 0 <= k < n ==> QuietStream(t.streams[k]))
      && forall k :: 0 <= k < |s.streams| ==> s.streams[k].active ==> t.streams[k].active || t.streams[k].done
    decreases n
  {
    hide Inv, Trusting, Drained, Legal, Own, Final, QuietStream;
    if n == 0 {
      steps := [];
      NoSteps(s);
    } else {
      var first := SettleStreams(s, n - 1);
      LeadsKeeps(s, first);
      var u := Final(s, first);
      var more;
      if u.streams[n - 1].done {
        more := ReleaseDone(u, n - 1);
      } else {
        more := ReadOut(u, n - 1);
      }
      LeadsOn(s, first, more);
      steps := first + more;
    }
  }

  lemma {:induction false} NoSteps(s: State)
    ensures Leads(s, []) && Final(s, []) == s
  {
  }

  // -------------------------------------------------------------------- the whole of it

  lemma {:induction false} SaneInRange(s: State)
    requires Inv(s)
    ensures s.live && InRange(s.updates, |s.streams|)
  {
  }

  lemma {:induction false} QuietAtLast(s: State, t: State)
    requires Drained(s) && (forall k :: 0 <= k < |s.streams| ==> QuietStream(s.streams[k]))
    requires t.updates == [] && |t.streams| == |s.streams| && t.phase == s.phase && t.wire == s.wire
    requires forall k :: 0 <= k < |s.streams| ==> t.streams[k] == s.streams[k].(credit := t.streams[k].credit)
    ensures Quiet(t)
  {
  }

  /** From every state that a peer within its windows can bring about, the client's own
      goroutines get to one in which everything is read, released and delivered, and the peer
      may send more than three quarters of every window. No stream is given up for it. */
  lemma {:induction false} CanSettle(s: State) returns (steps: seq<Step>)
    requires Inv(s) && Trusting(s)
    ensures Legal(s, steps) && Own(steps)
    ensures var t := Final(s, steps);
      && Inv(t) && Quiet(t) && 1048560 - 262140 < t.credit <= 1048560 && |t.streams| == |s.streams|
      && forall k :: 0 <= k < |t.streams| && s.streams[k].active && !t.streams[k].done ==>
           t.streams[k].active && 65535 - 16383 < t.streams[k].credit <= 65535
  {
    hide Inv, Trusting, Final, Quiet, Drained, QuietStream;
    var a := ReaderDrains(s);
    LeadsKeeps(s, a);
    var s1 := Final(s, a);
    var b := SettleStreams(s1, |s1.streams|);
    LeadsKeeps(s1, b);
    LeadsOn(s, a, b);
    var s2 := Final(s1, b);
    SaneInRange(s2);
    var c := DeliverAll(s2);
    LeadsKeeps(s2, c);
    LeadsOn(s, a + b, c);
    steps := a + b + c;
    QuietAtLast(s2, Final(s2, c));
    NotStarved(Final(s2, c));
  }
}
