/** recvBuffer and recvBufferReader of grpc/transport/transport.go: an unbounded queue behind a
    one-slot channel, and an io.Reader over the items taken from it. */
module RecvBuffers {
  import opened Words

  datatype Error = EOF | ContextDone | StreamDrain | Other(code: int)

  /** recvMsg: data, or an error without data. */
  datatype Item = Bytes(data: seq<byte>) | Fail(error: Error)

  // ------------------------------------------------------- what a queue stands for

  /** The error an item gives a reader: its own, or EOF from an empty bytes.Reader. */
  function StopOf(i: Item): Option<Error> {
    match i
    case Bytes(d) => if d == [] then Some(EOF) else None
    case Fail(e) => Some(e)
  }

  /** The bytes before the first item that stops the reader. */
  function Text(items: seq<Item>): seq<byte> {
    if items == [] || StopOf(items[0]).Some? then [] else items[0].data + Text(items[1..])
  }

  /** That item's error. */
  function Stop(items: seq<Item>): Option<Error> {
    if items == [] then None
    else if StopOf(items[0]).Some? then StopOf(items[0])
    else Stop(items[1..])
  }

  lemma {:induction false} Split(xs: seq<Item>, ys: seq<Item>)
    ensures Stop(xs).Some? ==> Text(xs + ys) == Text(xs) && Stop(xs + ys) == Stop(xs)
    ensures Stop(xs).None? ==> Text(xs + ys) == Text(xs) + Text(ys) && Stop(xs + ys) == Stop(ys)
  {
    if xs == [] {
      assert xs + ys == ys;
    } else {
      assert (xs + ys)[0] == xs[0] && (xs + ys)[1..] == xs[1..] + ys;
      Split(xs[1..], ys);
    }
  }

  lemma {:induction false} Single(i: Item)
    ensures Stop([i]) == StopOf(i)
    ensures Text([i]) == if StopOf(i).Some? then [] else i.data
  {
    assert [i][1..] == [];
    if StopOf(i).None? {
      assert i.data + [] == i.data;
    }
  }

  function Opt(slot: Option<Item>): seq<Item> {
    match slot
    case None => []
    case Some(i) => [i]
  }

  // ------------------------------------- interleavings of put, receive, load and Read

  /** What the reading goroutine is doing: between Read calls, or with an item received and
      load not yet called, or with the item to be handled. */
  datatype Phase = Idle | Taken(i: Item, n: nat) | Loaded(i: Item, n: nat)

  /** `put`, `received`: the histories. `out`: all bytes Read has returned. */
  datatype State = State(
    slot: Option<Item>, backlog: seq<Item>, put: seq<Item>, received: seq<Item>,
    phase: Phase, last: seq<byte>, err: Option<Error>, cancelled: bool, out: seq<byte>)

  datatype Step =
    | Put(i: Item)
    | ReadLast(n: nat)      // Read with bytes left over from the last item
    | Receive(n: nat)       // Read takes an item
    | Load
    | Handle
    | Cancel(e: Error)      // Read finds its context done or the stream drained

  predicate Initial(s: State) {
    && s.slot.None? && s.backlog == [] && s.put == [] && s.received == []
    && s.phase.Idle? && s.last == [] && s.err.None? && !s.cancelled && s.out == []
  }

  predicate Enabled(s: State, step: Step) {
    match step
    case Put(_) => true
    case ReadLast(n) => s.phase.Idle? && s.err.None? && s.last != []
    case Receive(n) => s.phase.Idle? && s.err.None? && s.last == [] && s.slot.Some?
    case Load => s.phase.Taken?
    case Handle => s.phase.Loaded?
    case Cancel(_) => s.phase.Idle? && s.err.None? && s.last == []
  }

  /** bytes.Reader.Read into n bytes. */
  function Copied(s: State, n: nat): State {
    var k := if n < |s.last| then n else |s.last|;
    s.(out := s.out + s.last[..k], last := s.last[k..])
  }

  function Handled(s: State): State
    requires s.phase.Loaded?
  {
    var i, t := s.phase.i, s.(phase := Idle);
    match i
    case Fail(e) => t.(err := Some(e))
    case Bytes(d) => if d == [] then t.(err := Some(EOF)) else Copied(t.(last := d), s.phase.n)
  }

  function After(s: State, step: Step): State
    requires Enabled(s, step)
  {
    match step
    case Put(i) =>
      if s.backlog == [] && s.slot.None? then s.(slot := Some(i), put := s.put + [i])
      else s.(backlog := s.backlog + [i], put := s.put + [i])
    case ReadLast(n) => Copied(s, n)
    case Receive(n) =>
      s.(slot := None, received := s.received + [s.slot.value], phase := Taken(s.slot.value, n))
    case Load =>
      var t := s.(phase := Loaded(s.phase.i, s.phase.n));
      if s.backlog != [] && s.slot.None? then t.(slot := Some(s.backlog[0]), backlog := s.backlog[1..]) else t
    case Handle => Handled(s)
    case Cancel(e) => s.(err := Some(e), cancelled := true)
  }

  /** The items the reader has dealt with. */
  function Dealt(s: State): seq<Item> {
    if s.phase.Idle? || s.received == [] then s.received else s.received[..|s.received| - 1]
  }

  predicate QueueInv(s: State) {
    && s.received + Opt(s.slot) + s.backlog == s.put
    && (s.backlog != [] ==> s.slot.Some? || s.phase.Taken?)
  }

  predicate ReadInv(s: State) {
    && (!s.phase.Idle? ==>
          s.received != [] && s.received[|s.received| - 1] == s.phase.i && s.err.None? && s.last == [])
    && s.out + s.last == Text(Dealt(s))
    && (s.err.Some? ==> s.last == [])
    && (if s.err.Some? && !s.cancelled then Stop(Dealt(s)) == s.err else Stop(Dealt(s)).None?)
    && (s.cancelled ==> s.err.Some?)
  }

  lemma {:induction false} StepQueues(s: State, step: Step)
    requires QueueInv(s) && Enabled(s, step)
    ensures QueueInv(After(s, step))
  {
  }

  lemma {:induction false} HandleReads(s: State)
    requires ReadInv(s) && s.phase.Loaded?
    ensures ReadInv(Handled(s))
  {
    var t, i, xs := Handled(s), s.phase.i, Dealt(s);
    assert t.received == xs + [i];
    Split(xs, [i]);
    Single(i);
    assert s.out + [] == s.out && s.out + s.last == s.out;
    if StopOf(i).None? {
      CopiedKeeps(s.(phase := Idle, last := i.data), s.phase.n);
    }
  }

  lemma {:induction false} CopiedKeeps(s: State, n: nat)
    ensures Copied(s, n).out + Copied(s, n).last == s.out + s.last
  {
    var k := if n < |s.last| then n else |s.last|;
    assert s.last == s.last[..k] + s.last[k..];
  }

  lemma {:induction false} StepReads(s: State, step: Step)
    requires ReadInv(s) && Enabled(s, step)
    ensures ReadInv(After(s, step))
  {
    hide Text, Stop;
    match step
    case Handle => HandleReads(s);
    case ReadLast(n) => CopiedKeeps(s, n);
    case Receive(n) =>
      assert Dealt(After(s, step)) == s.received;
    case _ =>
  }

  predicate Legal(s: State, steps: seq<Step>)
    decreases |steps|
  {
    steps == [] || (Enabled(s, steps[0]) && Legal(After(s, steps[0]), steps[1..]))
  }

  function Final(s: State, steps: seq<Step>): State
    requires Legal(s, steps)
    decreases |steps|
  {
    if steps == [] then s else Final(After(s, steps[0]), steps[1..])
  }

  lemma {:induction false} RunKeeps(s: State, steps: seq<Step>)
    requires QueueInv(s) && ReadInv(s) && Legal(s, steps)
    ensures QueueInv(Final(s, steps)) && ReadInv(Final(s, steps))
    decreases |steps|
  {
    hide QueueInv, ReadInv, After, Enabled;
    if steps != [] {
      StepQueues(s, steps[0]);
      StepReads(s, steps[0]);
      RunKeeps(After(s, steps[0]), steps[1..]);
    }
  }

  /** Lossless and in order, under any interleaving, and never stuck: as long as something
      was put and not received, the slot is full or a load is due. */
  lemma {:induction false} Fifo(s: State, steps: seq<Step>)
    requires Initial(s) && Legal(s, steps)
    ensures var t := Final(s, steps);
      && t.put == Puts(steps) && |t.received| == Receives(steps)
      && t.received + Opt(t.slot) + t.backlog == t.put
      && (t.received != t.put ==> t.slot.Some? || t.phase.Taken?)
  {
    RunKeeps(s, steps);
    HistoryFromSteps(s, steps);
    var t := Final(s, steps);
    if t.slot.None? && t.backlog == [] {
      assert t.received + [] + [] == t.received;
    }
  }

  lemma {:induction false} InitInv(s: State)
    requires Initial(s)
    ensures QueueInv(s) && ReadInv(s)
  {
  }

  lemma {:induction false} ReadSoFar(t: State)
    requires QueueInv(t) && ReadInv(t)
    ensures t.out <= Text(t.put)
    ensures t.err.Some? && !t.cancelled ==> t.out == Text(t.put) && t.err == Stop(t.put)
    ensures t.err.None? && t.received == t.put && t.phase.Idle? ==> t.out + t.last == Text(t.put)
  {
    hide Text, Stop, QueueInv;
    DealtFirst(t);
    var xs := Dealt(t);
    var rest := t.put[|xs|..];
    assert t.put == xs + rest;
    hide Dealt;
    Split(xs, rest);
    Begins(t.out, t.last, Text(rest));
    if t.phase.Idle? && t.received == t.put {
      assert xs == t.put by {
        AllDealt(t);
      }
    }
  }

  lemma {:induction false} AllDealt(t: State)
    requires t.phase.Idle?
    ensures Dealt(t) == t.received
  {
  }

  lemma {:induction false} Begins(a: seq<byte>, b: seq<byte>, c: seq<byte>)
    ensures a <= a + b && a <= a + b + c && (b == [] ==> a + b == a)
  {
  }

  lemma {:induction false} DealtFirst(t: State)
    requires QueueInv(t)
    ensures Dealt(t) <= t.put
  {
    var xs, rest := t.received, Opt(t.slot) + t.backlog;
    assert t.received + Opt(t.slot) + t.backlog == xs + rest;
  }

  /** The bytes Read has returned are at every moment a prefix of the text put, whatever the
      sizes of the calls; when Read has failed without being cancelled they are all of it, and
      the error is the one that ends it. */
  lemma {:induction false} ReadsText(s: State, steps: seq<Step>)
    requires Initial(s) && Legal(s, steps)
    ensures var t, text := Final(s, steps), Text(Puts(steps));
      && t.out <= text
      && (t.err.Some? && !t.cancelled ==> t.out == text && t.err == Stop(Puts(steps)))
      && (t.err.None? && |t.received| == |Puts(steps)| && t.phase.Idle? ==> t.out + t.last == text)
  {
    hide Legal, Final, After, Enabled, Text, Stop, Puts;
    InitInv(s);
    RunKeeps(s, steps);
    HistoryFromSteps(s, steps);
    var t := Final(s, steps);
    assert [] + Puts(steps) == Puts(steps);
    ReadSoFar(t);
    if |t.received| == |t.put| {
      AllReceived(t.received, Opt(t.slot), t.backlog);
    }
  }

  lemma {:induction false} AllReceived(a: seq<Item>, b: seq<Item>, c: seq<Item>)
    requires |a| == |a + b + c|
    ensures a == a + b + c
  {
  }

  /** The items put and the number of receives, from the steps alone. */
  function Puts(steps: seq<Step>): seq<Item>
    decreases |steps|
  {
    if steps == [] then [] else (match steps[0] case Put(i) => [i] case _ => []) + Puts(steps[1..])
  }

  function Receives(steps: seq<Step>): nat
    decreases |steps|
  {
    if steps == [] then 0 else (if steps[0].Receive? then 1 else 0) + Receives(steps[1..])
  }

  lemma {:induction false} HistoryFromSteps(s: State, steps: seq<Step>)
    requires Legal(s, steps)
    ensures var t := Final(s, steps); t.put == s.put + Puts(steps) && |t.received| == |s.received| + Receives(steps)
    decreases |steps|
  {
    if steps == [] {
      assert s.put + [] == s.put;
    } else {
      var t := After(s, steps[0]);
      StepHistory(s, steps[0]);
      hide After, Enabled;
      HistoryFromSteps(t, steps[1..]);
      var one := match steps[0] case Put(i) => [i] case _ => [];
      assert s.put + one + Puts(steps[1..]) == s.put + (one + Puts(steps[1..]));
    }
  }

  lemma {:induction false} StepHistory(s: State, step: Step)
    requires Enabled(s, step)
    ensures After(s, step).put == s.put + match step case Put(i) => [i] case _ => []
    ensures |After(s, step).received| == |s.received| + if step.Receive? then 1 else 0
  {
    assert s.put + [] == s.put;
  }

  /** An error stays for good. */
  lemma {:induction false} ErrorStays(s: State, steps: seq<Step>)
    requires s.err.Some? && s.phase.Idle? && Legal(s, steps)
    ensures Final(s, steps).err == s.err && Final(s, steps).out == s.out && Final(s, steps).phase.Idle?
    decreases |steps|
  {
    if steps != [] {
      ErrorStays(After(s, steps[0]), steps[1..]);
    }
  }

  // ---------------------------------------- one undisturbed Read as a run of the machine

  datatype Outcome = Block | Got(bytes: seq<byte>) | Failed(error: Error)

  /** What Read does in a state, and what it returns. */
  function ReadOnce(s: State, n: nat, done: Option<Error>): (State, Outcome) {
    var k := if n < |s.last| then n else |s.last|;
    if s.err.Some? then (s, Failed(s.err.value))
    else if s.last != [] then (s.(out := s.out + s.last[..k], last := s.last[k..]), Got(s.last[..k]))
    else if done.Some? then (s.(err := done, cancelled := true), Failed(done.value))
    else if s.slot.None? then (s, Block)
    else
      var i := s.slot.value;
      var t := s.(received := s.received + [i],
                  slot := if s.backlog == [] then None else Some(s.backlog[0]),
                  backlog := if s.backlog == [] then [] else s.backlog[1..]);
      match StopOf(i)
      case Some(e) => (t.(err := Some(e)), Failed(e))
      case None =>
        var j := if n < |i.data| then n else |i.data|;
        (t.(out := s.out + i.data[..j], last := i.data[j..]), Got(i.data[..j]))
  }

  lemma {:induction false} OneStep(s: State, step: Step)
    requires Enabled(s, step)
    ensures Legal(s, [step]) && Final(s, [step]) == After(s, step)
  {
    assert [step][1..] == [];
  }

  lemma {:induction false} ThreeSteps(s: State, a: Step, b: Step, c: Step)
    requires Enabled(s, a) && Enabled(After(s, a), b) && Enabled(After(After(s, a), b), c)
    ensures Legal(s, [a, b, c]) && Final(s, [a, b, c]) == After(After(After(s, a), b), c)
  {
    OneStep(After(After(s, a), b), c);
    hide After, Enabled;
    Before(After(s, a), b, [c]);
    Before(s, a, [b] + [c]);
    assert [a] + ([b] + [c]) == [a, b, c];
  }

  lemma {:induction false} Before(s: State, step: Step, rest: seq<Step>)
    requires Enabled(s, step) && Legal(After(s, step), rest)
    ensures Legal(s, [step] + rest) && Final(s, [step] + rest) == Final(After(s, step), rest)
  {
    assert ([step] + rest)[1..] == rest;
  }

  lemma {:induction false} ReadIsRun(s: State, n: nat, done: Option<Error>) returns (steps: seq<Step>)
    requires s.phase.Idle?
    ensures Legal(s, steps) && Final(s, steps) == ReadOnce(s, n, done).0
  {
    steps := [];
    if s.err.None? {
      if s.last != [] {
        OneStep(s, ReadLast(n));
        steps := [ReadLast(n)];
      } else if done.Some? {
        OneStep(s, Cancel(done.value));
        steps := [Cancel(done.value)];
      } else if s.slot.Some? {
        ThreeSteps(s, Receive(n), Load, Handle);
        steps := [Receive(n), Load, Handle];
        assert s.out + [] == s.out;
      }
    }
  }

  // -------------------------------------------------------------------- objects

  class RecvBuffer {
    var c: Option<Item>
    var backlog: seq<Item>

    /** What has been put and not received. */
    function Contents(): seq<Item>
      reads this
    {
      Opt(c) + backlog
    }

    ghost predicate Valid()
      reads this
    {
      backlog != [] ==> c.Some?
    }

    constructor ()
      ensures Valid() && Contents() == []
    {
      c, backlog := None, [];
    }

    method Put(r: Item)
      requires Valid()
      modifies this
      ensures Valid() && Contents() == old(Contents()) + [r]
    {
      if |backlog| == 0 {
        if c.None? {
          c := Some(r);
          return;
        }
      }
      backlog := backlog + [r];
    }

    /** After a receive, load makes the next item available; otherwise it changes nothing. */
    method Load()
      modifies this
      ensures Valid() && Contents() == old(Contents())
    {
      if |backlog| > 0 {
        if c.None? {
          c := Some(backlog[0]);
          backlog := backlog[1..];
        }
      }
    }

    /** A receive on get(). */
    method Receive() returns (r: Option<Item>)
      requires Valid()
      modifies this
      ensures r.None? <==> old(Contents()) == []
      ensures r.None? ==> Valid() && Contents() == []
      ensures r.Some? ==> [r.value] + Contents() == old(Contents())
    {
      r := c;
      c := None;
    }
  }

  /** What is waiting determines where it is. */
  lemma {:induction false} ByContents(c: Option<Item>, backlog: seq<Item>)
    requires backlog != [] ==> c.Some?
    ensures var xs := Opt(c) + backlog;
      if xs == [] then c.None? && backlog == [] else c == Some(xs[0]) && backlog == xs[1..]
  {
  }

  class RecvBufferReader {
    const recv: RecvBuffer
    var last: seq<byte>
    var err: Option<Error>

    constructor (b: RecvBuffer)
      ensures recv == b && last == [] && err.None?
    {
      recv, last, err := b, [], None;
    }

    /** All bytes a reader will still be given from what is there, and what comes then. */
    function Rest(): seq<byte>
      reads this, recv
    {
      last + Text(recv.Contents())
    }

    /** The reader and its buffer as a state of the machine, without its histories. */
    function Value(): State
      reads this, recv
    {
      State(recv.c, recv.backlog, [], [], Idle, last, err, false, [])
    }

    /** Read into n bytes; `done`: the select takes the case of a done context or a drained stream. */
    method Read(n: nat, done: Option<Error>) returns (r: Outcome)
      requires recv.Valid() && (err.Some? ==> last == [])
      modifies this, recv
      ensures recv.Valid() && (err.Some? ==> last == [])
      ensures old(err).Some? ==>
        r == Failed(old(err).value) && err == old(err) && recv.Contents() == old(recv.Contents())
      ensures old(err).None? ==> match r
        case Got(bytes) =>
          err.None? && bytes + Rest() == old(Rest()) && |bytes| <= n && (n > 0 ==> bytes != [])
        case Failed(e) =>
          && err == Some(e) && old(last) == []
          && (if done.Some? then e == done.value
              else old(Rest()) == [] && Stop(old(recv.Contents())) == Some(e))
        case Block => err.None? && done.None? && old(last) == [] && old(recv.Contents()) == []
      ensures r == ReadOnce(old(Value()), n, done).1
      ensures Value() == ReadOnce(old(Value()), n, done).0.(received := [], out := [], cancelled := false)
    {
      if err.Some? {
        return Failed(err.value);
      }
      if |last| > 0 {
        r := ReadLast(n);
        return;
      }
      if done.Some? {
        err := done;
        return Failed(done.value);
      }
      r := ReadNext(n);
    }

    /** Read with nothing left over. */
    method ReadNext(n: nat) returns (r: Outcome)
      requires recv.Valid() && err.None? && last == []
      modifies this, recv
      ensures recv.Valid() && (err.Some? ==> last == [])
      ensures match r
        case Got(bytes) => err.None? && bytes + Rest() == old(Rest()) && |bytes| <= n && (n > 0 ==> bytes != [])
        case Failed(e) => err == Some(e) && old(Rest()) == [] && Stop(old(recv.Contents())) == Some(e)
        case Block => err.None? && last == [] && old(recv.Contents()) == []
      ensures r == ReadOnce(old(Value()), n, None).1
      ensures Value() == ReadOnce(old(Value()), n, None).0.(received := [], out := [])
    {
      ghost var was := recv.Contents();
      ByContents(recv.c, recv.backlog);
      var i := recv.Receive();
      if i.None? {
        return Block;
      }
      recv.Load();
      ByContents(recv.c, recv.backlog);
      assert was[1..] == recv.Contents();
      Split([i.value], recv.Contents());
      Single(i.value);
      if i.value.Fail? {
        err := Some(i.value.error);
        return Failed(err.value);
      }
      last := i.value.data;
      if |last| == 0 {
        err := Some(EOF);
        return Failed(EOF);
      }
      r := ReadLast(n);
    }

    /** bytes.Reader.Read with bytes left. */
    method ReadLast(n: nat) returns (r: Outcome)
      requires last != []
      modifies `last
      ensures r.Got? && r.bytes + last == old(last) && |r.bytes| == if n < |old(last)| then n else |old(last)|
      ensures r.bytes + Rest() == old(Rest()) && r.bytes == old(last)[..|r.bytes|] && last == old(last)[|r.bytes|..]
    {
      var k := if n < |last| then n else |last|;
      ghost var was, text := last, Text(recv.Contents());
      r := Got(last[..k]);
      last := last[k..];
      assert was == r.bytes + last;
      assert r.bytes + (last + text) == was + text;
    }
  }
}
