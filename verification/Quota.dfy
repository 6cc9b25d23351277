/** quotaPool of grpc/transport/control.go: an amount offered whole on a one-slot channel. */
module Quota {
  import opened Words

  /** The channel c as an optional value, and the field quota. */
  datatype Pool = Pool(slot: Option<int>, quota: int) {
    function Offered(): int {
      if slot.Some? then slot.value else 0
    }

    function Balance(): int {
      Offered() + quota
    }

    /** Either a positive amount is on offer and nothing else is kept, or nothing is on
        offer and the rest is zero or a debt. */
    predicate Settled() {
      if slot.Some? then slot.value > 0 && quota == 0 else quota <= 0
    }
  }

  /** newQuotaPool. */
  function New(q: int): Pool {
    if q > 0 then Pool(Some(q), 0) else Pool(None, q)
  }

  /** A settled pool is determined by its balance, and a receiver gets a positive balance
      whole or, when there is none, nothing. */
  lemma {:induction false} SettledIsNew(p: Pool)
    ensures p.Settled() <==> p == New(p.Balance())
    ensures p.Settled() ==> (p.slot.Some? <==> p.Balance() > 0)
    ensures p.Settled() && p.slot.Some? ==> p.slot.value == p.Balance()
  {
    if p.slot.Some? && p.quota == 0 {
      assert p == Pool(Some(p.slot.value), 0);
    }
  }

  // ------------------------------------------- interleavings of add and acquire

  /** The pool with its mutex, and what has gone in and out. `locked`: some add has drained
      the slot and not yet refilled it. A receive takes no mutex. */
  datatype State = State(pool: Pool, locked: bool, started: int, added: int, acquired: int)

  datatype Step = Drain(v: int) | Refill | Acquire

  /** The first half of add: take back what is on offer and count v in. */
  function Drained(p: Pool, v: int): Pool {
    Pool(None, p.quota + p.Offered() + v)
  }

  /** The second half: put a positive amount on offer, if the slot is free. */
  function Refilled(p: Pool): Pool {
    if p.quota <= 0 then p
    else if p.slot.None? then Pool(Some(p.quota), 0)
    else p
  }

  predicate Enabled(s: State, step: Step) {
    match step
    case Drain(_) => !s.locked
    case Refill => s.locked
    case Acquire => s.pool.slot.Some?
  }

  function After(s: State, step: Step): State
    requires Enabled(s, step)
  {
    match step
    case Drain(v) => s.(pool := Drained(s.pool, v), locked := true, added := s.added + v)
    case Refill => s.(pool := Refilled(s.pool), locked := false)
    case Acquire => s.(pool := s.pool.(slot := None), acquired := s.acquired + s.pool.slot.value)
  }

  predicate Legal(s: State, steps: seq<Step>)
    decreases |steps|
  {
    steps == [] || (Enabled(s, steps[0]) && Legal(After(s, steps[0]), steps[1..]))
  }

  function Final(s: State, steps: seq<Step>): State
    requires Legal(s, steps)
    decreases |steps|
  {
    if steps == [] then s else Final(After(s, steps[0]), steps[1..])
  }

  function Init(q: int): State {
    State(New(q), false, q, 0, 0)
  }

  predicate Inv(s: State) {
    && s.pool.Balance() == s.started + s.added - s.acquired
    && (if s.locked then s.pool.slot.None? else s.pool.Settled())
  }

  /** Over every interleaving nothing is lost or made, the amount on offer is the whole
      positive balance whenever no add is under way, and so the `default` of add's second
      select is never taken. */
  lemma {:induction false} PoolLaw(s: State, steps: seq<Step>)
    requires Inv(s) && Legal(s, steps)
    ensures Inv(Final(s, steps))
    ensures var t := Final(s, steps);
            && (t.locked ==> t.pool.slot.None?)
            && (!t.locked ==> t.pool == New(t.started + t.added - t.acquired))
    decreases |steps|
  {
    if steps == [] {
      SettledIsNew(s.pool);
    } else {
      PoolLaw(After(s, steps[0]), steps[1..]);
    }
  }

  /** What the calls of add were given. */
  function Given(steps: seq<Step>): int
    decreases |steps|
  {
    if steps == [] then 0 else Given(steps[1..]) + match steps[0] case Drain(v) => v case _ => 0
  }

  /** What receives took out of the pool. */
  function Received(s: State, steps: seq<Step>): int
    requires Legal(s, steps)
    decreases |steps|
  {
    if steps == [] then 0
    else
      Received(After(s, steps[0]), steps[1..])
      + if steps[0].Acquire? then s.pool.slot.value else 0
  }

  /** What is in the pool at the end: what was there, and what the steps put in and took out. */
  lemma {:induction false} BalanceFromSteps(s: State, steps: seq<Step>)
    requires Inv(s) && Legal(s, steps)
    ensures Final(s, steps).pool.Balance() == s.pool.Balance() + Given(steps) - Received(s, steps)
    decreases |steps|
  {
    if steps != [] {
      StepBalance(s, steps[0]);
      hide After, Enabled, Inv;
      BalanceFromSteps(After(s, steps[0]), steps[1..]);
    }
  }

  lemma {:induction false} StepBalance(s: State, step: Step)
    requires Inv(s) && Enabled(s, step)
    ensures Inv(After(s, step))
    ensures After(s, step).pool.Balance() ==
      s.pool.Balance() + match step case Drain(v) => v case Refill => 0 case Acquire => -s.pool.slot.value
  {
  }

  /** What a receiver is given: never zero or less, and all of what the pool was started with
      and given, less what was received before. */
  lemma {:induction false} AcquirePositive(q: int, steps: seq<Step>)
    requires Legal(Init(q), steps)
    ensures var t := Final(Init(q), steps);
            Enabled(t, Acquire) ==>
              var n := t.pool.slot.value;
              n > 0 && n == q + Given(steps) - Received(Init(q), steps) && After(t, Acquire).pool == New(0)
  {
    PoolLaw(Init(q), steps);
    BalanceFromSteps(Init(q), steps);
    SettledIsNew(Final(Init(q), steps).pool);
  }

  // ---------------------------------------------------------------- the class

  class QuotaPool {
    var c: Option<int>
    var quota: int

    function Value(): Pool
      reads this
    {
      Pool(c, quota)
    }

    constructor (q: int)
      ensures Value() == New(q)
    {
      if q > 0 {
        c, quota := Some(q), 0;
      } else {
        c, quota := None, q;
      }
    }

    /** add: of a settled pool, the new balance is on offer if it is positive. */
    method Add(v: int)
      requires Value().Settled()
      modifies this
      ensures Value() == New(old(Value()).Balance() + v)
    {
      if c.Some? {
        quota, c := quota + c.value, None;
      }
      quota := quota + v;
      if quota <= 0 {
        return;
      }
      if c.None? {
        c, quota := Some(quota), 0;
      }
    }

    /** A receive on acquire(): None when it would block. */
    method Acquire() returns (n: Option<int>)
      requires Value().Settled()
      modifies this
      ensures n.Some? <==> old(Value()).Balance() > 0
      ensures n.Some? ==> n.value == old(Value()).Balance() && Value() == New(0)
      ensures n.None? ==> Value() == old(Value())
    {
      n := c;
      c := None;
    }
  }
}
