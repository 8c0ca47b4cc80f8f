/**
 Reference counts (crypto/refcount_c11.c, crypto/refcount_lock.c): any number of threads, scheduled
 in any way, run the compare-and-swap loops on one shared counter; the locked version is what they
 are to look like.
 */
module RefCount {
  import opened Basics

  /** CRYPTO_REFCOUNT_MAX */
  const MAX := 0xffff_ffff

  type Count = n: int | 0 <= n <= MAX

  datatype Op = Inc | Dec

  /** What a call comes to: done, with the result of a decrement, or abort(). */
  datatype Outcome = Returned(zero: bool) | Aborted

  // ----- The locked version -----

  datatype Locked = Locked(count: Count, outcome: Outcome)

  function Atomic(op: Op, count: Count): Locked {
    match op
    case Inc => Locked(if count < MAX then count + 1 else count, Returned(false))
    case Dec =>
      if count == 0 then Locked(count, Aborted)
      else
        var count' := if count < MAX then count - 1 else count;
        Locked(count', Returned(count' == 0))
  }

  /** The counter under its lock. */
  class LockedCount {
    var count: Count

    constructor (initial: Count)
      ensures count == initial
    {
      count := initial;
    }

    /** CRYPTO_refcount_inc */
    method Increment()
      modifies this
      ensures count == Atomic(Inc, old(count)).count
    {
      if count < MAX {
        count := count + 1;
      }
    }

    /** CRYPTO_refcount_dec_and_test_zero */
    method DecrementAndTestZero() returns (outcome: Outcome)
      modifies this
      ensures Locked(count, outcome) == Atomic(Dec, old(count))
    {
      if count == 0 {
        return Aborted;
      }
      if count < MAX {
        count := count - 1;
      }
      return Returned(count == 0);
    }
  }

  // ----- The lock-free version -----

  /** A thread in a call: about to load the counter, in the loop with the value it expects (and how
      many operations had taken effect when it read that value), or finished. */
  datatype Thread =
    | Idle
    | Loading(op: Op)
    | Looping(op: Op, expected: Count, seen: nat)
    | Finished(op: Op, outcome: Outcome)

  /** An operation that took effect, and what it came to. */
  datatype Effect = Effect(thread: nat, op: Op, outcome: Outcome)

  datatype Machine = Machine(count: Count, threads: seq<Thread>, log: seq<Effect>)

  function Start(initial: Count, threads: nat): Machine {
    Machine(initial, seq(threads, _ => Idle), [])
  }

  datatype Action = Call(op: Op) | Load | CompareExchange(spurious: bool)

  predicate Enabled(m: Machine, t: nat, a: Action) {
    && t < |m.threads|
    && match a
       case Call(_) => m.threads[t].Idle? || m.threads[t].Finished?
       case Load => m.threads[t].Loading?
       case CompareExchange(_) => m.threads[t].Looping? && Passes(m.threads[t].op, m.threads[t].expected)
  }

  /** The value read let the thread stay in its loop. */
  predicate Passes(op: Op, value: Count) {
    value != MAX && (op == Dec ==> value != 0)
  }

  /** The tests at the head of both loops, on a value just read: leave, or try to exchange. */
  function Read(m: Machine, t: nat, op: Op): Machine
    requires t < |m.threads|
  {
    if m.count == MAX then Finish(m, t, op, m.count, Returned(false))
    else if op == Dec && m.count == 0 then Finish(m, t, op, m.count, Aborted)
    else m.(threads := m.threads[t := Looping(op, m.count, |m.log|)])
  }

  function Finish(m: Machine, t: nat, op: Op, count: Count, outcome: Outcome): Machine
    requires t < |m.threads|
  {
    Machine(count, m.threads[t := Finished(op, outcome)], m.log + [Effect(t, op, outcome)])
  }

  /** One step of one thread. A weak compare-exchange may fail for no reason; when it fails it reads
      the counter again. */
  function Step(m: Machine, t: nat, a: Action): Machine
    requires Enabled(m, t, a)
  {
    match a
    case Call(op) => m.(threads := m.threads[t := Loading(op)])
    case Load => Read(m, t, m.threads[t].op)
    case CompareExchange(spurious) =>
      var op, expected := m.threads[t].op, m.threads[t].expected;
      if m.count != expected || spurious then Read(m, t, op)
      else if op == Inc then Finish(m, t, op, expected + 1, Returned(false))
      else
        var newValue: Count := expected - 1;
        Finish(m, t, op, newValue, Returned(newValue == 0))
  }

  datatype Scheduled = Scheduled(thread: nat, action: Action)

  /** Any schedule; a choice that is not possible is skipped. */
  function Run(initial: Count, threads: nat, schedule: seq<Scheduled>): Machine {
    if schedule == [] then Start(initial, threads)
    else
      var m := Run(initial, threads, schedule[..|schedule| - 1]);
      var s := schedule[|schedule| - 1];
      if Enabled(m, s.thread, s.action) then Step(m, s.thread, s.action) else m
  }

  // ----- Refinement -----

  /** The counter after the operations of a log, one at a time under the lock. */
  function Replay(initial: Count, log: seq<Effect>): Count {
    if log == [] then initial
    else Atomic(log[|log| - 1].op, Replay(initial, log[..|log| - 1])).count
  }

  /** Every operation came to what it comes to under the lock. */
  predicate Faithful(initial: Count, log: seq<Effect>) {
    log != [] ==>
      && Faithful(initial, log[..|log| - 1])
      && log[|log| - 1].outcome == Atomic(log[|log| - 1].op, Replay(initial, log[..|log| - 1])).outcome
  }

  ghost predicate ThreadOk(m: Machine, t: nat)
    requires t < |m.threads|
  {
    match m.threads[t]
    case Looping(op, expected, seen) =>
      && Passes(op, expected)
      && seen <= |m.log| && (seen == |m.log| ==> expected == m.count)
    case Finished(op, outcome) => Effect(t, op, outcome) in m.log
    case _ => true
  }

  ghost predicate Inv(initial: Count, m: Machine) {
    && m.count == Replay(initial, m.log)
    && Faithful(initial, m.log)
    && forall t: nat | t < |m.threads| :: ThreadOk(m, t)
  }

  lemma FinishKeeps(initial: Count, m: Machine, t: nat, op: Op, count: Count, outcome: Outcome)
    requires Inv(initial, m) && t < |m.threads|
    requires Locked(count, outcome) == Atomic(op, m.count)
    ensures Inv(initial, Finish(m, t, op, count, outcome))
  {
    var m' := Finish(m, t, op, count, outcome);
    assert m'.log[..|m.log|] == m.log;
    forall u: nat | u < |m'.threads|
      ensures ThreadOk(m', u)
    {
      assert ThreadOk(m, u);
      assert u == t ==> Effect(t, op, outcome) == m'.log[|m.log|];
    }
  }

  lemma ReadKeeps(initial: Count, m: Machine, t: nat, op: Op)
    requires Inv(initial, m) && t < |m.threads|
    ensures Inv(initial, Read(m, t, op))
  {
    if m.count == MAX {
      FinishKeeps(initial, m, t, op, m.count, Returned(false));
    } else if op == Dec && m.count == 0 {
      FinishKeeps(initial, m, t, op, m.count, Aborted);
    } else {
      forall u: nat | u < |m.threads|
        ensures ThreadOk(Read(m, t, op), u)
      {
        assert ThreadOk(m, u);
      }
    }
  }

  lemma StepKeeps(initial: Count, m: Machine, t: nat, a: Action)
    requires Inv(initial, m) && Enabled(m, t, a)
    ensures Inv(initial, Step(m, t, a))
  {
    match a
    case Call(op) =>
      forall u: nat | u < |m.threads|
        ensures ThreadOk(Step(m, t, a), u)
      {
        assert ThreadOk(m, u);
      }
    case Load => ReadKeeps(initial, m, t, m.threads[t].op);
    case CompareExchange(spurious) =>
      var op, expected := m.threads[t].op, m.threads[t].expected;
      assert ThreadOk(m, t);
      if m.count != expected || spurious {
        ReadKeeps(initial, m, t, op);
      } else if op == Inc {
        FinishKeeps(initial, m, t, op, expected + 1, Returned(false));
      } else {
        FinishKeeps(initial, m, t, op, expected - 1, Returned(expected == 1));
      }
  }

  lemma {:induction false} RunKeeps(initial: Count, threads: nat, schedule: seq<Scheduled>)
    ensures Inv(initial, Run(initial, threads, schedule))
  {
    if schedule != [] {
      RunKeeps(initial, threads, schedule[..|schedule| - 1]);
      var m := Run(initial, threads, schedule[..|schedule| - 1]);
      var s := schedule[|schedule| - 1];
      if Enabled(m, s.thread, s.action) {
        StepKeeps(initial, m, s.thread, s.action);
      }
    }
  }

  /**
   The lock-free count refines the locked one: in every state of every schedule, the counter is what
   the operations that took effect, one at a time under the lock, make of it; each of them came to
   what it comes to there; and every call that finished is one of them.
   */
  lemma LockFreeRefinesLocked(initial: Count, threads: nat, schedule: seq<Scheduled>)
    ensures var m := Run(initial, threads, schedule);
            && m.count == Replay(initial, m.log)
            && Faithful(initial, m.log)
            && forall t | 0 <= t < |m.threads| && m.threads[t].Finished? ::
                 Effect(t, m.threads[t].op, m.threads[t].outcome) in m.log
  {
    RunKeeps(initial, threads, schedule);
    var m := Run(initial, threads, schedule);
    forall t | 0 <= t < |m.threads| && m.threads[t].Finished?
      ensures Effect(t, m.threads[t].op, m.threads[t].outcome) in m.log
    {
      assert ThreadOk(m, t);
    }
  }

  /** Progress: a compare-exchange that fails although it is not spurious does so because another
      operation took effect since this thread read the counter. */
  lemma FailureMeansProgress(initial: Count, threads: nat, schedule: seq<Scheduled>, t: nat)
    requires var m := Run(initial, threads, schedule);
             t < |m.threads| && m.threads[t].Looping? && m.count != m.threads[t].expected
    ensures var m := Run(initial, threads, schedule); m.threads[t].seen < |m.log|
  {
    RunKeeps(initial, threads, schedule);
    assert ThreadOk(Run(initial, threads, schedule), t);
  }

  // ----- What the count means -----

  function Number(log: seq<Effect>, op: Op): nat {
    if log == [] then 0
    else Number(log[..|log| - 1], op) + if log[|log| - 1].op == op && !log[|log| - 1].outcome.Aborted? then 1 else 0
  }

  /** The counter never reached its maximum. */
  predicate Unsaturated(initial: Count, log: seq<Effect>) {
    Replay(initial, log) < MAX && (log != [] ==> Unsaturated(initial, log[..|log| - 1]))
  }

  /** Without saturation the count is the initial one, plus increments, minus decrements. */
  lemma {:induction false} CountsReferences(initial: Count, log: seq<Effect>)
    requires Faithful(initial, log) && Unsaturated(initial, log)
    ensures Replay(initial, log) == initial + Number(log, Inc) - Number(log, Dec)
  {
    if log != [] {
      CountsReferences(initial, log[..|log| - 1]);
    }
  }

  /** A decrement reports zero exactly when it is the one that takes the count from one to zero. */
  lemma OnlyLastReportsZero(initial: Count, log: seq<Effect>)
    requires log != [] && Faithful(initial, log)
    ensures log[|log| - 1].outcome == Returned(true)
       <==> log[|log| - 1].op == Dec && Replay(initial, log[..|log| - 1]) == 1
  {
  }

  /** Once saturated, the count never moves, whatever comes after. */
  lemma {:induction false} SaturatedForever(initial: Count, log: seq<Effect>, more: seq<Effect>)
    requires Replay(initial, log) == MAX
    ensures Replay(initial, log + more) == MAX
  {
    if more == [] {
      assert log + more == log;
    } else {
      assert (log + more)[..|log + more| - 1] == log + more[..|more| - 1];
      SaturatedForever(initial, log, more[..|more| - 1]);
    }
  }
}
