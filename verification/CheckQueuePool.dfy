/**
 The queue object and the thread loop as the program runs them, one method per critical section
 and one for the unlocked execution of a batch, each proved to be a step of the protocol.
 */
module CheckQueuePool {
  import opened CheckQueue

  /** Whether the loop returns to the thread's caller, and with what verdict. */
  datatype Exit = Stays | Exits(verdict: bool)

  class CCheckQueue {
    var queue: seq<Check>
    var nIdle: int
    var nTotal: int
    var fAllOk: bool
    var nTodo: int
    const nBatchSize: nat
    /** Each thread's own variables: where it is in the loop, its batch, its verdict. */
    var threads: seq<Thread>
    ghost var added: multiset<Check>
    ghost var retired: multiset<Check>

    ghost function Snapshot(): State
      reads this
    {
      State(queue, nIdle, nTotal, fAllOk, nTodo, nBatchSize, threads, added, retired)
    }

    constructor (nBatchSize: nat, nThreads: nat)
      ensures Snapshot() == Init(nBatchSize, nThreads)
    {
      queue, nIdle, nTotal, fAllOk, nTodo := [], 0, 0, true, 0;
      this.nBatchSize := nBatchSize;
      threads := seq(nThreads, _ => Outside);
      added, retired := multiset{}, multiset{};
    }

    method Add(checks: seq<Check>, waken: nat)
      requires Enabled(Snapshot(), Step.Add(checks, waken))
      modifies this
      ensures Snapshot() == Next(old(Snapshot()), Step.Add(checks, waken))
    {
      for i := 0 to |checks|
        invariant Snapshot() == old(Snapshot()).(queue := old(queue) + checks[..i])
      {
        assert checks[..i + 1] == checks[..i] + [checks[i]];
        queue := queue + [checks[i]];
      }
      assert checks[..|checks|] == checks;
      nTodo := nTodo + |checks|;
      if |checks| == 1 {
        threads := NotifyOne(threads, waken);
      } else if |checks| > 1 {
        threads := NotifyWorkers(threads);
      }
      added := added + multiset(checks);
    }

    /** A thread's first pass: it joins the pool. */
    method EnterLoop(t: nat) returns (exit: Exit)
      requires Enabled(Snapshot(), Enter(t))
      modifies this
      ensures Snapshot() == Next(old(Snapshot()), Enter(t))
      ensures exit == ExitOf(old(Snapshot()), Enter(t))
    {
      hide CheckQueue.Decide, BatchSize, Reversed;
      nTotal := nTotal + 1;
      threads := threads[t := Deciding];
      assert Snapshot() == AtDecision(old(Snapshot()), Enter(t));
      exit := Decide(t);
    }

    /** The thread's condition variable lets it go on. */
    method WakeUp(t: nat) returns (exit: Exit)
      requires Enabled(Snapshot(), Wake(t))
      modifies this
      ensures Snapshot() == Next(old(Snapshot()), Wake(t))
      ensures exit == ExitOf(old(Snapshot()), Wake(t))
    {
      hide CheckQueue.Decide, BatchSize, Reversed;
      nIdle := nIdle - 1;
      threads := threads[t := Deciding];
      assert Snapshot() == AtDecision(old(Snapshot()), Wake(t));
      exit := Decide(t);
    }

    /** The unlocked part: run the batch, until a check fails. */
    method RunBatch(t: nat)
      requires Enabled(Snapshot(), Run(t))
      modifies this
      ensures Snapshot() == Next(old(Snapshot()), Run(t))
    {
      var vChecks, fOk := threads[t].batch, threads[t].ok;
      for i := 0 to |vChecks|
        invariant fOk == (threads[t].ok && AllPass(vChecks[..i]))
      {
        assert vChecks[..i + 1] == vChecks[..i] + [vChecks[i]];
        if fOk {
          fOk := vChecks[i].passes;
        }
      }
      assert vChecks[..|vChecks|] == vChecks;
      threads := threads[t := Finished(vChecks, fOk)];
    }

    /** Cleans up after a batch, and goes on. */
    method RetireBatch(t: nat) returns (exit: Exit)
      requires Enabled(Snapshot(), Retire(t))
      modifies this
      ensures Snapshot() == Next(old(Snapshot()), Retire(t))
      ensures exit == ExitOf(old(Snapshot()), Retire(t))
    {
      hide CheckQueue.Decide, BatchSize, Reversed;
      var th := threads[t];
      fAllOk := fAllOk && th.ok;
      nTodo := nTodo - |th.batch|;
      if nTodo == 0 && t != 0 {
        threads := threads[0 := Notified(threads[0])];
      }
      retired := retired + multiset(th.batch);
      threads := threads[t := Deciding];
      assert Snapshot() == AtDecision(old(Snapshot()), Retire(t));
      exit := Decide(t);
    }

    method Decide(t: nat) returns (exit: Exit)
      requires t < |threads|
      modifies this
      ensures Snapshot() == CheckQueue.Decide(old(Snapshot()), t)
      ensures exit == if old(queue) == [] && t == 0 && old(nTodo) == 0 then Exits(old(fAllOk)) else Stays
    {
      if queue == [] {
        if t == 0 && nTodo == 0 {
          nTotal := nTotal - 1;
          exit := Exits(fAllOk);
          fAllOk := true;
          threads := threads[t := Outside];
          added, retired := multiset{}, multiset{};
        } else {
          nIdle := nIdle + 1;
          threads := threads[t := Waiting(false)];
          exit := Stays;
        }
      } else {
        TakeBatch(t);
        exit := Stays;
      }
    }

    /** Moves checks from the back of the queue into the thread's own batch. */
    method TakeBatch(t: nat)
      requires t < |threads| && queue != []
      modifies this`queue, this`threads
      ensures Snapshot() == CheckQueue.Decide(old(Snapshot()), t)
    {
      hide BatchSize, Reversed;
      var nNow := BatchSize(Current());
      TakenNone();
      ghost var q := queue;
      var vChecks := [];
      for i := 0 to nNow
        invariant queue == q[..|q| - i] && vChecks == Reversed(q[|q| - i..])
        invariant threads == old(threads)
      {
        ReversedStep(q, i);
        vChecks := vChecks + [queue[|queue| - 1]];
        queue := queue[..|queue| - 1];
      }
      threads := threads[t := Working(vChecks, fAllOk)];
    }

    /** The queue's variables, without the history. */
    function Current(): (s: State)
      reads this
      ensures BatchSize(s) == BatchSize(Snapshot())
    {
      State(queue, nIdle, nTotal, fAllOk, nTodo, nBatchSize, threads, multiset{}, multiset{})
    }
  }

  /** What the loop does to its caller in a step in which a thread decides. */
  function ExitOf(s: State, step: Step): Exit
    requires Enabled(s, step) && (step.Enter? || step.Wake? || step.Retire?)
  {
    if Returns(s, step) then Exits(Returned(s, step)) else Stays
  }

  lemma TakenNone()
    ensures Reversed([]) == []
  {
  }

  lemma {:induction false} ReversedStep(q: seq<Check>, i: nat)
    requires i < |q|
    ensures Reversed(q[|q| - i - 1..]) == Reversed(q[|q| - i..]) + [q[|q| - i - 1]]
  {
    hide Reversed;
    var longer, shorter := q[|q| - i - 1..], q[|q| - i..];
    forall k | 0 <= k <= i ensures Reversed(longer)[k] == (Reversed(shorter) + [q[|q| - i - 1]])[k] {
      ReversedAt(longer, k);
      if k < i {
        ReversedAt(shorter, k);
      }
    }
  }

  lemma {:induction false} ReversedAt(q: seq<Check>, k: nat)
    requires k < |q|
    ensures Reversed(q)[k] == q[|q| - 1 - k]
  {
    if k > 0 {
      ReversedAt(q[..|q| - 1], k - 1);
    }
  }
}
