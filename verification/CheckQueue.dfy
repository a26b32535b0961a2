/**
 The verification queue: a master adds checks, worker threads take them in batches, and the
 master joins the pool until all are done. The protocol is a state machine with one step per
 critical section, plus the unlocked step in which a thread runs its batch. Thread 0 is the
 thread that holds the control mutex: the only one that adds checks and the only master.
 */
module CheckQueue {

  datatype Check = Check(id: nat, passes: bool)

  datatype Thread =
    | Outside
    | Deciding                                      // in its critical section, bookkeeping done
    | Waiting(notified: bool)                       // blocked on its condition variable
    | Working(batch: seq<Check>, ok: bool)          // holds a batch, not yet run
    | Finished(batch: seq<Check>, ok: bool)         // has run its batch, not yet retired it

  /**
   The queue, its counters, the threads, and two history variables: the checks added, and the
   checks retired, since the master's last return.
   */
  datatype State = State(
    queue: seq<Check>, nIdle: int, nTotal: int, fAllOk: bool, nTodo: int, nBatchSize: nat,
    threads: seq<Thread>, added: multiset<Check>, retired: multiset<Check>)

  function Init(nBatchSize: nat, nThreads: nat): State {
    State([], 0, 0, true, 0, nBatchSize, seq(nThreads, _ => Outside), multiset{}, multiset{})
  }

  // ----- steps -----

  function Min(a: int, b: int): int { if a < b then a else b }
  function Max(a: int, b: int): int { if a < b then b else a }

  /** How many checks a thread takes at once. */
  function BatchSize(s: State): (n: int)
    ensures n >= 1 && (s.queue != [] ==> n <= |s.queue|)
  {
    var sharers := s.nTotal + s.nIdle + 1;
    if sharers > 0 then
      QuotientSmall(|s.queue|, sharers);
      Max(1, Min(s.nBatchSize, |s.queue| / sharers))
    else 1
  }

  lemma QuotientSmall(a: nat, d: nat)
    requires d > 0
    ensures 0 <= a / d <= a
  {
    ProductAtLeast(a / d, d);
  }

  lemma ProductAtLeast(x: nat, d: nat)
    requires d > 0
    ensures x * d >= x
  {
  }

  function Reversed(q: seq<Check>): (r: seq<Check>)
    ensures |r| == |q| && multiset(r) == multiset(q)
  {
    if q == [] then [] else
    assert q == q[..|q| - 1] + [q[|q| - 1]];
    [q[|q| - 1]] + Reversed(q[..|q| - 1])
  }

  predicate AllPass(b: seq<Check>) {
    forall i :: 0 <= i < |b| ==> b[i].passes
  }

  /** The rest of a critical section, once the thread's bookkeeping is done: return, wait or take a batch. */
  function Decide(s: State, t: nat): State
    requires t < |s.threads|
  {
    if s.queue == [] then
      if t == 0 && s.nTodo == 0 then
        s.(nTotal := s.nTotal - 1, fAllOk := true, threads := s.threads[t := Outside],
           added := multiset{}, retired := multiset{})
      else s.(nIdle := s.nIdle + 1, threads := s.threads[t := Waiting(false)])
    else
      var n := BatchSize(s);
      var rest, taken := s.queue[..|s.queue| - n], s.queue[|s.queue| - n..];
      s.(queue := rest, threads := s.threads[t := Working(Reversed(taken), s.fAllOk)])
  }

  datatype Step =
    | Add(checks: seq<Check>, waken: nat)  // by thread 0, outside; `waken` is the worker one notification wakes
    | Enter(t: nat)                        // first pass of a thread through the loop
    | Wake(t: nat)                         // after a notification, or spuriously
    | Run(t: nat)                          // the unlocked part
    | Retire(t: nat)

  predicate WaitingWorker(threads: seq<Thread>, t: nat) {
    0 < t < |threads| && threads[t] == Waiting(false)
  }

  predicate Enabled(s: State, step: Step) {
    match step
    case Add(checks, waken) =>
      && |s.threads| > 0 && s.threads[0].Outside?
      && (|checks| == 1 && (exists t :: 0 <= t < |s.threads| && WaitingWorker(s.threads, t)) ==>
            WaitingWorker(s.threads, waken))
    case Enter(t) => t < |s.threads| && s.threads[t].Outside?
    case Wake(t) => t < |s.threads| && s.threads[t].Waiting?
    case Run(t) => t < |s.threads| && s.threads[t].Working?
    case Retire(t) => t < |s.threads| && s.threads[t].Finished?
  }

  function Notified(th: Thread): Thread {
    if th.Waiting? then Waiting(true) else th
  }

  /** `notify_all` on the workers' condition variable: every thread but the master. */
  function NotifyWorkers(threads: seq<Thread>): (r: seq<Thread>)
    ensures |r| == |threads|
    ensures forall i :: 0 <= i < |r| ==> r[i] == if i == 0 then threads[i] else Notified(threads[i])
  {
    seq(|threads|, i requires 0 <= i < |threads| => if i == 0 then threads[i] else Notified(threads[i]))
  }

  /** `notify_one` on the workers' condition variable. */
  function NotifyOne(threads: seq<Thread>, waken: nat): seq<Thread> {
    if WaitingWorker(threads, waken) then threads[waken := Waiting(true)] else threads
  }

  /** The bookkeeping of a retiring thread, before it decides what to do next. */
  function Settle(s: State, t: nat): State
    requires t < |s.threads| && s.threads[t].Finished?
  {
    var th := s.threads[t];
    var todo := s.nTodo - |th.batch|;
    var threads := if todo == 0 && t != 0 then s.threads[0 := Notified(s.threads[0])] else s.threads;
    s.(fAllOk := s.fAllOk && th.ok, nTodo := todo, retired := s.retired + multiset(th.batch),
       threads := threads[t := Deciding])
  }

  // ----- sums over the threads -----

  function Sum(f: Thread -> int, threads: seq<Thread>): int {
    if threads == [] then 0 else f(threads[0]) + Sum(f, threads[1..])
  }

  lemma {:induction false} SumUpdate(f: Thread -> int, threads: seq<Thread>, i: nat, th: Thread)
    requires i < |threads|
    ensures Sum(f, threads[i := th]) == Sum(f, threads) - f(threads[i]) + f(th)
  {
    if i == 0 {
      assert threads[0 := th][1..] == threads[1..];
    } else {
      SumUpdate(f, threads[1..], i - 1, th);
      assert threads[i := th][1..] == threads[1..][i - 1 := th];
    }
  }

  lemma {:induction false} SumNotify(f: Thread -> int, threads: seq<Thread>, after: seq<Thread>)
    requires |after| == |threads| && forall i :: 0 <= i < |threads| ==> f(after[i]) == f(threads[i])
    ensures Sum(f, after) == Sum(f, threads)
  {
    if threads != [] {
      forall i | 0 <= i < |threads| - 1 ensures f(after[1..][i]) == f(threads[1..][i]) {}
      SumNotify(f, threads[1..], after[1..]);
    }
  }

  /** A positive sum has a positive term. */
  lemma {:induction false} SumWitness(f: Thread -> int, threads: seq<Thread>) returns (i: nat)
    requires Sum(f, threads) > 0
    ensures i < |threads| && f(threads[i]) > 0
  {
    if f(threads[0]) > 0 {
      i := 0;
    } else {
      i := SumWitness(f, threads[1..]);
      i := i + 1;
    }
  }

  lemma {:induction false} SumZero(f: Thread -> int, threads: seq<Thread>)
    requires Sum(f, threads) == 0 && forall i :: 0 <= i < |threads| ==> f(threads[i]) >= 0
    ensures forall i :: 0 <= i < |threads| ==> f(threads[i]) == 0
  {
    if threads != [] {
      forall i | 0 <= i < |threads| - 1 ensures f(threads[1..][i]) >= 0 {}
      SumNonNegative(f, threads[1..]);
      SumZero(f, threads[1..]);
      forall i | 0 <= i < |threads| ensures f(threads[i]) == 0 {
        if i > 0 {
          assert threads[i] == threads[1..][i - 1];
        }
      }
    }
  }

  lemma {:induction false} SumNonNegative(f: Thread -> int, threads: seq<Thread>)
    requires forall i :: 0 <= i < |threads| ==> f(threads[i]) >= 0
    ensures Sum(f, threads) >= 0
  {
    if threads != [] {
      forall i | 0 <= i < |threads| - 1 ensures f(threads[1..][i]) >= 0 {}
      SumNonNegative(f, threads[1..]);
    }
  }

  function Batch(th: Thread): seq<Check> {
    if th.Working? || th.Finished? then th.batch else []
  }

  function Held(th: Thread): int { |Batch(th)| }
  function Idle(th: Thread): int { if th.Waiting? then 1 else 0 }
  function Inside(th: Thread): int { if th.Outside? then 0 else 1 }

  /** The two thread counters are right. */
  ghost predicate Counted(s: State) {
    s.nIdle == Sum(Idle, s.threads) && s.nTotal == Sum(Inside, s.threads)
  }

  function Next(s: State, step: Step): State
    requires Enabled(s, step)
  {
    match step
    case Add(checks, waken) =>
      var threads :=
        if |checks| == 1 then NotifyOne(s.threads, waken)
        else if |checks| > 1 then NotifyWorkers(s.threads)
        else s.threads;
      s.(queue := s.queue + checks, nTodo := s.nTodo + |checks|, threads := threads, added := s.added + multiset(checks))
    case Enter(t) => Decide(s.(nTotal := s.nTotal + 1, threads := s.threads[t := Deciding]), t)
    case Wake(t) => Decide(s.(nIdle := s.nIdle - 1, threads := s.threads[t := Deciding]), t)
    case Run(t) =>
      var th := s.threads[t];
      s.(threads := s.threads[t := Finished(th.batch, th.ok && AllPass(th.batch))])
    case Retire(t) => Decide(Settle(s, t), t)
  }

  /** All checks in threads' own batches. */
  ghost function Batches(threads: seq<Thread>): multiset<Check> {
    if threads == [] then multiset{} else multiset(Batch(threads[0])) + Batches(threads[1..])
  }

  lemma {:induction false} BatchesUpdate(threads: seq<Thread>, i: nat, th: Thread)
    requires i < |threads|
    ensures multiset(Batch(threads[i])) <= Batches(threads)
    ensures Batches(threads[i := th]) == Batches(threads) - multiset(Batch(threads[i])) + multiset(Batch(th))
  {
    if i == 0 {
      assert threads[0 := th][1..] == threads[1..];
      Regroup(multiset{}, Batches(threads[1..]), multiset(Batch(threads[0])), multiset(Batch(th)));
    } else {
      BatchesUpdate(threads[1..], i - 1, th);
      assert threads[i := th][1..] == threads[1..][i - 1 := th];
      var others := Batches(threads[1..]) - multiset(Batch(threads[i]));
      assert Batches(threads[1..]) == others + multiset(Batch(threads[i]));
      Regroup(multiset(Batch(threads[0])), others, multiset(Batch(threads[i])), multiset(Batch(th)));
    }
  }

  lemma Regroup(a: multiset<Check>, b: multiset<Check>, c: multiset<Check>, d: multiset<Check>)
    ensures c <= a + (b + c)
    ensures a + (b + d) == (a + (b + c)) - c + d
    ensures d + b == (c + b) - c + d && c <= c + b
  {
  }

  lemma {:induction false} BatchesNotify(threads: seq<Thread>, after: seq<Thread>)
    requires |after| == |threads| && forall i :: 0 <= i < |threads| ==> Batch(after[i]) == Batch(threads[i])
    ensures Batches(after) == Batches(threads)
  {
    if threads != [] {
      forall i | 0 <= i < |threads| - 1 ensures Batch(after[1..][i]) == Batch(threads[1..][i]) {}
      BatchesNotify(threads[1..], after[1..]);
    }
  }

  // ----- the invariant -----

  /** Every check is in exactly one place, and `nTodo` counts those not yet retired. */
  ghost predicate Conserved(s: State) {
    && s.nTodo == |s.queue| + Sum(Held, s.threads)
    && s.added == multiset(s.queue) + Batches(s.threads) + s.retired
  }

  predicate PassingSet(m: multiset<Check>) {
    forall c :: c in m ==> c.passes
  }

  /** The running verdict is about exactly the retired checks; a batch's verdict is never wrongly negative. */
  ghost predicate Judged(s: State) {
    && (s.fAllOk <==> PassingSet(s.retired))
    && (forall t :: 0 <= t < |s.threads| ==> ThreadJudged(s.threads[t], s.fAllOk))
  }

  ghost predicate ThreadJudged(th: Thread, fAllOk: bool) {
    && (th.Working? ==> th.batch != [] && (!th.ok ==> !fAllOk))
    && (th.Finished? ==> th.batch != [] && (th.ok ==> AllPass(th.batch)) && (!th.ok ==> !fAllOk || !AllPass(th.batch)))
  }

  /** A thread that will move without being notified. */
  predicate Active(th: Thread) {
    th.Deciding? || th.Working? || th.Finished? || th == Waiting(true)
  }

  predicate ActiveWorker(threads: seq<Thread>, t: nat) {
    0 < t < |threads| && Active(threads[t])
  }

  /** No wake-up is lost. */
  ghost predicate Awake(s: State) {
    && |s.threads| > 0
    && (s.threads[0].Waiting? ==> s.queue == [])
    && (s.threads[0] == Waiting(false) ==> s.nTodo > 0)
    && (s.queue != [] && (exists t :: 0 <= t < |s.threads| && WaitingWorker(s.threads, t)) ==>
          exists t :: 0 <= t < |s.threads| && ActiveWorker(s.threads, t))
  }

  ghost predicate Inv(s: State) {
    Counted(s) && Conserved(s) && Judged(s) && Awake(s)
  }

  // ----- every step keeps it -----

  lemma UpdateSums(s: State, u: State, t: nat, th: Thread)
    requires t < |s.threads| && u.threads == s.threads[t := th]
    ensures Sum(Idle, u.threads) == Sum(Idle, s.threads) - Idle(s.threads[t]) + Idle(th)
    ensures Sum(Inside, u.threads) == Sum(Inside, s.threads) - Inside(s.threads[t]) + Inside(th)
    ensures Sum(Held, u.threads) == Sum(Held, s.threads) - Held(s.threads[t]) + Held(th)
    ensures multiset(Batch(s.threads[t])) <= Batches(s.threads)
    ensures Batches(u.threads) == Batches(s.threads) - multiset(Batch(s.threads[t])) + multiset(Batch(th))
  {
    SumUpdate(Idle, s.threads, t, th);
    SumUpdate(Inside, s.threads, t, th);
    SumUpdate(Held, s.threads, t, th);
    BatchesUpdate(s.threads, t, th);
  }

  lemma NotifySums(threads: seq<Thread>, after: seq<Thread>)
    requires |after| == |threads|
    requires forall i :: 0 <= i < |threads| ==> after[i] == threads[i] || after[i] == Notified(threads[i])
    ensures Sum(Idle, after) == Sum(Idle, threads) && Sum(Inside, after) == Sum(Inside, threads)
    ensures Sum(Held, after) == Sum(Held, threads) && Batches(after) == Batches(threads)
  {
    SumNotify(Idle, threads, after);
    SumNotify(Inside, threads, after);
    SumNotify(Held, threads, after);
    BatchesNotify(threads, after);
  }

  /** With nothing left to do, no thread holds a batch: every added check has been retired. */
  lemma AllRetired(s: State)
    requires Inv(s) && s.queue == [] && s.nTodo == 0
    ensures s.retired == s.added && Batches(s.threads) == multiset{}
    ensures forall t :: 0 <= t < |s.threads| ==> !s.threads[t].Working? && !s.threads[t].Finished?
  {
    SumZero(Held, s.threads);
    forall t | 0 <= t < |s.threads| ensures !s.threads[t].Working? && !s.threads[t].Finished? {
      assert Held(s.threads[t]) == 0 && ThreadJudged(s.threads[t], s.fAllOk);
    }
    NoBatches(s.threads);
  }

  lemma {:induction false} NoBatches(threads: seq<Thread>)
    requires forall t :: 0 <= t < |threads| ==> !threads[t].Working? && !threads[t].Finished?
    ensures Batches(threads) == multiset{}
  {
    if threads != [] {
      NoBatches(threads[1..]);
    }
  }

  /** The master's verdict is the conjunction of all checks added since its last return. */
  lemma VerdictIsConjunction(s: State)
    requires Inv(s) && s.queue == [] && s.nTodo == 0
    ensures s.fAllOk <==> PassingSet(s.added)
  {
    AllRetired(s);
  }

  lemma DecideReturns(s: State, t: nat)
    requires Inv(s) && t < |s.threads| && s.threads[t].Deciding?
    requires s.queue == [] && t == 0 && s.nTodo == 0
    ensures Inv(Decide(s, t))
  {
    var u := Decide(s, t);
    AllRetired(s);
    UpdateSums(s, u, t, Outside);
    forall i | 0 <= i < |u.threads| ensures ThreadJudged(u.threads[i], u.fAllOk) {}
  }

  lemma DecideWaits(s: State, t: nat)
    requires Inv(s) && t < |s.threads| && s.threads[t].Deciding?
    requires s.queue == [] && (t != 0 || s.nTodo != 0)
    ensures Inv(Decide(s, t))
  {
    var u := Decide(s, t);
    UpdateSums(s, u, t, Waiting(false));
    assert s.nTodo >= 0 by { SumNonNegative(Held, s.threads); }
    forall i | 0 <= i < |u.threads| ensures ThreadJudged(u.threads[i], u.fAllOk) {
      assert ThreadJudged(s.threads[i], s.fAllOk);
    }
  }

  lemma DecideTakes(s: State, t: nat)
    requires Inv(s) && t < |s.threads| && s.threads[t].Deciding?
    requires s.queue != []
    ensures Inv(Decide(s, t))
  {
    hide BatchSize;
    var u := Decide(s, t);
    TakeConserves(s, t);
    JudgedUpdate(s, u, t, u.threads[t]);
    assert Awake(u) by {
      if x :| 0 <= x < |u.threads| && WaitingWorker(u.threads, x) {
        assert WaitingWorker(s.threads, x);
        var y :| 0 <= y < |s.threads| && ActiveWorker(s.threads, y);
        assert ActiveWorker(u.threads, y);
      }
    }
  }

  lemma TakeConserves(s: State, t: nat)
    requires Counted(s) && Conserved(s) && t < |s.threads| && s.threads[t].Deciding? && s.queue != []
    ensures Counted(Decide(s, t)) && Conserved(Decide(s, t))
    ensures Decide(s, t).threads[t].Working? && Decide(s, t).threads[t].batch != []
  {
    hide BatchSize, Sum, Batches;
    var u := Decide(s, t);
    var n := BatchSize(s);
    var rest, taken := s.queue[..|s.queue| - n], s.queue[|s.queue| - n..];
    assert s.queue == rest + taken;
    hide Reversed;
    UpdateSums(s, u, t, u.threads[t]);
    Regroup(multiset(rest), Batches(s.threads), multiset{}, multiset(taken));
  }

  lemma DecideKeeps(s: State, t: nat)
    requires Inv(s) && t < |s.threads| && s.threads[t].Deciding?
    ensures Inv(Decide(s, t))
  {
    hide Inv, Decide;
    if s.queue != [] {
      DecideTakes(s, t);
    } else if t == 0 && s.nTodo == 0 {
      DecideReturns(s, t);
    } else {
      DecideWaits(s, t);
    }
  }

  /** Changing one thread between states that hold no batch keeps the threads' verdicts. */
  lemma JudgedUpdate(s: State, u: State, t: nat, th: Thread)
    requires Judged(s) && t < |s.threads| && u.threads == s.threads[t := th]
    requires u.fAllOk == s.fAllOk && u.retired == s.retired && ThreadJudged(th, s.fAllOk)
    ensures Judged(u)
  {
    forall i | 0 <= i < |u.threads| ensures ThreadJudged(u.threads[i], u.fAllOk) {
      assert ThreadJudged(s.threads[i], s.fAllOk);
    }
  }

  /** A thread that becomes or stays active wakes nobody up less. */
  lemma AwakeUpdate(s: State, u: State, t: nat, th: Thread)
    requires Awake(s) && t < |s.threads| && u.threads == s.threads[t := th] && Active(th) && !th.Waiting?
    requires u.queue == s.queue && u.nTodo == s.nTodo
    ensures Awake(u)
  {
    if x :| 0 <= x < |u.threads| && WaitingWorker(u.threads, x) {
      assert WaitingWorker(s.threads, x);
      if u.queue != [] {
        var y :| 0 <= y < |s.threads| && ActiveWorker(s.threads, y);
        assert ActiveWorker(u.threads, y);
      }
    }
  }

  lemma EnterKeeps(s: State, t: nat)
    requires Inv(s) && t < |s.threads| && s.threads[t].Outside?
    ensures Inv(s.(nTotal := s.nTotal + 1, threads := s.threads[t := Deciding]))
  {
    var u := s.(nTotal := s.nTotal + 1, threads := s.threads[t := Deciding]);
    UpdateSums(s, u, t, Deciding);
    JudgedUpdate(s, u, t, Deciding);
    AwakeUpdate(s, u, t, Deciding);
  }

  lemma WakeKeeps(s: State, t: nat)
    requires Inv(s) && t < |s.threads| && s.threads[t].Waiting?
    ensures Inv(s.(nIdle := s.nIdle - 1, threads := s.threads[t := Deciding]))
  {
    var u := s.(nIdle := s.nIdle - 1, threads := s.threads[t := Deciding]);
    UpdateSums(s, u, t, Deciding);
    JudgedUpdate(s, u, t, Deciding);
    AwakeUpdate(s, u, t, Deciding);
  }

  lemma RunKeeps(s: State, t: nat)
    requires Inv(s) && t < |s.threads| && s.threads[t].Working?
    ensures Inv(Next(s, Run(t)))
  {
    hide Sum, Batches;
    var th := s.threads[t];
    assert ThreadJudged(th, s.fAllOk);
    var after := Finished(th.batch, th.ok && AllPass(th.batch));
    var u := Next(s, Run(t));
    UpdateSums(s, u, t, after);
    JudgedUpdate(s, u, t, after);
    AwakeUpdate(s, u, t, after);
  }

  lemma AddKeeps(s: State, checks: seq<Check>, waken: nat)
    requires Inv(s) && Enabled(s, Add(checks, waken))
    ensures Inv(Next(s, Add(checks, waken)))
  {
    hide Counted, Conserved, Judged, Awake, Next, Enabled;
    AddSums(s, checks, waken);
    AddJudges(s, checks, waken);
    AddWakes(s, checks, waken);
  }

  lemma AddSums(s: State, checks: seq<Check>, waken: nat)
    requires Counted(s) && Conserved(s) && Enabled(s, Add(checks, waken))
    ensures Counted(Next(s, Add(checks, waken))) && Conserved(Next(s, Add(checks, waken)))
  {
    hide Sum, Batches;
    var u := Next(s, Add(checks, waken));
    NotifySums(s.threads, u.threads);
  }

  lemma AddJudges(s: State, checks: seq<Check>, waken: nat)
    requires Judged(s) && Enabled(s, Add(checks, waken))
    ensures Judged(Next(s, Add(checks, waken)))
  {
    var u := Next(s, Add(checks, waken));
    forall i | 0 <= i < |u.threads| ensures ThreadJudged(u.threads[i], u.fAllOk) {
      assert ThreadJudged(s.threads[i], s.fAllOk);
    }
  }

  lemma AddWakes(s: State, checks: seq<Check>, waken: nat)
    requires Awake(s) && Counted(s) && Enabled(s, Add(checks, waken))
    ensures Awake(Next(s, Add(checks, waken)))
  {
    var u := Next(s, Add(checks, waken));
    assert u.threads[0] == s.threads[0];
    if x :| 0 <= x < |u.threads| && WaitingWorker(u.threads, x) {
      assert WaitingWorker(s.threads, x);
      if |checks| == 1 {
        assert ActiveWorker(u.threads, waken);
      } else if |checks| == 0 {
        assert u.queue == s.queue && u.threads == s.threads;
      }
    }
  }

  /** The first half of retiring: the master is woken when the last check is done. */
  lemma SettleKeeps(s: State, t: nat)
    requires Inv(s) && t < |s.threads| && s.threads[t].Finished?
    ensures Inv(Settle(s, t)) && Settle(s, t).threads[t].Deciding? && |Settle(s, t).threads| == |s.threads|
  {
    var u := Settle(s, t);
    SettleSums(s, t);
    SettleJudges(s, t);
    SettleWakes(s, t);
  }

  lemma SettleSums(s: State, t: nat)
    requires Counted(s) && Conserved(s) && t < |s.threads| && s.threads[t].Finished?
    ensures Counted(Settle(s, t)) && Conserved(Settle(s, t))
  {
    hide Sum, Batches;
    var u := Settle(s, t);
    var m := s.(threads := if u.nTodo == 0 && t != 0 then s.threads[0 := Notified(s.threads[0])] else s.threads);
    NotifySums(s.threads, m.threads);
    UpdateSums(m, u, t, Deciding);
    assert m.threads[t] == s.threads[t];
    var mine, others := multiset(s.threads[t].batch), Batches(m.threads) - multiset(s.threads[t].batch);
    assert Batches(m.threads) == others + mine;
    Handed(multiset(s.queue), others, mine, s.retired);
  }

  lemma Handed(a: multiset<Check>, b: multiset<Check>, c: multiset<Check>, d: multiset<Check>)
    ensures a + (b + c) + d == a + b + (d + c)
  {
  }

  lemma SettleJudges(s: State, t: nat)
    requires Judged(s) && t < |s.threads| && s.threads[t].Finished?
    ensures Judged(Settle(s, t))
  {
    var u := Settle(s, t);
    var th := s.threads[t];
    assert ThreadJudged(th, s.fAllOk);
    PassingUnion(s.retired, th.batch);
    forall i | 0 <= i < |u.threads| ensures ThreadJudged(u.threads[i], u.fAllOk) {
      assert ThreadJudged(s.threads[i], s.fAllOk);
    }
  }

  lemma PassingUnion(m: multiset<Check>, b: seq<Check>)
    ensures PassingSet(m + multiset(b)) <==> PassingSet(m) && AllPass(b)
  {
    if AllPass(b) {
      forall c | c in multiset(b) ensures c.passes {
        assert c in b;
      }
    } else {
      var i :| 0 <= i < |b| && !b[i].passes;
      assert b[i] in multiset(b);
    }
    forall c | c in m ensures c in m + multiset(b) {}
    forall c | c in multiset(b) ensures c in m + multiset(b) {}
  }

  lemma SettleWakes(s: State, t: nat)
    requires Awake(s) && Conserved(s) && t < |s.threads| && s.threads[t].Finished?
    ensures Awake(Settle(s, t))
  {
    var u := Settle(s, t);
    SettleLeavesNonNegative(s, t);
    if x :| 0 <= x < |u.threads| && WaitingWorker(u.threads, x) {
      assert WaitingWorker(s.threads, x);
      if u.queue != [] {
        var y :| 0 <= y < |s.threads| && ActiveWorker(s.threads, y);
        assert ActiveWorker(u.threads, y);
      }
    }
  }

  lemma SettleLeavesNonNegative(s: State, t: nat)
    requires Conserved(s) && t < |s.threads| && s.threads[t].Finished?
    ensures s.nTodo - |s.threads[t].batch| >= 0
  {
    SumUpdate(Held, s.threads, t, Deciding);
    SumNonNegative(Held, s.threads[t := Deciding]);
  }

  /** Every step, in every interleaving, keeps the invariant. */
  lemma StepKeeps(s: State, step: Step)
    requires Inv(s) && Enabled(s, step)
    ensures Inv(Next(s, step))
  {
    hide Conserved, Judged, Awake, Decide, Settle;
    match step
    case Add(checks, waken) => AddKeeps(s, checks, waken);
    case Enter(t) =>
      EnterKeeps(s, t);
      DecideKeeps(s.(nTotal := s.nTotal + 1, threads := s.threads[t := Deciding]), t);
    case Wake(t) =>
      WakeKeeps(s, t);
      DecideKeeps(s.(nIdle := s.nIdle - 1, threads := s.threads[t := Deciding]), t);
    case Run(t) => RunKeeps(s, t);
    case Retire(t) =>
      SettleKeeps(s, t);
      DecideKeeps(Settle(s, t), t);
  }

  lemma {:induction false} InitSums(f: Thread -> int, n: nat)
    requires f(Outside) == 0
    ensures Sum(f, seq(n, _ => Outside)) == 0
  {
    if n > 0 {
      InitSums(f, n - 1);
      assert seq(n, _ => Outside)[1..] == seq(n - 1, _ => Outside);
    }
  }

  lemma InitKeeps(nBatchSize: nat, nThreads: nat)
    requires nThreads > 0
    ensures Inv(Init(nBatchSize, nThreads))
  {
    InitSums(Idle, nThreads);
    InitSums(Inside, nThreads);
    InitSums(Held, nThreads);
    NoBatches(Init(nBatchSize, nThreads).threads);
  }

  // ----- whole runs -----

  /** `run` is an interleaving of critical sections and batch executions from the initial state. */
  ghost predicate IsRun(run: seq<State>, steps: seq<Step>) {
    && |run| == |steps| + 1
    && (exists nBatchSize: nat, nThreads: nat :: nThreads > 0 && run[0] == Init(nBatchSize, nThreads))
    && (forall i :: 0 <= i < |steps| ==> Enabled(run[i], steps[i]) && run[i + 1] == Next(run[i], steps[i]))
  }

  lemma {:induction false} RunsKeep(run: seq<State>, steps: seq<Step>, i: nat)
    requires IsRun(run, steps) && i < |run|
    ensures Inv(run[i])
  {
    hide Inv, Next, Enabled;
    if i == 0 {
      var nBatchSize: nat, nThreads: nat :| nThreads > 0 && run[0] == Init(nBatchSize, nThreads);
      InitKeeps(nBatchSize, nThreads);
    } else {
      RunsKeep(run, steps, i - 1);
      StepKeeps(run[i - 1], steps[i - 1]);
    }
  }

  /** The state of thread `t` when it decides, in a step that has it enter, wake up or retire a batch. */
  function AtDecision(s: State, step: Step): State
    requires Enabled(s, step) && (step.Enter? || step.Wake? || step.Retire?)
  {
    match step
    case Enter(t) => s.(nTotal := s.nTotal + 1, threads := s.threads[t := Deciding])
    case Wake(t) => s.(nIdle := s.nIdle - 1, threads := s.threads[t := Deciding])
    case Retire(t) => Settle(s, t)
  }

  /** In this step the master returns from its wait. */
  predicate Returns(s: State, step: Step)
    requires Enabled(s, step)
  {
    (step.Enter? || step.Wake? || step.Retire?) && step.t == 0
    && AtDecision(s, step).queue == [] && AtDecision(s, step).nTodo == 0
  }

  /** What the master returns. */
  function Returned(s: State, step: Step): bool
    requires Enabled(s, step) && Returns(s, step)
  {
    AtDecision(s, step).fAllOk
  }

  /** The checks added in the first `i` steps since the master's last return. */
  ghost function AddedSince(run: seq<State>, steps: seq<Step>, i: nat): multiset<Check>
    requires IsRun(run, steps) && i <= |steps|
  {
    if i == 0 || Returns(run[i - 1], steps[i - 1]) then multiset{}
    else AddedSince(run, steps, i - 1) +
         if steps[i - 1].Add? then multiset(steps[i - 1].checks) else multiset{}
  }

  lemma {:induction false} AddedIsHistory(run: seq<State>, steps: seq<Step>, i: nat)
    requires IsRun(run, steps) && i <= |steps|
    ensures run[i].added == AddedSince(run, steps, i)
  {
    if i > 0 {
      AddedIsHistory(run, steps, i - 1);
      var s, step := run[i - 1], steps[i - 1];
      assert run[i] == Next(s, step);
      AddedStep(s, step);
    }
  }

  lemma AddedStep(s: State, step: Step)
    requires Enabled(s, step)
    ensures Next(s, step).added ==
            if Returns(s, step) then multiset{}
            else s.added + if step.Add? then multiset(step.checks) else multiset{}
  {
  }

  /**
   In every run, whenever the master returns it returns true exactly when all checks added
   since it last returned pass.
   */
  lemma WaitReturnsConjunction(run: seq<State>, steps: seq<Step>, i: nat)
    requires IsRun(run, steps) && i < |steps| && Returns(run[i], steps[i])
    ensures Returned(run[i], steps[i]) <==> PassingSet(AddedSince(run, steps, i))
  {
    hide Next, IsRun, Decide;
    RunEnabled(run, steps, i);
    RunsKeep(run, steps, i);
    AddedIsHistory(run, steps, i);
    var s, step := run[i], steps[i];
    DecisionKeeps(s, step);
    VerdictIsConjunction(AtDecision(s, step));
  }

  lemma RunEnabled(run: seq<State>, steps: seq<Step>, i: nat)
    requires IsRun(run, steps) && i < |steps|
    ensures |run| == |steps| + 1 && Enabled(run[i], steps[i])
  {
  }

  lemma DecisionKeeps(s: State, step: Step)
    requires Inv(s) && Enabled(s, step) && (step.Enter? || step.Wake? || step.Retire?)
    ensures Inv(AtDecision(s, step)) && AtDecision(s, step).added == s.added
  {
    hide Inv;
    match step
    case Enter(t) => EnterKeeps(s, t);
    case Wake(t) => WakeKeeps(s, t);
    case Retire(t) => SettleKeeps(s, t);
  }

  // ----- progress -----

  /** A waiting master with work left always has another thread at work on a non-empty batch. */
  lemma WaitingMasterHasHelper(s: State) returns (t: nat)
    requires Inv(s) && s.threads[0].Waiting? && s.nTodo > 0
    ensures 0 < t < |s.threads| && Batch(s.threads[t]) != []
  {
    t := SumWitness(Held, s.threads);
  }

  /** Between steps no thread is inside its critical section. */
  predicate Between(s: State) {
    forall t :: 0 <= t < |s.threads| ==> !s.threads[t].Deciding?
  }

  /** The master is in the loop: it has called Wait and not returned. */
  predicate MasterInside(s: State) { |s.threads| > 0 && !s.threads[0].Outside? }

  lemma DecideLeaves(s: State, t: nat)
    requires t < |s.threads| && forall i :: 0 <= i < |s.threads| && i != t ==> !s.threads[i].Deciding?
    ensures Between(Decide(s, t))
  {
    hide BatchSize, Reversed;
  }

  /** Every step begun between critical sections ends between them. */
  lemma StepLeaves(s: State, step: Step)
    requires Between(s) && Enabled(s, step)
    ensures Between(Next(s, step))
  {
    hide Decide;
    match step
    case Add(checks, waken) =>
    case Run(t) =>
    case Enter(t) => DecideLeaves(AtDecision(s, step), t);
    case Wake(t) => DecideLeaves(AtDecision(s, step), t);
    case Retire(t) => DecideLeaves(AtDecision(s, step), t);
  }

  lemma {:induction false} RunsBetween(run: seq<State>, steps: seq<Step>, i: nat)
    requires IsRun(run, steps) && i < |run|
    ensures Between(run[i])
  {
    hide Next, Enabled;
    if i == 0 {
      var nBatchSize: nat, nThreads: nat :| nThreads > 0 && run[0] == Init(nBatchSize, nThreads);
    } else {
      RunsBetween(run, steps, i - 1);
      StepLeaves(run[i - 1], steps[i - 1]);
    }
  }

  /** The step by which an active thread moves. */
  function MoveOf(s: State, t: nat): Step
    requires t < |s.threads|
  {
    if s.threads[t].Working? then Run(t) else if s.threads[t].Finished? then Retire(t) else Wake(t)
  }

  /** While the master is inside, some thread can take a step without being notified by anyone. */
  lemma NeverStuck(s: State) returns (step: Step)
    requires Inv(s) && Between(s) && MasterInside(s)
    ensures Enabled(s, step) && Real(s, step)
  {
    var t := 0;
    if s.threads[0] == Waiting(false) {
      t := WaitingMasterHasHelper(s);
    }
    step := MoveOf(s, t);
  }

  function Weight(th: Thread): int {
    if th.Working? then 3 else if th.Finished? then 2 else if th == Waiting(true) then 1 else 0
  }

  /** Bounds the steps the threads can take before more checks are added. */
  ghost function Potential(s: State): int {
    4 * |s.queue| + Sum(Weight, s.threads)
  }

  /** A step by a thread in the loop, other than a spurious wake-up. */
  predicate Real(s: State, step: Step)
    requires Enabled(s, step)
  {
    step.Run? || step.Retire? || (step.Wake? && s.threads[step.t].notified)
  }

  lemma DecidePotential(s: State, t: nat)
    requires t < |s.threads| && s.threads[t].Deciding?
    ensures Potential(Decide(s, t)) <= Potential(s)
  {
    var u := Decide(s, t);
    SumUpdate(Weight, s.threads, t, u.threads[t]);
  }

  lemma {:induction false} PotentialDrops(s: State, step: Step)
    requires Enabled(s, step) && Real(s, step)
    ensures Potential(Next(s, step)) < Potential(s)
  {
    match step
    case Run(t) => SumUpdate(Weight, s.threads, t, Next(s, step).threads[t]);
    case Wake(t) =>
      SumUpdate(Weight, s.threads, t, Deciding);
      DecidePotential(AtDecision(s, step), t);
    case Retire(t) =>
      var m := if s.nTodo - |s.threads[t].batch| == 0 && t != 0 then s.threads[0 := Notified(s.threads[0])] else s.threads;
      SumUpdate(Weight, s.threads, 0, Notified(s.threads[0]));
      SumUpdate(Weight, m, t, Deciding);
      DecidePotential(Settle(s, t), t);
  }

  /** Without new checks, new threads and spurious wake-ups, a run is no longer than its first state's potential. */
  lemma {:induction false} WorkIsFinite(run: seq<State>, steps: seq<Step>)
    requires |run| == |steps| + 1
    requires forall i :: 0 <= i < |steps| ==>
               Enabled(run[i], steps[i]) && Real(run[i], steps[i]) && run[i + 1] == Next(run[i], steps[i])
    ensures |steps| <= Potential(run[0])
    decreases |steps|
  {
    hide Next, Potential;
    if steps == [] {
      PotentialNonNegative(run[0]);
    } else {
      PotentialDrops(run[0], steps[0]);
      forall i | 0 <= i < |steps| - 1
        ensures Enabled(run[1..][i], steps[1..][i]) && Real(run[1..][i], steps[1..][i])
        ensures run[1..][i + 1] == Next(run[1..][i], steps[1..][i])
      {
        assert run[1..][i] == run[i + 1] && steps[1..][i] == steps[i + 1];
      }
      WorkIsFinite(run[1..], steps[1..]);
    }
  }

  lemma PotentialNonNegative(s: State)
    ensures Potential(s) >= 0
  {
    SumNonNegative(Weight, s.threads);
  }

  /** The master leaves the loop only by returning. */
  lemma LeavesByReturning(s: State, step: Step)
    requires Enabled(s, step) && Real(s, step) && |s.threads| > 0
    ensures |Next(s, step).threads| == |s.threads|
    ensures !s.threads[0].Outside? && Next(s, step).threads[0].Outside? ==> Returns(s, step)
  {
    hide BatchSize, Reversed;
    if step.Retire? {
      assert Settle(s, step.t).threads[0].Outside? ==> s.threads[0].Outside?;
    }
  }

  lemma {:induction false} FirstReturn(run: seq<State>, steps: seq<Step>, k: nat) returns (i: nat)
    requires k <= |steps| && |run| == |steps| + 1 && MasterInside(run[k])
    requires forall j :: k <= j < |steps| ==>
               Enabled(run[j], steps[j]) && Real(run[j], steps[j]) && run[j + 1] == Next(run[j], steps[j])
    requires forall step :: Enabled(run[|steps|], step) ==> !Real(run[|steps|], step)
    requires Inv(run[|steps|]) && Between(run[|steps|])
    ensures k <= i < |steps| && Returns(run[i], steps[i])
    decreases |steps| - k
  {
    hide Inv, Between, Next, Enabled, Real, Returns;
    if k == |steps| {
      var step := NeverStuck(run[k]);
      assert false;
    } else {
      LeavesByReturning(run[k], steps[k]);
      if run[k + 1].threads[0].Outside? {
        i := k;
      } else {
        i := FirstReturn(run, steps, k + 1);
      }
    }
  }

  /**
   Waiting ends: once the master is inside, however the threads interleave, they take no more
   steps than the potential allows, and when none can be taken the master has returned, with the
   conjunction of the checks added. Entries of new threads and spurious wake-ups are not counted as steps.
   */
  lemma WaitReturns(run: seq<State>, steps: seq<Step>, k: nat) returns (i: nat)
    requires IsRun(run, steps) && k <= |steps| && MasterInside(run[k])
    requires forall j :: k <= j < |steps| ==> Real(run[j], steps[j])
    requires forall step :: Enabled(run[|steps|], step) ==> !Real(run[|steps|], step)
    ensures |steps| - k <= Potential(run[k])
    ensures k <= i < |steps| && Returns(run[i], steps[i])
    ensures Returned(run[i], steps[i]) <==> PassingSet(AddedSince(run, steps, i))
  {
    hide Inv, Between, Next, Enabled, Real, Returns, Potential;
    RunsKeep(run, steps, |steps|);
    RunsBetween(run, steps, |steps|);
    i := FirstReturn(run, steps, k);
    WaitReturnsConjunction(run, steps, i);
    var tail, moves := run[k..], steps[k..];
    forall j | 0 <= j < |moves|
      ensures Enabled(tail[j], moves[j]) && Real(tail[j], moves[j]) && tail[j + 1] == Next(tail[j], moves[j])
    {
      assert tail[j] == run[k + j] && moves[j] == steps[k + j] && tail[j + 1] == run[k + j + 1];
    }
    WorkIsFinite(tail, moves);
  }

  /** From every state between steps with the master inside, such steps lead to its return. */
  lemma {:induction false} ReturnIsReached(s: State) returns (run: seq<State>, steps: seq<Step>)
    requires Inv(s) && Between(s) && MasterInside(s)
    ensures |run| == |steps| + 1 && run[0] == s && 0 < |steps| <= Potential(s)
    ensures forall j :: 0 <= j < |steps| ==>
              Enabled(run[j], steps[j]) && Real(run[j], steps[j]) && run[j + 1] == Next(run[j], steps[j])
    ensures Returns(run[|steps| - 1], steps[|steps| - 1])
    decreases Potential(s)
  {
    hide Inv, Between, Next, Enabled, Real, Returns, Potential;
    var step := NeverStuck(s);
    var next := Next(s, step);
    StepKeeps(s, step);
    StepLeaves(s, step);
    PotentialDrops(s, step);
    PotentialNonNegative(next);
    LeavesByReturning(s, step);
    if next.threads[0].Outside? {
      run, steps := [s, next], [step];
    } else {
      var laterRun, later := ReturnIsReached(next);
      run, steps := [s] + laterRun, [step] + later;
      forall j | 0 <= j < |steps|
        ensures Enabled(run[j], steps[j]) && Real(run[j], steps[j]) && run[j + 1] == Next(run[j], steps[j])
      {
        if j > 0 {
          assert run[j] == laterRun[j - 1] && steps[j] == later[j - 1] && run[j + 1] == laterRun[j];
        }
      }
    }
  }
}
