/** The parallel check queue as a protocol: one master (thread 0) and any number of workers that
    share a queue under a mutex.  Each label is one atomic step: a critical section, or one
    check run outside it.  Every interleaving is a sequence of labels. */
module CheckQueue {
  import opened Common

  /** A check is opaque; `good` is what calling it returns. */
  datatype Check = Check(id: nat, good: bool)

  /** Where a thread is in Loop.  A thread in `Running` with `done == |batch|` is about to take
      the mutex again, with nNow == |batch| and fOk == ok. */
  datatype Thread =
    | Outside
    | Entering
    | Waiting(notified: bool)
    | Running(batch: seq<Check>, done: nat, ok: bool)

  /** The queue's fields, the threads, and two history variables: the checks added since the
      last Wait returned, and what each Wait so far was given and returned. */
  datatype State = State(
    queue: seq<Check>, nIdle: int, nTotal: int, allOk: bool, nTodo: int, batchSize: nat,
    threads: seq<Thread>,
    added: seq<Check>, returned: seq<(seq<Check>, bool)>)

  const MASTER := 0

  function Init(workers: nat, batchSize: nat): State {
    State([], 0, 0, true, 0, batchSize, seq(1 + workers, _ => Outside), [], [])
  }

  predicate AllGood(checks: seq<Check>) {
    forall c :: c in checks ==> c.good
  }

  // ----- Steps -----

  /** Add is called by the master between Waits; `wake` is the worker that notify_one picks. */
  datatype Label =
    | Start(t: nat)
    | Add(checks: seq<Check>, wake: Option<nat>)
    | RunCheck(t: nat)
    | Lock(t: nat)

  predicate IsIdle(th: Thread) {
    th == Waiting(false)
  }

  predicate Enabled(s: State, l: Label) {
    match l
    case Start(t) => t < |s.threads| && s.threads[t].Outside?
    case Add(checks, wake) =>
      && MASTER < |s.threads| && s.threads[MASTER].Outside?
      && (match wake
          case Some(w) => |checks| == 1 && 0 < w < |s.threads| && IsIdle(s.threads[w])
          case None => |checks| == 1 ==> forall w :: 0 < w < |s.threads| ==> !IsIdle(s.threads[w]))
    case RunCheck(t) =>
      t < |s.threads| && s.threads[t].Running? && s.threads[t].done < |s.threads[t].batch|
    case Lock(t) =>
      && t < |s.threads|
      && match s.threads[t]
         case Outside => false
         case Entering => true
         case Waiting(_) => true
         case Running(batch, done, _) => done == |batch|
  }

  /** A wake-up that nobody sent. */
  predicate Spurious(s: State, l: Label) {
    l.Lock? && l.t < |s.threads| && s.threads[l.t] == Waiting(false)
  }

  function Max(a: int, b: int): int { if a < b then b else a }
  function Min(a: int, b: int): int { if a < b then a else b }

  /** How many checks a thread takes; the divisor is at least one because it counts threads. */
  function BatchCount(s: State): int {
    var threads := s.nTotal + s.nIdle + 1;
    Max(1, Min(s.batchSize, if threads > 0 then |s.queue| / threads else 0))
  }

  function Reverse(q: seq<Check>): (r: seq<Check>)
    ensures |r| == |q| && forall c :: c in r <==> c in q
  {
    if q == [] then [] else [q[|q| - 1]] + Reverse(q[..|q| - 1])
  }

  function FinishBatch(s: State, t: nat): State
    requires t < |s.threads| && s.threads[t].Running?
  {
    var r := s.threads[t];
    s.(allOk := s.allOk && r.ok, nTodo := s.nTodo - |r.batch|, threads := s.threads[t := Entering])
  }

  /** Clean-up at the head of the critical section. */
  function CleanUp(s: State, t: nat): State
    requires t < |s.threads|
  {
    match s.threads[t]
    case Running(_, _, _) =>
      var f := FinishBatch(s, t);
      if f.nTodo == 0 && t != MASTER && f.threads[MASTER].Waiting?
      then f.(threads := f.threads[MASTER := Waiting(true)])
      else f
    case Entering => s.(nTotal := s.nTotal + 1)
    case Waiting(_) => s.(nIdle := s.nIdle - 1)
    case Outside => s
  }

  /** The rest of the critical section: return, wait, or take a batch off the back. */
  function Proceed(s: State, t: nat): State
    requires t < |s.threads|
  {
    if s.queue == [] then
      if t == MASTER && s.nTodo == 0 then
        s.(nTotal := s.nTotal - 1, allOk := true, threads := s.threads[t := Outside],
           added := [], returned := s.returned + [(s.added, s.allOk)])
      else
        s.(nIdle := s.nIdle + 1, threads := s.threads[t := Waiting(false)])
    else
      var k := Min(BatchCount(s), |s.queue|);
      s.(queue := s.queue[..|s.queue| - k],
         threads := s.threads[t := Running(Reverse(s.queue[|s.queue| - k..]), 0, s.allOk)])
  }

  function Notify(th: Thread): Thread {
    if th.Waiting? then Waiting(true) else th
  }

  function Apply(s: State, l: Label): State
    requires Enabled(s, l)
  {
    match l
    case Start(t) => s.(threads := s.threads[t := Entering])
    case Add(checks, wake) =>
      var threads :=
        match wake
        case Some(w) => s.threads[w := Waiting(true)]
        case None =>
          if |checks| > 1 then seq(|s.threads|, i requires 0 <= i < |s.threads| =>
                                                  if i == MASTER then s.threads[i] else Notify(s.threads[i]))
          else s.threads;
      s.(queue := s.queue + checks, nTodo := s.nTodo + |checks|, threads := threads,
         added := s.added + checks)
    case RunCheck(t) =>
      var r := s.threads[t];
      s.(threads := s.threads[t := Running(r.batch, r.done + 1, if r.ok then r.batch[r.done].good else false)])
    case Lock(t) => Proceed(CleanUp(s, t), t)
  }

  // ----- Sums over threads -----

  function Sum(ts: seq<Thread>, f: Thread -> nat): nat {
    if ts == [] then 0 else f(ts[0]) + Sum(ts[1..], f)
  }

  lemma {:induction false} SumUpdate(ts: seq<Thread>, f: Thread -> nat, i: nat, th: Thread)
    requires i < |ts|
    ensures Sum(ts[i := th], f) == Sum(ts, f) - f(ts[i]) + f(th)
  {
    if i == 0 {
      assert ts[0 := th][1..] == ts[1..];
    } else {
      SumUpdate(ts[1..], f, i - 1, th);
      assert ts[i := th][1..] == ts[1..][i - 1 := th];
    }
  }

  lemma {:induction false} SumSame(ts: seq<Thread>, us: seq<Thread>, f: Thread -> nat)
    requires |ts| == |us| && forall i :: 0 <= i < |ts| ==> f(ts[i]) == f(us[i])
    ensures Sum(ts, f) == Sum(us, f)
  {
    if ts != [] {
      SumSame(ts[1..], us[1..], f);
    }
  }

  lemma {:induction false} SumAtLeast(ts: seq<Thread>, f: Thread -> nat, i: nat)
    requires i < |ts|
    ensures Sum(ts, f) >= f(ts[i])
  {
    if i > 0 {
      SumAtLeast(ts[1..], f, i - 1);
    }
  }

  lemma {:induction false} SumPositive(ts: seq<Thread>, f: Thread -> nat) returns (i: nat)
    requires Sum(ts, f) > 0
    ensures i < |ts| && f(ts[i]) > 0
  {
    if f(ts[0]) > 0 {
      i := 0;
    } else {
      var j := SumPositive(ts[1..], f);
      i := j + 1;
    }
  }

  const Held: Thread -> nat := (th: Thread) => if th.Running? then |th.batch| else 0
  const Asleep: Thread -> nat := (th: Thread) => if th.Waiting? then 1 else 0
  const InLoop: Thread -> nat := (th: Thread) => if th.Waiting? || th.Running? then 1 else 0

  // ----- The invariant -----

  /** Nothing seen so far has failed, and nothing still to be looked at will. */
  ghost predicate NoFailure(s: State) {
    && s.allOk
    && AllGood(s.queue)
    && forall t :: 0 <= t < |s.threads| && s.threads[t].Running? ==> Clean(s.threads[t])
  }

  ghost predicate Clean(th: Thread)
    requires th.Running?
  {
    th.done <= |th.batch| && th.ok && AllGood(th.batch[th.done..])
  }

  ghost predicate Inv(s: State) {
    && |s.threads| > 0
    // nTodo counts the queued checks and those in held batches
    && s.nTodo == |s.queue| + Sum(s.threads, Held)
    && s.nIdle == Sum(s.threads, Asleep)
    && s.nTotal == Sum(s.threads, InLoop)
    && (forall t :: 0 <= t < |s.threads| && s.threads[t].Running? ==>
          s.threads[t].done <= |s.threads[t].batch| && s.threads[t].batch != [])
    // the verdict so far is the verdict on everything added since the last Wait
    && (NoFailure(s) <==> AllGood(s.added))
    // every Wait that has returned told the truth
    && (forall i :: 0 <= i < |s.returned| ==> s.returned[i].1 == AllGood(s.returned[i].0))
    // a sleeping master that nobody has notified still has work outstanding
    && (s.threads[MASTER] == Waiting(false) ==> s.queue == [] && s.nTodo > 0)
  }

  lemma InitInv(workers: nat, batchSize: nat)
    ensures Inv(Init(workers, batchSize))
  {
    var s := Init(workers, batchSize);
    SumZero(s.threads, Held);
    SumZero(s.threads, Asleep);
    SumZero(s.threads, InLoop);
  }

  lemma {:induction false} SumZero(ts: seq<Thread>, f: Thread -> nat)
    requires forall i :: 0 <= i < |ts| ==> f(ts[i]) == 0
    ensures Sum(ts, f) == 0
  {
    if ts != [] {
      SumZero(ts[1..], f);
    }
  }

  lemma SumsUpdate(ts: seq<Thread>, i: nat, th: Thread)
    requires i < |ts|
    ensures Sum(ts[i := th], Held) == Sum(ts, Held) - Held(ts[i]) + Held(th)
    ensures Sum(ts[i := th], Asleep) == Sum(ts, Asleep) - Asleep(ts[i]) + Asleep(th)
    ensures Sum(ts[i := th], InLoop) == Sum(ts, InLoop) - InLoop(ts[i]) + InLoop(th)
  {
    SumUpdate(ts, Held, i, th);
    SumUpdate(ts, Asleep, i, th);
    SumUpdate(ts, InLoop, i, th);
  }

  /** Every step keeps the invariant. */
  lemma StepInv(s: State, l: Label)
    requires Inv(s) && Enabled(s, l)
    ensures Inv(Apply(s, l))
  {
    match l
    case Start(t) =>
      SumsUpdate(s.threads, t, Entering);
      SameVerdict(s, Apply(s, l), t);
    case Add(checks, wake) => AddInv(s, checks, wake);
    case RunCheck(t) => RunCheckInv(s, t);
    case Lock(t) =>
      CleanUpMid(s, t);
      ProceedInv(CleanUp(s, t), t);
  }

  /** A thread that holds no batch before or after a step does not affect the verdict. */
  lemma SameVerdict(s: State, s': State, t: nat)
    requires s'.allOk == s.allOk && s'.queue == s.queue && |s'.threads| == |s.threads| && t < |s.threads|
    requires !s.threads[t].Running? && !s'.threads[t].Running?
    requires forall u :: 0 <= u < |s.threads| && u != t ==> s'.threads[u] == s.threads[u]
    ensures NoFailure(s) <==> NoFailure(s')
  {
    forall u | 0 <= u < |s.threads| && (s.threads[u].Running? || s'.threads[u].Running?)
      ensures s'.threads[u] == s.threads[u]
    {
    }
  }

  lemma AddInv(s: State, checks: seq<Check>, wake: Option<nat>)
    requires Inv(s) && Enabled(s, Add(checks, wake))
    ensures Inv(Apply(s, Add(checks, wake)))
  {
    var s' := Apply(s, Add(checks, wake));
    SumSame(s.threads, s'.threads, Held);
    SumSame(s.threads, s'.threads, Asleep);
    SumSame(s.threads, s'.threads, InLoop);
    assert forall t :: 0 <= t < |s.threads| && s.threads[t].Running? ==> s'.threads[t] == s.threads[t];
    assert forall t :: 0 <= t < |s.threads| && s'.threads[t].Running? ==> s'.threads[t] == s.threads[t];
    assert AllGood(s.queue + checks) <==> AllGood(s.queue) && AllGood(checks);
    assert AllGood(s.added + checks) <==> AllGood(s.added) && AllGood(checks);
  }

  lemma RunCheckInv(s: State, t: nat)
    requires Inv(s) && Enabled(s, RunCheck(t))
    ensures Inv(Apply(s, RunCheck(t)))
  {
    var s' := Apply(s, RunCheck(t));
    var r := s.threads[t];
    SumsUpdate(s.threads, t, s'.threads[t]);
    assert r.batch[r.done..] == [r.batch[r.done]] + r.batch[r.done + 1..];
    assert Clean(r) <==> Clean(s'.threads[t]);
    assert forall u :: 0 <= u < |s.threads| && u != t ==> s'.threads[u] == s.threads[u];
    assert NoFailure(s) <==> NoFailure(s');
  }

  /** Between the two halves of a critical section the thread itself counts nowhere yet, except
      that it is in the loop. */
  ghost predicate Mid(s: State, t: nat) {
    && Between(s, t)
    && (t != MASTER && s.threads[MASTER] == Waiting(false) ==> s.queue == [] && s.nTodo > 0)
  }

  ghost predicate Between(s: State, t: nat) {
    && t < |s.threads| && !s.threads[t].Running? && !s.threads[t].Outside?
    && s.nTodo == |s.queue| + Sum(s.threads, Held)
    && s.nIdle == Sum(s.threads, Asleep) - Asleep(s.threads[t])
    && s.nTotal == Sum(s.threads, InLoop) - InLoop(s.threads[t]) + 1
    && (forall u :: 0 <= u < |s.threads| && s.threads[u].Running? ==>
          s.threads[u].done <= |s.threads[u].batch| && s.threads[u].batch != [])
    && (NoFailure(s) <==> AllGood(s.added))
    && (forall i :: 0 <= i < |s.returned| ==> s.returned[i].1 == AllGood(s.returned[i].0))
  }

  lemma CleanUpMid(s: State, t: nat)
    requires Inv(s) && Enabled(s, Lock(t))
    ensures Mid(CleanUp(s, t), t)
    ensures |CleanUp(s, t).threads| == |s.threads|
  {
    if s.threads[t].Running? {
      FinishBatchBetween(s, t);
      var f := FinishBatch(s, t);
      if t != MASTER && f.threads[MASTER].Waiting? {
        NotifyBetween(f, t);
      }
    }
  }

  lemma FinishBatchBetween(s: State, t: nat)
    requires Inv(s) && Enabled(s, Lock(t)) && s.threads[t].Running?
    ensures Between(FinishBatch(s, t), t)
  {
    var r := s.threads[t];
    var f := FinishBatch(s, t);
    SumsUpdate(s.threads, t, Entering);
    assert Clean(r) <==> r.ok;
    forall u | 0 <= u < |s.threads| && u != t
      ensures f.threads[u] == s.threads[u]
    {
    }
    assert NoFailure(s) <==> NoFailure(f);
  }

  lemma NotifyBetween(f: State, t: nat)
    requires Between(f, t) && t != MASTER && f.threads[MASTER].Waiting?
    ensures Between(f.(threads := f.threads[MASTER := Waiting(true)]), t)
  {
    SumsUpdate(f.threads, MASTER, Waiting(true));
    SameVerdict(f, f.(threads := f.threads[MASTER := Waiting(true)]), MASTER);
  }

  lemma ProceedInv(s: State, t: nat)
    requires Mid(s, t)
    ensures Inv(Proceed(s, t))
  {
    var s' := Proceed(s, t);
    if s.queue == [] {
      if t == MASTER && s.nTodo == 0 {
        SumsUpdate(s.threads, t, Outside);
        forall u | 0 <= u < |s.threads| && s.threads[u].Running?
          ensures false
        {
          SumAtLeast(s.threads, Held, u);
        }
        assert NoFailure(s) <==> s.allOk;
      } else {
        SumsUpdate(s.threads, t, Waiting(false));
        SameVerdict(s, s', t);
      }
    } else {
      TakeInv(s, t);
    }
  }

  lemma TakeInv(s: State, t: nat)
    requires Mid(s, t) && s.queue != []
    ensures Inv(Proceed(s, t))
  {
    var s' := Proceed(s, t);
    var k := Min(BatchCount(s), |s.queue|);
    var r := s'.threads[t];
    SumsUpdate(s.threads, t, r);
    assert s.queue == s'.queue + s.queue[|s.queue| - k..];
    assert AllGood(s.queue) <==> AllGood(s'.queue) && AllGood(r.batch);
    assert r.batch[0..] == r.batch;
    assert forall u :: 0 <= u < |s.threads| && u != t ==> s'.threads[u] == s.threads[u];
    assert NoFailure(s) <==> NoFailure(s');
  }

  // ----- Whole runs -----

  ghost predicate IsRun(s: State, labels: seq<Label>, s': State)
    decreases |labels|
  {
    if labels == [] then s' == s
    else Enabled(s, labels[0]) && IsRun(Apply(s, labels[0]), labels[1..], s')
  }

  /** In every interleaving, from the start, with any number of workers. */
  lemma {:induction false} RunsKeepInv(s: State, labels: seq<Label>, s': State)
    requires Inv(s) && IsRun(s, labels, s')
    ensures Inv(s')
    decreases |labels|
  {
    if labels != [] {
      StepInv(s, labels[0]);
      RunsKeepInv(Apply(s, labels[0]), labels[1..], s');
    }
  }

  /** Each Wait returned true exactly when every check added since the previous one is good,
      and nTodo counts exactly the checks that are queued or in a held batch. */
  lemma WaitIsTruthful(workers: nat, batchSize: nat, labels: seq<Label>, s: State)
    requires IsRun(Init(workers, batchSize), labels, s)
    ensures forall i :: 0 <= i < |s.returned| ==> (s.returned[i].1 <==> AllGood(s.returned[i].0))
    ensures s.nTodo == |s.queue| + Sum(s.threads, Held)
  {
    InitInv(workers, batchSize);
    RunsKeepInv(Init(workers, batchSize), labels, s);
  }

  /** The batch arithmetic never divides by zero nor takes more than is there. */
  lemma BatchFits(workers: nat, batchSize: nat, labels: seq<Label>, s: State, t: nat)
    requires IsRun(Init(workers, batchSize), labels, s) && Enabled(s, Lock(t))
    ensures var m := CleanUp(s, t);
      m.nTotal + m.nIdle + 1 >= 1 && (m.queue != [] ==> 1 <= BatchCount(m) <= |m.queue|)
  {
    InitInv(workers, batchSize);
    RunsKeepInv(Init(workers, batchSize), labels, s);
    CleanUpMid(s, t);
    MidBatchFits(CleanUp(s, t), t);
  }

  lemma MidBatchFits(m: State, t: nat)
    requires t < |m.threads|
    requires m.nIdle == Sum(m.threads, Asleep) - Asleep(m.threads[t])
    requires m.nTotal == Sum(m.threads, InLoop) - InLoop(m.threads[t]) + 1
    ensures m.nTotal + m.nIdle + 1 >= 1 && (m.queue != [] ==> 1 <= BatchCount(m) <= |m.queue|)
  {
    SumAtLeast(m.threads, Asleep, t);
    SumAtLeast(m.threads, InLoop, t);
    DivAtMost(|m.queue|, m.nTotal + m.nIdle + 1);
  }

  lemma DivAtMost(a: nat, n: int)
    requires n >= 1
    ensures 0 <= a / n <= a
  {
  }

  /** A master asleep without a pending notification means some worker holds a batch. */
  lemma SleepingMasterHasWorker(workers: nat, batchSize: nat, labels: seq<Label>, s: State) returns (t: nat)
    requires IsRun(Init(workers, batchSize), labels, s)
    requires s.threads != [] && s.threads[MASTER] == Waiting(false)
    ensures 0 < t < |s.threads| && s.threads[t].Running?
  {
    InitInv(workers, batchSize);
    RunsKeepInv(Init(workers, batchSize), labels, s);
    t := SumPositive(s.threads, Held);
  }

  /** No deadlock: while a Wait is under way, some step is enabled that is no spurious wake-up. */
  lemma NoDeadlock(workers: nat, batchSize: nat, labels: seq<Label>, s: State) returns (l: Label)
    requires IsRun(Init(workers, batchSize), labels, s)
    requires s.threads != [] && !s.threads[MASTER].Outside?
    ensures Enabled(s, l) && !Spurious(s, l) && !l.Start? && !l.Add?
  {
    InitInv(workers, batchSize);
    RunsKeepInv(Init(workers, batchSize), labels, s);
    var t := MASTER;
    if s.threads[MASTER] == Waiting(false) {
      t := SleepingMasterHasWorker(workers, batchSize, labels, s);
    }
    if s.threads[t].Running? && s.threads[t].done < |s.threads[t].batch| {
      l := RunCheck(t);
    } else {
      l := Lock(t);
    }
  }

  // ----- Every Wait ends -----

  const Effort: Thread -> nat :=
    (th: Thread) =>
      match th
      case Outside => 2
      case Entering => 1
      case Waiting(notified) => if notified then 1 else 0
      case Running(batch, done, _) => 2 + if done < |batch| then |batch| - done else 0

  /** Work left: queued checks weigh more than checks in hand. */
  function Work(s: State): nat {
    4 * |s.queue| + Sum(s.threads, Effort)
  }

  /** While a Wait is under way every step lowers the work left, except a spurious wake-up that
      finds the queue empty, which changes nothing. */
  lemma WorkFalls(s: State, l: Label)
    requires Inv(s) && Enabled(s, l) && !s.threads[MASTER].Outside?
    requires !Apply(s, l).threads[MASTER].Outside?
    ensures Work(Apply(s, l)) < Work(s) || (Spurious(s, l) && s.queue == [] && Apply(s, l) == s)
  {
    match l
    case Start(t) => SumUpdate(s.threads, Effort, t, Entering);
    case RunCheck(t) => SumUpdate(s.threads, Effort, t, Apply(s, l).threads[t]);
    case Lock(t) => LockWorkFalls(s, t);
  }

  lemma LockWorkFalls(s: State, t: nat)
    requires Inv(s) && Enabled(s, Lock(t))
    requires !Apply(s, Lock(t)).threads[t].Outside?
    ensures Work(Apply(s, Lock(t))) < Work(s) || (Spurious(s, Lock(t)) && s.queue == [] && Apply(s, Lock(t)) == s)
  {
    CleanUpWork(s, t);
    var m := CleanUp(s, t);
    var s' := Proceed(m, t);
    SumUpdate(m.threads, Effort, t, s'.threads[t]);
    if m.queue == [] && s.threads[t] == Waiting(false) {
      assert s'.threads == s.threads;
    }
  }

  lemma CleanUpWork(s: State, t: nat)
    requires Inv(s) && Enabled(s, Lock(t))
    ensures |CleanUp(s, t).threads| == |s.threads|
    ensures Work(CleanUp(s, t)) <= Work(s)
    ensures CleanUp(s, t).queue == s.queue
    ensures CleanUp(s, t).threads[t] == if s.threads[t].Running? then Entering else s.threads[t]
  {
    if s.threads[t].Running? {
      SumUpdate(s.threads, Effort, t, Entering);
      if t != MASTER && s.threads[MASTER].Waiting? {
        SumUpdate(s.threads[t := Entering], Effort, MASTER, Waiting(true));
      }
    }
  }

  /** A run inside one Wait, without idle wake-ups, is no longer than the work left at its start:
      so every Wait returns. */
  lemma {:induction false} WaitEnds(s: State, labels: seq<Label>, s': State)
    requires Inv(s) && StaysInWait(s, labels, s')
    ensures |labels| <= Work(s)
    decreases |labels|
  {
    if labels != [] {
      StepInv(s, labels[0]);
      WorkFalls(s, labels[0]);
      WaitEnds(Apply(s, labels[0]), labels[1..], s');
    }
  }

  ghost predicate StaysInWait(s: State, labels: seq<Label>, s': State)
    decreases |labels|
  {
    && |s.threads| > 0 && !s.threads[MASTER].Outside?
    && if labels == [] then s' == s
       else
         && Enabled(s, labels[0])
         && !(Spurious(s, labels[0]) && s.queue == [])
         && StaysInWait(Apply(s, labels[0]), labels[1..], s')
  }
}
