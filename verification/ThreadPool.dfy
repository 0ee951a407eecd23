/**
 The thread pool as an interleaving of its threads: workers, callers of submit and
 a caller of shutdown, sharing a mutex, a condition variable and a task queue.
 Blocking on the condition variable releases the mutex in the same step, wake-ups
 may be spurious, and a notification is sent after the mutex was released.
 */
module ThreadPool {

  /** Where a worker is: the mutex is held while Checking or Taking. */
  datatype Worker = Locking | Checking | Blocked | Taking | Running(task: nat) | Exited

  datatype Submitter = SubmitLocking(task: nat) | SubmitHolding(task: nat) | Notifying | Submitted

  datatype Shutdown = NotCalled | ShutLocking | ShutHolding | NotifyingAll | Joining | Joined

  datatype Holder = Free | HeldByWorker(i: nat) | HeldBySubmitter(k: nat) | HeldByShutdown

  /** `accepted` and `taken` record the tasks pushed and popped so far, in order. */
  datatype Pool = Pool(
    workers: seq<Worker>,
    submitters: seq<Submitter>,
    shutdown: Shutdown,
    holder: Holder,
    tasks: seq<nat>,
    stopping: bool,
    accepted: seq<nat>,
    taken: seq<nat>)

  datatype Event =
    | WorkerLocks(i: nat)
    | WorkerChecks(i: nat)
    | WorkerTakes(i: nat)
    | WorkerFinishes(i: nat)
    | SpuriousWake(i: nat)
    | SubmitCalled(task: nat)
    | SubmitLocks(k: nat)
    | SubmitPushes(k: nat)
    | SubmitNotifies(k: nat, woken: nat)
    | ShutdownCalled
    | ShutdownLocks
    | ShutdownSets
    | ShutdownNotifies
    | ShutdownJoins

  function Start(n: nat): Pool {
    Pool(seq(n, _ => Locking), [], NotCalled, Free, [], false, [], [])
  }

  predicate AnyBlocked(p: Pool) {
    exists i | 0 <= i < |p.workers| :: p.workers[i] == Blocked
  }

  predicate Enabled(p: Pool, e: Event) {
    match e
    case WorkerLocks(i) => i < |p.workers| && p.workers[i] == Locking && p.holder == Free
    case WorkerChecks(i) => i < |p.workers| && p.workers[i] == Checking
    case WorkerTakes(i) => i < |p.workers| && p.workers[i] == Taking && p.tasks != []
    case WorkerFinishes(i) => i < |p.workers| && p.workers[i].Running?
    case SpuriousWake(i) => i < |p.workers| && p.workers[i] == Blocked
    case SubmitCalled(_) => true
    case SubmitLocks(k) => k < |p.submitters| && p.submitters[k].SubmitLocking? && p.holder == Free
    case SubmitPushes(k) => k < |p.submitters| && p.submitters[k].SubmitHolding?
    case SubmitNotifies(k, woken) =>
      && k < |p.submitters|
      && p.submitters[k] == Notifying
      && (AnyBlocked(p) ==> woken < |p.workers| && p.workers[woken] == Blocked)
    case ShutdownCalled => p.shutdown == NotCalled || p.shutdown == Joined
    case ShutdownLocks => p.shutdown == ShutLocking && p.holder == Free
    case ShutdownSets => p.shutdown == ShutHolding
    case ShutdownNotifies => p.shutdown == NotifyingAll
    case ShutdownJoins => p.shutdown == Joining && forall i | 0 <= i < |p.workers| :: p.workers[i] == Exited
  }

  function WakeAll(ws: seq<Worker>): (r: seq<Worker>)
    ensures |r| == |ws|
    ensures forall i | 0 <= i < |ws| :: r[i] == if ws[i] == Blocked then Locking else ws[i]
  {
    if ws == [] then [] else [if ws[0] == Blocked then Locking else ws[0]] + WakeAll(ws[1..])
  }

  function Apply(p: Pool, e: Event): Pool
    requires Enabled(p, e)
  {
    match e
    case WorkerLocks(i) => p.(workers := p.workers[i := Checking], holder := HeldByWorker(i))
    case WorkerChecks(i) =>
      if !p.stopping && p.tasks == [] then p.(workers := p.workers[i := Blocked], holder := Free)
      else if p.stopping && p.tasks == [] then p.(workers := p.workers[i := Exited], holder := Free)
      else p.(workers := p.workers[i := Taking])
    case WorkerTakes(i) =>
      p.(workers := p.workers[i := Running(p.tasks[0])],
         holder := Free,
         tasks := p.tasks[1..],
         taken := p.taken + [p.tasks[0]])
    case WorkerFinishes(i) => p.(workers := p.workers[i := Locking])
    case SpuriousWake(i) => p.(workers := p.workers[i := Locking])
    case SubmitCalled(task) => p.(submitters := p.submitters + [SubmitLocking(task)])
    case SubmitLocks(k) =>
      p.(submitters := p.submitters[k := SubmitHolding(p.submitters[k].task)], holder := HeldBySubmitter(k))
    case SubmitPushes(k) =>
      if p.stopping then p.(submitters := p.submitters[k := Submitted], holder := Free)
      else p.(submitters := p.submitters[k := Notifying],
              holder := Free,
              tasks := p.tasks + [p.submitters[k].task],
              accepted := p.accepted + [p.submitters[k].task])
    case SubmitNotifies(k, woken) =>
      p.(submitters := p.submitters[k := Submitted],
         workers := if AnyBlocked(p) then p.workers[woken := Locking] else p.workers)
    case ShutdownCalled => p.(shutdown := ShutLocking)
    case ShutdownLocks => p.(shutdown := ShutHolding, holder := HeldByShutdown)
    case ShutdownSets => p.(shutdown := NotifyingAll, holder := Free, stopping := true)
    case ShutdownNotifies => p.(shutdown := Joining, workers := WakeAll(p.workers))
    case ShutdownJoins => p.(shutdown := Joined)
  }

  // ----- Counting threads -----

  function Count<T>(f: T -> bool, xs: seq<T>): nat {
    if xs == [] then 0 else (if f(xs[0]) then 1 else 0) + Count(f, xs[1..])
  }

  lemma {:induction false} CountUpdate<T>(f: T -> bool, xs: seq<T>, i: nat, x: T)
    requires i < |xs|
    ensures Count(f, xs[i := x]) + (if f(xs[i]) then 1 else 0) == Count(f, xs) + (if f(x) then 1 else 0)
  {
    if i == 0 {
      assert xs[i := x][1..] == xs[1..];
    } else {
      assert xs[i := x][1..] == xs[1..][i - 1 := x];
      CountUpdate(f, xs[1..], i - 1, x);
    }
  }

  lemma {:induction false} CountAppend<T>(f: T -> bool, xs: seq<T>, x: T)
    ensures Count(f, xs + [x]) == Count(f, xs) + (if f(x) then 1 else 0)
  {
    if xs == [] {
      assert xs + [x] == [x];
    } else {
      assert (xs + [x])[1..] == xs[1..] + [x];
      CountAppend(f, xs[1..], x);
    }
  }

  /** On its way to look at the queue. */
  predicate Awake(w: Worker) {
    w == Locking || w == Checking || w == Taking
  }

  predicate AboutToNotify(s: Submitter) {
    s == Notifying
  }

  // ----- The invariant -----

  predicate MutexInv(p: Pool) {
    && (forall i: nat | i < |p.workers| :: (p.workers[i] == Checking || p.workers[i] == Taking) <==> p.holder == HeldByWorker(i))
    && (forall k: nat | k < |p.submitters| :: p.submitters[k].SubmitHolding? <==> p.holder == HeldBySubmitter(k))
    && (p.shutdown == ShutHolding <==> p.holder == HeldByShutdown)
    && (p.holder.HeldByWorker? ==> p.holder.i < |p.workers|)
    && (p.holder.HeldBySubmitter? ==> p.holder.k < |p.submitters|)
  }

  predicate QueueInv(p: Pool) {
    && p.accepted == p.taken + p.tasks
    && (forall i | 0 <= i < |p.workers| && p.workers[i] == Taking :: p.tasks != [])
    && (forall i | 0 <= i < |p.workers| && p.workers[i] == Exited :: p.stopping && p.tasks == [])
  }

  predicate StopInv(p: Pool) {
    && (!p.stopping ==> p.shutdown in {NotCalled, ShutLocking, ShutHolding})
    && (p.stopping && AnyBlocked(p) ==> p.shutdown == NotifyingAll)
  }

  /** While a worker sleeps, every queued task has a worker on its way or a notification still to come. */
  predicate WakeInv(p: Pool) {
    !p.stopping && AnyBlocked(p) ==> |p.tasks| <= Count(AboutToNotify, p.submitters) + Count(Awake, p.workers)
  }

  predicate Inv(p: Pool) {
    MutexInv(p) && QueueInv(p) && StopInv(p) && WakeInv(p)
  }

  lemma MutexKept(p: Pool, e: Event)
    requires Inv(p) && Enabled(p, e)
    ensures MutexInv(Apply(p, e))
  {
  }

  lemma TakeKeepsQueue(p: Pool, i: nat)
    requires QueueInv(p) && Enabled(p, WorkerTakes(i)) && MutexInv(p)
    ensures QueueInv(Apply(p, WorkerTakes(i)))
  {
    assert p.taken + p.tasks == (p.taken + [p.tasks[0]]) + p.tasks[1..];
  }

  lemma PushKeepsQueue(p: Pool, k: nat)
    requires QueueInv(p) && Enabled(p, SubmitPushes(k))
    ensures QueueInv(Apply(p, SubmitPushes(k)))
  {
    assert p.taken + (p.tasks + [p.submitters[k].task]) == (p.taken + p.tasks) + [p.submitters[k].task];
  }

  lemma QueueKept(p: Pool, e: Event)
    requires Inv(p) && Enabled(p, e)
    ensures QueueInv(Apply(p, e))
  {
    if e.WorkerTakes? {
      TakeKeepsQueue(p, e.i);
    } else if e.SubmitPushes? {
      PushKeepsQueue(p, e.k);
    }
  }

  lemma StopKept(p: Pool, e: Event)
    requires Inv(p) && Enabled(p, e)
    ensures StopInv(Apply(p, e))
  {
  }

  lemma WakeKept(p: Pool, e: Event)
    requires Inv(p) && Enabled(p, e)
    ensures WakeInv(Apply(p, e))
  {
    var q := Apply(p, e);
    match e {
      case WorkerLocks(i) => CountUpdate(Awake, p.workers, i, Checking);
      case WorkerChecks(i) => CountUpdate(Awake, p.workers, i, q.workers[i]);
      case WorkerTakes(i) => CountUpdate(Awake, p.workers, i, Running(p.tasks[0]));
      case WorkerFinishes(i) => CountUpdate(Awake, p.workers, i, Locking);
      case SpuriousWake(i) => CountUpdate(Awake, p.workers, i, Locking);
      case SubmitCalled(task) => CountAppend(AboutToNotify, p.submitters, SubmitLocking(task));
      case SubmitLocks(k) => CountUpdate(AboutToNotify, p.submitters, k, q.submitters[k]);
      case SubmitPushes(k) => CountUpdate(AboutToNotify, p.submitters, k, q.submitters[k]);
      case SubmitNotifies(k, woken) =>
        CountUpdate(AboutToNotify, p.submitters, k, Submitted);
        if AnyBlocked(p) {
          CountUpdate(Awake, p.workers, woken, Locking);
        }
      case _ =>
    }
  }

  lemma StepKeepsInv(p: Pool, e: Event)
    requires Inv(p) && Enabled(p, e)
    ensures Inv(Apply(p, e)) && |Apply(p, e).workers| == |p.workers|
  {
    MutexKept(p, e);
    QueueKept(p, e);
    StopKept(p, e);
    WakeKept(p, e);
  }

  // ----- Every run -----

  ghost predicate Run(n: nat, trace: seq<Pool>, events: seq<Event>) {
    && |trace| == |events| + 1
    && trace[0] == Start(n)
    && forall j | 0 <= j < |events| :: Enabled(trace[j], events[j]) && trace[j + 1] == Apply(trace[j], events[j])
  }

  lemma {:induction false} InvHolds(n: nat, trace: seq<Pool>, events: seq<Event>, j: nat)
    requires Run(n, trace, events)
    requires j < |trace|
    ensures Inv(trace[j])
    ensures |trace[j].workers| == n
  {
    if j > 0 {
      InvHolds(n, trace, events, j - 1);
      var (p, e) := (trace[j - 1], events[j - 1]);
      assert Enabled(p, e) && trace[j] == Apply(p, e);
      StepKeepsInv(p, e);
    }
  }

  /** Accepted tasks are taken once each, in the order they were accepted, and the rest wait in that order. */
  lemma FifoExactlyOnce(n: nat, trace: seq<Pool>, events: seq<Event>, j: nat)
    requires Run(n, trace, events)
    requires j < |trace|
    ensures trace[j].accepted == trace[j].taken + trace[j].tasks
  {
    InvHolds(n, trace, events, j);
  }

  /** No worker sleeps while a queued task has neither a worker on its way nor a notification to come. */
  lemma NoIdleWorkerForQueuedTask(n: nat, trace: seq<Pool>, events: seq<Event>, j: nat)
    requires Run(n, trace, events)
    requires j < |trace|
    requires !trace[j].stopping && AnyBlocked(trace[j])
    ensures |trace[j].tasks| <= Count(AboutToNotify, trace[j].submitters) + Count(Awake, trace[j].workers)
  {
    InvHolds(n, trace, events, j);
  }

  /** No wake-up is lost: a queued task is never left with every worker asleep and no notification pending. */
  lemma NoLostWakeup(n: nat, trace: seq<Pool>, events: seq<Event>, j: nat)
    requires n > 0
    requires Run(n, trace, events)
    requires j < |trace|
    requires trace[j].tasks != []
    ensures || (exists i | 0 <= i < |trace[j].workers| :: Awake(trace[j].workers[i]) || trace[j].workers[i].Running?)
            || (exists k | 0 <= k < |trace[j].submitters| :: trace[j].submitters[k] == Notifying)
            || trace[j].shutdown == NotifyingAll
  {
    InvHolds(n, trace, events, j);
    var p := trace[j];
    if p.workers[0] == Blocked {
      assert AnyBlocked(p);
      if !p.stopping {
        if Count(Awake, p.workers) > 0 {
          var i := FindCounted(Awake, p.workers);
        } else {
          var k := FindCounted(AboutToNotify, p.submitters);
        }
      }
    } else {
      assert Awake(p.workers[0]) || p.workers[0].Running?;
    }
  }

  lemma {:induction false} FindCounted<T>(f: T -> bool, xs: seq<T>) returns (i: nat)
    requires Count(f, xs) > 0
    ensures i < |xs| && f(xs[i])
  {
    if f(xs[0]) {
      i := 0;
    } else {
      i := FindCounted(f, xs[1..]);
      i := i + 1;
    }
  }

  /** When all workers have exited, every accepted task was taken and the queue is empty. */
  lemma ExitedMeansDrained(n: nat, trace: seq<Pool>, events: seq<Event>, j: nat)
    requires n > 0
    requires Run(n, trace, events)
    requires j < |trace|
    requires forall i | 0 <= i < |trace[j].workers| :: trace[j].workers[i] == Exited
    ensures trace[j].tasks == [] && trace[j].taken == trace[j].accepted
  {
    InvHolds(n, trace, events, j);
    assert trace[j].workers[0] == Exited;
  }

  /** shutdown never waits to join a sleeping worker. */
  lemma JoinMeetsNoSleeper(n: nat, trace: seq<Pool>, events: seq<Event>, j: nat, i: nat)
    requires Run(n, trace, events)
    requires j < |trace|
    requires trace[j].shutdown == Joining
    requires i < |trace[j].workers|
    ensures trace[j].workers[i] != Blocked
  {
    InvHolds(n, trace, events, j);
  }

  // ----- Every schedule comes to rest -----

  /** A step of a thread inside the pool, as opposed to a new call or a wake-up for no reason. */
  predicate Internal(e: Event) {
    !e.SpuriousWake? && !e.SubmitCalled? && !e.ShutdownCalled?
  }

  /** An upper bound on the steps a worker has before it, tasks still in the queue apart. */
  function WorkerLeft(w: Worker): nat {
    match w
    case Running(_) => 4
    case Locking => 3
    case Checking => 2
    case Taking => 1
    case Blocked => 0
    case Exited => 0
  }

  /** The same for a caller of submit, with the task it brings and the worker it wakes. */
  function SubmitterLeft(s: Submitter): nat {
    match s
    case SubmitLocking(_) => 10
    case SubmitHolding(_) => 9
    case Notifying => 4
    case Submitted => 0
  }

  /** The same for shutdown, with the n workers it may wake. */
  function ShutdownLeft(s: Shutdown, n: nat): nat {
    match s
    case ShutLocking => 3 * n + 4
    case ShutHolding => 3 * n + 3
    case NotifyingAll => 3 * n + 2
    case Joining => 1
    case NotCalled => 0
    case Joined => 0
  }

  function Sum<T>(f: T -> nat, xs: seq<T>): nat {
    if xs == [] then 0 else f(xs[0]) + Sum(f, xs[1..])
  }

  lemma {:induction false} SumUpdate<T>(f: T -> nat, xs: seq<T>, i: nat, x: T)
    requires i < |xs|
    ensures Sum(f, xs[i := x]) + f(xs[i]) == Sum(f, xs) + f(x)
  {
    if i == 0 {
      assert xs[i := x][1..] == xs[1..];
    } else {
      assert xs[i := x][1..] == xs[1..][i - 1 := x];
      SumUpdate(f, xs[1..], i - 1, x);
    }
  }

  lemma {:induction false} WakeAllSum(ws: seq<Worker>)
    ensures Sum(WorkerLeft, WakeAll(ws)) <= Sum(WorkerLeft, ws) + 3 * |ws|
  {
    if ws != [] {
      WakeAllSum(ws[1..]);
      assert WakeAll(ws)[1..] == WakeAll(ws[1..]);
    }
  }

  function Work(p: Pool): nat {
    Sum(WorkerLeft, p.workers) + Sum(SubmitterLeft, p.submitters) + 4 * |p.tasks| + ShutdownLeft(p.shutdown, |p.workers|)
  }

  lemma WorkerStepDecreases(p: Pool, e: Event)
    requires Enabled(p, e) && (e.WorkerLocks? || e.WorkerChecks? || e.WorkerTakes? || e.WorkerFinishes?)
    ensures Work(Apply(p, e)) < Work(p)
  {
    SumUpdate(WorkerLeft, p.workers, e.i, Apply(p, e).workers[e.i]);
  }

  lemma SubmitterStepDecreases(p: Pool, e: Event)
    requires Enabled(p, e) && (e.SubmitLocks? || e.SubmitPushes? || e.SubmitNotifies?)
    ensures Work(Apply(p, e)) < Work(p)
  {
    SumUpdate(SubmitterLeft, p.submitters, e.k, Apply(p, e).submitters[e.k]);
    if e.SubmitNotifies? && AnyBlocked(p) {
      SumUpdate(WorkerLeft, p.workers, e.woken, Locking);
    }
  }

  /** Every step inside the pool leaves less to do. */
  lemma WorkDecreases(p: Pool, e: Event)
    requires Enabled(p, e) && Internal(e)
    ensures Work(Apply(p, e)) < Work(p)
  {
    if e.WorkerLocks? || e.WorkerChecks? || e.WorkerTakes? || e.WorkerFinishes? {
      WorkerStepDecreases(p, e);
    } else if e.SubmitLocks? || e.SubmitPushes? || e.SubmitNotifies? {
      SubmitterStepDecreases(p, e);
    } else if e.ShutdownNotifies? {
      WakeAllSum(p.workers);
    }
  }

  /** Nothing is queued, no caller is inside, every worker sleeps or has exited, and shutdown, if called, has returned. */
  predicate AtRest(p: Pool) {
    && p.tasks == [] && p.holder == Free
    && (forall i | 0 <= i < |p.workers| :: p.workers[i] == Blocked || p.workers[i] == Exited)
    && (forall k | 0 <= k < |p.submitters| :: p.submitters[k] == Submitted)
    && (p.shutdown == NotCalled || p.shutdown == Joined)
  }

  lemma HolderHasMove(p: Pool) returns (e: Event)
    requires MutexInv(p) && QueueInv(p) && p.holder != Free
    ensures Enabled(p, e) && Internal(e)
  {
    match p.holder {
      case HeldByWorker(i) => e := if p.workers[i] == Checking then WorkerChecks(i) else WorkerTakes(i);
      case HeldBySubmitter(k) => e := SubmitPushes(k);
      case HeldByShutdown => e := ShutdownSets;
    }
  }

  lemma WorkerHasMove(p: Pool, i: nat) returns (e: Event)
    requires MutexInv(p) && p.holder == Free && i < |p.workers|
    requires p.workers[i] != Blocked && p.workers[i] != Exited
    ensures Enabled(p, e) && Internal(e)
  {
    e := if p.workers[i].Running? then WorkerFinishes(i) else WorkerLocks(i);
  }

  lemma SubmitterHasMove(p: Pool, k: nat) returns (e: Event)
    requires MutexInv(p) && p.holder == Free && k < |p.submitters| && p.submitters[k] != Submitted
    ensures Enabled(p, e) && Internal(e)
  {
    if p.submitters[k] != Notifying {
      e := SubmitLocks(k);
    } else if AnyBlocked(p) {
      var w :| 0 <= w < |p.workers| && p.workers[w] == Blocked;
      e := SubmitNotifies(k, w);
    } else {
      e := SubmitNotifies(k, 0);
    }
  }

  lemma ShutdownHasMove(p: Pool) returns (e: Event)
    requires MutexInv(p) && StopInv(p) && p.holder == Free && p.shutdown != NotCalled && p.shutdown != Joined
    requires forall i | 0 <= i < |p.workers| :: p.workers[i] == Blocked || p.workers[i] == Exited
    ensures Enabled(p, e) && Internal(e)
  {
    e := if p.shutdown == ShutLocking then ShutdownLocks
         else if p.shutdown == NotifyingAll then ShutdownNotifies else ShutdownJoins;
  }

  /** With at least one worker, the pool is never stuck: unless it is at rest some thread inside can go on. */
  lemma NeverStuck(p: Pool) returns (e: Event)
    requires Inv(p) && |p.workers| > 0 && !AtRest(p)
    ensures Enabled(p, e) && Internal(e)
  {
    if p.holder != Free {
      e := HolderHasMove(p);
    } else if i: nat :| i < |p.workers| && p.workers[i] != Blocked && p.workers[i] != Exited {
      e := WorkerHasMove(p, i);
    } else if k: nat :| k < |p.submitters| && p.submitters[k] != Submitted {
      e := SubmitterHasMove(p, k);
    } else if p.shutdown != NotCalled && p.shutdown != Joined {
      e := ShutdownHasMove(p);
    } else {
      SleepersMeanEmpty(p);
    }
  }

  lemma SleepersMeanEmpty(p: Pool)
    requires Inv(p) && |p.workers| > 0
    requires forall i | 0 <= i < |p.workers| :: p.workers[i] == Blocked || p.workers[i] == Exited
    requires forall k | 0 <= k < |p.submitters| :: p.submitters[k] == Submitted
    requires p.shutdown == NotCalled || p.shutdown == Joined
    ensures p.tasks == []
  {
    if p.workers[0] == Blocked {
      assert AnyBlocked(p);
      CountNone(Awake, p.workers);
      CountNone(AboutToNotify, p.submitters);
    }
  }

  lemma {:induction false} CountNone<T>(f: T -> bool, xs: seq<T>)
    requires forall i | 0 <= i < |xs| :: !f(xs[i])
    ensures Count(f, xs) == 0
  {
    if xs != [] {
      CountNone(f, xs[1..]);
    }
  }

  /** From any reachable state every schedule of the threads inside the pool is bounded, whoever goes first; and where
      it can go no further, all accepted tasks were taken and have been run, and a shutdown has joined every worker. */
  lemma EveryScheduleComesToRest(n: nat, trace: seq<Pool>, events: seq<Event>, j: nat, k: nat)
    requires n > 0 && Run(n, trace, events) && j <= k < |trace|
    requires forall i | j <= i < k :: Internal(events[i])
    ensures k - j <= Work(trace[j]) - Work(trace[k])
    ensures (forall e | Enabled(trace[k], e) :: !Internal(e)) ==> AtRest(trace[k]) && trace[k].taken == trace[k].accepted
  {
    InvHolds(n, trace, events, k);
    if !AtRest(trace[k]) {
      var e := NeverStuck(trace[k]);
    } else {
      assert trace[k].taken + [] == trace[k].taken;
    }
    ScheduleBounded(n, trace, events, j, k);
  }

  lemma {:induction false} ScheduleBounded(n: nat, trace: seq<Pool>, events: seq<Event>, j: nat, k: nat)
    requires Run(n, trace, events) && j <= k < |trace|
    requires forall i | j <= i < k :: Internal(events[i])
    ensures k - j <= Work(trace[j]) - Work(trace[k])
    decreases k
  {
    if j < k {
      ScheduleBounded(n, trace, events, j, k - 1);
      StepInRun(n, trace, events, k - 1);
    }
  }

  lemma StepInRun(n: nat, trace: seq<Pool>, events: seq<Event>, i: nat)
    requires Run(n, trace, events) && i < |events| && Internal(events[i])
    ensures Work(trace[i + 1]) < Work(trace[i])
  {
    assert Enabled(trace[i], events[i]) && trace[i + 1] == Apply(trace[i], events[i]);
    WorkDecreases(trace[i], events[i]);
  }
}
