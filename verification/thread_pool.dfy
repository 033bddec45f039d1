/** The thread pool: workers, a task queue under a lock, and a condition variable. A step is one critical section,
    one notification or one wake-up; any interleaving of steps is a run. */
module ThreadPools {

  /** A worker is blocked in `wait`; has the lock to take and the predicate to check; runs a task, the `ticket`-th
      that was started; or is gone. */
  datatype Worker<T> = Blocked | Checking | Running(task: T, ticket: nat) | Exited

  /** `notifies` counts the callers of `enqueue` that have pushed but not yet notified, `stopping` the callers of
      `shutdown` that have set `stop` but not yet notified all. `accepted` and `started` record the tasks pushed
      and popped, in order, and `finished` which of the started ones have run to their end. */
  datatype Pool<T> = Pool(
    workers: seq<Worker<T>>,
    queue: seq<T>,
    stop: bool,
    notifies: nat,
    stopping: nat,
    returned: bool,
    accepted: seq<T>,
    started: seq<T>,
    finished: seq<bool>)

  /** At least one worker, each about to check the predicate for the first time. */
  function Start<T>(threads: nat): Pool<T>
  {
    var n := if threads == 0 then 1 else threads;
    Pool(seq(n, _ => Checking), [], false, 0, 0, false, [], [], [])
  }

  // --- Steps ------------------------------------------------------------------------------------------

  datatype Step<T> =
    | Enqueue(task: T)
    | Notify(waker: Waker)
    | Wake(w: nat)
    | Check(w: nat)
    | Finish(w: nat)
    | SetStop
    | NotifyAll
    | Return

  /** Whom `notify_one` wakes: a blocked worker, or nobody when none is blocked. */
  datatype Waker = Nobody | Somebody(w: nat)

  predicate IsBlocked<T>(p: Pool<T>, w: nat) { w < |p.workers| && p.workers[w].Blocked? }

  predicate Enabled<T>(p: Pool<T>, step: Step<T>)
  {
    match step
    case Enqueue(_) => true
    case Notify(Somebody(w)) => p.notifies > 0 && IsBlocked(p, w)
    case Notify(Nobody) => p.notifies > 0 && forall w | 0 <= w < |p.workers| :: !IsBlocked(p, w)
    case Wake(w) => IsBlocked(p, w)
    case Check(w) => w < |p.workers| && p.workers[w].Checking?
    case Finish(w) => w < |p.workers| && p.workers[w].Running? && p.workers[w].ticket < |p.finished|
    case SetStop => true
    case NotifyAll => p.stopping > 0
    case Return => p.stop && p.stopping == 0 && forall w | 0 <= w < |p.workers| :: p.workers[w].Exited?
  }

  function Put<T>(p: Pool<T>, w: nat, worker: Worker<T>): Pool<T>
    requires w < |p.workers|
  {
    p.(workers := p.workers[w := worker])
  }

  /** The critical section of `enqueue`, which throws once the pool is stopped. */
  function Push<T>(p: Pool<T>, task: T): Pool<T>
  {
    if p.stop then p
    else p.(queue := p.queue + [task], accepted := p.accepted + [task], notifies := p.notifies + 1)
  }

  /** A worker checks its predicate: it blocks, leaves, or pops the oldest task. */
  function Checked<T>(p: Pool<T>, w: nat): Pool<T>
    requires w < |p.workers|
  {
    if !p.stop && p.queue == [] then Put(p, w, Blocked)
    else if p.queue == [] then Put(p, w, Exited)
    else
      Put(p, w, Running(p.queue[0], |p.started|))
      .(queue := p.queue[1..], started := p.started + [p.queue[0]], finished := p.finished + [false])
  }

  function Roused<T>(workers: seq<Worker<T>>): seq<Worker<T>>
  {
    seq(|workers|, w requires 0 <= w < |workers| => if workers[w].Blocked? then Checking else workers[w])
  }

  function Apply<T>(p: Pool<T>, step: Step<T>): Pool<T>
    requires Enabled(p, step)
  {
    match step
    case Enqueue(task) => Push(p, task)
    case Notify(Somebody(w)) => Put(p, w, Checking).(notifies := p.notifies - 1)
    case Notify(Nobody) => p.(notifies := p.notifies - 1)
    case Wake(w) => Put(p, w, Checking)
    case Check(w) => Checked(p, w)
    case Finish(w) => Put(p, w, Checking).(finished := p.finished[p.workers[w].ticket := true])
    case SetStop => p.(stop := true, stopping := p.stopping + 1)
    case NotifyAll => p.(workers := Roused(p.workers), stopping := p.stopping - 1)
    case Return => p.(returned := true)
  }

  predicate Runs<T>(p: Pool<T>, steps: seq<Step<T>>)
    decreases |steps|
  {
    steps != [] ==> Enabled(p, steps[0]) && Runs(Apply(p, steps[0]), steps[1..])
  }

  function After<T>(p: Pool<T>, steps: seq<Step<T>>): Pool<T>
    requires Runs(p, steps)
    decreases |steps|
  {
    if steps == [] then p else After(Apply(p, steps[0]), steps[1..])
  }

  // --- What every run keeps ---------------------------------------------------------------------------

  /** Every accepted task is started once and in order, or still queued in order. */
  predicate InOrder<T(==)>(p: Pool<T>) { p.started + p.queue == p.accepted }

  predicate RunsTicket<T>(workers: seq<Worker<T>>, w: nat, ticket: nat)
  {
    w < |workers| && workers[w].Running? && workers[w].ticket == ticket
  }

  /** Every started task that is not finished is run by one worker, and no other is. */
  predicate Accounted<T(==)>(p: Pool<T>)
  {
    && |p.finished| == |p.started|
    && (forall w | 0 <= w < |p.workers| && p.workers[w].Running? ::
          var k := p.workers[w].ticket;
          k < |p.started| && p.started[k] == p.workers[w].task && !p.finished[k])
    && (forall v, w | 0 <= v < w < |p.workers| && p.workers[v].Running? && p.workers[w].Running? ::
          p.workers[v].ticket != p.workers[w].ticket)
    && (forall k | 0 <= k < |p.started| && !p.finished[k] :: exists w | 0 <= w < |p.workers| :: RunsTicket(p.workers, w, k))
  }

  predicate Awake<T>(p: Pool<T>) { exists w | 0 <= w < |p.workers| :: !p.workers[w].Blocked? }

  /** A queued task is never forgotten: a notification is on its way, or some worker will look at the queue. */
  predicate NotForgotten<T(==)>(p: Pool<T>) { p.queue != [] ==> p.notifies > 0 || Awake(p) }

  /** Workers leave only a stopped pool with an empty queue; once all are notified of the stop none is blocked. */
  predicate Orderly<T(==)>(p: Pool<T>)
  {
    && |p.workers| > 0
    && (forall w | 0 <= w < |p.workers| && p.workers[w].Exited? :: p.stop && p.queue == [])
    && (p.stopping > 0 ==> p.stop)
    && (p.stop && p.stopping == 0 ==> forall w | 0 <= w < |p.workers| :: !p.workers[w].Blocked?)
    && (p.returned ==> p.stop && forall w | 0 <= w < |p.workers| :: p.workers[w].Exited?)
  }

  predicate Inv<T(==)>(p: Pool<T>)
  {
    InOrder(p) && Accounted(p) && NotForgotten(p) && Orderly(p)
  }

  /** A worker that is not running, made not running otherwise. */
  lemma IdleAccounted<T>(p: Pool<T>, w: nat, worker: Worker<T>)
    requires Accounted(p) && w < |p.workers| && !p.workers[w].Running? && !worker.Running?
    ensures Accounted(Put(p, w, worker))
  {
    var q := Put(p, w, worker);
    forall k | 0 <= k < |q.started| && !q.finished[k]
      ensures exists v | 0 <= v < |q.workers| :: RunsTicket(q.workers, v, k)
    {
      var v: nat :| v < |p.workers| && RunsTicket(p.workers, v, k);
      assert RunsTicket(q.workers, v, k);
    }
  }

  lemma PopAccounted<T>(p: Pool<T>, w: nat)
    requires Accounted(p) && w < |p.workers| && p.workers[w].Checking? && p.queue != []
    ensures Accounted(Checked(p, w))
  {
    var q := Checked(p, w);
    forall k | 0 <= k < |q.started| && !q.finished[k]
      ensures exists v | 0 <= v < |q.workers| :: RunsTicket(q.workers, v, k)
    {
      if k == |p.started| {
        assert RunsTicket(q.workers, w, k);
      } else {
        assert !p.finished[k];
        var v: nat :| v < |p.workers| && RunsTicket(p.workers, v, k);
        assert RunsTicket(q.workers, v, k);
      }
    }
  }

  lemma FinishAccounted<T>(p: Pool<T>, w: nat)
    requires Accounted(p) && Enabled(p, Finish(w))
    ensures Accounted(Apply(p, Finish(w)))
  {
    var q := Apply(p, Finish(w));
    forall k | 0 <= k < |q.started| && !q.finished[k]
      ensures exists v | 0 <= v < |q.workers| :: RunsTicket(q.workers, v, k)
    {
      var v: nat :| v < |p.workers| && RunsTicket(p.workers, v, k);
      assert RunsTicket(q.workers, v, k);
    }
  }

  lemma CheckKeeps<T>(p: Pool<T>, w: nat)
    requires Inv(p) && Enabled(p, Check(w))
    ensures Inv(Checked(p, w))
  {
    var q := Checked(p, w);
    if p.queue != [] {
      PopAccounted(p, w);
      assert p.queue == [p.queue[0]] + p.queue[1..];
      assert !q.workers[w].Blocked?;
    } else {
      IdleAccounted(p, w, q.workers[w]);
    }
    hide Accounted;
  }

  /** A worker that was woken looks at the queue next. */
  lemma WakeKeeps<T>(p: Pool<T>, w: nat, n: nat)
    requires Inv(p) && w < |p.workers| && p.workers[w].Blocked?
    ensures Inv(Put(p, w, Checking).(notifies := n))
  {
    IdleAccounted(p, w, Checking);
    hide Accounted;
    assert !Put(p, w, Checking).workers[w].Blocked?;
    var q := Put(p, w, Checking).(notifies := n);
    SameAccount(Put(p, w, Checking), q);
  }

  lemma SameAccount<T>(p: Pool<T>, q: Pool<T>)
    requires Accounted(p) && q.workers == p.workers && q.started == p.started && q.finished == p.finished
    ensures Accounted(q)
  {
  }

  lemma WorkerKeeps<T>(p: Pool<T>, step: Step<T>)
    requires Inv(p) && Enabled(p, step) && (step.Wake? || step.Finish? || step.Notify?)
    ensures Inv(Apply(p, step))
  {
    match step
    case Notify(Nobody) =>
      assert !IsBlocked(p, 0);
      assert !p.workers[0].Blocked?;
      SameAccount(p, Apply(p, step));
      hide Accounted;
    case Notify(Somebody(w)) => WakeKeeps(p, w, p.notifies - 1);
    case Wake(w) => WakeKeeps(p, w, p.notifies);
    case Finish(w) =>
      FinishAccounted(p, w);
      hide Accounted;
      assert !Apply(p, step).workers[w].Blocked?;
  }

  lemma RousedAccounted<T>(p: Pool<T>)
    requires Accounted(p)
    ensures Accounted(p.(workers := Roused(p.workers)))
  {
    var q := p.(workers := Roused(p.workers));
    forall k | 0 <= k < |q.started| && !q.finished[k]
      ensures exists v | 0 <= v < |q.workers| :: RunsTicket(q.workers, v, k)
    {
      var v: nat :| v < |p.workers| && RunsTicket(p.workers, v, k);
      assert RunsTicket(q.workers, v, k);
    }
  }

  lemma CallerKeeps<T>(p: Pool<T>, step: Step<T>)
    requires Inv(p) && Enabled(p, step) && (step.Enqueue? || step.SetStop? || step.NotifyAll? || step.Return?)
    ensures Inv(Apply(p, step))
  {
    var q := Apply(p, step);
    if step.NotifyAll? {
      RousedAccounted(p);
      SameAccount(p.(workers := Roused(p.workers)), q);
      assert !q.workers[0].Blocked?;
    } else {
      SameAccount(p, q);
      if step.Enqueue? && !p.stop {
        assert p.started + (p.queue + [step.task]) == (p.started + p.queue) + [step.task];
      }
    }
    hide Accounted;
  }

  lemma StepKeeps<T>(p: Pool<T>, step: Step<T>)
    requires Inv(p) && Enabled(p, step)
    ensures Inv(Apply(p, step))
  {
    hide Inv;
    match step
    case Check(w) => CheckKeeps(p, w);
    case Wake(_) => WorkerKeeps(p, step);
    case Finish(_) => WorkerKeeps(p, step);
    case Notify(_) => WorkerKeeps(p, step);
    case _ => CallerKeeps(p, step);
  }

  lemma {:induction false} RunKeeps<T>(p: Pool<T>, steps: seq<Step<T>>)
    requires Inv(p) && Runs(p, steps)
    ensures Inv(After(p, steps))
    decreases |steps|
  {
    hide Inv, Enabled, Apply;
    if steps != [] {
      StepKeeps(p, steps[0]);
      RunKeeps(Apply(p, steps[0]), steps[1..]);
    }
  }

  lemma StartOk<T>(threads: nat)
    ensures Inv(Start<T>(threads))
  {
  }

  /** In every run, accepted tasks are started once each and in the order they were accepted. */
  lemma TasksStartInOrder<T>(threads: nat, steps: seq<Step<T>>)
    requires Runs(Start(threads), steps)
    ensures var p := After(Start(threads), steps);
            && p.started + p.queue == p.accepted
            && (p.queue != [] ==> p.notifies > 0 || Awake(p))
  {
    StartOk<T>(threads);
    RunKeeps(Start(threads), steps);
  }

  /** When `shutdown` returns, the queue is empty and every accepted task has been started and run to its end. */
  lemma ShutdownRunsEverything<T>(threads: nat, steps: seq<Step<T>>)
    requires Runs(Start(threads), steps)
    ensures var p := After(Start(threads), steps);
            p.returned ==>
              && p.queue == [] && p.started == p.accepted && |p.finished| == |p.accepted|
              && forall k | 0 <= k < |p.finished| :: p.finished[k]
  {
    StartOk<T>(threads);
    RunKeeps(Start(threads), steps);
    var p := After(Start(threads), steps);
    hide Runs, After;
    if p.returned {
      assert p.workers[0].Exited?;
      assert p.started + [] == p.started;
    }
  }

  // --- Shutdown comes to an end --------------------------------------------------------------------------

  function Weight<T>(worker: Worker<T>): nat
  {
    match worker case Blocked => 2 case Checking => 1 case Running(_, _) => 2 case Exited => 0
  }

  function Load<T>(workers: seq<Worker<T>>): nat
  {
    if workers == [] then 0 else Load(workers[..|workers| - 1]) + Weight(workers[|workers| - 1])
  }

  lemma {:induction false} LoadPut<T>(workers: seq<Worker<T>>, w: nat, worker: Worker<T>)
    requires w < |workers|
    ensures Load(workers[w := worker]) + Weight(workers[w]) == Load(workers) + Weight(worker)
  {
    var n := |workers| - 1;
    if w == n {
      assert workers[w := worker][..n] == workers[..n];
    } else {
      assert workers[w := worker][..n] == workers[..n][w := worker];
      LoadPut(workers[..n], w, worker);
    }
  }

  /** What is left for the workers of a stopped pool to do. */
  function Remaining<T>(p: Pool<T>): nat { 2 * |p.queue| + Load(p.workers) }

  predicate WorkerStep<T>(step: Step<T>) { step.Check? || step.Finish? }

  /** After all workers are notified of the stop, `shutdown` cannot hang: until it can return some worker has a
      step to take, and every worker step leaves less to do. */
  lemma ShutdownTerminates<T>(p: Pool<T>)
    requires Inv(p) && p.stop && p.stopping == 0
    ensures Enabled(p, Return) || exists w :: Enabled(p, Check(w)) || Enabled(p, Finish(w))
    ensures forall step | WorkerStep(step) && Enabled(p, step) ::
              Remaining(Apply(p, step)) < Remaining(p) && Apply(p, step).stop && Apply(p, step).stopping == 0
  {
    if !Enabled(p, Return) {
      var w: nat :| w < |p.workers| && !p.workers[w].Exited?;
      assert Enabled(p, Check(w)) || Enabled(p, Finish(w));
    }
    forall step | WorkerStep(step) && Enabled(p, step)
      ensures Remaining(Apply(p, step)) < Remaining(p)
    {
      LoadPut(p.workers, step.w, Apply(p, step).workers[step.w]);
      hide Load;
    }
  }

  // --- The pool as an object ------------------------------------------------------------------------------

  class ThreadPool<T(==)> {
    var workers: seq<Worker<T>>
    var tasks: seq<T>
    var stop: bool
    var notifies: nat
    var stopping: nat
    var returned: bool
    var accepted: seq<T>
    var started: seq<T>
    var finished: seq<bool>

    ghost function State(): Pool<T>
      reads this
    {
      Pool(workers, tasks, stop, notifies, stopping, returned, accepted, started, finished)
    }

    constructor (threads: nat)
      ensures State() == Start(threads)
    {
      var n := threads;
      if n == 0 {
        n := 1;
      }
      workers := seq(n, _ => Checking);
      tasks, stop := [], false;
      notifies, stopping, returned, accepted, started, finished := 0, 0, false, [], [], [];
    }

    /** The critical section of `enqueue`: a running pool accepts the task behind all others and owes a
        notification; a stopped one throws. */
    method Enqueue(task: T) returns (ok: bool)
      requires Inv(State())
      modifies `tasks, `notifies, `accepted
      ensures Inv(State()) && State() == Apply(old(State()), Step.Enqueue(task))
      ensures ok <==> !stop
      ensures accepted == old(accepted) + (if ok then [task] else [])
      ensures ok ==> tasks != [] && tasks[|tasks| - 1] == task && notifies > 0
    {
      StepKeeps(State(), Step.Enqueue(task));
      hide Inv;
      if stop {
        return false;
      }
      tasks := tasks + [task];
      notifies, accepted := notifies + 1, accepted + [task];
      return true;
    }

    /** The critical section of a worker's loop. A worker starts the oldest accepted task that was not started, and
        no other starts it; it blocks only on a running pool with nothing to start, and leaves only a stopped pool in
        which everything accepted was started. */
    method WaitForTask(w: nat)
      requires Inv(State()) && w < |workers| && workers[w].Checking?
      modifies `workers, `tasks, `started, `finished
      ensures Inv(State()) && State() == Apply(old(State()), Check(w))
      ensures |workers| == |old(workers)| && workers == old(workers)[w := workers[w]]
      ensures match workers[w]
              case Checking => false
              case Blocked => !stop && started == old(started) == accepted
              case Exited => stop && started == old(started) == accepted
              case Running(task, ticket) =>
                && ticket == |old(started)| < |accepted| && accepted[ticket] == task
                && started == accepted[..ticket + 1] && started[..ticket] == old(started)
    {
      ghost var p := State();
      CheckKeeps(p, w);
      hide Inv;
      if !(stop || tasks != []) {
        workers := workers[w := Blocked];
        AllStarted(State());
        return;
      }
      if stop && tasks == [] {
        workers := workers[w := Exited];
        AllStarted(State());
        return;
      }
      var task := tasks[0];
      tasks := tasks[1..];
      workers := workers[w := Running(task, |started|)];
      started, finished := started + [task], finished + [false];
      OldestStarted(p, State());
    }

    /** The critical section of `shutdown`. */
    method BeginShutdown()
      requires Inv(State())
      modifies `stop, `stopping
      ensures Inv(State()) && State() == Apply(old(State()), SetStop)
      ensures stop && stopping > 0
    {
      StepKeeps(State(), SetStop);
      hide Inv;
      stop := true;
      stopping := stopping + 1;
    }
  }

  lemma AllStarted<T>(p: Pool<T>)
    requires Inv(p) && p.queue == []
    ensures p.started == p.accepted
  {
    assert p.started + [] == p.started;
  }

  lemma OldestStarted<T>(p: Pool<T>, q: Pool<T>)
    requires Inv(p) && p.queue != [] && q.accepted == p.accepted && q.started == p.started + [p.queue[0]]
    ensures var k := |p.started|;
            && k < |p.accepted| && p.accepted[k] == p.queue[0]
            && q.started == p.accepted[..k + 1] && q.started[..k] == p.started
  {
    assert p.accepted == p.started + p.queue;
  }
}
