/** The task runtime (task.c, scheduler.c, worker.c, runtime.c) as a transition system.

    A step is a region executed with the queue lock or the table lock held, or a
    single unlocked action.  Any number of threads run: workers, and outside threads
    that spawn and wait; a worker executing a task body may spawn and wait as well.
    Tasks are numbered in creation order, so a number stands for a task pointer even
    after the task has been destroyed. */
module Runtime {
  import opened Common
  import opened Condvar

  /** Where a worker stands in worker_thread_func / scheduler_dequeue. */
  datatype Worker =
    | NotAWorker
    | Looking              // about to call scheduler_dequeue
    | Deciding             // found the queue empty and no shutdown; still holds the queue lock
    | Asleep               // in the wait on queue_not_empty
    | Woken                // out of that wait, not yet back in the lock
    | Holding(task: nat)   // dequeued, state not yet TASK_RUNNING
    | Started(task: nat)   // TASK_RUNNING, body not yet called
    | Executing(task: nat) // in the task body
    | Exited

  /** What a thread is doing on behalf of Sigil code. */
  datatype Act =
    | Idle
    | Inserted(task: nat)             // sigil_spawn between insert and enqueue
    | WaitAsleep(h: nat, task: nat)   // sigil_wait, in the wait on task->completed
    | WaitWoken(h: nat, task: nat)
    | AnyAsleep(hs: seq<nat>)         // sigil_wait_any, in the wait on any_completed
    | AnyWoken(hs: seq<nat>)
    | Reaping(task: nat)              // slot cleared and unlocked, before task_destroy

  datatype Thread = Thread(worker: Worker, act: Act)

  datatype TaskState = Pending | Running | Completed

  /** Where a task is; a history variable that the steps keep up to date. */
  datatype Place = NotEnqueued(spawner: nat) | Queued | HeldBy(w: nat) | Finished

  datatype Task = Task(id: nat, state: TaskState, place: Place)

  datatype State = State(
    threads: seq<Thread>,
    tasks: seq<Task>,
    table: map<nat, nat>,
    queue: seq<nat>,
    shutdown: bool,
    down: bool,
    enqueued: seq<nat>, dequeued: seq<nat>, ran: seq<nat>, destroyed: seq<nat>)

  datatype Event =
    | SpawnInsert(t: nat, h: nat)
    | SpawnEnqueue(t: nat)
    | Dequeue(t: nat)
    | FallAsleep(t: nat)
    | Start(t: nat)
    | Execute(t: nat)
    | Complete(t: nat)
    | Wait(t: nat, h: nat)
    | WaitResume(t: nat)
    | WaitAny(t: nat, hs: seq<nat>)
    | WaitAnyResume(t: nat)
    | Destroy(t: nat)
    | Spurious(t: nat)
    | RaiseShutdown(t: nat)
    | BroadcastShutdown(t: nat)
    | Cleanup(t: nat)

  // ----- building blocks ---------------------------------------------------

  /** The task a worker has taken from the queue and not yet completed. */
  function Held(th: Thread): Option<nat> {
    if th.worker.Holding? || th.worker.Started? || th.worker.Executing? then Some(th.worker.task) else None
  }

  /** The task a thread has created and not yet enqueued. */
  function Unqueued(th: Thread): Option<nat> {
    if th.act.Inserted? then Some(th.act.task) else None
  }

  /** Sigil code runs outside the pool, or on a worker inside a task body. */
  predicate RunsCode(th: Thread) { th.worker.NotAWorker? || th.worker.Executing? }

  predicate WorkerAsleep(th: Thread) { th.worker.Asleep? }
  predicate WorkerWoken(th: Thread) { th.worker.Woken? }
  function WakeWorker(th: Thread): Thread { if th.worker.Asleep? then th.(worker := Woken) else th }

  /** The queue lock is held across Deciding, so locked queue regions wait for it. */
  ghost predicate QueueLockFree(s: State) {
    forall t :: 0 <= t < |s.threads| ==> !s.threads[t].worker.Deciding?
  }

  function SetWorker(s: State, t: nat, w: Worker): State
    requires t < |s.threads|
  {
    s.(threads := s.threads[t := s.threads[t].(worker := w)])
  }

  function SetAct(s: State, t: nat, a: Act): State
    requires t < |s.threads|
  {
    s.(threads := s.threads[t := s.threads[t].(act := a)])
  }

  /** worker.c:32-34: both broadcasts at the completion of task k. */
  function WakeWaiters(threads: seq<Thread>, k: nat): (after: seq<Thread>)
    ensures |after| == |threads|
    ensures forall t :: 0 <= t < |threads| ==> after[t] == WakeWaiter(threads[t], k)
  {
    seq(|threads|, t requires 0 <= t < |threads| => WakeWaiter(threads[t], k))
  }

  function WakeWaiter(th: Thread, k: nat): Thread {
    match th.act
    case WaitAsleep(h, j) => if j == k then th.(act := WaitWoken(h, j)) else th
    case AnyAsleep(hs) => th.(act := AnyWoken(hs))
    case _ => th
  }

  /** task.c:154-167 from the test of the loop on: reap, or go (back) to sleep. */
  function WaitRegion(s: State, t: nat, h: nat, k: nat): State
    requires t < |s.threads| && k < |s.tasks|
  {
    if s.tasks[k].state == Completed
    then SetAct(s, t, Reaping(k)).(table := s.table - {h})
    else SetAct(s, t, WaitAsleep(h, k))
  }

  predicate Ready(s: State, h: nat) {
    h in s.table && s.table[h] < |s.tasks| && s.tasks[s.table[h]].state == Completed
  }

  /** Index of the first handle whose task is completed, or |hs|: task.c:189-194. */
  function FirstReady(s: State, hs: seq<nat>): (i: nat)
    ensures i <= |hs|
    ensures i < |hs| ==> Ready(s, hs[i])
    ensures forall j :: 0 <= j < i ==> !Ready(s, hs[j])
  {
    if hs == [] || Ready(s, hs[0]) then 0 else 1 + FirstReady(s, hs[1..])
  }

  /** task.c:188-211: reap the first ready handle, or go (back) to sleep. */
  function WaitAnyRegion(s: State, t: nat, hs: seq<nat>): State
    requires t < |s.threads|
  {
    var i := FirstReady(s, hs);
    if i < |hs|
    then SetAct(s, t, Reaping(s.table[hs[i]])).(table := s.table - {hs[i]})
    else SetAct(s, t, AnyAsleep(hs))
  }

  lemma {:induction false} DistinctAppend<T>(q: seq<T>, x: T)
    requires Distinct(q) && x !in q
    ensures Distinct(q + [x])
  {
  }

  lemma {:induction false} DistinctTail<T>(q: seq<T>)
    requires Distinct(q) && q != []
    ensures Distinct(q[1..]) && q[0] !in q[1..]
    ensures forall x :: x in q <==> x == q[0] || x in q[1..]
  {
    assert q == [q[0]] + q[1..];
  }

  ghost predicate AllWorkersExited(s: State) {
    forall t :: 0 <= t < |s.threads| ==> s.threads[t].worker.NotAWorker? || s.threads[t].worker.Exited?
  }

  // ----- the steps ---------------------------------------------------------

  ghost predicate Init(s: State) {
    && s.tasks == [] && s.table == map[] && s.queue == [] && !s.shutdown && !s.down
    && s.enqueued == s.dequeued == s.ran == s.destroyed == []
    && (forall t :: 0 <= t < |s.threads| ==>
          (s.threads[t].worker.NotAWorker? || s.threads[t].worker.Looking?) && s.threads[t].act.Idle?)
    && exists t :: 0 <= t < |s.threads| && s.threads[t].worker.Looking?
  }

  ghost predicate SpawnInsertStep(s: State, t: nat, h: nat, s': State)
    requires t < |s.threads|
  {
    && RunsCode(s.threads[t]) && s.threads[t].act.Idle? && h > 0 && h !in s.table
    && s' == SetAct(s, t, Inserted(|s.tasks|)).(
               tasks := s.tasks + [Task(h, Pending, NotEnqueued(t))],
               table := s.table[h := |s.tasks|])
  }

  ghost predicate SpawnEnqueueStep(s: State, t: nat, s': State)
    requires t < |s.threads|
  {
    && s.threads[t].act.Inserted? && QueueLockFree(s)
    && var k := s.threads[t].act.task;
    && k < |s.tasks|
    && Signalled(SetAct(s, t, Idle).threads, s'.threads, WorkerAsleep, WakeWorker)
    && s' == s.(threads := s'.threads, queue := s.queue + [k], enqueued := s.enqueued + [k],
                tasks := s.tasks[k := s.tasks[k].(place := Queued)])
  }

  ghost predicate DequeueStep(s: State, t: nat, s': State)
    requires t < |s.threads|
  {
    && (s.threads[t].worker.Looking? || s.threads[t].worker.Woken?) && QueueLockFree(s)
    && if s.queue == [] && !s.shutdown then s' == SetWorker(s, t, Deciding)
       else if s.queue == [] then s' == SetWorker(s, t, Exited)
       else
         var k := s.queue[0];
         && k < |s.tasks|
         && s' == SetWorker(s, t, Holding(k)).(
                    queue := s.queue[1..], dequeued := s.dequeued + [k],
                    tasks := s.tasks[k := s.tasks[k].(place := HeldBy(t))])
  }

  predicate StartStep(s: State, t: nat, s': State)
    requires t < |s.threads|
  {
    && s.threads[t].worker.Holding?
    && var k := s.threads[t].worker.task;
    && k < |s.tasks|
    && s' == SetWorker(s, t, Started(k)).(tasks := s.tasks[k := s.tasks[k].(state := Running)])
  }

  predicate ExecuteStep(s: State, t: nat, s': State)
    requires t < |s.threads|
  {
    && s.threads[t].worker.Started?
    && var k := s.threads[t].worker.task;
    && s' == SetWorker(s, t, Executing(k)).(ran := s.ran + [k])
  }

  predicate CompleteStep(s: State, t: nat, s': State)
    requires t < |s.threads|
  {
    && s.threads[t].worker.Executing? && s.threads[t].act.Idle?
    && var k := s.threads[t].worker.task;
    && k < |s.tasks|
    && s' == s.(threads := WakeWaiters(SetWorker(s, t, Looking).threads, k),
                tasks := s.tasks[k := s.tasks[k].(state := Completed, place := Finished)])
  }

  predicate WaitStep(s: State, t: nat, h: nat, s': State)
    requires t < |s.threads|
  {
    && RunsCode(s.threads[t]) && s.threads[t].act.Idle?
    && if h !in s.table then s' == s
       else s.table[h] < |s.tasks| && s' == WaitRegion(s, t, h, s.table[h])
  }

  predicate WaitResumeStep(s: State, t: nat, s': State)
    requires t < |s.threads|
  {
    && s.threads[t].act.WaitWoken? && s.threads[t].act.task < |s.tasks|
    && s' == WaitRegion(s, t, s.threads[t].act.h, s.threads[t].act.task)
  }

  predicate WaitAnyStep(s: State, t: nat, hs: seq<nat>, s': State)
    requires t < |s.threads|
  {
    RunsCode(s.threads[t]) && s.threads[t].act.Idle? && s' == WaitAnyRegion(s, t, hs)
  }

  predicate SpuriousStep(s: State, t: nat, s': State)
    requires t < |s.threads|
  {
    match s.threads[t].act
    case WaitAsleep(h, k) => s' == SetAct(s, t, WaitWoken(h, k))
    case AnyAsleep(hs) => s' == SetAct(s, t, AnyWoken(hs))
    case _ => s.threads[t].worker.Asleep? && s' == SetWorker(s, t, Woken)
  }

  /** runtime.c:52-60, called when the pool is joined and no Sigil code runs. */
  ghost predicate CleanupStep(s: State, s': State) {
    && s.shutdown && AllWorkersExited(s)
    && (forall t :: 0 <= t < |s.threads| ==> s.threads[t].act.Idle?)
    && |s.destroyed| <= |s'.destroyed| && s'.destroyed[..|s.destroyed|] == s.destroyed
    && var swept := s'.destroyed[|s.destroyed|..];
    && Distinct(swept) && (forall k :: k in swept <==> k in s.table.Values)
    && s' == s.(table := map[], queue := [], down := true, destroyed := s'.destroyed)
  }

  ghost predicate Next(s: State, e: Event, s': State) {
    && e.t < |s.threads| && !s.down
    && match e
       case SpawnInsert(t, h) => SpawnInsertStep(s, t, h, s')
       case SpawnEnqueue(t) => SpawnEnqueueStep(s, t, s')
       case Dequeue(t) => DequeueStep(s, t, s')
       case FallAsleep(t) => s.threads[t].worker.Deciding? && s' == SetWorker(s, t, Asleep)
       case Start(t) => StartStep(s, t, s')
       case Execute(t) => ExecuteStep(s, t, s')
       case Complete(t) => CompleteStep(s, t, s')
       case Wait(t, h) => WaitStep(s, t, h, s')
       case WaitResume(t) => WaitResumeStep(s, t, s')
       case WaitAny(t, hs) => WaitAnyStep(s, t, hs, s')
       case WaitAnyResume(t) =>
         s.threads[t].act.AnyWoken? && s' == WaitAnyRegion(s, t, s.threads[t].act.hs)
       case Destroy(t) =>
         && s.threads[t].act.Reaping?
         && s' == SetAct(s, t, Idle).(destroyed := s.destroyed + [s.threads[t].act.task])
       case Spurious(t) => SpuriousStep(s, t, s')
       case RaiseShutdown(t) => s.threads[t].worker.NotAWorker? && s' == s.(shutdown := true)
       case BroadcastShutdown(t) =>
         && s.threads[t].worker.NotAWorker? && s.shutdown
         && s' == s.(threads := Broadcast(s.threads, WorkerAsleep, WakeWorker))
       case Cleanup(t) => CleanupStep(s, s')
  }

  ghost predicate Run(states: seq<State>, events: seq<Event>) {
    && |states| == |events| + 1
    && Init(states[0])
    && forall i {:trigger events[i]} :: 0 <= i < |events| ==> Next(states[i], events[i], states[i + 1])
  }

  // ----- invariant: one place per task -------------------------------------

  ghost predicate PlaceIsReal(s: State, k: nat)
    requires k < |s.tasks|
  {
    match s.tasks[k].place
    case NotEnqueued(t) => t < |s.threads| && Unqueued(s.threads[t]) == Some(k)
    case Queued => k in s.queue || s.down
    case HeldBy(w) => w < |s.threads| && Held(s.threads[w]) == Some(k)
    case Finished => true
  }

  ghost predicate HolderAgrees(s: State, t: nat)
    requires t < |s.threads|
  {
    && (Unqueued(s.threads[t]).Some? ==>
          var k := Unqueued(s.threads[t]).value; k < |s.tasks| && s.tasks[k].place == NotEnqueued(t))
    && (Held(s.threads[t]).Some? ==>
          var k := Held(s.threads[t]).value; k < |s.tasks| && s.tasks[k].place == HeldBy(t))
  }

  /** The place of each task says where it is, and nothing else mentions the task. */
  ghost predicate PlaceInv(s: State) {
    && (forall k {:trigger s.tasks[k]} :: 0 <= k < |s.tasks| ==> PlaceIsReal(s, k))
    && (forall t {:trigger s.threads[t]} :: 0 <= t < |s.threads| ==> HolderAgrees(s, t))
    && (forall k :: k in s.queue ==> k < |s.tasks| && s.tasks[k].place == Queued)
    && (forall k {:trigger s.tasks[k]} :: 0 <= k < |s.tasks| ==>
          (s.tasks[k].state == Completed <==> s.tasks[k].place == Finished))
    && Distinct(s.queue)
  }

  /** Steps that move no task: the threads carry the same tasks as before. */
  ghost predicate SameCarriers(s: State, s': State) {
    && |s.threads| == |s'.threads| && s.tasks == s'.tasks && s.queue == s'.queue && s.down == s'.down
    && forall t {:trigger s'.threads[t]} :: 0 <= t < |s.threads| ==>
         Held(s.threads[t]) == Held(s'.threads[t]) && Unqueued(s.threads[t]) == Unqueued(s'.threads[t])
  }

  lemma {:induction false} SameCarriersKeepPlaces(s: State, s': State)
    requires PlaceInv(s) && SameCarriers(s, s')
    ensures PlaceInv(s')
  {
    forall t | 0 <= t < |s'.threads| ensures HolderAgrees(s', t) {
      assert HolderAgrees(s, t);
    }
    forall k | 0 <= k < |s'.tasks| ensures PlaceIsReal(s', k) {
      assert PlaceIsReal(s, k);
    }
  }

  /** Thread t moves task k on; every other task keeps its place and its carriers. */
  ghost predicate MovesTask(s: State, s': State, t: nat, k: nat) {
    && t < |s.threads| == |s'.threads| && k < |s.tasks| == |s'.tasks| && s.down == s'.down
    && (forall j {:trigger s'.tasks[j]} :: 0 <= j < |s.tasks| && j != k ==> s'.tasks[j] == s.tasks[j])
    && (forall u {:trigger s'.threads[u]} :: 0 <= u < |s.threads| && u != t ==>
          Held(s.threads[u]) == Held(s'.threads[u]) && Unqueued(s.threads[u]) == Unqueued(s'.threads[u]))
  }

  lemma {:induction false} EnqueueKeepsPlaces(s: State, t: nat, s': State)
    requires PlaceInv(s) && t < |s.threads| && SpawnEnqueueStep(s, t, s')
    ensures PlaceInv(s')
  {
    var k := s.threads[t].act.task;
    assert HolderAgrees(s, t);
    assert MovesTask(s, s', t, k);
    DistinctAppend(s.queue, k);
    forall u | 0 <= u < |s'.threads| ensures HolderAgrees(s', u) {
      assert HolderAgrees(s, u);
    }
    forall j | 0 <= j < |s'.tasks| ensures PlaceIsReal(s', j) {
      assert PlaceIsReal(s, j);
    }
  }

  lemma {:induction false} InsertKeepsPlaces(s: State, t: nat, h: nat, s': State)
    requires PlaceInv(s) && t < |s.threads| && SpawnInsertStep(s, t, h, s')
    ensures PlaceInv(s')
  {
    forall u | 0 <= u < |s'.threads| ensures HolderAgrees(s', u) {
      assert HolderAgrees(s, u);
    }
    forall j | 0 <= j < |s'.tasks| ensures PlaceIsReal(s', j) {
      assert j < |s.tasks| ==> PlaceIsReal(s, j);
    }
  }

  lemma {:induction false} DequeueKeepsPlaces(s: State, t: nat, s': State)
    requires PlaceInv(s) && t < |s.threads| && DequeueStep(s, t, s') && s.queue != []
    ensures PlaceInv(s')
  {
    var k := s.queue[0];
    assert MovesTask(s, s', t, k);
    DistinctTail(s.queue);
    forall u | 0 <= u < |s'.threads| ensures HolderAgrees(s', u) {
      assert HolderAgrees(s, u);
    }
    forall j | 0 <= j < |s'.tasks| ensures PlaceIsReal(s', j) {
      assert PlaceIsReal(s, j);
    }
  }

  lemma {:induction false} StartKeepsPlaces(s: State, t: nat, s': State)
    requires PlaceInv(s) && t < |s.threads| && StartStep(s, t, s')
    ensures PlaceInv(s')
  {
    assert HolderAgrees(s, t);
    forall u | 0 <= u < |s'.threads| ensures HolderAgrees(s', u) {
      assert HolderAgrees(s, u);
    }
    forall j | 0 <= j < |s'.tasks| ensures PlaceIsReal(s', j) {
      assert PlaceIsReal(s, j);
    }
  }

  lemma {:induction false} CompleteKeepsPlaces(s: State, t: nat, s': State)
    requires PlaceInv(s) && t < |s.threads| && CompleteStep(s, t, s')
    ensures PlaceInv(s')
  {
    var k := s.threads[t].worker.task;
    assert HolderAgrees(s, t);
    assert MovesTask(s, s', t, k);
    forall u | 0 <= u < |s'.threads| ensures HolderAgrees(s', u) {
      assert HolderAgrees(s, u);
    }
    forall j | 0 <= j < |s'.tasks| ensures PlaceIsReal(s', j) {
      assert PlaceIsReal(s, j);
    }
  }

  lemma {:induction false} CleanupKeepsPlaces(s: State, s': State)
    requires PlaceInv(s) && CleanupStep(s, s')
    ensures PlaceInv(s')
  {
    forall t | 0 <= t < |s'.threads| ensures HolderAgrees(s', t) {
      assert HolderAgrees(s, t);
    }
    forall k | 0 <= k < |s'.tasks| ensures PlaceIsReal(s', k) {
      assert PlaceIsReal(s, k);
    }
  }

  predicate Quiet(e: Event) {
    !(e.SpawnInsert? || e.SpawnEnqueue? || e.Dequeue? || e.Start? || e.Complete? || e.Cleanup?)
  }

  predicate WaitsOnly(e: Event) { e.Wait? || e.WaitResume? || e.WaitAny? || e.WaitAnyResume? }

  lemma {:induction false} WaitsSetOneAct(s: State, e: Event, s': State)
    requires Next(s, e, s') && WaitsOnly(e)
    ensures !s'.down && s' == s.(threads := s'.threads, table := s'.table)
    ensures |s'.threads| == |s.threads| && s'.threads == SetAct(s, e.t, s'.threads[e.t].act).threads
    ensures !s.threads[e.t].act.Inserted? && !s'.threads[e.t].act.Inserted?
  {
    match e
    case Wait(t, h) => assert h !in s.table ==> s'.threads == SetAct(s, t, s.threads[t].act).threads;
    case WaitResume(t) =>
    case WaitAny(t, hs) =>
    case WaitAnyResume(t) =>
  }

  lemma {:induction false} WaitsMoveNoTask(s: State, e: Event, s': State)
    requires Next(s, e, s') && WaitsOnly(e)
    ensures SameCarriers(s, s') && s'.ran == s.ran && s'.enqueued == s.enqueued && s'.dequeued == s.dequeued
    ensures forall u :: 0 <= u < |s.threads| ==> s'.threads[u].worker == s.threads[u].worker
  {
    WaitsSetOneAct(s, e, s');
  }

  lemma {:induction false} QuietStepsMoveNoTask(s: State, e: Event, s': State)
    requires Next(s, e, s') && Quiet(e)
    ensures SameCarriers(s, s')
  {
    if WaitsOnly(e) {
      WaitsMoveNoTask(s, e, s');
    }
  }

  lemma {:induction false} StepKeepsPlaces(s: State, e: Event, s': State)
    requires PlaceInv(s) && Next(s, e, s')
    ensures PlaceInv(s')
  {
    if Quiet(e) {
      QuietStepsMoveNoTask(s, e, s');
      SameCarriersKeepPlaces(s, s');
    } else {
      match e
      case SpawnInsert(t, h) => InsertKeepsPlaces(s, t, h, s');
      case SpawnEnqueue(t) => EnqueueKeepsPlaces(s, t, s');
      case Start(t) => StartKeepsPlaces(s, t, s');
      case Complete(t) => CompleteKeepsPlaces(s, t, s');
      case Cleanup(t) => CleanupKeepsPlaces(s, s');
      case Dequeue(t) =>
        if s.queue == [] {
          SameCarriersKeepPlaces(s, s');
        } else {
          DequeueKeepsPlaces(s, t, s');
        }
    }
  }

  // ----- invariant: the logs -----------------------------------------------

  predicate HasRun(s: State, k: nat)
    requires k < |s.tasks|
  {
    match s.tasks[k].place
    case Finished => true
    case HeldBy(w) => w < |s.threads| && s.threads[w].worker == Executing(k)
    case _ => false
  }

  ghost predicate LogInv(s: State) {
    && (!s.down ==> s.enqueued == s.dequeued + s.queue)
    && Distinct(s.enqueued) && Distinct(s.ran)
    && (forall k :: k in s.enqueued ==> k < |s.tasks|)
    && (forall k :: k in s.ran ==> k < |s.tasks|)
    && (forall k {:trigger s.tasks[k]} :: 0 <= k < |s.tasks| ==>
          && (k in s.enqueued <==> !s.tasks[k].place.NotEnqueued?)
          && (k in s.ran <==> HasRun(s, k)))
  }

  /** Steps after which every task has run, or not, as before. */
  ghost predicate SameProgress(s: State, s': State) {
    && s'.enqueued == s.enqueued && s'.ran == s.ran && |s'.tasks| == |s.tasks|
    && forall k {:trigger s'.tasks[k]} :: 0 <= k < |s.tasks| ==>
         HasRun(s', k) == HasRun(s, k) && s'.tasks[k].place.NotEnqueued? == s.tasks[k].place.NotEnqueued?
  }

  lemma {:induction false} SameProgressKeepsLogs(s: State, s': State)
    requires LogInv(s) && SameProgress(s, s')
    requires !s'.down ==> !s.down && s'.dequeued + s'.queue == s.dequeued + s.queue
    ensures LogInv(s')
  {
    forall k | 0 <= k < |s'.tasks|
      ensures (k in s'.enqueued <==> !s'.tasks[k].place.NotEnqueued?) && (k in s'.ran <==> HasRun(s', k))
    {
      assert HasRun(s', k) == HasRun(s, k);
      assert k in s.enqueued <==> !s.tasks[k].place.NotEnqueued?;
    }
  }

  lemma {:induction false} ExecuteKeepsLogs(s: State, t: nat, s': State)
    requires LogInv(s) && PlaceInv(s) && t < |s.threads| && ExecuteStep(s, t, s')
    ensures LogInv(s')
  {
    var k := s.threads[t].worker.task;
    assert HolderAgrees(s, t);
    DistinctAppend(s.ran, k);
    forall j | 0 <= j < |s'.tasks| ensures j in s'.ran <==> HasRun(s', j) {
      assert PlaceIsReal(s, j);
    }
  }

  lemma {:induction false} CompleteKeepsProgress(s: State, t: nat, s': State)
    requires PlaceInv(s) && t < |s.threads| && CompleteStep(s, t, s')
    ensures SameProgress(s, s')
  {
    assert HolderAgrees(s, t);
    forall j | 0 <= j < |s'.tasks| ensures HasRun(s', j) == HasRun(s, j) {
      assert PlaceIsReal(s, j);
    }
  }

  lemma {:induction false} EnqueueKeepsLogs(s: State, t: nat, s': State)
    requires LogInv(s) && PlaceInv(s) && !s.down && t < |s.threads| && SpawnEnqueueStep(s, t, s')
    ensures LogInv(s')
  {
    var k := s.threads[t].act.task;
    assert HolderAgrees(s, t);
    DistinctAppend(s.enqueued, k);
    assert s.dequeued + s.queue + [k] == s.dequeued + (s.queue + [k]);
    forall j | 0 <= j < |s'.tasks|
      ensures (j in s'.enqueued <==> !s'.tasks[j].place.NotEnqueued?) && (j in s'.ran <==> HasRun(s', j))
    {
      assert j in s.enqueued <==> !s.tasks[j].place.NotEnqueued?;
      assert HasRun(s', j) == HasRun(s, j);
    }
  }

  lemma {:induction false} InsertKeepsLogs(s: State, t: nat, h: nat, s': State)
    requires LogInv(s) && PlaceInv(s) && t < |s.threads| && SpawnInsertStep(s, t, h, s')
    ensures LogInv(s')
  {
    forall j | 0 <= j < |s'.tasks|
      ensures (j in s'.enqueued <==> !s'.tasks[j].place.NotEnqueued?) && (j in s'.ran <==> HasRun(s', j))
    {
      if j < |s.tasks| {
        assert j in s.enqueued <==> !s.tasks[j].place.NotEnqueued?;
        assert HasRun(s', j) == HasRun(s, j);
      }
    }
  }

  lemma {:induction false} DequeueKeepsLogs(s: State, t: nat, s': State)
    requires LogInv(s) && PlaceInv(s) && !s.down && t < |s.threads| && DequeueStep(s, t, s')
    ensures LogInv(s')
  {
    assert HolderAgrees(s, t);
    forall j | 0 <= j < |s'.tasks| ensures HasRun(s', j) == HasRun(s, j) {
      assert PlaceIsReal(s, j);
    }
    if s.queue != [] {
      assert s.dequeued + [s.queue[0]] + s.queue[1..] == s.dequeued + s.queue;
    }
    SameProgressKeepsLogs(s, s');
  }

  lemma {:induction false} OtherStepsKeepProgress(s: State, e: Event, s': State)
    requires PlaceInv(s) && Next(s, e, s') && Quiet(e) && !e.Execute?
    ensures SameProgress(s, s') && s'.dequeued == s.dequeued && s'.queue == s.queue
  {
    if WaitsOnly(e) {
      WaitsMoveNoTask(s, e, s');
    }
  }

  lemma {:induction false} StartKeepsProgress(s: State, t: nat, s': State)
    requires PlaceInv(s) && t < |s.threads| && StartStep(s, t, s')
    ensures SameProgress(s, s')
  {
    assert HolderAgrees(s, t);
    forall j | 0 <= j < |s'.tasks| ensures HasRun(s', j) == HasRun(s, j) {
      assert PlaceIsReal(s, j);
    }
  }

  lemma {:induction false} StepKeepsLogs(s: State, e: Event, s': State)
    requires LogInv(s) && PlaceInv(s) && Next(s, e, s')
    ensures LogInv(s')
  {
    if e.Execute? {
      ExecuteKeepsLogs(s, e.t, s');
    } else if Quiet(e) {
      OtherStepsKeepProgress(s, e, s');
      SameProgressKeepsLogs(s, s');
    } else {
      match e
      case SpawnInsert(t, h) => InsertKeepsLogs(s, t, h, s');
      case SpawnEnqueue(t) => EnqueueKeepsLogs(s, t, s');
      case Dequeue(t) => DequeueKeepsLogs(s, t, s');
      case Start(t) =>
        StartKeepsProgress(s, t, s');
        SameProgressKeepsLogs(s, s');
      case Complete(t) =>
        CompleteKeepsProgress(s, t, s');
        SameProgressKeepsLogs(s, s');
      case Cleanup(t) =>
        CleanupKeepsProgress(s, s');
        SameProgressKeepsLogs(s, s');
    }
  }

  lemma {:induction false} CleanupKeepsProgress(s: State, s': State)
    requires CleanupStep(s, s')
    ensures SameProgress(s, s')
  {
    forall j | 0 <= j < |s'.tasks| ensures HasRun(s', j) == HasRun(s, j) {
      assert s'.tasks[j] == s.tasks[j];
    }
  }

  // ----- invariant: the work queue's condition variable ---------------------

  /** While a worker sleeps, every queued task has its own woken worker coming for it. */
  ghost predicate WorkersCovered(s: State) {
    (exists t :: 0 <= t < |s.threads| && s.threads[t].worker.Asleep?) ==>
      |s.queue| <= Tally(s.threads, WorkerWoken)
  }

  ghost predicate WakeInv(s: State) {
    && WorkersCovered(s)
    && (!QueueLockFree(s) ==> s.queue == [])
  }

  lemma {:induction false} EnqueueKeepsWake(s: State, t: nat, s': State)
    requires WakeInv(s) && t < |s.threads| && SpawnEnqueueStep(s, t, s')
    ensures WakeInv(s')
  {
    var mid := SetAct(s, t, Idle).threads;
    TallySame(s.threads, mid, WorkerWoken);
    if u :| 0 <= u < |mid| && mid[u].worker.Asleep? && s'.threads[u] == WakeWorker(mid[u]) {
      TallyGrows(mid, s'.threads, WorkerWoken, u);
    }
  }

  lemma {:induction false} DequeueKeepsWake(s: State, t: nat, s': State)
    requires WakeInv(s) && t < |s.threads| && DequeueStep(s, t, s')
    ensures WakeInv(s')
  {
    TallyUpdate(s.threads, t, s'.threads[t], WorkerWoken);
  }

  /** The number of woken workers does not shrink and nobody new sleeps or decides. */
  ghost predicate NoFewerWoken(s: State, s': State) {
    && s'.queue == s.queue && |s'.threads| == |s.threads|
    && forall u {:trigger s'.threads[u]} :: 0 <= u < |s.threads| ==>
         && (s.threads[u].worker.Woken? ==> s'.threads[u].worker.Woken?)
         && (s'.threads[u].worker.Asleep? ==> s.threads[u].worker.Asleep? || s.threads[u].worker.Deciding?)
         && (s'.threads[u].worker.Deciding? ==> s.threads[u].worker.Deciding?)
  }

  lemma {:induction false} NoFewerWokenKeepsWake(s: State, s': State)
    requires WakeInv(s) && NoFewerWoken(s, s')
    ensures WakeInv(s')
  {
    TallyMonotone(s.threads, s'.threads, WorkerWoken);
  }

  lemma {:induction false} OtherStepsWakeNoFewer(s: State, e: Event, s': State)
    requires Next(s, e, s') && !e.SpawnEnqueue? && !e.Dequeue? && !e.Cleanup?
    ensures NoFewerWoken(s, s')
  {
    if WaitsOnly(e) {
      WaitsMoveNoTask(s, e, s');
    }
  }

  lemma {:induction false} StepKeepsWake(s: State, e: Event, s': State)
    requires WakeInv(s) && Next(s, e, s')
    ensures WakeInv(s')
  {
    if e.SpawnEnqueue? {
      EnqueueKeepsWake(s, e.t, s');
    } else if e.Dequeue? {
      DequeueKeepsWake(s, e.t, s');
    } else if !e.Cleanup? {
      OtherStepsWakeNoFewer(s, e, s');
      NoFewerWokenKeepsWake(s, s');
    }
  }

  // ----- invariant: roles and exits ----------------------------------------

  ghost predicate RoleInv(s: State) {
    && (exists t :: 0 <= t < |s.threads| && !s.threads[t].worker.NotAWorker?)
    && (forall t {:trigger s.threads[t]} :: 0 <= t < |s.threads| ==>
          && (s.threads[t].worker.Exited? ==> s.shutdown)
          && (!s.threads[t].act.Idle? ==> RunsCode(s.threads[t])))
  }

  ghost predicate RolesKept(s: State, s': State) {
    && |s'.threads| == |s.threads| && (s.shutdown ==> s'.shutdown)
    && forall u {:trigger s'.threads[u]} :: 0 <= u < |s.threads| ==>
         && (s'.threads[u].worker.NotAWorker? <==> s.threads[u].worker.NotAWorker?)
         && (s'.threads[u].worker.Exited? ==> s.threads[u].worker.Exited? || s'.shutdown)
         && (RunsCode(s.threads[u]) ==> RunsCode(s'.threads[u]) || s'.threads[u].act.Idle?)
         && (!s'.threads[u].act.Idle? ==> !s.threads[u].act.Idle? || RunsCode(s'.threads[u]))
  }

  lemma {:induction false} WaitsKeepRoles(s: State, e: Event, s': State)
    requires RoleInv(s) && Next(s, e, s') && WaitsOnly(e)
    ensures RolesKept(s, s')
  {
    WaitsSetOneAct(s, e, s');
  }

  lemma {:induction false} OthersKeepRoles(s: State, e: Event, s': State)
    requires RoleInv(s) && Next(s, e, s') && !WaitsOnly(e)
    ensures RolesKept(s, s')
  {
  }

  lemma {:induction false} StepKeepsRoles(s: State, e: Event, s': State)
    requires RoleInv(s) && Next(s, e, s')
    ensures RoleInv(s')
  {
    if WaitsOnly(e) {
      WaitsKeepRoles(s, e, s');
    } else {
      OthersKeepRoles(s, e, s');
    }
    var t :| 0 <= t < |s.threads| && !s.threads[t].worker.NotAWorker?;
    assert !s'.threads[t].worker.NotAWorker?;
  }

  // ----- invariant: waiting and reaping, whoever waits ----------------------

  ghost predicate WaiterInv(s: State, t: nat)
    requires t < |s.threads|
  {
    match s.threads[t].act
    case WaitAsleep(h, k) => k < |s.tasks| && s.tasks[k].id == h && s.tasks[k].state != Completed
    case WaitWoken(h, k) => k < |s.tasks| && s.tasks[k].id == h
    case AnyAsleep(hs) => forall h :: h in hs ==> !Ready(s, h)
    case Reaping(k) =>
      k < |s.tasks| && s.tasks[k].state == Completed && (forall h :: h in s.table ==> s.table[h] != k)
    case _ => true
  }

  ghost predicate TableInv(s: State) {
    && (forall h :: h in s.table ==>
          s.table[h] < |s.tasks| && s.tasks[s.table[h]].id == h && s.table[h] !in s.destroyed)
    && (forall k :: k in s.destroyed ==> k < |s.tasks| && s.tasks[k].state == Completed)
  }

  ghost predicate WaitInv(s: State) {
    && TableInv(s)
    && forall t {:trigger s.threads[t]} :: 0 <= t < |s.threads| ==> WaiterInv(s, t)
  }

  /** Steps that leave handles and completion alone keep every waiter's condition. */
  ghost predicate SameWaiting(s: State, s': State) {
    && s'.table == s.table && s'.destroyed == s.destroyed
    && |s'.tasks| == |s.tasks| && |s'.threads| == |s.threads|
    && (forall k {:trigger s'.tasks[k]} :: 0 <= k < |s.tasks| ==>
          s'.tasks[k].id == s.tasks[k].id
          && (s'.tasks[k].state == Completed <==> s.tasks[k].state == Completed))
    && (forall u {:trigger s'.threads[u]} :: 0 <= u < |s.threads| ==>
          s'.threads[u].act == s.threads[u].act || s'.threads[u].act.Idle?
          || s'.threads[u].act.AnyWoken?
          || (s.threads[u].act.WaitAsleep?
              && s'.threads[u].act == WaitWoken(s.threads[u].act.h, s.threads[u].act.task)))
  }

  lemma {:induction false} SameWaitingKeepsInv(s: State, s': State)
    requires WaitInv(s) && SameWaiting(s, s')
    ensures WaitInv(s')
  {
    forall t | 0 <= t < |s'.threads| ensures WaiterInv(s', t) {
      assert WaiterInv(s, t);
    }
  }

  predicate TouchesWaiting(e: Event) {
    e.SpawnInsert? || e.Complete? || e.Destroy? || e.Cleanup? || WaitsOnly(e)
  }

  lemma {:induction false} StartKeepsWaiting(s: State, t: nat, s': State)
    requires PlaceInv(s) && t < |s.threads| && StartStep(s, t, s')
    ensures SameWaiting(s, s')
  {
    assert HolderAgrees(s, t);
  }

  lemma {:induction false} EnqueueKeepsWaiting(s: State, t: nat, s': State)
    requires t < |s.threads| && SpawnEnqueueStep(s, t, s')
    ensures SameWaiting(s, s')
  {
  }

  lemma {:induction false} OthersKeepWaiting(s: State, e: Event, s': State)
    requires PlaceInv(s) && Next(s, e, s') && !TouchesWaiting(e)
    ensures SameWaiting(s, s')
  {
    if e.Start? {
      StartKeepsWaiting(s, e.t, s');
    } else if e.SpawnEnqueue? {
      EnqueueKeepsWaiting(s, e.t, s');
    }
  }

  lemma {:induction false} InsertKeepsWaiting(s: State, t: nat, h: nat, s': State)
    requires WaitInv(s) && t < |s.threads| && SpawnInsertStep(s, t, h, s')
    ensures WaitInv(s')
  {
    forall u | 0 <= u < |s'.threads| ensures WaiterInv(s', u) {
      assert WaiterInv(s, u);
    }
  }

  lemma {:induction false} CompleteKeepsWaiting(s: State, t: nat, s': State)
    requires WaitInv(s) && t < |s.threads| && CompleteStep(s, t, s')
    ensures WaitInv(s')
  {
    var k := s.threads[t].worker.task;
    forall u | 0 <= u < |s'.threads| ensures WaiterInv(s', u) {
      assert WaiterInv(s, u);
      assert s'.threads[u] == WakeWaiter(SetWorker(s, t, Looking).threads[u], k);
    }
  }

  lemma {:induction false} DestroyKeepsWaiting(s: State, t: nat, s': State)
    requires WaitInv(s) && Next(s, Destroy(t), s')
    ensures WaitInv(s')
  {
    assert WaiterInv(s, t);
    forall u | 0 <= u < |s'.threads| ensures WaiterInv(s', u) {
      assert WaiterInv(s, u);
    }
  }

  /** Reaping through handle h of its own task. */
  lemma {:induction false} ReapKeepsWaiting(s: State, t: nat, h: nat, k: nat, s': State)
    requires WaitInv(s) && t < |s.threads| && k < |s.tasks| && s.tasks[k].id == h
    requires s.tasks[k].state == Completed
    requires s' == SetAct(s, t, Reaping(k)).(table := s.table - {h})
    ensures WaitInv(s')
  {
    forall u | 0 <= u < |s'.threads| ensures WaiterInv(s', u) {
      assert WaiterInv(s, u);
    }
  }

  lemma {:induction false} SleepKeepsWaiting(s: State, t: nat, a: Act, s': State)
    requires WaitInv(s) && t < |s.threads| && s' == SetAct(s, t, a) && WaiterInv(s', t)
    ensures WaitInv(s')
  {
    forall u | 0 <= u < |s'.threads| ensures WaiterInv(s', u) {
      assert WaiterInv(s, u);
    }
  }

  lemma {:induction false} WaitRegionKeepsWaiting(s: State, t: nat, h: nat, k: nat)
    requires WaitInv(s) && t < |s.threads| && k < |s.tasks| && s.tasks[k].id == h
    ensures WaitInv(WaitRegion(s, t, h, k))
  {
    var s' := WaitRegion(s, t, h, k);
    if s.tasks[k].state == Completed {
      ReapKeepsWaiting(s, t, h, k, s');
    } else {
      SleepKeepsWaiting(s, t, WaitAsleep(h, k), s');
    }
  }

  lemma {:induction false} WaitAnyRegionKeepsWaiting(s: State, t: nat, hs: seq<nat>)
    requires WaitInv(s) && t < |s.threads|
    ensures WaitInv(WaitAnyRegion(s, t, hs))
  {
    var s', i := WaitAnyRegion(s, t, hs), FirstReady(s, hs);
    if i < |hs| {
      ReapKeepsWaiting(s, t, hs[i], s.table[hs[i]], s');
    } else {
      forall h | h in hs ensures !Ready(s', h) {
        var j :| 0 <= j < |hs| && hs[j] == h;
        assert !Ready(s, hs[j]);
      }
      SleepKeepsWaiting(s, t, AnyAsleep(hs), s');
    }
  }

  lemma {:induction false} StepKeepsWaiting(s: State, e: Event, s': State)
    requires WaitInv(s) && PlaceInv(s) && Next(s, e, s') && !e.Cleanup?
    ensures WaitInv(s')
  {
    if !TouchesWaiting(e) {
      OthersKeepWaiting(s, e, s');
      SameWaitingKeepsInv(s, s');
    } else {
      assert WaiterInv(s, e.t);
      match e
      case SpawnInsert(t, h) => InsertKeepsWaiting(s, t, h, s');
      case Complete(t) => CompleteKeepsWaiting(s, t, s');
      case Destroy(t) => DestroyKeepsWaiting(s, t, s');
      case Wait(t, h) => if h in s.table { WaitRegionKeepsWaiting(s, t, h, s.table[h]); }
      case WaitResume(t) => WaitRegionKeepsWaiting(s, t, s.threads[t].act.h, s.threads[t].act.task);
      case WaitAny(t, hs) => WaitAnyRegionKeepsWaiting(s, t, hs);
      case WaitAnyResume(t) => WaitAnyRegionKeepsWaiting(s, t, s.threads[t].act.hs);
    }
  }

  // ----- every run ----------------------------------------------------------

  ghost predicate Inv(s: State) {
    PlaceInv(s) && LogInv(s) && WakeInv(s) && RoleInv(s) && (!s.down ==> WaitInv(s))
  }

  lemma {:induction false} InitInv(s: State)
    requires Init(s)
    ensures Inv(s)
  {
    forall t | 0 <= t < |s.threads| ensures HolderAgrees(s, t) && WaiterInv(s, t) {
      assert s.threads[t].act.Idle?;
    }
  }

  lemma {:induction false} StepKeepsInv(s: State, e: Event, s': State)
    requires Inv(s) && Next(s, e, s')
    ensures Inv(s')
  {
    StepKeepsPlaces(s, e, s');
    StepKeepsLogs(s, e, s');
    StepKeepsWake(s, e, s');
    StepKeepsRoles(s, e, s');
    if !e.Cleanup? {
      StepKeepsWaiting(s, e, s');
    }
  }

  lemma {:induction false} ReachableInv(states: seq<State>, events: seq<Event>, i: nat)
    requires Run(states, events) && i < |states|
    ensures Inv(states[i])
  {
    if i == 0 {
      InitInv(states[0]);
    } else {
      ReachableInv(states, events, i - 1);
      StepKeepsInv(states[i - 1], events[i - 1], states[i]);
    }
  }

  // ----- each task in one place, run once, in order --------------------------

  ghost predicate AwaitsEnqueue(s: State, k: nat) {
    exists t :: 0 <= t < |s.threads| && s.threads[t].act == Inserted(k)
  }

  ghost predicate HeldByAWorker(s: State, k: nat) {
    exists t :: 0 <= t < |s.threads| && Held(s.threads[t]) == Some(k)
  }

  function One(b: bool): nat { if b then 1 else 0 }

  /** In every reachable state of a running system a task is in exactly one of the four
      places, is held by at most one worker, and occurs at most once in the queue. */
  lemma {:induction false} EveryTaskInExactlyOnePlace(states: seq<State>, events: seq<Event>, i: nat, k: nat)
    requires Run(states, events) && i < |states| && !states[i].down && k < |states[i].tasks|
    ensures var s := states[i];
      && One(AwaitsEnqueue(s, k)) + One(k in s.queue) + One(HeldByAWorker(s, k))
         + One(s.tasks[k].state == Completed) == 1
      && Distinct(s.queue)
      && forall t, u | 0 <= t < |s.threads| && 0 <= u < |s.threads| ::
           Held(s.threads[t]) == Held(s.threads[u]) == Some(k) ==> t == u
  {
    ReachableInv(states, events, i);
    var s := states[i];
    assert PlaceIsReal(s, k);
    assert AwaitsEnqueue(s, k) <==> s.tasks[k].place.NotEnqueued? by {
      if t :| 0 <= t < |s.threads| && s.threads[t].act == Inserted(k) {
        assert HolderAgrees(s, t);
      }
    }
    assert HeldByAWorker(s, k) <==> s.tasks[k].place.HeldBy? by {
      if t :| 0 <= t < |s.threads| && Held(s.threads[t]) == Some(k) {
        assert HolderAgrees(s, t);
      }
    }
    forall t, u | 0 <= t < |s.threads| && 0 <= u < |s.threads|
        && Held(s.threads[t]) == Held(s.threads[u]) == Some(k)
      ensures t == u
    {
      assert HolderAgrees(s, t) && HolderAgrees(s, u);
    }
  }

  /** Tasks leave the queue in the order in which they entered it, and no task body is
      called twice. */
  lemma {:induction false} DequeuedInOrderRunAtMostOnce(states: seq<State>, events: seq<Event>, i: nat)
    requires Run(states, events) && i < |states| && !states[i].down
    ensures states[i].enqueued == states[i].dequeued + states[i].queue
    ensures Distinct(states[i].dequeued) && Distinct(states[i].ran)
    ensures forall k :: k in states[i].ran ==> k in states[i].dequeued
  {
    ReachableInv(states, events, i);
    var s := states[i];
    assert Distinct(s.dequeued) by {
      assert forall j :: 0 <= j < |s.dequeued| ==> s.dequeued[j] == s.enqueued[j];
    }
    forall k | k in s.ran ensures k in s.dequeued {
      assert HasRun(s, k);
      assert k in s.enqueued && k !in s.queue;
    }
  }

  // ----- shutdown drains the queue ------------------------------------------

  /** No thread outside the pool enqueues once the shutdown flag is up. */
  ghost predicate NoLateOutsideSpawn(states: seq<State>, events: seq<Event>)
    requires |states| == |events| + 1
  {
    forall i {:trigger events[i]} :: 0 <= i < |events| && events[i].SpawnEnqueue?
      && events[i].t < |states[i].threads| && states[i].threads[events[i].t].worker.NotAWorker?
      ==> !states[i].shutdown
  }

  ghost predicate Drained(s: State) { AllWorkersExited(s) ==> s.queue == [] }

  lemma {:induction false} EnqueueKeepsDrained(s: State, t: nat, s': State)
    requires RoleInv(s) && t < |s.threads| && SpawnEnqueueStep(s, t, s')
    requires s.threads[t].worker.NotAWorker? ==> !s.shutdown
    ensures Drained(s')
  {
    var w :| 0 <= w < |s.threads| && !s.threads[w].worker.NotAWorker?;
    var busy := if s.threads[t].worker.NotAWorker? then w else t;
    assert !s.threads[busy].worker.NotAWorker? && !s.threads[busy].worker.Exited?;
    var mid := SetAct(s, t, Idle).threads;
    assert !mid[busy].worker.NotAWorker? && !mid[busy].worker.Exited?;
    assert !s'.threads[busy].worker.NotAWorker? && !s'.threads[busy].worker.Exited?;
  }

  lemma {:induction false} DequeueKeepsDrained(s: State, t: nat, s': State)
    requires t < |s.threads| && DequeueStep(s, t, s')
    ensures Drained(s')
  {
    assert s.queue != [] ==> s'.threads[t].worker.Holding?;
  }

  /** Every other step exits nobody and enqueues nothing. */
  lemma {:induction false} OthersKeepDrained(s: State, e: Event, s': State)
    requires Drained(s) && Next(s, e, s') && !e.SpawnEnqueue? && !e.Dequeue?
    ensures Drained(s')
  {
    if WaitsOnly(e) {
      WaitsMoveNoTask(s, e, s');
    }
    if AllWorkersExited(s') {
      forall u | 0 <= u < |s.threads|
        ensures s.threads[u].worker.NotAWorker? || s.threads[u].worker.Exited?
      {
        assert s'.threads[u].worker.NotAWorker? || s'.threads[u].worker.Exited?;
      }
    }
  }

  lemma {:induction false} ReachableDrained(states: seq<State>, events: seq<Event>, i: nat)
    requires Run(states, events) && NoLateOutsideSpawn(states, events) && i < |states|
    ensures Drained(states[i])
  {
    if i > 0 {
      ReachableDrained(states, events, i - 1);
      ReachableInv(states, events, i - 1);
      var s, e, s' := states[i - 1], events[i - 1], states[i];
      assert Next(s, e, s');
      if e.SpawnEnqueue? {
        EnqueueKeepsDrained(s, e.t, s');
      } else if e.Dequeue? {
        DequeueKeepsDrained(s, e.t, s');
      } else {
        OthersKeepDrained(s, e, s');
      }
    }
  }

  /** Once all workers have exited, the queue is empty and every task that was ever
      enqueued has run, exactly once, to completion. */
  lemma {:induction false} ShutdownRunsEverythingOnce(states: seq<State>, events: seq<Event>, i: nat)
    requires Run(states, events) && NoLateOutsideSpawn(states, events)
    requires i < |states| && !states[i].down && AllWorkersExited(states[i])
    ensures states[i].shutdown && states[i].queue == []
    ensures Distinct(states[i].ran) && Distinct(states[i].enqueued)
    ensures forall k :: k in states[i].enqueued <==> k in states[i].ran
    ensures forall k :: k in states[i].enqueued ==>
              k < |states[i].tasks| && states[i].tasks[k].state == Completed
  {
    ReachableInv(states, events, i);
    ReachableDrained(states, events, i);
    var s := states[i];
    var w :| 0 <= w < |s.threads| && !s.threads[w].worker.NotAWorker?;
    assert s.threads[w].worker.Exited?;
    forall k | k in s.enqueued ensures k < |s.tasks| && s.tasks[k].place == Finished {
      assert PlaceIsReal(s, k);
    }
    forall k | k in s.ran ensures k in s.enqueued {
      assert HasRun(s, k);
    }
  }

  // ----- waiting and reaping --------------------------------------------------

  /** Whoever waits for what: nobody sleeps in WAIT on a completed task, nor in WAIT_ANY
      with a completed task among its handles. */
  lemma {:induction false} NobodySleepsOnACompletedTask(states: seq<State>, events: seq<Event>, i: nat, t: nat)
    requires Run(states, events) && i < |states| && !states[i].down && t < |states[i].threads|
    ensures var s := states[i];
      && (s.threads[t].act.WaitAsleep? ==>
            s.threads[t].act.task < |s.tasks| && s.tasks[s.threads[t].act.task].state != Completed)
      && (s.threads[t].act.AnyAsleep? ==>
            forall h :: h in s.threads[t].act.hs && h in s.table ==>
              s.table[h] < |s.tasks| && s.tasks[s.table[h]].state != Completed)
  {
    ReachableInv(states, events, i);
    var s := states[i];
    assert WaiterInv(s, t);
    if s.threads[t].act.AnyAsleep? {
      forall h | h in s.threads[t].act.hs && h in s.table ensures s.tasks[s.table[h]].state != Completed {
        assert !Ready(s, h);
      }
    }
  }

  /** Whoever waits for what: no task that a worker holds, or that the queue links, or
      that a handle of the table leads to, has been destroyed. */
  lemma {:induction false} WorkersNeverTouchDestroyedTasks(states: seq<State>, events: seq<Event>, i: nat)
    requires Run(states, events) && i < |states| && !states[i].down
    ensures var s := states[i];
      && (forall t :: 0 <= t < |s.threads| && Held(s.threads[t]).Some? ==>
            Held(s.threads[t]).value !in s.destroyed)
      && (forall k :: k in s.queue ==> k !in s.destroyed)
      && (forall h :: h in s.table ==> s.table[h] !in s.destroyed)
  {
    ReachableInv(states, events, i);
    var s := states[i];
    forall t | 0 <= t < |s.threads| && Held(s.threads[t]).Some?
      ensures Held(s.threads[t]).value !in s.destroyed
    {
      assert HolderAgrees(s, t);
    }
  }

  /** In every state of every run: while a worker sleeps, at most as many tasks are
      queued as workers are already woken. */
  lemma {:induction false} NoLostQueueWakeups(states: seq<State>, events: seq<Event>, i: nat)
    requires Run(states, events) && i < |states|
    ensures WorkersCovered(states[i])
    ensures (exists t :: 0 <= t < |states[i].threads| && states[i].threads[t].worker.Asleep?)
              && states[i].queue != [] ==>
              exists t :: 0 <= t < |states[i].threads| && states[i].threads[t].worker.Woken?
  {
    ReachableInv(states, events, i);
    if Tally(states[i].threads, WorkerWoken) > 0 {
      TallyWitness(states[i].threads, WorkerWoken);
    }
  }
}
