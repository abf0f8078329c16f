/** How a worker brings a task to execution (scheduler.c:36-81, worker.c:11-37) while nobody that
    waits moves on: steps that continue a state in which later calls are careful. */
module Progress {
  import opened Common
  import opened Condvar
  import opened Runtime
  import opened Reaping

  // ----- continuations ------------------------------------------------------------------

  /** Steps from states[0] on, every later WAIT and WAIT_ANY being careful. */
  ghost predicate Steps(states: seq<State>, events: seq<Event>) {
    && |states| == |events| + 1
    && forall i {:trigger events[i]} :: 0 <= i < |events| ==>
         Next(states[i], events[i], states[i + 1]) && CarefulStep(states[i], events[i])
  }

  ghost predicate Links(states: seq<State>, events: seq<Event>, s: State, s': State) {
    Steps(states, events) && states[0] == s && states[|events|] == s'
  }

  ghost predicate CanReach(s: State, s': State) { exists states, events :: Links(states, events, s, s') }

  lemma {:induction false} ReachSelf(s: State)
    ensures CanReach(s, s)
  {
    assert Links([s], [], s, s);
  }

  lemma {:induction false} ReachOneMore(s: State, s1: State, e: Event, s2: State)
    requires CanReach(s, s1) && Next(s1, e, s2) && CarefulStep(s1, e)
    ensures CanReach(s, s2)
  {
    var states, events :| Links(states, events, s, s1);
    var more, all := states + [s2], events + [e];
    forall i | 0 <= i < |all| ensures Next(more[i], all[i], more[i + 1]) && CarefulStep(more[i], all[i]) {
      if i < |events| {
        assert all[i] == events[i] && more[i] == states[i] && more[i + 1] == states[i + 1];
      } else {
        assert all[i] == e && more[i] == s1 && more[i + 1] == s2;
      }
    }
    assert more[0] == s && more[|all|] == s2 && Steps(more, all);
    assert Links(more, all, s, s2);
  }

  lemma {:induction false} LinksKeepInv(states: seq<State>, events: seq<Event>, i: nat)
    requires Steps(states, events) && Inv(states[0]) && i < |states|
    ensures Inv(states[i])
  {
    if i > 0 {
      LinksKeepInv(states, events, i - 1);
      assert Next(states[i - 1], events[i - 1], states[i]);
      StepKeepsInv(states[i - 1], events[i - 1], states[i]);
    }
  }

  lemma {:induction false} ReachKeepsInv(s: State, s': State)
    requires Inv(s) && CanReach(s, s')
    ensures Inv(s')
  {
    var states, events :| Links(states, events, s, s');
    LinksKeepInv(states, events, |events|);
  }

  // ----- steps beside the waiters -------------------------------------------------------------

  lemma {:induction false} SameWaitJoins(a: Act, b: Act, c: Act)
    requires SameWait(a, b) && SameWait(b, c)
    ensures SameWait(a, c)
  {
  }

  /** s1 continues s, and apart from w nobody that waits has moved on. */
  ghost predicate Beside(s: State, s1: State, w: nat) {
    && CanReach(s, s1) && PlaceInv(s1) && !s1.down
    && |s1.threads| == |s.threads| && s1.table == s.table && |s1.tasks| == |s.tasks|
    && forall u {:trigger s1.threads[u]} :: 0 <= u < |s.threads| && u != w ==>
          SameWait(s.threads[u].act, s1.threads[u].act)
  }

  lemma {:induction false} StepBeside(s: State, s1: State, e: Event, s2: State, w: nat)
    requires Beside(s, s1, w) && Next(s1, e, s2)
    requires !TouchesReaping(e) || e == Destroy(w)
    ensures Beside(s, s2, w)
  {
    StepKeepsPlaces(s1, e, s2);
    ReachOneMore(s, s1, e, s2);
    if e != Destroy(w) {
      OthersKeepReaping(s1, e, s2);
    }
    forall u | 0 <= u < |s.threads| && u != w ensures SameWait(s.threads[u].act, s2.threads[u].act) {
      assert SameWait(s.threads[u].act, s1.threads[u].act) && SameWait(s1.threads[u].act, s2.threads[u].act);
      SameWaitJoins(s.threads[u].act, s1.threads[u].act, s2.threads[u].act);
    }
  }

  /** Deciding workers may have gone to sleep; nothing else has changed. */
  ghost predicate SleepyCopy(s: State, s': State) {
    && s' == s.(threads := s'.threads) && |s'.threads| == |s.threads|
    && forall u {:trigger s'.threads[u]} :: 0 <= u < |s.threads| ==>
         || s'.threads[u] == s.threads[u]
         || (s.threads[u].worker.Deciding? && s'.threads[u] == s.threads[u].(worker := Asleep))
  }

  lemma {:induction false} FreeQueueLock(s: State, s1: State, w: nat, n: nat) returns (s2: State)
    requires Beside(s, s1, w) && n <= |s1.threads|
    ensures Beside(s, s2, w) && SleepyCopy(s1, s2) && forall t :: 0 <= t < n ==> !s2.threads[t].worker.Deciding?
    decreases n
  {
    s2 := s1;
    if n > 0 {
      var s3 := FreeQueueLock(s, s1, w, n - 1);
      s2 := s3;
      if s3.threads[n - 1].worker.Deciding? {
        s2 := SetWorker(s3, n - 1, Asleep);
        StepBeside(s, s3, FallAsleep(n - 1), s2, w);
      }
    }
  }

  /** The steps between s1 and s2 keep what w and the queue have, but for task j. */
  ghost predicate Keeps(s1: State, s2: State, w: nat, j: nat)
    requires w < |s1.threads| && |s1.tasks| == |s2.tasks| && |s1.threads| == |s2.threads|
  {
    && Held(s2.threads[w]) == Held(s1.threads[w])
    && (Working(s1.threads[w]) ==> Working(s2.threads[w]))
    && forall i {:trigger s2.tasks[i]} :: 0 <= i < |s1.tasks| && i != j ==> s2.tasks[i].place == s1.tasks[i].place
  }

  /** In the pool and not yet exited. */
  predicate Working(th: Thread) { !th.worker.NotAWorker? && !th.worker.Exited? }

  /** Thread u enqueues the task it has inserted, the queue lock being free. */
  lemma {:induction false} EnqueueStep(s1: State, u: nat, k: nat) returns (s2: State)
    requires !s1.down && QueueLockFree(s1) && u < |s1.threads| && s1.threads[u].act == Inserted(k) && k < |s1.tasks|
    ensures Next(s1, SpawnEnqueue(u), s2) && |s2.tasks| == |s1.tasks| && |s2.threads| == |s1.threads|
    ensures s2.tasks == s1.tasks[k := s1.tasks[k].(place := Queued)]
    ensures forall t {:trigger s2.threads[t]} :: 0 <= t < |s1.threads| ==>
              && s2.threads[t].act == (if t == u then Idle else s1.threads[t].act)
              && s2.threads[t].worker == (if s1.threads[t].worker.Asleep? then Woken else s1.threads[t].worker)
  {
    var before := SetAct(s1, u, Idle).threads;
    var after := Broadcast(before, WorkerAsleep, WakeWorker);
    s2 := s1.(threads := after, queue := s1.queue + [k], enqueued := s1.enqueued + [k],
              tasks := s1.tasks[k := s1.tasks[k].(place := Queued)]);
    assert Signalled(before, after, WorkerAsleep, WakeWorker);
  }

  /** Thread u goes on from insert to enqueue. */
  lemma {:induction false} Enqueues(s: State, s1: State, w: nat, u: nat) returns (s2: State)
    requires Beside(s, s1, w) && w < |s1.threads| && u < |s1.threads| && s1.threads[u].act.Inserted?
    ensures Beside(s, s2, w) && s2.threads[u].act.Idle? && (u != w ==> s2.threads[w].act == s1.threads[w].act)
    ensures var k := s1.threads[u].act.task;
      k < |s2.tasks| && s2.tasks[k].place == Queued && Keeps(s1, s2, w, k)
  {
    var k := s1.threads[u].act.task;
    assert HolderAgrees(s1, u);
    var s3 := FreeQueueLock(s, s1, w, |s1.threads|);
    assert s3.threads[u].act == s1.threads[u].act;
    s2 := EnqueueStep(s3, u, k);
    StepBeside(s, s3, SpawnEnqueue(u), s2, w);
  }

  /** The code a thread runs is not waiting. */
  predicate Unblocked(a: Act) { a.Idle? || a.Inserted? || a.Reaping? }

  /** w completes the spawn or the reaping it is in. */
  lemma {:induction false} GetsBack(s: State, s1: State, w: nat, k: nat) returns (s2: State)
    requires Beside(s, s1, w) && w < |s1.threads| && Unblocked(s1.threads[w].act) && CanGet(s1, w, k)
    ensures Beside(s, s2, w) && s2.threads[w].act.Idle? && CanGet(s2, w, k)
  {
    if s1.threads[w].act.Inserted? {
      assert HolderAgrees(s1, w);
      s2 := Enqueues(s, s1, w, w);
    } else if s1.threads[w].act.Reaping? {
      s2 := SetAct(s1, w, Idle).(destroyed := s1.destroyed + [s1.threads[w].act.task]);
      StepBeside(s, s1, Destroy(w), s2, w);
    } else {
      s2 := s1;
    }
  }

  /** w has task k, or k is on the way to the queue or in it. */
  predicate CanGet(s: State, w: nat, k: nat)
    requires w < |s.threads|
  {
    && Working(s.threads[w]) && k < |s.tasks|
    && (Held(s.threads[w]) == Some(k) || s.tasks[k].place.NotEnqueued? || s.tasks[k].place.Queued?)
  }

  // ----- one task after the other ------------------------------------------------------------------

  /** w is in the body of the task it has taken. */
  lemma {:induction false} Begins(s: State, s1: State, w: nat, j: nat) returns (s2: State)
    requires Beside(s, s1, w) && w < |s1.threads| && s1.threads[w].act.Idle? && Held(s1.threads[w]) == Some(j)
    ensures Beside(s, s2, w) && s2.threads[w] == Thread(Executing(j), Idle)
    ensures s2.queue == s1.queue && Keeps(s1, s2, w, j)
  {
    assert HolderAgrees(s1, w);
    var s3 := s1;
    if s1.threads[w].worker.Holding? {
      s3 := SetWorker(s1, w, Started(j)).(tasks := s1.tasks[j := s1.tasks[j].(state := TaskState.Running)]);
      StepBeside(s, s1, Start(w), s3, w);
    }
    s2 := s3;
    if s3.threads[w].worker.Started? {
      s2 := SetWorker(s3, w, Executing(j)).(ran := s3.ran + [j]);
      StepBeside(s, s3, Execute(w), s2, w);
    }
  }

  /** w runs the task it has taken to its end. */
  lemma {:induction false} Finishes(s: State, s1: State, w: nat, j: nat) returns (s2: State)
    requires Beside(s, s1, w) && w < |s1.threads| && s1.threads[w].act.Idle? && Held(s1.threads[w]) == Some(j)
    ensures Beside(s, s2, w) && s2.threads[w] == Thread(Looking, Idle) && s2.queue == s1.queue
    ensures forall i {:trigger s2.tasks[i]} :: 0 <= i < |s1.tasks| && i != j ==> s2.tasks[i].place == s1.tasks[i].place
  {
    var s3 := Begins(s, s1, w, j);
    assert HolderAgrees(s3, w);
    s2 := s3.(threads := WakeWaiters(SetWorker(s3, w, Looking).threads, j),
              tasks := s3.tasks[j := s3.tasks[j].(state := Completed, place := Finished)]);
    StepBeside(s, s3, Complete(w), s2, w);
  }

  /** w, looking for a task, takes the first one of the queue. */
  lemma {:induction false} TakesFirst(s: State, s1: State, w: nat) returns (s2: State)
    requires Beside(s, s1, w) && w < |s1.threads| && s1.threads[w].act.Idle? && s1.queue != []
    requires Working(s1.threads[w]) && Held(s1.threads[w]) == None
    ensures Beside(s, s2, w) && s2.threads[w] == Thread(Holding(s1.queue[0]), Idle) && s2.queue == s1.queue[1..]
    ensures forall i {:trigger s2.tasks[i]} :: 0 <= i < |s1.tasks| && i != s1.queue[0] ==>
              s2.tasks[i].place == s1.tasks[i].place
  {
    var s3 := FreeQueueLock(s, s1, w, |s1.threads|);
    if s3.threads[w].worker.Asleep? {
      var s4 := SetWorker(s3, w, Woken);
      StepBeside(s, s3, Spurious(w), s4, w);
      s3 := s4;
    }
    var k := s3.queue[0];
    assert k in s3.queue;
    s2 := SetWorker(s3, w, Holding(k)).(queue := s3.queue[1..], dequeued := s3.dequeued + [k],
                                        tasks := s3.tasks[k := s3.tasks[k].(place := HeldBy(w))]);
    StepBeside(s, s3, Dequeue(w), s2, w);
  }

  /** w works through the queue until it has task k. */
  lemma {:induction false} WorksUpTo(s: State, s1: State, w: nat, k: nat) returns (s2: State)
    requires Beside(s, s1, w) && w < |s1.threads| && s1.threads[w].act.Idle?
    requires Working(s1.threads[w]) && Held(s1.threads[w]) == None && k < |s1.tasks| && s1.tasks[k].place == Queued
    ensures Beside(s, s2, w) && s2.threads[w].act.Idle? && Held(s2.threads[w]) == Some(k)
    decreases |s1.queue|
  {
    assert PlaceIsReal(s1, k);
    var j := s1.queue[0];
    s2 := TakesFirst(s, s1, w);
    if j != k {
      var s3 := Finishes(s, s2, w, j);
      s2 := WorksUpTo(s, s3, w, k);
    }
  }

  /** w, not waiting itself, gets to execute task k, and is back at work in it. */
  lemma {:induction false} GetsToRun(s: State, w: nat, k: nat) returns (s2: State)
    requires PlaceInv(s) && !s.down && w < |s.threads| && Unblocked(s.threads[w].act) && CanGet(s, w, k)
    ensures Beside(s, s2, w) && s2.threads[w] == Thread(Executing(k), Idle)
  {
    ReachSelf(s);
    var s1 := GetsBack(s, s, w, k);
    if Held(s1.threads[w]) != Some(k) {
      s1 := GetsFree(s, s1, w, k);
      s1 := WorksUpTo(s, s1, w, k);
    }
    s2 := Begins(s, s1, w, k);
  }

  /** w has no task in hand and k is in the queue. */
  lemma {:induction false} GetsFree(s: State, s1: State, w: nat, k: nat) returns (s2: State)
    requires Beside(s, s1, w) && w < |s1.threads| && s1.threads[w].act.Idle? && CanGet(s1, w, k)
    requires Held(s1.threads[w]) != Some(k)
    ensures Beside(s, s2, w) && s2.threads[w].act.Idle? && Working(s2.threads[w]) && Held(s2.threads[w]) == None
    ensures k < |s2.tasks| && s2.tasks[k].place == Queued
  {
    s2 := s1;
    if Held(s2.threads[w]).Some? {
      var j := Held(s2.threads[w]).value;
      s2 := Finishes(s, s2, w, j);
    }
    if s2.tasks[k].place.NotEnqueued? {
      assert PlaceIsReal(s2, k);
      s2 := Enqueues(s, s2, w, s2.tasks[k].place.spawner);
    }
  }
}
