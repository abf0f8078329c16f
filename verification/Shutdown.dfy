/** The broadcast of sigil_runtime_shutdown, runtime.c:42-47: when it is missed, and what follows. */
module Shutdown {
  import opened Condvar
  import opened Runtime

  // ----- exactly when the broadcast is missed ----------------------------------------------

  /** Some worker sleeps in a run that goes on from the first n steps of this one. */
  ghost predicate SleepsLater(states: seq<State>, events: seq<Event>, n: nat)
    requires n < |states| == |events| + 1
  {
    exists states', events', j ::
      && Run(states', events') && events[..n] <= events' && states[..n + 1] <= states'
      && n <= j < |states'| && SomeWorkerAsleep(states'[j])
  }

  ghost predicate SomeWorkerAsleep(s: State) { exists t :: 0 <= t < |s.threads| && s.threads[t].worker.Asleep? }

  ghost predicate SomeWorkerDeciding(s: State) { exists t :: 0 <= t < |s.threads| && s.threads[t].worker.Deciding? }

  /** The flag is up, and no worker sleeps or is about to. */
  ghost predicate WideAwake(s: State) { s.shutdown && !SomeWorkerAsleep(s) && !SomeWorkerDeciding(s) }

  lemma {:induction false} StaysWideAwake(s: State, e: Event, s': State)
    requires WideAwake(s) && Next(s, e, s')
    ensures WideAwake(s')
  {
    if WaitsOnly(e) {
      WaitsSetOneAct(s, e, s');
    }
    forall t | 0 <= t < |s'.threads| ensures !s'.threads[t].worker.Asleep? && !s'.threads[t].worker.Deciding? {
      assert !s.threads[t].worker.Asleep? && !s.threads[t].worker.Deciding?;
    }
  }

  lemma {:induction false} AlwaysWideAwake(states: seq<State>, events: seq<Event>, i: nat, j: nat)
    requires Run(states, events) && i <= j < |states| && WideAwake(states[i])
    ensures WideAwake(states[j])
    decreases j
  {
    if i < j {
      AlwaysWideAwake(states, events, i, j - 1);
      assert Next(states[j - 1], events[j - 1], states[j]);
      StaysWideAwake(states[j - 1], events[j - 1], states[j]);
    }
  }

  /** A run cut off after n steps and continued by one. */
  lemma {:induction false} OtherEnd(states: seq<State>, events: seq<Event>, n: nat, e: Event, s: State)
    requires Run(states, events) && n < |states| && Next(states[n], e, s)
    ensures Run(states[..n + 1] + [s], events[..n] + [e])
  {
    var ss, es := states[..n + 1] + [s], events[..n] + [e];
    forall i | 0 <= i < |es| ensures Next(ss[i], es[i], ss[i + 1]) {
      if i < n {
        assert es[i] == events[i] && ss[i] == states[i] && ss[i + 1] == states[i + 1];
      }
    }
  }

  /** In every run: after the broadcast a worker may still go to sleep if and only if, at the
      broadcast, some worker has found the queue empty and the flag down but does not sleep yet. */
  lemma {:induction false} BroadcastMissedExactly(states: seq<State>, events: seq<Event>, i: nat)
    requires Run(states, events) && i < |events| && events[i].BroadcastShutdown?
    ensures SleepsLater(states, events, i + 1) <==> SomeWorkerDeciding(states[i])
  {
    var s, s' := states[i], states[i + 1];
    assert Next(s, events[i], s');
    if t :| 0 <= t < |s.threads| && s.threads[t].worker.Deciding? {
      assert s'.threads[t].worker.Deciding?;
      var s2 := SetWorker(s', t, Asleep);
      OtherEnd(states, events, i + 1, FallAsleep(t), s2);
      var states', events' := states[..i + 2] + [s2], events[..i + 1] + [FallAsleep(t)];
      assert s2.threads[t].worker.Asleep?;
      assert states'[i + 2] == s2 && SomeWorkerAsleep(states'[i + 2]);
    } else {
      assert WideAwake(s');
      if states', events', j :| Run(states', events') && events[..i + 1] <= events' && states[..i + 2] <= states'
                               && i + 1 <= j < |states'| && SomeWorkerAsleep(states'[j]) {
        assert states'[i + 1] == states[..i + 2][i + 1] == s';
        AlwaysWideAwake(states', events', i + 1, j);
      }
    }
  }

  // ----- what follows ------------------------------------------------------------------------

  /** Nothing that could wake worker t happens from step i on: no further broadcast, no new task,
      no spurious wakeup of t. */
  ghost predicate NothingWakes(events: seq<Event>, i: nat, t: nat) {
    forall j :: i <= j < |events| ==>
      !events[j].BroadcastShutdown? && !events[j].SpawnEnqueue? && events[j] != Spurious(t)
  }

  lemma {:induction false} KeepsSleeping(s: State, e: Event, s': State, t: nat)
    requires Next(s, e, s') && t < |s.threads| && s.threads[t].worker.Asleep?
    requires !e.BroadcastShutdown? && !e.SpawnEnqueue? && e != Spurious(t)
    ensures !s'.down && t < |s'.threads| && s'.threads[t].worker.Asleep?
  {
    if WaitsOnly(e) {
      WaitsSetOneAct(s, e, s');
    }
  }

  /** A worker that misses the only broadcast then sleeps for good: the pool is never joined and
      the runtime never taken down. */
  lemma {:induction false} SleepsForGood(states: seq<State>, events: seq<Event>, i: nat, j: nat, t: nat)
    requires Run(states, events) && i <= j < |states| && NothingWakes(events, i, t)
    requires t < |states[i].threads| && states[i].threads[t].worker.Asleep? && !states[i].down
    ensures t < |states[j].threads| && states[j].threads[t].worker.Asleep?
    ensures !AllWorkersExited(states[j]) && !states[j].down
    decreases j
  {
    if i < j {
      SleepsForGood(states, events, i, j - 1, t);
      assert Next(states[j - 1], events[j - 1], states[j]);
      KeepsSleeping(states[j - 1], events[j - 1], states[j], t);
    }
  }

  /** The flag is raised and broadcast outside the queue lock (runtime.c:43-44), so a
      worker that has already found the flag down can go to sleep after the broadcast:
      such a run from the start. */
  lemma {:induction false} ShutdownBroadcastCanBeMissed() returns (states: seq<State>, events: seq<Event>)
    ensures Run(states, events)
    ensures |events| == 4 && events[1] == RaiseShutdown(1) && events[2] == BroadcastShutdown(1)
    ensures var s := states[4];
      s.shutdown && s.queue == [] && |s.threads| == 2
      && s.threads[0].worker.Asleep? && s.threads[1].worker.NotAWorker?
  {
    states := seq(5, i requires 0 <= i < 5 => Missed(i));
    events := MissedEvents;
    assert Init(Missed(0)) by { assert Missed(0).threads[0].worker.Looking?; }
    forall i | 0 <= i < 4 ensures Next(states[i], events[i], states[i + 1]) {
      MissedStep(i);
    }
  }

  function Missed(i: nat): State {
    var worker := if i == 0 then Looking else if i < 4 then Deciding else Asleep;
    State([Thread(worker, Idle), Thread(NotAWorker, Idle)], [], map[], [], i >= 2, false, [], [], [], [])
  }

  const MissedEvents := [Dequeue(0), RaiseShutdown(1), BroadcastShutdown(1), FallAsleep(0)]

  lemma {:induction false} MissedStep(i: nat)
    requires i < 4
    ensures Next(Missed(i), MissedEvents[i], Missed(i + 1))
  {
    assert i == 2 ==> Broadcast(Missed(2).threads, WorkerAsleep, WakeWorker) == Missed(3).threads;
  }
}
