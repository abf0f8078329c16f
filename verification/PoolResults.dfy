/** What the calls of the task runtime do, over every run: runtime/src/task.c:115-213 and
    scheduler.c:36-81. */
module PoolResults {
  import opened Runtime

  /** The handle names task k, which is completed. */
  predicate Done(s: State, h: nat, k: nat) {
    h in s.table && s.table[h] == k && k < |s.tasks| && s.tasks[k].state == Completed
  }

  /** Nothing has changed but what thread t does and the table. */
  ghost predicate OnlyAct(s: State, s': State, t: nat, a: Act, table: map<nat, nat>) {
    && |s'.threads| == |s.threads| && t < |s.threads|
    && (forall u {:trigger s'.threads[u]} :: 0 <= u < |s.threads| ==>
          s'.threads[u] == if u == t then Thread(s.threads[u].worker, a) else s.threads[u])
    && s' == s.(threads := s'.threads, table := table)
  }

  /** WAIT, when called and when woken: takes a completed task and its handle, sleeps on one that is
      not, and returns at once on a handle that names none. */
  lemma {:induction false} WaitReturns(states: seq<State>, events: seq<Event>, i: nat)
    requires Run(states, events) && i < |events| && events[i].Wait?
    ensures var s, s', t, h := states[i], states[i + 1], events[i].t, events[i].h;
      && (h !in s.table ==> s' == s)
      && (h in s.table ==>
            if Done(s, h, s.table[h]) then OnlyAct(s, s', t, Reaping(s.table[h]), s.table - {h})
            else OnlyAct(s, s', t, WaitAsleep(h, s.table[h]), s.table))
  {
    assert Next(states[i], events[i], states[i + 1]);
  }

  lemma {:induction false} WokenWaitReturns(states: seq<State>, events: seq<Event>, i: nat)
    requires Run(states, events) && i < |events| && events[i].WaitResume?
    ensures var s, s', t := states[i], states[i + 1], events[i].t;
      && t < |s.threads| && s.threads[t].act.WaitWoken?
      && var h, k := s.threads[t].act.h, s.threads[t].act.task;
         && k < |s.tasks|
         && OnlyAct(s, s', t, if s.tasks[k].state == Completed then Reaping(k) else WaitAsleep(h, k),
                    if s.tasks[k].state == Completed then s.table - {h} else s.table)
  {
    assert Next(states[i], events[i], states[i + 1]);
  }

  /** Handle j of the list is the first that names a completed task. */
  ghost predicate FirstDone(s: State, hs: seq<nat>, j: nat, k: nat) {
    && j < |hs| && Done(s, hs[j], k)
    && forall i, m {:trigger Done(s, hs[i], m)} :: 0 <= i < j ==> !Done(s, hs[i], m)
  }

  lemma {:induction false} AnyRegionMeans(s: State, t: nat, hs: seq<nat>)
    requires t < |s.threads|
    ensures forall j: nat, k: nat :: FirstDone(s, hs, j, k) ==>
              OnlyAct(s, WaitAnyRegion(s, t, hs), t, Reaping(k), s.table - {hs[j]})
    ensures (forall i, m {:trigger Done(s, hs[i], m)} :: 0 <= i < |hs| ==> !Done(s, hs[i], m)) ==>
              OnlyAct(s, WaitAnyRegion(s, t, hs), t, AnyAsleep(hs), s.table)
  {
    var f := FirstReady(s, hs);
    forall j: nat, k: nat | FirstDone(s, hs, j, k) ensures f == j && f < |hs| && s.table[hs[f]] == k {
      assert Ready(s, hs[j]);
      if f < j {
        assert Done(s, hs[f], s.table[hs[f]]);
      }
    }
    if f < |hs| {
      assert Done(s, hs[f], s.table[hs[f]]);
    }
  }

  /** WAIT_ANY, when called and when woken: takes the first completed task in the order of the list,
      and sleeps if there is none. */
  lemma {:induction false} WaitAnyReturns(states: seq<State>, events: seq<Event>, i: nat)
    requires Run(states, events) && i < |events|
    requires events[i].WaitAny? || events[i].WaitAnyResume?
    ensures var s, s', t := states[i], states[i + 1], events[i].t;
      && t < |s.threads| && (events[i].WaitAnyResume? ==> s.threads[t].act.AnyWoken?)
      && var hs := if events[i].WaitAny? then events[i].hs else s.threads[t].act.hs;
         && (forall j: nat, k: nat :: FirstDone(s, hs, j, k) ==> OnlyAct(s, s', t, Reaping(k), s.table - {hs[j]}))
         && ((forall j, k {:trigger Done(s, hs[j], k)} :: 0 <= j < |hs| ==> !Done(s, hs[j], k)) ==>
               OnlyAct(s, s', t, AnyAsleep(hs), s.table))
  {
    var s, t := states[i], events[i].t;
    assert Next(s, events[i], states[i + 1]);
    AnyRegionMeans(s, t, if events[i].WaitAny? then events[i].hs else s.threads[t].act.hs);
  }

  /** Nothing has changed but thread t's place in the pool. */
  ghost predicate OnlyWorker(s: State, s': State, t: nat, w: Worker) {
    && |s'.threads| == |s.threads| && t < |s.threads|
    && (forall u {:trigger s'.threads[u]} :: 0 <= u < |s.threads| ==>
          s'.threads[u] == if u == t then Thread(w, s.threads[u].act) else s.threads[u])
  }

  /** A worker takes the oldest task as long as there is one, shutdown or not; without one it exits
      after shutdown and prepares to sleep before. */
  lemma {:induction false} DequeueReturns(states: seq<State>, events: seq<Event>, i: nat)
    requires Run(states, events) && i < |events| && events[i].Dequeue?
    ensures var s, s', t := states[i], states[i + 1], events[i].t;
      && s'.table == s.table && s'.enqueued == s.enqueued && s'.ran == s.ran && s'.destroyed == s.destroyed
      && OnlyWorker(s, s', t, if s.queue != [] then Holding(s.queue[0]) else if s.shutdown then Exited else Deciding)
      && s'.queue == (if s.queue != [] then s.queue[1..] else [])
      && s'.dequeued == s.dequeued + (if s.queue != [] then [s.queue[0]] else [])
  {
    assert Next(states[i], events[i], states[i + 1]);
  }

  /** SPAWN puts a new pending task under a handle that is not in use, and then at the end of the
      queue. */
  lemma {:induction false} SpawnReturns(states: seq<State>, events: seq<Event>, i: nat)
    requires Run(states, events) && i < |events|
    ensures events[i].SpawnInsert? ==>
      var s, s', t, h := states[i], states[i + 1], events[i].t, events[i].h;
      && h > 0 && h !in s.table && s'.table == s.table[h := |s.tasks|] && |s'.tasks| == |s.tasks| + 1
      && s'.tasks[..|s.tasks|] == s.tasks && s'.tasks[|s.tasks|].id == h && s'.tasks[|s.tasks|].state == Pending
      && OnlyAct(s.(tasks := s'.tasks), s', t, Inserted(|s.tasks|), s'.table)
    ensures events[i].SpawnEnqueue? ==>
      var s, s', t := states[i], states[i + 1], events[i].t;
      && t < |s.threads| && s.threads[t].act.Inserted? && s'.queue == s.queue + [s.threads[t].act.task]
      && s'.table == s.table && t < |s'.threads| && s'.threads[t].act == Idle
  {
    assert Next(states[i], events[i], states[i + 1]);
  }

  /** Completing a task wakes every WAIT on it and every WAIT_ANY, and no other waiter. */
  lemma {:induction false} CompletionReturns(states: seq<State>, events: seq<Event>, i: nat)
    requires Run(states, events) && i < |events| && events[i].Complete?
    ensures var s, s', t := states[i], states[i + 1], events[i].t;
      && t < |s.threads| && s.threads[t].worker.Executing? && |s'.threads| == |s.threads|
      && s'.threads[t] == Thread(Looking, Idle)
      && var k := s.threads[t].worker.task;
         && k < |s'.tasks| && s'.tasks[k].state == Completed
         && forall u {:trigger s'.threads[u]} :: 0 <= u < |s.threads| && u != t ==>
              s'.threads[u] == (
                match s.threads[u].act
                case WaitAsleep(h, j) => if j == k then Thread(s.threads[u].worker, WaitWoken(h, j)) else s.threads[u]
                case AnyAsleep(hs) => Thread(s.threads[u].worker, AnyWoken(hs))
                case _ => s.threads[u])
  {
    assert Next(states[i], events[i], states[i + 1]);
  }
}
