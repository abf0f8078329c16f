/** Reaping of completed tasks (task.c:140-213, runtime.c:52-60): what holds when no WAIT shares
    its handle with another waiter. */
module Reaping {
  import opened Common
  import opened Runtime

  /** A WAIT keeps a pointer to the task across its sleep. */
  predicate Points(a: Act, h: nat) {
    match a
    case WaitAsleep(g, _) => g == h
    case WaitWoken(g, _) => g == h
    case _ => false
  }

  /** A WAIT_ANY looks its handles up again whenever it wakes. */
  predicate Polls(a: Act, h: nat) {
    match a
    case AnyAsleep(hs) => h in hs
    case AnyWoken(hs) => h in hs
    case _ => false
  }

  predicate WaitsOn(a: Act, h: nat) { Points(a, h) || Polls(a, h) }

  /** A call that takes a completed task takes it from no WAIT; a WAIT that has to sleep does so
      on a handle nobody waits on, and a WAIT_ANY on handles that no WAIT waits on. */
  ghost predicate CarefulStep(s: State, e: Event) {
    match e
    case Wait(t, h) =>
      h in s.table ==>
        forall u :: 0 <= u < |s.threads| && u != t ==>
          !Points(s.threads[u].act, h) && (!Ready(s, h) ==> !Polls(s.threads[u].act, h))
    case WaitAny(t, hs) =>
      var i := FirstReady(s, hs);
      forall u, h :: 0 <= u < |s.threads| && u != t && h in hs && (i < |hs| ==> h == hs[i]) ==>
        !Points(s.threads[u].act, h)
    case _ => true
  }

  ghost predicate CarefulRun(states: seq<State>, events: seq<Event>) {
    && Run(states, events)
    && forall i {:trigger events[i]} :: 0 <= i < |events| ==> CarefulStep(states[i], events[i])
  }

  // ----- the invariant --------------------------------------------------------

  ghost predicate Apart(s: State) {
    && (forall t, u, h | 0 <= t < |s.threads| && 0 <= u < |s.threads| && t != u ::
          Points(s.threads[t].act, h) ==> !WaitsOn(s.threads[u].act, h))
    && (forall t, u | 0 <= t < |s.threads| && 0 <= u < |s.threads| && t != u ::
          s.threads[t].act.Reaping? && s.threads[u].act.Reaping? ==>
            s.threads[t].act.task != s.threads[u].act.task)
  }

  /** A waiter's pointer is still the table's, a reaper's task is not yet destroyed. */
  ghost predicate PointerLive(s: State, t: nat)
    requires t < |s.threads|
  {
    match s.threads[t].act
    case WaitAsleep(h, k) => h in s.table && s.table[h] == k
    case WaitWoken(h, k) => h in s.table && s.table[h] == k
    case Reaping(k) => k !in s.destroyed
    case _ => true
  }

  ghost predicate Accounted(s: State, k: nat)
    requires k < |s.tasks|
  {
    || (s.tasks[k].id in s.table && s.table[s.tasks[k].id] == k)
    || k in s.destroyed
    || exists t :: 0 <= t < |s.threads| && s.threads[t].act == Reaping(k)
  }

  ghost predicate ReapInv(s: State) {
    && Apart(s)
    && (forall t {:trigger s.threads[t]} :: 0 <= t < |s.threads| ==> PointerLive(s, t))
    && Distinct(s.destroyed)
    && (forall k {:trigger s.tasks[k]} :: 0 <= k < |s.tasks| ==> Accounted(s, k))
  }

  /** Steps that leave table, graveyard and every waiter's handles and task alone. */
  ghost predicate SameReaping(s: State, s': State) {
    && s'.table == s.table && s'.destroyed == s.destroyed
    && |s'.tasks| == |s.tasks| && |s'.threads| == |s.threads|
    && (forall k {:trigger s'.tasks[k]} :: 0 <= k < |s.tasks| ==> s'.tasks[k].id == s.tasks[k].id)
    && (forall u {:trigger s'.threads[u]} :: 0 <= u < |s.threads| ==>
          SameWait(s.threads[u].act, s'.threads[u].act))
  }

  predicate SameWait(a: Act, a': Act) {
    || a' == a
    || ((a.Idle? || a.Inserted?) && (a'.Idle? || a'.Inserted?))
    || (a.WaitAsleep? && a' == WaitWoken(a.h, a.task))
    || (a.AnyAsleep? && a' == AnyWoken(a.hs))
    || (a.WaitWoken? && a' == WaitAsleep(a.h, a.task))
    || (a.AnyWoken? && a' == AnyAsleep(a.hs))
  }

  lemma {:induction false} SameReapingKeepsInv(s: State, s': State)
    requires ReapInv(s) && SameReaping(s, s')
    ensures ReapInv(s')
  {
    forall t | 0 <= t < |s'.threads|
      ensures PointerLive(s', t)
      ensures forall h :: Points(s'.threads[t].act, h) <==> Points(s.threads[t].act, h)
      ensures forall h :: Polls(s'.threads[t].act, h) <==> Polls(s.threads[t].act, h)
      ensures forall k :: s'.threads[t].act == Reaping(k) <==> s.threads[t].act == Reaping(k)
    {
      assert PointerLive(s, t);
      assert SameWait(s.threads[t].act, s'.threads[t].act);
    }
    forall k | 0 <= k < |s'.tasks| ensures Accounted(s', k) {
      assert Accounted(s, k);
    }
  }

  predicate TouchesReaping(e: Event) {
    e.SpawnInsert? || e.Destroy? || e.Cleanup? || WaitsOnly(e)
  }

  lemma {:induction false} OthersKeepReaping(s: State, e: Event, s': State)
    requires Next(s, e, s') && !TouchesReaping(e)
    ensures SameReaping(s, s')
  {
  }

  lemma {:induction false} InsertKeepsReaping(s: State, t: nat, h: nat, s': State)
    requires ReapInv(s) && TableInv(s) && t < |s.threads| && SpawnInsertStep(s, t, h, s')
    ensures ReapInv(s')
  {
    forall u | 0 <= u < |s'.threads| ensures PointerLive(s', u) {
      assert PointerLive(s, u);
    }
    forall k | 0 <= k < |s'.tasks| ensures Accounted(s', k) {
      if k < |s.tasks| {
        assert Accounted(s, k);
        if u :| 0 <= u < |s.threads| && s.threads[u].act == Reaping(k) {
          assert s'.threads[u].act == Reaping(k);
        }
      }
    }
  }

  lemma {:induction false} DestroyKeepsReaping(s: State, t: nat, s': State)
    requires ReapInv(s) && Next(s, Destroy(t), s')
    ensures ReapInv(s')
  {
    var k := s.threads[t].act.task;
    assert PointerLive(s, t);
    DistinctAppend(s.destroyed, k);
    forall u | 0 <= u < |s'.threads| ensures PointerLive(s', u) {
      assert PointerLive(s, u);
    }
    forall j | 0 <= j < |s'.tasks| ensures Accounted(s', j) {
      assert Accounted(s, j);
      if u :| 0 <= u < |s.threads| && s.threads[u].act == Reaping(j) {
        assert u != t ==> s'.threads[u].act == Reaping(j);
      }
    }
  }

  /** Thread t reaps the task the table has at h, on which no other WAIT waits. */
  lemma {:induction false} ReapKeepsReaping(s: State, t: nat, h: nat, s': State)
    requires ReapInv(s) && WaitInv(s) && t < |s.threads| && h in s.table
    requires forall u :: 0 <= u < |s.threads| && u != t ==> !Points(s.threads[u].act, h)
    requires !s.threads[t].act.Reaping?
    requires s' == SetAct(s, t, Reaping(s.table[h])).(table := s.table - {h})
    ensures ReapInv(s')
  {
    forall u | 0 <= u < |s'.threads| ensures PointerLive(s', u) {
      assert PointerLive(s, u) && WaiterInv(s, u);
    }
    forall u | 0 <= u < |s.threads| && u != t && s.threads[u].act.Reaping?
      ensures s.threads[u].act.task != s.table[h]
    {
      assert WaiterInv(s, u);
    }
    forall j | 0 <= j < |s'.tasks| ensures Accounted(s', j) {
      assert Accounted(s, j);
      if u :| 0 <= u < |s.threads| && s.threads[u].act == Reaping(j) {
        assert s'.threads[u].act == Reaping(j);
      }
      assert s'.threads[t].act == Reaping(s.table[h]);
    }
  }

  lemma {:induction false} SleepKeepsReaping(s: State, t: nat, a: Act, s': State)
    requires ReapInv(s) && t < |s.threads| && s' == SetAct(s, t, a)
    requires a.WaitAsleep? || a.AnyAsleep?
    requires PointerLive(s', t) && !s.threads[t].act.Reaping?
    requires forall u, h :: 0 <= u < |s.threads| && u != t && Points(a, h) ==> !WaitsOn(s.threads[u].act, h)
    requires forall u, h :: 0 <= u < |s.threads| && u != t && Polls(a, h) ==> !Points(s.threads[u].act, h)
    ensures ReapInv(s')
  {
    forall u | 0 <= u < |s'.threads| ensures PointerLive(s', u) {
      assert PointerLive(s, u);
    }
    forall j | 0 <= j < |s'.tasks| ensures Accounted(s', j) {
      assert Accounted(s, j);
      if u :| 0 <= u < |s.threads| && s.threads[u].act == Reaping(j) {
        assert s'.threads[u].act == Reaping(j);
      }
    }
  }

  lemma {:induction false} WaitRegionKeepsReaping(s: State, t: nat, h: nat, s': State)
    requires ReapInv(s) && WaitInv(s) && t < |s.threads| && h in s.table && !s.threads[t].act.Reaping?
    requires forall u :: 0 <= u < |s.threads| && u != t ==>
               !Points(s.threads[u].act, h) && (!Ready(s, h) ==> !Polls(s.threads[u].act, h))
    requires s' == WaitRegion(s, t, h, s.table[h])
    ensures ReapInv(s')
  {
    if s.tasks[s.table[h]].state == Completed {
      ReapKeepsReaping(s, t, h, s');
    } else {
      SleepKeepsReaping(s, t, WaitAsleep(h, s.table[h]), s');
    }
  }

  lemma {:induction false} WaitAnyRegionKeepsReaping(s: State, t: nat, hs: seq<nat>, s': State)
    requires ReapInv(s) && WaitInv(s) && t < |s.threads| && !s.threads[t].act.Reaping?
    requires var i := FirstReady(s, hs);
      forall u, h :: 0 <= u < |s.threads| && u != t && h in hs && (i < |hs| ==> h == hs[i]) ==>
        !Points(s.threads[u].act, h)
    requires s' == WaitAnyRegion(s, t, hs)
    ensures ReapInv(s')
  {
    var i := FirstReady(s, hs);
    if i < |hs| {
      assert hs[i] in hs;
      ReapKeepsReaping(s, t, hs[i], s');
    } else {
      SleepKeepsReaping(s, t, AnyAsleep(hs), s');
    }
  }

  lemma {:induction false} WaitsKeepReaping(s: State, e: Event, s': State)
    requires ReapInv(s) && WaitInv(s) && Next(s, e, s') && CarefulStep(s, e) && WaitsOnly(e)
    ensures ReapInv(s')
  {
    assert PointerLive(s, e.t);
    match e
    case Wait(t, h) => if h in s.table { WaitRegionKeepsReaping(s, t, h, s'); }
    case WaitResume(t) =>
      assert Points(s.threads[t].act, s.threads[t].act.h);
      WaitRegionKeepsReaping(s, t, s.threads[t].act.h, s');
    case WaitAny(t, hs) => WaitAnyRegionKeepsReaping(s, t, hs, s');
    case WaitAnyResume(t) =>
      assert forall h :: h in s.threads[t].act.hs ==> Polls(s.threads[t].act, h);
      WaitAnyRegionKeepsReaping(s, t, s.threads[t].act.hs, s');
  }

  lemma {:induction false} StepKeepsReaping(s: State, e: Event, s': State)
    requires ReapInv(s) && WaitInv(s) && Next(s, e, s') && CarefulStep(s, e) && !e.Cleanup?
    ensures ReapInv(s')
  {
    if !TouchesReaping(e) {
      OthersKeepReaping(s, e, s');
      SameReapingKeepsInv(s, s');
    } else if WaitsOnly(e) {
      WaitsKeepReaping(s, e, s');
    } else {
      match e
      case SpawnInsert(t, h) => InsertKeepsReaping(s, t, h, s');
      case Destroy(t) => DestroyKeepsReaping(s, t, s');
    }
  }

  lemma {:induction false} ReachableReapInv(states: seq<State>, events: seq<Event>, i: nat)
    requires CarefulRun(states, events) && i < |states| && !states[i].down
    ensures ReapInv(states[i])
  {
    if i == 0 {
      forall t | 0 <= t < |states[0].threads| ensures PointerLive(states[0], t) {
        assert states[0].threads[t].act.Idle?;
      }
    } else {
      assert Next(states[i - 1], events[i - 1], states[i]) && CarefulStep(states[i - 1], events[i - 1]);
      ReachableReapInv(states, events, i - 1);
      ReachableInv(states, events, i - 1);
      StepKeepsReaping(states[i - 1], events[i - 1], states[i]);
    }
  }

  // ----- the theorems ---------------------------------------------------------

  /** The thread holds a pointer to task k while it waits or reaps. */
  predicate Holds(a: Act, k: nat) {
    match a
    case WaitAsleep(_, j) => j == k
    case WaitWoken(_, j) => j == k
    case Reaping(j) => j == k
    case _ => false
  }

  /** Some thread holds a pointer to a task that has been destroyed. */
  ghost predicate Dangling(s: State) {
    exists t, k :: 0 <= t < |s.threads| && Holds(s.threads[t].act, k) && k in s.destroyed
  }

  /** When no WAIT shares its handle: no waiter holds a pointer to a destroyed task, and no
      task is destroyed twice. */
  lemma {:induction false} CarefulWaitersAreSafe(states: seq<State>, events: seq<Event>, i: nat)
    requires CarefulRun(states, events) && i < |states|
    ensures !Dangling(states[i]) && Distinct(states[i].destroyed)
  {
    if states[i].down {
      CleanupDestroysEveryTaskOnce(states, events, i);
      OnlyCleanupBringsDown(states[i - 1], events[i - 1], states[i]);
    } else {
      ReachableReapInv(states, events, i);
      ReachableInv(states, events, i);
      NothingDangles(states[i]);
    }
  }

  lemma {:induction false} NothingDangles(s: State)
    requires ReapInv(s) && WaitInv(s)
    ensures !Dangling(s)
  {
    forall t, k | 0 <= t < |s.threads| && Holds(s.threads[t].act, k) ensures k !in s.destroyed {
      assert PointerLive(s, t);
    }
  }

  /** When no WAIT shares its handle, the cleanup at shutdown completes the account: every
      task ever created has been destroyed, exactly once. */
  lemma {:induction false} CleanupDestroysEveryTaskOnce(states: seq<State>, events: seq<Event>, i: nat)
    requires CarefulRun(states, events) && i < |states| && states[i].down
    ensures Distinct(states[i].destroyed)
    ensures forall k :: k in states[i].destroyed <==> 0 <= k < |states[i].tasks|
  {
    var s, s' := states[i - 1], states[i];
    OnlyCleanupBringsDown(s, events[i - 1], s');
    ReachableReapInv(states, events, i - 1);
    ReachableInv(states, events, i - 1);
    CleanupCompletes(s, s');
  }

  lemma {:induction false} OnlyCleanupBringsDown(s: State, e: Event, s': State)
    requires Next(s, e, s') && s'.down
    ensures !s.down && CleanupStep(s, s')
  {
    if WaitsOnly(e) {
      WaitsMoveNoTask(s, e, s');
    }
  }

  lemma {:induction false} DistinctConcat(a: seq<nat>, b: seq<nat>)
    requires Distinct(a) && Distinct(b) && forall x :: x in b ==> x !in a
    ensures Distinct(a + b)
  {
    var c := a + b;
    forall i, j | 0 <= i < j < |c| ensures c[i] != c[j] {
      if i < |a| <= j {
        assert c[j] in b && c[i] in a;
      }
    }
  }

  lemma {:induction false} CleanupCompletes(s: State, s': State)
    requires ReapInv(s) && TableInv(s) && CleanupStep(s, s')
    ensures Distinct(s'.destroyed)
    ensures forall k :: k in s'.destroyed <==> 0 <= k < |s'.tasks|
  {
    var swept := s'.destroyed[|s.destroyed|..];
    assert s'.destroyed == s.destroyed + swept;
    forall k | k in swept ensures k !in s.destroyed && k < |s.tasks| {
      assert k in s.table.Values;
      var h :| h in s.table && s.table[h] == k;
    }
    DistinctConcat(s.destroyed, swept);
    forall k | 0 <= k < |s'.tasks| ensures k in s'.destroyed {
      assert Accounted(s, k);
      if s.tasks[k].id in s.table && s.table[s.tasks[k].id] == k {
        assert k in s.table.Values;
      }
    }
  }
}
