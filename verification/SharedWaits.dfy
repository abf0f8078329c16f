/** When a WAIT may share its handle (task.c:140-213): a call is safe exactly if it is careful. */
module SharedWaits {
  import opened Common
  import opened Runtime
  import opened Reaping
  import opened Progress

  // ----- a shared wait can go wrong --------------------------------------------------------------------

  /** Waiting in WAIT with this pointer. */
  predicate WaitsFor(a: Act, h: nat, k: nat) { a == WaitAsleep(h, k) || a == WaitWoken(h, k) }

  /** Every WAIT holds the task that the table has at its handle. */
  ghost predicate Tabled(s: State) {
    forall u, h {:trigger Points(s.threads[u].act, h)} :: 0 <= u < |s.threads| && Points(s.threads[u].act, h) ==>
      h in s.table && WaitsFor(s.threads[u].act, h, s.table[h])
  }

  /** Worker w is not waiting itself, and task k is in its hands or in nobody's. */
  ghost predicate CanFinish(s: State, w: nat, k: nat) {
    && w < |s.threads| && Working(s.threads[w]) && Unblocked(s.threads[w].act)
    && (Held(s.threads[w]) == Some(k) || !HeldByAWorker(s, k))
  }

  /** y waits for k in WAIT, and x waits for it too, in WAIT or in WAIT_ANY. */
  ghost predicate Shares(s: State, x: nat, y: nat, h: nat, k: nat) {
    && x < |s.threads| && y < |s.threads| && x != y && h in s.table && s.table[h] == k
    && WaitsFor(s.threads[y].act, h, k) && WaitsOn(s.threads[x].act, h)
  }

  /** Thread x destroys the task it has reaped, to which u has a pointer. */
  lemma {:induction false} DestroyUnder(s: State, s1: State, x: nat, u: nat, k: nat) returns (s2: State)
    requires CanReach(s, s1) && !s1.down && x < |s1.threads| && u < |s1.threads| && x != u
    requires s1.threads[x].act == Reaping(k) && Holds(s1.threads[u].act, k)
    ensures CanReach(s, s2) && Dangling(s2)
  {
    s2 := SetAct(s1, x, Idle).(destroyed := s1.destroyed + [k]);
    ReachOneMore(s, s1, Destroy(x), s2);
    assert Holds(s2.threads[u].act, k) && k in s2.destroyed;
  }

  /** x, woken in WAIT_ANY, takes its first completed task from under a WAIT. */
  lemma {:induction false} AnyTakes(s: State, s1: State, x: nat, u: nat, hs: seq<nat>) returns (s3: State)
    requires CanReach(s, s1) && !s1.down && x < |s1.threads| && u < |s1.threads| && x != u
    requires s1.threads[x].act == AnyWoken(hs) && FirstReady(s1, hs) < |hs|
    requires Holds(s1.threads[u].act, s1.table[hs[FirstReady(s1, hs)]])
    ensures CanReach(s, s3) && Dangling(s3)
  {
    var i := FirstReady(s1, hs);
    var s2 := WaitAnyRegion(s1, x, hs);
    ReachOneMore(s, s1, WaitAnyResume(x), s2);
    s3 := DestroyUnder(s, s2, x, u, s1.table[hs[i]]);
  }

  /** w completes k. */
  function Completing(s1: State, w: nat, k: nat): State
    requires w < |s1.threads| && k < |s1.tasks|
  {
    s1.(threads := WakeWaiters(SetWorker(s1, w, Looking).threads, k),
        tasks := s1.tasks[k := s1.tasks[k].(state := Completed, place := Finished)])
  }

  lemma {:induction false} CompletionWakes(s: State, s1: State, w: nat, h: nat, k: nat) returns (s2: State)
    requires CanReach(s, s1) && TableInv(s1) && !s1.down && w < |s1.threads| && k < |s1.tasks|
    requires s1.threads[w] == Thread(Executing(k), Idle) && h in s1.table && s1.table[h] == k
    ensures CanReach(s, s2) && !s2.down && s2.table == s1.table && |s2.threads| == |s1.threads|
    ensures Ready(s2, h) && k < |s2.tasks| && s2.tasks[k].state == Completed
    ensures forall g :: Ready(s2, g) ==> Ready(s1, g) || g == h
    ensures forall u :: 0 <= u < |s1.threads| && u != w ==> s2.threads[u] == WakeWaiter(s1.threads[u], k)
  {
    s2 := Completing(s1, w, k);
    ReachOneMore(s, s1, Complete(w), s2);
    forall g | Ready(s2, g) ensures Ready(s1, g) || g == h {
      assert s1.tasks[s1.table[g]].id == g;
    }
  }

  /** The first completed handle of a WAIT_ANY is the only one. */
  lemma {:induction false} OnlyReady(s: State, hs: seq<nat>, h: nat)
    requires h in hs && Ready(s, h) && forall g :: g in hs && Ready(s, g) ==> g == h
    ensures FirstReady(s, hs) < |hs| && hs[FirstReady(s, hs)] == h
  {
    var i := FirstReady(s, hs);
    var j :| 0 <= j < |hs| && hs[j] == h;
    assert i <= j;
    assert hs[i] in hs;
  }

  /** Both waiters are in WAIT: whoever resumes first takes the task from the other. */
  lemma {:induction false} WaitTakesFromWait(s: State, s1: State, w: nat, x: nat, y: nat, h: nat, k: nat)
    returns (s': State)
    requires CanReach(s, s1) && TableInv(s1) && !s1.down && w < |s1.threads| && k < |s1.tasks|
    requires s1.threads[w] == Thread(Executing(k), Idle) && Shares(s1, x, y, h, k) && WaitsFor(s1.threads[x].act, h, k)
    ensures CanReach(s, s') && Dangling(s')
  {
    var s2 := CompletionWakes(s, s1, w, h, k);
    assert s2.threads[x].act == WaitWoken(h, k) && s2.threads[y].act == WaitWoken(h, k);
    var s3 := WaitRegion(s2, x, h, k);
    ReachOneMore(s, s2, WaitResume(x), s3);
    s' := DestroyUnder(s, s3, x, y, k);
  }

  /** x is in WAIT_ANY and none of its handles is completed: it takes the task when k is. */
  lemma {:induction false} AnyTakesFromWait(s: State, s1: State, w: nat, x: nat, y: nat, h: nat, k: nat, hs: seq<nat>)
    returns (s': State)
    requires CanReach(s, s1) && TableInv(s1) && !s1.down && w < |s1.threads| && k < |s1.tasks|
    requires s1.threads[w] == Thread(Executing(k), Idle) && Shares(s1, x, y, h, k)
    requires (s1.threads[x].act == AnyAsleep(hs) || s1.threads[x].act == AnyWoken(hs)) && h in hs
    requires forall g :: g in hs ==> !Ready(s1, g)
    ensures CanReach(s, s') && Dangling(s')
  {
    var s2 := CompletionWakes(s, s1, w, h, k);
    assert s2.threads[x].act == AnyWoken(hs) && s2.threads[y].act == WaitWoken(h, k);
    OnlyReady(s2, hs, h);
    s' := AnyTakes(s, s2, x, y, hs);
  }

  /** The code of task k takes and destroys the completed task of handle g, for which no WAIT
      waits. */
  lemma {:induction false} ClearsHandle(s: State, s1: State, w: nat, k: nat, g: nat) returns (s3: State)
    requires CanReach(s, s1) && Inv(s1) && Tabled(s1) && !s1.down && w < |s1.threads|
    requires s1.threads[w] == Thread(Executing(k), Idle) && Ready(s1, g)
    requires forall u :: 0 <= u < |s1.threads| ==> !Points(s1.threads[u].act, g)
    ensures CanReach(s, s3) && Inv(s3) && Tabled(s3) && !s3.down && s3.threads == s1.threads && s3.tasks == s1.tasks
    ensures s3.table == s1.table - {g}
  {
    var s2 := WaitRegion(s1, w, g, s1.table[g]);
    StepKeepsInv(s1, Wait(w, g), s2);
    ReachOneMore(s, s1, Wait(w, g), s2);
    s3 := SetAct(s2, w, Idle).(destroyed := s2.destroyed + [s1.table[g]]);
    StepKeepsInv(s2, Destroy(w), s3);
    ReachOneMore(s, s2, Destroy(w), s3);
    assert s3.threads == s1.threads;
  }

  /** x is in WAIT_ANY: of its other completed handles, either some WAIT waits for one, or the code
      of k can take them all before it completes. */
  lemma {:induction false} AnyGoesWrong(s: State, s1: State, w: nat, x: nat, y: nat, h: nat, k: nat, hs: seq<nat>)
    returns (s': State)
    requires CanReach(s, s1) && Inv(s1) && Tabled(s1) && !s1.down && w < |s1.threads| && k < |s1.tasks|
    requires s1.threads[w] == Thread(Executing(k), Idle) && Shares(s1, x, y, h, k)
    requires (s1.threads[x].act == AnyAsleep(hs) || s1.threads[x].act == AnyWoken(hs)) && h in hs
    ensures CanReach(s, s') && Dangling(s')
    decreases s1.table.Keys
  {
    var i := FirstReady(s1, hs);
    if i == |hs| {
      forall g | g in hs ensures !Ready(s1, g) {
        var j :| 0 <= j < |hs| && hs[j] == g;
        assert !Ready(s1, hs[j]);
      }
      s' := AnyTakesFromWait(s, s1, w, x, y, h, k, hs);
    } else if u :| 0 <= u < |s1.threads| && Points(s1.threads[u].act, hs[i]) {
      assert WaiterInv(s1, x);
      assert hs[i] in hs;
      s' := AnyTakes(s, s1, x, u, hs);
    } else {
      assert HolderAgrees(s1, w);
      assert Points(s1.threads[y].act, h);
      var s2 := ClearsHandle(s, s1, w, k, hs[i]);
      assert hs[i] in s1.table.Keys && hs[i] !in s2.table.Keys;
      s' := AnyGoesWrong(s, s2, w, x, y, h, k, hs);
    }
  }

  lemma {:induction false} FinisherCanGet(s: State, w: nat, k: nat, h: nat)
    requires PlaceInv(s) && TableInv(s) && !s.down && CanFinish(s, w, k) && h in s.table && s.table[h] == k
             && !Ready(s, h)
    ensures CanGet(s, w, k)
  {
    assert PlaceIsReal(s, k);
  }

  lemma {:induction false} StaysShared(s: State, s1: State, w: nat, x: nat, y: nat, h: nat, k: nat)
    requires Shares(s, x, y, h, k) && Beside(s, s1, w) && w != x && w != y
    ensures Shares(s1, x, y, h, k) && SameWait(s.threads[x].act, s1.threads[x].act)
  {
    assert SameWait(s.threads[x].act, s1.threads[x].act) && SameWait(s.threads[y].act, s1.threads[y].act);
  }

  /** Whenever a WAIT shares its handle with another waiter, be it a WAIT or a WAIT_ANY, and a
      worker can still get to finish the task, some continuation destroys the task under a WAIT. */
  lemma {:induction false} SharedWaitCanGoWrong(s: State, w: nat, x: nat, y: nat, h: nat, k: nat) returns (s': State)
    requires Inv(s) && Tabled(s) && !s.down && Shares(s, x, y, h, k) && !Ready(s, h) && CanFinish(s, w, k)
    ensures CanReach(s, s') && Dangling(s')
  {
    FinisherCanGet(s, w, k, h);
    var s1 := GetsToRun(s, w, k);
    ReachKeepsInv(s, s1);
    StaysTabled(s, s1, w);
    StaysShared(s, s1, w, x, y, h, k);
    s' := GoesWrongFrom(s, s1, w, x, y, h, k);
  }

  lemma {:induction false} GoesWrongFrom(s: State, s1: State, w: nat, x: nat, y: nat, h: nat, k: nat)
    returns (s': State)
    requires CanReach(s, s1) && Inv(s1) && Tabled(s1) && !s1.down && w < |s1.threads| && k < |s1.tasks|
    requires s1.threads[w] == Thread(Executing(k), Idle) && Shares(s1, x, y, h, k)
    ensures CanReach(s, s') && Dangling(s')
  {
    assert TableInv(s1);
    if Points(s1.threads[x].act, h) {
      s' := WaitTakesFromWait(s, s1, w, x, y, h, k);
    } else {
      s' := AnyGoesWrong(s, s1, w, x, y, h, k, s1.threads[x].act.hs);
    }
  }

  lemma {:induction false} StaysTabled(s: State, s1: State, w: nat)
    requires Tabled(s) && Beside(s, s1, w) && w < |s1.threads| && s1.threads[w].act.Idle?
    ensures Tabled(s1)
  {
    forall u, h | 0 <= u < |s1.threads| && Points(s1.threads[u].act, h)
      ensures h in s1.table && WaitsFor(s1.threads[u].act, h, s1.table[h])
    {
      assert SameWait(s.threads[u].act, s1.threads[u].act);
      assert Points(s.threads[u].act, h);
    }
  }

  // ----- exactly which calls are safe --------------------------------------------------------------------

  predicate IsCall(e: Event) { e.Wait? || e.WaitAny? }

  predicate Concerns(e: Event, h: nat) {
    match e
    case Wait(_, g) => g == h
    case WaitAny(_, hs) => h in hs
    case _ => false
  }

  /** The handle's task is completed, or some other worker can still get to finish it. */
  ghost predicate Due(s: State, t: nat, h: nat) {
    h in s.table && !Ready(s, h) ==> exists w :: w != t && CanFinish(s, w, s.table[h])
  }

  /** After the call, some run in which all later calls are careful leaves a dangling pointer. */
  ghost predicate CanGoWrong(s: State, e: Event) {
    exists s1, s2 :: Next(s, e, s1) && CanReach(s1, s2) && Dangling(s2)
  }

  /** A run continued by a careful call and careful steps is careful, and so it never dangles. */
  lemma {:induction false} CarefulCallIsSafe(states: seq<State>, events: seq<Event>, e: Event, s1: State, s2: State)
    requires CarefulRun(states, events) && CarefulStep(states[|events|], e)
    requires Next(states[|events|], e, s1) && CanReach(s1, s2)
    ensures !Dangling(s2)
  {
    var cs, ce :| Links(cs, ce, s1, s2);
    var n := |events|;
    var all, es := states + cs, events + [e] + ce;
    forall i | 0 <= i < |es| ensures Next(all[i], es[i], all[i + 1]) && CarefulStep(all[i], es[i]) {
      if i < n {
        assert es[i] == events[i] && all[i] == states[i] && all[i + 1] == states[i + 1];
      } else if i == n {
        assert es[i] == e && all[i] == states[n] && all[i + 1] == cs[0];
      } else {
        var j := i - n - 1;
        assert es[i] == ce[j] && all[i] == cs[j] && all[i + 1] == cs[j + 1];
      }
    }
    assert all[|es|] == cs[|ce|];
    CarefulWaitersAreSafe(all, es, |es|);
  }

  lemma {:induction false} GoesWrongAfter(s: State, e: Event, s1: State, s2: State)
    requires Next(s, e, s1) && CanReach(s1, s2) && Dangling(s2)
    ensures CanGoWrong(s, e)
  {
  }

  /** What a WAIT on h points to is what the table has there. */
  lemma {:induction false} CarefulIsTabled(s: State)
    requires ReapInv(s) && WaitInv(s)
    ensures Tabled(s)
  {
    forall u, h | 0 <= u < |s.threads| && Points(s.threads[u].act, h)
      ensures h in s.table && WaitsFor(s.threads[u].act, h, s.table[h])
    {
      assert PointerLive(s, u) && WaiterInv(s, u);
    }
  }

  /** The call itself takes the task from under a WAIT. */
  lemma {:induction false} CallTakes(s: State, e: Event, s1: State, t: nat, u: nat, k: nat)
    requires Next(s, e, s1) && !s1.down && t < |s1.threads| && u < |s1.threads| && t != u
    requires s1.threads[t].act == Reaping(k) && Holds(s1.threads[u].act, k)
    ensures CanGoWrong(s, e)
  {
    ReachSelf(s1);
    var s2 := DestroyUnder(s1, s1, t, u, k);
    GoesWrongAfter(s, e, s1, s2);
  }

  lemma {:induction false} SleeperLeavesWorkers(s: State, s1: State, t: nat, a: Act, w: nat, k: nat)
    requires t < |s.threads| && s1 == SetAct(s, t, a) && w != t && CanFinish(s, w, k)
    ensures CanFinish(s1, w, k)
  {
    assert s1.threads[w] == s.threads[w];
    if v :| 0 <= v < |s1.threads| && Held(s1.threads[v]) == Some(k) {
      assert Held(s.threads[v]) == Some(k);
    }
  }

  /** A call of thread t that goes to sleep beside u, one of the two in WAIT. */
  lemma {:induction false} CallSleeps(s: State, s1: State, t: nat, u: nat, h: nat, a: Act) returns (s2: State)
    requires t < |s.threads| && u < |s.threads| && u != t && h in s.table && !Ready(s, h)
    requires Tabled(s) && !s.down && Due(s, t, h) && s1 == SetAct(s, t, a) && Inv(s1)
    requires || (a == WaitAsleep(h, s.table[h]) && WaitsOn(s.threads[u].act, h))
             || (a.AnyAsleep? && h in a.hs && Points(s.threads[u].act, h))
    ensures CanReach(s1, s2) && Dangling(s2)
  {
    var k := s.table[h];
    var w :| w != t && CanFinish(s, w, k);
    SleeperLeavesWorkers(s, s1, t, a, w, k);
    SleepsTabled(s, s1, t, a);
    var x, y := if a.AnyAsleep? then t else u, if a.AnyAsleep? then u else t;
    assert Shares(s1, x, y, h, k);
    s2 := SharedWaitCanGoWrong(s1, w, x, y, h, k);
  }

  lemma {:induction false} SleepsTabled(s: State, s1: State, t: nat, a: Act)
    requires Tabled(s) && t < |s.threads| && s1 == SetAct(s, t, a)
    requires a.AnyAsleep? || (a.WaitAsleep? && a.h in s.table && s.table[a.h] == a.task)
    ensures Tabled(s1)
  {
    forall u, h | 0 <= u < |s1.threads| && Points(s1.threads[u].act, h)
      ensures h in s1.table && WaitsFor(s1.threads[u].act, h, s1.table[h])
    {
      assert u != t ==> Points(s.threads[u].act, h);
    }
  }

  /** A careless WAIT. */
  lemma {:induction false} CarelessWait(s: State, t: nat, h: nat)
    requires Inv(s) && Tabled(s) && !s.down && Due(s, t, h)
    requires t < |s.threads| && RunsCode(s.threads[t]) && s.threads[t].act.Idle? && !CarefulStep(s, Wait(t, h))
    ensures CanGoWrong(s, Wait(t, h))
  {
    assert TableInv(s);
    var k := s.table[h];
    var s1 := WaitRegion(s, t, h, k);
    var u :| 0 <= u < |s.threads| && u != t && WaitsOn(s.threads[u].act, h)
             && (Points(s.threads[u].act, h) || !Ready(s, h));
    if Ready(s, h) {
      CallTakes(s, Wait(t, h), s1, t, u, k);
    } else {
      StepKeepsInv(s, Wait(t, h), s1);
      var s2 := CallSleeps(s, s1, t, u, h, WaitAsleep(h, k));
      GoesWrongAfter(s, Wait(t, h), s1, s2);
    }
  }

  /** A careless WAIT_ANY. */
  lemma {:induction false} CarelessWaitAny(s: State, t: nat, hs: seq<nat>)
    requires Inv(s) && Tabled(s) && !s.down && forall h :: h in hs ==> Due(s, t, h)
    requires t < |s.threads| && RunsCode(s.threads[t]) && s.threads[t].act.Idle? && !CarefulStep(s, WaitAny(t, hs))
    ensures CanGoWrong(s, WaitAny(t, hs))
  {
    assert TableInv(s);
    var i := FirstReady(s, hs);
    var s1 := WaitAnyRegion(s, t, hs);
    var u, h :| 0 <= u < |s.threads| && u != t && h in hs && (i < |hs| ==> h == hs[i]) && Points(s.threads[u].act, h);
    if i < |hs| {
      CallTakes(s, WaitAny(t, hs), s1, t, u, s.table[h]);
    } else {
      var j :| 0 <= j < |hs| && hs[j] == h;
      assert !Ready(s, hs[j]);
      StepKeepsInv(s, WaitAny(t, hs), s1);
      var s2 := CallSleeps(s, s1, t, u, h, AnyAsleep(hs));
      GoesWrongAfter(s, WaitAny(t, hs), s1, s2);
    }
  }

  /** In every run in which all calls so far have been careful: the next call is safe, whatever
      happens later as long as later calls are careful, if and only if it is careful. */
  lemma {:induction false} SafeExactlyIfCareful(states: seq<State>, events: seq<Event>, e: Event)
    requires CarefulRun(states, events) && IsCall(e)
    requires var s := states[|events|];
      && !s.down && e.t < |s.threads| && RunsCode(s.threads[e.t]) && s.threads[e.t].act.Idle?
      && forall h {:trigger Concerns(e, h)} :: Concerns(e, h) ==> Due(s, e.t, h)
    ensures CarefulStep(states[|events|], e) <==> !CanGoWrong(states[|events|], e)
  {
    var s := states[|events|];
    if CarefulStep(s, e) {
      if s1, s2 :| Next(s, e, s1) && CanReach(s1, s2) && Dangling(s2) {
        CarefulCallIsSafe(states, events, e, s1, s2);
      }
    } else {
      ReachableInv(states, events, |events|);
      ReachableReapInv(states, events, |events|);
      CarefulIsTabled(s);
      match e
      case Wait(t, h) =>
        assert Concerns(e, h);
        CarelessWait(s, t, h);
      case WaitAny(t, hs) =>
        forall h | h in hs ensures Due(s, t, h) {
          assert Concerns(e, h);
        }
        CarelessWaitAny(s, t, hs);
    }
  }

  // ----- why the worker must not be waiting itself ---------------------------------------------------------

  /** The code of task k waits for k itself. */
  ghost predicate WaitsForItself(s: State, w: nat, h: nat, k: nat) {
    && w < |s.threads| && k < |s.tasks| && s.threads[w].worker == Executing(k) && WaitsFor(s.threads[w].act, h, k)
    && s.tasks[k].state != Completed && !s.down
  }

  lemma {:induction false} SelfWaitWaits(s: State, e: Event, s': State, w: nat, h: nat, k: nat)
    requires WaitsForItself(s, w, h, k) && Next(s, e, s') && WaitsOnly(e)
    ensures WaitsForItself(s', w, h, k)
  {
    WaitsSetOneAct(s, e, s');
  }

  lemma {:induction false} SelfWaitStays(s: State, e: Event, s': State, w: nat, h: nat, k: nat)
    requires WaitsForItself(s, w, h, k) && Next(s, e, s') && !WaitsOnly(e)
    requires HolderAgrees(s, w) && HolderAgrees(s, e.t)
    ensures WaitsForItself(s', w, h, k)
  {
  }

  /** Then k is never completed, and sharing its handle does no harm. */
  lemma {:induction false} SelfWaitNeverEnds(states: seq<State>, events: seq<Event>, i: nat, j: nat, w: nat, h: nat,
                                             k: nat)
    requires Run(states, events) && i <= j < |states| && WaitsForItself(states[i], w, h, k)
    ensures WaitsForItself(states[j], w, h, k)
    decreases j
  {
    if i < j {
      SelfWaitNeverEnds(states, events, i, j - 1, w, h, k);
      ReachableInv(states, events, j - 1);
      assert Next(states[j - 1], events[j - 1], states[j]);
      if WaitsOnly(events[j - 1]) {
        SelfWaitWaits(states[j - 1], events[j - 1], states[j], w, h, k);
      } else {
        assert HolderAgrees(states[j - 1], w) && HolderAgrees(states[j - 1], events[j - 1].t);
        SelfWaitStays(states[j - 1], events[j - 1], states[j], w, h, k);
      }
    }
  }

  // ----- two runs from the start ---------------------------------------------------------------------------

  function Trace(i: nat, any: bool): State
    requires i <= 10
  {
    var worker := if i < 3 then Looking else if i < 6 then Holding(0)
                  else if i < 7 then Started(0) else if i < 8 then Executing(0) else Looking;
    var spawner := if i == 1 then Inserted(0) else if i < 4 then Idle
                   else if i < 8 then (if any then AnyAsleep([1]) else WaitAsleep(1, 0))
                   else if i == 8 then (if any then AnyWoken([1]) else WaitWoken(1, 0))
                   else if i == 9 then Reaping(0) else Idle;
    var other := if i < 5 then Idle else if i < 8 then WaitAsleep(1, 0) else WaitWoken(1, 0);
    var task := Task(1,
                     if i < 6 then Pending else if i < 8 then TaskState.Running else Completed,
                     if i < 2 then NotEnqueued(1) else if i < 3 then Queued
                     else if i < 8 then HeldBy(0) else Finished);
    State([Thread(worker, Idle), Thread(NotAWorker, spawner), Thread(NotAWorker, other)],
          if i == 0 then [] else [task],
          if i == 0 || i >= 9 then map[] else map[1 := 0],
          if i == 2 then [0] else [],
          false, false,
          if i < 2 then [] else [0], if i < 3 then [] else [0], if i < 7 then [] else [0],
          if i < 10 then [] else [0])
  }

  function TraceEvents(any: bool): seq<Event> {
    [SpawnInsert(1, 1), SpawnEnqueue(1), Dequeue(0), if any then WaitAny(1, [1]) else Wait(1, 1), Wait(2, 1),
     Start(0), Execute(0), Complete(0), if any then WaitAnyResume(1) else WaitResume(1), Destroy(1)]
  }

  /** Holding the table lock across get, wait and reap (task.c:143-146) does not protect a
      second waiter, because the wait itself releases the lock: in these runs, one where thread 1
      calls WAIT and one where it calls WAIT_ANY, thread 2 is about to read the state of a task
      that thread 1 has destroyed. */
  lemma {:induction false} SecondWaiterHoldsADestroyedTask(any: bool)
    returns (states: seq<State>, events: seq<Event>, t: nat)
    ensures Run(states, events)
    ensures var s := states[|events|];
      t < |s.threads| && s.threads[t].act.WaitWoken? && s.threads[t].act.task in s.destroyed
  {
    events := TraceEvents(any);
    t := 2;
    states := seq(11, i requires 0 <= i < 11 => Trace(i, any));
    assert Run(states, events) by {
      assert Init(states[0]) by { assert states[0].threads[0].worker.Looking?; }
      forall i | 0 <= i < 10 ensures Next(states[i], TraceEvents(any)[i], states[i + 1]) {
        TraceStep(i, any);
      }
    }
    assert states[10].threads[2].act == WaitWoken(1, 0) && 0 in states[10].destroyed;
  }

  lemma {:induction false} TraceStep(i: nat, any: bool)
    requires i < 10
    ensures Next(Trace(i, any), TraceEvents(any)[i], Trace(i + 1, any))
  {
    if i < 3 {
      TraceSpawn(i, any);
    } else if i < 7 {
      TraceWaits(i, any);
    } else {
      TraceReaps(i, any);
    }
  }

  lemma {:induction false} TraceSpawn(i: nat, any: bool)
    requires i < 3
    ensures Next(Trace(i, any), TraceEvents(any)[i], Trace(i + 1, any))
  {
    if i == 1 {
      TraceEnqueue(any);
    }
  }

  lemma {:induction false} TraceEnqueue(any: bool)
    ensures Next(Trace(1, any), SpawnEnqueue(1), Trace(2, any))
  {
    var s, s' := Trace(1, any), Trace(2, any);
    assert SetAct(s, 1, Idle).threads == s'.threads;
  }

  lemma {:induction false} TraceWaits(i: nat, any: bool)
    requires 3 <= i < 7
    ensures Next(Trace(i, any), TraceEvents(any)[i], Trace(i + 1, any))
  {
  }

  lemma {:induction false} TraceReaps(i: nat, any: bool)
    requires 7 <= i < 10
    ensures Next(Trace(i, any), TraceEvents(any)[i], Trace(i + 1, any))
  {
    var s, s' := Trace(i, any), Trace(i + 1, any);
    if i == 7 {
      assert WakeWaiters(SetWorker(s, 0, Looking).threads, 0) == s'.threads;
    }
  }
}
