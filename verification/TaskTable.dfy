/** The growable handle table of runtime/src/task.c:45-109.  Slot 0 is reserved. */
module TaskTable {

  datatype Slot<T> = Free | Used(task: T)

  const INITIAL_TASK_TABLE_SIZE: nat := 1024

  // ----- the table as a value -------------------------------------------------

  /** Slots in use. */
  function Live<T>(slots: seq<Slot<T>>): nat {
    if slots == [] then 0
    else Live(slots[..|slots| - 1]) + if slots[|slots| - 1].Used? then 1 else 0
  }

  ghost predicate WellFormed<T>(slots: seq<Slot<T>>) { |slots| >= 2 && slots[0].Free? }

  /** h is the least index from 1 on that is free, or the length if none is. */
  ghost predicate LeastFree<T>(slots: seq<Slot<T>>, h: nat) {
    && 1 <= h <= |slots|
    && (forall i :: 1 <= i < h ==> slots[i].Used?)
    && (h < |slots| ==> slots[h].Free?)
  }

  /** The table after inserting at the least free index, doubled when it is full. */
  ghost predicate Inserted<T>(slots: seq<Slot<T>>, task: T, h: nat, slots': seq<Slot<T>>) {
    && LeastFree(slots, h)
    && |slots'| == (if h < |slots| then |slots| else 2 * |slots|)
    && h < |slots'| && slots'[h] == Used(task)
    && (forall i :: 0 <= i < |slots| && i != h ==> slots'[i] == slots[i])
    && (forall i :: |slots| <= i < |slots'| && i != h ==> slots'[i].Free?)
  }

  function Removed<T>(slots: seq<Slot<T>>, h: nat): seq<Slot<T>> {
    if 0 < h < |slots| then slots[h := Free] else slots
  }

  // ----- the object -----------------------------------------------------------

  class Table<T> {
    var tasks: array<Slot<T>>
    var capacity: nat

    ghost predicate Valid()
      reads this, tasks
    {
      capacity == tasks.Length && WellFormed(tasks[..])
    }

    constructor ()
      ensures Valid() && fresh(tasks)
      ensures capacity == INITIAL_TASK_TABLE_SIZE && forall i :: 0 <= i < capacity ==> tasks[i].Free?
    {
      capacity := INITIAL_TASK_TABLE_SIZE;
      tasks := new Slot<T>[INITIAL_TASK_TABLE_SIZE](i => Free);
    }

    method Insert(task: T) returns (id: nat)
      requires Valid()
      modifies this, tasks
      ensures Valid() && (tasks == old(tasks) || fresh(tasks))
      ensures Inserted(old(tasks[..]), task, id, tasks[..])
    {
      id := 0;
      for i := 1 to capacity
        invariant id == 0 && forall j :: 1 <= j < i ==> tasks[j].Used?
      {
        if tasks[i].Free? {
          id := i;
          break;
        }
      }
      if id == 0 {
        var newCapacity := capacity * 2;
        var newTasks := new Slot<T>[newCapacity](_ => Free);
        for k := 0 to capacity
          invariant unchanged(this) && unchanged(tasks) && fresh(newTasks)
          invariant forall j :: 0 <= j < k ==> newTasks[j] == tasks[j]
          invariant forall j :: k <= j < newCapacity ==> newTasks[j].Free?
        {
          newTasks[k] := tasks[k];
        }
        id := capacity;
        tasks := newTasks;
        capacity := newCapacity;
      }
      tasks[id] := Used(task);
    }

    method Get(handle: nat) returns (r: Slot<T>)
      requires Valid()
      ensures r == if 0 < handle < |tasks[..]| then tasks[..][handle] else Free
    {
      r := if handle > 0 && handle < capacity then tasks[handle] else Free;
    }

    method Remove(handle: nat)
      requires Valid()
      modifies tasks
      ensures Valid() && tasks[..] == Removed(old(tasks[..]), handle)
    {
      if handle > 0 && handle < capacity {
        tasks[handle] := Free;
      }
    }
  }

  // ----- every history of inserts and removes ---------------------------------

  datatype Op<T> = Insert(task: T, handle: nat) | Remove(h: nat)

  ghost predicate Step<T>(slots: seq<Slot<T>>, op: Op<T>, slots': seq<Slot<T>>) {
    match op
    case Insert(task, handle) => Inserted(slots, task, handle, slots')
    case Remove(h) => slots' == Removed(slots, h)
  }

  ghost predicate History<T>(tables: seq<seq<Slot<T>>>, ops: seq<Op<T>>) {
    && |tables| == |ops| + 1
    && |tables[0]| == INITIAL_TASK_TABLE_SIZE && (forall i :: 0 <= i < |tables[0]| ==> tables[0][i].Free?)
    && forall i {:trigger ops[i]} :: 0 <= i < |ops| ==> Step(tables[i], ops[i], tables[i + 1])
  }

  /** The largest number of live tasks up to state n. */
  ghost function Peak<T>(tables: seq<seq<Slot<T>>>): nat {
    if tables == [] then 0
    else
      var earlier, last := Peak(tables[..|tables| - 1]), Live(tables[|tables| - 1]);
      if last > earlier then last else earlier
  }

  lemma {:induction false} LiveUpdate<T>(slots: seq<Slot<T>>, i: nat, x: Slot<T>)
    requires i < |slots|
    ensures Live(slots[i := x]) + (if slots[i].Used? then 1 else 0) == Live(slots) + (if x.Used? then 1 else 0)
  {
    var n := |slots| - 1;
    if i == n {
      assert slots[i := x][..n] == slots[..n];
    } else {
      assert slots[i := x][..n] == slots[..n][i := x];
      LiveUpdate(slots[..n], i, x);
    }
  }

  /** Growing adds free slots only. */
  lemma {:induction false} LiveOfPadded<T>(slots: seq<Slot<T>>, n: nat)
    requires n <= |slots| && forall i :: n <= i < |slots| ==> slots[i].Free?
    ensures Live(slots) == Live(slots[..n])
  {
    if n == |slots| {
      assert slots[..n] == slots;
    } else {
      var m := |slots| - 1;
      LiveOfPadded(slots[..m], n);
      assert slots[..m][..n] == slots[..n];
    }
  }

  /** If slots 1..h-1 are all used then at least h-1 tasks are live. */
  lemma {:induction false} LiveOfFull<T>(slots: seq<Slot<T>>, h: nat)
    requires 1 <= h <= |slots| && forall i :: 1 <= i < h ==> slots[i].Used?
    ensures Live(slots) >= h - 1
  {
    var m := |slots| - 1;
    if h == |slots| {
      if m >= 1 { LiveOfFull(slots[..m], h - 1); }
    } else {
      LiveOfFull(slots[..m], h);
    }
  }

  /** An insert adds one live task, and its handle never exceeds the live tasks after it. */
  lemma {:induction false} InsertCounts<T>(slots: seq<Slot<T>>, task: T, h: nat, slots': seq<Slot<T>>)
    requires WellFormed(slots) && Inserted(slots, task, h, slots')
    ensures WellFormed(slots') && Live(slots') == Live(slots) + 1 && 1 <= h <= Live(slots')
    ensures |slots'| != |slots| ==> |slots'| == 2 * |slots| && |slots| <= Live(slots')
  {
    var n := |slots|;
    var padded := slots'[h := Free];
    LiveUpdate(slots', h, Free);
    LiveOfPadded(padded, n);
    assert padded[..n] == slots;
    LiveOfFull(slots, h);
  }

  lemma {:induction false} RemoveCounts<T>(slots: seq<Slot<T>>, h: nat)
    requires WellFormed(slots)
    ensures WellFormed(Removed(slots, h)) && Live(Removed(slots, h)) <= Live(slots)
  {
    if 0 < h < |slots| {
      LiveUpdate(slots, h, Free);
    }
  }

  function Max(a: nat, b: nat): nat { if a > b then a else b }

  /** Over any history: handle 0 is never given out, and the capacity is bounded by twice
      the peak number of live tasks, not by how many tasks were ever created. */
  lemma {:induction false} CapacityBoundedByPeak<T>(tables: seq<seq<Slot<T>>>, ops: seq<Op<T>>, n: nat)
    requires History(tables, ops) && n < |tables|
    ensures WellFormed(tables[n])
    ensures |tables[n]| <= Max(INITIAL_TASK_TABLE_SIZE, 2 * Peak(tables[..n + 1]))
  {
    assert tables[..n + 1][..n] == tables[..n];
    if n > 0 {
      CapacityBoundedByPeak(tables, ops, n - 1);
      var op := ops[n - 1];
      assert Step(tables[n - 1], op, tables[n]);
      match op
      case Insert(task, handle) => InsertCounts(tables[n - 1], task, handle, tables[n]);
      case Remove(h) => RemoveCounts(tables[n - 1], h);
    }
  }

  /** Over any history: the handle of an insert is the least free index, was not in use,
      and does not exceed the number of live tasks; every other mapping is unchanged,
      also when the table grows. */
  lemma {:induction false} InsertGivesAFreshSmallHandle<T>(tables: seq<seq<Slot<T>>>, ops: seq<Op<T>>, n: nat)
    requires History(tables, ops) && n < |ops| && ops[n].Insert?
    ensures var before, after, h := tables[n], tables[n + 1], ops[n].handle;
      && 0 < h <= Live(after) && h < |after| && after[h] == Used(ops[n].task)
      && (h < |before| ==> before[h].Free?)
      && (forall i :: 1 <= i < h ==> i < |before| && before[i].Used?)
      && (forall i :: 0 <= i < |before| && before[i].Used? ==> after[i] == before[i])
  {
    CapacityBoundedByPeak(tables, ops, n);
    assert Step(tables[n], ops[n], tables[n + 1]);
    InsertCounts(tables[n], ops[n].task, ops[n].handle, tables[n + 1]);
  }

  /** A handle keeps leading to its task until that handle is removed. */
  lemma {:induction false} HandleStable<T>(tables: seq<seq<Slot<T>>>, ops: seq<Op<T>>, n: nat, m: nat)
    requires History(tables, ops) && n < m <= |ops| && ops[n].Insert?
    requires forall i :: n < i < m ==> ops[i] != Remove(ops[n].handle)
    ensures ops[n].handle < |tables[m]| && tables[m][ops[n].handle] == Used(ops[n].task)
  {
    if m == n + 1 {
      assert Step(tables[n], ops[n], tables[n + 1]);
    } else {
      HandleStable(tables, ops, n, m - 1);
      assert Step(tables[m - 1], ops[m - 1], tables[m]);
    }
  }
}
