/** That the task table of task.c:45-109 is the table of the runtime model: insert, lookup and
    the clearing of a slot perform what SPAWN, WAIT and WAIT_ANY do to it. */
module RuntimeTable {
  import opened Runtime
  import opened TaskTable

  /** The handles in use and the tasks they lead to. */
  function TableOf(slots: seq<Slot<nat>>): (table: map<nat, nat>)
    ensures forall h :: h in table <==> 0 <= h < |slots| && slots[h].Used?
    ensures forall h :: h in table ==> table[h] == slots[h].task
  {
    map h | 0 <= h < |slots| && slots[h].Used? :: slots[h].task
  }

  /** task_table_get finds a task exactly where the model's table has one. */
  lemma {:induction false} GetLooksUp(slots: seq<Slot<nat>>, h: nat, k: nat)
    requires WellFormed(slots)
    ensures (if 0 < h < |slots| then slots[h] else Free) == Used(k) <==> h in TableOf(slots) && TableOf(slots)[h] == k
  {
  }

  /** task_table_insert gives a handle that the table does not have, and adds exactly that. */
  lemma {:induction false} InsertAdds(slots: seq<Slot<nat>>, k: nat, h: nat, slots': seq<Slot<nat>>)
    requires WellFormed(slots) && TaskTable.Inserted(slots, k, h, slots')
    ensures h > 0 && h !in TableOf(slots) && TableOf(slots') == TableOf(slots)[h := k]
  {
    var a, b := TableOf(slots'), TableOf(slots)[h := k];
    forall g ensures (g in a <==> g in b) && (g in a ==> a[g] == b[g]) {
      if 0 <= g < |slots| && g != h {
        assert slots'[g] == slots[g];
      }
    }
  }

  /** It is the first half of a spawn. */
  lemma {:induction false} InsertIsSpawn(s: State, t: nat, slots: seq<Slot<nat>>, h: nat, slots': seq<Slot<nat>>)
    returns (s': State)
    requires !s.down && t < |s.threads| && RunsCode(s.threads[t]) && s.threads[t].act.Idle?
    requires WellFormed(slots) && s.table == TableOf(slots) && TaskTable.Inserted(slots, |s.tasks|, h, slots')
    ensures Next(s, SpawnInsert(t, h), s') && s'.table == TableOf(slots')
  {
    InsertAdds(slots, |s.tasks|, h, slots');
    s' := SetAct(s, t, Runtime.Inserted(|s.tasks|)).(
            tasks := s.tasks + [Task(h, Pending, NotEnqueued(t))],
            table := s.table[h := |s.tasks|]);
  }

  lemma {:induction false} RemoveTakesOut(slots: seq<Slot<nat>>, h: nat)
    requires WellFormed(slots)
    ensures TableOf(Removed(slots, h)) == TableOf(slots) - {h}
  {
    var a, b := TableOf(Removed(slots, h)), TableOf(slots) - {h};
    forall g ensures (g in a <==> g in b) && (g in a ==> a[g] == b[g]) {
    }
  }

  /** A WAIT clears the slot exactly when it reaps. */
  lemma {:induction false} WaitClears(s: State, t: nat, h: nat, k: nat, slots: seq<Slot<nat>>)
    requires t < |s.threads| && k < |s.tasks| && WellFormed(slots) && s.table == TableOf(slots)
    ensures WaitRegion(s, t, h, k).table == TableOf(if s.tasks[k].state == Completed then Removed(slots, h) else slots)
  {
    RemoveTakesOut(slots, h);
  }

  /** A WAIT_ANY clears the slot of the first completed task, if there is one. */
  lemma {:induction false} WaitAnyClears(s: State, t: nat, hs: seq<nat>, slots: seq<Slot<nat>>)
    requires t < |s.threads| && WellFormed(slots) && s.table == TableOf(slots)
    ensures var i := FirstReady(s, hs);
      WaitAnyRegion(s, t, hs).table == TableOf(if i < |hs| then Removed(slots, hs[i]) else slots)
  {
    var i := FirstReady(s, hs);
    if i < |hs| {
      RemoveTakesOut(slots, hs[i]);
    }
  }
}
