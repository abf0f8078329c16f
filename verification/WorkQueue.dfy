/** The intrusive work queue of runtime/src/scheduler.c, and that its methods perform the queue
    regions of the runtime. */
module WorkQueue {
  import opened Condvar
  import opened Runtime

  class TaskNode {
    const id: nat
    var next: TaskNode?

    constructor (id: nat)
      ensures this.id == id && next == null
    {
      this.id, next := id, null;
    }
  }

  datatype Dequeued = Sleep | Quit | Took(task: TaskNode)

  lemma {:induction false} EnqueueStep(s: State, t: nat, k: nat, threads: seq<Thread>) returns (s': State)
    requires !s.down && QueueLockFree(s) && t < |s.threads| && s.threads[t].act == Inserted(k) && k < |s.tasks|
    requires Signalled(s.threads[t := s.threads[t].(act := Idle)], threads, WorkerAsleep, WakeWorker)
    ensures Next(s, SpawnEnqueue(t), s')
    ensures s'.threads == threads && s'.queue == s.queue + [k] && s'.shutdown == s.shutdown
  {
    s' := s.(threads := threads, queue := s.queue + [k], enqueued := s.enqueued + [k],
             tasks := s.tasks[k := s.tasks[k].(place := Queued)]);
  }

  /** `threads` stands for what each thread is doing, and so for the operating system's record of
      who waits on queue_not_empty; the other fields are those of the struct. */
  class Scheduler {
    var queueHead: TaskNode?
    var queueTail: TaskNode?
    var shutdown: bool
    var threads: seq<Thread>
    ghost var contents: seq<TaskNode>

    /** The list from head to tail runs through `contents` and stops at its end. */
    ghost predicate Valid()
      reads this, contents
    {
      && (contents == [] ==> queueHead == null && queueTail == null)
      && (contents != [] ==> queueHead == contents[0] && queueTail == contents[|contents| - 1]
                             && queueTail.next == null)
      && (forall i {:trigger contents[i].next} :: 0 <= i < |contents| - 1 ==> contents[i].next == contents[i + 1])
      && (forall i, j :: 0 <= i < j < |contents| ==> contents[i] != contents[j])
    }

    /** The queue, threads and flag of this state of the runtime. */
    ghost predicate Represents(s: State)
      reads this
    {
      && s.threads == threads && s.shutdown == shutdown && |s.queue| == |contents|
      && forall i :: 0 <= i < |contents| ==> s.queue[i] == contents[i].id
    }

    constructor (threads: seq<Thread>)
      ensures Valid() && contents == [] && !shutdown && this.threads == threads
    {
      queueHead, queueTail, shutdown := null, null, false;
      this.threads := threads;
      contents := [];
    }

    /** The list operations of scheduler_enqueue. */
    method Append(task: TaskNode)
      requires Valid() && task !in contents
      modifies this`queueHead, this`queueTail, this`contents, contents, task
      ensures Valid() && contents == old(contents) + [task]
    {
      task.next := null;
      if queueTail != null {
        queueTail.next := task;
        queueTail := task;
      } else {
        queueHead := task;
        queueTail := task;
      }
      contents := contents + [task];
    }

    /** Appends the task and signals; what was queued stays, in order.  On a runtime state this is
        the second half of a spawn by thread t. */
    method Enqueue(ghost s: State, t: nat, task: TaskNode) returns (ghost s': State)
      requires Valid() && task !in contents
      requires Represents(s) && !s.down && QueueLockFree(s)
      requires t < |threads| && threads[t].act == Inserted(task.id) && task.id < |s.tasks|
      modifies this, contents, task
      ensures Valid() && contents == old(contents) + [task] && shutdown == old(shutdown)
      ensures Next(s, SpawnEnqueue(t), s') && Represents(s')
    {
      Append(task);
      threads := threads[t := threads[t].(act := Idle)];
      threads := PickSignalled(threads, WorkerAsleep, WakeWorker);
      s' := EnqueueStep(s, t, task.id, threads);
    }

    /** One pass of the dequeue loop: sleep, quit, or take the oldest task.  On a runtime state
        this is the locked region of worker t. */
    method Dequeue(ghost s: State, t: nat) returns (r: Dequeued, ghost s': State)
      requires Valid() && Represents(s) && !s.down && QueueLockFree(s)
      requires t < |threads| && (threads[t].worker.Looking? || threads[t].worker.Woken?)
      requires contents != [] ==> contents[0].id < |s.tasks|
      modifies this, contents
      ensures Valid() && shutdown == old(shutdown)
      ensures old(contents) == [] ==> contents == [] && r == if shutdown then Quit else Sleep
      ensures old(contents) != [] ==> r == Took(old(contents)[0]) && contents == old(contents)[1..]
      ensures r.Took? ==> r.task.next == null && r.task !in contents
      ensures Next(s, Event.Dequeue(t), s') && Represents(s')
    {
      if queueHead == null && !shutdown {
        threads := threads[t := threads[t].(worker := Deciding)];
        s' := SetWorker(s, t, Deciding);
        return Sleep, s';
      }
      if shutdown && queueHead == null {
        threads := threads[t := threads[t].(worker := Exited)];
        s' := SetWorker(s, t, Exited);
        return Quit, s';
      }
      var task := queueHead;
      queueHead := task.next;
      contents := contents[1..];
      if queueHead == null {
        queueTail := null;
      }
      task.next := null;
      threads := threads[t := threads[t].(worker := Holding(task.id))];
      s' := SetWorker(s, t, Holding(task.id)).(
              queue := s.queue[1..], dequeued := s.dequeued + [task.id],
              tasks := s.tasks[task.id := s.tasks[task.id].(place := HeldBy(t))]);
      return Took(task), s';
    }

    /** The wait on queue_not_empty, which gives the lock back. */
    method FallAsleep(ghost s: State, t: nat) returns (ghost s': State)
      requires Valid() && Represents(s) && !s.down && t < |threads| && threads[t].worker.Deciding?
      modifies this`threads
      ensures Valid() && Next(s, Event.FallAsleep(t), s') && Represents(s')
    {
      threads := threads[t := threads[t].(worker := Asleep)];
      s' := SetWorker(s, t, Asleep);
    }

    /** scheduler_shutdown: the flag, the broadcast, and the remaining list is unlinked from the
        scheduler.  After the workers are joined the broadcast wakes nobody. */
    method Shutdown(ghost s: State)
      requires Valid() && Represents(s)
      modifies this
      ensures Valid() && contents == [] && shutdown
      ensures threads == Broadcast(old(threads), WorkerAsleep, WakeWorker)
      ensures AllWorkersExited(s) ==> Represents(s.(shutdown := true, queue := []))
    {
      shutdown := true;
      threads := Broadcast(threads, WorkerAsleep, WakeWorker);
      ghost var i := 0;
      ghost var all := contents;
      while queueHead != null
        invariant 0 <= i <= |all| && contents == all && shutdown
        invariant threads == Broadcast(old(threads), WorkerAsleep, WakeWorker)
        invariant forall j {:trigger all[j].next} :: 0 <= j < |all| - 1 ==> all[j].next == all[j + 1]
        invariant all != [] ==> all[|all| - 1].next == null
        invariant queueHead == if i < |all| then all[i] else null
        decreases |all| - i
      {
        queueHead := queueHead.next;
        i := i + 1;
      }
      assert i == |all|;
      queueTail := null;
      contents := [];
    }
  }
}
