/** Condition variables over a fixed family of threads.  `threads[t]` is what thread t
    is doing; a thread asleep in a wait call becomes woken (out of the wait, not yet
    back in the lock) by a signal, a broadcast or spuriously.  A signal wakes at least
    one sleeper when there is one; POSIX allows it to wake more. */
module Condvar {

  /** How many threads satisfy p. */
  function Tally<P>(threads: seq<P>, p: P -> bool): nat {
    if threads == [] then 0
    else Tally(threads[..|threads| - 1], p) + if p(threads[|threads| - 1]) then 1 else 0
  }

  /** Some sleepers, possibly none, are woken; nobody else changes. */
  ghost predicate SomeWoken<P>(before: seq<P>, after: seq<P>, asleep: P -> bool, woken: P -> P) {
    && |before| == |after|
    && forall t :: 0 <= t < |before| ==>
         after[t] == before[t] || (asleep(before[t]) && after[t] == woken(before[t]))
  }

  ghost predicate Signalled<P>(before: seq<P>, after: seq<P>, asleep: P -> bool, woken: P -> P) {
    && SomeWoken(before, after, asleep, woken)
    && ((exists t :: 0 <= t < |before| && asleep(before[t])) ==>
          exists t :: 0 <= t < |before| && asleep(before[t]) && after[t] == woken(before[t]))
  }

  function Broadcast<P>(threads: seq<P>, asleep: P -> bool, woken: P -> P): (after: seq<P>)
    ensures |after| == |threads|
    ensures forall t :: 0 <= t < |threads| ==>
              after[t] == if asleep(threads[t]) then woken(threads[t]) else threads[t]
  {
    seq(|threads|, t requires 0 <= t < |threads| =>
      if asleep(threads[t]) then woken(threads[t]) else threads[t])
  }

  lemma {:induction false} TallyUpdate<P>(threads: seq<P>, t: nat, x: P, p: P -> bool)
    requires t < |threads|
    ensures Tally(threads[t := x], p) + (if p(threads[t]) then 1 else 0)
         == Tally(threads, p) + (if p(x) then 1 else 0)
  {
    var n := |threads| - 1;
    var updated := threads[t := x];
    if t == n {
      assert updated[..n] == threads[..n];
    } else {
      assert updated[..n] == threads[..n][t := x];
      TallyUpdate(threads[..n], t, x, p);
    }
  }

  lemma {:induction false} TallyMonotone<P>(before: seq<P>, after: seq<P>, p: P -> bool)
    requires |before| == |after|
    requires forall t :: 0 <= t < |before| && p(before[t]) ==> p(after[t])
    ensures Tally(before, p) <= Tally(after, p)
  {
    if before != [] {
      TallyMonotone(before[..|before| - 1], after[..|after| - 1], p);
    }
  }

  lemma {:induction false} TallyGrows<P>(before: seq<P>, after: seq<P>, p: P -> bool, t: nat)
    requires |before| == |after| && t < |before| && !p(before[t]) && p(after[t])
    requires forall u :: 0 <= u < |before| && p(before[u]) ==> p(after[u])
    ensures Tally(before, p) < Tally(after, p)
  {
    var n := |before| - 1;
    if t == n {
      TallyMonotone(before[..n], after[..n], p);
    } else {
      TallyGrows(before[..n], after[..n], p, t);
    }
  }

  lemma {:induction false} TallySame<P>(before: seq<P>, after: seq<P>, p: P -> bool)
    requires |before| == |after|
    requires forall t :: 0 <= t < |before| ==> p(before[t]) == p(after[t])
    ensures Tally(before, p) == Tally(after, p)
  {
    TallyMonotone(before, after, p);
    TallyMonotone(after, before, p);
  }

  lemma {:induction false} TallyWitness<P>(threads: seq<P>, p: P -> bool)
    requires Tally(threads, p) > 0
    ensures exists t :: 0 <= t < |threads| && p(threads[t])
  {
    var n := |threads| - 1;
    if p(threads[n]) {
    } else {
      TallyWitness(threads[..n], p);
      var t :| 0 <= t < |threads[..n]| && p(threads[..n][t]);
      assert p(threads[t]);
    }
  }

  /** The operating system's choice of whom a signal wakes: any one sleeper. */
  method PickSignalled<P>(threads: seq<P>, asleep: P -> bool, woken: P -> P) returns (after: seq<P>)
    ensures Signalled(threads, after, asleep, woken)
  {
    after := threads;
    if t :| 0 <= t < |threads| && asleep(threads[t]) {
      after := threads[t := woken(threads[t])];
    }
  }
}
