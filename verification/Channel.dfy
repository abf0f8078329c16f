/** The bounded MPMC channel of runtime/src/channel.c as a transition system.  One
    step is one region executed with the channel lock held: from acquiring the
    lock (or returning from the condition wait) to the next wait or the unlock. */
module Channel {
  import opened Condvar

  datatype Phase<V> = Idle | SendAsleep(v: V) | SendWoken(v: V) | ReceiveAsleep | ReceiveWoken

  /** The fields of the C struct, and what each thread is doing. */
  datatype Chan<V> = Chan(
    capacity: nat, buffer: seq<V>, head: nat, tail: nat, count: nat, closed: bool,
    threads: seq<Phase<V>>)

  datatype Outcome<V> = Blocked | Failed | Sent | Got(value: V)

  /** What the outside world observes of one step. */
  datatype Event<V> =
    | SendEvent(t: nat, v: V, result: Outcome<V>)
    | ReceiveEvent(t: nat, result: Outcome<V>)
    | CloseEvent(t: nat)
    | SpuriousEvent(t: nat)

  predicate SenderAsleep<V>(p: Phase<V>) { p.SendAsleep? }
  predicate SenderWoken<V>(p: Phase<V>) { p.SendWoken? }
  predicate ReceiverAsleep<V>(p: Phase<V>) { p.ReceiveAsleep? }
  predicate ReceiverWoken<V>(p: Phase<V>) { p.ReceiveWoken? }

  function WakeSender<V>(p: Phase<V>): Phase<V> { if p.SendAsleep? then SendWoken(p.v) else p }
  function WakeReceiver<V>(p: Phase<V>): Phase<V> { if p.ReceiveAsleep? then ReceiveWoken else p }

  // ----- the steps ---------------------------------------------------------

  /** Reduction of an index below twice the capacity. */
  function Wrap(x: nat, cap: nat): nat { if x < cap then x else x - cap }

  lemma {:induction false} ModIsWrap(x: nat, cap: nat)
    requires x < 2 * cap
    ensures x % cap == Wrap(x, cap)
  {
    var q := x / cap;
    assert x == q * cap + x % cap;
    assert q >= 2 ==> q * cap >= 2 * cap;
  }

  /** What the ring-buffer indices always satisfy. */
  predicate Shape<V>(s: Chan<V>) {
    && 0 < s.capacity == |s.buffer|
    && s.head < s.capacity && s.tail < s.capacity && s.count <= s.capacity
    && s.tail == Wrap(s.head + s.count, s.capacity)
  }

  ghost predicate Init<V>(s: Chan<V>) {
    && Shape(s) && s.head == s.tail == s.count == 0 && !s.closed
    && forall t :: 0 <= t < |s.threads| ==> s.threads[t] == Idle
  }

  /** channel.c:96-115, run by thread t with value v. */
  ghost predicate SendRegion<V>(s: Chan<V>, s': Chan<V>, t: nat, v: V, r: Outcome<V>)
    requires Shape(s) && t < |s.threads|
  {
    if s.count == s.capacity && !s.closed then
      r == Blocked && s' == s.(threads := s.threads[t := SendAsleep(v)])
    else if s.closed then
      r == Failed && s' == s.(threads := s.threads[t := Idle])
    else
      && r == Sent
      && Signalled(s.threads[t := Idle], s'.threads, ReceiverAsleep, WakeReceiver)
      && s' == s.(buffer := s.buffer[s.tail := v], tail := (s.tail + 1) % s.capacity,
                  count := s.count + 1, threads := s'.threads)
  }

  /** channel.c:127-146, run by thread t. */
  ghost predicate ReceiveRegion<V>(s: Chan<V>, s': Chan<V>, t: nat, r: Outcome<V>)
    requires Shape(s) && t < |s.threads|
  {
    if s.count == 0 && !s.closed then
      r == Blocked && s' == s.(threads := s.threads[t := ReceiveAsleep])
    else if s.count == 0 && s.closed then
      r == Failed && s' == s.(threads := s.threads[t := Idle])
    else
      && r == Got(s.buffer[s.head])
      && Signalled(s.threads[t := Idle], s'.threads, SenderAsleep, WakeSender)
      && s' == s.(head := (s.head + 1) % s.capacity, count := s.count - 1, threads := s'.threads)
  }

  function Closed<V>(s: Chan<V>): Chan<V> {
    s.(closed := true,
       threads := Broadcast(Broadcast(s.threads, SenderAsleep, WakeSender), ReceiverAsleep, WakeReceiver))
  }

  ghost predicate Next<V>(s: Chan<V>, e: Event<V>, s': Chan<V>) {
    && Shape(s) && e.t < |s.threads|
    && match e
       case SendEvent(t, v, r) =>
         (s.threads[t] == Idle || s.threads[t] == SendWoken(v)) && SendRegion(s, s', t, v, r)
       case ReceiveEvent(t, r) =>
         (s.threads[t] == Idle || s.threads[t] == ReceiveWoken) && ReceiveRegion(s, s', t, r)
       case CloseEvent(t) => s.threads[t] == Idle && s' == Closed(s)
       case SpuriousEvent(t) =>
         s' == s.(threads := s.threads[t := WakeSender(WakeReceiver(s.threads[t]))])
  }

  /** states[i] --events[i]--> states[i+1], from a newly created channel. */
  ghost predicate Run<V>(states: seq<Chan<V>>, events: seq<Event<V>>) {
    && |states| == |events| + 1
    && Init(states[0])
    && forall i {:trigger events[i]} :: 0 <= i < |events| ==> Next(states[i], events[i], states[i + 1])
  }

  // ----- the invariant of every reachable state ----------------------------

  /** While a receiver sleeps the channel is open, and every buffered element has its
      own woken receiver coming for it. */
  ghost predicate ReceiversCovered<V>(s: Chan<V>) {
    (exists t :: 0 <= t < |s.threads| && s.threads[t].ReceiveAsleep?) ==>
      !s.closed && s.count <= Tally(s.threads, ReceiverWoken)
  }

  /** While a sender sleeps the channel is open, and every free slot has its own woken
      sender coming for it. */
  ghost predicate SendersCovered<V>(s: Chan<V>) {
    (exists t :: 0 <= t < |s.threads| && s.threads[t].SendAsleep?) ==>
      !s.closed && s.capacity - s.count <= Tally(s.threads, SenderWoken)
  }

  ghost predicate Inv<V>(s: Chan<V>) {
    Shape(s) && ReceiversCovered(s) && SendersCovered(s)
  }

  lemma {:induction false} SendKeepsShape<V>(s: Chan<V>, s': Chan<V>, t: nat, v: V, r: Outcome<V>)
    requires Shape(s) && t < |s.threads| && SendRegion(s, s', t, v, r)
    ensures Shape(s')
  {
    ModIsWrap(s.tail + 1, s.capacity);
  }

  lemma {:induction false} ReceiveKeepsShape<V>(s: Chan<V>, s': Chan<V>, t: nat, r: Outcome<V>)
    requires Shape(s) && t < |s.threads| && ReceiveRegion(s, s', t, r)
    ensures Shape(s')
  {
    ModIsWrap(s.head + 1, s.capacity);
  }

  lemma {:induction false} SendKeepsReceiversCovered<V>(s: Chan<V>, s': Chan<V>, t: nat, v: V, r: Outcome<V>)
    requires Shape(s) && t < |s.threads| && SendRegion(s, s', t, v, r)
    requires s.threads[t].Idle? || s.threads[t].SendWoken?
    requires ReceiversCovered(s)
    ensures ReceiversCovered(s')
  {
    TallyUpdate(s.threads, t, Idle, ReceiverWoken);
    TallyUpdate(s.threads, t, SendAsleep(v), ReceiverWoken);
    if r.Sent? {
      var mid := s.threads[t := Idle];
      if u :| 0 <= u < |mid| && mid[u].ReceiveAsleep? && s'.threads[u] == WakeReceiver(mid[u]) {
        TallyGrows(mid, s'.threads, ReceiverWoken, u);
      }
    }
  }

  lemma {:induction false} SendKeepsSendersCovered<V>(s: Chan<V>, s': Chan<V>, t: nat, v: V, r: Outcome<V>)
    requires Shape(s) && t < |s.threads| && SendRegion(s, s', t, v, r)
    requires s.threads[t].Idle? || s.threads[t].SendWoken?
    requires SendersCovered(s)
    ensures SendersCovered(s')
  {
    TallyUpdate(s.threads, t, Idle, SenderWoken);
    if r.Sent? {
      TallySame(s.threads[t := Idle], s'.threads, SenderWoken);
    }
  }

  lemma {:induction false} ReceiveKeepsReceiversCovered<V>(s: Chan<V>, s': Chan<V>, t: nat, r: Outcome<V>)
    requires Shape(s) && t < |s.threads| && ReceiveRegion(s, s', t, r)
    requires s.threads[t].Idle? || s.threads[t].ReceiveWoken?
    requires ReceiversCovered(s)
    ensures ReceiversCovered(s')
  {
    TallyUpdate(s.threads, t, Idle, ReceiverWoken);
    if r.Got? {
      TallySame(s.threads[t := Idle], s'.threads, ReceiverWoken);
    }
  }

  lemma {:induction false} ReceiveKeepsSendersCovered<V>(s: Chan<V>, s': Chan<V>, t: nat, r: Outcome<V>)
    requires Shape(s) && t < |s.threads| && ReceiveRegion(s, s', t, r)
    requires s.threads[t].Idle? || s.threads[t].ReceiveWoken?
    requires SendersCovered(s)
    ensures SendersCovered(s')
  {
    TallyUpdate(s.threads, t, Idle, SenderWoken);
    TallyUpdate(s.threads, t, ReceiveAsleep, SenderWoken);
    if r.Got? {
      var mid := s.threads[t := Idle];
      if u :| 0 <= u < |mid| && mid[u].SendAsleep? && s'.threads[u] == WakeSender(mid[u]) {
        TallyGrows(mid, s'.threads, SenderWoken, u);
      }
    }
  }

  lemma {:induction false} SpuriousKeepsInv<V>(s: Chan<V>, t: nat, s': Chan<V>)
    requires Inv(s) && Next(s, SpuriousEvent(t), s')
    ensures Inv(s')
  {
    TallyMonotone(s.threads, s'.threads, SenderWoken);
    TallyMonotone(s.threads, s'.threads, ReceiverWoken);
  }

  lemma {:induction false} StepKeepsInv<V>(s: Chan<V>, e: Event<V>, s': Chan<V>)
    requires Inv(s) && Next(s, e, s')
    ensures Inv(s')
  {
    match e
    case SendEvent(t, v, r) =>
      SendKeepsShape(s, s', t, v, r);
      SendKeepsReceiversCovered(s, s', t, v, r);
      SendKeepsSendersCovered(s, s', t, v, r);
    case ReceiveEvent(t, r) =>
      ReceiveKeepsShape(s, s', t, r);
      ReceiveKeepsReceiversCovered(s, s', t, r);
      ReceiveKeepsSendersCovered(s, s', t, r);
    case CloseEvent(t) =>
    case SpuriousEvent(t) => SpuriousKeepsInv(s, t, s');
  }

  lemma {:induction false} ReachableInv<V>(states: seq<Chan<V>>, events: seq<Event<V>>, i: nat)
    requires Run(states, events) && i < |states|
    ensures Inv(states[i])
  {
    if i > 0 {
      ReachableInv(states, events, i - 1);
      StepKeepsInv(states[i - 1], events[i - 1], states[i]);
    }
  }

  // ----- no lost wakeups ---------------------------------------------------

  /** In every state of every run: a sleeping receiver means the channel is open and
      at most as many elements are buffered as receivers are already woken; dually
      for senders and free slots; and a sleeping sender and a sleeping receiver never
      coexist with nobody on the way. */
  lemma {:induction false} NoLostWakeups<V>(states: seq<Chan<V>>, events: seq<Event<V>>, i: nat)
    requires Run(states, events) && i < |states|
    ensures ReceiversCovered(states[i]) && SendersCovered(states[i])
    ensures forall t, u :: 0 <= t < |states[i].threads| && 0 <= u < |states[i].threads|
                && states[i].threads[t].SendAsleep? && states[i].threads[u].ReceiveAsleep?
                ==> exists w :: 0 <= w < |states[i].threads|
                      && (states[i].threads[w].SendWoken? || states[i].threads[w].ReceiveWoken?)
  {
    ReachableInv(states, events, i);
    var ts := states[i].threads;
    if t, u :| 0 <= t < |ts| && 0 <= u < |ts| && ts[t].SendAsleep? && ts[u].ReceiveAsleep? {
      if Tally(ts, SenderWoken) > 0 {
        TallyWitness(ts, SenderWoken);
      } else {
        TallyWitness(ts, ReceiverWoken);
      }
    }
  }

  // ----- FIFO refinement ---------------------------------------------------

  /** The n elements of a ring buffer from index head on, oldest first. */
  function Ring<V>(buffer: seq<V>, head: nat, n: nat): (c: seq<V>)
    requires head < |buffer| && n <= |buffer|
    ensures |c| == n
    ensures forall i :: 0 <= i < n ==> c[i] == buffer[Wrap(head + i, |buffer|)]
  {
    seq(n, i requires 0 <= i < n => buffer[Wrap(head + i, |buffer|)])
  }

  function Contents<V>(s: Chan<V>): seq<V>
    requires Shape(s)
  {
    Ring(s.buffer, s.head, s.count)
  }

  lemma {:induction false} RingPush<V>(buffer: seq<V>, head: nat, n: nat, v: V)
    requires head < |buffer| && n < |buffer|
    ensures Ring(buffer[Wrap(head + n, |buffer|) := v], head, n + 1) == Ring(buffer, head, n) + [v]
  {
    var tail := Wrap(head + n, |buffer|);
    var c, c' := Ring(buffer, head, n), Ring(buffer[tail := v], head, n + 1);
    forall i | 0 <= i < n ensures c'[i] == c[i] {
      assert Wrap(head + i, |buffer|) != tail;
    }
  }

  lemma {:induction false} RingPop<V>(buffer: seq<V>, head: nat, n: nat)
    requires head < |buffer| && 0 < n <= |buffer|
    ensures Ring(buffer, head, n) == [buffer[head]] + Ring(buffer, Wrap(head + 1, |buffer|), n - 1)
  {
    var c, c' := Ring(buffer, head, n), Ring(buffer, Wrap(head + 1, |buffer|), n - 1);
    forall i | 0 <= i < n - 1 ensures c[i + 1] == c'[i] {
      assert Wrap(Wrap(head + 1, |buffer|) + i, |buffer|) == Wrap(head + (i + 1), |buffer|);
    }
    assert c[1..] == c';
  }

  function SentBy<V>(e: Event<V>): seq<V> {
    if e.SendEvent? && e.result.Sent? then [e.v] else []
  }

  function ReceivedBy<V>(e: Event<V>): seq<V> {
    if e.ReceiveEvent? && e.result.Got? then [e.result.value] else []
  }

  /** Values of the successful sends, in lock order. */
  function Sends<V>(es: seq<Event<V>>): seq<V> {
    if es == [] then [] else Sends(es[..|es| - 1]) + SentBy(es[|es| - 1])
  }

  /** Values handed out by the successful receives, in lock order. */
  function Receipts<V>(es: seq<Event<V>>): seq<V> {
    if es == [] then [] else Receipts(es[..|es| - 1]) + ReceivedBy(es[|es| - 1])
  }

  lemma {:induction false} SendPushes<V>(s: Chan<V>, s': Chan<V>, t: nat, v: V)
    requires Shape(s) && Shape(s') && t < |s.threads| && SendRegion(s, s', t, v, Sent)
    ensures Contents(s') == Contents(s) + [v]
  {
    RingPush(s.buffer, s.head, s.count, v);
  }

  lemma {:induction false} ReceivePops<V>(s: Chan<V>, s': Chan<V>, t: nat, v: V)
    requires Shape(s) && Shape(s') && t < |s.threads| && ReceiveRegion(s, s', t, Got(v))
    ensures Contents(s) == [v] + Contents(s')
  {
    ModIsWrap(s.head + 1, s.capacity);
    RingPop(s.buffer, s.head, s.count);
  }

  /** One step moves the buffer exactly like a queue. */
  lemma {:induction false} StepIsQueueStep<V>(s: Chan<V>, e: Event<V>, s': Chan<V>)
    requires Next(s, e, s') && Shape(s')
    ensures Contents(s) + SentBy(e) == ReceivedBy(e) + Contents(s')
  {
    if e.SendEvent? && e.result.Sent? {
      SendPushes(s, s', e.t, e.v);
    } else if e.ReceiveEvent? && e.result.Got? {
      ReceivePops(s, s', e.t, e.result.value);
    } else {
      assert Contents(s') == Contents(s);
    }
  }

  /** The ring buffer refines an unbounded FIFO: in every interleaving the values
      sent so far are the values received so far followed by the buffer. */
  lemma {:induction false} FifoRefinement<V>(states: seq<Chan<V>>, events: seq<Event<V>>, i: nat)
    requires Run(states, events) && i < |states|
    ensures Shape(states[i])
    ensures Sends(events[..i]) == Receipts(events[..i]) + Contents(states[i])
  {
    ReachableInv(states, events, i);
    if i > 0 {
      FifoRefinement(states, events, i - 1);
      StepIsQueueStep(states[i - 1], events[i - 1], states[i]);
      assert events[..i][..i - 1] == events[..i - 1];
      Regroup(Receipts(events[..i - 1]), Contents(states[i - 1]), SentBy(events[i - 1]),
              ReceivedBy(events[i - 1]), Contents(states[i]));
    }
  }

  lemma {:induction false} Regroup<V>(a: seq<V>, b: seq<V>, c: seq<V>, d: seq<V>, e: seq<V>)
    requires b + c == d + e
    ensures (a + b) + c == (a + d) + e
  {
    assert (a + b) + c == a + (b + c);
    assert (a + d) + e == a + (d + e);
  }

  // ----- what each call returns ----------------------------------------------

  /** Over every run: a send fails exactly if the channel is closed, sleeps exactly if it is open
      and holds capacity values, and otherwise appends its value. */
  lemma {:induction false} SendReturns<V>(states: seq<Chan<V>>, events: seq<Event<V>>, i: nat)
    requires Run(states, events) && i < |events| && events[i].SendEvent?
    ensures Shape(states[i]) && Shape(states[i + 1])
    ensures var s, s', e := states[i], states[i + 1], events[i];
      && e.result == (if s.closed then Failed else if |Contents(s)| == s.capacity then Blocked else Sent)
      && Contents(s') == Contents(s) + (if e.result == Sent then [e.v] else [])
      && s'.closed == s.closed && s'.capacity == s.capacity && |s'.threads| == |s.threads|
      && s'.threads[e.t] == (if e.result == Blocked then SendAsleep(e.v) else Idle)
  {
    ReachableInv(states, events, i);
    ReachableInv(states, events, i + 1);
    assert Next(states[i], events[i], states[i + 1]);
    StepIsQueueStep(states[i], events[i], states[i + 1]);
  }

  /** Over every run: a receive returns the oldest value if there is one; without one it fails if
      the channel is closed and sleeps if it is open. */
  lemma {:induction false} ReceiveReturns<V>(states: seq<Chan<V>>, events: seq<Event<V>>, i: nat)
    requires Run(states, events) && i < |events| && events[i].ReceiveEvent?
    ensures Shape(states[i]) && Shape(states[i + 1])
    ensures var s, s', e := states[i], states[i + 1], events[i]; var c := Contents(s);
      && e.result == (if c != [] then Got(c[0]) else if s.closed then Failed else Blocked)
      && Contents(s') == (if c != [] then c[1..] else [])
      && s'.closed == s.closed && s'.capacity == s.capacity && |s'.threads| == |s.threads|
      && s'.threads[e.t] == (if e.result == Blocked then ReceiveAsleep else Idle)
  {
    var s, s', e := states[i], states[i + 1], events[i];
    ReachableInv(states, events, i);
    ReachableInv(states, events, i + 1);
    assert Next(s, e, s');
    StepIsQueueStep(s, e, s');
    if Contents(s) != [] {
      assert Contents(s)[1..] == Contents(s');
    }
  }

  /** Over every run: a successful send wakes a sleeping receiver if there is one, and touches no
      other thread. */
  lemma {:induction false} SendWakes<V>(states: seq<Chan<V>>, events: seq<Event<V>>, i: nat)
    requires Run(states, events) && i < |events| && events[i].SendEvent?
    ensures |states[i + 1].threads| == |states[i].threads|
    ensures var s, s', e := states[i], states[i + 1], events[i];
      && (forall u {:trigger s'.threads[u]} :: 0 <= u < |s.threads| && u != e.t ==>
            s'.threads[u] == s.threads[u]
            || (e.result == Sent && s.threads[u] == ReceiveAsleep && s'.threads[u] == ReceiveWoken))
      && (e.result == Sent && (exists u :: 0 <= u < |s.threads| && s.threads[u] == ReceiveAsleep) ==>
            exists u :: 0 <= u < |s.threads| && s.threads[u] == ReceiveAsleep && s'.threads[u] == ReceiveWoken)
  {
    var s, s', e := states[i], states[i + 1], events[i];
    assert Next(s, e, s');
    if w :| e.result == Sent && 0 <= w < |s.threads| && s.threads[w] == ReceiveAsleep {
      var mid := s.threads[e.t := Idle];
      assert ReceiverAsleep(mid[w]);
      var u :| 0 <= u < |mid| && ReceiverAsleep(mid[u]) && s'.threads[u] == WakeReceiver(mid[u]);
      assert s.threads[u] == ReceiveAsleep;
    }
  }

  /** Over every run: a successful receive wakes a sleeping sender if there is one, and touches no
      other thread. */
  lemma {:induction false} ReceiveWakes<V>(states: seq<Chan<V>>, events: seq<Event<V>>, i: nat)
    requires Run(states, events) && i < |events| && events[i].ReceiveEvent?
    ensures |states[i + 1].threads| == |states[i].threads|
    ensures var s, s', e := states[i], states[i + 1], events[i];
      && (forall u {:trigger s'.threads[u]} :: 0 <= u < |s.threads| && u != e.t ==>
            s'.threads[u] == s.threads[u]
            || (e.result.Got? && s.threads[u].SendAsleep? && s'.threads[u] == SendWoken(s.threads[u].v)))
      && (e.result.Got? && (exists u :: 0 <= u < |s.threads| && s.threads[u].SendAsleep?) ==>
            exists u :: 0 <= u < |s.threads| && s.threads[u].SendAsleep? && s'.threads[u].SendWoken?)
  {
    var s, s', e := states[i], states[i + 1], events[i];
    assert Next(s, e, s');
    if w :| e.result.Got? && 0 <= w < |s.threads| && s.threads[w].SendAsleep? {
      var mid := s.threads[e.t := Idle];
      assert SenderAsleep(mid[w]);
      var u :| 0 <= u < |mid| && SenderAsleep(mid[u]) && s'.threads[u] == WakeSender(mid[u]);
      assert s.threads[u].SendAsleep?;
    }
  }

  /** Over every run: closing wakes every sleeper and changes no value; a spurious wakeup changes
      neither. */
  lemma {:induction false} CloseWakesAll<V>(states: seq<Chan<V>>, events: seq<Event<V>>, i: nat)
    requires Run(states, events) && i < |events| && (events[i].CloseEvent? || events[i].SpuriousEvent?)
    ensures Shape(states[i]) && Shape(states[i + 1])
    ensures Contents(states[i + 1]) == Contents(states[i])
    ensures states[i + 1].closed <==> states[i].closed || events[i].CloseEvent?
    ensures |states[i + 1].threads| == |states[i].threads|
    ensures events[i].CloseEvent? ==>
              forall t {:trigger states[i + 1].threads[t]} :: 0 <= t < |states[i].threads| ==>
                states[i + 1].threads[t] == (
                  match states[i].threads[t]
                  case SendAsleep(v) => SendWoken(v)
                  case ReceiveAsleep => ReceiveWoken
                  case p => p)
  {
    ReachableInv(states, events, i);
    ReachableInv(states, events, i + 1);
    assert Next(states[i], events[i], states[i + 1]);
    StepIsQueueStep(states[i], events[i], states[i + 1]);
  }

  /** Closing is final: once closed, no send succeeds any more. */
  lemma {:induction false} NoSendAfterClose<V>(states: seq<Chan<V>>, events: seq<Event<V>>, i: nat, j: nat)
    requires Run(states, events) && i <= j < |states| && states[i].closed
    ensures states[j].closed && Sends(events[..j]) == Sends(events[..i])
  {
    if i < j {
      NoSendAfterClose(states, events, i, j - 1);
      ClosedOneMore(states, events, j - 1, j);
    }
  }

  lemma {:induction false} ClosedOneMore<V>(states: seq<Chan<V>>, events: seq<Event<V>>, i: nat, j: nat)
    requires Run(states, events) && j == i + 1 < |states| && states[i].closed
    ensures states[j].closed && Sends(events[..j]) == Sends(events[..i])
  {
    assert Next(states[i], events[i], states[i + 1]);
    ClosedStays(states[i], events[i], states[j]);
    SendsSnoc(events[..i], events[i]);
    assert events[..j] == events[..i] + [events[i]];
  }

  lemma {:induction false} ClosedStays<V>(s: Chan<V>, e: Event<V>, s': Chan<V>)
    requires Next(s, e, s') && s.closed
    ensures s'.closed && SentBy(e) == []
  {
  }

  lemma {:induction false} SendsSnoc<V>(es: seq<Event<V>>, e: Event<V>)
    ensures Sends(es + [e]) == Sends(es) + SentBy(e)
  {
    assert (es + [e])[..|es|] == es;
  }

  /** A receive reports end-of-channel only when every value that was ever sent, so
      far or later in the run, has already been received. */
  lemma {:induction false} ReceiveFailsOnlyWhenDrained<V>(states: seq<Chan<V>>, events: seq<Event<V>>, i: nat)
    requires Run(states, events) && i < |events|
    requires events[i].ReceiveEvent? && events[i].result.Failed?
    ensures states[i].closed && Sends(events) == Receipts(events[..i])
  {
    assert Next(states[i], events[i], states[i + 1]);
    FifoRefinement(states, events, i);
    NoSendAfterClose(states, events, i, |events|);
    assert events[..|events|] == events;
  }

  /** The k-th value received over a whole run is the k-th value sent, and the
      receivers are never more than a buffer behind. */
  lemma {:induction false} ReceivedInSendOrder<V>(states: seq<Chan<V>>, events: seq<Event<V>>)
    requires Run(states, events)
    ensures Receipts(events) <= Sends(events)
    ensures |Sends(events)| - |Receipts(events)| <= states[0].capacity
  {
    FifoRefinement(states, events, |events|);
    assert events[..|events|] == events;
    CapacityFixed(states, events, |events|);
  }

  lemma {:induction false} CapacityFixed<V>(states: seq<Chan<V>>, events: seq<Event<V>>, i: nat)
    requires Run(states, events) && i < |states|
    ensures states[i].capacity == states[0].capacity
  {
    if i > 0 {
      CapacityFixed(states, events, i - 1);
      assert Next(states[i - 1], events[i - 1], states[i]);
    }
  }

  // ----- the object --------------------------------------------------------

  /** The channel object.  `threads` stands for the operating system's record of who
      waits on which condition variable; the other fields are those of the struct. */
  class ChannelObject<V> {
    const capacity: nat
    const buffer: array<V>
    var head: nat
    var tail: nat
    var count: nat
    var closed: bool
    var threads: seq<Phase<V>>

    ghost function View(): Chan<V>
      reads this, buffer
    {
      Chan(capacity, buffer[..], head, tail, count, closed, threads)
    }

    constructor (capacity: nat, zero: V, threadCount: nat)
      ensures Init(View()) && fresh(buffer) && |threads| == threadCount
      ensures this.capacity == if capacity == 0 then 1 else capacity
    {
      var cap := if capacity == 0 then 1 else capacity;
      this.capacity := cap;
      buffer := new V[cap](i => zero);
      head, tail, count, closed := 0, 0, 0, false;
      threads := seq(threadCount, i => Idle);
    }

    method Send(t: nat, v: V) returns (r: Outcome<V>)
      requires Shape(View()) && t < |threads|
      modifies this, buffer
      ensures SendRegion(old(View()), View(), t, v, r)
    {
      if count == capacity && !closed {
        threads := threads[t := SendAsleep(v)];
        return Blocked;
      }
      threads := threads[t := Idle];
      if closed {
        return Failed;
      }
      buffer[tail] := v;
      tail := (tail + 1) % capacity;
      count := count + 1;
      threads := PickSignalled(threads, ReceiverAsleep, WakeReceiver);
      return Sent;
    }

    method Receive(t: nat) returns (r: Outcome<V>)
      requires Shape(View()) && t < |threads|
      modifies this
      ensures ReceiveRegion(old(View()), View(), t, r)
    {
      if count == 0 && !closed {
        threads := threads[t := ReceiveAsleep];
        return Blocked;
      }
      threads := threads[t := Idle];
      if count == 0 && closed {
        return Failed;
      }
      r := Got(buffer[head]);
      head := (head + 1) % capacity;
      count := count - 1;
      threads := PickSignalled(threads, SenderAsleep, WakeSender);
    }

    method Close()
      modifies this
      ensures View() == Closed(old(View()))
    {
      closed := true;
      threads := Broadcast(threads, SenderAsleep, WakeSender);
      threads := Broadcast(threads, ReceiverAsleep, WakeReceiver);
    }
  }
}
