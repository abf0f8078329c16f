/** The scope allocator of runtime/src/memory.c.

    Scopes nest LIFO, so the open scopes of one behavior invocation form a chain from
    the root to the innermost scope.  `Mem` is the allocator as a value: the registry of
    each open scope, root first, and what malloc and free have been asked for blocks. */
module ScopeMemory {

  datatype Mem = Mem(
    regs: seq<seq<nat>>,        // regs[i]: blocks registered in the i-th open scope
    live: multiset<nat>,        // blocks obtained from malloc and not yet freed
    mallocs: multiset<nat>,     // every malloc so far
    frees: multiset<nat>)       // every free so far

  datatype Op =
    | Create                    // sigil_scope_create under the innermost open scope
    | Alloc(i: nat, p: nat)     // sigil_scope_alloc in scope i; malloc returned p
    | Release(i: nat, p: nat)   // sigil_scope_free from scope i
    | Destroy(i: nat)           // sigil_scope_destroy of scope i

  // ----- the operations on values ---------------------------------------------

  /** All registered blocks, with multiplicity. */
  function Registered(regs: seq<seq<nat>>): multiset<nat> {
    if regs == [] then multiset{}
    else Registered(regs[..|regs| - 1]) + multiset(regs[|regs| - 1])
  }

  function IndexOf(reg: seq<nat>, p: nat): (k: nat)
    ensures k <= |reg|
    ensures k < |reg| ==> reg[k] == p
    ensures forall j :: 0 <= j < k ==> reg[j] != p
  {
    if reg == [] || reg[0] == p then 0 else 1 + IndexOf(reg[1..], p)
  }

  function SwapRemove(reg: seq<nat>, k: nat): seq<nat>
    requires k < |reg|
  {
    reg[k := reg[|reg| - 1]][..|reg| - 1]
  }

  /** The scope a FREE from scope i finds: the nearest enclosing one that registers p.
      Result |regs| when there is none. */
  function Owner(regs: seq<seq<nat>>, i: nat, p: nat): (j: nat)
    requires i < |regs|
    ensures j <= |regs|
    ensures j < |regs| ==> j <= i && p in regs[j]
    ensures j == |regs| ==> forall k :: 0 <= k <= i ==> p !in regs[k]
    ensures j < |regs| ==> forall k :: j < k <= i ==> p !in regs[k]
  {
    if p in regs[i] then i
    else if i == 0 then |regs|
    else Owner(regs, i - 1, p)
  }

  function Freed(m: Mem, p: nat): Mem {
    m.(live := m.live - multiset{p}, frees := m.frees + multiset{p})
  }

  /** Arguments a caller may pass, and what malloc may return. */
  predicate Allowed(m: Mem, op: Op) {
    match op
    case Create => true
    case Alloc(i, p) => i < |m.regs| && p != 0 && p !in m.live
    case Release(i, p) => i < |m.regs|
    case Destroy(i) => i < |m.regs|
  }

  function Apply(m: Mem, op: Op): Mem
    requires Allowed(m, op)
  {
    match op
    case Create => m.(regs := m.regs + [[]])
    case Alloc(i, p) =>
      m.(regs := m.regs[i := m.regs[i] + [p]],
         live := m.live + multiset{p}, mallocs := m.mallocs + multiset{p})
    case Release(i, p) =>
      var j := if p == 0 then |m.regs| else Owner(m.regs, i, p);
      if j == |m.regs| then m
      else Freed(m, p).(regs := m.regs[j := SwapRemove(m.regs[j], IndexOf(m.regs[j], p))])
    case Destroy(i) =>
      var gone := Registered(m.regs[i..]);
      m.(regs := m.regs[..i], live := m.live - gone, frees := m.frees + gone)
  }

  // ----- every sequence of calls ------------------------------------------------

  /** Live blocks are the disjoint union of the registries on the open chain; nothing is
      lost or freed twice. */
  ghost predicate Inv(m: Mem) {
    && m.live == Registered(m.regs)
    && (forall p :: m.live[p] <= 1)
    && m.mallocs == m.frees + m.live
    && 0 !in m.live
  }

  const Empty := Mem([], multiset{}, multiset{}, multiset{})

  lemma {:induction false} RegisteredUpdate(regs: seq<seq<nat>>, i: nat, r: seq<nat>, p: nat)
    requires i < |regs|
    ensures Registered(regs[i := r])[p] + multiset(regs[i])[p] == Registered(regs)[p] + multiset(r)[p]
  {
    var n := |regs| - 1;
    if i == n {
      assert regs[i := r][..n] == regs[..n];
    } else {
      assert regs[i := r][..n] == regs[..n][i := r];
      RegisteredUpdate(regs[..n], i, r, p);
    }
  }

  lemma {:induction false} RegisteredSplit(regs: seq<seq<nat>>, i: nat)
    requires i <= |regs|
    ensures Registered(regs) == Registered(regs[..i]) + Registered(regs[i..])
  {
    if i == |regs| {
      assert regs[..i] == regs;
    } else {
      var n := |regs| - 1;
      RegisteredSplit(regs[..n], i);
      assert regs[..n][..i] == regs[..i];
      assert regs[i..][..n - i] == regs[..n][i..];
      UnionRegroups(Registered(regs[..i]), Registered(regs[..n][i..]), multiset(regs[n]));
    }
  }

  lemma {:induction false} UnionRegroups(a: multiset<nat>, b: multiset<nat>, c: multiset<nat>)
    ensures (a + b) + c == a + (b + c)
  {
  }

  lemma {:induction false} SwapRemoveTakesOne(reg: seq<nat>, k: nat, p: nat)
    requires k < |reg|
    ensures multiset(SwapRemove(reg, k))[p] + multiset{reg[k]}[p] == multiset(reg)[p]
  {
    var n := |reg| - 1;
    var moved := reg[k := reg[n]];
    assert moved == moved[..n] + [reg[n]];
    assert multiset(moved)[p] == multiset(moved[..n])[p] + multiset{reg[n]}[p];
    assert multiset(moved) == multiset(reg) - multiset{reg[k]} + multiset{reg[n]};
  }

  lemma {:induction false} OwnedBlockIsLive(regs: seq<seq<nat>>, j: nat, p: nat)
    requires j < |regs| && p in regs[j]
    ensures p in Registered(regs)
  {
    RegisteredUpdate(regs, j, [], p);
    assert p in multiset(regs[j]);
  }

  lemma {:induction false} AllocKeepsInv(m: Mem, i: nat, p: nat)
    requires Inv(m) && Allowed(m, Alloc(i, p))
    ensures Inv(Apply(m, Alloc(i, p)))
  {
    var r := m.regs[i] + [p];
    forall q ensures Registered(m.regs[i := r])[q] == (m.live + multiset{p})[q] {
      RegisteredUpdate(m.regs, i, r, q);
    }
    assert Registered(m.regs[i := r]) == m.live + multiset{p};
  }

  lemma {:induction false} ReleaseKeepsInv(m: Mem, i: nat, p: nat)
    requires Inv(m) && Allowed(m, Release(i, p))
    ensures Inv(Apply(m, Release(i, p)))
    ensures Apply(m, Release(i, p)) != m ==> p in m.live
  {
    var j := if p == 0 then |m.regs| else Owner(m.regs, i, p);
    if j < |m.regs| {
      OwnedBlockIsLive(m.regs, j, p);
      ReleasedRegistry(m.regs, j, p);
    }
  }

  lemma {:induction false} ReleasedRegistry(regs: seq<seq<nat>>, j: nat, p: nat)
    requires j < |regs| && p in regs[j]
    ensures IndexOf(regs[j], p) < |regs[j]|
    ensures Registered(regs[j := SwapRemove(regs[j], IndexOf(regs[j], p))]) == Registered(regs) - multiset{p}
  {
    var k := IndexOf(regs[j], p);
    var r := SwapRemove(regs[j], k);
    forall q ensures Registered(regs[j := r])[q] == (Registered(regs) - multiset{p})[q] {
      SwapRemoveTakesOne(regs[j], k, q);
      RegisteredUpdate(regs, j, r, q);
    }
  }

  lemma {:induction false} DestroyKeepsInv(m: Mem, i: nat)
    requires Inv(m) && Allowed(m, Destroy(i))
    ensures Inv(Apply(m, Destroy(i)))
    ensures Registered(m.regs[i..]) <= m.live
  {
    RegisteredSplit(m.regs, i);
  }

  /** One call keeps the invariant, and every block it hands to free is live at that
      moment, also for repeated and unknown FREEs. */
  lemma {:induction false} CallKeepsInv(m: Mem, op: Op)
    requires Inv(m) && Allowed(m, op)
    ensures Inv(Apply(m, op))
    ensures m.frees <= Apply(m, op).frees && Apply(m, op).frees - m.frees <= m.live
  {
    match op
    case Create => assert (m.regs + [[]])[..|m.regs|] == m.regs;
    case Alloc(i, p) => AllocKeepsInv(m, i, p);
    case Release(i, p) => ReleaseKeepsInv(m, i, p);
    case Destroy(i) => DestroyKeepsInv(m, i);
  }

  ghost predicate Calls(ms: seq<Mem>, ops: seq<Op>) {
    && |ms| == |ops| + 1 && ms[0] == Empty
    && forall i {:trigger ops[i]} :: 0 <= i < |ops| ==> Allowed(ms[i], ops[i]) && ms[i + 1] == Apply(ms[i], ops[i])
  }

  lemma {:induction false} EveryCallSequenceIsSafe(ms: seq<Mem>, ops: seq<Op>, n: nat)
    requires Calls(ms, ops) && n < |ms|
    ensures Inv(ms[n])
    ensures n < |ops| ==> ms[n + 1].frees - ms[n].frees <= ms[n].live
  {
    if n > 0 {
      EveryCallSequenceIsSafe(ms, ops, n - 1);
      CallKeepsInv(ms[n - 1], ops[n - 1]);
    }
    if n < |ops| {
      CallKeepsInv(ms[n], ops[n]);
    }
  }

  /** Destroying the root frees everything, orphaned descendants included: the blocks
      handed to free are then exactly the blocks obtained from malloc, once each. */
  lemma {:induction false} RootDestroyFreesEverythingOnce(ms: seq<Mem>, ops: seq<Op>)
    requires Calls(ms, ops) && ops != [] && ops[|ops| - 1] == Destroy(0)
    ensures var last := ms[|ops|];
      last.regs == [] && last.live == multiset{} && last.frees == last.mallocs
  {
    EveryCallSequenceIsSafe(ms, ops, |ops|);
    var last := ms[|ops|];
    assert last == Apply(ms[|ops| - 1], ops[|ops| - 1]);
    assert last.regs == [];
  }

  /** A second FREE of a block that has not been handed out again does nothing. */
  lemma {:induction false} SecondReleaseDoesNothing(m: Mem, i: nat, k: nat, p: nat)
    requires Inv(m) && i < |m.regs| && k < |m.regs|
    ensures Allowed(m, Release(i, p)) && Allowed(Apply(m, Release(i, p)), Release(k, p))
    ensures Apply(m, Release(i, p)) != m ==>
              Apply(Apply(m, Release(i, p)), Release(k, p)) == Apply(m, Release(i, p))
  {
    ReleaseKeepsInv(m, i, p);
    var m' := Apply(m, Release(i, p));
    if m' != m {
      assert m'.live[p] == 0;
      var j := Owner(m'.regs, k, p);
      if p != 0 && j < |m'.regs| {
        OwnedBlockIsLive(m'.regs, j, p);
      }
    }
  }

  // ----- the objects --------------------------------------------------------------

  /** malloc and free.  Freeing demands a live block; malloc may return any address that
      is not live, so a freed address may come back. */
  class Malloc {
    ghost var live: multiset<nat>
    ghost var mallocs: multiset<nat>
    ghost var frees: multiset<nat>
    var next: nat

    ghost predicate Valid()
      reads this
    {
      0 < next && forall p :: p in live ==> p < next
    }

    constructor ()
      ensures Valid() && live == mallocs == frees == multiset{}
    {
      live, mallocs, frees, next := multiset{}, multiset{}, multiset{}, 1;
    }

    method Allocate() returns (p: nat)
      requires Valid()
      modifies this
      ensures Valid() && p != 0 && p !in old(live)
      ensures live == old(live) + multiset{p} && mallocs == old(mallocs) + multiset{p} && frees == old(frees)
    {
      p := next;
      next := next + 1;
      live, mallocs := live + multiset{p}, mallocs + multiset{p};
    }

    method Free(p: nat)
      requires Valid() && p in live
      modifies this
      ensures Valid() && mallocs == old(mallocs)
      ensures live == old(live) - multiset{p} && frees == old(frees) + multiset{p}
    {
      live, frees := live - multiset{p}, frees + multiset{p};
    }
  }

  lemma {:induction false} FreeOneMore(live: multiset<nat>, frees: multiset<nat>, reg: seq<nat>, k: nat)
    requires multiset(reg) <= live && k < |reg|
    ensures reg[k] in live - multiset(reg[..k])
    ensures live - multiset(reg[..k]) - multiset{reg[k]} == live - multiset(reg[..k + 1])
    ensures frees + multiset(reg[..k]) + multiset{reg[k]} == frees + multiset(reg[..k + 1])
  {
    assert reg[..k + 1] == reg[..k] + [reg[k]];
    assert multiset(reg[..k + 1]) == multiset(reg[..k]) + multiset{reg[k]};
    assert reg == reg[..k + 1] + reg[k + 1..];
    assert multiset(reg)[reg[k]] >= multiset(reg[..k + 1])[reg[k]];
  }

  lemma {:induction false} RemoveTwice(live: multiset<nat>, a: multiset<nat>, b: multiset<nat>)
    ensures (live - b) - a == live - (a + b)
  {
    forall p ensures ((live - b) - a)[p] == (live - (a + b))[p] {
    }
  }

  /** The open scopes after the open child of scope i, if any, has been destroyed. */
  function ChildGone(m: Mem, i: nat): Mem
    requires i < |m.regs|
  {
    if i + 1 < |m.regs| then Apply(m, Destroy(i + 1)) else m
  }

  lemma {:induction false} RegisteredOne(r: seq<nat>)
    ensures Registered([r]) == multiset(r)
  {
    assert [r][..0] == [];
  }

  /** Destroying scope i: first its open child, then its own registry. */
  lemma {:induction false} DestroyChildFirst(m: Mem, i: nat)
    requires i < |m.regs|
    ensures var m1 := ChildGone(m, i);
      && |m1.regs| == i + 1 && m1.regs[i] == m.regs[i] && m1.regs[..i] == m.regs[..i]
      && Apply(m, Destroy(i)) == Mem(m.regs[..i], m1.live - multiset(m.regs[i]),
                                     m1.mallocs, m1.frees + multiset(m.regs[i]))
  {
    var r, rest := m.regs[i], Registered(m.regs[i + 1..]);
    var tail := m.regs[i..];
    RegisteredSplit(tail, 1);
    RegisteredOne(r);
    assert tail[..1] == [r] && tail[1..] == m.regs[i + 1..];
    assert Registered(tail) == multiset(r) + rest;
    RemoveTwice(m.live, multiset(r), rest);
    UnionRegroups(m.frees, rest, multiset(r));
    assert rest + multiset(r) == multiset(r) + rest;
    if i + 1 == |m.regs| {
      assert rest == multiset{};
      assert m.live - multiset{} == m.live && m.frees + multiset{} == m.frees;
    }
  }

  /** The registry about to be freed is live. */
  /** Destroying a scope is destroying its open child and then freeing its own blocks. */
  lemma {:induction false} DestroyInTwo(m: Mem, i: nat)
    requires Inv(m) && i < |m.regs|
    ensures var m1 := ChildGone(m, i);
      && |m1.regs| == i + 1 && multiset(m1.regs[i]) <= m1.live
      && Apply(m, Destroy(i)) == Mem(m1.regs[..i], m1.live - multiset(m1.regs[i]),
                                     m1.mallocs, m1.frees + multiset(m1.regs[i]))
  {
    ChildGoneKeepsInv(m, i);
    DestroyChildFirst(m, i);
  }

  lemma {:induction false} ChildGoneKeepsInv(m: Mem, i: nat)
    requires Inv(m) && i < |m.regs|
    ensures Inv(ChildGone(m, i)) && i + 1 == |ChildGone(m, i).regs|
    ensures multiset(m.regs[i]) <= ChildGone(m, i).live
  {
    var m1 := ChildGone(m, i);
    if i + 1 < |m.regs| {
      DestroyKeepsInv(m, i + 1);
    }
    assert m1.regs[i] == m.regs[i];
    assert Registered(m1.regs) == Registered(m1.regs[..i]) + multiset(m1.regs[i]);
  }

  const SIGIL_SCOPE_INITIAL_CAP: nat := 8

  class Scope {
    var allocs: seq<nat>       // the registry array, capacity elements long
    var count: nat
    var capacity: nat
    var parent: Scope?
    var openChild: Scope?

    ghost predicate Valid()
      reads this
    {
      0 < capacity == |allocs| && count <= capacity
    }

    /** The registered blocks, in array order. */
    ghost function Registry(): seq<nat>
      requires Valid()
      reads this
    {
      allocs[..count]
    }

    constructor (parent: Scope?)
      ensures Valid() && Registry() == []
      ensures this.parent == parent && openChild == null
    {
      allocs := seq(SIGIL_SCOPE_INITIAL_CAP, _ => 0);
      count, capacity := 0, SIGIL_SCOPE_INITIAL_CAP;
      this.parent := parent;
      openChild := null;
    }

    /** Appends a block, doubling the array when it is full. */
    method Register(p: nat)
      requires Valid()
      modifies this`allocs, this`count, this`capacity
      ensures Valid() && Registry() == old(Registry()) + [p]
    {
      if count == capacity {
        allocs := allocs + seq(capacity, _ => 0);
        capacity := capacity * 2;
      }
      allocs := allocs[count := p];
      count := count + 1;
    }

    /** First position of a block in the registry, or count. */
    method Find(p: nat) returns (k: nat)
      requires Valid()
      ensures k == IndexOf(Registry(), p)
    {
      k := 0;
      while k < count && allocs[k] != p
        invariant k <= count && forall j :: 0 <= j < k ==> allocs[j] != p
      {
        k := k + 1;
      }
    }

    /** The loop of sigil_scope_destroy: every registered block is freed, in order. */
    method FreeRegistry(heap: Malloc)
      requires Valid() && heap.Valid() && multiset(Registry()) <= heap.live
      modifies heap
      ensures heap.Valid() && heap.mallocs == old(heap.mallocs)
      ensures heap.live == old(heap.live) - multiset(Registry())
      ensures heap.frees == old(heap.frees) + multiset(Registry())
    {
      ghost var reg, live, frees := Registry(), heap.live, heap.frees;
      assert multiset(reg[..0]) == multiset{};
      for k := 0 to count
        invariant heap.Valid() && heap.mallocs == old(heap.mallocs)
        invariant heap.live == live - multiset(reg[..k]) && heap.frees == frees + multiset(reg[..k])
      {
        FreeOneMore(live, frees, reg, k);
        heap.Free(allocs[k]);
      }
      assert reg[..count] == reg;
    }

    method Unregister(k: nat)
      requires Valid() && k < count
      modifies this`allocs, this`count
      ensures Valid() && Registry() == SwapRemove(old(Registry()), k)
    {
      allocs := allocs[k := allocs[count - 1]];
      count := count - 1;
    }
  }

  /** One behavior invocation: its heap and its chain of open scopes, root first. */
  class Invocation {
    const heap: Malloc
    ghost var chain: seq<Scope>
    ghost var regs: seq<seq<nat>>

    ghost function View(): Mem
      reads this, heap
    {
      Mem(regs, heap.live, heap.mallocs, heap.frees)
    }

    /** Each scope on the chain stores its registry, and the scopes are linked both ways
        along the chain. */
    ghost predicate Valid()
      reads this, heap, chain
    {
      && heap.Valid() && |regs| == |chain|
      && (forall i, j :: 0 <= i < j < |chain| ==> chain[i] != chain[j])
      && (forall i :: 0 <= i < |chain| ==> chain[i].Valid() && chain[i].Registry() == regs[i])
      && (forall i {:trigger chain[i].parent} :: 0 <= i < |chain| ==>
            chain[i].parent == if i == 0 then null else chain[i - 1])
      && (forall i {:trigger chain[i].openChild} :: 0 <= i < |chain| ==>
            chain[i].openChild == if i + 1 == |chain| then null else chain[i + 1])
    }

    constructor ()
      ensures Valid() && fresh(heap) && chain == [] && View() == Empty
    {
      heap := new Malloc();
      chain, regs := [], [];
    }

    method CreateScope(parent: Scope?) returns (s: Scope)
      requires Valid() && parent == if chain == [] then null else chain[|chain| - 1]
      modifies this, chain
      ensures fresh(s) && chain == old(chain) + [s]
      ensures Valid() && View() == Apply(old(View()), Create)
    {
      s := new Scope(parent);
      if parent != null {
        parent.openChild := s;
      }
      chain, regs := chain + [s], regs + [[]];
    }

    method AllocIn(s: Scope, ghost i: nat) returns (p: nat)
      requires Valid() && i < |chain| && s == chain[i]
      modifies this, heap, s
      ensures chain == old(chain)
      ensures Allowed(old(View()), Alloc(i, p)) && Valid() && View() == Apply(old(View()), Alloc(i, p))
    {
      p := heap.Allocate();
      s.Register(p);
      regs := regs[i := regs[i] + [p]];
    }

    /** sigil_scope_free: search from s up the parent links. */
    method FreeFrom(s: Scope, ghost i: nat, p: nat)
      requires Valid() && Inv(View()) && i < |chain| && s == chain[i]
      modifies this, heap, chain
      ensures chain == old(chain)
      ensures Valid() && View() == Apply(old(View()), Release(i, p))
    {
      if p == 0 {
        return;
      }
      var scope, k, j := FindOwner(s, i, p);
      if scope != null {
        OwnedBlockIsLive(regs, j, p);
        ReleaseOwned(View(), i, p);
        Drop(scope, j, k, p);
      }
    }

    /** The nearest scope, from s upwards, whose registry has p. */
    method FindOwner(s: Scope, ghost i: nat, p: nat) returns (scope: Scope?, k: nat, ghost j: nat)
      requires Valid() && i < |chain| && s == chain[i]
      ensures j == Owner(regs, i, p)
      ensures scope == null <==> j == |regs|
      ensures scope != null ==> scope == chain[j] && k == IndexOf(regs[j], p) && p in regs[j]
    {
      scope, k := s, 0;
      ghost var at: int := i;
      while scope != null
        invariant -1 <= at <= i && scope == if at < 0 then null else chain[at]
        invariant forall m :: at < m <= i ==> p !in regs[m]
        decreases at
      {
        k := scope.Find(p);
        if k < scope.count {
          OwnerIs(regs, i, at, p);
          return scope, k, at;
        }
        scope := scope.parent;
        at := at - 1;
      }
      j := Owner(regs, i, p);
    }

    /** sigil_scope_destroy: destroy the open child first, then free, then unlink. */
    method DestroyScope(s: Scope, ghost i: nat)
      requires Valid() && Inv(View()) && i < |chain| && s == chain[i]
      modifies this, heap, chain
      ensures chain == old(chain)[..i]
      ensures Valid() && View() == Apply(old(View()), Destroy(i))
      decreases |chain| - i, 1
    {
      DestroyInTwo(View(), i);
      DestroyOpenChild(s, i);
      DestroyInnermost(s, i);
    }

    method DestroyOpenChild(s: Scope, ghost i: nat)
      requires Valid() && Inv(View()) && i < |chain| && s == chain[i]
      modifies this, heap, chain
      ensures chain == old(chain)[..i + 1]
      ensures Valid() && View() == ChildGone(old(View()), i)
      decreases |chain| - i, 0
    {
      if s.openChild != null {
        DestroyScope(s.openChild, i + 1);
      }
    }

    method DestroyInnermost(s: Scope, ghost i: nat)
      requires Valid() && i + 1 == |chain| && s == chain[i] && multiset(regs[i]) <= heap.live
      modifies this, heap, chain
      ensures chain == old(chain)[..i] && Valid()
      ensures View() == Mem(old(regs)[..i], old(heap.live) - multiset(old(regs)[i]),
                            old(heap.mallocs), old(heap.frees) + multiset(old(regs)[i]))
    {
      s.FreeRegistry(heap);
      Unlink(s, i);
    }

    /** Unlinks the innermost scope. */
    method Unlink(s: Scope, ghost i: nat)
      requires Valid() && i + 1 == |chain| && s == chain[i]
      modifies this, chain
      ensures chain == old(chain)[..i] && Valid() && regs == old(regs)[..i]
    {
      if s.parent != null && s.parent.openChild == s {
        s.parent.openChild := null;
      }
      chain, regs := chain[..i], regs[..i];
    }

    method Drop(scope: Scope, ghost j: nat, k: nat, p: nat)
      requires Valid() && j < |chain| && scope == chain[j]
      requires p in heap.live && k < |regs[j]| && regs[j][k] == p
      modifies this, heap, scope
      ensures chain == old(chain) && Valid()
      ensures View() == Freed(old(View()), p).(regs := old(regs)[j := SwapRemove(old(regs)[j], k)])
    {
      heap.Free(p);
      scope.Unregister(k);
      regs := regs[j := SwapRemove(regs[j], k)];
    }
  }

  lemma {:induction false} ReleaseOwned(m: Mem, i: nat, p: nat)
    requires i < |m.regs| && p != 0 && Owner(m.regs, i, p) < |m.regs| && p in m.live
    ensures var j := Owner(m.regs, i, p); var k := IndexOf(m.regs[j], p);
      k < |m.regs[j]| && m.regs[j][k] == p
      && Apply(m, Release(i, p)) == Freed(m, p).(regs := m.regs[j := SwapRemove(m.regs[j], k)])
  {
  }

  lemma {:induction false} OwnerIs(regs: seq<seq<nat>>, i: nat, j: nat, p: nat)
    requires j <= i < |regs| && p in regs[j] && forall k :: j < k <= i ==> p !in regs[k]
    ensures Owner(regs, i, p) == j
  {
    if i > j { OwnerIs(regs, i - 1, j, p); }
  }
}
