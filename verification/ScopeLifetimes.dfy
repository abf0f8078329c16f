/** How long a block of the scope allocator lives, runtime/src/memory.c: from its allocation until its
    scope or one around it is destroyed, or it is freed from its scope or one inside it. */
module ScopeLifetimes {
  import opened ScopeMemory

  ghost predicate InScope(m: Mem, i: nat, p: nat) { i < |m.regs| && p in m.regs[i] }

  lemma {:induction false} InScopeIsLive(m: Mem, i: nat, p: nat)
    requires Inv(m) && InScope(m, i, p)
    ensures p in m.live && p != 0
  {
    OwnedBlockIsLive(m.regs, i, p);
  }

  lemma {:induction false} RegisteredTwice(regs: seq<seq<nat>>, i: nat, j: nat, p: nat)
    requires i < j < |regs| && p in regs[i] && p in regs[j]
    ensures Registered(regs)[p] >= 2
  {
    RegisteredUpdate(regs, j, [], p);
    var less := regs[j := []];
    OwnedBlockIsLive(less, i, p);
    assert multiset(regs[j])[p] >= 1 && multiset([])[p] == 0;
  }

  /** A live block belongs to one scope. */
  lemma {:induction false} OneScope(m: Mem, i: nat, j: nat, p: nat)
    requires Inv(m) && InScope(m, i, p) && InScope(m, j, p)
    ensures i == j
  {
    if i < j {
      RegisteredTwice(m.regs, i, j, p);
    } else if j < i {
      RegisteredTwice(m.regs, j, i, p);
    }
  }

  lemma {:induction false} LiveInSomeScope(regs: seq<seq<nat>>, p: nat) returns (i: nat)
    requires p in Registered(regs)
    ensures i < |regs| && p in regs[i]
  {
    var n := |regs| - 1;
    if p in regs[n] {
      i := n;
    } else {
      i := LiveInSomeScope(regs[..n], p);
    }
  }

  lemma {:induction false} RemovedOnce(reg: seq<nat>, k: nat, q: nat)
    requires k < |reg| && q in reg && q != reg[k]
    ensures q in SwapRemove(reg, k)
  {
    SwapRemoveTakesOne(reg, k, q);
    assert multiset(SwapRemove(reg, k))[q] == multiset(reg)[q];
    assert q in multiset(reg);
    assert q in multiset(SwapRemove(reg, k));
  }

  /** The call ends the life of block p of scope i. */
  predicate EndsLife(op: Op, i: nat, p: nat) {
    match op
    case Destroy(j) => j <= i
    case Release(j, q) => q == p && j >= i
    case _ => false
  }

  lemma {:induction false} ReleaseSpares(m: Mem, j: nat, q: nat, i: nat, p: nat)
    requires Inv(m) && InScope(m, i, p) && j < |m.regs| && !(q == p && j >= i)
    ensures InScope(Apply(m, Release(j, q)), i, p)
  {
    var k := if q == 0 then |m.regs| else Owner(m.regs, j, q);
    if k < |m.regs| {
      if q == p {
        OneScope(m, i, k, p);
      } else if k == i {
        RemovedOnce(m.regs[k], IndexOf(m.regs[k], q), p);
      }
    }
  }

  lemma {:induction false} ReleaseEnds(m: Mem, j: nat, i: nat, p: nat)
    requires Inv(m) && InScope(m, i, p) && i <= j < |m.regs|
    ensures Apply(m, Release(j, p)).live == m.live - multiset{p}
    ensures Apply(m, Release(j, p)).frees == m.frees + multiset{p}
  {
    InScopeIsLive(m, i, p);
    assert Owner(m.regs, j, p) < |m.regs|;
  }

  lemma {:induction false} DestroyEnds(m: Mem, j: nat, i: nat, p: nat)
    requires Inv(m) && InScope(m, i, p) && j <= i
    ensures Apply(m, Destroy(j)).live[p] == 0 && Apply(m, Destroy(j)).frees[p] == m.frees[p] + 1
  {
    var inner := m.regs[j..];
    InScopeIsLive(m, i, p);
    assert inner[i - j] == m.regs[i];
    OwnedBlockIsLive(inner, i - j, p);
    DestroyKeepsInv(m, j);
    assert Registered(inner)[p] <= m.live[p] <= 1;
  }

  /** One call: a block stays in its scope, unless the call destroys that scope or one around it, or
      frees the block from that scope or one inside it; and then it is freed, once. */
  lemma {:induction false} OneCall(m: Mem, op: Op, i: nat, p: nat)
    requires Inv(m) && Allowed(m, op) && InScope(m, i, p)
    ensures EndsLife(op, i, p) ==> Apply(m, op).live[p] == 0 && Apply(m, op).frees[p] == m.frees[p] + 1
    ensures !EndsLife(op, i, p) ==> InScope(Apply(m, op), i, p)
  {
    match op
    case Create =>
    case Alloc(j, q) =>
    case Release(j, q) =>
      if EndsLife(op, i, p) {
        InScopeIsLive(m, i, p);
        ReleaseEnds(m, j, i, p);
      } else {
        ReleaseSpares(m, j, q, i, p);
      }
    case Destroy(j) =>
      if j <= i {
        DestroyEnds(m, j, i, p);
      }
  }

  /** Over every sequence of calls: from its allocation on a block is live as long as no call has ended
      its life, and the first call that does so frees it. */
  lemma {:induction false} BlockLivesExactly(ms: seq<Mem>, ops: seq<Op>, n: nat, m: nat, i: nat, p: nat)
    requires Calls(ms, ops) && n < m < |ms| && ops[n] == Alloc(i, p)
    requires forall k :: n < k < m ==> !EndsLife(ops[k], i, p)
    ensures InScope(ms[m], i, p) && p in ms[m].live
    ensures m < |ops| && EndsLife(ops[m], i, p) ==>
              ms[m + 1].live[p] == 0 && ms[m + 1].frees[p] == ms[m].frees[p] + 1
    decreases m
  {
    EveryCallSequenceIsSafe(ms, ops, m);
    if m == n + 1 {
      assert ms[m] == Apply(ms[n], Alloc(i, p));
    } else {
      BlockLivesExactly(ms, ops, n, m - 1, i, p);
      EveryCallSequenceIsSafe(ms, ops, m - 1);
      OneCall(ms[m - 1], ops[m - 1], i, p);
    }
    InScopeIsLive(ms[m], i, p);
    if m < |ops| {
      OneCall(ms[m], ops[m], i, p);
    }
  }

  /** Only allocation makes a block live, and no call but the ending ones ends a life. */
  lemma {:induction false} NothingElseChanges(m: Mem, op: Op, p: nat)
    requires Inv(m) && Allowed(m, op)
    ensures p !in m.live && p in Apply(m, op).live ==> op.Alloc? && op.p == p && InScope(Apply(m, op), op.i, p)
    ensures p in m.live && p !in Apply(m, op).live ==> exists i :: InScope(m, i, p) && EndsLife(op, i, p)
  {
    if p in m.live && p !in Apply(m, op).live {
      var i := LiveInSomeScope(m.regs, p);
      OneCall(m, op, i, p);
      CallKeepsInv(m, op);
      if InScope(Apply(m, op), i, p) {
        InScopeIsLive(Apply(m, op), i, p);
      }
    }
  }

  /** A new scope is innermost and empty. */
  lemma {:induction false} NewScopeIsInnermost(ms: seq<Mem>, ops: seq<Op>, n: nat)
    requires Calls(ms, ops) && n < |ops|
    ensures |ms[n + 1].regs| == (match ops[n]
                                 case Create => |ms[n].regs| + 1
                                 case Destroy(i) => i
                                 case _ => |ms[n].regs|)
    ensures ops[n].Create? ==> ms[n + 1].regs[|ms[n].regs|] == [] && ms[n + 1].live == ms[n].live
  {
    assert ms[n + 1] == Apply(ms[n], ops[n]);
  }
}
