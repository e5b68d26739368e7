/** The three usage patterns the crate documents for `DeadlockProofMutex`,
    stated over one thread's runs: exclusive, nested and sequential. */
module Patterns {
  import opened Permissions
  import opened Counting
  import opened Threads
  import Mutices

  /** The thread right after claiming its root token. */
  const Claimed: ThreadState := ThreadState(None, [Outer], [])

  lemma ClaimRoot()
    ensures Run(Start, [Get]) == Next(Claimed)
  {
    assert [Get][..0] == [];
  }

  // ---------------------------------------------------------------------
  // Exclusive: every mutex is claimed with the root token.

  /** Every mutex the calls claim expects `OuterMutexPermission`. */
  predicate ExclusiveOnly(ops: seq<Op>) {
    forall i :: 0 <= i < |ops| ==> (ops[i].Lock? || ops[i].LockForNested?) ==> ops[i].mutex.expects == Outer
  }

  predicate HoldsOnlyOuter(s: ThreadState) {
    forall i :: 0 <= i < |s.held| ==> s.held[i].permission == Outer
  }

  lemma WithoutKeeps<T>(s: seq<T>, k: nat, i: nat)
    requires k < |s| && i < |s| - 1
    ensures Without(s, k)[i] == if i < k then s[i] else s[i + 1]
  {
  }

  lemma {:induction false} ExclusiveRun(ops: seq<Op>)
    requires ExclusiveOnly(ops) && Run(Start, ops).Next?
    ensures HoldsOnlyOuter(Run(Start, ops).state)
    decreases |ops|
  {
    if ops != [] {
      var ops', op := ops[..|ops| - 1], ops[|ops| - 1];
      assert ExclusiveOnly(ops') by {
        forall i | 0 <= i < |ops'| ensures (ops'[i].Lock? || ops'[i].LockForNested?) ==> ops'[i].mutex.expects == Outer {
          assert ops'[i] == ops[i];
        }
      }
      ExclusiveRun(ops');
      var s := Run(Start, ops').state;
      assert op.Lock? || op.LockForNested? ==> op.mutex.expects == Outer by {
        assert op == ops[|ops| - 1];
      }
      var s' := Step(s, op).state;
      forall i | 0 <= i < |s'.held| ensures s'.held[i].permission == Outer {
        match op
        case Unlock(k) => WithoutKeeps(s.held, k, i);
        case UnlockForSequential(k) => WithoutKeeps(s.held, k, i);
        case NestedUnlock(k, _) => WithoutKeeps(s.held, k, i);
        case NestedUnlockForSequential(k) => WithoutKeeps(s.held, k, i);
        case DropGuard(k) => WithoutKeeps(s.held, k, i);
        case _ =>
      }
    }
  }

  /** With only root-claimed mutices, a thread never holds two at once. */
  lemma ExclusiveHoldsAtMostOne(ops: seq<Op>)
    requires ExclusiveOnly(ops) && Run(Start, ops).Next?
    ensures |Run(Start, ops).state.held| <= 1
  {
    var s := Run(Start, ops).state;
    ExclusiveRun(ops);
    RunKeepsInv(ops);
    CountAll(s.held, GuardOwnsRoot);
  }

  /** With only root-claimed mutices, a thread claims a mutex only while it
      holds none: it never waits for one mutex while holding another. */
  lemma ExclusiveNoHoldAndWait(ops: seq<Op>, op: Op)
    requires ExclusiveOnly(ops) && Run(Start, ops).Next?
    requires (op.Lock? || op.LockForNested?) && op.mutex.expects == Outer
    requires Compiles(Run(Start, ops).state, op)
    ensures Run(Start, ops).state.held == []
  {
    var s := Run(Start, ops).state;
    ExclusiveRun(ops);
    RunKeepsInv(ops);
    CountAll(s.held, GuardOwnsRoot);
    CountWithout(s.tokens, op.token, OwnsRoot);
  }

  // ---------------------------------------------------------------------
  // Chains of mutices, each expecting a token one level deeper.

  /** Each mutex of the chain expects a token one constructor deeper than the
      one before, starting from the root token. */
  predicate Deepening(chain: seq<Mutices.DeadlockProofMutex>) {
    && (|chain| > 0 ==> chain[0].expects == Outer)
    && forall k :: 1 <= k < |chain| ==> Depth(chain[k].expects) == Depth(chain[k - 1].expects) + 1
  }

  lemma {:induction false} ChainDepth(chain: seq<Mutices.DeadlockProofMutex>, k: nat)
    requires Deepening(chain) && k < |chain|
    ensures Depth(chain[k].expects) == k
  {
    if k > 0 {
      ChainDepth(chain, k - 1);
    }
  }

  // ---------------------------------------------------------------------
  // Nested: claimed with `lock_for_nested` in one order, released in reverse.

  /** `chain[k + 1]` expects the nested token minted by claiming `chain[k]`. */
  predicate NestedChain(chain: seq<Mutices.DeadlockProofMutex>) {
    && Mutices.DistinctIds(chain)
    && (|chain| > 0 ==> chain[0].expects == Outer)
    && forall k :: 1 <= k < |chain| ==> chain[k].expects == Nested(chain[k - 1].expects, chain[k - 1].id)
  }

  /** The free token once the first `m` mutices of the chain are held. */
  function NestedToken(chain: seq<Mutices.DeadlockProofMutex>, m: nat): Perm
    requires m <= |chain|
  {
    if m == 0 then Outer else Nested(chain[m - 1].expects, chain[m - 1].id)
  }

  function NestedGuards(chain: seq<Mutices.DeadlockProofMutex>, m: nat): seq<Mutices.Guard>
    requires m <= |chain|
  {
    seq(m, k requires 0 <= k < m => Mutices.NestedMutexGuard(chain[k].id, chain[k].expects))
  }

  /** The thread holding the first `m` mutices of the chain, oldest first. */
  function NestedState(chain: seq<Mutices.DeadlockProofMutex>, m: nat): ThreadState
    requires m <= |chain|
  {
    ThreadState(None, [NestedToken(chain, m)], NestedGuards(chain, m))
  }

  function NestedAcquireOps(chain: seq<Mutices.DeadlockProofMutex>, m: nat): seq<Op>
    requires m <= |chain|
  {
    if m == 0 then [] else NestedAcquireOps(chain, m - 1) + [LockForNested(chain[m - 1], 0)]
  }

  /** Releases the `m` innermost guards, innermost first. */
  function NestedReleaseOps(m: nat): seq<Op> {
    if m == 0 then [] else [NestedUnlock(m - 1, 0)] + NestedReleaseOps(m - 1)
  }

  lemma NestedTokenDepth(chain: seq<Mutices.DeadlockProofMutex>, m: nat)
    requires NestedChain(chain) && m <= |chain|
    ensures Depth(NestedToken(chain, m)) == m
  {
    if m > 0 {
      ChainDepth(chain, m - 1);
    }
  }

  /** While the first `m` are held, the only chain mutex the thread can claim
      is the next one, `chain[m]`, and only with the one free token. */
  lemma NestedOnlyNextLockable(chain: seq<Mutices.DeadlockProofMutex>, m: nat, op: Op)
    requires NestedChain(chain) && m <= |chain|
    requires (op.Lock? || op.LockForNested?) && op.mutex in chain
    requires Compiles(NestedState(chain, m), op)
    ensures m < |chain| && op.mutex == chain[m] && op.token == 0
  {
    var j :| 0 <= j < |chain| && chain[j] == op.mutex;
    ChainDepth(chain, j);
    NestedTokenDepth(chain, m);
    if j != m {
      assert false;
    }
  }

  lemma NestedAcquireNext(chain: seq<Mutices.DeadlockProofMutex>, m: nat)
    requires NestedChain(chain) && m < |chain|
    ensures Compiles(NestedState(chain, m), LockForNested(chain[m], 0))
    ensures Step(NestedState(chain, m), LockForNested(chain[m], 0)) == Next(NestedState(chain, m + 1))
  {
    assert NestedGuards(chain, m) + [Mutices.NestedMutexGuard(chain[m].id, chain[m].expects)] == NestedGuards(chain, m + 1);
  }

  /** While the first `m` are held, a nested guard can be released only if it
      is the innermost one, with the one free token: release is in reverse
      order of acquisition. */
  lemma NestedReleaseOrder(chain: seq<Mutices.DeadlockProofMutex>, m: nat, k: nat, t: nat)
    requires NestedChain(chain) && 0 < m <= |chain|
    ensures Compiles(NestedState(chain, m), NestedUnlock(k, t)) <==> k == m - 1 && t == 0
    ensures k == m - 1 && t == 0 ==>
      Step(NestedState(chain, m), NestedUnlock(k, t)) == Next(NestedState(chain, m - 1))
  {
    var s := NestedState(chain, m);
    if Compiles(s, NestedUnlock(k, t)) {
      assert s.tokens[t] == Nested(chain[k].expects, chain[k].id);
      ChainDepth(chain, k);
      NestedTokenDepth(chain, m);
    }
    if k == m - 1 && t == 0 {
      assert Without(NestedGuards(chain, m), m - 1) == NestedGuards(chain, m - 1);
      if m - 1 > 0 {
        assert chain[m - 1].expects == Nested(chain[m - 2].expects, chain[m - 2].id);
      }
    }
  }

  lemma {:induction false} NestedAcquireRun(chain: seq<Mutices.DeadlockProofMutex>, m: nat)
    requires NestedChain(chain) && m <= |chain|
    ensures Run(Claimed, NestedAcquireOps(chain, m)) == Next(NestedState(chain, m))
  {
    if m == 0 {
      assert NestedGuards(chain, 0) == [];
    } else {
      NestedAcquireRun(chain, m - 1);
      RunSnoc(Claimed, NestedAcquireOps(chain, m - 1), LockForNested(chain[m - 1], 0));
      NestedAcquireNext(chain, m - 1);
    }
  }

  lemma {:induction false} NestedReleaseRun(chain: seq<Mutices.DeadlockProofMutex>, m: nat)
    requires NestedChain(chain) && m <= |chain|
    ensures Run(NestedState(chain, m), NestedReleaseOps(m)) == Next(Claimed)
  {
    if m == 0 {
      assert NestedGuards(chain, 0) == [];
    } else {
      NestedReleaseOrder(chain, m, m - 1, 0);
      RunAppend(NestedState(chain, m), [NestedUnlock(m - 1, 0)], NestedReleaseOps(m - 1));
      RunSnoc(NestedState(chain, m), [], NestedUnlock(m - 1, 0));
      NestedReleaseRun(chain, m - 1);
    }
  }

  /** The nested pattern end to end: claiming the whole chain in order holds
      every mutex of it, oldest first, and releasing in reverse order gives
      the root token back. */
  lemma NestedPattern(chain: seq<Mutices.DeadlockProofMutex>)
    requires NestedChain(chain)
    ensures Run(Claimed, NestedAcquireOps(chain, |chain|)) == Next(NestedState(chain, |chain|))
    ensures forall k :: 0 <= k < |chain| ==> NestedState(chain, |chain|).held[k].id == chain[k].id
    ensures Run(Claimed, NestedAcquireOps(chain, |chain|) + NestedReleaseOps(|chain|)) == Next(Claimed)
  {
    NestedAcquireRun(chain, |chain|);
    NestedReleaseRun(chain, |chain|);
    RunAppend(Claimed, NestedAcquireOps(chain, |chain|), NestedReleaseOps(|chain|));
  }

  /** Calls that only claim chain mutices with `lock_for_nested` and release
      with the nested `unlock`. */
  predicate NestedOnly(chain: seq<Mutices.DeadlockProofMutex>, ops: seq<Op>) {
    forall i :: 0 <= i < |ops| ==> (ops[i].LockForNested? && ops[i].mutex in chain) || ops[i].NestedUnlock?
  }

  /** Every run of the nested pattern, in whatever order its calls come and
      whichever of them type-check, stays in the pattern's states: the thread
      holds a prefix of the chain, oldest first, and owns one free token,
      the one the next mutex expects. */
  lemma {:induction false} NestedRunCanonical(chain: seq<Mutices.DeadlockProofMutex>, ops: seq<Op>)
    requires NestedChain(chain) && NestedOnly(chain, ops) && Run(Claimed, ops).Next?
    ensures exists m: nat :: m <= |chain| && Run(Claimed, ops).state == NestedState(chain, m)
    ensures var s := Run(Claimed, ops).state;
      && |s.held| <= |chain| && s.tokens == [NestedToken(chain, |s.held|)]
      && forall k :: 0 <= k < |s.held| ==> s.held[k].id == chain[k].id
    decreases |ops|
  {
    var m: nat;
    if ops == [] {
      m := 0;
      assert NestedGuards(chain, 0) == [];
    } else {
      var ops', op := ops[..|ops| - 1], ops[|ops| - 1];
      assert NestedOnly(chain, ops') by {
        forall i | 0 <= i < |ops'| ensures (ops'[i].LockForNested? && ops'[i].mutex in chain) || ops'[i].NestedUnlock? {
          assert ops'[i] == ops[i];
        }
      }
      assert (op.LockForNested? && op.mutex in chain) || op.NestedUnlock? by {
        assert op == ops[|ops| - 1];
      }
      NestedRunCanonical(chain, ops');
      var n: nat :| n <= |chain| && Run(Claimed, ops').state == NestedState(chain, n);
      if op.LockForNested? {
        NestedOnlyNextLockable(chain, n, op);
        NestedAcquireNext(chain, n);
        m := n + 1;
      } else {
        assert n > 0;
        NestedReleaseOrder(chain, n, op.guard, op.token);
        m := n - 1;
      }
    }
    assert Run(Claimed, ops).state == NestedState(chain, m);
  }

  /** A nested guard released with `unlock_for_sequential` leaves its nested
      token alive. The thread can then claim the deeper mutex `b` without
      holding `a`, and afterwards claim `a` again: it ends up holding `b`
      then `a`, the reverse of the nested order. */
  lemma NestedTokenOutlivesSequentialRelease(i: nat, j: nat)
    requires i != j
    ensures var a := Mutices.DeadlockProofMutex(Outer, i);
      var b := Mutices.DeadlockProofMutex(Nested(Outer, i), j);
      var ops := [LockForNested(a, 0), NestedUnlockForSequential(0), Lock(b, 0), ToEarlier(0), LockForNested(a, 0)];
      && NestedChain([a, b])
      && Run(Claimed, ops).Next?
      && |Run(Claimed, ops).state.held| == 2
      && Run(Claimed, ops).state.held[0].id == j
      && Run(Claimed, ops).state.held[1].id == i
  {
    var a := Mutices.DeadlockProofMutex(Outer, i);
    var b := Mutices.DeadlockProofMutex(Nested(Outer, i), j);
    var ops := [LockForNested(a, 0), NestedUnlockForSequential(0), Lock(b, 0), ToEarlier(0), LockForNested(a, 0)];
    var s1 := ThreadState(None, [Nested(Outer, i)], [Mutices.NestedMutexGuard(i, Outer)]);
    var s2 := ThreadState(None, [Nested(Outer, i), Sequential(Outer, i)], []);
    var s3 := ThreadState(None, [Sequential(Outer, i)], [Mutices.MutexGuard(j, Nested(Outer, i))]);
    var s4 := ThreadState(None, [Outer], [Mutices.MutexGuard(j, Nested(Outer, i))]);
    var s5 := ThreadState(None, [Nested(Outer, i)], [Mutices.MutexGuard(j, Nested(Outer, i)), Mutices.NestedMutexGuard(i, Outer)]);
    var p1 := [] + [ops[0]];
    var p2 := p1 + [ops[1]];
    var p3 := p2 + [ops[2]];
    var p4 := p3 + [ops[3]];
    assert Step(Claimed, ops[0]) == Next(s1);
    RunThen(Claimed, [], ops[0], Claimed, s1);
    assert Step(s1, ops[1]) == Next(s2);
    RunThen(Claimed, p1, ops[1], s1, s2);
    assert Step(s2, ops[2]) == Next(s3);
    RunThen(Claimed, p2, ops[2], s2, s3);
    assert Step(s3, ops[3]) == Next(s4);
    RunThen(Claimed, p3, ops[3], s3, s4);
    assert Step(s4, ops[4]) == Next(s5);
    RunThen(Claimed, p4, ops[4], s4, s5);
    assert ops == p4 + [ops[4]];
  }

  /** The same leftover token, next to a second one minted by claiming `a`
      again, lets the thread claim the deeper mutex `b` twice while holding
      `a`: `b` ends up held by two guards at once. */
  lemma NestedTokenRelocks(i: nat, j: nat)
    requires i != j
    ensures var a := Mutices.DeadlockProofMutex(Outer, i);
      var b := Mutices.DeadlockProofMutex(Nested(Outer, i), j);
      var ops := [LockForNested(a, 0), NestedUnlockForSequential(0), ToEarlier(1), LockForNested(a, 1), Lock(b, 0), Lock(b, 0)];
      && NestedChain([a, b])
      && Run(Claimed, ops).Next?
      && |Run(Claimed, ops).state.held| == 3
      && Run(Claimed, ops).state.held[0].id == i
      && Run(Claimed, ops).state.held[1].id == j
      && Run(Claimed, ops).state.held[2].id == j
  {
    var a := Mutices.DeadlockProofMutex(Outer, i);
    var b := Mutices.DeadlockProofMutex(Nested(Outer, i), j);
    var ops := [LockForNested(a, 0), NestedUnlockForSequential(0), ToEarlier(1), LockForNested(a, 1), Lock(b, 0), Lock(b, 0)];
    var n, ga, gb := Nested(Outer, i), Mutices.NestedMutexGuard(i, Outer), Mutices.MutexGuard(j, Nested(Outer, i));
    var s1 := ThreadState(None, [n], [ga]);
    var s2 := ThreadState(None, [n, Sequential(Outer, i)], []);
    var s3 := ThreadState(None, [n, Outer], []);
    var s4 := ThreadState(None, [n, n], [ga]);
    var s5 := ThreadState(None, [n], [ga, gb]);
    var s6 := ThreadState(None, [], [ga, gb, gb]);
    var p1 := [] + [ops[0]];
    var p2 := p1 + [ops[1]];
    var p3 := p2 + [ops[2]];
    var p4 := p3 + [ops[3]];
    var p5 := p4 + [ops[4]];
    assert Step(Claimed, ops[0]) == Next(s1);
    RunThen(Claimed, [], ops[0], Claimed, s1);
    assert Step(s1, ops[1]) == Next(s2);
    RunThen(Claimed, p1, ops[1], s1, s2);
    assert Step(s2, ops[2]) == Next(s3);
    RunThen(Claimed, p2, ops[2], s2, s3);
    assert Step(s3, ops[3]) == Next(s4);
    RunThen(Claimed, p3, ops[3], s3, s4);
    assert Step(s4, ops[4]) == Next(s5);
    RunThen(Claimed, p4, ops[4], s4, s5);
    assert Step(s5, ops[5]) == Next(s6);
    RunThen(Claimed, p5, ops[5], s5, s6);
    assert ops == p5 + [ops[5]];
  }

  lemma RunThen(s: ThreadState, ops: seq<Op>, op: Op, mid: ThreadState, s': ThreadState)
    requires Run(s, ops) == Next(mid)
    requires Compiles(mid, op) && Step(mid, op) == Next(s')
    ensures Run(s, ops + [op]) == Next(s')
  {
    RunSnoc(s, ops, op);
  }

  // ---------------------------------------------------------------------
  // Sequential: each mutex released with `unlock_for_sequential` before the
  // next is claimed with the token that release produced.

  /** `chain[k + 1]` expects the successor token of releasing `chain[k]`. */
  predicate SequentialChain(chain: seq<Mutices.DeadlockProofMutex>) {
    && Mutices.DistinctIds(chain)
    && (|chain| > 0 ==> chain[0].expects == Outer)
    && forall k :: 1 <= k < |chain| ==> chain[k].expects == Sequential(chain[k - 1].expects, chain[k - 1].id)
  }

  /** The free token once the first `m` mutices were claimed and released. */
  function SequentialToken(chain: seq<Mutices.DeadlockProofMutex>, m: nat): Perm
    requires m <= |chain|
  {
    if m == 0 then Outer else Sequential(chain[m - 1].expects, chain[m - 1].id)
  }

  /** Between two mutices of the chain: nothing held, one free token. */
  function Between(chain: seq<Mutices.DeadlockProofMutex>, m: nat): ThreadState
    requires m <= |chain|
  {
    ThreadState(None, [SequentialToken(chain, m)], [])
  }

  /** Holding `chain[m]`, and nothing else. */
  function Holding(chain: seq<Mutices.DeadlockProofMutex>, m: nat): ThreadState
    requires m < |chain|
  {
    ThreadState(None, [], [Mutices.MutexGuard(chain[m].id, chain[m].expects)])
  }

  function SequentialOps(chain: seq<Mutices.DeadlockProofMutex>, m: nat): seq<Op>
    requires m <= |chain|
  {
    if m == 0 then [] else SequentialOps(chain, m - 1) + [Lock(chain[m - 1], 0), UnlockForSequential(0)]
  }

  function RewindOps(m: nat): seq<Op> {
    if m == 0 then [] else [ToEarlier(0)] + RewindOps(m - 1)
  }

  lemma SequentialTokenDepth(chain: seq<Mutices.DeadlockProofMutex>, m: nat)
    requires SequentialChain(chain) && m <= |chain|
    ensures Depth(SequentialToken(chain, m)) == m
  {
    if m > 0 {
      ChainDepth(chain, m - 1);
    }
  }

  /** Between two mutices, the only chain mutex the thread can claim is the
      next one in the sequence. */
  lemma SequentialOnlyNextLockable(chain: seq<Mutices.DeadlockProofMutex>, m: nat, op: Op)
    requires SequentialChain(chain) && m <= |chain|
    requires (op.Lock? || op.LockForNested?) && op.mutex in chain
    requires Compiles(Between(chain, m), op)
    ensures m < |chain| && op.mutex == chain[m] && op.token == 0
  {
    var j :| 0 <= j < |chain| && chain[j] == op.mutex;
    ChainDepth(chain, j);
    SequentialTokenDepth(chain, m);
    if j != m {
      assert false;
    }
  }

  /** Claiming the next mutex leaves no free token, so no other mutex can be
      claimed until it is released; releasing it sequentially yields the
      token for the one after, and releasing it plainly the token it took. */
  lemma SequentialStep(chain: seq<Mutices.DeadlockProofMutex>, m: nat)
    requires SequentialChain(chain) && m < |chain|
    ensures Compiles(Between(chain, m), Lock(chain[m], 0))
    ensures Step(Between(chain, m), Lock(chain[m], 0)) == Next(Holding(chain, m))
    ensures forall op: Op :: op.Lock? || op.LockForNested? ==> !Compiles(Holding(chain, m), op)
    ensures Step(Holding(chain, m), UnlockForSequential(0)) == Next(Between(chain, m + 1))
    ensures Step(Holding(chain, m), Unlock(0)) == Next(Between(chain, m))
  {
    if m > 0 {
      assert chain[m].expects == Sequential(chain[m - 1].expects, chain[m - 1].id);
    }
  }

  /** Calls that only claim chain mutices with `lock` and release them with
      either `unlock`. */
  predicate SequentialOnly(chain: seq<Mutices.DeadlockProofMutex>, ops: seq<Op>) {
    forall i :: 0 <= i < |ops| ==> (ops[i].Lock? && ops[i].mutex in chain) || ops[i].UnlockForSequential? || ops[i].Unlock?
  }

  /** Every run of the sequential pattern, in whatever order its calls come
      and whichever of them type-check, stays in the pattern's states: either
      between two mutices with the one free token, or holding exactly one
      mutex of the chain and no token at all. */
  lemma {:induction false} SequentialRunCanonical(chain: seq<Mutices.DeadlockProofMutex>, ops: seq<Op>)
    requires SequentialChain(chain) && SequentialOnly(chain, ops) && Run(Claimed, ops).Next?
    ensures exists m: nat ::
      || (m <= |chain| && Run(Claimed, ops).state == Between(chain, m))
      || (m < |chain| && Run(Claimed, ops).state == Holding(chain, m))
    ensures var s := Run(Claimed, ops).state; |s.held| + |s.tokens| == 1
    decreases |ops|
  {
    if ops == [] {
      assert Claimed == Between(chain, 0);
    } else {
      var ops', op := ops[..|ops| - 1], ops[|ops| - 1];
      assert SequentialOnly(chain, ops') by {
        forall i | 0 <= i < |ops'| ensures (ops'[i].Lock? && ops'[i].mutex in chain) || ops'[i].UnlockForSequential? || ops'[i].Unlock? {
          assert ops'[i] == ops[i];
        }
      }
      assert (op.Lock? && op.mutex in chain) || op.UnlockForSequential? || op.Unlock? by {
        assert op == ops[|ops| - 1];
      }
      SequentialRunCanonical(chain, ops');
      var n: nat :| || (n <= |chain| && Run(Claimed, ops').state == Between(chain, n))
                    || (n < |chain| && Run(Claimed, ops').state == Holding(chain, n));
      if n <= |chain| && Run(Claimed, ops').state == Between(chain, n) {
        if op.Lock? {
          SequentialOnlyNextLockable(chain, n, op);
          SequentialStep(chain, n);
          assert Run(Claimed, ops).state == Holding(chain, n);
        } else {
          assert false;
        }
      } else {
        SequentialStep(chain, n);
        if op.Lock? {
          assert false;
        } else if op.UnlockForSequential? {
          assert Run(Claimed, ops).state == Between(chain, n + 1);
        } else {
          assert Run(Claimed, ops).state == Between(chain, n);
        }
      }
    }
  }

  lemma {:induction false} SequentialRun(chain: seq<Mutices.DeadlockProofMutex>, m: nat)
    requires SequentialChain(chain) && m <= |chain|
    ensures Run(Claimed, SequentialOps(chain, m)) == Next(Between(chain, m))
  {
    if m > 0 {
      var before := SequentialOps(chain, m - 1);
      SequentialRun(chain, m - 1);
      SequentialStep(chain, m - 1);
      RunAppend(Claimed, before, [Lock(chain[m - 1], 0), UnlockForSequential(0)]);
      RunSnoc(Between(chain, m - 1), [Lock(chain[m - 1], 0)], UnlockForSequential(0));
      RunSnoc(Between(chain, m - 1), [], Lock(chain[m - 1], 0));
      assert [Lock(chain[m - 1], 0), UnlockForSequential(0)] == [Lock(chain[m - 1], 0)] + [UnlockForSequential(0)];
      assert [Lock(chain[m - 1], 0)] == [] + [Lock(chain[m - 1], 0)];
    }
  }

  /** `to_earlier`, applied once per mutex passed, gives back the root. */
  lemma {:induction false} RewindRun(chain: seq<Mutices.DeadlockProofMutex>, m: nat)
    requires SequentialChain(chain) && m <= |chain|
    ensures Run(Between(chain, m), RewindOps(m)) == Next(Claimed)
  {
    if m > 0 {
      if m > 1 {
        assert chain[m - 1].expects == Sequential(chain[m - 2].expects, chain[m - 2].id);
      }
      assert Step(Between(chain, m), ToEarlier(0)) == Next(Between(chain, m - 1));
      RunAppend(Between(chain, m), [ToEarlier(0)], RewindOps(m - 1));
      RunSnoc(Between(chain, m), [], ToEarlier(0));
      RewindRun(chain, m - 1);
    }
  }

  /** The sequential pattern end to end: the chain is passed in order, and
      stepping back once per mutex recovers the root token. */
  lemma SequentialPattern(chain: seq<Mutices.DeadlockProofMutex>)
    requires SequentialChain(chain)
    ensures Run(Claimed, SequentialOps(chain, |chain|)) == Next(Between(chain, |chain|))
    ensures Run(Claimed, SequentialOps(chain, |chain|) + RewindOps(|chain|)) == Next(Claimed)
  {
    SequentialRun(chain, |chain|);
    RewindRun(chain, |chain|);
    RunAppend(Claimed, SequentialOps(chain, |chain|), RewindOps(|chain|));
  }
}
