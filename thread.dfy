/** One thread's view of the protocol: the thread-local root slot, the
    permission tokens its code currently owns, and the guards it currently
    holds in acquisition order. Each library call is a step of this state
    machine; a call the crate's types reject has no step. */
module Threads {
  import opened Permissions
  import opened Counting
  import Mutices

  datatype Option<T> = None | Some(value: T)

  /** `slot` is the thread-local `MUTEX_PERMISSION_TOKEN`; `tokens` are the
      live free permission tokens; `held` are the live guards, oldest first. */
  datatype ThreadState = ThreadState(slot: Option<Perm>, tokens: seq<Perm>, held: seq<Mutices.Guard>)

  /** A thread before its first call: the slot holds the one root token. */
  const Start: ThreadState := ThreadState(Some(Outer), [], [])

  /** A library call, naming the token and guard it consumes by position. */
  datatype Op =
    | Get                                                      // OuterMutexPermission::get
    | Lock(mutex: Mutices.DeadlockProofMutex, token: nat)          // DeadlockProofMutex::lock
    | LockForNested(mutex: Mutices.DeadlockProofMutex, token: nat) // DeadlockProofMutex::lock_for_nested
    | Unlock(guard: nat)                                       // DeadlockProofMutexGuard::unlock
    | UnlockForSequential(guard: nat)                          // DeadlockProofMutexGuard::unlock_for_sequential
    | NestedUnlock(guard: nat, token: nat)                     // DeadlockProofNestedMutexGuard::unlock
    | NestedUnlockForSequential(guard: nat)                    // DeadlockProofNestedMutexGuard::unlock_for_sequential
    | ToEarlier(token: nat)                                    // SequentialMutexPermission::to_earlier
    | DropToken(token: nat)                                    // a token goes out of scope
    | DropGuard(guard: nat)                                    // a guard goes out of scope
    | SlotTake                                                 // MUTEX_PERMISSION_TOKEN.take() by the caller
    | SlotSet(token: nat)                                      // MUTEX_PERMISSION_TOKEN.set(Some(..)) by the caller

  datatype Outcome = Next(state: ThreadState) | Panicked | Rejected

  function Without<T>(s: seq<T>, i: nat): seq<T>
    requires i < |s|
  {
    s[..i] + s[i + 1..]
  }

  /** The call type-checks with what the thread owns: the token or guard it
      moves exists, and its type is the one the operation's signature names. */
  predicate Compiles(s: ThreadState, op: Op) {
    match op
    case Get => true
    case Lock(m, t) => t < |s.tokens| && s.tokens[t] == m.expects
    case LockForNested(m, t) => t < |s.tokens| && s.tokens[t] == m.expects
    case Unlock(k) => k < |s.held| && s.held[k].MutexGuard?
    case UnlockForSequential(k) => k < |s.held| && s.held[k].MutexGuard?
    case NestedUnlock(k, t) =>
      && k < |s.held| && s.held[k].NestedMutexGuard?
      && t < |s.tokens| && s.tokens[t] == Nested(s.held[k].permission, s.held[k].id)
    case NestedUnlockForSequential(k) => k < |s.held| && s.held[k].NestedMutexGuard?
    case ToEarlier(t) => t < |s.tokens| && s.tokens[t].Sequential?
    case DropToken(t) => t < |s.tokens|
    case DropGuard(k) => k < |s.held|
    case SlotTake => true
    case SlotSet(t) => t < |s.tokens| && s.tokens[t] == Outer
  }

  /** The effect of one call. Consumed tokens and guards leave their lists;
      produced ones are appended. `Get` on an empty slot panics. The slot is a
      public static, so a caller may also take its content directly or refill
      it with a root token it owns; `set` drops whatever the slot held. */
  function Step(s: ThreadState, op: Op): Outcome
    requires Compiles(s, op)
  {
    match op
    case Get =>
      if s.slot.None? then Panicked
      else Next(s.(slot := None, tokens := s.tokens + [s.slot.value]))
    case Lock(m, t) =>
      Next(s.(tokens := Without(s.tokens, t), held := s.held + [Mutices.Lock(m, s.tokens[t])]))
    case LockForNested(m, t) =>
      var r := Mutices.LockForNested(m, s.tokens[t]);
      Next(s.(tokens := Without(s.tokens, t) + [r.1], held := s.held + [r.0]))
    case Unlock(k) =>
      Next(s.(tokens := s.tokens + [Mutices.Unlock(s.held[k])], held := Without(s.held, k)))
    case UnlockForSequential(k) =>
      Next(s.(tokens := s.tokens + [Mutices.UnlockForSequential(s.held[k])], held := Without(s.held, k)))
    case NestedUnlock(k, t) =>
      var p := Mutices.NestedUnlock(s.held[k], s.tokens[t]);
      Next(s.(tokens := Without(s.tokens, t) + [p], held := Without(s.held, k)))
    case NestedUnlockForSequential(k) =>
      Next(s.(tokens := s.tokens + [Mutices.NestedUnlockForSequential(s.held[k])], held := Without(s.held, k)))
    case ToEarlier(t) =>
      Next(s.(tokens := Without(s.tokens, t) + [Permissions.ToEarlier(s.tokens[t])]))
    case DropToken(t) =>
      Next(s.(tokens := Without(s.tokens, t)))
    case DropGuard(k) =>
      Next(s.(held := Without(s.held, k)))
    case SlotTake =>
      Next(s.(slot := None, tokens := s.tokens + (if s.slot.Some? then [s.slot.value] else [])))
    case SlotSet(t) =>
      Next(s.(slot := Some(s.tokens[t]), tokens := Without(s.tokens, t)))
  }

  /** Continues an outcome with one more call. */
  function Then(o: Outcome, op: Op): Outcome {
    match o
    case Next(s) => if Compiles(s, op) then Step(s, op) else Rejected
    case _ => o
  }

  /** Runs a sequence of calls from `s`. */
  function Run(s: ThreadState, ops: seq<Op>): Outcome
    decreases |ops|
  {
    if ops == [] then Next(s) else Then(Run(s, ops[..|ops| - 1]), ops[|ops| - 1])
  }

  /** Continues an outcome with a sequence of calls. */
  function RunFrom(o: Outcome, ops: seq<Op>): Outcome {
    match o
    case Next(s) => Run(s, ops)
    case _ => o
  }

  predicate GuardOwnsRoot(g: Mutices.Guard) {
    OwnsRoot(g.permission)
  }

  /** How many live things own the thread's root token: the slot, free
      tokens, and guards holding such a token captive. */
  function RootCount(s: ThreadState): nat {
    (if s.slot.Some? && OwnsRoot(s.slot.value) then 1 else 0)
    + Count(s.tokens, OwnsRoot) + Count(s.held, GuardOwnsRoot)
  }

  /** The thread never owns more than one root token, and the slot can only
      hold the root. */
  predicate Inv(s: ThreadState) {
    && (s.slot.Some? ==> s.slot.value == Outer)
    && RootCount(s) <= 1
  }

  lemma RunSnoc(s: ThreadState, ops: seq<Op>, op: Op)
    ensures Run(s, ops + [op]) == Then(Run(s, ops), op)
  {
    assert (ops + [op])[..|ops|] == ops;
  }

  lemma {:induction false} RunAppend(s: ThreadState, a: seq<Op>, b: seq<Op>)
    ensures Run(s, a + b) == RunFrom(Run(s, a), b)
    decreases |b|
  {
    if b == [] {
      assert a + b == a;
    } else {
      var b' := b[..|b| - 1];
      var op := b[|b| - 1];
      assert a + b == (a + b') + [op];
      RunSnoc(s, a + b', op);
      RunAppend(s, a, b');
      match Run(s, a)
      case Next(m) =>
        assert b == b' + [op];
        RunSnoc(m, b', op);
      case _ =>
    }
  }

  /** How much a step changes the root count: whether it loses a root token. */
  predicate Conserves(s: ThreadState, s': ThreadState, lossy: bool) {
    && RootCount(s') <= RootCount(s)
    && (!lossy ==> RootCount(s') == RootCount(s))
  }

  lemma LockConserves(s: ThreadState, m: Mutices.DeadlockProofMutex, t: nat)
    requires Compiles(s, Lock(m, t))
    ensures Conserves(s, Step(s, Lock(m, t)).state, false)
  {
    CountWithout(s.tokens, t, OwnsRoot);
    CountPush(s.held, Mutices.Lock(m, s.tokens[t]), GuardOwnsRoot);
  }

  lemma LockForNestedConserves(s: ThreadState, m: Mutices.DeadlockProofMutex, t: nat)
    requires Compiles(s, LockForNested(m, t))
    ensures Conserves(s, Step(s, LockForNested(m, t)).state, false)
  {
    var r := Mutices.LockForNested(m, s.tokens[t]);
    CountSwap(s.tokens, t, r.1, OwnsRoot);
    CountPush(s.held, r.0, GuardOwnsRoot);
  }

  /** Releasing guard `k` into the token `p`, consuming token `t` if any. */
  lemma ReleaseConserves(s: ThreadState, k: nat, t: Option<nat>, p: Perm, s': ThreadState)
    requires k < |s.held| && OwnsRoot(p) == OwnsRoot(s.held[k].permission)
    requires t.Some? ==> t.value < |s.tokens| && !OwnsRoot(s.tokens[t.value])
    requires s' == s.(tokens := (if t.Some? then Without(s.tokens, t.value) else s.tokens) + [p],
                      held := Without(s.held, k))
    ensures Conserves(s, s', false)
  {
    CountWithout(s.held, k, GuardOwnsRoot);
    if t.Some? {
      CountSwap(s.tokens, t.value, p, OwnsRoot);
    } else {
      CountPush(s.tokens, p, OwnsRoot);
    }
  }

  /** Every call keeps the root token count, except dropping, which may lose
      it (refilling the slot drops its old content); only the slot calls
      touch the slot: `Get` and `take` empty it, `set` fills it with the root. */
  lemma StepConservesRoot(s: ThreadState, op: Op)
    requires Compiles(s, op) && Step(s, op).Next?
    ensures Step(s, op).state.slot ==
      if op.Get? || op.SlotTake? then None else if op.SlotSet? then Some(Outer) else s.slot
    ensures Conserves(s, Step(s, op).state, op.DropToken? || op.DropGuard? || op.SlotSet?)
  {
    match op
    case Get =>
      CountPush(s.tokens, s.slot.value, OwnsRoot);
    case Lock(m, t) =>
      LockConserves(s, m, t);
    case LockForNested(m, t) =>
      LockForNestedConserves(s, m, t);
    case Unlock(k) =>
      ReleaseConserves(s, k, None, Mutices.Unlock(s.held[k]), Step(s, op).state);
    case UnlockForSequential(k) =>
      ReleaseConserves(s, k, None, Mutices.UnlockForSequential(s.held[k]), Step(s, op).state);
    case NestedUnlock(k, t) =>
      ReleaseConserves(s, k, Some(t), Mutices.NestedUnlock(s.held[k], s.tokens[t]), Step(s, op).state);
    case NestedUnlockForSequential(k) =>
      ReleaseConserves(s, k, None, Mutices.NestedUnlockForSequential(s.held[k]), Step(s, op).state);
    case ToEarlier(t) =>
      CountSwap(s.tokens, t, Permissions.ToEarlier(s.tokens[t]), OwnsRoot);
    case DropToken(t) =>
      CountWithout(s.tokens, t, OwnsRoot);
    case DropGuard(k) =>
      CountWithout(s.held, k, GuardOwnsRoot);
    case SlotTake =>
      if s.slot.Some? {
        CountPush(s.tokens, s.slot.value, OwnsRoot);
      } else {
        assert s.tokens + [] == s.tokens;
      }
    case SlotSet(t) =>
      CountWithout(s.tokens, t, OwnsRoot);
  }

  lemma StepKeepsInv(s: ThreadState, op: Op)
    requires Inv(s) && Compiles(s, op) && Step(s, op).Next?
    ensures Inv(Step(s, op).state)
  {
    StepConservesRoot(s, op);
  }

  /** Root conservation: on every run of a thread, at most one live value
      owns the root token. */
  lemma {:induction false} RunKeepsInv(ops: seq<Op>)
    requires Run(Start, ops).Next?
    ensures Inv(Run(Start, ops).state)
    decreases |ops|
  {
    if ops != [] {
      var ops', op := ops[..|ops| - 1], ops[|ops| - 1];
      RunKeepsInv(ops');
      StepKeepsInv(Run(Start, ops').state, op);
    } else {
      assert Count([], OwnsRoot) == 0;
    }
  }

  /** What the root slot holds after the calls `ops`: the root until the
      first call that empties it, and again after a caller refills it. */
  function SlotAfter(ops: seq<Op>): Option<Perm>
    decreases |ops|
  {
    if ops == [] then Some(Outer)
    else
      var op := ops[|ops| - 1];
      if op.Get? || op.SlotTake? then None
      else if op.SlotSet? then Some(Outer)
      else SlotAfter(ops[..|ops| - 1])
  }

  /** Calls that only go through the crate's API, never the public slot. */
  predicate ApiOnly(ops: seq<Op>) {
    forall i :: 0 <= i < |ops| ==> !ops[i].SlotTake? && !ops[i].SlotSet?
  }

  lemma {:induction false} RunSlot(ops: seq<Op>)
    requires Run(Start, ops).Next?
    ensures Run(Start, ops).state.slot == SlotAfter(ops)
    decreases |ops|
  {
    if ops != [] {
      var ops', op := ops[..|ops| - 1], ops[|ops| - 1];
      RunSlot(ops');
      StepConservesRoot(Run(Start, ops').state, op);
    }
  }

  /** Through the API alone, the slot is empty exactly once `Get` was called. */
  lemma {:induction false} SlotAfterApi(ops: seq<Op>)
    requires ApiOnly(ops)
    ensures SlotAfter(ops) == if Get in ops then None else Some(Outer)
    decreases |ops|
  {
    if ops != [] {
      var ops', op := ops[..|ops| - 1], ops[|ops| - 1];
      assert ops == ops' + [op];
      assert ApiOnly(ops') by {
        forall i | 0 <= i < |ops'| ensures !ops'[i].SlotTake? && !ops'[i].SlotSet? {
          assert ops'[i] == ops[i];
        }
      }
      assert !op.SlotTake? && !op.SlotSet? by {
        assert op == ops[|ops| - 1];
      }
      SlotAfterApi(ops');
    }
  }

  /** The root slot is emptied by the first `Get` and, unless a caller refills
      it directly, never refilled: after a run, `Get` panics exactly when the
      slot is empty, and otherwise hands out the root token. Through the API
      alone the slot is empty exactly when `Get` was called before. */
  lemma GetOncePerThread(ops: seq<Op>)
    requires Run(Start, ops).Next?
    ensures var s := Run(Start, ops).state;
      && s.slot == SlotAfter(ops)
      && (Step(s, Get).Panicked? <==> s.slot.None?)
      && (s.slot.Some? ==> Step(s, Get) == Next(s.(slot := None, tokens := s.tokens + [Outer])))
      && (ApiOnly(ops) ==> s.slot == (if Get in ops then None else Some(Outer)))
  {
    RunSlot(ops);
    RunKeepsInv(ops);
    if ApiOnly(ops) {
      SlotAfterApi(ops);
    }
  }

  /** The per-thread state, updated in place by the library calls. */
  class Thread {
    var slot: Option<Perm>
    var tokens: seq<Perm>
    var held: seq<Mutices.Guard>

    function State(): ThreadState
      reads this
    {
      ThreadState(slot, tokens, held)
    }

    ghost predicate Valid()
      reads this
    {
      Inv(State())
    }

    constructor ()
      ensures State() == Start && Valid()
    {
      slot, tokens, held := Some(Outer), [], [];
      assert Count([], OwnsRoot) == 0;
    }

    /** Drains the root slot. `None` stands for the panic "Mutex permission
        already claimed for this thread". */
    method Get() returns (claimed: Option<Perm>)
      requires Valid()
      modifies this
      ensures Valid()
      ensures claimed == old(slot) && slot == None
      ensures held == old(held)
      ensures tokens == old(tokens) + if claimed.Some? then [claimed.value] else []
      ensures Step(old(State()), Op.Get) == if claimed.Some? then Next(State()) else Panicked
    {
      claimed := slot;
      slot := None;
      if claimed.Some? {
        tokens := tokens + [claimed.value];
        StepKeepsInv(old(State()), Op.Get);
      }
    }

    method Lock(m: Mutices.DeadlockProofMutex, t: nat) returns (g: Mutices.Guard)
      requires Valid() && Compiles(State(), Op.Lock(m, t))
      modifies this
      ensures Valid()
      ensures g == Mutices.Lock(m, old(tokens)[t])
      ensures Step(old(State()), Op.Lock(m, t)) == Next(State())
    {
      g := Mutices.Lock(m, tokens[t]);
      tokens, held := Without(tokens, t), held + [g];
      StepKeepsInv(old(State()), Op.Lock(m, t));
    }

    method LockForNested(m: Mutices.DeadlockProofMutex, t: nat) returns (g: Mutices.Guard, nested: Perm)
      requires Valid() && Compiles(State(), Op.LockForNested(m, t))
      modifies this
      ensures Valid()
      ensures (g, nested) == Mutices.LockForNested(m, old(tokens)[t])
      ensures Step(old(State()), Op.LockForNested(m, t)) == Next(State())
    {
      g, nested := Mutices.LockForNested(m, tokens[t]).0, Mutices.LockForNested(m, tokens[t]).1;
      tokens, held := Without(tokens, t) + [nested], held + [g];
      StepKeepsInv(old(State()), Op.LockForNested(m, t));
    }

    method Unlock(k: nat) returns (p: Perm)
      requires Valid() && Compiles(State(), Op.Unlock(k))
      modifies this
      ensures Valid()
      ensures p == Mutices.Unlock(old(held)[k])
      ensures Step(old(State()), Op.Unlock(k)) == Next(State())
    {
      p := Mutices.Unlock(held[k]);
      tokens, held := tokens + [p], Without(held, k);
      StepKeepsInv(old(State()), Op.Unlock(k));
    }

    method UnlockForSequential(k: nat) returns (s: Perm)
      requires Valid() && Compiles(State(), Op.UnlockForSequential(k))
      modifies this
      ensures Valid()
      ensures s == Mutices.UnlockForSequential(old(held)[k])
      ensures Step(old(State()), Op.UnlockForSequential(k)) == Next(State())
    {
      s := Mutices.UnlockForSequential(held[k]);
      tokens, held := tokens + [s], Without(held, k);
      StepKeepsInv(old(State()), Op.UnlockForSequential(k));
    }

    method NestedUnlock(k: nat, t: nat) returns (p: Perm)
      requires Valid() && Compiles(State(), Op.NestedUnlock(k, t))
      modifies this
      ensures Valid()
      ensures p == Mutices.NestedUnlock(old(held)[k], old(tokens)[t])
      ensures Step(old(State()), Op.NestedUnlock(k, t)) == Next(State())
    {
      p := Mutices.NestedUnlock(held[k], tokens[t]);
      tokens, held := Without(tokens, t) + [p], Without(held, k);
      StepKeepsInv(old(State()), Op.NestedUnlock(k, t));
    }

    method NestedUnlockForSequential(k: nat) returns (s: Perm)
      requires Valid() && Compiles(State(), Op.NestedUnlockForSequential(k))
      modifies this
      ensures Valid()
      ensures s == Mutices.NestedUnlockForSequential(old(held)[k])
      ensures Step(old(State()), Op.NestedUnlockForSequential(k)) == Next(State())
    {
      s := Mutices.NestedUnlockForSequential(held[k]);
      tokens, held := tokens + [s], Without(held, k);
      StepKeepsInv(old(State()), Op.NestedUnlockForSequential(k));
    }

    method ToEarlier(t: nat) returns (p: Perm)
      requires Valid() && Compiles(State(), Op.ToEarlier(t))
      modifies this
      ensures Valid()
      ensures p == Permissions.ToEarlier(old(tokens)[t])
      ensures Step(old(State()), Op.ToEarlier(t)) == Next(State())
    {
      p := Permissions.ToEarlier(tokens[t]);
      tokens := Without(tokens, t) + [p];
      StepKeepsInv(old(State()), Op.ToEarlier(t));
    }

    /** A caller's own `MUTEX_PERMISSION_TOKEN.take()`: empties the slot
        without panicking, whatever it held. */
    method TakeSlot() returns (taken: Option<Perm>)
      requires Valid()
      modifies this
      ensures Valid()
      ensures taken == old(slot) && slot == None && held == old(held)
      ensures Step(old(State()), SlotTake) == Next(State())
    {
      taken := slot;
      slot := None;
      if taken.Some? {
        tokens := tokens + [taken.value];
      } else {
        assert tokens + [] == tokens;
      }
      StepKeepsInv(old(State()), SlotTake);
    }

    /** A caller's own `MUTEX_PERMISSION_TOKEN.set(Some(p))`: moves the root
        token `p` it owns back into the slot. */
    method SetSlot(t: nat)
      requires Valid() && Compiles(State(), SlotSet(t))
      modifies this
      ensures Valid()
      ensures slot == Some(Outer) && held == old(held)
      ensures Step(old(State()), SlotSet(t)) == Next(State())
    {
      slot := Some(tokens[t]);
      tokens := Without(tokens, t);
      StepKeepsInv(old(State()), SlotSet(t));
    }
  }
}
