/** Deadlock-proof mutices and their guards, as the permission protocol sees
    them: a mutex is known by the permission type it must be claimed with and
    by its identifier; a guard by the mutex it holds and the permission it
    keeps captive until it is released. */
module Mutices {
  import opened Permissions

  /** A mutex `DeadlockProofMutex<T, P, I>`: `expects` is `P`, `id` is `I`. */
  datatype DeadlockProofMutex = DeadlockProofMutex(expects: Perm, id: nat)

  /** No two mutices share an identifier. */
  predicate DistinctIds(ms: seq<DeadlockProofMutex>) {
    forall i, j :: 0 <= i < j < |ms| ==> ms[i].id != ms[j].id
  }

  /** A live guard: the identifier of the mutex it holds and the permission
      captured when the mutex was claimed. */
  datatype Guard =
    | MutexGuard(id: nat, permission: Perm)        // DeadlockProofMutexGuard<T, P, I>
    | NestedMutexGuard(id: nat, permission: Perm)  // DeadlockProofNestedMutexGuard<T, P, I>

  /** Creates a mutex. Using a fresh identifier for every mutex is the
      caller's obligation; `declared` are the mutices created before. */
  function New(expects: Perm, identifier: nat, declared: seq<DeadlockProofMutex>): (m: DeadlockProofMutex)
    requires DistinctIds(declared)
    requires forall d :: d in declared ==> d.id != identifier
    ensures m.expects == expects && m.id == identifier
    ensures DistinctIds(declared + [m])
  {
    DeadlockProofMutex(expects, identifier)
  }

  /** Releases a plain guard, handing back the permission it captured. */
  function Unlock(g: Guard): (p: Perm)
    requires g.MutexGuard?
    ensures g == MutexGuard(g.id, p)
  {
    g.permission
  }

  /** Releases a nested guard. The caller must give back the nested token
      minted for this very guard: one naming the guard's own `P` and `I`. */
  function NestedUnlock(g: Guard, token: Perm): (p: Perm)
    requires g.NestedMutexGuard?
    requires token == Nested(g.permission, g.id)
    ensures g == NestedMutexGuard(g.id, p)
    ensures token == Nested(p, g.id)
  {
    g.permission
  }

  /** Claims `m` with a permission of exactly the type `m` expects. */
  function Lock(m: DeadlockProofMutex, permission: Perm): (g: Guard)
    requires permission == m.expects
    ensures g.MutexGuard? && g.id == m.id
    ensures Unlock(g) == permission
  {
    MutexGuard(m.id, permission)
  }

  /** Claims `m` and mints the nested token `Nested(P, I)` that deeper
      mutices expect, and that releasing this guard will demand back. */
  function LockForNested(m: DeadlockProofMutex, permission: Perm): (r: (Guard, Perm))
    requires permission == m.expects
    ensures r.0.NestedMutexGuard? && r.0.id == m.id
    ensures r.1 == Nested(r.0.permission, r.0.id)
    ensures NestedUnlock(r.0, r.1) == permission
  {
    (NestedMutexGuard(m.id, permission), Nested(permission, m.id))
  }

  /** Releases a plain guard into the successor token of its mutex. */
  function UnlockForSequential(g: Guard): (s: Perm)
    requires g.MutexGuard?
    ensures s.Sequential? && s.id == g.id
    ensures ToEarlier(s) == Unlock(g)
  {
    SequentialNew(g.permission, g.id)
  }

  /** Releases a nested guard into the successor token of its mutex. Unlike
      `NestedUnlock` it does not take the nested token back. */
  function NestedUnlockForSequential(g: Guard): (s: Perm)
    requires g.NestedMutexGuard?
    ensures s.Sequential? && s.id == g.id
    ensures ToEarlier(s) == g.permission
    ensures forall token :: token == Nested(g.permission, g.id) ==> ToEarlier(s) == NestedUnlock(g, token)
  {
    SequentialNew(g.permission, g.id)
  }

  /** Claiming, releasing sequentially and stepping back is the identity on
      the permission. */
  lemma SequentialRoundTrip(m: DeadlockProofMutex, permission: Perm)
    requires permission == m.expects
    ensures ToEarlier(UnlockForSequential(Lock(m, permission))) == permission
    ensures ToEarlier(NestedUnlockForSequential(LockForNested(m, permission).0)) == permission
  {
  }
}
