# Deadlock-proof mutex: the permission-token protocol

This project models the permission-token protocol of the `deadlock_proof_mutex`
crate (`src/lib.rs`). The crate wraps `std::sync::Mutex` in a
`DeadlockProofMutex<T, P, I>`. Claiming such a mutex costs a permission token of
type `P`. Tokens are zero-sized, move-only and confined to one thread:

- `OuterMutexPermission` is the root token. Each thread gets exactly one, taken
  from the thread-local slot `MUTEX_PERMISSION_TOKEN`. The slot is a public
  static, so a caller can also `take` from it directly, without a panic, or
  `set` a root token it owns back into it.
- `NestedMutexPermission<P, I>` is minted by `lock_for_nested` on mutex `I`. A
  nested guard's `unlock` demands it back.
- `SequentialMutexPermission<P, I>` is produced by `unlock_for_sequential`. It
  stores the `P` it wraps, and `to_earlier` returns that `P`.

In the crate, all of this lives in types. Here the types become values:

- `Permissions.Perm` describes the type of a token.
- `Mutices.DeadlockProofMutex` is a mutex's `P` and its identifier `I`.
- `Mutices.Guard` is a live guard: the mutex it holds and the token it keeps
  captive.
- Every place where the Rust compiler checks a type is a `requires` clause, an
  equality on `Perm`.

The token moves (`unlock`, `unlock_for_sequential`, `to_earlier`,
`SequentialMutexPermission::new`, and the guard construction in `lock` and
`lock_for_nested`) are pure functions in `permissions.dfy` and `mutex.dfy`.

`thread.dfy` holds one thread's view of the protocol as a state machine. The
state has three parts: the thread-local root slot, the free tokens the thread's
code owns, and the guards it holds, oldest first. Each library call is a
`Step`. `Compiles` says when a call type-checks with what the thread owns.
Because tokens cannot be copied, a token or guard is consumed by removing it
from the thread's lists. The class `Threads.Thread` keeps this state in fields
and updates them in place. Each of its methods is proved against `Step`, and
each keeps the invariant that at most one live value owns the root token.

`patterns.dfy` states the three usage patterns the crate documents
(`src/lib.rs:112-122`):

- exclusive, over every run of a thread;
- nested, over chains of mutices of any length;
- sequential, over chains of mutices of any length.

It also shows the limit of the nested guarantee, described below.

A nested guard's `unlock_for_sequential` does not take the nested token back
(`src/lib.rs:236-238`). That token can therefore outlive the release: it stays
usable, and is not inert. `Patterns.NestedTokenOutlivesSequentialRelease`
exhibits a run in which a thread holds the deeper mutex and then claims the
outer one again: the reverse of the nested order. So the nested-order lemmas
cover the documented pattern (claim with `lock_for_nested`, release with
`unlock`), not every program that compiles. `Patterns.NestedTokenRelocks` goes
one step further: with the leftover token and a second one minted by claiming
the outer mutex again, the thread claims the deeper mutex twice. On
`std::sync::Mutex` that second claim blocks on a lock its own thread holds.

## Model

| member | source | states |
|---|---|---|
| Permissions.SequentialNew | src/lib.rs:82-84 | Wrapping `P` as a sequential token for mutex `I` yields a `Sequential` token with that identifier, from which `to_earlier` recovers exactly `P`; it owns the root token exactly when `P` does |
| Permissions.ToEarlier | src/lib.rs:86-90 | `to_earlier` accepts only a sequential token and returns the `P` it wraps (the token is `Sequential(P, I)`), one level shallower, owning the root exactly when the sequential token did |
| Mutices.New | src/lib.rs:123-139 | A mutex is created with its expected permission `P` and identifier `I`; a fresh identifier is the caller's obligation, and under it all declared mutices keep distinct identifiers |
| Mutices.Lock | src/lib.rs:141-151 | `lock` accepts only a permission equal to the mutex's `P`, returns a plain guard for this mutex, and that guard's `unlock` returns exactly the permission passed in |
| Mutices.LockForNested | src/lib.rs:153-172 | `lock_for_nested` accepts only the mutex's `P`, returns a nested guard for this mutex plus the token `Nested(P, I)` naming the guard's own `P` and `I`, and giving that token back to the guard's `unlock` returns the original permission |
| Mutices.Unlock | src/lib.rs:185-189 | A plain guard's `unlock` returns the permission the guard captured |
| Mutices.UnlockForSequential | src/lib.rs:191-198 | A plain guard's `unlock_for_sequential` returns `Sequential(P, I)` for the guard's mutex, wrapping exactly what `unlock` would have returned |
| Mutices.NestedUnlock | src/lib.rs:225-229 | A nested guard's `unlock` accepts only the token `Nested(P, I)` with the guard's own `P` and `I`, and returns that `P` |
| Mutices.NestedUnlockForSequential | src/lib.rs:231-238 | A nested guard's `unlock_for_sequential` needs no nested token and returns `Sequential(P, I)` wrapping the captured `P`, the same `P` its `unlock` would return |
| Mutices.SequentialRoundTrip | src/main.rs:112-114 | Claiming a mutex, releasing it with `unlock_for_sequential` and calling `to_earlier` gives back the permission used to claim it, for both guard flavours |
| Threads.StepConservesRoot | src/lib.rs:44-60 | Every call keeps the number of live values owning the root token (a sequential token stores its `P`, a nested one only names it), except dropping, which can only lose it, including the slot's old content on `set`; only `get` and a direct `take` empty the slot, and only a direct `set` fills it, with the root |
| Threads.RunKeepsInv | src/lib.rs:39-47 | On every run of a thread, at most one live value owns the root token, and the slot never holds anything but the root |
| Threads.RunSlot | src/lib.rs:44-47 | On every run, the slot holds exactly what the calls that touch it left there: the root until `get` or a direct `take`, and the root again after a direct `set` |
| Threads.SlotAfterApi | src/lib.rs:50-51 | For calls through the crate's API only, the slot is empty exactly when `get` was called |
| Threads.GetOncePerThread | src/lib.rs:44-60 | After any run, the slot holds what the calls that touch it left there; `get` panics exactly when the slot is empty and otherwise returns the root; through the crate's API alone, the slot still holds the root exactly when `get` was never called |
| Threads.Thread.constructor | src/lib.rs:44-47 | A thread starts with the root token in its slot, no free tokens and no guards |
| Threads.Thread.Get | src/lib.rs:56-60 | `get` takes the slot's content and leaves it empty; an empty slot means the panic and leaves the tokens and guards unchanged, otherwise the root becomes a free token |
| Threads.Thread.Lock | src/lib.rs:144-151 | Consumes the free token, which must equal the mutex's `P`, and adds the new guard to the held guards |
| Threads.Thread.LockForNested | src/lib.rs:156-172 | Consumes the free token, which must equal the mutex's `P`, adds the nested guard to the held guards, and adds the minted `Nested(P, I)` to the free tokens |
| Threads.Thread.Unlock | src/lib.rs:187-189 | Removes a plain guard and returns its captured permission to the free tokens |
| Threads.Thread.UnlockForSequential | src/lib.rs:196-198 | Removes a plain guard and adds its sequential successor token to the free tokens |
| Threads.Thread.NestedUnlock | src/lib.rs:227-229 | Removes a nested guard, consumes its matching nested token, and returns the captured permission to the free tokens |
| Threads.Thread.NestedUnlockForSequential | src/lib.rs:236-238 | Removes a nested guard without consuming any nested token, and adds its sequential successor token to the free tokens |
| Threads.Thread.ToEarlier | src/lib.rs:88-90 | Replaces a free sequential token by the permission it wraps |
| Threads.Thread.TakeSlot | src/lib.rs:44-47 | A caller's direct `take` on the public slot empties it without a panic; whatever it held becomes a free token |
| Threads.Thread.SetSlot | src/lib.rs:44-47 | A caller's direct `set` moves a root token it owns into the public slot, which then holds the root |
| Patterns.ClaimRoot | src/lib.rs:56-60 | A fresh thread's first `get` succeeds and leaves exactly the root as a free token |
| Patterns.ExclusiveHoldsAtMostOne | src/lib.rs:114-115 | If every mutex claimed expects the root token, the thread never holds more than one guard |
| Patterns.ExclusiveNoHoldAndWait | src/lib.rs:39-41 | If every mutex claimed expects the root token, a claim type-checks only while the thread holds no guard |
| Patterns.ChainDepth | src/lib.rs:116-121 | In a chain where each mutex expects a token one level deeper than the previous one, the `k`-th mutex expects a token of depth `k` |
| Patterns.NestedOnlyNextLockable | src/lib.rs:116-118 | In the state the nested pattern reaches after `m` claims (the first `m` mutices held, one free token), the only chain mutex that can be claimed is `chain[m]`, with that token |
| Patterns.NestedReleaseOrder | src/lib.rs:224-229 | In the state the nested pattern reaches after `m` claims, a nested `unlock` type-checks if and only if it releases the innermost guard with the one free token, and that release leads to the state after `m - 1` claims |
| Patterns.NestedPattern | src/main.rs:57-72 | Claiming a whole nested chain in order holds its mutices oldest first, and releasing them innermost first gives back exactly the root token |
| Patterns.NestedRunCanonical | src/lib.rs:115-118 | Every run that claims only chain mutices with `lock_for_nested` and releases with the nested `unlock`, in any order the types accept, holds a prefix of the chain oldest first and owns exactly one free token, the one the next mutex expects |
| Patterns.NestedTokenOutlivesSequentialRelease | src/lib.rs:231-238 | After a nested guard's `unlock_for_sequential`, its nested token still claims the deeper mutex, and the thread can then hold the deeper mutex and the outer one in reverse nested order |
| Patterns.NestedTokenRelocks | src/lib.rs:231-238 | The nested token left alive by `unlock_for_sequential`, together with a second one minted by claiming the outer mutex again, lets one thread claim the deeper mutex twice while holding the outer one |
| Patterns.SequentialOnlyNextLockable | src/lib.rs:119-121 | In the state the sequential pattern reaches between two mutices (nothing held, one free token), the only chain mutex that can be claimed is the next one, with that token |
| Patterns.SequentialStep | src/lib.rs:191-198 | Claiming the next mutex of a sequential chain leaves no free token, so nothing else can be claimed until it is released; `unlock_for_sequential` then yields the token for the next mutex, and `unlock` the token used to claim it |
| Patterns.SequentialRunCanonical | src/lib.rs:119-121 | Every run that claims only chain mutices with `lock` and releases with either `unlock`, in any order the types accept, is either between two mutices with one free token or holds exactly one chain mutex and no token |
| Patterns.RewindRun | src/main.rs:112-114 | After `m` mutices of a sequential chain, `m` calls of `to_earlier` give back exactly the root token |
| Patterns.SequentialPattern | src/main.rs:97-114 | Passing through a whole sequential chain in order ends with the successor token of its last mutex, and stepping back once per mutex recovers the root token |

## Left out

- Blocking on the underlying `std::sync::Mutex` and mutual exclusion between threads are not modelled (`src/lib.rs:147-150`, `src/lib.rs:164-166`). The standard mutex is a foreign concurrency primitive. As a consequence, a call that re-locks a mutex the same thread already holds simply succeeds in the model. The exclusive, nested and sequential lemmas show that the documented patterns never do this; `Patterns.NestedTokenRelocks` shows a run outside them that does.
- `PoisonError` is not modelled. Every `lock` and `lock_for_nested` succeeds, for the same reason.
- `Mutices.New`: does not take the protected value. The value and its `Deref`/`DerefMut` access (`src/lib.rs:201-213`, `src/lib.rs:241-257`) are plain pass-through and play no part in the protocol.
- The `unsafe impl Send/Sync` wrapper and the `PhantomData<Rc<()>>` fields that keep tokens on one thread (`src/lib.rs:95-103`) are thread-transfer typing. The model follows a single thread instead, so tokens never leave it.
- The `declare_mutex_identifier!` macro (`src/lib.rs:18-26`) and `unique_type!` generate identifier types at compile time. Identifiers are distinct natural numbers here. `unique_type!` is not part of this model.
- The public slot's `replace` is not an operation of its own: it is a direct `take` followed by a direct `set`. `Cell::get` does not apply, since the root token is not `Copy`.
- Dropping a token or a guard is a `Step` (`DropToken`, `DropGuard`) but not a method of `Threads.Thread`: it is the end of a Rust scope, not a library call.
- The threads that `src/main.rs` spawns and joins are not modelled. Only the single-thread token flows of its examples appear, as the nested and sequential pattern lemmas.
- Patterns.NestedPattern: claims every mutex of the chain with `lock_for_nested`. The example at `src/main.rs:67` claims the innermost one with plain `lock`, a call that `Threads.Step` models but that this lemma does not use.
