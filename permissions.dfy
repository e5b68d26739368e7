/** Permission tokens: the capabilities a thread surrenders to claim a mutex.
    In the crate these are zero-sized values whose whole content is their type,
    so a token is modelled by a description of that type. */
module Permissions {

  /** The type of a permission token. `id` stands for a mutex identifier type. */
  datatype Perm =
    | Outer                              // OuterMutexPermission
    | Nested(parent: Perm, id: nat)      // NestedMutexPermission<P, I>
    | Sequential(parent: Perm, id: nat)  // SequentialMutexPermission<P, I>

  /** How many permission constructors are wrapped around `Outer`. */
  function Depth(p: Perm): nat {
    match p
    case Outer => 0
    case Nested(q, _) => Depth(q) + 1
    case Sequential(q, _) => Depth(q) + 1
  }

  /** Whether a token of type `p` physically owns the thread's root token:
      the root itself, or a sequential token, which stores its predecessor
      by value. A nested token names its parent only as a phantom type and
      owns nothing. */
  predicate OwnsRoot(p: Perm) {
    match p
    case Outer => true
    case Nested(_, _) => false
    case Sequential(q, _) => OwnsRoot(q)
  }

  /** Unwraps a sequential token back to the token it was made from. */
  function ToEarlier(s: Perm): (p: Perm)
    requires s.Sequential?
    ensures s == Sequential(p, s.id)
    ensures Depth(p) + 1 == Depth(s)
    ensures OwnsRoot(p) == OwnsRoot(s)
  {
    s.parent
  }

  /** Wraps `permission` as the successor token of the mutex `id`. */
  function SequentialNew(permission: Perm, id: nat): (s: Perm)
    ensures s.Sequential? && s.id == id
    ensures ToEarlier(s) == permission
    ensures OwnsRoot(s) == OwnsRoot(permission)
  {
    Sequential(permission, id)
  }
}
