/** Counting the elements of a sequence that satisfy a predicate. */
module Counting {

  function Count<T>(s: seq<T>, f: T -> bool): nat {
    if s == [] then 0 else Count(s[..|s| - 1], f) + (if f(s[|s| - 1]) then 1 else 0)
  }

  lemma CountPush<T>(s: seq<T>, x: T, f: T -> bool)
    ensures Count(s + [x], f) == Count(s, f) + if f(x) then 1 else 0
  {
    assert (s + [x])[..|s|] == s;
  }

  /** Taking out the element at `i` lowers the count by one exactly when that
      element satisfies `f`. */
  lemma {:induction false} CountWithout<T>(s: seq<T>, i: nat, f: T -> bool)
    requires i < |s|
    ensures Count(s[..i] + s[i + 1..], f) + (if f(s[i]) then 1 else 0) == Count(s, f)
    decreases |s|
  {
    var init, last := s[..|s| - 1], s[|s| - 1];
    if i == |s| - 1 {
      assert s[..i] + s[i + 1..] == init;
    } else {
      CountWithout(init, i, f);
      assert s[..i] + s[i + 1..] == (init[..i] + init[i + 1..]) + [last];
      CountPush(init[..i] + init[i + 1..], last, f);
    }
  }

  /** Replacing the element at `i` by `x` appended at the end. */
  lemma CountSwap<T>(s: seq<T>, i: nat, x: T, f: T -> bool)
    requires i < |s|
    ensures Count(s[..i] + s[i + 1..] + [x], f) + (if f(s[i]) then 1 else 0)
         == Count(s, f) + (if f(x) then 1 else 0)
  {
    CountWithout(s, i, f);
    CountPush(s[..i] + s[i + 1..], x, f);
  }

  lemma {:induction false} CountAll<T>(s: seq<T>, f: T -> bool)
    requires forall i :: 0 <= i < |s| ==> f(s[i])
    ensures Count(s, f) == |s|
    decreases |s|
  {
    if s != [] {
      CountAll(s[..|s| - 1], f);
    }
  }
}
