/** Evicting the oldest entries that nothing pins, as every bounded table here does it. */
module Eviction {

  /** `s` without its first `n` elements outside `keep`. */
  function DropOldest<T(==)>(s: seq<T>, keep: set<T>, n: nat): seq<T> {
    if n == 0 || s == [] then s
    else if s[0] in keep then [s[0]] + DropOldest(s[1..], keep, n)
    else DropOldest(s[1..], keep, n - 1)
  }

  predicate Distinct<T(==)>(s: seq<T>) {
    forall i, j :: 0 <= i < j < |s| ==> s[i] != s[j]
  }

  function Without<T(==)>(s: seq<T>, x: T): seq<T> {
    if s == [] then [] else if s[0] == x then Without(s[1..], x) else [s[0]] + Without(s[1..], x)
  }

  lemma {:induction false} WithoutMeaning<T>(s: seq<T>, x: T)
    ensures forall y :: y in Without(s, x) <==> y in s && y != x
    ensures Distinct(s) ==> Distinct(Without(s, x))
  {
    if s != [] {
      WithoutMeaning(s[1..], x);
      assert Distinct(s) ==> s[0] !in s[1..];
    }
  }

  function Excess(size: nat, bound: int): nat {
    if size > bound then size - bound else 0
  }

  function RemoveAt<T>(s: seq<T>, i: nat): seq<T>
    requires i < |s|
  {
    s[..i] + s[i + 1..]
  }

  lemma RemoveAtMeaning<T>(s: seq<T>, i: nat)
    requires i < |s| && Distinct(s)
    ensures |RemoveAt(s, i)| == |s| - 1 && Distinct(RemoveAt(s, i))
    ensures forall x :: x in RemoveAt(s, i) <==> x in s && x != s[i]
  {
  }

  /** What is dropped was unpinned, and it is exactly `n` elements unless pins run out. */
  lemma {:induction false} DropOldestMeaning<T>(s: seq<T>, keep: set<T>, n: nat)
    ensures var r := DropOldest(s, keep, n);
            && (forall x :: x in r ==> x in s)
            && (forall x :: x in s && x in keep ==> x in r)
            && |s| - n <= |r| <= |s|
            && (|r| <= |s| - n || forall x :: x in r ==> x in keep)
            && (Distinct(s) ==> Distinct(r))
  {
    if n > 0 && s != [] {
      var rest := s[1..];
      DropOldestMeaning(rest, keep, if s[0] in keep then n else n - 1);
      assert Distinct(s) ==> s[0] !in rest;
    }
  }

  /** Nothing unpinned survives something younger that went. */
  lemma {:induction false} DropsOldestFirst<T>(s: seq<T>, keep: set<T>, n: nat, i: nat, j: nat)
    requires Distinct(s) && i < j < |s|
    requires s[i] !in keep && s[i] in DropOldest(s, keep, n)
    ensures s[j] in DropOldest(s, keep, n)
  {
    if n > 0 {
      var rest, m := s[1..], if s[0] in keep then n else n - 1;
      DropOldestMeaning(rest, keep, m);
      assert s[0] !in rest && rest[j - 1] == s[j];
      if i > 0 {
        assert rest[i - 1] == s[i];
        DropsOldestFirst(rest, keep, m, i - 1, j - 1);
      }
    }
  }

  /** Removing the first unpinned element is the first step of dropping several. */
  lemma {:induction false} DropOldestStep<T>(s: seq<T>, keep: set<T>, n: nat, i: nat)
    requires n > 0 && i < |s| && s[i] !in keep
    requires forall k :: 0 <= k < i ==> s[k] in keep
    ensures DropOldest(s, keep, n) == DropOldest(RemoveAt(s, i), keep, n - 1)
    decreases i
  {
    var t := RemoveAt(s, i);
    if i == 0 {
      assert t == s[1..];
    } else {
      DropOldestStep(s[1..], keep, n, i - 1);
      assert RemoveAt(s[1..], i - 1) == t[1..];
      if n == 1 {
        assert t == [s[0]] + t[1..];
      }
    }
  }

  lemma {:induction false} DropNothing<T>(s: seq<T>, keep: set<T>, n: nat)
    requires n == 0 || forall x :: x in s ==> x in keep
    ensures DropOldest(s, keep, n) == s
  {
    if n > 0 && s != [] {
      DropNothing(s[1..], keep, n);
    }
  }
}
