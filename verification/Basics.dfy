/** Facts about numbers and sequences that several modules use. */
module Basics {

  function Max(a: int, b: int): int {
    if a > b then a else b
  }

  lemma Quotient(v: nat, p: nat, q: nat, r: nat)
    requires r < p && v == q * p + r
    ensures v / p == q && v % p == r
  {
    var k := v / p - q;
    assert k * p == r - v % p;
    Multiple(k, p);
  }

  lemma Multiple(k: int, p: nat)
    ensures k >= 1 ==> k * p >= p
    ensures k <= -1 ==> k * p + p <= 0
  {
  }

  /** A slice is its beginning and its end. */
  lemma CutSlice<T>(s: seq<T>, lo: nat, cut: nat, hi: nat)
    requires lo <= cut <= hi <= |s|
    ensures s[lo..hi] == s[lo..cut] + s[cut..hi]
  {
  }

  /** A slice of a beginning, or of what comes after it, is a slice of the whole. */
  lemma SliceOfWhole<T>(front: seq<T>, rest: seq<T>, whole: seq<T>, lo: nat, hi: nat)
    requires front + rest <= whole && lo <= hi
    ensures hi <= |front| ==> whole[lo..hi] == front[lo..hi]
    ensures hi <= |rest| ==> whole[|front| + lo..|front| + hi] == rest[lo..hi]
  {
    var both := front + rest;
    assert whole == both + whole[|both|..];
  }

  lemma FrontIsPrefix<T>(front: seq<T>, rest: seq<T>)
    ensures front <= front + rest
  {
  }
}
