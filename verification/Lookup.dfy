/** Looking an entry up in a table that keeps its order. */
module Lookup {

  /** Where the first element with a key stands, or the end. */
  function FindBy<T, K(==)>(s: seq<T>, key: T -> K, k: K): (i: nat)
    ensures i <= |s| && (i < |s| ==> key(s[i]) == k)
    ensures forall j :: 0 <= j < i ==> key(s[j]) != k
  {
    if s == [] || key(s[0]) == k then 0 else 1 + FindBy(s[1..], key, k)
  }
}
