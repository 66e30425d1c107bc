/** Lists without repetition turned one place at a time, and how many elements they have. */
module Cycles {
  import opened Eviction

  function AsSet<T(==)>(s: seq<T>): set<T> {
    set x | x in s
  }

  lemma {:induction false} DistinctSize<T>(s: seq<T>)
    requires Distinct(s)
    ensures |AsSet(s)| == |s|
  {
    if s != [] {
      var front, last := s[..|s| - 1], s[|s| - 1];
      DistinctSize(front);
      assert s == front + [last] && last !in front;
      assert AsSet(s) == AsSet(front) + {last};
    }
  }

  lemma SubsetSize<T>(a: set<T>, b: set<T>)
    requires a <= b
    ensures |a| <= |b|
  {
    assert b == a + (b - a);
  }

  lemma DistinctTail<T>(s: seq<T>)
    requires Distinct(s) && s != []
    ensures Distinct(s[1..]) && s[0] !in s[1..]
  {
  }

  function Rotate<T>(cycle: seq<T>): seq<T> {
    if cycle == [] then [] else cycle[1..] + [cycle[0]]
  }

  function Turned<T>(cycle: seq<T>, n: nat): (r: seq<T>)
    ensures |r| == |cycle|
  {
    if n == 0 then cycle else Rotate(Turned(cycle, n - 1))
  }

  lemma RotateKeeps<T>(cycle: seq<T>)
    requires Distinct(cycle)
    ensures Distinct(Rotate(cycle)) && AsSet(Rotate(cycle)) == AsSet(cycle)
  {
    if cycle != [] {
      assert cycle == [cycle[0]] + cycle[1..];
    }
  }

  lemma {:induction false} TurnedKeeps<T>(cycle: seq<T>, n: nat)
    requires Distinct(cycle)
    ensures Distinct(Turned(cycle, n))
    ensures n <= |cycle| ==> Turned(cycle, n) == cycle[n..] + cycle[..n]
  {
    hide Distinct, AsSet;
    if n > 0 {
      TurnedKeeps(cycle, n - 1);
      RotateKeeps(Turned(cycle, n - 1));
    }
  }

  lemma FullTurn<T>(cycle: seq<T>)
    requires Distinct(cycle)
    ensures Turned(cycle, |cycle|) == cycle == Turned(cycle, 0)
  {
    TurnedKeeps(cycle, |cycle|);
    TurnedKeeps(cycle, 0);
    hide Turned, Distinct;
    assert cycle[|cycle|..] + cycle[..|cycle|] == cycle;
    assert cycle[0..] + cycle[..0] == cycle;
  }

  lemma HeadOfTurn<T>(cycle: seq<T>, k: nat)
    requires Distinct(cycle) && k < |cycle|
    ensures Turned(cycle, k)[0] == cycle[k] && (k > 0 ==> cycle[k] != cycle[0])
  {
    TurnedKeeps(cycle, k);
  }
}
