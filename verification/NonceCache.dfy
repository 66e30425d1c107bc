/** The bounded single-use nonce set. (src/app_auth.py:292-322) */
module NonceCache {

  const NONCE_LEN := 16

  type Nonce = seq<bv8>

  datatype Seen = Seen(nonce: Nonce, expiry: int)

  function Nonces(seen: seq<Seen>): set<Nonce> {
    set e | e in seen :: e.nonce
  }

  function Unexpired(seen: seq<Seen>, stamp: int): seq<Seen> {
    if seen == [] then []
    else (if seen[0].expiry > stamp then [seen[0]] else []) + Unexpired(seen[1..], stamp)
  }

  /** Below half of its bound a cache keeps even what has expired. */
  function Swept(seen: seq<Seen>, max: nat, stamp: int): seq<Seen> {
    if |seen| < max / 2 then seen else Unexpired(seen, stamp)
  }

  datatype Attempt = Attempt(nonce: Nonce, expiry: int, stamp: int)

  predicate Accepts(seen: seq<Seen>, max: nat, c: Attempt) {
    |c.nonce| == NONCE_LEN && c.nonce !in Nonces(Swept(seen, max, c.stamp))
  }

  /** The newest entries of a list, `room` of them at most. */
  function Newest(seen: seq<Seen>, room: nat): seq<Seen> {
    if |seen| > room then seen[|seen| - room..] else seen
  }

  /** The cache after one claim. */
  function After(seen: seq<Seen>, max: nat, c: Attempt): seq<Seen>
    requires max >= 1
  {
    if |c.nonce| != NONCE_LEN then seen
    else if !Accepts(seen, max, c) then Swept(seen, max, c.stamp)
    else Newest(Swept(seen, max, c.stamp), max - 1) + [Seen(c.nonce, c.expiry)]
  }

  class Cache {
    const max: nat
    var seen: seq<Seen>

    ghost predicate Valid()
      reads this
    {
      max >= 1 && |seen| <= max
    }

    constructor (maxEntries: int)
      ensures Valid() && seen == [] && max == if maxEntries < 1 then 1 else maxEntries
    {
      max, seen := if maxEntries < 1 then 1 else maxEntries, [];
    }

    /** File a nonce that is not held; refuse one that is, or that has the wrong length. */
    method Claim(nonce: Nonce, expiry: int, stamp: int) returns (ok: bool)
      requires Valid()
      modifies this
      ensures Valid()
      ensures ok == Accepts(old(seen), max, Attempt(nonce, expiry, stamp))
      ensures seen == After(old(seen), max, Attempt(nonce, expiry, stamp))
    {
      if |nonce| != NONCE_LEN {
        return false;
      }
      Expire(stamp);
      UnexpiredShrinks(old(seen), stamp);
      ghost var swept := seen;
      if exists k :: 0 <= k < |seen| && seen[k].nonce == nonce {
        return false;
      }
      while |seen| >= max
        invariant |seen| <= max && Newest(seen, max - 1) == Newest(swept, max - 1)
        decreases |seen|
      {
        seen := seen[1..];
      }
      seen := seen + [Seen(nonce, expiry)];
      return true;
    }

    method Expire(stamp: int)
      modifies this
      ensures seen == Swept(old(seen), max, stamp)
    {
      if |seen| < max / 2 {
        return;
      }
      seen := Unexpired(seen, stamp);
    }
  }

  lemma {:induction false} UnexpiredShrinks(seen: seq<Seen>, stamp: int)
    ensures |Unexpired(seen, stamp)| <= |seen|
  {
    if seen != [] {
      UnexpiredShrinks(seen[1..], stamp);
    }
  }

  lemma {:induction false} UnexpiredAre(seen: seq<Seen>, stamp: int)
    ensures forall s :: s in Unexpired(seen, stamp) <==> s in seen && s.expiry > stamp
  {
    if seen != [] {
      UnexpiredAre(seen[1..], stamp);
    }
  }

  /** What a claim is checked against, and refused for: the entries that have not expired, and
      in a cache less than half full also those that have. */
  lemma ClaimedExactly(seen: seq<Seen>, max: nat, c: Attempt)
    ensures Accepts(seen, max, c) <==>
              && |c.nonce| == NONCE_LEN
              && forall s :: s in seen && (s.expiry > c.stamp || |seen| < max / 2) ==> s.nonce != c.nonce
  {
    UnexpiredAre(seen, c.stamp);
  }

  /** What a claim leaves: a nonce of the wrong length changes nothing; otherwise nothing that has
      expired stays in a cache at least half full, a new nonce is there with its own expiry, and
      of the others only the oldest go, when there are as many as the bound. */
  lemma ClaimLeaves(seen: seq<Seen>, max: nat, c: Attempt, s: Seen)
    requires max >= 1
    ensures |c.nonce| != NONCE_LEN ==> After(seen, max, c) == seen
    ensures s in After(seen, max, c) ==>
              || s == Seen(c.nonce, c.expiry)
              || (s in seen && (|c.nonce| == NONCE_LEN && |seen| >= max / 2 ==> s.expiry > c.stamp))
    ensures Accepts(seen, max, c) ==> Seen(c.nonce, c.expiry) in After(seen, max, c)
    ensures s in seen && s.expiry > c.stamp && |Unexpired(seen, c.stamp)| < max && |seen| < max ==>
            s in After(seen, max, c)
  {
    UnexpiredAre(seen, c.stamp);
    var after := After(seen, max, c);
    if Accepts(seen, max, c) {
      assert after[|after| - 1] == Seen(c.nonce, c.expiry);
    }
  }

  // ------------------------------------------------------------------ runs

  /** The cache after a run of claims on an empty one. */
  function Run(claims: seq<Attempt>, max: nat): seq<Seen>
    requires max >= 1
  {
    if claims == [] then [] else After(Run(claims[..|claims| - 1], max), max, claims[|claims| - 1])
  }

  predicate Succeeded(claims: seq<Attempt>, max: nat, i: nat)
    requires max >= 1 && i < |claims|
  {
    Accepts(Run(claims[..i], max), max, claims[i])
  }

  /** How many of the claims `lo .. hi` succeeded. */
  function Successes(claims: seq<Attempt>, max: nat, lo: nat, hi: nat): nat
    requires max >= 1 && lo <= hi <= |claims|
    decreases hi - lo
  {
    if lo == hi then 0
    else Successes(claims, max, lo, hi - 1) + if Succeeded(claims, max, hi - 1) then 1 else 0
  }

  lemma {:induction false} NeverOverfull(claims: seq<Attempt>, max: nat)
    requires max >= 1
    ensures |Run(claims, max)| <= max
  {
    if claims != [] {
      var n := |claims| - 1;
      NeverOverfull(claims[..n], max);
      UnexpiredShrinks(Run(claims[..n], max), claims[n].stamp);
    }
  }

  /** `entry` is held, and at most `younger` entries came after it. */
  predicate HeldWithin(seen: seq<Seen>, entry: Seen, younger: nat) {
    exists k :: 0 <= k < |seen| && seen[k] == entry && |seen| - 1 - k <= younger
  }

  lemma {:induction false} SweepKeeps(seen: seq<Seen>, entry: Seen, younger: nat, stamp: int)
    requires HeldWithin(seen, entry, younger) && entry.expiry > stamp
    ensures HeldWithin(Unexpired(seen, stamp), entry, younger)
  {
    var k :| 0 <= k < |seen| && seen[k] == entry && |seen| - 1 - k <= younger;
    var rest := Unexpired(seen[1..], stamp);
    if k == 0 {
      UnexpiredShrinks(seen[1..], stamp);
      assert Unexpired(seen, stamp)[0] == entry;
    } else {
      assert seen[1..][k - 1] == entry;
      SweepKeeps(seen[1..], entry, younger, stamp);
      var j :| 0 <= j < |rest| && rest[j] == entry && |rest| - 1 - j <= younger;
      var d := |Unexpired(seen, stamp)| - |rest|;
      assert Unexpired(seen, stamp)[j + d] == entry;
    }
  }

  /** Making room for one more keeps an entry with few enough behind it. */
  lemma RoomKeeps(seen: seq<Seen>, room: nat, entry: Seen, younger: nat, newcomer: Seen)
    requires HeldWithin(seen, entry, younger) && younger < room
    ensures HeldWithin(Newest(seen, room) + [newcomer], entry, younger + 1)
  {
    var k :| 0 <= k < |seen| && seen[k] == entry && |seen| - 1 - k <= younger;
    var kept := Newest(seen, room);
    assert (kept + [newcomer])[k - (|seen| - |kept|)] == entry;
  }

  lemma HeldNonce(seen: seq<Seen>, entry: Seen, younger: nat)
    requires HeldWithin(seen, entry, younger)
    ensures entry.nonce in Nonces(seen)
  {
  }

  /** One claim later an unexpired entry is still held, or a full cache's worth of other
      claims has succeeded since it was filed. */
  lemma ClaimKeeps(seen: seq<Seen>, max: nat, c: Attempt, entry: Seen, younger: nat)
    requires max >= 1 && |seen| <= max
    requires HeldWithin(seen, entry, younger) && c.stamp < entry.expiry
    ensures Accepts(seen, max, c) ==> c.nonce != entry.nonce
    ensures Accepts(seen, max, c) ==> HeldWithin(After(seen, max, c), entry, younger + 1) || younger + 1 >= max
    ensures !Accepts(seen, max, c) ==> HeldWithin(After(seen, max, c), entry, younger)
  {
    hide HeldWithin, Nonces, Newest, Unexpired;
    var swept := Swept(seen, max, c.stamp);
    SweepKeeps(seen, entry, younger, c.stamp);
    HeldNonce(swept, entry, younger);
    if younger + 1 < max {
      RoomKeeps(swept, max - 1, entry, younger, Seen(c.nonce, c.expiry));
    }
  }

  lemma JustFiled(seen: seq<Seen>, max: nat, c: Attempt)
    requires max >= 1 && Accepts(seen, max, c)
    ensures HeldWithin(After(seen, max, c), Seen(c.nonce, c.expiry), 0)
  {
    var after := After(seen, max, c);
    assert after[|after| - 1] == Seen(c.nonce, c.expiry);
  }

  lemma {:induction false} StillHeld(claims: seq<Attempt>, max: nat, i: nat, j: nat)
    requires max >= 1 && i < j <= |claims| && Succeeded(claims, max, i)
    requires forall k :: i < k < j ==> claims[k].stamp < claims[i].expiry
    ensures || HeldWithin(Run(claims[..j], max), Seen(claims[i].nonce, claims[i].expiry),
                          Successes(claims, max, i + 1, j))
            || Successes(claims, max, i + 1, j) >= max
    decreases j
  {
    hide HeldWithin, After, Accepts;
    assert claims[..j][..j - 1] == claims[..j - 1];
    if j == i + 1 {
      JustFiled(Run(claims[..i], max), max, claims[i]);
    } else {
      StillHeld(claims, max, i, j - 1);
      if Successes(claims, max, i + 1, j - 1) < max {
        NeverOverfull(claims[..j - 1], max);
        ClaimKeeps(Run(claims[..j - 1], max), max, claims[j - 1], Seen(claims[i].nonce, claims[i].expiry),
                   Successes(claims, max, i + 1, j - 1));
      }
    }
  }

  /** A nonce is claimed twice only if, in between, some call ran at or past the first
      claim's expiry, or a full cache's worth of other claims succeeded. */
  lemma ReuseBound(claims: seq<Attempt>, max: nat, i: nat, j: nat)
    requires max >= 1 && i < j < |claims|
    requires Succeeded(claims, max, i) && Succeeded(claims, max, j) && claims[i].nonce == claims[j].nonce
    ensures (exists k :: i < k <= j && claims[k].stamp >= claims[i].expiry) || Successes(claims, max, i + 1, j) >= max
  {
    if !exists k :: i < k <= j && claims[k].stamp >= claims[i].expiry {
      StillHeld(claims, max, i, j);
      if Successes(claims, max, i + 1, j) < max {
        NeverOverfull(claims[..j], max);
        ClaimKeeps(Run(claims[..j], max), max, claims[j], Seen(claims[i].nonce, claims[i].expiry),
                   Successes(claims, max, i + 1, j));
      }
    }
  }
}
