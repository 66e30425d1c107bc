/** How long the bounded revocation table remembers a pair on runs, and what is forgotten can
    do when it comes round again. (src/cert_store.py:113-159) */
module CertCrowd {
  import opened Wrappers
  import opened Certificates
  import opened Eviction
  import opened CertState
  import opened CertNews
  import opened Cycles

  /** Places that nobody trusted has taken for good. */
  function Free(s: State): int {
    s.maxRevocations - Trusted(s)
  }

  /** The pairs heard after this one, as far as the table still holds them. */
  function Behind(told: seq<RevKey>, key: RevKey): set<RevKey>
    requires key in told
  {
    AsSet(told[Place(told, key) + 1..])
  }

  /** Pairs other than `key` that one call files as new. */
  function Entered(s: State, s': State, key: RevKey): set<RevKey> {
    set k | k in s'.told && k !in s.told && k != key
  }

  /** Pairs other than `key` filed as new by the calls `i .. j`. */
  function Others(run: seq<State>, key: RevKey, i: nat, j: nat): set<RevKey>
    requires i <= j < |run|
    decreases j
  {
    if i == j then {} else Others(run, key, i, j - 1) + Entered(run[j - 1], run[j], key)
  }

  // ------------------------------------------------------------------ one call

  lemma {:induction false} PlaceInFront(told: seq<RevKey>, more: seq<RevKey>, key: RevKey)
    requires key in told
    ensures Place(told + more, key) == Place(told, key)
  {
    if told[0] != key {
      assert (told + more)[1..] == told[1..] + more;
      PlaceInFront(told[1..], more, key);
    }
  }

  lemma BehindAndOne(told: seq<RevKey>, key: RevKey, newcomer: RevKey)
    requires key in told
    ensures Behind(told + [newcomer], key) == Behind(told, key) + {newcomer}
  {
    PlaceInFront(told, [newcomer], key);
    var p := Place(told, key) + 1;
    assert (told + [newcomer])[p..] == told[p..] + [newcomer];
  }

  lemma BehindTail(told: seq<RevKey>, key: RevKey)
    requires told != [] && told[0] != key && key in told[1..]
    ensures Behind(told, key) == Behind(told[1..], key)
  {
    var p := Place(told[1..], key);
    assert told[1..][p + 1..] == told[p + 2..];
  }

  lemma BehindHead(told: seq<RevKey>, key: RevKey)
    ensures Behind([key] + told, key) == AsSet(told)
  {
    assert ([key] + told)[1..] == told;
  }

  /** Evictions take from what is behind a pair and add nothing. */
  lemma {:induction false} DropKeepsBehind(told: seq<RevKey>, keep: set<RevKey>, n: nat, key: RevKey)
    requires Distinct(told) && key in told && key in DropOldest(told, keep, n)
    ensures Behind(DropOldest(told, keep, n), key) <= Behind(told, key)
  {
    hide Behind;
    if n > 0 {
      var first, rest := told[0], told[1..];
      var m := if first in keep then n else n - 1;
      var left := DropOldest(rest, keep, m);
      DropOldestMeaning(rest, keep, m);
      assert told == [first] + rest && first !in rest;
      if first == key {
        BehindHead(left, key);
        BehindHead(rest, key);
      } else {
        DropKeepsBehind(rest, keep, m, key);
        BehindTail(told, key);
        if first in keep {
          assert ([first] + left)[1..] == left;
          BehindTail([first] + left, key);
        }
      }
    }
  }

  lemma DistinctBehind(told: seq<RevKey>, p: nat)
    requires Distinct(told) && p < |told|
    ensures Distinct(told[p + 1..]) && told[p] !in told[p + 1..]
  {
  }

  lemma BehindSize(told: seq<RevKey>, key: RevKey)
    requires Distinct(told) && key in told
    ensures |Behind(told, key)| == |told| - 1 - Place(told, key) && key !in Behind(told, key)
  {
    hide Place, Distinct;
    DistinctBehind(told, Place(told, key));
    DistinctSize(told[Place(told, key) + 1..]);
  }

  /** Filing one more in a table inside its bound costs the pair its place only if the table
      is full and everything before the pair is trusted. */
  lemma OneGoes(told: seq<RevKey>, keep: set<RevKey>, roots: set<NodeId>, max: int, key: RevKey, newcomer: RevKey)
    requires Distinct(told) && key in told && newcomer !in told && |told| <= max
    requires forall k :: k in told + [newcomer] ==> (k in keep <==> k.issuer in roots)
    requires key !in DropOldest(told + [newcomer], keep, Excess(|told| + 1, max))
    ensures |told| == max && key.issuer !in roots && Untrusted(told[..Place(told, key)], roots) == 0
  {
    hide DropOldest, Untrusted;
    var all, p := told + [newcomer], Place(told, key);
    DropOldestMeaning(all, keep, Excess(|told| + 1, max));
    DropNothing(all, keep, 0);
    assert all[p] == key && all[..p] == told[..p];
    DropsUpTo(all, keep, roots, 1, p);
  }

  lemma NewcomerStays(told: seq<RevKey>, keep: set<RevKey>, roots: set<NodeId>, key: RevKey, newcomer: RevKey)
    requires Distinct(told) && key in told && newcomer !in told && key.issuer !in roots
    requires forall k :: k in told + [newcomer] ==> (k in keep <==> k.issuer in roots)
    ensures newcomer in DropOldest(told + [newcomer], keep, 1)
  {
    hide DropOldest, Untrusted;
    var all := told + [newcomer];
    assert all[|told|] == newcomer && all[..|told|] == told;
    DropOldestMeaning(all, keep, 1);
    UntrustedFits(told, roots);
    if newcomer.issuer !in roots {
      DropsUpTo(all, keep, roots, 1, |told|);
    }
  }

  lemma TrustedBefore(told: seq<RevKey>, roots: set<NodeId>, p: nat)
    requires p <= |told| && Untrusted(told[..p], roots) == 0
    ensures |told| - Untrusted(told, roots) >= p
  {
    hide Untrusted;
    assert told == told[..p] + told[p..];
    UntrustedConcat(told[..p], told[p..], roots);
    UntrustedFits(told[p..], roots);
  }

  /** So it goes with all places taken by trusted entries and by those heard after it. */
  lemma CrowdedOut(told: seq<RevKey>, keep: set<RevKey>, roots: set<NodeId>, max: int, key: RevKey, newcomer: RevKey)
    requires Distinct(told) && key in told && newcomer !in told && |told| <= max
    requires forall k :: k in told + [newcomer] ==> (k in keep <==> k.issuer in roots)
    requires key !in DropOldest(told + [newcomer], keep, Excess(|told| + 1, max))
    ensures |Behind(told, key) + {newcomer}| + |told| - Untrusted(told, roots) >= max
    ensures newcomer in DropOldest(told + [newcomer], keep, Excess(|told| + 1, max))
  {
    hide Behind, DropOldest, Untrusted, Distinct;
    OneGoes(told, keep, roots, max, key, newcomer);
    NewcomerStays(told, keep, roots, key, newcomer);
    TrustedBefore(told, roots, Place(told, key));
    BehindSize(told, key);
    SomeBehind(told, key);
  }

  lemma SomeBehind(told: seq<RevKey>, key: RevKey)
    requires key in told
    ensures forall k :: k in Behind(told, key) ==> k in told
  {
  }

  /** A call that keeps the pair puts behind it only what it files; one that loses the pair
      files another, and together with those behind they take every free place. */
  ghost predicate Crowds(s: State, s': State, key: RevKey)
    requires key in s.told
  {
    if key in s'.told then Behind(s'.told, key) <= Behind(s.told, key) + Entered(s, s', key)
    else |Behind(s.told, key) + Entered(s, s', key)| >= Free(s)
  }

  lemma StepCrowds(s: State, op: Op, s': State, key: RevKey)
    requires s.Wf() && s.Bounded() && TableFits(s) && Step(s, op, s') && key in s.told
    ensures Crowds(s, s', key)
  {
    hide Behind, DropOldest, Untrusted, Trusted;
    if op.Revoke? && ParseRevocation(op.record).Some? && !s.Stale(ParseRevocation(op.record).value) {
      FiledCrowds(s, ParseRevocation(op.record).value, op.record, key);
      assert s'.told == s.Filed(ParseRevocation(op.record).value, op.record).told;
    } else {
      assert s'.told == s.told;
    }
  }

  lemma FiledCrowds(s: State, r: Revocation, record: RevocationRecord, key: RevKey)
    requires s.Shape() && TableFits(s) && key in s.told && !s.Stale(r)
    ensures Crowds(s, s.Filed(r, record), key)
  {
    hide Behind, DropOldest, Untrusted;
    var s', newcomer := s.Filed(r, record), KeyOf(r);
    var heard := s.(told := ToldWith(s, r), revoked := s.revoked[newcomer := Held(r.issuedAt, r.reason, record)]);
    var keep, n := heard.TrustedKeys(), Excess(|heard.told|, s.maxRevocations);
    assert s'.told == DropOldest(heard.told, keep, n);
    DropOldestMeaning(heard.told, keep, n);
    if newcomer in s.told {
      DropNothing(s.told, keep, n);
    } else {
      BehindAndOne(s.told, key, newcomer);
      if key in s'.told {
        DropKeepsBehind(heard.told, keep, n, key);
        SomeBehind(s'.told, key);
        NewcomerEnters(s, s', key, newcomer);
      } else {
        CrowdedOut(s.told, keep, s.roots, s.maxRevocations, key, newcomer);
        assert Entered(s, s', key) == {newcomer};
      }
    }
  }

  lemma NewcomerEnters(s: State, s': State, key: RevKey, newcomer: RevKey)
    requires key in s.told && key in s'.told && newcomer !in s.told && key != newcomer
    requires Behind(s'.told, key) <= Behind(s.told, key) + {newcomer}
    requires forall k :: k in Behind(s'.told, key) ==> k in s'.told
    ensures Crowds(s, s', key)
  {
    hide Behind;
  }

  function TrustedIn(told: seq<RevKey>, roots: set<NodeId>): set<RevKey> {
    set k | k in told && k.issuer in roots
  }

  lemma TrustedInSnoc(told: seq<RevKey>, last: RevKey, roots: set<NodeId>)
    requires last !in told
    ensures |TrustedIn(told + [last], roots)| == |TrustedIn(told, roots)| + if last.issuer in roots then 1 else 0
  {
    var before := TrustedIn(told, roots);
    assert TrustedIn(told + [last], roots) == if last.issuer in roots then before + {last} else before;
  }

  lemma {:induction false} TrustedIsCount(told: seq<RevKey>, roots: set<NodeId>)
    requires Distinct(told)
    ensures |told| - Untrusted(told, roots) == |TrustedIn(told, roots)|
  {
    hide TrustedIn;
    if told == [] {
      NobodyTrusted(roots);
    } else {
      var front, last := told[..|told| - 1], told[|told| - 1];
      TrustedIsCount(front, roots);
      assert told == front + [last] && last !in front;
      TrustedInSnoc(front, last, roots);
    }
  }

  lemma NobodyTrusted(roots: set<NodeId>)
    ensures TrustedIn([], roots) == {}
  {
  }

  /** No call but `remove_root` gives a trusted place back. */
  lemma FreeNeverGrows(s: State, op: Op, s': State)
    requires s.Wf() && s.Bounded() && Step(s, op, s') && !op.RemoveRoot?
    ensures Free(s') <= Free(s) && s'.maxRevocations == s.maxRevocations
  {
    StepKeepsWf(s, op, s');
    StepKeepsRevocations(s, op, s');
    TrustedIsCount(s.told, s.roots);
    TrustedIsCount(s'.told, s'.roots);
    SubsetSize(TrustedIn(s.told, s.roots), TrustedIn(s'.told, s'.roots));
  }

  // ------------------------------------------------------------------ runs

  /** A stretch of a run without `remove_root`, from a table inside its bound. */
  ghost predicate Stretch(run: seq<State>, ops: seq<Op>, i: nat, j: nat) {
    && IsRun(run, ops) && i <= j < |run|
    && run[i].Wf() && run[i].Bounded() && TableFits(run[i])
    && forall k :: i <= k < j ==> !ops[k].RemoveRoot?
  }

  lemma {:induction false} StretchKeeps(run: seq<State>, ops: seq<Op>, i: nat, j: nat)
    requires Stretch(run, ops, i, j)
    ensures Stretch(run, ops, j, j) && Free(run[j]) <= Free(run[i])
    decreases j
  {
    hide Free, TableFits, State.Bounded;
    if i < j {
      StretchKeeps(run, ops, i, j - 1);
      StepKeepsWf(run[j - 1], ops[j - 1], run[j]);
      StepKeepsFit(run[j - 1], ops[j - 1], run[j]);
      FreeNeverGrows(run[j - 1], ops[j - 1], run[j]);
    }
  }

  /** From call `i` to call `j`: the pair is held, with nothing behind it but what was behind
      it and what was filed since; or these take every free place. */
  ghost predicate StillHeld(run: seq<State>, key: RevKey, i: nat, j: nat)
    requires i <= j < |run| && key in run[i].told
  {
    var after := Behind(run[i].told, key) + Others(run, key, i, j);
    (key in run[j].told && Behind(run[j].told, key) <= after) || |after| >= Free(run[j])
  }

  lemma {:induction false} HeldUntilCrowdedOut(run: seq<State>, ops: seq<Op>, key: RevKey, i: nat, j: nat)
    requires Stretch(run, ops, i, j) && key in run[i].told
    ensures StillHeld(run, key, i, j)
    decreases j
  {
    hide Free, Behind, Entered, Crowds;
    if i < j {
      HeldUntilCrowdedOut(run, ops, key, i, j - 1);
      StretchKeeps(run, ops, i, j - 1);
      FreeNeverGrows(run[j - 1], ops[j - 1], run[j]);
      if key in run[j - 1].told {
        StepCrowds(run[j - 1], ops[j - 1], run[j], key);
      }
      OneMoreCall(run, key, i, j);
    }
  }

  lemma OneMoreCall(run: seq<State>, key: RevKey, i: nat, j: nat)
    requires i < j < |run| && key in run[i].told && StillHeld(run, key, i, j - 1)
    requires Free(run[j]) <= Free(run[j - 1])
    requires key in run[j - 1].told ==> Crowds(run[j - 1], run[j], key)
    ensures StillHeld(run, key, i, j)
  {
    hide Free, Behind, Entered;
    var before := Behind(run[i].told, key) + Others(run, key, i, j - 1);
    var last := Entered(run[j - 1], run[j], key);
    assert Behind(run[i].told, key) + Others(run, key, i, j) == before + last;
    SubsetSize(before, before + last);
    if key in run[j - 1].told && Behind(run[j - 1].told, key) <= before {
      SubsetSize(Behind(run[j - 1].told, key) + last, before + last);
    }
  }

  /** Call `i` files the pair as new. */
  ghost predicate FiledAt(run: seq<State>, key: RevKey, i: nat) {
    i + 1 < |run| && key !in run[i].told && key in run[i + 1].told
  }

  lemma OnlyTheNewcomer(s: State, op: Op, s': State, key: RevKey)
    requires s.Wf() && Step(s, op, s') && key !in s.told && key in s'.told
    ensures Behind(s'.told, key) == {}
  {
    hide DropOldest, Behind;
    assert op.Revoke? && ParseRevocation(op.record).Some? && !s.Stale(ParseRevocation(op.record).value);
    var r := ParseRevocation(op.record).value;
    var heard := s.(told := ToldWith(s, r), revoked := s.revoked[KeyOf(r) := Held(r.issuedAt, r.reason, op.record)]);
    var keep, n := heard.TrustedKeys(), Excess(|heard.told|, s.maxRevocations);
    assert s'.told == DropOldest(heard.told, keep, n);
    DropOldestMeaning(heard.told, keep, n);
    assert key == KeyOf(r);
    DropKeepsBehind(heard.told, keep, n, key);
    NothingBehindTheLast(s.told, key);
  }

  lemma NothingBehindTheLast(told: seq<RevKey>, key: RevKey)
    requires key !in told
    ensures Behind(told + [key], key) == {}
  {
    LastPlace(told, key);
  }

  lemma LostBy(run: seq<State>, ops: seq<Op>, key: RevKey, i: nat, k: nat)
    requires Stretch(run, ops, i, k) && FiledAt(run, key, i) && i < k && key !in run[k].told
    ensures |Others(run, key, i + 1, k)| >= Free(run[k])
  {
    hide Free, Behind, Entered, TableFits, Others;
    OnlyTheNewcomer(run[i], ops[i], run[i + 1], key);
    StretchKeeps(run, ops, i, i + 1);
    HeldUntilCrowdedOut(run, ops, key, i + 1, k);
    assert {} + Others(run, key, i + 1, k) == Others(run, key, i + 1, k);
  }

  /** A pair filed as new is held until as many other pairs were filed as new as there are
      places that no trusted entry takes. */
  lemma LostOnlyToACrowd(run: seq<State>, ops: seq<Op>, key: RevKey, i: nat, k: nat, j: nat)
    requires Stretch(run, ops, i, j) && FiledAt(run, key, i) && i < k <= j && key !in run[k].told
    ensures |Others(run, key, i + 1, j)| >= Free(run[j])
  {
    hide Free, Entered, TableFits, Others;
    LostBy(run, ops, key, i, k);
    StretchKeeps(run, ops, i, k);
    StretchKeeps(run, ops, k, j);
    OthersGrow(run, key, i + 1, k, j);
    SubsetSize(Others(run, key, i + 1, k), Others(run, key, i + 1, j));
  }

  lemma {:induction false} OthersGrow(run: seq<State>, key: RevKey, i: nat, k: nat, j: nat)
    requires i <= k <= j < |run|
    ensures Others(run, key, i, k) <= Others(run, key, i, j)
    decreases j
  {
    if k < j {
      OthersGrow(run, key, i, k, j - 1);
    }
  }

  // ------------------------------------------------------------------ news twice, and times that fall

  /** The record was kept as new by call `i`, and call `j` reports it as news once more. */
  ghost predicate NewsTwice(run: seq<State>, ops: seq<Op>, key: RevKey, i: nat, j: nat) {
    && Stretch(run, ops, i, j) && FiledAt(run, key, i)
    && i < j < |ops| && ops[j] == ops[i] && IsNews(run[i], ops[i], key) && IsNews(run[j], ops[j], key)
  }

  /** The pair was kept as new by call `i`, and in what follows its time goes back. */
  ghost predicate WalksBack(run: seq<State>, ops: seq<Op>, key: RevKey, i: nat, a: nat, j: nat) {
    && Stretch(run, ops, i, j) && FiledAt(run, key, i)
    && i < a <= j && key in run[a].revoked && key in run[j].revoked
    && run[j].revoked[key].issuedAt < run[a].revoked[key].issuedAt
  }

  lemma ToldIsHeld(run: seq<State>, ops: seq<Op>, key: RevKey, i: nat, k: nat)
    requires Stretch(run, ops, i, k)
    ensures key in run[k].told <==> key in run[k].revoked
  {
    hide TableFits, State.Bounded;
    StretchKeeps(run, ops, i, k);
  }

  /** A record that was kept is news again only after its pair was lost. */
  lemma TwiceNeedsALoss(run: seq<State>, ops: seq<Op>, key: RevKey, i: nat, j: nat)
    requires NewsTwice(run, ops, key, i, j)
    ensures |Others(run, key, i + 1, j)| >= Free(run[j])
  {
    hide Free, Others, IsNews, IsRun, TableFits, State.Wf, State.Bounded;
    forall k | i < k <= j ensures key in run[k].told <==> key in run[k].revoked {
      ToldIsHeld(run, ops, key, i, k);
    }
    if forall k :: i < k <= j ==> key in run[k].revoked {
      KeptIsOldNews(run, ops, key, i, j);
    } else {
      var k :| i < k <= j && key !in run[k].told;
      LostOnlyToACrowd(run, ops, key, i, k, j);
    }
  }

  /** A pair's time goes back only after the pair was lost. */
  lemma BackNeedsALoss(run: seq<State>, ops: seq<Op>, key: RevKey, i: nat, a: nat, j: nat)
    requires WalksBack(run, ops, key, i, a, j)
    ensures |Others(run, key, i + 1, j)| >= Free(run[j])
  {
    hide Free, Others, Step, TableFits, State.Wf, State.Bounded;
    forall k | i < k <= j ensures key in run[k].told <==> key in run[k].revoked {
      ToldIsHeld(run, ops, key, i, k);
    }
    if forall k :: a <= k <= j ==> key in run[k].revoked {
      StretchKeeps(run, ops, i, a);
      RevocationsDieOut(run, ops, key, a, j);
    } else {
      var k :| a <= k <= j && key !in run[k].told;
      LostOnlyToACrowd(run, ops, key, i, k, j);
    }
  }

  // ------------------------------------------------------------------ what a crowd can do

  const US := KeyId(0)
  const THEM := BareId(0)
  const LATE := 9
  const EARLY := 3

  function PairOf(k: nat): RevKey {
    RevKey(KeyId(k + 1), THEM)
  }

  /** What issuer `k` says, and the store reads. */
  function Say(k: nat, at: nat): (r: RevocationRecord)
    requires at <= MAX_TIMESTAMP
    ensures ParseRevocation(r) == Some(Revocation(KeyId(k + 1), THEM, at, 0))
  {
    Framed(REVOCATION_VERSION, at, THEM, 0, k + 1, Signature(k + 1, RevocationBody(at, THEM, 0), 0))
  }

  function Pairs(ks: seq<nat>): (r: seq<RevKey>)
    ensures |r| == |ks| && forall i :: 0 <= i < |r| ==> r[i] == PairOf(ks[i])
  {
    seq(|ks|, i requires 0 <= i < |ks| => PairOf(ks[i]))
  }

  function Said(key: RevKey): RevocationRecord {
    if key.issuer.KeyId? && key.issuer.key > 0 then Say(key.issuer.key - 1, LATE) else Garbage
  }

  /** A node that trusts itself and knows what the last issuers of the cycle said. */
  function Table(cycle: seq<nat>, slots: nat): State
    requires slots <= |cycle|
  {
    var told := Pairs(cycle[|cycle| - slots..]);
    State(US, {US}, [], map[], told, map k | k in told :: Held(LATE, 0, Said(k)), slots, 1, slots)
  }

  lemma PairsDistinct(ks: seq<nat>)
    requires Distinct(ks)
    ensures Distinct(Pairs(ks))
    ensures forall k: nat :: PairOf(k) in Pairs(ks) <==> k in ks
  {
    forall k: nat | k in ks ensures PairOf(k) in Pairs(ks) {
      var i :| 0 <= i < |ks| && ks[i] == k;
      assert Pairs(ks)[i] == PairOf(k);
    }
    forall k: nat | PairOf(k) in Pairs(ks) ensures k in ks {
      var i :| 0 <= i < |ks| && Pairs(ks)[i] == PairOf(k);
      assert ks[i] == k;
    }
  }

  lemma TableOk(cycle: seq<nat>, slots: nat)
    requires Distinct(cycle) && slots <= |cycle|
    ensures var s := Table(cycle, slots); s.Wf() && s.Bounded() && TableFits(s) && Free(s) == slots
    ensures slots < |cycle| ==> PairOf(cycle[0]) !in Table(cycle, slots).told
  {
    var last, s := cycle[|cycle| - slots..], Table(cycle, slots);
    PairsDistinct(last);
    assert s.Wf();
    assert TrustedIn(s.told, s.roots) == {};
    TrustedIsCount(s.told, s.roots);
    forall i | 0 <= i < slots ensures last[i] == cycle[|cycle| - slots + i] {
    }
  }

  lemma OldestGoes(told: seq<RevKey>, newcomer: RevKey)
    requires told != []
    ensures DropOldest(told + [newcomer], {}, 1) == told[1..] + [newcomer]
  {
    assert (told + [newcomer])[1..] == told[1..] + [newcomer];
    DropNothing(told[1..] + [newcomer], {}, 0);
  }

  /** Filing one more in a full table of untrusted entries, where nothing is held to be voided. */
  lemma FullTableFiles(s: State, r: Revocation, record: RevocationRecord)
    requires s.certs == map[] && s.told != [] && |s.told| == s.maxRevocations && KeyOf(r) !in s.told
    requires forall k :: k in s.told + [KeyOf(r)] ==> k.issuer !in s.roots
    ensures var (told, revoked) := (s.told[1..] + [KeyOf(r)],
                                    s.revoked[KeyOf(r) := Held(r.issuedAt, r.reason, record)]);
            s.AfterRevoke(r, record) == s.(told := told, revoked := map k | k in told && k in revoked :: revoked[k])
  {
    hide DropOldest;
    OldestGoes(s.told, KeyOf(r));
    var heard := s.(told := s.told + [KeyOf(r)], revoked := s.revoked[KeyOf(r) := Held(r.issuedAt, r.reason, record)]);
    assert heard.TrustedKeys() == {};
  }

  lemma NextTold(cycle: seq<nat>, slots: nat)
    requires 1 <= slots < |cycle|
    ensures Table(Rotate(cycle), slots).told == Table(cycle, slots).told[1..] + [PairOf(cycle[0])]
  {
    var n := |cycle| - slots;
    assert Rotate(cycle)[n..] == cycle[n..][1..] + [cycle[0]];
  }

  /** Filing the next of the cycle, whatever time it names, leaves what the turned cycle's table
      holds, but for that time. */
  lemma Refiled(cycle: seq<nat>, slots: nat, at: nat)
    requires Distinct(cycle) && 1 <= slots < |cycle| && at <= MAX_TIMESTAMP
    ensures var (s, key) := (Table(cycle, slots), PairOf(cycle[0]));
            var s' := s.AfterRevoke(ParseRevocation(Say(cycle[0], at)).value, Say(cycle[0], at));
            && IsNews(s, Op.Revoke(Say(cycle[0], at)), key) && Step(s, Op.Revoke(Say(cycle[0], at)), s')
            && s' == Table(Rotate(cycle), slots).(revoked := s'.revoked)
            && s'.revoked == Table(Rotate(cycle), slots).revoked[key := Held(at, 0, Say(cycle[0], at))]
  {
    hide DropOldest, State.AfterRevoke, State.Wf, Say, Said, TableFits, Free;
    var s, key, record := Table(cycle, slots), PairOf(cycle[0]), Say(cycle[0], at);
    TableOk(cycle, slots);
    NextTold(cycle, slots);
    FullTableFiles(s, ParseRevocation(record).value, record);
    SameButOne(s.told[1..], key, Held(at, 0, record), s.revoked);
  }

  lemma SameButOne(told: seq<RevKey>, key: RevKey, held: Held, revoked: map<RevKey, Held>)
    requires forall k :: k in told ==> k in revoked && revoked[k] == Held(LATE, 0, Said(k))
    ensures var (all, filed) := (told + [key], revoked[key := held]);
            (map k | k in all && k in filed :: filed[k]) == (map k | k in all :: Held(LATE, 0, Said(k)))[key := held]
  {
    hide Said;
  }

  lemma EnteredByShift(s: State, s': State, key: RevKey, other: RevKey)
    requires s.told != [] && key !in s.told && s'.told == s.told[1..] + [key]
    ensures Entered(s, s', other) == {key} - {other} && key in s'.told
  {
    assert s'.told[|s.told| - 1] == key;
  }

  lemma TableSays(cycle: seq<nat>, slots: nat)
    requires 1 <= slots < |cycle|
    ensures var (next, key) := (Table(Rotate(cycle), slots), PairOf(cycle[0]));
            key in next.revoked && next.revoked[key] == Held(LATE, 0, Say(cycle[0], LATE))
  {
    NextTold(cycle, slots);
    var next := Table(Rotate(cycle), slots);
    assert next.told[|next.told| - 1] == PairOf(cycle[0]);
  }

  /** One call of the circulating records. */
  lemma OneTurn(cycle: seq<nat>, slots: nat)
    requires Distinct(cycle) && 1 <= slots < |cycle|
    ensures var (s, s', key) := (Table(cycle, slots), Table(Rotate(cycle), slots), PairOf(cycle[0]));
            && Step(s, Op.Revoke(Say(cycle[0], LATE)), s') && IsNews(s, Op.Revoke(Say(cycle[0], LATE)), key)
            && key !in s.told && key in s'.told && forall other :: Entered(s, s', other) == {key} - {other}
  {
    var s, s', key := Table(cycle, slots), Table(Rotate(cycle), slots), PairOf(cycle[0]);
    assert s.told != [];
    hide State.AfterRevoke, State.Wf, Say, TableFits, Free, IsNews, Step, Table, Entered;
    TableOk(cycle, slots);
    NextTold(cycle, slots);
    Refiled(cycle, slots, LATE);
    TableSays(cycle, slots);
    assert s'.revoked[key := s'.revoked[key]] == s'.revoked;
    forall other ensures Entered(s, s', other) == {key} - {other} && key in s'.told {
      EnteredByShift(s, s', key, other);
    }
  }

  function States(cycle: seq<nat>, slots: nat, n: nat): (run: seq<State>)
    requires slots <= |cycle|
    ensures |run| == n + 1 && forall k :: 0 <= k <= n ==> run[k] == Table(Turned(cycle, k), slots)
  {
    seq(n + 1, k requires 0 <= k <= n => Table(Turned(cycle, k), slots))
  }

  function Calls(cycle: seq<nat>, n: nat): (ops: seq<Op>)
    requires cycle != []
    ensures |ops| == n && forall k :: 0 <= k < n ==> ops[k] == Op.Revoke(Say(Turned(cycle, k)[0], LATE))
  {
    seq(n, k requires 0 <= k < n => Op.Revoke(Say(Turned(cycle, k)[0], LATE)))
  }

  /** Call `k` of the circulating records, in a table that has room for it. */
  ghost predicate TurnOk(cycle: seq<nat>, slots: nat, k: nat)
    requires 1 <= slots < |cycle|
  {
    var (c, d) := (Turned(cycle, k), Turned(cycle, k + 1));
    var (s, s', op, key) := (Table(c, slots), Table(d, slots), Op.Revoke(Say(c[0], LATE)), PairOf(c[0]));
    && s.Wf() && s.Bounded() && TableFits(s) && Free(s) == slots
    && Step(s, op, s') && IsNews(s, op, key) && HasRoomFor(s, ParseRevocation(op.record).value)
    && key !in s.told && key in s'.told
    && forall other :: Entered(s, s', other) == {key} - {other}
  }

  lemma EveryTurn(cycle: seq<nat>, slots: nat, k: nat)
    requires Distinct(cycle) && 1 <= slots < |cycle|
    ensures TurnOk(cycle, slots, k)
  {
    hide Table, TableFits, Entered, IsNews, Free, HasRoomFor, State.Wf, State.Bounded;
    TurnedKeeps(cycle, k);
    TableOk(Turned(cycle, k), slots);
    OneTurn(Turned(cycle, k), slots);
    RoomWhileFree(Table(Turned(cycle, k), slots), ParseRevocation(Say(Turned(cycle, k)[0], LATE)).value);
  }

  lemma RoomWhileFree(s: State, r: Revocation)
    requires s.Wf() && TableFits(s) && Free(s) >= 1
    ensures HasRoomFor(s, r)
  {
    hide HasRoomFor, TableFits, Trusted;
    RoomIsASlot(s, r);
  }

  /** More issuers than places, nobody of them trusted, each saying one thing once: every one
      of any number of calls is news, all of them have room, and nothing is any different each
      time all have spoken. */
  lemma CirculatesForEver(cycle: seq<nat>, slots: nat, n: nat)
    requires Distinct(cycle) && 1 <= slots < |cycle|
    ensures var (run, ops) := (States(cycle, slots, n), Calls(cycle, n));
            && Stretch(run, ops, 0, n)
            && (forall k :: 0 <= k < n ==> IsNews(run[k], ops[k], PairOf(Turned(cycle, k)[0])))
            && (forall k :: 0 <= k < n ==> HasRoomFor(run[k], ParseRevocation(ops[k].record).value))
            && (n >= |cycle| ==> run[|cycle|] == run[0])
  {
    hide Table, IsNews, Free, Entered, TableFits, Turned, HasRoomFor, Say, State.Wf, State.Bounded;
    var run, ops := States(cycle, slots, n), Calls(cycle, n);
    EveryTurn(cycle, slots, 0);
    forall k | 0 <= k < n
      ensures Step(run[k], ops[k], run[k + 1]) && IsNews(run[k], ops[k], PairOf(Turned(cycle, k)[0]))
      ensures HasRoomFor(run[k], ParseRevocation(ops[k].record).value)
    {
      EveryTurn(cycle, slots, k);
    }
    FullTurn(cycle);
  }

  lemma {:induction false} OthersOfTurns(cycle: seq<nat>, slots: nat, n: nat, m: nat)
    requires Distinct(cycle) && 1 <= slots < |cycle| && 1 <= m <= |cycle| && m <= n
    ensures Others(States(cycle, slots, n), PairOf(cycle[0]), 1, m) == AsSet(Pairs(cycle[1..m]))
    decreases m
  {
    hide Table, Turned, Entered, IsNews, TableFits, Free, HasRoomFor, State.Wf, State.Bounded, Step;
    if m > 1 {
      OthersOfTurns(cycle, slots, n, m - 1);
      EveryTurn(cycle, slots, m - 1);
      HeadOfTurn(cycle, m - 1);
      assert cycle[1..m] == cycle[1..m - 1] + [cycle[m - 1]];
      OnePairMore(cycle[1..m - 1], cycle[m - 1]);
    }
  }

  lemma OnePairMore(ks: seq<nat>, k: nat)
    ensures AsSet(Pairs(ks + [k])) == AsSet(Pairs(ks)) + {PairOf(k)}
  {
    assert Pairs(ks + [k]) == Pairs(ks) + [PairOf(k)];
  }

  lemma OthersCount(cycle: seq<nat>, slots: nat, n: nat)
    requires Distinct(cycle) && 1 <= slots < |cycle| <= n
    ensures |Others(States(cycle, slots, n), PairOf(cycle[0]), 1, |cycle|)| == |cycle| - 1
  {
    hide *;
    OthersOfTurns(cycle, slots, n, |cycle|);
    assert cycle[1..|cycle|] == cycle[1..];
    DistinctTail(cycle);
    PairsDistinct(cycle[1..]);
    DistinctSize(Pairs(cycle[1..]));
  }

  lemma TwiceWithACrowd(slots: nat, others: nat)
    returns (run: seq<State>, ops: seq<Op>, key: RevKey, i: nat, j: nat)
    requires 1 <= slots <= others
    ensures NewsTwice(run, ops, key, i, j) && Free(run[j]) == slots && |Others(run, key, i + 1, j)| == others
  {
    hide Table, Turned, Entered, IsNews, TableFits, Free, HasRoomFor, Others, State.Wf, State.Bounded;
    var cycle: seq<nat> := seq(others + 1, k requires 0 <= k <= others => k);
    run, ops, key := States(cycle, slots, others + 2), Calls(cycle, others + 2), PairOf(cycle[0]);
    i, j := 0, others + 1;
    CirculatesForEver(cycle, slots, others + 2);
    FullTurn(cycle);
    EveryTurn(cycle, slots, 0);
    EveryTurn(cycle, slots, j);
    OthersCount(cycle, slots, others + 2);
  }

  /** A record was kept and is news again, with `others` more pairs filed in between and
      `slots` places that no trusted entry takes. */
  ghost predicate TwiceWith(slots: int, others: nat, run: seq<State>, ops: seq<Op>, key: RevKey, i: nat, j: nat) {
    NewsTwice(run, ops, key, i, j) && Free(run[j]) == slots && |Others(run, key, i + 1, j)| == others
  }

  lemma TwiceWithAtLeast(slots: int, others: nat, run: seq<State>, ops: seq<Op>, key: RevKey, i: nat, j: nat)
    requires TwiceWith(slots, others, run, ops, key, i, j)
    ensures others >= slots
  {
    hide Free, Others;
    TwiceNeedsALoss(run, ops, key, i, j);
  }

  /** A record the table kept can be news again with so many other pairs filed in between
      exactly when they are as many as the places no trusted entry takes. */
  lemma NewsTwiceExactly(slots: nat, others: nat)
    requires slots >= 1
    ensures others >= slots <==> exists run, ops, key, i, j :: TwiceWith(slots, others, run, ops, key, i, j)
  {
    if others >= slots {
      var run, ops, key, i, j := TwiceWithACrowd(slots, others);
      assert TwiceWith(slots, others, run, ops, key, i, j);
    }
    hide TwiceWith;
    forall run, ops, key, i, j | TwiceWith(slots, others, run, ops, key, i, j) ensures others >= slots {
      TwiceWithAtLeast(slots, others, run, ops, key, i, j);
    }
  }

  lemma {:induction false} OthersOfPrefix(run: seq<State>, longer: seq<State>, key: RevKey, i: nat, j: nat)
    requires i <= j < |run| && run <= longer
    ensures Others(run, key, i, j) == Others(longer, key, i, j)
    decreases j
  {
    hide Entered;
    if i < j {
      OthersOfPrefix(run, longer, key, i, j - 1);
    }
  }

  lemma OthersSnoc(run: seq<State>, key: RevKey, i: nat, j: nat)
    requires i <= j < |run| - 1
    ensures Others(run, key, i, j + 1) == Others(run, key, i, j) + Entered(run[j], run[j + 1], key)
  {
  }

  lemma StretchSnoc(run: seq<State>, ops: seq<Op>, op: Op, last: State)
    requires run != [] && Stretch(run, ops, 0, |run| - 1) && Step(run[|run| - 1], op, last) && !op.RemoveRoot?
    ensures Stretch(run + [last], ops + [op], 0, |run|)
  {
    hide Step, TableFits, State.Wf, State.Bounded;
    forall k | 0 <= k < |run| ensures Step((run + [last])[k], (ops + [op])[k], (run + [last])[k + 1]) {
      if k < |run| - 1 {
        assert Step(run[k], ops[k], run[k + 1]);
      }
    }
  }

  /** Refiled with an older statement: the same places, the same pairs, an older time. */
  lemma OlderNow(cycle: seq<nat>, slots: nat, last: State)
    requires Distinct(cycle) && 1 <= slots < |cycle|
    requires var next := Table(Rotate(cycle), slots);
             && last == next.(revoked := last.revoked)
             && last.revoked == next.revoked[PairOf(cycle[0]) := Held(EARLY, 0, Say(cycle[0], EARLY))]
    ensures var key := PairOf(cycle[0]);
            Free(last) == slots && key in last.revoked && last.revoked[key].issuedAt == EARLY
            && Entered(Table(cycle, slots), last, key) == {}
  {
    OneTurn(cycle, slots);
    RotateKeeps(cycle);
    TableOk(Rotate(cycle), slots);
    assert Entered(Table(cycle, slots), last, PairOf(cycle[0]))
        == Entered(Table(cycle, slots), Table(Rotate(cycle), slots), PairOf(cycle[0]));
  }

  lemma TableTime(cycle: seq<nat>, slots: nat, key: RevKey)
    requires slots <= |cycle| && key in Table(cycle, slots).told
    ensures key in Table(cycle, slots).revoked && Table(cycle, slots).revoked[key].issuedAt == LATE
  {
  }

  /** The circulating records once round, and then an older statement of the first. */
  lemma BackWithACrowd(slots: nat, others: nat)
    returns (run: seq<State>, ops: seq<Op>, key: RevKey, i: nat, a: nat, j: nat)
    requires 1 <= slots <= others
    ensures WalksBack(run, ops, key, i, a, j) && Free(run[j]) == slots && |Others(run, key, i + 1, j)| == others
  {
    hide Turned, Entered, IsNews, TableFits, Free, HasRoomFor, Others, Step, Stretch, Table,
         State.Wf, State.AfterRevoke;
    var cycle: seq<nat> := seq(others + 1, k requires 0 <= k <= others => k);
    var record := Say(cycle[0], EARLY);
    var round, calls := States(cycle, slots, others + 1), Calls(cycle, others + 1);
    key, i, a, j := PairOf(cycle[0]), 0, 1, others + 2;
    var last := round[others + 1].AfterRevoke(ParseRevocation(record).value, record);
    run, ops := round + [last], calls + [Op.Revoke(record)];
    CirculatesForEver(cycle, slots, others + 1);
    FullTurn(cycle);
    EveryTurn(cycle, slots, 0);
    TableTime(Turned(cycle, 1), slots, key);
    Refiled(cycle, slots, EARLY);
    OlderNow(cycle, slots, last);
    StretchSnoc(round, calls, Op.Revoke(record), last);
    OthersCount(cycle, slots, others + 1);
    OthersOfPrefix(round, run, key, 1, others + 1);
    OthersSnoc(run, key, 1, others + 1);
  }

  /** A pair was kept and its time goes back, with `others` more pairs filed meanwhile and
      `slots` places that no trusted entry takes. */
  ghost predicate BackWith(slots: int, others: nat, run: seq<State>, ops: seq<Op>, key: RevKey, i: nat, a: nat,
                           j: nat) {
    WalksBack(run, ops, key, i, a, j) && Free(run[j]) == slots && |Others(run, key, i + 1, j)| == others
  }

  lemma BackWithAtLeast(slots: int, others: nat, run: seq<State>, ops: seq<Op>, key: RevKey, i: nat, a: nat, j: nat)
    requires BackWith(slots, others, run, ops, key, i, a, j)
    ensures others >= slots
  {
    hide Free, Others;
    BackNeedsALoss(run, ops, key, i, a, j);
  }

  /** A pair's time can go back with so many other pairs filed in between exactly when they
      are as many as the places no trusted entry takes. */
  lemma WalksBackExactly(slots: nat, others: nat)
    requires slots >= 1
    ensures others >= slots <==> exists run, ops, key, i, a, j :: BackWith(slots, others, run, ops, key, i, a, j)
  {
    if others >= slots {
      var run, ops, key, i, a, j := BackWithACrowd(slots, others);
      assert BackWith(slots, others, run, ops, key, i, a, j);
    }
    hide BackWith;
    forall run, ops, key, i, a, j | BackWith(slots, others, run, ops, key, i, a, j) ensures others >= slots {
      BackWithAtLeast(slots, others, run, ops, key, i, a, j);
    }
  }
}
