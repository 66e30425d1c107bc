/** Which revocations are news, which of them the bounded table keeps, and when a record stops
    being passed on. (src/cert_store.py:113-159) */
module CertNews {
  import opened Wrappers
  import opened Certificates
  import opened Eviction
  import opened CertState

  function KeyOf(r: Revocation): RevKey {
    RevKey(r.issuer, r.subject)
  }

  /** Everything its issuer signed for the subject up to that moment. */
  predicate Voids(r: Revocation, c: Cert) {
    c.issuer == r.issuer && c.subject == r.subject && c.issuedAt <= r.issuedAt
  }

  /** The keys once `r` was heard and before anything is evicted. */
  function ToldWith(s: State, r: Revocation): seq<RevKey> {
    if KeyOf(r) in s.told then s.told else s.told + [KeyOf(r)]
  }

  function Untrusted(told: seq<RevKey>, roots: set<NodeId>): nat {
    if told == [] then 0
    else Untrusted(told[..|told| - 1], roots) + if told[|told| - 1].issuer in roots then 0 else 1
  }

  function Trusted(s: State): nat
    ensures Trusted(s) <= |s.told|
  {
    UntrustedFits(s.told, s.roots);
    |s.told| - Untrusted(s.told, s.roots)
  }

  lemma {:induction false} UntrustedFits(told: seq<RevKey>, roots: set<NodeId>)
    ensures Untrusted(told, roots) <= |told|
    ensures Untrusted(told, roots) == 0 <==> forall key :: key in told ==> key.issuer in roots
  {
    if told != [] {
      UntrustedFits(told[..|told| - 1], roots);
      assert told == told[..|told| - 1] + [told[|told| - 1]];
    }
  }

  function Place(told: seq<RevKey>, key: RevKey): (i: nat)
    requires key in told
    ensures i < |told| && told[i] == key
  {
    if told[0] == key then 0 else 1 + Place(told[1..], key)
  }

  /** The table has room for `r`: a trusted root said it, or the evictions that its arrival
      causes are used up by older entries that no trusted root said. */
  predicate HasRoomFor(s: State, r: Revocation) {
    var told := ToldWith(s, r);
    r.issuer in s.roots
    || Excess(|told|, s.maxRevocations) <= Untrusted(told[..Place(told, KeyOf(r))], s.roots)
  }

  /** The bound holds, or only trusted entries are left. */
  predicate TableFits(s: State) {
    |s.told| <= s.maxRevocations || forall key :: key in s.told ==> key.issuer in s.roots
  }

  // ------------------------------------------------------------------ evicting the oldest, exactly

  lemma {:induction false} UntrustedConcat(a: seq<RevKey>, b: seq<RevKey>, roots: set<NodeId>)
    ensures Untrusted(a + b, roots) == Untrusted(a, roots) + Untrusted(b, roots)
  {
    if b == [] {
      assert a + b == a;
    } else {
      UntrustedConcat(a, b[..|b| - 1], roots);
      assert (a + b)[..|a + b| - 1] == a + b[..|b| - 1];
    }
  }

  lemma OneUntrusted(key: RevKey, roots: set<NodeId>)
    ensures Untrusted([key], roots) == if key.issuer in roots then 0 else 1
  {
    assert [key][..0] == [];
  }

  /** An untrusted entry survives exactly when the evictions run out before it. */
  lemma {:induction false} DropsUpTo(told: seq<RevKey>, keep: set<RevKey>, roots: set<NodeId>, n: nat, i: nat)
    requires Distinct(told) && i < |told| && told[i].issuer !in roots
    requires forall key :: key in told ==> (key in keep <==> key.issuer in roots)
    ensures told[i] in DropOldest(told, keep, n) <==> n <= Untrusted(told[..i], roots)
  {
    if n > 0 {
      var rest := told[1..];
      assert told == [told[0]] + rest;
      if i == 0 {
        DropOldestMeaning(rest, keep, n - 1);
      } else {
        assert told[..i] == [told[0]] + rest[..i - 1];
        UntrustedConcat([told[0]], rest[..i - 1], roots);
        OneUntrusted(told[0], roots);
        DropsUpTo(rest, keep, roots, if told[0] in keep then n else n - 1, i - 1);
      }
    }
  }

  /** What is heard is kept exactly when the table has room for it. */
  lemma KeptIffRoom(s: State, r: Revocation, record: RevocationRecord)
    requires s.Shape() && !s.Stale(r)
    ensures KeyOf(r) in s.Filed(r, record).revoked <==> HasRoomFor(s, r)
    ensures HasRoomFor(s, r) ==> s.Filed(r, record).revoked[KeyOf(r)] == Held(r.issuedAt, r.reason, record)
  {
    var key, told := KeyOf(r), ToldWith(s, r);
    var heard := s.(told := told, revoked := s.revoked[key := Held(r.issuedAt, r.reason, record)]);
    if r.issuer in s.roots {
      FiledKeepsTrusted(s, r, record);
    } else {
      DropsUpTo(told, heard.TrustedKeys(), s.roots, Excess(|told|, s.maxRevocations), Place(told, key));
    }
  }

  /** While the table fits, room for an untrusted record is a trusted entry fewer than the
      bound. */
  lemma RoomIsASlot(s: State, r: Revocation)
    requires s.Shape() && TableFits(s)
    ensures HasRoomFor(s, r) <==> r.issuer in s.roots || Trusted(s) < s.maxRevocations
  {
    var key, told := KeyOf(r), ToldWith(s, r);
    UntrustedFits(s.told, s.roots);
    if r.issuer !in s.roots {
      if key in s.told {
        assert Untrusted(s.told, s.roots) > 0;
      } else {
        LastPlace(s.told, key);
        assert told[..|s.told|] == s.told;
      }
    }
  }

  lemma {:induction false} LastPlace(told: seq<RevKey>, key: RevKey)
    requires key !in told
    ensures Place(told + [key], key) == |told|
  {
    if told != [] {
      assert (told + [key])[1..] == told[1..] + [key];
      LastPlace(told[1..], key);
    }
  }

  lemma StepKeepsFit(s: State, op: Op, s': State)
    requires s.Wf() && s.Bounded() && TableFits(s) && Step(s, op, s') && !op.RemoveRoot?
    ensures TableFits(s')
  {
    if op.Revoke? {
      var parsed := ParseRevocation(op.record);
      if parsed.Some? && !s.Stale(parsed.value) {
        FiledKeepsTrusted(s, parsed.value, op.record);
      }
    }
  }

  // ------------------------------------------------------------------ what there is no room for

  lemma {:induction false} DropTheLast(told: seq<RevKey>, key: RevKey, keep: set<RevKey>, n: nat)
    requires n > 0 && key !in keep && forall k :: k in told ==> k in keep
    ensures DropOldest(told + [key], keep, n) == told
  {
    if told == [] {
      assert [key][1..] == [];
    } else {
      assert (told + [key])[1..] == told[1..] + [key];
      DropTheLast(told[1..], key, keep, n);
    }
  }

  /** Without room the record is reported as news and nothing at all is different afterwards:
      what it voids is still held. */
  lemma ForgottenAtOnce(s: State, r: Revocation, record: RevocationRecord)
    requires s.Wf() && TableFits(s) && !s.Stale(r) && !HasRoomFor(s, r)
    ensures s.AfterRevoke(r, record) == s
  {
    var key := KeyOf(r);
    RoomIsASlot(s, r);
    UntrustedFits(s.told, s.roots);
    assert key !in s.told;
    FiledNothing(s, r, record);
    if r.subject in s.certs {
      assert ListOk(r.subject, s.certs[r.subject]);
      forall c | c in s.certs[r.subject] ensures Unrevoked(s)(c) {
        assert s.Holds(c);
      }
      SieveAll(s.certs[r.subject], Unrevoked(s));
      assert s.certs[r.subject := s.certs[r.subject]] == s.certs;
    }
  }

  lemma FiledNothing(s: State, r: Revocation, record: RevocationRecord)
    requires s.Shape() && KeyOf(r) !in s.told && r.issuer !in s.roots
    requires (forall key :: key in s.told ==> key.issuer in s.roots) && |s.told| >= s.maxRevocations
    ensures s.Filed(r, record) == s
  {
    var key := KeyOf(r);
    var heard := s.(told := s.told + [key], revoked := s.revoked[key := Held(r.issuedAt, r.reason, record)]);
    DropTheLast(s.told, key, heard.TrustedKeys(), Excess(|heard.told|, s.maxRevocations));
    var kept := DropOldest(heard.told, heard.TrustedKeys(), Excess(|heard.told|, s.maxRevocations));
    assert (map k | k in kept && k in heard.revoked :: heard.revoked[k]) == s.revoked;
  }

  /** A record that was just reported as news is news again exactly when the table had no
      room for it: while it fits, when nobody trusted said it and trusted entries fill the
      bound. */
  lemma NewsAgainExactly(s: State, r: Revocation, record: RevocationRecord)
    requires s.Wf() && !s.Stale(r)
    ensures !s.AfterRevoke(r, record).Stale(r) <==> !HasRoomFor(s, r)
    ensures TableFits(s) ==> (!HasRoomFor(s, r) <==> r.issuer !in s.roots && Trusted(s) >= s.maxRevocations)
  {
    hide HasRoomFor, Trusted, TableFits;
    KeptIffRoom(s, r, record);
    if TableFits(s) {
      RoomIsASlot(s, r);
    }
  }

  // ------------------------------------------------------------------ runs

  /** The call tells this store something new about the pair. */
  predicate IsNews(s: State, op: Op, key: RevKey) {
    op.Revoke? && ParseRevocation(op.record).Some?
    && KeyOf(ParseRevocation(op.record).value) == key && !s.Stale(ParseRevocation(op.record).value)
  }

  function News(run: seq<State>, ops: seq<Op>, key: RevKey, i: nat, j: nat): nat
    requires i <= j <= |ops| && |run| == |ops| + 1
    decreases j
  {
    if i == j then 0 else News(run, ops, key, i, j - 1) + if IsNews(run[j - 1], ops[j - 1], key) then 1 else 0
  }

  lemma NewsMovesTime(s: State, op: Op, s': State, key: RevKey)
    requires s.Wf() && s.Bounded() && Step(s, op, s') && key in s.revoked && key in s'.revoked
    ensures s'.revoked[key].issuedAt >= s.revoked[key].issuedAt + if IsNews(s, op, key) then 1 else 0
  {
    if op.Revoke? {
      var parsed := ParseRevocation(op.record);
      if parsed.Some? && !s.Stale(parsed.value) {
        FiledKeepsTrusted(s, parsed.value, op.record);
      }
    }
  }

  /** While the table holds a pair its time rises by at least one with every piece of news
      about it: so much is ever passed on, and an epidemic dies out. */
  lemma {:induction false} RevocationsDieOut(run: seq<State>, ops: seq<Op>, key: RevKey, i: nat, j: nat)
    requires IsRun(run, ops) && i <= j <= |ops| && run[i].Wf() && run[i].Bounded()
    requires forall k :: i <= k <= j ==> key in run[k].revoked
    ensures run[j].Wf() && run[j].Bounded()
    ensures run[j].revoked[key].issuedAt >= run[i].revoked[key].issuedAt + News(run, ops, key, i, j)
    decreases j
  {
    hide State.Wf, State.Bounded, IsNews, Step;
    RunKeepsWf(run, ops, i, j);
    if i < j {
      RevocationsDieOut(run, ops, key, i, j - 1);
      NewsMovesTime(run[j - 1], ops[j - 1], run[j], key);
    }
  }

  lemma {:induction false} RunKeepsWf(run: seq<State>, ops: seq<Op>, i: nat, j: nat)
    requires IsRun(run, ops) && i <= j <= |ops| && run[i].Wf() && run[i].Bounded()
    ensures run[j].Wf() && run[j].Bounded()
    decreases j
  {
    hide State.Wf, State.Bounded, Step;
    if i < j {
      RunKeepsWf(run, ops, i, j - 1);
      StepKeepsWf(run[j - 1], ops[j - 1], run[j]);
    }
  }

  /** A record that was kept is never news again as long as the table holds its pair. */
  lemma KeptIsOldNews(run: seq<State>, ops: seq<Op>, key: RevKey, i: nat, j: nat)
    requires IsRun(run, ops) && i < j < |ops| && run[i].Wf() && run[i].Bounded()
    requires IsNews(run[i], ops[i], key) && ops[j] == ops[i]
    requires forall k :: i < k <= j ==> key in run[k].revoked
    ensures !IsNews(run[j], ops[j], key)
  {
    RunKeepsWf(run, ops, i, i + 1);
    var r := ParseRevocation(ops[i].record).value;
    KeptIffRoom(run[i], r, ops[i].record);
    assert run[i + 1].revoked[key].issuedAt == r.issuedAt;
    RevocationsDieOut(run, ops, key, i + 1, j);
  }
}
