/** Whom a store trusts over a run, what one revocation takes and leaves, and how long an answer
    lasts beside its alternatives. (src/cert_store.py:81-171 and 456-560) */
module CertTrust {
  import opened Wrappers
  import opened Certificates
  import opened Eviction
  import opened Issuance
  import opened CertState
  import CertNews

  // ------------------------------------------------------------------ roots

  lemma RootsMoveByName(s: State, op: Op, s': State, id: NodeId)
    requires Step(s, op, s')
    ensures s'.own == s.own
    ensures id in s'.roots <==> op == AddRoot(id) || (id in s.roots && (op == RemoveRoot(id) ==> id == s.own))
  {
    hide DropOldest, Sieve, Graph.Answers;
    if op.Add? {
      var ok :| s.Added(op.cert, op.now, ok, s');
    }
  }

  predicate NotRemoved(ops: seq<Op>, id: NodeId, a: nat, b: nat) {
    forall k :: a <= k < b && k < |ops| ==> ops[k] != RemoveRoot(id)
  }

  /** The operator's word on `id` after `i` calls: it is the own id, or was a root to begin with
      or made one since, and was not removed after that. */
  predicate RootByNow(first: State, ops: seq<Op>, id: NodeId, i: nat) {
    || id == first.own
    || (id in first.roots && NotRemoved(ops, id, 0, i))
    || exists k :: 0 <= k < i && k < |ops| && ops[k] == AddRoot(id) && NotRemoved(ops, id, k + 1, i)
  }

  /** On every run the roots are exactly what `add_root` and `remove_root` made them. */
  lemma {:induction false} RootsExactly(run: seq<State>, ops: seq<Op>, id: NodeId, i: nat)
    requires IsRun(run, ops) && i < |run| && run[0].own in run[0].roots
    ensures run[i].own == run[0].own
    ensures id in run[i].roots <==> RootByNow(run[0], ops, id, i)
  {
    hide Step;
    if i > 0 {
      RootsExactly(run, ops, id, i - 1);
      RootsMoveByName(run[i - 1], ops[i - 1], run[i], id);
      OneMoreWord(run[0], ops, id, i);
    }
  }

  lemma OneMoreWord(first: State, ops: seq<Op>, id: NodeId, i: nat)
    requires 0 < i <= |ops|
    ensures RootByNow(first, ops, id, i)
       <==> || ops[i - 1] == AddRoot(id)
            || (RootByNow(first, ops, id, i - 1) && (ops[i - 1] == RemoveRoot(id) ==> id == first.own))
  {
    if ops[i - 1] == AddRoot(id) {
      assert NotRemoved(ops, id, i, i);
    } else if ops[i - 1] != RemoveRoot(id) {
      forall k | 0 <= k < i - 1 && ops[k] == AddRoot(id) && NotRemoved(ops, id, k + 1, i - 1)
        ensures NotRemoved(ops, id, k + 1, i)
      {
      }
    }
  }

  /** So nobody is ever accepted but under an anchor the operator stands by: one that was
      removed, or never named, vouches for nothing from then on. */
  lemma AnchorsStandByName(run: seq<State>, ops: seq<Op>, i: nat, p: Chain, now: int)
    requires IsRun(run, ops) && i < |run| && run[0].own in run[0].roots
    requires run[i].Trusts(p, now) || run[i].GraphAt(now).Accepts(p)
    ensures p != [] && RootByNow(run[0], ops, Last(p).subject, i)
  {
    hide RootByNow, IsRun;
    RootsExactly(run, ops, Last(p).subject, i);
  }

  // ------------------------------------------------------------------ one revocation

  /** A revocation the table keeps takes what its issuer signed for that subject up to its
      moment and nothing signed later, by anybody else or for anybody else; one it does not
      keep takes nothing. */
  lemma RevocationTakesExactly(s: State, r: Revocation, record: RevocationRecord, c: Cert)
    requires s.Wf() && !s.Stale(r)
    ensures s.AfterRevoke(r, record).Holds(c)
       <==> && s.Holds(c)
            && !(CertNews.HasRoomFor(s, r) && c.issuer == r.issuer && c.subject == r.subject
                 && c.issuedAt <= r.issuedAt)
  {
    hide CertNews.HasRoomFor;
    var mid := s.Filed(r, record);
    CertNews.KeptIffRoom(s, r, record);
    FiledKeepsTrusted(s, r, record);
    FiledLeavesOthers(s, r, record);
    assert mid.certs == s.certs;
    if r.subject in mid.certs {
      var list := Sieve(mid.certs[r.subject], Unrevoked(mid));
      assert ListOk(r.subject, mid.certs[r.subject]);
      ReplacedKeepsShape(mid, r.subject, list);
    }
  }

  /** What else the table says about anybody is not new to the store. */
  lemma FiledLeavesOthers(s: State, r: Revocation, record: RevocationRecord)
    requires s.Shape()
    ensures forall k :: k in s.Filed(r, record).revoked && k != CertNews.KeyOf(r) ==>
                          k in s.revoked && s.Filed(r, record).revoked[k] == s.revoked[k]
    ensures forall k :: k in s.Filed(r, record).revoked && k == CertNews.KeyOf(r) ==>
                          s.Filed(r, record).revoked[k].issuedAt == r.issuedAt
  {
  }

  // ------------------------------------------------------------------ how long an answer lasts

  /** No link of an answer ever runs out before a certificate that could have stood in its
      place: same subject, same issuer, held and usable when the answer was found. */
  lemma AnswerOutlasts(s: State, now: int, target: NodeId, answer: Chain, c: Cert, d: Cert, later: int)
    requires s.ListsOk() && s.GraphAt(now).Answers(target, Some(answer)) && c in answer
    requires s.Holds(d) && s.Usable(d, now) && d.subject == c.subject && d.issuer == c.issuer
    ensures c.Expired(later) ==> d.Expired(later)
  {
    LiveMembers(s, now);
    var i :| 0 <= i < |answer| && answer[i] == c;
    assert s.GraphAt(now).Longest(answer[i]) && d in s.GraphAt(now).live;
    OutlivesMeansTime(c, d);
  }
}
