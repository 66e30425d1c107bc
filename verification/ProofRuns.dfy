/** Which proofs one verifier lets pass over a run of verifications, whatever they are for.
    (src/app_auth.py:230-322) */
module ProofRuns {
  import opened Wrappers
  import opened NonceCache
  import opened Login

  /** One verification: what was presented, what for, and when. */
  datatype Try = Try(proof: Assertion, purpose: Purpose, ctx: Digest, wall: int)

  /** The nonce cache after a run of verifications. */
  function SeenBy(e: Endpoint, tries: seq<Try>): seq<Seen>
    requires e.Wf()
  {
    if tries == [] then e.seen
    else
      var t := tries[|tries| - 1];
      e.(seen := SeenBy(e, tries[..|tries| - 1])).SeenAfter(t.proof, t.purpose, t.ctx, t.wall)
  }

  predicate Passes(e: Endpoint, tries: seq<Try>, k: nat)
    requires e.Wf() && k < |tries|
  {
    e.(seen := SeenBy(e, tries[..k])).Verifies(tries[k].proof, tries[k].purpose, tries[k].ctx, tries[k].wall)
  }

  /** How many of the tries `lo .. hi` passed. */
  function Passed(e: Endpoint, tries: seq<Try>, lo: nat, hi: nat): nat
    requires e.Wf() && lo <= hi <= |tries|
    decreases hi - lo
  {
    if lo == hi then 0 else Passed(e, tries, lo, hi - 1) + if Passes(e, tries, hi - 1) then 1 else 0
  }

  /** A proof passes exactly inside its own time, but for the skew it is allowed in front, at the
      application and the node it names, for what it was minted for, under the key of its
      subject, and with a nonce of the right length that the cache does not hold. */
  lemma PassesExactly(e: Endpoint, a: Assertion, purpose: Purpose, ctx: Digest, wall: int)
    requires e.Wf()
    ensures e.Verifies(a, purpose, ctx, wall) <==>
              && a.issuedAt - MAX_SKEW <= wall < a.issuedAt + a.ttl
              && a.app == e.app && (a.audience == AnyAudience || a.audience == To(e.self)) && a.signer == a.subject
              && a.purpose == purpose && a.ctx == ctx
              && |a.nonce| == NONCE_LEN && forall s :: s in Swept(e.seen, e.maxNonces, wall) ==> s.nonce != a.nonce
  {
  }

  lemma {:induction false} NeverOverfullHere(e: Endpoint, tries: seq<Try>)
    requires e.Wf() && |e.seen| <= e.maxNonces
    ensures |SeenBy(e, tries)| <= e.maxNonces
  {
    if tries != [] {
      var front, t := tries[..|tries| - 1], tries[|tries| - 1];
      NeverOverfullHere(e, front);
      UnexpiredShrinks(SeenBy(e, front), t.wall);
    }
  }

  /** One verification later an unexpired nonce is still held, or enough others passed. */
  lemma TryKeeps(e: Endpoint, t: Try, entry: Seen, younger: nat)
    requires e.Wf() && |e.seen| <= e.maxNonces && t.wall < entry.expiry && HeldWithin(e.seen, entry, younger)
    ensures var after := e.SeenAfter(t.proof, t.purpose, t.ctx, t.wall);
            if e.Verifies(t.proof, t.purpose, t.ctx, t.wall)
            then t.proof.nonce != entry.nonce && (HeldWithin(after, entry, younger + 1) || younger + 1 >= e.maxNonces)
            else HeldWithin(after, entry, younger)
  {
    hide HeldWithin, After, Accepts, Endpoint.Checks;
    ClaimKeeps(e.seen, e.maxNonces, e.AttemptFor(t.proof, t.wall), entry, younger);
  }

  lemma {:induction false} NonceStillHeld(e: Endpoint, tries: seq<Try>, i: nat, j: nat)
    requires e.Wf() && |e.seen| <= e.maxNonces && i < j <= |tries| && Passes(e, tries, i)
    requires forall k :: i < k < j ==> tries[k].wall < tries[i].proof.issuedAt + tries[i].proof.ttl
    ensures || HeldWithin(SeenBy(e, tries[..j]), Seen(tries[i].proof.nonce, tries[i].proof.ExpiresAt()),
                          Passed(e, tries, i + 1, j))
            || Passed(e, tries, i + 1, j) >= e.maxNonces
    decreases j
  {
    hide HeldWithin, After, Accepts, Endpoint.Checks;
    assert tries[..j][..j - 1] == tries[..j - 1];
    var before := e.(seen := SeenBy(e, tries[..j - 1]));
    if j == i + 1 {
      JustFiled(before.seen, e.maxNonces, e.AttemptFor(tries[i].proof, tries[i].wall));
    } else {
      NonceStillHeld(e, tries, i, j - 1);
      NeverOverfullHere(e, tries[..j - 1]);
      if Passed(e, tries, i + 1, j - 1) < e.maxNonces {
        TryKeeps(before, tries[j - 1], Seen(tries[i].proof.nonce, tries[i].proof.ExpiresAt()),
                 Passed(e, tries, i + 1, j - 1));
      }
    }
  }

  /** With a clock that does not go back, one proof passes twice only if a cache's worth of
      others passed in between: whatever was done to the cache meanwhile, and whatever the
      proof was presented for. */
  lemma NoProofPassesTwice(e: Endpoint, tries: seq<Try>, i: nat, j: nat)
    requires e.Wf() && |e.seen| <= e.maxNonces && i < j < |tries|
    requires forall k :: i <= k < j ==> tries[k].wall <= tries[j].wall
    requires Passes(e, tries, i) && Passes(e, tries, j) && tries[j].proof == tries[i].proof
    ensures Passed(e, tries, i + 1, j) >= e.maxNonces
  {
    hide HeldWithin, After, Accepts, Endpoint.Checks;
    var proof := tries[i].proof;
    var last := e.(seen := SeenBy(e, tries[..j]));
    PassesExactly(last, proof, tries[j].purpose, tries[j].ctx, tries[j].wall);
    NonceStillHeld(e, tries, i, j);
    NeverOverfullHere(e, tries[..j]);
    if Passed(e, tries, i + 1, j) < e.maxNonces {
      TryKeeps(last, tries[j], Seen(proof.nonce, proof.ExpiresAt()), Passed(e, tries, i + 1, j));
    }
  }
}
