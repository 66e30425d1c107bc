/** One login from the first frame to the last between two honest nodes, with nobody in between:
    when it ends in two sessions, and when an older attempt is in its way.
    (src/app_auth.py:422-515) */
module LoginExchange {
  import opened Wrappers
  import opened NonceCache
  import opened Login
  import opened LoginRuns

  /** What the four calls read from outside. */
  datatype Moments = Moments(start: Env, answer: Env, complete: Env, accept: Env)

  datatype Ends = Ends(initiator: Endpoint, responder: Endpoint, ours: Option<SessionId>, theirs: Option<SessionId>)

  /** Every frame is handed over as soon as it is made, and no other call is made meanwhile. */
  function Exchange(a: Endpoint, b: Endpoint, m: Moments): Ends
    requires a.Wf() && b.Wf()
  {
    var a1 := a.StartLogin(b.self, m.start);
    var (b1, challenge) := b.AnswerLogin(a.self, Hello(m.start.drawn), m.answer);
    if challenge.None? then Ends(a1, b1, None, None)
    else
      var (a2, proved) := a1.CompleteLogin(b.self, challenge.value, m.complete);
      if proved.None? then Ends(a2, b1, None, None)
      else
        var (b2, sid) := b1.AcceptLogin(a.self, proved.value.0, m.accept);
        Ends(a2, b2, Some(proved.value.1), sid)
  }

  /** Nonces of the right length that were never drawn before. */
  predicate WellDrawn(a: Endpoint, b: Endpoint, m: Moments) {
    && |m.start.drawn| == |m.answer.drawn| == |m.answer.mint| == |m.complete.mint| == NONCE_LEN
    && (forall p :: p in a.pending ==> p.nonce != m.start.drawn)
    && (forall p :: p in b.pending ==> p.nonce != m.answer.drawn)
    && m.answer.mint !in Nonces(a.seen) && m.complete.mint !in Nonces(b.seen)
  }

  /** A proof minted at one clock's reading is presented at another's. */
  predicate InTime(minted: int, presented: int) {
    minted - MAX_SKEW <= presented < minted + DEFAULT_TTL
  }

  /** No login with this peer in this role is under way once expired ones are gone. */
  predicate NoneUnderWay(e: Endpoint, peer: Node, responder: bool, mono: real) {
    forall p :: p in Pruned(e.pending, mono) ==> p.peer != peer || p.prior.Some? != responder
  }

  /** A login filed last is the one its frames are read for iff no other with that peer is
      under way. */
  lemma LastIsFirstFor(pending: seq<Pending>, p: Pending)
    ensures var i := FirstFor(pending + [p], p.peer, p.prior.Some?);
            && i <= |pending|
            && (i == |pending| <==> forall q :: q in pending ==> q.peer != p.peer || q.prior.Some? != p.prior.Some?)
  {
    var all := pending + [p];
    var i := FirstFor(all, p.peer, p.prior.Some?);
    assert all[|pending|] == p;
    if i < |pending| {
      assert all[i] in pending;
    } else {
      forall q | q in pending ensures q.peer != p.peer || q.prior.Some? != p.prior.Some? {
        var k :| 0 <= k < |pending| && pending[k] == q;
        assert all[k] == q;
      }
    }
  }

  lemma FiledLast(pending: seq<Pending>, p: Pending)
    requires forall q :: q in pending ==> q.nonce != p.nonce
    ensures Filed(pending, p) == pending + [p]
  {
  }

  /** A proof an honest node just minted for a verifier that never saw its nonce passes iff it
      is presented in time. */
  lemma MintedPassesInTime(from: Endpoint, to: Endpoint, ctx: Digest, env: Env, wall: int)
    requires to.Wf() && from.app == to.app && |env.mint| == NONCE_LEN && env.mint !in Nonces(to.seen)
    ensures to.Verifies(from.Mint(to.self, LoginPurpose, ctx, env), LoginPurpose, ctx, wall) <==> InTime(env.wall, wall)
  {
    hide Swept, Nonces;
    SweptShrinks(to.seen, to.maxNonces, wall);
  }

  /** The responder answers iff it has room, and then waits for exactly this login's proof. */
  lemma ResponderAnswers(a: Endpoint, b: Endpoint, m: Moments)
    requires a.Wf() && b.Wf() && WellDrawn(a, b, m)
    ensures var (b1, challenge) := b.AnswerLogin(a.self, Hello(m.start.drawn), m.answer);
            var kept := Pruned(b.pending, m.answer.mono);
            && (challenge.Some? <==> |kept| < MAX_PENDING)
            && (challenge.Some? ==>
                  && challenge.value == Challenge(m.answer.drawn,
                       b.Mint(a.self, LoginPurpose, LoginCtx(m.start.drawn, m.answer.drawn), m.answer))
                  && b1 == b.(pending := kept + [Pending(m.answer.drawn, a.self, Some(m.start.drawn),
                                                         m.answer.mono + b.ttl)]))
  {
    hide Pruned, Filed;
    var kept := Pruned(b.pending, m.answer.mono);
    PrunedAre(b.pending, m.answer.mono);
    FiledLast(kept, Pending(m.answer.drawn, a.self, Some(m.start.drawn), m.answer.mono + b.ttl));
  }

  /** The initiator takes the challenge iff it came in time and no older login of its own with
      that peer is under way. */
  lemma InitiatorCompletes(a: Endpoint, b: Endpoint, m: Moments)
    requires a.Wf() && b.Wf() && WellDrawn(a, b, m) && a.app == b.app
    ensures var ctx, sid := LoginCtx(m.start.drawn, m.answer.drawn), SessionId(m.start.drawn, m.answer.drawn);
            var frame := Challenge(m.answer.drawn, b.Mint(a.self, LoginPurpose, ctx, m.answer));
            var (a2, proved) := a.StartLogin(b.self, m.start).CompleteLogin(b.self, frame, m.complete);
            && (proved.Some? <==>
                  NoneUnderWay(a, b.self, false, m.start.mono) && InTime(m.answer.wall, m.complete.wall))
            && (proved.Some? ==>
                  && proved.value == (Prove(a.Mint(b.self, LoginPurpose, ctx, m.complete)), sid)
                  && a2.sessions == a.Stored(sid, b.self, m.complete.mono))
  {
    hide Pruned, Filed, Endpoint.Verifies, Endpoint.SeenAfter, FirstFor, Dropped, StoredIn, Alive;
    var kept, own := Pruned(a.pending, m.start.mono), Pending(m.start.drawn, b.self, None, m.start.mono + a.ttl);
    PrunedAre(a.pending, m.start.mono);
    FiledLast(kept, own);
    LastIsFirstFor(kept, own);
    var ctx := LoginCtx(m.start.drawn, m.answer.drawn);
    var a1 := a.StartLogin(b.self, m.start);
    assert a1.pending == kept + [own] && a1.seen == a.seen;
    var i := FirstFor(a1.pending, b.self, false);
    var proof := b.Mint(a.self, LoginPurpose, ctx, m.answer);
    MintedPassesInTime(b, a1, ctx, m.answer, m.complete.wall);
    if i < |kept| {
      assert kept[i] in kept && a1.pending[i] == kept[i];
      OtherCtxFails(a1, proof, LoginCtx(a1.pending[i].nonce, m.answer.drawn), m.complete.wall);
    }
  }

  lemma OtherCtxFails(e: Endpoint, proof: Assertion, ctx: Digest, wall: int)
    requires e.Wf() && proof.ctx != ctx
    ensures !e.Verifies(proof, LoginPurpose, ctx, wall)
  {
  }

  /** The responder takes the proof iff it came in time and no older login of that peer with it
      is under way. */
  lemma ResponderAccepts(a: Endpoint, b: Endpoint, m: Moments)
    requires a.Wf() && b.Wf() && WellDrawn(a, b, m) && a.app == b.app
    ensures var ctx, sid := LoginCtx(m.start.drawn, m.answer.drawn), SessionId(m.start.drawn, m.answer.drawn);
            var kept := Pruned(b.pending, m.answer.mono);
            var b1 := b.(pending := kept + [Pending(m.answer.drawn, a.self, Some(m.start.drawn),
                                                    m.answer.mono + b.ttl)]);
            var (b2, taken) := b1.AcceptLogin(a.self, Prove(a.Mint(b.self, LoginPurpose, ctx, m.complete)), m.accept);
            && (taken.Some? <==> NoneUnderWay(b, a.self, true, m.answer.mono) && InTime(m.complete.wall, m.accept.wall))
            && (taken.Some? ==> taken == Some(sid) && b2.sessions == b.Stored(sid, a.self, m.accept.mono))
  {
    hide Pruned, Filed, Endpoint.Verifies, Endpoint.SeenAfter, FirstFor, Dropped, StoredIn, Alive;
    var kept := Pruned(b.pending, m.answer.mono);
    var own := Pending(m.answer.drawn, a.self, Some(m.start.drawn), m.answer.mono + b.ttl);
    PrunedAre(b.pending, m.answer.mono);
    LastIsFirstFor(kept, own);
    var ctx := LoginCtx(m.start.drawn, m.answer.drawn);
    var b1 := b.(pending := kept + [own]);
    var i := FirstFor(b1.pending, a.self, true);
    var proof := a.Mint(b.self, LoginPurpose, ctx, m.complete);
    MintedPassesInTime(a, b1, ctx, m.complete, m.accept.wall);
    if i < |kept| {
      assert kept[i] in kept && b1.pending[i] == kept[i];
      OtherCtxFails(b1, proof, LoginCtx(b1.pending[i].prior.value, b1.pending[i].nonce), m.accept.wall);
    }
  }

  /** Undisturbed, a login ends in one session at each end, under one id, exactly when the
      responder has room, both proofs come in time, and neither end has an older login with
      the other under way in the same role. */
  lemma LoginSucceedsExactly(a: Endpoint, b: Endpoint, m: Moments)
    requires a.Wf() && b.Wf() && WellDrawn(a, b, m) && a.app == b.app
    ensures var ends := Exchange(a, b, m);
            && (ends.theirs.Some? <==>
                  && |Pruned(b.pending, m.answer.mono)| < MAX_PENDING
                  && NoneUnderWay(a, b.self, false, m.start.mono) && NoneUnderWay(b, a.self, true, m.answer.mono)
                  && InTime(m.answer.wall, m.complete.wall) && InTime(m.complete.wall, m.accept.wall))
            && (ends.theirs.Some? ==>
                  var sid := SessionId(m.start.drawn, m.answer.drawn);
                  && ends.ours == ends.theirs == Some(sid)
                  && Session(sid, b.self, m.complete.mono, m.complete.mono + a.ttl) in ends.initiator.sessions
                  && Session(sid, a.self, m.accept.mono, m.accept.mono + b.ttl) in ends.responder.sessions)
  {
    hide Pruned, Filed, NoneUnderWay, InTime, WellDrawn, Alive, StoredIn, Endpoint.AnswerLogin, Endpoint.CompleteLogin,
         Endpoint.AcceptLogin, Endpoint.Mint;
    var sid := SessionId(m.start.drawn, m.answer.drawn);
    ResponderAnswers(a, b, m);
    InitiatorCompletes(a, b, m);
    ResponderAccepts(a, b, m);
    StoredIsHeld(a, sid, b.self, m.complete.mono);
    StoredIsHeld(b, sid, a.self, m.accept.mono);
    var (b1, challenge) := b.AnswerLogin(a.self, Hello(m.start.drawn), m.answer);
    if challenge.Some? {
      var (a2, proved) := a.StartLogin(b.self, m.start).CompleteLogin(b.self, challenge.value, m.complete);
      if proved.Some? {
        var (b2, taken) := b1.AcceptLogin(a.self, proved.value.0, m.accept);
        assert Exchange(a, b, m) == Ends(a2, b2, Some(sid), taken);
      }
    }
  }

  lemma StoredIsHeld(e: Endpoint, sid: SessionId, peer: Node, mono: real)
    requires e.Wf()
    ensures Session(sid, peer, mono, mono + e.ttl) in e.Stored(sid, peer, mono)
  {
    hide Alive;
    var kept := Youngest(Alive(e.sessions, mono), e.maxSessions);
    var s, i := Session(sid, peer, mono, mono + e.ttl), SidIndex(kept, sid);
    assert e.Stored(sid, peer, mono)[i] == s;
  }
}
