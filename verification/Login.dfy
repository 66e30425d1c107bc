/** Signed assertions, the steps of one endpoint in a login of three messages, and the service
    that does them in place. (src/app_auth.py:230-285, src/app_auth.py:366-515)

    A node's name is its key, and every assertion shows its signer, so nobody
    mints for another node. Digests are symbolic: equal only for equal inputs. */
module Login {
  import opened Wrappers
  import opened NonceCache
  import opened Lookup

  type Node = nat
  type AppId = nat

  datatype Audience = AnyAudience | To(node: Node)

  datatype Digest =
    | LoginCtx(nonceA: Nonce, nonceB: Nonce)
    | OtherCtx(tag: nat)

  datatype SessionId = SessionId(nonceA: Nonce, nonceB: Nonce)

  datatype Purpose = LoginPurpose | OtherPurpose(name: string)

  const MAX_SKEW := 60
  const DEFAULT_TTL := 120
  const MAX_PENDING := 512

  datatype Assertion = Assertion(
    app: AppId, subject: Node, audience: Audience, purpose: Purpose,
    nonce: Nonce, issuedAt: int, ttl: nat, ctx: Digest, signer: Node)
  {
    function ExpiresAt(): int {
      issuedAt + ttl
    }
  }

  datatype Frame =
    | Hello(nonceA: Nonce)
    | Challenge(nonceB: Nonce, proof: Assertion)
    | Prove(answer: Assertion)
    | Noise

  /** A login under way. `prior` is the initiator's nonce at the responder, and absent at
      the initiator itself. */
  datatype Pending = Pending(nonce: Nonce, peer: Node, prior: Option<Nonce>, deadline: real)

  datatype Session = Session(sid: SessionId, peer: Node, established: real, expires: real)

  /** The values one call reads from outside: two clocks and the random nonces it draws. */
  datatype Env = Env(mono: real, wall: int, drawn: Nonce, mint: Nonce)

  datatype Endpoint = Endpoint(
    app: AppId, self: Node, ttl: real, maxSessions: nat, maxNonces: nat,
    pending: seq<Pending>, sessions: seq<Session>, seen: seq<Seen>)
  {
    predicate Wf() {
      maxSessions >= 1 && maxNonces >= 1
    }

    // ---------------------------------------------------------------- assertions

    function Mint(audience: Node, purpose: Purpose, ctx: Digest, env: Env): Assertion {
      Assertion(app, self, To(audience), purpose, env.mint, env.wall, DEFAULT_TTL, ctx, self)
    }

    /** Everything verification asks before it burns the nonce. */
    predicate Checks(a: Assertion, purpose: Purpose, ctx: Digest, wall: int) {
      && a.app == app
      && (a.audience == To(self) || a.audience == AnyAudience)
      && a.purpose == purpose && a.ctx == ctx
      && a.issuedAt <= wall + MAX_SKEW && a.ExpiresAt() > wall
      && a.signer == a.subject
    }

    function AttemptFor(a: Assertion, wall: int): Attempt {
      Attempt(a.nonce, a.ExpiresAt(), wall)
    }

    predicate Verifies(a: Assertion, purpose: Purpose, ctx: Digest, wall: int)
      requires Wf()
    {
      Checks(a, purpose, ctx, wall) && Accepts(seen, maxNonces, AttemptFor(a, wall))
    }

    /** The nonce cache after a verification. */
    function SeenAfter(a: Assertion, purpose: Purpose, ctx: Digest, wall: int): seq<Seen>
      requires Wf()
    {
      if Checks(a, purpose, ctx, wall) then After(seen, maxNonces, AttemptFor(a, wall)) else seen
    }

    // ---------------------------------------------------------------- the steps

    function StartLogin(peer: Node, env: Env): Endpoint {
      this.(pending := Filed(Pruned(pending, env.mono), Pending(env.drawn, peer, None, env.mono + ttl)))
    }

    /** The responder's answer, if it has room: the endpoint after it, and the challenge. */
    function AnswerLogin(peer: Node, frame: Frame, env: Env): (Endpoint, Option<Frame>) {
      if !frame.Hello? || |frame.nonceA| != NONCE_LEN then (this, None)
      else
        var kept := Pruned(pending, env.mono);
        if |kept| >= MAX_PENDING then (this.(pending := kept), None)
        else
          (this.(pending := Filed(kept, Pending(env.drawn, peer, Some(frame.nonceA), env.mono + ttl))),
           Some(Challenge(env.drawn, Mint(peer, LoginPurpose, LoginCtx(frame.nonceA, env.drawn), env))))
    }

    /** The initiator's answer to a challenge: its own proof and its session. */
    function CompleteLogin(peer: Node, frame: Frame, env: Env): (Endpoint, Option<(Frame, SessionId)>)
      requires Wf()
    {
      var at := FirstFor(pending, peer, false);
      if !frame.Challenge? || |frame.nonceB| != NONCE_LEN || at == |pending| then (this, None)
      else
        var nonceA := pending[at].nonce;
        var ctx := LoginCtx(nonceA, frame.nonceB);
        var burnt := this.(seen := SeenAfter(frame.proof, LoginPurpose, ctx, env.wall));
        if !Verifies(frame.proof, LoginPurpose, ctx, env.wall) || frame.proof.subject != peer then (burnt, None)
        else
          var sid := SessionId(nonceA, frame.nonceB);
          (burnt.(pending := Dropped(pending, nonceA), sessions := Stored(sid, peer, env.mono)),
           Some((Prove(Mint(peer, LoginPurpose, ctx, env)), sid)))
    }

    /** The responder's end of it: its session, if the proof checks out. */
    function AcceptLogin(peer: Node, frame: Frame, env: Env): (Endpoint, Option<SessionId>)
      requires Wf()
    {
      var at := FirstFor(pending, peer, true);
      if !frame.Prove? || at == |pending| then (this, None)
      else
        var nonceB, nonceA := pending[at].nonce, pending[at].prior.value;
        var ctx := LoginCtx(nonceA, nonceB);
        var burnt := this.(seen := SeenAfter(frame.answer, LoginPurpose, ctx, env.wall));
        if !Verifies(frame.answer, LoginPurpose, ctx, env.wall) || frame.answer.subject != peer then (burnt, None)
        else
          var sid := SessionId(nonceA, nonceB);
          (burnt.(pending := Dropped(pending, nonceB), sessions := Stored(sid, peer, env.mono)), Some(sid))
    }

    function Stored(sid: SessionId, peer: Node, mono: real): seq<Session>
      requires Wf()
    {
      StoredIn(Alive(sessions, mono), Session(sid, peer, mono, mono + ttl), maxSessions)
    }
  }

  // ------------------------------------------------------------------ the tables

  function Live(pending: seq<Pending>, mono: real): seq<Pending> {
    if pending == [] then []
    else (if pending[0].deadline > mono then [pending[0]] else []) + Live(pending[1..], mono)
  }

  /** Expired logins go; then the oldest, down to the bound. */
  function Pruned(pending: seq<Pending>, mono: real): seq<Pending> {
    var live := Live(pending, mono);
    if |live| > MAX_PENDING then live[|live| - MAX_PENDING..] else live
  }

  function IndexOf(pending: seq<Pending>, nonce: Nonce): (i: nat)
    ensures i <= |pending| && (i < |pending| ==> pending[i].nonce == nonce)
    ensures forall k :: 0 <= k < i ==> pending[k].nonce != nonce
  {
    FindBy(pending, (p: Pending) => p.nonce, nonce)
  }

  /** A dict assignment: a nonce already there keeps its place. */
  function Filed(pending: seq<Pending>, p: Pending): seq<Pending> {
    var i := IndexOf(pending, p.nonce);
    if i < |pending| then pending[i := p] else pending + [p]
  }

  function Dropped(pending: seq<Pending>, nonce: Nonce): seq<Pending> {
    var i := IndexOf(pending, nonce);
    if i < |pending| then pending[..i] + pending[i + 1..] else pending
  }

  /** The oldest login under way with `peer` in the given role, or the end of the table. */
  function FirstFor(pending: seq<Pending>, peer: Node, responder: bool): (i: nat)
    ensures i <= |pending|
    ensures i < |pending| ==> pending[i].peer == peer && pending[i].prior.Some? == responder
    ensures forall k :: 0 <= k < i ==> !(pending[k].peer == peer && pending[k].prior.Some? == responder)
  {
    if pending == [] || (pending[0].peer == peer && pending[0].prior.Some? == responder) then 0
    else 1 + FirstFor(pending[1..], peer, responder)
  }

  function Alive(sessions: seq<Session>, mono: real): seq<Session> {
    if sessions == [] then []
    else (if sessions[0].expires > mono then [sessions[0]] else []) + Alive(sessions[1..], mono)
  }

  function SidIndex(sessions: seq<Session>, sid: SessionId): (i: nat)
    ensures i <= |sessions| && (i < |sessions| ==> sessions[i].sid == sid)
    ensures forall k :: 0 <= k < i ==> sessions[k].sid != sid
  {
    FindBy(sessions, (s: Session) => s.sid, sid)
  }

  /** Room for one more: the oldest go. */
  function Youngest(alive: seq<Session>, bound: nat): seq<Session>
    requires bound >= 1
  {
    if |alive| >= bound then alive[|alive| - (bound - 1)..] else alive
  }

  function StoredIn(alive: seq<Session>, s: Session, bound: nat): seq<Session>
    requires bound >= 1
  {
    var kept := Youngest(alive, bound);
    var i := SidIndex(kept, s.sid);
    if i < |kept| then kept[i := s] else kept + [s]
  }

  // ------------------------------------------------------------------ what the tables keep

  predicate DistinctNonces(pending: seq<Pending>) {
    forall i, j :: 0 <= i < j < |pending| ==> pending[i].nonce != pending[j].nonce
  }

  /** Filing keeps one login for a nonce. */
  lemma FiledKeepsOne(pending: seq<Pending>, p: Pending)
    requires DistinctNonces(pending)
    ensures DistinctNonces(Filed(pending, p)) && p in Filed(pending, p)
    ensures forall q :: q in Filed(pending, p) <==> q == p || (q in pending && q.nonce != p.nonce)
  {
    var filed, i := Filed(pending, p), IndexOf(pending, p.nonce);
    assert filed[i] == p;
    forall q | q in pending && q.nonce != p.nonce ensures q in filed {
      var k :| 0 <= k < |pending| && pending[k] == q;
      assert filed[k] == q;
    }
    forall q | q in filed && q != p ensures q in pending && q.nonce != p.nonce {
      var k :| 0 <= k < |filed| && filed[k] == q;
      assert pending[k] == q;
    }
  }

  lemma {:induction false} LiveAre(pending: seq<Pending>, mono: real)
    ensures forall p :: p in Live(pending, mono) <==> p in pending && p.deadline > mono
  {
    if pending != [] {
      LiveAre(pending[1..], mono);
    }
  }

  /** Pruning keeps nothing expired and no more than the bound, and everything live if that is
      within it. */
  lemma PrunedAre(pending: seq<Pending>, mono: real)
    ensures |Pruned(pending, mono)| <= MAX_PENDING
    ensures forall p :: p in Pruned(pending, mono) ==> p in pending && p.deadline > mono
    ensures |Live(pending, mono)| <= MAX_PENDING ==>
              forall p :: p in pending && p.deadline > mono ==> p in Pruned(pending, mono)
  {
    LiveAre(pending, mono);
  }

  lemma {:induction false} AliveAre(sessions: seq<Session>, mono: real)
    ensures forall s :: s in Alive(sessions, mono) <==> s in sessions && s.expires > mono
  {
    if sessions != [] {
      AliveAre(sessions[1..], mono);
    }
  }

  /** Storing a session keeps nothing dead and no more than the bound; the new one is there, and
      all that live are while there is room. */
  lemma StoredAre(sessions: seq<Session>, s: Session, mono: real, bound: nat)
    requires bound >= 1
    ensures var stored := StoredIn(Alive(sessions, mono), s, bound);
            && |stored| <= bound && s in stored
            && (forall t :: t in stored && t != s ==> t in sessions && t.expires > mono)
            && (|Alive(sessions, mono)| < bound ==>
                  forall t :: t in sessions && t.expires > mono && t.sid != s.sid ==> t in stored)
  {
    AliveAre(sessions, mono);
    var alive := Alive(sessions, mono);
    var kept := Youngest(alive, bound);
    var stored, i := StoredIn(alive, s, bound), SidIndex(kept, s.sid);
    assert stored[i] == s;
    forall t | t in kept && t.sid != s.sid ensures t in stored {
      var k :| 0 <= k < |kept| && kept[k] == t;
      assert stored[k] == t;
    }
  }

  // ------------------------------------------------------------------ the service

  class AppAuth {
    const app: AppId
    const self: Node
    const ttl: real
    const maxSessions: nat
    const nonces: Cache
    var pending: seq<Pending>
    var sessions: seq<Session>

    function Snap(): Endpoint
      reads this, nonces
    {
      Endpoint(app, self, ttl, maxSessions, nonces.max, pending, sessions, nonces.seen)
    }

    ghost predicate Valid()
      reads this, nonces
    {
      Snap().Wf() && nonces.Valid()
    }

    constructor (app: AppId, self: Node, ttl: real, maxSessions: int, nonces: Cache)
      requires nonces.Valid()
      ensures Valid() && pending == [] && sessions == [] && this.nonces == nonces
      ensures this.app == app && this.self == self
    {
      this.app, this.self, this.ttl, this.nonces := app, self, ttl, nonces;
      this.maxSessions := if maxSessions < 1 then 1 else maxSessions;
      pending, sessions := [], [];
    }

    /** Verify a login proof; the nonce is burnt only once the signature has spoken. */
    method Verify(a: Assertion, ctx: Digest, wall: int) returns (ok: bool)
      requires Valid()
      modifies nonces
      ensures Valid()
      ensures ok == old(Snap()).Verifies(a, LoginPurpose, ctx, wall)
      ensures ok ==> a.issuedAt - MAX_SKEW <= wall < a.issuedAt + a.ttl && a.signer == a.subject
      ensures Snap() == old(Snap()).(seen := old(Snap()).SeenAfter(a, LoginPurpose, ctx, wall))
    {
      if a.app != app {
        return false;
      }
      if a.audience != To(self) && a.audience != AnyAudience {
        return false;
      }
      if a.purpose != LoginPurpose || a.ctx != ctx {
        return false;
      }
      if a.issuedAt > wall + MAX_SKEW || a.ExpiresAt() <= wall {
        return false;
      }
      if a.signer != a.subject {
        return false;
      }
      ok := nonces.Claim(a.nonce, a.ExpiresAt(), wall);
    }

    method PrunePending(mono: real)
      modifies `pending
      ensures pending == Pruned(old(pending), mono)
    {
      pending := Live(pending, mono);
      ghost var live := pending;
      while |pending| > MAX_PENDING
        invariant |live| <= MAX_PENDING ==> pending == live
        invariant |live| > MAX_PENDING ==> |pending| >= MAX_PENDING && pending == live[|live| - |pending|..]
        decreases |pending|
      {
        pending := pending[1..];
      }
    }

    method StoreSession(sid: SessionId, peer: Node, mono: real)
      requires maxSessions >= 1
      modifies `sessions
      ensures sessions == StoredIn(Alive(old(sessions), mono), Session(sid, peer, mono, mono + ttl), maxSessions)
    {
      sessions := Alive(sessions, mono);
      ghost var alive := sessions;
      while |sessions| >= maxSessions
        invariant Youngest(sessions, maxSessions) == Youngest(alive, maxSessions)
        decreases |sessions|
      {
        sessions := sessions[1..];
      }
      var s := Session(sid, peer, mono, mono + ttl);
      var i := SidIndex(sessions, sid);
      sessions := if i < |sessions| then sessions[i := s] else sessions + [s];
    }

    /** Step 1, initiator. */
    method StartLogin(peer: Node, env: Env) returns (frame: Frame)
      requires Valid()
      modifies `pending
      ensures Valid() && Snap() == old(Snap()).StartLogin(peer, env) && frame == Hello(env.drawn)
    {
      PrunePending(env.mono);
      pending := Filed(pending, Pending(env.drawn, peer, None, env.mono + ttl));
      return Hello(env.drawn);
    }

    /** Step 2, responder. */
    method AnswerLogin(peer: Node, frame: Frame, env: Env) returns (reply: Option<Frame>)
      requires Valid()
      modifies `pending
      ensures Valid() && (Snap(), reply) == old(Snap()).AnswerLogin(peer, frame, env)
    {
      if !frame.Hello? || |frame.nonceA| != NONCE_LEN {
        return None;
      }
      PrunePending(env.mono);
      if |pending| >= MAX_PENDING {
        return None;
      }
      var proof := Snap().Mint(peer, LoginPurpose, LoginCtx(frame.nonceA, env.drawn), env);
      pending := Filed(pending, Pending(env.drawn, peer, Some(frame.nonceA), env.mono + ttl));
      return Some(Challenge(env.drawn, proof));
    }

    /** Step 3, initiator. */
    method CompleteLogin(peer: Node, frame: Frame, env: Env) returns (reply: Option<(Frame, SessionId)>)
      requires Valid()
      modifies this, nonces
      ensures Valid() && (Snap(), reply) == old(Snap()).CompleteLogin(peer, frame, env)
    {
      if !frame.Challenge? || |frame.nonceB| != NONCE_LEN {
        return None;
      }
      var at := FirstFor(pending, peer, false);
      if at == |pending| {
        return None;
      }
      var nonceA := pending[at].nonce;
      var ctx := LoginCtx(nonceA, frame.nonceB);
      var ok := Verify(frame.proof, ctx, env.wall);
      if !ok || frame.proof.subject != peer {
        return None;
      }
      pending := Dropped(pending, nonceA);
      var sid := SessionId(nonceA, frame.nonceB);
      StoreSession(sid, peer, env.mono);
      return Some((Prove(Snap().Mint(peer, LoginPurpose, ctx, env)), sid));
    }

    /** Step 4, responder. */
    method AcceptLogin(peer: Node, frame: Frame, env: Env) returns (session: Option<SessionId>)
      requires Valid()
      modifies this, nonces
      ensures Valid() && (Snap(), session) == old(Snap()).AcceptLogin(peer, frame, env)
    {
      if !frame.Prove? {
        return None;
      }
      var at := FirstFor(pending, peer, true);
      if at == |pending| {
        return None;
      }
      var nonceB, nonceA := pending[at].nonce, pending[at].prior.value;
      var ok := Verify(frame.answer, LoginCtx(nonceA, nonceB), env.wall);
      if !ok || frame.answer.subject != peer {
        return None;
      }
      pending := Dropped(pending, nonceB);
      StoreSession(SessionId(nonceA, nonceB), peer, env.mono);
      return Some(SessionId(nonceA, nonceB));
    }
  }
}
