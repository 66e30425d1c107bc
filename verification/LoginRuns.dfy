/** Runs of the mutual login: any number of honest nodes, and a network that delivers
    whatever was minted and whatever a dishonest node can sign. (src/app_auth.py:329-479) */
module LoginRuns {
  import opened Wrappers
  import opened NonceCache
  import opened Login

  /** Something a node did. */
  datatype Event =
    | Answered(node: Node, peer: Node, nonceA: Nonce, nonceB: Nonce)
    | Completed(node: Node, peer: Node, nonceA: Nonce, nonceB: Nonce, sid: SessionId)
    | Accepted(node: Node, peer: Node, nonceA: Nonce, nonceB: Nonce, sid: SessionId)

  /** `origin` says who drew each challenge nonce; a nonce is drawn once. */
  datatype World = World(
    nodes: map<Node, Endpoint>, minted: set<Assertion>, origin: map<Nonce, Node>, log: seq<Event>)

  datatype Action =
    | Start(node: Node, peer: Node, env: Env)
    | Answer(node: Node, peer: Node, frame: Frame, env: Env)
    | Complete(node: Node, peer: Node, frame: Frame, env: Env)
    | Accept(node: Node, peer: Node, frame: Frame, env: Env)
    /** The app mints something of its own, never a login proof. */
    | AppMint(node: Node, audience: Audience, name: string, ctx: Digest, env: Env)
    /** The app verifies something, which may change the nonce cache in any way. */
    | AppVerify(node: Node, seen: seq<Seen>)

  /** The network can hand over an assertion that exists, or one a dishonest node signs. */
  ghost predicate Deliverable(w: World, a: Assertion) {
    a in w.minted || a.signer !in w.nodes
  }

  ghost predicate FrameDeliverable(w: World, frame: Frame) {
    match frame
    case Challenge(_, proof) => Deliverable(w, proof)
    case Prove(answer) => Deliverable(w, answer)
    case _ => true
  }

  ghost predicate Enabled(w: World, action: Action) {
    && action.node in w.nodes
    && match action
       case Start(_, _, env) => env.drawn !in w.origin
       case Answer(_, _, frame, env) => env.drawn !in w.origin && FrameDeliverable(w, frame)
       case Complete(_, _, frame, _) => FrameDeliverable(w, frame)
       case Accept(_, _, frame, _) => FrameDeliverable(w, frame)
       case _ => true
  }

  ghost predicate WorldWf(w: World) {
    forall n :: n in w.nodes ==> w.nodes[n].Wf() && w.nodes[n].self == n
  }

  /** One action. */
  function Next(w: World, action: Action): World
    requires action.node in w.nodes && w.nodes[action.node].Wf()
  {
    var n := action.node;
    var e := w.nodes[n];
    match action
    case Start(_, peer, env) =>
      w.(nodes := w.nodes[n := e.StartLogin(peer, env)], origin := w.origin[env.drawn := n])
    case Answer(_, peer, frame, env) =>
      var (e', reply) := e.AnswerLogin(peer, frame, env);
      if reply.None? then w.(nodes := w.nodes[n := e'], origin := w.origin[env.drawn := n])
      else
        w.(nodes := w.nodes[n := e'], origin := w.origin[env.drawn := n],
        minted := w.minted + {reply.value.proof},
        log := w.log + [Answered(n, peer, frame.nonceA, env.drawn)])
    case Complete(_, peer, frame, env) =>
      var (e', reply) := e.CompleteLogin(peer, frame, env);
      if reply.None? then w.(nodes := w.nodes[n := e'])
      else
        var sid := reply.value.1;
        w.(nodes := w.nodes[n := e'], minted := w.minted + {reply.value.0.answer},
        log := w.log + [Completed(n, peer, sid.nonceA, sid.nonceB, sid)])
    case Accept(_, peer, frame, env) =>
      var (e', sid) := e.AcceptLogin(peer, frame, env);
      if sid.None? then w.(nodes := w.nodes[n := e'])
      else
        w.(nodes := w.nodes[n := e'],
        log := w.log + [Accepted(n, peer, sid.value.nonceA, sid.value.nonceB, sid.value)])
    case AppMint(_, audience, name, ctx, env) =>
      w.(minted := w.minted + {Assertion(e.app, n, audience, OtherPurpose(name), env.mint, env.wall,
                                                DEFAULT_TTL, ctx, n)})
    case AppVerify(_, seen) => w.(nodes := w.nodes[n := e.(seen := seen)])
  }

  ghost predicate Initial(w: World) {
    && WorldWf(w) && w.minted == {} && w.origin == map[] && w.log == []
    && forall n :: n in w.nodes ==> w.nodes[n].pending == []
  }

  ghost predicate Step(w: World, action: Action, w': World) {
    WorldWf(w) && Enabled(w, action) && w' == Next(w, action)
  }

  ghost predicate IsRun(worlds: seq<World>, actions: seq<Action>) {
    && |worlds| == |actions| + 1 && Initial(worlds[0])
    && forall i :: 0 <= i < |actions| ==> Step(worlds[i], actions[i], worlds[i + 1])
  }

  // ------------------------------------------------------------------ the invariant

  predicate InLog(log: seq<Event>, e: Event) {
    e in log
  }

  /** Where an honest node's login proof came from: it answered, or it completed. */
  ghost predicate ProofExplained(w: World, a: Assertion) {
    a.purpose.LoginPurpose? ==>
      && a.audience.To? && a.ctx.LoginCtx? && a.signer == a.subject
      && var na, nb := a.ctx.nonceA, a.ctx.nonceB;
         || (nb in w.origin && w.origin[nb] == a.signer && InLog(w.log, Answered(a.signer, a.audience.node, na, nb)))
         || (na in w.origin && w.origin[na] == a.signer
             && InLog(w.log, Completed(a.signer, a.audience.node, na, nb, SessionId(na, nb))))
  }

  ghost predicate ProofsExplained(w: World) {
    forall a :: a in w.minted ==> ProofExplained(w, a)
  }

  /** A login under way is on a nonce its own node drew. */
  ghost predicate PendingOwned(w: World) {
    forall n, p :: n in w.nodes && p in w.nodes[n].pending ==> p.nonce in w.origin && w.origin[p.nonce] == n
  }

  ghost predicate PendingDistinct(w: World) {
    forall n :: n in w.nodes ==> DistinctNonces(w.nodes[n].pending)
  }

  predicate DistinctNonces(pending: seq<Pending>) {
    forall i, j :: 0 <= i < j < |pending| ==> pending[i].nonce != pending[j].nonce
  }

  /** A login that was accepted is no longer under way, and its nonce is the acceptor's. */
  ghost predicate AcceptedClosed(w: World) {
    forall i :: 0 <= i < |w.log| && w.log[i].Accepted? ==>
                  var e := w.log[i];
                  && e.nonceB in w.origin && w.origin[e.nonceB] == e.node && e.node in w.nodes
                  && forall p :: p in w.nodes[e.node].pending ==> p.nonce != e.nonceB
  }

  /** Every accepted login with an honest other node was completed by it before. */
  ghost predicate Corresponds(w: World) {
    forall i :: 0 <= i < |w.log| && w.log[i].Accepted? ==>
                  var e := w.log[i];
                  e.peer in w.nodes && e.peer != e.node ==>
                    InLog(w.log[..i], Completed(e.peer, e.node, e.nonceA, e.nonceB, e.sid))
  }

  /** Every completed login with an honest other node was answered by it before. */
  ghost predicate Answers(w: World) {
    forall i :: 0 <= i < |w.log| && w.log[i].Completed? ==>
                  var e := w.log[i];
                  e.peer in w.nodes && e.peer != e.node ==>
                    InLog(w.log[..i], Answered(e.peer, e.node, e.nonceA, e.nonceB))
  }

  /** No responder nonce is accepted twice. */
  ghost predicate AcceptedOnce(w: World) {
    forall i, j :: 0 <= i < j < |w.log| && w.log[i].Accepted? && w.log[j].Accepted? ==>
                     w.log[i].nonceB != w.log[j].nonceB
  }

  ghost predicate Inv(w: World) {
    && WorldWf(w) && ProofsExplained(w) && PendingOwned(w) && PendingDistinct(w)
    && AcceptedClosed(w) && Corresponds(w) && Answers(w) && AcceptedOnce(w)
  }

  // ------------------------------------------------------------------ the tables

  lemma {:induction false} LiveMeaning(pending: seq<Pending>, mono: real)
    ensures forall p :: p in Live(pending, mono) ==> p in pending
    ensures DistinctNonces(pending) ==> DistinctNonces(Live(pending, mono))
  {
    if pending != [] {
      LiveMeaning(pending[1..], mono);
      var rest := Live(pending[1..], mono);
      forall i | 0 <= i < |rest| && DistinctNonces(pending) ensures rest[i].nonce != pending[0].nonce {
        assert rest[i] in rest && rest[i] in pending[1..];
      }
    }
  }

  lemma PrunedMeaning(pending: seq<Pending>, mono: real)
    ensures forall p :: p in Pruned(pending, mono) ==> p in pending
    ensures DistinctNonces(pending) ==> DistinctNonces(Pruned(pending, mono))
  {
    LiveMeaning(pending, mono);
  }

  lemma FiledFresh(pending: seq<Pending>, q: Pending)
    requires forall p :: p in pending ==> p.nonce != q.nonce
    ensures Filed(pending, q) == pending + [q]
    ensures DistinctNonces(pending) ==> DistinctNonces(pending + [q])
  {
    assert forall k :: 0 <= k < |pending| ==> pending[k] in pending;
  }

  lemma DroppedMeaning(pending: seq<Pending>, nonce: Nonce)
    requires DistinctNonces(pending)
    ensures DistinctNonces(Dropped(pending, nonce))
    ensures forall p :: p in Dropped(pending, nonce) ==> p in pending && p.nonce != nonce
  {
  }

  // ------------------------------------------------------------------ every step keeps it

  /** What a step that adds nothing to the log and nothing to `minted` has to keep. */
  lemma QuietStep(w: World, w': World, n: Node)
    requires Inv(w) && n in w.nodes && n in w'.nodes && w'.nodes == w.nodes[n := w'.nodes[n]]
    requires w'.nodes[n].Wf() && w'.nodes[n].self == n
    requires w'.log == w.log && w'.minted == w.minted
    requires forall k :: k in w.origin ==> k in w'.origin && w'.origin[k] == w.origin[k]
    requires DistinctNonces(w'.nodes[n].pending)
    requires forall p :: p in w'.nodes[n].pending ==>
                           || p in w.nodes[n].pending
                           || (p.nonce in w'.origin && w'.origin[p.nonce] == n && p.nonce !in w.origin)
    ensures Inv(w')
  {
  }

  /** Adding one event, whatever the step was. */
  lemma Logged(w: World, e: Event, w': World)
    requires Inv(w) && w'.nodes.Keys == w.nodes.Keys && w'.log == w.log + [e]
    requires e.Accepted? && e.peer in w.nodes && e.peer != e.node ==>
               InLog(w.log, Completed(e.peer, e.node, e.nonceA, e.nonceB, e.sid))
    requires e.Completed? && e.peer in w.nodes && e.peer != e.node ==>
               InLog(w.log, Answered(e.peer, e.node, e.nonceA, e.nonceB))
    requires e.Accepted? ==> forall i :: 0 <= i < |w.log| && w.log[i].Accepted? ==> w.log[i].nonceB != e.nonceB
    ensures Corresponds(w') && Answers(w') && AcceptedOnce(w')
  {
    forall i | 0 <= i < |w.log| ensures w'.log[i] == w.log[i] && w'.log[..i] == w.log[..i] {
    }
    assert w'.log[..|w.log|] == w.log;
  }

  /** A successful answer. */
  lemma AnswerKeepsInv(w: World, action: Action)
    requires Inv(w) && Enabled(w, action) && action.Answer?
    ensures Inv(Next(w, action))
  {
    var n, env := action.node, action.env;
    var e, w' := w.nodes[n], Next(w, action);
    PrunedMeaning(e.pending, env.mono);
    var (e', reply) := e.AnswerLogin(action.peer, action.frame, env);
    if reply.Some? {
      var na := action.frame.nonceA;
      var q := Pending(env.drawn, action.peer, Some(na), env.mono + e.ttl);
      var kept := Pruned(e.pending, env.mono);
      FiledFresh(kept, q);
      assert e'.pending == kept + [q];
      QuietStep(w, w.(nodes := w'.nodes, origin := w'.origin), n);
      var mid := w.(nodes := w'.nodes, origin := w'.origin);
      var event := Answered(n, action.peer, na, env.drawn);
      Logged(mid, event, w');
      MintExplained(mid, reply.value.proof, event, w');
    } else {
      QuietStep(w, w', n);
    }
  }

  /** One more explained proof and one more event. */
  lemma MintExplained(w: World, a: Assertion, event: Event, w': World)
    requires Inv(w) && w'.nodes == w.nodes && w'.origin == w.origin
    requires w'.minted == w.minted + {a} && w'.log == w.log + [event] && !event.Accepted?
    requires ProofExplained(w', a)
    requires Corresponds(w') && Answers(w') && AcceptedOnce(w')
    ensures Inv(w')
  {
  }

  lemma StartKeepsInv(w: World, action: Action)
    requires Inv(w) && Enabled(w, action) && action.Start?
    ensures Inv(Next(w, action))
  {
    var n, env := action.node, action.env;
    var e := w.nodes[n];
    PrunedMeaning(e.pending, env.mono);
    FiledFresh(Pruned(e.pending, env.mono), Pending(env.drawn, action.peer, None, env.mono + e.ttl));
    QuietStep(w, Next(w, action), n);
  }

  /** A proof that a node other than the verifier signed honestly for it. */
  lemma HonestProof(w: World, a: Assertion, self: Node, na: Nonce, nb: Nonce)
    requires Inv(w) && Deliverable(w, a) && a.signer in w.nodes && a.purpose.LoginPurpose?
    requires a.audience == To(self) || a.audience == AnyAudience
    requires a.ctx == LoginCtx(na, nb)
    ensures a.audience == To(self) && ProofExplained(w, a)
  {
  }

  lemma CompleteKeepsInv(w: World, action: Action)
    requires Inv(w) && Enabled(w, action) && action.Complete?
    ensures Inv(Next(w, action))
  {
    var n, peer, env := action.node, action.peer, action.env;
    var e, w' := w.nodes[n], Next(w, action);
    var (e', reply) := e.CompleteLogin(peer, action.frame, env);
    if reply.None? {
      QuietStep(w, w', n);
    } else {
      var at := FirstFor(e.pending, peer, false);
      var na, nb := e.pending[at].nonce, action.frame.nonceB;
      var sid := SessionId(na, nb);
      assert e.pending[at] in e.pending;
      DroppedMeaning(e.pending, na);
      var mid := w.(nodes := w'.nodes);
      QuietStep(w, mid, n);
      var event := Completed(n, peer, na, nb, sid);
      if peer in w.nodes && peer != n {
        HonestProof(w, action.frame.proof, n, na, nb);
      }
      Logged(mid, event, w');
      assert InLog(w'.log, event) by {
        assert w'.log[|w.log|] == event;
      }
      MintExplained(mid, reply.value.0.answer, event, w');
    }
  }

  lemma AcceptKeepsInv(w: World, action: Action)
    requires Inv(w) && Enabled(w, action) && action.Accept?
    ensures Inv(Next(w, action))
  {
    var n, peer, env := action.node, action.peer, action.env;
    var e, w' := w.nodes[n], Next(w, action);
    var (e', sid) := e.AcceptLogin(peer, action.frame, env);
    if sid.None? {
      QuietStep(w, w', n);
    } else {
      var at := FirstFor(e.pending, peer, true);
      var nb, na := e.pending[at].nonce, e.pending[at].prior.value;
      assert e.pending[at] in e.pending;
      DroppedMeaning(e.pending, nb);
      var mid := w.(nodes := w'.nodes);
      QuietStep(w, mid, n);
      var event := Accepted(n, peer, na, nb, SessionId(na, nb));
      if peer in w.nodes && peer != n {
        HonestProof(w, action.frame.answer, n, na, nb);
      }
      forall i | 0 <= i < |w.log| && w.log[i].Accepted? ensures w.log[i].nonceB != nb {
        assert w.log[i].node == n ==> w.log[i].nonceB != nb;
      }
      Logged(mid, event, w');
      AcceptCloses(mid, event, w');
    }
  }

  lemma AcceptCloses(w: World, event: Event, w': World)
    requires Inv(w) && w' == w.(log := w.log + [event]) && event.Accepted?
    requires event.nonceB in w.origin && w.origin[event.nonceB] == event.node && event.node in w.nodes
    requires forall p :: p in w.nodes[event.node].pending ==> p.nonce != event.nonceB
    requires Corresponds(w') && Answers(w') && AcceptedOnce(w')
    ensures Inv(w')
  {
  }

  lemma StepKeepsInv(w: World, action: Action, w': World)
    requires Inv(w) && Step(w, action, w')
    ensures Inv(w')
  {
    match action
    case Start(_, _, _) => StartKeepsInv(w, action);
    case Answer(_, _, _, _) => AnswerKeepsInv(w, action);
    case Complete(_, _, _, _) => CompleteKeepsInv(w, action);
    case Accept(_, _, _, _) => AcceptKeepsInv(w, action);
    case AppVerify(n, seen) => QuietStep(w, w', n);
    case AppMint(_, _, _, _, _) =>
      forall a | a in w'.minted ensures ProofExplained(w', a) {
        assert a in w.minted ==> ProofExplained(w, a);
      }
  }

  /** Login correspondence, on every run: a session the responder stores for an honest other
      node was completed by that node before, for that responder, on the same nonce pair and
      session id, and that completion was itself answered by the responder; and no two
      accepted sessions share a nonce, so distinct ones match distinct completions. */
  lemma {:induction false} Correspondence(worlds: seq<World>, actions: seq<Action>, k: nat)
    requires IsRun(worlds, actions) && k < |worlds|
    ensures Corresponds(worlds[k]) && Answers(worlds[k]) && AcceptedOnce(worlds[k]) && Inv(worlds[k])
  {
    if k > 0 {
      Correspondence(worlds, actions, k - 1);
      StepKeepsInv(worlds[k - 1], actions[k - 1], worlds[k]);
    }
  }

  /** A node that challenges itself: its own proof comes with the challenge. */
  lemma OwnChallenge(e: Endpoint, na: Nonce, env: Env) returns (w0: World, answer: Action, w1: World)
    requires e.Wf() && e.pending == [] && |na| == NONCE_LEN
    ensures Initial(w0) && Step(w0, answer, w1) && w0.nodes == map[e.self := e]
    ensures var pending := [Pending(env.drawn, e.self, Some(na), env.mono + e.ttl)];
            var proof := e.Mint(e.self, LoginPurpose, LoginCtx(na, env.drawn), env);
            w1 == World(map[e.self := e.(pending := pending)], {proof}, map[env.drawn := e.self],
                        [Answered(e.self, e.self, na, env.drawn)])
  {
    w0 := World(map[e.self := e], {}, map[], []);
    answer := Answer(e.self, e.self, Hello(na), env);
    w1 := Next(w0, answer);
    assert Live([], env.mono) == [];
    assert Filed([], Pending(env.drawn, e.self, Some(na), env.mono + e.ttl))
        == [Pending(env.drawn, e.self, Some(na), env.mono + e.ttl)];
  }

  /** Any node that starts with nothing under way accepts itself, given a nonce its cache has
      not seen: the proof it put in its own challenge passes for the answer, and nobody
      completed anything. */
  lemma SelfLoginIsReflected(e: Endpoint, na: Nonce, nb: Nonce, once: Nonce)
    returns (worlds: seq<World>, actions: seq<Action>)
    requires e.Wf() && e.pending == []
    requires |na| == |nb| == |once| == NONCE_LEN && once !in Nonces(e.seen)
    ensures IsRun(worlds, actions) && |worlds| == 3 && worlds[0].nodes == map[e.self := e]
    ensures worlds[2].log
         == [Answered(e.self, e.self, na, nb), Accepted(e.self, e.self, na, nb, SessionId(na, nb))]
  {
    hide Initial, Endpoint.AcceptLogin;
    var env := Env(0.0, 0, nb, once);
    var w0, answer, w1 := OwnChallenge(e, na, env);
    var proof := e.Mint(e.self, LoginPurpose, LoginCtx(na, nb), env);
    var accept := Accept(e.self, e.self, Prove(proof), env);
    OwnProofPasses(e, na, env);
    var w2 := Next(w1, accept);
    worlds, actions := [w0, w1, w2], [answer, accept];
    assert Step(w1, accept, w2);
  }

  lemma OwnProofPasses(e: Endpoint, na: Nonce, env: Env)
    requires e.Wf() && |env.mint| == NONCE_LEN && env.mint !in Nonces(e.seen)
    ensures var waiting := e.(pending := [Pending(env.drawn, e.self, Some(na), env.mono + e.ttl)]);
            var proof := e.Mint(e.self, LoginPurpose, LoginCtx(na, env.drawn), env);
            waiting.AcceptLogin(e.self, Prove(proof), env).1 == Some(SessionId(na, env.drawn))
  {
    hide Dropped, StoredIn, Alive, After, Swept;
    assert FirstFor([Pending(env.drawn, e.self, Some(na), env.mono + e.ttl)], e.self, true) == 0;
    SweptShrinks(e.seen, e.maxNonces, env.wall);
  }

  lemma {:induction false} UnexpiredSubset(seen: seq<Seen>, stamp: int)
    ensures forall s :: s in Unexpired(seen, stamp) ==> s in seen
  {
    if seen != [] {
      UnexpiredSubset(seen[1..], stamp);
    }
  }

  lemma SweptShrinks(seen: seq<Seen>, max: nat, stamp: int)
    ensures Nonces(Swept(seen, max, stamp)) <= Nonces(seen)
  {
    UnexpiredSubset(seen, stamp);
  }

  /** Whatever the responder accepts from `p` by the end of the run, `p` completed before. */
  ghost predicate AcceptsAreCompleted(worlds: seq<World>, actions: seq<Action>, n: Node, p: Node) {
    IsRun(worlds, actions) && n in worlds[0].nodes && p in worlds[0].nodes ==>
      var log := worlds[|actions|].log;
      forall i :: 0 <= i < |log| && log[i].Accepted? && log[i].node == n && log[i].peer == p ==>
        InLog(log[..i], Completed(p, n, log[i].nonceA, log[i].nonceB, log[i].sid))
  }

  /** Correspondence holds on every run, for two honest nodes, exactly when they are two. */
  lemma CorrespondenceExactly(n: Node, p: Node)
    ensures (forall worlds, actions :: AcceptsAreCompleted(worlds, actions, n, p)) <==> p != n
  {
    hide IsRun, Inv, Answers, AcceptedOnce;
    if p != n {
      forall worlds: seq<World>, actions: seq<Action> ensures AcceptsAreCompleted(worlds, actions, n, p) {
        if IsRun(worlds, actions) {
          RunKeepsNodes(worlds, actions, |actions|);
          Correspondence(worlds, actions, |actions|);
        }
      }
    } else {
      var na: Nonce := seq(NONCE_LEN, _ => 1);
      var nb: Nonce := seq(NONCE_LEN, _ => 2);
      var worlds, actions := SelfLoginIsReflected(Endpoint(0, n, 1.0, 1, 1, [], [], []), na, nb, na);
      var log := worlds[2].log;
      RunLength(worlds, actions);
      assert log[1].Accepted? && log[..1] == [Answered(n, n, na, nb)];
      assert !AcceptsAreCompleted(worlds, actions, n, n);
    }
  }

  lemma RunLength(worlds: seq<World>, actions: seq<Action>)
    requires IsRun(worlds, actions)
    ensures |worlds| == |actions| + 1
  {
  }

  lemma {:induction false} RunKeepsNodes(worlds: seq<World>, actions: seq<Action>, k: nat)
    requires IsRun(worlds, actions) && k <= |actions|
    ensures |worlds| == |actions| + 1 && worlds[k].nodes.Keys == worlds[0].nodes.Keys
  {
    if k > 0 {
      RunKeepsNodes(worlds, actions, k - 1);
      assert Step(worlds[k - 1], actions[k - 1], worlds[k]);
      assert worlds[k].nodes.Keys == worlds[k - 1].nodes.Keys;
    }
  }
}
