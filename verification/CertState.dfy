/** The certificate store as a value, and what each of its operations may do to it.
    `CertStore` proves its methods against these. (src/cert_store.py) */
module CertState {
  import opened Wrappers
  import opened Certificates
  import opened Issuance
  import opened Eviction

  datatype RevKey = RevKey(issuer: NodeId, subject: NodeId)
  datatype Held = Held(issuedAt: nat, reason: nat, record: RevocationRecord)

  function Sieve(certs: seq<Cert>, pass: Cert -> bool): (r: seq<Cert>)
    ensures forall c :: c in r <==> c in certs && pass(c)
    ensures |r| <= |certs| && (Distinct(certs) ==> Distinct(r))
  {
    if certs == [] then []
    else (if pass(certs[0]) then [certs[0]] else []) + Sieve(certs[1..], pass)
  }

  function Unexpired(now: int): Cert -> bool {
    (c: Cert) => !c.Expired(now)
  }

  function Unrevoked(s: State): Cert -> bool {
    (c: Cert) => !s.IsRevoked(c)
  }

  function RevokedIn(s: State): Cert -> bool {
    (c: Cert) => s.IsRevoked(c)
  }

  function UsableAt(s: State, now: int): Cert -> bool {
    (c: Cert) => s.Usable(c, now)
  }

  lemma {:induction false} SieveAll(certs: seq<Cert>, pass: Cert -> bool)
    requires forall c :: c in certs ==> pass(c)
    ensures Sieve(certs, pass) == certs
  {
    if certs != [] {
      SieveAll(certs[1..], pass);
    }
  }

  /** The ids of `order` that still have certificates. */
  function Inhabited(order: seq<NodeId>, certs: map<NodeId, seq<Cert>>): seq<NodeId> {
    if order == [] then []
    else if order[0] in certs && certs[order[0]] != [] then [order[0]] + Inhabited(order[1..], certs)
    else Inhabited(order[1..], certs)
  }

  lemma {:induction false} InhabitedMeaning(order: seq<NodeId>, certs: map<NodeId, seq<Cert>>)
    ensures forall id :: id in Inhabited(order, certs) <==> id in order && id in certs && certs[id] != []
    ensures Distinct(order) ==> Distinct(Inhabited(order, certs))
  {
    if order != [] {
      InhabitedMeaning(order[1..], certs);
      assert Distinct(order) ==> order[0] !in order[1..];
    }
  }

  /** One subject's certificates: some, no two the same, all its own. */
  ghost predicate ListOk(id: NodeId, certs: seq<Cert>) {
    certs != [] && Distinct(certs) && forall c :: c in certs ==> c.subject == id
  }

  /** Insertion order is explicit: `order` lists the subjects and `told` the revocation
      keys, oldest first. */
  datatype State = State(
    own: NodeId, roots: set<NodeId>,
    order: seq<NodeId>, certs: map<NodeId, seq<Cert>>,
    told: seq<RevKey>, revoked: map<RevKey, Held>,
    maxSubjects: int, maxPerSubject: int, maxRevocations: int)
  {
    predicate IsRevoked(c: Cert) {
      var key := RevKey(c.issuer, c.subject);
      key in revoked && c.issuedAt <= revoked[key].issuedAt
    }

    predicate Usable(c: Cert, now: int) {
      !c.Expired(now) && !IsRevoked(c)
    }

    function CertsOf(id: NodeId): seq<Cert> {
      if id in certs then certs[id] else []
    }

    predicate Holds(c: Cert) {
      c in CertsOf(c.subject)
    }

    ghost function Live(now: int): set<Cert> {
      set id, c | id in certs && c in certs[id] && Usable(c, now) :: c
    }

    ghost function GraphAt(now: int): Graph {
      Graph(Live(now), roots, own)
    }

    ghost predicate OrderOk() {
      Distinct(order) && forall id :: id in order <==> id in certs
    }

    ghost predicate ListsOk() {
      forall id :: id in certs ==> ListOk(id, certs[id])
    }

    ghost predicate ToldOk() {
      Distinct(told) && forall key :: key in told <==> key in revoked
    }

    /** The shape of the tables, whatever they say about each other. */
    ghost predicate Shape() {
      own in roots && OrderOk() && ListsOk() && ToldOk() && maxPerSubject >= 1
    }

    /** Well-formed: no held certificate is revoked. */
    ghost predicate Wf() {
      Shape() && forall c :: Holds(c) ==> !IsRevoked(c)
    }

    ghost predicate Bounded() {
      forall id :: id in certs ==> |certs[id]| <= maxPerSubject
    }

    /** The node can present itself at all. */
    ghost predicate HasOwnChain(now: int) {
      exists p :: GraphAt(now).Vouches(own, p)
    }

    /** The node can present itself to people who do not trust its own root. */
    ghost predicate HasNetworkChain(now: int) {
      exists p :: GraphAt(now).Vouches(own, p) && Last(p).subject != own
    }

    /** Every subject left is a root or carries the node's own chain. */
    ghost predicate OnlyPinnedLeft(now: int) {
      || (forall id :: id in order ==> id in roots)
      || exists answer ::
        GraphAt(now).Answers(own, answer) && forall id :: id in order ==> id in PinnedIds(answer)
    }

    /** What `verify_chain` accepts from anybody, held or not. */
    ghost predicate Trusts(p: Chain, now: int) {
      && |p| > 0 && Linked(p)
      && (forall i :: 0 <= i < |p| ==> Usable(p[i], now))
      && Last(p).SelfSigned() && Last(p).subject in roots
    }

    // ---------------------------------------------------------------- operations

    function WithRoot(id: NodeId): State {
      this.(roots := roots + {id})
    }

    function WithoutRoot(id: NodeId): State {
      if id == own then this else this.(roots := roots - {id})
    }

    /** Only the certificates that pass, and only the subjects that still have one. */
    function Sift(pass: Cert -> bool): State {
      var sifted := map id | id in certs :: Sieve(certs[id], pass);
      var left := Inhabited(order, sifted);
      this.(order := left, certs := map id | id in left && id in sifted :: sifted[id])
    }

    function Pruned(now: int): State {
      Sift(Unexpired(now))
    }

    predicate Stale(r: Revocation) {
      var key := RevKey(r.issuer, r.subject);
      key in revoked && r.issuedAt <= revoked[key].issuedAt
    }

    ghost function TrustedKeys(): set<RevKey> {
      set key | key in told && key.issuer in roots
    }

    /** The table with `r` filed, the oldest untrusted entries gone if it is too big. */
    ghost function Filed(r: Revocation, record: RevocationRecord): State {
      var key := RevKey(r.issuer, r.subject);
      var s := this.(told := if key in told then told else told + [key],
      revoked := revoked[key := Held(r.issuedAt, r.reason, record)]);
      var kept := DropOldest(s.told, s.TrustedKeys(), Excess(|s.told|, maxRevocations));
      s.(told := kept, revoked := map k | k in kept && k in s.revoked :: s.revoked[k])
    }

    /** One subject's list replaced, the subject gone if nothing is left. */
    function Replaced(id: NodeId, list: seq<Cert>): State {
      if list == [] then this.(certs := certs - {id}, order := Without(order, id))
      else this.(certs := certs[id := list])
    }

    /** `Filed`, and what the table now voids of that subject dropped. */
    ghost function AfterRevoke(r: Revocation, record: RevocationRecord): State {
      var s := Filed(r, record);
      if r.subject in s.certs
      then s.Replaced(r.subject, Sieve(s.certs[r.subject], Unrevoked(s)))
      else s
    }

    function Touched(id: NodeId): State {
      if id in certs then this.(order := Without(order, id) + [id]) else this
    }

    function WithCert(c: Cert): State {
      this.(order := Without(order, c.subject) + [c.subject],
      certs := certs[c.subject := CertsOf(c.subject) + [c]])
    }

    function PinnedIds(answer: Option<Chain>): set<NodeId> {
      roots + {own} + match answer
      case None => {}
      case Some(p) => (set c | c in p :: c.subject) + (set c | c in p :: c.issuer)
    }

    function PinnedCerts(answer: Option<Chain>): set<Cert> {
      match answer case None => {} case Some(p) => set c | c in p
    }

    function TrimmedSubject(id: NodeId, answer: Option<Chain>): State
      requires id in certs
    {
      this.(certs := certs[id := DropOldest(certs[id], PinnedCerts(answer), Excess(|certs[id]|, maxPerSubject))])
    }

    function TrimmedTo(pinned: set<NodeId>): State {
      var kept := DropOldest(order, pinned, Excess(|order|, maxSubjects));
      this.(order := kept, certs := map id | id in kept && id in certs :: certs[id])
    }

    function TrimmedSubjects(answer: Option<Chain>): State {
      TrimmedTo(PinnedIds(answer))
    }

    function Trimmed(id: NodeId, answer: Option<Chain>): State
      requires id in certs
    {
      TrimmedSubject(id, answer).TrimmedSubjects(answer)
    }

    /** A bound is exceeded, and not by roots alone. */
    predicate Overfull(id: NodeId) {
      |CertsOf(id)| > maxPerSubject || (|order| > maxSubjects && exists k :: k in order && k !in roots)
    }

    /** What `add` does: refuse, refresh, or file and evict around the own chain. */
    ghost predicate Added(c: Cert, now: int, ok: bool, after: State) {
      if !Usable(c, now) then !ok && after == this
      else if Holds(c) then ok && after == Touched(c.subject)
      else
        var filed := WithCert(c);
        && ok
        && (!filed.Overfull(c.subject) ==> after == filed)
        && (filed.Overfull(c.subject) ==>
              exists answer :: filed.GraphAt(now).Answers(own, answer) && after == filed.Trimmed(c.subject, answer))
    }
  }

  // ------------------------------------------------------------------ lemmas

  function FirstOutside<T(==)>(s: seq<T>, keep: set<T>): (i: nat)
    ensures i <= |s| && (i < |s| ==> s[i] !in keep) && forall k :: 0 <= k < i ==> s[k] in keep
  {
    if s == [] || s[0] !in keep then 0 else 1 + FirstOutside(s[1..], keep)
  }

  /** One subject's list brought down to a bound the way the code does it, its last resort
      included: when all are pinned, the front goes. */
  function Squeezed<T(==)>(s: seq<T>, keep: set<T>, bound: nat): seq<T>
    decreases |s|
  {
    if |s| <= bound then s
    else
      var i := FirstOutside(s, keep);
      Squeezed(RemoveAt(s, if i < |s| then i else 0), keep, bound)
  }

  lemma OneOfTwoIsOutside(s: seq<Cert>, pin: Cert)
    requires Distinct(s) && |s| >= 2
    ensures FirstOutside(s, {pin}) < |s|
  {
    hide FirstOutside;
    assert s[0] != s[1];
  }

  lemma {:induction false} SqueezedFits(s: seq<Cert>, keep: set<Cert>, bound: nat)
    ensures |Squeezed(s, keep, bound)| <= bound
    decreases |s|
  {
    if |s| > bound {
      var i := FirstOutside(s, keep);
      SqueezedFits(RemoveAt(s, if i < |s| then i else 0), keep, bound);
    }
  }

  /** The one certificate the own chain runs through survives exactly when the bound leaves
      room for any. */
  lemma {:induction false} PinSurvivesExactly(s: seq<Cert>, pin: Cert, bound: nat)
    requires Distinct(s) && pin in s
    ensures pin in Squeezed(s, {pin}, bound) <==> bound >= 1
    decreases |s|
  {
    if bound == 0 {
      SqueezedFits(s, {pin}, bound);
    } else if |s| > bound {
      OneOfTwoIsOutside(s, pin);
      var i := FirstOutside(s, {pin});
      RemoveAtMeaning(s, i);
      PinSurvivesExactly(RemoveAt(s, i), pin, bound);
    }
  }

  lemma LiveMembers(s: State, now: int)
    requires s.ListsOk()
    ensures forall c :: c in s.Live(now) <==> s.Holds(c) && s.Usable(c, now)
  {
  }

  /** A chain the search may return is one `verify_chain` accepts, and of the certificates it
      holds a store accepts no other chain from anybody. */
  lemma AcceptedIsTrusted(s: State, p: Chain, now: int)
    requires s.Wf()
    ensures s.GraphAt(now).Accepts(p) <==> s.Trusts(p, now) && forall c :: c in p ==> s.Holds(c)
  {
    LiveMembers(s, now);
    if s.GraphAt(now).Accepts(p) {
      forall c | c in p ensures s.Holds(c) {
        assert c in s.Live(now);
      }
    }
  }

  lemma SiftTables(s: State, pass: Cert -> bool)
    requires s.OrderOk()
    ensures var s' := s.Sift(pass);
            && s'.OrderOk()
            && (forall id :: id in s'.certs <==> id in s.certs && Sieve(s.certs[id], pass) != [])
            && (forall id :: id in s'.certs ==> s'.certs[id] == Sieve(s.certs[id], pass))
  {
    var sifted := map id | id in s.certs :: Sieve(s.certs[id], pass);
    InhabitedMeaning(s.order, sifted);
  }

  lemma SiftHolds(s: State, pass: Cert -> bool)
    requires s.OrderOk()
    ensures forall c :: s.Sift(pass).Holds(c) <==> s.Holds(c) && pass(c)
  {
    SiftTables(s, pass);
    forall c | s.Holds(c) && pass(c) ensures s.Sift(pass).Holds(c) {
      assert c in Sieve(s.certs[c.subject], pass);
    }
  }

  lemma SiftKeepsWf(s: State, pass: Cert -> bool)
    requires s.Shape()
    requires forall c :: s.Holds(c) && pass(c) ==> !s.IsRevoked(c)
    ensures s.Sift(pass).Wf()
    ensures s.Bounded() ==> s.Sift(pass).Bounded()
  {
    var s' := s.Sift(pass);
    SiftTables(s, pass);
    SiftHolds(s, pass);
    forall id | id in s'.certs ensures ListOk(id, s'.certs[id]) {
      assert ListOk(id, s.certs[id]);
    }
    forall c | s'.Holds(c) ensures !s'.IsRevoked(c) {
      assert s.Holds(c) && pass(c);
    }
  }

  /** Filing a revocation forgets nothing a trusted root said and moves only forward. */
  lemma FiledKeepsTrusted(s: State, r: Revocation, record: RevocationRecord)
    requires s.Shape() && !s.Stale(r)
    ensures s.Filed(r, record).Shape()
    ensures forall key :: key in s.revoked && key.issuer in s.roots ==> key in s.Filed(r, record).revoked
    ensures forall key :: key in s.revoked && key in s.Filed(r, record).revoked ==>
                            s.revoked[key].issuedAt <= s.Filed(r, record).revoked[key].issuedAt
    ensures r.issuer in s.roots ==> RevKey(r.issuer, r.subject) in s.Filed(r, record).revoked
    ensures var told := s.Filed(r, record).told;
            |told| <= s.maxRevocations || forall key :: key in told ==> key.issuer in s.roots
  {
    var key := RevKey(r.issuer, r.subject);
    var mid := s.(told := if key in s.told then s.told else s.told + [key],
    revoked := s.revoked[key := Held(r.issuedAt, r.reason, record)]);
    DropOldestMeaning(mid.told, mid.TrustedKeys(), Excess(|mid.told|, s.maxRevocations));
  }

  lemma ReplacedKeepsShape(s: State, id: NodeId, list: seq<Cert>)
    requires s.Shape() && id in s.certs && (list == [] || ListOk(id, list))
    ensures s.Replaced(id, list).Shape()
    ensures forall c :: s.Replaced(id, list).Holds(c) <==> if c.subject == id then c in list else s.Holds(c)
  {
    var s' := s.Replaced(id, list);
    WithoutMeaning(s.order, id);
    forall k | k in s'.certs ensures ListOk(k, s'.certs[k]) {
      assert k != id ==> ListOk(k, s.certs[k]);
    }
  }

  /** After a revocation is absorbed nothing held is revoked, whoever it was about: only
      its own subject can hold anything it voids. */
  lemma AfterRevokeWf(s: State, r: Revocation, record: RevocationRecord)
    requires s.Wf() && !s.Stale(r)
    ensures s.AfterRevoke(r, record).Wf()
    ensures s.Bounded() ==> s.AfterRevoke(r, record).Bounded()
  {
    var mid, s' := s.Filed(r, record), s.AfterRevoke(r, record);
    FiledKeepsTrusted(s, r, record);
    if r.subject in mid.certs {
      var list := Sieve(mid.certs[r.subject], Unrevoked(mid));
      assert ListOk(r.subject, mid.certs[r.subject]);
      ReplacedKeepsShape(mid, r.subject, list);
    }
    forall c | s'.Holds(c) ensures !s'.IsRevoked(c) {
      assert c.subject != r.subject ==> s.Holds(c) && !s.IsRevoked(c);
    }
  }

  lemma WithCertShape(s: State, c: Cert)
    requires s.Shape() && !s.Holds(c)
    ensures s.WithCert(c).Shape()
  {
    hide Without;
    var s' := s.WithCert(c);
    WithoutMeaning(s.order, c.subject);
    assert s.certs.Keys + {c.subject} == s'.certs.Keys;
    assert s.CertsOf(c.subject) != [] ==> ListOk(c.subject, s.CertsOf(c.subject));
    forall id | id in s'.certs ensures ListOk(id, s'.certs[id]) {
      assert id != c.subject ==> s'.certs[id] == s.certs[id] && ListOk(id, s.certs[id]);
    }
  }

  lemma WithCertWf(s: State, c: Cert, now: int)
    requires s.Wf() && s.Usable(c, now) && !s.Holds(c)
    ensures s.WithCert(c).Wf()
  {
    hide State.Shape;
    WithCertShape(s, c);
    forall d | s.WithCert(c).Holds(d) ensures !s.WithCert(c).IsRevoked(d) {
      assert s.Holds(d) || d == c;
    }
  }

  lemma WithCertLive(s: State, c: Cert, now: int)
    requires s.ListsOk() && s.WithCert(c).ListsOk() && s.Usable(c, now)
    ensures s.WithCert(c).Live(now) == s.Live(now) + {c}
  {
    hide State.ListsOk;
    var s' := s.WithCert(c);
    LiveMembers(s, now);
    LiveMembers(s', now);
    forall d ensures d in s'.Live(now) <==> d in s.Live(now) || d == c {
      assert s'.Usable(d, now) == s.Usable(d, now);
    }
  }

  /** Eviction around an answer for the own id keeps every link of it, so the answer still
      stands; each bound holds, or everything left is pinned. */
  lemma TrimKeepsAnswer(s: State, id: NodeId, answer: Option<Chain>, now: int)
    requires s.Wf() && id in s.certs && s.GraphAt(now).Answers(s.own, answer)
    requires forall k :: k in s.certs && k != id ==> |s.certs[k]| <= s.maxPerSubject
    ensures var s' := s.Trimmed(id, answer);
            && s'.Wf() && s'.Bounded()
            && s'.Live(now) <= s.Live(now)
            && s'.GraphAt(now).Answers(s.own, answer)
            && (|s'.order| <= s.maxSubjects || forall k :: k in s'.order ==> k in s.PinnedIds(answer))
  {
    var mid, s' := s.TrimmedSubject(id, answer), s.Trimmed(id, answer);
    TrimSubjectKeepsChain(s, id, answer);
    TrimSubjectsKeepsPinned(mid, answer);
    assert mid.PinnedIds(answer) == s.PinnedIds(answer);
    LiveMembers(s, now);
    if answer.Some? {
      forall c | c in answer.value ensures s'.Holds(c) {
        assert c in s.Live(now) && c in s.PinnedCerts(answer) && mid.Holds(c);
        assert c.subject in s.PinnedIds(answer);
      }
    }
    ShrinkKeepsAnswer(s, s', s.own, answer, now);
  }

  /** A store that lost certificates, but none of the answer's, still gives that answer. */
  lemma ShrinkKeepsAnswer(s: State, s': State, target: NodeId, answer: Option<Chain>, now: int)
    requires s.ListsOk() && s'.ListsOk()
    requires s'.own == s.own && s'.roots == s.roots && s'.revoked == s.revoked
    requires forall c :: s'.Holds(c) ==> s.Holds(c)
    requires s.GraphAt(now).Answers(target, answer)
    requires answer.Some? ==> forall c :: c in answer.value ==> s'.Holds(c)
    ensures s'.Live(now) <= s.Live(now) && s'.GraphAt(now).Answers(target, answer)
  {
    LiveMembers(s, now);
    LiveMembers(s', now);
    forall c ensures s'.Usable(c, now) == s.Usable(c, now) {}
    if answer.Some? {
      forall c | c in answer.value ensures c in s'.Live(now) {
        assert c in s.Live(now);
      }
    }
    AnswerSurvives(s.GraphAt(now), s'.GraphAt(now), target, answer);
  }

  lemma TrimSubjectsKeepsPinned(s: State, answer: Option<Chain>)
    requires s.Wf() && s.Bounded()
    ensures var s' := s.TrimmedSubjects(answer);
            && s'.Wf() && s'.Bounded()
            && (forall c :: s'.Holds(c) ==> s.Holds(c))
            && (forall c :: s.Holds(c) && c.subject in s.PinnedIds(answer) ==> s'.Holds(c))
            && (|s'.order| <= s.maxSubjects || forall k :: k in s'.order ==> k in s.PinnedIds(answer))
  {
    var s' := s.TrimmedSubjects(answer);
    DropOldestMeaning(s.order, s.PinnedIds(answer), Excess(|s.order|, s.maxSubjects));
    forall id | id in s'.certs ensures s'.certs[id] == s.certs[id] && ListOk(id, s'.certs[id]) {
      assert ListOk(id, s.certs[id]);
    }
    forall c | s'.Holds(c) ensures s.Holds(c) && !s'.IsRevoked(c) {
      assert s.Holds(c);
    }
  }

  lemma TrimSubjectKeepsChain(s: State, id: NodeId, answer: Option<Chain>)
    requires s.Wf() && id in s.certs
    requires answer.Some? ==> DistinctSubjects(answer.value)
    ensures var mid := s.TrimmedSubject(id, answer);
            && mid.Wf() && |mid.certs[id]| <= s.maxPerSubject
            && (forall c :: mid.Holds(c) ==> s.Holds(c))
            && forall c :: c in s.PinnedCerts(answer) && s.Holds(c) ==> mid.Holds(c)
  {
    var mid, keep, list := s.TrimmedSubject(id, answer), s.PinnedCerts(answer), s.certs[id];
    assert ListOk(id, list);
    var left := DropOldest(list, keep, Excess(|list|, s.maxPerSubject));
    DropOldestMeaning(list, keep, Excess(|list|, s.maxPerSubject));
    if |left| >= 2 && left[0] in keep && left[1] in keep {
      OnePerSubject(answer.value, left[0], left[1]);
    }
    assert ListOk(id, left);
    forall k | k in mid.certs ensures ListOk(k, mid.certs[k]) {
      assert k != id ==> mid.certs[k] == s.certs[k];
    }
    forall c | mid.Holds(c) ensures s.Holds(c) && !mid.IsRevoked(c) {
      assert s.Holds(c);
    }
  }

  function EvictAt(s: State, i: nat): State
    requires i < |s.order|
  {
    s.(certs := s.certs - {s.order[i]}, order := RemoveAt(s.order, i))
  }

  lemma EvictAtKeepsWf(s: State, i: nat)
    requires s.Wf() && s.Bounded() && i < |s.order|
    ensures EvictAt(s, i).Wf() && EvictAt(s, i).Bounded()
    ensures forall c :: EvictAt(s, i).Holds(c) <==> s.Holds(c) && c.subject != s.order[i]
  {
    var s' := EvictAt(s, i);
    RemoveAtMeaning(s.order, i);
    assert forall c :: s'.Holds(c) <==> s.Holds(c) && c.subject != s.order[i];
    forall id | id in s'.certs ensures ListOk(id, s'.certs[id]) {
      assert ListOk(id, s.certs[id]);
    }
  }

  /** Evicting the oldest unpinned subject is the first step of trimming to the bound, and
      the own chain's answer stands. */
  lemma SubjectEvicted(s: State, i: nat, answer: Option<Chain>, now: int)
    requires s.Wf() && s.Bounded() && i < |s.order| && |s.order| > s.maxSubjects
    requires s.GraphAt(now).Answers(s.own, answer)
    requires s.order[i] !in s.PinnedIds(answer)
    requires forall k :: 0 <= k < i ==> s.order[k] in s.PinnedIds(answer)
    ensures EvictAt(s, i).Wf() && EvictAt(s, i).Bounded()
    ensures EvictAt(s, i).GraphAt(now).Answers(s.own, answer)
    ensures EvictAt(s, i).TrimmedSubjects(answer) == s.TrimmedSubjects(answer)
  {
    hide Graph.Answers, State.TrimmedTo, State.Bounded, State.Holds;
    var s' := EvictAt(s, i);
    EvictAtKeepsWf(s, i);
    PinnedStaysHeld(s, i, answer, now);
    ShrinkKeepsAnswer(s, s', s.own, answer, now);
    assert s'.PinnedIds(answer) == s.PinnedIds(answer);
    EvictAtIsTrimming(s, i, s.PinnedIds(answer));
  }

  lemma PinnedStaysHeld(s: State, i: nat, answer: Option<Chain>, now: int)
    requires s.ListsOk() && i < |s.order| && s.order[i] !in s.PinnedIds(answer)
    requires s.GraphAt(now).Answers(s.own, answer)
    ensures answer.Some? ==> forall c :: c in answer.value ==> EvictAt(s, i).Holds(c)
    ensures forall c :: EvictAt(s, i).Holds(c) ==> s.Holds(c)
  {
    LiveMembers(s, now);
    if answer.Some? {
      forall c | c in answer.value ensures EvictAt(s, i).Holds(c) {
        assert c in s.Live(now) && c.subject in s.PinnedIds(answer);
      }
    }
  }

  lemma EvictAtIsTrimming(s: State, i: nat, keep: set<NodeId>)
    requires s.OrderOk() && i < |s.order| && |s.order| > s.maxSubjects
    requires s.order[i] !in keep
    requires forall k :: 0 <= k < i ==> s.order[k] in keep
    ensures EvictAt(s, i).TrimmedTo(keep) == s.TrimmedTo(keep)
  {
    hide DropOldest, RemoveAt;
    var s' := EvictAt(s, i);
    RemoveAtMeaning(s.order, i);
    DropOldestStep(s.order, keep, Excess(|s.order|, s.maxSubjects), i);
    DropOldestMeaning(s'.order, keep, Excess(|s'.order|, s.maxSubjects));
    assert s'.TrimmedTo(keep).order == s.TrimmedTo(keep).order;
    assert s'.TrimmedTo(keep).certs == s.TrimmedTo(keep).certs;
  }

  lemma NothingToTrim(s: State, answer: Option<Chain>)
    requires s.OrderOk()
    requires |s.order| <= s.maxSubjects || forall id :: id in s.order ==> id in s.PinnedIds(answer)
    ensures s.TrimmedSubjects(answer) == s
  {
    if |s.order| > s.maxSubjects {
      DropNothing(s.order, s.PinnedIds(answer), Excess(|s.order|, s.maxSubjects));
    }
    assert s.TrimmedSubjects(answer).certs == s.certs;
  }

  lemma TrimSubjectKeepsAnswer(s: State, id: NodeId, answer: Option<Chain>, now: int)
    requires s.Wf() && id in s.certs && s.GraphAt(now).Answers(s.own, answer)
    ensures var mid := s.TrimmedSubject(id, answer);
            mid.Wf() && mid.GraphAt(now).Answers(s.own, answer)
  {
    hide Graph.Answers;
    AnswerLinks(s.GraphAt(now), s.own, answer);
    TrimSubjectKeepsChain(s, id, answer);
    LiveMembers(s, now);
    assert answer.Some? ==> forall c :: c in answer.value ==> c in s.PinnedCerts(answer) && s.Holds(c);
    ShrinkKeepsAnswer(s, s.TrimmedSubject(id, answer), s.own, answer, now);
  }

  lemma OnePerSubject(p: Chain, a: Cert, b: Cert)
    requires DistinctSubjects(p) && a in p && b in p && a.subject == b.subject
    ensures a == b
  {
  }

  /** `add` never costs the node its own chain: one that existed still exists, and one that
      reached somebody else's root still does. */
  lemma AddKeepsOwnChain(s: State, c: Cert, now: int, ok: bool, s': State)
    requires s.Wf() && s.Bounded() && s.Added(c, now, ok, s')
    ensures s'.Wf() && s'.Bounded()
    ensures s.HasOwnChain(now) ==> s'.HasOwnChain(now)
    ensures s.HasNetworkChain(now) ==> s'.HasNetworkChain(now)
    ensures s.Usable(c, now) && !s.Holds(c) ==> |s'.order| <= s.maxSubjects || s'.OnlyPinnedLeft(now)
  {
    if !s.Usable(c, now) {
    } else if s.Holds(c) {
      TouchedKeeps(s, c.subject, now);
    } else {
      FilingKeepsOwnChain(s, c, now, s');
    }
  }

  lemma TouchedKeeps(s: State, id: NodeId, now: int)
    requires s.Wf() && s.Bounded()
    ensures var s' := s.Touched(id);
            s'.Wf() && s'.Bounded() && s'.GraphAt(now) == s.GraphAt(now)
  {
    var s' := s.Touched(id);
    WithoutMeaning(s.order, id);
    forall c | s'.Holds(c) ensures !s'.IsRevoked(c) {
      assert s.Holds(c);
    }
    assert s'.Live(now) == s.Live(now) by {
      LiveMembers(s, now);
      LiveMembers(s', now);
      assert forall c :: s'.Holds(c) == s.Holds(c) && s'.Usable(c, now) == s.Usable(c, now);
    }
  }

  lemma FilingKeepsOwnChain(s: State, c: Cert, now: int, s': State)
    requires s.Wf() && s.Bounded() && s.Usable(c, now) && !s.Holds(c) && s.Added(c, now, true, s')
    ensures s'.Wf() && s'.Bounded()
    ensures s.HasOwnChain(now) ==> s'.HasOwnChain(now)
    ensures s.HasNetworkChain(now) ==> s'.HasNetworkChain(now)
    ensures |s'.order| <= s.maxSubjects || s'.OnlyPinnedLeft(now)
  {
    var filed := s.WithCert(c);
    FilingGrows(s, c, now);
    if filed.Overfull(c.subject) {
      assert forall k :: k in filed.certs && k != c.subject ==> |filed.certs[k]| == |s.certs[k]|;
      EvictionKeepsOwnChain(filed, c.subject, now, s');
    }
  }

  lemma FilingGrows(s: State, c: Cert, now: int)
    requires s.Wf() && s.Usable(c, now) && !s.Holds(c)
    ensures s.WithCert(c).Wf()
    ensures s.HasOwnChain(now) ==> s.WithCert(c).HasOwnChain(now)
    ensures s.HasNetworkChain(now) ==> s.WithCert(c).HasNetworkChain(now)
  {
    WithCertWf(s, c, now);
    WithCertLive(s, c, now);
    AcceptsGrows(s.GraphAt(now), s.WithCert(c).GraphAt(now));
  }

  lemma EvictionKeepsOwnChain(s: State, id: NodeId, now: int, s': State)
    requires s.Wf() && id in s.certs
    requires forall k :: k in s.certs && k != id ==> |s.certs[k]| <= s.maxPerSubject
    requires exists answer :: s.GraphAt(now).Answers(s.own, answer) && s' == s.Trimmed(id, answer)
    ensures s'.Wf() && s'.Bounded()
    ensures s.HasOwnChain(now) ==> s'.HasOwnChain(now)
    ensures s.HasNetworkChain(now) ==> s'.HasNetworkChain(now)
    ensures |s'.order| <= s.maxSubjects || s'.OnlyPinnedLeft(now)
  {
    hide Graph.Answers, State.Wf, State.Bounded, State.GraphAt, State.HasOwnChain, State.HasNetworkChain;
    hide State.TrimmedSubject, State.TrimmedSubjects, State.PinnedIds;
    var answer :| s.GraphAt(now).Answers(s.own, answer) && s' == s.Trimmed(id, answer);
    TrimKeepsAnswer(s, id, answer, now);
    TrimKeepsNames(s, id, answer);
    SameAnswerSameKind(s, s', answer, now);
  }

  lemma TrimKeepsNames(s: State, id: NodeId, answer: Option<Chain>)
    requires id in s.certs
    ensures var s' := s.Trimmed(id, answer);
            && s'.own == s.own && s'.roots == s.roots && s'.maxSubjects == s.maxSubjects
            && s'.PinnedIds(answer) == s.PinnedIds(answer)
  {
  }

  lemma SameAnswerSameKind(s: State, s': State, answer: Option<Chain>, now: int)
    requires s.own == s'.own
    requires s.GraphAt(now).Answers(s.own, answer) && s'.GraphAt(now).Answers(s.own, answer)
    ensures s.HasOwnChain(now) <==> s'.HasOwnChain(now)
    ensures s.HasNetworkChain(now) <==> s'.HasNetworkChain(now)
  {
    OwnAnswerPrefersExternal(s.GraphAt(now), answer);
    OwnAnswerPrefersExternal(s'.GraphAt(now), answer);
  }

  lemma AcceptsGrows(g: Graph, g': Graph)
    requires g.live <= g'.live && g.roots == g'.roots && g.own == g'.own
    ensures forall p :: g.Vouches(g.own, p) ==> g'.Vouches(g.own, p)
  {
  }

  /** Nothing but the order of the subjects differs: the same graph at every moment. */
  lemma OrderIsNotGraph(s: State, order: seq<NodeId>, now: int)
    ensures s.(order := order).GraphAt(now) == s.GraphAt(now)
  {
    var s' := s.(order := order);
    assert forall c :: s'.Usable(c, now) == s.Usable(c, now);
    assert s'.Live(now) == s.Live(now);
  }

  /** The newcomer at the end of its list, its subject where it was. */
  function Appended(s: State, c: Cert): State {
    s.WithCert(c).(order := if c.subject in s.certs then s.order else s.order + [c.subject])
  }

  lemma {:induction false} WithoutAbsent(order: seq<NodeId>, id: NodeId)
    ensures Without(order + [id], id) == Without(order, id)
    ensures id !in order ==> Without(order, id) == order
  {
    if order != [] {
      assert (order + [id])[1..] == order[1..] + [id];
      WithoutAbsent(order[1..], id);
    }
  }

  lemma AppendedWf(s: State, c: Cert, now: int)
    requires s.Wf() && s.Usable(c, now) && !s.Holds(c)
    ensures Appended(s, c).Wf()
    ensures Appended(s, c).Touched(c.subject) == s.WithCert(c)
    ensures Appended(s, c).GraphAt(now) == s.WithCert(c).GraphAt(now)
  {
    var s' := Appended(s, c);
    WithCertWf(s, c, now);
    WithCertLive(s, c, now);
    WithoutAbsent(s.order, c.subject);
    OrderIsNotGraph(s.WithCert(c), s'.order, now);
    forall d | s'.Holds(d) ensures !s'.IsRevoked(d) {
      assert s.WithCert(c).Holds(d);
    }
  }

  lemma AppendedBounded(s: State, c: Cert)
    requires s.Wf() && s.Bounded()
    ensures forall id :: id in Appended(s, c).certs && id != c.subject ==>
                           |Appended(s, c).certs[id]| <= s.maxPerSubject
  {
  }

  lemma TouchAfterTrim(s: State, c: Cert, answer: Option<Chain>)
    ensures Appended(s, c).TrimmedSubject(c.subject, answer).Touched(c.subject)
         == s.WithCert(c).TrimmedSubject(c.subject, answer)
  {
    WithoutAbsent(s.order, c.subject);
  }

  /** Nothing to evict but roots. */
  lemma FiledWhole(s: State, c: Cert, now: int)
    requires s.Usable(c, now) && !s.Holds(c)
    requires var filed := s.WithCert(c);
             && |filed.certs[c.subject]| <= s.maxPerSubject
             && (|filed.order| <= s.maxSubjects || forall id :: id in filed.order ==> id in s.roots)
    ensures s.Added(c, now, true, s.WithCert(c))
  {
  }

  lemma NotOverfullStays(s: State, id: NodeId, answer: Option<Chain>)
    requires s.Wf() && !s.Overfull(id)
    ensures s.TrimmedSubjects(answer) == s
  {
    assert forall k :: k in s.roots ==> k in s.PinnedIds(answer);
    NothingToTrim(s, answer);
  }

  /** The two evictions in sequence are what `Added` allows. */
  lemma FiledAndTrimmed(s: State, c: Cert, now: int, mid: State, answer: Option<Chain>)
    requires s.Wf() && s.Usable(c, now) && !s.Holds(c)
    requires s.WithCert(c).GraphAt(now).Answers(s.own, answer)
    requires mid == if |s.WithCert(c).certs[c.subject]| > s.maxPerSubject
                    then s.WithCert(c).TrimmedSubject(c.subject, answer) else s.WithCert(c)
    ensures s.Added(c, now, true, mid.TrimmedSubjects(answer))
  {
    hide Graph.Answers, State.TrimmedTo, State.Live, State.PinnedIds, State.Shape;
    var filed := s.WithCert(c);
    WithCertWf(s, c, now);
    assert |filed.certs[c.subject]| <= s.maxPerSubject ==> filed.TrimmedSubject(c.subject, answer) == filed by {
      assert filed.certs[c.subject := filed.certs[c.subject]] == filed.certs;
    }
    assert mid.TrimmedSubjects(answer) == filed.Trimmed(c.subject, answer);
    if !filed.Overfull(c.subject) {
      NotOverfullStays(filed, c.subject, answer);
    }
  }

  lemma {:induction false} InhabitedWithout(order: seq<NodeId>, certs: map<NodeId, seq<Cert>>, id: NodeId)
    ensures Inhabited(order, certs - {id}) == Without(Inhabited(order, certs), id)
  {
    if order != [] {
      InhabitedWithout(order[1..], certs, id);
    }
  }

  lemma {:induction false} InhabitedAgrees(order: seq<NodeId>, a: map<NodeId, seq<Cert>>, b: map<NodeId, seq<Cert>>)
    requires forall id :: id in order ==> ((id in a && a[id] != []) <==> (id in b && b[id] != []))
    ensures Inhabited(order, a) == Inhabited(order, b)
  {
    if order != [] {
      InhabitedAgrees(order[1..], a, b);
    }
  }

  // ------------------------------------------------------------------ runs

  datatype Op =
    | Add(cert: Cert, now: int)
    | AddRoot(id: NodeId)
    | RemoveRoot(id: NodeId)
    | Revoke(record: RevocationRecord)
    | Prune(now: int)
    | Lookup(target: NodeId, now: int)

  /** One call on the store. */
  ghost predicate Step(s: State, op: Op, s': State) {
    match op
    case Add(cert, now) => exists ok :: s.Added(cert, now, ok, s')
    case AddRoot(id) => s' == s.WithRoot(id)
    case RemoveRoot(id) => s' == s.WithoutRoot(id)
    case Revoke(record) =>
      var parsed := ParseRevocation(record);
      s' == if parsed.None? || s.Stale(parsed.value) then s else s.AfterRevoke(parsed.value, record)
    case Prune(now) => s' == s.Pruned(now)
    case Lookup(_, _) => s' == s
  }

  ghost predicate IsRun(run: seq<State>, ops: seq<Op>) {
    |run| == |ops| + 1 && forall i :: 0 <= i < |ops| ==> Step(run[i], ops[i], run[i + 1])
  }

  lemma StepKeepsWf(s: State, op: Op, s': State)
    requires s.Wf() && s.Bounded() && Step(s, op, s')
    ensures s'.Wf() && s'.Bounded()
  {
    match op
    case Add(cert, now) =>
      var ok :| s.Added(cert, now, ok, s');
      AddKeepsOwnChain(s, cert, now, ok, s');
    case Revoke(record) =>
      var parsed := ParseRevocation(record);
      if parsed.Some? && !s.Stale(parsed.value) {
        AfterRevokeWf(s, parsed.value, record);
      }
    case Prune(now) => SiftKeepsWf(s, Unexpired(now));
    case _ =>
      forall c | s'.Holds(c) ensures !s'.IsRevoked(c) {
        assert s.Holds(c);
      }
  }

  /** What one call does to the revocation table and the trusted roots. */
  lemma StepKeepsRevocations(s: State, op: Op, s': State)
    requires s.Wf() && s.Bounded() && Step(s, op, s') && !op.RemoveRoot?
    ensures s.roots <= s'.roots
    ensures forall key :: key in s.revoked && key in s'.revoked ==>
                            s.revoked[key].issuedAt <= s'.revoked[key].issuedAt
    ensures forall key :: key in s.revoked && key.issuer in s.roots ==> key in s'.revoked
  {
    if op.Revoke? {
      var parsed := ParseRevocation(op.record);
      if parsed.Some? && !s.Stale(parsed.value) {
        FiledKeepsTrusted(s, parsed.value, op.record);
      }
    }
  }

  /** On every run without `remove_root`, what a trusted root took back stays taken back:
      no state of the run holds such a certificate or trusts a chain containing it. */
  lemma {:induction false} TrustedRevocationIsPermanent(run: seq<State>, ops: seq<Op>, key: RevKey, i: nat)
    requires IsRun(run, ops) && i < |run|
    requires run[0].Wf() && run[0].Bounded()
    requires forall op :: op in ops ==> !op.RemoveRoot?
    requires key in run[0].revoked && key.issuer in run[0].roots
    ensures run[i].Wf() && run[i].Bounded() && run[0].roots <= run[i].roots
    ensures key in run[i].revoked && run[0].revoked[key].issuedAt <= run[i].revoked[key].issuedAt
    ensures forall c: Cert :: c.issuer == key.issuer && c.subject == key.subject
                              && c.issuedAt <= run[0].revoked[key].issuedAt ==>
                                !run[i].Holds(c) && forall p, now :: run[i].Trusts(p, now) ==> c !in p
  {
    if i > 0 {
      TrustedRevocationIsPermanent(run, ops, key, i - 1);
      assert ops[i - 1] in ops;
      StepKeepsWf(run[i - 1], ops[i - 1], run[i]);
      StepKeepsRevocations(run[i - 1], ops[i - 1], run[i]);
    }
    forall c: Cert | c.issuer == key.issuer && c.subject == key.subject && c.issuedAt <= run[0].revoked[key].issuedAt
      ensures !run[i].Holds(c) && forall p, now :: run[i].Trusts(p, now) ==> c !in p
    {
      assert run[i].IsRevoked(c);
    }
  }

  lemma {:induction false} SieveAgrees(certs: seq<Cert>, p: Cert -> bool, q: Cert -> bool)
    requires forall c :: c in certs ==> p(c) == q(c)
    ensures Sieve(certs, p) == Sieve(certs, q)
  {
    if certs != [] {
      SieveAgrees(certs[1..], p, q);
    }
  }
}
