/** The certificate store itself: tables changed in place, the chain search, its memo and
    the two evictions. The clock is a parameter of every call. (src/cert_store.py) */
module CertStore {
  import opened Wrappers
  import opened Certificates
  import opened Issuance
  import opened Eviction
  import opened ChainSearch
  import opened ShortestChain
  import opened CertState
  import CertNews
  import opened CertTrust

  // ------------------------------------------------------------------ sorting

  /** May `a` stay before `b`? By life, or first by who issued it. */
  predicate Precedes(a: Cert, b: Cert, externalFirst: bool) {
    if externalFirst && a.SelfSigned() != b.SelfSigned() then b.SelfSigned() else a.Outlives(b)
  }

  predicate Sorted(certs: seq<Cert>, externalFirst: bool) {
    forall i, j :: 0 <= i < j < |certs| ==> Precedes(certs[i], certs[j], externalFirst)
  }

  function Insert(c: Cert, certs: seq<Cert>, externalFirst: bool): (r: seq<Cert>)
    ensures forall d :: d in r <==> d == c || d in certs
    ensures Sorted(certs, externalFirst) ==> Sorted(r, externalFirst)
  {
    if certs == [] then [c]
    else if Precedes(c, certs[0], externalFirst) then [c] + certs
    else
      assert Sorted(certs, externalFirst) ==> forall d :: d in certs[1..] ==> Precedes(certs[0], d, externalFirst);
      [certs[0]] + Insert(c, certs[1..], externalFirst)
  }

  /** Python's stable sort. */
  function SortCerts(certs: seq<Cert>, externalFirst: bool): (r: seq<Cert>)
    ensures forall c :: c in r <==> c in certs
    ensures Sorted(r, externalFirst)
  {
    if certs == [] then [] else Insert(certs[0], SortCerts(certs[1..], externalFirst), externalFirst)
  }

  // ------------------------------------------------------------------ the memo

  /** A remembered answer, and the last moment at which all of it is alive (0: for ever). */
  datatype Memo = Memo(chain: Option<Chain>, goodUntil: nat)

  function Sooner(a: nat, b: nat): nat {
    if a == 0 then b else if b == 0 then a else if a < b then a else b
  }

  function EarliestIn(p: Chain): nat {
    if p == [] then 0 else Sooner(p[0].expiresAt, EarliestIn(p[1..]))
  }

  function EarliestExpiry(chain: Option<Chain>): nat {
    match chain case None => 0 case Some(p) => EarliestIn(p)
  }

  /** The stamp of a chain is the last moment at which no link of it has expired. */
  lemma {:induction false} EarliestMeaning(p: Chain, now: int)
    ensures EarliestIn(p) == 0 || now <= EarliestIn(p) <==> forall c :: c in p ==> !c.Expired(now)
  {
    if p != [] {
      EarliestMeaning(p[1..], now);
      assert forall c :: c in p <==> c == p[0] || c in p[1..];
      assert (EarliestIn(p) == 0 || now <= EarliestIn(p))
        <==> !p[0].Expired(now) && (EarliestIn(p[1..]) == 0 || now <= EarliestIn(p[1..]));
    }
  }

  /** No link of a remembered answer has run out. */
  predicate AllInForce(answer: Option<Chain>, now: int) {
    answer.Some? ==> forall c :: c in answer.value ==> !c.Expired(now)
  }

  lemma StampMeaning(answer: Option<Chain>, now: int)
    ensures EarliestExpiry(answer) == 0 || now <= EarliestExpiry(answer) <==> AllInForce(answer, now)
  {
    if answer.Some? {
      EarliestMeaning(answer.value, now);
    }
  }

  lemma ListsNeverEmpty(s: State, r: Revocation, record: RevocationRecord)
    requires s.Wf() && r.subject in s.Filed(r, record).certs
    ensures s.Filed(r, record).certs[r.subject] != []
  {
    assert ListOk(r.subject, s.certs[r.subject]);
  }

  class CertStore {
    const own: NodeId
    const maxSubjects: int
    const maxPerSubject: int
    const maxRevocations: int
    var roots: set<NodeId>
    var order: seq<NodeId>
    var certs: map<NodeId, seq<Cert>>
    var told: seq<RevKey>
    var revoked: map<RevKey, Held>
    var chains: map<NodeId, Memo>
    ghost var builtAt: map<NodeId, int>

    function Snap(): State
      reads this
    {
      State(own, roots, order, certs, told, revoked, maxSubjects, maxPerSubject, maxRevocations)
    }

    ghost predicate MemoOk(target: NodeId)
      reads this
      requires target in chains && target in builtAt
    {
      && Snap().GraphAt(builtAt[target]).Answers(target, chains[target].chain)
      && chains[target].goodUntil == EarliestExpiry(chains[target].chain)
    }

    /** Every remembered answer was right when it was computed, on the certificates held now. */
    ghost predicate Coherent()
      reads this
    {
      forall target :: target in chains ==> target in builtAt && MemoOk(target)
    }

    ghost predicate Valid()
      reads this
    {
      Snap().Wf() && Snap().Bounded() && Coherent()
    }

    predicate Fresh(target: NodeId, now: int)
      reads this
    {
      target in chains && AllInForce(chains[target].chain, now)
    }

    constructor (own: NodeId, maxSubjects: int, maxPerSubject: int, maxRevocations: int)
      requires maxPerSubject >= 1
      ensures Valid() && roots == {own} && order == [] && told == [] && chains == map[]
      ensures this.own == own && this.maxSubjects == maxSubjects
      ensures this.maxPerSubject == maxPerSubject && this.maxRevocations == maxRevocations
    {
      this.own, this.maxSubjects, this.maxPerSubject, this.maxRevocations :=
        own, maxSubjects, maxPerSubject, maxRevocations;
      roots, order, certs, told, revoked := {own}, [], map[], [], map[];
      chains, builtAt := map[], map[];
    }

    // ---------------------------------------------------------------- the walk

    /** The usable certificates of a subject, by the time they have left. */
    method LiveCerts(id: NodeId, now: int) returns (r: seq<Cert>)
      requires Snap().Wf()
      ensures ListsLive(Snap().GraphAt(now), id, r)
    {
      var s := Snap();
      r := SortCerts(Sieve(s.CertsOf(id), UsableAt(s, now)), false);
      LiveMembers(s, now);
      assert s.CertsOf(id) != [] ==> ListOk(id, s.CertsOf(id));
    }

    /** The first self-signed certificate of a list. */
    method FirstSelfSigned(list: seq<Cert>) returns (r: Option<Cert>)
      ensures r.None? ==> forall c :: c in list ==> !c.SelfSigned()
      ensures r.Some? ==> r.value in list && r.value.SelfSigned()
      ensures r.Some? && SortedByLife(list) ==> forall c :: c in list && c.SelfSigned() ==> r.value.Outlives(c)
    {
      for i := 0 to |list|
        invariant forall k :: 0 <= k < i ==> !list[k].SelfSigned()
      {
        if list[i].SelfSigned() {
          return Some(list[i]);
        }
      }
      return None;
    }

    method Enqueue(queue: seq<Entry>, path: Chain, list: seq<Cert>) returns (q: seq<Entry>)
      ensures q == queue + Extensions(path, list)
    {
      q := queue;
      for i := 0 to |list|
        invariant q == queue + Extensions(path, list)[..i]
      {
        q := q + [Entry(list[i].issuer, path + [list[i]])];
      }
    }

    /** The certificates of a target, in the order the first level is queued. */
    method TargetCerts(target: NodeId, now: int) returns (r: seq<Cert>)
      requires Snap().Wf()
      ensures forall c :: c in r <==> c in Snap().GraphAt(now).live && c.subject == target
      ensures ExternalFirst(r) && SortedForTarget(r)
      ensures forall i, j :: 0 <= i < j < |r| && r[i].SelfSigned() == r[j].SelfSigned() ==> r[i].Outlives(r[j])
    {
      var s := Snap();
      r := SortCerts(Sieve(s.CertsOf(target), UsableAt(s, now)), true);
      LiveMembers(s, now);
      assert s.CertsOf(target) != [] ==> ListOk(target, s.CertsOf(target));
      forall i, j | 0 <= i < j < |r|
        ensures r[i].SelfSigned() ==> r[j].SelfSigned()
        ensures r[i].SelfSigned() == r[j].SelfSigned() ==> r[i].Outlives(r[j])
      {
        assert r[i] in r && r[j] in r && Precedes(r[i], r[j], true);
      }
    }

    /** The chain that a popped root closes: the walk itself if it ends self-signed, else
        the walk and the root's longest-lived self-signed certificate. */
    method CloseAt(current: NodeId, path: Chain, now: int) returns (chain: Option<Chain>)
      requires Snap().Wf() && |path| > 0 && Last(path).issuer == current && current in roots
      requires Last(path) in Snap().GraphAt(now).live
      ensures var g := Snap().GraphAt(now);
              && (chain.Some? <==> g.Anchored(current))
              && (chain.Some? && Last(path).SelfSigned() ==> chain == Some(path))
              && (chain.Some? && !Last(path).SelfSigned() ==>
                    exists rc :: chain == Some(path + [rc]) && rc in g.live && rc.SelfSigned()
                                 && rc.subject == current && g.Longest(rc))
    {
      if path[|path| - 1].SelfSigned() {
        return Some(path);
      }
      var list := LiveCerts(current, now);
      var rc := FirstSelfSigned(list);
      if rc.None? {
        return None;
      }
      return Some(path + [rc.value]);
    }

    /** Held and usable at that moment, for the same subject from the same issuer. */
    predicate AlternativeTo(c: Cert, d: Cert, now: int)
      reads this
    {
      Snap().Holds(d) && Snap().Usable(d, now) && d.subject == c.subject && d.issuer == c.issuer
    }

    lemma OutlastsOthers(target: NodeId, now: int, chain: Chain)
      requires Snap().Wf() && Snap().GraphAt(now).Answers(target, Some(chain))
      ensures forall c, d, later :: c in chain && AlternativeTo(c, d, now) && c.Expired(later) ==> d.Expired(later)
    {
      forall c, d, later | c in chain && AlternativeTo(c, d, now) && c.Expired(later) ensures d.Expired(later) {
        AnswerOutlasts(Snap(), now, target, chain, c, d, later);
      }
    }

    /** The walk: an external anchor if there is a route to one, else the own root, else
        nothing. No link of it runs out before another that could have stood in its place, and
        no route of its kind is shorter. */
    method BuildChain(target: NodeId, now: int) returns (answer: Option<Chain>)
      requires Snap().Wf()
      ensures Snap().GraphAt(now).Answers(target, answer)
      ensures answer.Some? ==> forall c, d, later ::
                c in answer.value && AlternativeTo(c, d, now) && c.Expired(later) ==> d.Expired(later)
      ensures answer.Some? ==> |answer.value| > 0 && Shortest(Snap().GraphAt(now), target, answer.value)
    {
      hide AlternativeTo, Sound, FallbackShortest, ListsLive, SortedForTarget, ExternalFirst;
      hide Shortest, Extensions, Graph.Longest, Graph.Walk, Graph.Answers;
      hide State.Wf;
      ghost var g := Snap().GraphAt(now);
      var sorted := TargetCerts(target, now);
      if sorted == [] {
        NothingToWalk(g, target);
        return None;
      }
      var queue := Enqueue([], [], sorted);
      var visited := {target};
      var selfAnchored: Option<Chain> := None;
      assert queue == Extensions([], sorted);
      StartSound(g, target, sorted);
      ghost var depth: map<NodeId, nat> := map[target := 0];
      ghost var ids := Start(g, target, sorted).Ids();
      while queue != []
        invariant Sound(Search(g, target, queue, visited, selfAnchored), depth)
        invariant FallbackShortest(g, target, selfAnchored)
        invariant visited <= ids
        decreases ids - visited, |queue|
      {
        ghost var before := Search(g, target, queue, visited, selfAnchored);
        var current, path := queue[0].at, queue[0].path;
        queue := queue[1..];
        SoundHead(before, depth, ids);
        if current in roots {
          var chain := CloseAt(current, path, now);
          if chain.Some? {
            if current != own {
              AnchorAnswers(before, depth, chain.value);
              OutlastsOthers(target, now, chain.value);
              return chain;
            }
            if selfAnchored.None? {
              selfAnchored := chain;
            }
            OwnAnchorSound(before, depth, chain.value, Search(g, target, queue, visited, selfAnchored));
            continue;
          }
        }
        if current in visited {
          SkipSound(before, depth);
          continue;
        }
        var list := LiveCerts(current, now);
        visited := visited + {current};
        queue := Enqueue(queue, path, list);
        ExpandSound(before, depth, list);
        depth := depth[current := |path|];
      }
      ExhaustedAnswers(Search(g, target, queue, visited, selfAnchored), depth);
      if selfAnchored.Some? {
        OutlastsOthers(target, now, selfAnchored.value);
      }
      return selfAnchored;
    }

    /** The memoised answer. Whatever the clock does, a chain that is served is acceptable
        now; and unless the clock ran backwards past the moment it was computed, it is the
        answer a fresh walk would have to give. */
    method GetChain(target: NodeId, now: int) returns (answer: Option<Chain>)
      requires Snap().Wf() && Coherent()
      modifies `chains, `builtAt
      ensures Coherent()
      ensures answer.Some? ==> Snap().GraphAt(now).Vouches(target, answer.value)
      ensures old(target in chains ==> builtAt[target] <= now) ==> Snap().GraphAt(now).Answers(target, answer)
      ensures target in chains && chains[target].chain == answer && Fresh(target, now)
      ensures if old(Fresh(target, now)) then chains == old(chains) && builtAt == old(builtAt)
              else chains == old(chains)[target := chains[target]] && builtAt == old(builtAt)[target := now]
    {
      if target in chains {
        StampMeaning(chains[target].chain, now);
        assert MemoOk(target);
      }
      if target in chains && (chains[target].goodUntil == 0 || now <= chains[target].goodUntil) {
        MemoStillAnswers(Snap(), target, chains[target].chain, builtAt[target], now);
        return chains[target].chain;
      }
      answer := BuildChain(target, now);
      chains := chains[target := Memo(answer, EarliestExpiry(answer))];
      builtAt := builtAt[target := now];
      FreshAnswer(Snap(), target, answer, now);
    }

    method AddRoot(id: NodeId)
      requires Valid()
      modifies this
      ensures Valid() && Step(old(Snap()), Op.AddRoot(id), Snap()) && chains == map[]
    {
      ghost var before := Snap();
      roots := roots + {id};
      chains := map[];
      StepKeepsWf(before, Op.AddRoot(id), Snap());
    }

    method RemoveRoot(id: NodeId) returns (removed: bool)
      requires Valid()
      modifies this
      ensures Valid() && Step(old(Snap()), Op.RemoveRoot(id), Snap())
      ensures removed <==> id != own && id in old(roots)
    {
      ghost var before := Snap();
      if id == own || id !in roots {
        return false;
      }
      roots := roots - {id};
      chains := map[];
      StepKeepsWf(before, Op.RemoveRoot(id), Snap());
      return true;
    }

    /** Absorb a signed revocation. What comes out is exactly what was new; if the table has
        room for it, nothing that it voids is held afterwards and it is not new again. */
    method Revoke(record: RevocationRecord) returns (news: Option<Revocation>)
      requires Valid()
      modifies this
      ensures Valid() && Step(old(Snap()), Op.Revoke(record), Snap())
      ensures news == if ParseRevocation(record).Some? && !old(Snap()).Stale(ParseRevocation(record).value)
                      then ParseRevocation(record) else None
      ensures news.Some? ==> (CertNews.HasRoomFor(old(Snap()), news.value) <==> CertNews.KeyOf(news.value) in revoked)
      ensures news.Some? && CertNews.HasRoomFor(old(Snap()), news.value) ==>
                && Snap().Stale(news.value)
                && forall c :: CertNews.Voids(news.value, c) ==> !Snap().Holds(c)
    {
      ghost var before := Snap();
      var parsed := ParseRevocation(record);
      if parsed.None? {
        return None;
      }
      var r := parsed.value;
      var key := RevKey(r.issuer, r.subject);
      if key in revoked && r.issuedAt <= revoked[key].issuedAt {
        return None;
      }
      if key !in revoked {
        told := told + [key];
      }
      revoked := revoked[key := Held(r.issuedAt, r.reason, record)];
      chains := map[];
      EnforceRevocationBound();
      assert Snap() == before.Filed(r, record);
      DropVoided(before, r, record);
      AfterRevokeWf(before, r, record);
      CertNews.KeptIffRoom(before, r, record);
      return parsed;
    }

    /** The oldest revocation no trusted root said, or the end of the table. */
    method FirstUntrusted() returns (i: nat)
      ensures i <= |told| && forall k :: 0 <= k < i ==> told[k].issuer in roots
      ensures i < |told| ==> told[i].issuer !in roots
    {
      i := 0;
      while i < |told| && told[i].issuer in roots
        invariant i <= |told| && forall k :: 0 <= k < i ==> told[k].issuer in roots
      {
        i := i + 1;
      }
    }

    /** Down to the bound in the order of arrival, passing over what trusted roots signed. */
    method EnforceRevocationBound()
      requires Distinct(told) && forall key :: key in told <==> key in revoked
      modifies `told, `revoked
      ensures var s := old(Snap());
              && told == DropOldest(s.told, s.TrustedKeys(), Excess(|s.told|, maxRevocations))
              && revoked == map k | k in told && k in s.revoked :: s.revoked[k]
    {
      hide DropOldest, RemoveAt;
      ghost var s := Snap();
      ghost var keep := s.TrustedKeys();
      while |told| > maxRevocations
        invariant Distinct(told) && (forall key :: key in told <==> key in revoked)
        invariant forall key :: key in told ==> key in s.told && revoked[key] == s.revoked[key]
        invariant keep == s.TrustedKeys()
        invariant DropOldest(told, keep, Excess(|told|, maxRevocations))
               == DropOldest(s.told, keep, Excess(|s.told|, maxRevocations))
        decreases |told|
      {
        var i := FirstUntrusted();
        if i == |told| {
          break;
        }
        DropOldestStep(told, keep, Excess(|told|, maxRevocations), i);
        RemoveAtMeaning(told, i);
        revoked := revoked - {told[i]};
        told := RemoveAt(told, i);
      }
      DropNothing(told, keep, Excess(|told|, maxRevocations));
      assert revoked == map k | k in told && k in s.revoked :: s.revoked[k];
    }

    /** Drop what a revocation just filed has voided. */
    method DropVoided(ghost before: State, r: Revocation, record: RevocationRecord)
      requires before.Wf() && !before.Stale(r) && Snap() == before.Filed(r, record)
      modifies `order, `certs
      ensures Snap() == before.AfterRevoke(r, record)
    {
      hide State.Wf, State.Filed, Sieve, ListOk;
      var s := Snap();
      var held := s.CertsOf(r.subject);
      var voided := Sieve(held, RevokedIn(s));
      if voided != [] {
        var live := Sieve(held, (c: Cert) => c !in voided);
        if live != [] {
          certs := certs[r.subject := live];
        } else {
          certs := certs - {r.subject};
          order := Without(order, r.subject);
        }
      }
      SieveAgrees(held, Unrevoked(s), (c: Cert) => c !in voided);
      if voided == [] {
        SieveAll(held, Unrevoked(s));
        if r.subject in s.certs {
          ListsNeverEmpty(before, r, record);
        }
        assert r.subject in s.certs ==> certs[r.subject := held] == certs;
      }
    }

    // ---------------------------------------------------------------- filing

    /** Nothing is remembered but the own chain, as of `now`. */
    ghost predicate OnlyOwnMemo(now: int)
      reads this
    {
      chains.Keys <= {own} && (own in chains ==> own in builtAt && builtAt[own] == now)
    }

    method Touch(id: NodeId)
      requires id in certs && Coherent()
      modifies `order
      ensures Snap() == old(Snap()).Touched(id) && Coherent()
    {
      ghost var s := Snap();
      order := Without(order, id) + [id];
      forall target | target in chains ensures MemoOk(target) {
        OrderIsNotGraph(s, order, builtAt[target]);
      }
    }

    /** The certificates the own chain is made of, by signature. */
    method ChainSignatures(now: int) returns (signatures: set<Signature>)
      requires Snap().Wf() && Coherent() && OnlyOwnMemo(now)
      modifies `chains, `builtAt
      ensures Coherent() && OnlyOwnMemo(now) && own in chains
      ensures Snap().GraphAt(now).Answers(own, chains[own].chain)
      ensures forall c: Cert :: c.signature in signatures <==> c in Snap().PinnedCerts(chains[own].chain)
    {
      var answer := GetChain(own, now);
      signatures := match answer case None => {} case Some(p) => set c | c in p :: c.signature;
      forall c: Cert ensures c.signature in signatures <==> c in Snap().PinnedCerts(answer) {
        if c.signature in signatures {
          var d :| d in answer.value && d.signature == c.signature;
          SignatureIdentifies(c, d);
        }
      }
    }

    method Pinned(id: NodeId, now: int) returns (b: bool)
      requires Snap().Wf() && Coherent() && OnlyOwnMemo(now)
      modifies `chains, `builtAt
      ensures Coherent() && OnlyOwnMemo(now)
      ensures own in old(chains) ==> chains == old(chains) && builtAt == old(builtAt)
      ensures own in chains ==> (b <==> id in Snap().PinnedIds(chains[own].chain))
      ensures own !in chains ==> b && id in roots
    {
      if id in roots {
        return true;
      }
      if own in chains {
        FreshAnswer(Snap(), own, chains[own].chain, now);
      }
      var answer := GetChain(own, now);
      return id in Snap().PinnedIds(answer);
    }

    /** The oldest certificate of a subject that the own chain does not need. */
    method FirstLoose(list: seq<Cert>, loadBearing: set<Signature>) returns (i: nat)
      ensures i <= |list| && forall k :: 0 <= k < i ==> list[k].signature in loadBearing
      ensures i < |list| ==> list[i].signature !in loadBearing
    {
      i := 0;
      while i < |list| && list[i].signature in loadBearing
        invariant i <= |list| && forall k :: 0 <= k < i ==> list[k].signature in loadBearing
      {
        i := i + 1;
      }
    }

    /** Oldest first within a subject, sparing the certificate the own chain runs through. */
    method EvictWithinSubject(id: NodeId, now: int)
      requires Snap().Wf() && chains == map[] && id in certs && |certs[id]| > maxPerSubject
      modifies `certs, `chains, `builtAt
      ensures Snap().Wf() && Coherent() && OnlyOwnMemo(now) && own in chains
      ensures old(Snap()).GraphAt(now).Answers(own, chains[own].chain)
      ensures Snap() == old(Snap()).TrimmedSubject(id, chains[own].chain)
    {
      hide Graph.Answers, Graph.Presentable;
      ghost var s := Snap();
      var loadBearing := ChainSignatures(now);
      ghost var answer := chains[own].chain;
      assert ListOk(id, certs[id]);
      AnswerLinks(s.GraphAt(now), own, answer);
      var list := SpareLoadBearing(id, certs[id], loadBearing, answer);
      certs := certs[id := list];
      TrimSubjectKeepsAnswer(s, id, answer, now);
    }

    lemma OneIsLoose(list: seq<Cert>, answer: Option<Chain>)
      requires Distinct(list) && |list| >= 2 && list[0].subject == list[1].subject
      requires answer.Some? ==> DistinctSubjects(answer.value)
      ensures list[0] !in Snap().PinnedCerts(answer) || list[1] !in Snap().PinnedCerts(answer)
    {
      if answer.Some? && list[0] in answer.value && list[1] in answer.value {
        OnePerSubject(answer.value, list[0], list[1]);
      }
    }

    /** Down to the bound in the order of arrival. One certificate of the list at most belongs to
        the own chain, so another can always go. */
    method SpareLoadBearing(id: NodeId, certs: seq<Cert>, loadBearing: set<Signature>, ghost answer: Option<Chain>)
      returns (list: seq<Cert>)
      requires maxPerSubject >= 1 && ListOk(id, certs)
      requires forall c: Cert :: c.signature in loadBearing <==> c in Snap().PinnedCerts(answer)
      requires answer.Some? ==> DistinctSubjects(answer.value)
      ensures list == DropOldest(certs, Snap().PinnedCerts(answer), Excess(|certs|, maxPerSubject))
    {
      ghost var keep := Snap().PinnedCerts(answer);
      list := certs;
      while |list| > maxPerSubject
        invariant Distinct(list) && forall c :: c in list ==> c.subject == id
        invariant DropOldest(list, keep, Excess(|list|, maxPerSubject))
               == DropOldest(certs, keep, Excess(|certs|, maxPerSubject))
      {
        var i := FirstLoose(list, loadBearing);
        OneIsLoose(list, answer);
        DropOldestStep(list, keep, Excess(|list|, maxPerSubject), i);
        RemoveAtMeaning(list, i);
        list := RemoveAt(list, i);
      }
    }

    /** The oldest subject that may go, or the end of the table. */
    method FirstUnpinned(now: int) returns (i: nat)
      requires Snap().Wf() && Coherent() && OnlyOwnMemo(now)
      modifies `chains, `builtAt
      ensures Coherent() && OnlyOwnMemo(now)
      ensures own in old(chains) ==> chains == old(chains) && builtAt == old(builtAt)
      ensures i <= |order|
      ensures own in chains ==>
                && (forall k :: 0 <= k < i ==> order[k] in Snap().PinnedIds(chains[own].chain))
                && (i < |order| ==> order[i] !in Snap().PinnedIds(chains[own].chain))
      ensures own !in chains ==> i == |order| && forall k :: k in order ==> k in roots
    {
      hide State.Wf, MemoOk, State.GraphAt;
      i := 0;
      while i < |order|
        invariant Coherent() && OnlyOwnMemo(now) && i <= |order|
        invariant own in old(chains) ==> chains == old(chains) && builtAt == old(builtAt)
        invariant own in chains ==> forall k :: 0 <= k < i ==> order[k] in Snap().PinnedIds(chains[own].chain)
        invariant own !in chains ==> forall k :: 0 <= k < i ==> order[k] in roots
      {
        var pinned := Pinned(order[i], now);
        if !pinned {
          return;
        }
        i := i + 1;
      }
    }

    /** One subject fewer, the oldest that may go, if any may. */
    method EvictOldestSubject(now: int) returns (evicted: bool)
      requires Valid() && OnlyOwnMemo(now) && |order| > maxSubjects
      modifies `order, `certs, `chains, `builtAt
      ensures Valid() && OnlyOwnMemo(now)
      ensures own in old(chains) ==> chains == old(chains)
      ensures own in chains ==> old(Snap()).GraphAt(now).Answers(own, chains[own].chain)
      ensures own !in chains ==> !evicted
      ensures evicted ==>
                && |order| < old(|order|)
                && Snap().TrimmedSubjects(chains[own].chain) == old(Snap()).TrimmedSubjects(chains[own].chain)
      ensures !evicted ==>
                && Snap() == old(Snap())
                && forall k :: k in order ==> k in if own in chains then Snap().PinnedIds(chains[own].chain) else roots
    {
      hide State.Wf, State.Bounded, State.TrimmedSubjects;
      hide Graph.Answers;
      var i := FirstUnpinned(now);
      if i == |order| {
        return false;
      }
      SubjectEvicted(Snap(), i, chains[own].chain, now);
      certs, order := certs - {order[i]}, RemoveAt(order, i);
      return true;
    }

    /** Oldest subject first, sparing the roots and the own chain. */
    method EnforceBounds(now: int)
      requires Valid() && OnlyOwnMemo(now)
      modifies `order, `certs, `chains, `builtAt
      ensures Valid()
      ensures own in old(chains) ==> own in chains && chains[own].chain == old(chains[own].chain)
      ensures own !in chains ==>
                Snap() == old(Snap()) && (|order| <= maxSubjects || forall k :: k in order ==> k in roots)
      ensures own in chains ==>
                && old(Snap()).GraphAt(now).Answers(own, chains[own].chain)
                && Snap() == old(Snap()).TrimmedSubjects(chains[own].chain)
    {
      ghost var s := Snap();
      while |order| > maxSubjects
        invariant Valid() && OnlyOwnMemo(now)
        invariant own in old(chains) ==> own in chains && chains[own].chain == old(chains[own].chain)
        invariant own !in chains ==> Snap() == s
        invariant own in chains ==>
                    && s.GraphAt(now).Answers(own, chains[own].chain)
                    && s.TrimmedSubjects(chains[own].chain) == Snap().TrimmedSubjects(chains[own].chain)
        decreases |order|
      {
        var evicted := EvictOldestSubject(now);
        if !evicted {
          break;
        }
      }
      if own in chains {
        NothingToTrim(Snap(), chains[own].chain);
      }
    }

    /** Is a certificate with this signature already in the list? */
    method AlreadyIn(list: seq<Cert>, cert: Cert) returns (b: bool)
      ensures b <==> cert in list
    {
      for i := 0 to |list|
        invariant forall k :: 0 <= k < i ==> list[k] != cert
      {
        SignatureIdentifies(list[i], cert);
        if list[i].signature == cert.signature {
          return true;
        }
      }
      return false;
    }

    /** Absorb a certificate: refuse it, refresh its subject, or file it and make room. */
    method Add(cert: Cert, now: int) returns (ok: bool)
      requires Valid()
      modifies this
      ensures Valid() && old(Snap()).Added(cert, now, ok, Snap())
    {
      ghost var s := Snap();
      if cert.Expired(now) || Snap().IsRevoked(cert) {
        return false;
      }
      var present := AlreadyIn(Snap().CertsOf(cert.subject), cert);
      if present {
        Touch(cert.subject);
        TouchedKeeps(s, cert.subject, now);
        return true;
      }
      Append(cert, now);
      MakeRoom(s, cert, now);
      AddKeepsOwnChain(s, cert, now, true, Snap());
      return true;
    }

    /** The newcomer joins its subject's list, and every remembered answer goes. */
    method Append(cert: Cert, now: int)
      requires Valid() && Snap().Usable(cert, now) && !Snap().Holds(cert)
      modifies this
      ensures Snap() == Appended(old(Snap()), cert) && chains == map[]
    {
      var existing := Snap().CertsOf(cert.subject);
      if cert.subject !in certs {
        order := order + [cert.subject];
      }
      certs := certs[cert.subject := existing + [cert]];
      chains := map[];
    }

    /** The two bounds, in the order the code applies them. */
    method MakeRoom(ghost s: State, cert: Cert, now: int)
      requires s.Wf() && s.Bounded() && s.Usable(cert, now) && !s.Holds(cert)
      requires Snap() == Appended(s, cert) && chains == map[]
      modifies `order, `certs, `chains, `builtAt
      ensures Coherent() && s.Added(cert, now, true, Snap())
    {
      hide Graph.Answers, State.TrimmedSubject, State.TrimmedSubjects, State.Added;
      ghost var filed := s.WithCert(cert);
      AppendedWf(s, cert, now);
      AppendedBounded(s, cert);
      EvictIfOverfull(cert.subject, now);
      if own in chains {
        TouchAfterTrim(s, cert, chains[own].chain);
      }
      TouchedKeeps(Snap(), cert.subject, now);
      Touch(cert.subject);
      ghost var mid := Snap();
      ghost var first := own in chains;
      EnforceBounds(now);
      if own in chains {
        assert filed.GraphAt(now).Answers(own, chains[own].chain);
        assert mid == if first then filed.TrimmedSubject(cert.subject, chains[own].chain) else filed;
        FiledAndTrimmed(s, cert, now, mid, chains[own].chain);
      } else {
        FiledWhole(s, cert, now);
      }
    }

    method EvictIfOverfull(id: NodeId, now: int)
      requires Snap().Wf() && chains == map[] && id in certs
      requires forall k :: k in certs && k != id ==> |certs[k]| <= maxPerSubject
      modifies `certs, `chains, `builtAt
      ensures Valid() && OnlyOwnMemo(now) && id in certs
      ensures own in chains <==> |old(certs)[id]| > maxPerSubject
      ensures own in chains ==>
                && old(Snap()).GraphAt(now).Answers(own, chains[own].chain)
                && Snap() == old(Snap()).TrimmedSubject(id, chains[own].chain)
      ensures own !in chains ==> Snap() == old(Snap())
    {
      ghost var s := Snap();
      if |certs[id]| > maxPerSubject {
        EvictWithinSubject(id, now);
        TrimSubjectKeepsChain(s, id, chains[own].chain);
      }
    }

    /** Drop one subject's expired certificates, and the subject if none is left. */
    method SweepSubject(id: NodeId, now: int, ghost s: State, ghost done: set<NodeId>) returns (gone: nat)
      requires id in s.certs && id !in done && s.certs[id] != []
      requires SweptTo(s, done, order, certs, now)
      modifies `order, `certs
      ensures SweptTo(s, done + {id}, order, certs, now) && gone == |s.certs[id]| - |LeftOf(s, id, now)|
      ensures gone == 0 ==> certs == old(certs) && order == old(order)
    {
      hide SweptTo;
      SweepStep(s, done, id, order, certs, now);
      var live := Sieve(certs[id], Unexpired(now));
      if |live| == |certs[id]| {
        SieveFull(certs[id], Unexpired(now));
        assert certs[id := live] == certs;
        return 0;
      }
      gone := |certs[id]| - |live|;
      if live != [] {
        certs := certs[id := live];
      } else {
        certs := certs - {id};
        order := Without(order, id);
      }
    }

    method SweepSubjects(now: int) returns (removed: nat)
      requires Snap().OrderOk() && Snap().ListsOk()
      modifies `order, `certs
      ensures Snap() == old(Snap()).Pruned(now) && removed == Dead(old(Snap()), old(order), now)
      ensures removed == 0 ==> Snap() == old(Snap())
    {
      hide SweptTo, LeftOf, Dead, State.Pruned;
      ghost var s := Snap();
      var ids := order;
      removed := 0;
      SweepStart(s, now);
      ghost var done: set<NodeId> := {};
      DeadNone(s, now);
      for i := 0 to |ids|
        invariant Snap() == s.(order := order, certs := certs)
        invariant forall k :: 0 <= k < |ids| ==> (ids[k] in done <==> k < i)
        invariant SweptTo(s, done, order, certs, now) && removed == Dead(s, ids[..i], now)
        invariant removed == 0 ==> certs == s.certs && order == s.order
      {
        assert ListOk(ids[i], s.certs[ids[i]]);
        DeadSnoc(s, ids, i, now);
        var gone := SweepSubject(ids[i], now, s, done);
        done := done + {ids[i]};
        removed := removed + gone;
      }
      assert forall id :: id in s.certs ==> id in ids;
      assert ids[..|ids|] == ids;
      SweptAll(s, done, order, certs, now);
    }

    /** Sweep the whole store, subject by subject, and count what went. */
    method PruneExpired(now: int) returns (removed: nat)
      requires Valid()
      modifies this
      ensures Valid() && Step(old(Snap()), Op.Prune(now), Snap()) && removed == Dead(old(Snap()), old(order), now)
      ensures removed == 0 ==> Snap() == old(Snap())
    {
      hide State.Wf, State.Bounded, State.Pruned, State.GraphAt, Dead;
      ghost var s := Snap();
      WfHasTables(s);
      removed := SweepSubjects(now);
      StepKeepsWf(s, Op.Prune(now), Snap());
      if removed > 0 {
        chains := map[];
      }
    }

    /** Not past its last moment, and not taken back at or after the moment it was issued. */
    predicate StandsAt(c: Cert, now: int)
      reads this
    {
      var key := RevKey(c.issuer, c.subject);
      (c.expiresAt == 0 || now <= c.expiresAt) && (key in revoked ==> revoked[key].issuedAt < c.issuedAt)
    }

    /** Verify a chain a peer presents: the anchor it ends on, or nothing. */
    method VerifyChain(chain: Chain, now: int) returns (anchor: Option<NodeId>)
      ensures anchor == if Snap().Trusts(chain, now) then Some(Last(chain).subject) else None
      ensures anchor.Some? <==>
                && chain != [] && (forall i :: 0 <= i < |chain| ==> StandsAt(chain[i], now))
                && (forall i :: 0 < i < |chain| ==> chain[i - 1].issuer == chain[i].subject)
                && Last(chain).issuer == Last(chain).subject && Last(chain).subject in roots
      ensures anchor.Some? ==> anchor.value in roots && anchor.value == Last(chain).subject
    {
      if chain == [] {
        return None;
      }
      for i := 0 to |chain|
        invariant forall k :: 0 <= k < i ==> Snap().Usable(chain[k], now)
      {
        if !Snap().Usable(chain[i], now) {
          return None;
        }
      }
      for i := 0 to |chain| - 1
        invariant forall k :: 0 <= k < i ==> chain[k].issuer == chain[k + 1].subject
      {
        if chain[i].issuer != chain[i + 1].subject {
          return None;
        }
        if chain[i].issuerPub != chain[i + 1].subjectPub {
          assert false;
          return None;
        }
      }
      var last := chain[|chain| - 1];
      if !last.SelfSigned() {
        return None;
      }
      if last.subject !in roots {
        return None;
      }
      return Some(last.subject);
    }
  }

  function LeftOf(s: State, id: NodeId, now: int): seq<Cert> {
    Sieve(s.CertsOf(id), Unexpired(now))
  }

  lemma WfHasTables(s: State)
    requires s.Wf()
    ensures s.OrderOk() && s.ListsOk()
  {
  }

  /** How many certificates of these subjects have expired. */
  function Dead(s: State, ids: seq<NodeId>, now: int): nat {
    if ids == [] then 0
    else
      var id := ids[|ids| - 1];
      Dead(s, ids[..|ids| - 1], now) + |s.CertsOf(id)| - |LeftOf(s, id, now)|
  }

  lemma DeadNone(s: State, now: int)
    ensures Dead(s, [], now) == 0
  {
  }

  lemma DeadSnoc(s: State, ids: seq<NodeId>, i: nat, now: int)
    requires i < |ids|
    ensures Dead(s, ids[..i + 1], now) == Dead(s, ids[..i], now) + |s.CertsOf(ids[i])| - |LeftOf(s, ids[i], now)|
  {
    assert ids[..i + 1][..i] == ids[..i];
  }

  /** The tables after the subjects in `done` were swept. */
  ghost predicate SweptTo(s: State, done: set<NodeId>, order: seq<NodeId>, certs: map<NodeId, seq<Cert>>, now: int) {
    && order == Inhabited(s.order, certs)
    && (forall id :: id in certs ==> id in s.certs)
    && (forall id :: id in s.certs ==> SweptOrNot(s, id, id in done, certs, now))
  }

  ghost predicate SweptOrNot(s: State, id: NodeId, swept: bool, certs: map<NodeId, seq<Cert>>, now: int)
    requires id in s.certs
  {
    var left := if swept then LeftOf(s, id, now) else s.certs[id];
    if left == [] then id !in certs else id in certs && certs[id] == left
  }

  lemma SweepStart(s: State, now: int)
    requires s.OrderOk() && s.ListsOk()
    ensures SweptTo(s, {}, s.order, s.certs, now)
  {
    forall id | id in s.certs ensures s.certs[id] != [] {
      assert ListOk(id, s.certs[id]);
    }
    InhabitedWhole(s.order, s.certs);
  }

  lemma {:induction false} InhabitedWhole(order: seq<NodeId>, certs: map<NodeId, seq<Cert>>)
    requires forall id :: id in order ==> id in certs && certs[id] != []
    ensures Inhabited(order, certs) == order
  {
    if order != [] {
      InhabitedWhole(order[1..], certs);
    }
  }

  lemma SweepStep(s: State, done: set<NodeId>, id: NodeId, order: seq<NodeId>, certs: map<NodeId, seq<Cert>>, now: int)
    requires SweptTo(s, done, order, certs, now)
    requires id in s.certs && id !in done && s.certs[id] != []
    ensures id in certs && certs[id] == s.certs[id]
    ensures var left := LeftOf(s, id, now);
            if left == [] then SweptTo(s, done + {id}, Without(order, id), certs - {id}, now)
            else SweptTo(s, done + {id}, order, certs[id := left], now)
  {
    var left := LeftOf(s, id, now);
    var certs' := if left == [] then certs - {id} else certs[id := left];
    assert SweptOrNot(s, id, id in done, certs, now);
    forall k | k in s.certs ensures SweptOrNot(s, k, k in done + {id}, certs', now) {
      assert SweptOrNot(s, k, k in done, certs, now);
    }
    if left == [] {
      InhabitedWithout(s.order, certs, id);
    } else {
      InhabitedAgrees(s.order, certs, certs');
    }
  }

  lemma SweptAll(s: State, done: set<NodeId>, order: seq<NodeId>, certs: map<NodeId, seq<Cert>>, now: int)
    requires s.OrderOk() && SweptTo(s, done, order, certs, now)
    requires forall id :: id in s.certs ==> id in done
    ensures s.Pruned(now) == s.(order := order, certs := certs)
  {
    hide Inhabited, ListOk, Sieve;
    var pass := Unexpired(now);
    var sifted := map id | id in s.certs :: Sieve(s.certs[id], pass);
    forall id | id in s.certs
      ensures sifted[id] == LeftOf(s, id, now) && SweptOrNot(s, id, true, certs, now)
    {
    }
    InhabitedAgrees(s.order, sifted, certs);
    InhabitedMeaning(s.order, sifted);
    assert s.Pruned(now).certs == certs;
  }

  lemma {:induction false} SieveFull(certs: seq<Cert>, pass: Cert -> bool)
    requires |Sieve(certs, pass)| == |certs|
    ensures Sieve(certs, pass) == certs
  {
    if certs != [] {
      assert |Sieve(certs[1..], pass)| <= |certs| - 1 && pass(certs[0]);
      SieveFull(certs[1..], pass);
      assert certs == [certs[0]] + certs[1..];
    }
  }

  /** Serving a remembered answer that has not expired. */
  lemma MemoStillAnswers(s: State, target: NodeId, answer: Option<Chain>, built: int, now: int)
    requires s.Wf() && s.GraphAt(built).Answers(target, answer)
    requires AllInForce(answer, now)
    ensures answer.Some? ==> s.GraphAt(now).Vouches(target, answer.value)
    ensures built <= now ==> s.GraphAt(now).Answers(target, answer)
  {
    LiveMembers(s, built);
    LiveMembers(s, now);
    if answer.Some? {
      forall c | c in answer.value ensures c in s.Live(now) {
        assert c in s.Live(built);
      }
    }
    if built <= now {
      AnswerSurvives(s.GraphAt(built), s.GraphAt(now), target, answer);
    }
  }

  lemma FreshAnswer(s: State, target: NodeId, answer: Option<Chain>, now: int)
    requires s.Wf() && s.GraphAt(now).Answers(target, answer)
    ensures AllInForce(answer, now)
  {
    LiveMembers(s, now);
    if answer.Some? {
      assert forall c :: c in answer.value ==> c in s.Live(now);
    }
  }

  /** A remembered answer that has not expired is the one a fresh walk gives now. */
  ghost predicate StillRight(s: State, target: NodeId, answer: Option<Chain>, built: int, now: int) {
    s.Wf() && s.GraphAt(built).Answers(target, answer) && AllInForce(answer, now) ==>
      s.GraphAt(now).Answers(target, answer)
  }

  /** The clock condition of `GetChain` is exact. For every store, target and answer a memo
      is still right if and only if the clock was not set back since it was computed, or it
      was computed before any certificate can have expired. */
  lemma MemoRightExactly(built: int, now: int)
    ensures (forall s, target, answer :: StillRight(s, target, answer, built, now)) <==> now >= built || built <= 1
  {
    if now >= built {
      forall s, target, answer ensures StillRight(s, target, answer, built, now) {
        MemoStillRight(s, target, answer, built, now);
      }
    } else if built <= 1 {
      forall s: State, target, answer ensures StillRight(s, target, answer, built, now) {
        NothingExpiresSoEarly(s, built, now);
      }
    } else {
      var s, target := NothingWhileExpired(built, now);
      assert !StillRight(s, target, None, built, now);
    }
  }

  lemma NothingExpiresSoEarly(s: State, built: int, now: int)
    requires now < built <= 1
    ensures s.GraphAt(now) == s.GraphAt(built)
  {
    forall c: Cert ensures s.Usable(c, now) == s.Usable(c, built) {
    }
    assert s.Live(now) == s.Live(built);
  }

  lemma MemoStillRight(s: State, target: NodeId, answer: Option<Chain>, built: int, now: int)
    requires now >= built
    ensures StillRight(s, target, answer, built, now)
  {
    hide State.Wf, State.GraphAt;
    if s.Wf() && s.GraphAt(built).Answers(target, answer) && AllInForce(answer, now) {
      MemoStillAnswers(s, target, answer, built, now);
    }
  }

  /** A node whose own certificate expires just before the memo is computed: "no chain" is
      remembered for ever, and wrong at every moment before. */
  lemma NothingWhileExpired(built: int, now: int) returns (s: State, target: NodeId)
    requires now < built && built >= 2
    ensures s.Wf() && s.GraphAt(built).Answers(target, None) && AllInForce(None, now)
    ensures !s.GraphAt(now).Answers(target, None)
  {
    var own := KeyId(1);
    var body := CertBody(own, 1, own, 1, 0, built - 1);
    var mine: Cert := CertRecord(own, 1, own, 1, 0, built - 1, Signature(1, body, 0));
    s, target := State(own, {own}, [own], map[own := [mine]], [], map[], 10, 10, 10), own;
    assert s.Wf();
    LiveMembers(s, built);
    LiveMembers(s, now);
    assert s.Holds(mine) && mine in s.GraphAt(now).live;
    assert s.GraphAt(built).live == {};
    assert s.GraphAt(built).Answers(own, None);
    assert s.GraphAt(now).OwnRoute(own, [mine]);
    if s.GraphAt(now).Answers(own, None) {
      AnswerKinds(s.GraphAt(now), own, None);
      assert false;
    }
  }
}
