/** The shortest chain wins: no route of the same kind has fewer links than the one presented,
    and a certificate from a foreign root goes before one's own self-signed one.
    (src/cert_store.py:456-508; Docs/Architecture/security.md:174-175) */
module ShortestChain {
  import opened Wrappers
  import opened Certificates
  import opened Issuance
  import opened ChainSearch

  /** A route to an anchor of the kind a chain ends in. */
  ghost predicate RouteOfKind(g: Graph, target: NodeId, own: bool, p: Chain) {
    if own then g.OwnRoute(target, p) else g.ExternalRoute(target, p)
  }

  /** Among the routes of its kind none is shorter, and a target is its own anchor only if no
      other root signed for it directly. */
  ghost predicate Shortest(g: Graph, target: NodeId, chain: Chain)
    requires |chain| > 0
  {
    var own := Last(chain).subject == g.own;
    forall p: Chain :: RouteOfKind(g, target, own, p) ==>
      |RouteOf(chain)| < |p| || (|RouteOf(chain)| == |p| && (|p| == 1 && chain[0].SelfSigned() ==> p[0].SelfSigned()))
  }

  // ------------------------------------------------------------------ how deep the walk is

  /** Visited no more than `n` steps from the target, remembered, or waiting at such a depth. */
  ghost predicate Near(s: Search, depth: map<NodeId, nat>, id: NodeId, n: nat) {
    || (id in depth && depth[id] <= n)
    || s.FallbackSet(id)
    || exists k :: 0 <= k < |s.queue| && s.queue[k].at == id && |s.queue[k].path| <= n
  }

  ghost predicate IssuersNear(s: Search, depth: map<NodeId, nat>) {
    forall c :: c in s.g.live && c.subject in depth ==> Near(s, depth, c.issuer, depth[c.subject] + 1)
  }

  /** No id was visited from deeper than the walk has come. */
  predicate NoDeeper(s: Search, depth: map<NodeId, nat>) {
    forall id, k :: id in depth && 0 <= k < |s.queue| ==> depth[id] <= |s.queue[k].path|
  }

  /** On the first level whatever others signed comes before the self-signed. */
  predicate OthersFirst(s: Search) {
    forall i, j :: 0 <= i < j < |s.queue| && |s.queue[j].path| == 1 && s.queue[i].at == s.target ==>
                     s.queue[j].at == s.target
  }

  ghost predicate Levels(s: Search, depth: map<NodeId, nat>) {
    && depth.Keys == s.visited && s.target in depth && depth[s.target] == 0
    && IssuersNear(s, depth) && NoDeeper(s, depth) && OthersFirst(s)
  }

  /** External issuers, then the subject itself. */
  predicate ExternalFirst(certs: seq<Cert>) {
    forall i, j :: 0 <= i < j < |certs| && certs[i].SelfSigned() ==> certs[j].SelfSigned()
  }

  lemma StartLevels(g: Graph, target: NodeId, certs: seq<Cert>)
    requires forall c :: c in certs <==> c in g.live && c.subject == target
    requires ExternalFirst(certs)
    ensures Levels(Start(g, target, certs), map[target := 0])
  {
    var s := Start(g, target, certs);
    assert forall i :: 0 <= i < |certs| ==> certs[i] in certs && s.queue[i] == Entry(certs[i].issuer, [certs[i]]);
    forall c | c in g.live && c.subject == target ensures Near(s, map[target := 0], c.issuer, 1) {
      var k :| 0 <= k < |certs| && certs[k] == c;
      assert s.queue[k].at == c.issuer;
    }
  }

  /** Dropping the head once its id was visited or remembered. */
  lemma DropHeadKeepsLevels(s: Search, s': Search, depth: map<NodeId, nat>)
    requires Levels(s, depth) && |s.queue| > 0
    requires s' == Search(s.g, s.target, s.queue[1..], s.visited, s'.fallback)
    requires s.fallback.Some? ==> s'.fallback.Some?
    requires s.queue[0].at in depth || s'.FallbackSet(s.queue[0].at)
    ensures Levels(s', depth)
  {
    assert forall j :: 0 <= j < |s'.queue| ==> s'.queue[j] == s.queue[j + 1];
    forall c | c in s.g.live && c.subject in depth ensures Near(s', depth, c.issuer, depth[c.subject] + 1) {
      DropHeadKeepsNear(s, s', depth, c.issuer, depth[c.subject] + 1);
    }
  }

  lemma DropHeadKeepsNear(s: Search, s': Search, depth: map<NodeId, nat>, id: NodeId, n: nat)
    requires NoDeeper(s, depth) && |s.queue| > 0 && Near(s, depth, id, n)
    requires s'.g == s.g && s'.queue == s.queue[1..]
    requires s.fallback.Some? ==> s'.fallback.Some?
    requires s.queue[0].at in depth || s'.FallbackSet(s.queue[0].at)
    ensures Near(s', depth, id, n)
  {
    if !(id in depth && depth[id] <= n) && !s.FallbackSet(id) {
      var k :| 0 <= k < |s.queue| && s.queue[k].at == id && |s.queue[k].path| <= n;
      if k > 0 {
        assert s'.queue[k - 1] == s.queue[k];
      }
    }
  }

  lemma SkipKeepsLevels(s: Search, depth: map<NodeId, nat>)
    requires Levels(s, depth) && |s.queue| > 0 && s.queue[0].at in s.visited
    ensures Levels(s.Skip(), depth)
  {
    DropHeadKeepsLevels(s, s.Skip(), depth);
  }

  /** A new id is as deep as the walk that reached it. */
  lemma ExpandKeepsDepths(s: Search, certs: seq<Cert>, depth: map<NodeId, nat>)
    requires s.Inv() && Levels(s, depth) && |s.queue| > 0
    requires s.queue[0].at !in s.visited && ListsLive(s.g, s.queue[0].at, certs)
    ensures Levels(s.Expand(certs), depth[s.queue[0].at := |s.queue[0].path|])
  {
    hide Search.PathOk, Search.EntryBest, Search.Closed, Search.TargetWaits, Search.VisitedOk, Near;
    var s', at, len := s.Expand(certs), s.queue[0].at, |s.queue[0].path|;
    var depth' := depth[at := len];
    forall c | c in s.g.live && c.subject in depth' ensures Near(s', depth', c.issuer, depth'[c.subject] + 1) {
      if c.subject == at {
        NewIsNear(s, certs, depth', c);
      } else {
        ExpandKeepsNear(s, certs, depth, c.issuer, depth[c.subject] + 1);
      }
    }
    HeadFacts(s, s.Ids());
    ExpandKeepsOrder(s, certs, depth);
  }

  lemma NewIsNear(s: Search, certs: seq<Cert>, depth: map<NodeId, nat>, c: Cert)
    requires |s.queue| > 0 && c in certs
    ensures Near(s.Expand(certs), depth, c.issuer, |s.queue[0].path| + 1)
  {
    var s', n := s.Expand(certs), |s.queue| - 1;
    var k :| 0 <= k < |certs| && certs[k] == c;
    assert s'.queue[n + k] == Extensions(s.queue[0].path, certs)[k];
  }

  lemma ExpandKeepsNear(s: Search, certs: seq<Cert>, depth: map<NodeId, nat>, id: NodeId, n: nat)
    requires |s.queue| > 0 && s.queue[0].at !in depth && Near(s, depth, id, n)
    ensures Near(s.Expand(certs), depth[s.queue[0].at := |s.queue[0].path|], id, n)
  {
    var s' := s.Expand(certs);
    if !(id in depth && depth[id] <= n) && !s.FallbackSet(id) {
      var k :| 0 <= k < |s.queue| && s.queue[k].at == id && |s.queue[k].path| <= n;
      if k > 0 {
        assert s'.queue[k - 1] == s.queue[k];
      }
    }
  }

  lemma ExpandKeepsOrder(s: Search, certs: seq<Cert>, depth: map<NodeId, nat>)
    requires s.LevelOrder() && NoDeeper(s, depth) && OthersFirst(s) && |s.queue| > 0 && |s.queue[0].path| > 0
    ensures NoDeeper(s.Expand(certs), depth[s.queue[0].at := |s.queue[0].path|]) && OthersFirst(s.Expand(certs))
  {
    var s', n, len := s.Expand(certs), |s.queue| - 1, |s.queue[0].path|;
    forall j | 0 <= j < |s'.queue|
      ensures len <= |s'.queue[j].path|
      ensures j >= n ==> |s'.queue[j].path| == len + 1
      ensures j < n ==> s'.queue[j] == s.queue[j + 1]
    {
    }
  }

  // ------------------------------------------------------------------ the shortest wins

  /** A walk no longer than the head's, clear of a remembered own root: every id on it was
      visited in time, or waits. */
  lemma {:induction false} ShortWalkIsNear(s: Search, depth: map<NodeId, nat>, p: Chain, i: nat)
    requires Levels(s, depth) && |s.queue| > 0 && s.LevelOrder()
    requires s.g.Walk(s.target, p) && i < |p| <= |s.queue[0].path|
    requires forall k :: 0 <= k < |p| - 1 ==> !s.FallbackSet(p[k].issuer)
    ensures p[i].subject in depth && depth[p[i].subject] <= i
  {
    if i > 0 {
      ShortWalkIsNear(s, depth, p, i - 1);
      assert p[i - 1] in s.g.live && p[i - 1].issuer == p[i].subject;
      assert Near(s, depth, p[i].subject, depth[p[i - 1].subject] + 1);
    }
  }

  /** So no walk shorter than the head's leads to an anchor that was not remembered. */
  lemma ShortRouteHasNoAnchor(s: Search, depth: map<NodeId, nat>, p: Chain)
    requires s.Inv() && Levels(s, depth) && |s.queue| > 0
    requires s.g.Walk(s.target, p) && |p| < |s.queue[0].path|
    requires forall k :: 0 <= k < |p| ==> !s.FallbackSet(p[k].issuer)
    ensures !s.g.Anchored(Last(p).issuer)
  {
    hide Search.PathsOk, Search.BestFirst, Search.Closed;
    var last := |p| - 1;
    ShortWalkIsNear(s, depth, p, last);
    assert p[last] in s.g.live;
    assert Near(s, depth, p[last].issuer, depth[p[last].subject] + 1);
  }

  /** And a target's own root is met only after every other root that signed for it. */
  lemma SelfSignedComesLast(s: Search, depth: map<NodeId, nat>, c: Cert)
    requires s.Inv() && Levels(s, depth) && |s.queue| > 0
    requires s.queue[0].at == s.target && |s.queue[0].path| == 1
    requires c in s.g.live && c.subject == s.target && !s.FallbackSet(c.issuer)
    ensures s.g.Anchored(c.issuer) ==> c.SelfSigned()
  {
    hide Search.PathsOk, Search.BestFirst, Search.Closed, Search.TargetWaits;
    if !c.SelfSigned() {
      assert Near(s, depth, c.issuer, depth[c.subject] + 1);
      assert c.issuer in depth;
    }
  }

  /** What a popped anchor closes is a shortest chain of its kind. */
  lemma ClosedChainShortest(s: Search, depth: map<NodeId, nat>, chain: Chain)
    requires s.Inv() && Levels(s, depth) && |s.queue| > 0 && |s.queue[0].path| > 0
    requires s.g.Anchored(s.queue[0].at) && !s.FallbackSet(s.queue[0].at) && Closes(s, chain)
    ensures |chain| > 0 && Shortest(s.g, s.target, chain)
  {
    hide Levels, Search.Inv, Graph.Anchored, Graph.Presentable;
    ClosedChainPresentable(s, chain);
    AnchorIsNew(s);
    var own := Last(chain).subject == s.g.own;
    forall p: Chain | RouteOfKind(s.g, s.target, own, p)
      ensures |RouteOf(chain)| <= |p|
      ensures |p| == 1 && |RouteOf(chain)| == 1 && chain[0].SelfSigned() ==> p[0].SelfSigned()
    {
      forall k | 0 <= k < |p| ensures !s.FallbackSet(p[k].issuer) {
        assert k < |p| - 1 ==> p[k].issuer == p[k + 1].subject;
      }
      if |p| < |s.queue[0].path| {
        ShortRouteHasNoAnchor(s, depth, p);
        assert false;
      }
      if |p| == 1 && |RouteOf(chain)| == 1 && chain[0].SelfSigned() {
        SelfSignedComesLast(s, depth, p[0]);
      }
    }
  }

  // ------------------------------------------------------------------ both at once

  /** Everything the walk keeps: what its queue means, and how deep it is. */
  ghost predicate Sound(s: Search, depth: map<NodeId, nat>) {
    s.Inv() && Levels(s, depth)
  }

  /** What is remembered of the own root is a shortest chain to it. */
  ghost predicate FallbackShortest(g: Graph, target: NodeId, fallback: Option<Chain>) {
    fallback.Some? ==> |fallback.value| > 0 && Shortest(g, target, fallback.value)
  }

  lemma StartSound(g: Graph, target: NodeId, certs: seq<Cert>)
    requires forall c :: c in certs <==> c in g.live && c.subject == target
    requires ExternalFirst(certs) && SortedForTarget(certs)
    ensures Sound(Start(g, target, certs), map[target := 0]) && FallbackShortest(g, target, None)
  {
    hide Search.Inv, Levels;
    StartInv(g, target, certs);
    StartLevels(g, target, certs);
  }

  /** Somebody else's anchor: the answer. */
  lemma AnchorAnswers(s: Search, depth: map<NodeId, nat>, chain: Chain)
    requires Sound(s, depth) && |s.queue| > 0 && |s.queue[0].path| > 0
    requires s.g.Anchored(s.queue[0].at) && s.queue[0].at != s.g.own && Closes(s, chain)
    ensures s.g.Answers(s.target, Some(chain)) && |chain| > 0 && Shortest(s.g, s.target, chain)
  {
    hide Search.Inv, Levels, Shortest, Graph.Answers, Closes;
    AnchorEndsSearch(s, chain);
    ClosedChainShortest(s, depth, chain);
  }

  /** The own anchor: remembered the first time, and the walk goes on. */
  lemma OwnAnchorSound(s: Search, depth: map<NodeId, nat>, chain: Chain, s': Search)
    requires Sound(s, depth) && FallbackShortest(s.g, s.target, s.fallback) && |s.queue| > 0 && |s.queue[0].path| > 0
    requires s.g.Anchored(s.queue[0].at) && s.queue[0].at == s.g.own && Closes(s, chain)
    requires s' == Search(s.g, s.target, s.queue[1..], s.visited,
                          if s.fallback.None? then Some(chain) else s.fallback)
    ensures Sound(s', depth) && FallbackShortest(s.g, s.target, s'.fallback)
  {
    hide Search.Inv, Levels, Shortest, Closes;
    if s.fallback.None? {
      ClosedChainShortest(s, depth, chain);
    }
    OwnAnchorKeepsInv(s, chain, s');
    DropHeadKeepsLevels(s, s', depth);
  }

  lemma SkipSound(s: Search, depth: map<NodeId, nat>)
    requires Sound(s, depth) && |s.queue| > 0
    requires s.queue[0].at in s.visited && !s.g.Anchored(s.queue[0].at)
    ensures Sound(s.Skip(), depth)
  {
    hide Search.Inv, Levels;
    SkipKeepsInv(s);
    SkipKeepsLevels(s, depth);
  }

  lemma ExpandSound(s: Search, depth: map<NodeId, nat>, certs: seq<Cert>)
    requires Sound(s, depth) && |s.queue| > 0
    requires s.queue[0].at !in s.visited && !s.g.Anchored(s.queue[0].at)
    requires ListsLive(s.g, s.queue[0].at, certs)
    ensures Sound(s.Expand(certs), depth[s.queue[0].at := |s.queue[0].path|])
  {
    hide Search.Inv, Levels, ListsLive;
    ExpandKeepsInv(s, certs);
    ExpandKeepsDepths(s, certs, depth);
  }

  lemma SoundHead(s: Search, depth: map<NodeId, nat>, ids: set<NodeId>)
    requires Sound(s, depth) && |s.queue| > 0 && ids == s.Ids()
    ensures |s.queue[0].path| > 0 && s.queue[0].at in ids
    ensures Last(s.queue[0].path).issuer == s.queue[0].at && Last(s.queue[0].path) in s.g.live
  {
    HeadFacts(s, ids);
  }

  /** Nothing waits any more: what was remembered is the answer. */
  lemma ExhaustedAnswers(s: Search, depth: map<NodeId, nat>)
    requires Sound(s, depth) && s.queue == [] && FallbackShortest(s.g, s.target, s.fallback)
    ensures s.g.Answers(s.target, s.fallback)
    ensures s.fallback.Some? ==> |s.fallback.value| > 0 && Shortest(s.g, s.target, s.fallback.value)
  {
    Exhausted(s);
  }
}
