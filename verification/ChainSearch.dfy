/** The breadth-first walk behind `CertStore.BuildChain`: what its queue and visited set
    mean between two iterations, and why each kind of iteration keeps that meaning.
    (src/cert_store.py:456-508) */
module ChainSearch {
  import opened Wrappers
  import opened Certificates
  import opened Issuance

  /** One queue entry: a walk, and the issuer it has reached. */
  datatype Entry = Entry(at: NodeId, path: Chain)

  datatype Search = Search(g: Graph, target: NodeId, queue: seq<Entry>, visited: set<NodeId>, fallback: Option<Chain>) {

    ghost predicate FallbackSet(id: NodeId) {
      id == g.own && g.Anchored(g.own) && fallback.Some?
    }

    /** Nothing more will be learnt by popping this id. */
    ghost predicate Settled(id: NodeId) {
      FallbackSet(id) || (id in visited && !(id == target && g.Anchored(target)))
    }

    predicate Queued(id: NodeId, below: nat)
      requires below <= |queue|
    {
      exists k :: 0 <= k < below && queue[k].at == id
    }

    ghost predicate PathOk(e: Entry) {
      && g.Walk(target, e.path) && Last(e.path).issuer == e.at
      && DistinctSubjects(e.path)
      && (forall i :: 0 <= i < |e.path| ==> e.path[i].subject in visited)
      && (forall i :: 1 <= i < |e.path| ==> e.path[i].subject != target && !g.Anchored(e.path[i].subject))
      && (forall i :: 0 <= i < |e.path| - 1 ==> g.Longest(e.path[i]))
    }

    ghost predicate PathsOk() {
      forall j :: 0 <= j < |queue| ==> PathOk(queue[j])
    }

    /** Level order: popping never meets a longer walk before a shorter one. */
    predicate LevelOrder() {
      && (forall i, j :: 0 <= i < j < |queue| ==> |queue[i].path| <= |queue[j].path|)
      && (forall j :: 0 <= j < |queue| ==> |queue[j].path| <= |queue[0].path| + 1)
    }

    ghost predicate EntryBest(j: nat)
      requires j < |queue|
    {
      && |queue[j].path| > 0
      && (g.Longest(Last(queue[j].path)) || Settled(queue[j].at) || Queued(queue[j].at, j))
    }

    /** A walk whose last certificate has a longer-lived sibling comes after it. */
    ghost predicate BestFirst() {
      forall j :: 0 <= j < |queue| ==> EntryBest(j)
    }

    /** Every issuer of a visited subject is visited, waiting, or the remembered own root. */
    ghost predicate Closed() {
      forall c :: c in g.live && c.subject in visited ==>
                    c.issuer in visited || FallbackSet(c.issuer) || Queued(c.issuer, |queue|)
    }

    ghost predicate VisitedOk() {
      target in visited && forall id :: id in visited ==> id == target || !g.Anchored(id)
    }

    /** A target that is itself an anchor still has its own one-certificate chain waiting. */
    ghost predicate TargetWaits() {
      g.Anchored(target) && !FallbackSet(target) ==>
        exists k :: 0 <= k < |queue| && queue[k].at == target && |queue[k].path| == 1
    }

    ghost predicate FallbackOk() {
      fallback.Some? ==> g.Presentable(target, fallback.value) && Last(fallback.value).subject == g.own
    }

    ghost predicate Inv() {
      && PathsOk() && LevelOrder() && BestFirst() && Closed() && VisitedOk() && TargetWaits() && FallbackOk()
    }

    /** Every id the walk can meet. */
    ghost function Ids(): (ids: set<NodeId>)
    {
      {target} + (set c | c in g.live :: c.subject) + (set c | c in g.live :: c.issuer)
    }

    function Skip(): Search
      requires |queue| > 0
    {
      this.(queue := queue[1..])
    }

    function Expand(certs: seq<Cert>): Search
      requires |queue| > 0
    {
      this.(queue := queue[1..] + Extensions(queue[0].path, certs), visited := visited + {queue[0].at})
    }
  }

  function Extensions(path: Chain, certs: seq<Cert>): (r: seq<Entry>)
    ensures |r| == |certs|
  {
    seq(|certs|, i requires 0 <= i < |certs| => Entry(certs[i].issuer, path + [certs[i]]))
  }

  predicate SortedByLife(certs: seq<Cert>) {
    forall i, j :: 0 <= i < j < |certs| ==> certs[i].Outlives(certs[j])
  }

  /** `certs` lists exactly the live certificates of `id`, longest-lived first. */
  ghost predicate ListsLive(g: Graph, id: NodeId, certs: seq<Cert>) {
    && (forall c :: c in certs <==> c in g.live && c.subject == id)
    && SortedByLife(certs)
  }

  /** The order the first level is queued in: external issuers, then own, each by life. */
  predicate SortedForTarget(certs: seq<Cert>) {
    forall i, j :: 0 <= i < j < |certs| && certs[i].issuer == certs[j].issuer ==> certs[i].Outlives(certs[j])
  }

  function Start(g: Graph, target: NodeId, certs: seq<Cert>): Search {
    Search(g, target, Extensions([], certs), {target}, None)
  }

  lemma StartInv(g: Graph, target: NodeId, certs: seq<Cert>)
    requires forall c :: c in certs <==> c in g.live && c.subject == target
    requires SortedForTarget(certs)
    ensures Start(g, target, certs).Inv()
  {
    hide Search.PathOk, Search.EntryBest, Search.Queued, SortedForTarget;
    var s := Start(g, target, certs);
    forall j | 0 <= j < |s.queue|
      ensures |s.queue[j].path| == 1 && s.PathOk(s.queue[j]) && s.EntryBest(j)
    {
      StartPath(g, target, certs, j);
      StartBest(g, target, certs, j);
    }
    assert s.LevelOrder();
    forall c | c in g.live && c.subject == target
      ensures s.Queued(c.issuer, |s.queue|)
    {
      StartQueues(g, target, certs, c);
    }
    assert s.Closed();
    if c :| g.Anchored(target) && c in g.live && c.subject == target && c.SelfSigned() {
      StartQueues(g, target, certs, c);
    }
  }

  lemma StartQueues(g: Graph, target: NodeId, certs: seq<Cert>, c: Cert)
    requires c in certs
    ensures var s := Start(g, target, certs);
            s.Queued(c.issuer, |s.queue|)
  {
    var k :| 0 <= k < |certs| && certs[k] == c;
    assert Start(g, target, certs).queue[k].at == c.issuer;
  }

  lemma StartPath(g: Graph, target: NodeId, certs: seq<Cert>, j: nat)
    requires forall c :: c in certs <==> c in g.live && c.subject == target
    requires j < |certs|
    ensures var s := Start(g, target, certs);
            |s.queue[j].path| == 1 && s.PathOk(s.queue[j])
  {
    assert Start(g, target, certs).queue[j] == Entry(certs[j].issuer, [certs[j]]) && certs[j] in certs;
  }

  lemma StartBest(g: Graph, target: NodeId, certs: seq<Cert>, j: nat)
    requires forall c :: c in certs <==> c in g.live && c.subject == target
    requires SortedForTarget(certs) && j < |certs|
    ensures Start(g, target, certs).EntryBest(j)
  {
    var s := Start(g, target, certs);
    assert s.queue[j] == Entry(certs[j].issuer, [certs[j]]) && certs[j] in certs;
    if !g.Longest(certs[j]) {
      var d :| d in g.live && d.subject == target && d.issuer == certs[j].issuer && !certs[j].Outlives(d);
      var k :| 0 <= k < |certs| && certs[k] == d;
      assert s.queue[k].at == s.queue[j].at;
    }
  }

  /** The head's last certificate is the longest-lived of its kind unless it is settled. */
  lemma HeadIsBest(s: Search)
    requires s.Inv() && |s.queue| > 0 && !s.Settled(s.queue[0].at)
    ensures s.g.Longest(Last(s.queue[0].path))
  {
    assert s.EntryBest(0) && !s.Queued(s.queue[0].at, 0);
  }

  /** Dropping the head once its id is settled, whatever else the iteration recorded. */
  lemma DropHeadKeepsInv(s: Search, s': Search)
    requires s.Inv() && |s.queue| > 0
    requires s' == Search(s.g, s.target, s.queue[1..], s.visited, s'.fallback)
    requires s.fallback.Some? ==> s'.fallback.Some?
    requires s'.Settled(s.queue[0].at) && s'.FallbackOk()
    ensures s'.Inv()
  {
    hide Search.PathOk, Search.EntryBest, Search.Closed;
    assert forall j :: 0 <= j < |s'.queue| ==> s'.queue[j] == s.queue[j + 1];
    forall j | 0 <= j < |s'.queue| ensures s'.PathOk(s'.queue[j]) && s'.EntryBest(j) {
      DropHeadKeepsPath(s, s', j);
      DropHeadKeepsBest(s, s', j);
    }
    DropHeadKeepsClosed(s, s');
    if s.g.Anchored(s.target) && !s'.FallbackSet(s.target) {
      var k :| 0 <= k < |s.queue| && s.queue[k].at == s.target && |s.queue[k].path| == 1;
      assert k > 0;
      assert s'.queue[k - 1].at == s.target;
    }
  }

  lemma DropHeadKeepsPath(s: Search, s': Search, j: nat)
    requires s.PathsOk() && |s.queue| > 0
    requires s' == Search(s.g, s.target, s.queue[1..], s.visited, s'.fallback)
    requires j < |s'.queue|
    ensures s'.PathOk(s'.queue[j])
  {
    assert s.PathOk(s.queue[j + 1]);
  }

  lemma DropHeadKeepsBest(s: Search, s': Search, j: nat)
    requires s.BestFirst() && |s.queue| > 0
    requires s' == Search(s.g, s.target, s.queue[1..], s.visited, s'.fallback)
    requires s.fallback.Some? ==> s'.fallback.Some?
    requires s'.Settled(s.queue[0].at)
    requires j < |s'.queue|
    ensures s'.EntryBest(j)
  {
    assert s.EntryBest(j + 1);
    if !s.g.Longest(Last(s.queue[j + 1].path)) && !s.Settled(s.queue[j + 1].at) {
      var k :| 0 <= k < j + 1 && s.queue[k].at == s.queue[j + 1].at;
      if k > 0 {
        assert s'.queue[k - 1].at == s'.queue[j].at;
      }
    }
  }

  lemma DropHeadKeepsClosed(s: Search, s': Search)
    requires s.Closed() && |s.queue| > 0
    requires s' == Search(s.g, s.target, s.queue[1..], s.visited, s'.fallback)
    requires s.fallback.Some? ==> s'.fallback.Some?
    requires s'.Settled(s.queue[0].at)
    ensures s'.Closed()
  {
    forall c | c in s.g.live && c.subject in s.visited
      ensures c.issuer in s.visited || s'.FallbackSet(c.issuer) || s'.Queued(c.issuer, |s'.queue|)
    {
      if c.issuer !in s.visited && !s.FallbackSet(c.issuer) {
        var k :| 0 <= k < |s.queue| && s.queue[k].at == c.issuer;
        if k > 0 {
          assert s'.queue[k - 1].at == c.issuer;
        }
      }
    }
  }

  /** Popping a visited id that closes no chain. */
  lemma SkipKeepsInv(s: Search)
    requires s.Inv() && |s.queue| > 0
    requires s.queue[0].at in s.visited && !s.g.Anchored(s.queue[0].at)
    ensures s.Skip().Inv()
  {
    hide Search.PathsOk, Search.LevelOrder, Search.BestFirst, Search.Closed, Search.TargetWaits;
    DropHeadKeepsInv(s, s.Skip());
  }

  /** Popping an unvisited id that closes no chain: its certificates join the queue. */
  lemma ExpandKeepsInv(s: Search, certs: seq<Cert>)
    requires s.Inv() && |s.queue| > 0
    requires s.queue[0].at !in s.visited && !s.g.Anchored(s.queue[0].at)
    requires ListsLive(s.g, s.queue[0].at, certs)
    ensures s.Expand(certs).Inv()
  {
    hide Search.PathOk, Search.EntryBest, Search.LevelOrder, Search.Closed;
    var s' := s.Expand(certs);
    forall j | 0 <= j < |s'.queue| ensures s'.PathOk(s'.queue[j]) {
      ExpandKeepsPath(s, certs, j);
    }
    ExpandKeepsLevels(s, certs);
    forall j | 0 <= j < |s'.queue| ensures s'.EntryBest(j) {
      ExpandKeepsBest(s, certs, j);
    }
    ExpandKeepsClosed(s, certs);
    if s.g.Anchored(s.target) && !s'.FallbackSet(s.target) {
      var k :| 0 <= k < |s.queue| && s.queue[k].at == s.target && |s.queue[k].path| == 1;
      assert s'.queue[k - 1] == s.queue[k];
    }
  }

  lemma ExtensionOk(s: Search, certs: seq<Cert>, i: nat)
    requires s.Inv() && |s.queue| > 0 && i < |certs|
    requires s.queue[0].at !in s.visited && !s.g.Anchored(s.queue[0].at)
    requires ListsLive(s.g, s.queue[0].at, certs)
    ensures s.Expand(certs).PathOk(Extensions(s.queue[0].path, certs)[i])
  {
    hide Graph.Longest, Search.Closed, Search.LevelOrder, Search.EntryBest;
    var path, c := s.queue[0].path, certs[i];
    assert s.PathOk(s.queue[0]);
    assert c in certs;
    HeadIsBest(s);
    var p := path + [c];
    forall k | 0 <= k < |p| - 1 ensures s.g.Longest(p[k]) && p[k].issuer == p[k + 1].subject {
      assert p[k] == path[k];
    }
  }

  lemma WaitingPathStays(s: Search, certs: seq<Cert>, e: Entry)
    requires |s.queue| > 0 && s.PathOk(e)
    ensures s.Expand(certs).PathOk(e)
  {
  }

  lemma ExpandKeepsPath(s: Search, certs: seq<Cert>, j: nat)
    requires s.Inv() && |s.queue| > 0 && j < |s.Expand(certs).queue|
    requires s.queue[0].at !in s.visited && !s.g.Anchored(s.queue[0].at)
    requires ListsLive(s.g, s.queue[0].at, certs)
    ensures s.Expand(certs).PathOk(s.Expand(certs).queue[j])
  {
    hide Search.PathOk, Extensions;
    var n, s' := |s.queue| - 1, s.Expand(certs);
    if j < n {
      assert s.PathOk(s.queue[j + 1]);
      WaitingPathStays(s, certs, s.queue[j + 1]);
      assert s'.queue[j] == s.queue[j + 1];
    } else {
      ExtensionOk(s, certs, j - n);
      assert s'.queue[j] == Extensions(s.queue[0].path, certs)[j - n];
    }
  }

  lemma ExpandKeepsLevels(s: Search, certs: seq<Cert>)
    requires s.Inv() && |s.queue| > 0
    ensures s.Expand(certs).LevelOrder()
  {
    var s', n, len := s.Expand(certs), |s.queue| - 1, |s.queue[0].path|;
    forall j | 0 <= j < |s'.queue|
      ensures len <= |s'.queue[j].path| <= len + 1
      ensures j >= n ==> |s'.queue[j].path| == len + 1
      ensures j < n ==> s'.queue[j] == s.queue[j + 1]
    {
    }
  }

  lemma ExpandKeepsBest(s: Search, certs: seq<Cert>, j: nat)
    requires s.Inv() && |s.queue| > 0
    requires s.queue[0].at !in s.visited && !s.g.Anchored(s.queue[0].at)
    requires ListsLive(s.g, s.queue[0].at, certs)
    requires j < |s.Expand(certs).queue|
    ensures s.Expand(certs).EntryBest(j)
  {
    hide Search.PathsOk, Search.LevelOrder, Search.Closed, Search.TargetWaits, Search.VisitedOk;
    if j < |s.queue| - 1 {
      WaitingKeepsBest(s, certs, j);
    } else {
      ExtensionBest(s, certs, j - (|s.queue| - 1));
    }
  }

  /** An entry that was already waiting. */
  lemma WaitingKeepsBest(s: Search, certs: seq<Cert>, j: nat)
    requires s.BestFirst() && j < |s.queue| - 1
    requires !s.g.Anchored(s.queue[0].at)
    ensures s.Expand(certs).EntryBest(j)
  {
    var s' := s.Expand(certs);
    assert s'.queue[j] == s.queue[j + 1] && s.EntryBest(j + 1);
    if !s.g.Longest(Last(s.queue[j + 1].path)) && !s.Settled(s.queue[j + 1].at) {
      var k :| 0 <= k < j + 1 && s.queue[k].at == s.queue[j + 1].at;
      if k > 0 {
        assert s'.queue[k - 1].at == s'.queue[j].at;
      } else {
        assert s'.Settled(s'.queue[j].at);
      }
    }
  }

  /** A new entry: its longer-lived siblings were queued just before it. */
  lemma ExtensionBest(s: Search, certs: seq<Cert>, i: nat)
    requires |s.queue| > 0 && i < |certs|
    requires ListsLive(s.g, s.queue[0].at, certs)
    ensures s.Expand(certs).EntryBest(|s.queue| - 1 + i)
  {
    var s', n := s.Expand(certs), |s.queue| - 1;
    var c := certs[i];
    assert s'.queue[n + i] == Extensions(s.queue[0].path, certs)[i];
    assert Last(s'.queue[n + i].path) == c && c in certs;
    if !s.g.Longest(c) {
      var d :| d in s.g.live && d.subject == c.subject && d.issuer == c.issuer && !c.Outlives(d);
      var k :| 0 <= k < |certs| && certs[k] == d;
      assert s'.queue[n + k].at == c.issuer;
    }
  }

  lemma ExpandKeepsClosed(s: Search, certs: seq<Cert>)
    requires s.Closed() && |s.queue| > 0
    requires ListsLive(s.g, s.queue[0].at, certs)
    ensures s.Expand(certs).Closed()
  {
    var s', n := s.Expand(certs), |s.queue| - 1;
    forall c | c in s.g.live && c.subject in s'.visited
      ensures c.issuer in s'.visited || s'.FallbackSet(c.issuer) || s'.Queued(c.issuer, |s'.queue|)
    {
      if c.subject == s.queue[0].at {
        var k :| 0 <= k < |certs| && certs[k] == c;
        assert s'.queue[n + k].at == c.issuer;
      } else if c.issuer !in s.visited && !s.FallbackSet(c.issuer) {
        var k :| 0 <= k < |s.queue| && s.queue[k].at == c.issuer;
        if k > 0 {
          assert s'.queue[k - 1] == s.queue[k];
        }
      }
    }
  }

  /** `chain` is what the head's walk and a certificate of the anchor it reached make. */
  ghost predicate Closes(s: Search, chain: Chain)
    requires |s.queue| > 0 && |s.queue[0].path| > 0
  {
    var at, path := s.queue[0].at, s.queue[0].path;
    if Last(path).SelfSigned() then chain == path
    else exists rc :: chain == path + [rc] && rc in s.g.live && rc.SelfSigned()
                      && rc.subject == at && s.g.Longest(rc)
  }

  lemma HeadFacts(s: Search, ids: set<NodeId>)
    requires s.Inv() && |s.queue| > 0 && ids == s.Ids()
    ensures |s.queue[0].path| > 0 && s.queue[0].at in ids
    ensures Last(s.queue[0].path).issuer == s.queue[0].at && Last(s.queue[0].path) in s.g.live
  {
    assert s.PathOk(s.queue[0]);
  }

  /** A walk that ends at an unremembered anchor has not met it before, unless it is the
      target's own one-certificate chain. */
  lemma AnchorIsNew(s: Search)
    requires s.Inv() && |s.queue| > 0
    requires s.g.Anchored(s.queue[0].at) && !s.FallbackSet(s.queue[0].at)
    ensures s.PathOk(s.queue[0]) && s.g.Longest(Last(s.queue[0].path))
    ensures var at, path := s.queue[0].at, s.queue[0].path;
            if Last(path).SelfSigned() then |path| == 1
            else forall i :: 0 <= i < |path| ==> path[i].subject != at
  {
    var at, path := s.queue[0].at, s.queue[0].path;
    assert !s.Settled(at);
    HeadIsBest(s);
    if at == s.target {
      var k :| 0 <= k < |s.queue| && s.queue[k].at == s.target && |s.queue[k].path| == 1;
      assert |path| == 1;
    }
    assert path[|path| - 1].subject in s.visited;
  }

  /** The chain a popped anchor closes is worth presenting, unless the own root was already
      remembered. */
  lemma ClosedChainPresentable(s: Search, chain: Chain)
    requires s.Inv() && |s.queue| > 0 && |s.queue[0].path| > 0
    requires s.g.Anchored(s.queue[0].at) && !s.FallbackSet(s.queue[0].at) && Closes(s, chain)
    ensures s.g.Presentable(s.target, chain) && Last(chain).subject == s.queue[0].at
  {
    AnchorIsNew(s);
    ClosedChain(s, chain);
  }

  lemma ClosedChain(s: Search, chain: Chain)
    requires |s.queue| > 0 && s.PathOk(s.queue[0]) && Closes(s, chain)
    requires s.g.Longest(Last(s.queue[0].path)) && s.g.Anchored(s.queue[0].at)
    requires var at, path := s.queue[0].at, s.queue[0].path;
             if Last(path).SelfSigned() then |path| == 1
             else forall i :: 0 <= i < |path| ==> path[i].subject != at
    ensures s.g.Presentable(s.target, chain) && Last(chain).subject == s.queue[0].at
  {
    hide Graph.Longest;
    var path := s.queue[0].path;
    if Last(path).SelfSigned() {
      assert chain == [path[0]];
    } else {
      assert chain == path + [Last(chain)];
      forall i | 0 <= i < |path| ensures chain[i] == path[i] && s.g.Longest(path[i]) {
      }
    }
  }

  /** A target nobody vouches for has no route. */
  lemma NothingToWalk(g: Graph, target: NodeId)
    requires forall c :: c in g.live ==> c.subject != target
    ensures g.Answers(target, None)
  {
    assert forall p :: !g.Walk(target, p);
  }

  /** Popping somebody else's anchor ends the walk with the right answer. */
  lemma AnchorEndsSearch(s: Search, chain: Chain)
    requires s.Inv() && |s.queue| > 0 && |s.queue[0].path| > 0
    requires s.g.Anchored(s.queue[0].at) && s.queue[0].at != s.g.own && Closes(s, chain)
    ensures s.g.Answers(s.target, Some(chain))
  {
    ClosedChainPresentable(s, chain);
  }

  /** Popping the own anchor remembers the first chain to it and goes on. */
  lemma OwnAnchorKeepsInv(s: Search, chain: Chain, s': Search)
    requires s.Inv() && |s.queue| > 0 && |s.queue[0].path| > 0
    requires s.g.Anchored(s.queue[0].at) && s.queue[0].at == s.g.own && Closes(s, chain)
    requires s' == Search(s.g, s.target, s.queue[1..], s.visited,
                          if s.fallback.None? then Some(chain) else s.fallback)
    ensures s'.Inv()
  {
    if s.fallback.None? {
      ClosedChainPresentable(s, chain);
    }
    DropHeadKeepsInv(s, s');
  }

  /** An empty queue: whatever leads to an external anchor would have been found. */
  lemma Exhausted(s: Search)
    requires s.Inv() && s.queue == []
    ensures s.g.Answers(s.target, s.fallback)
  {
    if s.g.HasExternalRoute(s.target) {
      var p: Chain :| s.g.ExternalRoute(s.target, p);
      assert Last(p) in s.g.live;
      SubjectsVisited(s, p, |p| - 1);
      assert false;
    }
    if s.fallback.None? && s.g.HasOwnRoute(s.target) {
      var p: Chain :| s.g.OwnRoute(s.target, p);
      assert Last(p) in s.g.live;
      SubjectsVisited(s, p, |p| - 1);
      assert false;
    }
  }

  lemma {:induction false} SubjectsVisited(s: Search, p: Chain, n: nat)
    requires s.Inv() && s.queue == []
    requires s.g.Walk(s.target, p) && n < |p|
    requires s.fallback.Some? && s.g.Anchored(s.g.own) ==> forall i :: 1 <= i < |p| ==> p[i].subject != s.g.own
    ensures p[n].subject in s.visited
  {
    if n > 0 {
      SubjectsVisited(s, p, n - 1);
      assert p[n - 1] in s.g.live && p[n - 1].issuer == p[n].subject;
    }
  }
}
