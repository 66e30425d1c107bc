/** The issuance graph: what it means for a chain to be right, apart from any search.

    A graph is the set of certificates worth walking at one moment, the trusted roots and
    the node's own id. An edge leads from a certificate's subject to its issuer. */
module Issuance {
  import opened Wrappers
  import opened Certificates

  type Chain = seq<Cert>

  function Last(p: Chain): Cert
    requires |p| > 0
  {
    p[|p| - 1]
  }

  predicate Linked(p: Chain) {
    forall i :: 0 <= i < |p| - 1 ==> p[i].issuer == p[i + 1].subject
  }

  predicate DistinctSubjects(p: Chain) {
    forall i, j :: 0 <= i < j < |p| ==> p[i].subject != p[j].subject
  }

  datatype Graph = Graph(live: set<Cert>, roots: set<NodeId>, own: NodeId) {

    /** A trusted root that can close a chain: its self-signed certificate is here. */
    ghost predicate Anchored(id: NodeId) {
      id in roots && exists c :: c in live && c.subject == id && c.SelfSigned()
    }

    ghost predicate Walk(target: NodeId, p: Chain) {
      |p| > 0 && p[0].subject == target && Linked(p) && forall i :: 0 <= i < |p| ==> p[i] in live
    }

    /** A walk from `target` to somebody else's anchor that does not pass through the own
        id while the own id is itself an anchor. */
    ghost predicate ExternalRoute(target: NodeId, p: Chain) {
      && Walk(target, p)
      && Last(p).issuer != own && Anchored(Last(p).issuer)
      && (Anchored(own) ==> forall i :: 1 <= i < |p| ==> p[i].subject != own)
    }

    ghost predicate OwnRoute(target: NodeId, p: Chain) {
      Walk(target, p) && Last(p).issuer == own && Anchored(own)
    }

    ghost predicate HasExternalRoute(target: NodeId) {
      exists p :: ExternalRoute(target, p)
    }

    ghost predicate HasOwnRoute(target: NodeId) {
      exists p :: OwnRoute(target, p)
    }

    /** What a peer accepts: unbroken links of live certificates up to a trusted root. */
    ghost predicate Accepts(p: Chain) {
      && |p| > 0 && Linked(p)
      && (forall i :: 0 <= i < |p| ==> p[i] in live)
      && Last(p).SelfSigned() && Last(p).subject in roots
    }

    ghost predicate Vouches(target: NodeId, p: Chain) {
      Accepts(p) && p[0].subject == target
    }

    /** No live certificate for the same subject from the same issuer lives longer. */
    ghost predicate Longest(c: Cert) {
      forall d :: d in live && d.subject == c.subject && d.issuer == c.issuer ==> c.Outlives(d)
    }

    /** A chain worth presenting for `target`. */
    ghost predicate Presentable(target: NodeId, p: Chain) {
      && Vouches(target, p) && DistinctSubjects(p)
      && (forall i :: 0 <= i < |p| ==> Longest(p[i]))
      && (Anchored(own) ==> forall i :: 1 <= i < |p| - 1 ==> p[i].subject != own)
    }

    /** The answer the store promises: an external anchor if there is a route to one, the
        own root if that is all there is, and nothing exactly when there is neither. */
    ghost predicate Answers(target: NodeId, answer: Option<Chain>) {
      match answer
      case None => !HasExternalRoute(target) && !HasOwnRoute(target)
      case Some(p) =>
        && Presentable(target, p)
        && (Last(p).subject == own ==> !HasExternalRoute(target))
    }
  }

  /** The route a presentable chain follows: everything but the closing certificate. */
  function RouteOf(p: Chain): Chain
    requires |p| > 0
  {
    if |p| == 1 then p else p[..|p| - 1]
  }

  lemma RouteOfPresentable(g: Graph, target: NodeId, p: Chain)
    requires g.Presentable(target, p)
    ensures Last(p).subject != g.own ==> g.ExternalRoute(target, RouteOf(p))
    ensures Last(p).subject == g.own ==> g.OwnRoute(target, RouteOf(p))
  {
    var root := Last(p);
    assert root in g.live;
    assert g.Anchored(root.subject);
    assert Last(RouteOf(p)).issuer == root.subject;
  }

  /** The three kinds of answer are exactly the three kinds of target. */
  lemma AnswerKinds(g: Graph, target: NodeId, answer: Option<Chain>)
    requires g.Answers(target, answer)
    ensures answer.Some? && Last(answer.value).subject != g.own <==> g.HasExternalRoute(target)
    ensures answer.Some? && Last(answer.value).subject == g.own
       <==> !g.HasExternalRoute(target) && g.HasOwnRoute(target)
    ensures answer.None? <==> !g.HasExternalRoute(target) && !g.HasOwnRoute(target)
  {
    if answer.Some? {
      RouteOfPresentable(g, target, answer.value);
    }
  }

  lemma AnswerLinks(g: Graph, target: NodeId, answer: Option<Chain>)
    requires g.Answers(target, answer)
    ensures answer.Some? ==> DistinctSubjects(answer.value) && forall c :: c in answer.value ==> c in g.live
  {
  }

  /** Losing certificates outside the answer leaves the answer right: time passing,
      a revocation or an eviction cannot make it stale as long as its own links live. */
  lemma AnswerSurvives(g: Graph, g': Graph, target: NodeId, answer: Option<Chain>)
    requires g'.live <= g.live && g'.roots == g.roots && g'.own == g.own
    requires g.Answers(target, answer)
    requires answer.Some? ==> forall c :: c in answer.value ==> c in g'.live
    ensures g'.Answers(target, answer)
  {
    match answer
    case Some(p) =>
      forall i | 0 <= i < |p| ensures g'.Longest(p[i]) && p[i] in g'.live {
        assert g.Longest(p[i]) && p[i] in p;
      }
      assert g'.Presentable(target, p);
      if Last(p).subject == g.own && g'.HasExternalRoute(target) {
        var q :| g'.ExternalRoute(target, q);
        assert Last(p) in g'.live && g'.Anchored(g.own);
        assert g.ExternalRoute(target, q);
        assert false;
      }
    case None =>
      if g'.HasOwnRoute(target) {
        var q :| g'.OwnRoute(target, q);
        assert g.OwnRoute(target, q);
        assert false;
      }
      if g'.HasExternalRoute(target) {
        var q: Chain :| g'.ExternalRoute(target, q);
        if i :| 1 <= i < |q| && q[i].subject == g.own && g.Anchored(g.own) {
          assert g.OwnRoute(target, q[..i]);
        } else {
          assert g.ExternalRoute(target, q);
        }
        assert false;
      }
  }

  /** From the own id a walk through the own id can be cut short, so any walk at all to an
      external anchor gives an external route. */
  lemma OwnWalkIsExternalRoute(g: Graph, p: Chain)
    requires g.Walk(g.own, p) && Last(p).issuer != g.own && g.Anchored(Last(p).issuer)
    ensures g.HasExternalRoute(g.own)
    decreases |p|
  {
    if i :| 1 <= i < |p| && p[i].subject == g.own {
      OwnWalkIsExternalRoute(g, p[i..]);
    } else {
      assert g.ExternalRoute(g.own, p);
    }
  }

  /** For the node's own id the preference is unconditional: the answer is external
      exactly when some chain from the own id to another root is acceptable at all. */
  lemma OwnAnswerPrefersExternal(g: Graph, answer: Option<Chain>)
    requires g.Answers(g.own, answer)
    ensures answer.Some? <==> exists p :: g.Vouches(g.own, p)
    ensures answer.Some? && Last(answer.value).subject != g.own
       <==> exists p :: g.Vouches(g.own, p) && Last(p).subject != g.own
  {
    AnswerKinds(g, g.own, answer);
    forall p | g.Vouches(g.own, p)
      ensures Last(p).subject != g.own ==> g.HasExternalRoute(g.own)
      ensures Last(p).subject == g.own ==> g.HasOwnRoute(g.own)
    {
      var root := Last(p);
      assert root in g.live && g.Anchored(root.subject);
      var q := RouteOf(p);
      assert Last(q).issuer == root.subject;
      assert g.Walk(g.own, q);
      if root.subject == g.own {
        assert g.OwnRoute(g.own, q);
      } else {
        OwnWalkIsExternalRoute(g, q);
      }
    }
  }

  /** For any other target the preference stops at the own id. With a live self-signed
      certificate of its own the node answers with its own anchor for a node it vouched
      for itself, although an acceptable chain to the external root exists. */
  lemma OwnIdHidesExternalRoot()
    ensures exists g: Graph, target, p: Chain ::
              && target != g.own
              && g.Vouches(target, p) && Last(p).subject != g.own
              && forall answer :: g.Answers(target, answer) ==>
                                    answer.Some? && Last(answer.value).subject == g.own
  {
    var own, root, member := KeyId(1), KeyId(2), KeyId(3);
    var vouched := Issue(3, 1);
    var mine := Issue(1, 1);
    var joined := Issue(1, 2);
    var anchor := Issue(2, 2);
    var g := Graph({vouched, mine, joined, anchor}, {own, root}, own);
    assert g.Vouches(member, [vouched, joined, anchor]);
    assert mine in g.live && g.Anchored(own);
    assert g.OwnRoute(member, [vouched]);
    forall p: Chain | g.Walk(member, p)
      ensures !g.ExternalRoute(member, p)
    {
      assert p[0] == vouched;
      if |p| > 1 {
        assert p[0].issuer == p[1].subject;
      }
    }
    forall answer | g.Answers(member, answer)
      ensures answer.Some? && Last(answer.value).subject == own
    {
      AnswerKinds(g, member, answer);
    }
  }

  /** A genuine certificate that never expires. */
  function Issue(subject: nat, issuer: nat): Cert {
    var body := CertBody(KeyId(subject), subject, KeyId(issuer), issuer, 0, 0);
    CertRecord(KeyId(subject), subject, KeyId(issuer), issuer, 0, 0, Signature(issuer, body, 0))
  }

  /** When the own id is no anchor, the external preference is exact for every target. */
  lemma PreferenceExactWithoutOwnAnchor(g: Graph, target: NodeId, answer: Option<Chain>)
    requires !g.Anchored(g.own)
    requires g.Answers(target, answer)
    ensures answer.Some? <==> exists p :: g.Vouches(target, p)
    ensures answer.Some? ==> Last(answer.value).subject != g.own
  {
    AnswerKinds(g, target, answer);
    if answer.Some? {
      RouteOfPresentable(g, target, answer.value);
    }
    forall p | g.Vouches(target, p)
      ensures g.HasExternalRoute(target)
    {
      assert Last(p) in g.live && g.Anchored(Last(p).subject);
      assert g.ExternalRoute(target, RouteOf(p));
    }
  }
}
