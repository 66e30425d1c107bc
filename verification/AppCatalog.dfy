/** The shared catalogue of published apps: newest release per app, bounded, with a share
    of the table guaranteed to each of a number of authors. (src/app_catalog.py:40-128) */
module AppCatalog {
  import opened Wrappers
  import opened Eviction
  import opened Lookup

  const MIN_AUTHORS := 16

  type AppId = nat
  type Author = nat

  /** A release that parsed and whose signature verified. */
  datatype Release = Release(app: AppId, author: Author, ts: nat, body: nat)

  datatype Outcome = Ignored | New | Updated

  // ------------------------------------------------------------------ the table, oldest first

  function Find(apps: seq<Release>, app: AppId): (i: nat)
    ensures i <= |apps| && (i < |apps| ==> apps[i].app == app)
    ensures forall k :: 0 <= k < i ==> apps[k].app != app
  {
    FindBy(apps, (r: Release) => r.app, app)
  }

  predicate Holds(apps: seq<Release>, app: AppId) {
    Find(apps, app) < |apps|
  }

  function TsOf(apps: seq<Release>, app: AppId): nat
    requires Holds(apps, app)
  {
    apps[Find(apps, app)].ts
  }

  predicate OnePerApp(apps: seq<Release>) {
    forall i, j :: 0 <= i < j < |apps| ==> apps[i].app != apps[j].app
  }

  function Count(apps: seq<Release>, author: Author): nat {
    if apps == [] then 0 else (if apps[0].author == author then 1 else 0) + Count(apps[1..], author)
  }

  /** Up to this many entries an author's newcomers may push out other authors' old ones. */
  function Share(max: int): (s: nat)
    ensures s >= 1
  {
    if max / MIN_AUTHORS > 1 then max / MIN_AUTHORS else 1
  }

  /** The share is the greatest that so many authors can be given alike, and never nothing. */
  lemma ShareExactly(max: nat, s: nat)
    ensures s <= Share(max) <==> s <= 1 || s * MIN_AUTHORS <= max
  {
  }

  function FirstBy(apps: seq<Release>, author: Author): (i: nat)
    ensures i <= |apps| && (i < |apps| ==> apps[i].author == author)
    ensures forall k :: 0 <= k < i ==> apps[k].author != author
  {
    FindBy(apps, (r: Release) => r.author, author)
  }

  /** The oldest entry of `apps` whose author holds more than the share of `all`. */
  function FirstOver(apps: seq<Release>, all: seq<Release>, share: nat): (i: nat)
    ensures i <= |apps| && (i < |apps| ==> Count(all, apps[i].author) > share)
    ensures forall k :: 0 <= k < i ==> Count(all, apps[k].author) <= share
  {
    if apps == [] || Count(all, apps[0].author) > share then 0 else 1 + FirstOver(apps[1..], all, share)
  }

  /** Who makes room for a newcomer by `author`: an author at its share pays itself, else
      whoever is over theirs, else the oldest. The length means nobody can. */
  function Victim(apps: seq<Release>, author: Author, max: int): (i: nat)
    ensures i <= |apps|
  {
    if Count(apps, author) >= Share(max) then FirstBy(apps, author)
    else
      var over := FirstOver(apps, apps, Share(max));
      if over < |apps| then over else 0
  }

  function Offered(apps: seq<Release>, max: int, offer: Option<Release>): (seq<Release>, Outcome) {
    if offer.None? then (apps, Ignored)
    else
      var r := offer.value;
      var i := Find(apps, r.app);
      if i < |apps| then
        if r.ts <= apps[i].ts then (apps, Ignored) else (RemoveAt(apps, i) + [r], Updated)
      else if |apps| < max then (apps + [r], New)
      else
        var v := Victim(apps, r.author, max);
        if v == |apps| then (apps, Ignored) else (RemoveAt(apps, v) + [r], New)
  }

  class Catalog {
    const max: int
    var apps: seq<Release>

    ghost predicate Valid()
      reads this
    {
      OnePerApp(apps) && |apps| <= if max > 0 then max else 0
    }

    constructor (max: int)
      ensures Valid() && apps == [] && this.max == max
    {
      this.max, apps := max, [];
    }

    /** Consider a release; anything but `Ignored` is to be gossiped on. */
    method Offer(offer: Option<Release>) returns (outcome: Outcome)
      requires Valid()
      modifies this
      ensures Valid() && (apps, outcome) == Offered(old(apps), max, offer)
    {
      hide Find, Victim;
      OfferKeepsTable(apps, max, offer);
      if offer.None? {
        return Ignored;
      }
      var r := offer.value;
      var i := Find(apps, r.app);
      if i < |apps| {
        if r.ts <= apps[i].ts {
          return Ignored;
        }
        outcome := Updated;
        apps := apps[i := r];
        Touch(i);
        return;
      }
      if |apps| >= max {
        var room := MakeRoom(r.author);
        if !room {
          return Ignored;
        }
      }
      apps := apps + [r];
      return New;
    }

    /** Make an entry the last one that age alone would evict. */
    method Touch(i: nat)
      requires i < |apps|
      modifies this
      ensures apps == RemoveAt(old(apps), i) + [old(apps)[i]]
    {
      var entry := apps[i];
      apps := RemoveAt(apps, i) + [entry];
    }

    /** At the cost of the entry `Victim` names, if it names one. */
    method MakeRoom(author: Author) returns (room: bool)
      modifies this
      ensures var v := Victim(old(apps), author, max);
              if v < |old(apps)| then room && apps == RemoveAt(old(apps), v) else !room && apps == old(apps)
    {
      var counts: map<Author, nat> := map[];
      for i := 0 to |apps|
        invariant apps == old(apps)
        invariant forall a :: (if a in counts then counts[a] else 0) == Count(apps[..i], a)
      {
        CountStep(apps, i);
        var a := apps[i].author;
        counts := counts[a := (if a in counts then counts[a] else 0) + 1];
      }
      assert apps[..|apps|] == apps;
      var mine := if author in counts then counts[author] else 0;
      var v := 0;
      if mine >= Share(max) {
        v := FirstBy(apps, author);
      } else {
        v := FirstOverIn(counts);
        if v == |apps| {
          v := 0;
        }
      }
      if v == |apps| {
        return false;
      }
      apps := RemoveAt(apps, v);
      return true;
    }

    method FirstOverIn(counts: map<Author, nat>) returns (v: nat)
      requires forall a :: (if a in counts then counts[a] else 0) == Count(apps, a)
      ensures v == FirstOver(apps, apps, Share(max))
    {
      v := 0;
      while v < |apps| && (if apps[v].author in counts then counts[apps[v].author] else 0) <= Share(max)
        invariant v <= |apps|
        invariant forall k :: 0 <= k < v ==> Count(apps, apps[k].author) <= Share(max)
      {
        v := v + 1;
      }
      assert v < |apps| ==> Count(apps, apps[v].author) > Share(max);
    }
  }

  lemma {:induction false} CountConcat(a: seq<Release>, b: seq<Release>, author: Author)
    ensures Count(a + b, author) == Count(a, author) + Count(b, author)
  {
    if a == [] {
      assert a + b == b;
    } else {
      assert (a + b)[1..] == a[1..] + b;
      CountConcat(a[1..], b, author);
    }
  }

  lemma CountStep(apps: seq<Release>, i: nat)
    requires i < |apps|
    ensures forall a :: Count(apps[..i + 1], a) == Count(apps[..i], a) + if apps[i].author == a then 1 else 0
  {
    forall a ensures Count(apps[..i + 1], a) == Count(apps[..i], a) + if apps[i].author == a then 1 else 0 {
      assert apps[..i + 1] == apps[..i] + [apps[i]];
      CountConcat(apps[..i], [apps[i]], a);
      assert [apps[i]][1..] == [];
    }
  }

  // ------------------------------------------------------------------ fairness

  function Authors(apps: seq<Release>): set<Author> {
    set r | r in apps :: r.author
  }

  function NotBy(apps: seq<Release>, author: Author): seq<Release> {
    if apps == [] then []
    else if apps[0].author == author then NotBy(apps[1..], author) else [apps[0]] + NotBy(apps[1..], author)
  }

  lemma {:induction false} SplitByAuthor(apps: seq<Release>, author: Author)
    ensures |apps| == Count(apps, author) + |NotBy(apps, author)|
    ensures forall r :: r in NotBy(apps, author) ==> r in apps && r.author != author
    ensures forall a :: a != author ==> Count(NotBy(apps, author), a) == Count(apps, a)
  {
    if apps != [] {
      SplitByAuthor(apps[1..], author);
    }
  }

  /** Pigeonhole: with each author inside the share, the table is no bigger than the
      authors' shares together. */
  lemma {:induction false} TableWithinShares(apps: seq<Release>, authors: set<Author>, share: nat)
    requires forall r :: r in apps ==> r.author in authors
    requires forall a :: a in authors ==> Count(apps, a) <= share
    ensures |apps| <= share * |authors|
    decreases authors
  {
    hide Count, NotBy;
    if authors == {} {
      FirstIsIn(apps);
    } else {
      var a :| a in authors;
      SplitByAuthor(apps, a);
      TableWithinShares(NotBy(apps, a), authors - {a}, share);
      OneMore(share, |authors - {a}|, |authors|);
    }
  }

  lemma FirstIsIn(apps: seq<Release>)
    ensures apps == [] || apps[0] in apps
  {
  }

  lemma OneMore(share: nat, n: nat, m: nat)
    requires m == n + 1
    ensures share * m == share * n + share
  {
  }

  /** With no more authors than the catalogue guarantees room for, the newcomer's included,
      filing an app never evicts an entry of another author who is inside the share. */
  lemma FilingIsFair(apps: seq<Release>, author: Author, max: int)
    requires max >= MIN_AUTHORS && |apps| >= max
    requires |Authors(apps) + {author}| <= MIN_AUTHORS
    ensures var v := Victim(apps, author, max);
            v < |apps| && (apps[v].author == author || Count(apps, apps[v].author) > Share(max))
  {
    var share := Share(max);
    if Count(apps, author) >= share {
      HasOne(apps, author);
    } else if FirstOver(apps, apps, share) == |apps| {
      InsideNotFull(apps, author, max);
      assert false;
    }
  }

  /** Everyone inside the share, the newcomer strictly: the table is not full. */
  lemma InsideNotFull(apps: seq<Release>, author: Author, max: int)
    requires max >= MIN_AUTHORS && |Authors(apps) + {author}| <= MIN_AUTHORS
    requires Count(apps, author) < Share(max) && FirstOver(apps, apps, Share(max)) == |apps|
    ensures |apps| < max
  {
    hide Count, NotBy, FirstOver, Share;
    var share, all := Share(max), Authors(apps) + {author};
    EveryoneInside(apps, author, share);
    SplitByAuthor(apps, author);
    ShareFits(max);
    TableWithinShares(NotBy(apps, author), all - {author}, share);
    MulMonotone(share, |all - {author}|, MIN_AUTHORS - 1);
  }

  lemma EveryoneInside(apps: seq<Release>, author: Author, share: nat)
    requires Count(apps, author) <= share && FirstOver(apps, apps, share) == |apps|
    ensures forall a :: a in Authors(apps) + {author} ==> Count(apps, a) <= share
  {
  }

  lemma ShareFits(max: int)
    requires max >= MIN_AUTHORS
    ensures Share(max) * MIN_AUTHORS <= max
  {
  }

  lemma MulMonotone(x: nat, a: nat, b: nat)
    requires a <= b
    ensures x * a <= x * b
  {
  }

  lemma {:induction false} HasOne(apps: seq<Release>, author: Author)
    requires Count(apps, author) >= 1
    ensures FirstBy(apps, author) < |apps|
  {
    if apps[0].author != author {
      HasOne(apps[1..], author);
    }
  }

  /** No author holds more than the share. */
  predicate AllInside(apps: seq<Release>, share: nat) {
    forall r :: r in apps ==> Count(apps, r.author) <= share
  }

  /** In general an author inside its share loses an entry to somebody else exactly when
      nobody is over theirs, the newcomer is under its own, and that author's entry is the
      oldest of all. */
  lemma UnfairExactly(apps: seq<Release>, author: Author, max: int)
    requires apps != []
    ensures var v := Victim(apps, author, max);
            (v < |apps| && apps[v].author != author && Count(apps, apps[v].author) <= Share(max))
            <==> (AllInside(apps, Share(max)) && Count(apps, author) < Share(max) && apps[0].author != author)
  {
  }

  // ------------------------------------------------------------------ runs

  lemma FindIs(apps: seq<Release>, i: nat)
    requires OnePerApp(apps) && i < |apps|
    ensures Find(apps, apps[i].app) == i
  {
  }

  /** One offer: one entry per app still, a held app's time never goes back, it moves
      exactly when that app is gossiped on, and what was filed is held. A held app is updated
      exactly by a younger release, and any other app is filed while there is room. */
  lemma OfferStep(apps: seq<Release>, max: int, offer: Option<Release>)
    requires OnePerApp(apps)
    ensures var (apps', outcome) := Offered(apps, max, offer);
            && OnePerApp(apps')
            && (forall app :: Holds(apps, app) && Holds(apps', app) ==>
                  if outcome == Updated && offer.value.app == app then TsOf(apps', app) > TsOf(apps, app)
                  else TsOf(apps', app) == TsOf(apps, app))
            && (outcome != Ignored ==> Holds(apps', offer.value.app) && TsOf(apps', offer.value.app) == offer.value.ts)
            && (outcome == Ignored ==> apps' == apps)
            && (outcome == Updated <==>
                  offer.Some? && Holds(apps, offer.value.app) && offer.value.ts > TsOf(apps, offer.value.app))
            && (outcome == New ==> !Holds(apps, offer.value.app))
            && (offer.Some? && !Holds(apps, offer.value.app) && |apps| < max ==>
                  outcome == New && apps' == apps + [offer.value])
  {
    hide Victim, Count;
    var (apps', outcome) := Offered(apps, max, offer);
    if outcome != Ignored {
      var r := offer.value;
      var i := Find(apps, r.app);
      var gone := if i < |apps| then i else if |apps| < max then |apps| else Victim(apps, r.author, max);
      Replaced(apps, gone, r, apps');
      FindIs(apps', |apps'| - 1);
    }
  }

  lemma OfferKeepsTable(apps: seq<Release>, max: int, offer: Option<Release>)
    requires OnePerApp(apps) && |apps| <= if max > 0 then max else 0
    ensures OnePerApp(Offered(apps, max, offer).0)
    ensures |Offered(apps, max, offer).0| <= if max > 0 then max else 0
  {
    hide Find, Victim;
    OfferStep(apps, max, offer);
  }

  lemma Replaced(apps: seq<Release>, gone: nat, r: Release, apps': seq<Release>)
    requires OnePerApp(apps) && gone <= |apps|
    requires apps' == (if gone < |apps| then RemoveAt(apps, gone) else apps) + [r]
    requires forall k :: 0 <= k < |apps| && k != gone ==> apps[k].app != r.app
    ensures OnePerApp(apps')
    ensures forall app :: app != r.app && Holds(apps, app) && Holds(apps', app) ==> TsOf(apps', app) == TsOf(apps, app)
  {
    hide Find;
    forall k | 0 <= k < |apps'| - 1 ensures apps'[k] == apps[if k < gone then k else k + 1] {
    }
    forall app | app != r.app && Holds(apps, app) && Holds(apps', app)
      ensures TsOf(apps', app) == TsOf(apps, app)
    {
      var j := Find(apps', app);
      FindIs(apps, if j < gone then j else j + 1);
    }
  }

  /** The table after a run of offers. */
  function Run(apps: seq<Release>, max: int, offers: seq<Option<Release>>): seq<Release>
    decreases offers
  {
    if offers == [] then apps else Run(Offered(apps, max, offers[0]).0, max, offers[1..])
  }

  /** Held after every offer of the run. */
  predicate HeldThroughout(apps: seq<Release>, max: int, offers: seq<Option<Release>>, app: AppId)
    decreases offers
  {
    Holds(apps, app) && (offers != [] ==> HeldThroughout(Offered(apps, max, offers[0]).0, max, offers[1..], app))
  }

  /** How often the run gossiped on a release of `app`. */
  function Gossiped(apps: seq<Release>, max: int, offers: seq<Option<Release>>, app: AppId): nat
    decreases offers
  {
    if offers == [] then 0
    else
      var (apps', outcome) := Offered(apps, max, offers[0]);
      (if outcome == Updated && offers[0].value.app == app then 1 else 0) + Gossiped(apps', max, offers[1..], app)
  }

  /** While an app is held its time rises by at least one with every release of it that is
      gossiped on, so nobody can make a node repeat itself or go back. */
  lemma {:induction false} EpidemicsDieOut(apps: seq<Release>, max: int, offers: seq<Option<Release>>, app: AppId)
    requires OnePerApp(apps) && HeldThroughout(apps, max, offers, app)
    ensures Holds(Run(apps, max, offers), app)
    ensures TsOf(Run(apps, max, offers), app) >= TsOf(apps, app) + Gossiped(apps, max, offers, app)
    decreases offers
  {
    if offers != [] {
      OfferStep(apps, max, offers[0]);
      EpidemicsDieOut(Offered(apps, max, offers[0]).0, max, offers[1..], app);
    }
  }
}
