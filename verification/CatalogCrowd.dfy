/** How long the full catalogue remembers an app on runs, and when an old release of it is new
    again. (src/app_catalog.py:54-128) */
module CatalogCrowd {
  import opened Wrappers
  import opened Eviction
  import opened AppCatalog
  import opened Cycles

  /** The apps that came in or were updated after this one, as far as they are held. */
  function Newer(apps: seq<Release>, app: AppId): set<AppId>
    requires Holds(apps, app)
  {
    set k | Find(apps, app) < k < |apps| :: apps[k].app
  }

  /** The app another than `app` that one offer makes the node gossip on, if any. */
  function Passed(apps: seq<Release>, max: int, offer: Option<Release>, app: AppId): set<AppId> {
    if Offered(apps, max, offer).1 != Ignored && offer.value.app != app then {offer.value.app} else {}
  }

  /** The apps other than `app` that a run of offers makes the node gossip on. */
  function Others(apps: seq<Release>, max: int, offers: seq<Option<Release>>, app: AppId): set<AppId>
    decreases offers
  {
    if offers == [] then {}
    else Passed(apps, max, offers[0], app) + Others(Offered(apps, max, offers[0]).0, max, offers[1..], app)
  }

  // ------------------------------------------------------------------ one offer

  lemma {:induction false} CountFrom(apps: seq<Release>, author: Author, i: nat)
    requires i <= |apps| && forall k :: 0 <= k < i ==> apps[k].author != author
    ensures Count(apps, author) <= |apps| - i
  {
    if apps != [] {
      CountFrom(apps[1..], author, if i > 0 then i - 1 else 0);
    }
  }

  /** Whoever makes room, the entries from there on are at least a share. */
  lemma VictimIsOld(apps: seq<Release>, author: Author, max: int)
    requires max >= 1 && |apps| >= max
    ensures var v := Victim(apps, author, max); v < |apps| ==> |apps| - v >= Share(max)
  {
    hide Count;
    var v := Victim(apps, author, max);
    if Count(apps, author) >= Share(max) {
      CountFrom(apps, author, v);
    } else if v > 0 && v < |apps| {
      CountFrom(apps, apps[v].author, v);
    }
  }

  /** The table after an entry made place for, or was renewed by, `r`. */
  function Renewed(apps: seq<Release>, gone: nat, r: Release): seq<Release>
    requires gone <= |apps|
  {
    (if gone < |apps| then RemoveAt(apps, gone) else apps) + [r]
  }

  lemma NewerStays(apps: seq<Release>, gone: nat, r: Release, app: AppId)
    requires OnePerApp(apps) && gone <= |apps| && OnePerApp(Renewed(apps, gone, r))
    requires Holds(apps, app) && r.app != app && gone != Find(apps, app)
    ensures Holds(Renewed(apps, gone, r), app)
    ensures Newer(Renewed(apps, gone, r), app) <= Newer(apps, app) + {r.app}
  {
    hide Find, OnePerApp;
    var apps', p := Renewed(apps, gone, r), Find(apps, app);
    forall k | 0 <= k < |apps'| - 1 ensures apps'[k] == apps[if k < gone then k else k + 1] {
    }
    FindIs(apps', if p < gone then p else p - 1);
    var p' := Find(apps', app);
    forall a | a in Newer(apps', app) ensures a in Newer(apps, app) + {r.app} {
      var k :| p' < k < |apps'| && apps'[k].app == a;
      if k < |apps'| - 1 {
        assert apps[if k < gone then k else k + 1].app == a;
      }
    }
  }

  lemma NothingNewer(apps: seq<Release>, r: Release)
    requires OnePerApp(apps + [r])
    ensures Holds(apps + [r], r.app) && Newer(apps + [r], r.app) == {}
  {
    FindIs(apps + [r], |apps|);
  }

  lemma NewerSize(apps: seq<Release>, app: AppId)
    requires OnePerApp(apps) && Holds(apps, app)
    ensures |Newer(apps, app)| == |apps| - 1 - Find(apps, app)
    ensures forall a :: a in Newer(apps, app) ==> Holds(apps, a)
  {
    hide Find;
    var p := Find(apps, app);
    var ids := seq(|apps| - 1 - p, k requires 0 <= k < |apps| - 1 - p => apps[p + 1 + k].app);
    DistinctSize(ids);
    forall a | a in Newer(apps, app) ensures a in AsSet(ids) && Holds(apps, a) {
      var k :| p < k < |apps| && apps[k].app == a;
      assert ids[k - p - 1] == a;
      FindIs(apps, k);
    }
    forall a | a in AsSet(ids) ensures a in Newer(apps, app) {
      var k :| 0 <= k < |ids| && ids[k] == a;
      assert apps[p + 1 + k].app == a;
    }
    assert Newer(apps, app) == AsSet(ids);
  }

  /** An offer that keeps the app puts behind it only what is gossiped on; one that loses the
      app files another, and that one and those behind it are at least a share. */
  ghost predicate Crowds(apps: seq<Release>, max: int, offer: Option<Release>, app: AppId)
    requires Holds(apps, app)
  {
    var apps' := Offered(apps, max, offer).0;
    if Holds(apps', app) then Newer(apps', app) <= Newer(apps, app) + Passed(apps, max, offer, app)
    else |Newer(apps, app) + Passed(apps, max, offer, app)| >= Share(max)
  }

  lemma OfferCrowds(apps: seq<Release>, max: int, offer: Option<Release>, app: AppId)
    requires OnePerApp(apps) && |apps| <= max && max >= 1 && Holds(apps, app)
    ensures Crowds(apps, max, offer, app)
  {
    hide Find, Victim, Share, Newer, Count;
    var (apps', outcome) := Offered(apps, max, offer);
    OfferStep(apps, max, offer);
    if outcome != Ignored {
      var r := offer.value;
      var i := Find(apps, r.app);
      var gone := if i < |apps| then i else if |apps| < max then |apps| else Victim(apps, r.author, max);
      assert apps' == Renewed(apps, gone, r);
      if r.app == app {
        NothingNewer(apps'[..|apps'| - 1], r);
        assert apps' == apps'[..|apps'| - 1] + [r];
      } else if gone != Find(apps, app) {
        NewerStays(apps, gone, r, app);
      } else {
        LostToAShare(apps, max, r, app);
      }
    }
  }

  lemma LostToAShare(apps: seq<Release>, max: int, r: Release, app: AppId)
    requires OnePerApp(apps) && |apps| == max && max >= 1 && Holds(apps, app)
    requires Find(apps, r.app) == |apps| && Victim(apps, r.author, max) == Find(apps, app)
    ensures |Newer(apps, app) + {r.app}| >= Share(max)
  {
    hide Victim, Share, Newer;
    VictimIsOld(apps, r.author, max);
    NewerSize(apps, app);
  }

  // ------------------------------------------------------------------ runs

  /** An app is held until at least a share of other apps, all different, was gossiped on,
      counting those already behind it. */
  lemma {:induction false} HeldUntilCrowdedOut(apps: seq<Release>, max: int, offers: seq<Option<Release>>, app: AppId)
    requires OnePerApp(apps) && |apps| <= max && max >= 1 && Holds(apps, app)
    ensures HeldThroughout(apps, max, offers, app)
            || |Newer(apps, app) + Others(apps, max, offers, app)| >= Share(max)
    decreases offers
  {
    hide Newer, Share, Offered, Passed;
    if offers != [] {
      var next := Offered(apps, max, offers[0]).0;
      OfferCrowds(apps, max, offers[0], app);
      OfferKeepsTable(apps, max, offers[0]);
      var before, later := Newer(apps, app) + Passed(apps, max, offers[0], app), Others(next, max, offers[1..], app);
      assert before + later == Newer(apps, app) + Others(apps, max, offers, app);
      SubsetSize(before, before + later);
      if Holds(next, app) {
        HeldUntilCrowdedOut(next, max, offers[1..], app);
        SubsetSize(Newer(next, app) + later, before + later);
      }
    }
  }

  /** A release was just filed or put in place of an older one, and after these offers one no
      younger is gossiped on. */
  predicate NewTwice(apps: seq<Release>, max: int, offers: seq<Option<Release>>, r: Release, again: Release) {
    && OnePerApp(apps) && apps != [] && |apps| <= max && apps[|apps| - 1] == r
    && again.app == r.app && again.ts <= r.ts
    && Offered(Run(apps, max, offers), max, Some(again)).1 != Ignored
  }

  lemma TwiceNeedsACrowd(apps: seq<Release>, max: int, offers: seq<Option<Release>>, r: Release, again: Release)
    requires NewTwice(apps, max, offers, r, again)
    ensures |Others(apps, max, offers, r.app)| >= Share(max)
  {
    hide Share, Others, Find, Victim, Newer;
    var front := apps[..|apps| - 1];
    assert apps == front + [r];
    NothingNewer(front, r);
    FindIs(apps, |front|);
    HeldUntilCrowdedOut(apps, max, offers, r.app);
    assert {} + Others(apps, max, offers, r.app) == Others(apps, max, offers, r.app);
    if HeldThroughout(apps, max, offers, r.app) {
      EpidemicsDieOut(apps, max, offers, r.app);
    }
  }

  // ------------------------------------------------------------------ what a crowd can do

  const QUIET := 0
  const BUSY := 1

  /** The apps the busy author has, in the order of the cycle, and those of the quiet one,
      which take the numbers from `base` on. */
  function Releases(apps: seq<AppId>, author: Author): (r: seq<Release>)
    ensures |r| == |apps| && forall i :: 0 <= i < |r| ==> r[i] == Release(apps[i], author, 1, 0)
  {
    seq(|apps|, i requires 0 <= i < |apps| => Release(apps[i], author, 1, 0))
  }

  function Upwards(base: AppId, n: nat): (r: seq<AppId>)
    ensures |r| == n && forall i :: 0 <= i < n ==> r[i] == base + i
  {
    seq(n, i requires 0 <= i < n => base + i)
  }

  /** A full catalogue: the quiet author's apps, and the last of the cycle for the busy one, as
      many as its share. */
  function Table(cycle: seq<AppId>, base: AppId, max: nat): seq<Release>
    requires max >= 1 && |cycle| >= Share(max)
  {
    Releases(Upwards(base, max - Share(max)), QUIET) + Releases(cycle[|cycle| - Share(max)..], BUSY)
  }

  predicate Below(cycle: seq<AppId>, base: AppId) {
    forall a :: a in cycle ==> a < base
  }

  lemma ShareWithin(max: nat)
    requires max >= 1
    ensures Share(max) <= max
  {
  }

  lemma TableOk(cycle: seq<AppId>, base: AppId, max: nat)
    requires max >= 1 && |cycle| > Share(max) && Distinct(cycle) && Below(cycle, base)
    ensures var apps := Table(cycle, base, max);
            OnePerApp(apps) && |apps| == max && Find(apps, cycle[0]) == max
            && apps[max - 1] == Release(cycle[|cycle| - 1], BUSY, 1, 0)
  {
    hide Share;
    var n, apps := max - Share(max), Table(cycle, base, max);
    forall i | 0 <= i < max
      ensures apps[i].app == if i < n then base + i else cycle[|cycle| - Share(max) + i - n]
    {
    }
    assert cycle[0] in cycle;
    forall i | 0 <= i < max
      ensures apps[i].app != cycle[0] && (i < n <==> apps[i].app >= base)
    {
      if i >= n {
        assert apps[i].app in cycle;
      }
    }
  }

  lemma {:induction false} CountInTail(apps: seq<Release>, author: Author, n: nat)
    requires n <= |apps|
    requires forall k :: 0 <= k < |apps| ==> (apps[k].author == author <==> k >= n)
    ensures Count(apps, author) == |apps| - n
    ensures n < |apps| ==> FirstBy(apps, author) == n
  {
    if apps != [] {
      CountInTail(apps[1..], author, if n > 0 then n - 1 else 0);
    }
  }

  /** The busy author pays for its own newcomer with the oldest of its apps. */
  lemma OneTurn(cycle: seq<AppId>, base: AppId, max: nat)
    requires max >= 1 && |cycle| > Share(max) && Distinct(cycle) && Below(cycle, base)
    ensures Offered(Table(cycle, base, max), max, Some(Release(cycle[0], BUSY, 1, 0)))
         == (Table(Rotate(cycle), base, max), New)
  {
    hide Find, Share, Count, FirstBy;
    ShareWithin(max);
    var n, apps := max - Share(max), Table(cycle, base, max);
    TableOk(cycle, base, max);
    CountInTail(apps, BUSY, n);
    NextTable(cycle, base, max);
  }

  lemma NextTable(cycle: seq<AppId>, base: AppId, max: nat)
    requires max >= 1 && |cycle| > Share(max)
    ensures Share(max) <= max
    ensures RemoveAt(Table(cycle, base, max), max - Share(max)) + [Release(cycle[0], BUSY, 1, 0)]
         == Table(Rotate(cycle), base, max)
  {
    hide Share;
    ShareWithin(max);
    var m := |cycle| - Share(max);
    assert Rotate(cycle)[m..] == cycle[m..][1..] + [cycle[0]];
  }

  /** The next `n` of the cycle, offered in turn. */
  function Round(cycle: seq<AppId>, n: nat): seq<Option<Release>>
    requires cycle != []
    decreases n
  {
    if n == 0 then [] else [Some(Release(cycle[0], BUSY, 1, 0))] + Round(Rotate(cycle), n - 1)
  }

  /** What so many offers do: the table turns with the cycle, and all of them are gossiped on. */
  lemma {:induction false} RoundTurns(cycle: seq<AppId>, base: AppId, max: nat, n: nat, app: AppId)
    requires max >= 1 && |cycle| > Share(max) && Distinct(cycle) && Below(cycle, base)
    requires n <= |cycle| && app !in cycle[..n]
    ensures Run(Table(cycle, base, max), max, Round(cycle, n)) == Table(cycle[n..] + cycle[..n], base, max)
    ensures Others(Table(cycle, base, max), max, Round(cycle, n), app) == AsSet(cycle[..n])
    decreases n
  {
    hide Share, Table, Below, Offered;
    if n == 0 {
      assert cycle[0..] + cycle[..0] == cycle;
    } else {
      var next := Rotate(cycle);
      RotateKeeps(cycle);
      RotateBelow(cycle, base);
      OneTurn(cycle, base, max);
      assert next[..n - 1] == cycle[1..n] && next[n - 1..] + next[..n - 1] == cycle[n..] + cycle[..n];
      assert cycle[..n] == [cycle[0]] + cycle[1..n];
      RoundTurns(next, base, max, n - 1, app);
      OneMorePassed(cycle, base, max, n, app);
    }
  }

  lemma RotateBelow(cycle: seq<AppId>, base: AppId)
    requires Below(cycle, base)
    ensures Below(Rotate(cycle), base)
  {
    forall a | a in Rotate(cycle) ensures a in cycle {
    }
  }

  lemma OneMorePassed(cycle: seq<AppId>, base: AppId, max: nat, n: nat, app: AppId)
    requires max >= 1 && |cycle| > Share(max) && 1 <= n <= |cycle| && app !in cycle[..n]
    requires Offered(Table(cycle, base, max), max, Some(Release(cycle[0], BUSY, 1, 0)))
          == (Table(Rotate(cycle), base, max), New)
    requires Others(Table(Rotate(cycle), base, max), max, Round(Rotate(cycle), n - 1), app) == AsSet(cycle[1..n])
    ensures Others(Table(cycle, base, max), max, Round(cycle, n), app) == AsSet(cycle[..n])
  {
    hide Share, Table, Offered;
    var offers := Round(cycle, n);
    assert offers[0] == Some(Release(cycle[0], BUSY, 1, 0)) && offers[1..] == Round(Rotate(cycle), n - 1);
    assert cycle[..n] == [cycle[0]] + cycle[1..n] && cycle[0] in cycle[..n];
    assert AsSet(cycle[..n]) == {cycle[0]} + AsSet(cycle[1..n]);
  }

  lemma TwiceWithACrowd(max: nat, others: nat)
    returns (apps: seq<Release>, offers: seq<Option<Release>>, r: Release)
    requires max >= 1 && others >= Share(max)
    ensures NewTwice(apps, max, offers, r, r) && |Others(apps, max, offers, r.app)| == others
  {
    hide Share, Table, Offered, Others, Run, Round;
    var cycle: seq<AppId> := Upwards(0, others + 1);
    apps, offers, r := Table(cycle, others + 1, max), Round(cycle, others), Release(others, BUSY, 1, 0);
    TableOk(cycle, others + 1, max);
    RoundTurns(cycle, others + 1, max, others, others);
    var turned := cycle[others..] + cycle[..others];
    TurnedAround(cycle, others);
    OneTurn(turned, others + 1, max);
    DistinctSize(cycle[..others]);
  }

  lemma TurnedAround(cycle: seq<AppId>, n: nat)
    requires cycle == Upwards(0, n + 1)
    ensures var turned := cycle[n..] + cycle[..n];
            |turned| == n + 1 && turned[0] == n && Distinct(turned) && Below(turned, n + 1)
  {
  }

  /** A release was gossiped on, and one of the app no younger is again, with `others` more
      apps gossiped on in between. */
  predicate TwiceWith(max: int, others: nat, apps: seq<Release>, offers: seq<Option<Release>>, r: Release,
                      again: Release) {
    NewTwice(apps, max, offers, r, again) && |Others(apps, max, offers, r.app)| == others
  }

  /** An old release can be gossiped on again with so many other apps gossiped on in between
      exactly when they are at least one author's share. */
  lemma NewTwiceExactly(max: nat, others: nat)
    requires max >= 1
    ensures others >= Share(max) <==> exists apps, offers, r, again :: TwiceWith(max, others, apps, offers, r, again)
  {
    hide Share, NewTwice, Others;
    if others >= Share(max) {
      var apps, offers, r := TwiceWithACrowd(max, others);
      assert TwiceWith(max, others, apps, offers, r, r);
    }
    forall apps, offers, r, again | TwiceWith(max, others, apps, offers, r, again) ensures others >= Share(max) {
      TwiceNeedsACrowd(apps, max, offers, r, again);
    }
  }
}
