/** What a rollback keeps however often it is cut short. (src/boot_guard.py:191-227) */
module BootRuns {
  import opened Wrappers
  import opened BootGuard

  function Rank(n: Name): nat {
    match n
    case Src => 0 case Scripts => 1 case StartSh => 2 case InstallSh => 3 case Requirements => 4
    case Pyproject => 5 case Docs => 6 case Docker => 7 case ReadMe => 8 case Agents => 9
    case Claude => 10 case License => 11
  }

  predicate Sorted(names: seq<Name>) {
    forall i, j :: 0 <= i < j < |names| ==> Rank(names[i]) < Rank(names[j])
  }

  lemma EntriesSorted()
    ensures Sorted(ENTRIES) && forall n: Name :: n in ENTRIES
  {
    forall n: Name ensures n in ENTRIES {
      assert ENTRIES[Rank(n)] == n;
    }
  }

  lemma {:induction false} KeptMeaning(names: seq<Name>, backup: Dir)
    requires Sorted(names)
    ensures Sorted(KeptOf(names, backup))
    ensures forall n :: n in KeptOf(names, backup) <==> n in names && n in backup
  {
    hide Rank;
    if names != [] {
      KeptMeaning(names[1..], backup);
      var rest := KeptOf(names[1..], backup);
      forall i | 0 <= i < |rest| ensures Rank(names[0]) < Rank(rest[i]) {
        assert rest[i] in rest && rest[i] in names[1..];
      }
    }
  }

  lemma {:induction false} ExtraMeaning(names: seq<Name>, backup: Dir)
    ensures forall n :: n in ExtraOf(names, backup) <==> n in names && n !in backup
  {
    if names != [] {
      ExtraMeaning(names[1..], backup);
    }
  }

  /** Nothing of the old tree is lost: every entry is still in the backup or back in place. */
  ghost predicate Safe(oldTree: Dir, d: Disk) {
    && (forall n :: n in d.backup ==> n in oldTree)
    && forall n :: n in oldTree ==>
         if n in d.backup then d.backup[n] == oldTree[n] else n in d.root && d.root[n] == oldTree[n]
  }

  /** What went back went back in the order of the list. */
  ghost predicate InOrder(oldTree: Dir, d: Disk) {
    forall m, n :: m in oldTree && n in oldTree && m !in d.backup && n in d.backup ==> Rank(m) < Rank(n)
  }

  /** What every run keeps, whatever ends the trial. */
  ghost predicate Kept(oldTree: Dir, added: seq<Name>, d: Disk) {
    Safe(oldTree, d) && InOrder(oldTree, d) && (d.trial.Some? ==> d.trial.value.added == added)
  }

  /** The whole of the old tree is back in place. */
  ghost predicate OldBack(oldTree: Dir, d: Disk) {
    forall n :: n in oldTree ==> n in d.root && d.root[n] == oldTree[n]
  }

  /** And what a rollback keeps besides: when it ends the trial, nothing is left to put
      back. */
  ghost predicate Inv(oldTree: Dir, added: seq<Name>, d: Disk) {
    Kept(oldTree, added, d) && (d.trial.None? ==> d.backup == map[])
  }

  /** What the new tree is said to have added is no part of the old one, except possibly the
      last entry that was kept. */
  ghost predicate NoClash(oldTree: Dir, added: seq<Name>) {
    forall a, n :: a in added && a in oldTree && n in oldTree ==> Rank(n) <= Rank(a)
  }

  lemma CutConcat(a: seq<Op>, b: seq<Op>, k: nat)
    ensures Cut(a + b, k) == if k <= |a| then Cut(a, k) else a + Cut(b, k - |a|)
  {
  }

  lemma CutWhole(ops: seq<Op>, k: nat)
    requires k >= |ops|
    ensures Cut(ops, k) == ops
  {
  }

  lemma Exec1(d: Disk, a: Op)
    ensures Exec(d, [a]) == Apply(d, a)
  {
    assert [a][1..] == [];
  }

  lemma Exec2(d: Disk, a: Op, b: Op)
    ensures Exec(d, [a, b]) == Apply(Apply(d, a), b)
  {
    assert [a, b][1..] == [b];
    Exec1(Apply(d, a), b);
  }

  lemma Exec3(d: Disk, a: Op, b: Op, c: Op)
    ensures Exec(d, [a, b, c]) == Apply(Apply(Apply(d, a), b), c)
  {
    assert [a, b, c][1..] == [b, c];
    Exec2(Apply(d, a), b, c);
  }

  lemma TwoOps(d: Disk, a: Op, b: Op, k: nat)
    ensures Exec(d, Cut([a, b], k)) == if k == 0 then d else if k == 1 then Apply(d, a) else Apply(Apply(d, a), b)
  {
    Exec1(d, a);
    Exec2(d, a, b);
    assert [a, b][..1] == [a] && [a, b][..0] == [];
  }

  /** One kept entry's three operations: the entry is in the backup until it is in place. */
  lemma ThreeOps(d: Disk, n: Name, k: nat)
    requires n in d.backup
    ensures var e := Exec(d, Cut([Discard(n), SetAside(n), Restore(n)], k));
            && e.trial == d.trial
            && (forall m :: m != n && m in d.root ==> m in e.root && e.root[m] == d.root[m])
            && (forall m :: m != n ==> (m in e.root <==> m in d.root))
            && (k < 3 ==> e.backup == d.backup)
            && (k >= 3 ==> e.backup == d.backup - {n} && n in e.root && e.root[n] == d.backup[n])
  {
    var a, b, c := Discard(n), SetAside(n), Restore(n);
    Exec1(d, a);
    Exec2(d, a, b);
    Exec3(d, a, b, c);
    assert [a, b, c][..2] == [a, b] && [a, b, c][..1] == [a] && [a, b, c][..0] == [];
  }

  lemma OneKept(oldTree: Dir, d: Disk, n: Name, k: nat)
    requires Safe(oldTree, d) && InOrder(oldTree, d) && n in d.backup
    requires forall m :: m in d.backup && m != n ==> Rank(n) < Rank(m)
    ensures var e := Exec(d, Cut([Discard(n), SetAside(n), Restore(n)], k));
            && Safe(oldTree, e) && InOrder(oldTree, e) && e.trial == d.trial
            && (k >= 3 ==> e.backup == d.backup - {n})
  {
    hide Rank;
    ThreeOps(d, n, k);
  }

  lemma KeptHead(names: seq<Name>)
    requires names != []
    ensures var n := names[0];
            KeptOps(names) == [Discard(n), SetAside(n), Restore(n)] + KeptOps(names[1..])
    ensures names[1..] == [] ==> KeptOps(names[1..]) == []
  {
  }

  /** Putting kept entries back, cut short anywhere. */
  lemma {:induction false} KeptPhase(oldTree: Dir, d: Disk, names: seq<Name>, k: nat)
    requires Safe(oldTree, d) && InOrder(oldTree, d) && Sorted(names)
    requires forall n :: n in names <==> n in d.backup
    ensures var e := Exec(d, Cut(KeptOps(names), k));
            && Safe(oldTree, e) && InOrder(oldTree, e) && e.trial == d.trial
            && (k >= |KeptOps(names)| ==> e.backup == map[])
    decreases names
  {
    if names != [] {
      hide Safe, InOrder, Rank, Apply, Sorted, Exec, Cut, KeptOps;
      var n, rest := names[0], names[1..];
      var ops := [Discard(n), SetAside(n), Restore(n)];
      SortedHead(names);
      KeptHead(names);
      CutConcat(ops, KeptOps(rest), k);
      RestIsLeft(d.backup, names);
      if k <= 3 {
        OneKept(oldTree, d, n, k);
      } else {
        OneKept(oldTree, d, n, 3);
        CutWhole(ops, 3);
        ExecConcat(d, ops, Cut(KeptOps(rest), k - 3));
        KeptPhase(oldTree, Exec(d, ops), rest, k - 3);
      }
    }
  }

  lemma RestIsLeft(backup: Dir, names: seq<Name>)
    requires Sorted(names) && names != [] && forall n :: n in names <==> n in backup
    ensures forall m :: m in names[1..] <==> m in backup - {names[0]}
    ensures names[1..] == [] ==> backup - {names[0]} == map[]
  {
    hide Sorted;
    SortedHead(names);
    assert names[1..] == [] ==> forall m :: m !in backup - {names[0]};
  }

  lemma SortedHead(names: seq<Name>)
    requires Sorted(names) && names != []
    ensures Sorted(names[1..]) && forall m :: m in names[1..] <==> m in names && m != names[0]
    ensures forall m :: m in names[1..] ==> Rank(names[0]) < Rank(m)
  {
  }

  /** Taking out what the failed release added, cut short anywhere. */
  lemma {:induction false} ExtraPhase(d: Disk, names: seq<Name>, k: nat)
    ensures var e := Exec(d, Cut(ExtraOps(names), k));
            && e.trial == d.trial && e.backup == d.backup
            && (forall m :: m !in names ==> (m in d.root <==> m in e.root) && (m in d.root ==> e.root[m] == d.root[m]))
            && (k >= |ExtraOps(names)| ==> forall m :: m in names ==> m !in e.root)
            && forall m :: m in e.root ==> m in d.root
    decreases names
  {
    if names != [] {
      var n, rest := names[0], names[1..];
      var ops := [Discard(n), SetAside(n)];
      CutConcat(ops, ExtraOps(rest), k);
      TwoOps(d, ops[0], ops[1], k);
      if k >= 2 {
        ExecConcat(d, ops, Cut(ExtraOps(rest), k - 2));
        TwoOps(d, ops[0], ops[1], 2);
        assert Cut(ops, 2) == ops && ops + Cut(ExtraOps(rest), 0) == ops;
        ExtraPhase(Exec(d, ops), rest, k - 2);
      }
    }
  }

  /** The moves of a plan, cut short anywhere before the trial ends. */
  lemma MovesKeepSafe(oldTree: Dir, d: Disk, kept: seq<Name>, extra: seq<Name>, k: nat)
    requires Safe(oldTree, d) && InOrder(oldTree, d) && Sorted(kept)
    requires forall n :: n in kept <==> n in d.backup
    requires forall n :: n in extra ==> n !in oldTree
    ensures var e := Exec(d, Cut(KeptOps(kept) + ExtraOps(extra), k));
            && Safe(oldTree, e) && InOrder(oldTree, e) && e.trial == d.trial
            && (k >= |KeptOps(kept) + ExtraOps(extra)| ==> e.backup == map[] && forall n :: n in extra ==> n !in e.root)
  {
    hide Rank;
    var a, b := KeptOps(kept), ExtraOps(extra);
    CutConcat(a, b, k);
    KeptPhase(oldTree, d, kept, k);
    if k > |a| || (k == |a| && b == []) {
      KeptPhase(oldTree, d, kept, |a|);
      assert Cut(a, |a|) == a;
      ExecConcat(d, a, Cut(b, k - |a|));
      ExtraPhase(Exec(d, a), extra, k - |a|);
      assert k == |a| ==> a + Cut(b, 0) == a;
    }
  }

  /** What a plan is made of. */
  lemma PlanShape(oldTree: Dir, added: seq<Name>, d: Disk)
    requires Inv(oldTree, added, d) && NoClash(oldTree, added) && d.trial.Some?
    ensures var kept, extra := KeptOf(ENTRIES, d.backup), ExtraOf(added, d.backup);
            && Sorted(kept) && (forall n :: n in kept <==> n in d.backup)
            && (kept == [] <==> d.backup == map[])
            && (kept == [] ==> Plan(d) == [Note(false), EndTrial])
            && (kept != [] ==>
                  && (forall n :: n in extra ==> n !in oldTree)
                  && Plan(d) == (KeptOps(kept) + ExtraOps(extra)) + [EndTrial, Note(true)])
  {
    hide Rank;
    var kept := KeptOf(ENTRIES, d.backup);
    EntriesSorted();
    KeptMeaning(ENTRIES, d.backup);
    if kept == [] {
      assert forall n :: n in d.backup ==> n in kept;
    } else {
      assert kept[0] in kept;
      ExtrasAreNew(oldTree, added, d, kept);
    }
  }

  /** One rollback attempt, cut short anywhere, loses nothing of the old tree; and when it
      ends the trial, all of the old tree is back in place. */
  lemma AttemptKeepsInv(oldTree: Dir, added: seq<Name>, d: Disk, k: nat)
    requires Inv(oldTree, added, d) && NoClash(oldTree, added)
    ensures Inv(oldTree, added, Attempt(d, k))
  {
    if d.trial.Some? {
      hide Safe, InOrder, NoClash, Sorted, KeptOf, ExtraOf, KeptOps, ExtraOps, Plan, Cut, Exec;
      PlanShape(oldTree, added, d);
      var kept, extra := KeptOf(ENTRIES, d.backup), ExtraOf(added, d.backup);
      if kept == [] {
        NothingKept(oldTree, added, d, k);
      } else {
        SomethingKept(oldTree, added, d, kept, extra, k);
      }
    } else {
      assert Cut([], k) == [];
    }
  }

  lemma NothingKept(oldTree: Dir, added: seq<Name>, d: Disk, k: nat)
    requires Inv(oldTree, added, d) && d.trial.Some? && d.backup == map[]
    requires Plan(d) == [Note(false), EndTrial]
    ensures Inv(oldTree, added, Attempt(d, k))
  {
    hide Plan;
    TwoOps(d, Note(false), EndTrial, k);
  }

  lemma SomethingKept(oldTree: Dir, added: seq<Name>, d: Disk, kept: seq<Name>, extra: seq<Name>, k: nat)
    requires Inv(oldTree, added, d) && d.trial.Some? && Sorted(kept)
    requires (forall n :: n in kept <==> n in d.backup) && (forall n :: n in extra ==> n !in oldTree)
    requires Plan(d) == (KeptOps(kept) + ExtraOps(extra)) + [EndTrial, Note(true)]
    ensures Inv(oldTree, added, Attempt(d, k))
    ensures var e := Attempt(d, k);
            k >= |Plan(d)| ==>
              && e.trial.None? && e.restoredNote == Some(true) && e.backup == map[]
              && forall n :: n in extra ==> n !in e.root
  {
    hide Rank, Plan, KeptOps, ExtraOps, Sorted, Exec;
    var moves, end := KeptOps(kept) + ExtraOps(extra), [EndTrial, Note(true)];
    CutConcat(moves, end, k);
    MovesKeepSafe(oldTree, d, kept, extra, k);
    if k > |moves| {
      MovesKeepSafe(oldTree, d, kept, extra, |moves|);
      assert Cut(moves, |moves|) == moves;
      ExecConcat(d, moves, Cut(end, k - |moves|));
      TwoOps(Exec(d, moves), EndTrial, Note(true), k - |moves|);
    }
  }

  /** While anything is left in the backup, what a rollback takes out is not of the old
      tree. */
  lemma ExtrasAreNew(oldTree: Dir, added: seq<Name>, d: Disk, kept: seq<Name>)
    requires Safe(oldTree, d) && InOrder(oldTree, d) && NoClash(oldTree, added)
    requires kept != [] && forall n :: n in kept ==> n in d.backup
    ensures forall n :: n in ExtraOf(added, d.backup) ==> n !in oldTree
  {
    hide Rank;
    ExtraMeaning(added, d.backup);
    assert kept[0] in kept && kept[0] in oldTree;
  }

  ghost predicate OnTrial(oldTree: Dir, added: seq<Name>, d: Disk) {
    d.backup == oldTree && d.trial.Some? && d.trial.value.added == added
  }

  lemma EmptyMeansBack(oldTree: Dir, d: Disk)
    requires Safe(oldTree, d)
    ensures d.backup == map[] ==> OldBack(oldTree, d)
  {
  }

  lemma EventKeeps(oldTree: Dir, added: seq<Name>, d: Disk, event: Event)
    requires Kept(oldTree, added, d) && NoClash(oldTree, added)
    ensures Kept(oldTree, added, AfterEvent(d, event))
    ensures Inv(oldTree, added, d) && (event.Confirm? ==> d.trial.None?) ==> Inv(oldTree, added, AfterEvent(d, event))
  {
    hide Safe, InOrder, NoClash, Attempt;
    SameFiles(oldTree, d, AfterEvent(d, event));
    if event.Boot? && d.trial.Some? {
      AttemptKeepsInv(oldTree, added, d, event.start.budget);
    }
  }

  lemma SameFiles(oldTree: Dir, d: Disk, e: Disk)
    requires Safe(oldTree, d) && InOrder(oldTree, d)
    ensures e.root == d.root && e.backup == d.backup ==> Safe(oldTree, e) && InOrder(oldTree, e)
  {
    hide Rank;
  }

  /** However many starts there are, wherever each is cut short and whenever a node that
      stayed up ends the trial, every entry of the old tree is in the backup or back in
      place. */
  lemma {:induction false} NothingIsLost(oldTree: Dir, added: seq<Name>, d: Disk, events: seq<Event>)
    requires Kept(oldTree, added, d) && NoClash(oldTree, added)
    ensures Kept(oldTree, added, AfterEvents(d, events))
    decreases events
  {
    hide Kept, NoClash, AfterEvent;
    if events != [] {
      EventKeeps(oldTree, added, d, events[0]);
      NothingIsLost(oldTree, added, AfterEvent(d, events[0]), events[1..]);
    }
  }

  /** No event of the run confirms a tree that is on trial. */
  predicate Unconfirmed(d: Disk, events: seq<Event>)
    decreases events
  {
    events != [] ==> (events[0].Confirm? ==> d.trial.None?) && Unconfirmed(AfterEvent(d, events[0]), events[1..])
  }

  /** A trial that only a rollback can have ended has the whole old tree back. */
  lemma {:induction false} RollbackSurvivesCrashes(oldTree: Dir, added: seq<Name>, d: Disk, events: seq<Event>)
    requires Inv(oldTree, added, d) && NoClash(oldTree, added) && Unconfirmed(d, events)
    ensures Inv(oldTree, added, AfterEvents(d, events))
    ensures AfterEvents(d, events).trial.None? ==> OldBack(oldTree, AfterEvents(d, events))
    decreases events
  {
    hide Safe, InOrder, NoClash, AfterEvent;
    if events == [] {
      EmptyMeansBack(oldTree, d);
    } else {
      EventKeeps(oldTree, added, d, events[0]);
      RollbackSurvivesCrashes(oldTree, added, AfterEvent(d, events[0]), events[1..]);
    }
  }

  lemma TrialStartsSafe(oldTree: Dir, added: seq<Name>, d: Disk)
    requires OnTrial(oldTree, added, d)
    ensures Inv(oldTree, added, d)
  {
  }

  /** A rollback that runs to its end from a backup that still holds something also takes out
      everything the failed release added. */
  lemma FullRollbackTakesOutAdded(oldTree: Dir, added: seq<Name>, d: Disk, k: nat)
    requires Inv(oldTree, added, d) && NoClash(oldTree, added) && d.trial.Some? && d.backup != map[] && k >= |Plan(d)|
    ensures var e := Attempt(d, k);
            && e.trial.None? && e.restoredNote == Some(true) && e.backup == map[]
            && (forall n :: n in oldTree ==> n in e.root && e.root[n] == oldTree[n])
            && forall a :: a in added && a !in oldTree ==> a !in e.root
  {
    hide Rank, Plan, KeptOf, ExtraOf, KeptOps, ExtraOps, NoClash, Exec;
    var kept, extra := KeptOf(ENTRIES, d.backup), ExtraOf(added, d.backup);
    PlanShape(oldTree, added, d);
    SomethingKept(oldTree, added, d, kept, extra, k);
    ExtraMeaning(added, d.backup);
  }

  // ------------------------------------------------------------------ the condition is exact

  lemma {:induction false} KeptOpsConcat(a: seq<Name>, b: seq<Name>)
    ensures KeptOps(a + b) == KeptOps(a) + KeptOps(b)
  {
    if a == [] {
      assert a + b == b;
    } else {
      assert (a + b)[1..] == a[1..] + b;
      KeptOpsConcat(a[1..], b);
    }
  }

  /** Putting some entries back leaves exactly the others in the backup. */
  lemma {:induction false} PutBack(d: Disk, names: seq<Name>)
    requires Sorted(names) && forall n :: n in names ==> n in d.backup
    ensures var e := Exec(d, KeptOps(names));
            && e.trial == d.trial && (forall n :: n in e.backup <==> n in d.backup && n !in names)
            && (forall n :: n in e.backup ==> e.backup[n] == d.backup[n])
            && (forall n :: n !in names ==> (n in e.root <==> n in d.root) && (n in d.root ==> e.root[n] == d.root[n]))
            && forall n :: n in names ==> n in e.root && e.root[n] == d.backup[n]
    decreases names
  {
    if names != [] {
      hide Rank, Apply, Exec, Sorted, Cut;
      var n, rest := names[0], names[1..];
      var ops := [Discard(n), SetAside(n), Restore(n)];
      SortedHead(names);
      ThreeOps(d, n, 3);
      CutWhole(ops, 3);
      ExecConcat(d, ops, KeptOps(rest));
      PutBack(Exec(d, ops), rest);
    }
  }

  /** When the release is said to have added an entry of the old tree that is not the last
      one kept, two starts lose it: the first puts it back and is cut short, the second takes
      it out again. So `NoClash` is exactly when every schedule is safe. */
  lemma ClashLosesAnEntry(oldTree: Dir, added: seq<Name>, d: Disk) returns (events: seq<Event>, lost: Name)
    requires OnTrial(oldTree, added, d) && d.trial.value.boots >= MAX_TRIAL_BOOTS
    requires !NoClash(oldTree, added)
    ensures lost in oldTree && lost !in AfterEvents(d, events).root && lost !in AfterEvents(d, events).backup
  {
    hide Rank, Plan, KeptOps, ExtraOps, KeptOf, ExtraOf, Exec, Cut;
    var later;
    lost, later :| lost in added && lost in oldTree && later in oldTree && Rank(later) > Rank(lost);
    var first := PutBackUpTo(d, lost);
    var e := Attempt(d, first);
    assert lost !in e.backup && later in e.backup && e.trial == d.trial;
    FullRunTakesOutExtras(e, lost, later);
    events := [Boot(Start(true, first)), Boot(Start(true, |Plan(e)|))];
    TwoEvents(d, events[0], events[1]);
  }

  lemma TwoEvents(d: Disk, a: Event, b: Event)
    ensures AfterEvents(d, [a, b]) == AfterEvent(AfterEvent(d, a), b)
  {
    hide AfterEvent;
    var after := AfterEvent(d, a);
    assert [a, b][1..] == [b] && [b][1..] == [];
    assert AfterEvents(after, [b]) == AfterEvent(after, b);
  }

  /** The kept entries of a disk on trial, and the plan they lead to. */
  lemma KeptPlan(d: Disk) returns (kept: seq<Name>, rest: seq<Op>)
    requires d.trial.Some? && d.backup != map[]
    ensures kept == KeptOf(ENTRIES, d.backup) && Sorted(kept) && kept != []
    ensures forall n :: n in kept <==> n in d.backup
    ensures rest == ExtraOps(ExtraOf(d.trial.value.added, d.backup)) + [EndTrial, Note(true)]
    ensures Plan(d) == KeptOps(kept) + rest
  {
    hide Rank, KeptOps, ExtraOps, ExtraOf;
    kept := KeptOf(ENTRIES, d.backup);
    EntriesSorted();
    KeptMeaning(ENTRIES, d.backup);
    var n :| n in d.backup;
    assert n in kept;
    rest := ExtraOps(ExtraOf(d.trial.value.added, d.backup)) + [EndTrial, Note(true)];
  }

  lemma CutPrefix(a: seq<Op>, ops: seq<Op>)
    requires a <= ops
    ensures Cut(ops, |a|) == a
  {
  }

  /** Where to cut a rollback so that `a` is the last entry it put back. */
  lemma PutBackUpTo(d: Disk, a: Name) returns (k: nat)
    requires d.trial.Some? && a in d.backup
    ensures var e := Attempt(d, k);
            e.trial == d.trial && forall n :: n in e.backup <==> n in d.backup && Rank(n) > Rank(a)
  {
    hide Rank, KeptOf, KeptOps, Plan, Cut, Exec, Sorted, Attempt;
    var kept, rest := KeptPlan(d);
    assert a in kept;
    var i :| 0 <= i < |kept| && kept[i] == a;
    var back := kept[..i + 1];
    SortedPrefix(kept, i + 1);
    PutBack(d, back);
    k := |KeptOps(back)|;
    CutAfter(d, kept, rest, i + 1);
    PrefixByRank(kept, i);
  }

  lemma CutAfter(d: Disk, kept: seq<Name>, rest: seq<Op>, i: nat)
    requires i <= |kept| && Plan(d) == KeptOps(kept) + rest
    ensures Attempt(d, |KeptOps(kept[..i])|) == Exec(d, KeptOps(kept[..i]))
  {
    hide KeptOps, Plan, Cut, Exec;
    assert kept == kept[..i] + kept[i..];
    KeptOpsConcat(kept[..i], kept[i..]);
    CutPrefix(KeptOps(kept[..i]), Plan(d));
  }

  lemma SortedPrefix(names: seq<Name>, i: nat)
    requires Sorted(names) && i <= |names|
    ensures Sorted(names[..i])
  {
    hide Rank;
  }

  lemma PrefixByRank(names: seq<Name>, i: nat)
    requires Sorted(names) && i < |names|
    ensures forall n :: n in names ==> (n in names[..i + 1] <==> Rank(n) <= Rank(names[i]))
  {
  }

  /** A rollback that runs to its end removes every listed addition the backup lacks. */
  lemma FullRunTakesOutExtras(d: Disk, a: Name, other: Name)
    requires d.trial.Some? && a in d.trial.value.added && a !in d.backup && other in d.backup
    ensures var e := Attempt(d, |Plan(d)|);
            e.backup == map[] && a !in e.root
  {
    hide Rank, Apply, KeptOf, KeptOps, ExtraOps, ExtraOf, Plan, Exec;
    var kept, rest := KeptPlan(d);
    var extra, end := ExtraOf(d.trial.value.added, d.backup), [EndTrial, Note(true)];
    ExtraMeaning(d.trial.value.added, d.backup);
    PutBack(d, kept);
    var m := Exec(d, KeptOps(kept));
    CutWhole(Plan(d), |Plan(d)|);
    ExecConcat(d, KeptOps(kept), rest);
    CutWhole(ExtraOps(extra), |ExtraOps(extra)|);
    ExtraPhase(m, extra, |ExtraOps(extra)|);
    ExecConcat(m, ExtraOps(extra), end);
    EndChangesNoFile(Exec(m, ExtraOps(extra)));
  }

  lemma EndChangesNoFile(d: Disk)
    ensures var e := Exec(d, [EndTrial, Note(true)]);
            e.backup == d.backup && e.root == d.root
  {
    Exec2(d, EndTrial, Note(true));
  }

  /** Nor does the next start always finish the job: cut short once the last kept entry is
      back, before what the release added is taken out, the next start finds an empty backup
      and ends the trial with the additions still in place. */
  lemma AdditionsCanStay(oldTree: Dir, added: seq<Name>, d: Disk, a: Name) returns (events: seq<Event>)
    requires OnTrial(oldTree, added, d) && d.trial.value.boots >= MAX_TRIAL_BOOTS && oldTree != map[]
    requires a in added && a !in oldTree && a in d.root
    ensures var e := AfterEvents(d, events);
            e.trial.None? && e.restoredNote == Some(false) && a in e.root
  {
    hide Rank, KeptOf, KeptOps, ExtraOps, ExtraOf, Plan, Exec;
    var kept, rest := KeptPlan(d);
    var k := |KeptOps(kept)|;
    PutBack(d, kept);
    CutPrefix(KeptOps(kept), Plan(d));
    var e := Attempt(d, k);
    assert e.backup == map[] && a in e.root;
    EmptyBackupEnds(e);
    events := [Boot(Start(true, k)), Boot(Start(true, 2))];
    TwoEvents(d, events[0], events[1]);
  }

  lemma EmptyBackupEnds(d: Disk)
    requires d.trial.Some? && d.backup == map[]
    ensures Attempt(d, 2) == d.(trial := None, restoredNote := Some(false))
  {
    hide KeptOf, Exec;
    NoneKept(ENTRIES);
    TwoOps(d, Note(false), EndTrial, 2);
  }

  lemma {:induction false} NoneKept(names: seq<Name>)
    ensures KeptOf(names, map[]) == []
  {
    if names != [] {
      NoneKept(names[1..]);
    }
  }

  // ------------------------------------------------------------------ a trial ended in the middle

  /** The release left this entry as it was. */
  predicate Same(d: Disk, n: Name)
    requires n in d.backup
  {
    n in d.root && d.root[n] == d.backup[n]
  }

  /** Every old name holds what it held on the disk the rollback found. */
  ghost predicate NewLeft(oldTree: Dir, d: Disk, e: Disk) {
    forall n :: n in oldTree ==> (n in e.root <==> n in d.root) && (n in d.root ==> e.root[n] == d.root[n])
  }

  /** Neither the old tree nor the one that was on trial. */
  ghost predicate Mixed(oldTree: Dir, d: Disk, e: Disk) {
    !OldBack(oldTree, e) && !NewLeft(oldTree, d, e)
  }

  /** Where a rollback that was cut after `k` operations stopped among the kept entries. */
  function Reached(k: nat): nat {
    k / 3
  }

  /** It stopped with the next entry's place empty. */
  predicate Gone(d: Disk, kept: seq<Name>, k: nat) {
    k % 3 == 2 && Reached(k) < |kept| && kept[Reached(k)] in d.root
  }

  /** Some entry still to come back, or gone, is one the release changed, and so is some entry
      already back, or gone. */
  predicate StopsBetween(d: Disk, kept: seq<Name>, k: nat)
    requires forall n :: n in kept ==> n in d.backup
  {
    && Reached(k) < |kept|
    && (Gone(d, kept, k) || exists i :: Reached(k) <= i < |kept| && !Same(d, kept[i]))
    && (Gone(d, kept, k) || exists i :: 0 <= i < Reached(k) && !Same(d, kept[i]))
  }

  lemma OneEntryCut(d: Disk, n: Name, k: nat)
    requires n in d.backup && k < 3
    ensures var e := Exec(d, Cut([Discard(n), SetAside(n), Restore(n)], k));
            && e.trial == d.trial
            && (forall m :: m != n ==> (m in e.root <==> m in d.root) && (m in d.root ==> e.root[m] == d.root[m]))
            && (n in e.root <==> n in d.root && k < 2) && (n in e.root ==> e.root[n] == d.root[n])
  {
    var ops := [Discard(n), SetAside(n), Restore(n)];
    Exec1(d, ops[0]);
    Exec2(d, ops[0], ops[1]);
    assert ops[..0] == [] && ops[..1] == [ops[0]] && ops[..2] == [ops[0], ops[1]];
  }

  /** The tree a cut rollback leaves: old up to where it stopped, perhaps one entry missing,
      and the release's from there on. */
  lemma CutTree(d: Disk, kept: seq<Name>, rest: seq<Op>, k: nat)
    requires d.trial.Some? && Plan(d) == KeptOps(kept) + rest && Sorted(kept)
    requires (forall n :: n in kept ==> n in d.backup) && Reached(k) < |kept|
    ensures var e := Attempt(d, k);
            && e.trial == d.trial
            && (forall n :: n in kept[..Reached(k)] ==> n in e.root && e.root[n] == d.backup[n])
            && (forall n :: n !in kept[..Reached(k)] && !(Gone(d, kept, k) && n == kept[Reached(k)]) ==>
                  (n in e.root <==> n in d.root) && (n in d.root ==> e.root[n] == d.root[n]))
            && (Gone(d, kept, k) ==> kept[Reached(k)] !in e.root)
  {
    hide Rank, Plan, KeptOps, Cut, Exec, Sorted;
    var j, n := Reached(k), kept[Reached(k)];
    var ops := [Discard(n), SetAside(n), Restore(n)];
    CutInside(d, kept, rest, k);
    SortedPrefix(kept, j);
    NotBefore(kept, j);
    PutBack(d, kept[..j]);
    OneEntryCut(Exec(d, KeptOps(kept[..j])), n, k % 3);
  }

  lemma NotBefore(kept: seq<Name>, j: nat)
    requires Sorted(kept) && j < |kept|
    ensures kept[j] !in kept[..j]
  {
    hide Rank;
  }

  lemma CutInside(d: Disk, kept: seq<Name>, rest: seq<Op>, k: nat)
    requires Plan(d) == KeptOps(kept) + rest && Reached(k) < |kept|
    ensures var j := Reached(k);
            var ops := [Discard(kept[j]), SetAside(kept[j]), Restore(kept[j])];
            Attempt(d, k) == Exec(Exec(d, KeptOps(kept[..j])), Cut(ops, k % 3))
  {
    hide Plan, Exec, Cut, KeptOps;
    var j := Reached(k);
    var ops := [Discard(kept[j]), SetAside(kept[j]), Restore(kept[j])];
    var before := KeptOps(kept[..j]);
    var after := OpsAround(kept, j);
    KeptOpsLength(kept[..j]);
    assert Plan(d) == before + (ops + (after + rest));
    CutConcat(before, ops + (after + rest), k);
    CutConcat(ops, after + rest, k % 3);
    CutNone(before, ops, k);
    ExecConcat(d, before, Cut(ops, k % 3));
  }

  lemma CutNone(a: seq<Op>, ops: seq<Op>, k: nat)
    requires |a| == 3 * (k / 3)
    ensures k <= |a| ==> Cut(a, k) == a + Cut(ops, k % 3)
  {
  }

  lemma OpsAround(kept: seq<Name>, j: nat) returns (after: seq<Op>)
    requires j < |kept|
    ensures KeptOps(kept)
         == KeptOps(kept[..j]) + ([Discard(kept[j]), SetAside(kept[j]), Restore(kept[j])] + after)
  {
    after := KeptOps(kept[j + 1..]);
    assert kept == kept[..j] + kept[j..];
    KeptOpsConcat(kept[..j], kept[j..]);
    assert kept[j..][1..] == kept[j + 1..];
  }

  lemma {:induction false} KeptOpsLength(names: seq<Name>)
    ensures |KeptOps(names)| == 3 * |names|
  {
    if names != [] {
      KeptOpsLength(names[1..]);
    }
  }

  /** A node that comes up on a rollback cut short and stays up ends the trial with a tree
      that is neither the old one nor the release exactly when the rollback stopped between
      entries the release had changed. */
  lemma ConfirmMixesExactly(oldTree: Dir, added: seq<Name>, d: Disk, k: nat)
    requires OnTrial(oldTree, added, d) && NoClash(oldTree, added) && d.trial.value.boots >= MAX_TRIAL_BOOTS
    ensures var e := AfterEvents(d, [Boot(Start(true, k)), Event.Confirm]);
            && e.trial.None? && Safe(oldTree, e)
            && (forall n :: n in KeptOf(ENTRIES, d.backup) ==> n in d.backup)
            && (Mixed(oldTree, d, e) <==> StopsBetween(d, KeptOf(ENTRIES, d.backup), k))
  {
    hide Rank, Plan, KeptOf, Attempt, Safe, InOrder, NoClash, StopsBetween, Mixed;
    var cut := Attempt(d, k);
    TwoEvents(d, Boot(Start(true, k)), Event.Confirm);
    TrialStartsSafe(oldTree, added, d);
    AttemptKeepsInv(oldTree, added, d, k);
    ConfirmIsSafe(oldTree, cut);
    var kept := KeptOf(ENTRIES, d.backup);
    EntriesSorted();
    KeptMeaning(ENTRIES, d.backup);
    if d.backup != map[] && Reached(k) < |kept| {
      var _, rest := KeptPlan(d);
      CutTree(d, kept, rest, k);
      StoppedInside(oldTree, d, cut, kept, k);
    } else {
      assert d.backup == map[] ==> kept == [] by {
        if kept != [] {
          assert kept[0] in kept;
        }
      }
      PastTheKept(oldTree, added, d, k);
      WholeIsNotMixed(oldTree, d, cut, kept, k);
    }
    RootsDecide(oldTree, d, cut, cut.(trial := None));
  }

  lemma ConfirmIsSafe(oldTree: Dir, d: Disk)
    ensures Safe(oldTree, d) ==> Safe(oldTree, d.(trial := None))
  {
  }

  lemma RootsDecide(oldTree: Dir, d: Disk, e: Disk, f: Disk)
    requires e.root == f.root
    ensures Mixed(oldTree, d, e) == Mixed(oldTree, d, f)
  {
  }

  lemma WholeIsNotMixed(oldTree: Dir, d: Disk, e: Disk, kept: seq<Name>, k: nat)
    requires (forall n :: n in kept ==> n in d.backup) && OldBack(oldTree, e) && Reached(k) >= |kept|
    ensures !Mixed(oldTree, d, e) && !StopsBetween(d, kept, k)
  {
  }

  /** Once every kept entry is back nothing is left in the backup, whatever follows. */
  lemma PastTheKept(oldTree: Dir, added: seq<Name>, d: Disk, k: nat)
    requires OnTrial(oldTree, added, d) && NoClash(oldTree, added)
    requires Reached(k) >= |KeptOf(ENTRIES, d.backup)|
    ensures OldBack(oldTree, Attempt(d, k))
  {
    hide Rank, Plan, KeptOf, KeptOps, ExtraOps, Exec, Cut, Safe, InOrder, NoClash, Sorted;
    TrialStartsSafe(oldTree, added, d);
    AttemptKeepsInv(oldTree, added, d, k);
    if oldTree != map[] {
      var kept, rest := KeptPlan(d);
      KeptOpsLength(kept);
      CutConcat(KeptOps(kept), rest, k);
      PutBack(d, kept);
      var back := Exec(d, KeptOps(kept));
      if k <= |KeptOps(kept)| {
        CutWhole(KeptOps(kept), k);
      } else {
        ExecConcat(d, KeptOps(kept), Cut(rest, k - |KeptOps(kept)|));
        NothingRestored(ExtraOf(d.trial.value.added, d.backup));
        CutKeepsNone(rest, k - |KeptOps(kept)|);
        BackupUntouched(back, Cut(rest, k - |KeptOps(kept)|));
      }
    }
    EmptyMeansBack(oldTree, Attempt(d, k));
  }

  predicate NoRestores(ops: seq<Op>) {
    forall i :: 0 <= i < |ops| ==> !ops[i].Restore?
  }

  lemma {:induction false} BackupUntouched(d: Disk, ops: seq<Op>)
    requires NoRestores(ops)
    ensures Exec(d, ops).backup == d.backup
    decreases ops
  {
    if ops != [] {
      BackupUntouched(Apply(d, ops[0]), ops[1..]);
    }
  }

  lemma {:induction false} NothingRestored(extra: seq<Name>)
    ensures NoRestores(ExtraOps(extra) + [EndTrial, Note(true)])
  {
    if extra != [] {
      NothingRestored(extra[1..]);
      var rest := ExtraOps(extra[1..]) + [EndTrial, Note(true)];
      assert ExtraOps(extra) + [EndTrial, Note(true)] == [Discard(extra[0]), SetAside(extra[0])] + rest;
    }
  }

  lemma CutKeepsNone(ops: seq<Op>, k: nat)
    requires NoRestores(ops)
    ensures NoRestores(Cut(ops, k))
  {
  }

  lemma StoppedInside(oldTree: Dir, d: Disk, e: Disk, kept: seq<Name>, k: nat)
    requires d.backup == oldTree && (forall n :: n in kept <==> n in oldTree) && Sorted(kept) && Reached(k) < |kept|
    requires forall n :: n in kept[..Reached(k)] ==> n in e.root && e.root[n] == d.backup[n]
    requires forall n :: n !in kept[..Reached(k)] && !(Gone(d, kept, k) && n == kept[Reached(k)]) ==>
               (n in e.root <==> n in d.root) && (n in d.root ==> e.root[n] == d.root[n])
    requires Gone(d, kept, k) ==> kept[Reached(k)] !in e.root
    ensures Mixed(oldTree, d, e) <==> StopsBetween(d, kept, k)
  {
    hide Rank, Sorted, Gone;
    var j := Reached(k);
    forall i | 0 <= i < |kept| ensures kept[i] in kept[..j] <==> i < j {
      BeforeIffLess(kept, i, j);
    }
    if Gone(d, kept, k) {
      assert kept[j] in oldTree && kept[j] in d.root by {
        GoneWasThere(d, kept, k);
      }
    } else {
      forall i | 0 <= i < |kept|
        ensures (kept[i] in e.root && e.root[kept[i]] == oldTree[kept[i]]) <==> i < j || Same(d, kept[i])
      {
      }
      if exists i :: 0 <= i < j && !Same(d, kept[i]) {
        var i :| 0 <= i < j && !Same(d, kept[i]);
        assert kept[i] in oldTree;
      }
    }
  }

  lemma GoneWasThere(d: Disk, kept: seq<Name>, k: nat)
    requires Gone(d, kept, k)
    ensures Reached(k) < |kept| && kept[Reached(k)] in d.root
  {
  }

  lemma BeforeIffLess(kept: seq<Name>, i: nat, j: nat)
    requires Sorted(kept) && i < |kept| && j <= |kept|
    ensures kept[i] in kept[..j] <==> i < j
  {
    hide Rank;
  }

  // ------------------------------------------------------------------ after any run of starts

  /** An old entry still to come back is where the release left it, or its place is empty. */
  ghost predicate Untouched(d: Disk, e: Disk) {
    forall n :: n in e.backup && n in e.root ==> n in d.root && e.root[n] == d.root[n]
  }

  lemma {:induction false} OpsKeepUntouched(d: Disk, e: Disk, ops: seq<Op>)
    requires Untouched(d, e)
    ensures Untouched(d, Exec(e, ops))
    decreases ops
  {
    if ops != [] {
      OpsKeepUntouched(d, Apply(e, ops[0]), ops[1..]);
    }
  }

  lemma {:induction false} EventsKeepUntouched(d: Disk, e: Disk, events: seq<Event>)
    requires Untouched(d, e)
    ensures Untouched(d, AfterEvents(e, events))
    decreases events
  {
    hide Exec, Plan, Cut;
    if events != [] {
      if events[0].Boot? {
        OpsKeepUntouched(d, e, Cut(Plan(e), events[0].start.budget));
      }
      EventsKeepUntouched(d, AfterEvent(e, events[0]), events[1..]);
    }
  }

  /** The release had replaced this old entry, or taken it away. */
  predicate Changed(oldTree: Dir, d: Disk, n: Name) {
    n in oldTree && (n in d.root ==> d.root[n] != oldTree[n])
  }

  /** Part of the way: the place of an entry still in the backup is empty, or one entry the
      release changed is still in the backup and another one is not. */
  ghost predicate HalfBack(oldTree: Dir, d: Disk, e: Disk) {
    || (exists n :: n in e.backup && n in d.root && n !in e.root)
    || ((exists n :: n in e.backup && Changed(oldTree, d, n)) && exists n :: n !in e.backup && Changed(oldTree, d, n))
  }

  lemma MixedIffHalfBack(oldTree: Dir, d: Disk, e: Disk)
    requires Safe(oldTree, e) && Untouched(d, e)
    ensures Mixed(oldTree, d, e) <==> HalfBack(oldTree, d, e)
  {
    forall n | n in oldTree && n !in e.backup
      ensures (n in e.root <==> n in d.root) && (n in d.root ==> e.root[n] == d.root[n]) <==> !Changed(oldTree, d, n)
    {
    }
    forall n | n in e.backup && n in d.root && n !in e.root
      ensures !OldBack(oldTree, e) && !NewLeft(oldTree, d, e)
    {
    }
  }

  /** Whatever starts there were since the release went on trial and wherever each was cut,
      ending the trial by hand leaves a tree that is neither the old one nor the release
      exactly when the disk shows it half way back. */
  lemma ConfirmMixesAfterAnyRun(oldTree: Dir, added: seq<Name>, d: Disk, events: seq<Event>)
    requires OnTrial(oldTree, added, d) && NoClash(oldTree, added)
    ensures var e := AfterEvents(d, events);
            Mixed(oldTree, d, AfterEvent(e, Event.Confirm)) <==> HalfBack(oldTree, d, e)
  {
    hide Rank, NoClash, AfterEvents, Mixed, HalfBack, Untouched, Safe, InOrder;
    var e := AfterEvents(d, events);
    TrialStartsSafe(oldTree, added, d);
    NothingIsLost(oldTree, added, d, events);
    NothingMovedYet(d);
    EventsKeepUntouched(d, d, events);
    MixedIffHalfBack(oldTree, d, e);
    RootsDecide(oldTree, d, e, AfterEvent(e, Event.Confirm));
  }

  lemma NothingMovedYet(d: Disk)
    ensures Untouched(d, d)
  {
  }

  // ------------------------------------------------------------------ and the release's own entries

  /** Nothing of the tree that was on trial is lost either: it is in place or set aside. */
  ghost predicate ReleaseSafe(d: Disk, e: Disk) {
    forall n :: n in d.root ==>
                  (n in e.root && e.root[n] == d.root[n]) || (n in e.failed && e.failed[n] == d.root[n])
  }

  /** What lies where no old entry came back is the release's. */
  ghost predicate Released(oldTree: Dir, d: Disk, e: Disk) {
    && (forall n :: n in e.backup ==> n in oldTree)
    && forall n :: n in e.root && (n in e.backup || n !in oldTree) ==> n in d.root && e.root[n] == d.root[n]
  }

  /** The operation takes away only what is the release's, and moves only to where nothing is. */
  predicate Careful(d: Disk, e: Disk, op: Op) {
    match op
    case Discard(n) => n in e.root ==> n in d.root && e.root[n] == d.root[n]
    case SetAside(n) => n in e.root ==> n in d.root && e.root[n] == d.root[n] && n !in e.failed
    case Restore(n) => n in e.backup ==> n !in e.root
    case EndTrial => true
    case Note(_) => true
  }

  predicate AllCareful(d: Disk, e: Disk, ops: seq<Op>)
    decreases ops
  {
    ops != [] ==> Careful(d, e, ops[0]) && AllCareful(d, Apply(e, ops[0]), ops[1..])
  }

  lemma {:induction false} CarefulKeeps(d: Disk, e: Disk, ops: seq<Op>, k: nat)
    requires ReleaseSafe(d, e) && AllCareful(d, e, ops)
    ensures ReleaseSafe(d, Exec(e, Cut(ops, k)))
    decreases ops
  {
    if ops != [] && k > 0 {
      CarefulKeeps(d, Apply(e, ops[0]), ops[1..], k - 1);
      assert Cut(ops, k) == [ops[0]] + Cut(ops[1..], k - 1);
    }
  }

  lemma {:induction false} OpsKeepReleased(oldTree: Dir, d: Disk, e: Disk, ops: seq<Op>)
    requires Released(oldTree, d, e)
    ensures Released(oldTree, d, Exec(e, ops))
    decreases ops
  {
    if ops != [] {
      OpsKeepReleased(oldTree, d, Apply(e, ops[0]), ops[1..]);
    }
  }

  lemma {:induction false} CarefulConcat(d: Disk, e: Disk, a: seq<Op>, b: seq<Op>)
    requires AllCareful(d, e, a) && AllCareful(d, Exec(e, a), b)
    ensures AllCareful(d, e, a + b)
    decreases a
  {
    if a == [] {
      assert a + b == b;
    } else {
      CarefulConcat(d, Apply(e, a[0]), a[1..], b);
      assert (a + b)[1..] == a[1..] + b;
    }
  }

  lemma {:induction false} PuttingBackIsCareful(oldTree: Dir, d: Disk, e: Disk, kept: seq<Name>)
    requires Released(oldTree, d, e) && Sorted(kept) && forall n :: n in kept ==> n in e.backup
    ensures AllCareful(d, e, KeptOps(kept))
    decreases kept
  {
    hide Rank;
    if kept != [] {
      var n, rest := kept[0], kept[1..];
      var ops := [Discard(n), SetAside(n), Restore(n)];
      FirstOnly(kept);
      OneEntryCareful(oldTree, d, e, n);
      OpsKeepReleased(oldTree, d, e, ops);
      Exec3(e, ops[0], ops[1], ops[2]);
      PuttingBackIsCareful(oldTree, d, Exec(e, ops), rest);
      CarefulConcat(d, e, ops, KeptOps(rest));
    }
  }

  lemma FirstOnly(kept: seq<Name>)
    requires Sorted(kept) && kept != []
    ensures Sorted(kept[1..]) && kept[0] !in kept[1..]
  {
    hide Rank;
  }

  lemma OneEntryCareful(oldTree: Dir, d: Disk, e: Disk, n: Name)
    requires Released(oldTree, d, e) && n in e.backup
    ensures AllCareful(d, e, [Discard(n), SetAside(n), Restore(n)])
  {
    var ops := [Discard(n), SetAside(n), Restore(n)];
    var e1 := Apply(e, ops[0]);
    var e2 := Apply(e1, ops[1]);
    assert ops[1..] == [SetAside(n), Restore(n)] && ops[1..][1..] == [Restore(n)] && ops[1..][1..][1..] == [];
    assert AllCareful(d, e2, ops[1..][1..]);
    assert AllCareful(d, e1, ops[1..]);
  }

  lemma {:induction false} TakingOutIsCareful(oldTree: Dir, d: Disk, e: Disk, extra: seq<Name>)
    requires Released(oldTree, d, e) && forall a :: a in extra ==> a !in oldTree
    ensures AllCareful(d, e, ExtraOps(extra))
    decreases extra
  {
    if extra != [] {
      var a, rest := extra[0], extra[1..];
      var ops := [Discard(a), SetAside(a)];
      assert ops[1..] == [SetAside(a)] && ops[1..][1..] == [];
      OpsKeepReleased(oldTree, d, e, ops);
      TakingOutIsCareful(oldTree, d, Exec(e, ops), rest);
      CarefulConcat(d, e, ops, ExtraOps(rest));
    }
  }

  lemma PlanIsCareful(oldTree: Dir, added: seq<Name>, d: Disk, e: Disk)
    requires Kept(oldTree, added, e) && NoClash(oldTree, added) && Released(oldTree, d, e) && e.trial.Some?
    ensures AllCareful(d, e, Plan(e))
  {
    hide Rank, Safe, InOrder, NoClash, Released, KeptOps, ExtraOps, KeptOf, ExtraOf, Exec;
    var kept, extra := KeptOf(ENTRIES, e.backup), ExtraOf(added, e.backup);
    EntriesSorted();
    KeptMeaning(ENTRIES, e.backup);
    if kept == [] {
      assert [Note(false), EndTrial][1..] == [EndTrial] && [EndTrial][1..] == [];
    } else {
      ExtrasAreNew(oldTree, added, e, kept);
      PuttingBackIsCareful(oldTree, d, e, kept);
      OpsKeepReleased(oldTree, d, e, KeptOps(kept));
      var back := Exec(e, KeptOps(kept));
      TakingOutIsCareful(oldTree, d, back, extra);
      CarefulConcat(d, e, KeptOps(kept), ExtraOps(extra));
      EndIsCareful(d, Exec(e, KeptOps(kept) + ExtraOps(extra)));
      CarefulConcat(d, e, KeptOps(kept) + ExtraOps(extra), [EndTrial, Note(true)]);
    }
  }

  lemma EndIsCareful(d: Disk, e: Disk)
    ensures AllCareful(d, e, [EndTrial, Note(true)])
  {
    assert [EndTrial, Note(true)][1..] == [Note(true)] && [Note(true)][1..] == [];
  }

  /** However many starts there are, wherever each is cut short and whoever ends the trial, what
      the release had under any name is in place or among what was set aside. */
  lemma {:induction false} ReleaseIsKept(oldTree: Dir, added: seq<Name>, d: Disk, e: Disk, events: seq<Event>)
    requires Kept(oldTree, added, e) && NoClash(oldTree, added) && Released(oldTree, d, e) && ReleaseSafe(d, e)
    ensures ReleaseSafe(d, AfterEvents(e, events))
    decreases events
  {
    hide Safe, InOrder, NoClash, Released, ReleaseSafe, Plan, Exec, Cut, AllCareful;
    if events != [] {
      var next := AfterEvent(e, events[0]);
      EventKeeps(oldTree, added, e, events[0]);
      SameRelease(oldTree, d, e, next);
      if events[0].Boot? && e.trial.Some? {
        PlanIsCareful(oldTree, added, d, e);
        CarefulKeeps(d, e, Plan(e), events[0].start.budget);
        OpsKeepReleased(oldTree, d, e, Cut(Plan(e), events[0].start.budget));
      }
      ReleaseIsKept(oldTree, added, d, next, events[1..]);
    }
  }

  lemma SameRelease(oldTree: Dir, d: Disk, e: Disk, f: Disk)
    requires Released(oldTree, d, e) && ReleaseSafe(d, e)
    ensures e.root == f.root && e.backup == f.backup && e.failed == f.failed ==>
            Released(oldTree, d, f) && ReleaseSafe(d, f)
  {
  }

  /** A release has so many chances: as long as not more starts were counted, nothing is moved;
      starts that could not be counted cost none. */
  lemma {:induction false} ChancesCount(d: Disk, starts: seq<Start>)
    requires d.trial.Some? && d.trial.value.boots + Counted(starts) <= MAX_TRIAL_BOOTS
    requires forall s :: s in starts ==> s.canWrite || d.trial.value.boots + Counted(starts) < MAX_TRIAL_BOOTS
    ensures AfterEvents(d, Boots(starts))
         == d.(trial := Some(d.trial.value.(boots := d.trial.value.boots + Counted(starts))))
    decreases starts
  {
    if starts != [] {
      var first, rest := starts[0], starts[1..];
      assert Boots(starts)[0] == Boot(first) && Boots(starts)[1..] == Boots(rest);
      var next := AfterStart(d, first);
      ChancesCount(next, rest);
    }
  }

  function Counted(starts: seq<Start>): nat {
    if starts == [] then 0 else (if starts[0].canWrite then 1 else 0) + Counted(starts[1..])
  }

  function Boots(starts: seq<Start>): (events: seq<Event>)
    ensures |events| == |starts| && forall i :: 0 <= i < |events| ==> events[i] == Boot(starts[i])
  {
    seq(|starts|, i requires 0 <= i < |starts| => Boot(starts[i]))
  }

  /** And with all of them used, the next start rolls back. */
  lemma LastChance(d: Disk, s: Start)
    requires d.trial.Some?
    ensures d.trial.value.boots >= MAX_TRIAL_BOOTS ==> AfterStart(d, s) == Exec(d, Cut(Plan(d), s.budget))
    ensures d.trial.value.boots < MAX_TRIAL_BOOTS ==> AfterStart(d, s).(trial := None) == d.(trial := None)
  {
  }

  /** On every run from a fresh trial. */
  lemma NeitherTreeIsLost(oldTree: Dir, added: seq<Name>, d: Disk, events: seq<Event>)
    requires OnTrial(oldTree, added, d) && NoClash(oldTree, added)
    ensures Safe(oldTree, AfterEvents(d, events)) && ReleaseSafe(d, AfterEvents(d, events))
  {
    hide Rank, NoClash, AfterEvents;
    TrialStartsSafe(oldTree, added, d);
    NothingIsLost(oldTree, added, d, events);
    ReleaseIsKept(oldTree, added, d, d, events);
  }

  /** The witness: cut between two entries the release changed, the node runs half of each
      tree, and nothing that happens to it afterwards changes that. */
  lemma MixedForGood(oldTree: Dir, added: seq<Name>, d: Disk, a: Name, b: Name) returns (k: nat)
    requires OnTrial(oldTree, added, d) && NoClash(oldTree, added) && d.trial.value.boots >= MAX_TRIAL_BOOTS
    requires a in oldTree && b in oldTree && Rank(a) < Rank(b) && !Same(d, a) && !Same(d, b)
    ensures var e := AfterEvents(d, [Boot(Start(true, k)), Event.Confirm]);
            Mixed(oldTree, d, e) && forall more :: AfterEvents(e, more) == e
  {
    hide Rank, KeptOf, Same, NoClash, Mixed, OnTrial, StopsBetween, AfterEvents;
    var kept := KeptOf(ENTRIES, d.backup);
    OldIsKept(oldTree, added, d);
    var i :| 0 <= i < |kept| && kept[i] == a;
    var j :| 0 <= j < |kept| && kept[j] == b;
    k := 3 * (i + 1);
    ConfirmMixesExactly(oldTree, added, d, k);
    StopsAfter(d, kept, i, j);
    var e := AfterEvents(d, [Boot(Start(true, k)), Event.Confirm]);
    forall more ensures AfterEvents(e, more) == e {
      OverIsOver(e, more);
    }
  }

  lemma StopsAfter(d: Disk, kept: seq<Name>, i: nat, j: nat)
    requires Sorted(kept) && i < |kept| && j < |kept| && Rank(kept[i]) < Rank(kept[j])
    requires (forall n :: n in kept ==> n in d.backup) && !Same(d, kept[i]) && !Same(d, kept[j])
    ensures StopsBetween(d, kept, 3 * (i + 1))
  {
    hide Rank, Same;
    assert i < j;
  }

  lemma OldIsKept(oldTree: Dir, added: seq<Name>, d: Disk)
    requires OnTrial(oldTree, added, d)
    ensures Sorted(KeptOf(ENTRIES, d.backup)) && d.backup == oldTree
    ensures forall n :: n in KeptOf(ENTRIES, d.backup) <==> n in oldTree
  {
    hide Rank, KeptOf;
    EntriesSorted();
    KeptMeaning(ENTRIES, d.backup);
  }

  lemma {:induction false} OverIsOver(d: Disk, events: seq<Event>)
    requires d.trial.None?
    ensures AfterEvents(d, events) == d
    decreases events
  {
    if events != [] {
      OverIsOver(d, events[1..]);
    }
  }
}
