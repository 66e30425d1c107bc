/** The way back from a failed release: a rollback over three directories
    that a crash or a failed move may cut short between any two file operations.
    (src/boot_guard.py) */
module BootGuard {
  import opened Basics
  import opened Wrappers

  /** The entries a release replaces. */
  datatype Name =
    | Src | Scripts | StartSh | InstallSh | Requirements | Pyproject
    | Docs | Docker | ReadMe | Agents | Claude | License

  const ENTRIES: seq<Name> :=
    [Src, Scripts, StartSh, InstallSh, Requirements, Pyproject, Docs, Docker, ReadMe, Agents, Claude, License]

  const MAX_TRIAL_BOOTS := 3

  type Content = nat
  type Dir = map<Name, Content>

  datatype Trial = Trial(added: seq<Name>, boots: nat)

  datatype Disk = Disk(root: Dir, backup: Dir, failed: Dir, trial: Option<Trial>, restoredNote: Option<bool>)

  /** One file operation of a rollback; each takes place whole or not at all. */
  datatype Op = Discard(name: Name) | SetAside(name: Name) | Restore(name: Name) | EndTrial | Note(restored: bool)

  function Apply(d: Disk, op: Op): Disk {
    match op
    case Discard(n) => if n in d.root then d.(failed := d.failed - {n}) else d
    case SetAside(n) => if n in d.root then d.(failed := d.failed[n := d.root[n]], root := d.root - {n}) else d
    case Restore(n) => if n in d.backup then d.(root := d.root[n := d.backup[n]], backup := d.backup - {n}) else d
    case EndTrial => d.(trial := None)
    case Note(restored) => d.(restoredNote := Some(restored))
  }

  function Exec(d: Disk, ops: seq<Op>): Disk
    decreases ops
  {
    if ops == [] then d else Exec(Apply(d, ops[0]), ops[1..])
  }

  lemma ExecNothing(d: Disk)
    ensures Exec(d, []) == d
  {
  }

  lemma {:induction false} ExecConcat(d: Disk, a: seq<Op>, b: seq<Op>)
    ensures Exec(d, a + b) == Exec(Exec(d, a), b)
    decreases a
  {
    if a == [] {
      assert a + b == b;
    } else {
      assert (a + b)[1..] == a[1..] + b;
      ExecConcat(Apply(d, a[0]), a[1..], b);
    }
  }

  // ------------------------------------------------------------------ the plan

  /** The entries of a list that the backup still holds. */
  function KeptOf(names: seq<Name>, backup: Dir): seq<Name> {
    if names == [] then []
    else (if names[0] in backup then [names[0]] else []) + KeptOf(names[1..], backup)
  }

  function ExtraOf(names: seq<Name>, backup: Dir): seq<Name> {
    if names == [] then []
    else (if names[0] in backup then [] else [names[0]]) + ExtraOf(names[1..], backup)
  }

  function KeptOps(names: seq<Name>): seq<Op> {
    if names == [] then [] else [Discard(names[0]), SetAside(names[0]), Restore(names[0])] + KeptOps(names[1..])
  }

  function ExtraOps(names: seq<Name>): seq<Op> {
    if names == [] then [] else [Discard(names[0]), SetAside(names[0])] + ExtraOps(names[1..])
  }

  /** The file operations a rollback started on this disk sets out to do. */
  function Plan(d: Disk): seq<Op> {
    if d.trial.None? then []
    else
      var kept := KeptOf(ENTRIES, d.backup);
      if kept == [] then [Note(false), EndTrial]
      else KeptOps(kept) + ExtraOps(ExtraOf(d.trial.value.added, d.backup)) + [EndTrial, Note(true)]
  }

  function Cut(ops: seq<Op>, budget: nat): seq<Op> {
    if budget >= |ops| then ops else ops[..budget]
  }

  /** The disk after a rollback that was cut short after `budget` operations. */
  function Attempt(d: Disk, budget: nat): Disk {
    Exec(d, Cut(Plan(d), budget))
  }

  /** One start of the node: counted while the tree has chances left, else a rollback. */
  datatype Start = Start(canWrite: bool, budget: nat)

  function AfterStart(d: Disk, s: Start): Disk {
    if d.trial.None? then d
    else
      var t := d.trial.value;
      if t.boots >= MAX_TRIAL_BOOTS then Attempt(d, s.budget)
      else if s.canWrite then d.(trial := Some(t.(boots := t.boots + 1))) else d
  }

  /** What happens to a disk: the node is started, or one that stayed up ends the trial. */
  datatype Event = Boot(start: Start) | Confirm

  function AfterEvent(d: Disk, e: Event): Disk {
    match e
    case Boot(start) => AfterStart(d, start)
    case Confirm => d.(trial := None)
  }

  function AfterEvents(d: Disk, events: seq<Event>): Disk
    decreases events
  {
    if events == [] then d else AfterEvents(AfterEvent(d, events[0]), events[1..])
  }

  // ------------------------------------------------------------------ the guard

  datatype Outcome = NotOnTrial | OnTrial | RolledBack

  lemma {:induction false} OpsPerEntry(kept: seq<Name>, extra: seq<Name>)
    ensures |KeptOps(kept)| == 3 * |kept| && |ExtraOps(extra)| == 2 * |extra|
  {
    if kept != [] {
      OpsPerEntry(kept[1..], extra);
    } else if extra != [] {
      OpsPerEntry(kept, extra[1..]);
    }
  }

  lemma {:induction false} KeptOpsAt(names: seq<Name>, i: nat)
    requires i < |names|
    ensures |KeptOps(names)| == 3 * |names|
    ensures KeptOps(names)[3 * i..3 * i + 3] == [Discard(names[i]), SetAside(names[i]), Restore(names[i])]
  {
    if |names| > 1 {
      KeptOpsAt(names[1..], if i > 0 then i - 1 else 0);
    }
  }

  lemma {:induction false} ExtraOpsAt(names: seq<Name>, i: nat)
    requires i < |names|
    ensures |ExtraOps(names)| == 2 * |names|
    ensures ExtraOps(names)[2 * i..2 * i + 2] == [Discard(names[i]), SetAside(names[i])]
  {
    if |names| > 1 {
      ExtraOpsAt(names[1..], if i > 0 then i - 1 else 0);
    }
  }

  class Guard {
    var root: Dir
    var backup: Dir
    var failed: Dir
    var trial: Option<Trial>
    var restoredNote: Option<bool>
    /** File operations left before the machine goes down or a move fails. */
    var budget: nat
    /** The rollback under way: the disk it found, its plan and how far it has come. */
    ghost var found: Disk
    ghost var plan: seq<Op>
    ghost var at: nat

    function Snap(): Disk
      reads this
    {
      Disk(root, backup, failed, trial, restoredNote)
    }

    ghost predicate OnPlan()
      reads this
    {
      at <= |plan| && Snap() == Exec(found, plan[..at])
    }

    constructor (d: Disk)
      ensures Snap() == d
    {
      root, backup, failed, trial, restoredNote := d.root, d.backup, d.failed, d.trial, d.restoredNote;
      budget, found, plan, at := 0, d, [], 0;
    }

    /** The next file operation of the plan, unless the machine goes down first. */
    method Do(op: Op) returns (ok: bool)
      requires OnPlan() && at < |plan| && plan[at] == op
      modifies this
      ensures OnPlan() && found == old(found) && plan == old(plan) && at + budget == old(at + budget)
      ensures ok <==> old(budget) > 0
      ensures at == if ok then old(at) + 1 else old(at)
    {
      if budget == 0 {
        return false;
      }
      assert plan[..at + 1] == plan[..at] + [op];
      ExecConcat(found, plan[..at], [op]);
      budget, at := budget - 1, at + 1;
      match op {
        case Discard(n) =>
          if n in root {
            failed := failed - {n};
          }
        case SetAside(n) =>
          if n in root {
            failed, root := failed[n := root[n]], root - {n};
          }
        case Restore(n) =>
          if n in backup {
            root, backup := root[n := backup[n]], backup - {n};
          }
        case EndTrial => trial := None;
        case Note(restored) => restoredNote := Some(restored);
      }
      return true;
    }

    /** Several operations of the plan in a row. */
    method DoAll(ops: seq<Op>) returns (ok: bool)
      requires OnPlan() && at + |ops| <= |plan| && plan[at..at + |ops|] == ops
      modifies this
      ensures OnPlan() && found == old(found) && plan == old(plan) && at + budget == old(at + budget)
      ensures if ok then at == old(at) + |ops| else budget == 0 && at < old(at) + |ops|
    {
      for i := 0 to |ops|
        invariant OnPlan() && found == old(found) && plan == old(plan) && at + budget == old(at + budget)
        invariant at == old(at) + i
      {
        assert plan[at] == plan[old(at)..old(at) + |ops|][i];
        ok := Do(ops[i]);
        if !ok {
          return;
        }
      }
      return true;
    }

    /** Entry by entry: clear the place the failed one goes to, move it there, and bring the
        kept one back; then take out what the failed release added. */
    method MoveAll(kept: seq<Name>, extra: seq<Name>) returns (ok: bool)
      requires OnPlan() && at == 0 && KeptOps(kept) + ExtraOps(extra) <= plan
      modifies this
      ensures OnPlan() && found == old(found) && plan == old(plan) && at + budget == old(budget)
      ensures if ok then at == |KeptOps(kept)| + |ExtraOps(extra)|
              else budget == 0 && at < |KeptOps(kept)| + |ExtraOps(extra)|
    {
      hide KeptOps, ExtraOps;
      for i := 0 to |kept|
        invariant OnPlan() && found == old(found) && plan == old(plan) && at + budget == old(budget)
        invariant at == 3 * i
      {
        KeptOpsAt(kept, i);
        SliceOfWhole(KeptOps(kept), ExtraOps(extra), plan, 3 * i, 3 * i + 3);
        ok := DoAll([Discard(kept[i]), SetAside(kept[i]), Restore(kept[i])]);
        if !ok {
          return;
        }
      }
      OpsPerEntry(kept, extra);
      for i := 0 to |extra|
        invariant OnPlan() && found == old(found) && plan == old(plan) && at + budget == old(budget)
        invariant at == |KeptOps(kept)| + 2 * i
      {
        ExtraOpsAt(extra, i);
        SliceOfWhole(KeptOps(kept), ExtraOps(extra), plan, 2 * i, 2 * i + 2);
        ok := DoAll([Discard(extra[i]), SetAside(extra[i])]);
        if !ok {
          return;
        }
      }
      return true;
    }

    /** Put the previous tree back: true when the node has it again. */
    method Rollback() returns (restored: bool)
      requires trial.Some?
      modifies this
      ensures Snap() == Attempt(old(Snap()), old(budget))
      ensures restored <==> KeptOf(ENTRIES, old(backup)) != [] && old(budget) >= |Plan(old(Snap()))|
    {
      hide KeptOps, ExtraOps, KeptOf, ExtraOf, Exec;
      ExecNothing(Snap());
      found, plan, at := Snap(), Plan(Snap()), 0;
      var kept := KeptOf(ENTRIES, backup);
      if kept == [] {
        var ended := DoAll([Note(false), EndTrial]);
        assert plan[..|plan|] == plan;
        return false;
      }
      var extra := ExtraOf(trial.value.added, backup);
      restored := MoveAll(kept, extra);
      if restored {
        restored := DoAll([EndTrial, Note(true)]);
      }
      assert plan[..|plan|] == plan;
    }

    /** One chance less for the release; with none left, the rollback instead. */
    method Begin(canWrite: bool) returns (outcome: Outcome)
      modifies this
      ensures Snap() == AfterStart(old(Snap()), Start(canWrite, old(budget)))
      ensures old(trial).None? ==> outcome == NotOnTrial
      ensures old(trial).Some? && old(trial).value.boots < MAX_TRIAL_BOOTS ==> outcome == OnTrial
      ensures outcome == RolledBack <==>
                && old(trial).Some? && old(trial).value.boots >= MAX_TRIAL_BOOTS
                && KeptOf(ENTRIES, old(backup)) != [] && old(budget) >= |Plan(old(Snap()))|
    {
      if trial.None? {
        return NotOnTrial;
      }
      var boots := trial.value.boots + 1;
      if boots > MAX_TRIAL_BOOTS {
        var restored := Rollback();
        return if restored then RolledBack else NotOnTrial;
      }
      if canWrite {
        trial := Some(trial.value.(boots := boots));
      }
      return OnTrial;
    }

    /** The node has stayed up: this is the tree the machine runs. True when that ended a
        trial. */
    method Confirm() returns (ended: bool)
      modifies this
      ensures Snap() == AfterEvent(old(Snap()), Event.Confirm)
      ensures ended <==> old(trial).Some?
    {
      ended := trial.Some?;
      trial := None;
    }
  }
}
