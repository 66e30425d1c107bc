/** When a rule may speak about a subject, and what its speaking can cost at most.
    (src/behaviour.py:72-83 and 594-735, src/reputation.py:128-194) */
module Behaviour {
  import Books
  import opened Wrappers
  import opened Eviction
  import opened Lookup

  const MAX_CHARGES := 4096
  const MAX_PROFILES := 1024
  const MAX_ISSUERS := 512
  const MAX_WEIGHT := 4.0

  type Subject = nat
  type RuleId = nat

  datatype Rule = Rule(id: RuleId, weight: real)

  /** A (subject, rule) pair. */
  datatype Pair = Pair(subject: Subject, rule: RuleId)

  /** When a pair last charged. */
  datatype Charge = Charge(pair: Pair, at: real)

  // ------------------------------------------------------------------ the table, least recently touched first

  function Find(table: seq<Charge>, pair: Pair): (i: nat)
    ensures i <= |table| && (i < |table| ==> table[i].pair == pair)
    ensures forall k :: 0 <= k < i ==> table[k].pair != pair
  {
    FindBy(table, (c: Charge) => c.pair, pair)
  }

  predicate Holds(table: seq<Charge>, pair: Pair) {
    Find(table, pair) < |table|
  }

  predicate OncePerPair(table: seq<Charge>) {
    forall i, j :: 0 <= i < j < |table| ==> table[i].pair != table[j].pair
  }

  /** Would the pair be charged at this time? */
  predicate MayCharge(table: seq<Charge>, pair: Pair, now: real, recharge: real) {
    Holds(table, pair) ==> now - table[Find(table, pair)].at >= recharge
  }

  /** The pair moved to the end, with this time. */
  function Moved(table: seq<Charge>, pair: Pair, at: real): seq<Charge> {
    (if Holds(table, pair) then RemoveAt(table, Find(table, pair)) else table) + [Charge(pair, at)]
  }

  function Bounded(table: seq<Charge>): seq<Charge> {
    if |table| > MAX_CHARGES then table[|table| - MAX_CHARGES..] else table
  }

  function Asked(table: seq<Charge>, pair: Pair, now: real, recharge: real): seq<Charge> {
    if MayCharge(table, pair, now, recharge) then Bounded(Moved(table, pair, now))
    else Moved(table, pair, table[Find(table, pair)].at)
  }

  /** The table without anything about the subject. */
  function Forgotten(table: seq<Charge>, subject: Subject): seq<Charge> {
    if table == [] then []
    else if table[0].pair.subject == subject then Forgotten(table[1..], subject)
    else [table[0]] + Forgotten(table[1..], subject)
  }

  // ------------------------------------------------------------------ one sweep

  /** The subjects among `hits` that the rule may charge, asked in turn, and the table after. */
  function Speak(table: seq<Charge>, rule: RuleId, hits: seq<Subject>, now: real, recharge: real)
    : (seq<Charge>, seq<Subject>)
  {
    if hits == [] then (table, [])
    else
      var n := |hits| - 1;
      var (before, said) := Speak(table, rule, hits[..n], now, recharge);
      var pair := Pair(hits[n], rule);
      (Asked(before, pair, now, recharge),
       said + if MayCharge(before, pair, now, recharge) then [hits[n]] else [])
  }

  lemma SpeakNone(table: seq<Charge>, rule: RuleId, now: real, recharge: real)
    ensures Speak(table, rule, [], now, recharge) == (table, [])
  {
  }

  lemma SpeakSnoc(table: seq<Charge>, rule: RuleId, hits: seq<Subject>, i: nat, now: real, recharge: real)
    requires i < |hits|
    ensures var (before, said) := Speak(table, rule, hits[..i], now, recharge);
            Speak(table, rule, hits[..i + 1], now, recharge)
            == (Asked(before, Pair(hits[i], rule), now, recharge),
                said + if MayCharge(before, Pair(hits[i], rule), now, recharge) then [hits[i]] else [])
  {
    assert hits[..i + 1][..i] == hits[..i];
  }

  /** So many hits that the rule is measuring this node and not its peers. */
  predicate OverShare(hits: nat, population: nat, share: real) {
    hits as real > if population as real * share > 1.0 then population as real * share else 1.0
  }

  /** More than one, and more than the share of the population. */
  lemma OverShareExactly(hits: nat, population: nat, share: real)
    ensures OverShare(hits, population, share) <==> hits > 1 && hits as real > population as real * share
  {
  }

  type Fires = (RuleId, Subject) -> bool

  function Hits(fires: Fires, rule: RuleId, observed: seq<Subject>): seq<Subject> {
    if observed == [] then []
    else
      var n := |observed| - 1;
      Hits(fires, rule, observed[..n]) + if fires(rule, observed[n]) then [observed[n]] else []
  }

  datatype Finding = Finding(subject: Subject, rule: RuleId, weight: real)

  function Findings(rule: Rule, said: seq<Subject>): (r: seq<Finding>)
    ensures |r| == |said| && forall i :: 0 <= i < |r| ==> r[i] == Finding(said[i], rule.id, rule.weight)
  {
    seq(|said|, i requires 0 <= i < |said| => Finding(said[i], rule.id, rule.weight))
  }

  /** The table and the reports after the rules in `rules`, in order. */
  function Judged(table: seq<Charge>, rules: seq<Rule>, observed: seq<Subject>, fires: Fires,
                  population: nat, share: real, now: real, recharge: real): (seq<Charge>, seq<Finding>)
  {
    if rules == [] then (table, [])
    else
      var n := |rules| - 1;
      var (before, reported) := Judged(table, rules[..n], observed, fires, population, share, now, recharge);
      var hits := Hits(fires, rules[n].id, observed);
      if OverShare(|hits|, population, share) then (before, reported)
      else
        var (after, said) := Speak(before, rules[n].id, hits, now, recharge);
        (after, reported + Findings(rules[n], said))
  }

  class Watch {
    const share: real
    const recharge: real
    const profiles: Books.Book
    const issuers: Books.Book
    var charged: seq<Charge>
    var fired: map<RuleId, nat>
    var disarmed: map<RuleId, nat>

    ghost predicate Valid()
      reads this
    {
      OncePerPair(charged) && |charged| <= MAX_CHARGES
    }

    /** The two histories, which follow identities and not links. */
    ghost predicate BooksValid()
      reads profiles, issuers
    {
      profiles != issuers && profiles.Valid() && issuers.Valid()
    }

    constructor (share: real, recharge: real)
      ensures Valid() && charged == [] && this.share == share
      ensures BooksValid() && fresh(profiles) && fresh(issuers) && profiles.entries == [] == issuers.entries
      ensures this.recharge == if recharge > 0.0 then recharge else 0.0
    {
      this.share := share;
      this.recharge := if recharge > 0.0 then recharge else 0.0;
      charged, fired, disarmed := [], map[], map[];
      profiles := new Books.Book(MAX_PROFILES, 0);
      issuers := new Books.Book(MAX_ISSUERS, 1);
    }

    /** May the rule charge the subject now? Either way the pair becomes the youngest. */
    method Ask(subject: Subject, rule: RuleId, now: real) returns (may: bool)
      requires Valid()
      modifies `charged
      ensures Valid() && charged == Asked(old(charged), Pair(subject, rule), now, recharge)
      ensures may == MayCharge(old(charged), Pair(subject, rule), now, recharge)
      ensures may <==> forall c :: c in old(charged) && c.pair == Pair(subject, rule) ==> now - c.at >= recharge
    {
      hide Find;
      var pair := Pair(subject, rule);
      AskedKeeps(charged, pair, now, recharge);
      ghost var asked := Asked(charged, pair, now, recharge);
      var i := Find(charged, pair);
      if i < |charged| && now - charged[i].at < recharge {
        charged := Moved(charged, pair, charged[i].at);
        return false;
      }
      charged := Moved(charged, pair, now);
      ghost var moved := charged;
      ghost var k := 0;
      while |charged| > MAX_CHARGES
        invariant 0 <= k <= |moved| && charged == moved[k..] && (k > 0 ==> |charged| >= MAX_CHARGES)
      {
        charged := charged[1..];
        k := k + 1;
      }
      return true;
    }

    /** Count each rule's hits; report those of a rule inside the share, silence the others. */
    method Judge(rules: seq<Rule>, observed: seq<Subject>, fires: Fires, population: nat, now: real)
      returns (reported: seq<Finding>)
      requires Valid()
      modifies this
      ensures Valid()
      ensures (charged, reported)
              == Judged(old(charged), rules, observed, fires, population, share, now, recharge)
      ensures forall r :: r in rules ==>
                && (r.id in disarmed <==>
                      && |Hits(fires, r.id, observed)| > 1
                      && |Hits(fires, r.id, observed)| as real > population as real * share)
                && r.id in fired && fired[r.id] == |Hits(fires, r.id, observed)|
    {
      hide Asked, MayCharge, Find, Speak, Findings, Hits, OverShare;
      reported := [];
      ghost var was := charged;
      var before := disarmed;
      disarmed := map id | id in disarmed && (forall r :: r in rules ==> r.id != id) :: disarmed[id];
      for n := 0 to |rules|
        invariant Valid()
        invariant (charged, reported) == Judged(was, rules[..n], observed, fires, population, share, now, recharge)
        invariant forall r :: r in rules ==>
                    (r.id in disarmed ==> OverShare(|Hits(fires, r.id, observed)|, population, share))
        invariant forall k :: 0 <= k < n ==>
                    && rules[k].id in fired && fired[rules[k].id] == |Hits(fires, rules[k].id, observed)|
                    && (OverShare(|Hits(fires, rules[k].id, observed)|, population, share) ==> rules[k].id in disarmed)
      {
        assert rules[..n + 1][..n] == rules[..n];
        var hits := Gather(fires, rules[n].id, observed);
        fired := fired[rules[n].id := |hits|];
        if OverShare(|hits|, population, share) {
          disarmed := disarmed[rules[n].id := |hits|];
        } else {
          var said := Tell(rules[n], hits, now);
          reported := reported + Findings(rules[n], said);
        }
      }
      assert rules[..|rules|] == rules;
      forall r | r in rules
        ensures OverShare(|Hits(fires, r.id, observed)|, population, share) <==>
                  && |Hits(fires, r.id, observed)| > 1
                  && |Hits(fires, r.id, observed)| as real > population as real * share
      {
        OverShareExactly(|Hits(fires, r.id, observed)|, population, share);
      }
    }

    method Gather(fires: Fires, rule: RuleId, observed: seq<Subject>) returns (hits: seq<Subject>)
      ensures hits == Hits(fires, rule, observed)
    {
      hits := [];
      for i := 0 to |observed|
        invariant hits == Hits(fires, rule, observed[..i])
      {
        assert observed[..i + 1][..i] == observed[..i];
        if fires(rule, observed[i]) {
          hits := hits + [observed[i]];
        }
      }
      assert observed[..|observed|] == observed;
    }

    method Tell(rule: Rule, hits: seq<Subject>, now: real) returns (said: seq<Subject>)
      requires Valid()
      modifies `charged
      ensures Valid() && (charged, said) == Speak(old(charged), rule.id, hits, now, recharge)
    {
      hide Asked, MayCharge, Find, Speak;
      said := [];
      ghost var was := charged;
      assert hits[..0] == [];
      SpeakNone(was, rule.id, now, recharge);
      for i := 0 to |hits|
        invariant Valid() && (charged, said) == Speak(was, rule.id, hits[..i], now, recharge)
      {
        SpeakSnoc(was, rule.id, hits, i, now, recharge);
        var may := Ask(hits[i], rule.id, now);
        if may {
          said := said + [hits[i]];
        } else {
          assert said + [] == said;
        }
      }
      assert hits[..|hits|] == hits;
    }

    /** Clear a subject's name: its charges and both of its histories. */
    method Forget(subject: Subject)
      requires Valid() && BooksValid()
      modifies `charged, profiles, issuers
      ensures Valid() && charged == Forgotten(old(charged), subject)
      ensures BooksValid()
      ensures forall e :: e in profiles.entries <==> e in old(profiles.entries) && e.key != subject
      ensures forall e :: e in issuers.entries <==> e in old(issuers.entries) && e.key != subject
    {
      profiles.Forget(subject);
      issuers.Forget(subject);
      ForgottenMeaning(charged, subject);
      charged := Forgotten(charged, subject);
    }
  }

  lemma {:induction false} ForgottenMeaning(table: seq<Charge>, subject: Subject)
    ensures forall c :: c in Forgotten(table, subject) <==> c in table && c.pair.subject != subject
    ensures OncePerPair(table) ==> OncePerPair(Forgotten(table, subject))
    ensures |Forgotten(table, subject)| <= |table|
  {
    if table != [] {
      ForgottenMeaning(table[1..], subject);
    }
  }

  // ------------------------------------------------------------------ the table's invariants

  lemma FindIs(table: seq<Charge>, i: nat)
    requires OncePerPair(table) && i < |table|
    ensures Find(table, table[i].pair) == i
  {
  }

  lemma MovedKeeps(table: seq<Charge>, pair: Pair, at: real)
    requires OncePerPair(table)
    ensures OncePerPair(Moved(table, pair, at)) && |Moved(table, pair, at)| <= |table| + 1
    ensures Holds(table, pair) ==> |Moved(table, pair, at)| == |table|
  {
  }

  lemma AskedKeeps(table: seq<Charge>, pair: Pair, now: real, recharge: real)
    requires OncePerPair(table) && |table| <= MAX_CHARGES
    ensures OncePerPair(Asked(table, pair, now, recharge)) && |Asked(table, pair, now, recharge)| <= MAX_CHARGES
  {
    hide Find, Moved;
    MovedKeeps(table, pair, now);
    if !MayCharge(table, pair, now, recharge) {
      MovedKeeps(table, pair, table[Find(table, pair)].at);
    }
  }

  // ------------------------------------------------------------------ spacing over runs

  datatype Op = Ask(pair: Pair, now: real) | Forget(subject: Subject)

  function Step(table: seq<Charge>, op: Op, recharge: real): seq<Charge> {
    match op
    case Ask(pair, now) => Asked(table, pair, now, recharge)
    case Forget(subject) => Forgotten(table, subject)
  }

  /** What the ledger is told about one subject: which rule, what it is worth, and when. */
  datatype Note = Note(rule: RuleId, weight: real, at: real)

  type Weights = RuleId -> real

  function Told(table: seq<Charge>, op: Op, subject: Subject, recharge: real, weights: Weights): seq<Note> {
    if op.Ask? && op.pair.subject == subject && MayCharge(table, op.pair, op.now, recharge) then
      [Note(op.pair.rule, weights(op.pair.rule), op.now)]
    else []
  }

  function Notes(table: seq<Charge>, ops: seq<Op>, subject: Subject, recharge: real, weights: Weights): seq<Note>
    decreases ops
  {
    if ops == [] then []
    else
      Told(table, ops[0], subject, recharge, weights)
      + Notes(Step(table, ops[0], recharge), ops[1..], subject, recharge, weights)
  }

  /** Once in the table the pair is neither evicted nor forgotten. */
  predicate Kept(table: seq<Charge>, ops: seq<Op>, pair: Pair, recharge: real)
    decreases ops
  {
    ops != [] ==>
      && (Holds(table, pair) ==> Holds(Step(table, ops[0], recharge), pair))
      && Kept(Step(table, ops[0], recharge), ops[1..], pair, recharge)
  }

  /** Charges under one rule lie the given time apart. */
  predicate Spaced(notes: seq<Note>, rule: RuleId, apart: real) {
    forall i, j :: 0 <= i < j < |notes| && notes[i].rule == rule && notes[j].rule == rule ==>
      notes[j].at - notes[i].at >= apart
  }

  function LastCharge(table: seq<Charge>, pair: Pair): Option<real> {
    if Holds(table, pair) then Some(table[Find(table, pair)].at) else None
  }

  lemma HeldAt(table: seq<Charge>, i: nat)
    requires OncePerPair(table) && i < |table|
    ensures LastCharge(table, table[i].pair) == Some(table[i].at)
  {
  }

  lemma MovedTime(table: seq<Charge>, pair: Pair, at: real, other: Pair)
    requires OncePerPair(table)
    ensures LastCharge(Moved(table, pair, at), pair) == Some(at)
    ensures other != pair ==> LastCharge(Moved(table, pair, at), other) == LastCharge(table, other)
  {
    hide Find, Moved, LastCharge, OncePerPair;
    MovedKeeps(table, pair, at);
    var moved := Moved(table, pair, at);
    MovedEnds(table, pair, at);
    HeldAt(moved, |moved| - 1);
    if other != pair {
      OthersStay(table, pair, at, other);
    }
  }

  lemma MovedEnds(table: seq<Charge>, pair: Pair, at: real)
    ensures var moved := Moved(table, pair, at);
            moved != [] && moved[|moved| - 1] == Charge(pair, at)
  {
  }

  lemma OthersStay(table: seq<Charge>, pair: Pair, at: real, other: Pair)
    requires OncePerPair(table) && other != pair
    ensures LastCharge(Moved(table, pair, at), other) == LastCharge(table, other)
  {
    hide Find;
    var moved := Moved(table, pair, at);
    var i, j, k := Find(table, pair), Find(moved, other), Find(table, other);
    if j < |moved| {
      HeldAt(table, if j < i then j else j + 1);
    }
    if k < |table| {
      assert moved[if k < i then k else k - 1].pair == other;
    }
  }

  lemma BoundedTime(table: seq<Charge>, pair: Pair)
    requires OncePerPair(table) && Holds(Bounded(table), pair)
    ensures LastCharge(Bounded(table), pair) == LastCharge(table, pair)
  {
  }

  lemma {:induction false} ForgottenTime(table: seq<Charge>, subject: Subject, pair: Pair)
    requires OncePerPair(table) && Holds(Forgotten(table, subject), pair)
    ensures LastCharge(Forgotten(table, subject), pair) == LastCharge(table, pair)
  {
    hide Find;
    ForgottenMeaning(table, subject);
    var c := Forgotten(table, subject)[Find(Forgotten(table, subject), pair)];
    var i :| 0 <= i < |table| && table[i] == c;
    HeldAt(table, i);
  }

  /** A step moves a pair's time exactly when it charges the pair, and then at least the
      recharge forward. */
  lemma StepTime(table: seq<Charge>, op: Op, pair: Pair, recharge: real)
    requires OncePerPair(table) && |table| <= MAX_CHARGES
    ensures OncePerPair(Step(table, op, recharge)) && |Step(table, op, recharge)| <= MAX_CHARGES
    ensures var after := LastCharge(Step(table, op, recharge), pair);
            if op.Ask? && op.pair == pair && MayCharge(table, pair, op.now, recharge) then
              after == Some(op.now)
            else
              after.None? || after == LastCharge(table, pair)
    ensures op.Ask? && op.pair == pair && MayCharge(table, pair, op.now, recharge) && Holds(table, pair) ==>
              op.now - LastCharge(table, pair).value >= recharge
  {
    hide Find, Forgotten, Moved;
    match op
    case Ask(asked, now) =>
      AskedKeeps(table, asked, now, recharge);
      var at := if MayCharge(table, asked, now, recharge) then now else table[Find(table, asked)].at;
      var moved := Moved(table, asked, at);
      MovedKeeps(table, asked, at);
      MovedTime(table, asked, at, pair);
      if MayCharge(table, asked, now, recharge) {
        NewestStays(table, asked, at);
        if Holds(Bounded(moved), pair) {
          BoundedTime(moved, pair);
        }
      }
    case Forget(subject) =>
      ForgottenMeaning(table, subject);
      if Holds(Forgotten(table, subject), pair) {
        ForgottenTime(table, subject, pair);
      }
  }

  lemma NewestStays(table: seq<Charge>, pair: Pair, at: real)
    ensures Holds(Bounded(Moved(table, pair, at)), pair)
  {
    hide Find;
    var bounded := Bounded(Moved(table, pair, at));
    assert bounded[|bounded| - 1].pair == pair;
  }

  /** Whatever the clock does, one rule's charges against one subject lie at least the
      recharge apart on every run that neither evicts nor forgets the pair. */
  lemma {:induction false} ChargesAreSpaced(table: seq<Charge>, ops: seq<Op>, pair: Pair, recharge: real,
                                            weights: Weights)
    requires OncePerPair(table) && |table| <= MAX_CHARGES && recharge >= 0.0
    requires Kept(table, ops, pair, recharge)
    ensures Spaced(Notes(table, ops, pair.subject, recharge, weights), pair.rule, recharge)
    ensures AfterLast(Notes(table, ops, pair.subject, recharge, weights), pair.rule, LastCharge(table, pair), recharge)
    decreases ops
  {
    if ops != [] {
      hide Find, Step, MayCharge, LastCharge, OncePerPair, Holds, Spaced, AfterLast;
      StepTime(table, ops[0], pair, recharge);
      var next := Step(table, ops[0], recharge);
      ChargesAreSpaced(next, ops[1..], pair, recharge, weights);
      LastIffHeld(table, pair);
      LastIffHeld(next, pair);
      OneMoreSpaced(Told(table, ops[0], pair.subject, recharge, weights),
                    Notes(next, ops[1..], pair.subject, recharge, weights),
                    pair.rule, LastCharge(table, pair), LastCharge(next, pair), recharge);
    }
  }

  predicate AfterLast(notes: seq<Note>, rule: RuleId, last: Option<real>, apart: real) {
    forall n :: n in notes && n.rule == rule && last.Some? ==> n.at - last.value >= apart
  }

  lemma OneMoreSpaced(told: seq<Note>, rest: seq<Note>, rule: RuleId, last: Option<real>, next: Option<real>,
                      apart: real)
    requires |told| <= 1 && apart >= 0.0 && Spaced(rest, rule, apart) && AfterLast(rest, rule, next, apart)
    requires if told != [] && told[0].rule == rule
             then next == Some(told[0].at) && (last.Some? ==> told[0].at - last.value >= apart)
             else last.Some? ==> next == last
    ensures Spaced(told + rest, rule, apart) && AfterLast(told + rest, rule, last, apart)
  {
  }

  lemma LastIffHeld(table: seq<Charge>, pair: Pair)
    ensures LastCharge(table, pair).Some? <==> Holds(table, pair)
  {
  }

  // ------------------------------------------------------------------ the sum of the charges

  /** The share of a score left after a time: half of it after each half-life. */
  ghost predicate Halving(factor: real -> real, halfLife: real) {
    && halfLife > 0.0 && factor(halfLife) == 0.5
    && (forall a :: a >= 0.0 ==> 0.0 <= factor(a) <= 1.0)
    && forall a, b :: a >= 0.0 && b >= 0.0 ==> Composes(factor, a, b)
  }

  ghost predicate Composes(factor: real -> real, a: real, b: real) {
    factor(a + b) == factor(a) * factor(b)
  }

  /** No time at all takes nothing off. */
  function Left(factor: real -> real, age: real): real {
    if age <= 0.0 then 1.0 else factor(age)
  }

  /** What a note adds: never more than it says, and never less unless that is past the cap. */
  function Worth(n: Note): (w: real)
    ensures 0.0 <= w <= MAX_WEIGHT
    ensures w == 0.0 || w <= n.weight
    ensures w == MAX_WEIGHT || w >= n.weight
  {
    if n.weight < 0.0 then 0.0 else if n.weight > MAX_WEIGHT then MAX_WEIGHT else n.weight
  }

  function Age(notes: seq<Note>): real
    requires notes != []
  {
    if |notes| == 1 then 0.0 else notes[|notes| - 1].at - notes[|notes| - 2].at
  }

  function Faded(score: real, left: real): real {
    score * left
  }

  /** The ledger's score for the subject right after the last note. */
  function Score(notes: seq<Note>, factor: real -> real): real {
    if notes == [] then 0.0
    else Faded(Score(notes[..|notes| - 1], factor), Left(factor, Age(notes))) + Worth(notes[|notes| - 1])
  }

  /** The part of that score one rule brought in. */
  function Part(notes: seq<Note>, rule: RuleId, factor: real -> real): real {
    if notes == [] then 0.0
    else
      var last := notes[|notes| - 1];
      Faded(Part(notes[..|notes| - 1], rule, factor), Left(factor, Age(notes)))
      + if last.rule == rule then Worth(last) else 0.0
  }

  /** How much of the score of note `k` is left at the last note. */
  function LeftSince(notes: seq<Note>, k: nat, factor: real -> real): real
    requires k < |notes|
  {
    Left(factor, notes[|notes| - 1].at - notes[k].at)
  }

  lemma LeftComposes(factor: real -> real, halfLife: real, a: real, b: real)
    requires Halving(factor, halfLife) && a >= 0.0 && b >= 0.0
    ensures Faded(Left(factor, a), Left(factor, b)) == Left(factor, a + b)
    ensures 0.0 <= Left(factor, a) <= 1.0
    ensures a >= halfLife ==> Left(factor, a) <= 0.5
  {
    assert Composes(factor, a, b);
    if a >= halfLife {
      assert Composes(factor, halfLife, a - halfLife);
      assert factor(halfLife + (a - halfLife)) == factor(a);
    }
  }

  /** A clock that goes back between two notes fades a score no less than one that does not. */
  lemma LeftInSteps(factor: real -> real, halfLife: real, a: real, b: real)
    requires Halving(factor, halfLife)
    ensures 0.0 <= Faded(Left(factor, a), Left(factor, b)) <= Left(factor, a + b)
  {
    LeftWithin(factor, halfLife, a);
    LeftWithin(factor, halfLife, b);
    if a > 0.0 && b > 0.0 {
      LeftComposes(factor, halfLife, a, b);
    } else if a > 0.0 {
      FadedUnits(Left(factor, a));
      LeftFalls(factor, halfLife, a + b, a);
    } else {
      Commutes(Left(factor, a), Left(factor, b));
      FadedUnits(Left(factor, b));
      LeftFalls(factor, halfLife, a + b, b);
    }
  }

  lemma LeftFalls(factor: real -> real, halfLife: real, a: real, b: real)
    requires Halving(factor, halfLife) && a <= b
    ensures Left(factor, b) <= Left(factor, a)
  {
    hide Faded;
    LeftWithin(factor, halfLife, a);
    LeftWithin(factor, halfLife, b);
    if a > 0.0 {
      LeftComposes(factor, halfLife, a, b - a);
      LeftWithin(factor, halfLife, b - a);
      Shrinks(Left(factor, a), Left(factor, b - a));
    }
  }

  /** With none of the rule's notes after `k`, its part has only decayed since. */
  lemma {:induction false} PartDecays(notes: seq<Note>, rule: RuleId, k: nat, factor: real -> real, halfLife: real)
    requires Halving(factor, halfLife) && k < |notes|
    requires forall i :: k < i < |notes| ==> notes[i].rule != rule
    requires Part(notes[..k + 1], rule, factor) >= 0.0
    ensures 0.0 <= Part(notes, rule, factor) <= Faded(Part(notes[..k + 1], rule, factor), LeftSince(notes, k, factor))
  {
    hide Halving, Left, Faded;
    if k == |notes| - 1 {
      assert notes[..k + 1] == notes;
      LeftNow(factor);
      FadedUnits(Part(notes, rule, factor));
    } else {
      var front := notes[..|notes| - 1];
      assert front[..k + 1] == notes[..k + 1];
      PartDecays(front, rule, k, factor, halfLife);
      FadesOn(Part(notes[..k + 1], rule, factor), Part(front, rule, factor), front[|front| - 1].at - notes[k].at,
              Age(notes), factor, halfLife);
    }
  }

  /** A part inside what a first time leaves of it is, one more time later, inside what both
      together leave. */
  lemma FadesOn(start: real, part: real, a: real, b: real, factor: real -> real, halfLife: real)
    requires Halving(factor, halfLife) && start >= 0.0 && 0.0 <= part <= Faded(start, Left(factor, a))
    ensures 0.0 <= Faded(part, Left(factor, b)) <= Faded(start, Left(factor, a + b))
  {
    hide Halving, Left;
    LeftWithin(factor, halfLife, b);
    LeftInSteps(factor, halfLife, a, b);
    Monotone(Left(factor, b), part, Faded(start, Left(factor, a)));
    Regroup(start, Left(factor, a), Left(factor, b));
    Monotone(start, Faded(Left(factor, a), Left(factor, b)), Left(factor, a + b));
    Commutes(part, Left(factor, b));
    Commutes(Faded(start, Left(factor, a)), Left(factor, b));
  }

  lemma LeftNow(factor: real -> real)
    ensures Left(factor, 0.0) == 1.0
  {
  }

  lemma FadedUnits(a: real)
    ensures Faded(a, 1.0) == a && Faded(0.0, a) == 0.0
  {
  }

  lemma Regroup(a: real, b: real, c: real)
    ensures Faded(Faded(a, b), c) == Faded(a, Faded(b, c))
  {
  }

  lemma Commutes(a: real, b: real)
    ensures Faded(a, b) == Faded(b, a)
  {
  }

  lemma Monotone(a: real, least: real, most: real)
    requires 0.0 <= a && 0.0 <= least <= most
    ensures 0.0 <= Faded(a, least) <= Faded(a, most)
  {
  }

  lemma AtMostHalf(part: real, left: real, bound: real)
    requires 0.0 <= part < bound && 0.0 <= left <= 0.5
    ensures 0.0 <= Faded(part, left) < bound / 2.0
  {
  }

  lemma Shrinks(part: real, left: real)
    requires 0.0 <= part && 0.0 <= left <= 1.0
    ensures 0.0 <= Faded(part, left) <= part
  {
  }

  /** The rule's last note before the end. */
  function LastOf(notes: seq<Note>, rule: RuleId): (k: int)
    ensures -1 <= k < |notes| && (k >= 0 ==> notes[k].rule == rule)
    ensures forall i :: k < i < |notes| ==> notes[i].rule != rule
  {
    if notes == [] then -1
    else if notes[|notes| - 1].rule == rule then |notes| - 1
    else LastOf(notes[..|notes| - 1], rule)
  }

  lemma {:induction false} NoNotesNoPart(notes: seq<Note>, rule: RuleId, factor: real -> real)
    requires forall i :: 0 <= i < |notes| ==> notes[i].rule != rule
    ensures Part(notes, rule, factor) == 0.0
  {
    if notes != [] {
      NoNotesNoPart(notes[..|notes| - 1], rule, factor);
      FadedUnits(Left(factor, Age(notes)));
    }
  }

  /** Notes of one rule a half-life apart never add up to twice its weight, whatever other
      rules say in between. */
  lemma {:induction false} PartBelowTwice(notes: seq<Note>, rule: RuleId, weight: real, factor: real -> real,
                                          halfLife: real)
    requires Halving(factor, halfLife) && Spaced(notes, rule, halfLife) && weight > 0.0
    requires forall n :: n in notes && n.rule == rule ==> Worth(n) <= weight
    ensures 0.0 <= Part(notes, rule, factor) < 2.0 * weight
    decreases |notes|
  {
    hide Halving, Left, Worth, Age, Faded;
    if notes != [] {
      var n := |notes| - 1;
      var front := notes[..n];
      var k := LastOf(front, rule);
      if notes[n].rule != rule {
        PartBelowTwice(front, rule, weight, factor, halfLife);
        PartOther(notes, rule, factor, halfLife);
      } else if k < 0 {
        assert notes[n] in notes;
        NoNotesNoPart(front, rule, factor);
        FadedUnits(Left(factor, Age(notes)));
      } else {
        assert notes[n] in notes;
        PartBelowTwice(notes[..k + 1], rule, weight, factor, halfLife);
        PartAgain(notes, rule, k, weight, factor, halfLife);
      }
    }
  }

  lemma PartAgain(notes: seq<Note>, rule: RuleId, k: nat, weight: real, factor: real -> real, halfLife: real)
    requires Halving(factor, halfLife) && k < |notes| - 1 && notes[|notes| - 1].rule == rule
    requires forall i :: k < i < |notes| - 1 ==> notes[i].rule != rule
    requires notes[|notes| - 1].at - notes[k].at >= halfLife && Worth(notes[|notes| - 1]) <= weight
    requires 0.0 <= Part(notes[..k + 1], rule, factor) < 2.0 * weight
    ensures 0.0 <= Part(notes, rule, factor) < 2.0 * weight
  {
    hide Halving, Left, Worth, Age, Faded, Part;
    PartAfterGap(notes, rule, k, factor, halfLife);
    LeftAfterHalfLife(factor, halfLife, notes[|notes| - 1].at - notes[k].at);
    AtMostHalf(Part(notes[..k + 1], rule, factor), LeftSince(notes, k, factor), 2.0 * weight);
  }

  lemma PartOther(notes: seq<Note>, rule: RuleId, factor: real -> real, halfLife: real)
    requires Halving(factor, halfLife) && notes != [] && notes[|notes| - 1].rule != rule
    requires Part(notes[..|notes| - 1], rule, factor) >= 0.0
    ensures 0.0 <= Part(notes, rule, factor) <= Part(notes[..|notes| - 1], rule, factor)
  {
    hide Halving, Left, Age, Faded;
    LeftWithin(factor, halfLife, Age(notes));
    Shrinks(Part(notes[..|notes| - 1], rule, factor), Left(factor, Age(notes)));
  }

  lemma LeftWithin(factor: real -> real, halfLife: real, age: real)
    requires Halving(factor, halfLife)
    ensures 0.0 <= Left(factor, age) <= 1.0
  {
  }

  lemma LeftAfterHalfLife(factor: real -> real, halfLife: real, age: real)
    requires Halving(factor, halfLife) && age >= halfLife
    ensures 0.0 <= Left(factor, age) <= 0.5
  {
    LeftComposes(factor, halfLife, age, 0.0);
  }

  lemma PartAfterGap(notes: seq<Note>, rule: RuleId, k: nat, factor: real -> real, halfLife: real)
    requires Halving(factor, halfLife) && k < |notes| - 1 && notes[|notes| - 1].rule == rule
    requires forall i :: k < i < |notes| - 1 ==> notes[i].rule != rule
    requires Part(notes[..k + 1], rule, factor) >= 0.0
    ensures 0.0 <= Part(notes, rule, factor)
    ensures Part(notes, rule, factor)
         <= Faded(Part(notes[..k + 1], rule, factor), LeftSince(notes, k, factor)) + Worth(notes[|notes| - 1])
  {
    hide Halving, Left, Worth, Faded;
    var front := notes[..|notes| - 1];
    assert front[..k + 1] == notes[..k + 1];
    PartDecays(front, rule, k, factor, halfLife);
    FadesOn(Part(notes[..k + 1], rule, factor), Part(front, rule, factor), front[|front| - 1].at - notes[k].at,
            Age(notes), factor, halfLife);
  }

  /** The score with every rule's notes told apart. */
  function Parts(notes: seq<Note>, rules: seq<Rule>, factor: real -> real): real {
    if rules == [] then 0.0
    else Parts(notes, rules[..|rules| - 1], factor) + Part(notes, rules[|rules| - 1].id, factor)
  }

  function Weight(rules: seq<Rule>): real {
    if rules == [] then 0.0 else Weight(rules[..|rules| - 1]) + rules[|rules| - 1].weight
  }

  predicate DistinctIds(rules: seq<Rule>) {
    forall i, j :: 0 <= i < j < |rules| ==> rules[i].id != rules[j].id
  }

  predicate Names(rules: seq<Rule>, id: RuleId) {
    exists i :: 0 <= i < |rules| && rules[i].id == id
  }

  function WorthTo(note: Note, rules: seq<Rule>): real {
    if Names(rules, note.rule) then Worth(note) else 0.0
  }

  lemma {:induction false} PartsStep(notes: seq<Note>, rules: seq<Rule>, factor: real -> real)
    requires notes != [] && DistinctIds(rules)
    ensures Parts(notes, rules, factor)
         == Faded(Parts(notes[..|notes| - 1], rules, factor), Left(factor, Age(notes)))
           + WorthTo(notes[|notes| - 1], rules)
  {
    hide Worth, Left, Age, Faded;
    FadedUnits(Left(factor, Age(notes)));
    if rules != [] {
      var front, last := rules[..|rules| - 1], rules[|rules| - 1];
      var before, note := notes[..|notes| - 1], notes[|notes| - 1];
      PartsStep(notes, front, factor);
      Distribute(Parts(before, front, factor), Part(before, last.id, factor), Left(factor, Age(notes)));
      if Names(front, note.rule) {
        var i :| 0 <= i < |front| && front[i].id == note.rule;
        assert rules[i].id == note.rule && rules[i].id != last.id;
      } else if last.id == note.rule {
        assert rules[|rules| - 1].id == note.rule;
      } else {
        assert forall i :: 0 <= i < |front| ==> rules[i] == front[i];
      }
    }
  }

  lemma Distribute(a: real, b: real, c: real)
    ensures Faded(a + b, c) == Faded(a, c) + Faded(b, c)
  {
  }

  lemma {:induction false} NothingToPart(rules: seq<Rule>, factor: real -> real)
    ensures Parts([], rules, factor) == 0.0
  {
    if rules != [] {
      NothingToPart(rules[..|rules| - 1], factor);
    }
  }

  /** The ledger adds nothing of its own: the score is the rules' parts together. */
  lemma {:induction false} ScoreIsParts(notes: seq<Note>, rules: seq<Rule>, factor: real -> real)
    requires DistinctIds(rules)
    requires forall n :: n in notes ==> Names(rules, n.rule)
    ensures Score(notes, factor) == Parts(notes, rules, factor)
  {
    hide Worth, Left, Age, Part, Names, DistinctIds, Faded;
    if notes == [] {
      NothingToPart(rules, factor);
    } else {
      ScoreIsParts(notes[..|notes| - 1], rules, factor);
      PartsStep(notes, rules, factor);
      assert notes[|notes| - 1] in notes;
    }
  }

  /** Each note's worth, faded since it was made, together. */
  function Total(notes: seq<Note>, now: real, factor: real -> real): real {
    if notes == [] then 0.0
    else
      var last := notes[|notes| - 1];
      Total(notes[..|notes| - 1], now, factor) + Faded(Worth(last), Left(factor, now - last.at))
  }

  predicate InOrder(notes: seq<Note>) {
    forall i, j :: 0 <= i < j < |notes| ==> notes[i].at <= notes[j].at
  }

  lemma {:induction false} TotalFades(notes: seq<Note>, t: real, now: real, factor: real -> real, halfLife: real)
    requires Halving(factor, halfLife) && t <= now
    requires forall n :: n in notes ==> n.at <= t
    ensures Total(notes, now, factor) == Faded(Total(notes, t, factor), Left(factor, now - t))
    decreases notes
  {
    hide Halving, Left, Worth, Faded;
    var left := Left(factor, now - t);
    if notes == [] {
      FadedUnits(left);
    } else {
      var rest, last := notes[..|notes| - 1], notes[|notes| - 1];
      assert last in notes;
      TotalFades(rest, t, now, factor, halfLife);
      var since := Left(factor, t - last.at);
      LeftComposes(factor, halfLife, t - last.at, now - t);
      assert (t - last.at) + (now - t) == now - last.at;
      Regroup(Worth(last), since, left);
      Spreads(Total(rest, t, factor), Faded(Worth(last), since), left);
    }
  }

  lemma Spreads(a: real, b: real, left: real)
    ensures Faded(a + b, left) == Faded(a, left) + Faded(b, left)
  {
  }

  /** Fading lazily, a note at a time, loses nothing: the score is what fading every note on its
      own would give. */
  lemma {:induction false} ScoreIsTotal(notes: seq<Note>, factor: real -> real, halfLife: real)
    requires Halving(factor, halfLife) && InOrder(notes) && notes != []
    ensures Score(notes, factor) == Total(notes, notes[|notes| - 1].at, factor)
  {
    hide Halving, Worth, Faded;
    var rest, last := notes[..|notes| - 1], notes[|notes| - 1];
    FadedUnits(Worth(last));
    FadedUnits(Left(factor, Age(notes)));
    if rest != [] {
      ScoreIsTotal(rest, factor, halfLife);
      TotalFades(rest, rest[|rest| - 1].at, last.at, factor, halfLife);
    }
  }

  lemma {:induction false} PartsBelowTwice(notes: seq<Note>, rules: seq<Rule>, factor: real -> real, halfLife: real)
    requires Halving(factor, halfLife) && rules != []
    requires forall r :: r in rules ==>
      && r.weight > 0.0 && Spaced(notes, r.id, halfLife)
      && forall n :: n in notes && n.rule == r.id ==> Worth(n) <= r.weight
    ensures Parts(notes, rules, factor) < 2.0 * Weight(rules)
  {
    hide Halving, Spaced, Worth, Part;
    var front, last := rules[..|rules| - 1], rules[|rules| - 1];
    assert rules == front + [last];
    PartBelowTwice(notes, last.id, last.weight, factor, halfLife);
    if front == [] {
      assert Parts(notes, front, factor) == 0.0;
    } else {
      PartsBelowTwice(notes, front, factor, halfLife);
    }
  }

  // ------------------------------------------------------------------ the two together

  lemma {:induction false} NotesAreWeighed(table: seq<Charge>, ops: seq<Op>, subject: Subject, recharge: real,
                                           weights: Weights)
    ensures forall n :: n in Notes(table, ops, subject, recharge, weights) ==> n.weight == weights(n.rule)
    decreases ops
  {
    if ops != [] {
      hide Step, MayCharge;
      NotesAreWeighed(Step(table, ops[0], recharge), ops[1..], subject, recharge, weights);
    }
  }

  /** What one charge of a rule is worth to the ledger. */
  function WorthOf(weight: real): real {
    Worth(Note(0, weight, 0.0))
  }

  /** End to end: however long a rule keeps firing on a subject, whatever the others say and
      whatever the clock does, what it costs that subject stays below twice its worth. */
  lemma OneRuleIsNeverDecisive(ops: seq<Op>, pair: Pair, recharge: real, weights: Weights, factor: real -> real,
                               halfLife: real)
    requires Halving(factor, halfLife) && recharge >= halfLife && weights(pair.rule) > 0.0
    requires Kept([], ops, pair, recharge)
    ensures CostOf(ops, pair, recharge, weights, factor) < 2.0 * WorthOf(weights(pair.rule))
  {
    hide Kept, Notes, Part;
    var notes := Notes([], ops, pair.subject, recharge, weights);
    ChargesAreSpaced([], ops, pair, recharge, weights);
    NotesAreWeighed([], ops, pair.subject, recharge, weights);
    PartBelowTwice(notes, pair.rule, WorthOf(weights(pair.rule)), factor, halfLife);
  }

  /** What the pair's rule has cost its subject by the end of a run from an empty table. */
  function CostOf(ops: seq<Op>, pair: Pair, recharge: real, weights: Weights, factor: real -> real): real {
    Part(Notes([], ops, pair.subject, recharge, weights), pair.rule, factor)
  }

  // ------------------------------------------------------------------ a ledger slower than the watch

  /** So many steps of a size, one after the other. */
  function Times(n: nat, step: real): real {
    if n == 0 then 0.0 else Times(n - 1, step) + step
  }

  /** The rule fires whenever it may: `n` asks, one recharge apart. */
  function Relentless(pair: Pair, recharge: real, n: nat): seq<Op> {
    if n == 0 then [] else Relentless(pair, recharge, n - 1) + [Ask(pair, Times(n - 1, recharge))]
  }

  function RelentlessNotes(pair: Pair, recharge: real, weights: Weights, n: nat): (notes: seq<Note>)
    ensures |notes| == n
  {
    if n == 0 then []
    else RelentlessNotes(pair, recharge, weights, n - 1)
         + [Note(pair.rule, weights(pair.rule), Times(n - 1, recharge))]
  }

  /** Every ask of the run is a charge, and the pair stays in the table throughout. */
  lemma {:induction false} RelentlessIsCharged(pair: Pair, recharge: real, weights: Weights, n: nat)
    requires recharge >= 0.0
    ensures Notes([], Relentless(pair, recharge, n), pair.subject, recharge, weights)
         == RelentlessNotes(pair, recharge, weights, n)
    ensures Kept([], Relentless(pair, recharge, n), pair, recharge)
    ensures RunTable([], Relentless(pair, recharge, n), recharge)
         == if n == 0 then [] else [Charge(pair, Times(n - 1, recharge))]
  {
    if n > 0 {
      var front, op := Relentless(pair, recharge, n - 1), Ask(pair, Times(n - 1, recharge));
      RelentlessIsCharged(pair, recharge, weights, n - 1);
      RunSnoc([], front, op, pair, recharge, weights);
      OneMoreCharge(pair, recharge, n);
    }
  }

  lemma OneMoreCharge(pair: Pair, recharge: real, n: nat)
    requires recharge >= 0.0 && n > 0
    ensures var table := if n == 1 then [] else [Charge(pair, Times(n - 2, recharge))];
            var now := Times(n - 1, recharge);
            MayCharge(table, pair, now, recharge) && Asked(table, pair, now, recharge) == [Charge(pair, now)]
  {
    if n > 1 {
      var table := [Charge(pair, Times(n - 2, recharge))];
      assert Find(table, pair) == 0;
      assert RemoveAt(table, 0) == [];
    }
  }

  function RunTable(table: seq<Charge>, ops: seq<Op>, recharge: real): seq<Charge>
    decreases ops
  {
    if ops == [] then table else RunTable(Step(table, ops[0], recharge), ops[1..], recharge)
  }

  lemma {:induction false} RunSnoc(table: seq<Charge>, ops: seq<Op>, op: Op, pair: Pair, recharge: real,
                                   weights: Weights)
    ensures RunTable(table, ops + [op], recharge) == Step(RunTable(table, ops, recharge), op, recharge)
    ensures Notes(table, ops + [op], pair.subject, recharge, weights)
         == Notes(table, ops, pair.subject, recharge, weights)
            + Told(RunTable(table, ops, recharge), op, pair.subject, recharge, weights)
    ensures var last := RunTable(table, ops, recharge);
            Kept(table, ops, pair, recharge) && (Holds(last, pair) ==> Holds(Step(last, op, recharge), pair)) ==>
              Kept(table, ops + [op], pair, recharge)
    decreases ops
  {
    hide Step, Told, Holds;
    if ops == [] {
      assert [] + [op] == [op] && [op][1..] == [];
    } else {
      assert (ops + [op])[0] == ops[0] && (ops + [op])[1..] == ops[1..] + [op];
      RunSnoc(Step(table, ops[0], recharge), ops[1..], op, pair, recharge, weights);
    }
  }

  /** With a half-life longer than the recharge more than half of a charge is left when the
      next one comes. */
  lemma MoreThanHalfLeft(factor: real -> real, halfLife: real, recharge: real)
    requires Halving(factor, halfLife) && 0.0 <= recharge < halfLife
    ensures 0.5 < Left(factor, recharge) <= 1.0
  {
    hide Faded;
    LeftWithin(factor, halfLife, recharge);
    var rest := halfLife - recharge;
    LeftComposes(factor, halfLife, recharge, rest);
    LeftWithin(factor, halfLife, rest);
    if Left(factor, rest) == 1.0 {
      var n := StepsReach(halfLife, rest);
      NothingFades(factor, halfLife, rest, n);
      LeftAfterHalfLife(factor, halfLife, Times(n, rest));
    } else {
      HalfOfLess(Left(factor, recharge), Left(factor, rest));
    }
  }

  lemma {:induction false} TimesIs(n: nat, step: real)
    ensures Times(n, step) == n as real * step
  {
    if n > 0 {
      TimesIs(n - 1, step);
      assert n as real * step == (n - 1) as real * step + step;
    }
  }

  /** Steps of any size reach any distance. */
  lemma StepsReach(far: real, step: real) returns (n: nat)
    requires step > 0.0 && far > 0.0
    ensures Times(n, step) >= far
  {
    var q := far / step;
    assert q * step == far && q >= 0.0;
    n := q.Floor + 1;
    TimesIs(n, step);
    Monotone(step, q, n as real);
    Commutes(step, q);
    Commutes(step, n as real);
  }

  lemma {:induction false} NothingFades(factor: real -> real, halfLife: real, step: real, n: nat)
    requires Halving(factor, halfLife) && step > 0.0 && Left(factor, step) == 1.0
    ensures Times(n, step) >= 0.0 && Left(factor, Times(n, step)) == 1.0
  {
    if n > 0 {
      NothingFades(factor, halfLife, step, n - 1);
      OneStepMore(factor, halfLife, Times(n - 1, step), step);
    }
  }

  lemma OneStepMore(factor: real -> real, halfLife: real, before: real, step: real)
    requires Halving(factor, halfLife) && before >= 0.0 && step > 0.0
    requires Left(factor, before) == 1.0 && Left(factor, step) == 1.0
    ensures Left(factor, before + step) == 1.0
  {
    hide Halving, Left, Faded;
    LeftComposes(factor, halfLife, before, step);
    FadedUnits(1.0);
  }

  lemma HalfOfLess(a: real, b: real)
    requires 0.0 <= a <= 1.0 && 0.0 <= b < 1.0 && Faded(a, b) == 0.5
    ensures a > 0.5
  {
    if a <= 0.5 {
      Commutes(a, b);
      Monotone(b, a, 0.5);
    }
  }

  /** Each charge adds at least a fixed amount until the cost has reached twice the worth. */
  lemma {:induction false} RelentlessClimbs(pair: Pair, recharge: real, weights: Weights, factor: real -> real,
                                            halfLife: real, n: nat)
    requires Halving(factor, halfLife) && 0.0 <= recharge < halfLife && weights(pair.rule) > 0.0
    ensures var cost := Part(RelentlessNotes(pair, recharge, weights, n), pair.rule, factor);
            var worth := WorthOf(weights(pair.rule));
            var gain := Faded(worth, 2.0 * Left(factor, recharge) - 1.0);
            cost >= 0.0 && (cost >= 2.0 * worth || cost >= Times(n, gain))
  {
    hide Halving, Left, Worth, WorthOf, Faded, Part, RelentlessNotes, Times;
    if n == 0 {
      NothingYet(pair, recharge, weights, factor);
    } else {
      RelentlessClimbs(pair, recharge, weights, factor, halfLife, n - 1);
      MoreThanHalfLeft(factor, halfLife, recharge);
      RelentlessStep(pair, recharge, weights, factor, n);
      WorthPositive(weights(pair.rule));
      var before := Part(RelentlessNotes(pair, recharge, weights, n - 1), pair.rule, factor);
      Gains(before, Left(factor, recharge), WorthOf(weights(pair.rule)), n);
    }
  }

  lemma NothingYet(pair: Pair, recharge: real, weights: Weights, factor: real -> real)
    ensures Part(RelentlessNotes(pair, recharge, weights, 0), pair.rule, factor) == 0.0
    ensures forall gain :: Times(0, gain) == 0.0
  {
  }

  lemma RelentlessStep(pair: Pair, recharge: real, weights: Weights, factor: real -> real, n: nat)
    requires n > 0
    ensures Part(RelentlessNotes(pair, recharge, weights, n), pair.rule, factor)
         == Faded(Part(RelentlessNotes(pair, recharge, weights, n - 1), pair.rule, factor), Left(factor, recharge))
            + WorthOf(weights(pair.rule))
  {
    hide Left, Faded;
    var notes := RelentlessNotes(pair, recharge, weights, n);
    var front := RelentlessNotes(pair, recharge, weights, n - 1);
    assert notes[..n - 1] == front;
    if n == 1 {
      FadedUnits(Left(factor, Age(notes)));
      FadedUnits(Left(factor, recharge));
    } else {
      assert Age(notes) == recharge by {
        }
    }
  }

  lemma WorthPositive(weight: real)
    requires weight > 0.0
    ensures WorthOf(weight) > 0.0
  {
  }

  lemma Gains(before: real, left: real, worth: real, n: nat)
    requires 0.5 < left <= 1.0 && worth >= 0.0 && n > 0 && before >= 0.0
    requires before >= 2.0 * worth || before >= Times(n - 1, Faded(worth, 2.0 * left - 1.0))
    ensures var cost := Faded(before, left) + worth;
            && cost >= 0.0
            && (cost >= 2.0 * worth || cost >= Times(n, Faded(worth, 2.0 * left - 1.0)))
  {
    var gain := Faded(worth, 2.0 * left - 1.0);
    Expand(worth, left, before);
    hide Faded;
    if before >= 2.0 * worth {
      Monotone(left, 2.0 * worth, before);
      Monotone(worth, 0.5, left);
    } else {
      Monotone(1.0 - left, before, 2.0 * worth);
      Monotone(left, 0.0, before);
    }
  }

  lemma Expand(worth: real, left: real, before: real)
    ensures Faded(worth, 2.0 * left - 1.0) == 2.0 * Faded(worth, left) - worth
    ensures Faded(left, 2.0 * worth) == 2.0 * Faded(worth, left) && Faded(worth, 0.5) == worth / 2.0
    ensures Faded(1.0 - left, before) == before - Faded(before, left) && Faded(left, before) == Faded(before, left)
    ensures Faded(1.0 - left, 2.0 * worth) == 2.0 * worth - 2.0 * Faded(worth, left)
    ensures Faded(left, 0.0) == 0.0
  {
    Doubled(worth, left);
    Doubled(left, worth);
    Complement(left, before);
    Complement(left, 2.0 * worth);
    Commutes(left, 2.0 * worth);
    Commutes(left, before);
    Commutes(left, worth);
    assert Faded(worth, 2.0 * left - 1.0) == Faded(worth, 2.0 * left) - worth;
  }

  lemma Doubled(a: real, b: real)
    ensures Faded(a, 2.0 * b) == 2.0 * Faded(a, b)
  {
  }

  lemma Complement(left: real, a: real)
    ensures Faded(1.0 - left, a) == a - Faded(left, a)
  {
  }

  /** Charging at every chance then brings the subject's cost to twice the worth or more. */
  lemma SlowLedgerIsOutrun(pair: Pair, recharge: real, weights: Weights, factor: real -> real, halfLife: real)
    returns (ops: seq<Op>)
    requires Halving(factor, halfLife) && 0.0 <= recharge < halfLife && weights(pair.rule) > 0.0
    ensures Kept([], ops, pair, recharge)
    ensures CostOf(ops, pair, recharge, weights, factor) >= 2.0 * WorthOf(weights(pair.rule))
  {
    hide Halving, Left, Worth, WorthOf, Faded, Part, Notes, Kept, Relentless;
    WorthPositive(weights(pair.rule));
    var worth := WorthOf(weights(pair.rule));
    MoreThanHalfLeft(factor, halfLife, recharge);
    var gain := Faded(worth, 2.0 * Left(factor, recharge) - 1.0);
    Positive(worth, 2.0 * Left(factor, recharge) - 1.0);
    var n := StepsReach(2.0 * worth, gain);
    RelentlessClimbs(pair, recharge, weights, factor, halfLife, n);
    RelentlessIsCharged(pair, recharge, weights, n);
    ops := Relentless(pair, recharge, n);
  }

  lemma Positive(a: real, b: real)
    requires a > 0.0 && b > 0.0
    ensures Faded(a, b) > 0.0
  {
  }

  /** The doctrine holds exactly when the ledger forgets at least as fast as a rule may
      charge again. */
  lemma NeverDecisiveExactly(pair: Pair, recharge: real, weights: Weights, factor: real -> real, halfLife: real)
    requires Halving(factor, halfLife) && recharge >= 0.0 && weights(pair.rule) > 0.0
    ensures recharge >= halfLife <==>
              forall ops :: Kept([], ops, pair, recharge) ==>
                CostOf(ops, pair, recharge, weights, factor) < 2.0 * WorthOf(weights(pair.rule))
  {
    hide Halving, Kept, CostOf, WorthOf;
    if recharge >= halfLife {
      forall ops | Kept([], ops, pair, recharge)
        ensures CostOf(ops, pair, recharge, weights, factor) < 2.0 * WorthOf(weights(pair.rule))
      {
        OneRuleIsNeverDecisive(ops, pair, recharge, weights, factor, halfLife);
      }
    } else {
      var ops := SlowLedgerIsOutrun(pair, recharge, weights, factor, halfLife);
    }
  }

  // ------------------------------------------------------------------ the disarm

  lemma {:induction false} SpeakOnlyHits(table: seq<Charge>, rule: RuleId, hits: seq<Subject>, now: real,
                                         recharge: real)
    ensures forall s :: s in Speak(table, rule, hits, now, recharge).1 ==> s in hits
  {
    if hits != [] {
      hide Asked, MayCharge;
      SpeakOnlyHits(table, rule, hits[..|hits| - 1], now, recharge);
    }
  }

  lemma {:induction false} HitsMeaning(fires: Fires, rule: RuleId, observed: seq<Subject>)
    ensures forall s :: s in Hits(fires, rule, observed) <==> s in observed && fires(rule, s)
    ensures |Hits(fires, rule, observed)| <= |observed|
  {
    if observed != [] {
      var front := observed[..|observed| - 1];
      HitsMeaning(fires, rule, front);
      assert observed == front + [observed[|observed| - 1]];
    }
  }

  /** A report that names an observed subject the rule fired on, with the rule's own weight,
      and comes from a rule with one hit only or with no more than the share allows. */
  predicate Earned(f: Finding, rules: seq<Rule>, observed: seq<Subject>, fires: Fires, population: nat, share: real) {
    && f.subject in observed && fires(f.rule, f.subject) && Rule(f.rule, f.weight) in rules
    && (|Hits(fires, f.rule, observed)| <= 1 || |Hits(fires, f.rule, observed)| as real <= population as real * share)
  }

  lemma {:induction false} ReportsAreEarned(table: seq<Charge>, rules: seq<Rule>, observed: seq<Subject>, fires: Fires,
                                            population: nat, share: real, now: real, recharge: real)
    ensures forall f :: f in Judged(table, rules, observed, fires, population, share, now, recharge).1 ==>
              Earned(f, rules, observed, fires, population, share)
  {
    if rules != [] {
      hide Speak, OverShare, Hits;
      var n := |rules| - 1;
      var (before, reported) := Judged(table, rules[..n], observed, fires, population, share, now, recharge);
      ReportsAreEarned(table, rules[..n], observed, fires, population, share, now, recharge);
      var hits := Hits(fires, rules[n].id, observed);
      if !OverShare(|hits|, population, share) {
        SpeakOnlyHits(before, rules[n].id, hits, now, recharge);
        HitsMeaning(fires, rules[n].id, observed);
        OverShareExactly(|hits|, population, share);
        var said := Speak(before, rules[n].id, hits, now, recharge).1;
        forall f | f in Findings(rules[n], said) ensures Earned(f, rules, observed, fires, population, share) {
          var i :| 0 <= i < |said| && Findings(rules[n], said)[i] == f;
          assert said[i] in said && rules[n] == Rule(f.rule, f.weight);
        }
      }
    }
  }

  /** How many of the findings are one rule's. */
  function By(findings: seq<Finding>, rule: RuleId): nat {
    if findings == [] then 0
    else By(findings[..|findings| - 1], rule) + if findings[|findings| - 1].rule == rule then 1 else 0
  }

  lemma {:induction false} ByConcat(a: seq<Finding>, b: seq<Finding>, rule: RuleId)
    ensures By(a + b, rule) == By(a, rule) + By(b, rule)
  {
    if b == [] {
      assert a + b == a;
    } else {
      ByConcat(a, b[..|b| - 1], rule);
      assert (a + b)[..|a + b| - 1] == a + b[..|b| - 1];
    }
  }

  lemma {:induction false} ByOneRule(r: Rule, said: seq<Subject>, rule: RuleId)
    ensures By(Findings(r, said), rule) == if r.id == rule then |said| else 0
  {
    if said != [] {
      var front := said[..|said| - 1];
      ByOneRule(r, front, rule);
      assert Findings(r, said)[..|said| - 1] == Findings(r, front);
    }
  }

  lemma {:induction false} SpeakNoMoreThanHits(table: seq<Charge>, rule: RuleId, hits: seq<Subject>, now: real,
                                               recharge: real)
    ensures |Speak(table, rule, hits, now, recharge).1| <= |hits|
  {
    if hits != [] {
      hide Asked, MayCharge;
      SpeakNoMoreThanHits(table, rule, hits[..|hits| - 1], now, recharge);
    }
  }

  lemma {:induction false} UnnamedSaysNothing(table: seq<Charge>, rules: seq<Rule>, observed: seq<Subject>,
                                              fires: Fires, population: nat, share: real, now: real,
                                              recharge: real, rule: RuleId)
    requires !Names(rules, rule)
    ensures By(Judged(table, rules, observed, fires, population, share, now, recharge).1, rule) == 0
  {
    if rules != [] {
      hide Speak, OverShare, Hits;
      var n := |rules| - 1;
      assert forall i :: 0 <= i < n ==> rules[..n][i] == rules[i];
      UnnamedSaysNothing(table, rules[..n], observed, fires, population, share, now, recharge, rule);
      var (before, reported) := Judged(table, rules[..n], observed, fires, population, share, now, recharge);
      var said := Speak(before, rules[n].id, Hits(fires, rules[n].id, observed), now, recharge).1;
      assert rules[n].id != rule;
      ByOneRule(rules[n], said, rule);
      ByConcat(reported, Findings(rules[n], said), rule);
    }
  }

  /** However many subjects a rule fires on, in one sweep it accuses one at most, or no more
      than the share of the population. */
  lemma {:induction false} OneRuleSaysFew(table: seq<Charge>, rules: seq<Rule>, observed: seq<Subject>, fires: Fires,
                                          population: nat, share: real, now: real, recharge: real, rule: RuleId)
    requires DistinctIds(rules)
    ensures var n := By(Judged(table, rules, observed, fires, population, share, now, recharge).1, rule);
            n <= 1 || n as real <= population as real * share
  {
    if rules != [] {
      hide Speak, OverShare, Hits;
      var n := |rules| - 1;
      var front, last := rules[..n], rules[n];
      assert rules == front + [last];
      var (before, reported) := Judged(table, front, observed, fires, population, share, now, recharge);
      OneRuleSaysFew(table, front, observed, fires, population, share, now, recharge, rule);
      var hits := Hits(fires, last.id, observed);
      var said := Speak(before, last.id, hits, now, recharge).1;
      ByOneRule(last, said, rule);
      ByConcat(reported, Findings(last, said), rule);
      if last.id == rule {
        UnnamedSaysNothing(table, front, observed, fires, population, share, now, recharge, rule);
        SpeakNoMoreThanHits(before, last.id, hits, now, recharge);
        OverShareExactly(|hits|, population, share);
      }
    }
  }

  /** Each subject counts once: with nobody observed twice, a rule's hits are as many as the
      observed subjects it fires on. */
  lemma {:induction false} HitsCount(fires: Fires, rule: RuleId, observed: seq<Subject>)
    requires Distinct(observed)
    ensures |Hits(fires, rule, observed)| == |FiredOn(fires, rule, observed)|
  {
    hide FiredOn;
    if observed == [] {
      FiredOnNobody(fires, rule);
    } else {
      var front, last := observed[..|observed| - 1], observed[|observed| - 1];
      HitsCount(fires, rule, front);
      assert observed == front + [last] && last !in front;
      OneMoreObserved(fires, rule, front, last);
    }
  }

  function FiredOn(fires: Fires, rule: RuleId, observed: seq<Subject>): set<Subject> {
    set s | s in observed && fires(rule, s)
  }

  lemma FiredOnNobody(fires: Fires, rule: RuleId)
    ensures FiredOn(fires, rule, []) == {}
  {
  }

  lemma OneMoreObserved(fires: Fires, rule: RuleId, observed: seq<Subject>, last: Subject)
    requires last !in observed
    ensures |FiredOn(fires, rule, observed + [last])|
         == |FiredOn(fires, rule, observed)| + if fires(rule, last) then 1 else 0
  {
    var before := FiredOn(fires, rule, observed);
    assert FiredOn(fires, rule, observed + [last]) == if fires(rule, last) then before + {last} else before;
  }

  /** A fault of this node's own, seen as a rule firing on everybody, accuses nobody. */
  lemma UniversalRuleIsQuiet(table: seq<Charge>, rules: seq<Rule>, observed: seq<Subject>, fires: Fires,
                             population: nat, share: real, now: real, recharge: real, rule: RuleId)
    requires |Hits(fires, rule, observed)| > 1 && |Hits(fires, rule, observed)| as real > population as real * share
    ensures forall f :: f in Judged(table, rules, observed, fires, population, share, now, recharge).1 ==>
            f.rule != rule
  {
    hide Judged, OverShare, Hits;
    ReportsAreEarned(table, rules, observed, fires, population, share, now, recharge);
  }

  /** A pair's time in the table is what it was, or the table has dropped it. */
  predicate Undisturbed(table: seq<Charge>, after: seq<Charge>, pair: Pair) {
    && OncePerPair(after) && |after| <= MAX_CHARGES
    && (LastCharge(after, pair).None? || LastCharge(after, pair) == LastCharge(table, pair))
  }

  lemma StaysChargeable(table: seq<Charge>, after: seq<Charge>, pair: Pair, now: real, recharge: real)
    requires Undisturbed(table, after, pair) && MayCharge(table, pair, now, recharge)
    ensures MayCharge(after, pair, now, recharge)
  {
  }

  lemma {:induction false} SpeakDisturbsNoOther(table: seq<Charge>, rule: RuleId, hits: seq<Subject>, now: real,
                                                recharge: real,
                                                pair: Pair)
    requires OncePerPair(table) && |table| <= MAX_CHARGES
    requires pair.rule != rule || pair.subject !in hits
    ensures Undisturbed(table, Speak(table, rule, hits, now, recharge).0, pair)
  {
    if hits != [] {
      hide MayCharge, LastCharge, OncePerPair, Asked;
      var n := |hits| - 1;
      SpeakDisturbsNoOther(table, rule, hits[..n], now, recharge, pair);
      StepTime(Speak(table, rule, hits[..n], now, recharge).0, Ask(Pair(hits[n], rule), now), pair, recharge);
    }
  }

  lemma {:induction false} SpeakSaysAll(table: seq<Charge>, rule: RuleId, hits: seq<Subject>, now: real,
                                        recharge: real, s: Subject)
    requires OncePerPair(table) && |table| <= MAX_CHARGES
    requires s in hits && MayCharge(table, Pair(s, rule), now, recharge)
    ensures s in Speak(table, rule, hits, now, recharge).1
  {
    hide MayCharge, OncePerPair, Asked, Undisturbed;
    var n := |hits| - 1;
    assert hits == hits[..n] + [hits[n]];
    if s in hits[..n] {
      SpeakSaysAll(table, rule, hits[..n], now, recharge, s);
    } else {
      SpeakDisturbsNoOther(table, rule, hits[..n], now, recharge, Pair(s, rule));
      StaysChargeable(table, Speak(table, rule, hits[..n], now, recharge).0, Pair(s, rule), now, recharge);
    }
  }

  lemma {:induction false} JudgedDisturbsNoOther(table: seq<Charge>, rules: seq<Rule>, observed: seq<Subject>,
                                                 fires: Fires,
                                                 population: nat, share: real, now: real, recharge: real, pair: Pair)
    requires OncePerPair(table) && |table| <= MAX_CHARGES && !Names(rules, pair.rule)
    ensures Undisturbed(table, Judged(table, rules, observed, fires, population, share, now, recharge).0, pair)
  {
    if rules != [] {
      hide Speak, OverShare, Hits, LastCharge, OncePerPair;
      var n := |rules| - 1;
      assert forall i :: 0 <= i < n ==> rules[..n][i] == rules[i];
      assert rules[n].id != pair.rule;
      JudgedDisturbsNoOther(table, rules[..n], observed, fires, population, share, now, recharge, pair);
      var before := Judged(table, rules[..n], observed, fires, population, share, now, recharge).0;
      SpeakDisturbsNoOther(before, rules[n].id, Hits(fires, rules[n].id, observed), now, recharge, pair);
    }
  }

  lemma OldChargesAllow(table: seq<Charge>, pair: Pair, now: real, recharge: real)
    requires forall c :: c in table && c.pair == pair ==> now - c.at >= recharge
    ensures MayCharge(table, pair, now, recharge)
  {
    hide Find;
  }

  /** And nothing is kept back: a rule inside the share reports every observed subject it
      fired on that it has not charged for a recharge. */
  lemma {:induction false} ChargeableIsReported(table: seq<Charge>, rules: seq<Rule>, observed: seq<Subject>,
                                                fires: Fires,
                                                population: nat, share: real, now: real, recharge: real,
                                                r: Rule, s: Subject)
    requires OncePerPair(table) && |table| <= MAX_CHARGES && DistinctIds(rules)
    requires r in rules && s in observed && fires(r.id, s)
    requires |Hits(fires, r.id, observed)| <= 1 || |Hits(fires, r.id, observed)| as real <= population as real * share
    requires forall c :: c in table && c.pair == Pair(s, r.id) ==> now - c.at >= recharge
    ensures Finding(s, r.id, r.weight) in Judged(table, rules, observed, fires, population, share, now, recharge).1
  {
    OldChargesAllow(table, Pair(s, r.id), now, recharge);
    OverShareExactly(|Hits(fires, r.id, observed)|, population, share);
    hide Speak, OverShare, Hits, MayCharge, OncePerPair, Undisturbed;
    var n := |rules| - 1;
    var front := rules[..n];
    assert rules == front + [rules[n]];
    var before := Judged(table, front, observed, fires, population, share, now, recharge).0;
    if r in front {
      ChargeableIsReported(table, front, observed, fires, population, share, now, recharge, r, s);
    } else {
      JudgedDisturbsNoOther(table, front, observed, fires, population, share, now, recharge, Pair(s, r.id));
      StaysChargeable(table, before, Pair(s, r.id), now, recharge);
      StillOnce(table, before, Pair(s, r.id));
      HitsMeaning(fires, r.id, observed);
      SpeakSaysAll(before, r.id, Hits(fires, r.id, observed), now, recharge, s);
      var said := Speak(before, r.id, Hits(fires, r.id, observed), now, recharge).1;
      var i :| 0 <= i < |said| && said[i] == s;
      assert Findings(r, said)[i] == Finding(s, r.id, r.weight);
    }
  }

  lemma StillOnce(table: seq<Charge>, after: seq<Charge>, pair: Pair)
    requires Undisturbed(table, after, pair)
    ensures OncePerPair(after) && |after| <= MAX_CHARGES
  {
  }
}
