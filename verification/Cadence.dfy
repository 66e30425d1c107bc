/** How often two nodes probe each other, which both work out from what both declared.
    (src/mlo.py:120-267) */
module Cadence {
  import opened Basics

  const FLOOR_STEP_MS := 50

  /** A range for the fast cadence and one for the slow. */
  datatype Bounds = Bounds(fastMin: int, fastMax: int, slowMin: int, slowMax: int)
  {
    predicate InOrder() {
      fastMin <= fastMax <= slowMin <= slowMax
    }

    predicate WellFormed() {
      fastMin < fastMax && slowMin < slowMax && fastMin <= slowMin && fastMax <= slowMax
    }
  }

  function Min(a: int, b: int): int { if a < b then a else b }

  datatype Accord = Accord(fastMs: int, slowMs: int, fastOk: bool)

  function Agree(mine: Bounds, theirs: Bounds): Accord {
    var fast := Max(mine.fastMin, theirs.fastMin);
    var slow := Max(Max(mine.slowMin, theirs.slowMin), Min(mine.slowMax, theirs.slowMax));
    Accord(fast, Max(slow, fast), fast <= Min(mine.fastMax, theirs.fastMax))
  }

  /** The accord does not depend on whose end works it out, and nothing a peer declares takes a node below its
      own floors, or below what it would agree with itself. */
  lemma NobodyIsDraggedDown(mine: Bounds, theirs: Bounds)
    ensures Agree(mine, theirs) == Agree(theirs, mine)
    ensures Agree(mine, theirs).fastMs >= mine.fastMin
    ensures Agree(mine, theirs).slowMs >= Max(mine.slowMin, mine.fastMin)
    ensures Agree(mine, theirs).slowMs >= Agree(mine, theirs).fastMs
  {
  }

  /** For declarations whose fast range is one, there is a fast mode exactly when some cadence
      is fast to both, and the agreed one is then the fastest of those. */
  lemma FastIfShared(mine: Bounds, theirs: Bounds)
    requires mine.fastMin <= mine.fastMax && theirs.fastMin <= theirs.fastMax
    ensures var a := Agree(mine, theirs);
            && (a.fastOk <==> exists v :: BothFast(mine, theirs, v))
            && (forall v :: BothFast(mine, theirs, v) ==> a.fastOk && a.fastMs <= v)
  {
    var a := Agree(mine, theirs);
    if a.fastOk {
      assert BothFast(mine, theirs, a.fastMs);
    }
  }

  predicate BothFast(mine: Bounds, theirs: Bounds, v: int) {
    mine.fastMin <= v <= mine.fastMax && theirs.fastMin <= v <= theirs.fastMax
  }

  /** For declarations in order, the idle cadence is one that both accept whenever there is
      any such, and then the slowest of them. */
  lemma SlowestShared(mine: Bounds, theirs: Bounds, v: int)
    requires mine.InOrder() && theirs.InOrder()
    requires mine.slowMin <= v <= mine.slowMax && theirs.slowMin <= v <= theirs.slowMax
    ensures var slow := Agree(mine, theirs).slowMs;
            mine.slowMin <= v <= slow <= mine.slowMax && theirs.slowMin <= slow <= theirs.slowMax
  {
  }

  /** What a node offers while `links` peers probe it fast: Python's truncation to an integer,
      then up to the next step. */
  function Needed(links: int, budget: real): int {
    if links > 0 && budget > 0.0 then
      -((-((links * 1000) as real / budget).Floor) / FLOOR_STEP_MS) * FLOOR_STEP_MS
    else 0
  }

  function Loaded(configured: Bounds, links: int, budget: real): Bounds {
    var fastMin := Min(Max(configured.fastMin, Needed(links, budget)), configured.fastMax - 1);
    if fastMin <= configured.fastMin then configured else configured.(fastMin := fastMin)
  }

  /** The floor rises enough for the budget, to the whole millisecond, unless the configured
      ceiling stops it one below; it never falls, and bundling is never given up. */
  lemma LoadedKeepsBudget(configured: Bounds, links: nat, budget: real)
    requires configured.fastMin < configured.fastMax && budget > 0.0
    ensures var offered := Loaded(configured, links, budget);
            && configured.fastMin <= offered.fastMin < offered.fastMax == configured.fastMax
            && (offered.fastMin < configured.fastMax - 1 && links > 0 ==>
                  (links * 1000) as real < (offered.fastMin + 1) as real * budget)
  {
    if links > 0 {
      var x := (links * 1000) as real / budget;
      assert Needed(links, budget) >= x.Floor;
      var floor := Loaded(configured, links, budget).fastMin;
      if floor < configured.fastMax - 1 {
        ClearedOf((links * 1000) as real, budget, (floor + 1) as real);
      }
    }
  }

  lemma ClearedOf(n: real, d: real, y: real)
    requires d > 0.0 && n / d < y
    ensures n < y * d
  {
  }

  /** What a declaration must look like: each mode is a range, and the fast one lies nowhere
      behind the slow one. */
  lemma WellFormedMeans(b: Bounds)
    ensures b.WellFormed() <==>
              && b.fastMax - b.fastMin >= 1 && b.slowMax - b.slowMin >= 1
              && b.slowMin - b.fastMin >= 0 && b.slowMax - b.fastMax >= 0
  {
  }

  /** Load never lowers the floor nor touches anything else, whatever was configured. */
  lemma LoadedOnlyRaises(configured: Bounds, links: int, budget: real)
    ensures var offered := Loaded(configured, links, budget);
            offered.fastMin >= configured.fastMin && offered == configured.(fastMin := offered.fastMin)
  {
  }

  /** A well-formed configuration stays one under load exactly when the raised floor does not
      pass the slow one; for one that was clamped it always does. */
  lemma LoadedStaysWellFormed(configured: Bounds, links: int, budget: real)
    requires configured.WellFormed()
    ensures Loaded(configured, links, budget).WellFormed() <==>
              Min(Needed(links, budget), configured.fastMax - 1) <= configured.slowMin
    ensures configured.InOrder() ==> Loaded(configured, links, budget).WellFormed()
  {
  }
}
