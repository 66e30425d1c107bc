/** Which links carry a node's traffic together, and when a lossy one is held out.
    (src/mlo.py:284-434) */
module Bundle {
  import opened Basics
  import opened Wrappers
  import opened Eviction

  const MIN_PROBES := 8
  const RECOVER_SHARE := 0.5

  type Key = nat

  datatype Settings = Settings(skewMs: real, dropPercent: real, maxMembers: int)
  {
    /** The share at which a link is benched. */
    function DropShare(): (r: real)
      ensures 0.0 <= r <= 1.0
    {
      var share := dropPercent / 100.0;
      if share < 0.0 then 0.0 else if share > 1.0 then 1.0 else share
    }

    /** The share below which a benched link comes back. */
    function RecoverShare(): (r: real)
      ensures 0.0 <= r <= DropShare()
    {
      DropShare() * RECOVER_SHARE
    }

    function Members(): nat {
      if maxMembers > 1 then maxMembers else 1
    }
  }

  /** One link offering itself; nothing in `meanMs` or `drop` means unmeasured. */
  datatype Candidate = Candidate(key: Key, meanMs: Option<real>, drop: Option<real>, probes: int)
  {
    predicate Measured() {
      meanMs.Some? && drop.Some? && probes >= MIN_PROBES
    }
  }

  type Usable = c: Candidate | c.Measured() witness Candidate(0, Some(0.0), Some(0.0), MIN_PROBES)

  // ------------------------------------------------------------------ who is benched

  predicate Offered(cands: seq<Candidate>, k: Key) {
    exists i :: 0 <= i < |cands| && cands[i].key == k
  }

  /** The bench without the links that have gone. */
  function StillOffered(benched: seq<Key>, cands: seq<Candidate>): (r: seq<Key>)
    ensures forall k :: k in r <==> k in benched && Offered(cands, k)
  {
    if benched == [] then []
    else
      var rest := StillOffered(benched[..|benched| - 1], cands);
      var k := benched[|benched| - 1];
      if Offered(cands, k) then rest + [k] else rest
  }

  function Bar(s: Settings, benched: seq<Key>, k: Key): real {
    if k in benched then s.RecoverShare() else s.DropShare()
  }

  predicate Loses(s: Settings, benched: seq<Key>, c: Candidate) {
    c.Measured() && c.drop.value >= Bar(s, benched, c.key)
  }

  /** The bench after one candidate was judged. */
  function JudgeOne(s: Settings, benched: seq<Key>, c: Candidate): seq<Key> {
    if !c.Measured() then benched
    else if Loses(s, benched, c) then (if c.key in benched then benched else benched + [c.key])
    else Without(benched, c.key)
  }

  /** The bench after all of them, in the order offered. */
  function Judge(s: Settings, benched: seq<Key>, cands: seq<Candidate>): seq<Key> {
    if cands == [] then benched
    else JudgeOne(s, Judge(s, benched, cands[..|cands| - 1]), cands[|cands| - 1])
  }

  /** The measured candidates that were not held out, in the order offered. */
  function Eligible(s: Settings, benched: seq<Key>, cands: seq<Candidate>): seq<Usable> {
    if cands == [] then []
    else
      var front, c := cands[..|cands| - 1], cands[|cands| - 1];
      Eligible(s, benched, front)
      + if c.Measured() && !Loses(s, Judge(s, benched, front), c) then [c] else []
  }

  // ------------------------------------------------------------------ who is chosen

  /** Into a list sorted by mean, after every equal one: the order a stable sort keeps. */
  function Insert(sorted: seq<Usable>, c: Usable): seq<Usable> {
    if sorted == [] || c.meanMs.value >= sorted[|sorted| - 1].meanMs.value then sorted + [c]
    else Insert(sorted[..|sorted| - 1], c) + [sorted[|sorted| - 1]]
  }

  function ByMean(cands: seq<Usable>): seq<Usable> {
    if cands == [] then [] else Insert(ByMean(cands[..|cands| - 1]), cands[|cands| - 1])
  }

  predicate Sorted(cands: seq<Usable>) {
    forall i, j :: 0 <= i < j < |cands| ==> cands[i].meanMs.value <= cands[j].meanMs.value
  }

  predicate Near(s: Settings, sorted: seq<Usable>, i: nat)
    requires i < |sorted|
  {
    i == 0 || sorted[i].meanMs.value - sorted[0].meanMs.value <= s.skewMs
  }

  /** How many of the first `Members()` lie within the skew of the fastest, up to the first
      that does not. */
  function NearRun(s: Settings, sorted: seq<Usable>, i: nat): (n: nat)
    requires i <= |sorted|
    ensures i <= n <= |sorted|
    ensures forall j :: i <= j < n ==> Near(s, sorted, j)
    ensures n < |sorted| ==> !Near(s, sorted, n)
    decreases |sorted| - i
  {
    if i == |sorted| || !Near(s, sorted, i) then i else NearRun(s, sorted, i + 1)
  }

  function Chosen(s: Settings, eligible: seq<Usable>): seq<Usable> {
    var sorted := ByMean(eligible);
    var first := if |sorted| > s.Members() then sorted[..s.Members()] else sorted;
    first[..NearRun(s, first, 0)]
  }

  function Keys(cands: seq<Usable>): (r: seq<Key>)
    ensures |r| == |cands| && forall i :: 0 <= i < |r| ==> r[i] == cands[i].key
  {
    seq(|cands|, i requires 0 <= i < |cands| => cands[i].key)
  }

  /** How far the later members lie behind the first, together. */
  function Spread(chosen: seq<Usable>): real {
    if |chosen| <= 1 then 0.0
    else Spread(chosen[..|chosen| - 1]) + chosen[|chosen| - 1].meanMs.value - chosen[0].meanMs.value
  }

  /** Their mean distance. */
  function Skew(chosen: seq<Usable>): (skew: real)
    ensures chosen == [] ==> skew == 0.0
  {
    if |chosen| < 2 then 0.0 else Spread(chosen) / (|chosen| - 1) as real
  }

  /** One pass: the bench it leaves, and the members it chose. */
  function BenchAfter(s: Settings, benched: seq<Key>, cands: seq<Candidate>): seq<Key> {
    Judge(s, StillOffered(benched, cands), cands)
  }

  function ChosenBy(s: Settings, benched: seq<Key>, cands: seq<Candidate>): seq<Usable> {
    var chosen := Chosen(s, Eligible(s, StillOffered(benched, cands), cands));
    if |chosen| < 2 then [] else chosen
  }

  // ------------------------------------------------------------------ the bundle

  class Bundle {
    const settings: Settings
    var keys: seq<Key>
    var benched: seq<Key>
    var skewMs: real
    var apartMs: Option<real>
    var turn: nat

    constructor (settings: Settings)
      ensures keys == [] && benched == [] && turn == 0 && this.settings == settings
    {
      this.settings := settings;
      keys, benched, skewMs, apartMs, turn := [], [], 0.0, None, 0;
    }

    /** One pass: judge every candidate, then take the fastest that lie close together. */
    method Update(cands: seq<Candidate>) returns (r: seq<Key>)
      modifies `keys, `benched, `skewMs, `apartMs
      ensures r == keys == Keys(ChosenBy(settings, old(benched), cands))
      ensures benched == BenchAfter(settings, old(benched), cands)
      ensures skewMs == Skew(ChosenBy(settings, old(benched), cands))
      ensures var sorted := ByMean(Eligible(settings, StillOffered(old(benched), cands), cands));
              apartMs == if keys == [] && |sorted| >= 2
                         then Some(sorted[1].meanMs.value - sorted[0].meanMs.value) else None
    {
      hide ByMean, Near, NearRun, Skew, Loses, Settings.DropShare, Settings.RecoverShare;
      benched := StillOffered(benched, cands);
      ghost var start := benched;
      var eligible: seq<Usable> := [];
      for i := 0 to |cands|
        invariant benched == Judge(settings, start, cands[..i])
        invariant eligible == Eligible(settings, start, cands[..i])
      {
        assert cands[..i + 1][..i] == cands[..i];
        var c := cands[i];
        if c.Measured() {
          if Loses(settings, benched, c) {
            if c.key !in benched {
              benched := benched + [c.key];
            }
          } else {
            benched := Without(benched, c.key);
            eligible := eligible + [c];
          }
        }
      }
      assert cands[..|cands|] == cands;
      eligible := ByMean(eligible);
      var chosen := Nearest(eligible);
      if |chosen| < 2 {
        keys, skewMs := [], 0.0;
        apartMs := if |eligible| >= 2 then Some(eligible[1].meanMs.value - eligible[0].meanMs.value) else None;
        return keys;
      }
      apartMs := None;
      skewMs := Behind(chosen);
      keys := Keys(chosen);
      return keys;
    }

    /** The leading candidates no further than the skew from the fastest. */
    method Nearest(sorted: seq<Usable>) returns (chosen: seq<Usable>)
      ensures var first := if |sorted| > settings.Members() then sorted[..settings.Members()] else sorted;
              chosen == first[..NearRun(settings, first, 0)]
    {
      var first := if |sorted| > settings.Members() then sorted[..settings.Members()] else sorted;
      chosen := [];
      for i := 0 to |first|
        invariant chosen == first[..i]
        invariant NearRun(settings, first, 0) == NearRun(settings, first, i)
      {
        if chosen != [] && first[i].meanMs.value - chosen[0].meanMs.value > settings.skewMs {
          break;
        }
        chosen := chosen + [first[i]];
      }
    }

    method Behind(chosen: seq<Usable>) returns (skew: real)
      requires |chosen| >= 2
      ensures skew == Skew(chosen)
    {
      var total := 0.0;
      for i := 1 to |chosen|
        invariant total == Spread(chosen[..i])
      {
        assert chosen[..i + 1][..i] == chosen[..i];
        total := total + chosen[i].meanMs.value - chosen[0].meanMs.value;
      }
      assert chosen[..|chosen|] == chosen;
      return total / (|chosen| - 1) as real;
    }

    /** Whose turn it is; nothing while there is no bundle. */
    method NextKey() returns (key: Option<Key>)
      modifies `turn
      ensures key.None? <==> |keys| < 2
      ensures key.None? ==> turn == old(turn)
      ensures key.Some? ==> turn == old(turn) + 1 && key.value == keys[turn % |keys|]
    {
      if |keys| < 2 {
        return None;
      }
      turn := turn + 1;
      return Some(keys[turn % |keys|]);
    }
  }

  // ------------------------------------------------------------------ the members

  lemma {:induction false} InsertKeepsAll(sorted: seq<Usable>, c: Usable)
    ensures multiset(Insert(sorted, c)) == multiset(sorted) + multiset{c}
  {
    if sorted != [] && c.meanMs.value < sorted[|sorted| - 1].meanMs.value {
      var front, last := sorted[..|sorted| - 1], sorted[|sorted| - 1];
      InsertKeepsAll(front, c);
      assert sorted == front + [last];
    }
  }

  predicate NoneAbove(cands: seq<Usable>, last: Usable) {
    forall x :: x in cands ==> x.meanMs.value <= last.meanMs.value
  }

  lemma InsertStaysBelow(sorted: seq<Usable>, c: Usable, last: Usable)
    requires NoneAbove(sorted, last) && c.meanMs.value <= last.meanMs.value
    ensures NoneAbove(Insert(sorted, c), last)
  {
    hide Insert;
    InsertKeepsAll(sorted, c);
    forall x | x in Insert(sorted, c) ensures x.meanMs.value <= last.meanMs.value {
      assert x in multiset(Insert(sorted, c));
    }
  }

  lemma SortedWithLast(front: seq<Usable>, last: Usable)
    ensures Sorted(front + [last]) <==> Sorted(front) && NoneAbove(front, last)
  {
    var all := front + [last];
    if Sorted(all) {
      forall i, j | 0 <= i < j < |front| ensures front[i].meanMs.value <= front[j].meanMs.value {
        assert all[i] == front[i] && all[j] == front[j];
      }
      forall x | x in front ensures x.meanMs.value <= last.meanMs.value {
        var i :| 0 <= i < |front| && front[i] == x;
        assert all[i] == x && all[|front|] == last;
      }
    }
  }

  lemma {:induction false} InsertSorts(sorted: seq<Usable>, c: Usable)
    requires Sorted(sorted)
    ensures Sorted(Insert(sorted, c))
  {
    hide Sorted;
    if sorted != [] {
      var front, last := sorted[..|sorted| - 1], sorted[|sorted| - 1];
      assert sorted == front + [last];
      SortedWithLast(front, last);
      if c.meanMs.value < last.meanMs.value {
        InsertSorts(front, c);
        InsertStaysBelow(front, c, last);
        SortedWithLast(Insert(front, c), last);
      } else {
        SortedWithLast(sorted, c);
      }
    } else {
      SortedWithLast([], c);
      OneIsSorted();
    }
  }

  lemma OneIsSorted()
    ensures Sorted([])
  {
  }

  lemma {:induction false} ByMeanSorts(cands: seq<Usable>)
    ensures Sorted(ByMean(cands)) && multiset(ByMean(cands)) == multiset(cands)
  {
    hide Insert;
    if cands != [] {
      var front, last := cands[..|cands| - 1], cands[|cands| - 1];
      assert cands == front + [last];
      ByMeanSorts(front);
      InsertSorts(ByMean(front), last);
      InsertKeepsAll(ByMean(front), last);
    }
  }

  /** The candidates of one mean, in their order. */
  function OfMean(cands: seq<Usable>, mean: real): seq<Usable> {
    if cands == [] then []
    else
      var front, last := cands[..|cands| - 1], cands[|cands| - 1];
      OfMean(front, mean) + if last.meanMs.value == mean then [last] else []
  }

  lemma {:induction false} InsertIsStable(sorted: seq<Usable>, c: Usable, mean: real)
    ensures OfMean(Insert(sorted, c), mean) == OfMean(sorted, mean) + if c.meanMs.value == mean then [c] else []
  {
    if sorted != [] && c.meanMs.value < sorted[|sorted| - 1].meanMs.value {
      InsertIsStable(sorted[..|sorted| - 1], c, mean);
    }
  }

  /** Links of equal mean stay in the order in which they were offered. */
  lemma {:induction false} TiesKeepTheirOrder(cands: seq<Usable>, mean: real)
    ensures OfMean(ByMean(cands), mean) == OfMean(cands, mean)
  {
    hide Insert;
    if cands != [] {
      var front, last := cands[..|cands| - 1], cands[|cands| - 1];
      TiesKeepTheirOrder(front, mean);
      InsertIsStable(ByMean(front), last, mean);
    }
  }

  /** The members are the fastest eligible links: no more than wanted, and none left out is
      faster than one taken in. */
  lemma MembersAreFastest(s: Settings, eligible: seq<Usable>)
    ensures var chosen := Chosen(s, eligible);
            && |chosen| <= s.Members() && multiset(chosen) <= multiset(eligible)
            && (forall a, b :: a in chosen && b in multiset(eligible) - multiset(chosen) ==>
                  a.meanMs.value <= b.meanMs.value)
  {
    hide ByMean, NearRun, Near, Settings.Members, Sorted;
    var sorted := ByMean(eligible);
    ByMeanSorts(eligible);
    var chosen := Chosen(s, eligible);
    assert chosen == sorted[..|chosen|];
    CutSorted(sorted, |chosen|);
  }

  lemma CutSorted(sorted: seq<Usable>, n: nat)
    requires Sorted(sorted) && n <= |sorted|
    ensures multiset(sorted[..n]) <= multiset(sorted)
    ensures forall a, b :: a in sorted[..n] && b in multiset(sorted) - multiset(sorted[..n]) ==>
                             a.meanMs.value <= b.meanMs.value
  {
    hide Sorted;
    var front, rest := sorted[..n], sorted[n..];
    assert sorted == front + rest;
    assert multiset(sorted) - multiset(front) == multiset(rest);
    forall a, b | a in front && b in rest ensures a.meanMs.value <= b.meanMs.value {
      SortedPair(sorted, n, a, b);
    }
  }

  lemma SortedPair(sorted: seq<Usable>, n: nat, a: Usable, b: Usable)
    requires Sorted(sorted) && n <= |sorted| && a in sorted[..n] && b in sorted[n..]
    ensures a.meanMs.value <= b.meanMs.value
  {
    var j :| 0 <= j < |sorted| - n && sorted[n..][j] == b;
    assert sorted[n + j] == b;
  }

  /** Members lie pairwise within the skew, and there are two exactly when two are wanted and
      the two fastest lie that close. */
  lemma MembersAreNear(s: Settings, eligible: seq<Usable>)
    ensures var chosen := Chosen(s, eligible);
            forall a, b :: a in chosen && b in chosen && |chosen| > 1 ==> a.meanMs.value - b.meanMs.value <= s.skewMs
    ensures var sorted := ByMean(eligible);
            |Chosen(s, eligible)| >= 2 <==>
              s.maxMembers >= 2 && |sorted| >= 2 && sorted[1].meanMs.value - sorted[0].meanMs.value <= s.skewMs
  {
    hide ByMean;
    var sorted := ByMean(eligible);
    ByMeanSorts(eligible);
    var chosen := Chosen(s, eligible);
    forall a, b | a in chosen && b in chosen && |chosen| > 1 ensures a.meanMs.value - b.meanMs.value <= s.skewMs {
      NearFirst(s, sorted, |chosen|, a);
      NearFirst(s, sorted, |chosen|, b);
    }
  }

  lemma NearFirst(s: Settings, sorted: seq<Usable>, n: nat, a: Usable)
    requires Sorted(sorted) && n <= |sorted| && a in sorted[..n]
    requires forall i :: 0 <= i < n ==> Near(s, sorted, i)
    ensures 0.0 <= a.meanMs.value - sorted[0].meanMs.value
    ensures n > 1 ==> a.meanMs.value - sorted[0].meanMs.value <= s.skewMs
  {
    var i :| 0 <= i < n && sorted[i] == a;
    if n > 1 {
      assert Near(s, sorted, 1) && Near(s, sorted, i);
    }
  }

  /** The members' times together, by themselves. */
  function Sum(chosen: seq<Usable>): real {
    if chosen == [] then 0.0 else chosen[0].meanMs.value + Sum(chosen[1..])
  }

  lemma {:induction false} SumAppend(chosen: seq<Usable>, c: Usable)
    ensures Sum(chosen + [c]) == Sum(chosen) + c.meanMs.value
  {
    if chosen != [] {
      assert (chosen + [c])[1..] == chosen[1..] + [c];
      SumAppend(chosen[1..], c);
    }
  }

  lemma {:induction false} SpreadIsSum(chosen: seq<Usable>)
    requires chosen != []
    ensures Spread(chosen) == Sum(chosen) - |chosen| as real * chosen[0].meanMs.value
  {
    var n := |chosen| - 1;
    assert chosen == chosen[..n] + [chosen[n]];
    SumAppend(chosen[..n], chosen[n]);
    if n > 0 {
      SpreadIsSum(chosen[..n]);
    }
  }

  lemma {:induction false} SpreadWithin(chosen: seq<Usable>, most: real)
    requires chosen != []
    requires forall c :: c in chosen ==> 0.0 <= c.meanMs.value - chosen[0].meanMs.value <= most
    ensures 0.0 <= Spread(chosen) <= (|chosen| - 1) as real * most
  {
    hide Spread;
    var n := |chosen| - 1;
    OneMore(n, most);
    SpreadStep(chosen);
    if n > 0 {
      SpreadWithin(chosen[..n], most);
      OneMore(n - 1, most);
      assert chosen[n] in chosen;
    }
  }

  lemma SpreadStep(chosen: seq<Usable>)
    requires chosen != []
    ensures var n := |chosen| - 1;
            Spread(chosen) == if n == 0 then 0.0
                              else Spread(chosen[..n]) + (chosen[n].meanMs.value - chosen[0].meanMs.value)
  {
  }

  lemma OneMore(n: nat, most: real)
    ensures (n + 1) as real * most == n as real * most + most && 0 as real * most == 0.0
  {
  }

  lemma ChosenWithin(s: Settings, benched: seq<Key>, cands: seq<Candidate>)
    ensures var chosen := ChosenBy(s, benched, cands);
            chosen != [] ==>
              && |chosen| >= 2
              && forall c :: c in chosen ==> 0.0 <= c.meanMs.value - chosen[0].meanMs.value <= s.skewMs
  {
    hide ByMean, Eligible;
    var eligible := Eligible(s, StillOffered(benched, cands), cands);
    ByMeanSorts(eligible);
    var chosen := ChosenBy(s, benched, cands);
    forall c | c in chosen ensures 0.0 <= c.meanMs.value - chosen[0].meanMs.value <= s.skewMs {
      NearFirst(s, ByMean(eligible), |chosen|, c);
    }
  }

  /** The skew a bundle reports is its members' mean lead over the others: never negative and
      never more than the skew that was configured, whatever was benched. */
  lemma SkewIsMeanLead(s: Settings, benched: seq<Key>, cands: seq<Candidate>)
    ensures var chosen := ChosenBy(s, benched, cands);
            chosen != [] ==> MeanLead(chosen, s.skewMs, Skew(chosen))
  {
    hide Skew, ChosenBy, MeanLead;
    ChosenWithin(s, benched, cands);
    if ChosenBy(s, benched, cands) != [] {
      SpreadIsMeanLead(ChosenBy(s, benched, cands), s.skewMs);
    }
  }

  /** `skew` is what the others exceed the first by, on average, and within bounds. */
  predicate MeanLead(chosen: seq<Usable>, most: real, skew: real)
    requires chosen != []
  {
    && 0.0 <= skew <= most
    && skew * (|chosen| - 1) as real == Sum(chosen) - |chosen| as real * chosen[0].meanMs.value
  }

  lemma SpreadIsMeanLead(chosen: seq<Usable>, most: real)
    requires |chosen| >= 2
    requires forall c :: c in chosen ==> 0.0 <= c.meanMs.value - chosen[0].meanMs.value <= most
    ensures MeanLead(chosen, most, Skew(chosen))
  {
    hide Spread, Sum;
    SpreadWithin(chosen, most);
    SpreadIsSum(chosen);
    MeanWithin(Spread(chosen), (|chosen| - 1) as real, most);
  }

  lemma MeanWithin(total: real, n: real, most: real)
    requires n > 0.0 && 0.0 <= total <= n * most
    ensures 0.0 <= total / n <= most && total / n * n == total
  {
  }

  // ------------------------------------------------------------------ turns

  /** The keys the next `m` calls of `NextKey` name. */
  function Turns(keys: seq<Key>, turn: nat, m: nat): seq<Key>
    requires keys != []
  {
    if m == 0 then [] else Turns(keys, turn, m - 1) + [keys[(turn + m) % |keys|]]
  }

  /** As many turns in a row as there are members go once round all of them, in order. */
  lemma TurnsGoRound(keys: seq<Key>, turn: nat)
    requires keys != []
    ensures var r := (turn + 1) % |keys|;
            Turns(keys, turn, |keys|) == keys[r..] + keys[..r]
  {
    var n, r := |keys|, (turn + 1) % |keys|;
    TurnsAt(keys, turn, n);
    var t := Turns(keys, turn, n);
    forall d | 0 <= d < n ensures t[d] == (keys[r..] + keys[..r])[d] {
      ModShift(turn + 1, d, n);
    }
  }

  lemma {:induction false} TurnsAt(keys: seq<Key>, turn: nat, m: nat)
    requires keys != []
    ensures |Turns(keys, turn, m)| == m
    ensures forall d :: 0 <= d < m ==> Turns(keys, turn, m)[d] == keys[(turn + 1 + d) % |keys|]
  {
    if m > 0 {
      TurnsAt(keys, turn, m - 1);
    }
  }

  lemma ModShift(t: nat, d: nat, n: nat)
    requires d < n
    ensures (t + d) % n == if t % n + d < n then t % n + d else t % n + d - n
  {
    var q := t / n;
    assert t == q * n + t % n;
    var (q', r) := if t % n + d < n then (q, t % n + d) else (q + 1, t % n + d - n);
    assert t + d == q' * n + r;
    Quotient(t + d, n, q', r);
  }

  // ------------------------------------------------------------------ one pass over the bench

  predicate OncePerKey(cands: seq<Candidate>) {
    forall i, j :: 0 <= i < j < |cands| ==> cands[i].key != cands[j].key
  }

  /** Some candidate of the pass measured `k` below the share that brings a link back. */
  predicate Recovers(s: Settings, cands: seq<Candidate>, k: Key) {
    exists i :: 0 <= i < |cands| && cands[i].key == k && cands[i].Measured() && cands[i].drop.value < s.RecoverShare()
  }

  /** Some candidate of the pass measured `k` at or above the share that benches one. */
  predicate Fails(s: Settings, cands: seq<Candidate>, k: Key) {
    exists i :: 0 <= i < |cands| && cands[i].key == k && cands[i].Measured() && cands[i].drop.value >= s.DropShare()
  }

  predicate KnownWell(c: Candidate) {
    c.probes >= MIN_PROBES && c.meanMs != None && c.drop != None
  }

  /** There is a bundle of two members at least, or none. */
  lemma NeverOneMember(s: Settings, benched: seq<Key>, cands: seq<Candidate>)
    ensures var chosen := ChosenBy(s, benched, cands);
            chosen == [] || (|chosen| >= 2 && chosen == Chosen(s, Eligible(s, StillOffered(benched, cands), cands)))
    ensures |Chosen(s, Eligible(s, StillOffered(benched, cands), cands))| >= 2 ==> ChosenBy(s, benched, cands) != []
  {
    hide Chosen;
  }

  /** A link is on the bench once. */
  lemma {:induction false} BenchedOnce(s: Settings, benched: seq<Key>, cands: seq<Candidate>)
    requires Distinct(benched)
    ensures Distinct(Judge(s, benched, cands))
  {
    hide Loses;
    if cands != [] {
      var front := Judge(s, benched, cands[..|cands| - 1]);
      BenchedOnce(s, benched, cands[..|cands| - 1]);
      WithoutMeaning(front, cands[|cands| - 1].key);
    }
  }

  /** In percent, as it is configured: a pass fails a link that lost as much as that or more,
      and lets one back that lost less than half of it. */
  lemma SharesAreConfigured(s: Settings, cands: seq<Candidate>, k: Key)
    requires 0.0 <= s.dropPercent <= 100.0
    ensures Fails(s, cands, k) <==>
              exists i :: 0 <= i < |cands| && cands[i].key == k && KnownWell(cands[i])
                          && cands[i].drop.value * 100.0 >= s.dropPercent
    ensures Recovers(s, cands, k) <==>
              exists i :: 0 <= i < |cands| && cands[i].key == k && KnownWell(cands[i])
                          && cands[i].drop.value * 200.0 < s.dropPercent
  {
    assert s.DropShare() * 100.0 == s.dropPercent;
    assert s.RecoverShare() * 200.0 == s.dropPercent;
  }

  /** Outside that range the nearest end counts. */
  lemma SharesAreClamped(s: Settings)
    ensures s.dropPercent <= 0.0 ==> s.DropShare() == 0.0 == s.RecoverShare()
    ensures s.dropPercent >= 100.0 ==> s.DropShare() == 1.0 && s.RecoverShare() * 2.0 == 1.0
  {
  }

  /** One candidate decides for its own key alone. */
  lemma JudgeOneDecides(s: Settings, benched: seq<Key>, c: Candidate, k: Key)
    ensures k in JudgeOne(s, benched, c) <==>
              if c.key == k && c.Measured() then c.drop.value >= Bar(s, benched, k) else k in benched
  {
    WithoutMeaning(benched, c.key);
  }

  lemma {:induction false} JudgeDecides(s: Settings, benched: seq<Key>, cands: seq<Candidate>, k: Key)
    requires OncePerKey(cands)
    ensures Recovers(s, cands, k) ==> k !in Judge(s, benched, cands)
    ensures Fails(s, cands, k) ==> k in Judge(s, benched, cands)
    ensures !Recovers(s, cands, k) && !Fails(s, cands, k) ==> (k in Judge(s, benched, cands) <==> k in benched)
  {
    hide JudgeOne, Settings.DropShare, Settings.RecoverShare;
    if cands != [] {
      var front, c := cands[..|cands| - 1], cands[|cands| - 1];
      JudgeDecides(s, benched, front, k);
      JudgeOneDecides(s, Judge(s, benched, front), c, k);
      if c.key == k {
        assert forall i :: 0 <= i < |front| ==> front[i].key != k;
        assert cands[|cands| - 1] == c;
      } else {
        assert forall i :: 0 <= i < |front| ==> front[i] == cands[i];
      }
    }
  }

  /** What one pass does to one link's place: gone when it is no longer offered, in when it
      failed, out when it recovered, and otherwise where it was. */
  lemma PassDecides(s: Settings, benched: seq<Key>, cands: seq<Candidate>, k: Key)
    requires OncePerKey(cands)
    ensures k in BenchAfter(s, benched, cands) <==>
              Fails(s, cands, k) || (k in benched && Offered(cands, k) && !Recovers(s, cands, k))
  {
    hide Judge, Settings.DropShare, Settings.RecoverShare;
    JudgeDecides(s, StillOffered(benched, cands), cands, k);
  }

  // ------------------------------------------------------------------ runs

  function Run(s: Settings, benched: seq<Key>, passes: seq<seq<Candidate>>): seq<Key> {
    if passes == [] then benched
    else BenchAfter(s, Run(s, benched, passes[..|passes| - 1]), passes[|passes| - 1])
  }

  /** Failed in pass `i`, offered in every pass since, and recovered in none. */
  predicate HeldSince(s: Settings, passes: seq<seq<Candidate>>, k: Key, i: nat)
    requires i < |passes|
  {
    Fails(s, passes[i], k) && forall j :: i < j < |passes| ==> Offered(passes[j], k) && !Recovers(s, passes[j], k)
  }

  /** The bench's hysteresis over every run: a link is held out exactly when it failed in some
      pass and has been offered in each one since without recovering in any. */
  lemma {:induction false} BenchRemembers(s: Settings, passes: seq<seq<Candidate>>, k: Key)
    requires forall i :: 0 <= i < |passes| ==> OncePerKey(passes[i])
    ensures k in Run(s, [], passes) <==> exists i :: 0 <= i < |passes| && HeldSince(s, passes, k, i)
  {
    hide BenchAfter, Fails, Recovers, Offered, OncePerKey;
    if passes != [] {
      var front, last := passes[..|passes| - 1], |passes| - 1;
      BenchRemembers(s, front, k);
      PassDecides(s, Run(s, [], front), passes[last], k);
      if i :| 0 <= i < |passes| && HeldSince(s, passes, k, i) {
        if i < last {
          assert HeldSince(s, front, k, i);
        }
      }
      if k in Run(s, [], passes) {
        if Fails(s, passes[last], k) {
          assert HeldSince(s, passes, k, last);
        } else {
          var i :| 0 <= i < |front| && HeldSince(s, front, k, i);
          assert HeldSince(s, passes, k, i);
        }
      }
    }
  }

  /** A link whose drop stays between the two shares never changes side, however long. */
  lemma {:induction false} BandNeverMoves(s: Settings, benched: seq<Key>, passes: seq<seq<Candidate>>, k: Key)
    requires forall i :: 0 <= i < |passes| ==> OncePerKey(passes[i]) && Offered(passes[i], k)
    requires forall i :: 0 <= i < |passes| ==> !Fails(s, passes[i], k) && !Recovers(s, passes[i], k)
    ensures k in Run(s, benched, passes) <==> k in benched
  {
    hide BenchAfter, Fails, Recovers, Offered, OncePerKey;
    if passes != [] {
      var front := passes[..|passes| - 1];
      BandNeverMoves(s, benched, front, k);
      PassDecides(s, Run(s, benched, front), passes[|passes| - 1], k);
    }
  }

  lemma {:induction false} EligibleMeaning(s: Settings, benched: seq<Key>, cands: seq<Candidate>, c: Usable)
    requires OncePerKey(cands)
    ensures c in Eligible(s, benched, cands) <==> c in cands && c.drop.value < Bar(s, benched, c.key)
  {
    hide JudgeOne, Settings.DropShare, Settings.RecoverShare;
    if cands != [] {
      var front, d := cands[..|cands| - 1], cands[|cands| - 1];
      assert cands == front + [d];
      EligibleMeaning(s, benched, front, c);
      JudgeUntouched(s, benched, front, d.key);
    }
  }

  lemma {:induction false} JudgeUntouched(s: Settings, benched: seq<Key>, cands: seq<Candidate>, k: Key)
    requires forall i :: 0 <= i < |cands| ==> cands[i].key != k
    ensures k in Judge(s, benched, cands) <==> k in benched
  {
    hide JudgeOne, Bar;
    if cands != [] {
      JudgeUntouched(s, benched, cands[..|cands| - 1], k);
      JudgeOneDecides(s, Judge(s, benched, cands[..|cands| - 1]), cands[|cands| - 1], k);
    }
  }

  /** What a member is, in any pass: a measured candidate of this pass below the bench share,
      not on the bench, and below half of it if it was. */
  lemma MembersAreFit(s: Settings, benched: seq<Key>, cands: seq<Candidate>, c: Usable)
    requires OncePerKey(cands) && c in ChosenBy(s, benched, cands)
    ensures c in cands && c.meanMs.Some? && c.drop.Some? && c.probes >= MIN_PROBES
    ensures c.drop.value < s.DropShare() && c.key !in BenchAfter(s, benched, cands)
    ensures c.key in benched ==> c.drop.value < s.RecoverShare()
  {
    hide Judge, ByMean, Settings.DropShare, Settings.RecoverShare;
    var start := StillOffered(benched, cands);
    var eligible := Eligible(s, start, cands);
    MembersAreFastest(s, eligible);
    assert c in multiset(Chosen(s, eligible));
    EligibleMeaning(s, start, cands, c);
    var i :| 0 <= i < |cands| && cands[i] == c;
    assert s.RecoverShare() <= s.DropShare();
    PassDecides(s, benched, cands, c.key);
    assert !Fails(s, cands, c.key);
  }
}
