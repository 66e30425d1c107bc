/** The newest-first reader: the block-skipping scan against the plain one, and paging.
    (src/logbook.py:467-517) */
module LogQuery {
  import opened Basics
  import opened LogRing

  function Reverse(rows: seq<Entry>): seq<Entry> {
    if rows == [] then [] else Reverse(rows[1..]) + [rows[0]]
  }

  lemma {:induction false} ReverseConcat(a: seq<Entry>, b: seq<Entry>)
    ensures Reverse(a + b) == Reverse(b) + Reverse(a)
  {
    if a == [] {
      assert a + b == b;
    } else {
      assert (a + b)[1..] == a[1..] + b;
      ReverseConcat(a[1..], b);
    }
  }

  lemma {:induction false} ReverseMembers(rows: seq<Entry>)
    ensures |Reverse(rows)| == |rows| && forall e :: e in Reverse(rows) <==> e in rows
  {
    if rows != [] {
      ReverseMembers(rows[1..]);
    }
  }

  function Wanted(f: Filter, below: nat): Entry -> bool {
    (e: Entry) => f.Wants(e, below)
  }

  /** The rows the reader inflates, newest first, from the newest packed block back: blocks
      past the page boundary or later than the asked time are passed over, and the first one
      that ends before the asked time ends the search. */
  function Inflated(blocks: seq<Block>, f: Filter, below: nat): seq<Entry> {
    if blocks == [] then []
    else
      var older, b := blocks[..|blocks| - 1], blocks[|blocks| - 1];
      if below != 0 && b.first >= below then Inflated(older, f, below)
      else if f.until != 0.0 && b.atFirst > f.until then Inflated(older, f, below)
      else if f.since != 0.0 && b.atLast < f.since then []
      else Reverse(Unpack(b)) + Inflated(older, f, below)
  }

  /** One page of matches, and whether there is another match after it. */
  datatype Answer = Answer(lines: seq<Entry>, more: bool)

  function Cut(matches: seq<Entry>, bound: nat): Answer {
    if |matches| > bound then Answer(matches[..bound], true) else Answer(matches, false)
  }

  function BlockScan(blocks: seq<Block>, open: seq<Entry>, f: Filter, below: nat, bound: nat): Answer {
    Cut(Select(Reverse(open) + Inflated(blocks, f, below), Wanted(f, below)), bound)
  }

  function PlainScan(rows: seq<Entry>, f: Filter, below: nat, bound: nat): Answer {
    Cut(Select(Reverse(rows), Wanted(f, below)), bound)
  }

  /** Blocks and open rows as `record` leaves them: in number order, indexed by their ends. */
  ghost predicate InOrder(blocks: seq<Block>, open: seq<Entry>) {
    && Increasing(Flat(blocks) + open)
    && forall b :: b in blocks ==> IndexOk(b)
  }

  predicate IndexOk(b: Block) {
    && Unpack(b) != []
    && b.first == Unpack(b)[0].number && b.atFirst == Unpack(b)[0].at
    && b.last == Unpack(b)[|Unpack(b)| - 1].number && b.atLast == Unpack(b)[|Unpack(b)| - 1].at
  }

  /** The two skips are safe: a block's first time is its earliest, and its last time is the
      latest of everything up to it. */
  ghost predicate TimesSound(blocks: seq<Block>) {
    blocks != [] ==>
      var older, b := blocks[..|blocks| - 1], blocks[|blocks| - 1];
      && (forall e :: e in Unpack(b) ==> b.atFirst <= e.at)
      && (forall e :: e in Flat(blocks) ==> e.at <= b.atLast)
      && TimesSound(older)
  }

  predicate Chronological(rows: seq<Entry>) {
    forall i, j :: 0 <= i < j < |rows| ==> rows[i].at <= rows[j].at
  }

  lemma FlatSplit(blocks: seq<Block>)
    requires blocks != []
    ensures Flat(blocks) == Flat(blocks[..|blocks| - 1]) + Unpack(blocks[|blocks| - 1])
  {
    SumsAppend(blocks[..|blocks| - 1], blocks[|blocks| - 1]);
    assert blocks == blocks[..|blocks| - 1] + [blocks[|blocks| - 1]];
  }

  lemma InOrderSplit(blocks: seq<Block>, open: seq<Entry>)
    requires InOrder(blocks, open) && blocks != []
    ensures var older, b := blocks[..|blocks| - 1], blocks[|blocks| - 1];
            && InOrder(older, Unpack(b) + open) && IndexOk(b)
            && Flat(blocks) + open == Flat(older) + (Unpack(b) + open)
  {
    FlatSplit(blocks);
    var older, b := blocks[..|blocks| - 1], blocks[|blocks| - 1];
    assert Flat(blocks) + open == Flat(older) + (Unpack(b) + open);
  }

  /** Timestamps that never decrease make the index sound. */
  lemma {:induction false} ChronologicalIsSound(blocks: seq<Block>, open: seq<Entry>)
    requires InOrder(blocks, open) && Chronological(Flat(blocks) + open)
    ensures TimesSound(blocks)
  {
    if blocks != [] {
      var older, b := blocks[..|blocks| - 1], blocks[|blocks| - 1];
      var rows := Unpack(b);
      InOrderSplit(blocks, open);
      FlatSplit(blocks);
      ChronologicalIsSound(older, rows + open);
      assert Flat(blocks) + open == [] + (Flat(blocks) + open);
      ChronologicalPart([], Flat(blocks), open);
      ChronologicalPart(Flat(older), rows, open);
      ChronologicalEnds(Flat(blocks));
      ChronologicalEnds(rows);
      assert Flat(blocks)[|Flat(blocks)| - 1] == rows[|rows| - 1];
    }
  }

  lemma ChronologicalPart(a: seq<Entry>, b: seq<Entry>, c: seq<Entry>)
    requires Chronological(a + (b + c))
    ensures Chronological(b)
  {
    var all := a + (b + c);
    assert forall i :: 0 <= i < |b| ==> all[|a| + i] == b[i];
  }

  lemma ChronologicalEnds(rows: seq<Entry>)
    requires Chronological(rows) && rows != []
    ensures forall e :: e in rows ==> rows[0].at <= e.at <= rows[|rows| - 1].at
  {
  }

  /** The last line recorded was no later than this. */
  predicate NotBefore(history: seq<Entry>, at: real) {
    history == [] || history[|history| - 1].at <= at
  }

  /** A line recorded by a clock that did not run backwards keeps the history chronological,
      and so is what is left of it after any eviction. */
  lemma RecordKeepsChronology(history: seq<Entry>, entry: Entry, gone: nat)
    requires Chronological(history) && NotBefore(history, entry.at) && gone <= |history| + 1
    ensures Chronological(history + [entry]) && Chronological((history + [entry])[gone..])
  {
    forall i | 0 <= i < |history| ensures history[i].at <= entry.at {
      assert history[i].at <= history[|history| - 1].at;
    }
  }

  /** Sound index: skipping blocks finds the same matches. */
  lemma {:induction false} SkipsAreSafe(blocks: seq<Block>, open: seq<Entry>, f: Filter, below: nat)
    requires InOrder(blocks, open) && TimesSound(blocks)
    ensures Select(Inflated(blocks, f, below), Wanted(f, below)) == Select(Reverse(Flat(blocks)), Wanted(f, below))
  {
    if blocks != [] {
      var older, b := blocks[..|blocks| - 1], blocks[|blocks| - 1];
      var rows, pass := Unpack(b), Wanted(f, below);
      InOrderSplit(blocks, open);
      FlatSplit(blocks);
      SkipsAreSafe(older, rows + open, f, below);
      ReverseConcat(Flat(older), rows);
      SelectConcat(Reverse(rows), Reverse(Flat(older)), pass);
      SelectConcat(Reverse(rows), Inflated(older, f, below), pass);
      ReverseMembers(rows);
      ReverseMembers(Flat(blocks));
      if (below != 0 && b.first >= below) || (f.until != 0.0 && b.atFirst > f.until) {
        forall e | e in rows ensures !pass(e) {
          FirstIsLeast(b, Flat(older), open, e);
        }
        SelectNone(Reverse(rows), pass);
      } else if f.since != 0.0 && b.atLast < f.since {
        SelectNone(Reverse(Flat(blocks)), pass);
      }
    }
  }

  lemma FirstIsLeast(b: Block, before: seq<Entry>, after: seq<Entry>, e: Entry)
    requires IndexOk(b) && Increasing(before + (Unpack(b) + after)) && e in Unpack(b)
    ensures b.first <= e.number <= b.last
  {
    var rows, all := Unpack(b), before + (Unpack(b) + after);
    var k :| 0 <= k < |rows| && rows[k] == e;
    assert all[|before|] == rows[0] && all[|before| + k] == e && all[|before| + |rows| - 1] == rows[|rows| - 1];
  }

  // ------------------------------------------------------------------ when skipping goes wrong

  /** Blocks newer than a page boundary are never opened. */
  lemma {:induction false} NewerSkipped(blocks: seq<Block>, newer: seq<Block>, f: Filter, below: nat)
    requires below > 0 && forall b :: b in newer ==> b.first >= below
    ensures Inflated(blocks + newer, f, below) == Inflated(blocks, f, below)
    decreases |newer|
  {
    if newer == [] {
      assert blocks + newer == blocks;
    } else {
      var all, n := blocks + newer, |newer| - 1;
      assert all[..|all| - 1] == blocks + newer[..n] && all[|all| - 1] == newer[n];
      NewerSkipped(blocks, newer[..n], f, below);
    }
  }

  /** The index of `b`, newest of the blocks up to it, is wrong about somebody's time. */
  ghost predicate Early(b: Block) {
    exists e :: e in Unpack(b) && e.at < b.atFirst
  }

  ghost predicate Late(older: seq<Block>, b: Block) {
    exists e :: e in Flat(older + [b]) && e.at > b.atLast
  }

  lemma {:induction false} FindLie(blocks: seq<Block>) returns (k: nat)
    requires !TimesSound(blocks)
    ensures k < |blocks| && (Early(blocks[k]) || Late(blocks[..k], blocks[k]))
  {
    var n := |blocks| - 1;
    assert blocks == blocks[..n] + [blocks[n]];
    if Early(blocks[n]) || Late(blocks[..n], blocks[n]) {
      k := n;
    } else {
      k := FindLie(blocks[..n]);
      assert blocks[..n][..k] == blocks[..k];
    }
  }

  lemma {:induction false} FlatConcat(a: seq<Block>, b: seq<Block>)
    ensures Flat(a + b) == Flat(a) + Flat(b)
  {
    if a == [] {
      assert a + b == b;
    } else {
      assert (a + b)[1..] == a[1..] + b;
      FlatConcat(a[1..], b);
    }
  }

  lemma IncreasingPair(a: seq<Entry>, b: seq<Entry>, x: Entry, y: Entry)
    requires Increasing(a + b) && x in a && y in b
    ensures x.number < y.number
  {
    var i :| 0 <= i < |a| && a[i] == x;
    var j :| 0 <= j < |b| && b[j] == y;
    assert (a + b)[i] == x && (a + b)[|a| + j] == y;
  }

  lemma {:induction false} InflatedMembers(blocks: seq<Block>, f: Filter, below: nat)
    ensures forall e :: e in Inflated(blocks, f, below) ==> e in Flat(blocks)
  {
    if blocks != [] {
      var n := |blocks| - 1;
      InflatedMembers(blocks[..n], f, below);
      FlatSplit(blocks);
      ReverseMembers(Unpack(blocks[n]));
    }
  }

  lemma Single(e: Entry, pass: Entry -> bool)
    ensures Reverse([e]) == [e] && Select([e], pass) == if pass(e) then [e] else []
  {
    assert [e][1..] == [];
  }

  /** The first plain match is the one with the highest number. */
  lemma {:induction false} PlainFirst(rows: seq<Entry>, pass: Entry -> bool, e: Entry)
    requires Increasing(rows) && e in rows && pass(e)
    requires forall d :: d in rows && pass(d) ==> d.number <= e.number
    ensures Select(Reverse(rows), pass) != [] && Select(Reverse(rows), pass)[0] == e
  {
    var rest := rows[1..];
    SelectConcat(Reverse(rest), [rows[0]], pass);
    Single(rows[0], pass);
    if e == rows[0] {
      ReverseMembers(rest);
      SelectNone(Reverse(rest), pass);
    } else {
      PlainFirst(rest, pass, e);
    }
  }

  /** A nonzero time in `(lo, hi]`: zero would ask for nothing. */
  function SomeTime(lo: real, hi: real): (t: real)
    requires lo < hi
    ensures lo < t <= hi && t != 0.0
  {
    if hi != 0.0 then hi else lo / 2.0
  }

  /** A block that starts earlier than it says hides a match. */
  lemma EarlyHides(older: seq<Block>, b: Block, newer: seq<Block>, open: seq<Entry>) returns (f: Filter, below: nat)
    requires InOrder(older + ([b] + newer), open) && Early(b)
    ensures forall bound :: bound >= 1 ==>
              BlockScan(older + ([b] + newer), open, f, below, bound)
              != PlainScan(Flat(older + ([b] + newer)) + open, f, below, bound)
  {
    hide Select, Reverse, Flat, Increasing;
    var blocks := older + ([b] + newer);
    var e :| e in Unpack(b) && e.at < b.atFirst;
    f := KEEP_ALL.(until := if e.at != 0.0 then e.at else b.atFirst / 2.0);
    below := e.number + 1;
    var rows, after := Unpack(b), Flat(newer) + open;
    Layout(older, b, newer, open);
    FirstIsLeast(b, Flat(older), after, e);
    FlatSplit(older + [b]);
    assert (older + [b])[..|older|] == older && e in Flat(older + [b]);
    LaterNumbers(older, b, newer, open, e);
    NewerSkipped(older + [b], newer, f, below);
    assert blocks == older + [b] + newer;
    assert Inflated(blocks, f, below) == Inflated(older, f, below);
    InflatedMembers(older, f, below);
    var seen := Reverse(open) + Inflated(older, f, below);
    ReverseMembers(open);
    if e in Inflated(older, f, below) {
      IncreasingPair(Flat(older), rows + after, e, e);
    }
    PlainFirst(Flat(blocks) + open, Wanted(f, below), e);
    SelectMembers(seen, Wanted(f, below));
  }

  lemma Layout(older: seq<Block>, b: Block, newer: seq<Block>, open: seq<Entry>)
    ensures Flat(older + ([b] + newer)) + open == Flat(older) + (Unpack(b) + (Flat(newer) + open))
  {
    FlatConcat(older, [b] + newer);
    FlatConcat([b], newer);
    assert Flat([b]) == Unpack(b) by {
      assert [b][1..] == [];
    }
  }

  /** Everything after a block is numbered above everything up to it. */
  lemma LaterNumbers(older: seq<Block>, b: Block, newer: seq<Block>, open: seq<Entry>, e: Entry)
    requires InOrder(older + ([b] + newer), open) && e in Flat(older + [b])
    ensures forall n :: n in newer ==> e.number < n.first
    ensures forall d :: d in open ==> e.number < d.number
  {
    Layout(older, b, newer, open);
    FlatConcat(older, [b]);
    assert Flat([b]) == Unpack(b) by {
      assert [b][1..] == [];
    }
    var all := Flat(older + [b]) + (Flat(newer) + open);
    assert all == Flat(older) + (Unpack(b) + (Flat(newer) + open));
    forall d | d in Flat(newer) + open ensures e.number < d.number {
      IncreasingPair(Flat(older + [b]), Flat(newer) + open, e, d);
    }
    forall n | n in newer ensures e.number < n.first {
      assert n in older + ([b] + newer);
      FirstInFlat(newer, n);
    }
  }

  lemma FirstInFlat(blocks: seq<Block>, n: Block)
    requires n in blocks && IndexOk(n)
    ensures Unpack(n)[0] in Flat(blocks)
  {
  }

  /** A block that is followed by nothing as late as something up to it hides a match. */
  lemma LateHides(older: seq<Block>, b: Block, newer: seq<Block>, open: seq<Entry>) returns (f: Filter, below: nat)
    requires InOrder(older + ([b] + newer), open) && Late(older, b)
    ensures forall bound :: bound >= 1 ==>
              BlockScan(older + ([b] + newer), open, f, below, bound)
              != PlainScan(Flat(older + ([b] + newer)) + open, f, below, bound)
  {
    var blocks := older + ([b] + newer);
    var e :| e in Flat(older + [b]) && e.at > b.atLast;
    f := KEEP_ALL.(since := SomeTime(b.atLast, e.at));
    below := if e.number > b.first then e.number + 1 else b.first + 1;
    assert b in blocks;
    var first := Unpack(b)[0];
    FlatSplit(older + [b]);
    assert (older + [b])[..|older|] == older && first in Flat(older + [b]);
    LaterNumbers(older, b, newer, open, e);
    LaterNumbers(older, b, newer, open, first);
    NewerSkipped(older + [b], newer, f, below);
    assert (older + [b])[..|older|] == older && blocks == older + [b] + newer;
    assert Inflated(blocks, f, below) == [];
    ReverseMembers(open);
    SelectNone(Reverse(open) + [], Wanted(f, below));
    ReverseMembers(Flat(blocks) + open);
    SelectMembers(Reverse(Flat(blocks) + open), Wanted(f, below));
    FlatConcat(older + [b], newer);
    assert e in Flat(blocks) + open && Wanted(f, below)(e);
  }

  /** The block-skipping query gives the plain scan's page for every question exactly when
      the time index is sound. */
  lemma QueryIsPlainScan(blocks: seq<Block>, open: seq<Entry>)
    requires InOrder(blocks, open)
    ensures TimesSound(blocks) <==>
              forall f, below, bound :: bound >= 1 ==>
                BlockScan(blocks, open, f, below, bound) == PlainScan(Flat(blocks) + open, f, below, bound)
  {
    if TimesSound(blocks) {
      forall f, below, bound: nat | bound >= 1
        ensures BlockScan(blocks, open, f, below, bound) == PlainScan(Flat(blocks) + open, f, below, bound)
      {
        SkipsAreSafe(blocks, open, f, below);
        ReverseConcat(Flat(blocks), open);
        SelectConcat(Reverse(open), Reverse(Flat(blocks)), Wanted(f, below));
        SelectConcat(Reverse(open), Inflated(blocks, f, below), Wanted(f, below));
      }
    } else {
      var k := FindLie(blocks);
      var older, b, newer := blocks[..k], blocks[k], blocks[k + 1..];
      assert blocks == older + ([b] + newer);
      var f, below;
      if Early(b) {
        f, below := EarlyHides(older, b, newer, open);
      } else {
        f, below := LateHides(older, b, newer, open);
      }
      assert BlockScan(blocks, open, f, below, 1) != PlainScan(Flat(blocks) + open, f, below, 1);
    }
  }

  // ------------------------------------------------------------------ paging backwards

  /** Asking again below the last line of each page until a page says there is no more. */
  function Pages(rows: seq<Entry>, f: Filter, below: nat, bound: nat, calls: nat): seq<Entry>
    decreases calls
  {
    var page := PlainScan(rows, f, below, bound);
    if calls == 0 then []
    else if !page.more || page.lines == [] then page.lines
    else page.lines + Pages(rows, f, page.lines[|page.lines| - 1].number, bound, calls - 1)
  }

  /** Paging back lists every match once, newest first, in as many calls as there are
      matches at most. */
  lemma {:induction false} PagesListEveryMatch(rows: seq<Entry>, f: Filter, below: nat, bound: nat, calls: nat)
    requires Increasing(rows) && bound >= 1 && (forall e :: e in rows ==> e.number >= 1)
    requires calls >= 1 && calls >= |Select(Reverse(rows), Wanted(f, below))|
    ensures Pages(rows, f, below, bound, calls) == Select(Reverse(rows), Wanted(f, below))
    decreases calls
  {
    hide Select, Reverse, Increasing;
    var matches := Select(Reverse(rows), Wanted(f, below));
    if |matches| > bound {
      var boundary := matches[bound - 1].number;
      NextPage(rows, f, below, bound);
      PagesListEveryMatch(rows, f, boundary, bound, calls - 1);
      assert matches == matches[..bound] + matches[bound..];
    }
  }

  predicate Decreasing(rows: seq<Entry>) {
    forall i, j :: 0 <= i < j < |rows| ==> rows[i].number > rows[j].number
  }

  lemma {:induction false} ReverseDecreasing(rows: seq<Entry>)
    requires Increasing(rows)
    ensures Decreasing(Reverse(rows))
  {
    if rows != [] {
      ReverseDecreasing(rows[1..]);
      ReverseMembers(rows[1..]);
      var r := Reverse(rows[1..]);
      forall i | 0 <= i < |r| ensures r[i].number > rows[0].number {
        assert r[i] in r;
      }
    }
  }

  /** The matches below the last line of a page are the matches after that page. */
  lemma NextPage(rows: seq<Entry>, f: Filter, below: nat, bound: nat)
    requires Increasing(rows) && (forall e :: e in rows ==> e.number >= 1)
    requires bound >= 1 && bound <= |Select(Reverse(rows), Wanted(f, below))|
    ensures var matches := Select(Reverse(rows), Wanted(f, below));
            Select(Reverse(rows), Wanted(f, matches[bound - 1].number)) == matches[bound..]
  {
    ReverseDecreasing(rows);
    ReverseMembers(rows);
    SelectBelow(Reverse(rows), f, below, bound);
  }

  lemma {:induction false} SelectBelow(rows: seq<Entry>, f: Filter, below: nat, n: nat)
    requires Decreasing(rows) && (forall e :: e in rows ==> e.number >= 1)
    requires 1 <= n <= |Select(rows, Wanted(f, below))|
    ensures var matches := Select(rows, Wanted(f, below));
            Select(rows, Wanted(f, matches[n - 1].number)) == matches[n..]
  {
    hide Filter.Keep;
    var rest := rows[1..];
    var matches := Select(rows, Wanted(f, below));
    SelectMembers(rest, Wanted(f, below));
    if Wanted(f, below)(rows[0]) {
      if n == 1 {
        assert matches[0] == rows[0];
        SelectAgrees(rest, Wanted(f, below), Wanted(f, rows[0].number));
      } else {
        SelectBelow(rest, f, below, n - 1);
        assert matches[n - 1] in Select(rest, Wanted(f, below));
      }
    } else {
      SelectBelow(rest, f, below, n);
      assert matches[n - 1] in Select(rest, Wanted(f, below));
    }
  }
}
