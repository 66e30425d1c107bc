/** Records, packed blocks and filters of the log ring, and what its two paged readers
    mean in terms of the plain list of everything ever recorded. (src/logbook.py) */
module LogRing {
  import opened Basics

  /** One line, cleaned. `number` is its sequence number; `fields` is its structured half,
      as a search reads it. */
  datatype Entry = Entry(number: nat, at: real, level: nat, source: string, topic: string,
                         message: string, fields: string)

  /** A compressed block is opaque but for its size; inflating it gives the rows back. */
  datatype Packed = Packed(rows: seq<Entry>, size: nat)

  datatype Block = Block(first: nat, last: nat, atFirst: real, atLast: real, count: nat, gz: Packed, raw: nat)

  function Unpack(b: Block): seq<Entry> {
    b.gz.rows
  }

  /** What one open record is taken to weigh, and how many bytes rows take written out and
      compressed: any measures at all. */
  datatype Codec = Codec(weight: Entry -> nat, encoded: seq<Entry> -> nat, deflated: seq<Entry> -> nat)

  function Pack(codec: Codec, rows: seq<Entry>): Block
    requires rows != []
  {
    var newest := rows[|rows| - 1];
    Block(rows[0].number, newest.number, rows[0].at, newest.at, |rows|,
          Packed(rows, codec.deflated(rows)), codec.encoded(rows))
  }

  function Flat(blocks: seq<Block>): seq<Entry> {
    if blocks == [] then [] else Unpack(blocks[0]) + Flat(blocks[1..])
  }

  function SumPacked(blocks: seq<Block>): nat {
    if blocks == [] then 0 else blocks[0].gz.size + SumPacked(blocks[1..])
  }

  function SumRaw(blocks: seq<Block>): nat {
    if blocks == [] then 0 else blocks[0].raw + SumRaw(blocks[1..])
  }

  function SumWeight(codec: Codec, rows: seq<Entry>): nat {
    if rows == [] then 0 else codec.weight(rows[0]) + SumWeight(codec, rows[1..])
  }

  lemma {:induction false} SumsAppend(blocks: seq<Block>, b: Block)
    ensures SumPacked(blocks + [b]) == SumPacked(blocks) + b.gz.size
    ensures SumRaw(blocks + [b]) == SumRaw(blocks) + b.raw
    ensures Flat(blocks + [b]) == Flat(blocks) + Unpack(b)
  {
    if blocks == [] {
      assert blocks + [b] == [b] && [b][1..] == [];
    } else {
      assert (blocks + [b])[1..] == blocks[1..] + [b];
      SumsAppend(blocks[1..], b);
    }
  }

  lemma {:induction false} WeightAppend(codec: Codec, rows: seq<Entry>, e: Entry)
    ensures SumWeight(codec, rows + [e]) == SumWeight(codec, rows) + codec.weight(e)
  {
    if rows == [] {
      assert rows + [e] == [e] && [e][1..] == [];
    } else {
      assert (rows + [e])[1..] == rows[1..] + [e];
      WeightAppend(codec, rows[1..], e);
    }
  }

  // ------------------------------------------------------------------ filters

  function Lower(s: string): string {
    seq(|s|, i requires 0 <= i < |s| =>
      if 'A' <= s[i] <= 'Z' then s[i] + ' ' else s[i])
  }

  predicate Contains(needle: string, hay: string) {
    needle <= hay || (hay != "" && Contains(needle, hay[1..]))
  }

  /** The filters both readers share; an empty text or a zero time asks for nothing. */
  datatype Filter = Filter(floor: nat, source: string, topic: string, needle: string, since: real, until: real) {

    predicate Keep(e: Entry) {
      && e.level >= floor
      && (source == "" || Contains(Lower(source), Lower(e.source)))
      && (topic == "" || Lower(topic) == Lower(e.topic))
      && (since == 0.0 || e.at >= since)
      && (until == 0.0 || e.at <= until)
      && (needle == "" || Contains(Lower(needle), Lower(e.message)) || Contains(Lower(needle), Lower(e.fields)))
    }

    /** A match numbered below `below`, when a page boundary is given. */
    predicate Wants(e: Entry, below: nat) {
      (below == 0 || e.number < below) && Keep(e)
    }
  }

  const KEEP_ALL := Filter(0, "", "", "", 0.0, 0.0)

  // ------------------------------------------------------------------ selections

  function Select(rows: seq<Entry>, pass: Entry -> bool): seq<Entry> {
    if rows == [] then [] else (if pass(rows[0]) then [rows[0]] else []) + Select(rows[1..], pass)
  }

  lemma {:induction false} SelectConcat(a: seq<Entry>, b: seq<Entry>, pass: Entry -> bool)
    ensures Select(a + b, pass) == Select(a, pass) + Select(b, pass)
  {
    if a == [] {
      assert a + b == b;
    } else {
      assert (a + b)[1..] == a[1..] + b;
      SelectConcat(a[1..], b, pass);
      var first := if pass(a[0]) then [a[0]] else [];
      assert Select(a + b, pass) == first + Select(a[1..] + b, pass);
      assert first + (Select(a[1..], pass) + Select(b, pass)) == first + Select(a[1..], pass) + Select(b, pass);
    }
  }

  lemma {:induction false} SelectMembers(rows: seq<Entry>, pass: Entry -> bool)
    ensures forall e :: e in Select(rows, pass) <==> e in rows && pass(e)
  {
    if rows != [] {
      SelectMembers(rows[1..], pass);
      assert forall e :: e in rows <==> e == rows[0] || e in rows[1..];
    }
  }

  lemma {:induction false} SelectAgrees(rows: seq<Entry>, p: Entry -> bool, q: Entry -> bool)
    requires forall e :: e in rows ==> p(e) == q(e)
    ensures Select(rows, p) == Select(rows, q)
  {
    if rows != [] {
      SelectAgrees(rows[1..], p, q);
    }
  }

  lemma {:induction false} SelectNone(rows: seq<Entry>, pass: Entry -> bool)
    requires forall e :: e in rows ==> !pass(e)
    ensures Select(rows, pass) == []
  {
    if rows != [] {
      SelectNone(rows[1..], pass);
    }
  }

  lemma {:induction false} SelectAll(rows: seq<Entry>, pass: Entry -> bool)
    requires forall e :: e in rows ==> pass(e)
    ensures Select(rows, pass) == rows
  {
    if rows != [] {
      SelectAll(rows[1..], pass);
    }
  }

  // ------------------------------------------------------------------ following with `since`

  const MAX_QUERY := 500

  /** `limit or MAX_QUERY`, brought inside 1..MAX_QUERY. */
  function Bound(limit: int): (b: nat)
    ensures 1 <= b <= MAX_QUERY
  {
    if limit == 0 || limit > MAX_QUERY then MAX_QUERY else if limit < 1 then 1 else limit
  }

  datatype Page = Page(lines: seq<Entry>, cursor: nat, more: bool, lost: nat)

  /** Numbered as the ring numbers: entry `i` of the history is line `i + 1`. */
  predicate Numbered(history: seq<Entry>) {
    forall i :: 0 <= i < |history| ==> history[i].number == i + 1
  }

  function Fresh(after: nat, upto: nat, filter: Filter): Entry -> bool {
    (e: Entry) => after < e.number <= upto && filter.Keep(e)
  }

  /** What a reader at `after` is owed by a ring holding lines `gone + 1 .. newest`: the
      matches up to the new cursor, all of them and in order; how far it may skip; and what
      it lost to eviction. */
  ghost predicate PageOk(history: seq<Entry>, gone: nat, newest: nat, after: nat, bound: nat, filter: Filter,
                         page: Page)
    requires gone <= newest <= |history|
  {
    && page.lines == Select(history[gone..newest], Fresh(after, page.cursor, filter))
    && |page.lines| <= bound && bound >= 1
    && after <= page.cursor <= Max(after, newest)
    && (page.more ==> |page.lines| == bound && page.cursor == page.lines[bound - 1].number < newest)
    && (!page.more ==> page.cursor == Max(after, newest))
    && page.lost == if after > 0 && gone < newest then Max(0, gone - after) else 0
  }

  function Past(after: nat): Entry -> bool {
    (e: Entry) => e.number > after
  }

  function Kept(filter: Filter): Entry -> bool {
    (e: Entry) => filter.Keep(e)
  }

  /** The blocks that can hold anything past `after`. */
  function Pending(blocks: seq<Block>, after: nat): seq<Block> {
    if blocks == [] then []
    else (if blocks[0].last > after then [blocks[0]] else []) + Pending(blocks[1..], after)
  }

  lemma SelectSingle(e: Entry, pass: Entry -> bool)
    ensures Select([e], pass) == if pass(e) then [e] else []
  {
    assert [e][1..] == [];
  }

  /** Leaving out blocks that end at or before `after` leaves out nothing past it. */
  lemma {:induction false} PendingKeepsPast(blocks: seq<Block>, rest: seq<Entry>, after: nat)
    requires Increasing(Flat(blocks) + rest)
    requires forall b :: b in blocks ==> Unpack(b) != [] && b.last == Unpack(b)[|Unpack(b)| - 1].number
    ensures Select(Flat(Pending(blocks, after)), Past(after)) == Select(Flat(blocks), Past(after))
  {
    hide Select;
    if blocks != [] {
      var b, others := blocks[0], blocks[1..];
      var rows := Unpack(b);
      assert Flat(blocks) + rest == rows + (Flat(others) + rest);
      assert forall i :: 0 <= i < |Flat(others) + rest| ==>
                           (Flat(others) + rest)[i] == (Flat(blocks) + rest)[|rows| + i];
      PendingKeepsPast(others, rest, after);
      SelectConcat(rows, Flat(others), Past(after));
      if b.last > after {
        assert Pending(blocks, after) == [b] + Pending(others, after);
        assert Flat(Pending(blocks, after)) == rows + Flat(Pending(others, after));
        SelectConcat(rows, Flat(Pending(others, after)), Past(after));
      } else {
        forall e | e in rows ensures e.number <= b.last {
          var k :| 0 <= k < |rows| && rows[k] == e;
          assert (Flat(blocks) + rest)[k] == e && (Flat(blocks) + rest)[|rows| - 1] == rows[|rows| - 1];
        }
        SelectNone(rows, Past(after));
        assert Pending(blocks, after) == Pending(others, after);
      }
    }
  }

  /** What a ring owes a reader at `after`. */
  function Owed(history: seq<Entry>, gone: nat, newest: nat, after: nat): seq<Entry>
    requires gone <= newest <= |history|
  {
    if after >= newest then [] else history[Max(gone, after)..newest]
  }

  lemma OwedIsPast(history: seq<Entry>, gone: nat, newest: nat, after: nat)
    requires Numbered(history) && gone <= newest <= |history|
    ensures Select(history[gone..newest], Past(after)) == Owed(history, gone, newest, after)
  {
    var lo := if after >= newest then newest else Max(gone, after);
    assert history[gone..newest] == history[gone..lo] + history[lo..newest];
    SelectConcat(history[gone..lo], history[lo..newest], Past(after));
    SelectNone(history[gone..lo], Past(after));
    SelectAll(history[lo..newest], Past(after));
  }

  /** Among lines past `after` whose matches end by `upto`, the two filters pick the same. */
  lemma SeenAgree(seen: seq<Entry>, after: nat, upto: nat, filter: Filter)
    requires forall e :: e in seen ==> after < e.number
    requires forall e :: e in Select(seen, Kept(filter)) ==> e.number <= upto
    ensures Select(seen, Fresh(after, upto, filter)) == Select(seen, Kept(filter))
  {
    hide Filter.Keep, Select;
    var pass := Fresh(after, upto, filter);
    SelectMembers(seen, Kept(filter));
    forall e | e in seen ensures Kept(filter)(e) == pass(e) {
      assert Kept(filter)(e) ==> e in Select(seen, Kept(filter));
    }
    SelectAgrees(seen, Kept(filter), pass);
  }

  /** What is owed is the end of the ring: before it lie lines up to the cursor only. */
  lemma OwedIsTheEnd(history: seq<Entry>, gone: nat, newest: nat, after: nat) returns (early: seq<Entry>)
    requires Numbered(history) && gone <= newest <= |history|
    ensures history[gone..newest] == early + Owed(history, gone, newest, after)
    ensures forall e :: e in early ==> e.number <= after
    ensures forall e :: e in Owed(history, gone, newest, after) ==> after < e.number
    ensures Rising(Owed(history, gone, newest, after))
  {
    hide Rising, Numbered;
    var lo := if after >= newest then newest else Max(gone, after);
    early := history[gone..lo];
    assert history[lo..newest] == Owed(history, gone, newest, after);
    CutSlice(history, gone, lo, newest);
    NumbersOf(history, gone, lo);
    NumbersOf(history, lo, newest);
  }

  lemma NumbersOf(history: seq<Entry>, lo: nat, hi: nat)
    requires Numbered(history) && lo <= hi <= |history|
    ensures forall e :: e in history[lo..hi] ==> lo < e.number <= hi
    ensures Rising(history[lo..hi])
  {
  }

  predicate Rising(rows: seq<Entry>) {
    forall i, k :: 0 <= i < k < |rows| ==> rows[i].number < rows[k].number
  }

  /** Past the first line that is too late, all lines are. */
  lemma LateStaysLate(owed: seq<Entry>, j: nat, upto: nat)
    requires Rising(owed) && j <= |owed|
    requires j < |owed| ==> upto < owed[j].number
    ensures forall e :: e in owed[j..] ==> upto < e.number
  {
  }

  /** The matches among what is owed, up to `upto`, are the page's lines. */
  lemma OwedPage(history: seq<Entry>, gone: nat, newest: nat, after: nat, j: nat, filter: Filter, upto: nat)
    requires Numbered(history) && gone <= newest <= |history|
    requires var owed := Owed(history, gone, newest, after);
             && j <= |owed|
             && (forall e :: e in Select(owed[..j], Kept(filter)) ==> e.number <= upto)
             && (j < |owed| ==> upto < owed[j].number)
    ensures Select(history[gone..newest], Fresh(after, upto, filter))
         == Select(Owed(history, gone, newest, after)[..j], Kept(filter))
  {
    hide Filter.Keep, Select, Owed, Rising;
    var early := OwedIsTheEnd(history, gone, newest, after);
    var owed, pass := Owed(history, gone, newest, after), Fresh(after, upto, filter);
    var seen, late := owed[..j], owed[j..];
    assert owed == seen + late;
    LateStaysLate(owed, j, upto);
    SelectConcat(early, owed, pass);
    SelectConcat(seen, late, pass);
    SelectNone(early, pass);
    SelectNone(late, pass);
    SeenAgree(seen, after, upto, filter);
  }

  /** A page given while the history was shorter is still right about the longer one. */
  lemma PageOnLongerHistory(history: seq<Entry>, longer: seq<Entry>, gone: nat, newest: nat, after: nat, bound: nat,
                            filter: Filter, page: Page)
    requires history <= longer && gone <= newest <= |history|
    requires PageOk(history, gone, newest, after, bound, filter, page)
    ensures PageOk(longer, gone, newest, after, bound, filter, page)
  {
    assert history[gone..newest] == longer[gone..newest];
  }

  /** One call of a reader, and the ring it met. */
  datatype Visit = Visit(gone: nat, newest: nat, bound: nat, page: Page)

  /** A reader that keeps asking from the number it was given, while lines are recorded and
      blocks evicted between its calls. */
  ghost predicate IsReading(history: seq<Entry>, start: nat, filter: Filter, visits: seq<Visit>)
    decreases visits
  {
    visits != [] ==>
      var v := visits[0];
      && v.gone <= v.newest <= |history|
      && PageOk(history, v.gone, v.newest, start, v.bound, filter, v.page)
      && IsReading(history, v.page.cursor, filter, visits[1..])
  }

  function FinalCursor(start: nat, visits: seq<Visit>): nat
    decreases visits
  {
    if visits == [] then start else FinalCursor(visits[0].page.cursor, visits[1..])
  }

  function Delivered(visits: seq<Visit>): seq<Entry> {
    if visits == [] then [] else visits[0].page.lines + Delivered(visits[1..])
  }

  function TotalLost(visits: seq<Visit>): nat {
    if visits == [] then 0 else visits[0].page.lost + TotalLost(visits[1..])
  }

  /** Line `number` had left the ring when the call that would have delivered it came. */
  predicate Missed(start: nat, visits: seq<Visit>, number: nat)
    decreases visits
  {
    visits != [] &&
    if number <= visits[0].page.cursor then start < number <= visits[0].gone
    else Missed(visits[0].page.cursor, visits[1..], number)
  }

  predicate Increasing(rows: seq<Entry>) {
    forall i, j :: 0 <= i < j < |rows| ==> rows[i].number < rows[j].number
  }

  lemma {:induction false} SelectIncreasing(rows: seq<Entry>, pass: Entry -> bool)
    requires Increasing(rows)
    ensures Increasing(Select(rows, pass))
  {
    if rows != [] {
      var rest := Select(rows[1..], pass);
      SelectIncreasing(rows[1..], pass);
      SelectMembers(rows[1..], pass);
      forall i | 0 <= i < |rest| ensures rows[0].number < rest[i].number {
        assert rest[i] in rest && rest[i] in rows[1..];
      }
    }
  }

  lemma SliceMembers(history: seq<Entry>, gone: nat, newest: nat)
    requires Numbered(history) && gone <= newest <= |history|
    ensures Increasing(history[gone..newest])
    ensures forall e :: e in history[gone..newest] <==> e in history && gone < e.number <= newest
  {
  }

  lemma PageMembers(history: seq<Entry>, v: Visit, after: nat, filter: Filter)
    requires Numbered(history) && v.gone <= v.newest <= |history|
    requires PageOk(history, v.gone, v.newest, after, v.bound, filter, v.page)
    ensures Increasing(v.page.lines)
    ensures forall e :: e in v.page.lines <==>
                          e in history && after < e.number <= v.page.cursor && filter.Keep(e) && v.gone < e.number
  {
    hide Filter.Keep, Select, Numbered;
    var rows, pass := history[v.gone..v.newest], Fresh(after, v.page.cursor, filter);
    SliceMembers(history, v.gone, v.newest);
    SelectMembers(rows, pass);
    SelectIncreasing(rows, pass);
    assert after <= v.newest ==> v.page.cursor <= v.newest;
  }

  lemma {:induction false} CursorOnlyMovesOn(history: seq<Entry>, start: nat, filter: Filter, visits: seq<Visit>)
    requires IsReading(history, start, filter, visits)
    ensures start <= FinalCursor(start, visits)
    decreases visits
  {
    if visits != [] {
      CursorOnlyMovesOn(history, visits[0].page.cursor, filter, visits[1..]);
    }
  }

  /** Following the log: every matching line past the start is delivered exactly once and
      in order, unless it was evicted before its call came. */
  lemma {:induction false} ReaderMissesNothing(history: seq<Entry>, start: nat, filter: Filter, visits: seq<Visit>)
    requires Numbered(history) && IsReading(history, start, filter, visits)
    ensures Increasing(Delivered(visits))
    ensures forall e :: e in Delivered(visits) <==>
                          && e in history && start < e.number <= FinalCursor(start, visits) && filter.Keep(e)
                          && !Missed(start, visits, e.number)
    decreases visits
  {
    if visits != [] {
      hide PageOk;
      var v, rest := visits[0], visits[1..];
      var cursor := v.page.cursor;
      PageMembers(history, v, start, filter);
      ReaderMissesNothing(history, cursor, filter, rest);
      CursorOnlyMovesOn(history, cursor, filter, rest);
      assert forall e :: e in Delivered(visits) <==> e in v.page.lines || e in Delivered(rest);
      JoinIncreasing(v.page.lines, Delivered(rest), cursor);
    }
  }

  lemma JoinIncreasing(a: seq<Entry>, b: seq<Entry>, middle: nat)
    requires Increasing(a) && Increasing(b)
    requires forall e :: e in a ==> e.number <= middle
    requires forall e :: e in b ==> middle < e.number
    ensures Increasing(a + b)
  {
  }

  /** How many lines of a ring lie past `after` and up to `upto`. */
  lemma {:induction false} CountFresh(history: seq<Entry>, gone: nat, newest: nat, after: nat, upto: nat)
    requires Numbered(history) && gone <= newest <= |history| && after <= upto <= newest
    ensures |Select(history[gone..newest], Fresh(after, upto, KEEP_ALL))| == Max(0, upto - Max(gone, after))
    decreases newest - gone
  {
    var rows := history[gone..newest];
    if gone < newest {
      assert rows[0] == history[gone] && rows[1..] == history[gone + 1..newest];
      CountFresh(history, gone + 1, newest, after, upto);
    }
  }

  /** Does a page account for every number its cursor moved over? Not when the ring was
      emptied while lines were owed, and not for a first call that meets a ring which has
      already evicted something. */
  predicate Accounts(v: Visit, after: nat) {
    if v.gone >= v.newest then v.newest <= after else after > 0 || v.gone == 0
  }

  predicate AllAccount(start: nat, visits: seq<Visit>)
    decreases visits
  {
    visits != [] ==> Accounts(visits[0], start) && AllAccount(visits[0].page.cursor, visits[1..])
  }

  lemma PageAccounts(history: seq<Entry>, v: Visit, after: nat)
    requires Numbered(history) && v.gone <= v.newest <= |history|
    requires PageOk(history, v.gone, v.newest, after, v.bound, KEEP_ALL, v.page)
    ensures |v.page.lines| + v.page.lost <= v.page.cursor - after
    ensures |v.page.lines| + v.page.lost == v.page.cursor - after <==> Accounts(v, after)
  {
    if after <= v.newest {
      CountFresh(history, v.gone, v.newest, after, v.page.cursor);
      PageMembers(history, v, after, KEEP_ALL);
      assert v.page.more ==> v.page.lines[v.bound - 1] in v.page.lines;
    } else {
      SelectNone(history[v.gone..v.newest], Fresh(after, v.page.cursor, KEEP_ALL));
    }
  }

  /** Along a whole unfiltered reading, lines delivered and lines reported lost never exceed
      the distance travelled, and make it up exactly when every page accounts for its own. */
  lemma {:induction false} ReaderAccountsForAll(history: seq<Entry>, start: nat, visits: seq<Visit>)
    requires Numbered(history) && IsReading(history, start, KEEP_ALL, visits)
    ensures |Delivered(visits)| + TotalLost(visits) <= FinalCursor(start, visits) - start
    ensures |Delivered(visits)| + TotalLost(visits) == FinalCursor(start, visits) - start <==> AllAccount(start, visits)
    decreases visits
  {
    if visits != [] {
      PageAccounts(history, visits[0], start);
      ReaderAccountsForAll(history, visits[0].page.cursor, visits[1..]);
    }
  }

  /** A ring that was never emptied once it held a line accounts for every number to a reader
      that started past the first line, however long it reads and whatever is evicted. */
  lemma {:induction false} UnemptiedAccounts(history: seq<Entry>, start: nat, filter: Filter, visits: seq<Visit>)
    requires IsReading(history, start, filter, visits) && start >= 1
    requires forall v :: v in visits ==> v.newest > 0 ==> v.gone < v.newest
    ensures AllAccount(start, visits)
    decreases visits
  {
    if visits != [] {
      assert visits[0] in visits;
      UnemptiedAccounts(history, visits[0].page.cursor, filter, visits[1..]);
    }
  }

  lemma {:induction false} SumOfSuffix(blocks: seq<Block>)
    requires blocks != []
    ensures SumPacked(blocks[|blocks| - 1..]) == blocks[|blocks| - 1].gz.size
  {
    assert blocks[|blocks| - 1..] == [blocks[|blocks| - 1]];
    assert [blocks[|blocks| - 1]][1..] == [];
  }
}
