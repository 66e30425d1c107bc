/** The log ring itself: holds, packing, eviction and the two readers. Each locked section
    of the source is one atomic call here. (src/logbook.py:171-517) */
module LogBook {
  import opened Basics
  import opened Wrappers
  import opened LogRing
  import opened LogQuery
  import opened LogFilters

  const MIN_BYTES := 64 * 1024
  const MAX_BYTES := 512 * 1024 * 1024
  const DEFAULT_BYTES := 8 * 1024 * 1024
  const MIN_OPEN := 16 * 1024
  const BLOCK_RECORDS := 512
  const MAX_MESSAGE := 512
  const MAX_TOPIC := 48
  const MAX_HOLDER := 16
  const MAX_HOLDERS := 8

  function Clip(text: string, bound: nat): string {
    if |text| > bound then text[..bound] else text
  }

  /** A size in bytes brought inside the allowed range. */
  function Clamped(asked: int): (size: nat)
    ensures MIN_BYTES <= size <= MAX_BYTES
    ensures size == MIN_BYTES || size <= asked
    ensures size == MAX_BYTES || size >= asked
  {
    Max(MIN_BYTES, if asked < MAX_BYTES then asked else MAX_BYTES)
  }

  predicate NewestFits(blocks: seq<Block>, room: nat) {
    blocks != [] && blocks[|blocks| - 1].gz.size <= room
  }

  class LogBook {
    const codec: Codec
    const run: nat
    var enabled: bool
    var limit: nat
    var last: nat
    var open: seq<Entry>
    var openBytes: nat
    var blocks: seq<Block>
    var packed: nat
    var raw: nat
    var dropped: nat
    var holders: set<string>
    /** Every line ever recorded, and how many of them have left the ring. */
    ghost var history: seq<Entry>
    ghost var gone: nat

    ghost function Contents(): seq<Entry>
      reads this
    {
      Flat(blocks) + open
    }

    function OpenCap(): nat
      reads this
    {
      Max(MIN_OPEN, limit / 8)
    }

    /** The limit less what an open block can grow to. */
    function Room(): nat
      reads this
    {
      Max(0, limit - OpenCap())
    }

    ghost predicate Tallied()
      reads this
    {
      packed == SumPacked(blocks) && raw == SumRaw(blocks) && openBytes == SumWeight(codec, open)
    }

    ghost predicate Listed()
      reads this
    {
      && Numbered(history) && |history| == last && gone <= last && Contents() == history[gone..]
      && forall b :: b in blocks ==> Unpack(b) != [] && b == Pack(codec, Unpack(b))
    }

    ghost predicate Valid()
      reads this
    {
      && Listed() && Tallied()
      && packed <= Room() && |open| < BLOCK_RECORDS
      && (enabled <==> holders != {}) && |holders| <= MAX_HOLDERS
      && (!enabled ==> blocks == [] && open == [])
      && MIN_BYTES <= limit <= MAX_BYTES
    }

    /** Once it has held a line the ring has always held one since. */
    ghost predicate Unemptied()
      reads this
    {
      last > 0 ==> gone < last
    }

    constructor (codec: Codec, run: nat)
      ensures Valid() && Unemptied() && !enabled && history == [] && limit == DEFAULT_BYTES
      ensures this.codec == codec && this.run == run
    {
      this.codec, this.run := codec, run;
      enabled, limit, last, open, openBytes, blocks := false, DEFAULT_BYTES, 0, [], 0, [];
      packed, raw, dropped, holders, history, gone := 0, 0, 0, {}, [], 0;
    }

    // ---------------------------------------------------------------- lifecycle

    method Drop()
      requires Listed()
      modifies `enabled, `open, `openBytes, `blocks, `packed, `raw, `gone
      ensures !enabled && open == [] && blocks == [] && openBytes == packed == raw == 0
      ensures gone == last && Listed() && Tallied()
    {
      hide Tallied;
      enabled := false;
      Empty();
    }

    method Empty()
      requires Listed()
      modifies `open, `openBytes, `blocks, `packed, `raw, `gone
      ensures open == [] && blocks == [] && openBytes == packed == raw == 0
      ensures gone == last && Listed() && Tallied()
    {
      hide Numbered;
      open, openBytes, blocks, packed, raw, gone := [], 0, [], 0, 0, last;
    }

    /** From now on lines are kept, at the size the holder asks for if it asks; only a ninth
        holder is refused, after the size was applied. */
    method Hold(holder: string, asked: Option<int>)
      requires Valid()
      modifies `limit, `blocks, `packed, `raw, `dropped, `gone, `holders, `enabled
      ensures Valid()
      ensures var name := Clip(if holder == "" then "operator" else holder, MAX_HOLDER);
              holders == if name !in old(holders) && |old(holders)| >= MAX_HOLDERS then old(holders)
                         else old(holders) + {name}
      ensures limit == if asked.Some? then Clamped(asked.value) else old(limit)
      ensures asked.None? ==> blocks == old(blocks) && gone == old(gone) && dropped == old(dropped)
      ensures old(gone) <= gone && dropped - old(dropped) == gone - old(gone)
      ensures old(Unemptied()) && (asked.Some? ==> NewestFits(old(blocks), Room()) || old(open) != []) ==> Unemptied()
    {
      hide Valid, Listed, Tallied, Clip, Clamped;
      if asked.Some? {
        Resize(asked.value);
      }
      Grant(Clip(if holder == "" then "operator" else holder, MAX_HOLDER));
    }

    method Grant(name: string)
      requires Valid()
      modifies `holders, `enabled
      ensures Valid()
      ensures holders == if name !in old(holders) && |old(holders)| >= MAX_HOLDERS then old(holders)
                         else old(holders) + {name}
    {
      if name !in holders && |holders| >= MAX_HOLDERS {
        return;
      }
      holders := holders + {name};
      enabled := true;
    }

    /** End one hold. The lines go when it was the last. */
    method Release(holder: string)
      requires Valid()
      modifies this
      ensures Valid() && history == old(history)
      ensures holders == old(holders) - {Clip(if holder == "" then "operator" else holder, MAX_HOLDER)}
      ensures holders != {} ==> blocks == old(blocks) && open == old(open) && gone == old(gone)
      ensures holders == {} ==> !enabled && blocks == [] && open == []
    {
      holders := holders - {Clip(if holder == "" then "operator" else holder, MAX_HOLDER)};
      if holders == {} {
        Drop();
      }
    }

    method Stop()
      requires Valid()
      modifies this
      ensures Valid() && holders == {} && !enabled && blocks == [] && open == [] && history == old(history)
    {
      holders := {};
      Drop();
    }

    /** A new size in bytes, brought inside the allowed range and applied to the packed
        blocks at once. The open block keeps what it has until the next record. */
    method Resize(asked: int)
      requires Valid()
      modifies `limit, `blocks, `packed, `raw, `dropped, `gone
      ensures Valid() && limit == Clamped(asked)
      ensures old(gone) <= gone && dropped - old(dropped) == gone - old(gone)
      ensures old(Unemptied()) && (NewestFits(old(blocks), Room()) || old(open) != []) ==> Unemptied()
    {
      limit := Clamped(asked);
      Evict();
      if blocks != [] || open != [] {
        HoldsSomething();
      }
    }

    /** Whole blocks, oldest first, until the rest fits beside an open block; no block more
        than that. */
    method Evict()
      requires Listed() && Tallied()
      modifies `blocks, `packed, `raw, `dropped, `gone
      ensures Listed() && Tallied() && packed <= Room()
      ensures old(gone) <= gone && dropped - old(dropped) == gone - old(gone)
      ensures exists k :: 0 <= k <= |old(blocks)| && blocks == old(blocks)[k..]
                          && (k > 0 ==> SumPacked(old(blocks)[k - 1..]) + OpenCap() > limit)
      ensures NewestFits(old(blocks), Room()) ==> blocks != []
    {
      ghost var k := 0;
      while packed > Room() && blocks != []
        invariant Listed() && Tallied()
        invariant old(gone) <= gone && dropped - old(dropped) == gone - old(gone)
        invariant k <= |old(blocks)| && blocks == old(blocks)[k..]
        invariant k > 0 ==> SumPacked(old(blocks)[k - 1..]) > Room()
        decreases |blocks|
      {
        DropBlock();
        k := k + 1;
      }
      if old(blocks) != [] {
        SumOfSuffix(old(blocks));
      }
    }

    /** A block or an open row is a line that has not left the ring. */
    lemma HoldsSomething()
      requires Listed() && (blocks != [] || open != [])
      ensures gone < last
    {
      if blocks != [] {
        assert blocks[0] in blocks && Unpack(blocks[0]) != [];
      }
      assert |Contents()| > 0;
    }

    method DropBlock()
      requires Listed() && Tallied() && blocks != []
      modifies `blocks, `packed, `raw, `dropped, `gone
      ensures Listed() && Tallied() && blocks == old(blocks)[1..]
      ensures gone == old(gone) + old(blocks)[0].count && dropped == old(dropped) + old(blocks)[0].count
    {
      hide Numbered, Flat, SumPacked, SumRaw, SumWeight;
      var b := blocks[0];
      FrontBlock(blocks);
      ghost var rest := Flat(blocks[1..]) + open;
      assert b in blocks && history[gone..] == Unpack(b) + rest;
      assert history[gone..][b.count..] == history[gone + b.count..];
      blocks, packed, raw, dropped := blocks[1..], packed - b.gz.size, raw - b.raw, dropped + b.count;
      gone := gone + b.count;
    }

    /** Forget every line; the holds and the numbering stay. */
    method Clear()
      requires Valid()
      modifies `open, `openBytes, `blocks, `packed, `raw, `dropped, `gone
      ensures Valid() && blocks == [] && open == [] && gone == last && dropped == 0
    {
      hide Numbered, Tallied;
      dropped := 0;
      Empty();
    }

    // ---------------------------------------------------------------- writing

    /** One line, if anybody is holding the ring. What is held afterwards is inside the
        limit, counting the open block. */
    method Record(at: real, level: nat, source: string, topic: string, message: string, fields: string)
      requires Valid()
      modifies this
      ensures Valid() && enabled == old(enabled) && limit == old(limit) && holders == old(holders)
      ensures !old(enabled) ==> history == old(history) && gone == old(gone)
      ensures old(enabled) ==>
                && history == old(history) + [Entry(old(last) + 1, at, level, source, Clip(topic, MAX_TOPIC),
                                                    Clip(message, MAX_MESSAGE), fields)]
                && packed + openBytes < limit
      ensures old(gone) <= gone && dropped - old(dropped) == gone - old(gone)
      ensures old(Chronological(history)) && NotBefore(old(history), at) ==> Chronological(history)
      ensures old(Unemptied() || enabled) && codec.deflated(old(open) + history[|old(history)|..]) <= Room() ==>
              Unemptied()
    {
      hide Listed, Tallied, Chronological, NotBefore;
      if !enabled {
        return;
      }
      ghost var entry := Entry(last + 1, at, level, source, Clip(topic, MAX_TOPIC), Clip(message, MAX_MESSAGE), fields);
      if Chronological(history) && NotBefore(history, at) {
        RecordKeepsChronology(history, entry, 0);
      }
      Append(Entry(last + 1, at, level, source, Clip(topic, MAX_TOPIC), Clip(message, MAX_MESSAGE), fields));
      assert history[|old(history)|..] == [entry];
      HoldsSomething();
      if |open| >= BLOCK_RECORDS || openBytes >= OpenCap() {
        PackOpen();
      }
    }

    method Append(entry: Entry)
      requires Listed() && Tallied() && entry.number == last + 1
      modifies `last, `open, `openBytes, `history
      ensures Listed() && Tallied() && open == old(open) + [entry] && history == old(history) + [entry]
      ensures last == old(last) + 1
    {
      hide Pack, Flat;
      WeightAppend(codec, open, entry);
      ghost var held := Contents();
      assert held + [entry] == Flat(blocks) + (open + [entry]);
      last, open, openBytes := last + 1, open + [entry], openBytes + codec.weight(entry);
      history := history + [entry];
      assert history[gone..] == held + [entry];
    }

    /** The open rows become one block, and older blocks go where it needs their room. */
    method PackOpen()
      requires Listed() && Tallied() && open != []
      modifies `blocks, `packed, `raw, `open, `openBytes, `dropped, `gone
      ensures Listed() && Tallied() && open == [] && openBytes == 0 && packed <= Room()
      ensures old(gone) <= gone && dropped - old(dropped) == gone - old(gone)
      ensures codec.deflated(old(open)) <= Room() ==> gone < last
    {
      hide Listed, Tallied;
      Close();
      Evict();
      if blocks != [] {
        HoldsSomething();
      }
    }

    method Close()
      requires Listed() && Tallied() && open != []
      modifies `blocks, `packed, `raw, `open, `openBytes
      ensures Listed() && Tallied() && open == [] && openBytes == 0 && blocks == old(blocks) + [Pack(codec, old(open))]
    {
      var block := Pack(codec, open);
      SumsAppend(blocks, block);
      assert Flat(blocks) + open == (Flat(blocks) + open) + [];
      blocks := blocks + [block];
      packed := packed + block.gz.size;
      raw := raw + block.raw;
      open := [];
      openBytes := 0;
    }

    // ---------------------------------------------------------------- reading

    /** What the readers rely on: in number order, each block indexed by its ends. */
    lemma ReadersView()
      requires Valid()
      ensures InOrder(blocks, open) && Numbered(history)
      ensures Contents() == history[gone..last]
      ensures Contents() != [] ==> Contents()[|Contents()| - 1].number == last
    {
      SliceMembers(history, gone, last);
      assert history[gone..last] == history[gone..];
    }

    lemma ContentsInTime()
      requires Valid()
      ensures Chronological(history) ==> Chronological(Contents())
    {
    }

    lemma OldestHeld()
      requires Valid()
      ensures blocks == [] && open == [] ==> gone == last
      ensures blocks == [] && open != [] ==> gone < last && open[0].number == gone + 1
      ensures blocks != [] ==> gone < last && blocks[0].first == gone + 1
    {
      hide Tallied;
      var held := Contents();
      assert |held| == last - gone && (held != [] ==> held[0].number == gone + 1);
      if blocks == [] {
        assert held == open;
      } else {
        assert blocks[0] in blocks && held[0] == Unpack(blocks[0])[0];
      }
    }

    method Oldest() returns (number: nat)
      requires Valid()
      ensures number == if gone < last then gone + 1 else 0
    {
      OldestHeld();
      if blocks != [] {
        return blocks[0].first;
      }
      return if open != [] then open[0].number else 0;
    }

    /** Everything after a number, oldest first: what a reader there is owed. After a
        restart, the reader's number is taken for zero. */
    method Since(number: int, askedRun: nat, limit: int, filter: Filter) returns (page: Page, restarted: bool)
      requires Valid()
      ensures restarted <==> askedRun != 0 && askedRun != run
      ensures PageOk(history, gone, last, if restarted then 0 else Max(0, number), Bound(limit), filter, page)
      ensures Unemptied() && !restarted && number >= 1 ==> Accounts(Visit(gone, last, Bound(limit), page), number)
      ensures var after := if restarted then 0 else Max(0, number);
              forall e :: e in page.lines <==> e in Contents() && after < e.number <= page.cursor && AskedFor(filter, e)
      ensures |page.lines| <= MAX_QUERY && (1 <= limit <= MAX_QUERY ==> |page.lines| <= limit)
      ensures page.more ==>
                |page.lines| == if limit < 0 then 1 else if 1 <= limit <= MAX_QUERY then limit else MAX_QUERY
    {
      hide AskedFor, PageOk, CutShort, Owed, Select, Filter.Keep, Flat;
      restarted := askedRun != 0 && askedRun != run;
      var after: nat := if restarted then 0 else Max(0, number);
      var bound := Bound(limit);
      var oldest := Oldest();
      var lines, cursor, more := ScanRing(after, bound, filter);
      if more {
        CutIsFull(Owed(history, gone, last, after), filter, bound, lines);
        cursor := if lines != [] then lines[|lines| - 1].number else after;
      }
      page := Page(lines, cursor, more, if after > 0 && oldest > 0 then Max(0, oldest - after - 1) else 0);
      ScanGivesPage(history, gone, last, after, bound, filter, page);
      PageIsAskedFor(history, gone, last, after, bound, filter, page);
      assert history[gone..last] == Contents();
    }

    /** The blocks that can hold anything past `after`, then the open rows. */
    method ScanRing(after: nat, bound: nat, filter: Filter) returns (lines: seq<Entry>, cursor: nat, more: bool)
      requires Valid() && bound >= 1
      ensures |lines| <= bound
      ensures more ==> CutShort(Owed(history, gone, last, after), filter, bound, lines)
      ensures !more ==> lines == Select(Owed(history, gone, last, after), Kept(filter)) && cursor == Max(after, last)
    {
      hide Select, Flat, Owed, Pending, Filter.Keep, CutShort, Left;
      ghost var owed := Owed(history, gone, last, after);
      lines, cursor, more := [], Max(after, last), false;
      var pending := Pending(blocks, after);
      var openRows := Select(open, Past(after));
      ghost var seen: seq<Entry> := [];
      ReadersOwed(after);
      SelectNone([], Kept(filter));
      assert [] + Left(pending, openRows, after) == owed && pending[0..] == pending;
      var k := 0;
      while k < |pending| && !more
        invariant k <= |pending| && |lines| <= bound
        invariant !more ==> seen + Left(pending[k..], openRows, after) == owed
        invariant !more ==> lines == Select(seen, Kept(filter))
        invariant !more ==> cursor == if seen == [] then Max(after, last) else seen[|seen| - 1].number
        invariant more ==> CutShort(owed, filter, bound, lines)
      {
        var rows := Unpack(pending[k]);
        NextBlock(pending, k, openRows, after);
        lines, cursor, more := ScanOn(rows, after, bound, filter, lines, cursor, seen);
        seen := seen + Select(rows, Past(after));
        if more {
          CutEarlier(seen, Left(pending[k + 1..], openRows, after), owed, filter, bound, lines);
        }
        k := k + 1;
      }
      if !more {
        LeftRows(open, after);
        assert pending[k..] == [];
        lines, cursor, more := ScanOn(openRows, after, bound, filter, lines, cursor, seen);
      }
      OwedLast(after);
    }

    /** Older than the page boundary, when one is given. */
    predicate Before(e: Entry, beforeSeq: int) {
      beforeSeq <= 0 || e.number < beforeSeq
    }

    /** The newest matches, as `BlockScan` defines them: a block outside
        the question is never inflated, and nothing is once the page is full. */
    method Query(beforeSeq: int, limit: int, filter: Filter) returns (answer: Answer)
      requires Valid()
      ensures answer == BlockScan(blocks, open, filter, Max(0, beforeSeq), Bound(limit))
      ensures Chronological(history) ==>
                answer == PlainScan(Contents(), filter, Max(0, beforeSeq), Bound(limit))
      ensures forall e :: e in answer.lines ==> e in Contents() && Before(e, beforeSeq) && AskedFor(filter, e)
      ensures Chronological(history) && !answer.more ==>
                forall e :: e in Contents() && Before(e, beforeSeq) && AskedFor(filter, e) ==> e in answer.lines
      ensures |answer.lines| <= MAX_QUERY && (1 <= limit <= MAX_QUERY ==> |answer.lines| <= limit)
      ensures answer.more ==>
                |answer.lines| == if limit < 0 then 1 else if 1 <= limit <= MAX_QUERY then limit else MAX_QUERY
    {
      hide Valid, AskedFor;
      AnswerIsAskedFor(blocks, open, filter, Max(0, beforeSeq), Bound(limit));
      var below: nat, bound := Max(0, beforeSeq), Bound(limit);
      answer := QueryBlocks(below, bound, filter);
      ReadersView();
      if Chronological(history) {
        ContentsInTime();
        ChronologicalIsSound(blocks, open);
        QueryIsPlainScan(blocks, open);
      }
    }

    method QueryBlocks(below: nat, bound: nat, filter: Filter) returns (answer: Answer)
      requires bound >= 1
      ensures answer == BlockScan(blocks, open, filter, below, bound)
    {
      hide Select, Filter.Keep, Filter.Wants, Reverse;
      ghost var all := Reverse(open) + Inflated(blocks, filter, below);
      SelectNone([], Wanted(filter, below));
      var lines, more := ScanBack(open, below, bound, filter, [], []);
      ghost var seen, left := Reverse(open), Inflated(blocks, filter, below);
      assert [] + Reverse(open) == seen && blocks[..|blocks|] == blocks;
      var k := |blocks|;
      while k > 0 && !more
        invariant 0 <= k <= |blocks| && |lines| <= bound
        invariant !more ==> lines == Select(seen, Wanted(filter, below))
        invariant !more ==> left == Inflated(blocks[..k], filter, below) && seen + left == all
        invariant more ==> Cut(Select(all, Wanted(filter, below)), bound) == Answer(lines, true)
      {
        k := k - 1;
        var b := blocks[k];
        assert blocks[..k + 1][..k] == blocks[..k] && blocks[..k + 1][k] == b;
        if below != 0 && b.first >= below {
          continue;
        }
        if filter.until != 0.0 && b.atFirst > filter.until {
          continue;
        }
        if filter.since != 0.0 && b.atLast < filter.since {
          break;
        }
        left := Inflated(blocks[..k], filter, below);
        assert (seen + Reverse(Unpack(b))) + left == all;
        lines, more := ScanBack(Unpack(b), below, bound, filter, lines, seen);
        seen := seen + Reverse(Unpack(b));
      }
      assert !more ==> left == [] && seen + left == seen;
      answer := Answer(lines, more);
    }

    /** One list of rows, last first. `more` means the page is full and another match
        follows, whatever comes after these rows. */
    method ScanBack(rows: seq<Entry>, below: nat, bound: nat, filter: Filter, lines: seq<Entry>, ghost seen: seq<Entry>)
      returns (lines': seq<Entry>, more: bool)
      requires |lines| <= bound && lines == Select(seen, Wanted(filter, below))
      ensures |lines'| <= bound
      ensures !more ==> lines' == Select(seen + Reverse(rows), Wanted(filter, below))
      ensures more ==> forall rest :: Cut(Select(seen + Reverse(rows) + rest, Wanted(filter, below)), bound)
                                   == Answer(lines', true)
    {
      hide Select, Reverse, Filter.Keep;
      lines', more := lines, false;
      var i := |rows|;
      BackStart(rows, seen);
      while i > 0
        invariant 0 <= i <= |rows| && |lines'| <= bound
        invariant lines' == Select(seen + Reverse(rows[i..]), Wanted(filter, below))
      {
        i := i - 1;
        var entry := rows[i];
        ghost var done := seen + Reverse(rows[i + 1..]);
        BackStep(rows, i, seen, Wanted(filter, below));
        if below != 0 && entry.number >= below {
          continue;
        }
        if !filter.Keep(entry) {
          continue;
        }
        if |lines'| >= bound {
          forall rest
            ensures Cut(Select(seen + Reverse(rows) + rest, Wanted(filter, below)), bound) == Answer(lines', true)
          {
            BackMore(rows, i, seen, rest, Wanted(filter, below));
          }
          return lines', true;
        }
        lines' := lines' + [entry];
      }
      assert rows[0..] == rows;
    }

    /** The blocks that can matter and the open rows past `after` hold what is owed. */
    lemma ReadersOwed(after: nat)
      requires Valid()
      ensures Left(Pending(blocks, after), Select(open, Past(after)), after) == Owed(history, gone, last, after)
    {
      ReadersView();
      PendingKeepsPast(blocks, open, after);
      SelectConcat(Flat(blocks), open, Past(after));
      OwedIsPast(history, gone, last, after);
    }

    lemma OwedLast(after: nat)
      requires Valid()
      ensures var owed := Owed(history, gone, last, after);
              (if owed == [] then Max(after, last) else owed[|owed| - 1].number) == Max(after, last)
    {
      ReadersView();
    }

    /** One list of rows, in order: every line past `after` is looked at until one more turns
        up than the page holds. */
    method ScanOn(rows: seq<Entry>, after: nat, bound: nat, filter: Filter, lines: seq<Entry>, cursor: nat,
                  ghost seen: seq<Entry>)
      returns (lines': seq<Entry>, cursor': nat, more: bool)
      requires bound >= 1 && |lines| <= bound && lines == Select(seen, Kept(filter))
      ensures |lines'| <= bound
      ensures var past := Select(rows, Past(after));
              && (!more ==> lines' == Select(seen + past, Kept(filter)))
              && (!more ==> cursor' == if past == [] then cursor else past[|past| - 1].number)
              && (more ==> CutShort(seen + past, filter, bound, lines'))
    {
      hide Select, Filter.Keep;
      lines', cursor', more := lines, cursor, false;
      SelectNone([], Past(after));
      assert rows[..0] == [] && seen + [] == seen;
      ghost var past := Select(rows, Past(after));
      for i := 0 to |rows|
        invariant |lines'| <= bound
        invariant lines' == Select(seen + Select(rows[..i], Past(after)), Kept(filter))
        invariant var done := Select(rows[..i], Past(after));
                  cursor' == if done == [] then cursor else done[|done| - 1].number
      {
        ghost var done := Select(rows[..i], Past(after));
        ScanStep(rows, i, after);
        assert done + [] == done;
        if rows[i].number <= after {
          continue;
        }
        if |lines'| >= bound {
          assert (seen + past)[..|seen + done|] == seen + done;
          return lines', cursor', true;
        }
        cursor' := rows[i].number;
        SelectConcat(seen + done, [rows[i]], Kept(filter));
        SelectSingle(rows[i], Kept(filter));
        assert seen + (done + [rows[i]]) == (seen + done) + [rows[i]];
        if filter.Keep(rows[i]) {
          lines' := lines' + [rows[i]];
        }
      }
      assert rows[..|rows|] == rows;
    }
  }

  lemma FrontBlock(blocks: seq<Block>)
    requires blocks != []
    ensures Flat(blocks) == Unpack(blocks[0]) + Flat(blocks[1..])
    ensures SumPacked(blocks) == blocks[0].gz.size + SumPacked(blocks[1..])
    ensures SumRaw(blocks) == blocks[0].raw + SumRaw(blocks[1..])
  {
  }

  /** A page was cut: it is full of the first matches, and another line follows. */
  ghost predicate CutShort(owed: seq<Entry>, filter: Filter, bound: nat, lines: seq<Entry>) {
    |lines| == bound && exists j :: 0 <= j < |owed| && lines == Select(owed[..j], Kept(filter))
  }

  /** What is still to come of the lines past `after`. */
  function Left(pending: seq<Block>, openRows: seq<Entry>, after: nat): seq<Entry> {
    Select(Flat(pending), Past(after)) + openRows
  }

  lemma NextBlock(pending: seq<Block>, k: nat, openRows: seq<Entry>, after: nat)
    requires k < |pending|
    ensures Left(pending[k..], openRows, after)
         == Select(Unpack(pending[k]), Past(after)) + Left(pending[k + 1..], openRows, after)
  {
    assert pending[k..][1..] == pending[k + 1..];
    SelectConcat(Unpack(pending[k]), Flat(pending[k + 1..]), Past(after));
  }

  lemma CutEarlier(seen: seq<Entry>, rest: seq<Entry>, owed: seq<Entry>, filter: Filter, bound: nat, lines: seq<Entry>)
    requires CutShort(seen, filter, bound, lines) && owed == seen + rest
    ensures CutShort(owed, filter, bound, lines)
  {
    var j :| 0 <= j < |seen| && lines == Select(seen[..j], Kept(filter));
    assert owed[..j] == seen[..j];
  }

  lemma OwedMembers(history: seq<Entry>, gone: nat, newest: nat, after: nat)
    requires Numbered(history) && gone <= newest <= |history|
    ensures var owed := Owed(history, gone, newest, after);
            Increasing(owed) && forall e :: e in owed ==> after < e.number <= newest
  {
  }

  /** A page that was cut is the right page. */
  lemma CutPage(history: seq<Entry>, gone: nat, newest: nat, after: nat, bound: nat, filter: Filter, lines: seq<Entry>)
    requires Numbered(history) && gone <= newest <= |history| && bound >= 1
    requires CutShort(Owed(history, gone, newest, after), filter, bound, lines)
    ensures var cursor := lines[bound - 1].number;
            && after <= cursor < newest
            && lines == Select(history[gone..newest], Fresh(after, cursor, filter))
  {
    hide Select, Filter.Keep, Owed, Numbered;
    var owed, cursor := Owed(history, gone, newest, after), lines[bound - 1].number;
    var j :| 0 <= j < |owed| && lines == Select(owed[..j], Kept(filter));
    OwedMembers(history, gone, newest, after);
    LastIsGreatest(owed, j, filter, lines);
    OwedPage(history, gone, newest, after, j, filter, cursor);
  }

  lemma LastIsGreatest(owed: seq<Entry>, j: nat, filter: Filter, lines: seq<Entry>)
    requires Increasing(owed) && j < |owed| && lines == Select(owed[..j], Kept(filter)) && lines != []
    ensures forall e :: e in lines ==> e in owed && e.number <= lines[|lines| - 1].number < owed[j].number
  {
    hide Select, Filter.Keep;
    SelectMembers(owed[..j], Kept(filter));
    SelectIncreasing(owed[..j], Kept(filter));
    assert lines[|lines| - 1] in lines;
    forall e | e in lines ensures e in owed && e.number < owed[j].number {
      var i :| 0 <= i < j && owed[i] == e;
    }
  }

  lemma OwedWhole(history: seq<Entry>, gone: nat, newest: nat, after: nat, filter: Filter, lines: seq<Entry>)
    requires Numbered(history) && gone <= newest <= |history|
    requires lines == Select(Owed(history, gone, newest, after), Kept(filter))
    ensures lines == Select(history[gone..newest], Fresh(after, Max(after, newest), filter))
  {
    var owed := Owed(history, gone, newest, after);
    assert owed[..|owed|] == owed;
    SelectMembers(owed, Kept(filter));
    OwedPage(history, gone, newest, after, |owed|, filter, Max(after, newest));
  }

  lemma LeftRows(open: seq<Entry>, after: nat)
    ensures Left([], Select(open, Past(after)), after) == Select(open, Past(after))
    ensures Select(Select(open, Past(after)), Past(after)) == Select(open, Past(after))
  {
    SelectMembers(open, Past(after));
    SelectAll(Select(open, Past(after)), Past(after));
  }

  lemma CutIsFull(owed: seq<Entry>, filter: Filter, bound: nat, lines: seq<Entry>)
    requires CutShort(owed, filter, bound, lines)
    ensures |lines| == bound
  {
  }

  lemma ScanGivesPage(history: seq<Entry>, gone: nat, newest: nat, after: nat, bound: nat, filter: Filter, page: Page)
    requires Numbered(history) && gone <= newest <= |history| && bound >= 1
    requires |page.lines| <= bound
    requires page.more ==> CutShort(Owed(history, gone, newest, after), filter, bound, page.lines)
                           && page.cursor == page.lines[bound - 1].number
    requires !page.more ==> page.lines == Select(Owed(history, gone, newest, after), Kept(filter))
                            && page.cursor == Max(after, newest)
    requires page.lost == if after > 0 && gone < newest then Max(0, gone - after) else 0
    ensures PageOk(history, gone, newest, after, bound, filter, page)
  {
    if page.more {
      CutPage(history, gone, newest, after, bound, filter, page.lines);
    } else {
      OwedWhole(history, gone, newest, after, filter, page.lines);
    }
  }

  lemma BackStart(rows: seq<Entry>, seen: seq<Entry>)
    ensures seen + Reverse(rows[|rows|..]) == seen
  {
  }

  lemma BackStep(rows: seq<Entry>, i: nat, seen: seq<Entry>, pass: Entry -> bool)
    requires i < |rows|
    ensures Select(seen + Reverse(rows[i..]), pass)
         == Select(seen + Reverse(rows[i + 1..]), pass) + (if pass(rows[i]) then [rows[i]] else [])
  {
    var done := seen + Reverse(rows[i + 1..]);
    assert rows[i..][1..] == rows[i + 1..];
    assert seen + Reverse(rows[i..]) == done + [rows[i]];
    SelectConcat(done, [rows[i]], pass);
    SelectSingle(rows[i], pass);
  }

  /** A full page and one more match settle the answer whatever else is looked at. */
  lemma BackMore(rows: seq<Entry>, i: nat, seen: seq<Entry>, rest: seq<Entry>, pass: Entry -> bool)
    requires i < |rows| && pass(rows[i])
    ensures Select(seen + Reverse(rows[i + 1..]), pass) + [rows[i]] <= Select(seen + Reverse(rows) + rest, pass)
  {
    hide Reverse;
    BackStep(rows, i, seen, pass);
    assert rows == rows[..i] + rows[i..];
    ReverseConcat(rows[..i], rows[i..]);
    var done, tail := seen + Reverse(rows[i..]), Reverse(rows[..i]) + rest;
    assert seen + Reverse(rows) + rest == done + tail;
    SelectConcat(done, tail, pass);
  }

  lemma ScanStep(rows: seq<Entry>, i: nat, after: nat)
    requires i < |rows|
    ensures var done := Select(rows[..i], Past(after));
            && Select(rows[..i + 1], Past(after)) == done + (if rows[i].number > after then [rows[i]] else [])
            && (rows[i].number > after ==> done + [rows[i]] <= Select(rows, Past(after)))
  {
    hide Select;
    OneMoreRow(rows, i, Past(after));
    SelectSplit(rows, i + 1, Past(after));
  }

  lemma OneMoreRow(rows: seq<Entry>, i: nat, pass: Entry -> bool)
    requires i < |rows|
    ensures Select(rows[..i + 1], pass) == Select(rows[..i], pass) + if pass(rows[i]) then [rows[i]] else []
  {
    hide Select;
    assert rows[..i + 1] == rows[..i] + [rows[i]];
    SelectConcat(rows[..i], [rows[i]], pass);
    SelectSingle(rows[i], pass);
  }

  lemma SelectSplit(rows: seq<Entry>, i: nat, pass: Entry -> bool)
    requires i <= |rows|
    ensures Select(rows[..i], pass) <= Select(rows, pass)
  {
    hide *;
    CutSlice(rows, 0, i, |rows|);
    assert rows[0..i] == rows[..i] && rows[i..|rows|] == rows[i..] && rows[0..|rows|] == rows;
    SelectConcat(rows[..i], rows[i..], pass);
    FrontIsPrefix(Select(rows[..i], pass), Select(rows[i..], pass));
  }
}
