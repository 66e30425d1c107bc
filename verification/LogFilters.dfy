/** What a filter asks for, field by field, in terms of the line alone. (src/logbook.py:568-604) */
module LogFilters {
  import opened LogQuery
  import opened LogRing

  // ------------------------------------------------------------------ texts

  /** The same but for the case of a plain letter. */
  predicate SameLetter(a: char, b: char) {
    a == b || ('A' <= a <= 'Z' && b as int == a as int + 32) || ('A' <= b <= 'Z' && a as int == b as int + 32)
  }

  predicate SameText(a: string, b: string) {
    |a| == |b| && forall i :: 0 <= i < |a| ==> SameLetter(a[i], b[i])
  }

  predicate StandsAt(needle: string, hay: string, i: nat) {
    i + |needle| <= |hay| && hay[i..i + |needle|] == needle
  }

  predicate SameAt(needle: string, hay: string, i: nat) {
    i + |needle| <= |hay| && SameText(needle, hay[i..i + |needle|])
  }

  /** Somewhere in the text stands the needle, in whatever case. */
  ghost predicate FoundIn(needle: string, hay: string) {
    exists i: nat :: SameAt(needle, hay, i)
  }

  lemma LowerExactly(a: string, b: string)
    ensures Lower(a) == Lower(b) <==> SameText(a, b)
  {
    if SameText(a, b) {
      assert forall i :: 0 <= i < |a| ==> Lower(a)[i] == Lower(b)[i];
    }
    if Lower(a) == Lower(b) {
      assert |Lower(a)| == |a| == |b|;
      forall i | 0 <= i < |a| ensures SameLetter(a[i], b[i]) {
        assert Lower(a)[i] == Lower(b)[i];
      }
    }
  }

  lemma {:induction false} ContainsExactly(needle: string, hay: string)
    ensures Contains(needle, hay) <==> exists i: nat :: StandsAt(needle, hay, i)
  {
    hide StandsAt;
    InFront(needle, hay);
    if hay == "" {
      NothingInside(needle);
    } else {
      ContainsExactly(needle, hay[1..]);
      if i: nat :| StandsAt(needle, hay, i) {
        if i > 0 {
          OneFurther(needle, hay, i - 1);
        }
      }
      if i: nat :| StandsAt(needle, hay[1..], i) {
        OneFurther(needle, hay, i);
      }
    }
  }

  lemma InFront(needle: string, hay: string)
    ensures StandsAt(needle, hay, 0) <==> needle <= hay
  {
  }

  lemma NothingInside(needle: string)
    ensures forall i: nat :: StandsAt(needle, "", i) ==> i == 0
  {
  }

  lemma OneFurther(needle: string, hay: string, i: nat)
    requires hay != ""
    ensures StandsAt(needle, hay, i + 1) <==> StandsAt(needle, hay[1..], i)
  {
    if i + 1 + |needle| <= |hay| {
      assert hay[1..][i..i + |needle|] == hay[i + 1..i + 1 + |needle|];
    }
  }

  lemma LowerAt(needle: string, hay: string, i: nat)
    ensures StandsAt(Lower(needle), Lower(hay), i) <==> SameAt(needle, hay, i)
  {
    if i + |needle| <= |hay| {
      assert Lower(hay)[i..i + |needle|] == Lower(hay[i..i + |needle|]);
      LowerExactly(needle, hay[i..i + |needle|]);
    }
  }

  /** A search ignores case, and finds exactly what stands in the text. */
  lemma FoundExactly(needle: string, hay: string)
    ensures Contains(Lower(needle), Lower(hay)) <==> FoundIn(needle, hay)
  {
    hide StandsAt, SameAt, Lower, Contains;
    ContainsExactly(Lower(needle), Lower(hay));
    forall i: nat ensures StandsAt(Lower(needle), Lower(hay), i) <==> SameAt(needle, hay, i) {
      LowerAt(needle, hay, i);
    }
  }

  // ------------------------------------------------------------------ lines

  /** A line as severe as the floor or more, from a source and at a time that were asked for,
      on the topic, with the text in its message or its fields. */
  ghost predicate AskedFor(f: Filter, e: Entry) {
    && f.floor <= e.level
    && (f.source != "" ==> FoundIn(f.source, e.source))
    && (f.topic != "" ==> SameText(f.topic, e.topic))
    && (f.since != 0.0 ==> f.since <= e.at)
    && (f.until != 0.0 ==> e.at <= f.until)
    && (f.needle != "" ==> FoundIn(f.needle, e.message) || FoundIn(f.needle, e.fields))
  }

  lemma KeepsExactly(f: Filter, e: Entry)
    ensures f.Keep(e) <==> AskedFor(f, e)
  {
    hide Contains, Lower, FoundIn, SameText;
    FoundExactly(f.source, e.source);
    LowerExactly(f.topic, e.topic);
    FoundExactly(f.needle, e.message);
    FoundExactly(f.needle, e.fields);
  }

  lemma {:induction false} SelectTwice(rows: seq<Entry>, p: Entry -> bool, q: Entry -> bool, both: Entry -> bool)
    requires forall e :: both(e) <==> p(e) && q(e)
    ensures Select(rows, both) == Select(Select(rows, p), q)
  {
    if rows != [] {
      SelectTwice(rows[1..], p, q, both);
      SelectSingle(rows[0], q);
      SelectConcat(if p(rows[0]) then [rows[0]] else [], Select(rows[1..], p), q);
    }
  }

  /** Each field of a filter sifts what the others leave, and asks for one thing only. */
  lemma FieldsSiftApart(rows: seq<Entry>, f: Filter)
    ensures Select(rows, Kept(f)) == Select(Select(rows, Kept(f.(floor := 0))), (e: Entry) => e.level >= f.floor)
    ensures f.source != "" ==>
              Select(rows, Kept(f)) == Select(Select(rows, Kept(f.(source := ""))),
                                                (e: Entry) => FoundIn(f.source, e.source))
    ensures f.topic != "" ==>
              Select(rows, Kept(f)) == Select(Select(rows, Kept(f.(topic := ""))),
                                                (e: Entry) => SameText(f.topic, e.topic))
    ensures f.since != 0.0 ==>
              Select(rows, Kept(f)) == Select(Select(rows, Kept(f.(since := 0.0))), (e: Entry) => e.at >= f.since)
    ensures f.until != 0.0 ==>
              Select(rows, Kept(f)) == Select(Select(rows, Kept(f.(until := 0.0))), (e: Entry) => e.at <= f.until)
    ensures f.needle != "" ==>
              Select(rows, Kept(f)) == Select(Select(rows, Kept(f.(needle := ""))),
                                              (e: Entry) => FoundIn(f.needle, e.message) || FoundIn(f.needle, e.fields))
  {
    hide Filter.Keep, FoundIn, SameText, Select;
    forall g, e ensures Kept(g)(e) <==> AskedFor(g, e) {
      KeepsExactly(g, e);
    }
    SelectTwice(rows, Kept(f.(floor := 0)), (e: Entry) => e.level >= f.floor, Kept(f));
    if f.source != "" {
      SelectTwice(rows, Kept(f.(source := "")), (e: Entry) => FoundIn(f.source, e.source), Kept(f));
    }
    if f.topic != "" {
      SelectTwice(rows, Kept(f.(topic := "")), (e: Entry) => SameText(f.topic, e.topic), Kept(f));
    }
    if f.since != 0.0 {
      SelectTwice(rows, Kept(f.(since := 0.0)), (e: Entry) => e.at >= f.since, Kept(f));
    }
    if f.until != 0.0 {
      SelectTwice(rows, Kept(f.(until := 0.0)), (e: Entry) => e.at <= f.until, Kept(f));
    }
    if f.needle != "" {
      SelectTwice(rows, Kept(f.(needle := "")),
                  (e: Entry) => FoundIn(f.needle, e.message) || FoundIn(f.needle, e.fields),
                  Kept(f));
    }
  }

  /** How the texts of a filter are cased never changes an answer. */
  lemma CaseNeverMatters(rows: seq<Entry>, f: Filter, g: Filter)
    requires f.floor == g.floor && f.since == g.since && f.until == g.until
    requires SameText(f.source, g.source) && SameText(f.topic, g.topic) && SameText(f.needle, g.needle)
    ensures Select(rows, Kept(f)) == Select(rows, Kept(g))
  {
    hide Contains, Select;
    LowerExactly(f.source, g.source);
    LowerExactly(f.topic, g.topic);
    LowerExactly(f.needle, g.needle);
    hide Lower;
    SelectAgrees(rows, Kept(f), Kept(g));
  }

  // ------------------------------------------------------------------ the two readers

  /** A page of `since` holds exactly the lines of the ring up to the new cursor that were asked
      for. */
  lemma PageIsAskedFor(history: seq<Entry>, gone: nat, newest: nat, after: nat, bound: nat, f: Filter, page: Page)
    requires gone <= newest <= |history| && PageOk(history, gone, newest, after, bound, f, page)
    ensures forall e :: e in page.lines <==>
                          e in history[gone..newest] && after < e.number <= page.cursor && AskedFor(f, e)
  {
    hide AskedFor, Filter.Keep;
    SelectMembers(history[gone..newest], Fresh(after, page.cursor, f));
    forall e ensures f.Keep(e) <==> AskedFor(f, e) {
      KeepsExactly(f, e);
    }
  }

  /** What a query answers was held and asked for, and a plain scan that is not cut short
      answers all of it. */
  lemma AnswerIsAskedFor(blocks: seq<Block>, open: seq<Entry>, f: Filter, below: nat, bound: nat)
    ensures forall e :: e in BlockScan(blocks, open, f, below, bound).lines ==>
                          e in Flat(blocks) + open && (below == 0 || e.number < below) && AskedFor(f, e)
    ensures var plain := PlainScan(Flat(blocks) + open, f, below, bound);
            !plain.more ==>
              forall e :: e in Flat(blocks) + open && (below == 0 || e.number < below) && AskedFor(f, e) ==>
                            e in plain.lines
  {
    hide AskedFor, Filter.Keep, Filter.Wants, Inflated, Flat, Reverse, Select, Wanted;
    var scanned, held := Reverse(open) + Inflated(blocks, f, below), Flat(blocks) + open;
    InflatedMembers(blocks, f, below);
    ReverseMembers(open);
    SelectAskedFor(scanned, f, below);
    ReverseMembers(held);
    SelectAskedFor(Reverse(held), f, below);
    forall e | e in BlockScan(blocks, open, f, below, bound).lines
      ensures e in held && (below == 0 || e.number < below) && AskedFor(f, e)
    {
      assert e in Select(scanned, Wanted(f, below));
    }
  }

  lemma SelectAskedFor(rows: seq<Entry>, f: Filter, below: nat)
    ensures forall e :: e in Select(rows, Wanted(f, below)) <==>
                          e in rows && (below == 0 || e.number < below) && AskedFor(f, e)
  {
    hide AskedFor, Filter.Keep, Select;
    SelectMembers(rows, Wanted(f, below));
    forall e ensures f.Keep(e) <==> AskedFor(f, e) {
      KeepsExactly(f, e);
    }
  }
}
