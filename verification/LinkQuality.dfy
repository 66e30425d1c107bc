/** What a link feels like: each probe resolved on its own, answered or lost, and the recent
    window kept by running counters. (src/metrics.py:66-245) */
module LinkQuality {
  import opened Wrappers
  import opened Eviction
  import opened Lookup

  const HISTORY := 32
  const WINDOW := 50
  const MAX_PENDING := 64

  type Token = nat

  /** A probe in flight: the token the peer echoes, and when it went out. */
  datatype Probe = Probe(token: Token, at: real)

  /** What became of one probe: its round trip, or nothing for one that is lost. */
  datatype Resolution = Resolution(probe: Probe, outcome: Option<real>)

  // ------------------------------------------------------------------ the book of probes

  /** Probes in flight in table order, and every probe resolved so far, oldest first. */
  datatype Book = Book(pending: seq<Probe>, resolved: seq<Resolution>)

  function Find(pending: seq<Probe>, token: Token): (i: nat)
    ensures i <= |pending| && (i < |pending| ==> pending[i].token == token)
    ensures forall k :: 0 <= k < i ==> pending[k].token != token
  {
    FindBy(pending, (p: Probe) => p.token, token)
  }

  predicate Fresh(pending: seq<Probe>, token: Token) {
    Find(pending, token) == |pending|
  }

  /** Setting an ordered dictionary's entry: a key already there keeps its place. */
  function Put(pending: seq<Probe>, p: Probe): seq<Probe> {
    var i := Find(pending, p.token);
    if i < |pending| then pending[i := p] else pending + [p]
  }

  function Lost(probes: seq<Probe>): (r: seq<Resolution>)
    ensures |r| == |probes|
  {
    if probes == [] then [] else Lost(probes[..|probes| - 1]) + [Resolution(probes[|probes| - 1], None)]
  }

  /** The first `k` probes in flight are given up on. */
  function GiveUp(b: Book, k: nat): Book
    requires k <= |b.pending|
  {
    Book(b.pending[k..], b.resolved + Lost(b.pending[..k]))
  }

  function Sending(b: Book, p: Probe): Book {
    var pending := Put(b.pending, p);
    GiveUp(Book(pending, b.resolved), if |pending| > MAX_PENDING then |pending| - MAX_PENDING else 0)
  }

  function RoundTrip(sentAt: real, at: real): (rtt: real)
    ensures rtt >= 0.0
  {
    if at - sentAt > 0.0 then at - sentAt else 0.0
  }

  function Answering(b: Book, token: Option<Token>, at: real): Book {
    if token.None? || Fresh(b.pending, token.value) then b
    else
      var i := Find(b.pending, token.value);
      var p := b.pending[i];
      Book(RemoveAt(b.pending, i), b.resolved + [Resolution(p, Some(RoundTrip(p.at, at)))])
  }

  /** A probe answered after some time took that time; one answered by a clock set back took
      none. Whatever else is in flight stays. */
  lemma AnsweredAfter(b: Book, i: nat, late: real)
    requires i < |b.pending| && forall k :: 0 <= k < i ==> b.pending[k].token != b.pending[i].token
    ensures var p := b.pending[i];
            Answering(b, Some(p.token), p.at + late)
            == Book(b.pending[..i] + b.pending[i + 1..],
                    b.resolved + [Resolution(p, Some(if late >= 0.0 then late else 0.0))])
  {
    assert Find(b.pending, b.pending[i].token) == i;
  }

  predicate Overdue(p: Probe, now: real, after: real) {
    now - p.at > after
  }

  /** How many probes the sweep charges: it stops at the first one still young. */
  function OverdueRun(pending: seq<Probe>, now: real, after: real): (k: nat)
    ensures k <= |pending| && (k < |pending| ==> !Overdue(pending[k], now, after))
    ensures forall i :: 0 <= i < k ==> Overdue(pending[i], now, after)
  {
    if pending == [] || !Overdue(pending[0], now, after) then 0 else 1 + OverdueRun(pending[1..], now, after)
  }

  function Expiring(b: Book, now: real, after: real): Book {
    GiveUp(b, OverdueRun(b.pending, now, after))
  }

  lemma LostSnoc(probes: seq<Probe>, k: nat)
    requires k < |probes|
    ensures Lost(probes[..k + 1]) == Lost(probes[..k]) + [Resolution(probes[k], None)]
  {
    assert probes[..k + 1][..k] == probes[..k];
  }

  // ------------------------------------------------------------------ the window

  function Outcomes(resolved: seq<Resolution>): (r: seq<Option<real>>)
    ensures |r| == |resolved| && forall i :: 0 <= i < |r| ==> r[i] == resolved[i].outcome
  {
    seq(|resolved|, i requires 0 <= i < |resolved| => resolved[i].outcome)
  }

  function Last<T>(s: seq<T>, n: nat): seq<T> {
    if |s| <= n then s else s[|s| - n..]
  }

  function CountLost(window: seq<Option<real>>): (n: nat)
    ensures n <= |window|
  {
    if window == [] then 0 else CountLost(window[..|window| - 1]) + if window[|window| - 1].None? then 1 else 0
  }

  lemma {:induction false} CountLostFront(window: seq<Option<real>>)
    requires window != []
    ensures CountLost(window) == (if window[0].None? then 1 else 0) + CountLost(window[1..])
  {
    if |window| > 1 {
      var front := window[..|window| - 1];
      CountLostFront(front);
      assert front[1..] == window[1..][..|window| - 2];
    }
  }

  /** One more outcome: the full window drops its front, and the recount moves by what left
      and what came. */
  lemma WindowSlides(resolved: seq<Resolution>, r: Resolution)
    ensures |Last(Outcomes(resolved), WINDOW)| <= WINDOW
    ensures var window := Last(Outcomes(resolved), WINDOW);
            var full := |window| == WINDOW;
            && Last(Outcomes(resolved + [r]), WINDOW) == (if full then window[1..] else window) + [r.outcome]
            && CountLost(Last(Outcomes(resolved + [r]), WINDOW))
               == CountLost(window) - (if full && window[0].None? then 1 else 0) + if r.outcome.None? then 1 else 0
  {
    var window := Last(Outcomes(resolved), WINDOW);
    var kept := if |window| == WINDOW then window[1..] else window;
    if |window| == WINDOW {
      CountLostFront(window);
    }
    assert Outcomes(resolved + [r]) == Outcomes(resolved) + [r.outcome];
    assert (kept + [r.outcome])[..|kept|] == kept;
    assert Last(Outcomes(resolved + [r]), WINDOW) == kept + [r.outcome];
  }

  function Ratio(part: nat, whole: nat): (r: real)
    requires part <= whole && whole > 0
    ensures r * whole as real == part as real && 0.0 <= r <= 1.0
  {
    part as real / whole as real
  }

  // ------------------------------------------------------------------ the link

  class Quality {
    var pings: nat
    var pongs: nat
    var last: Option<real>
    var sincePong: nat
    var answeredAt: real
    var samples: seq<real>
    var window: seq<Option<real>>
    var windowLost: int
    var pending: seq<Probe>
    /** Every probe ever resolved, and every round trip ever timed. */
    ghost var resolved: seq<Resolution>
    ghost var timed: seq<real>

    ghost predicate Valid()
      reads this
    {
      && window == Last(Outcomes(resolved), WINDOW) && windowLost == CountLost(window)
      && samples == Last(timed, HISTORY)
      && last == (if timed == [] then None else Some(timed[|timed| - 1]))
      && |pending| <= MAX_PENDING
    }

    ghost function Now(): Book
      reads this
    {
      Book(pending, resolved)
    }

    constructor (clock: real)
      ensures Valid() && Now() == Book([], []) && pings == pongs == sincePong == 0
    {
      pings, pongs, last, sincePong, answeredAt := 0, 0, None, 0, clock;
      samples, window, windowLost, pending := [], [], 0, [];
      resolved, timed := [], [];
    }

    method OnPing()
      modifies `pings, `sincePong
      ensures pings == old(pings) + 1 && sincePong == old(sincePong) + 1
    {
      pings := pings + 1;
      sincePong := sincePong + 1;
    }

    method OnPong(rtt: real, clock: real)
      requires Valid()
      modifies `pongs, `sincePong, `answeredAt, `last, `samples, `timed
      ensures Valid() && timed == old(timed) + [rtt]
      ensures pongs == old(pongs) + 1 && sincePong == 0 && answeredAt == clock
      ensures last == Some(rtt)
      ensures samples == if |old(samples)| < HISTORY then old(samples) + [rtt] else old(samples)[1..] + [rtt]
    {
      pongs := pongs + 1;
      sincePong := 0;
      answeredAt := clock;
      last := Some(rtt);
      samples := samples + [rtt];
      if |samples| > HISTORY {
        samples := samples[1..];
      }
      timed := timed + [rtt];
    }

    method OnAnswer(clock: real)
      modifies `pongs, `sincePong, `answeredAt
      ensures pongs == old(pongs) + 1 && sincePong == 0 && answeredAt == clock
    {
      pongs := pongs + 1;
      sincePong := 0;
      answeredAt := clock;
    }

    /** Slide the window by one outcome, correcting the counter by what left and what came. */
    method Record(outcome: Option<real>, ghost probe: Probe)
      requires window == Last(Outcomes(resolved), WINDOW) && windowLost == CountLost(window)
      modifies `window, `windowLost, `resolved
      ensures resolved == old(resolved) + [Resolution(probe, outcome)]
      ensures window == Last(Outcomes(resolved), WINDOW) && windowLost == CountLost(window)
    {
      hide Outcomes, Last, CountLost;
      WindowSlides(resolved, Resolution(probe, outcome));
      if |window| == WINDOW && window[0].None? {
        windowLost := windowLost - 1;
      }
      if |window| == WINDOW {
        window := window[1..];
      }
      window := window + [outcome];
      if outcome.None? {
        windowLost := windowLost + 1;
      }
      resolved := resolved + [Resolution(probe, outcome)];
    }

    /** One probe went out. */
    method Sent(token: Token, at: real)
      requires Valid()
      modifies this
      ensures Valid() && Now() == Sending(old(Now()), Probe(token, at))
      ensures pings == old(pings) + 1 && sincePong == old(sincePong) + 1
      ensures pongs == old(pongs) && timed == old(timed) && answeredAt == old(answeredAt)
    {
      hide Outcomes, Last, CountLost, Find;
      OnPing();
      pending := Put(pending, Probe(token, at));
      ghost var was, before := pending, resolved;
      ghost var k := 0;
      while |pending| > MAX_PENDING
        invariant 0 <= k <= |was| && pending == was[k..] && resolved == before + Lost(was[..k])
        invariant k > 0 ==> |pending| >= MAX_PENDING
        invariant window == Last(Outcomes(resolved), WINDOW) && windowLost == CountLost(window)
        modifies `pending, `window, `windowLost, `resolved
      {
        ghost var oldest := pending[0];
        LostSnoc(was, k);
        pending := pending[1..];
        Record(None, oldest);
        k := k + 1;
      }
    }

    /** A probe came back: its round trip, or nothing when it matched none in flight. */
    method Answered(token: Option<Token>, at: real, clock: real) returns (rtt: Option<real>)
      requires Valid()
      modifies this
      ensures Valid() && Now() == Answering(old(Now()), token, at)
      ensures rtt.Some? <==> token.Some? && !Fresh(old(pending), token.value)
      ensures rtt.Some? ==> rtt.value == RoundTrip(old(pending)[Find(old(pending), token.value)].at, at)
      ensures timed == old(timed) + if rtt.Some? then [rtt.value] else []
      ensures pongs == old(pongs) + 1 && sincePong == 0 && answeredAt == clock && pings == old(pings)
    {
      hide Outcomes, Last, CountLost, RoundTrip;
      if token.None? || Find(pending, token.value) == |pending| {
        OnAnswer(clock);
        return None;
      }
      var i := Find(pending, token.value);
      var probe := pending[i];
      pending := RemoveAt(pending, i);
      rtt := Some(RoundTrip(probe.at, at));
      OnPong(rtt.value, clock);
      Record(rtt, probe);
    }

    /** Charge the probes older than `after` as lost, stopping at the first young one. */
    method Expire(now: real, after: real) returns (lost: nat)
      requires Valid()
      modifies `pending, `window, `windowLost, `resolved
      ensures Valid() && Now() == Expiring(old(Now()), now, after)
      ensures lost == OverdueRun(old(pending), now, after)
    {
      hide Lost, Outcomes, Last, CountLost, OverdueRun;
      lost := 0;
      ghost var was, before := pending, resolved;
      while pending != [] && Overdue(pending[0], now, after)
        invariant lost <= |was| && pending == was[lost..] && resolved == before + Lost(was[..lost])
        invariant forall i :: 0 <= i < lost ==> Overdue(was[i], now, after)
        invariant window == Last(Outcomes(resolved), WINDOW) && windowLost == CountLost(window)
        decreases |pending|
      {
        ghost var oldest := pending[0];
        LostSnoc(was, lost);
        pending := pending[1..];
        Record(None, oldest);
        lost := lost + 1;
      }
    }

    /** How much of the window was lost, once there are `minimum` outcomes to go by. */
    method RecentLoss(minimum: int) returns (share: Option<real>)
      requires Valid()
      ensures share.Some? <==> |Last(Outcomes(resolved), WINDOW)| >= if minimum > 1 then minimum else 1
      ensures share.Some? ==>
        var recent := Last(Outcomes(resolved), WINDOW);
        recent != [] && share.value * |recent| as real == CountLost(recent) as real && 0.0 <= share.value <= 1.0
    {
      hide Outcomes, Last, CountLost, Ratio;
      if |window| < (if minimum > 1 then minimum else 1) {
        return None;
      }
      share := Some(Ratio(windowLost, |window|));
    }
  }

  // ------------------------------------------------------------------ accounting over runs

  datatype Op = Send(probe: Probe) | Answer(token: Option<Token>, at: real) | Expire(now: real, after: real)

  function Step(b: Book, op: Op): Book {
    match op
    case Send(p) => Sending(b, p)
    case Answer(token, at) => Answering(b, token, at)
    case Expire(now, after) => Expiring(b, now, after)
  }

  function Run(b: Book, ops: seq<Op>): Book
    decreases ops
  {
    if ops == [] then b else Run(Step(b, ops[0]), ops[1..])
  }

  function SentIn(ops: seq<Op>): multiset<Probe> {
    if ops == [] then multiset{} else (if ops[0].Send? then multiset{ops[0].probe} else multiset{}) + SentIn(ops[1..])
  }

  /** The probes whose entry a later probe under the same token took over. */
  function Overwritten(b: Book, op: Op): multiset<Probe> {
    if op.Send? && !Fresh(b.pending, op.probe.token) then multiset{b.pending[Find(b.pending, op.probe.token)]}
    else multiset{}
  }

  function OverwrittenIn(b: Book, ops: seq<Op>): multiset<Probe>
    decreases ops
  {
    if ops == [] then multiset{} else Overwritten(b, ops[0]) + OverwrittenIn(Step(b, ops[0]), ops[1..])
  }

  function Probes(resolved: seq<Resolution>): multiset<Probe> {
    if resolved == [] then multiset{}
    else Probes(resolved[..|resolved| - 1]) + multiset{resolved[|resolved| - 1].probe}
  }

  /** Every probe the book knows of, resolved or in flight. */
  function Accounted(b: Book): multiset<Probe> {
    Probes(b.resolved) + multiset(b.pending)
  }

  lemma ProbesSnoc(resolved: seq<Resolution>, r: Resolution)
    ensures Probes(resolved + [r]) == Probes(resolved) + multiset{r.probe}
  {
    assert (resolved + [r])[..|resolved|] == resolved;
  }

  lemma {:induction false} ProbesOfLost(resolved: seq<Resolution>, probes: seq<Probe>)
    ensures Probes(resolved + Lost(probes)) == Probes(resolved) + multiset(probes)
  {
    hide Probes;
    if probes == [] {
      assert resolved + Lost(probes) == resolved;
    } else {
      var front, p := probes[..|probes| - 1], probes[|probes| - 1];
      ProbesOfLost(resolved, front);
      ProbesSnoc(resolved + Lost(front), Resolution(p, None));
      assert resolved + Lost(probes) == resolved + Lost(front) + [Resolution(p, None)];
      assert probes == front + [p];
    }
  }

  lemma GiveUpLosesNone(b: Book, k: nat)
    requires k <= |b.pending|
    ensures Accounted(GiveUp(b, k)) == Accounted(b)
  {
    hide Probes, Lost;
    ProbesOfLost(b.resolved, b.pending[..k]);
    assert b.pending == b.pending[..k] + b.pending[k..];
  }

  lemma Around(pending: seq<Probe>, i: nat, p: Probe)
    requires i < |pending|
    ensures multiset(RemoveAt(pending, i)) + multiset{pending[i]} == multiset(pending)
    ensures multiset(pending[i := p]) + multiset{pending[i]} == multiset(pending) + multiset{p}
  {
    assert pending == pending[..i] + [pending[i]] + pending[i + 1..];
    assert pending[i := p] == pending[..i] + [p] + pending[i + 1..];
  }

  lemma SendAccounts(b: Book, p: Probe)
    ensures Accounted(Sending(b, p)) + Overwritten(b, Send(p)) == Accounted(b) + multiset{p}
  {
    hide Probes, Lost, GiveUp, Find;
    var pending := Put(b.pending, p);
    var i := Find(b.pending, p.token);
    if i < |b.pending| {
      Around(b.pending, i, p);
    }
    GiveUpLosesNone(Book(pending, b.resolved), if |pending| > MAX_PENDING then |pending| - MAX_PENDING else 0);
  }

  lemma AnswerAccounts(b: Book, token: Option<Token>, at: real)
    ensures Accounted(Answering(b, token, at)) == Accounted(b)
  {
    hide Probes, Lost, Find, RoundTrip, RemoveAt;
    if token.Some? && !Fresh(b.pending, token.value) {
      var i := Find(b.pending, token.value);
      Around(b.pending, i, b.pending[i]);
      ProbesSnoc(b.resolved, Resolution(b.pending[i], Some(RoundTrip(b.pending[i].at, at))));
    }
  }

  lemma StepAccounts(b: Book, op: Op)
    ensures Accounted(Step(b, op)) + Overwritten(b, op)
         == Accounted(b) + if op.Send? then multiset{op.probe} else multiset{}
  {
    hide Accounted, Sending, Answering, GiveUp, OverdueRun;
    match op
    case Send(p) => SendAccounts(b, p);
    case Answer(token, at) => AnswerAccounts(b, token, at);
    case Expire(now, after) => GiveUpLosesNone(b, OverdueRun(b.pending, now, after));
  }

  lemma Telescope(a: multiset<Probe>, s: multiset<Probe>, o: multiset<Probe>, b: multiset<Probe>,
                  s': multiset<Probe>, o': multiset<Probe>, c: multiset<Probe>)
    requires b + o == a + s && c + o' == b + s'
    ensures c + (o + o') == a + (s + s')
  {
    assert c + (o + o') == (c + o') + o == (b + s') + o == (b + o) + s' == (a + s) + s';
  }

  /** Conservation over every run: each probe ever sent is resolved once, in flight, or was
      overwritten by a later one under its own token; nothing else is ever resolved. */
  lemma {:induction false} EveryProbeAccounted(b: Book, ops: seq<Op>)
    ensures Accounted(Run(b, ops)) + OverwrittenIn(b, ops) == Accounted(b) + SentIn(ops)
    decreases ops
  {
    if ops != [] {
      hide Accounted, Overwritten, Step;
      var b' := Step(b, ops[0]);
      StepAccounts(b, ops[0]);
      EveryProbeAccounted(b', ops[1..]);
      var sent := if ops[0].Send? then multiset{ops[0].probe} else multiset{};
      Telescope(Accounted(b), sent, Overwritten(b, ops[0]), Accounted(b'),
                SentIn(ops[1..]), OverwrittenIn(b', ops[1..]), Accounted(Run(b, ops)));
    }
  }

  /** Every token is fresh when its probe goes out. */
  predicate FreshTokens(b: Book, ops: seq<Op>)
    decreases ops
  {
    ops != [] ==>
      && (ops[0].Send? ==> Fresh(b.pending, ops[0].probe.token))
      && FreshTokens(Step(b, ops[0]), ops[1..])
  }

  lemma {:induction false} NothingOverwritten(b: Book, ops: seq<Op>)
    ensures FreshTokens(b, ops) <==> OverwrittenIn(b, ops) == multiset{}
    decreases ops
  {
    if ops != [] {
      hide Step;
      var rest := OverwrittenIn(Step(b, ops[0]), ops[1..]);
      NothingOverwritten(Step(b, ops[0]), ops[1..]);
      if ops[0].Send? && !Fresh(b.pending, ops[0].probe.token) {
        assert b.pending[Find(b.pending, ops[0].probe.token)] in Overwritten(b, ops[0]) + rest;
      } else {
        assert Overwritten(b, ops[0]) + rest == rest;
      }
    }
  }

  lemma {:induction false} ProbesCount(resolved: seq<Resolution>)
    ensures |Probes(resolved)| == |resolved|
  {
    if resolved != [] {
      ProbesCount(resolved[..|resolved| - 1]);
    }
  }

  /** From a new link, outcomes ever recorded plus probes in flight equals probes sent exactly
      when no token was used again while its first probe was still in flight. */
  lemma OutcomesPlusInFlight(ops: seq<Op>)
    ensures var b := Run(Book([], []), ops);
            (|b.resolved| + |b.pending| == |SentIn(ops)|) <==> FreshTokens(Book([], []), ops)
  {
    hide Run, OverwrittenIn, FreshTokens, SentIn;
    var born := Book([], []);
    var b := Run(born, ops);
    EveryProbeAccounted(born, ops);
    NothingOverwritten(born, ops);
    ProbesCount(b.resolved);
    assert Accounted(born) == multiset{};
    assert |Accounted(b) + OverwrittenIn(born, ops)| == |SentIn(ops)|;
  }

  // ------------------------------------------------------------------ the sweep

  predicate InOrder(pending: seq<Probe>) {
    forall i, j :: 0 <= i < j < |pending| ==> pending[i].at <= pending[j].at
  }

  /** Whatever the patience, stopping at the first young probe charges every overdue one at
      every moment exactly when the probes lie in the order of their times. */
  lemma SweepIsExact(b: Book, after: real)
    ensures (forall now, p :: p in Expiring(b, now, after).pending ==> !Overdue(p, now, after))
       <==> InOrder(b.pending)
  {
    if InOrder(b.pending) {
      forall now, p | p in Expiring(b, now, after).pending ensures !Overdue(p, now, after) {
        YoungOnlyLeft(b, now, after);
      }
    } else {
      var i, j :| 0 <= i < j < |b.pending| && b.pending[i].at > b.pending[j].at;
      LateBehindYoung(b, i, j, after);
    }
  }

  lemma YoungOnlyLeft(b: Book, now: real, after: real)
    requires InOrder(b.pending)
    ensures forall p :: p in Expiring(b, now, after).pending ==> !Overdue(p, now, after)
  {
    hide Lost;
  }

  /** Swept at the last moment at which the one in front is young, the older one behind it stays. */
  lemma LateBehindYoung(b: Book, i: nat, j: nat, after: real)
    requires i < j < |b.pending| && b.pending[i].at > b.pending[j].at
    ensures var now := b.pending[i].at + after;
            b.pending[j] in Expiring(b, now, after).pending && Overdue(b.pending[j], now, after)
  {
    hide Lost;
    var k := OverdueRun(b.pending, b.pending[i].at + after, after);
    assert k <= i;
    assert b.pending[k..][j - k] == b.pending[j];
  }

  /** Probes go out under fresh tokens and never before one still in flight. */
  predicate Orderly(b: Book, ops: seq<Op>)
    decreases ops
  {
    ops != [] ==>
      && (ops[0].Send? ==>
            && Fresh(b.pending, ops[0].probe.token)
            && forall q :: q in b.pending ==> q.at <= ops[0].probe.at)
      && Orderly(Step(b, ops[0]), ops[1..])
  }

  lemma StepKeepsOrder(b: Book, op: Op)
    requires InOrder(b.pending)
    requires op.Send? ==> Fresh(b.pending, op.probe.token) && forall q :: q in b.pending ==> q.at <= op.probe.at
    ensures InOrder(Step(b, op).pending)
  {
    hide Lost, Find, OverdueRun;
  }

  /** On every orderly run a sweep leaves no overdue probe in flight and gives up on no
      young one. */
  lemma {:induction false} SweepsChargeExactly(b: Book, ops: seq<Op>, now: real, after: real)
    requires InOrder(b.pending) && Orderly(b, ops)
    ensures var end := Run(b, ops);
            var swept := Expiring(end, now, after);
            && (forall p :: p in swept.pending <==> p in end.pending && !Overdue(p, now, after))
            && |swept.resolved| == |end.resolved| + |end.pending| - |swept.pending|
    decreases ops
  {
    if ops == [] {
      var k := OverdueRun(b.pending, now, after);
      assert b.pending == b.pending[..k] + b.pending[k..];
      YoungOnlyLeft(b, now, after);
    } else {
      StepKeepsOrder(b, ops[0]);
      SweepsChargeExactly(Step(b, ops[0]), ops[1..], now, after);
    }
  }

  /** A token used again keeps its early place under a late time, and hides every probe
      behind it from the sweep. */
  lemma ReusedTokenHides()
    ensures var b := Run(Book([], []), [Send(Probe(1, 0.0)), Send(Probe(2, 1.0)), Send(Probe(1, 9.0))]);
            Expiring(b, 10.0, 5.0).pending == [Probe(1, 9.0), Probe(2, 1.0)]
  {
    var first := Run(Book([], []), [Send(Probe(1, 0.0)), Send(Probe(2, 1.0))]);
    assert first.pending == [Probe(1, 0.0), Probe(2, 1.0)];
    var b := Sending(first, Probe(1, 9.0));
    assert b.pending == [Probe(1, 9.0), Probe(2, 1.0)];
  }
}
