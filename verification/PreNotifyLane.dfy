/** One invocation of the pre-notify lane: a single allowance of outbound
    requests, spent across every chain, batch and loan. Whatever the outside
    answers, and whichever writes fail, is arbitrary. */
module PreNotifyLane {
  import opened Wrappers
  import opened PreNotifyPass
  import opened PreNotifyReminder

  const MAX_REQUESTS := 40
  const PER_LOAN := 4 + 5
  const MARK_RESERVE := 1
  const OPENING := 8
  const EXAMINE_BATCH := 100
  const MAX_BATCHES := 3

  /** A candidate row: the loan's schedule, as stored. */
  datatype Row = Row(id: int, start: int, cadence: int, settledAt: int)

  /** The chain's clock at this tick: paused seconds since a start. */
  datatype Clock = Clock(interval: int -> nat, credit: int -> int, now: int, window: int)

  const DAY := 86400

  function CheckpointOf(c: Clock, r: Row): int { r.settledAt + c.interval(r.cadence) * DAY }

  function DueOf(c: Clock, r: Row): Due {
    Due(r.id, CheckpointOf(c, r), CheckpointOf(c, r) + c.credit(r.start) - c.now)
  }

  /** The reminder is due soon and its checkpoint not stamped yet. */
  predicate IsCandidate(c: Clock, chain: int, stamps: map<(int, int), int>, r: Row) {
    && c.interval(r.cadence) != 0
    && 0 < DueOf(c, r).secsUntil <= c.window
    && !Stamped(stamps, (chain, r.id), CheckpointOf(c, r))
  }

  predicate Stamped(stamps: map<(int, int), int>, loan: (int, int), checkpoint: int) {
    loan in stamps && stamps[loan] == checkpoint
  }

  predicate Before(a: Due, b: Due) {
    a.secsUntil < b.secsUntil
    || (a.secsUntil == b.secsUntil
        && (a.checkpoint < b.checkpoint || (a.checkpoint == b.checkpoint && a.id <= b.id)))
  }

  predicate SortedDue(due: seq<Due>) { forall i, j :: 0 <= i < j < |due| ==> Before(due[i], due[j]) }

  predicate DistinctRows(rows: seq<Row>) { forall i, j :: 0 <= i < j < |rows| ==> rows[i].id != rows[j].id }

  /** Put one loan in its place. */
  method InsertDue(due: seq<Due>, d: Due) returns (out: seq<Due>)
    requires SortedDue(due)
    ensures SortedDue(out) && multiset(out) == multiset(due) + multiset{d}
  {
    var i := |due|;
    while i > 0 && !Before(due[i - 1], d)
      invariant 0 <= i <= |due|
      invariant forall j :: i <= j < |due| ==> Before(d, due[j])
    {
      i := i - 1;
    }
    assert due == due[..i] + due[i..];
    out := due[..i] + [d] + due[i..];
    InsertedInOrder(due, d, i);
  }

  lemma InsertedInOrder(due: seq<Due>, d: Due, i: nat)
    requires SortedDue(due) && i <= |due| && (i > 0 ==> Before(due[i - 1], d))
    requires forall j :: i <= j < |due| ==> Before(d, due[j])
    ensures SortedDue(due[..i] + [d] + due[i..])
  {
    var out := due[..i] + [d] + due[i..];
    forall j | 0 <= j < i ensures Before(due[j], d) { assert j < i - 1 ==> Before(due[j], due[i - 1]); }
    forall a, b | 0 <= a < b < |out| ensures Before(out[a], out[b]) {
      assert out[a] == (if a < i then due[a] else if a == i then d else due[a - 1]);
      assert out[b] == (if b < i then due[b] else if b == i then d else due[b - 1]);
    }
  }

  /** The loans to remind about, nearest deadline first: exactly the candidate
      rows, each once, in the total order of deadline, checkpoint and id. */
  method CandidatesInWindow(c: Clock, chain: int, stamps: map<(int, int), int>, rows: seq<Row>) returns (due: seq<Due>)
    requires DistinctRows(rows)
    ensures SortedDue(due) && Distinct(due)
    ensures forall d :: d in due <==> exists i :: 0 <= i < |rows| && IsCandidate(c, chain, stamps, rows[i]) && d == DueOf(c, rows[i])
  {
    var found: seq<Due> := [];
    for i := 0 to |rows|
      invariant Distinct(found)
      invariant forall d :: d in found <==> exists j :: 0 <= j < i && IsCandidate(c, chain, stamps, rows[j]) && d == DueOf(c, rows[j])
    {
      if IsCandidate(c, chain, stamps, rows[i]) {
        forall d | d in found ensures d.id != rows[i].id {
          var j :| 0 <= j < i && IsCandidate(c, chain, stamps, rows[j]) && d == DueOf(c, rows[j]);
        }
        found := found + [DueOf(c, rows[i])];
      }
    }
    due := SortDue(found);
    forall d ensures d in due <==> d in found { assert d in multiset(due) <==> d in multiset(found); }
  }

  method SortDue(found: seq<Due>) returns (due: seq<Due>)
    requires Distinct(found)
    ensures SortedDue(due) && Distinct(due) && multiset(due) == multiset(found)
  {
    due := [];
    for i := 0 to |found|
      invariant SortedDue(due) && multiset(due) == multiset(found[..i])
    {
      assert found[..i + 1] == found[..i] + [found[i]];
      due := InsertDue(due, found[i]);
    }
    assert found[..|found|] == found;
    StillDistinct(found, due);
  }

  lemma {:induction false} CountOne(due: seq<Due>, d: Due)
    requires Distinct(due)
    ensures multiset(due)[d] <= 1
    decreases |due|
  {
    if due != [] {
      var init := due[..|due| - 1];
      CountOne(init, d);
      assert due == init + [due[|due| - 1]];
      if due[|due| - 1] == d { assert d !in init; }
    }
  }

  lemma StillDistinct(found: seq<Due>, due: seq<Due>)
    requires Distinct(found) && multiset(due) == multiset(found)
    ensures Distinct(due)
  {
    forall i, j | 0 <= i < j < |due| ensures due[i].id != due[j].id {
      var a, b := due[i], due[j];
      assert a in multiset(found) && b in multiset(found);
      CountOne(found, a);
      if a == b { CountTwo(due, i, j); }
    }
  }

  lemma CountTwo(due: seq<Due>, i: nat, j: nat)
    requires i < j < |due| && due[i] == due[j]
    ensures multiset(due)[due[i]] >= 2
  {
    assert due == due[..i] + [due[i]] + due[i + 1..j] + [due[j]] + due[j + 1..];
  }

  // --------------------------------------------------------- the lane

  datatype Verdict = Unanswered | Ineligible | ClockDiffers | Eligible

  function StateOf(passes: map<int, State>, chain: int): State {
    if chain in passes then passes[chain] else State(Table(map[], None), [])
  }

  /** What the reads before the candidates answer; a failed read is `None`. */
  datatype Opening = Opening(identified: bool, probed: bool, head: Option<int>, indexed: Option<int>,
                             paused: Option<bool>, log: bool, enabled: Option<bool>)

  /** Every gate passes: the right chain, a current head, not paused, enabled. */
  predicate Clears(o: Opening) {
    && o.identified && o.head.Some? && o.indexed.Some? && o.indexed.value <= o.head.value
    && o.paused == Some(false) && o.log && o.enabled == Some(true)
  }

  /** What those reads are charged: each is made only when the one before let it. */
  function OpeningCost(cold: bool, o: Opening): (c: nat)
    ensures c <= 6
  {
    var probe := if !o.identified || (cold && o.probed) then 1 else 0;
    if !o.identified then probe
    else if o.head.None? then probe + 1
    else if o.indexed.None? || o.indexed.value > o.head.value then probe + 2
    else if o.paused != Some(false) then probe + 3
    else if !o.log then probe + 4
    else probe + 5
  }

  /** What one chain's pass did: whether it was admitted, what its opening reads
      and its candidate query answered, whether it reached its loop and the first
      status read there answered, and the tick it took of the chain's pass. */
  datatype Report = Report(admitted: bool, opening: Opening, read: bool, due: seq<Due>, looped: bool, answered: bool,
                           tick: Option<Tick>)

  const NOTHING_DONE := Report(false, Opening(false, false, None, None, None, false, None), false, [], false, false, None)

  predicate Opened(r: Report) { r.admitted && Clears(r.opening) }

  class Lane {
    var remaining: int
    var passes: map<int, State>
    var stamps: map<(int, int), int>
    var rotation: Cell
    ghost var visits: seq<Visit>

    constructor (passes: map<int, State>)
      ensures remaining == MAX_REQUESTS && this.passes == passes && stamps == map[] && rotation == Null && visits == []
    {
      remaining, this.passes, stamps, rotation := MAX_REQUESTS, passes, map[], Null;
      visits := [];
    }

    /** Tell one party, charging each request where it is made. */
    method PushIfSubscribed(e: Rails) returns (reply: Reply, threw: bool, o: Outcome)
      modifies this`remaining
      ensures remaining == old(remaining) - CostOf(e, reply)
      ensures threw == reply.lookup.LookupThrew? && o == OutcomeOf(e, reply)
    {
      reply := *;
      remaining := remaining - 1;
      if !reply.lookup.Row? { remaining := remaining - 1; }
      o, threw := NOTHING, reply.lookup.LookupThrew?;
      var sub := SubOf(reply.lookup);
      if sub.None? { return; }
      if sub.value.optedOut { o := NOTHING.(optedOut := true); return; }
      var unusable := false;
      if sub.value.push && e.signer {
        match reply.push
        case PushAccepted => remaining := remaining - 1; o := o.(attempted := true, delivered := true);
        case PushFailed => remaining := remaining - 1; o := o.(attempted := true, unconfirmed := o.unconfirmed + 1);
        case NotRequested => unusable := true;
        case PushThrew =>
      }
      if sub.value.tg && e.token {
        remaining := remaining - 1;
        o := o.(attempted := true);
        match reply.tg
        case TgAccepted => o := o.(delivered := true);
        case TgRefused => o := o.(refused := o.refused + 1);
        case TgTransient => o := o.(transient := o.transient + 1);
        case TgUnknown => o := o.(unconfirmed := o.unconfirmed + 1);
        case TgThrew => o := o.(unconfirmed := o.unconfirmed + 1);
      }
      o := o.(pushUnconfigured := sub.value.push && (!e.signer || unusable), tgUnconfigured := sub.value.tg && !e.token);
    }

    /** Message the parties of one eligible loan, then stamp it or not. */
    method MessageLoan(loan: (int, int), checkpoint: int, e: Rails) returns (threw: bool)
      requires Books(stamps, visits) && !Stamped(stamps, loan, checkpoint)
      requires remaining >= PER_LOAN + MARK_RESERVE
      modifies this`remaining, this`stamps, this`visits
      ensures Books(stamps, visits) && MARK_RESERVE <= remaining <= old(remaining)
      ensures OneVisit(old(visits), visits, loan, checkpoint, threw)
      ensures remaining == old(remaining) - VisitCost(visits[|old(visits)|])
      ensures stamps == if Stamps(visits[|old(visits)|]) then old(stamps)[loan := checkpoint] else old(stamps)
    {
      var borrower, o1, lender, o2;
      var landed: bool := *;
      lender := Reply(LookupThrew, NotRequested, TgThrew);
      borrower, threw, o1 := PushIfSubscribed(e);
      if !threw { lender, threw, o2 := PushIfSubscribed(e); }
      ghost var v := Visit(loan, checkpoint, e, borrower, lender, landed);
      BookVisit(stamps, visits, v);
      visits := visits + [v];
      if !threw && StampDecision(o1, o2) {
        remaining := remaining - 1;
        if landed { stamps := stamps[loan := checkpoint]; }
      }
    }

    /** Work through one examined batch, as far as the allowance goes. Each loan
        is started only when it and the batch's mark can both be paid for, and
        exactly the loans the chain calls eligible are messaged about, in order. */
    method MessageBatch(chain: int, batch: seq<Due>, e: Rails)
      returns (consumed: nat, threw: bool, ghost verdicts: seq<Verdict>)
      requires Books(stamps, visits) && Distinct(batch) && Unstamped(stamps, chain, batch)
      requires batch != [] && remaining >= PER_LOAN + MARK_RESERVE
      modifies this`remaining, this`stamps, this`visits
      ensures Books(stamps, visits) && MARK_RESERVE <= remaining <= old(remaining)
      ensures consumed <= |batch| && (!threw ==> consumed > 0)
      ensures !threw && consumed < |batch| ==> remaining < PER_LOAN + MARK_RESERVE
      ensures !threw ==> Unstamped(stamps, chain, batch[consumed..])
      ensures OnlyStamped(old(stamps), stamps, chain, batch)
      ensures !threw ==> |verdicts| == consumed && Messaged(old(visits), visits, chain, batch, verdicts)
    {
      threw, consumed, verdicts := false, 0, [];
      while consumed < |batch| && remaining >= PER_LOAN + MARK_RESERVE
        invariant Books(stamps, visits) && MARK_RESERVE <= remaining <= old(remaining)
        invariant consumed <= |batch| && (consumed == 0 ==> remaining >= PER_LOAN + MARK_RESERVE)
        invariant Unstamped(stamps, chain, batch[consumed..])
        invariant OnlyStamped(old(stamps), stamps, chain, batch)
        invariant |verdicts| == consumed && Messaged(old(visits), visits, chain, batch, verdicts)
        decreases |batch| - consumed
      {
        ghost var was, had := stamps, visits;
        var verdict;
        verdict, threw := Consider(chain, batch, consumed, e);
        if threw { return; }
        StillUnstamped(was, stamps, chain, batch, consumed);
        MessagedMore(old(visits), had, visits, chain, batch, verdicts, verdict);
        verdicts := verdicts + [verdict];
        consumed := consumed + 1;
      }
    }

    /** One loan of the batch: what the chain says of it, and its messages. */
    method Consider(chain: int, batch: seq<Due>, i: nat, e: Rails) returns (verdict: Verdict, threw: bool)
      requires i < |batch| && Books(stamps, visits) && Unstamped(stamps, chain, batch[i..])
      requires remaining >= PER_LOAN + MARK_RESERVE
      modifies this`remaining, this`stamps, this`visits
      ensures Books(stamps, visits) && MARK_RESERVE <= remaining <= old(remaining)
      ensures stamps == old(stamps) || stamps == old(stamps)[(chain, batch[i].id) := batch[i].checkpoint]
      ensures if verdict == Eligible
        then OneVisit(old(visits), visits, (chain, batch[i].id), batch[i].checkpoint, threw)
        else !threw && visits == old(visits)
    {
      verdict, threw := *, false;
      assert batch[i..][0] == batch[i];
      if verdict == Eligible { threw := MessageLoan((chain, batch[i].id), batch[i].checkpoint, e); }
    }

    /** Mark what a batch examined, with the pass's record when it is due. */
    method MarkExamined(chain: int, examined: seq<Due>, lap: int, begins: bool, completes: bool, now: int)
      returns (landed: bool, reported: bool)
      requires remaining >= 1
      modifies this`remaining, this`passes
      ensures remaining == old(remaining) - 1 && (reported ==> landed)
      ensures passes == if landed
        then old(passes)[chain := MarkBatch(StateOf(old(passes), chain), examined, lap, begins, completes, now)]
        else old(passes)
    {
      remaining := remaining - 1;
      landed, reported := *, *;
      reported := reported && landed;
      if landed {
        passes := passes[chain := MarkBatch(StateOf(passes, chain), examined, lap, begins, completes, now)];
      }
    }

    /** The next batch of the pass: at most `EXAMINE_BATCH` loans. */
    method MessageNext(chain: int, due: seq<Due>, from: nat, e: Rails) returns (consumed: nat, threw: bool)
      requires from < |due| && remaining >= PER_LOAN + MARK_RESERVE
      requires Books(stamps, visits) && Distinct(due) && Unstamped(stamps, chain, due[from..])
      modifies this`remaining, this`stamps, this`visits
      ensures Books(stamps, visits) && MARK_RESERVE <= remaining <= old(remaining)
      ensures consumed <= EXAMINE_BATCH && from + consumed <= |due| && (!threw ==> consumed > 0)
      ensures !threw ==> Unstamped(stamps, chain, due[from + consumed..])
    {
      var size := if |due| - from < EXAMINE_BATCH then |due| - from else EXAMINE_BATCH;
      var batch := due[from..from + size];
      BatchUnstamped(stamps, chain, due, from, size);
      ghost var verdicts;
      consumed, threw, verdicts := MessageBatch(chain, batch, e);
      if !threw { RestUnstamped(old(stamps), stamps, chain, due, from, size, consumed); }
    }

    /** One batch: its status read, its loans, its mark. */
    method ScanBatch(chain: int, plan: Plan, now: int, e: Rails, p: Progress)
      returns (answered: bool, threw: bool, w: Write)
      requires p.cursor < |plan.pending| && remaining >= 1 + PER_LOAN + MARK_RESERVE
      requires Books(stamps, visits) && Distinct(plan.pending) && Unstamped(stamps, chain, plan.pending[p.cursor..])
      requires StateOf(passes, chain) == p.state
      modifies this`remaining, this`stamps, this`visits, this`passes
      ensures Books(stamps, visits) && 0 <= remaining < old(remaining)
      ensures w.count <= EXAMINE_BATCH && p.cursor + w.count <= |plan.pending| && (w.reported ==> w.landed)
      ensures w.count > 0 <==> answered && !threw
      ensures !threw ==> Unstamped(stamps, chain, plan.pending[p.cursor + w.count..])
      ensures StateOf(passes, chain) == AfterBatch(p, plan, now, w).state
      ensures OnlyChain(old(passes), passes, chain)
    {
      remaining := remaining - 1;
      answered, threw, w := *, false, Write(0, false, false);
      if !answered { return; }
      var consumed;
      consumed, threw := MessageNext(chain, plan.pending, p.cursor, e);
      if threw { return; }
      var completes := p.cursor + consumed >= |plan.pending| && p.unmarked == 0;
      var examined := plan.pending[p.cursor..p.cursor + consumed];
      var landed, reported := MarkExamined(chain, examined, plan.lap, !p.recorded, completes, now);
      w := Write(consumed, landed, reported);
    }

    /** One more batch of the scan, and what it makes of the lane's variables. */
    method ScanMore(chain: int, plan: Plan, now: int, e: Rails, p: Progress, ghost s: State, ghost ws: seq<Write>)
      returns (ok: bool, threw: bool, q: Progress, ghost more: seq<Write>)
      requires p.cursor < |plan.pending| && remaining >= 1 + PER_LOAN + MARK_RESERVE
      requires Books(stamps, visits) && Distinct(plan.pending) && Unstamped(stamps, chain, plan.pending[p.cursor..])
      requires Progressed(s, plan, now, ws, p) && StateOf(passes, chain) == p.state
      modifies this`remaining, this`stamps, this`visits, this`passes
      ensures Books(stamps, visits) && 0 <= remaining < old(remaining)
      ensures Progressed(s, plan, now, more, q) && StateOf(passes, chain) == q.state
      ensures OnlyChain(old(passes), passes, chain)
      ensures if ok && !threw then q.cursor > p.cursor && |more| == |ws| + 1 else q == p && more == ws
      ensures !threw ==> Unstamped(stamps, chain, plan.pending[q.cursor..])
    {
      var w;
      ok, threw, w := ScanBatch(chain, plan, now, e, p);
      q, more := p, ws;
      if ok && !threw {
        MoreWrites(s, plan, now, ws, p, w);
        more := ws + [w];
        q := AfterBatch(p, plan, now, w);
      }
    }

    /** The scan: batch after batch while the allowance can act on one more. */
    method Scan(chain: int, plan: Plan, now: int, e: Rails, ghost s: State)
      returns (threw: bool, ghost answered: bool, ghost ws: seq<Write>, ghost lost: bool)
      requires plan.pending != [] && remaining >= 1 + PER_LOAN + MARK_RESERVE
      requires Books(stamps, visits) && Distinct(plan.pending) && Unstamped(stamps, chain, plan.pending)
      requires StateOf(passes, chain) == s
      modifies this`remaining, this`stamps, this`visits, this`passes
      ensures Books(stamps, visits) && 0 <= remaining <= old(remaining)
      ensures Honest(ws) && Total(ws) <= |plan.pending| && (forall i :: 0 <= i < |ws| ==> ws[i].count > 0)
      ensures answered && !threw ==> Total(ws) > 0
      ensures !threw ==> (answered <==> !lost || ws != [])
      ensures !threw && !lost ==>
        Total(ws) == |plan.pending| || remaining < 1 + PER_LOAN + MARK_RESERVE || |ws| == MAX_BATCHES
      ensures StateOf(passes, chain) == AfterBatches(s, plan, now, ws).state
      ensures OnlyChain(old(passes), passes, chain)
    {
      var batches, failed := 0, false;
      var p := Progress(StateOf(passes, chain), 0, !plan.begins, 0);
      threw, answered, ws, lost := false, true, [], false;
      while p.cursor < |plan.pending| && remaining >= 1 + PER_LOAN + MARK_RESERVE && batches < MAX_BATCHES && !failed
        invariant Books(stamps, visits) && 0 <= remaining <= old(remaining) && OnlyChain(old(passes), passes, chain)
        invariant Progressed(s, plan, now, ws, p) && StateOf(passes, chain) == p.state
        invariant batches == 0 ==> p.cursor == 0 && remaining >= 1 + PER_LOAN + MARK_RESERVE && !failed
        invariant batches <= MAX_BATCHES && |ws| == (if failed then batches - 1 else batches) && (ws != [] <==> p.cursor > 0) && lost == failed
        invariant batches > 0 ==> (answered <==> ws != [])
        invariant Unstamped(stamps, chain, plan.pending[p.cursor..])
        decreases MAX_BATCHES - batches, !failed
      {
        var ok;
        ok, threw, p, ws := ScanMore(chain, plan, now, e, p, s, ws);
        if batches == 0 { answered := ok; }
        batches, failed, lost := batches + 1, !ok, !ok;
        if threw { return; }
      }
    }

    /** The reads that must answer before the candidates are even asked for:
        identity, head, indexer cursor, pause, pause log, config. */
    method Open(cold: bool) returns (go: bool, o: Opening)
      requires remaining >= OPENING + PER_LOAN + (if cold then 1 else 0)
      modifies this`remaining
      ensures remaining == old(remaining) - OpeningCost(cold, o)
      ensures go <==> Clears(o)
      ensures go ==> remaining >= 1 + 1 + PER_LOAN + MARK_RESERVE
    {
      o := AnyOpening();
      go := false;
      if !o.identified || (cold && o.probed) { remaining := remaining - 1; }
      if !o.identified { return; }
      remaining := remaining - 1;
      if !o.head.Some? { return; }
      remaining := remaining - 1;
      if !o.indexed.Some? || o.head.value < o.indexed.value { return; }
      remaining := remaining - 1;
      if o.paused != Some(false) { return; }
      remaining := remaining - 1;
      if !o.log { return; }
      remaining := remaining - 1;
      go := o.enabled == Some(true);
    }

    /** An empty window ends the pass in progress, if there is one. */
    method Idle(chain: int, now: int) returns (ghost landed: bool)
      modifies this`remaining, this`passes
      ensures old(remaining) - 1 <= remaining <= old(remaining) && (old(remaining) >= 0 ==> remaining >= 0)
      ensures StateOf(passes, chain) == IdleTick(StateOf(old(passes), chain), now, landed)
      ensures OnlyChain(old(passes), passes, chain)
    {
      var s := StateOf(passes, chain);
      landed := false;
      var record := ReadPassRecord(s.table.record);
      if record.Open? || record.Unreadable? {
        if remaining < 1 { return; }
        remaining := remaining - 1;
        var lands: bool := *;
        landed := lands;
        if lands { passes := passes[chain := IdleTick(s, now, true)]; }
      }
    }

    /** One chain's pass. It goes exactly as far as its admission, its opening
        reads and its query let it. When it gets to its loop and the first status
        read answers, at least one loan is examined, unless a subscriber query
        throws. */
    method PreNotifyChain(chain: int, cold: bool, c: Clock, e: Rails) returns (threw: bool, ghost r: Report)
      requires Books(stamps, visits) && remaining >= 0 && IsMarkNumber(c.now)
      requires Inv(StateOf(passes, chain)) && RecordedLap(StateOf(passes, chain)) <= SAFE
      modifies this`remaining, this`stamps, this`visits, this`passes
      ensures Books(stamps, visits) && 0 <= remaining <= old(remaining)
      ensures r.admitted <==> old(remaining) >= OPENING + PER_LOAN + (if cold then 1 else 0)
      ensures !r.admitted ==> remaining == old(remaining)
      ensures r.admitted && !Clears(r.opening) ==> remaining == old(remaining) - OpeningCost(cold, r.opening)
      ensures r.looped <==> Opened(r) && r.read && r.due != []
      ensures r.tick.Some? <==> Opened(r) && r.read
      ensures r.tick.Some? ==> r.tick.value.due == r.due
      ensures TickTaken(old(passes), passes, chain, r.tick)
      ensures r.looped && r.answered && !threw ==> Total(r.tick.value.writes) > 0
    {
      threw, r := false, NOTHING_DONE;
      if remaining < OPENING + PER_LOAN + (if cold then 1 else 0) { return; }
      var go, opening := Open(cold);
      r := r.(admitted := true, opening := opening);
      if !go { return; }
      remaining := remaining - 1;
      var read: bool := *;
      if !read { return true, r; }
      threw, r := WithCandidates(chain, c, e, opening);
    }

    /** The rows have been read: an idle tick, or the loop. */
    method WithCandidates(chain: int, c: Clock, e: Rails, ghost opening: Opening) returns (threw: bool, ghost r: Report)
      requires Books(stamps, visits) && remaining >= 1 + PER_LOAN + MARK_RESERVE && IsMarkNumber(c.now)
      requires Inv(StateOf(passes, chain)) && RecordedLap(StateOf(passes, chain)) <= SAFE
      modifies this`remaining, this`stamps, this`visits, this`passes
      ensures Books(stamps, visits) && 0 <= remaining <= old(remaining)
      ensures r.admitted && r.opening == opening && r.read && (r.looped <==> r.due != [])
      ensures r.tick.Some? && r.tick.value.due == r.due
      ensures TickTaken(old(passes), passes, chain, r.tick)
      ensures r.looped && r.answered && !threw ==> Total(r.tick.value.writes) > 0
    {
      threw := false;
      var rows := ReadRows();
      var due := CandidatesInWindow(c, chain, stamps, rows);
      if due == [] {
        ghost var landed := Idle(chain, c.now);
        r := Report(true, opening, true, [], false, false, Some(Tick([], c.now, [Write(0, landed, landed)])));
        IdleIsLegal(StateOf(old(passes), chain), c.now, landed);
        return;
      }
      CandidatesUnstamped(c, chain, stamps, rows, due);
      ghost var answered, ws;
      threw, answered, ws := RunLoop(chain, due, c.now, e);
      r := Report(true, opening, true, due, true, answered, Some(Tick(due, c.now, ws)));
    }

    method RunLoop(chain: int, due: seq<Due>, now: int, e: Rails) returns (threw: bool, ghost answered: bool, ghost ws: seq<Write>)
      requires Books(stamps, visits) && remaining >= 1 + PER_LOAN + MARK_RESERVE && IsMarkNumber(now)
      requires due != [] && Distinct(due) && Unstamped(stamps, chain, due)
      requires Inv(StateOf(passes, chain)) && RecordedLap(StateOf(passes, chain)) <= SAFE
      modifies this`remaining, this`stamps, this`visits, this`passes
      ensures Books(stamps, visits) && 0 <= remaining <= old(remaining)
      ensures TickTaken(old(passes), passes, chain, Some(Tick(due, now, ws)))
      ensures answered && !threw ==> Total(ws) > 0
    {
      var s := StateOf(passes, chain);
      var plan := ExaminationPass(due, s.table.marks, now, ReadPassRecord(s.table.record));
      PlanPending(s, due, now, stamps, chain);
      ghost var lost;
      threw, answered, ws, lost := Scan(chain, plan, now, e, s);
    }

    /** Which chain leads; the stored place is read only when there is a choice. */
    method RotationStart(n: nat) returns (start: nat, read: bool)
      requires n > 0
      modifies this`remaining
      ensures start < n && old(remaining) - 1 <= remaining <= old(remaining)
      ensures read ==> start == RotationOf(rotation, n)
    {
      if n <= 1 { return 0, true; }
      remaining := remaining - 1;
      read := *;
      start := if read then RotationOf(rotation, n) else 0;
    }

    method SaveRotationStart(next: nat) returns (landed: bool)
      modifies this`remaining, this`rotation
      ensures remaining == old(remaining) - 1
      ensures rotation == if landed then Num(next) else old(rotation)
    {
      remaining := remaining - 1;
      landed := *;
      if landed { rotation := Num(next); }
    }

    /** One chain's turn in the rotation. */
    method Turn(t: Target, e: Rails, ghost was: map<int, State>, ghost done: set<int>) returns (ghost r: Report)
      requires Books(stamps, visits) && remaining >= 0 && IsMarkNumber(t.clock.now)
      requires InOrderSince(was, passes, done) && t.id !in done
      requires RecordedLap(StateOf(was, t.id)) <= SAFE
      modifies this`remaining, this`stamps, this`visits, this`passes
      ensures Books(stamps, visits) && 0 <= remaining <= old(remaining)
      ensures InOrderSince(was, passes, done + {t.id})
      ensures old(remaining) >= 1 + OPENING + PER_LOAN ==> r.admitted
    {
      r := NOTHING_DONE;
      if remaining > 0 {
        var threw;
        threw, r := PreNotifyChain(t.id, t.cold, t.clock, e);
        TickKept(old(passes), passes, t.id, r.tick);
      }
    }

    method Turns(chains: seq<Target>, first: nat, e: Rails) returns (ghost reports: seq<Report>)
      requires Books(stamps, visits) && DistinctTargets(chains) && first < |chains| && remaining >= 1 + OPENING + PER_LOAN
      requires forall i :: 0 <= i < |chains| ==> IsMarkNumber(chains[i].clock.now)
      requires forall c :: Inv(StateOf(passes, c)) && RecordedLap(StateOf(passes, c)) <= SAFE
      modifies this`remaining, this`stamps, this`visits, this`passes
      ensures Books(stamps, visits) && 0 <= remaining <= old(remaining)
      ensures |reports| == |chains| && reports[0].admitted
      ensures InOrderSince(old(passes), passes, IdsOf(chains))
    {
      reports := [];
      ghost var done: set<int> := {};
      for i := 0 to |chains|
        invariant Books(stamps, visits) && 0 <= remaining <= old(remaining) && (i == 0 ==> remaining == old(remaining))
        invariant |reports| == i && (i > 0 ==> reports[0].admitted)
        invariant InOrderSince(old(passes), passes, done) && done == IdsOf(Rotated(chains, first)[..i])
      {
        var target := TargetAt(chains, first, i);
        ghost var r := Turn(target, e, old(passes), done);
        reports := reports + [r];
        done := done + {target.id};
      }
      AllTargets(chains, first);
    }

    /** One invocation. It never charges more than its allowance, the leading
        chain is always admitted, and every chain's pass stays in order. */
    method RunPeriodicPreNotify(chains: seq<Target>, e: Rails)
      returns (ghost start: nat, ghost read: bool, ghost landed: bool, ghost reports: seq<Report>)
      requires Books(stamps, visits) && DistinctTargets(chains)
      requires forall i :: 0 <= i < |chains| ==> IsMarkNumber(chains[i].clock.now)
      requires forall c :: Inv(StateOf(passes, c)) && RecordedLap(StateOf(passes, c)) <= SAFE
      modifies this
      ensures Books(stamps, visits)
      ensures chains != [] ==> 0 <= remaining <= MAX_REQUESTS
      ensures chains != [] ==> start < |chains| && (read ==> start == RotationOf(old(rotation), |chains|))
      ensures chains != [] ==> rotation == if landed then Num((start + 1) % |chains|) else old(rotation)
      ensures |reports| == |chains| && (chains != [] ==> reports[0].admitted)
      ensures InOrderSince(old(passes), passes, IdsOf(chains))
    {
      start, read, landed, reports := 0, true, false, [];
      if chains == [] { return; }
      remaining := MAX_REQUESTS;
      var first, answered := RotationStart(|chains|);
      var saved := SaveRotationStart((first + 1) % |chains|);
      start, read, landed := first, answered, saved;
      reports := Turns(chains, first, e);
    }
  }

  /** Every chain's pass is in order, at most one further, and untouched unless
      the chain has had its turn. */
  ghost predicate InOrderSince(was: map<int, State>, now: map<int, State>, done: set<int>) {
    && (forall c :: Inv(StateOf(now, c)) && RecordedLap(StateOf(now, c)) <= RecordedLap(StateOf(was, c)) + 1)
    && (forall c :: c !in done ==> StateOf(now, c) == StateOf(was, c))
  }

  ghost function IdsOf(chains: seq<Target>): set<int> { set t | t in chains :: t.id }

  ghost function Rotated(chains: seq<Target>, first: nat): seq<Target>
    requires first <= |chains|
  {
    chains[first..] + chains[..first]
  }

  method TargetAt(chains: seq<Target>, first: nat, i: nat) returns (t: Target)
    requires first < |chains| && i < |chains| && DistinctTargets(chains)
    ensures t in chains && t.id !in IdsOf(Rotated(chains, first)[..i])
    ensures IdsOf(Rotated(chains, first)[..i + 1]) == IdsOf(Rotated(chains, first)[..i]) + {t.id}
  {
    t := chains[(i + first) % |chains|];
    NextTarget(chains, first, i, t);
  }

  /** The `i`th chain of the rotation has not had its turn yet. */
  lemma NextTarget(chains: seq<Target>, first: nat, i: nat, t: Target)
    requires first < |chains| && i < |chains| && DistinctTargets(chains) && t == chains[(i + first) % |chains|]
    ensures t in chains && t.id !in IdsOf(Rotated(chains, first)[..i])
    ensures IdsOf(Rotated(chains, first)[..i + 1]) == IdsOf(Rotated(chains, first)[..i]) + {t.id}
  {
    var order := Rotated(chains, first);
    ModStep(i + first, |chains|);
    assert order[..i + 1] == order[..i] + [t];
    forall u | u in order[..i] ensures u.id != t.id {
      var j :| 0 <= j < i && order[..i][j] == u;
      assert order[j] == if j + first < |chains| then chains[j + first] else chains[j + first - |chains|];
    }
  }

  lemma AllTargets(chains: seq<Target>, first: nat)
    requires first < |chains|
    ensures IdsOf(Rotated(chains, first)[..|chains|]) == IdsOf(chains)
  {
    var order := Rotated(chains, first);
    assert order[..|chains|] == order && chains == chains[..first] + chains[first..];
    assert forall t :: t in order <==> t in chains;
  }

  lemma ModStep(x: nat, n: nat)
    requires 0 < n && x < 2 * n
    ensures x % n == if x < n then x else x - n
  {
  }

  /** A configured chain, its clock at this tick, and whether its endpoint's
      identity still has to be probed. */
  datatype Target = Target(id: int, clock: Clock, cold: bool)

  predicate DistinctTargets(chains: seq<Target>) {
    forall i, j :: 0 <= i < j < |chains| ==> chains[i].id != chains[j].id
  }

  /** The stored place as an index: a place there is counts as itself, an absent or
      unusable one as the first chain. */
  function RotationOf(stored: Cell, n: nat): (start: nat)
    requires n > 0
    ensures start < n
    ensures stored.Num? && 0 <= stored.v < n ==> start == stored.v
    ensures !stored.Num? || stored.v < 0 ==> start == 0
  {
    if stored.Num? && stored.v >= 0 then stored.v % n else 0
  }

  /** Who leads the `k`th invocation when every read and write succeeds. */
  function Leads(stored: Cell, n: nat, k: nat): nat
    requires n > 0
    decreases k
  {
    if k == 0 then RotationOf(stored, n) else Leads(Num((RotationOf(stored, n) + 1) % n), n, k - 1)
  }

  lemma {:induction false} LeadsInTurn(stored: Cell, n: nat, k: nat)
    requires k < n
    ensures var start := RotationOf(stored, n);
      Leads(stored, n, k) == if start + k < n then start + k else start + k - n
    decreases k
  {
    var start := RotationOf(stored, n);
    if k > 0 {
      ModStep(start + 1, n);
      var next := (start + 1) % n;
      ModStep(next, n);
      LeadsInTurn(Num(next), n, k - 1);
    }
  }

  /** Every chain leads once in every n invocations, whatever is stored. */
  lemma EveryChainLeads(stored: Cell, n: nat, c: nat)
    requires c < n
    ensures exists k :: 0 <= k < n && Leads(stored, n, k) == c
  {
    var start := RotationOf(stored, n);
    var k := if c >= start then c - start else c + n - start;
    LeadsInTurn(stored, n, k);
    assert 0 <= k < n && Leads(stored, n, k) == c;
  }

  lemma {:induction false} LeadsOn(stored: Cell, n: nat, a: nat, b: nat)
    requires n > 0
    ensures Leads(stored, n, a) < n && Leads(stored, n, a + b) == Leads(Num(Leads(stored, n, a)), n, b)
    decreases a
  {
    if a > 0 {
      LeadsOn(Num((RotationOf(stored, n) + 1) % n), n, a - 1, b);
    } else {
      SamePlace(stored, n, b);
    }
  }

  lemma SamePlace(stored: Cell, n: nat, b: nat)
    requires n > 0
    ensures Leads(Num(RotationOf(stored, n)), n, b) == Leads(stored, n, b)
  {
  }

  /** The ticks a chain took, out of what each invocation gave it. */
  function TicksOf(turns: seq<Option<Tick>>): (ks: seq<Tick>)
    ensures |ks| <= |turns|
    decreases |turns|
  {
    if turns == [] then []
    else
      var ks, last := TicksOf(turns[..|turns| - 1]), turns[|turns| - 1];
      if last.Some? then ks + [last.value] else ks
  }

  lemma {:induction false} TicksOfBoth(a: seq<Option<Tick>>, b: seq<Option<Tick>>)
    ensures TicksOf(a + b) == TicksOf(a) + TicksOf(b)
    decreases |b|
  {
    if b == [] {
      assert a + b == a;
    } else {
      var init := b[..|b| - 1];
      assert (a + b)[..|a + b| - 1] == a + init && (a + b)[|a + b| - 1] == b[|b| - 1];
      TicksOfBoth(a, init);
    }
  }

  /** In each invocation that chain `c` of the `n` leads, it takes a tick; in the
      others it may. */
  ghost predicate TakesItsTurns(stored: Cell, n: nat, c: nat, turns: seq<Option<Tick>>)
    requires n > 0
  {
    forall i :: 0 <= i < |turns| && Leads(stored, n, i) == c ==> turns[i].Some?
  }

  lemma TakesItsTurn(stored: Cell, n: nat, c: nat, turns: seq<Option<Tick>>)
    requires c < n <= |turns| && TakesItsTurns(stored, n, c, turns)
    ensures |TicksOf(turns[..n])| >= 1
  {
    EveryChainLeads(stored, n, c);
    var k :| 0 <= k < n && Leads(stored, n, k) == c;
    TickAmong(turns[..n], k);
  }

  lemma {:induction false} TickAmong(turns: seq<Option<Tick>>, k: nat)
    requires k < |turns| && turns[k].Some?
    ensures |TicksOf(turns)| >= 1
    decreases |turns|
  {
    if k < |turns| - 1 { TickAmong(turns[..|turns| - 1], k); }
  }

  /** `laps` times round the rotation are at least `laps` ticks for the chain. */
  lemma {:induction false} OneTickARound(stored: Cell, n: nat, c: nat, turns: seq<Option<Tick>>, laps: nat)
    requires c < n && TakesItsTurns(stored, n, c, turns) && |turns| == laps * n
    ensures |TicksOf(turns)| >= laps
    decreases laps
  {
    if laps > 0 {
      assert laps * n == (laps - 1) * n + n;
      var rest, next := turns[n..], Num(Leads(stored, n, n));
      assert TakesItsTurns(next, n, c, rest) by {
        forall i | 0 <= i < |rest| && Leads(next, n, i) == c ensures rest[i].Some? {
          LeadsOn(stored, n, n, i);
          assert turns[n + i].Some?;
        }
      }
      OneTickARound(next, n, c, rest, laps - 1);
      TakesItsTurn(stored, n, c, turns);
      assert turns == turns[..n] + rest;
      TicksOfBoth(turns[..n], rest);
    }
  }

  /** The rotation and the pass together: with `n` chains, a window of `size` loans
      that no loan enters is passed through within `size * n` invocations, if in
      those that the chain leads it takes a tick, and its ticks succeed. */
  lemma ClosesWithinTurns(s: State, stored: Cell, n: nat, c: nat, turns: seq<Option<Tick>>, size: nat) returns (m: nat)
    requires c < n && 0 < size && |turns| == size * n && TakesItsTurns(stored, n, c, turns)
    requires Inv(s) && RecordedLap(s) < SAFE && GoodRun(s, TicksOf(turns))
    requires TicksOf(turns) != [] ==> |TicksOf(turns)[0].due| <= size && PlanOf(s, TicksOf(turns)[0]).lap < SAFE
    ensures 0 < m <= size && ClosedAfter(s, TicksOf(turns), m)
  {
    OneTickARound(stored, n, c, turns, size);
    PendingIsDue(s, TicksOf(turns)[0]);
    m := ClosesWithin(s, TicksOf(turns));
  }

  lemma TickKept(was: map<int, State>, now: map<int, State>, chain: int, tick: Option<Tick>)
    requires TickTaken(was, now, chain, tick)
    requires Inv(StateOf(was, chain)) && RecordedLap(StateOf(was, chain)) <= SAFE
    ensures Inv(StateOf(now, chain)) && RecordedLap(StateOf(now, chain)) <= RecordedLap(StateOf(was, chain)) + 1
    ensures forall c :: c != chain ==> StateOf(now, c) == StateOf(was, c)
  {
    if tick.Some? { TickKeepsInv(StateOf(was, chain), tick.value); }
  }

  predicate OnlyChain(was: map<int, State>, now: map<int, State>, chain: int) {
    now == was || now == was[chain := StateOf(now, chain)]
  }

  /** The chain's tables moved by one tick of the pass, or not at all. */
  ghost predicate TickTaken(was: map<int, State>, now: map<int, State>, chain: int, tick: Option<Tick>) {
    if tick.None? then now == was
    else
      && Legal(StateOf(was, chain), tick.value)
      && StateOf(now, chain) == AfterTick(StateOf(was, chain), tick.value)
      && OnlyChain(was, now, chain)
  }

  lemma IdleIsLegal(s: State, now: int, landed: bool)
    requires IsMarkNumber(now)
    ensures Legal(s, Tick([], now, [Write(0, landed, landed)]))
  {
    var ws := [Write(0, landed, landed)];
    assert ws[..0] == [];
    assert Total(ws) == 0;
  }

  lemma PlanPending(s: State, due: seq<Due>, now: int, stamps: map<(int, int), int>, chain: int)
    requires Distinct(due) && due != [] && Unstamped(stamps, chain, due)
    ensures var plan := ExaminationPass(due, s.table.marks, now, ReadPassRecord(s.table.record));
      plan.pending != [] && Distinct(plan.pending) && Unstamped(stamps, chain, plan.pending)
  {
    var record := ReadPassRecord(s.table.record);
    if record.Open? {
      var pending := Unexamined(due, s.table.marks, record.lap);
      UnexaminedIsExact(due, s.table.marks, record.lap);
      forall i | 0 <= i < |pending| ensures !Stamped(stamps, (chain, pending[i].id), pending[i].checkpoint) {
        assert pending[i] in due;
      }
    }
  }

  lemma CandidatesUnstamped(c: Clock, chain: int, stamps: map<(int, int), int>, rows: seq<Row>, due: seq<Due>)
    requires forall d :: d in due <==> exists i :: 0 <= i < |rows| && IsCandidate(c, chain, stamps, rows[i]) && d == DueOf(c, rows[i])
    ensures Unstamped(stamps, chain, due)
  {
    forall i | 0 <= i < |due| ensures !Stamped(stamps, (chain, due[i].id), due[i].checkpoint) {
      assert due[i] in due;
    }
  }

  method AnyOpening() returns (o: Opening) {
    o := *;
  }

  method AnyTable() returns (table: map<int, Row>) {
    table := *;
  }

  /** The candidate query: any rows, one a loan. */
  method ReadRows() returns (rows: seq<Row>)
    ensures DistinctRows(rows)
  {
    var table := AnyTable();
    var ids := InOrder(table.Keys);
    rows := seq(|ids|, i requires 0 <= i < |ids| => table[ids[i]].(id := ids[i]));
  }

  /** The lane's variables are what the writes so far make them. */
  ghost predicate Progressed(s: State, plan: Plan, now: int, ws: seq<Write>, p: Progress) {
    && Honest(ws) && Total(ws) == p.cursor <= |plan.pending| && (forall i :: 0 <= i < |ws| ==> ws[i].count > 0)
    && p == AfterBatches(s, plan, now, ws)
  }

  lemma MoreWrites(s: State, plan: Plan, now: int, ws: seq<Write>, p: Progress, w: Write)
    requires Progressed(s, plan, now, ws, p) && p.cursor + w.count <= |plan.pending|
    requires w.count > 0 && (w.reported ==> w.landed)
    ensures Progressed(s, plan, now, ws + [w], AfterBatch(p, plan, now, w))
  {
    assert (ws + [w])[..|ws|] == ws;
  }

  /** The stamp column is what the visits left, and no visit broke its rule. */
  ghost predicate Books(stamps: map<(int, int), int>, visits: seq<Visit>) {
    LegalVisits(visits) && forall loan :: LastStamp(visits, loan).Some? ==> Stamped(stamps, loan, LastStamp(visits, loan).value)
  }

  /** What one visit is charged: each party asked, and the stamp it decides on. */
  function VisitCost(v: Visit): (c: nat)
    ensures c <= PER_LOAN
  {
    CostOf(v.rails, v.borrower)
    + (if LenderAsked(v) then CostOf(v.rails, v.lender) else 0)
    + (if LenderAsked(v) && !v.lender.lookup.LookupThrew?
          && StampDecision(OutcomeOf(v.rails, v.borrower), OutcomeOf(v.rails, v.lender)) then 1 else 0)
  }

  /** The loans of the batch that were eligible, in order. */
  function EligibleLoans(chain: int, batch: seq<Due>, verdicts: seq<Verdict>): seq<((int, int), int)>
    requires |verdicts| <= |batch|
    decreases |verdicts|
  {
    if verdicts == [] then []
    else
      var n := |verdicts| - 1;
      var rest := EligibleLoans(chain, batch, verdicts[..n]);
      if verdicts[n] == Eligible then rest + [((chain, batch[n].id), batch[n].checkpoint)] else rest
  }

  function LoansOf(visits: seq<Visit>): (r: seq<((int, int), int)>)
    ensures |r| == |visits|
  {
    seq(|visits|, i requires 0 <= i < |visits| => (visits[i].loan, visits[i].checkpoint))
  }

  /** The visits added are those of the eligible loans so far, in order. */
  ghost predicate Messaged(was: seq<Visit>, now: seq<Visit>, chain: int, batch: seq<Due>, verdicts: seq<Verdict>) {
    && |verdicts| <= |batch| && was <= now
    && LoansOf(now[|was|..]) == EligibleLoans(chain, batch, verdicts)
  }

  lemma MessagedMore(start: seq<Visit>, was: seq<Visit>, now: seq<Visit>, chain: int, batch: seq<Due>,
                     verdicts: seq<Verdict>, verdict: Verdict)
    requires |verdicts| < |batch| && Messaged(start, was, chain, batch, verdicts)
    requires if verdict == Eligible
      then OneVisit(was, now, (chain, batch[|verdicts|].id), batch[|verdicts|].checkpoint, false)
      else now == was
    ensures Messaged(start, now, chain, batch, verdicts + [verdict])
  {
    assert (verdicts + [verdict])[..|verdicts|] == verdicts;
    if verdict == Eligible {
      assert now == was + [now[|was|]];
      assert now[|start|..] == was[|start|..] + [now[|was|]];
    }
  }

  /** One visit was added; it threw when a row could not be read. */
  ghost predicate OneVisit(was: seq<Visit>, now: seq<Visit>, loan: (int, int), checkpoint: int, threw: bool) {
    && |now| == |was| + 1 && now[..|was|] == was
    && now[|was|].loan == loan && now[|was|].checkpoint == checkpoint
    && (threw <==> !LenderAsked(now[|was|]) || now[|was|].lender.lookup.LookupThrew?)
  }

  /** One more visit moves the stamp of its own loan only. */
  lemma BookVisit(stamps: map<(int, int), int>, h: seq<Visit>, v: Visit)
    requires Books(stamps, h) && !Stamped(stamps, v.loan, v.checkpoint)
    ensures Books(if Stamps(v) then stamps[v.loan := v.checkpoint] else stamps, h + [v])
  {
    LegalMore(h, v);
    assert (h + [v])[..|h|] == h;
  }

  predicate Unstamped(stamps: map<(int, int), int>, chain: int, due: seq<Due>) {
    forall i :: 0 <= i < |due| ==> !Stamped(stamps, (chain, due[i].id), due[i].checkpoint)
  }

  /** No stamp but those of these loans has changed. */
  ghost predicate OnlyStamped(was: map<(int, int), int>, now: map<(int, int), int>, chain: int, due: seq<Due>) {
    forall loan: (int, int) :: (loan.0 != chain || NotAmong(due, loan.1)) ==>
      (loan in now <==> loan in was) && (loan in now ==> now[loan] == was[loan])
  }

  lemma StillUnstamped(was: map<(int, int), int>, now: map<(int, int), int>, chain: int, batch: seq<Due>, n: nat)
    requires n < |batch| && Distinct(batch) && Unstamped(was, chain, batch[n..])
    requires now == was || now == was[(chain, batch[n].id) := batch[n].checkpoint]
    ensures Unstamped(now, chain, batch[n + 1..])
    ensures forall loan: (int, int) :: loan.0 != chain || NotAmong(batch, loan.1) ==> loan != (chain, batch[n].id)
  {
    var left := batch[n + 1..];
    forall i | 0 <= i < |left| ensures !Stamped(now, (chain, left[i].id), left[i].checkpoint) {
      assert left[i] == batch[n..][i + 1];
    }
  }

  lemma BatchUnstamped(stamps: map<(int, int), int>, chain: int, due: seq<Due>, from: nat, size: nat)
    requires from + size <= |due| && Unstamped(stamps, chain, due[from..])
    ensures Unstamped(stamps, chain, due[from..from + size])
  {
    forall i | 0 <= i < size ensures due[from..from + size][i] == due[from..][i] {}
  }

  lemma RestUnstamped(was: map<(int, int), int>, now: map<(int, int), int>, chain: int, due: seq<Due>,
                      from: nat, size: nat, consumed: nat)
    requires from + size <= |due| && consumed <= size && Distinct(due)
    requires Unstamped(was, chain, due[from..]) && OnlyStamped(was, now, chain, due[from..from + size])
    requires Unstamped(now, chain, due[from..from + size][consumed..])
    ensures Unstamped(now, chain, due[from + consumed..])
  {
    forall i | from + consumed <= i < |due| ensures !Stamped(now, (chain, due[i].id), due[i].checkpoint) {
      if i < from + size {
        assert due[from..from + size][consumed..][i - from - consumed] == due[i];
      } else {
        assert due[from..][i - from] == due[i];
        assert NotAmong(due[from..from + size], due[i].id);
      }
    }
  }
}
