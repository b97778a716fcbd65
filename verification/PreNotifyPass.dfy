/** Which loans a tick of the pre-notify lane examines, and the record of the
    pass they belong to. A tick's writes are D1 batches: each lands whole or not
    at all, and one that is reported as failed may still have landed. */
module PreNotifyPass {
  import opened Wrappers

  /** A stored number: the column may be null or hold something else. */
  datatype Cell = Null | Num(v: int) | Junk

  datatype Mark = Mark(lap: Cell, checkpoint: Cell)

  datatype PassRow = PassRow(lap: Cell, startedAt: Cell, completedAt: Cell)

  datatype PassRecord =
    | NoPass
    | Unreadable
    | Open(lap: int, startedAt: int)
    | Closed(lap: int, startedAt: int)

  /** A loan in the window: the unmoved end of its period names the reminder. */
  datatype Due = Due(id: int, checkpoint: int, secsUntil: int)

  const SAFE := 9007199254740991

  predicate IsMarkNumber(v: int) { 0 <= v <= SAFE }

  predicate Whole(c: Cell) { c.Num? && IsMarkNumber(c.v) }

  function ReadPassRecord(row: Option<PassRow>): PassRecord {
    if row.None? then NoPass
    else
      var r := row.value;
      if !Whole(r.lap) || r.lap.v == 0 || !Whole(r.startedAt) || (r.completedAt != Null && !Whole(r.completedAt))
      then Unreadable
      else if r.completedAt == Null then Open(r.lap.v, r.startedAt.v)
      else Closed(r.lap.v, r.startedAt.v)
  }

  /** `Number` of a stored mark: null counts as zero, junk as not a number. */
  function NumberOf(c: Cell): Option<int> {
    match c case Null => Some(0) case Num(v) => if IsMarkNumber(v) then Some(v) else None case Junk => None
  }

  function MarkOf(marks: map<int, Mark>, id: int): Mark {
    if id in marks then marks[id] else Mark(Num(0), Num(0))
  }

  predicate Malformed(m: Mark) { NumberOf(m.lap).None? || NumberOf(m.checkpoint).None? }

  /** The pass that last examined the loan for the period now due, or 0. */
  function LapOf(marks: map<int, Mark>, d: Due): int {
    var m := MarkOf(marks, d.id);
    if Malformed(m) || NumberOf(m.checkpoint) != Some(d.checkpoint) then 0 else NumberOf(m.lap).value
  }

  datatype Plan = Plan(lap: int, begins: bool, pending: seq<Due>, alreadyExamined: nat, timed: (int, int),
                       malformed: nat, unreadable: bool)

  function Unexamined(due: seq<Due>, marks: map<int, Mark>, lap: int): (r: seq<Due>)
    ensures |r| <= |due|
  {
    if due == [] then []
    else if LapOf(marks, due[0]) != lap then [due[0]] + Unexamined(due[1..], marks, lap)
    else Unexamined(due[1..], marks, lap)
  }

  function HighestLap(due: seq<Due>, marks: map<int, Mark>, floor: int): int {
    if due == [] then floor
    else
      var rest := HighestLap(due[..|due| - 1], marks, floor);
      var lap := LapOf(marks, due[|due| - 1]);
      if lap > rest then lap else rest
  }

  function MalformedMarks(due: seq<Due>, marks: map<int, Mark>): nat {
    if due == [] then 0
    else (if Malformed(MarkOf(marks, due[0].id)) then 1 else 0) + MalformedMarks(due[1..], marks)
  }

  function ExaminationPass(due: seq<Due>, marks: map<int, Mark>, now: int, record: PassRecord): Plan {
    var malformed := MalformedMarks(due, marks);
    var pending := if record.Open? then Unexamined(due, marks, record.lap) else [];
    if !record.Open? || pending == [] then
      var recordLap := if record.Open? || record.Closed? then record.lap else 0;
      var lap := HighestLap(due, marks, recordLap) + 1;
      Plan(lap, true, due, 0, if record.Open? then (record.lap, record.startedAt) else (lap, now), malformed,
           record.Unreadable?)
    else
      Plan(record.lap, false, pending, |due| - |pending|, (record.lap, record.startedAt), malformed, record.Unreadable?)
  }

  // ------------------------------------------------------------- writes

  datatype Table = Table(marks: map<int, Mark>, record: Option<PassRow>)

  datatype Event = Began(lap: int) | Marked(lap: int, id: int, checkpoint: int) | Completed(lap: int)

  /** The tables of one chain, and every committed write so far, in order. */
  datatype State = State(table: Table, log: seq<Event>)

  function Begin(s: State, lap: int, now: int): State {
    State(s.table.(record := Some(PassRow(Num(lap), Num(now), Null))), s.log + [Began(lap)])
  }

  /** Mark one loan as examined in pass `lap`; a batch does it for each. */
  function MarkAll(s: State, examined: seq<Due>, lap: int): State
    decreases |examined|
  {
    if examined == [] then s
    else
      var d := examined[|examined| - 1];
      var t := MarkAll(s, examined[..|examined| - 1], lap);
      State(t.table.(marks := t.table.marks[d.id := Mark(Num(lap), Num(d.checkpoint))]),
            t.log + [Marked(lap, d.id, d.checkpoint)])
  }

  /** Close the pass, if it is the recorded one and still open. */
  function Complete(s: State, lap: int, now: int): State {
    if s.table.record.Some? && s.table.record.value.lap == Num(lap) && s.table.record.value.completedAt == Null
    then State(s.table.(record := Some(s.table.record.value.(completedAt := Num(now)))), s.log + [Completed(lap)])
    else s
  }

  function MarkBatch(s: State, examined: seq<Due>, lap: int, begins: bool, completes: bool, now: int): State {
    var s1 := if begins then Begin(s, lap, now) else s;
    var s2 := MarkAll(s1, examined, lap);
    if completes then Complete(s2, lap, now) else s2
  }

  /** What became of one batch's write: how many loans the batch examined,
      whether the write landed, and whether the lane was told so. */
  datatype Write = Write(count: nat, landed: bool, reported: bool)

  /** The lane's own variables between batches. */
  datatype Progress = Progress(state: State, cursor: nat, recorded: bool, unmarked: nat)

  function AfterBatch(p: Progress, plan: Plan, now: int, w: Write): Progress
    requires p.cursor + w.count <= |plan.pending|
  {
    if w.count == 0 then p
    else
      var examined := plan.pending[p.cursor..p.cursor + w.count];
      var completes := p.cursor + w.count >= |plan.pending| && p.unmarked == 0;
      var next := if w.landed then MarkBatch(p.state, examined, plan.lap, !p.recorded, completes, now) else p.state;
      Progress(next, p.cursor + w.count, p.recorded || w.reported, if w.reported then p.unmarked else p.unmarked + 1)
  }

  function Total(ws: seq<Write>): nat { if ws == [] then 0 else Total(ws[..|ws| - 1]) + ws[|ws| - 1].count }

  /** A write reported as landed did land. */
  predicate Honest(ws: seq<Write>) { forall i :: 0 <= i < |ws| ==> (ws[i].reported ==> ws[i].landed) }

  function AfterBatches(s: State, plan: Plan, now: int, ws: seq<Write>): (r: Progress)
    requires Total(ws) <= |plan.pending|
    ensures r.cursor == Total(ws)
    decreases |ws|
  {
    if ws == [] then Progress(s, 0, !plan.begins, 0)
    else AfterBatch(AfterBatches(s, plan, now, ws[..|ws| - 1]), plan, now, ws[|ws| - 1])
  }

  /** One tick on one chain that reached its candidates. */
  datatype Tick = Tick(due: seq<Due>, now: int, writes: seq<Write>)

  predicate Distinct(due: seq<Due>) { forall i, j :: 0 <= i < j < |due| ==> due[i].id != due[j].id }

  function PlanOf(s: State, k: Tick): Plan {
    ExaminationPass(k.due, s.table.marks, k.now, ReadPassRecord(s.table.record))
  }

  predicate Legal(s: State, k: Tick) {
    && Distinct(k.due) && IsMarkNumber(k.now) && Honest(k.writes)
    && Total(k.writes) <= |PlanOf(s, k).pending|
  }

  /** An empty window ends an open pass, or removes an unreadable record. */
  function IdleTick(s: State, now: int, landed: bool): State {
    match ReadPassRecord(s.table.record)
    case Open(lap, _) => if landed then Complete(s, lap, now) else s
    case Unreadable => if landed then s.(table := s.table.(record := None)) else s
    case _ => s
  }

  function AfterTick(s: State, k: Tick): State
    requires Legal(s, k)
  {
    if k.due == [] then IdleTick(s, k.now, k.writes != [] && k.writes[0].landed)
    else AfterBatches(s, PlanOf(s, k), k.now, k.writes).state
  }

  // ---------------------------------------------------------- invariant

  /** The record is readable, no mark is above it, and the log accounts for
      both: every mark was written after its own pass began, and the passes
      began in order, the recorded one last. */
  ghost predicate Inv(s: State) {
    && (forall id | id in s.table.marks :: Accounted(s, id, s.table.marks[id]))
    && BegunInOrder(s.log, RecordedLap(s))
    && (RecordedLap(s) > 0 ==> BegunBefore(s.log, |s.log|, RecordedLap(s)))
    && RecordReadable(s)
  }

  function RecordedLap(s: State): int {
    if s.table.record.Some? && s.table.record.value.lap.Num? then s.table.record.value.lap.v else 0
  }

  /** Readable unless the number of passes is beyond what a number can hold. */
  predicate RecordReadable(s: State) {
    s.table.record.Some? ==>
      && var r := s.table.record.value;
        r.lap.Num? && r.lap.v > 0 && Whole(r.startedAt) && (r.completedAt == Null || Whole(r.completedAt))
  }

  ghost predicate Accounted(s: State, id: int, m: Mark) {
    && m.lap.Num? && m.checkpoint.Num? && 0 <= m.lap.v <= RecordedLap(s)
    && (m.lap.v > 0 ==> MarkedIn(s.log, m.lap.v, id, m.checkpoint.v))
  }

  ghost predicate BegunBefore(log: seq<Event>, j: nat, lap: int) {
    exists i :: 0 <= i < j && i < |log| && log[i] == Began(lap)
  }

  /** The loan's mark for this period was written after pass `lap` began. */
  ghost predicate MarkedIn(log: seq<Event>, lap: int, id: int, checkpoint: int) {
    exists j :: 0 <= j < |log| && log[j] == Marked(lap, id, checkpoint) && BegunBefore(log, j, lap)
  }

  ghost predicate BegunInOrder(log: seq<Event>, last: int) {
    && (forall i :: 0 <= i < |log| && log[i].Began? ==> log[i].lap <= last)
    && (forall i, j :: 0 <= i < j < |log| && log[i].Began? && log[j].Began? ==> log[i].lap <= log[j].lap)
  }

  lemma LogLasts(log: seq<Event>, e: Event, lap: int, id: int, checkpoint: int)
    requires MarkedIn(log, lap, id, checkpoint)
    ensures MarkedIn(log + [e], lap, id, checkpoint)
  {
    var j :| 0 <= j < |log| && log[j] == Marked(lap, id, checkpoint) && BegunBefore(log, j, lap);
    var i :| 0 <= i < j && log[i] == Began(lap);
    assert (log + [e])[i] == Began(lap) && (log + [e])[j] == log[j];
    assert BegunBefore(log + [e], j, lap);
  }

  lemma BegunLasts(log: seq<Event>, e: Event, lap: int)
    requires BegunBefore(log, |log|, lap)
    ensures BegunBefore(log + [e], |log|, lap) && BegunBefore(log + [e], |log| + 1, lap)
  {
    var i :| 0 <= i < |log| && log[i] == Began(lap);
    assert (log + [e])[i] == Began(lap);
  }

  lemma BeginKeepsInv(s: State, lap: int, now: int)
    requires Inv(s) && lap >= RecordedLap(s) && lap > 0 && IsMarkNumber(now)
    ensures Inv(Begin(s, lap, now))
  {
    var t := Begin(s, lap, now);
    forall id | id in t.table.marks ensures Accounted(t, id, t.table.marks[id]) {
      var m := s.table.marks[id];
      assert Accounted(s, id, m);
      if m.lap.v > 0 { LogLasts(s.log, Began(lap), m.lap.v, id, m.checkpoint.v); }
    }
    assert t.log[|s.log|] == Began(lap);
  }

  lemma {:induction false} MarkKeepsInv(s: State, examined: seq<Due>, lap: int)
    requires Inv(s) && lap == RecordedLap(s) > 0
    ensures Inv(MarkAll(s, examined, lap))
    ensures MarkAll(s, examined, lap).table.record == s.table.record
    decreases |examined|
  {
    if examined != [] {
      var d := examined[|examined| - 1];
      var u := MarkAll(s, examined[..|examined| - 1], lap);
      MarkKeepsInv(s, examined[..|examined| - 1], lap);
      var e := Marked(lap, d.id, d.checkpoint);
      var t := MarkAll(s, examined, lap);
      BegunLasts(u.log, e, lap);
      assert t.log == u.log + [e] && t.log[|u.log|] == e;
      forall id | id in t.table.marks ensures Accounted(t, id, t.table.marks[id]) {
        if id == d.id {
          assert MarkedIn(t.log, lap, id, d.checkpoint);
        } else {
          var m := u.table.marks[id];
          assert Accounted(u, id, m);
          if m.lap.v > 0 { LogLasts(u.log, e, m.lap.v, id, m.checkpoint.v); }
        }
      }
    }
  }

  lemma CompleteKeepsInv(s: State, lap: int, now: int)
    requires Inv(s) && IsMarkNumber(now)
    ensures Inv(Complete(s, lap, now))
  {
    var t := Complete(s, lap, now);
    if t != s {
      BegunLasts(s.log, Completed(lap), lap);
      forall id | id in t.table.marks ensures Accounted(t, id, t.table.marks[id]) {
        var m := s.table.marks[id];
        assert Accounted(s, id, m);
        if m.lap.v > 0 { LogLasts(s.log, Completed(lap), m.lap.v, id, m.checkpoint.v); }
      }
    }
  }

  // ---------------------------------------------------------- every tick

  lemma {:induction false} HighestIsBounded(s: State, due: seq<Due>, floor: int)
    requires Inv(s) && 0 <= RecordedLap(s) <= floor
    ensures HighestLap(due, s.table.marks, floor) == floor
    decreases |due|
  {
    if due != [] {
      HighestIsBounded(s, due[..|due| - 1], floor);
      LapIsBounded(s, due[|due| - 1]);
    }
  }

  lemma LapIsBounded(s: State, d: Due)
    requires Inv(s)
    ensures LapOf(s.table.marks, d) <= RecordedLap(s)
  {
    if d.id in s.table.marks { assert Accounted(s, d.id, s.table.marks[d.id]); }
  }

  lemma {:induction false} UnexaminedIsExact(due: seq<Due>, marks: map<int, Mark>, lap: int)
    ensures forall d :: d in Unexamined(due, marks, lap) <==> d in due && LapOf(marks, d) != lap
    ensures Distinct(due) ==> Distinct(Unexamined(due, marks, lap))
  {
    if due != [] {
      var rest := Unexamined(due[1..], marks, lap);
      UnexaminedIsExact(due[1..], marks, lap);
      if Distinct(due) {
        forall d | d in rest ensures d.id != due[0].id {
          var i :| 0 <= i < |due[1..]| && due[1..][i] == d;
          assert due[i + 1] == d;
        }
      }
    }
  }

  /** A pass is the recorded one, or the next number. */
  lemma PlanIsNext(s: State, k: Tick)
    requires Inv(s) && RecordedLap(s) <= SAFE
    ensures PlanOf(s, k).lap == if PlanOf(s, k).begins then RecordedLap(s) + 1 else RecordedLap(s)
    ensures !PlanOf(s, k).begins ==> ReadPassRecord(s.table.record).Open?
    ensures !PlanOf(s, k).unreadable
  {
    HighestIsBounded(s, k.due, RecordedLap(s));
  }

  lemma BatchKeepsInv(p: Progress, plan: Plan, now: int, w: Write)
    requires Inv(p.state) && IsMarkNumber(now) && (w.reported ==> w.landed)
    requires p.cursor + w.count <= |plan.pending| && plan.lap > 0
    requires RecordedLap(p.state) <= plan.lap && (p.recorded ==> RecordedLap(p.state) == plan.lap)
    ensures var q := AfterBatch(p, plan, now, w);
      Inv(q.state) && RecordedLap(q.state) <= plan.lap && (q.recorded ==> RecordedLap(q.state) == plan.lap)
  {
    if w.count > 0 && w.landed {
      var examined := plan.pending[p.cursor..p.cursor + w.count];
      if !p.recorded { BeginKeepsInv(p.state, plan.lap, now); }
      var s1 := if !p.recorded then Begin(p.state, plan.lap, now) else p.state;
      MarkKeepsInv(s1, examined, plan.lap);
      CompleteKeepsInv(MarkAll(s1, examined, plan.lap), plan.lap, now);
    }
  }

  lemma {:induction false} BatchesKeepInv(s: State, plan: Plan, now: int, ws: seq<Write>)
    requires Inv(s) && IsMarkNumber(now) && Honest(ws) && Total(ws) <= |plan.pending| && plan.lap > 0
    requires RecordedLap(s) <= plan.lap && (!plan.begins ==> RecordedLap(s) == plan.lap)
    ensures var p := AfterBatches(s, plan, now, ws);
      Inv(p.state) && RecordedLap(p.state) <= plan.lap && (p.recorded ==> RecordedLap(p.state) == plan.lap)
    decreases |ws|
  {
    if ws != [] {
      var init := ws[..|ws| - 1];
      BatchesKeepInv(s, plan, now, init);
      BatchKeepsInv(AfterBatches(s, plan, now, init), plan, now, ws[|ws| - 1]);
    }
  }

  /** Every tick, whatever of its writes lands, keeps every stored mark at most
      the recorded pass, and the record moves by at most one. */
  lemma TickKeepsInv(s: State, k: Tick)
    requires Inv(s) && RecordedLap(s) <= SAFE && Legal(s, k)
    ensures Inv(AfterTick(s, k)) && RecordedLap(AfterTick(s, k)) <= RecordedLap(s) + 1
  {
    PlanIsNext(s, k);
    if k.due == [] {
      CompleteKeepsInv(s, RecordedLap(s), k.now);
    } else {
      BatchesKeepInv(s, PlanOf(s, k), k.now, k.writes);
    }
  }

  /** Between ticks a loan's row may be removed, and inserted anew, unmarked. */
  function Forget(s: State, gone: set<int>): State { s.(table := s.table.(marks := s.table.marks - gone)) }

  lemma ForgetKeepsInv(s: State, gone: set<int>)
    requires Inv(s)
    ensures Inv(Forget(s, gone)) && RecordedLap(Forget(s, gone)) == RecordedLap(s)
  {
    forall id | id in Forget(s, gone).table.marks
      ensures Accounted(Forget(s, gone), id, s.table.marks[id])
    {
      assert Accounted(s, id, s.table.marks[id]);
    }
  }

  function RunTicks(s: State, ks: seq<(set<int>, Tick)>): State
    decreases |ks|
  {
    if ks == [] then s
    else
      var u := Forget(RunTicks(s, ks[..|ks| - 1]), ks[|ks| - 1].0);
      if Legal(u, ks[|ks| - 1].1) then AfterTick(u, ks[|ks| - 1].1) else u
  }

  predicate Fresh(s: State) { s.table.marks == map[] && s.table.record == None && s.log == [] }

  /** From no marks and no record, over any ticks and any failed writes. */
  lemma {:induction false} EveryRunKeepsInv(s: State, ks: seq<(set<int>, Tick)>)
    requires Fresh(s) && |ks| <= SAFE
    ensures Inv(RunTicks(s, ks)) && RecordedLap(RunTicks(s, ks)) <= |ks|
    decreases |ks|
  {
    if ks != [] {
      var u := RunTicks(s, ks[..|ks| - 1]);
      var (gone, k) := ks[|ks| - 1];
      EveryRunKeepsInv(s, ks[..|ks| - 1]);
      ForgetKeepsInv(u, gone);
      if Legal(Forget(u, gone), k) { TickKeepsInv(Forget(u, gone), k); }
    }
  }

  // ------------------------------------------------------------ no skip

  predicate Carries(s: State, d: Due, lap: int) {
    MarkOf(s.table.marks, d.id) == Mark(Num(lap), Num(d.checkpoint))
  }

  /** Pass `lap` began, then the loan was marked in it for this period, and no
      other pass has begun since. */
  ghost predicate ExaminedInPass(log: seq<Event>, lap: int, d: Due) {
    exists i, j :: 0 <= i < j < |log| && log[i] == Began(lap) && log[j] == Marked(lap, d.id, d.checkpoint)
      && SamePassSince(log, i, lap)
  }

  predicate SamePassSince(log: seq<Event>, i: nat, lap: int) {
    forall k :: i <= k < |log| && log[k].Began? ==> log[k].lap == lap
  }

  /** A due loan is left out of a tick exactly when the open pass's own mark
      covers its current period, and that mark was committed in this pass. */
  lemma LeftOutWasExamined(s: State, k: Tick, d: Due)
    requires Inv(s) && RecordedLap(s) <= SAFE && d in k.due && IsMarkNumber(d.checkpoint)
    ensures d !in PlanOf(s, k).pending <==> !PlanOf(s, k).begins && Carries(s, d, PlanOf(s, k).lap)
    ensures d !in PlanOf(s, k).pending ==> ExaminedInPass(s.log, PlanOf(s, k).lap, d)
  {
    PlanIsNext(s, k);
    var plan := PlanOf(s, k);
    UnexaminedIsExact(k.due, s.table.marks, RecordedLap(s));
    if d.id in s.table.marks { assert Accounted(s, d.id, s.table.marks[d.id]); }
    if d !in plan.pending {
      assert MarkedIn(s.log, plan.lap, d.id, d.checkpoint);
      var j :| 0 <= j < |s.log| && s.log[j] == Marked(plan.lap, d.id, d.checkpoint) && BegunBefore(s.log, j, plan.lap);
      var i :| 0 <= i < j && s.log[i] == Began(plan.lap);
      assert SamePassSince(s.log, i, plan.lap);
    }
  }

  /** No loan is skipped: after any ticks and any failed writes, from no marks
      and no record, every stored mark is at most the recorded pass, and a due
      loan the next tick leaves out was examined in this very pass. */
  lemma NoSkippedLoan(s: State, ks: seq<(set<int>, Tick)>, k: Tick, d: Due)
    requires Fresh(s) && |ks| <= SAFE && d in k.due && IsMarkNumber(d.checkpoint)
    ensures var u := RunTicks(s, ks);
      && (forall id | id in u.table.marks :: Accounted(u, id, u.table.marks[id]))
      && (d !in PlanOf(u, k).pending ==> ExaminedInPass(u.log, PlanOf(u, k).lap, d))
  {
    EveryRunKeepsInv(s, ks);
    LeftOutWasExamined(RunTicks(s, ks), k, d);
  }

  // ------------------------------------------------------------- closing

  predicate AllCarry(s: State, due: seq<Due>, lap: int) {
    forall i :: 0 <= i < |due| ==> Carries(s, due[i], lap)
  }

  lemma {:induction false} MarkAllMarks(s: State, examined: seq<Due>, lap: int)
    requires Distinct(examined)
    ensures AllCarry(MarkAll(s, examined, lap), examined, lap)
    ensures forall id | (forall i :: 0 <= i < |examined| ==> examined[i].id != id) ::
      MarkOf(MarkAll(s, examined, lap).table.marks, id) == MarkOf(s.table.marks, id)
    ensures MarkAll(s, examined, lap).table.record == s.table.record
    ensures |MarkAll(s, examined, lap).log| >= |s.log|
    ensures forall j :: |s.log| <= j < |MarkAll(s, examined, lap).log| ==> !MarkAll(s, examined, lap).log[j].Completed?
    ensures s.log <= MarkAll(s, examined, lap).log
    decreases |examined|
  {
    if examined != [] {
      MarkAllMarks(s, examined[..|examined| - 1], lap);
    }
  }

  /** No completion has been written after the first `from` log entries. */
  predicate StillRunning(s: State, from: nat) {
    forall j :: from <= j < |s.log| ==> !s.log[j].Completed?
  }

  /** What holds of the writes of a tick so far, from state `s`. */
  ghost predicate Closing(s: State, plan: Plan, p: Progress) {
    && p.cursor <= |plan.pending| && s.log <= p.state.log
    && (p.unmarked == 0 ==> AllCarry(p.state, plan.pending[..p.cursor], plan.lap))
    && (!StillRunning(p.state, |s.log|) ==> p.cursor == |plan.pending| && AllCarry(p.state, plan.pending, plan.lap))
    && (forall id | NotAmong(plan.pending[..p.cursor], id) ::
          MarkOf(p.state.table.marks, id) == MarkOf(s.table.marks, id))
  }

  predicate NotAmong(due: seq<Due>, id: int) { forall i :: 0 <= i < |due| ==> due[i].id != id }

  lemma BatchMarks(s: State, examined: seq<Due>, lap: int, begins: bool, completes: bool, now: int)
    requires Distinct(examined)
    ensures var t := MarkBatch(s, examined, lap, begins, completes, now);
      && AllCarry(t, examined, lap) && s.log <= t.log
      && (!completes ==> StillRunning(t, |s.log|))
      && (forall id | NotAmong(examined, id) ::
            MarkOf(t.table.marks, id) == MarkOf(s.table.marks, id))
  {
    MarkAllMarks(if begins then Begin(s, lap, now) else s, examined, lap);
  }

  lemma ClosingStep(s: State, plan: Plan, p: Progress, now: int, w: Write)
    requires Distinct(plan.pending) && Closing(s, plan, p)
    requires p.cursor + w.count <= |plan.pending| && (w.reported ==> w.landed)
    ensures Closing(s, plan, AfterBatch(p, plan, now, w))
  {
    if w.count > 0 {
      var c := p.cursor;
      assert StillRunning(p.state, |s.log|);
      var completes := c + w.count >= |plan.pending| && p.unmarked == 0;
      if w.landed {
        BatchMarks(p.state, plan.pending[c..c + w.count], plan.lap, !p.recorded, completes, now);
        var t := MarkBatch(p.state, plan.pending[c..c + w.count], plan.lap, !p.recorded, completes, now);
        PrefixCarries(p.state, t, plan, c, w.count, true);
        LandedStep(s, t, plan, p, w, completes);
      } else {
        LostStep(s, plan, p, w);
      }
    }
  }

  lemma LostStep(s: State, plan: Plan, p: Progress, w: Write)
    requires Closing(s, plan, p) && w.count > 0 && p.cursor + w.count <= |plan.pending| && StillRunning(p.state, |s.log|)
    ensures Closing(s, plan, Progress(p.state, p.cursor + w.count, p.recorded, p.unmarked + 1))
  {
    forall id | NotAmong(plan.pending[..p.cursor + w.count], id) ensures NotAmong(plan.pending[..p.cursor], id) {
      NotAmongParts(plan.pending, p.cursor, w.count, id);
    }
  }

  lemma LandedStep(s: State, t: State, plan: Plan, p: Progress, w: Write, completes: bool)
    requires Closing(s, plan, p) && w.count > 0 && p.cursor + w.count <= |plan.pending| && StillRunning(p.state, |s.log|)
    requires completes == (p.cursor + w.count >= |plan.pending| && p.unmarked == 0)
    requires p.state.log <= t.log && (!completes ==> StillRunning(t, |p.state.log|))
    requires p.unmarked == 0 ==> AllCarry(t, plan.pending[..p.cursor + w.count], plan.lap)
    requires forall id | NotAmong(plan.pending[p.cursor..p.cursor + w.count], id) ::
      MarkOf(t.table.marks, id) == MarkOf(p.state.table.marks, id)
    ensures Closing(s, plan, Progress(t, p.cursor + w.count, p.recorded || w.reported,
                                      if w.reported then p.unmarked else p.unmarked + 1))
  {
    var n := p.cursor + w.count;
    forall id | NotAmong(plan.pending[..n], id)
      ensures MarkOf(t.table.marks, id) == MarkOf(s.table.marks, id)
    {
      NotAmongParts(plan.pending, p.cursor, w.count, id);
    }
    if completes { assert plan.pending[..n] == plan.pending; }
    else {
      forall j | |s.log| <= j < |t.log| ensures !t.log[j].Completed? {
        if j < |p.state.log| { assert t.log[j] == p.state.log[j]; }
      }
    }
  }

  lemma NotAmongParts(due: seq<Due>, c: nat, n: nat, id: int)
    requires c + n <= |due| && NotAmong(due[..c + n], id)
    ensures NotAmong(due[..c], id) && NotAmong(due[c..c + n], id)
  {
    var first, next, both := due[..c], due[c..c + n], due[..c + n];
    forall j | 0 <= j < n ensures next[j].id != id { assert next[j] == both[c + j]; }
    forall j | 0 <= j < c ensures first[j].id != id { assert first[j] == both[j]; }
  }

  /** A batch that lands marks its own loans and leaves the earlier ones. */
  lemma PrefixCarries(s: State, t: State, plan: Plan, c: nat, n: nat, landed: bool)
    requires Distinct(plan.pending) && c + n <= |plan.pending|
    requires landed ==> AllCarry(t, plan.pending[c..c + n], plan.lap)
    requires forall id | NotAmong(plan.pending[c..c + n], id) :: MarkOf(t.table.marks, id) == MarkOf(s.table.marks, id)
    ensures landed && AllCarry(s, plan.pending[..c], plan.lap) ==> AllCarry(t, plan.pending[..c + n], plan.lap)
  {
    if landed && AllCarry(s, plan.pending[..c], plan.lap) {
      forall i | 0 <= i < c + n ensures Carries(t, plan.pending[i], plan.lap) {
        if i < c {
          assert plan.pending[..c][i] == plan.pending[i];
          assert NotAmong(plan.pending[c..c + n], plan.pending[i].id);
        } else {
          assert plan.pending[c..c + n][i - c] == plan.pending[i];
        }
      }
    }
  }

  lemma {:induction false} ClosingHolds(s: State, plan: Plan, now: int, ws: seq<Write>)
    requires Distinct(plan.pending) && Honest(ws) && Total(ws) <= |plan.pending|
    ensures Closing(s, plan, AfterBatches(s, plan, now, ws))
    decreases |ws|
  {
    if ws != [] {
      ClosingHolds(s, plan, now, ws[..|ws| - 1]);
      ClosingStep(s, plan, AfterBatches(s, plan, now, ws[..|ws| - 1]), now, ws[|ws| - 1]);
    }
  }

  /** A pass closes only when every candidate of that tick carries its number
      for the period now due, whatever writes failed on the way. */
  lemma ClosesOnlyWhenDone(s: State, k: Tick)
    requires Inv(s) && RecordedLap(s) <= SAFE && Legal(s, k) && k.due != []
    ensures !StillRunning(AfterTick(s, k), |s.log|) ==> AllCarry(AfterTick(s, k), k.due, PlanOf(s, k).lap)
  {
    var plan, t := PlanOf(s, k), AfterTick(s, k);
    PlanIsNext(s, k);
    UnexaminedIsExact(k.due, s.table.marks, RecordedLap(s));
    ClosingHolds(s, plan, k.now, k.writes);
    if !StillRunning(t, |s.log|) {
      assert plan.pending[..|plan.pending|] == plan.pending;
      forall i | 0 <= i < |k.due| ensures Carries(t, k.due[i], plan.lap) {
        SkippedCarries(s, k, k.due[i]);
        CandidateCarries(s, t, k.due, plan.pending, plan.lap, k.due[i]);
      }
    }
  }

  lemma SkippedCarries(s: State, k: Tick, d: Due)
    requires Inv(s) && RecordedLap(s) <= SAFE && d in k.due
    ensures d in PlanOf(s, k).pending || Carries(s, d, PlanOf(s, k).lap)
  {
    PlanIsNext(s, k);
    UnexaminedIsExact(k.due, s.table.marks, RecordedLap(s));
    if d.id in s.table.marks { assert Accounted(s, d.id, s.table.marks[d.id]); }
  }

  lemma CandidateCarries(s: State, t: State, due: seq<Due>, pending: seq<Due>, lap: int, d: Due)
    requires Distinct(due) && d in due && (d in pending || Carries(s, d, lap)) && forall x | x in pending :: x in due
    requires AllCarry(t, pending, lap)
    requires forall id | NotAmong(pending, id) :: MarkOf(t.table.marks, id) == MarkOf(s.table.marks, id)
    ensures Carries(t, d, lap)
  {
    if d in pending {
      var i :| 0 <= i < |pending| && pending[i] == d;
    } else {
      forall i | 0 <= i < |pending| ensures pending[i].id != d.id { assert pending[i] in due; }
      assert NotAmong(pending, d.id);
    }
  }

  // ------------------------------------------------------------ progress

  /** A tick whose reads and writes all succeeded and that examined something. */
  predicate Succeeds(s: State, k: Tick) {
    && Legal(s, k) && k.due != [] && Total(k.writes) > 0
    && (forall i :: 0 <= i < |k.writes| ==> k.writes[i].landed && k.writes[i].reported && k.writes[i].count > 0)
    && (forall i :: 0 <= i < |k.due| ==> IsMarkNumber(k.due[i].checkpoint))
  }

  lemma {:induction false} GoodBatches(s: State, plan: Plan, now: int, ws: seq<Write>)
    requires Total(ws) <= |plan.pending| && IsMarkNumber(now)
    requires forall i :: 0 <= i < |ws| ==> ws[i].landed && ws[i].reported && ws[i].count > 0
    requires !plan.begins ==> RecordIs(s, plan.lap, Null)
    ensures var p := AfterBatches(s, plan, now, ws);
      && p.unmarked == 0 && (ws != [] ==> p.recorded)
      && (p.recorded ==> RecordIs(p.state, plan.lap, if ws != [] && p.cursor == |plan.pending| then Num(now) else Null))
    decreases |ws|
  {
    if ws != [] {
      var init := ws[..|ws| - 1];
      var p := AfterBatches(s, plan, now, init);
      GoodBatches(s, plan, now, init);
      var w := ws[|ws| - 1];
      MarkKeepsRecord(if !p.recorded then Begin(p.state, plan.lap, now) else p.state,
                      plan.pending[p.cursor..p.cursor + w.count], plan.lap);
    }
  }

  predicate RecordIs(s: State, lap: int, completedAt: Cell) {
    s.table.record.Some? && s.table.record.value.lap == Num(lap) && s.table.record.value.completedAt == completedAt
  }

  lemma {:induction false} MarkKeepsRecord(s: State, examined: seq<Due>, lap: int)
    ensures MarkAll(s, examined, lap).table.record == s.table.record
    decreases |examined|
  {
    if examined != [] { MarkKeepsRecord(s, examined[..|examined| - 1], lap); }
  }

  /** A successful tick closes its pass, or leaves it open with fewer loans of
      its window unexamined. */
  lemma TickProgress(s: State, k: Tick)
    requires Inv(s) && RecordedLap(s) < SAFE && Succeeds(s, k)
    ensures var plan, t := PlanOf(s, k), AfterTick(s, k);
      && 0 < Total(k.writes) <= |plan.pending| && AllCarry(t, plan.pending[..Total(k.writes)], plan.lap)
      && (forall id | NotAmong(plan.pending[..Total(k.writes)], id) ::
            MarkOf(t.table.marks, id) == MarkOf(s.table.marks, id))
      && Inv(t) && RecordedLap(t) == plan.lap
      && (if Total(k.writes) == |plan.pending| then ReadPassRecord(t.table.record).Closed?
          else ReadPassRecord(t.table.record).Open?)
  {
    var plan := PlanOf(s, k);
    PlanIsNext(s, k);
    UnexaminedIsExact(k.due, s.table.marks, RecordedLap(s));
    ClosingHolds(s, plan, k.now, k.writes);
    GoodBatches(s, plan, k.now, k.writes);
    TickKeepsInv(s, k);
  }

  predicate Has(due: seq<Due>, id: int, checkpoint: int) {
    exists i :: 0 <= i < |due| && due[i].id == id && due[i].checkpoint == checkpoint
  }

  /** No loan enters the window, and only examined ones may leave it. */
  predicate WindowKept(s: State, k: Tick, l: Tick) {
    && (forall i :: 0 <= i < |l.due| ==> Has(k.due, l.due[i].id, l.due[i].checkpoint))
    && var pending := PlanOf(s, k).pending;
      forall i :: Total(k.writes) <= i < |pending| ==> Has(l.due, pending[i].id, pending[i].checkpoint)
  }

  function Ids(due: seq<Due>): set<int> { set d | d in due :: d.id }

  lemma {:induction false} IdCount(due: seq<Due>)
    requires Distinct(due)
    ensures |Ids(due)| == |due|
  {
    if due != [] {
      var init, last := due[..|due| - 1], due[|due| - 1];
      IdCount(init);
      assert Ids(due) == Ids(init) + {last.id};
    }
  }

  lemma StillPending(s: State, k: Tick, l: Tick, d: Due)
    requires Inv(s) && RecordedLap(s) < SAFE && Succeeds(s, k) && WindowKept(s, k, l)
    requires Total(k.writes) < |PlanOf(s, k).pending|
    requires d in l.due && LapOf(AfterTick(s, k).table.marks, d) != PlanOf(s, k).lap
    ensures d.id in Ids(PlanOf(s, k).pending[Total(k.writes)..])
  {
    var plan, t, n := PlanOf(s, k), AfterTick(s, k), Total(k.writes);
    TickProgress(s, k);
    assert Has(k.due, d.id, d.checkpoint);
    var e :| e in k.due && e.id == d.id && e.checkpoint == d.checkpoint;
    PlanIsNext(s, k);
    assert !Carries(t, d, plan.lap);
    LeftOutWasExamined(s, k, e);
    UnexaminedIsExact(k.due, s.table.marks, RecordedLap(s));
    StillAmong(s, t, k.due, plan.pending, plan.lap, n, d, e);
  }

  lemma StillAmong(s: State, t: State, due: seq<Due>, pending: seq<Due>, lap: int, n: nat, d: Due, e: Due)
    requires Distinct(due) && e in due && e.id == d.id && e.checkpoint == d.checkpoint
    requires n <= |pending| && forall x | x in pending :: x in due
    requires e in pending || Carries(s, e, lap)
    requires AllCarry(t, pending[..n], lap)
    requires forall id | NotAmong(pending[..n], id) :: MarkOf(t.table.marks, id) == MarkOf(s.table.marks, id)
    requires !Carries(t, d, lap)
    ensures d.id in Ids(pending[n..])
  {
    assert e !in pending ==> NotAmong(pending[..n], d.id) by {
      forall i | 0 <= i < n ensures e !in pending ==> pending[..n][i].id != d.id { assert pending[i] in due; }
    }
    var i :| 0 <= i < |pending| && pending[i] == e;
    assert i < n ==> Carries(t, pending[..n][i], lap);
    assert pending[n..][i - n] == e;
  }

  /** The next tick of an open pass has that much less to do, and something. */
  lemma PendingShrinks(s: State, k: Tick, l: Tick)
    requires Inv(s) && RecordedLap(s) < SAFE && Succeeds(s, k) && WindowKept(s, k, l)
    requires Distinct(l.due) && Total(k.writes) < |PlanOf(s, k).pending|
    ensures !PlanOf(AfterTick(s, k), l).begins && PlanOf(AfterTick(s, k), l).lap == PlanOf(s, k).lap
    ensures |PlanOf(AfterTick(s, k), l).pending| + Total(k.writes) <= |PlanOf(s, k).pending|
  {
    TickProgress(s, k);
    LeftIsPending(s, k, l);
    OpenPlan(AfterTick(s, k), l, PlanOf(s, k).lap);
    LeftCount(s, k, l);
  }

  lemma LeftCount(s: State, k: Tick, l: Tick)
    requires Inv(s) && RecordedLap(s) < SAFE && Succeeds(s, k) && WindowKept(s, k, l)
    requires Distinct(l.due) && Total(k.writes) < |PlanOf(s, k).pending|
    ensures |Unexamined(l.due, AfterTick(s, k).table.marks, PlanOf(s, k).lap)| + Total(k.writes) <= |PlanOf(s, k).pending|
  {
    var marks, lap, pending := AfterTick(s, k).table.marks, PlanOf(s, k).lap, PlanOf(s, k).pending;
    var left := pending[Total(k.writes)..];
    UnexaminedIsExact(l.due, marks, lap);
    var next := Unexamined(l.due, marks, lap);
    forall d | d in next ensures d.id in Ids(left) { StillPending(s, k, l, d); }
    assert Distinct(left) by {
      PlanIsNext(s, k);
      UnexaminedIsExact(k.due, s.table.marks, RecordedLap(s));
    }
    FewerIds(next, left);
  }

  lemma OpenPlan(t: State, l: Tick, lap: int)
    requires ReadPassRecord(t.table.record).Open? && ReadPassRecord(t.table.record).lap == lap
    requires Unexamined(l.due, t.table.marks, lap) != []
    ensures !PlanOf(t, l).begins && PlanOf(t, l).lap == lap
    ensures PlanOf(t, l).pending == Unexamined(l.due, t.table.marks, lap)
  {
  }

  lemma FewerIds(a: seq<Due>, b: seq<Due>)
    requires Distinct(a) && Distinct(b) && forall d | d in a :: d.id in Ids(b)
    ensures |a| <= |b|
  {
    IdCount(a);
    IdCount(b);
    assert Ids(b) == Ids(a) + (Ids(b) - Ids(a));
  }

  lemma LeftIsPending(s: State, k: Tick, l: Tick)
    requires Inv(s) && RecordedLap(s) < SAFE && Succeeds(s, k) && WindowKept(s, k, l)
    requires Total(k.writes) < |PlanOf(s, k).pending|
    ensures Unexamined(l.due, AfterTick(s, k).table.marks, PlanOf(s, k).lap) != []
  {
    var plan, t, n := PlanOf(s, k), AfterTick(s, k), Total(k.writes);
    TickProgress(s, k);
    PlanIsNext(s, k);
    UnexaminedIsExact(k.due, s.table.marks, RecordedLap(s));
    var e := plan.pending[n];
    assert Has(l.due, e.id, e.checkpoint);
    LapIsBounded(s, e);
    assert e in plan.pending && LapOf(s.table.marks, e) != plan.lap;
    assert NotAmong(plan.pending[..n], e.id);
    LeftIsUnexamined(s, t, l.due, plan.lap, e);
  }

  lemma LeftIsUnexamined(s: State, t: State, due: seq<Due>, lap: int, e: Due)
    requires Has(due, e.id, e.checkpoint) && LapOf(s.table.marks, e) != lap
    requires MarkOf(t.table.marks, e.id) == MarkOf(s.table.marks, e.id)
    ensures Unexamined(due, t.table.marks, lap) != []
  {
    UnexaminedIsExact(due, t.table.marks, lap);
    var d :| d in due && d.id == e.id && d.checkpoint == e.checkpoint;
    assert LapOf(t.table.marks, d) == LapOf(s.table.marks, e);
    assert d in Unexamined(due, t.table.marks, lap);
  }

  /** Ticks that all succeed, over a window no loan enters. */
  predicate GoodRun(s: State, ks: seq<Tick>)
    decreases |ks|
  {
    ks == [] ||
    (&& Succeeds(s, ks[0]) && (|ks| > 1 ==> WindowKept(s, ks[0], ks[1]))
     && GoodRun(AfterTick(s, ks[0]), ks[1..]))
  }

  function StateAfter(s: State, ks: seq<Tick>, n: nat): State
    requires n <= |ks| && GoodRun(s, ks)
    decreases n
  {
    if n == 0 then s else StateAfter(AfterTick(s, ks[0]), ks[1..], n - 1)
  }

  /** The pass is seen to finish in the `n`th tick of the run. */
  predicate ClosedAfter(s: State, ks: seq<Tick>, n: nat) {
    n <= |ks| && GoodRun(s, ks) && ReadPassRecord(StateAfter(s, ks, n).table.record).Closed?
  }

  lemma ClosedLater(s: State, ks: seq<Tick>, n: nat)
    requires ks != [] && GoodRun(s, ks) && ClosedAfter(AfterTick(s, ks[0]), ks[1..], n)
    ensures ClosedAfter(s, ks, n + 1)
  {
  }

  lemma PendingIsDue(s: State, k: Tick)
    ensures |PlanOf(s, k).pending| <= |k.due|
  {
  }

  /** An open pass goes on in the next tick of a good run. */
  lemma PassGoesOn(s: State, ks: seq<Tick>) returns (t: State, rest: seq<Tick>)
    requires Inv(s) && RecordedLap(s) < SAFE && ks != [] && GoodRun(s, ks) && PlanOf(s, ks[0]).lap < SAFE
    requires |ks| >= |PlanOf(s, ks[0]).pending| > Total(ks[0].writes)
    ensures t == AfterTick(s, ks[0]) && rest == ks[1..] && rest != []
    ensures Inv(t) && RecordedLap(t) < SAFE && GoodRun(t, rest) && PlanOf(t, rest[0]).lap < SAFE
    ensures |PlanOf(t, rest[0]).pending| < |PlanOf(s, ks[0]).pending|
  {
    TickProgress(s, ks[0]);
    PendingShrinks(s, ks[0], ks[1]);
    t, rest := AfterTick(s, ks[0]), ks[1..];
  }

  lemma TickCloses(s: State, ks: seq<Tick>)
    requires Inv(s) && RecordedLap(s) < SAFE && ks != [] && GoodRun(s, ks)
    requires |PlanOf(s, ks[0]).pending| <= Total(ks[0].writes)
    ensures |PlanOf(s, ks[0]).pending| > 0 && ClosedAfter(s, ks, 1)
  {
    TickProgress(s, ks[0]);
  }

  /** A window of n loans is passed through within n such ticks. */
  lemma {:induction false} ClosesWithin(s: State, ks: seq<Tick>) returns (n: nat)
    requires Inv(s) && RecordedLap(s) < SAFE && ks != [] && GoodRun(s, ks)
    requires |ks| >= |PlanOf(s, ks[0]).pending| && PlanOf(s, ks[0]).lap < SAFE
    ensures 0 < n <= |PlanOf(s, ks[0]).pending| <= |ks[0].due| && ClosedAfter(s, ks, n)
    decreases |ks|
  {
    PendingIsDue(s, ks[0]);
    if Total(ks[0].writes) < |PlanOf(s, ks[0]).pending| {
      var t, rest := PassGoesOn(s, ks);
      n := ClosesWithin(t, rest);
      ClosedLater(s, ks, n);
      n := n + 1;
    } else {
      TickCloses(s, ks);
      n := 1;
    }
  }
}
