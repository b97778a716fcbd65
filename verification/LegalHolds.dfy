/** The legal-hold register, its audit trail, and the records a hold protects.
    Each hold action is one transaction over the register and the trail; the
    restore script later replays the trail and compares it with the register. */
module LegalHolds {
  import opened Wrappers

  datatype Hold = Hold(reason: string, docRef: Option<string>, docSha: Option<string>, allowed: bool, note: Option<string>)

  datatype Kind = Place | Lift | SetDisclosure

  /** `id` is the trail's own counter, `at` the database's clock at the write. */
  datatype Audit = Audit(at: int, id: nat, kind: Kind, hash: string, admin: string, detail: string,
                         docRef: Option<string>, docSha: Option<string>)

  /** A diagnostics record; one without a wallet hash cannot be held. */
  datatype Record = Record(hash: Option<string>, chain: Option<int>, recordedAt: int)

  datatype State = State(holds: map<string, Hold>, audit: seq<Audit>, records: map<nat, Record>)

  /** An authenticated request, its document already filed and hashed. */
  datatype Request = Request(kind: Kind, hash: string, admin: string, reason: string, allowed: Option<bool>,
                             note: Option<string>, doc: Option<(string, string)>)

  datatype Answer = Done | BadRequest | DocumentRequired | NoHold

  // ----------------------------------------------------------- actions

  predicate Held(s: State, hash: Option<string>) { hash.Some? && hash.value in s.holds }

  function RefOf(q: Request): Option<string> { if q.doc.Some? then Some(q.doc.value.0) else None }

  function ShaOf(q: Request): Option<string> { if q.doc.Some? then Some(q.doc.value.1) else None }

  const ALLOWED := "disclosure_allowed="
  const NOTE := "; note="

  function NoteText(note: Option<string>): string { if note.Some? then note.value else "" }

  function Detail(allowed: bool, note: Option<string>): string {
    ALLOWED + (if allowed then "1" else "0") + NOTE + NoteText(note)
  }

  function AnswerOf(s: State, q: Request): Answer {
    match q.kind
    case Place => if q.reason == "" then BadRequest else if q.doc.None? then DocumentRequired else Done
    case Lift => Done
    case SetDisclosure => if q.allowed.None? then BadRequest else if q.hash !in s.holds then NoHold else Done
  }

  function AuditRow(s: State, q: Request, at: int, detail: string): Audit {
    Audit(at, |s.audit|, q.kind, q.hash, q.admin, detail, RefOf(q), ShaOf(q))
  }

  /** The transaction of a hold action. */
  function Apply(s: State, q: Request, at: int): State
    requires AnswerOf(s, q) == Done
  {
    match q.kind
    case Place =>
      var was := if q.hash in s.holds then s.holds[q.hash] else Hold("", None, None, false, None);
      State(s.holds[q.hash := was.(reason := q.reason, docRef := RefOf(q), docSha := ShaOf(q))],
            s.audit + [AuditRow(s, q, at, q.reason)], s.records)
    case Lift => State(s.holds - {q.hash}, s.audit + [AuditRow(s, q, at, "")], s.records)
    case SetDisclosure =>
      State(s.holds[q.hash := s.holds[q.hash].(allowed := q.allowed.value, note := q.note)],
            s.audit + [AuditRow(s, q, at, Detail(q.allowed.value, q.note))], s.records)
  }

  /** A signed erasure, over one chain's records or all of the wallet's. */
  predicate Erasable(s: State, r: Record, hash: string, chain: Option<int>) {
    r.hash == Some(hash) && (chain.Some? ==> r.chain == chain) && !Held(s, r.hash)
  }

  function Erase(s: State, hash: string, chain: Option<int>): State {
    s.(records := map id | id in s.records && !Erasable(s, s.records[id], hash, chain) :: s.records[id])
  }

  function Prune(s: State, cutoff: int): State {
    s.(records := map id | id in s.records && !(s.records[id].recordedAt < cutoff && !Held(s, s.records[id].hash)) :: s.records[id])
  }

  function Capture(s: State, id: nat, r: Record): State {
    if id in s.records then s else s.(records := s.records[id := r])
  }

  /** The tables, as the handlers change them. */
  class Register {
    var holds: map<string, Hold>
    var audit: seq<Audit>
    var records: map<nat, Record>

    function Now(): State
      reads this
    {
      State(holds, audit, records)
    }

    constructor ()
      ensures Now() == State(map[], [], map[])
    {
      holds, audit, records := map[], [], map[];
    }

    /** Place, lift or set the disclosure of one wallet's hold. The trail and
        the register change together, or neither does. */
    method HandleLegalHold(q: Request, at: int) returns (answer: Answer)
      modifies this
      ensures answer == AnswerOf(old(Now()), q)
      ensures Now() == if answer == Done then Apply(old(Now()), q, at) else old(Now())
    {
      if q.kind == Place && q.reason == "" { return BadRequest; }
      if q.kind == SetDisclosure && q.allowed.None? { return BadRequest; }
      if q.kind == Place && q.doc.None? { return DocumentRequired; }
      var id := |audit|;
      match q.kind
      case Place =>
        var was := if q.hash in holds then holds[q.hash] else Hold("", None, None, false, None);
        holds := holds[q.hash := was.(reason := q.reason, docRef := RefOf(q), docSha := ShaOf(q))];
        audit := audit + [Audit(at, id, Place, q.hash, q.admin, q.reason, RefOf(q), ShaOf(q))];
        answer := Done;
      case Lift =>
        holds := holds - {q.hash};
        audit := audit + [Audit(at, id, Lift, q.hash, q.admin, "", RefOf(q), ShaOf(q))];
        answer := Done;
      case SetDisclosure =>
        var updated := q.hash in holds;
        if updated {
          holds := holds[q.hash := holds[q.hash].(allowed := q.allowed.value, note := q.note)];
        }
        if q.hash in holds {
          audit := audit + [Audit(at, id, SetDisclosure, q.hash, q.admin, Detail(q.allowed.value, q.note), RefOf(q), ShaOf(q))];
        }
        answer := if updated then Done else NoHold;
    }

    /** Delete what the signer's authority covers, unless it is held. */
    method HandleErasure(hash: string, chain: Option<int>)
      modifies this`records
      ensures Now() == Erase(old(Now()), hash, chain)
      ensures forall id | id in old(records) && Held(Now(), old(records)[id].hash) :: id in records
    {
      records := map id | id in records
        && !(records[id].hash == Some(hash) && (chain.Some? ==> records[id].chain == chain)
             && !(records[id].hash.Some? && records[id].hash.value in holds)) :: records[id];
    }

    method PruneOld(cutoff: int)
      modifies this`records
      ensures Now() == Prune(old(Now()), cutoff)
      ensures forall id | id in old(records) && Held(Now(), old(records)[id].hash) :: id in records
    {
      records := map id | id in records
        && !(records[id].recordedAt < cutoff && !(records[id].hash.Some? && records[id].hash.value in holds)) :: records[id];
    }
  }

  // ------------------------------------------------------------- replay

  /** What the restore script has seen of one wallet so far. */
  datatype Seen = Seen(held: bool, member: bool, place: Option<Audit>, disclosure: Option<Audit>, impossible: bool)

  function See(f: Seen, row: Audit): Seen {
    match row.kind
    case Place => f.(held := true, member := true, place := Some(row), disclosure := if f.held then f.disclosure else None)
    case Lift => f.(held := false, member := true, disclosure := None)
    case SetDisclosure => if f.held then f.(disclosure := Some(row)) else f.(impossible := true)
  }

  function Fold(rows: seq<Audit>): Seen
    decreases |rows|
  {
    if rows == [] then Seen(false, false, None, None, false) else See(Fold(rows[..|rows| - 1]), rows[|rows| - 1])
  }

  function RowsOf(audit: seq<Audit>, hash: string): seq<Audit>
    decreases |audit|
  {
    if audit == [] then []
    else
      var rest, last := RowsOf(audit[..|audit| - 1], hash), audit[|audit| - 1];
      if last.hash == hash then rest + [last] else rest
  }

  predicate Earlier(a: Audit, b: Audit) { a.at < b.at || (a.at == b.at && a.id <= b.id) }

  /** The replay's order: by time, then by id. */
  function Insert(rows: seq<Audit>, row: Audit): seq<Audit>
    decreases |rows|
  {
    if rows == [] || Earlier(rows[|rows| - 1], row) then rows + [row]
    else Insert(rows[..|rows| - 1], row) + [rows[|rows| - 1]]
  }

  function Sorted(rows: seq<Audit>): seq<Audit>
    decreases |rows|
  {
    if rows == [] then [] else Insert(Sorted(rows[..|rows| - 1]), rows[|rows| - 1])
  }

  /** The flag and note of a disclosure row; `None` when it is off-format. */
  function ParseDetail(detail: string): Option<(bool, string)> {
    var n, m := |ALLOWED|, |ALLOWED| + 1 + |NOTE|;
    if |detail| >= m && detail[..n] == ALLOWED && (detail[n] == '0' || detail[n] == '1') && detail[n + 1..m] == NOTE
    then Some((detail[n] == '1', detail[m..]))
    else None
  }

  /** The hold the replay expects, with a note that is empty when absent. */
  predicate Matches(f: Seen, h: Hold) {
    && f.place.Some? && h.docRef == f.place.value.docRef && f.place.value.detail != "" && h.reason == f.place.value.detail
    && (if f.disclosure.None? then !h.allowed && NoteText(h.note) == ""
        else ParseDetail(f.disclosure.value.detail) == Some((h.allowed, NoteText(h.note))))
  }

  /** The restore script's verdict on one wallet: nothing to report. */
  predicate Reconciles(s: State, hash: string) {
    var f := Fold(Sorted(RowsOf(s.audit, hash)));
    && !f.impossible
    && (if hash in s.holds then f.member && f.held && Matches(f, s.holds[hash]) else !f.held)
  }

  // ---------------------------------------------------------- agreement

  /** The register is what folding the trail in commit order gives, document
      digest included. */
  ghost predicate Agrees(s: State) {
    forall hash :: AgreesOn(s, hash)
  }

  ghost predicate AgreesOn(s: State, hash: string) {
    var f := Fold(RowsOf(s.audit, hash));
    && !f.impossible && (f.held <==> hash in s.holds) && (f.held ==> f.member)
    && (hash in s.holds ==> Matches(f, s.holds[hash]) && s.holds[hash].docSha == f.place.value.docSha)
  }

  lemma DetailReadsBack(allowed: bool, note: Option<string>)
    ensures ParseDetail(Detail(allowed, note)) == Some((allowed, NoteText(note)))
  {
    var d, n, m := Detail(allowed, note), |ALLOWED|, |ALLOWED| + 1 + |NOTE|;
    var flag := if allowed then "1" else "0";
    assert d == ALLOWED + (flag + NOTE + NoteText(note));
    assert d == (ALLOWED + flag + NOTE) + NoteText(note);
    assert d[..n] == ALLOWED && d[n] == flag[0] && d[n + 1..m] == NOTE && d[m..] == NoteText(note);
  }

  lemma FoldMore(audit: seq<Audit>, row: Audit, hash: string)
    ensures RowsOf(audit + [row], hash) == RowsOf(audit, hash) + if row.hash == hash then [row] else []
    ensures Fold(RowsOf(audit + [row], hash)) ==
      if row.hash == hash then See(Fold(RowsOf(audit, hash)), row) else Fold(RowsOf(audit, hash))
  {
    assert (audit + [row])[..|audit|] == audit;
    var rows := RowsOf(audit, hash);
    assert (rows + [row])[..|rows|] == rows;
  }

  /** Every hold action keeps the register and its trail in agreement. */
  lemma ApplyKeepsAgreement(s: State, q: Request, at: int)
    requires Agrees(s) && AnswerOf(s, q) == Done
    ensures Agrees(Apply(s, q, at))
  {
    var t := Apply(s, q, at);
    var row := t.audit[|s.audit|];
    assert t.audit == s.audit + [row];
    forall hash ensures AgreesOn(t, hash) {
      assert AgreesOn(s, hash);
      FoldMore(s.audit, row, hash);
      if hash == q.hash && q.kind == SetDisclosure { DetailReadsBack(q.allowed.value, q.note); }
    }
  }

  // --------------------------------------------------------------- runs

  datatype Step = Act(q: Request, at: int) | Erasing(hash: string, chain: Option<int>) | Pruning(cutoff: int)
                | Capturing(id: nat, r: Record)

  function Next(s: State, e: Step): State {
    match e
    case Act(q, at) => if AnswerOf(s, q) == Done then Apply(s, q, at) else s
    case Erasing(hash, chain) => Erase(s, hash, chain)
    case Pruning(cutoff) => Prune(s, cutoff)
    case Capturing(id, r) => Capture(s, id, r)
  }

  function Run(s: State, steps: seq<Step>): State
    decreases |steps|
  {
    if steps == [] then s else Next(Run(s, steps[..|steps| - 1]), steps[|steps| - 1])
  }

  const EMPTY := State(map[], [], map[])

  lemma {:induction false} EveryRunAgrees(steps: seq<Step>)
    ensures Agrees(Run(EMPTY, steps))
    decreases |steps|
  {
    if steps != [] {
      EveryRunAgrees(steps[..|steps| - 1]);
      var s, e := Run(EMPTY, steps[..|steps| - 1]), steps[|steps| - 1];
      if e.Act? && AnswerOf(s, e.q) == Done {
        ApplyKeepsAgreement(s, e.q, e.at);
      } else {
        assert Next(s, e).holds == s.holds && Next(s, e).audit == s.audit;
        forall hash ensures AgreesOn(Next(s, e), hash) { assert AgreesOn(s, hash); }
      }
    } else {
      forall hash ensures AgreesOn(EMPTY, hash) {}
    }
  }

  /** The database's clock never steps back between two actions on one wallet. */
  ghost predicate ClockForward(steps: seq<Step>, hash: string) {
    forall i, j :: 0 <= i < j < |steps| && OnWallet(steps[i], hash) && OnWallet(steps[j], hash) ==> steps[i].at <= steps[j].at
  }

  predicate OnWallet(e: Step, hash: string) { e.Act? && e.q.hash == hash }

  predicate InOrderRows(rows: seq<Audit>) {
    forall i, j :: 0 <= i < j < |rows| ==> Earlier(rows[i], rows[j])
  }

  lemma {:induction false} SortedAlready(rows: seq<Audit>)
    requires InOrderRows(rows)
    ensures Sorted(rows) == rows
    decreases |rows|
  {
    if rows != [] {
      var init, last := rows[..|rows| - 1], rows[|rows| - 1];
      SortedAlready(init);
      assert Sorted(rows) == Insert(init, last);
      if init != [] { assert init[|init| - 1] == rows[|rows| - 2] && Earlier(rows[|rows| - 2], last); }
      assert Insert(init, last) == init + [last];
      assert rows == init + [last];
    }
  }

  /** Some action of the run on this wallet was stamped with this time. */
  predicate WrittenBy(steps: seq<Step>, hash: string, at: int) {
    exists j :: 0 <= j < |steps| && OnWallet(steps[j], hash) && steps[j].at == at
  }

  /** A row of the wallet carries the time of one of its actions and an id the
      trail has given out. */
  predicate Written(steps: seq<Step>, hash: string, next: nat, row: Audit) {
    row.id < next && WrittenBy(steps, hash, row.at)
  }

  predicate AllWritten(steps: seq<Step>, hash: string, next: nat, rows: seq<Audit>) {
    forall i :: 0 <= i < |rows| ==> Written(steps, hash, next, rows[i])
  }

  lemma WrittenBefore(init: seq<Step>, e: Step, hash: string, at: int)
    requires WrittenBy(init, hash, at)
    ensures WrittenBy(init + [e], hash, at)
    ensures ClockForward(init + [e], hash) && OnWallet(e, hash) ==> at <= e.at
  {
    var j :| 0 <= j < |init| && OnWallet(init[j], hash) && init[j].at == at;
    assert (init + [e])[j] == init[j] && (init + [e])[|init|] == e;
  }

  lemma AllWrittenMore(init: seq<Step>, e: Step, hash: string, was: nat, now: nat, rows: seq<Audit>)
    requires AllWritten(init, hash, was, rows) && was <= now
    ensures AllWritten(init + [e], hash, now, rows)
  {
    forall i | 0 <= i < |rows| ensures Written(init + [e], hash, now, rows[i]) {
      assert Written(init, hash, was, rows[i]);
      WrittenBefore(init, e, hash, rows[i].at);
    }
  }

  lemma NewRowIsLast(init: seq<Step>, e: Step, hash: string, rows: seq<Audit>, row: Audit)
    requires ClockForward(init + [e], hash) && OnWallet(e, hash) && row.at == e.at
    requires AllWritten(init, hash, row.id, rows) && InOrderRows(rows)
    ensures WrittenBy(init + [e], hash, row.at) && InOrderRows(rows + [row])
  {
    assert (init + [e])[|init|] == e;
    forall i | 0 <= i < |rows| ensures Earlier(rows[i], row) {
      assert Written(init, hash, row.id, rows[i]);
      WrittenBefore(init, e, hash, rows[i].at);
    }
  }

  lemma ClockWasForward(init: seq<Step>, e: Step, hash: string)
    requires ClockForward(init + [e], hash)
    ensures ClockForward(init, hash)
  {
    forall i, j | 0 <= i < j < |init| && OnWallet(init[i], hash) && OnWallet(init[j], hash) ensures init[i].at <= init[j].at {
      assert (init + [e])[i] == init[i] && (init + [e])[j] == init[j];
    }
  }

  /** A step writes at most one row, with its own stamp and the trail's next id. */
  lemma OneRowAStep(s: State, e: Step)
    ensures var now := Next(s, e).audit;
      || now == s.audit
      || (|now| == |s.audit| + 1 && now == s.audit + [now[|s.audit|]] && e.Act?
          && now[|s.audit|].at == e.at && now[|s.audit|].id == |s.audit| && now[|s.audit|].hash == e.q.hash
          && now[|s.audit|].kind == e.q.kind)
    ensures e.Act? && AnswerOf(s, e.q) == Done ==> Next(s, e).audit != s.audit
  {
    if e.Act? && AnswerOf(s, e.q) == Done {
      var now := Apply(s, e.q, e.at).audit;
      assert now == s.audit + [now[|s.audit|]];
    }
  }

  ghost predicate TrailIsInOrder(steps: seq<Step>, audit: seq<Audit>, hash: string) {
    AllWritten(steps, hash, |audit|, RowsOf(audit, hash)) && InOrderRows(RowsOf(audit, hash))
  }

  lemma TrailStaysInOrder(init: seq<Step>, e: Step, s: State, hash: string)
    requires TrailIsInOrder(init, s.audit, hash) && ClockForward(init + [e], hash)
    ensures TrailIsInOrder(init + [e], Next(s, e).audit, hash)
  {
    var now := Next(s, e).audit;
    OneRowAStep(s, e);
    AllWrittenMore(init, e, hash, |s.audit|, |now|, RowsOf(s.audit, hash));
    if now != s.audit {
      FoldMore(s.audit, now[|s.audit|], hash);
      if OnWallet(e, hash) { NewRowIsLast(init, e, hash, RowsOf(s.audit, hash), now[|s.audit|]); }
    }
  }

  /** While the clock goes forward for a wallet, its rows are in the order of
      their stamps. */
  lemma {:induction false} TrailInOrder(steps: seq<Step>, hash: string)
    requires ClockForward(steps, hash)
    ensures TrailIsInOrder(steps, Run(EMPTY, steps).audit, hash)
    decreases |steps|
  {
    if steps != [] {
      var init, e := steps[..|steps| - 1], steps[|steps| - 1];
      assert steps == init + [e];
      ClockWasForward(init, e, hash);
      TrailInOrder(init, hash);
      TrailStaysInOrder(init, e, Run(EMPTY, init), hash);
    }
  }

  /** What the replay's verdict depends on: the held set, and of a hold its
      reason, document, flag and note. */
  predicate SameSeen(f: Seen, g: Seen) {
    && f.held == g.held && f.impossible == g.impossible
    && (f.held ==>
          && f.place.Some? && g.place.Some?
          && f.place.value.docRef == g.place.value.docRef && f.place.value.detail == g.place.value.detail
          && DisclosureOf(f) == DisclosureOf(g))
  }

  /** The flag and note a replay ends with; a fresh hold has neither. */
  function DisclosureOf(f: Seen): Option<(bool, string)> {
    if f.disclosure.None? then Some((false, "")) else ParseDetail(f.disclosure.value.detail)
  }

  /** After any run the restore script finds nothing to report about a wallet
      exactly when its rows, sorted by their stamps, replay like the rows in the
      order they were committed. */
  lemma ReconcilesIff(steps: seq<Step>, hash: string)
    ensures var rows := RowsOf(Run(EMPTY, steps).audit, hash);
      Reconciles(Run(EMPTY, steps), hash) <==> SameSeen(Fold(Sorted(rows)), Fold(rows))
  {
    var s := Run(EMPTY, steps);
    EveryRunAgrees(steps);
    assert AgreesOn(s, hash);
    HeldIsMember(Sorted(RowsOf(s.audit, hash)));
  }

  lemma {:induction false} HeldIsMember(rows: seq<Audit>)
    ensures Fold(rows).held ==> Fold(rows).member && Fold(rows).place.Some?
    decreases |rows|
  {
    if rows != [] { HeldIsMember(rows[..|rows| - 1]); }
  }

  /** So while the database's clock does not step back between two actions on the
      wallet, it finds nothing: its replay rebuilds the hold with reason,
      document, disclosure flag and note text. */
  lemma ReplayRebuildsHolds(steps: seq<Step>, hash: string)
    requires ClockForward(steps, hash)
    ensures Reconciles(Run(EMPTY, steps), hash)
  {
    TrailInOrder(steps, hash);
    SortedAlready(RowsOf(Run(EMPTY, steps).audit, hash));
    ReconcilesIff(steps, hash);
    EveryRunAgrees(steps);
    assert AgreesOn(Run(EMPTY, steps), hash);
  }

  /** Two neighbouring rows the replay takes the other way round without anyone
      noticing, `f` being what it has seen before them. */
  predicate Unseen(f: Seen, first: Audit, second: Audit) {
    match first.kind
    case Place =>
      (match second.kind
       case Place => first.detail == second.detail && first.docRef == second.docRef
       case Lift => false
       case SetDisclosure => f.held)
    case Lift => second.kind == Lift
    case SetDisclosure =>
      (match second.kind
       case Place => true
       case Lift => false
       case SetDisclosure => ParseDetail(first.detail) == ParseDetail(second.detail))
  }

  /** The clock stepped back once, between the rows `k` and `k + 1`, and not past
      the row before nor the row after them. */
  predicate OnlyInversion(rows: seq<Audit>, k: nat) {
    && k + 1 < |rows|
    && forall i, j :: 0 <= i < j < |rows| ==> (Earlier(rows[i], rows[j]) <==> !(i == k && j == k + 1))
  }

  lemma SortsBeforeTheLast(rows: seq<Audit>, a: Audit, b: Audit)
    requires InOrderRows(rows + [a]) && !Earlier(a, b) && forall r | r in rows :: Earlier(r, b)
    ensures Sorted(rows + [a] + [b]) == rows + [b] + [a]
  {
    SortedAlready(rows + [a]);
    assert (rows + [a] + [b])[..|rows| + 1] == rows + [a] && (rows + [a])[..|rows|] == rows;
    assert Insert(rows + [a], b) == Insert(rows, b) + [a];
  }

  lemma SortsLast(rows: seq<Audit>, row: Audit)
    requires Sorted(rows) != [] && Earlier(Sorted(rows)[|Sorted(rows)| - 1], row)
    ensures Sorted(rows + [row]) == Sorted(rows) + [row]
  {
    assert (rows + [row])[..|rows|] == rows;
  }

  lemma OnlyInversionBefore(rows: seq<Audit>, row: Audit, k: nat)
    requires OnlyInversion(rows + [row], k) && k + 1 < |rows|
    ensures OnlyInversion(rows, k) && forall i :: 0 <= i < |rows| ==> Earlier(rows[i], row)
  {
    var all := rows + [row];
    forall i | 0 <= i < |rows| ensures Earlier(rows[i], row) {
      assert all[i] == rows[i] && all[|rows|] == row;
    }
    forall i, j | 0 <= i < j < |rows| ensures Earlier(rows[i], rows[j]) <==> !(i == k && j == k + 1) {
      assert all[i] == rows[i] && all[j] == rows[j];
    }
  }

  lemma InOrderUpTo(rows: seq<Audit>, a: Audit, b: Audit)
    requires OnlyInversion(rows + [a] + [b], |rows|)
    ensures InOrderRows(rows + [a]) && !Earlier(a, b) && forall r | r in rows :: Earlier(r, b)
  {
    var init, all := rows + [a], rows + [a] + [b];
    forall i, j | 0 <= i < j < |init| ensures Earlier(init[i], init[j]) {
      assert all[i] == init[i] && all[j] == init[j];
    }
    assert all[|rows|] == a && all[|rows| + 1] == b;
    forall r | r in rows ensures Earlier(r, b) {
      var i :| 0 <= i < |rows| && rows[i] == r;
      assert all[i] == r;
    }
  }

  lemma {:induction false} SortSwaps(rows: seq<Audit>, a: Audit, b: Audit, rest: seq<Audit>)
    requires OnlyInversion(rows + [a] + [b] + rest, |rows|)
    ensures Sorted(rows + [a] + [b] + rest) == rows + [b] + [a] + rest
    decreases |rest|
  {
    var head, tail := rows + [a] + [b], rows + [b] + [a];
    if rest == [] {
      assert head + rest == head && tail + rest == tail;
      InOrderUpTo(rows, a, b);
      SortsBeforeTheLast(rows, a, b);
    } else {
      var init, last := rest[..|rest| - 1], rest[|rest| - 1];
      assert head + rest == head + init + [last] && tail + rest == tail + init + [last];
      OnlyInversionBefore(head + init, last, |rows|);
      SortSwaps(rows, a, b, init);
      assert (head + init)[|rows|] == a && (|init| > 0 ==> (head + init)[|head + init| - 1] == (tail + init)[|tail + init| - 1]);
      SortsLast(head + init, last);
    }
  }

  lemma FoldOne(rows: seq<Audit>, row: Audit)
    ensures Fold(rows + [row]) == See(Fold(rows), row)
  {
    assert (rows + [row])[..|rows|] == rows;
  }

  lemma SameSeenStep(f: Seen, g: Seen, row: Audit)
    requires SameSeen(f, g)
    ensures SameSeen(See(f, row), See(g, row))
  {
  }

  lemma {:induction false} SameSeenGoesOn(was: seq<Audit>, now: seq<Audit>, rest: seq<Audit>)
    requires SameSeen(Fold(was), Fold(now))
    ensures SameSeen(Fold(was + rest), Fold(now + rest))
    decreases |rest|
  {
    if rest == [] {
      assert was + rest == was && now + rest == now;
    } else {
      var init, row := rest[..|rest| - 1], rest[|rest| - 1];
      SameSeenGoesOn(was, now, init);
      assert was + rest == was + init + [row] && now + rest == now + init + [row];
      FoldOne(was + init, row);
      FoldOne(now + init, row);
      SameSeenStep(Fold(was + init), Fold(now + init), row);
    }
  }

  lemma {:induction false} PossibleBefore(rows: seq<Audit>, rest: seq<Audit>)
    requires !Fold(rows + rest).impossible
    ensures !Fold(rows).impossible
    decreases |rest|
  {
    if rest == [] {
      assert rows + rest == rows;
    } else {
      var init, row := rest[..|rest| - 1], rest[|rest| - 1];
      assert rows + rest == rows + init + [row];
      FoldOne(rows + init, row);
      PossibleBefore(rows, init);
    }
  }

  /** Which backward step of the clock the restore script reports, the pair of
      rows it turned being the wallet's last: exactly one that is not `Unseen`.
      An unseen one stays unseen whatever the wallet's later rows are. */
  lemma InversionIsReportedIff(steps: seq<Step>, hash: string, k: nat)
    requires OnlyInversion(RowsOf(Run(EMPTY, steps).audit, hash), k)
    ensures var rows := RowsOf(Run(EMPTY, steps).audit, hash);
      && (Unseen(Fold(rows[..k]), rows[k], rows[k + 1]) ==> Reconciles(Run(EMPTY, steps), hash))
      && (k + 2 == |rows| ==> (Reconciles(Run(EMPTY, steps), hash) <==> Unseen(Fold(rows[..k]), rows[k], rows[k + 1])))
  {
    ReconcilesIff(steps, hash);
    EveryRunAgrees(steps);
    assert AgreesOn(Run(EMPTY, steps), hash);
    var rows := RowsOf(Run(EMPTY, steps).audit, hash);
    AroundPair(rows, k);
    SortedIsUnseenIff(rows[..k], rows[k], rows[k + 1], rows[k + 2..], rows);
  }

  lemma AroundPair(rows: seq<Audit>, k: nat)
    requires k + 1 < |rows|
    ensures rows == rows[..k] + [rows[k]] + [rows[k + 1]] + rows[k + 2..]
  {
  }

  lemma SortedIsUnseenIff(rows: seq<Audit>, a: Audit, b: Audit, rest: seq<Audit>, all: seq<Audit>)
    requires all == rows + [a] + [b] + rest && OnlyInversion(all, |rows|) && !Fold(all).impossible
    ensures Unseen(Fold(rows), a, b) ==> SameSeen(Fold(Sorted(all)), Fold(all))
    ensures rest == [] ==> (SameSeen(Fold(Sorted(all)), Fold(all)) <==> Unseen(Fold(rows), a, b))
  {
    SortSwaps(rows, a, b, rest);
    SwapIsUnseenIff(rows, a, b, rest);
  }

  lemma SwapIsUnseenIff(rows: seq<Audit>, a: Audit, b: Audit, rest: seq<Audit>)
    requires !Fold(rows + [a] + [b] + rest).impossible
    ensures Unseen(Fold(rows), a, b) ==> SameSeen(Fold(rows + [b] + [a] + rest), Fold(rows + [a] + [b] + rest))
    ensures rest == [] ==>
      (SameSeen(Fold(rows + [b] + [a] + rest), Fold(rows + [a] + [b] + rest)) <==> Unseen(Fold(rows), a, b))
  {
    var head, tail := rows + [a] + [b], rows + [b] + [a];
    PossibleBefore(head, rest);
    FoldOne(rows, a);
    FoldOne(rows, b);
    FoldOne(rows + [a], b);
    FoldOne(rows + [b], a);
    HeldIsMember(rows);
    PairIsUnseenIff(Fold(rows), a, b);
    if rest == [] {
      assert head + rest == head && tail + rest == tail;
    } else if Unseen(Fold(rows), a, b) {
      SameSeenGoesOn(tail, head, rest);
    }
  }

  lemma PairIsUnseenIff(f: Seen, first: Audit, second: Audit)
    requires !See(See(f, first), second).impossible && (f.held ==> f.place.Some?)
    ensures SameSeen(See(See(f, second), first), See(See(f, first), second)) <==> Unseen(f, first, second)
  {
    match first.kind
    case Place =>
    case Lift =>
    case SetDisclosure =>
  }

  /** A hold placed and then lifted, with any step back of the clock between the
      two, is reported although register and trail are in order. */
  lemma ClockBackMisleads(q: Request, a: int, b: int, hash: string)
    requires q.kind == Place && q.hash == hash && q.reason != "" && q.doc.Some? && b < a
    ensures !Reconciles(Run(EMPTY, [Act(q, a), Act(q.(kind := Lift), b)]), hash)
  {
    var placing, lifting := Act(q, a), Act(q.(kind := Lift), b);
    RunOne([], placing);
    RunOne([placing], lifting);
    assert [] + [placing] == [placing] && [placing] + [lifting] == [placing, lifting];
    TwoRowsOf(Run(EMPTY, [placing]), Run(EMPTY, [placing, lifting]), placing, lifting, hash);
    InversionIsReportedIff([placing, lifting], hash, 0);
  }

  lemma RunOne(steps: seq<Step>, e: Step)
    ensures Run(EMPTY, steps + [e]) == Next(Run(EMPTY, steps), e)
  {
    assert (steps + [e])[..|steps|] == steps;
  }

  lemma TwoRowsOf(s: State, t: State, e: Step, f: Step, hash: string)
    requires OnWallet(e, hash) && OnWallet(f, hash) && s == Next(EMPTY, e) && t == Next(s, f)
    requires AnswerOf(EMPTY, e.q) == Done && AnswerOf(s, f.q) == Done && f.at < e.at
    ensures var rows := RowsOf(t.audit, hash);
      |rows| == 2 && rows[0].kind == e.q.kind && rows[1].kind == f.q.kind && OnlyInversion(rows, 0)
  {
    OneRowAStep(EMPTY, e);
    OneRowAStep(s, f);
    var first, second := s.audit[0], t.audit[1];
    FoldMore([], first, hash);
    FoldMore([first], second, hash);
    assert [] + [first] == s.audit == [first] && t.audit == [first] + [second];
    assert RowsOf([], hash) == [];
  }

  // ------------------------------------------------------------ records

  ghost predicate HeldThroughout(s: State, steps: seq<Step>, hash: string) {
    forall n :: 0 <= n <= |steps| ==> hash in Run(s, steps[..n]).holds
  }

  /** No erasure and no prune ever removes a record whose hash is held. */
  lemma {:induction false} HeldRecordsKept(s: State, steps: seq<Step>, id: nat, hash: string)
    requires HeldThroughout(s, steps, hash) && id in s.records && s.records[id].hash == Some(hash)
    ensures id in Run(s, steps).records && Run(s, steps).records[id] == s.records[id]
    decreases |steps|
  {
    if steps != [] {
      var init := steps[..|steps| - 1];
      forall n | 0 <= n <= |init| ensures hash in Run(s, init[..n]).holds {
        assert init[..n] == steps[..n];
      }
      HeldRecordsKept(s, init, id, hash);
      assert steps[..|steps| - 1] == init;
      assert hash in Run(s, init).holds;
    }
  }
}
