/** One-time use of a signed request: a window on its timestamp, and a ledger of
    the messages already accepted that forgets a row once its message could no
    longer pass the window. Isolates read clocks that differ, and a request takes
    time between the timestamp check and its claim. */
module SignedRequests {
  import opened Wrappers

  const WINDOW := 10 * 60
  const MARGIN := 60

  datatype Message = Message(text: string, issuedAt: int)

  predicate InWindow(m: Message, now: int) { -WINDOW <= now - m.issuedAt <= WINDOW }

  function ValidUntil(m: Message): int { m.issuedAt + WINDOW }

  /** Digest to the second after which the row may go. */
  type Rows = map<string, int>

  function Kept(rows: Rows, now: int): Rows { map k | k in rows && rows[k] >= now :: rows[k] }

  predicate Wins(rows: Rows, key: string, now: int) { key !in Kept(rows, now) }

  /** The claim's batch: drop what has expired, insert unless present. */
  function Claimed(rows: Rows, key: string, until: int, now: int): Rows {
    if Wins(rows, key, now) then Kept(rows, now)[key := until] else Kept(rows, now)
  }

  datatype Verdict = Accepted | Stale | Unsigned | AlreadyUsed | Unavailable

  /** What became of a claim's batch. */
  datatype Fate = Answered | Lost | Unanswered

  class Ledger {
    const sha: string -> string
    var rows: Rows

    constructor (sha: string -> string)
      ensures this.sha == sha && rows == map[]
    {
      this.sha, rows := sha, map[];
    }

    /** Claim a message for one use, on the claim's own reading of the clock. */
    method Claim(m: Message, now: int, fate: Fate) returns (won: Option<bool>)
      modifies this
      ensures rows == if fate.Lost? then old(rows) else Claimed(old(rows), sha(m.text), ValidUntil(m) + MARGIN, now)
      ensures won == if fate.Answered? then Some(Wins(old(rows), sha(m.text), now)) else None
    {
      if fate.Lost? { return None; }
      var key := sha(m.text);
      rows := map k | k in rows && rows[k] >= now :: rows[k];
      var unseen := key !in rows;
      if unseen { rows := rows[key := ValidUntil(m) + MARGIN]; }
      won := if fate.Answered? then Some(unseen) else None;
    }

    /** Verify, then claim; only a request that wins its claim proceeds. */
    method Authorise(m: Message, signed: bool, checkedAt: int, readAt: int, fate: Fate) returns (v: Verdict)
      modifies this
      ensures v == Accepted <==>
        InWindow(m, checkedAt) && signed && fate.Answered? && Wins(old(rows), sha(m.text), readAt)
      ensures rows == if InWindow(m, checkedAt) && signed && !fate.Lost?
        then Claimed(old(rows), sha(m.text), ValidUntil(m) + MARGIN, readAt) else old(rows)
    {
      if !InWindow(m, checkedAt) { return Stale; }
      if !signed { return Unsigned; }
      var won := Claim(m, readAt, fate);
      v := if won.None? then Unavailable else if won.value then Accepted else AlreadyUsed;
    }
  }

  // -------------------------------------------------------------- runs

  /** One presentation: the true time of the timestamp check, of the claim's
      clock reading and of its commit, and the offset of the isolate's clock. */
  datatype Use = Use(m: Message, signed: bool, fate: Fate, offset: real, checkedAt: real, readAt: real, at: real)

  function Reading(t: real, offset: real): int { (t + offset).Floor }

  predicate Claims(u: Use) { InWindow(u.m, Reading(u.checkedAt, u.offset)) && u.signed }

  /** The ledger after these presentations, in commit order. */
  function After(h: seq<Use>, sha: string -> string): Rows
    decreases |h|
  {
    if h == [] then map[]
    else
      var rows, u := After(h[..|h| - 1], sha), h[|h| - 1];
      if Claims(u) && !u.fate.Lost?
      then Claimed(rows, sha(u.m.text), ValidUntil(u.m) + MARGIN, Reading(u.readAt, u.offset))
      else rows
  }

  predicate IsAccepted(h: seq<Use>, i: nat, sha: string -> string)
    requires i < |h|
  {
    Claims(h[i]) && h[i].fate.Answered? && Wins(After(h[..i], sha), sha(h[i].m.text), Reading(h[i].readAt, h[i].offset))
  }

  /** Clocks differ by at most `s`, and a check is at most `d` before its claim. */
  ghost predicate Timely(h: seq<Use>, s: real, d: real) {
    && (forall i :: 0 <= i < |h| ==> h[i].checkedAt <= h[i].readAt <= h[i].at <= h[i].checkedAt + d)
    && (forall i, j :: 0 <= i < |h| && 0 <= j < |h| ==> h[i].offset <= h[j].offset + s)
    && (forall i, j :: 0 <= i < j < |h| ==> h[i].at <= h[j].at)
  }

  ghost predicate OneUse(h: seq<Use>, sha: string -> string) {
    forall i, j :: 0 <= i < j < |h| && h[i].m == h[j].m ==> !(IsAccepted(h, i, sha) && IsAccepted(h, j, sha))
  }

  /** Until its message can no longer pass the check, no claim drops its row. */
  lemma ReadsBeforeExpiry(h: seq<Use>, s: real, d: real, k: nat, j: nat)
    requires Timely(h, s, d) && s + d <= MARGIN as real && k <= j < |h|
    requires InWindow(h[j].m, Reading(h[j].checkedAt, h[j].offset))
    ensures Reading(h[k].readAt, h[k].offset) <= ValidUntil(h[j].m) + MARGIN
  {
    assert h[k].at <= h[j].at && h[k].offset <= h[j].offset + s;
    var check := h[j].checkedAt + h[j].offset;
    assert check < (ValidUntil(h[j].m) + 1) as real;
    assert h[k].readAt + h[k].offset <= check + d + s;
  }

  lemma {:induction false} RowStays(h: seq<Use>, s: real, d: real, i: nat, k: nat, j: nat, sha: string -> string)
    requires Timely(h, s, d) && s + d <= MARGIN as real && i < k <= j < |h| && h[i].m == h[j].m
    requires IsAccepted(h, i, sha) && InWindow(h[j].m, Reading(h[j].checkedAt, h[j].offset))
    ensures sha(h[i].m.text) in After(h[..k], sha)
    ensures After(h[..k], sha)[sha(h[i].m.text)] == ValidUntil(h[i].m) + MARGIN
    decreases k
  {
    assert h[..k][..k - 1] == h[..k - 1];
    if i < k - 1 {
      RowStays(h, s, d, i, k - 1, j, sha);
      ReadsBeforeExpiry(h, s, d, k - 1, j);
    }
  }

  /** With clocks and delays inside the margin, no message is accepted twice,
      however presentations and expiry deletions interleave. */
  lemma AtMostOnce(h: seq<Use>, s: real, d: real, sha: string -> string)
    requires Timely(h, s, d) && s + d <= MARGIN as real
    ensures OneUse(h, sha)
  {
    forall i, j | 0 <= i < j < |h| && h[i].m == h[j].m
      ensures !(IsAccepted(h, i, sha) && IsAccepted(h, j, sha))
    {
      if IsAccepted(h, i, sha) && Claims(h[j]) {
        RowStays(h, s, d, i, j, j, sha);
        ReadsBeforeExpiry(h, s, d, j, j);
      }
    }
  }

  /** Beyond the margin a run accepts one message twice: a fast isolate's claim
      drops the row while a slow one still holds a checked presentation. */
  lemma BeyondTheMargin(m: Message, other: Message, s: real, d: real, sha: string -> string) returns (h: seq<Use>)
    requires s >= 0.0 && d >= 0.0 && s + d > MARGIN as real
    requires sha(m.text) != sha(other.text)
    ensures Timely(h, s, d) && !OneUse(h, sha)
  {
    var last := (ValidUntil(m) + 1) as real;
    var slack := if s + d - 60.0 < 1.0 then (s + d - 60.0) / 2.0 else 0.5;
    var check := last - slack;
    var fast := last + 60.0 - s;
    var first := Use(m, true, Answered, s, fast - 61.0, fast - 61.0, fast - 61.0);
    var drops := Use(other.(issuedAt := ValidUntil(m) + 61), true, Answered, s, fast, fast, fast);
    var end := if check < fast then fast else check;
    var again := Use(m, true, Answered, 0.0, check, end, end);
    h := [first, drops, again];
    assert Reading(first.readAt, s) == ValidUntil(m);
    assert Reading(drops.readAt, s) == ValidUntil(m) + 61;
    assert Reading(check, 0.0) == ValidUntil(m);
    SecondWins(h, sha);
  }

  lemma SecondWins(h: seq<Use>, sha: string -> string)
    requires |h| == 3 && h[0].m == h[2].m && sha(h[0].m.text) != sha(h[1].m.text)
    requires forall i :: 0 <= i < 3 ==> Claims(h[i]) && h[i].fate.Answered?
    requires Reading(h[1].readAt, h[1].offset) > ValidUntil(h[0].m) + MARGIN
    ensures !OneUse(h, sha)
  {
    assert h[..0] == [] && h[..1][..0] == [] && h[..2][..1] == h[..1];
    assert After(h[..1], sha) == map[sha(h[0].m.text) := ValidUntil(h[0].m) + MARGIN];
    assert sha(h[0].m.text) !in After(h[..2], sha);
    assert IsAccepted(h, 0, sha) && IsAccepted(h, 2, sha);
  }

  /** So a message is used at most once in every run exactly when the clock
      differences and the delay together stay within the margin. */
  lemma OnceIff(s: real, d: real, sha: string -> string, m: Message, other: Message)
    requires s >= 0.0 && d >= 0.0 && sha(m.text) != sha(other.text)
    ensures (forall h :: Timely(h, s, d) ==> OneUse(h, sha)) <==> s + d <= MARGIN as real
  {
    if s + d <= MARGIN as real {
      forall h | Timely(h, s, d) ensures OneUse(h, sha) { AtMostOnce(h, s, d, sha); }
    } else {
      var h := BeyondTheMargin(m, other, s, d, sha);
    }
  }
}
