/** The comment checker: joining a run of comment lines while remembering where
    each line starts, and deciding which of the matches a marker exempts. */
module FormulaMarkers {
  import opened Wrappers

  /** One source line: its number and its comment text, if it has any. */
  datatype Line = Line(number: int, body: Option<string>)

  /** Where a line's text starts in the joined text. */
  datatype Offset = Offset(pos: nat, line: int)

  datatype Piece = Piece(startLine: int, text: string, offsets: seq<Offset>, markers: seq<(int, string)>)

  const MARKER := "formula-check:allow"
  const REACH := 3

  /** The first place of `what` in `s`. */
  function Find(s: string, what: string): (r: Option<nat>)
    ensures r.Some? ==> r.value + |what| <= |s| && s[r.value..r.value + |what|] == what
  {
    if |s| < |what| then None
    else if s[..|what|] == what then Some(0)
    else if s == "" then None
    else
      var rest := Find(s[1..], what);
      if rest.Some? then Some(rest.value + 1) else None
  }

  predicate IsPadding(c: char) { c == ' ' || c == '*' || c == '-' || c == '/' }

  function Strip(s: string): string
    decreases |s|
  {
    if s == "" then ""
    else if IsPadding(s[0]) then Strip(s[1..])
    else if IsPadding(s[|s| - 1]) then Strip(s[..|s| - 1])
    else s
  }

  /** The reason a line's marker gives, read from that line alone. */
  function ReasonOf(body: string): Option<string> {
    var at := Find(body, MARKER);
    if at.Some? then Some(Strip(body[at.value + |MARKER|..])) else None
  }

  // ------------------------------------------------------------ joining

  predicate Numbered(lines: seq<Line>) {
    forall i, j :: 0 <= i < j < |lines| ==> lines[i].number < lines[j].number
  }

  /** The lines from `i` on that carry a comment, without a gap. */
  predicate IsRun(lines: seq<Line>, i: nat, j: nat) {
    && i < j <= |lines|
    && (forall k :: i <= k < j ==> lines[k].body.Some?)
    && (j == |lines| || lines[j].body.None?)
  }

  /** Line `k` of the run sits in the joined text where its offset says. */
  predicate Placed(lines: seq<Line>, i: nat, p: Piece, k: nat)
    requires i + k < |lines| && k < |p.offsets| && lines[i + k].body.Some?
  {
    var at, body := p.offsets[k].pos, lines[i + k].body.value;
    && p.offsets[k].line == lines[i + k].number
    && at + |body| <= |p.text| && p.text[at..at + |body|] == body
    && (if k + 1 < |p.offsets| then p.offsets[k + 1].pos == at + |body| + 1 && at + |body| < |p.text| && p.text[at + |body|] == ' '
        else at + |body| == |p.text|)
  }

  /** The piece of the run `lines[i..j]`. */
  ghost predicate Joins(lines: seq<Line>, i: nat, j: nat, p: Piece)
    requires IsRun(lines, i, j)
  {
    Holds(lines, i, j, p)
  }

  /** The markers are exactly the lines of the run that hold one, in order. */
  ghost predicate MarkersOf(lines: seq<Line>, i: nat, j: nat, markers: seq<(int, string)>)
    requires i <= j <= |lines| && forall k :: i <= k < j ==> lines[k].body.Some?
  {
    && (forall a, b :: 0 <= a < b < |markers| ==> markers[a].0 < markers[b].0)
    && (forall m :: m in markers <==> IsMarkerLine(lines, i, j, m))
  }

  ghost predicate IsMarkerLine(lines: seq<Line>, i: nat, j: nat, m: (int, string))
    requires i <= j <= |lines|
  {
    exists k :: i <= k < j && MarkerAt(lines, k, m)
  }

  /** Line `k` holds a marker, and this is its number and reason. */
  predicate MarkerAt(lines: seq<Line>, k: nat, m: (int, string))
    requires k < |lines|
  {
    && lines[k].body.Some? && lines[k].number == m.0 && ReasonOf(lines[k].body.value) == Some(m.1)
  }

  /** Join the run that starts at line `i`: each line's text, one space between,
      and where each starts. */
  method JoinRun(lines: seq<Line>, i: nat) returns (p: Piece, j: nat)
    requires i < |lines| && lines[i].body.Some? && Numbered(lines)
    ensures IsRun(lines, i, j) && Joins(lines, i, j, p)
  {
    p := Piece(lines[i].number, lines[i].body.value, [Offset(0, lines[i].number)], Marked([], lines[i]));
    j := i + 1;
    OneMarked(lines, i);
    while j < |lines| && lines[j].body.Some?
      invariant i < j <= |lines| && forall k :: i <= k < j ==> lines[k].body.Some?
      invariant Holds(lines, i, j, p)
    {
      ExtendJoins(lines, i, j, p);
      p := Extend(p, lines[j]);
      j := j + 1;
    }
  }

  /** One more line: a space, its text, and where it starts. */
  function Extend(p: Piece, line: Line): Piece
    requires line.body.Some?
  {
    Piece(p.startLine, p.text + " " + line.body.value, p.offsets + [Offset(|p.text| + 1, line.number)], Marked(p.markers, line))
  }

  /** The lines `i` to `j` are in the piece so far. */
  ghost predicate Holds(lines: seq<Line>, i: nat, j: nat, p: Piece)
    requires i < j <= |lines| && forall k :: i <= k < j ==> lines[k].body.Some?
  {
    && p.startLine == lines[i].number && |p.offsets| == j - i && p.offsets[0].pos == 0
    && (forall k :: 0 <= k < j - i ==> Placed(lines, i, p, k))
    && MarkersOf(lines, i, j, p.markers)
  }

  lemma ExtendJoins(lines: seq<Line>, i: nat, j: nat, p: Piece)
    requires i < j < |lines| && (forall k :: i <= k <= j ==> lines[k].body.Some?) && Numbered(lines)
    requires Holds(lines, i, j, p)
    ensures Holds(lines, i, j + 1, Extend(p, lines[j]))
  {
    var q, body := Extend(p, lines[j]), lines[j].body.value;
    MoreMarked(lines, i, j, p.markers);
    forall k | 0 <= k < j - i ensures Placed(lines, i, q, k) { StillPlaced(lines, i, p, q, body, k); }
    LastPlaced(lines, i, j, p);
  }

  lemma LastPlaced(lines: seq<Line>, i: nat, j: nat, p: Piece)
    requires i < j < |lines| && lines[j].body.Some? && |p.offsets| == j - i
    ensures Placed(lines, i, Extend(p, lines[j]), j - i)
  {
    var q, body := Extend(p, lines[j]), lines[j].body.value;
    assert q.text[|p.text| + 1..|p.text| + 1 + |body|] == body;
  }

  function Marked(markers: seq<(int, string)>, line: Line): seq<(int, string)>
    requires line.body.Some?
  {
    var reason := ReasonOf(line.body.value);
    if reason.Some? then markers + [(line.number, reason.value)] else markers
  }

  lemma OneMarked(lines: seq<Line>, i: nat)
    requires i < |lines| && lines[i].body.Some?
    ensures MarkersOf(lines, i, i + 1, Marked([], lines[i]))
  {
    forall m ensures m in Marked([], lines[i]) <==> IsMarkerLine(lines, i, i + 1, m) {
      if m in Marked([], lines[i]) { assert MarkerAt(lines, i, m); }
    }
  }

  lemma MoreMarked(lines: seq<Line>, i: nat, j: nat, markers: seq<(int, string)>)
    requires i <= j < |lines| && lines[j].body.Some? && Numbered(lines)
    requires (forall k :: i <= k < j ==> lines[k].body.Some?) && MarkersOf(lines, i, j, markers)
    ensures MarkersOf(lines, i, j + 1, Marked(markers, lines[j]))
  {
    var more := Marked(markers, lines[j]);
    forall m ensures m in more <==> IsMarkerLine(lines, i, j + 1, m) {
      if m in more {
        if m in markers {
          var k :| i <= k < j && MarkerAt(lines, k, m);
        } else {
          assert MarkerAt(lines, j, m);
        }
      }
      if IsMarkerLine(lines, i, j + 1, m) {
        var k :| i <= k < j + 1 && MarkerAt(lines, k, m);
        if k < j { assert IsMarkerLine(lines, i, j, m); }
      }
    }
    forall m | m in markers ensures m.0 < lines[j].number {
      var k :| i <= k < j && MarkerAt(lines, k, m);
    }
  }

  lemma StillPlaced(lines: seq<Line>, i: nat, p: Piece, q: Piece, body: string, k: nat)
    requires i + k < |lines| && k < |p.offsets| && lines[i + k].body.Some? && Placed(lines, i, p, k)
    requires q.text == p.text + " " + body && |q.offsets| == |p.offsets| + 1 && q.offsets[..|p.offsets|] == p.offsets
    requires q.offsets[|p.offsets|].pos == |p.text| + 1
    ensures Placed(lines, i, q, k)
  {
    var at, text := p.offsets[k].pos, lines[i + k].body.value;
    assert q.offsets[k] == q.offsets[..|p.offsets|][k];
    assert q.text[..|p.text|] == p.text;
    assert q.text[at..at + |text|] == p.text[at..at + |text|];
    if k + 1 < |p.offsets| {
      assert q.offsets[k + 1] == q.offsets[..|p.offsets|][k + 1];
      assert q.text[at + |text|] == p.text[at + |text|];
    }
  }

  // ------------------------------------------------------------- places

  /** The line of an offset: that of the last start at or before it. */
  function LineAt(offsets: seq<Offset>, offset: nat): int
    requires offsets != []
    decreases |offsets|
  {
    var last := |offsets| - 1;
    if last == 0 || offsets[last].pos <= offset then offsets[last].line else LineAt(offsets[..last], offset)
  }

  predicate Rising(offsets: seq<Offset>) {
    forall a, b :: 0 <= a < b < |offsets| ==> offsets[a].pos < offsets[b].pos
  }

  method LineOf(offsets: seq<Offset>, offset: nat) returns (line: int)
    requires offsets != [] && Rising(offsets) && offsets[0].pos == 0
    ensures line == LineAt(offsets, offset)
  {
    line := offsets[0].line;
    var k := 0;
    while k < |offsets| && offsets[k].pos <= offset
      invariant 0 <= k <= |offsets|
      invariant forall a :: 0 <= a < k ==> offsets[a].pos <= offset
      invariant k > 0 ==> line == offsets[k - 1].line
    {
      line := offsets[k].line;
      k := k + 1;
    }
    LineIs(offsets, offset, k - 1);
  }

  lemma {:induction false} LineIs(offsets: seq<Offset>, offset: nat, k: nat)
    requires Rising(offsets) && k < |offsets| && offsets[k].pos <= offset
    requires k + 1 < |offsets| ==> offset < offsets[k + 1].pos
    ensures LineAt(offsets, offset) == offsets[k].line
    decreases |offsets|
  {
    var last := |offsets| - 1;
    if k < last {
      assert offset < offsets[k + 1].pos <= offsets[last].pos;
      LineIs(offsets[..last], offset, k);
    }
  }

  lemma {:induction false} StartsRise(lines: seq<Line>, i: nat, j: nat, p: Piece, a: nat, b: nat)
    requires IsRun(lines, i, j) && Joins(lines, i, j, p) && a < b < |p.offsets|
    ensures p.offsets[a].pos < p.offsets[b].pos
    decreases b
  {
    assert Placed(lines, i, p, b - 1);
    if a < b - 1 { StartsRise(lines, i, j, p, a, b - 1); }
  }

  /** `LineOf` undoes the join: any place in a line's own text, or the space
      after it, is attributed to that line. */
  lemma LineOfInvertsJoin(lines: seq<Line>, i: nat, j: nat, p: Piece, k: nat, offset: nat)
    requires IsRun(lines, i, j) && Joins(lines, i, j, p) && k < j - i
    requires p.offsets[k].pos <= offset <= p.offsets[k].pos + |lines[i + k].body.value|
    ensures Rising(p.offsets) && LineAt(p.offsets, offset) == lines[i + k].number
  {
    forall a, b | 0 <= a < b < |p.offsets| ensures p.offsets[a].pos < p.offsets[b].pos {
      StartsRise(lines, i, j, p, a, b);
    }
    assert Placed(lines, i, p, k);
    LineIs(p.offsets, offset, k);
  }

  /** Every place of the joined text belongs to one of the lines so. */
  lemma {:induction false} EveryPlaceHasALine(lines: seq<Line>, i: nat, j: nat, p: Piece, offset: nat, n: nat) returns (k: nat)
    requires IsRun(lines, i, j) && Joins(lines, i, j, p) && 0 < n <= j - i
    requires offset <= |p.text| && (n < j - i ==> offset < p.offsets[n].pos)
    ensures k < n && p.offsets[k].pos <= offset <= p.offsets[k].pos + |lines[i + k].body.value|
    decreases n
  {
    assert Placed(lines, i, p, n - 1);
    if p.offsets[n - 1].pos <= offset {
      k := n - 1;
    } else {
      k := EveryPlaceHasALine(lines, i, j, p, offset, n - 1);
    }
  }

  // ------------------------------------------------------------ verdicts

  /** One match of one pattern, at an offset of the joined text. */
  datatype Match = Match(offset: nat, kind: Kind)

  datatype Kind = Addition | Bare

  datatype Finding = Finding(kind: Kind, line: int, reason: Option<string>)

  /** A line that a marker exempts. */
  datatype Claim = Claim(line: int, marker: int)

  function Distance(a: int, b: int): nat { if a < b then b - a else a - b }

  predicate RisingMarkers(markers: seq<(int, string)>) {
    forall a, b :: 0 <= a < b < |markers| ==> markers[a].0 < markers[b].0
  }

  /** A nearer marker is taken first, and of two as near the one above. */
  predicate Better(line: int, a: int, b: int) {
    Distance(a, line) < Distance(b, line) || (Distance(a, line) == Distance(b, line) && a < b)
  }

  predicate InReach(line: int, marker: int) { Distance(marker, line) <= REACH }

  /** The best unused marker in reach, if there is one. */
  ghost predicate IsBest(markers: seq<(int, string)>, used: set<int>, line: int, best: Option<(int, string)>) {
    match best
    case None => forall m :: m in markers && m.0 !in used ==> !InReach(line, m.0)
    case Some(b) =>
      && b in markers && b.0 !in used && InReach(line, b.0)
      && forall m :: m in markers && m.0 !in used && m.0 != b.0 ==> Better(line, b.0, m.0)
  }

  method BestMarker(markers: seq<(int, string)>, used: set<int>, line: int) returns (best: Option<(int, string)>)
    requires RisingMarkers(markers)
    ensures IsBest(markers, used, line, best)
  {
    best := None;
    for k := 0 to |markers|
      invariant IsBest(markers[..k], used, line, best)
    {
      assert markers[..k + 1] == markers[..k] + [markers[k]];
      var m := markers[k];
      forall x | x in markers[..k] ensures x.0 < m.0 {
        var a :| 0 <= a < k && markers[..k][a] == x;
        assert markers[a].0 < markers[k].0;
      }
      if m.0 !in used && InReach(line, m.0) && (best.None? || Distance(m.0, line) < Distance(best.value.0, line)) {
        best := Some(m);
      }
    }
    assert markers[..|markers|] == markers;
  }

  function Spent(claims: seq<Claim>): set<int> { set c | c in claims :: c.marker }

  function Covered(claims: seq<Claim>): set<int> { set c | c in claims :: c.line }

  /** Each claim took the best marker no earlier one had taken, for a new line. */
  ghost predicate Greedy(markers: seq<(int, string)>, claims: seq<Claim>) {
    forall n :: 0 <= n < |claims| ==> GreedyAt(markers, claims, n)
  }

  ghost predicate GreedyAt(markers: seq<(int, string)>, claims: seq<Claim>, n: nat)
    requires n < |claims|
  {
    && claims[n].line !in Covered(claims[..n])
    && exists reason :: IsBest(markers, Spent(claims[..n]), claims[n].line, Some((claims[n].marker, reason)))
  }

  /** The verdict of one match: exempt with its marker's reason exactly when its
      line is claimed; otherwise every marker in reach is spent elsewhere. */
  ghost predicate Judged(markers: seq<(int, string)>, claims: seq<Claim>, f: Finding) {
    && (f.reason.Some? <==> f.line in Covered(claims))
    && (f.reason.Some? ==> exists c :: c in claims && c.line == f.line && (c.marker, f.reason.value) in markers)
    && (f.reason.None? ==> forall m :: m in markers && InReach(f.line, m.0) ==> m.0 in Spent(claims))
  }

  ghost predicate Reports(m: Match, offsets: seq<Offset>, f: Finding)
    requires offsets != []
  {
    f.kind == m.kind && f.line == LineAt(offsets, m.offset)
  }

  /** Every claim is for a line that has a match. */
  ghost predicate Grounded(out: seq<Finding>, claims: seq<Claim>) {
    forall c | c in claims :: exists n :: 0 <= n < |out| && out[n].line == c.line
  }

  lemma GroundedMore(out: seq<Finding>, f: Finding, claims: seq<Claim>, marker: int)
    requires Grounded(out, claims)
    ensures Grounded(out + [f], claims) && Grounded(out + [f], claims + [Claim(f.line, marker)])
  {
    assert (out + [f])[|out|].line == f.line;
    forall c | c in claims ensures exists n :: 0 <= n < |out + [f]| && (out + [f])[n].line == c.line {
      var n :| 0 <= n < |out| && out[n].line == c.line;
      assert (out + [f])[n].line == c.line;
    }
  }

  /** The loop's own bookkeeping: which lines are exempt and why, and which
      markers are spent, as the claims say. */
  ghost predicate Booked(markers: seq<(int, string)>, claims: seq<Claim>, claimed: map<int, string>, used: set<int>) {
    && Greedy(markers, claims) && used == Spent(claims) && claimed.Keys == Covered(claims)
    && forall c :: c in claims ==> c.line in claimed && (c.marker, claimed[c.line]) in markers
  }

  ghost predicate AllJudged(markers: seq<(int, string)>, claims: seq<Claim>, out: seq<Finding>) {
    Grounded(out, claims) && forall k :: 0 <= k < |out| ==> Judged(markers, claims, out[k])
  }

  /** Every match once, in order of place, with its line's one verdict. */
  method FindViolations(matches: seq<Match>, offsets: seq<Offset>, markers: seq<(int, string)>)
    returns (out: seq<Finding>, ghost order: seq<Match>, ghost claims: seq<Claim>)
    requires offsets != [] && Rising(offsets) && offsets[0].pos == 0 && RisingMarkers(markers)
    ensures multiset(order) == multiset(matches) && InPlaceOrder(order) && |out| == |order|
    ensures forall n :: 0 <= n < |out| ==> Reports(order[n], offsets, out[n])
    ensures AllJudged(markers, claims, out) && Greedy(markers, claims)
  {
    var sorted := SortMatches(matches);
    var claimed: map<int, string>, used: set<int> := map[], {};
    out, order, claims := [], sorted, [];
    for n := 0 to |sorted|
      invariant |out| == n && forall k :: 0 <= k < n ==> Reports(sorted[k], offsets, out[k])
      invariant Booked(markers, claims, claimed, used) && AllJudged(markers, claims, out)
    {
      var line := LineOf(offsets, sorted[n].offset);
      var reason;
      reason, claimed, used, claims := Judge(markers, line, sorted[n].kind, claimed, used, out, claims);
      out := out + [Finding(sorted[n].kind, line, reason)];
    }
  }

  /** The verdict on one line: the one it has, or the best marker left. */
  method Judge(markers: seq<(int, string)>, line: int, kind: Kind, claimed: map<int, string>, used: set<int>,
               ghost out: seq<Finding>, ghost claims: seq<Claim>)
    returns (reason: Option<string>, claimed': map<int, string>, used': set<int>, ghost claims': seq<Claim>)
    requires RisingMarkers(markers) && Booked(markers, claims, claimed, used) && AllJudged(markers, claims, out)
    ensures Booked(markers, claims', claimed', used') && AllJudged(markers, claims', out + [Finding(kind, line, reason)])
  {
    reason, claimed', used', claims' := None, claimed, used, claims;
    if line in claimed {
      reason := Some(claimed[line]);
      SameVerdict(markers, claims, out, Finding(kind, line, reason));
    } else {
      var best := BestMarker(markers, used, line);
      if best.None? {
        NoMarkerLeft(markers, claims, claimed, used, out, Finding(kind, line, None));
      } else {
        reason := Some(best.value.1);
        claims' := claims + [Claim(line, best.value.0)];
        used' := used + {best.value.0};
        claimed' := claimed[line := best.value.1];
        NewClaim(markers, claims, claimed, used, out, Finding(kind, line, reason), best.value);
      }
    }
  }

  lemma SameVerdict(markers: seq<(int, string)>, claims: seq<Claim>, out: seq<Finding>, f: Finding)
    requires AllJudged(markers, claims, out) && f.reason.Some? && f.line in Covered(claims)
    requires forall c :: c in claims && c.line == f.line ==> (c.marker, f.reason.value) in markers
    ensures AllJudged(markers, claims, out + [f])
  {
    GroundedMore(out, f, claims, 0);
    var c :| c in claims && c.line == f.line;
    ClaimedJudged(markers, claims, f, c);
    JudgedMore(markers, claims, out, f);
  }

  lemma ClaimedJudged(markers: seq<(int, string)>, claims: seq<Claim>, f: Finding, c: Claim)
    requires f.reason.Some? && c in claims && c.line == f.line && (c.marker, f.reason.value) in markers
    ensures Judged(markers, claims, f)
  {
  }

  lemma JudgedMore(markers: seq<(int, string)>, claims: seq<Claim>, out: seq<Finding>, f: Finding)
    requires (forall k :: 0 <= k < |out| ==> Judged(markers, claims, out[k])) && Judged(markers, claims, f)
    requires Grounded(out + [f], claims)
    ensures AllJudged(markers, claims, out + [f])
  {
    forall k | 0 <= k < |out + [f]| ensures Judged(markers, claims, (out + [f])[k]) {
      if k < |out| { assert (out + [f])[k] == out[k]; }
    }
  }

  lemma NoMarkerLeft(markers: seq<(int, string)>, claims: seq<Claim>, claimed: map<int, string>, used: set<int>,
                     out: seq<Finding>, f: Finding)
    requires Booked(markers, claims, claimed, used) && AllJudged(markers, claims, out)
    requires f.line !in claimed && f.reason == None && IsBest(markers, used, f.line, None)
    ensures AllJudged(markers, claims, out + [f])
  {
    GroundedMore(out, f, claims, 0);
  }

  lemma NewClaim(markers: seq<(int, string)>, claims: seq<Claim>, claimed: map<int, string>, used: set<int>,
                 out: seq<Finding>, f: Finding, best: (int, string))
    requires Booked(markers, claims, claimed, used) && AllJudged(markers, claims, out)
    requires f.line !in claimed && f.reason == Some(best.1) && IsBest(markers, used, f.line, Some(best))
    ensures var more := claims + [Claim(f.line, best.0)];
      Booked(markers, more, claimed[f.line := best.1], used + {best.0}) && AllJudged(markers, more, out + [f])
  {
    var more := claims + [Claim(f.line, best.0)];
    OneMoreClaim(markers, claims, f.line, best);
    GroundedMore(out, f, claims, best.0);
    forall k | 0 <= k < |out| ensures Judged(markers, more, out[k]) {
      StillJudged(markers, claims, more, out[k], f.line, best);
    }
    ClaimedJudged(markers, more, f, Claim(f.line, best.0));
    JudgedMore(markers, more, out, f);
    BookedMore(markers, claims, claimed, used, f.line, best);
  }

  lemma BookedMore(markers: seq<(int, string)>, claims: seq<Claim>, claimed: map<int, string>, used: set<int>,
                   line: int, best: (int, string))
    requires Booked(markers, claims, claimed, used) && best in markers && line !in claimed
    requires Greedy(markers, claims + [Claim(line, best.0)])
    ensures Booked(markers, claims + [Claim(line, best.0)], claimed[line := best.1], used + {best.0})
  {
    var more := claims + [Claim(line, best.0)];
    var covered := claimed[line := best.1];
    forall c | c in more ensures c.line in covered && (c.marker, covered[c.line]) in markers {
      if c != Claim(line, best.0) { assert c in claims && c.line in claimed && c.line != line; }
      else { assert (best.0, best.1) == best; }
    }
    assert Spent(more) == Spent(claims) + {best.0} && Covered(more) == Covered(claims) + {line};
  }

  lemma OneMoreClaim(markers: seq<(int, string)>, claims: seq<Claim>, line: int, best: (int, string))
    requires Greedy(markers, claims) && line !in Covered(claims)
    requires IsBest(markers, Spent(claims), line, Some(best))
    ensures var more := claims + [Claim(line, best.0)];
      Greedy(markers, more) && Spent(more) == Spent(claims) + {best.0} && Covered(more) == Covered(claims) + {line}
  {
    var more := claims + [Claim(line, best.0)];
    forall n | 0 <= n < |more| ensures GreedyAt(markers, more, n) {
      if n < |claims| {
        assert GreedyAt(markers, claims, n) && more[..n] == claims[..n];
      } else {
        assert more[..n] == claims;
        assert IsBest(markers, Spent(claims), line, Some((best.0, best.1)));
      }
    }
  }

  lemma StillJudged(markers: seq<(int, string)>, was: seq<Claim>, now: seq<Claim>, f: Finding, line: int, best: (int, string))
    requires Judged(markers, was, f) && now == was + [Claim(line, best.0)]
    requires line !in Covered(was) && IsBest(markers, Spent(was), line, Some(best))
    ensures Judged(markers, now, f)
  {
    assert Spent(now) == Spent(was) + {best.0} && Covered(now) == Covered(was) + {line};
    if f.reason.None? { assert best in markers && best.0 !in Spent(was); }
  }

  /** The sort key: the offset, then the kind. */
  function Place(m: Match): nat { 2 * m.offset + if m.kind.Bare? then 1 else 0 }

  predicate AtOrBefore(a: Match, b: Match) { Place(a) <= Place(b) }

  predicate InPlaceOrder(ms: seq<Match>) { forall a, b :: 0 <= a < b < |ms| ==> AtOrBefore(ms[a], ms[b]) }

  method InsertMatch(ms: seq<Match>, m: Match) returns (more: seq<Match>)
    requires InPlaceOrder(ms)
    ensures InPlaceOrder(more) && multiset(more) == multiset(ms) + multiset{m}
  {
    var k := |ms|;
    while k > 0 && !AtOrBefore(ms[k - 1], m)
      invariant 0 <= k <= |ms| && forall a :: k <= a < |ms| ==> AtOrBefore(m, ms[a])
    {
      k := k - 1;
    }
    assert ms == ms[..k] + ms[k..];
    more := ms[..k] + [m] + ms[k..];
    InsertedInOrder(ms, m, k);
  }

  lemma InsertedInOrder(ms: seq<Match>, m: Match, k: nat)
    requires InPlaceOrder(ms) && k <= |ms| && (k > 0 ==> AtOrBefore(ms[k - 1], m))
    requires forall a :: k <= a < |ms| ==> AtOrBefore(m, ms[a])
    ensures InPlaceOrder(ms[..k] + [m] + ms[k..])
  {
    var more := ms[..k] + [m] + ms[k..];
    forall a | 0 <= a < k ensures AtOrBefore(ms[a], m) { assert a < k - 1 ==> AtOrBefore(ms[a], ms[k - 1]); }
    forall a, b | 0 <= a < b < |more| ensures AtOrBefore(more[a], more[b]) {
      assert more[a] == (if a < k then ms[a] else if a == k then m else ms[a - 1]);
      assert more[b] == (if b < k then ms[b] else if b == k then m else ms[b - 1]);
    }
  }

  method SortMatches(matches: seq<Match>) returns (sorted: seq<Match>)
    ensures InPlaceOrder(sorted) && multiset(sorted) == multiset(matches)
  {
    sorted := [];
    for n := 0 to |matches|
      invariant InPlaceOrder(sorted) && multiset(sorted) == multiset(matches[..n])
    {
      assert matches[..n + 1] == matches[..n] + [matches[n]];
      sorted := InsertMatch(sorted, matches[n]);
    }
    assert matches[..|matches|] == matches;
  }

  /** What the verdicts come to: claims are one to one between markers and lines,
      a marker reaches at most `REACH` lines, and a line has one verdict. */
  lemma OneMarkerOneLine(markers: seq<(int, string)>, claims: seq<Claim>, a: nat, b: nat)
    requires Greedy(markers, claims) && a < b < |claims|
    ensures claims[a].line != claims[b].line && claims[a].marker != claims[b].marker
    ensures InReach(claims[a].line, claims[a].marker) && InReach(claims[b].line, claims[b].marker)
  {
    assert GreedyAt(markers, claims, a) && GreedyAt(markers, claims, b);
    assert claims[a] in claims[..b];
  }

  lemma OneVerdictALine(markers: seq<(int, string)>, claims: seq<Claim>, f: Finding, g: Finding)
    requires Greedy(markers, claims) && RisingMarkers(markers)
    requires Judged(markers, claims, f) && Judged(markers, claims, g) && f.line == g.line
    ensures f.reason == g.reason
  {
    if f.reason.Some? {
      var c :| c in claims && c.line == f.line && (c.marker, f.reason.value) in markers;
      var d :| d in claims && d.line == g.line && (d.marker, g.reason.value) in markers;
      var a :| 0 <= a < |claims| && claims[a] == c;
      var b :| 0 <= b < |claims| && claims[b] == d;
      if a < b { OneMarkerOneLine(markers, claims, a, b); }
      if b < a { OneMarkerOneLine(markers, claims, b, a); }
      var x :| 0 <= x < |markers| && markers[x] == (c.marker, f.reason.value);
      var y :| 0 <= y < |markers| && markers[y] == (d.marker, g.reason.value);
    }
  }
}
