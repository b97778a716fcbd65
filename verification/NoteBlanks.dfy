/** Blanking a file's own marker lines, in place, before asking whether its text
    can be read at all: a marker carries a file name as the filesystem gave it. */
module NoteBlanks {
  import opened Wrappers
  import opened NoteText
  import opened NoteMarkers

  predicate IsMarkerLine(line: Bytes) { ParseMarker(line).Some? }

  function Spaces(n: nat): (r: Bytes)
    ensures |r| == n && forall i :: 0 <= i < n ==> r[i] == ' '
  {
    seq(n, i => ' ')
  }

  function BlankLine(line: Bytes): (r: Bytes)
    ensures |r| == |line| && (NoEol(line) ==> NoEol(r))
  {
    if IsMarkerLine(line) then Spaces(|line|) else line
  }

  /** The first line of a text, its ending, and what follows. */
  datatype Cut = Cut(line: Bytes, ending: Bytes, rest: Bytes)

  predicate IsEnding(e: Bytes, rest: Bytes) {
    e == "\n" || e == "\r\n" || (e == "\r" && (rest == [] || rest[0] != '\n'))
  }

  function FirstLine(s: Bytes): (c: Cut)
    ensures NoEol(c.line) && |s| == |c.line| + |c.ending| + |c.rest|
    ensures if c.ending == [] then c.rest == [] else IsEnding(c.ending, c.rest)
  {
    if s == [] then Cut([], [], [])
    else if s[0] == '\r' && |s| > 1 && s[1] == '\n' then Cut([], s[..2], s[2..])
    else if IsEol(s[0]) then Cut([], s[..1], s[1..])
    else
      var c := FirstLine(s[1..]);
      Cut([s[0]] + c.line, c.ending, c.rest)
  }

  lemma {:induction false} FirstLineParts(s: Bytes)
    ensures var c := FirstLine(s); s == c.line + c.ending + c.rest
  {
    if s != [] && !IsEol(s[0]) {
      FirstLineParts(s[1..]);
      var c := FirstLine(s[1..]);
      assert s == [s[0]] + (c.line + c.ending + c.rest);
      Joined([s[0]], c.line, c.ending, c.rest);
    }
  }

  /** The text with each marker line blanked, endings kept. */
  function Blanked(s: Bytes): (r: Bytes)
    ensures |r| == |s|
    decreases |s|
  {
    var c := FirstLine(s);
    if c.ending == [] then BlankLine(c.line) else BlankLine(c.line) + c.ending + Blanked(c.rest)
  }

  /** Blank each marker line of a buffer, line after line, in place. */
  method WithoutMarkers(out: array<char>)
    modifies out
    ensures out[..] == Blanked(old(out[..]))
  {
    ghost var data := out[..];
    ghost var rest := data;
    var start := 0;
    assert [] + Blanked(data) == Blanked(data);
    while start < out.Length
      invariant 0 <= start <= out.Length && out[start..] == rest
      invariant Blanked(data) == out[..start] + Blanked(rest)
      decreases out.Length - start
    {
      ghost var done := out[..start];
      BlankedNext(rest);
      ghost var c := FirstLine(rest);
      start := BlankFirst(out, start);
      Joined(done, BlankLine(c.line), c.ending, Blanked(c.rest));
      rest := c.rest;
    }
    assert rest == [] && Blanked([]) == [] && out[..start] == out[..];
  }

  /** The line that starts at `start`; `next` is where the one after it does. */
  method BlankFirst(out: array<char>, start: nat) returns (next: nat)
    requires start < out.Length
    modifies out
    ensures start < next <= out.Length
    ensures var c := FirstLine(old(out[start..]));
      out[..next] == old(out[..start]) + BlankLine(c.line) + c.ending && out[next..] == c.rest
  {
    var c := FirstLine(out[start..]);
    FirstLineParts(out[start..]);
    var to := start + |c.line|;
    next := to + |c.ending|;
    TakenApart(out[..], c, start, to, next);
    if IsMarkerLine(c.line) { BlankRange(out, start, to); }
    Spliced(out[..], old(out[..start]), BlankLine(c.line), c.ending, c.rest, start, to, next);
  }

  lemma TakenApart(s: Bytes, c: Cut, i: nat, j: nat, k: nat)
    requires i <= j <= k <= |s| && s[i..] == c.line + c.ending + c.rest
    requires j == i + |c.line| && k == j + |c.ending|
    ensures s[i..j] == c.line && s[j..k] == c.ending && s[k..] == c.rest
  {
    assert s[i..j] == s[i..][..|c.line|];
    assert s[j..k] == s[i..][|c.line|..|c.line| + |c.ending|];
    assert s[k..] == s[i..][|c.line| + |c.ending|..];
  }

  lemma Joined(a: Bytes, b: Bytes, c: Bytes, d: Bytes)
    ensures a + (b + c + d) == a + b + c + d
  {
  }

  lemma Spliced(s: Bytes, a: Bytes, b: Bytes, c: Bytes, d: Bytes, i: nat, j: nat, k: nat)
    requires i <= j <= k <= |s| && s[..i] == a && s[i..j] == b && s[j..k] == c && s[k..] == d
    ensures s[..k] == a + b + c
  {
  }

  lemma BlankedNext(s: Bytes)
    ensures var c := FirstLine(s); Blanked(s) == BlankLine(c.line) + c.ending + Blanked(c.rest)
  {
    var c := FirstLine(s);
    if c.ending == [] {
      assert FirstLine([]) == Cut([], [], []) && Blanked([]) == [];
      assert BlankLine(c.line) + [] + [] == BlankLine(c.line);
    }
  }

  method BlankRange(out: array<char>, from: nat, to: nat)
    requires from <= to <= out.Length
    modifies out
    ensures out[from..to] == Spaces(to - from)
    ensures out[..from] == old(out[..from]) && out[to..] == old(out[to..])
  {
    for i := from to to
      invariant forall j :: from <= j < i ==> out[j] == ' '
      invariant out[..from] == old(out[..from]) && out[to..] == old(out[to..])
    {
      out[i] := ' ';
    }
  }

  // -------------------------------------------------------- what it keeps

  function BlankEach(ls: seq<Bytes>): (r: seq<Bytes>)
    ensures |r| == |ls|
  {
    seq(|ls|, i requires 0 <= i < |ls| => BlankLine(ls[i]))
  }

  /** Splitting takes the text apart line by line. */
  lemma SplitFirst(s: Bytes)
    ensures var c := FirstLine(s);
      SplitLines(s) == [c.line] + if c.ending == [] then [] else SplitLines(c.rest)
  {
    var c := FirstLine(s);
    FirstLineParts(s);
    if c.ending == [] {
      assert s == c.line + [];
      SplitAfter(c.line, []);
      assert SplitLines([]) == [[]] && c.line + [] == c.line;
    } else {
      LineOfJoined(c.line, c.ending, c.rest);
    }
  }

  lemma LineOfJoined(x: Bytes, e: Bytes, t: Bytes)
    requires NoEol(x) && IsEnding(e, t)
    ensures SplitLines(x + e + t) == [x] + SplitLines(t)
  {
    SplitAfter(x, e + t);
    assert x + e + t == x + (e + t);
    if e == "\n" { SplitLf(t); } else if e == "\r\n" { SplitCrLf(t); } else { SplitCr(t); }
    assert x + [] == x;
  }

  lemma StillAnEnding(e: Bytes, rest: Bytes)
    requires IsEnding(e, rest)
    ensures IsEnding(e, Blanked(rest))
  {
    if rest != [] && rest[0] != '\n' {
      BlankedNext(rest);
      var c := FirstLine(rest);
      var line := BlankLine(c.line);
      if line != [] {
        assert Blanked(rest)[0] == line[0] && !IsEol(line[0]);
      } else {
        assert Blanked(rest)[0] == c.ending[0] == rest[0];
      }
    }
  }

  /** Every line is where it was, as long as it was, and its marker lines only
      are blank; so every offset is still an offset into the file. */
  lemma {:induction false} BlankedLines(s: Bytes)
    ensures SplitLines(Blanked(s)) == BlankEach(SplitLines(s))
    decreases |s|
  {
    var c := FirstLine(s);
    SplitFirst(s);
    if c.ending == [] {
      SplitAfter(BlankLine(c.line), []);
      assert BlankLine(c.line) + [] == BlankLine(c.line) && SplitLines([]) == [[]];
    } else {
      BlankedLines(c.rest);
      StillAnEnding(c.ending, c.rest);
      LineOfJoined(BlankLine(c.line), c.ending, Blanked(c.rest));
      BlankTwo(c.line, SplitLines(c.rest));
    }
  }

  lemma BlankTwo(line: Bytes, ls: seq<Bytes>)
    ensures BlankEach([line] + ls) == [BlankLine(line)] + BlankEach(ls)
  {
  }

  /** Nothing of it still reads as a marker. */
  lemma NoMarkerLeft(s: Bytes, i: nat)
    requires i < |SplitLines(Blanked(s))|
    ensures !IsMarkerLine(SplitLines(Blanked(s))[i])
  {
    BlankedLines(s);
    SpacesAreNoMarker(|SplitLines(s)[i]|);
  }

  lemma SpacesAreNoMarker(n: nat)
    ensures !IsMarkerLine(Spaces(n))
  {
    MarkersStart(Spaces(n));
  }

  lemma MarkersStart(line: Bytes)
    ensures IsMarkerLine(line) ==> line[0] == '<'
  {
  }
}
