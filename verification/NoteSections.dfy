/** The section `build` writes for one fragment, the file it builds, and
    `assert_section_present`, the search that must find such a section before
    its marker may authorise a removal. */
module NoteSections {
  import opened NoteText
  import opened NoteMarkers

  /** A pending fragment as one run holds it: its name, the bytes of its working
      copy, the SHA-256 of those bytes as hex, and the commit note this run
      writes after it. */
  datatype Fragment = Fragment(name: string, text: Bytes, digest: string, note: Bytes)

  // ------------------------------------------------------------------ build

  function Stem(b: Bytes): Bytes {
    if b != [] && b[|b| - 1] == '\n' then Butlast(b) else b
  }

  /** `b` ending in exactly the newline it had, or given one. */
  function Closed(b: Bytes): (c: Bytes)
    ensures c == Stem(b) + "\n"
  {
    if b != [] && b[|b| - 1] == '\n' then b else b + "\n"
  }

  /** The separator and the published text: what comes before the note. */
  function Head(text: Bytes): Bytes { "\n" + Closed(RewriteLinks(text)) }

  function RecordOf(f: Fragment): Record { Record(f.digest, f.name) }

  /** The bytes `build` appends for one fragment. */
  function SectionOf(f: Fragment): Bytes {
    Head(f.text) + "\n" + f.note + "\n" + MarkerLine(RecordOf(f))
  }

  /** The dated file once the fragments are appended, one after the other. */
  function Build(was: Bytes, fs: seq<Fragment>): Bytes {
    if fs == [] then was else Build(was, Butlast(fs)) + SectionOf(fs[|fs| - 1])
  }

  /** The first bytes of a dated file that does not exist yet, the dash of its
      title as UTF-8 writes it. */
  function NewFile(date: string): Bytes { TITLE + date + "\n" }

  const TITLE: Bytes := "# Release Notes \U{E2}\U{80}\U{94} "

  const DATED_NOTE: Bytes := "_Committed "
  const UNDATED_NOTE: Bytes := "_Commit time not recorded: "

  predicate Between(l: Bytes, open: Bytes, close: Bytes) {
    open <= l && |l| >= |open| + |close| && l[|l| - |close|..] == close
  }

  /** One line in the form of the commit note, its newline included. */
  predicate IsNoteLine(l: Bytes) {
    && (Between(l, DATED_NOTE, "_\n") || Between(l, UNDATED_NOTE, "_\n"))
    && forall i :: 0 <= i < |l| - 1 ==> l[i] != '\n'
  }

  /** A note this script writes: dated or undated, on one line. */
  predicate ValidNote(note: Bytes) { NoEol(note) && IsNoteLine(note + "\n") }

  /** What `discover`, `snapshot` and the dating guarantee of a fragment. */
  predicate Accepted(f: Fragment) {
    && NameDiscovered(f.name) && !HasDelimiter(f.name)
    && FragmentAllowed(f.text) && IsDigest(f.digest) && ValidNote(f.note)
  }

  // ------------------------------------------------ marker round trip

  lemma NoteScansEmpty(note: Bytes)
    requires ValidNote(note)
    ensures ScanData(note) == Found([])
  {
    ScanOneLine(note);
    assert (note + "\n")[0] == note[0];
  }

  lemma BodyScansEmpty(text: Bytes)
    requires FragmentAllowed(text)
    ensures ScanData(Stem(RewriteLinks(text))) == Found([])
  {
    var b := RewriteLinks(text);
    RewriteKeepsAllowed(text);
    AllowedIffScansEmpty(b);
    if Stem(b) != b {
      ScanAtLf(Stem(b), []);
      assert b == Stem(b) + "\n" + [];
      ScanOneLine([]);
      ScanBlank();
      BothUnit(ScanData(Stem(b)));
    }
  }

  lemma PartsJoined(was: Bytes, stem: Bytes, note: Bytes, marker: Bytes)
    ensures was + ("\n" + (stem + "\n") + "\n" + note + "\n" + (marker + "\n"))
         == was + "\n" + stem + "\n" + [] + "\n" + note + "\n" + marker + "\n" + []
  {
    var b0 := "\n" + (stem + "\n");
    var b1 := b0 + "\n";
    var b2 := b1 + note;
    var b3 := b2 + "\n";
    Assoc(was, b3, marker + "\n");
    Assoc(was, b2, "\n");
    Assoc(was, b1, note);
    Assoc(was, b0, "\n");
    Assoc(was, "\n", stem + "\n");
    Assoc(was + "\n", stem, "\n");
    Assoc(was + b3, marker, "\n");
    NilRight(was + "\n" + stem + "\n");
    NilRight(was + b3 + marker + "\n");
  }

  lemma NilRight(a: Bytes)
    ensures a + [] == a
  {
  }

  lemma ScanOfParts(was: Bytes, stem: Bytes, note: Bytes, marker: Bytes)
    requires ScanData(stem) == Found([]) && ScanData(note) == Found([])
    ensures ScanData(was + ("\n" + (stem + "\n") + "\n" + note + "\n" + (marker + "\n")))
         == Both(ScanData(was), ScanData(marker))
  {
    var s1 := was + "\n" + stem;
    var s2 := s1 + "\n" + [];
    var s3 := s2 + "\n" + note;
    var s4 := s3 + "\n" + marker;
    var s5 := s4 + "\n" + [];
    PartsJoined(was, stem, note, marker);
    ScanAtLf(was, stem);
    ScanAtLf(s1, []);
    ScanAtLf(s2, note);
    ScanAtLf(s3, marker);
    ScanAtLf(s4, []);
    ScanOneLine([]);
    ScanBlank();
    BothUnit(ScanData(was));
    BothUnit(ScanData(s4));
  }

  /** Folding one fragment in adds exactly its own record, whatever the old
      file ends with. */
  lemma ScanOfSection(was: Bytes, f: Fragment)
    requires Accepted(f) && NoCr(f.name)
    ensures ScanData(was + SectionOf(f)) == Both(ScanData(was), Found([RecordOf(f)]))
  {
    var r := RecordOf(f);
    BodyScansEmpty(f.text);
    NoteScansEmpty(f.note);
    MarkerScans(r);
    ScanOneLine(MarkerText(r));
    ScanOfParts(was, Stem(RewriteLinks(f.text)), f.note, MarkerText(r));
  }

  /** And a name with a CR adds nothing: its marker is broken in two. */
  lemma ScanOfCrSection(was: Bytes, f: Fragment)
    requires Accepted(f) && !NoCr(f.name)
    ensures ScanData(was + SectionOf(f)) == ScanData(was)
  {
    BodyScansEmpty(f.text);
    NoteScansEmpty(f.note);
    CrMarkerScansEmpty(RecordOf(f));
    ScanOfParts(was, Stem(RewriteLinks(f.text)), f.note, MarkerText(RecordOf(f)));
    BothUnit(ScanData(was));
  }

  /** The records the fragments of a build leave in the file: one for each
      whose name a scan can read back, in order. */
  function Records(fs: seq<Fragment>): seq<Record> {
    if fs == [] then []
    else
      var f := fs[|fs| - 1];
      Records(Butlast(fs)) + if NoCr(f.name) then [RecordOf(f)] else []
  }

  lemma {:induction false} RecordsAre(fs: seq<Fragment>)
    ensures forall r :: r in Records(fs) <==> exists i :: 0 <= i < |fs| && NoCr(fs[i].name) && r == RecordOf(fs[i])
  {
    if fs != [] {
      var init, last := Butlast(fs), fs[|fs| - 1];
      RecordsAre(init);
      forall r ensures r in Records(fs) <==> exists i :: 0 <= i < |fs| && NoCr(fs[i].name) && r == RecordOf(fs[i]) {
        if i :| 0 <= i < |init| && NoCr(init[i].name) && r == RecordOf(init[i]) { assert fs[i] == init[i]; }
        if i :| 0 <= i < |fs| && NoCr(fs[i].name) && r == RecordOf(fs[i]) {
          if i < |init| { assert init[i] == fs[i]; }
        }
      }
    }
  }

  predicate AllAccepted(fs: seq<Fragment>) {
    forall i :: 0 <= i < |fs| ==> Accepted(fs[i])
  }

  /** The marker round trip through a whole file: scanning what `build` wrote
      yields the old records and then, in order, one per fragment whose name has
      no CR, and nothing else. */
  lemma {:induction false} ScanOfBuild(was: Bytes, fs: seq<Fragment>)
    requires AllAccepted(fs)
    ensures ScanData(Build(was, fs)) == Both(ScanData(was), Found(Records(fs)))
  {
    if fs == [] {
      BothUnit(ScanData(was));
    } else {
      var init, last := Butlast(fs), fs[|fs| - 1];
      assert AllAccepted(init) && Accepted(last);
      ScanOfBuild(was, init);
      ScanOfStep(ScanData(was), Build(was, init), Records(init), last);
    }
  }

  lemma ScanOfStep(s: Scan, so: Bytes, rs: seq<Record>, f: Fragment)
    requires Accepted(f) && ScanData(so) == Both(s, Found(rs))
    ensures ScanData(so + SectionOf(f)) == Both(s, Found(rs + if NoCr(f.name) then [RecordOf(f)] else []))
  {
    if NoCr(f.name) {
      ScanOfSection(so, f);
      BothAssoc(s, Found(rs), Found([RecordOf(f)]));
    } else {
      ScanOfCrSection(so, f);
      assert rs + [] == rs;
    }
  }

  /** The round trip is exact: a section's own record reads back if and only if
      its name holds no CR, the one byte `discover` should refuse and does not. */
  lemma SectionReadsBackIff(was: Bytes, f: Fragment)
    requires Accepted(f) && ScanData(was).Found?
    ensures ScanData(was + SectionOf(f)) == Found(ScanData(was).records + [RecordOf(f)])
       <==> NoCr(f.name)
  {
    if NoCr(f.name) {
      ScanOfSection(was, f);
    } else {
      CrNameNeverScanned(was + SectionOf(f), RecordOf(f));
      assert RecordOf(f) in ScanData(was).records + [RecordOf(f)];
    }
  }

  // --------------------------------------------- the section search

  /** Whitespace as `bytes.strip` knows it. */
  predicate IsSpace(c: char) {
    c == ' ' || c == '\t' || c == '\n' || c == '\r' || c == '\U{0B}' || c == '\U{0C}'
  }

  predicate IsBlank(b: Bytes) { forall i :: 0 <= i < |b| ==> IsSpace(b[i]) }

  /** The length of the line `s` opens with, its LF included; 0 with no LF. */
  function LineLength(s: Bytes): (n: nat)
    ensures n <= |s|
    ensures n > 0 ==> s[n - 1] == '\n' && forall i :: 0 <= i < n - 1 ==> s[i] != '\n'
    ensures n == 0 ==> forall i :: 0 <= i < |s| ==> s[i] != '\n'
  {
    if s == [] then 0
    else if s[0] == '\n' then 1
    else var k := LineLength(s[1..]); if k == 0 then 0 else k + 1
  }

  /** The pattern matches at the start of `t`: the head, at most one note
      paragraph, then the marker. */
  predicate MatchHere(t: Bytes, head: Bytes, marker: Bytes) {
    head <= t &&
    var r := t[|head|..];
    marker <= r ||
    (r != [] && r[0] == '\n' &&
     var k := LineLength(r[1..]);
     IsNoteLine(r[1..k + 1]) && marker <= r[k + 1..])
  }

  predicate Search(t: Bytes, head: Bytes, marker: Bytes) {
    MatchHere(t, head, marker) || (t != [] && Search(t[1..], head, marker))
  }

  /** `assert_section_present` lets the removal of `text` go ahead. */
  predicate SectionPresent(text: Bytes, r: Record, file: Bytes) {
    IsBlank(RewriteLinks(text)) || Search(Norm(file), Norm(Head(text)), MarkerLine(r))
  }

  /** What may stand between a section's text and its marker. */
  predicate NotePart(n: Bytes) {
    n == [] || (n[0] == '\n' && IsNoteLine(n[1..]))
  }

  /** `t` holds the head, a note part and the marker, in that order. */
  ghost predicate HoldsParts(t: Bytes, head: Bytes, marker: Bytes) {
    exists before, n, after :: NotePart(n) && t == before + head + n + marker + after
  }

  /** `file`, CRLF endings aside, holds the exact published text directly before
      the marker, with at most one commit note between the two. */
  ghost predicate HoldsSection(text: Bytes, r: Record, file: Bytes) {
    HoldsParts(Norm(file), Norm(Head(text)), MarkerLine(r))
  }


  lemma MatchFinds(t: Bytes, head: Bytes, marker: Bytes)
    requires MatchHere(t, head, marker)
    ensures HoldsParts(t, head, marker)
  {
    var r := t[|head|..];
    if marker <= r {
      SearchParts([], head, [], marker, r[|marker|..]);
      assert t == [] + (head + ([] + (marker + r[|marker|..])));
    } else {
      var k := LineLength(r[1..]);
      var n, u := r[..k + 1], r[k + 1..];
      assert n[1..] == r[1..k + 1];
      SearchParts([], head, n, marker, u[|marker|..]);
      assert u == marker + u[|marker|..];
      assert r == n + u;
      assert t == [] + (head + (n + u));
    }
  }

  lemma SearchParts(before: Bytes, head: Bytes, n: Bytes, marker: Bytes, after: Bytes)
    requires NotePart(n)
    ensures HoldsParts(before + (head + (n + (marker + after))), head, marker)
  {
    assert before + (head + (n + (marker + after))) == before + head + n + marker + after;
  }

  /** Searching finds exactly the places the pattern describes. */
  lemma {:induction false} SearchFinds(t: Bytes, head: Bytes, marker: Bytes)
    requires Search(t, head, marker)
    ensures HoldsParts(t, head, marker)
  {
    if MatchHere(t, head, marker) {
      MatchFinds(t, head, marker);
    } else {
      SearchFinds(t[1..], head, marker);
      ConsHolds(t, head, marker);
    }
  }

  lemma ConsHolds(t: Bytes, head: Bytes, marker: Bytes)
    requires t != [] && HoldsParts(t[1..], head, marker)
    ensures HoldsParts(t, head, marker)
  {
    var before, n, after :| NotePart(n) && t[1..] == before + head + n + marker + after;
    assert t == [t[0]] + t[1..];
    ConsParts(t[0], before, head, n, marker, after);
  }

  lemma ConsParts(c: char, before: Bytes, head: Bytes, n: Bytes, marker: Bytes, after: Bytes)
    requires NotePart(n)
    ensures HoldsParts([c] + (before + head + n + marker + after), head, marker)
  {
    assert [c] + (before + head + n + marker + after) == ([c] + before) + head + n + marker + after;
  }

  lemma {:induction false} SearchAccepts(before: Bytes, head: Bytes, n: Bytes, marker: Bytes, after: Bytes)
    requires NotePart(n)
    ensures Search(before + head + n + marker + after, head, marker)
  {
    if before == [] {
      var r := n + marker + after;
      StartsWithHead(head, n, marker, after);
      if n != [] {
        Assoc(n, marker, after);
        NoteStops(n, marker + after);
      }
    } else {
      SearchAccepts(before[1..], head, n, marker, after);
      DropOne(before, head, n, marker, after);
    }
  }

  lemma StartsWithHead(head: Bytes, n: Bytes, marker: Bytes, after: Bytes)
    ensures var t := [] + head + n + marker + after;
      t == head + (n + marker + after) && t[|head|..] == n + marker + after && head <= t
  {
    assert [] + head + n + marker + after == head + (n + marker + after);
  }

  lemma DropOne(before: Bytes, head: Bytes, n: Bytes, marker: Bytes, after: Bytes)
    requires before != []
    ensures (before + head + n + marker + after)[1..] == before[1..] + head + n + marker + after
  {
  }

  lemma NoteStops(n: Bytes, rest: Bytes)
    requires n != [] && NotePart(n)
    ensures LineLength((n + rest)[1..]) == |n| - 1
    ensures (n + rest)[1..|n|] == n[1..] && (n + rest)[|n|..] == rest
  {
    var l := n[1..];
    var s := (n + rest)[1..];
    assert s == l + rest;
    assert l[|l| - 1] == '\n' by { assert l[|l| - 2..] == "_\n"; assert l[|l| - 2..][1] == l[|l| - 1]; }
    LineLengthIs(s, |l|);
  }

  lemma {:induction false} LineLengthIs(s: Bytes, k: nat)
    requires 0 < k <= |s| && s[k - 1] == '\n' && forall i :: 0 <= i < k - 1 ==> s[i] != '\n'
    ensures LineLength(s) == k
  {
    if s[0] != '\n' { LineLengthIs(s[1..], k - 1); }
  }

  /** The check is exact: for a fragment with any text in it, it passes just
      when the published text stands before its own marker. */
  lemma PresentIffHolds(text: Bytes, r: Record, file: Bytes)
    requires !IsBlank(RewriteLinks(text))
    ensures SectionPresent(text, r, file) <==> HoldsSection(text, r, file)
  {
    if SectionPresent(text, r, file) {
      SearchFinds(Norm(file), Norm(Head(text)), MarkerLine(r));
    }
    if HoldsSection(text, r, file) {
      var t, head, marker := Norm(file), Norm(Head(text)), MarkerLine(r);
      var before, n, after :| NotePart(n) && t == before + head + n + marker + after;
      SearchAccepts(before, head, n, marker, after);
    }
  }

  // ------------------------------------------ the builder satisfies it

  predicate NoCrLfPair(s: Bytes) {
    forall i :: 0 <= i < |s| - 1 ==> !(s[i] == '\r' && s[i + 1] == '\n')
  }

  lemma {:induction false} NormKeeps(s: Bytes)
    requires NoCrLfPair(s)
    ensures Norm(s) == s
  {
    if s != [] {
      assert s == [s[0]] + s[1..];
      NormKeeps(s[1..]);
      NormSkip(s[0], s[1..]);
    }
  }

  lemma NoteAndMarkerNorm(f: Fragment)
    requires ValidNote(f.note) && IsDigest(f.digest) && '\n' !in f.name
    ensures Norm("\n" + f.note + "\n" + MarkerLine(RecordOf(f)))
         == "\n" + f.note + "\n" + MarkerLine(RecordOf(f))
  {
    var r := RecordOf(f);
    var s := "\n" + f.note + "\n" + MarkerLine(r);
    var m := 2 + |f.note|;
    TailHasNoLinkChar(r.digest);
    forall i | 0 <= i < |s| - 1 ensures !(s[i] == '\r' && s[i + 1] == '\n') {
      if i == 0 || i == m - 1 {
      } else if i < m - 1 {
        assert s[i] == f.note[i - 1];
      } else {
        var t := MarkerLine(r);
        assert s[i] == t[i - m] && s[i + 1] == t[i + 1 - m];
        MarkerHasOneLf(r, i - m);
      }
    }
    NormKeeps(s);
  }

  lemma MarkerHasOneLf(r: Record, i: nat)
    requires '\n' !in r.name && IsDigest(r.digest) && i + 1 < |MarkerLine(r)|
    ensures !(MarkerLine(r)[i] == '\r' && MarkerLine(r)[i + 1] == '\n')
  {
    var t := MarkerLine(r);
    var p := |PREFIX| + |r.name|;
    assert |t| == p + 77;
    if i + 1 < |PREFIX| {
    } else if i + 1 < p {
      assert t[i + 1] == r.name[i + 1 - |PREFIX|] && t[i + 1] in r.name;
    } else if i + 1 < |t| - 1 {
      assert t[i + 1] == Tail(r.digest)[i + 1 - p];
      if p + 8 <= i + 1 < p + 72 { assert t[i + 1] == r.digest[i + 1 - p - 8]; }
    } else {
      assert t[i] == Tail(r.digest)[75];
    }
  }

  /** Normalising around an LF-opened, LF-closed piece leaves the piece whole,
      even where the text before it ends in a CR. */
  lemma NormAround(pre: Bytes, mid: Bytes, post: Bytes)
    requires |mid| >= 1 && mid[0] == '\n' && mid[|mid| - 1] == '\n'
    ensures exists before :: Norm(pre + mid + post) == before + Norm(mid) + Norm(post)
  {
    assert pre + mid + post == pre + (mid + post);
    NormConcat(mid, post);
    NormConcat(pre, mid + post);
    var before := if EndsInCr(pre) then Norm(Butlast(pre)) else Norm(pre);
    assert Norm(pre + mid + post) == before + Norm(mid) + Norm(post);
  }

  lemma PartsAround(before: Bytes, head: Bytes, n: Bytes, marker: Bytes, after: Bytes)
    requires NotePart(n)
    ensures HoldsParts(before + (head + (n + marker)) + after, head, marker)
    ensures Search(before + (head + (n + marker)) + after, head, marker)
  {
    assert before + (head + (n + marker)) + after == before + head + n + marker + after;
    SearchAccepts(before, head, n, marker, after);
  }

  /** Every section `build` writes satisfies the check, whatever is before it
      and whatever later runs append. */
  lemma BuiltSectionPresent(pre: Bytes, f: Fragment, post: Bytes)
    requires ValidNote(f.note) && IsDigest(f.digest) && '\n' !in f.name
    ensures HoldsSection(f.text, RecordOf(f), pre + SectionOf(f) + post)
    ensures SectionPresent(f.text, RecordOf(f), pre + SectionOf(f) + post)
  {
    var head, marker := Head(f.text), MarkerLine(RecordOf(f));
    var n := "\n" + f.note + "\n";
    var sec := SectionOf(f);
    SectionSplits(head, f.note, marker);
    NormAround(pre, sec, post);
    var before :| Norm(pre + sec + post) == before + Norm(sec) + Norm(post);
    NormConcat(head, n + marker);
    NoteAndMarkerNorm(f);
    assert NotePart(n) by { assert n[1..] == f.note + "\n"; }
    PartsAround(before, Norm(head), n, marker, Norm(post));
  }

  lemma SectionSplits(head: Bytes, note: Bytes, marker: Bytes)
    ensures head + "\n" + note + "\n" + marker == head + ("\n" + note + "\n" + marker)
  {
  }

  lemma PartsInPrefix(t: Bytes, head: Bytes, marker: Bytes)
    requires EndsInCr(t) && HoldsParts(t, head, marker) && marker != [] && !EndsInCr(marker)
    ensures HoldsParts(Butlast(t), head, marker)
  {
    var before, n, after :| NotePart(n) && t == before + head + n + marker + after;
    var front := before + head + n + marker;
    assert front[|front| - 1] == marker[|marker| - 1];
    assert t == front + after;
    assert front + [] == front;
    assert after != [];
    assert Butlast(t) == front + Butlast(after);
  }

  lemma PartsGrow(t: Bytes, more: Bytes, head: Bytes, marker: Bytes)
    requires HoldsParts(t, head, marker)
    ensures HoldsParts(t + more, head, marker)
  {
    var before, n, after :| NotePart(n) && t == before + head + n + marker + after;
    assert t + more == before + head + n + marker + (after + more);
  }

  /** Once a section is in a file, text appended later does not hide it, even
      where the file ended in a bare CR and the append opens with an LF. */
  lemma PresentAfterAppend(text: Bytes, r: Record, file: Bytes, more: Bytes)
    requires SectionPresent(text, r, file)
    ensures SectionPresent(text, r, file + more)
  {
    if !IsBlank(RewriteLinks(text)) {
      PresentIffHolds(text, r, file);
      PresentIffHolds(text, r, file + more);
      HoldsAfterAppend(file, more, Norm(Head(text)), MarkerLine(r));
    }
  }

  lemma HoldsAfterAppend(file: Bytes, more: Bytes, head: Bytes, marker: Bytes)
    requires HoldsParts(Norm(file), head, marker) && marker != [] && !EndsInCr(marker)
    ensures HoldsParts(Norm(file + more), head, marker)
  {
    NormConcat(file, more);
    if Meets(file, more) {
      var kept := Butlast(file);
      assert file == kept + "\r";
      NormConcat(kept, "\r");
      NormKeeps("\r");
      assert Butlast(Norm(kept) + "\r") == Norm(kept);
      PartsInPrefix(Norm(file), head, marker);
      PartsGrow(Norm(kept), Norm(more), head, marker);
    } else {
      PartsGrow(Norm(file), Norm(more), head, marker);
    }
  }

  /** Checking a CRLF copy of an LF file is checking the LF file. */
  lemma PresentInCrlfCopy(text: Bytes, r: Record, file: Bytes)
    requires NoCr(file)
    ensures SectionPresent(text, r, ToCrlf(file)) <==> SectionPresent(text, r, file)
  {
    NormOfCrlf(file);
    NormOfLf(file);
  }

  lemma {:induction false} BuildExtends(was: Bytes, fs: seq<Fragment>, i: nat)
    requires i < |fs|
    ensures exists a, b :: Build(was, fs) == a + SectionOf(fs[i]) + b
  {
    var done, last := Build(was, Butlast(fs)), SectionOf(fs[|fs| - 1]);
    if i == |fs| - 1 {
      assert done + last == done + SectionOf(fs[i]) + [];
    } else {
      BuildExtends(was, Butlast(fs), i);
      assert Butlast(fs)[i] == fs[i];
      StillInside(done, SectionOf(fs[i]), last);
    }
  }

  lemma {:induction false} BuildGrows(was: Bytes, fs: seq<Fragment>)
    ensures was <= Build(was, fs)
    ensures fs != [] ==> was != Build(was, fs)
  {
    if fs != [] {
      BuildGrows(was, Butlast(fs));
    }
  }

  lemma StillInside(whole: Bytes, mid: Bytes, more: Bytes)
    requires exists a, b :: whole == a + mid + b
    ensures exists a, b :: whole + more == a + mid + b
  {
    var a, b :| whole == a + mid + b;
    AppendAfter(a, mid, b, more);
  }

  lemma AppendAfter(a: Bytes, mid: Bytes, b: Bytes, more: Bytes)
    ensures a + mid + b + more == a + mid + (b + more)
  {
  }

  /** Every fragment of a build can be cleared on the strength of the file the
      build published. */
  lemma BuildHoldsAll(was: Bytes, fs: seq<Fragment>, i: nat)
    requires i < |fs| && ValidNote(fs[i].note) && IsDigest(fs[i].digest) && '\n' !in fs[i].name
    ensures HoldsSection(fs[i].text, RecordOf(fs[i]), Build(was, fs))
    ensures SectionPresent(fs[i].text, RecordOf(fs[i]), Build(was, fs))
  {
    BuildExtends(was, fs, i);
    var a, b :| Build(was, fs) == a + SectionOf(fs[i]) + b;
    BuiltSectionPresent(a, fs[i], b);
  }
}
