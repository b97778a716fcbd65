/** The markerless duplicate guard: a fragment whose heading or body already
    stands in the dated file, with no marker of its own name there, stops the
    run. */
module NoteDuplicates {
  import opened NoteText
  import opened NoteMarkers
  import opened NoteSections
  import opened NoteBlanks

  /** The least body text that counts as evidence of an earlier copy. */
  const BODY_EVIDENCE_MIN := 40
  const BOM: Bytes := "\U{EF}\U{BB}\U{BF}"

  // ------------------------------------------------------------- headings

  /** How many times `s` opens with `c`. */
  function RunOf(s: Bytes, c: char): (n: nat)
    ensures n <= |s|
    ensures forall i :: 0 <= i < n ==> s[i] == c
    ensures n < |s| ==> s[n] != c
  {
    if s == [] || s[0] != c then 0 else 1 + RunOf(s[1..], c)
  }

  /** An ATX heading (CommonMark section 4.2): up to three spaces, one to six
      hashes, then a space, a tab or the end of the line. */
  predicate IsHeading(l: Bytes) {
    var spaces := RunOf(l, ' ');
    var hashes := RunOf(l[spaces..], '#');
    var rest := l[spaces + hashes..];
    spaces <= 3 && 1 <= hashes <= 6 && (rest == [] || rest[0] == ' ' || rest[0] == '\t')
  }

  predicate IsBlankLine(l: Bytes) { forall i :: 0 <= i < |l| ==> l[i] == ' ' || l[i] == '\t' }

  function Debom(l: Bytes): Bytes { if BOM <= l then l[3..] else l }

  function DebomEach(ls: seq<Bytes>): (r: seq<Bytes>)
    ensures |r| == |ls|
  {
    seq(|ls|, i requires 0 <= i < |ls| => Debom(ls[i]))
  }

  /** A file's lines as the guard compares them. */
  function FileLines(data: Bytes): seq<Bytes> { DebomEach(SplitLines(data)) }

  /** A fragment's lines as the guard compares them: in published form. */
  function PublishedLines(text: Bytes): seq<Bytes> { FileLines(RewriteLinks(text)) }

  /** The index of the first heading, or the number of lines when there is none. */
  function FirstHeading(ls: seq<Bytes>): (n: nat)
    ensures n <= |ls|
    ensures n < |ls| ==> IsHeading(ls[n])
    ensures forall i :: 0 <= i < n ==> !IsHeading(ls[i])
  {
    if ls == [] || IsHeading(ls[0]) then 0 else 1 + FirstHeading(ls[1..])
  }

  function TrimFront(ls: seq<Bytes>): (r: seq<Bytes>)
    ensures |r| <= |ls| && r == ls[|ls| - |r|..]
    ensures r != [] ==> !IsBlankLine(r[0])
  {
    if ls != [] && IsBlankLine(ls[0]) then TrimFront(ls[1..]) else ls
  }

  function TrimBack(ls: seq<Bytes>): (r: seq<Bytes>)
    ensures r <= ls
    ensures r != [] ==> !IsBlankLine(r[|r| - 1])
  {
    if ls != [] && IsBlankLine(ls[|ls| - 1]) then TrimBack(Butlast(ls)) else ls
  }

  /** What follows the first heading: every line, when there is no heading. */
  function AfterHeading(ls: seq<Bytes>): (r: seq<Bytes>)
    ensures |r| <= |ls| && r == ls[|ls| - |r|..]
  {
    var at := FirstHeading(ls);
    if at < |ls| then ls[at + 1..] else ls
  }

  /** The evidence block of a fragment: its body with blank lines trimmed. */
  function Body(text: Bytes): seq<Bytes> { TrimBack(TrimFront(AfterHeading(PublishedLines(text)))) }

  predicate AllBlank(ls: seq<Bytes>) { forall i :: 0 <= i < |ls| ==> IsBlankLine(ls[i]) }

  /** The block is exactly what follows the first heading of the published text,
      without the blank lines around it. */
  lemma BodyIsTrimmed(text: Bytes) returns (a: seq<Bytes>, b: seq<Bytes>)
    ensures AfterHeading(PublishedLines(text)) == a + Body(text) + b && AllBlank(a) && AllBlank(b)
    ensures Body(text) != [] ==> !IsBlankLine(Body(text)[0]) && !IsBlankLine(Body(text)[|Body(text)| - 1])
  {
    a, b := TrimmedParts(AfterHeading(PublishedLines(text)));
  }

  lemma TrimmedParts(rest: seq<Bytes>) returns (a: seq<Bytes>, b: seq<Bytes>)
    ensures rest == a + TrimBack(TrimFront(rest)) + b && AllBlank(a) && AllBlank(b)
    ensures var block := TrimBack(TrimFront(rest));
      block != [] ==> !IsBlankLine(block[0]) && !IsBlankLine(block[|block| - 1])
  {
    var front := TrimFront(rest);
    a := FrontParts(rest);
    b := BackParts(front);
    Assoc(a, TrimBack(front), b);
  }

  lemma FrontParts(ls: seq<Bytes>) returns (a: seq<Bytes>)
    ensures ls == a + TrimFront(ls) && AllBlank(a)
  {
    var n := |ls| - |TrimFront(ls)|;
    a := ls[..n];
    forall i | 0 <= i < n ensures IsBlankLine(a[i]) { FrontIsBlank(ls, i); }
  }

  lemma {:induction false} FrontIsBlank(ls: seq<Bytes>, i: nat)
    requires i < |ls| - |TrimFront(ls)|
    ensures IsBlankLine(ls[i])
  {
    if i > 0 { FrontIsBlank(ls[1..], i - 1); }
  }

  lemma {:induction false} BackParts(ls: seq<Bytes>) returns (b: seq<Bytes>)
    ensures ls == TrimBack(ls) + b && AllBlank(b)
    ensures TrimBack(ls) != [] ==> TrimBack(ls)[0] == ls[0]
    decreases |ls|
  {
    b := [];
    if ls != [] && IsBlankLine(ls[|ls| - 1]) {
      var rest := BackParts(Butlast(ls));
      b := rest + [ls[|ls| - 1]];
      assert ls == Butlast(ls) + [ls[|ls| - 1]];
      Assoc(TrimBack(Butlast(ls)), rest, [ls[|ls| - 1]]);
    }
  }

  /** So it stands in the published text as consecutive whole lines. */
  lemma BodyStands(text: Bytes)
    ensures Body(text) != [] ==> ContainsBlock(PublishedLines(text), Body(text))
  {
    var ls := PublishedLines(text);
    var rest := AfterHeading(ls);
    BlockIn(ls, rest, TrimFront(rest), Body(text));
  }

  /** What starts a tail of a tail stands in the whole. */
  lemma BlockIn(ls: seq<Bytes>, rest: seq<Bytes>, front: seq<Bytes>, block: seq<Bytes>)
    requires |rest| <= |ls| && rest == ls[|ls| - |rest|..]
    requires |front| <= |rest| && front == rest[|rest| - |front|..] && block <= front
    ensures block != [] ==> ContainsBlock(ls, block)
  {
    var i := |ls| - |front|;
    assert ls[i..] == front;
    assert ls[i..i + |block|] == ls[i..][..|block|];
    assert BlockAt(ls, block, i);
  }

  function InkOf(l: Bytes): nat {
    if l == [] then 0
    else (if l[0] == ' ' || l[0] == '\t' then 0 else 1) + InkOf(l[1..])
  }

  /** The weight of a block: its bytes, spaces and tabs not counted. */
  function Weight(block: seq<Bytes>): nat {
    if block == [] then 0 else InkOf(block[0]) + Weight(block[1..])
  }

  /** `block` stands in `ls` as consecutive whole lines. */
  predicate ContainsBlock(ls: seq<Bytes>, block: seq<Bytes>) {
    block != [] && exists i | 0 <= i < |ls| :: BlockAt(ls, block, i)
  }

  predicate BlockAt(ls: seq<Bytes>, block: seq<Bytes>, i: nat) {
    i + |block| <= |ls| && ls[i..i + |block|] == block
  }

  predicate HeadingThere(file: Bytes, text: Bytes) {
    var ls := PublishedLines(text);
    var at := FirstHeading(ls);
    at < |ls| && ls[at] in FileLines(file)
  }

  predicate TextThere(file: Bytes, text: Bytes) {
    Weight(Body(text)) >= BODY_EVIDENCE_MIN && ContainsBlock(FileLines(file), Body(text))
  }

  predicate Suspect(file: Bytes, text: Bytes) { HeadingThere(file, text) || TextThere(file, text) }

  /** The fragments that stop a run: suspect, and not recorded here by name. */
  function Unrecorded(file: Bytes, fs: seq<Fragment>, marked: set<string>): seq<string> {
    if fs == [] then []
    else
      var rest := Unrecorded(file, Butlast(fs), marked);
      var f := fs[|fs| - 1];
      if Suspect(file, f.text) && f.name !in marked then rest + [f.name] else rest
  }

  // -------------------------------------------------------- readable text

  predicate IsByte(c: char, low: char, high: char) { low <= c <= high }

  /** Strict UTF-8: no overlong form, no surrogate, nothing past U+10FFFF. */
  predicate ValidUtf8(s: Bytes)
    decreases |s|
  {
    if s == [] then true
    else if s[0] < '\U{80}' then ValidUtf8(s[1..])
    else if IsByte(s[0], '\U{C2}', '\U{DF}') then |s| >= 2 && IsByte(s[1], '\U{80}', '\U{BF}') && ValidUtf8(s[2..])
    else if IsByte(s[0], '\U{E0}', '\U{EF}') then
      && |s| >= 3 && IsByte(s[1], if s[0] == '\U{E0}' then '\U{A0}' else '\U{80}', if s[0] == '\U{ED}' then '\U{9F}' else '\U{BF}')
      && IsByte(s[2], '\U{80}', '\U{BF}') && ValidUtf8(s[3..])
    else
      && IsByte(s[0], '\U{F0}', '\U{F4}') && |s| >= 4
      && IsByte(s[1], if s[0] == '\U{F0}' then '\U{90}' else '\U{80}', if s[0] == '\U{F4}' then '\U{8F}' else '\U{BF}')
      && IsByte(s[2], '\U{80}', '\U{BF}') && IsByte(s[3], '\U{80}', '\U{BF}') && ValidUtf8(s[4..])
  }

  /** A byte comparison can speak for the file: its text, the assembler's own
      marker lines aside, is UTF-8 without a NUL. */
  predicate IsText(file: Bytes) { ValidUtf8(Blanked(file)) && NUL !in Blanked(file) }

  method CanBeCompared(file: Bytes) returns (ok: bool)
    ensures ok <==> IsText(file)
  {
    var copy := new char[|file|](i requires 0 <= i < |file| => file[i]);
    assert copy[..] == file;
    WithoutMarkers(copy);
    ok := ValidUtf8(copy[..]) && NUL !in copy[..];
  }

  // ------------------------------------------------------------ the guard

  /** What the guard decides of the fragments about to be appended. */
  predicate GuardRefuses(file: Bytes, fs: seq<Fragment>, marked: set<string>, force: bool) {
    && !force
    && (Unrecorded(file, fs, marked) != [] || (!IsText(file) && exists f | f in fs :: f.name !in marked))
  }

  method CheckMarkerlessDuplicates(file: Bytes, fs: seq<Fragment>, marked: set<string>, force: bool)
    returns (refused: bool, suspects: seq<string>)
    ensures suspects == Unrecorded(file, fs, marked)
    ensures refused <==> GuardRefuses(file, fs, marked, force)
  {
    suspects := [];
    var n := 0;
    while n < |fs|
      invariant n <= |fs|
      invariant suspects == Unrecorded(file, fs[..n], marked)
    {
      var f := fs[n];
      assert fs[..n + 1][|fs[..n + 1]| - 1] == f;
      assert Butlast(fs[..n + 1]) == fs[..n];
      if Suspect(file, f.text) && f.name !in marked {
        suspects := suspects + [f.name];
      }
      n := n + 1;
    }
    assert fs[..n] == fs;
    var text := CanBeCompared(file);
    var unmarked := exists f | f in fs :: f.name !in marked;
    refused := !force && (suspects != [] || (!text && unmarked));
  }

  // -------------------------- an edited opening cannot hide a copy

  /** A block inside one part is inside the whole. */
  lemma BlockInside(a: seq<Bytes>, s: seq<Bytes>, b: seq<Bytes>, block: seq<Bytes>)
    requires ContainsBlock(s, block)
    ensures ContainsBlock(a + s + b, block)
  {
    var i :| 0 <= i < |s| && BlockAt(s, block, i);
    var whole := a + s + b;
    assert whole[|a| + i..|a| + i + |block|] == block;
    assert BlockAt(whole, block, |a| + i);
  }

  predicate AllEmpty(ls: seq<Bytes>) { forall i :: 0 <= i < |ls| ==> ls[i] == [] }

  /** A block whose last line is not blank does not reach into blank lines. */
  lemma BlockBeforeBlanks(s: seq<Bytes>, blanks: seq<Bytes>, block: seq<Bytes>)
    requires ContainsBlock(s + blanks, block) && AllEmpty(blanks)
    requires !IsBlankLine(block[|block| - 1])
    ensures ContainsBlock(s, block)
  {
    var whole := s + blanks;
    var i :| 0 <= i < |whole| && BlockAt(whole, block, i);
    var last := i + |block| - 1;
    assert whole[last] == block[|block| - 1];
    assert whole[last] != [];
    forall j | |s| <= j < |whole| ensures whole[j] == [] { assert whole[j] == blanks[j - |s|]; }
    assert s[i..i + |block|] == block;
    assert BlockAt(s, block, i);
  }

  /** The lines of a published text in a file that holds it between an LF and an
      LF: the same, but for empty fields at its end. */
  lemma LinesInFile(pre: Bytes, body: Bytes, post: Bytes)
    ensures exists a, s, b, blanks ::
      && SplitLines(pre + "\n" + Closed(body) + post) == a + s + b
      && SplitLines(body) == s + blanks && AllEmpty(blanks)
  {
    var stem := Stem(body);
    ClosedInFile(pre, stem, post);
    LinesBefore(pre, stem + "\n" + post);
    LinesBefore(stem, post);
    var a, s, b := FieldsBefore(pre), FieldsBefore(stem), SplitLines(post);
    Assoc(a, s, b);
    assert SplitLines(pre + "\n" + Closed(body) + post) == a + s + b;
    var blanks := BlankTail(body);
    assert SplitLines(body) == s + blanks && AllEmpty(blanks);
  }

  /** The fields before an LF: a CR there belongs to the ending. */
  function FieldsBefore(x: Bytes): seq<Bytes> {
    if EndsInCr(x) then SplitLines(Butlast(x)) else SplitLines(x)
  }

  lemma LinesBefore(x: Bytes, rest: Bytes)
    ensures SplitLines(x + "\n" + rest) == FieldsBefore(x) + SplitLines(rest)
  {
    SplitAtLf(x, rest);
  }

  lemma ClosedInFile(pre: Bytes, stem: Bytes, post: Bytes)
    ensures pre + "\n" + (stem + "\n") + post == pre + "\n" + (stem + "\n" + post)
  {
    Assoc(pre + "\n", stem + "\n", post);
  }

  lemma BlankTail(body: Bytes) returns (blanks: seq<Bytes>)
    ensures SplitLines(body) == FieldsBefore(Stem(body)) + blanks && AllEmpty(blanks)
  {
    var stem := Stem(body);
    SplitAtLf(stem, []);
    assert SplitLines([]) == [[]];
    if body == stem {
      blanks := if EndsInCr(stem) then [[]] else [];
    } else {
      assert body == stem + "\n" + [];
      blanks := [[]];
    }
  }

  lemma DebomParts(a: seq<Bytes>, s: seq<Bytes>, b: seq<Bytes>)
    ensures DebomEach(a + s + b) == DebomEach(a) + DebomEach(s) + DebomEach(b)
  {
  }

  lemma BlockInFile(a: seq<Bytes>, s: seq<Bytes>, b: seq<Bytes>, blanks: seq<Bytes>, block: seq<Bytes>)
    requires AllEmpty(blanks) && ContainsBlock(DebomEach(s + blanks), block)
    requires !IsBlankLine(block[|block| - 1])
    ensures ContainsBlock(DebomEach(a + s + b), block)
  {
    DebomParts(a, s, b);
    DebomParts([], s, blanks);
    assert [] + s + blanks == s + blanks;
    assert DebomEach([]) + DebomEach(s) + DebomEach(blanks) == DebomEach(s) + DebomEach(blanks);
    assert AllEmpty(DebomEach(blanks));
    BlockBeforeBlanks(DebomEach(s), DebomEach(blanks), block);
    BlockInside(DebomEach(a), DebomEach(s), DebomEach(b), block);
  }

  lemma BlockInPublished(pre: Bytes, body: Bytes, post: Bytes, block: seq<Bytes>)
    requires ContainsBlock(FileLines(body), block) && !IsBlankLine(block[|block| - 1])
    ensures ContainsBlock(FileLines(pre + ("\n" + Closed(body)) + post), block)
  {
    LinesInFile(pre, body, post);
    assert pre + ("\n" + Closed(body)) + post == pre + "\n" + Closed(body) + post;
    var a, s, b, blanks :|
      && SplitLines(pre + "\n" + Closed(body) + post) == a + s + b
      && SplitLines(body) == s + blanks && AllEmpty(blanks);
    BlockInFile(a, s, b, blanks, block);
  }

  /** A dated file holding, on line boundaries, the published text of an earlier
      version is recognised from the later version's body alone. */
  lemma PublishedBodyFound(pre: Bytes, earlier: Bytes, post: Bytes, now: Bytes)
    requires ContainsBlock(PublishedLines(earlier), Body(now))
    requires Weight(Body(now)) >= BODY_EVIDENCE_MIN
    ensures TextThere(pre + Head(earlier) + post, now)
  {
    var a, b := BodyIsTrimmed(now);
    BlockInPublished(pre, RewriteLinks(earlier), post, Body(now));
  }

  lemma {:induction false} BlanksWeighNothing(l: Bytes)
    requires IsBlankLine(l)
    ensures InkOf(l) == 0
  {
    if l != [] { BlanksWeighNothing(l[1..]); }
  }

  lemma {:induction false} WeightOfBlanks(a: seq<Bytes>)
    requires AllBlank(a)
    ensures Weight(a) == 0
  {
    if a != [] {
      BlanksWeighNothing(a[0]);
      WeightOfBlanks(a[1..]);
    }
  }

  lemma {:induction false} WeightOfParts(a: seq<Bytes>, b: seq<Bytes>)
    ensures Weight(a + b) == Weight(a) + Weight(b)
  {
    if a == [] {
      assert a + b == b;
    } else {
      assert (a + b)[1..] == a[1..] + b;
      WeightOfParts(a[1..], b);
    }
  }

  /** The evidence weighs what the lines after the heading weigh. */
  lemma BodyWeighsTheRest(text: Bytes)
    ensures Weight(Body(text)) == Weight(AfterHeading(PublishedLines(text)))
  {
    var a, b := BodyIsTrimmed(text);
    WeightOfParts(a + Body(text), b);
    WeightOfParts(a, Body(text));
    WeightOfBlanks(a);
    WeightOfBlanks(b);
  }

  /** An edited opening cannot hide a published copy: whatever happened to the
      heading, a byte-order mark or prose above it, a version whose published
      lines after the first heading are those of the earlier version, and weigh
      enough, stops the run, unless the file records that very name or the run
      is forced. */
  lemma EditedOpeningIsRefused(pre: Bytes, earlier: Bytes, post: Bytes, fs: seq<Fragment>, i: nat, marked: set<string>)
    requires i < |fs| && fs[i].name !in marked
    requires AfterHeading(PublishedLines(fs[i].text)) == AfterHeading(PublishedLines(earlier))
    requires Weight(AfterHeading(PublishedLines(earlier))) >= BODY_EVIDENCE_MIN
    ensures Suspect(pre + Head(earlier) + post, fs[i].text)
    ensures GuardRefuses(pre + Head(earlier) + post, fs, marked, false)
  {
    BodyWeighsTheRest(earlier);
    assert Body(earlier) == Body(fs[i].text) != [];
    BodyStands(earlier);
    PublishedBodyFound(pre, earlier, post, fs[i].text);
    UnrecordedNames(pre + Head(earlier) + post, fs, marked, i);
  }

  // --------------------------------------- a published heading is found

  /** How many blank lines a text opens with. */
  function BlanksBefore(ls: seq<Bytes>): (n: nat)
    ensures n <= |ls|
  {
    if ls != [] && IsBlankLine(ls[0]) then 1 + BlanksBefore(ls[1..]) else 0
  }

  /** The opening line, blank ones skipped, is a heading: nothing else is ever
      published, forced or not. */
  predicate OpensWithHeading(text: Bytes) {
    var ls := SplitLines(text);
    BlanksBefore(ls) < |ls| && IsHeading(ls[BlanksBefore(ls)])
  }

  lemma {:induction false} RunIs(s: Bytes, c: char, n: nat)
    requires n < |s| && s[n] != c && forall i :: 0 <= i < n ==> s[i] == c
    ensures RunOf(s, c) == n
  {
    if n > 0 { RunIs(s[1..], c, n - 1); }
  }

  /** A heading stays one when only what follows its marker changes. */
  lemma HeadingByStart(p: Bytes, c: char, x: Bytes, y: Bytes)
    requires c == ' ' || c == '\t'
    requires IsHeading(p + [c] + x) && |p| == RunOf(p + [c] + x, ' ') + RunOf((p + [c] + x)[RunOf(p + [c] + x, ' ')..], '#')
    ensures IsHeading(p + [c] + y)
  {
    var l, m := p + [c] + x, p + [c] + y;
    var k := RunOf(l, ' ');
    var h := RunOf(l[k..], '#');
    assert forall i :: 0 <= i <= |p| ==> l[i] == m[i];
    assert l[k] == l[k..][0] == '#';
    RunIs(m, ' ', k);
    forall i | 0 <= i < h ensures m[k..][i] == '#' { assert m[k + i] == l[k + i] == l[k..][i]; }
    assert m[k..][h] == m[|p|] == c;
    RunIs(m[k..], '#', h);
    assert m[k + h..][0] == c;
  }

  lemma HeadingRewrites(l: Bytes)
    requires IsHeading(l)
    ensures IsHeading(RewriteLinks(l))
  {
    var k := RunOf(l, ' ');
    var n := k + RunOf(l[k..], '#');
    var p := l[..n];
    forall i | 0 <= i < n ensures p[i] == ' ' || p[i] == '#' { if i >= k { assert l[i] == l[k..][i - k]; } }
    if n == |l| {
      RewritePlain(p, []);
      assert l == p + [] && RewriteLinks(l) == p + RewriteLinks([]);
      assert RewriteLinks([]) == [];
    } else {
      var c, x := l[n], l[n + 1..];
      assert l[n..][0] == c;
      assert l == p + [c] + x;
      RewritePlain(p + [c], x);
      HeadingByStart(p, c, x, RewriteLinks(x));
    }
  }

  lemma RewritePlain(p: Bytes, x: Bytes)
    requires ']' !in p
    ensures RewriteLinks(p + x) == p + RewriteLinks(x)
  {
    PlainPrefix(p, x, "](../../", "](../");
    PlainPrefix(p, Replace(x, "](../../", "](../"), "](./", "](../");
  }

  lemma {:induction false} FirstHeadingFound(ls: seq<Bytes>, i: nat)
    requires i < |ls| && IsHeading(ls[i])
    ensures FirstHeading(ls) <= i
  {
    if i > 0 && !IsHeading(ls[0]) { FirstHeadingFound(ls[1..], i - 1); }
  }

  lemma HeadingIsNoBom(l: Bytes)
    requires IsHeading(l)
    ensures Debom(l) == l && !IsBlankLine(l)
  {
    var k := RunOf(l, ' ');
    assert l[k] == l[k..][0] == '#';
    if k > 0 { assert l[0] == ' '; }
  }

  /** A text that opens with a heading has one in published form too. */
  lemma HeadingIsPublished(text: Bytes)
    requires OpensWithHeading(text)
    ensures FirstHeading(PublishedLines(text)) < |PublishedLines(text)|
  {
    var ls := SplitLines(text);
    var i := BlanksBefore(ls);
    SplitOfRewrite(text);
    HeadingRewrites(ls[i]);
    HeadingIsNoBom(RewriteLinks(ls[i]));
    FirstHeadingFound(PublishedLines(text), i);
  }

  /** A section once published is recognised by its heading wherever it stands. */
  lemma PublishedHeadingFound(pre: Bytes, text: Bytes, post: Bytes)
    requires OpensWithHeading(text)
    ensures HeadingThere(pre + Head(text) + post, text)
  {
    HeadingIsPublished(text);
    var ls := PublishedLines(text);
    var at := FirstHeading(ls);
    var block := [ls[at]];
    HeadingIsNoBom(ls[at]);
    assert ls[at..at + 1] == block;
    assert BlockAt(ls, block, at);
    BlockInPublished(pre, RewriteLinks(text), post, block);
    var file := FileLines(pre + Head(text) + post);
    var j :| 0 <= j < |file| && BlockAt(file, block, j);
    assert file[j] == file[j..j + 1][0] == ls[at];
  }

  /** So every fragment of a build is suspect in the file it was built into. */
  lemma BuiltIsSuspect(was: Bytes, fs: seq<Fragment>, i: nat)
    requires i < |fs| && OpensWithHeading(fs[i].text)
    ensures Suspect(Build(was, fs), fs[i].text)
  {
    BuildExtends(was, fs, i);
    var a, b :| Build(was, fs) == a + SectionOf(fs[i]) + b;
    var head, rest := Head(fs[i].text), "\n" + fs[i].note + "\n" + MarkerLine(RecordOf(fs[i]));
    SectionSplits(head, fs[i].note, MarkerLine(RecordOf(fs[i])));
    AroundHead(a, head, rest, b);
    PublishedHeadingFound(a, fs[i].text, rest + b);
  }

  lemma AroundHead(a: Bytes, head: Bytes, rest: Bytes, b: Bytes)
    ensures a + (head + rest) + b == a + head + (rest + b)
  {
    Assoc(a, head, rest);
    Assoc(a + head, rest, b);
  }

  lemma {:induction false} UnrecordedNames(file: Bytes, fs: seq<Fragment>, marked: set<string>, i: nat)
    requires i < |fs| && fs[i].name !in marked && Suspect(file, fs[i].text)
    ensures fs[i].name in Unrecorded(file, fs, marked)
  {
    if i < |fs| - 1 {
      UnrecordedNames(file, Butlast(fs), marked, i);
    }
  }
}
