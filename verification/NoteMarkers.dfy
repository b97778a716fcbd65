/** Assembly markers: the line written after each folded section, the pattern
    that reads it back, and the scan of a whole dated file. */
module NoteMarkers {
  import opened Wrappers
  import opened NoteText

  const PREFIX: Bytes := "<!-- assembled-fragment: "
  const DIGEST_LABEL: Bytes := " sha256="
  const CLOSE: Bytes := " -->"
  const NUL: char := '\0'

  /** One record a dated file holds: the digest of a fragment and its name. */
  datatype Record = Record(digest: string, name: string)

  predicate IsHex(c: char) { '0' <= c <= '9' || 'a' <= c <= 'f' }

  predicate IsDigest(h: string) {
    |h| == 64 && forall i :: 0 <= i < 64 ==> IsHex(h[i])
  }

  function Tail(digest: string): Bytes { DIGEST_LABEL + digest + CLOSE }

  function MarkerText(r: Record): Bytes { PREFIX + r.name + Tail(r.digest) }

  /** The bytes `build` writes after a section, newline included. */
  function MarkerLine(r: Record): Bytes { MarkerText(r) + "\n" }

  /** The marker pattern, on one line: the greedy name runs up to the last
      digest label that leaves exactly a digest and the close. */
  function ParseMarker(line: Bytes): (r: Option<Record>)
    ensures r.Some? ==> |r.value.name| >= 1 && IsDigest(r.value.digest) && line == MarkerText(r.value)
  {
    if |line| <= |PREFIX| + 76 then None
    else
      var r := Record(line[|line| - 68..|line| - 4], line[|PREFIX|..|line| - 76]);
      if IsDigest(r.digest) && line == MarkerText(r) then Some(r) else None
  }

  /** Printing and parsing are inverse, so the greedy pattern can read a marker
      line only one way whatever the name contains. */
  lemma MarkerParsesUniquely(line: Bytes, r: Record)
    requires |r.name| >= 1 && IsDigest(r.digest)
    ensures ParseMarker(line) == Some(r) <==> line == MarkerText(r)
  {
    if line == MarkerText(r) {
      assert |Tail(r.digest)| == 76;
      assert line == (PREFIX + r.name) + Tail(r.digest);
      assert line[|PREFIX|..|line| - 76] == r.name;
      assert line == (PREFIX + r.name + DIGEST_LABEL) + (r.digest + CLOSE);
      assert line[|line| - 68..|line| - 4] == r.digest;
    }
  }

  // ------------------------------------------------------------------- scan

  /** A scan refuses a file whose marker-shaped line holds a NUL byte. */
  datatype Scan = Unreadable | Found(records: seq<Record>)

  function Both(a: Scan, b: Scan): Scan {
    if a.Found? && b.Found? then Found(a.records + b.records) else Unreadable
  }

  function ScanLine(line: Bytes): Scan {
    if !(PREFIX <= line) then Found([])
    else if NUL in line then Unreadable
    else match ParseMarker(line) { case Some(r) => Found([r]) case None => Found([]) }
  }

  function ScanLines(ls: seq<Bytes>): Scan {
    if ls == [] then Found([]) else Both(ScanLine(ls[0]), ScanLines(ls[1..]))
  }

  function ScanData(data: Bytes): Scan { ScanLines(SplitLines(data)) }

  lemma {:induction false} ScanLinesConcat(a: seq<Bytes>, b: seq<Bytes>)
    ensures ScanLines(a + b) == Both(ScanLines(a), ScanLines(b))
  {
    if a == [] {
      assert a + b == b;
    } else {
      ScanLinesConcat(a[1..], b);
      assert (a + b)[1..] == a[1..] + b;
      BothAssoc(ScanLine(a[0]), ScanLines(a[1..]), ScanLines(b));
    }
  }

  lemma BothAssoc(a: Scan, b: Scan, c: Scan)
    ensures Both(a, Both(b, c)) == Both(Both(a, b), c)
  {
    if a.Found? && b.Found? && c.Found? { Assoc(a.records, b.records, c.records); }
  }

  lemma BothUnit(s: Scan)
    ensures Both(s, Found([])) == s && Both(Found([]), s) == s
  {
    if s.Found? { assert s.records + [] == s.records && [] + s.records == s.records; }
  }

  lemma ScanSingle(line: Bytes)
    ensures ScanLines([line]) == ScanLine(line)
  {
    assert [line][1..] == [];
    BothUnit(ScanLine(line));
  }

  lemma ScanBlank()
    ensures ScanLine([]) == Found([])
  {
  }

  /** Scanning runs over an LF seam, a CR before it included. */
  lemma ScanAtLf(a: Bytes, b: Bytes)
    ensures ScanData(a + "\n" + b) == Both(ScanData(a), ScanData(b))
  {
    SplitAtLf(a, b);
    var rest := SplitLines(b);
    if EndsInCr(a) {
      var ls := SplitLines(Butlast(a));
      ScanLinesConcat(ls, [[]]);
      ScanLinesConcat(ls, rest);
      ScanSingle([]);
      ScanBlank();
      BothUnit(ScanLines(ls));
    } else {
      ScanLinesConcat(SplitLines(a), rest);
    }
  }

  lemma ScanOneLine(line: Bytes)
    requires NoEol(line)
    ensures ScanData(line) == ScanLine(line)
  {
    SplitOne(line);
    ScanSingle(line);
  }

  // --------------------------------------------- a fragment's own markers

  /** A fragment may not supply a marker record, nor a marker-shaped line that
      would stop every later scan. */
  predicate FragmentAllowed(text: Bytes) {
    forall i :: 0 <= i < |SplitLines(text)| && PREFIX <= SplitLines(text)[i] ==>
      NUL !in SplitLines(text)[i] && ParseMarker(SplitLines(text)[i]).None?
  }

  /** The refusal is exactly "a scan of the fragment would not come back empty". */
  lemma AllowedIffScansEmpty(text: Bytes)
    ensures FragmentAllowed(text) <==> ScanData(text) == Found([])
  {
    AllowedLines(SplitLines(text));
  }

  predicate LinesAllowed(ls: seq<Bytes>) {
    forall i :: 0 <= i < |ls| && PREFIX <= ls[i] ==> NUL !in ls[i] && ParseMarker(ls[i]).None?
  }

  lemma {:induction false} AllowedLines(ls: seq<Bytes>)
    ensures LinesAllowed(ls) <==> ScanLines(ls) == Found([])
  {
    if ls != [] {
      AllowedLines(ls[1..]);
      if ScanLines(ls) == Found([]) {
        var a, b := ScanLine(ls[0]), ScanLines(ls[1..]);
        assert a.Found? && b.Found? && a.records + b.records == [];
        assert a.records == [] && b.records == [];
        forall i | 0 <= i < |ls| && PREFIX <= ls[i]
          ensures NUL !in ls[i] && ParseMarker(ls[i]).None?
        {
          if i > 0 { assert ls[i] == ls[1..][i - 1]; }
        }
      }
      if LinesAllowed(ls) {
        forall i | 0 <= i < |ls[1..]| && PREFIX <= ls[1..][i]
          ensures NUL !in ls[1..][i] && ParseMarker(ls[1..][i]).None?
        {
          assert ls[1..][i] == ls[i + 1];
        }
      }
    }
  }

  // ----------------------------- link rewriting and marker lines

  /** The alphabet of both link patterns. */
  predicate IsLinkChar(c: char) { c == ']' || c == '(' || c == '.' || c == '/' }

  /** A substitution from one link spelling to another. */
  predicate LinkSwap(pat: Bytes, rep: Bytes) {
    && |pat| >= 1 && |rep| >= 1 && pat[0] == ']' && rep[0] == ']'
    && (forall i :: 0 <= i < |pat| ==> IsLinkChar(pat[i]))
    && (forall i :: 0 <= i < |rep| ==> IsLinkChar(rep[i]))
  }

  predicate NoLinkChar(s: Bytes) { forall i :: 0 <= i < |s| ==> !IsLinkChar(s[i]) }

  lemma PrefixStep(p: Bytes, s: Bytes)
    requires p != [] && s != []
    ensures p <= s <==> p[0] == s[0] && p[1..] <= s[1..]
  {
    if p[0] == s[0] && p[1..] <= s[1..] {
      assert p == [p[0]] + p[1..];
      assert s == [s[0]] + s[1..];
    }
    if p <= s { assert p[1..] == s[1..][..|p| - 1]; }
  }

  lemma {:induction false} SwapKeepsPrefix(s: Bytes, p: Bytes, pat: Bytes, rep: Bytes)
    requires LinkSwap(pat, rep) && ']' !in p
    ensures p <= Replace(s, pat, rep) <==> p <= s
  {
    if p == [] || s == [] {
    } else if pat <= s {
      assert s[0] == pat[0] && p[0] in p;
      assert Replace(s, pat, rep)[0] == rep[0];
    } else {
      var r := Replace(s[1..], pat, rep);
      var out := Replace(s, pat, rep);
      SwapKeepsPrefix(s[1..], p[1..], pat, rep);
      assert out == [s[0]] + r;
      assert out[0] == s[0] && out[1..] == r;
      PrefixStep(p, s);
      PrefixStep(p, out);
    }
  }

  lemma {:induction false} SwapFindsNothing(t: Bytes, pat: Bytes, rep: Bytes)
    requires LinkSwap(pat, rep) && NoLinkChar(t)
    ensures Replace(t, pat, rep) == t
  {
    if t != [] {
      assert !(pat <= t) by { assert t[0] != pat[0]; }
      SwapFindsNothing(t[1..], pat, rep);
      assert t == [t[0]] + t[1..];
    }
  }

  lemma SwapStaysOut(x: Bytes, t: Bytes, pat: Bytes, rep: Bytes)
    requires LinkSwap(pat, rep) && NoLinkChar(t) && !(pat <= x)
    ensures !(pat <= x + t)
  {
    if |pat| <= |x| {
      assert (x + t)[..|pat|] == x[..|pat|];
    } else if |pat| <= |x + t| {
      assert (x + t)[|x|] == t[0];
    }
  }

  lemma {:induction false} SwapKeepsSuffix(x: Bytes, t: Bytes, pat: Bytes, rep: Bytes)
    requires LinkSwap(pat, rep) && NoLinkChar(t)
    ensures Replace(x + t, pat, rep) == Replace(x, pat, rep) + t
  {
    if x == [] {
      assert x + t == t;
      SwapFindsNothing(t, pat, rep);
    } else if pat <= x {
      var u := x[|pat|..];
      assert x == pat + u;
      assert x + t == pat + (u + t);
      SwapKeepsSuffix(u, t, pat, rep);
      ReplaceHere(pat, u + t, rep);
    } else {
      var u := x[1..];
      assert x + t == [x[0]] + (u + t);
      SwapStaysOut(x, t, pat, rep);
      SwapKeepsSuffix(u, t, pat, rep);
      ReplaceSkip(x[0], u + t, pat, rep);
    }
  }

  /** `t` is the end of `s`. */
  predicate EndsWith(s: Bytes, t: Bytes) { |t| <= |s| && s[|s| - |t|..] == t }

  lemma EndsWithRest(a: Bytes, r: Bytes, t: Bytes)
    ensures |t| <= |r| ==> (EndsWith(a + r, t) <==> EndsWith(r, t))
  {
    if |t| <= |r| { assert (a + r)[|a + r| - |t|..] == r[|r| - |t|..]; }
  }

  lemma SuffixIsShort(a: Bytes, r: Bytes, t: Bytes)
    requires a != [] && IsLinkChar(a[|a| - 1]) && NoLinkChar(t) && EndsWith(a + r, t)
    ensures |t| <= |r|
  {
    var w := a + r;
    var at := |w| - |t|;
    assert w[at..] == t;
    forall j | at <= j < |w| ensures !IsLinkChar(w[j]) { assert w[j] == t[j - at]; }
    assert w[|a| - 1] == a[|a| - 1];
  }

  lemma SwapOpens(s: Bytes, pat: Bytes, rep: Bytes)
    requires LinkSwap(pat, rep)
    ensures pat <= s ==> !NoLinkChar(Replace(s, pat, rep))
  {
    if pat <= s { assert Replace(s, pat, rep)[0] == rep[0]; }
  }

  lemma {:induction false} SwapOnlyWritesLinks(s: Bytes, pat: Bytes, rep: Bytes)
    requires LinkSwap(pat, rep) && NoLinkChar(Replace(s, pat, rep))
    ensures Replace(s, pat, rep) == s
  {
    SwapOpens(s, pat, rep);
    if s != [] && !(pat <= s) {
      var r := Replace(s[1..], pat, rep);
      assert Replace(s, pat, rep) == [s[0]] + r;
      assert forall i :: 0 <= i < |r| ==> r[i] == ([s[0]] + r)[i + 1];
      SwapOnlyWritesLinks(s[1..], pat, rep);
    }
  }

  lemma {:induction false} SwapMakesNoSuffix(s: Bytes, t: Bytes, pat: Bytes, rep: Bytes)
    requires LinkSwap(pat, rep) && NoLinkChar(t) && EndsWith(Replace(s, pat, rep), t)
    ensures EndsWith(s, t)
    decreases |s|, 1
  {
    if s == [] {
    } else if pat <= s {
      var u := s[|pat|..];
      assert s == pat + u;
      ReplaceHere(pat, u, rep);
      SuffixIsShort(rep, Replace(u, pat, rep), t);
      SuffixStep(s, pat, u, rep, t, pat, rep);
    } else {
      var c, u := [s[0]], s[1..];
      assert s == c + u;
      ReplaceSkip(s[0], u, pat, rep);
      if |t| <= |Replace(u, pat, rep)| {
        SuffixStep(s, c, u, c, t, pat, rep);
      } else {
        WholeSuffix(s, t, pat, rep);
      }
    }
  }

  lemma WholeSuffix(s: Bytes, t: Bytes, pat: Bytes, rep: Bytes)
    requires LinkSwap(pat, rep) && NoLinkChar(t) && EndsWith(Replace(s, pat, rep), t)
    requires |t| == |Replace(s, pat, rep)|
    ensures EndsWith(s, t)
  {
    assert Replace(s, pat, rep) == t;
    SwapOnlyWritesLinks(s, pat, rep);
  }

  lemma {:induction false} SuffixStep(s: Bytes, a: Bytes, u: Bytes, b: Bytes, t: Bytes, pat: Bytes, rep: Bytes)
    requires LinkSwap(pat, rep) && NoLinkChar(t) && s == a + u && a != []
    requires |t| <= |Replace(u, pat, rep)| && EndsWith(b + Replace(u, pat, rep), t)
    ensures EndsWith(s, t)
    decreases |s|, 0
  {
    EndsWithRest(b, Replace(u, pat, rep), t);
    SwapMakesNoSuffix(u, t, pat, rep);
    EndsWithRest(a, u, t);
  }

  lemma {:induction false} SwapKeepsChar(s: Bytes, c: char, pat: Bytes, rep: Bytes)
    requires LinkSwap(pat, rep) && !IsLinkChar(c)
    ensures c in Replace(s, pat, rep) <==> c in s
  {
    if s == [] {
    } else if pat <= s {
      SwapKeepsChar(s[|pat|..], c, pat, rep);
      assert s == pat + s[|pat|..];
    } else {
      SwapKeepsChar(s[1..], c, pat, rep);
      assert s == [s[0]] + s[1..];
    }
  }

  lemma TailHasNoLinkChar(digest: string)
    requires IsDigest(digest)
    ensures NoLinkChar(Tail(digest)) && |Tail(digest)| == 76
  {
    var t := Tail(digest);
    forall i | 0 <= i < |t| ensures !IsLinkChar(t[i]) {
      if 8 <= i < 72 { assert t[i] == digest[i - 8]; }
    }
  }

  /** A link rewrite neither creates nor destroys a marker line. */
  lemma SwapKeepsMarkers(s: Bytes, pat: Bytes, rep: Bytes)
    requires LinkSwap(pat, rep)
    ensures ParseMarker(Replace(s, pat, rep)).Some? <==> ParseMarker(s).Some?
  {
    if ParseMarker(s).Some? { SwapDestroysNoMarker(s, pat, rep); }
    if ParseMarker(Replace(s, pat, rep)).Some? { SwapCreatesNoMarker(s, pat, rep); }
  }

  lemma SwapDestroysNoMarker(s: Bytes, pat: Bytes, rep: Bytes)
    requires LinkSwap(pat, rep) && ParseMarker(s).Some?
    ensures ParseMarker(Replace(s, pat, rep)).Some?
  {
    var m := ParseMarker(s).value;
    TailHasNoLinkChar(m.digest);
    SwapKeepsSuffix(PREFIX + m.name, Tail(m.digest), pat, rep);
    SwapAfterPrefix(m.name, pat, rep);
    MarkerParsesUniquely(Replace(s, pat, rep), Record(m.digest, Replace(m.name, pat, rep)));
  }

  lemma SwapCreatesNoMarker(s: Bytes, pat: Bytes, rep: Bytes)
    requires LinkSwap(pat, rep) && ParseMarker(Replace(s, pat, rep)).Some?
    ensures ParseMarker(s).Some?
  {
    var m := ParseMarker(Replace(s, pat, rep)).value;
    var t := Tail(m.digest);
    TailHasNoLinkChar(m.digest);
    EndsWithRest(PREFIX + m.name, t, t);
    SwapMakesNoSuffix(s, t, pat, rep);
    var y := s[..|s| - 76];
    assert s == y + t;
    SwapKeepsSuffix(y, t, pat, rep);
    SameStart(Replace(y, pat, rep), PREFIX + m.name, t);
    SwapKeepsPrefix(y, PREFIX, pat, rep);
    var n := y[|PREFIX|..];
    assert y == PREFIX + n;
    SwapAfterPrefix(n, pat, rep);
    MarkerParsesUniquely(s, Record(m.digest, n));
  }

  lemma SameStart(a: Bytes, b: Bytes, t: Bytes)
    requires a + t == b + t
    ensures a == b
  {
    assert |a| == |b|;
    assert a == (a + t)[..|a|] && b == (b + t)[..|b|];
  }

  lemma SwapAfterPrefix(n: Bytes, pat: Bytes, rep: Bytes)
    requires LinkSwap(pat, rep)
    ensures Replace(PREFIX + n, pat, rep) == PREFIX + Replace(n, pat, rep)
    ensures Replace(n, pat, rep) == [] <==> n == []
  {
    PlainPrefix(PREFIX, n, pat, rep);
  }

  lemma {:induction false} PlainPrefix(p: Bytes, n: Bytes, pat: Bytes, rep: Bytes)
    requires LinkSwap(pat, rep) && ']' !in p
    ensures Replace(p + n, pat, rep) == p + Replace(n, pat, rep)
  {
    if p == [] {
      assert p + n == n;
    } else {
      PlainPrefix(p[1..], n, pat, rep);
      assert p + n == [p[0]] + (p[1..] + n);
      assert (p + n)[0] == p[0] && p[0] in p;
      ReplaceSkip(p[0], p[1..] + n, pat, rep);
    }
  }

  lemma RewriteKeepsLine(s: Bytes)
    ensures PREFIX <= RewriteLinks(s) <==> PREFIX <= s
    ensures NUL in RewriteLinks(s) <==> NUL in s
    ensures ParseMarker(RewriteLinks(s)).Some? <==> ParseMarker(s).Some?
  {
    var a := Replace(s, "](../../", "](../");
    SwapKeepsPrefix(s, PREFIX, "](../../", "](../");
    SwapKeepsPrefix(a, PREFIX, "](./", "](../");
    SwapKeepsChar(s, NUL, "](../../", "](../");
    SwapKeepsChar(a, NUL, "](./", "](../");
    SwapKeepsMarkers(s, "](../../", "](../");
    SwapKeepsMarkers(a, "](./", "](../");
  }

  /** Checking a fragment as written is checking it as published: the rewrite
      can neither smuggle a marker record in nor turn one into prose. */
  lemma RewriteKeepsAllowed(text: Bytes)
    ensures FragmentAllowed(RewriteLinks(text)) <==> FragmentAllowed(text)
  {
    SplitOfRewrite(text);
    var ls := SplitLines(text);
    var rs := SplitLines(RewriteLinks(text));
    forall i | 0 <= i < |ls|
      ensures (PREFIX <= rs[i] ==> NUL !in rs[i] && ParseMarker(rs[i]).None?)
         <==> (PREFIX <= ls[i] ==> NUL !in ls[i] && ParseMarker(ls[i]).None?)
    {
      RewriteKeepsLine(ls[i]);
    }
  }

  // --------------------------------------- which names a scan can read back

  /** No scan ever yields a name with a line ending in it. */
  lemma {:induction false} ScannedNamesHaveNoEol(data: Bytes)
    ensures ScanData(data).Found? ==>
      forall i :: 0 <= i < |ScanData(data).records| ==> NoEol(ScanData(data).records[i].name)
  {
    LinesHaveNoEol(data);
    ScannedLineNames(SplitLines(data));
  }

  lemma {:induction false} ScannedLineNames(ls: seq<Bytes>)
    requires forall i :: 0 <= i < |ls| ==> NoEol(ls[i])
    ensures ScanLines(ls).Found? ==>
      forall i :: 0 <= i < |ScanLines(ls).records| ==> NoEol(ScanLines(ls).records[i].name)
  {
    if ls != [] {
      ScannedLineNames(ls[1..]);
      if ParseMarker(ls[0]).Some? {
        var m := ParseMarker(ls[0]).value;
        forall i | 0 <= i < |m.name| ensures !IsEol(m.name[i]) {
          assert ls[0][|PREFIX| + i] == m.name[i];
        }
      }
    }
  }

  /** So a record of a fragment whose name holds a CR is never read back, from
      any file at all. */
  lemma CrNameNeverScanned(data: Bytes, r: Record)
    requires !NoCr(r.name)
    ensures ScanData(data).Found? ==> r !in ScanData(data).records
  {
    ScannedNamesHaveNoEol(data);
    var i :| 0 <= i < |r.name| && r.name[i] == '\r';
    assert IsEol(r.name[i]);
  }

  /** A name the file system and `discover` let through: not empty, no NUL and
      no LF. A CR is let through. */
  predicate NameDiscovered(n: string) { n != "" && NUL !in n && '\n' !in n }

  /** Exactly which discovered names a marker can be read back for: those
      without a CR, which `discover` does not refuse. */
  lemma MarkerReadsBackIff(r: Record)
    requires NameDiscovered(r.name) && IsDigest(r.digest)
    ensures ScanData(MarkerLine(r)) == Found([r]) <==> NoCr(r.name)
  {
    if NoCr(r.name) {
      MarkerScans(r);
    } else {
      CrNameNeverScanned(MarkerLine(r), r);
      assert r in [r];
    }
  }

  lemma MarkerScans(r: Record)
    requires NameDiscovered(r.name) && NoCr(r.name) && IsDigest(r.digest)
    ensures ScanData(MarkerLine(r)) == Found([r])
    ensures ScanLine(MarkerText(r)) == Found([r]) && NoEol(MarkerText(r))
  {
    var t := MarkerText(r);
    TailHasNoLinkChar(r.digest);
    forall i | 0 <= i < |t| ensures !IsEol(t[i]) && t[i] != NUL {
      if |PREFIX| <= i < |PREFIX| + |r.name| {
        assert t[i] == r.name[i - |PREFIX|] && t[i] in r.name;
      } else if |PREFIX| + |r.name| <= i {
        var j := i - |PREFIX| - |r.name|;
        assert t[i] == Tail(r.digest)[j];
        if 8 <= j < 72 { assert Tail(r.digest)[j] == r.digest[j - 8]; }
      }
    }
    MarkerParsesUniquely(t, r);
    ScanAtLf(t, []);
    assert MarkerLine(r) == t + "\n" + [];
    ScanOneLine(t);
    ScanOneLine([]);
  }

  // ------------------------------------------------- names holding a CR

  predicate Contains(s: string, sub: string) {
    exists i | 0 <= i <= |s| :: sub <= s[i..]
  }

  /** A name that would open or end an HTML comment: the snapshot refuses it. */
  predicate HasDelimiter(name: string) {
    Contains(name, "-->") || Contains(name, "<!--") || Contains(name, "--!>")
  }

  /** Scanning runs over a bare CR as it does over an LF. */
  lemma ScanAtCr(a: Bytes, b: Bytes)
    requires b == [] || b[0] != '\n'
    ensures ScanData(a + "\r" + b) == Both(ScanData(a), ScanData(b))
  {
    SplitCr(b);
    SplitBefore(a, "\r" + b, SplitLines(b));
    Assoc(a, "\r", b);
    ScanLinesConcat(SplitLines(a), SplitLines(b));
  }

  lemma ContainsPart(a: Bytes, b: Bytes, c: Bytes, sub: Bytes)
    requires Contains(b, sub)
    ensures Contains(a + b + c, sub)
  {
    var i :| 0 <= i <= |b| && sub <= b[i..];
    assert (a + b + c)[|a| + i..] == b[i..] + c;
    assert sub <= (a + b + c)[|a| + i..];
  }

  /** The first CR of a name that has one. */
  lemma {:induction false} FirstCr(n: Bytes) returns (p: Bytes, q: Bytes)
    requires !NoCr(n)
    ensures n == p + "\r" + q && NoCr(p) && |q| < |n|
  {
    if n[0] == '\r' {
      p, q := [], n[1..];
    } else {
      p, q := FirstCr(n[1..]);
      assert n == [n[0]] + (p + "\r" + q);
      p := [n[0]] + p;
    }
  }

  /** A piece of a name that opens no comment is not the start of a marker,
      wherever the rest of the marker line falls. */
  lemma PieceIsNoMarker(n: Bytes, t: Bytes)
    requires !Contains(n, "<!--") && NoEol(n) && NoEol(t)
    requires t == [] || (|t| >= 4 && t[0] == ' ')
    ensures ScanData(n + t) == Found([])
  {
    if PREFIX <= n + t { PieceOpens(n, t); }
    ScanOneLine(n + t);
  }

  lemma PieceOpens(n: Bytes, t: Bytes)
    requires PREFIX <= n + t && (t == [] || t[0] == ' ')
    ensures Contains(n, "<!--")
  {
    var line := n + t;
    assert PREFIX[0] == '<' && PREFIX[1] == '!' && PREFIX[2] == '-' && PREFIX[3] == '-';
    assert t != [] ==> line[|n|] == t[0];
    assert "<!--" <= n[0..];
  }

  /** What follows the first CR of a name reads as no marker. */
  lemma {:induction false} RestScansEmpty(n: Bytes, digest: string)
    requires '\n' !in n && !Contains(n, "<!--") && IsDigest(digest)
    ensures ScanData(n + Tail(digest)) == Found([])
    decreases |n|
  {
    TailHasNoLinkChar(digest);
    TailIsOneLine(digest);
    if NoCr(n) {
      PieceIsNoMarker(n, Tail(digest));
    } else {
      var p, q := FirstCr(n);
      PiecesClean(p, q, n);
      RestScansEmpty(q, digest);
      PieceIsNoMarker(p, []);
      assert p + [] == p;
      assert n + Tail(digest) == p + "\r" + (q + Tail(digest));
      ScanAtCr(p, q + Tail(digest));
    }
  }

  lemma PiecesClean(p: Bytes, q: Bytes, n: Bytes)
    requires n == p + "\r" + q && '\n' !in n && !Contains(n, "<!--") && NoCr(p)
    ensures NoEol(p) && '\n' !in q && !Contains(p, "<!--") && !Contains(q, "<!--")
    ensures q != [] ==> q[0] != '\n'
  {
    forall i | 0 <= i < |p| ensures p[i] != '\n' && p[i] != '\r' { assert p[i] in p && n[i] == p[i] && n[i] in n; }
    forall i | 0 <= i < |q| ensures q[i] != '\n' { assert n[|p| + 1 + i] == q[i] && n[|p| + 1 + i] in n; }
    assert [] + p + ("\r" + q) == n && p + "\r" + q + [] == n;
    if Contains(p, "<!--") { ContainsPart([], p, "\r" + q, "<!--"); }
    if Contains(q, "<!--") { ContainsPart(p + "\r", q, [], "<!--"); }
  }

  lemma TailIsOneLine(digest: string)
    requires IsDigest(digest)
    ensures NoEol(Tail(digest)) && |Tail(digest)| == 76 && Tail(digest)[0] == ' '
  {
    var t := Tail(digest);
    forall i | 0 <= i < |t| ensures !IsEol(t[i]) {
      if 8 <= i < 72 { assert t[i] == digest[i - 8]; }
    }
  }

  /** The marker line of a name with a CR reads back as nothing at all: no
      record, of this fragment or of any other. */
  lemma CrMarkerScansEmpty(r: Record)
    requires NameDiscovered(r.name) && !NoCr(r.name) && !HasDelimiter(r.name) && IsDigest(r.digest)
    ensures ScanData(MarkerText(r)) == Found([])
  {
    var p, q := FirstCr(r.name);
    PiecesClean(p, q, r.name);
    RestScansEmpty(q, r.digest);
    assert MarkerText(r) == (PREFIX + p) + "\r" + (q + Tail(r.digest));
    ScanAtCr(PREFIX + p, q + Tail(r.digest));
    OpenMarkerScansEmpty(p, r.name, q);
  }

  /** A marker broken off inside its name. */
  lemma OpenMarkerScansEmpty(p: Bytes, n: Bytes, q: Bytes)
    requires n == p + "\r" + q && NameDiscovered(n) && !HasDelimiter(n) && NoEol(p)
    ensures ScanData(PREFIX + p) == Found([])
  {
    forall i | 0 <= i < |p| ensures p[i] != NUL { assert n[i] == p[i] && n[i] in n; }
    assert [] + p + ("\r" + q) == n;
    if ParseMarker(PREFIX + p).Some? {
      MarkerCloses(p);
      ContainsPart([], p, "\r" + q, "-->");
    }
    ScanOneLine(PREFIX + p);
  }

  lemma MarkerCloses(p: Bytes)
    requires ParseMarker(PREFIX + p).Some?
    ensures Contains(p, "-->")
  {
    var line := PREFIX + p;
    var m := ParseMarker(line).value;
    assert line == (PREFIX + m.name + DIGEST_LABEL + m.digest) + CLOSE;
    assert line[|line| - 3..] == "-->";
    assert "-->" <= p[|p| - 3..];
  }
}
