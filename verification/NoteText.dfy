/** The byte-level layer of the release-note assembler: leftmost replacement,
    line splitting with the three line endings of CommonMark section 2.1, the
    two link rewrites, and the CRLF normalisation of the section check.

    A file's bytes are a `string`, one character per byte. Nothing here looks at
    a byte except to compare it. */
module NoteText {

  type Bytes = string

  // ---------------------------------------------------------------- replace

  /** Every leftmost, non-overlapping occurrence of `pat`, replaced by `rep`. */
  function Replace(s: Bytes, pat: Bytes, rep: Bytes): Bytes
    requires pat != []
  {
    if s == [] then []
    else if pat <= s then rep + Replace(s[|pat|..], pat, rep)
    else [s[0]] + Replace(s[1..], pat, rep)
  }

  /** The two narrow substitutions made when a fragment is folded in. */
  function RewriteLinks(s: Bytes): Bytes {
    Replace(Replace(s, "](../../", "](../"), "](./", "](../")
  }

  /** CRLF endings turned into LF, as the section check does on both sides. */
  function Norm(s: Bytes): Bytes {
    Replace(s, "\r\n", "\n")
  }

  /** An LF file as a checkout with CRLF endings would hold it. */
  function ToCrlf(s: Bytes): Bytes {
    Replace(s, "\n", "\r\n")
  }

  // ------------------------------------------------------------------ lines

  predicate IsEol(c: char) { c == '\r' || c == '\n' }

  predicate NoEol(s: Bytes) { forall i :: 0 <= i < |s| ==> !IsEol(s[i]) }

  /** The fields between line endings: CRLF, a lone CR or a lone LF. */
  function SplitLines(s: Bytes): (ls: seq<Bytes>)
    ensures |ls| >= 1
  {
    if s == [] then [[]]
    else if s[0] == '\r' && |s| > 1 && s[1] == '\n' then [[]] + SplitLines(s[2..])
    else if IsEol(s[0]) then [[]] + SplitLines(s[1..])
    else
      var rest := SplitLines(s[1..]);
      [[s[0]] + rest[0]] + rest[1..]
  }

  lemma SplitPlain(c: char, t: Bytes)
    requires !IsEol(c)
    ensures SplitLines([c] + t) == [[c] + SplitLines(t)[0]] + SplitLines(t)[1..]
  {
    assert ([c] + t)[1..] == t;
  }

  lemma SplitLf(t: Bytes)
    ensures SplitLines("\n" + t) == [[]] + SplitLines(t)
  {
    assert ("\n" + t)[1..] == t;
  }

  lemma SplitCrLf(t: Bytes)
    ensures SplitLines("\r\n" + t) == [[]] + SplitLines(t)
  {
    assert ("\r\n" + t)[2..] == t;
  }

  lemma SplitCr(t: Bytes)
    requires t == [] || t[0] != '\n'
    ensures SplitLines("\r" + t) == [[]] + SplitLines(t)
  {
    assert ("\r" + t)[1..] == t;
  }

  function Butlast<T>(s: seq<T>): seq<T>
    requires s != []
  {
    s[..|s| - 1]
  }

  predicate EndsInCr(s: Bytes) { s != [] && s[|s| - 1] == '\r' }

  lemma {:induction false} LinesHaveNoEol(s: Bytes)
    ensures forall i :: 0 <= i < |SplitLines(s)| ==> NoEol(SplitLines(s)[i])
  {
    if s == [] {
    } else if s[0] == '\r' && |s| > 1 && s[1] == '\n' {
      LinesHaveNoEol(s[2..]);
    } else {
      LinesHaveNoEol(s[1..]);
    }
  }

  lemma Assoc<T>(a: seq<T>, b: seq<T>, c: seq<T>)
    ensures a + (b + c) == a + b + c
  {
  }

  /** Lengthening the first line and adding lines at the end do not meet. */
  lemma Lengthen(x: Bytes, ls: seq<Bytes>, tail: seq<Bytes>)
    requires ls != []
    ensures [x + (ls + tail)[0]] + (ls + tail)[1..] == [x + ls[0]] + ls[1..] + tail
  {
  }

  /** Text without a line ending only lengthens the first line after it. */
  lemma {:induction false} SplitAfter(x: Bytes, s: Bytes)
    requires NoEol(x)
    ensures SplitLines(x + s) == [x + SplitLines(s)[0]] + SplitLines(s)[1..]
  {
    if x == [] {
      assert x + s == s;
      assert x + SplitLines(s)[0] == SplitLines(s)[0];
    } else {
      SplitAfter(x[1..], s);
      SplitPlain(x[0], x[1..] + s);
      assert x + s == [x[0]] + (x[1..] + s);
      assert [x[0]] + (x[1..] + SplitLines(s)[0]) == x + SplitLines(s)[0];
    }
  }

  /** One line with no ending in it is one field. */
  lemma SplitOne(x: Bytes)
    requires NoEol(x)
    ensures SplitLines(x) == [x]
  {
    SplitAfter(x, []);
    assert x + [] == x;
  }

  /** Splitting just before a line ending the text so far has no part in. */
  lemma {:induction false} SplitBefore(a: Bytes, r: Bytes, tail: seq<Bytes>)
    requires r != [] && IsEol(r[0]) && !(EndsInCr(a) && r[0] == '\n')
    requires SplitLines(r) == [[]] + tail
    ensures SplitLines(a + r) == SplitLines(a) + tail
  {
    if a == [] {
      assert a + r == r;
    } else if a[0] == '\r' && |a| > 1 && a[1] == '\n' {
      var t := a[2..];
      assert a == "\r\n" + t;
      SplitBefore(t, r, tail);
      SplitCrLf(t);
      SplitCrLf(t + r);
      Assoc("\r\n", t, r);
      Assoc([[]], SplitLines(t), tail);
    } else {
      var c, t := a[0], a[1..];
      assert a == [c] + t;
      SplitBefore(t, r, tail);
      Assoc([c], t, r);
      SplitBeforeStep(c, t, r, tail);
    }
  }

  lemma SplitBeforeStep(c: char, t: Bytes, r: Bytes, tail: seq<Bytes>)
    requires r != [] && SplitLines(t + r) == SplitLines(t) + tail
    requires c == '\r' ==> (if t != [] then t[0] else r[0]) != '\n'
    ensures SplitLines([c] + (t + r)) == SplitLines([c] + t) + tail
  {
    if c == '\r' {
      assert (t + r)[0] == (if t != [] then t[0] else r[0]);
      SplitCr(t);
      SplitCr(t + r);
      Assoc([[]], SplitLines(t), tail);
    } else if c == '\n' {
      SplitLf(t);
      SplitLf(t + r);
      Assoc([[]], SplitLines(t), tail);
    } else {
      SplitPlain(c, t);
      SplitPlain(c, t + r);
      Lengthen([c], SplitLines(t), tail);
    }
  }

  /** Splitting across an LF, whatever stands before it: a CR there belongs to
      the ending, so the empty field it opened alone goes. */
  lemma SplitAtLf(a: Bytes, b: Bytes)
    ensures !EndsInCr(a) ==> SplitLines(a + "\n" + b) == SplitLines(a) + SplitLines(b)
    ensures EndsInCr(a) ==> SplitLines(a) == SplitLines(Butlast(a)) + [[]]
    ensures EndsInCr(a) ==> SplitLines(a + "\n" + b) == SplitLines(Butlast(a)) + SplitLines(b)
  {
    if EndsInCr(a) {
      var c := Butlast(a);
      SplitCr([]);
      assert "\r" + [] == "\r";
      SplitBefore(c, "\r", [[]]);
      assert a == c + "\r";
      SplitCrLf(b);
      SplitBefore(c, "\r\n" + b, SplitLines(b));
      CrLfSeam(c, b);
    } else {
      SplitLf(b);
      SplitBefore(a, "\n" + b, SplitLines(b));
      Assoc(a, "\n", b);
    }
  }

  lemma CrLfSeam(c: Bytes, b: Bytes)
    ensures (c + "\r") + "\n" + b == c + ("\r\n" + b)
  {
    Assoc(c, "\r", "\n");
    assert "\r" + "\n" == "\r\n";
    Assoc(c, "\r\n", b);
  }

  // ---------------------------------------------- replacing, line by line

  function ReplaceEach(ls: seq<Bytes>, pat: Bytes, rep: Bytes): (r: seq<Bytes>)
    requires pat != []
    ensures |r| == |ls|
  {
    seq(|ls|, i requires 0 <= i < |ls| => Replace(ls[i], pat, rep))
  }

  lemma {:induction false} FirstLineIsPrefix(s: Bytes)
    ensures SplitLines(s)[0] <= s
    ensures |SplitLines(s)[0]| < |s| ==> IsEol(s[|SplitLines(s)[0]|])
  {
    if s != [] && !IsEol(s[0]) { FirstLineIsPrefix(s[1..]); }
  }

  lemma ReplaceHere(pat: Bytes, rest: Bytes, rep: Bytes)
    requires pat != []
    ensures Replace(pat + rest, pat, rep) == rep + Replace(rest, pat, rep)
  {
    assert (pat + rest)[|pat|..] == rest;
  }

  lemma ReplaceSkip(c: char, rest: Bytes, pat: Bytes, rep: Bytes)
    requires pat != [] && !(pat <= [c] + rest)
    ensures Replace([c] + rest, pat, rep) == [c] + Replace(rest, pat, rep)
  {
    assert ([c] + rest)[1..] == rest;
  }

  /** A replacement that involves no line ending is a replacement made line by
      line, and it keeps every line where it is. */
  lemma {:induction false} SplitOfReplace(s: Bytes, pat: Bytes, rep: Bytes)
    requires pat != [] && rep != [] && NoEol(pat) && NoEol(rep)
    ensures SplitLines(Replace(s, pat, rep)) == ReplaceEach(SplitLines(s), pat, rep)
    decreases s, 1
  {
    if s == [] {
    } else if pat <= s {
      var rest := s[|pat|..];
      assert s == pat + rest;
      SplitOfReplace(rest, pat, rep);
      ReplaceHere(pat, rest, rep);
      SplitAfter(pat, rest);
      SplitAfter(rep, Replace(rest, pat, rep));
      EachRewrites(SplitLines(rest), pat, rep);
    } else {
      SplitOfReplaceSkip(s, pat, rep);
    }
  }

  lemma EachRewrites(ls: seq<Bytes>, pat: Bytes, rep: Bytes)
    requires pat != [] && ls != []
    ensures ReplaceEach([pat + ls[0]] + ls[1..], pat, rep)
      == [rep + ReplaceEach(ls, pat, rep)[0]] + ReplaceEach(ls, pat, rep)[1..]
  {
    ReplaceHere(pat, ls[0], rep);
  }

  lemma EachLengthens(c: char, ls: seq<Bytes>, pat: Bytes, rep: Bytes, s: Bytes)
    requires pat != [] && ls != [] && [c] + ls[0] <= s && !(pat <= s)
    ensures ReplaceEach([[c] + ls[0]] + ls[1..], pat, rep)
      == [[c] + ReplaceEach(ls, pat, rep)[0]] + ReplaceEach(ls, pat, rep)[1..]
  {
    ReplaceSkip(c, ls[0], pat, rep);
  }

  lemma {:induction false} SplitOfReplaceSkip(s: Bytes, pat: Bytes, rep: Bytes)
    requires pat != [] && rep != [] && NoEol(pat) && NoEol(rep)
    requires s != [] && !(pat <= s)
    ensures SplitLines(Replace(s, pat, rep)) == ReplaceEach(SplitLines(s), pat, rep)
    decreases s, 0
  {
    var c, t := s[0], s[1..];
    var r := Replace(t, pat, rep);
    assert s == [c] + t;
    ReplaceSkip(c, t, pat, rep);
    if c == '\r' && t != [] && t[0] == '\n' {
      var u := t[1..];
      assert t == ['\n'] + u && !(pat <= t) && s == "\r\n" + u;
      ReplaceSkip('\n', u, pat, rep);
      assert [c] + r == "\r\n" + Replace(u, pat, rep);
      SplitCrLf(u);
      SplitCrLf(Replace(u, pat, rep));
      SplitOfReplace(u, pat, rep);
    } else {
      SplitOfReplace(t, pat, rep);
      if c == '\r' {
        if t != [] { assert r[0] == if pat <= t then rep[0] else t[0]; }
        SplitCr(t);
        SplitCr(r);
      } else if c == '\n' {
        SplitLf(t);
        SplitLf(r);
      } else {
        SplitPlain(c, t);
        SplitPlain(c, r);
        FirstLineIsPrefix(s);
        EachLengthens(c, SplitLines(t), pat, rep, s);
      }
    }
  }

  function RewriteEach(ls: seq<Bytes>): (r: seq<Bytes>)
    ensures |r| == |ls|
  {
    seq(|ls|, i requires 0 <= i < |ls| => RewriteLinks(ls[i]))
  }

  /** Link rewriting commutes with line splitting. */
  lemma SplitOfRewrite(s: Bytes)
    ensures SplitLines(RewriteLinks(s)) == RewriteEach(SplitLines(s))
  {
    SplitOfReplace(s, "](../../", "](../");
    SplitOfReplace(Replace(s, "](../../", "](../"), "](./", "](../");
  }

  // ---------------------------------------------------- CRLF normalisation

  predicate OpensCrLf(s: Bytes) { |s| >= 2 && s[0] == '\r' && s[1] == '\n' }

  lemma NormCrLf(t: Bytes)
    ensures Norm("\r\n" + t) == "\n" + Norm(t)
  {
    ReplaceHere("\r\n", t, "\n");
  }

  lemma NormSkip(c: char, t: Bytes)
    requires !OpensCrLf([c] + t)
    ensures Norm([c] + t) == [c] + Norm(t)
  {
    assert !("\r\n" <= [c] + t);
    ReplaceSkip(c, t, "\r\n", "\n");
  }

  /** A CR meets an LF at the seam. */
  predicate Meets(a: Bytes, b: Bytes) { EndsInCr(a) && b != [] && b[0] == '\n' }

  /** Normalising a concatenation: piecewise, unless a CR meets an LF at the
      seam, when that CR is part of the ending and goes. */
  lemma {:induction false} NormConcat(a: Bytes, b: Bytes)
    ensures !Meets(a, b) ==> Norm(a + b) == Norm(a) + Norm(b)
    ensures Meets(a, b) ==> Norm(a + b) == Norm(Butlast(a)) + Norm(b)
    decreases a, 1
  {
    if a == [] {
      assert a + b == b;
    } else if OpensCrLf(a) {
      var t := a[2..];
      assert a == "\r\n" + t;
      NormConcat(t, b);
      Assoc("\r\n", t, b);
      NormCrLf(t);
      NormCrLf(t + b);
      if Meets(a, b) {
        assert EndsInCr(t);
        ButlastOf("\r\n", t);
        NormCrLf(Butlast(t));
        Assoc("\n", Norm(Butlast(t)), Norm(b));
      } else {
        Assoc("\n", Norm(t), Norm(b));
      }
    } else if a == "\r" && Meets(a, b) {
      NormMeet(b);
    } else {
      NormConcatSkip(a, b);
    }
  }

  lemma NormMeet(b: Bytes)
    requires b != [] && b[0] == '\n'
    ensures Norm("\r" + b) == Norm(b)
  {
    assert "\r" + b == "\r\n" + b[1..];
    NormCrLf(b[1..]);
    assert b == ['\n'] + b[1..];
    NormSkip('\n', b[1..]);
  }

  lemma {:induction false} NormConcatSkip(a: Bytes, b: Bytes)
    requires a != [] && !OpensCrLf(a) && !(a == "\r" && Meets(a, b))
    ensures !Meets(a, b) ==> Norm(a + b) == Norm(a) + Norm(b)
    ensures Meets(a, b) ==> Norm(a + b) == Norm(Butlast(a)) + Norm(b)
    decreases a, 0
  {
    var c, t := a[0], a[1..];
    NormConcat(t, b);
    assert a == [c] + t;
    Assoc([c], t, b);
    assert !OpensCrLf([c] + (t + b)) by {
      if t == [] { assert a == [c]; } else { assert (t + b)[0] == a[1]; }
    }
    NormSkip(c, t);
    NormSkip(c, t + b);
    if t == [] {
      assert a == [c] && !Meets(a, b);
    } else if Meets(a, b) {
      var u := Butlast(t);
      ButlastOf([c], t);
      assert !OpensCrLf([c] + u) by { if u != [] { assert a[1] == u[0]; } }
      NormSkip(c, u);
      Assoc([c], Norm(u), Norm(b));
    } else {
      Assoc([c], Norm(t), Norm(b));
    }
  }

  lemma ButlastOf(a: Bytes, t: Bytes)
    requires t != []
    ensures Butlast(a + t) == a + Butlast(t)
  {
  }

  predicate NoCr(s: Bytes) { '\r' !in s }

  lemma {:induction false} NormOfLf(s: Bytes)
    requires NoCr(s)
    ensures Norm(s) == s
  {
    if s != [] { NormOfLf(s[1..]); assert s[0] in s; assert forall c :: c in s[1..] ==> c in s; }
  }

  /** A CRLF checkout of an LF file normalises back to it. */
  lemma {:induction false} NormOfCrlf(s: Bytes)
    requires NoCr(s)
    ensures Norm(ToCrlf(s)) == s
  {
    if s != [] {
      assert s[0] in s;
      assert forall c :: c in s[1..] ==> c in s;
      NormOfCrlf(s[1..]);
      var r := ToCrlf(s[1..]);
      if s[0] == '\n' {
        assert ToCrlf(s) == "\r\n" + r;
        assert ("\r\n" + r)[2..] == r;
      } else {
        assert ToCrlf(s) == [s[0]] + r;
        assert ([s[0]] + r)[1..] == r;
      }
    }
  }
}
