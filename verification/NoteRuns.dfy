/** What same-day runs of the assembler keep, however many there are and wherever
    each one is cut off: no text is lost, and every section is published once. */
module NoteRuns {
  import opened Wrappers
  import opened NoteText
  import opened NoteMarkers
  import opened NoteSections
  import opened NoteDuplicates

  type Files = map<string, Bytes>

  /** The pool, the quarantine and the dated file of one day. */
  datatype Tree = Tree(pool: Files, aside: Files, file: Option<Bytes>)

  /** What every run of one day is given: the date, the names held back for other
      days, and the digest function. */
  datatype Day = Day(date: string, held: set<string>, sha: Bytes -> string)

  predicate ValidDay(day: Day) { NoEol(day.date) }

  /** The bytes a run appends to: the dated file, or the opening of a new one. */
  function BaseOf(file: Option<Bytes>, day: Day): Bytes {
    if file.Some? then file.value else NewFile(day.date)
  }

  // ------------------------------------------------------ order of names

  /** The order `sorted` puts names in: lexicographic, by code point. */
  predicate Before(a: string, b: string) {
    b != [] && (a == [] || a[0] < b[0] || (a[0] == b[0] && Before(a[1..], b[1..])))
  }

  lemma {:induction false} BeforeTrans(a: string, b: string, c: string)
    requires Before(a, b) && Before(b, c)
    ensures Before(a, c)
  {
    if a != [] && a[0] == b[0] && b[0] == c[0] { BeforeTrans(a[1..], b[1..], c[1..]); }
  }

  lemma {:induction false} BeforeTotal(a: string, b: string)
    ensures a != b ==> Before(a, b) || Before(b, a)
    ensures a == b ==> !Before(a, b)
  {
    if a != [] && b != [] && a[0] == b[0] {
      BeforeTotal(a[1..], b[1..]);
      assert a == [a[0]] + a[1..];
      assert b == [b[0]] + b[1..];
    }
  }

  predicate Sorted(names: seq<string>) {
    forall i, j :: 0 <= i < j < |names| ==> Before(names[i], names[j])
  }

  // -------------------------------------------------------------- records

  function RecordedAs(n: string, text: Bytes, day: Day): Record { Record(day.sha(text), n) }

  /** The file already records this very fragment: same name, same digest. */
  predicate IsRecorded(n: string, text: Bytes, base: Bytes, day: Day) {
    ScanData(base).Found? && RecordedAs(n, text, day) in ScanData(base).records
  }

  /** `fs` is what one run of `day` has to fold into `base`: every pool fragment
      of the day the file does not record, each once, in name order. */
  ghost predicate ToFold(fs: seq<Fragment>, pool: Files, base: Bytes, day: Day) {
    && ScanData(base).Found?
    && AllAccepted(fs)
    && Sorted(seq(|fs|, i requires 0 <= i < |fs| => fs[i].name))
    && (forall i :: 0 <= i < |fs| ==>
      && fs[i].name in pool && fs[i].name !in day.held
      && fs[i].text == pool[fs[i].name] && fs[i].digest == day.sha(fs[i].text)
      && !IsRecorded(fs[i].name, fs[i].text, base, day))
    && (forall n :: n in pool && n !in day.held && !IsRecorded(n, pool[n], base, day) ==>
      exists i :: 0 <= i < |fs| && fs[i].name == n)
  }

  /** Fragments leave the pool only for the quarantine or for good, unchanged. */
  ghost predicate Moved(was: Tree, now: Tree, day: Day) {
    && (forall n :: n in now.pool ==> n in was.pool && now.pool[n] == was.pool[n])
    && (forall n :: n in was.pool && n in day.held ==> n in now.pool)
    && (forall n :: n in was.aside ==> n in now.aside && now.aside[n] == was.aside[n])
    && (forall n :: n in now.aside && n !in was.aside ==>
      n in was.pool && n !in now.pool && now.aside[n] == was.pool[n])
  }

  /** Text that left the pool stands in the dated file as its full section. */
  ghost predicate Kept(was: Tree, now: Tree, day: Day) {
    forall n :: n in was.pool && n !in now.pool ==>
      now.file.Some? && SectionPresent(was.pool[n], RecordedAs(n, was.pool[n], day), now.file.value)
  }

  ghost predicate Unpublished(was: Tree, now: Tree, day: Day) {
    && now.file == was.file
    && (forall n :: n in was.pool && n !in now.pool ==>
      IsRecorded(n, was.pool[n], BaseOf(was.file, day), day))
  }

  /** The names the file records, whatever their digests. */
  function MarkedNames(file: Bytes): set<string> {
    if ScanData(file).Found? then set r | r in ScanData(file).records :: r.name else {}
  }

  /** What a run may fold into a file: what there is to fold, every text opening
      with a heading, and the duplicate guard passed unless the run is forced. */
  ghost predicate MayFold(was: Tree, fs: seq<Fragment>, day: Day, force: bool) {
    && fs != []
    && ToFold(fs, was.pool, BaseOf(was.file, day), day)
    && (forall i :: 0 <= i < |fs| ==> OpensWithHeading(fs[i].text))
    && (was.file.Some? ==> !GuardRefuses(was.file.value, fs, MarkedNames(was.file.value), force))
  }

  ghost predicate FoldedBy(was: Tree, now: Tree, day: Day, fs: seq<Fragment>, force: bool) {
    MayFold(was, fs, day, force) && now.file == Some(Build(BaseOf(was.file, day), fs))
  }

  /** What one run, forced or not, whole or cut off, can make of `was`. */
  ghost predicate OneRun(was: Tree, now: Tree, day: Day, force: bool) {
    && Moved(was, now, day)
    && Kept(was, now, day)
    && (Unpublished(was, now, day) || exists fs :: FoldedBy(was, now, day, fs, force))
  }

  /** A fragment a file with its section in it would not let in again: the file
      would record it, or the guard would find its heading. */
  predicate Admitted(f: Fragment, file: Option<Bytes>) {
    OpensWithHeading(f.text) && (NoCr(f.name) || (file.Some? ==> !Suspect(file.value, f.text)))
  }

  ghost predicate Published(was: Tree, now: Tree, day: Day, fs: seq<Fragment>) {
    && fs != []
    && ToFold(fs, was.pool, BaseOf(was.file, day), day)
    && (forall i :: 0 <= i < |fs| ==> Admitted(fs[i], was.file))
    && now.file == Some(Build(BaseOf(was.file, day), fs))
  }

  /** `now` is what runs of `day`, whole or cut off, can make of `was`. */
  ghost predicate Recoverable(was: Tree, now: Tree, day: Day) {
    && Moved(was, now, day)
    && Kept(was, now, day)
    && (Unpublished(was, now, day) || exists fs :: Published(was, now, day, fs))
  }

  /** The dated file once `fs` is folded in; folding nothing writes nothing. */
  function FoldedFile(file: Option<Bytes>, fs: seq<Fragment>, day: Day): Option<Bytes> {
    if fs == [] then file else Some(Build(BaseOf(file, day), fs))
  }

  /** Nothing of the day is left in the pool, and a file that was not written
      lacked nothing. */
  ghost predicate Finished(was: Tree, now: Tree, day: Day) {
    && (forall n :: n in now.pool ==> n in day.held)
    && (Unpublished(was, now, day) ==> ToFold([], was.pool, BaseOf(was.file, day), day))
  }

  /** A completed run: nothing of the day is left in the pool, and every section
      that was missing is in the file, once. */
  ghost predicate Completed(was: Tree, now: Tree, day: Day) {
    Recoverable(was, now, day) && Finished(was, now, day)
  }

  /** Names as a file system gives them. */
  predicate FileNames(pool: Files) {
    forall n :: n in pool ==> n != "" && NUL !in n
  }

  /** No name of the day holds a CR; what is held for other days may. */
  predicate DayReadable(pool: Files, day: Day) {
    forall n :: n in pool && n !in day.held ==> NoCr(n)
  }

  /** One run is a history of the day, unless it was forced past the guard with
      a name that a marker cannot be read back for. */
  lemma OneRunIsRecoverable(was: Tree, now: Tree, day: Day, force: bool)
    requires OneRun(was, now, day, force) && (force ==> DayReadable(was.pool, day))
    ensures Recoverable(was, now, day)
  {
    if fs :| FoldedBy(was, now, day, fs, force) { FoldedIsPublished(was, now, day, fs, force); }
  }

  lemma FoldedIsPublished(was: Tree, now: Tree, day: Day, fs: seq<Fragment>, force: bool)
    requires FoldedBy(was, now, day, fs, force) && (force ==> DayReadable(was.pool, day))
    ensures Published(was, now, day, fs)
  {
    forall i | 0 <= i < |fs| ensures Admitted(fs[i], was.file) {
      if was.file.Some? && !NoCr(fs[i].name) {
        CrNameUnmarked(was.file.value, fs[i].name);
        if Suspect(was.file.value, fs[i].text) {
          UnrecordedNames(was.file.value, fs, MarkedNames(was.file.value), i);
        }
      }
    }
  }

  /** No file marks a name with a CR. */
  lemma CrNameUnmarked(file: Bytes, n: string)
    requires !NoCr(n)
    ensures n !in MarkedNames(file)
  {
    if n in MarkedNames(file) {
      var r :| r in ScanData(file).records && r.name == n;
      CrNameNeverScanned(file, r);
    }
  }

  lemma NewFileScansEmpty(day: Day)
    requires ValidDay(day)
    ensures ScanData(NewFile(day.date)) == Found([])
  {
    var line := TITLE + day.date;
    assert NoEol(line) && line[0] == '#';
    PlainLineScansEmpty(line);
  }

  lemma PlainLineScansEmpty(line: Bytes)
    requires NoEol(line) && line != [] && line[0] != '<'
    ensures ScanData(line + "\n") == Found([])
  {
    ScanAtLf(line, []);
    NilRight(line + "\n");
    ScanOneLine(line);
    ScanOneLine([]);
    ScanBlank();
  }

  lemma KeptGrows(text: Bytes, r: Record, base: Bytes, fs: seq<Fragment>)
    requires SectionPresent(text, r, base)
    ensures SectionPresent(text, r, Build(base, fs))
  {
    BuildGrows(base, fs);
    PresentAfterAppend(text, r, base, Build(base, fs)[|base|..]);
    assert Build(base, fs) == base + Build(base, fs)[|base|..];
  }

  lemma FoldedWasUnrecorded(fs: seq<Fragment>, pool: Files, base: Bytes, day: Day)
    requires ToFold(fs, pool, base, day)
    ensures fs != [] ==> exists n :: n in pool && n !in day.held && !IsRecorded(n, pool[n], base, day)
  {
    if fs != [] { assert !IsRecorded(fs[0].name, pool[fs[0].name], base, day); }
  }

  /** After a publication no run of the day finds anything it may fold: the file
      records each fragment it was built from, or, where the name has a CR, holds
      the heading the guard looks for. */
  lemma NothingLeftToFold(was: Tree, now: Tree, day: Day, fs: seq<Fragment>)
    requires Published(was, now, day, fs) && Moved(was, now, day)
    ensures forall more: seq<Fragment> ::
      more != [] && ToFold(more, now.pool, now.file.value, day) ==> exists i :: 0 <= i < |more| && !Admitted(more[i], now.file)
  {
    forall more: seq<Fragment> | more != [] && ToFold(more, now.pool, now.file.value, day)
      ensures exists i :: 0 <= i < |more| && !Admitted(more[i], now.file)
    {
      LeftoverIsSuspect(was, now, day, fs, more, 0);
      assert !Admitted(more[0], now.file);
    }
  }

  /** Whatever is still to fold after a publication was published by it, under a
      name with a CR, and the file shows it. */
  lemma LeftoverIsSuspect(was: Tree, now: Tree, day: Day, fs: seq<Fragment>, more: seq<Fragment>, k: nat)
    requires Published(was, now, day, fs) && Moved(was, now, day)
    requires k < |more| && ToFold(more, now.pool, now.file.value, day)
    ensures !NoCr(more[k].name) && Suspect(now.file.value, more[k].text)
  {
    var base, n := BaseOf(was.file, day), more[k].name;
    ScanOfBuild(base, fs);
    RecordsAre(fs);
    assert n in was.pool && was.pool[n] == more[k].text;
    assert !IsRecorded(n, was.pool[n], base, day);
    var i :| 0 <= i < |fs| && fs[i].name == n;
    var r := RecordOf(fs[i]);
    assert r == RecordedAs(n, was.pool[n], day);
    assert NoCr(n) ==> r in Records(fs);
    BuiltIsSuspect(base, fs, i);
  }

  lemma KeptTrans(a: Tree, b: Tree, c: Tree, day: Day)
    requires Moved(a, b, day) && Moved(b, c, day) && Kept(a, b, day) && Kept(b, c, day)
    requires c.file == b.file || exists fs :: Published(b, c, day, fs)
    ensures Kept(a, c, day)
  {
    forall n | n in a.pool && n !in c.pool
      ensures c.file.Some? && SectionPresent(a.pool[n], RecordedAs(n, a.pool[n], day), c.file.value)
    {
      if n in b.pool {
      } else if c.file != b.file {
        var fs :| Published(b, c, day, fs);
        KeptGrows(a.pool[n], RecordedAs(n, a.pool[n], day), b.file.value, fs);
      }
    }
  }

  /** The restart lemma: what a later run makes of an interrupted one's tree is
      what runs could have made of the first tree. So any number of runs, each
      cut off anywhere, publishes each section once. */
  lemma RecoverableTrans(a: Tree, b: Tree, c: Tree, day: Day)
    requires Recoverable(a, b, day) && Recoverable(b, c, day)
    ensures Recoverable(a, c, day)
  {
    MovedTrans(a, b, c, day);
    if exists fs :: Published(a, b, day, fs) {
      var fs :| Published(a, b, day, fs);
      NothingLeftToFold(a, b, day, fs);
      assert !exists more :: Published(b, c, day, more);
      KeptTrans(a, b, c, day);
      assert Published(a, c, day, fs);
    } else {
      KeptTrans(a, b, c, day);
      if exists fs :: Published(b, c, day, fs) {
        var fs :| Published(b, c, day, fs);
        SameToFold(a, b, day, fs);
        assert Published(a, c, day, fs);
      }
    }
  }

  lemma MovedTrans(a: Tree, b: Tree, c: Tree, day: Day)
    requires Moved(a, b, day) && Moved(b, c, day)
    ensures Moved(a, c, day)
  {
  }

  lemma SameToFold(a: Tree, b: Tree, day: Day, fs: seq<Fragment>)
    requires Moved(a, b, day) && Unpublished(a, b, day)
    ensures ToFold(fs, b.pool, BaseOf(b.file, day), day) ==> ToFold(fs, a.pool, BaseOf(a.file, day), day)
  {
  }

  /** And once a run completes after any history of the day, the dated file is
      the old file with every missing section appended once, in order. */
  lemma CompletedTrans(a: Tree, b: Tree, c: Tree, day: Day)
    requires Recoverable(a, b, day) && Completed(b, c, day)
    ensures Completed(a, c, day)
    ensures exists fs :: ToFold(fs, a.pool, BaseOf(a.file, day), day) && c.file == FoldedFile(a.file, fs, day)
  {
    RecoverableTrans(a, b, c, day);
    if Unpublished(a, c, day) {
      if Unpublished(a, b, day) && Unpublished(b, c, day) {
        SameToFold(a, b, day, []);
        assert ToFold([], a.pool, BaseOf(a.file, day), day);
      }
    }
  }

  lemma WhatCompletedMeans(a: Tree, c: Tree, day: Day)
    requires Completed(a, c, day)
    ensures exists fs :: ToFold(fs, a.pool, BaseOf(a.file, day), day) && c.file == FoldedFile(a.file, fs, day)
  {
    if Unpublished(a, c, day) {
      assert ToFold([], a.pool, BaseOf(a.file, day), day);
    } else {
      var fs :| Published(a, c, day, fs);
      assert ToFold(fs, a.pool, BaseOf(a.file, day), day);
    }
  }

  lemma NothingToPublish(b: Tree, c: Tree, day: Day, fs: seq<Fragment>)
    requires forall n :: n in b.pool ==> n in day.held
    ensures !Published(b, c, day, fs)
  {
    if ToFold(fs, b.pool, BaseOf(b.file, day), day) {
      FoldedWasUnrecorded(fs, b.pool, BaseOf(b.file, day), day);
    }
  }

  /** Later runs of a completed day change nothing of what it completed. */
  lemma CompletedStays(a: Tree, b: Tree, c: Tree, day: Day)
    requires Completed(a, b, day) && Recoverable(b, c, day)
    ensures Completed(a, c, day) && c.file == b.file
  {
    RecoverableTrans(a, b, c, day);
    forall fs: seq<Fragment> ensures !Published(b, c, day, fs) { NothingToPublish(b, c, day, fs); }
    assert c.file == b.file;
  }

  /** Exactly when the file itself can tell a later run that it holds a section:
      when the fragment's name has no CR. With one, only the duplicate guard
      stands between the section and a second copy. */
  lemma FoldIsRememberedIff(base: Bytes, f: Fragment, day: Day)
    requires Accepted(f) && f.digest == day.sha(f.text) && ScanData(base).Found?
    ensures IsRecorded(f.name, f.text, Build(base, [f]), day) <==> NoCr(f.name)
  {
    var r := RecordOf(f);
    assert Build(base, [f]) == base + SectionOf(f) by {
      assert Butlast([f]) == [];
    }
    if NoCr(f.name) {
      ScanOfSection(base, f);
      assert r in ScanData(base).records + [r];
    } else {
      CrNameNeverScanned(Build(base, [f]), r);
    }
  }

  // ---------------------------------------------- folding a section twice

  /** Fragments a run lets in: each read, accepted and opening with a heading. */
  predicate Ready(pool: Files, day: Day) {
    forall n :: n in pool && n !in day.held ==>
      && NameDiscovered(n) && !HasDelimiter(n) && FragmentAllowed(pool[n]) && OpensWithHeading(pool[n])
      && IsDigest(day.sha(pool[n]))
  }

  /** A later run may fold the fragment `n` into the file of `b`. */
  ghost predicate FoldsAgain(b: Tree, n: string, day: Day, force: bool) {
    exists more: seq<Fragment>, k: nat :: MayFold(b, more, day, force) && 0 <= k < |more| && more[k].name == n
  }

  lemma {:induction false} LeastName(names: set<string>) returns (m: string)
    requires names != {}
    ensures m in names && forall n :: n in names && n != m ==> Before(m, n)
    decreases |names|
  {
    var y :| y in names;
    m := y;
    if names != {y} {
      var least := LeastName(names - {y});
      BeforeTotal(y, least);
      m := if Before(y, least) then y else least;
      forall n | n in names && n != m ensures Before(m, n) {
        if n != y && n != least { if m == y { BeforeTrans(y, least, n); } }
      }
    }
  }

  lemma {:induction false} InNameOrder(names: set<string>) returns (order: seq<string>)
    ensures Sorted(order) && forall n :: n in order <==> n in names
    decreases |names|
  {
    order := [];
    if names != {} {
      var m := LeastName(names);
      var rest := InNameOrder(names - {m});
      forall i | 0 <= i < |rest| ensures Before(m, rest[i]) { assert rest[i] in rest; }
      order := [m] + rest;
    }
  }

  /** What there is to fold. */
  function Unfolded(b: Tree, day: Day): set<string>
    requires b.file.Some?
  {
    set n | n in b.pool && n !in day.held && !IsRecorded(n, b.pool[n], b.file.value, day)
  }

  /** Everything there is to fold, as some run would list it, and where `n` is. */
  lemma AllToFold(b: Tree, day: Day, note: Bytes, n: string) returns (more: seq<Fragment>, k: nat)
    requires Ready(b.pool, day) && ValidNote(note) && b.file.Some? && ScanData(b.file.value).Found?
    requires n in Unfolded(b, day)
    ensures ToFold(more, b.pool, b.file.value, day) && k < |more| && more[k].name == n
    ensures forall i :: 0 <= i < |more| ==> OpensWithHeading(more[i].text)
  {
    var names := InNameOrder(Unfolded(b, day));
    ListedIsToFold(b, day, note, names);
    more := Listed(b, day, note, names);
    k :| 0 <= k < |names| && names[k] == n;
  }

  function Listed(b: Tree, day: Day, note: Bytes, names: seq<string>): seq<Fragment>
    requires forall i :: 0 <= i < |names| ==> names[i] in b.pool
  {
    seq(|names|, i requires 0 <= i < |names| => Fragment(names[i], b.pool[names[i]], day.sha(b.pool[names[i]]), note))
  }

  lemma ListedIsToFold(b: Tree, day: Day, note: Bytes, names: seq<string>)
    requires Ready(b.pool, day) && ValidNote(note) && b.file.Some? && ScanData(b.file.value).Found?
    requires Sorted(names) && forall n :: n in names <==> n in Unfolded(b, day)
    ensures forall i :: 0 <= i < |names| ==> names[i] in b.pool
    ensures ToFold(Listed(b, day, note, names), b.pool, b.file.value, day)
    ensures forall i :: 0 <= i < |names| ==> OpensWithHeading(Listed(b, day, note, names)[i].text)
  {
    forall i | 0 <= i < |names| ensures names[i] in Unfolded(b, day) { assert names[i] in names; }
    var more := Listed(b, day, note, names);
    assert seq(|more|, i requires 0 <= i < |more| => more[i].name) == names;
    forall n | n in b.pool && n !in day.held && !IsRecorded(n, b.pool[n], b.file.value, day)
      ensures exists i :: 0 <= i < |more| && more[i].name == n
    {
      assert n in Unfolded(b, day) && n in names;
      var i :| 0 <= i < |names| && names[i] == n;
      assert more[i].name == n;
    }
  }

  /** Exactly when a section that was published, by a run cut off before it
      cleared the fragment, may be folded in a second time: when the later run is
      forced and the name has a CR. An unforced run is refused by the guard, and a
      name without a CR is recorded. */
  lemma FoldedAgainIff(a: Tree, b: Tree, day: Day, fs: seq<Fragment>, i: nat, force: bool)
    requires Published(a, b, day, fs) && Moved(a, b, day)
    requires i < |fs| && fs[i].name in b.pool && Ready(b.pool, day)
    ensures FoldsAgain(b, fs[i].name, day, force) <==> force && !NoCr(fs[i].name)
  {
    if FoldsAgain(b, fs[i].name, day, force) {
      var more: seq<Fragment>, k: nat :| MayFold(b, more, day, force) && 0 <= k < |more| && more[k].name == fs[i].name;
      RefusedUnlessForced(a, b, day, fs, more, k, force);
    }
    if force && !NoCr(fs[i].name) { ForcedFoldsAgain(a, b, day, fs, i); }
  }

  lemma RefusedUnlessForced(a: Tree, b: Tree, day: Day, fs: seq<Fragment>, more: seq<Fragment>, k: nat, force: bool)
    requires Published(a, b, day, fs) && Moved(a, b, day)
    requires MayFold(b, more, day, force) && k < |more|
    ensures force && !NoCr(more[k].name)
  {
    LeftoverIsSuspect(a, b, day, fs, more, k);
    CrNameUnmarked(b.file.value, more[k].name);
    UnrecordedNames(b.file.value, more, MarkedNames(b.file.value), k);
  }

  lemma ForcedFoldsAgain(a: Tree, b: Tree, day: Day, fs: seq<Fragment>, i: nat)
    requires Published(a, b, day, fs) && Moved(a, b, day)
    requires i < |fs| && fs[i].name in b.pool && Ready(b.pool, day) && !NoCr(fs[i].name)
    ensures FoldsAgain(b, fs[i].name, day, true)
  {
    var n := fs[i].name;
    ScanOfBuild(BaseOf(a.file, day), fs);
    CrNameNeverScanned(b.file.value, RecordedAs(n, b.pool[n], day));
    assert n in Unfolded(b, day);
    var more, k := AllToFold(b, day, fs[i].note, n);
    assert MayFold(b, more, day, true);
  }

  /** A run that does it, for any such name and any text a run lets in: published,
      cut off before the clearing, and then forced. The section is there twice. */
  lemma FoldedTwice(day: Day, f: Fragment, a: Tree, b: Tree, c: Tree)
    requires ValidDay(day) && Accepted(f) && !NoCr(f.name) && f.name !in day.held
    requires OpensWithHeading(f.text) && f.digest == day.sha(f.text)
    requires a == Tree(map[f.name := f.text], map[], None)
    requires b == a.(file := Some(NewFile(day.date) + SectionOf(f)))
    requires c == a.(file := Some(NewFile(day.date) + SectionOf(f) + SectionOf(f)))
    ensures OneRun(a, b, day, false) && OneRun(b, c, day, true) && !OneRun(b, c, day, false)
  {
    NewFileScansEmpty(day);
    ScanOfCrSection(NewFile(day.date), f);
    BuildOne(BaseOf(a.file, day), f);
    BuildOne(BaseOf(b.file, day), f);
    OneFold(a, b, f, day, false);
    OneFold(b, c, f, day, true);
    FoldedIsPublished(a, b, day, [f], false);
    assert |c.file.value| > |b.file.value|;
    OnlyForced(a, b, c, day, [f]);
  }

  lemma BuildOne(base: Bytes, f: Fragment)
    ensures Build(base, [f]) == base + SectionOf(f)
  {
    assert Butlast([f]) == [];
  }

  lemma OneFold(was: Tree, now: Tree, f: Fragment, day: Day, force: bool)
    requires was.pool == map[f.name := f.text] && Accepted(f) && !NoCr(f.name) && f.name !in day.held
    requires OpensWithHeading(f.text) && f.digest == day.sha(f.text) && ScanData(BaseOf(was.file, day)).Found?
    requires was.file.None? || force
    requires now == was.(file := Some(Build(BaseOf(was.file, day), [f])))
    ensures FoldedBy(was, now, day, [f], force) && OneRun(was, now, day, force)
  {
    OneToFold(was.pool, BaseOf(was.file, day), f, day);
    assert FoldedBy(was, now, day, [f], force);
  }

  lemma OnlyForced(a: Tree, b: Tree, c: Tree, day: Day, fs: seq<Fragment>)
    requires Published(a, b, day, fs) && Moved(a, b, day) && b.file != c.file
    ensures !OneRun(b, c, day, false)
  {
    if more: seq<Fragment> :| FoldedBy(b, c, day, more, false) {
      RefusedUnlessForced(a, b, day, fs, more, 0, false);
    }
  }

  lemma OneToFold(pool: Files, base: Bytes, f: Fragment, day: Day)
    requires pool == map[f.name := f.text] && Accepted(f) && !NoCr(f.name) && f.name !in day.held
    requires f.digest == day.sha(f.text) && ScanData(base).Found?
    ensures ToFold([f], pool, base, day)
  {
    CrNameNeverScanned(base, RecordOf(f));
    var fs := [f];
    assert seq(|fs|, i requires 0 <= i < |fs| => fs[i].name) == [f.name];
    assert fs[0].name == f.name;
  }
}
