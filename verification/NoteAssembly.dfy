/** One run of the release-note assembler, from discovery to clearing, over a
    disk that other processes may write and that may be cut off at any step. */
module NoteAssembly {
  import opened Wrappers
  import opened NoteText
  import opened NoteMarkers
  import opened NoteSections
  import opened NoteDuplicates
  import opened NoteDisk
  import opened NoteRuns

  /** `Stopped` is a kill or a failed file step; `Refused` a precondition the
      run checked; `Nothing` an empty pool; `Done` a run that reached its end. */
  datatype Outcome = Done | Nothing | Refused | Stopped

  /** A removal the run can answer for with `text` and `file`: it destroyed bytes
      with the digest of `text`, whose section stands in `file`, while the dated
      file had the digest of `file`. */
  ghost predicate VouchedBy(sha: Bytes -> string, r: Removal, text: Bytes, file: Bytes) {
    && sha(text) == sha(r.bytes) && sha(file) == sha(r.file)
    && SectionPresent(text, Record(sha(text), r.name), file)
  }

  /** It is vouched for by one of these fragments, under its own name, and one of
      these files. */
  ghost predicate Vouched(sha: Bytes -> string, r: Removal, fs: seq<Fragment>, files: seq<Bytes>) {
    exists f, file :: f in fs && file in files && f.name == r.name && VouchedBy(sha, r, f.text, file)
  }

  /** A publication that drops nothing: it replaces a file with the digest of
      `base` by bytes with the digest of that base plus the sections of `fs`. */
  ghost predicate FaithfulTo(day: Day, p: Publication, base: Option<Bytes>, fs: seq<Fragment>) {
    && fs != []
    && (p.was.Some? <==> base.Some?)
    && (p.was.Some? ==> day.sha(p.was.value) == day.sha(base.value))
    && day.sha(p.now) == day.sha(Build(BaseOf(base, day), fs))
  }

  /** Of sections of some of these fragments. */
  ghost predicate FaithfulFrom(day: Day, p: Publication, base: Option<Bytes>, fs: seq<Fragment>) {
    exists part :: Within(part, fs) && FaithfulTo(day, p, base, part)
  }

  /** Two different byte strings with one SHA-256. */
  predicate Collision(sha: Bytes -> string, a: Bytes, b: Bytes) { a != b && sha(a) == sha(b) }

  /** A vouched removal destroyed only bytes whose own full section stood in the
      dated file at that moment, or one of two named pairs collides: the bytes
      and the text the run read, or the two files. */
  lemma VouchedMeansPresent(sha: Bytes -> string, r: Removal, text: Bytes, file: Bytes)
    requires VouchedBy(sha, r, text, file)
    ensures
      || SectionPresent(r.bytes, Record(sha(r.bytes), r.name), r.file)
      || Collision(sha, r.bytes, text) || Collision(sha, r.file, file)
  {
  }

  ghost predicate Distinct(fs: seq<Fragment>) {
    forall i, j :: 0 <= i < j < |fs| ==> fs[i].name != fs[j].name
  }

  ghost predicate NamesSorted(fs: seq<Fragment>) {
    forall i, j :: 0 <= i < j < |fs| ==> Before(fs[i].name, fs[j].name)
  }

  lemma SortedIsDistinct(fs: seq<Fragment>)
    requires NamesSorted(fs)
    ensures Distinct(fs)
  {
    forall i, j | 0 <= i < j < |fs| ensures fs[i].name != fs[j].name {
      BeforeTotal(fs[i].name, fs[j].name);
    }
  }

  /** The fragments of `fs` a file does (or does not) record, in order. */
  function Select(fs: seq<Fragment>, records: seq<Record>, want: bool): seq<Fragment> {
    if fs == [] then []
    else
      var f := fs[|fs| - 1];
      var rest := Select(Butlast(fs), records, want);
      if (RecordOf(f) in records) == want then rest + [f] else rest
  }

  ghost predicate Within(xs: seq<Fragment>, fs: seq<Fragment>) {
    forall i :: 0 <= i < |xs| ==> xs[i] in fs
  }

  lemma WithinTrans(a: seq<Fragment>, b: seq<Fragment>, c: seq<Fragment>)
    requires Within(a, b) && Within(b, c)
    ensures Within(a, c)
  {
    forall i | 0 <= i < |a| ensures a[i] in c {
      var j :| 0 <= j < |b| && b[j] == a[i];
    }
  }

  /** Selecting keeps the order, loses nothing it should keep, adds nothing. */
  lemma {:induction false} SelectIsExact(fs: seq<Fragment>, records: seq<Record>, want: bool)
    ensures Within(Select(fs, records, want), fs)
    ensures forall i :: 0 <= i < |fs| && ((RecordOf(fs[i]) in records) == want) ==> fs[i] in Select(fs, records, want)
    ensures forall i :: 0 <= i < |Select(fs, records, want)| ==>
      ((RecordOf(Select(fs, records, want)[i]) in records) == want)
    ensures NamesSorted(fs) ==> NamesSorted(Select(fs, records, want))
  {
    if fs != [] {
      var f := fs[|fs| - 1];
      var init := Butlast(fs);
      var rest := Select(init, records, want);
      SelectIsExact(init, records, want);
      if NamesSorted(fs) {
        assert NamesSorted(init);
        forall i | 0 <= i < |rest| ensures Before(rest[i].name, f.name) {
          var k :| 0 <= k < |init| && init[k] == rest[i];
          assert fs[k] == rest[i];
        }
      }
    }
  }

  class Assembly {
    const disk: Disk
    const day: Day
    const out: string
    const force: bool
    /** The commit note of a fragment: a git read this model takes as given. */
    const noteOf: string -> Bytes

    var frags: seq<Fragment>
    var outId: Option<string>
    var srcId: map<string, string>
    var outCopy: Option<Bytes>
    var seen: seq<Record>
    var digests: set<string>
    var consumed: seq<string>
    var quarantined: seq<string>
    var published: bool
    var publishedId: string
    ghost var moved: seq<string>
    /** The bytes this run built to publish, once it has. */
    ghost var composed: Option<Bytes>

    constructor (disk: Disk, day: Day, out: string, force: bool, noteOf: string -> Bytes)
      requires disk.Valid() && day.sha == disk.sha && ValidDay(day)
      requires forall n :: ValidNote(noteOf(n))
      ensures Valid() && Accounted()
      ensures this.disk == disk && this.day == day && this.out == out
      ensures this.force == force
      ensures consumed == quarantined == moved == [] && !published && composed == None
    {
      this.disk, this.day, this.out, this.force, this.noteOf := disk, day, out, force, noteOf;
      frags, outId, srcId, outCopy, seen, digests := [], None, map[], None, [], {};
      consumed, quarantined, published, publishedId := [], [], false, "";
      moved, composed := [], None;
    }

    /** What the run is given is in order; none of it changes during the run. */
    ghost predicate Valid() {
      disk.Valid() && day.sha == disk.sha && ValidDay(day) && forall n :: ValidNote(noteOf(n))
    }

    /** What was consumed and what was set aside are together exactly what this
        run moved. */
    ghost predicate Accounted()
      reads this`moved, this`consumed, this`quarantined
    {
      multiset(moved) == multiset(consumed) + multiset(quarantined)
    }

    /** The tree as the day's theorem sees it. */
    ghost function Now(): Tree
      reads disk`pool, disk`aside, disk`dated
    {
      Tree(disk.pool, disk.aside, Get(disk.dated, out))
    }

    // ------------------------------------------------------- discovery

    /** Every pending name of the day, sorted; `None` for a name with a newline. */
    method Discover() returns (names: Option<seq<string>>)
      ensures names.Some? ==> Sorted(names.value)
      ensures names.Some? ==> forall n :: n in names.value <==> n in disk.pool && n !in day.held
      ensures names.Some? ==> forall n :: n in names.value ==> '\n' !in n
      ensures names.None? <==> exists n :: n in disk.pool && '\n' in n
    {
      if n :| n in disk.pool && '\n' in n { return None; }
      var sorted := SortedNames(disk.pool.Keys - day.held);
      names := Some(sorted);
    }

    method SortedNames(keys: set<string>) returns (names: seq<string>)
      ensures Sorted(names)
      ensures forall n :: n in names <==> n in keys
    {
      names := [];
      var left := keys;
      while left != {}
        invariant Sorted(names)
        invariant forall n :: n in names <==> n in keys && n !in left
        invariant left <= keys
        decreases |left|
      {
        var n :| n in left;
        names := Insert(names, n);
        left := left - {n};
      }
    }

    method Insert(names: seq<string>, n: string) returns (r: seq<string>)
      requires Sorted(names) && n !in names
      ensures Sorted(r)
      ensures forall m :: m in r <==> m in names || m == n
    {
      var k := 0;
      while k < |names| && Before(names[k], n)
        invariant k <= |names|
        invariant forall i :: 0 <= i < k ==> Before(names[i], n)
      {
        k := k + 1;
      }
      r := names[..k] + [n] + names[k..];
      forall i | k <= i < |names| ensures Before(n, names[i]) {
        BeforeTotal(names[k], n);
        if i > k { BeforeTrans(n, names[k], names[i]); }
      }
      forall i, j | 0 <= i < j < |r| ensures Before(r[i], r[j]) {
        if i < k < j { assert r[j] == names[j - 1]; } else if k < i { assert r[i] == names[i - 1] && r[j] == names[j - 1]; }
      }
    }

    // -------------------------------------------------- working copies

    /** A fragment as this run reads it: one copy, checked against a hash taken
        before and after. */
    ghost predicate Snapped(f: Fragment) {
      && f.digest == day.sha(f.text) && IsDigest(f.digest) && ValidNote(f.note)
      && '\n' !in f.name && !HasDelimiter(f.name) && FragmentAllowed(f.text)
    }

    method Snapshot(names: seq<string>) returns (ok: bool)
      requires Valid()
      requires Sorted(names) && forall n :: n in names ==> '\n' !in n
      modifies this`frags, disk`pool, disk`aside, disk`dated
      ensures disk.quiet ==> Now() == old(Now()) && disk.dated == old(disk.dated)
      ensures ok ==> |frags| == |names| && forall i :: 0 <= i < |frags| ==> Snapped(frags[i]) && frags[i].name == names[i]
      ensures ok && disk.quiet ==> forall i :: 0 <= i < |frags| ==> Get(disk.pool, frags[i].name) == Some(frags[i].text)
    {
      frags := [];
      var k := 0;
      while k < |names|
        modifies this`frags, disk`pool, disk`aside, disk`dated
        invariant k <= |names| && |frags| == k
        invariant disk.quiet ==> Now() == old(Now()) && disk.dated == old(disk.dated)
        invariant forall i :: 0 <= i < k ==> Snapped(frags[i]) && frags[i].name == names[i]
        invariant disk.quiet ==> forall i :: 0 <= i < k ==> Get(disk.pool, frags[i].name) == Some(frags[i].text)
      {
        var n := names[k];
        assert n in names;
        if n !in disk.pool { return false; }
        var before := day.sha(disk.pool[n]);
        disk.Others();
        if n !in disk.pool { return false; }
        var copy := disk.pool[n];
        disk.Others();
        if n !in disk.pool { return false; }
        var after := day.sha(disk.pool[n]);
        if before != after || day.sha(copy) != before { return false; }
        if HasDelimiter(n) || !FragmentAllowed(copy) { return false; }
        assert IsDigest(disk.sha(copy));
        frags := frags + [Fragment(n, copy, before, noteOf(n))];
        k := k + 1;
      }
      ok := true;
    }

    // ---------------------------------------------- the recovery index

    predicate SourcesUnchanged()
      reads this`srcId, this`outId, disk`dated
    {
      && disk.dated.Keys == srcId.Keys
      && (if out in disk.dated then Some(day.sha(disk.dated[out])) else None) == outId
      && forall p | p in srcId :: day.sha(disk.dated[p]) == srcId[p]
    }

    /** The recovery index knows the file being assembled by the copy the run read. */
    ghost predicate Indexed()
      reads this`outCopy, this`srcId
    {
      if outCopy.Some? then out in srcId && srcId[out] == day.sha(outCopy.value) else out !in srcId
    }

    /** And the scan found exactly the records in that copy. */
    ghost predicate Scanned()
      reads this`outCopy, this`srcId, this`seen
    {
      && Indexed()
      && (if outCopy.Some? then ScanData(outCopy.value) == Found(seen) else seen == [])
    }

    /** One dated file: a working copy, and the records in it. */
    method ReadDated(p: string) returns (ok: bool, copy: Bytes, records: seq<Record>)
      requires Valid()
      modifies disk`pool, disk`aside, disk`dated
      ensures disk.quiet ==> Now() == old(Now()) && disk.dated == old(disk.dated)
      ensures ok ==> ScanData(copy) == Found(records)
      ensures ok && disk.quiet ==> p in disk.dated && copy == disk.dated[p]
    {
      ok, copy, records := false, [], [];
      if p !in disk.dated { return; }
      copy := disk.dated[p];
      disk.Others();
      if p !in disk.dated || day.sha(disk.dated[p]) != day.sha(copy) { return; }
      var s := ScanData(copy);
      if s.Found? { ok, records := true, s.records; }
    }

    /** Read every dated file, not just the one being written. */
    method ScanMarkers() returns (ok: bool)
      requires Valid()
      modifies this`outId, this`srcId, this`outCopy, this`seen, this`digests
      modifies disk`pool, disk`aside, disk`dated
      ensures disk.quiet ==> Now() == old(Now()) && disk.dated == old(disk.dated)
      ensures ok ==> Scanned()
      ensures ok && disk.quiet ==> SourcesUnchanged() && outCopy == Get(disk.dated, out)
      ensures ok && disk.quiet ==> forall d :: d in digests <==> FiledIn(disk.dated, d)
    {
      ghost var all := disk.dated;
      var first := disk.dated;
      var copies, records, filed;
      ok, copies, records, filed := ReadAll();
      if !ok { return; }
      if disk.quiet { assert copies == all; }
      Adopt(first, copies, records, filed);
    }

    /** Every dated file there is, one after the other. */
    method ReadAll() returns (ok: bool, copies: map<string, Bytes>, records: seq<Record>, filed: set<string>)
      requires Valid()
      modifies disk`pool, disk`aside, disk`dated
      ensures disk.quiet ==> Now() == old(Now()) && disk.dated == old(disk.dated)
      ensures if out in copies then ok ==> ScanData(copies[out]) == Found(records) else records == []
      ensures ok ==> forall d :: d in filed <==> FiledIn(copies, d)
      ensures ok && disk.quiet ==> copies == old(disk.dated)
    {
      ghost var all := disk.dated;
      var names := SortedNames(disk.dated.Keys);
      copies, records, filed := map[], [], {};
      var k := 0;
      while k < |names|
        modifies disk`pool, disk`aside, disk`dated
        invariant k <= |names|
        invariant disk.quiet ==> Now() == old(Now()) && disk.dated == all
        invariant Read(copies, records, filed)
        invariant forall i :: 0 <= i < |names| ==> (names[i] in copies <==> i < k)
        invariant disk.quiet ==> forall p :: p in copies ==> p in all && copies[p] == all[p]
      {
        var p := names[k];
        var read, copy, found := ReadDated(p);
        if !read { return false, copies, records, filed; }
        ReadMore(copies, records, filed, p, copy, found);
        forall i | 0 <= i < |names| && i != k ensures names[i] != p {
          BeforeTotal(names[k], names[i]);
          if i < k { assert Before(names[i], names[k]); } else { assert Before(names[k], names[i]); }
        }
        copies := copies[p := copy];
        filed := filed + (set r | r in found :: r.digest);
        if p == out { records := found; }
        k := k + 1;
      }
      assert forall p :: p in all ==> p in names;
      ok := true;
    }

    /** The copies read so far, this file's records, and every digest in them. */
    ghost predicate Read(copies: map<string, Bytes>, records: seq<Record>, filed: set<string>) {
      && (if out in copies then ScanData(copies[out]) == Found(records) else records == [])
      && (forall d :: d in filed <==> FiledIn(copies, d))
    }

    lemma ReadMore(copies: map<string, Bytes>, records: seq<Record>, filed: set<string>,
                   p: string, copy: Bytes, found: seq<Record>)
      requires Read(copies, records, filed) && p !in copies && ScanData(copy) == Found(found)
      ensures Read(copies[p := copy], if p == out then found else records, filed + set r | r in found :: r.digest)
    {
      FiledMore(copies, p, copy, found);
    }

    /** Take the scan's findings over as the run's recovery index. */
    method Adopt(first: map<string, Bytes>, copies: map<string, Bytes>, records: seq<Record>, filed: set<string>)
      requires out in copies ==> ScanData(copies[out]) == Found(records)
      requires out !in copies ==> records == []
      modifies this`outId, this`srcId, this`outCopy, this`seen, this`digests
      ensures Scanned() && outCopy == Get(copies, out) && digests == filed
      ensures first == copies == disk.dated ==> SourcesUnchanged()
    {
      outId := if out in first then Some(day.sha(first[out])) else None;
      srcId := map p | p in copies :: day.sha(copies[p]);
      outCopy, seen, digests := Get(copies, out), records, filed;
    }

    // -------------------------------------------------- classification

    /** Split the run's fragments into those this file already records and the
        rest; refuse the rest when one has the bytes of something filed
        elsewhere, unless the run is forced. */
    method Classify() returns (ok: bool, already: seq<Fragment>, pending: seq<Fragment>)
      requires Valid()
      ensures already == Select(frags, seen, true)
      ensures pending == Select(frags, seen, false)
      ensures ok <==> force || forall i :: 0 <= i < |pending| ==> pending[i].digest !in digests
    {
      already, pending := [], [];
      var ambiguous := false;
      var k := 0;
      while k < |frags|
        invariant k <= |frags|
        invariant already == Select(frags[..k], seen, true)
        invariant pending == Select(frags[..k], seen, false)
        invariant ambiguous <==> exists i :: 0 <= i < |pending| && pending[i].digest in digests
      {
        var f := frags[k];
        assert Butlast(frags[..k + 1]) == frags[..k];
        if RecordOf(f) in seen {
          already := already + [f];
        } else {
          if f.digest in digests {
            ambiguous := true;
            assert (pending + [f])[|pending|].digest in digests;
          }
          assert forall i :: 0 <= i < |pending| ==> (pending + [f])[i] == pending[i];
          pending := pending + [f];
        }
        k := k + 1;
      }
      assert frags[..k] == frags;
      ok := force || !ambiguous;
    }

    // ---------------------------------------------------------- clearing

    /** `log` continues `first` with removals these fragments and files vouch for. */
    ghost predicate AllVouched(first: seq<Removal>, log: seq<Removal>, fs: seq<Fragment>, files: seq<Bytes>) {
      first <= log && forall i :: |first| <= i < |log| ==> Vouched(day.sha, log[i], fs, files)
    }

    /** Every removal since `log` is vouched for so, and `log` is not rewritten. */
    ghost predicate VouchedSince(log: seq<Removal>, fs: seq<Fragment>, files: seq<Bytes>)
      reads disk`removals
    {
      AllVouched(log, disk.removals, fs, files)
    }

    /** At most one removal since `log`: of this fragment, and vouched for by its
        text and this file. */
    ghost predicate OneVouched(log: seq<Removal>, f: Fragment, file: Bytes)
      reads disk`removals
    {
      disk.removals == log ||
      exists r :: disk.removals == log + [r] && r.name == f.name && VouchedBy(day.sha, r, f.text, file)
    }

    /** The files a removal may be vouched for by: the copy of the dated file this
        run read, and the bytes it built. */
    ghost function Sources(): seq<Bytes>
      reads this`outCopy, this`composed
    {
      (if outCopy.Some? then [outCopy.value] else []) + (if composed.Some? then [composed.value] else [])
    }

    /** Some of the first `k` fragments of `fs` have left the pool since `was`;
        nothing else has changed. */
    ghost predicate Cleared(was: Tree, now: Tree, fs: seq<Fragment>, k: nat) {
      && Moved(was, now, day)
      && now.file == was.file
      && forall n :: n in was.pool && n !in now.pool ==>
        exists i :: 0 <= i < k && i < |fs| && fs[i].name == n && fs[i].text == was.pool[n]
    }

    lemma PutAndTaken<K, V>(m: map<K, V>, k: K, v: V)
      requires k !in m
      ensures m[k := v] - {k} == m
    {
    }

    /** Set one fragment aside, unless something already occupies its place. */
    method MoveAside(name: string) returns (done: bool)
      requires Accounted()
      modifies this`moved, this`quarantined, disk`pool, disk`aside, disk`stepsLeft
      ensures Accounted()
      ensures done ==> name in old(disk.pool) && name !in old(disk.aside)
      ensures done ==> disk.pool == old(disk.pool) - {name}
      ensures done ==> disk.aside == old(disk.aside)[name := old(disk.pool)[name]]
      ensures done ==> quarantined == old(quarantined) + [name] && moved == old(moved) + [name]
      ensures !done ==> disk.pool == old(disk.pool) && disk.aside == old(disk.aside)
    {
      if name in disk.aside { return false; }
      done := disk.SetAside(name);
      if done {
        moved := moved + [name];
        quarantined := quarantined + [name];
      }
    }

    /** Destroy the fragment set aside last. The two comparisons the caller has
        just made and this unlink are one step: the window the script says it
        cannot close. */
    method Destroy(f: Fragment, ghost file: Bytes) returns (done: bool)
      requires Accounted() && quarantined != [] && quarantined[|quarantined| - 1] == f.name
      requires f.name in disk.aside && out in disk.dated && f.digest == day.sha(f.text)
      requires day.sha(disk.aside[f.name]) == f.digest && day.sha(disk.dated[out]) == day.sha(file)
      requires SectionPresent(f.text, RecordOf(f), file)
      modifies this`consumed, this`quarantined, disk`aside, disk`stepsLeft, disk`removals
      ensures Accounted() && OneVouched(old(disk.removals), f, file)
      ensures done ==> disk.aside == old(disk.aside) - {f.name} && consumed == old(consumed) + [f.name]
      ensures !done ==> disk.aside == old(disk.aside)
    {
      ghost var gone := Removal(f.name, disk.aside[f.name], disk.dated[out]);
      assert VouchedBy(day.sha, gone, f.text, file);
      done := disk.Remove(f.name, out);
      if done {
        consumed := consumed + [f.name];
        assert quarantined == Butlast(quarantined) + [f.name];
        quarantined := Butlast(quarantined);
      }
    }

    lemma ClearedOne(was: Tree, before: Tree, now: Tree, fs: seq<Fragment>, k: nat)
      requires k < |fs| && Cleared(was, before, fs, k) && now.file == was.file
      requires Get(before.pool, fs[k].name) == Some(fs[k].text)
      requires before.aside == was.aside && fs[k].name !in was.aside && fs[k].name !in day.held
      requires now.pool == before.pool - {fs[k].name}
      requires now.aside == was.aside || now.aside == was.aside[fs[k].name := fs[k].text]
      ensures Cleared(was, now, fs, k + 1)
    {
      assert fs[k].name in before.pool && was.pool[fs[k].name] == fs[k].text;
    }

    ghost predicate InPool(fs: seq<Fragment>, from: nat)
      reads disk`pool
    {
      forall i :: from <= i < |fs| ==> Get(disk.pool, fs[i].name) == Some(fs[i].text)
    }

    ghost predicate OutOfPool(fs: seq<Fragment>, to: nat)
      reads disk`pool
    {
      forall i :: 0 <= i < to && i < |fs| ==> fs[i].name !in disk.pool
    }

    method AssertSectionsPresent(fs: seq<Fragment>) returns (ok: bool)
      requires outCopy.Some?
      ensures ok <==> AllPresent(fs, outCopy.value)
    {
      var k := 0;
      while k < |fs|
        invariant k <= |fs|
        invariant forall i :: 0 <= i < k ==> SectionPresent(fs[i].text, RecordOf(fs[i]), outCopy.value)
      {
        if !SectionPresent(fs[k].text, RecordOf(fs[k]), outCopy.value) { return false; }
        k := k + 1;
      }
      ok := true;
    }

    /** What one round of a clearing loop does when nothing else writes: the
        fragment is gone from the pool, and a round that went through has left
        the quarantine as it was. */
    ghost predicate Round(was: Tree, now: Tree, f: Fragment, went: bool) {
      && now.file == was.file
      && (if went then
            now.pool == was.pool - {f.name} && now.aside == was.aside && f.name !in was.aside
          else
            || (now.pool == was.pool && now.aside == was.aside)
            || (now.pool == was.pool - {f.name} && f.name !in was.aside && now.aside == was.aside[f.name := f.text]))
    }

    lemma RoundClears(was: Tree, before: Tree, now: Tree, fs: seq<Fragment>, k: nat, went: bool)
      requires k < |fs| && Cleared(was, before, fs, k) && Round(before, now, fs[k], went)
      requires Get(before.pool, fs[k].name) == Some(fs[k].text)
      requires before.aside == was.aside && fs[k].name !in day.held
      ensures Cleared(was, now, fs, k + 1)
    {
      if now.pool != before.pool { ClearedOne(was, before, now, fs, k); }
    }

    predicate Digested(f: Fragment) { f.digest == day.sha(f.text) }

    /** The run read `file` as the dated file it is assembling. */
    ghost predicate ReadAs(file: Bytes)
      reads this`srcId
    {
      out in srcId && srcId[out] == day.sha(file)
    }

    /** The last look at a fragment set aside, and its unlink. A fragment that
        changed is kept in the quarantine. */
    method FinishRecorded(f: Fragment, ghost file: Bytes) returns (went: bool)
      requires Valid() && Accounted() && ReadAs(file)
      requires quarantined != [] && quarantined[|quarantined| - 1] == f.name
      requires Digested(f) && SectionPresent(f.text, RecordOf(f), file)
      requires disk.quiet ==> SourcesUnchanged() && Get(disk.aside, f.name) == Some(f.text)
      modifies this`consumed, this`quarantined
      modifies disk`pool, disk`aside, disk`dated, disk`stepsLeft, disk`removals
      ensures Accounted() && OneVouched(old(disk.removals), f, file)
      ensures disk.quiet ==> disk.dated == old(disk.dated) && disk.pool == old(disk.pool)
      ensures disk.quiet ==> disk.aside == if went then old(disk.aside) - {f.name} else old(disk.aside)
    {
      if f.name !in disk.aside || day.sha(disk.aside[f.name]) != f.digest { return true; }
      disk.Others();
      if !SourcesUnchanged() { return false; }
      if f.name !in disk.aside || day.sha(disk.aside[f.name]) != f.digest { return true; }
      went := Destroy(f, file);
    }

    /** One round of the recovery clearing: set aside, compare, compare again,
        unlink. */
    method ClearRecorded(f: Fragment, ghost file: Bytes) returns (went: bool)
      requires Valid() && Accounted() && ReadAs(file)
      requires Digested(f) && SectionPresent(f.text, RecordOf(f), file)
      requires disk.quiet ==> SourcesUnchanged() && Get(disk.pool, f.name) == Some(f.text)
      modifies this`moved, this`consumed, this`quarantined
      modifies disk`pool, disk`aside, disk`dated, disk`stepsLeft, disk`removals
      ensures Accounted() && OneVouched(old(disk.removals), f, file)
      ensures disk.quiet ==> disk.dated == old(disk.dated) && Round(old(Now()), Now(), f, went)
    {
      if !SourcesUnchanged() { return false; }
      went := MoveAside(f.name);
      if went {
        disk.Others();
        went := FinishRecorded(f, file);
        if disk.quiet { PutAndTaken(old(disk.aside), f.name, f.text); }
      }
    }

    /** Remove fragments an earlier run of the day folded in but did not clear. */
    method ClearAlreadyAssembled(already: seq<Fragment>) returns (outcome: Outcome)
      requires Valid() && Accounted() && Indexed() && outCopy.Some?
      requires Distinct(already) && forall i :: 0 <= i < |already| ==> Digested(already[i]) && already[i].name !in day.held
      requires disk.quiet ==> SourcesUnchanged() && InPool(already, 0)
      modifies this`moved, this`consumed, this`quarantined
      modifies disk`pool, disk`aside, disk`dated, disk`stepsLeft, disk`removals
      ensures Accounted() && VouchedSince(old(disk.removals), already, [outCopy.value])
      ensures disk.quiet ==> disk.dated == old(disk.dated)
      ensures disk.quiet ==> Cleared(old(Now()), Now(), already, |already|)
      ensures outcome == Refused && disk.quiet ==> Now() == old(Now())
      ensures outcome != Refused ==> AllPresent(already, outCopy.value)
      ensures outcome == Done && disk.quiet ==> OutOfPool(already, |already|) && disk.aside == old(disk.aside)
    {
      if !SourcesUnchanged() { return Refused; }
      var present := AssertSectionsPresent(already);
      if !present { return Refused; }
      assert ReadAs(outCopy.value);
      outcome := ClearEachRecorded(already, outCopy.value);
    }

    method ClearEachRecorded(already: seq<Fragment>, ghost file: Bytes) returns (outcome: Outcome)
      requires Valid() && Accounted() && ReadAs(file) && AllPresent(already, file)
      requires Distinct(already) && forall i :: 0 <= i < |already| ==> Digested(already[i]) && already[i].name !in day.held
      requires disk.quiet ==> SourcesUnchanged() && InPool(already, 0)
      modifies this`moved, this`consumed, this`quarantined
      modifies disk`pool, disk`aside, disk`dated, disk`stepsLeft, disk`removals
      ensures Accounted() && VouchedSince(old(disk.removals), already, [file]) && outcome != Refused
      ensures disk.quiet ==> disk.dated == old(disk.dated)
      ensures disk.quiet ==> Cleared(old(Now()), Now(), already, |already|)
      ensures outcome == Done && disk.quiet ==> OutOfPool(already, |already|) && disk.aside == old(disk.aside)
    {
      var k := 0;
      while k < |already|
        modifies this`moved, this`consumed, this`quarantined
        modifies disk`pool, disk`aside, disk`dated, disk`stepsLeft, disk`removals
        invariant k <= |already|
        invariant Accounted() && VouchedSince(old(disk.removals), already, [file])
        invariant disk.quiet ==> disk.dated == old(disk.dated)
        invariant disk.quiet ==> Cleared(old(Now()), Now(), already, k) && disk.aside == old(disk.aside)
        invariant disk.quiet ==> InPool(already, k) && OutOfPool(already, k)
      {
        ghost var before, log := Now(), disk.removals;
        var went := ClearRecorded(already[k], file);
        VouchedOn(old(disk.removals), log, already, k, file);
        if disk.quiet { RoundClears(old(Now()), before, Now(), already, k, went); }
        if !went { return Stopped; }
        k := k + 1;
      }
      outcome := Done;
    }

    // ------------------------------------------------- build and publish

    method BuildReplacement(pending: seq<Fragment>)
      modifies disk`pool, disk`aside, disk`dated, disk`work
      ensures disk.work == Some(Build(BaseOf(outCopy, day), pending))
      ensures disk.quiet ==> Now() == old(Now()) && disk.dated == old(disk.dated)
    {
      disk.Others();
      var bytes := BaseOf(outCopy, day);
      var k := 0;
      while k < |pending|
        invariant k <= |pending|
        invariant bytes == Build(BaseOf(outCopy, day), pending[..k])
      {
        assert Butlast(pending[..k + 1]) == pending[..k];
        bytes := bytes + SectionOf(pending[k]);
        k := k + 1;
      }
      assert pending[..k] == pending;
      disk.WriteWork(bytes);
    }

    /** At most one publication since `log`, and that one of sections of `fs` over
        the file this run read. */
    ghost predicate OneFaithful(log: seq<Publication>, fs: seq<Fragment>)
      reads disk`publications, this`outCopy
    {
      disk.publications == log || exists p :: disk.publications == log + [p] && FaithfulFrom(day, p, outCopy, fs)
    }

    /** Every precondition that must hold at publication, and the rename, as one
        step. */
    method GateAndInstall(pending: seq<Fragment>, expected: string, ghost built: Bytes) returns (done: bool)
      requires Valid() && Indexed() && pending != []
      requires expected == day.sha(built) && built == Build(BaseOf(outCopy, day), pending)
      modifies disk`dated, disk`work, disk`stepsLeft, disk`publications
      ensures OneFaithful(old(disk.publications), pending)
      ensures !done ==> disk.dated == old(disk.dated)
      ensures done ==> old(disk.work).Some? && disk.dated == old(disk.dated)[out := old(disk.work).value]
      ensures done ==> day.sha(old(disk.work).value) == expected
      ensures done ==> forall i :: 0 <= i < |pending| ==> pending[i].name in disk.pool && pending[i].name !in disk.aside
    {
      done := false;
      if !SourcesUnchanged() || disk.work.None? || day.sha(disk.work.value) != expected { return; }
      if exists f | f in pending :: f.name !in disk.pool || f.name in disk.aside { return; }
      assert forall i :: 0 <= i < |pending| ==> pending[i] in pending;
      ghost var p := Publication(Get(disk.dated, out), disk.work.value);
      assert Within(pending, pending) && FaithfulTo(day, p, outCopy, pending);
      assert FaithfulFrom(day, p, outCopy, pending);
      done := disk.Install(out);
    }

    method Publish(pending: seq<Fragment>, ghost built: Bytes) returns (outcome: Outcome)
      requires Valid() && Indexed() && pending != []
      requires built == Build(BaseOf(outCopy, day), pending) && disk.work == Some(built)
      modifies this`published, this`publishedId
      modifies disk`pool, disk`aside, disk`dated, disk`work, disk`stepsLeft, disk`publications
      ensures OneFaithful(old(disk.publications), pending)
      ensures disk.quiet ==> disk.pool == old(disk.pool) && disk.aside == old(disk.aside)
      ensures outcome == Done ==> published && publishedId == day.sha(built)
      ensures outcome == Done && disk.quiet ==> disk.dated == old(disk.dated)[out := built]
      ensures outcome == Done && disk.quiet ==>
        forall i :: 0 <= i < |pending| ==> pending[i].name !in disk.aside
      ensures outcome != Done && disk.quiet ==> disk.dated == old(disk.dated)
    {
      var expected := day.sha(disk.work.value);
      disk.OthersAtFlush();
      var installed := GateAndInstall(pending, expected, built);
      if !installed { return Refused; }
      outcome := Confirm(expected);
    }

    /** The file just put in place is read back and compared. */
    method Confirm(expected: string) returns (outcome: Outcome)
      modifies this`published, this`publishedId
      modifies disk`pool, disk`aside, disk`dated
      ensures published && outcome != Refused && (outcome == Done ==> publishedId == expected)
      ensures disk.quiet ==> disk.pool == old(disk.pool) && disk.aside == old(disk.aside) && disk.dated == old(disk.dated)
      ensures disk.quiet && out in disk.dated && day.sha(disk.dated[out]) == expected ==> outcome == Done
    {
      published := true;
      disk.Others();
      if out !in disk.dated { return Stopped; }
      publishedId := day.sha(disk.dated[out]);
      outcome := if publishedId == expected then Done else Stopped;
    }

    // ----------------------------------- clearing what was just published

    predicate StillPublished()
      reads this`publishedId, disk`dated
    {
      out in disk.dated && day.sha(disk.dated[out]) == publishedId
    }

    method FinishPublished(f: Fragment, ghost built: Bytes) returns (went: bool)
      requires Valid() && Accounted() && publishedId == day.sha(built)
      requires quarantined != [] && quarantined[|quarantined| - 1] == f.name
      requires Digested(f) && SectionPresent(f.text, RecordOf(f), built)
      requires disk.quiet ==> StillPublished() && Get(disk.aside, f.name) == Some(f.text)
      modifies this`consumed, this`quarantined
      modifies disk`pool, disk`aside, disk`dated, disk`stepsLeft, disk`removals
      ensures Accounted() && OneVouched(old(disk.removals), f, built)
      ensures disk.quiet ==> disk.dated == old(disk.dated) && disk.pool == old(disk.pool)
      ensures disk.quiet ==> disk.aside == if went then old(disk.aside) - {f.name} else old(disk.aside)
    {
      if f.name !in disk.aside { return false; }
      if day.sha(disk.aside[f.name]) != f.digest { return true; }
      disk.Others();
      if !StillPublished() || f.name !in disk.aside { return false; }
      if day.sha(disk.aside[f.name]) != f.digest { return true; }
      went := Destroy(f, built);
    }

    /** One round of the final clearing: re-prove the published file, set aside,
        compare, re-prove, compare, unlink. */
    method ClearPublished(f: Fragment, ghost built: Bytes) returns (went: bool)
      requires Valid() && Accounted() && publishedId == day.sha(built)
      requires Digested(f) && SectionPresent(f.text, RecordOf(f), built)
      requires disk.quiet ==> StillPublished() && Get(disk.pool, f.name) == Some(f.text)
      modifies this`moved, this`consumed, this`quarantined
      modifies disk`pool, disk`aside, disk`dated, disk`stepsLeft, disk`removals
      ensures Accounted() && OneVouched(old(disk.removals), f, built)
      ensures disk.quiet ==> disk.dated == old(disk.dated) && Round(old(Now()), Now(), f, went)
    {
      if !StillPublished() { return false; }
      disk.Others();
      went := MoveAside(f.name);
      if went {
        disk.Others();
        went := FinishPublished(f, built);
        if disk.quiet { PutAndTaken(old(disk.aside), f.name, f.text); }
      }
    }

    method Clear(pending: seq<Fragment>, ghost built: Bytes) returns (outcome: Outcome)
      requires Valid() && Accounted() && publishedId == day.sha(built)
      requires Distinct(pending)
      requires forall i :: 0 <= i < |pending| ==>
        && Digested(pending[i]) && pending[i].name !in day.held
        && SectionPresent(pending[i].text, RecordOf(pending[i]), built)
      requires disk.quiet ==> StillPublished() && InPool(pending, 0)
      modifies this`moved, this`consumed, this`quarantined
      modifies disk`pool, disk`aside, disk`dated, disk`stepsLeft, disk`removals
      ensures Accounted() && VouchedSince(old(disk.removals), pending, [built])
      ensures disk.quiet ==> disk.dated == old(disk.dated)
      ensures disk.quiet ==> Cleared(old(Now()), Now(), pending, |pending|)
      ensures outcome == Done && disk.quiet ==> OutOfPool(pending, |pending|) && disk.aside == old(disk.aside)
    {
      var k := 0;
      while k < |pending|
        modifies this`moved, this`consumed, this`quarantined
        modifies disk`pool, disk`aside, disk`dated, disk`stepsLeft, disk`removals
        invariant k <= |pending|
        invariant Accounted() && VouchedSince(old(disk.removals), pending, [built])
        invariant disk.quiet ==> disk.dated == old(disk.dated)
        invariant disk.quiet ==> Cleared(old(Now()), Now(), pending, k) && disk.aside == old(disk.aside)
        invariant disk.quiet ==> InPool(pending, k) && OutOfPool(pending, k)
      {
        ghost var before, log := Now(), disk.removals;
        var went := ClearPublished(pending[k], built);
        VouchedOn(old(disk.removals), log, pending, k, built);
        if disk.quiet { RoundClears(old(Now()), before, Now(), pending, k, went); }
        if !went { return Stopped; }
        k := k + 1;
      }
      outcome := Done;
    }

    // --------------------------------------------------- the whole run

    /** What the run has read of an undisturbed tree: every pool fragment of the
        day, in name order, and the file's own records. */
    ghost predicate Surveyed(was: Tree, fs: seq<Fragment>, records: seq<Record>) {
      && FileNames(was.pool)
      && ScanData(BaseOf(was.file, day)) == Found(records)
      && NamesSorted(fs)
      && (forall i :: 0 <= i < |fs| ==>
        Snapped(fs[i]) && fs[i].name !in day.held && Get(was.pool, fs[i].name) == Some(fs[i].text))
      && (forall n :: n in was.pool && n !in day.held ==> exists i :: 0 <= i < |fs| && fs[i].name == n)
    }

    lemma PendingIsToFold(was: Tree, fs: seq<Fragment>, records: seq<Record>)
      requires Surveyed(was, fs, records)
      ensures ToFold(Select(fs, records, false), was.pool, BaseOf(was.file, day), day)
    {
      var pending := Select(fs, records, false);
      SelectIsExact(fs, records, false);
      forall i | 0 <= i < |pending|
        ensures Accepted(pending[i])
        ensures pending[i].name in was.pool && pending[i].name !in day.held
        ensures pending[i].text == was.pool[pending[i].name] && pending[i].digest == day.sha(pending[i].text)
        ensures !IsRecorded(pending[i].name, pending[i].text, BaseOf(was.file, day), day)
      {
        var k :| 0 <= k < |fs| && fs[k] == pending[i];
      }
      forall n | n in was.pool && n !in day.held && !IsRecorded(n, was.pool[n], BaseOf(was.file, day), day)
        ensures exists i :: 0 <= i < |pending| && pending[i].name == n
      {
        var k :| 0 <= k < |fs| && fs[k].name == n;
        assert RecordOf(fs[k]) == RecordedAs(n, was.pool[n], day);
        assert fs[k] in pending;
      }
    }

    ghost predicate AllPresent(fs: seq<Fragment>, file: Bytes) {
      forall i :: 0 <= i < |fs| ==> SectionPresent(fs[i].text, RecordOf(fs[i]), file)
    }

    /** Fragments of the day that `was.file` records under their own names. */
    ghost predicate AllRecorded(was: Tree, fs: seq<Fragment>) {
      forall i :: 0 <= i < |fs| ==>
        && Get(was.pool, fs[i].name) == Some(fs[i].text)
        && RecordOf(fs[i]) == RecordedAs(fs[i].name, fs[i].text, day)
        && IsRecorded(fs[i].name, fs[i].text, BaseOf(was.file, day), day)
    }

    /** The two parts a run's fragments fall into, which between them are every
        fragment of the day. */
    ghost predicate Divided(was: Tree, already: seq<Fragment>, pending: seq<Fragment>) {
      && AllRecorded(was, already)
      && ToFold(pending, was.pool, BaseOf(was.file, day), day)
      && forall n :: n in was.pool && n !in day.held ==>
        (exists i :: 0 <= i < |already| && already[i].name == n) || (exists i :: 0 <= i < |pending| && pending[i].name == n)
    }

    lemma Divide(was: Tree, fs: seq<Fragment>, records: seq<Record>)
      requires Surveyed(was, fs, records)
      ensures Divided(was, Select(fs, records, true), Select(fs, records, false))
    {
      var already, pending := Select(fs, records, true), Select(fs, records, false);
      SelectIsExact(fs, records, true);
      SelectIsExact(fs, records, false);
      PendingIsToFold(was, fs, records);
      forall i | 0 <= i < |already|
        ensures Get(was.pool, already[i].name) == Some(already[i].text)
        ensures RecordOf(already[i]) == RecordedAs(already[i].name, already[i].text, day)
      {
        var k :| 0 <= k < |fs| && fs[k] == already[i];
      }
      forall n | n in was.pool && n !in day.held
        ensures (exists i :: 0 <= i < |already| && already[i].name == n) || (exists i :: 0 <= i < |pending| && pending[i].name == n)
      {
        var k :| 0 <= k < |fs| && fs[k].name == n;
        assert fs[k] in already || fs[k] in pending;
      }
    }

    lemma AfterRecovery(was: Tree, now: Tree, fs: seq<Fragment>)
      requires AllRecorded(was, fs) && Cleared(was, now, fs, |fs|)
      requires fs != [] ==> was.file.Some? && AllPresent(fs, was.file.value)
      ensures OneRun(was, now, day, force) && Unpublished(was, now, day)
    {
      forall n | n in was.pool && n !in now.pool
        ensures IsRecorded(n, was.pool[n], BaseOf(was.file, day), day)
        ensures now.file.Some? && SectionPresent(was.pool[n], RecordedAs(n, was.pool[n], day), now.file.value)
      {
        var i :| 0 <= i < |fs| && fs[i].name == n && fs[i].text == was.pool[n];
      }
    }

    lemma AfterPublication(was: Tree, mid: Tree, now: Tree, fs: seq<Fragment>)
      requires MayFold(was, fs, day, force)
      requires Moved(was, mid, day) && Kept(was, mid, day) && mid.file == was.file
      requires Moved(mid, now, day) && now.file == Some(Build(BaseOf(was.file, day), fs))
      requires forall n :: n in mid.pool && n !in now.pool ==> Among(fs, n, mid.pool[n])
      ensures OneRun(was, now, day, force) && FoldedBy(was, now, day, fs, force)
    {
      MovedTrans(was, mid, now, day);
      AllPresentOncePublished(was, mid, now, fs);
      assert FoldedBy(was, now, day, fs, force);
    }

    ghost predicate Among(fs: seq<Fragment>, n: string, text: Bytes) {
      exists i :: 0 <= i < |fs| && fs[i].name == n && fs[i].text == text
    }

    lemma AllPresentOncePublished(was: Tree, mid: Tree, now: Tree, fs: seq<Fragment>)
      requires ToFold(fs, was.pool, BaseOf(was.file, day), day)
      requires Moved(was, mid, day) && Kept(was, mid, day) && mid.file == was.file
      requires now.file == Some(Build(BaseOf(was.file, day), fs))
      requires forall n :: n in mid.pool && n !in now.pool ==> Among(fs, n, mid.pool[n])
      ensures Kept(was, now, day)
    {
      forall n | n in was.pool && n !in now.pool
        ensures SectionPresent(was.pool[n], RecordedAs(n, was.pool[n], day), now.file.value)
      {
        if n in mid.pool { assert mid.pool[n] == was.pool[n]; }
        PresentOncePublished(was, mid, now, fs, n);
      }
    }

    lemma PresentOncePublished(was: Tree, mid: Tree, now: Tree, fs: seq<Fragment>, n: string)
      requires ToFold(fs, was.pool, BaseOf(was.file, day), day)
      requires n in was.pool && n !in now.pool && Kept(was, mid, day) && mid.file == was.file
      requires now.file == Some(Build(BaseOf(was.file, day), fs))
      requires n in mid.pool ==> Among(fs, n, was.pool[n])
      ensures SectionPresent(was.pool[n], RecordedAs(n, was.pool[n], day), now.file.value)
    {
      var base := BaseOf(was.file, day);
      var r := RecordedAs(n, was.pool[n], day);
      if n in mid.pool {
        var i :| 0 <= i < |fs| && fs[i].name == n && fs[i].text == was.pool[n];
        BuildHoldsAll(base, fs, i);
        assert RecordOf(fs[i]) == r;
      } else {
        KeptGrows(was.pool[n], r, base, fs);
      }
    }

    lemma AllBuilt(fs: seq<Fragment>, base: Bytes)
      requires forall i :: 0 <= i < |fs| ==> Snapped(fs[i])
      ensures AllPresent(fs, Build(base, fs))
    {
      forall i | 0 <= i < |fs| ensures SectionPresent(fs[i].text, RecordOf(fs[i]), Build(base, fs)) {
        BuildHoldsAll(base, fs, i);
      }
    }

    ghost predicate Elsewhere(was: map<string, Bytes>)
      reads disk`dated
    {
      forall p :: p != out ==> Get(disk.dated, p) == Get(was, p)
    }

    /** Build, publish and clear the fragments no file records yet. */
    method Fold(pending: seq<Fragment>, ghost was: Tree) returns (outcome: Outcome)
      requires Valid() && Accounted() && Indexed() && pending != [] && Distinct(pending)
      requires forall i :: 0 <= i < |pending| ==> Digested(pending[i]) && pending[i].name !in day.held
      requires AllPresent(pending, Build(BaseOf(outCopy, day), pending))
      requires disk.quiet ==> SourcesUnchanged() && InPool(pending, 0) && outCopy == was.file == Now().file
      requires disk.quiet && FileNames(was.pool) ==>
        Moved(was, Now(), day) && Kept(was, Now(), day) && Unpublished(was, Now(), day)
      requires disk.quiet && FileNames(was.pool) ==> MayFold(was, pending, day, force)
      modifies this`moved, this`consumed, this`quarantined, this`published, this`publishedId, this`composed, disk
      ensures Accounted() && OneFaithful(old(disk.publications), pending)
      ensures composed == Some(Build(BaseOf(outCopy, day), pending))
      ensures VouchedSince(old(disk.removals), pending, [composed.value])
      ensures disk.quiet ==> Elsewhere(old(disk.dated))
      ensures disk.quiet && FileNames(was.pool) ==> OneRun(was, Now(), day, force)
      ensures disk.quiet && outcome == Done && FileNames(was.pool) ==> FoldedBy(was, Now(), day, pending, force)
      ensures disk.quiet && outcome == Done ==> OutOfPool(pending, |pending|) && disk.aside == old(disk.aside)
      ensures disk.quiet ==> forall n :: n in disk.pool ==> n in old(disk.pool)
    {
      outcome := ComposeAndPublish(pending);
      if outcome != Done { return; }
      outcome := ClearFolded(pending, composed.value, was, old(Now()));
    }

    method ComposeAndPublish(pending: seq<Fragment>) returns (outcome: Outcome)
      requires Valid() && Indexed() && pending != []
      modifies this`published, this`publishedId, this`composed
      modifies disk`pool, disk`aside, disk`dated, disk`work, disk`stepsLeft, disk`publications
      ensures OneFaithful(old(disk.publications), pending)
      ensures composed == Some(Build(BaseOf(outCopy, day), pending))
      ensures disk.quiet ==> disk.pool == old(disk.pool) && disk.aside == old(disk.aside) && Elsewhere(old(disk.dated))
      ensures outcome == Done ==> publishedId == day.sha(composed.value)
      ensures outcome == Done && disk.quiet ==> disk.dated == old(disk.dated)[out := composed.value]
      ensures outcome == Done && disk.quiet ==> forall i :: 0 <= i < |pending| ==> pending[i].name !in disk.aside
      ensures outcome != Done && disk.quiet ==> disk.dated == old(disk.dated)
    {
      ghost var built := Build(BaseOf(outCopy, day), pending);
      composed := Some(built);
      BuildReplacement(pending);
      outcome := Publish(pending, built);
    }

    method ClearFolded(pending: seq<Fragment>, ghost built: Bytes, ghost was: Tree, ghost mid: Tree)
      returns (outcome: Outcome)
      requires Valid() && Accounted() && pending != [] && Distinct(pending)
      requires publishedId == day.sha(built) && AllPresent(pending, built)
      requires forall i :: 0 <= i < |pending| ==> Digested(pending[i]) && pending[i].name !in day.held
      requires disk.quiet ==> Now() == mid.(file := Some(built)) && InPool(pending, 0)
      requires disk.quiet && FileNames(was.pool) ==>
        Moved(was, mid, day) && Kept(was, mid, day) && mid.file == was.file
      requires disk.quiet && FileNames(was.pool) ==>
        MayFold(was, pending, day, force) && built == Build(BaseOf(was.file, day), pending)
      modifies this`moved, this`consumed, this`quarantined
      modifies disk`pool, disk`aside, disk`dated, disk`stepsLeft, disk`removals
      ensures Accounted() && VouchedSince(old(disk.removals), pending, [built])
      ensures disk.quiet ==> disk.dated == old(disk.dated)
      ensures disk.quiet && FileNames(was.pool) ==>
        OneRun(was, Now(), day, force) && FoldedBy(was, Now(), day, pending, force)
      ensures disk.quiet && outcome == Done ==> OutOfPool(pending, |pending|) && disk.aside == old(disk.aside)
      ensures disk.quiet ==> forall n :: n in disk.pool ==> n in old(disk.pool)
    {
      ghost var pub := Now();
      outcome := Clear(pending, built);
      if disk.quiet && FileNames(was.pool) {
        assert Cleared(pub, Now(), pending, |pending|);
        assert Moved(mid, Now(), day);
        AfterPublication(was, mid, Now(), pending);
      }
    }

    /** One run. With nothing else writing, whatever step it is cut off at, it
        leaves what `OneRun` allows, and nothing of the day in the pool when it
        is done. With anything else writing, it still only destroys what its own
        snapshots and files vouch for, and only publishes its own fragments over
        the file it read. */
    method Run() returns (outcome: Outcome)
      requires Valid() && Accounted() && composed == None
      modifies this, disk
      ensures Accounted() && VouchedSince(old(disk.removals), frags, Sources())
      ensures OneFaithful(old(disk.publications), frags)
      ensures composed.Some? ==> exists fs :: Within(fs, frags) && composed.value == Build(BaseOf(outCopy, day), fs)
      ensures disk.quiet ==> Elsewhere(old(disk.dated))
      ensures disk.quiet && FileNames(old(disk.pool)) ==> OneRun(old(Now()), Now(), day, force)
      ensures disk.quiet && FileNames(old(disk.pool)) && outcome == Done ==>
        Finished(old(Now()), Now(), day) && disk.aside == old(disk.aside)
    {
      ghost var was := Now();
      outcome := TakeStock();
      if outcome == Done { outcome := Decide(was); }
    }

    /** The reads: discover, copy every fragment, scan every dated file. `Done`
        means that the run goes on. */
    method TakeStock() returns (outcome: Outcome)
      requires Valid()
      modifies this`frags, this`outId, this`srcId, this`outCopy, this`seen, this`digests
      modifies disk`pool, disk`aside, disk`dated
      ensures disk.quiet ==> Now() == old(Now()) && disk.dated == old(disk.dated)
      ensures outcome == Done ==> Scanned() && NamesSorted(frags)
      ensures outcome == Done ==> forall i :: 0 <= i < |frags| ==> Snapped(frags[i]) && frags[i].name !in day.held
      ensures outcome == Done && disk.quiet ==> SourcesUnchanged() && outCopy == Now().file && InPool(frags, 0)
      ensures outcome == Done && disk.quiet && FileNames(disk.pool) ==> Surveyed(Now(), frags, seen)
    {
      ghost var was := Now();
      var names := Discover();
      if names.None? { return Refused; }
      if names.value == [] { return Nothing; }
      var ok := Snapshot(names.value);
      if !ok { return Refused; }
      ok := ScanMarkers();
      if !ok { return Refused; }
      SnapshotIsClean(names.value);
      if disk.quiet && FileNames(was.pool) {
        if outCopy.None? { NewFileScansEmpty(day); }
        Survey(was, names.value);
      }
      outcome := Done;
    }

    lemma SnapshotIsClean(names: seq<string>)
      requires Sorted(names) && |frags| == |names| && forall i :: 0 <= i < |frags| ==> frags[i].name == names[i]
      requires forall n :: n in names ==> n !in day.held
      ensures NamesSorted(frags) && forall i :: 0 <= i < |frags| ==> frags[i].name !in day.held
    {
      forall i | 0 <= i < |frags| ensures frags[i].name !in day.held { assert names[i] in names; }
    }

    lemma Survey(was: Tree, names: seq<string>)
      requires FileNames(was.pool) && Sorted(names)
      requires ScanData(BaseOf(was.file, day)) == Found(seen)
      requires forall n :: n in names <==> n in was.pool && n !in day.held
      requires |frags| == |names|
      requires forall i :: 0 <= i < |frags| ==>
        Snapped(frags[i]) && frags[i].name == names[i] && Get(was.pool, names[i]) == Some(frags[i].text)
      ensures Surveyed(was, frags, seen)
    {
      forall n | n in was.pool && n !in day.held ensures exists i :: 0 <= i < |frags| && frags[i].name == n {
        assert n in names;
        var i :| 0 <= i < |names| && names[i] == n;
        assert frags[i].name == n;
      }
      forall i | 0 <= i < |frags| ensures frags[i].name !in day.held { assert names[i] in names; }
    }

    lemma SplitIsClean()
      requires NamesSorted(frags)
      ensures Distinct(Select(frags, seen, true)) && Distinct(Select(frags, seen, false))
      ensures Within(Select(frags, seen, true), frags) && Within(Select(frags, seen, false), frags)
      ensures Select(frags, seen, true) != [] ==> seen != []
      ensures forall f, g :: f in Select(frags, seen, true) && g in Select(frags, seen, false) ==> f.name != g.name
    {
      SelectIsExact(frags, seen, true);
      SelectIsExact(frags, seen, false);
      SortedIsDistinct(Select(frags, seen, true));
      SortedIsDistinct(Select(frags, seen, false));
      SortedIsDistinct(frags);
      var already := Select(frags, seen, true);
      assert already != [] ==> RecordOf(already[0]) in seen;
      forall f, g | f in Select(frags, seen, true) && g in Select(frags, seen, false) ensures f.name != g.name {
        var i :| 0 <= i < |frags| && frags[i] == f;
        var j :| 0 <= j < |frags| && frags[j] == g;
        assert RecordOf(f) in seen && RecordOf(g) !in seen;
        assert i != j;
      }
    }

    /** Everything after the reads: classify, guard, recover, publish, clear. */
    method Decide(ghost was: Tree) returns (outcome: Outcome)
      requires Valid() && Accounted() && Scanned() && NamesSorted(frags) && composed == None
      requires forall i :: 0 <= i < |frags| ==> Snapped(frags[i]) && frags[i].name !in day.held
      requires disk.quiet ==> was == Now() && SourcesUnchanged() && outCopy == was.file && InPool(frags, 0)
      requires disk.quiet && FileNames(was.pool) ==> Surveyed(was, frags, seen)
      modifies this`moved, this`consumed, this`quarantined, this`published, this`publishedId, this`composed, disk
      ensures Accounted() && VouchedSince(old(disk.removals), frags, Sources())
      ensures OneFaithful(old(disk.publications), frags)
      ensures composed.Some? ==> exists fs :: Within(fs, frags) && composed.value == Build(BaseOf(outCopy, day), fs)
      ensures disk.quiet ==> Elsewhere(old(disk.dated))
      ensures disk.quiet && FileNames(was.pool) ==> OneRun(was, Now(), day, force)
      ensures disk.quiet && FileNames(was.pool) && outcome == Done ==>
        Finished(was, Now(), day) && disk.aside == was.aside
    {
      var ok, already, pending := Choose(was);
      if !ok { return Refused; }
      GoodPart(already);
      GoodPart(pending);
      AllBuilt(pending, BaseOf(outCopy, day));
      outcome := RecoverThenFold(already, pending, was);
      RunIsWider(old(disk.removals), old(disk.publications), already, pending);
      if disk.quiet && FileNames(was.pool) && outcome == Done { NothingLeft(was, already, pending); }
    }

    lemma GoodPart(fs: seq<Fragment>)
      requires Within(fs, frags)
      requires forall i :: 0 <= i < |frags| ==> Snapped(frags[i]) && frags[i].name !in day.held
      ensures forall i :: 0 <= i < |fs| ==> Snapped(fs[i]) && Digested(fs[i]) && fs[i].name !in day.held
      ensures InPool(frags, 0) ==> InPool(fs, 0)
    {
      forall i | 0 <= i < |fs|
        ensures Snapped(fs[i]) && Digested(fs[i]) && fs[i].name !in day.held
        ensures InPool(frags, 0) ==> Get(disk.pool, fs[i].name) == Some(fs[i].text)
      {
        var k :| 0 <= k < |frags| && frags[k] == fs[i];
      }
    }

    /** Classify, then the two guards, which only refuse. */
    method Choose(ghost was: Tree) returns (ok: bool, already: seq<Fragment>, pending: seq<Fragment>)
      requires Valid() && Scanned() && NamesSorted(frags)
      requires disk.quiet ==> outCopy == was.file
      requires disk.quiet && FileNames(was.pool) ==> Surveyed(was, frags, seen)
      ensures ok ==> already == Select(frags, seen, true) && pending == Select(frags, seen, false)
      ensures ok ==> Distinct(already) && Distinct(pending) && Within(already, frags) && Within(pending, frags)
      ensures ok && already != [] ==> outCopy.Some?
      ensures ok ==> forall f, g :: f in already && g in pending ==> f.name != g.name
      ensures ok && disk.quiet && FileNames(was.pool) ==> Divided(was, already, pending)
      ensures ok && disk.quiet && FileNames(was.pool) && pending != [] ==> MayFold(was, pending, day, force)
    {
      ok, already, pending := Classify();
      if !ok { return; }
      SplitIsClean();
      if outCopy.Some? {
        var marked := set r | r in seen :: r.name;
        var refused, _ := CheckMarkerlessDuplicates(outCopy.value, pending, marked, force);
        if refused { return false, already, pending; }
      }
      var levels: bool := *;
      if !levels || exists f | f in pending :: !OpensWithHeading(f.text) { return false, already, pending; }
      if disk.quiet && FileNames(was.pool) {
        Divide(was, frags, seen);
        if pending != [] { PassedTheChecks(was, pending); }
      }
    }

    /** What is vouched for by parts of the snapshot is by the whole of it. */
    lemma RunIsWider(removals: seq<Removal>, publications: seq<Publication>, already: seq<Fragment>, pending: seq<Fragment>)
      requires Within(already, frags) && Within(pending, frags)
      requires VouchedSince(removals, already + pending, Sources()) && OneFaithful(publications, pending)
      requires composed.Some? ==> exists fs :: Within(fs, pending) && composed.value == Build(BaseOf(outCopy, day), fs)
      ensures VouchedSince(removals, frags, Sources()) && OneFaithful(publications, frags)
      ensures composed.Some? ==> exists fs :: Within(fs, frags) && composed.value == Build(BaseOf(outCopy, day), fs)
    {
      VouchedWider(removals, disk.removals, already + pending, Sources(), frags, Sources());
      if p :| disk.publications == publications + [p] && FaithfulFrom(day, p, outCopy, pending) {
        var part :| Within(part, pending) && FaithfulTo(day, p, outCopy, part);
        WithinTrans(part, pending, frags);
      }
      if composed.Some? {
        var fs :| Within(fs, pending) && composed.value == Build(BaseOf(outCopy, day), fs);
        WithinTrans(fs, pending, frags);
      }
    }

    lemma PassedTheChecks(was: Tree, pending: seq<Fragment>)
      requires Scanned() && outCopy == was.file && pending != []
      requires ToFold(pending, was.pool, BaseOf(was.file, day), day)
      requires forall f | f in pending :: OpensWithHeading(f.text)
      requires outCopy.Some? ==> !GuardRefuses(outCopy.value, pending, set r | r in seen :: r.name, force)
      ensures MayFold(was, pending, day, force)
    {
    }

    /** Both parts of the day's fragments are out of the pool: nothing of the day
        is left, since the run surveyed the whole pool. */
    lemma NothingLeft(was: Tree, already: seq<Fragment>, pending: seq<Fragment>)
      requires Divided(was, already, pending) && Moved(was, Now(), day)
      requires OutOfPool(already, |already|) && OutOfPool(pending, |pending|)
      requires Unpublished(was, Now(), day) ==> pending == []
      ensures Finished(was, Now(), day)
    {
      forall n | n in was.pool && n !in day.held ensures n !in disk.pool {
        if i :| 0 <= i < |already| && already[i].name == n {
        } else {
          var i :| 0 <= i < |pending| && pending[i].name == n;
        }
      }
    }

    method Recover(already: seq<Fragment>, ghost was: Tree) returns (outcome: Outcome)
      requires Valid() && Accounted() && Indexed() && Distinct(already)
      requires forall i :: 0 <= i < |already| ==> Digested(already[i]) && already[i].name !in day.held
      requires already != [] ==> outCopy.Some?
      requires disk.quiet ==> was == Now() && SourcesUnchanged() && outCopy == was.file && InPool(already, 0)
      requires disk.quiet && FileNames(was.pool) ==> AllRecorded(was, already)
      modifies this`moved, this`consumed, this`quarantined
      modifies disk`pool, disk`aside, disk`dated, disk`stepsLeft, disk`removals
      ensures Accounted() && VouchedSince(old(disk.removals), already, if outCopy.Some? then [outCopy.value] else [])
      ensures disk.quiet ==> disk.dated == old(disk.dated) && Cleared(was, Now(), already, |already|)
      ensures disk.quiet && FileNames(was.pool) ==> OneRun(was, Now(), day, force) && Unpublished(was, Now(), day)
      ensures disk.quiet && outcome == Done ==> OutOfPool(already, |already|) && disk.aside == was.aside
    {
      outcome := Done;
      if already != [] {
        outcome := ClearAlreadyAssembled(already);
        if disk.quiet && FileNames(was.pool) && outcome != Refused {
          assert AllPresent(already, was.file.value);
          AfterRecovery(was, Now(), already);
        }
      }
    }

    /** What the recovery cleared is none of what is still to fold. */
    lemma StillInPool(was: Tree, already: seq<Fragment>, pending: seq<Fragment>)
      requires Cleared(was, Now(), already, |already|)
      requires forall f, g :: f in already && g in pending ==> f.name != g.name
      requires forall i :: 0 <= i < |pending| ==> Get(was.pool, pending[i].name) == Some(pending[i].text)
      ensures InPool(pending, 0)
    {
      forall i | 0 <= i < |pending| ensures pending[i].name in disk.pool {
        assert pending[i] in pending;
        forall k | 0 <= k < |already| ensures already[k].name != pending[i].name {
          assert already[k] in already;
        }
      }
    }

    method RecoverThenFold(already: seq<Fragment>, pending: seq<Fragment>, ghost was: Tree) returns (outcome: Outcome)
      requires Valid() && Accounted() && Indexed() && Distinct(already) && Distinct(pending)
      requires already != [] ==> outCopy.Some?
      requires forall i :: 0 <= i < |already| ==> Digested(already[i]) && already[i].name !in day.held
      requires forall i :: 0 <= i < |pending| ==> Digested(pending[i]) && pending[i].name !in day.held
      requires AllPresent(pending, Build(BaseOf(outCopy, day), pending))
      requires forall f, g :: f in already && g in pending ==> f.name != g.name
      requires disk.quiet ==> was == Now() && SourcesUnchanged() && outCopy == was.file
      requires disk.quiet ==> InPool(already, 0) && InPool(pending, 0)
      requires disk.quiet && FileNames(was.pool) ==> AllRecorded(was, already)
      requires disk.quiet && FileNames(was.pool) && pending != [] ==> MayFold(was, pending, day, force)
      requires composed == None
      modifies this`moved, this`consumed, this`quarantined, this`published, this`publishedId, this`composed, disk
      ensures Accounted() && VouchedSince(old(disk.removals), already + pending, Sources())
      ensures OneFaithful(old(disk.publications), pending)
      ensures composed.Some? ==> exists fs :: Within(fs, pending) && composed.value == Build(BaseOf(outCopy, day), fs)
      ensures disk.quiet ==> Elsewhere(old(disk.dated))
      ensures disk.quiet && FileNames(was.pool) ==> OneRun(was, Now(), day, force)
      ensures disk.quiet && FileNames(was.pool) && outcome == Done && Unpublished(was, Now(), day) ==> pending == []
      ensures disk.quiet && outcome == Done ==>
        OutOfPool(already, |already|) && OutOfPool(pending, |pending|) && disk.aside == was.aside
    {
      outcome := Recover(already, was);
      ghost var log := disk.removals;
      if outcome == Done {
        if disk.quiet { StillInPool(was, already, pending); }
        outcome := FoldRest(pending, was);
      } else {
        NoneSince(log, pending);
      }
      VouchedTogether(old(disk.removals), log, already, pending);
    }

    /** Fold what there is to fold, if anything. */
    method FoldRest(pending: seq<Fragment>, ghost was: Tree) returns (outcome: Outcome)
      requires Valid() && Accounted() && Indexed() && Distinct(pending) && composed == None
      requires forall i :: 0 <= i < |pending| ==> Digested(pending[i]) && pending[i].name !in day.held
      requires AllPresent(pending, Build(BaseOf(outCopy, day), pending))
      requires disk.quiet ==> SourcesUnchanged() && InPool(pending, 0) && outCopy == was.file == Now().file
      requires disk.quiet && FileNames(was.pool) ==> OneRun(was, Now(), day, force) && Unpublished(was, Now(), day)
      requires disk.quiet && FileNames(was.pool) && pending != [] ==> MayFold(was, pending, day, force)
      modifies this`moved, this`consumed, this`quarantined, this`published, this`publishedId, this`composed, disk
      ensures Accounted() && OneFaithful(old(disk.publications), pending)
      ensures VouchedSince(old(disk.removals), pending, Sources())
      ensures composed.Some? ==> exists fs :: Within(fs, pending) && composed.value == Build(BaseOf(outCopy, day), fs)
      ensures disk.quiet ==> Elsewhere(old(disk.dated))
      ensures disk.quiet && FileNames(was.pool) ==> OneRun(was, Now(), day, force)
      ensures disk.quiet && FileNames(was.pool) && outcome == Done && Unpublished(was, Now(), day) ==> pending == []
      ensures disk.quiet && outcome == Done ==> OutOfPool(pending, |pending|) && disk.aside == old(disk.aside)
      ensures disk.quiet ==> forall n :: n in disk.pool ==> n in old(disk.pool)
    {
      outcome := Done;
      if pending != [] {
        outcome := Fold(pending, was);
        VouchedWider(old(disk.removals), disk.removals, pending, [composed.value], pending, Sources());
      }
    }

    lemma NoneSince(log: seq<Removal>, fs: seq<Fragment>)
      requires disk.removals == log
      ensures VouchedSince(log, fs, Sources())
    {
    }

    lemma VouchedTogether(first: seq<Removal>, log: seq<Removal>, already: seq<Fragment>, pending: seq<Fragment>)
      requires AllVouched(first, log, already, if outCopy.Some? then [outCopy.value] else [])
      requires VouchedSince(log, pending, Sources())
      ensures VouchedSince(first, already + pending, Sources())
    {
      VouchedWider(first, log, already, if outCopy.Some? then [outCopy.value] else [], already + pending, Sources());
      VouchedWider(log, disk.removals, pending, Sources(), already + pending, Sources());
      VouchedTrans(first, log, disk.removals, already + pending, Sources());
    }

    lemma VouchedOn(first: seq<Removal>, log: seq<Removal>, fs: seq<Fragment>, k: nat, file: Bytes)
      requires k < |fs| && AllVouched(first, log, fs, [file]) && OneVouched(log, fs[k], file)
      ensures VouchedSince(first, fs, [file])
    {
      if r :| disk.removals == log + [r] && r.name == fs[k].name && VouchedBy(day.sha, r, fs[k].text, file) {
        assert fs[k] in fs && file in [file];
        assert Vouched(day.sha, r, fs, [file]);
      }
    }

    lemma VouchedTrans(a: seq<Removal>, b: seq<Removal>, c: seq<Removal>, fs: seq<Fragment>, files: seq<Bytes>)
      requires AllVouched(a, b, fs, files) && AllVouched(b, c, fs, files)
      ensures AllVouched(a, c, fs, files)
    {
      forall i | |a| <= i < |c| ensures Vouched(day.sha, c[i], fs, files) {
        if i < |b| { assert c[i] == b[i]; }
      }
    }

    lemma VouchedWider(a: seq<Removal>, b: seq<Removal>, fs: seq<Fragment>, files: seq<Bytes>,
                       gs: seq<Fragment>, more: seq<Bytes>)
      requires AllVouched(a, b, fs, files)
      requires (forall f :: f in fs ==> f in gs) && (forall x :: x in files ==> x in more)
      ensures AllVouched(a, b, gs, more)
    {
      forall k | |a| <= k < |b| ensures Vouched(day.sha, b[k], gs, more) {
        var f, file :| f in fs && file in files && f.name == b[k].name && VouchedBy(day.sha, b[k], f.text, file);
        assert f in gs && file in more;
      }
    }
  }

  /** One of the records of these dated files has this digest. */
  predicate FiledIn(dated: map<string, Bytes>, digest: string) {
    exists p | p in dated :: HasDigest(dated[p], digest)
  }

  predicate HasDigest(file: Bytes, digest: string) {
    ScanData(file).Found? && exists r | r in ScanData(file).records :: r.digest == digest
  }

  lemma FiledMore(copies: map<string, Bytes>, p: string, copy: Bytes, found: seq<Record>)
    requires p !in copies && ScanData(copy) == Found(found)
    ensures forall d :: FiledIn(copies[p := copy], d) <==> FiledIn(copies, d) || d in set r | r in found :: r.digest
  {
    var more := copies[p := copy];
    forall d ensures FiledIn(more, d) <==> FiledIn(copies, d) || d in set r | r in found :: r.digest {
      if q :| q in copies && HasDigest(copies[q], d) { assert more[q] == copies[q]; }
      if d in set r | r in found :: r.digest { assert more[p] == copy && HasDigest(more[p], d); }
    }
  }

  ghost function TreeOf(disk: Disk, out: string): Tree
    reads disk`pool, disk`aside, disk`dated
  {
    Tree(disk.pool, disk.aside, Get(disk.dated, out))
  }

  /** One launch: how many file steps it is allowed, whether it is forced, and
      the commit notes its git reads give. */
  datatype Launch = Launch(kill: nat, force: bool, noteOf: string -> Bytes)

  /** Any number of runs of one day, each killed after its own number of file
      steps: since the numbers are arbitrary, the state after them is the state at
      any moment of any such history. Nothing is lost; and once one run is done,
      the dated file is the old one with every missing section appended once, in
      name order, and nothing of the day is left in the pool. Whatever the names
      are, unless a run is forced: then the day's have no CR. */
  method RunsOfOneDay(disk: Disk, day: Day, out: string, launches: seq<Launch>)
    returns (outcomes: seq<Outcome>)
    requires disk.Valid() && disk.quiet && day.sha == disk.sha && ValidDay(day)
    requires forall k, n :: 0 <= k < |launches| ==> ValidNote(launches[k].noteOf(n))
    requires FileNames(disk.pool)
    requires DayReadable(disk.pool, day) || forall k :: 0 <= k < |launches| ==> !launches[k].force
    modifies disk
    ensures Recoverable(old(TreeOf(disk, out)), TreeOf(disk, out), day)
    ensures Done in outcomes ==> Completed(old(TreeOf(disk, out)), TreeOf(disk, out), day)
    ensures Done in outcomes ==> exists fs ::
      && ToFold(fs, old(disk.pool), BaseOf(old(TreeOf(disk, out)).file, day), day)
      && Get(disk.dated, out) == FoldedFile(old(TreeOf(disk, out)).file, fs, day)
  {
    ghost var start := TreeOf(disk, out);
    outcomes := [];
    var k := 0;
    while k < |launches|
      invariant k <= |launches|
      invariant Recoverable(start, TreeOf(disk, out), day)
      invariant Done in outcomes ==> Completed(start, TreeOf(disk, out), day)
    {
      ghost var before := TreeOf(disk, out);
      disk.Grant(launches[k].kill);
      var run := new Assembly(disk, day, out, launches[k].force, launches[k].noteOf);
      var outcome := run.Run();
      ghost var now := TreeOf(disk, out);
      OneRunIsRecoverable(before, now, day, launches[k].force);
      RecoverableTrans(start, before, now, day);
      if Done in outcomes {
        CompletedStays(start, before, now, day);
      } else if outcome == Done {
        CompletedTrans(start, before, now, day);
      }
      outcomes := outcomes + [outcome];
      k := k + 1;
    }
    if Done in outcomes { WhatCompletedMeans(start, TreeOf(disk, out), day); }
  }
}
