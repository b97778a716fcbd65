/** The directory the release-note assembler works in: the pending pool, the
    `.assembled` quarantine, the dated files, and the replacement being built.

    `stepsLeft` is how many more file steps the process is allowed before it is
    killed, so a proof for every initial value is a proof for a crash between
    any two steps. `quiet` says whether anything else writes the tree. */
module NoteDisk {
  import opened Wrappers
  import opened NoteText
  import opened NoteMarkers

  /** One unlink: the name, the bytes it destroyed, and the bytes of the dated
      file at that moment. */
  datatype Removal = Removal(name: string, bytes: Bytes, file: Bytes)

  /** One rename over a dated file: what was there and what replaced it. */
  datatype Publication = Publication(was: Option<Bytes>, now: Bytes)

  class Disk {
    const sha: Bytes -> string
    const quiet: bool
    var pool: map<string, Bytes>
    var aside: map<string, Bytes>
    var dated: map<string, Bytes>
    var work: Option<Bytes>
    var stepsLeft: nat
    ghost var removals: seq<Removal>
    ghost var publications: seq<Publication>

    /** SHA-256 prints as 64 hex digits. It is not taken to be injective. */
    ghost predicate Valid() { forall b: Bytes :: IsDigest(sha(b)) }

    constructor (sha: Bytes -> string, quiet: bool, pool: map<string, Bytes>, dated: map<string, Bytes>)
      requires forall b: Bytes :: IsDigest(sha(b))
      ensures Valid() && this.sha == sha && this.quiet == quiet
      ensures this.pool == pool && this.dated == dated && aside == map[] && work == None
      ensures removals == [] && publications == []
    {
      this.sha, this.quiet := sha, quiet;
      this.pool, this.dated, this.aside, this.work := pool, dated, map[], None;
      stepsLeft := 0;
      removals, publications := [], [];
    }

    /** A window in which anything else may write the shared tree: editors, a
        second checkout. The replacement is in this process's own directory. */
    method Others()
      modifies this`pool, this`aside, this`dated
      ensures quiet ==> pool == old(pool) && aside == old(aside) && dated == old(dated)
    {
      if !quiet {
        pool, aside, dated := *, *, *;
      }
    }

    /** The window of the flush, the long step before the final gate, in which
        the replacement too may be written. */
    method OthersAtFlush()
      modifies this`pool, this`aside, this`dated, this`work
      ensures quiet ==>
        pool == old(pool) && aside == old(aside) && dated == old(dated) && work == old(work)
    {
      if !quiet {
        pool, aside, dated, work := *, *, *, *;
      }
    }

    /** Write the replacement, in the process's own directory. */
    method WriteWork(bytes: Bytes)
      modifies this`work
      ensures work == Some(bytes)
    {
      work := Some(bytes);
    }

    /** A restart: how far this run is let go before it is killed. */
    method Grant(steps: nat)
      modifies this`stepsLeft, this`work
      ensures stepsLeft == steps && work == None
    {
      stepsLeft, work := steps, None;
    }

    method Step() returns (alive: bool)
      modifies this`stepsLeft
      ensures alive == (old(stepsLeft) > 0)
    {
      alive := stepsLeft > 0;
      if alive { stepsLeft := stepsLeft - 1; }
    }

    /** `os.rename` of a pool entry into the quarantine. */
    method SetAside(name: string) returns (done: bool)
      modifies this`pool, this`aside, this`stepsLeft
      ensures done ==> name in old(pool) && pool == old(pool) - {name}
                       && aside == old(aside)[name := old(pool)[name]]
      ensures !done ==> pool == old(pool) && aside == old(aside)
      ensures done <==> old(stepsLeft) > 0 && name in old(pool)
    {
      done := Step();
      if done && name in pool {
        aside := aside[name := pool[name]];
        pool := pool - {name};
      } else {
        done := false;
      }
    }

    /** `os.remove` of a quarantine entry: the one step that destroys text. */
    method Remove(name: string, out: string) returns (done: bool)
      requires name in aside && out in dated
      modifies this`aside, this`stepsLeft, this`removals
      ensures done ==> aside == old(aside) - {name}
      ensures done ==> removals == old(removals) + [Removal(name, old(aside)[name], dated[out])]
      ensures !done ==> aside == old(aside) && removals == old(removals)
      ensures done <==> old(stepsLeft) > 0
    {
      done := Step();
      if done {
        removals := removals + [Removal(name, aside[name], dated[out])];
        aside := aside - {name};
      }
    }

    /** `os.rename` of the replacement over the dated file. */
    method Install(out: string) returns (done: bool)
      requires work.Some?
      modifies this`dated, this`work, this`stepsLeft, this`publications
      ensures done ==> dated == old(dated)[out := old(work).value] && work == None
      ensures done ==>
        publications == old(publications) + [Publication(Get(old(dated), out), old(work).value)]
      ensures !done ==> dated == old(dated) && work == old(work) && publications == old(publications)
      ensures done <==> old(stepsLeft) > 0
    {
      done := Step();
      if done {
        publications := publications + [Publication(Get(dated, out), work.value)];
        dated := dated[out := work.value];
        work := None;
      }
    }
  }

  function Get(m: map<string, Bytes>, k: string): Option<Bytes> {
    if k in m then Some(m[k]) else None
  }
}
