/** The flows that remove or move an alert chat, as one process among any number.
    Every await is a call of `Others`, in which the other processes take any
    steps of the protocol; each statement or batch of this process is one step
    of it. So what is proved of every run of the protocol holds of these flows. */
module AlertFlows {
  import opened Wrappers
  import opened AlertStore
  import opened AlertWrites
  import opened AlertQueue
  import opened AlertProtocol
  import opened AlertRetry

  const DECIDE_ATTEMPTS := 3

  /** One chain of the reply: `effective` once its chat has been told. */
  datatype Report = Report(chain: int, effective: Option<int>)

  datatype Relinked = LinkedNow | LinkPending | LinkUnknown | LinkMoved

  datatype Verdict = Refused | Retry | Wrote

  /** A committed decision: the tables just before and just after it. */
  datatype Decision = Decision(before: Store, after: Store)

  /** One attempt to tell a chat, whether it accepted, and the tables just after
      the attempt was stamped. */
  datatype Attempt = Attempt(ids: set<nat>, now: int, told: bool, after: Store)

  /** An accepted notice leaves none of its changes waiting to be told; after a
      refused one those that still are carry its time. */
  ghost predicate Tried(a: Attempt) {
    forall id | id in a.ids && Waiting(a.after, id) :: !a.told && a.after.changes[id].attemptAt == Some(a.now)
  }

  /** One applied change, and the tables just before and after. */
  datatype Application = Application(id: nat, before: Store, after: Store)

  /** The change was due, and took its row from its old chat to what it asked. */
  ghost predicate WasDue(a: Application, now: int) {
    && IsPending(a.before, a.id)
    && var c := a.before.changes[a.id];
      && c.effectiveAt.Some? && c.effectiveAt.value <= now
      && ChatOf(a.before, c.key) == Some(c.oldChat) && OthersKept(a.before, a.after, c.key)
      && ChatOf(a.after, c.key) == (match c.kind { case Unlink => None case Replace(to) => Some(to) })
      && a.after.changes == a.before.changes[a.id := Closed(c, Applied, now)]
  }

  class Agent {
    const me: nat
    const sender: bool
    /** The time the invocation runs at. */
    const now: int
    var world: State
    ghost var decisions: seq<Decision>
    ghost var attempts: seq<Attempt>
    ghost var applications: seq<Application>
    /** Chain answers that could not be read, and batches whose guard failed. */
    ghost var unread: nat
    ghost var moves: nat

    constructor (me: nat, sender: bool, now: int, world: State)
      requires Inv(world)
      ensures this.me == me && this.sender == sender && this.now == now && this.world == world
      ensures decisions == [] && attempts == [] && applications == [] && unread == 0 && moves == 0
    {
      this.me, this.sender, this.now, this.world := me, sender, now, world;
      decisions, attempts, applications, unread, moves := [], [], [], 0, 0;
    }

    /** Some steps lead from `s` to `t` in which this process stamps refusals with
        its own time only, and tries to tell every change of `ids`. */
    ghost predicate Tells(s: State, t: State, ids: set<nat>) {
      exists steps :: Leads(s, t, steps, me, ids, now)
    }

    ghost predicate Goes(s: State, t: State) { Tells(s, t, {}) }

    lemma StaysPut(s: State)
      ensures Goes(s, s)
    {
      assert Leads(s, s, [], me, {}, now);
    }

    lemma TellsTrans(s: State, t: State, u: State, ids: set<nat>, more: set<nat>)
      requires Tells(s, t, ids) && Tells(t, u, more)
      ensures Tells(s, u, ids + more)
    {
      var a :| Leads(s, t, a, me, ids, now);
      var b :| Leads(t, u, b, me, more, now);
      LeadsOn(s, t, u, a, b, me, ids, more, now);
    }

    lemma TellsFewer(s: State, t: State, ids: set<nat>, fewer: set<nat>)
      requires Tells(s, t, ids) && fewer <= ids
      ensures Tells(s, t, fewer)
    {
      var a :| Leads(s, t, a, me, ids, now);
      assert Leads(s, t, a, me, fewer, now);
    }

    lemma GoesTrans(s: State, t: State, u: State)
      requires Goes(s, t) && Goes(t, u)
      ensures Goes(s, u)
    {
      TellsTrans(s, t, u, {}, {});
      TellsFewer(s, u, {} + {}, {});
    }

    lemma GoesTells(s: State, t: State, u: State, ids: set<nat>)
      requires Goes(s, t) && Tells(t, u, ids)
      ensures Tells(s, u, ids)
    {
      TellsTrans(s, t, u, {}, ids);
      TellsFewer(s, u, {} + ids, ids);
    }

    lemma TellsGoes(s: State, t: State, u: State, ids: set<nat>)
      requires Tells(s, t, ids) && Goes(t, u)
      ensures Tells(s, u, ids)
    {
      TellsTrans(s, t, u, ids, {});
      TellsFewer(s, u, ids + {}, ids);
    }

    lemma GoneIsGood(s: State, t: State)
      requires Goes(s, t)
      ensures s.log <= t.log
      ensures Inv(s) ==> Inv(t)
    {
      var steps :| Leads(s, t, steps, me, {}, now);
      LogGrows(s, steps);
      if Inv(s) { EveryRun(s, steps); }
    }

    lemma SettledGoes(s: State, t: State, id: nat, told: bool)
      requires Goes(s, t) && Inv(s) && Settled(s.store, id, told)
      ensures Settled(t.store, id, told)
    {
      var steps :| Leads(s, t, steps, me, {}, now);
      SettledStays(s, steps, id, told);
    }

    lemma AllSettledGoes(s: State, t: State, ids: seq<nat>, n: nat)
      requires n <= |ids| && Goes(s, t) && Inv(s) && AllSettled(s.store, ids, n)
      ensures AllSettled(t.store, ids, n)
    {
      forall k | 0 <= k < n ensures Settled(t.store, ids[k], false) { SettledGoes(s, t, ids[k], false); }
    }

    lemma StepGoes(s: State, a: Action, ids: set<nat>)
      requires Enabled(s, me, a) && (a.MarkRefused? ==> a.now == now)
      requires ids == (if a.MarkRefused? then a.ids else if a.Mark? then s.log[a.at].ids else {})
      ensures Tells(s, Step(s, me, a), ids)
    {
      var steps := [(me, a)];
      RunOne(s, me, a);
      assert steps[..0] == [];
      forall id | id in ids ensures TriedBy(s, steps, me, id, now) { assert TriesAt(s, steps, 0, me, id, now); }
      assert Leads(s, Step(s, me, a), steps, me, ids, now);
    }

    /** An await: any steps of the other processes. */
    method Others()
      requires Inv(world)
      modifies this`world
      ensures Inv(world) && Goes(old(world), world) && old(world.log) <= world.log
    {
      var steps: seq<(nat, Action)> := *;
      var theirs := Theirs(steps);
      assert Leads(world, Run(world, theirs), theirs, me, {}, now);
      GoneIsGood(world, Run(world, theirs));
      world := Run(world, theirs);
    }

    function Theirs(steps: seq<(nat, Action)>): (r: seq<(nat, Action)>)
      ensures forall i :: 0 <= i < |r| ==> r[i].0 != me
    {
      if steps == [] then []
      else if steps[0].0 == me then Theirs(steps[1..])
      else [steps[0]] + Theirs(steps[1..])
    }

    /** One step of this process that decides nothing. */
    method Do(a: Action)
      requires Inv(world) && Enabled(world, me, a) && !a.Unlink? && !a.Link? && !a.Move?
      requires a.MarkRefused? ==> a.now == now
      modifies this`world
      ensures Inv(world) && world == Step(old(world), me, a)
      ensures Goes(old(world), world) && old(world.log) <= world.log
      ensures a.MarkRefused? ==> Tells(old(world), world, a.ids)
      ensures a.Mark? ==> Tells(old(world), world, old(world).log[a.at].ids)
    {
      EveryStep(world, me, a);
      ghost var ids := if a.MarkRefused? then a.ids else if a.Mark? then world.log[a.at].ids else {};
      StepGoes(world, a, ids);
      TellsFewer(world, Step(world, me, a), ids, {});
      world := Step(world, me, a);
    }

    /** One guarded batch; when not `done` the rows had moved and nothing was
        written. `at` is the log entry that names the changes it inserted. */
    method GuardedBatch(a: Action) returns (done: bool, at: nat)
      requires Inv(world) && Enabled(world, me, a) && (a.Unlink? || a.Link? || a.Move?)
      modifies this`world, this`decisions, this`moves
      ensures Inv(world) && Goes(old(world), world) && old(world.log) <= world.log
      ensures moves == if done then old(moves) else old(moves) + 1
      ensures !done ==> world == old(world) && decisions == old(decisions)
      ensures done ==> at == |old(world.log)| && world == Step(old(world), me, a)
      ensures done ==>
        world.log == old(world.log) + [Listed(me, Inserted(old(world.store), world.store))]
      ensures done ==> decisions == old(decisions) + [Decision(old(world.store), world.store)]
      ensures done <==> Committed(old(world), a)
    {
      EveryStep(world, me, a);
      StepGoes(world, a, {});
      var next := Step(world, me, a);
      at := |world.log|;
      done := |next.log| > |world.log|;
      if done {
        decisions := decisions + [Decision(world.store, next.store)];
        world := next;
      } else {
        moves := moves + 1;
      }
    }

    /** Read the linked rows in scope, in some order. */
    method LinkedRows(w: string, scope: Option<int>) returns (rows: seq<Linked>, at: nat)
      requires Inv(world)
      modifies this`world
      ensures Inv(world) && Goes(old(world), world) && old(world.log) <= world.log
      ensures at < |world.log| && world.log[at] == Looked(me, w, scope, rows)
      ensures world.store == old(world.store) && RowsAre(world.store, w, scope, rows) && Readable(rows, scope)
    {
      rows := RowsOf(world.store, w, scope);
      GuardIsExact(world.store, w, scope, rows);
      at := |world.log|;
      Do(Look(w, scope, rows));
    }

    /** One row's wait, as the chain says it; `None` when it cannot be read. */
    method Protected(w: string, chain: int) returns (answer: Option<Option<int>>)
      requires Inv(world)
      modifies this`world, this`unread
      ensures Inv(world) && Goes(old(world), world) && old(world.log) <= world.log
      ensures unread == if answer.Some? then old(unread) else old(unread) + 1
      ensures answer.Some? ==>
        |world.log| > |old(world.log)| && world.log[|world.log| - 1] == Answered(me, w, chain, answer.value)
    {
      Others();
      var reply: Option<Protection> := *;
      if reply == None {
        unread := unread + 1;
        return None;
      }
      ghost var was := world;
      Do(Ask(w, chain, reply.value));
      GoesTrans(old(world), was, world);
      answer := Some(WaitOf(reply.value));
    }

    /** Each row's wait, as the chain says it. `None` when one answer is missing. */
    method ProtectionByRow(w: string, rows: seq<Linked>, at: nat) returns (delays: Option<map<int, Option<int>>>)
      requires Inv(world)
      requires at < |world.log| && Readable(rows, None)
      modifies this`world, this`unread
      ensures Inv(world) && Goes(old(world), world) && old(world.log) <= world.log
      ensures unread == if delays.Some? then old(unread) else old(unread) + 1
      ensures delays.Some? ==> DelaysRead(world.log, at, me, w, rows, delays.value)
    {
      var out: map<int, Option<int>> := map[];
      StaysPut(world);
      for i := 0 to |rows|
        invariant Inv(world) && Goes(old(world), world) && old(world.log) <= world.log
        invariant DelaysRead(world.log, at, me, w, rows[..i], out) && unread == old(unread)
      {
        ghost var was := world;
        var answer := Protected(w, rows[i].chain);
        GoesTrans(old(world), was, world);
        if answer == None { return None; }
        DelaysLast(was.log, world.log, at, me, w, rows[..i], out);
        assert AnsweredAfter(world.log, at, me, w, rows[i].chain, answer.value);
        out := out[rows[i].chain := answer.value];
      }
      assert rows[..|rows|] == rows;
      delays := Some(out);
    }

    // ------------------------------------------------------------ notices

    /** Tell a chat about the changes `ids`, and start their wait only when it
        accepts. */
    method NotifyOldChat(at: nat, chat: Chat, ids: set<nat>, delay: int) returns (told: bool)
      requires Inv(world) && ListedAt(world.log, at, me)
      requires forall id | id in ids :: Names(world.log[at].found, id, chat, delay)
      modifies this`world, this`attempts
      ensures Inv(world) && Goes(old(world), world) && old(world.log) <= world.log
      ensures told ==> forall id | id in ids :: ToldOf(world.log, chat, id, now)
      ensures told ==> forall id | id in ids :: Settled(world.store, id, true)
      ensures told ==> sender
      ensures !sender ==> world == old(world)
      ensures sender && ids != {} ==> Tells(old(world), world, ids)
      ensures if sender && ids != {} then OneMore(old(attempts), attempts, ids, now, told) else attempts == old(attempts)
    {
      StaysPut(world);
      if !sender || ids == {} { return false; }
      Others();
      var accepted: bool := *;
      ghost var was := world;
      if !accepted {
        Do(MarkRefused(at, ids, now));
        GoesTrans(old(world), was, world);
        GoesTells(old(world), was, world, ids);
        attempts := attempts + [Attempt(ids, now, false, world.store)];
        return false;
      }
      told := true;
      Accepted(at, chat, ids, delay);
      GoesTrans(old(world), was, world);
      GoesTells(old(world), was, world, ids);
    }

    /** The chat accepted: record it, start the waits, tell the new chat. */
    method Accepted(at: nat, chat: Chat, ids: set<nat>, delay: int)
      requires Inv(world) && ListedAt(world.log, at, me)
      requires forall id | id in ids :: Names(world.log[at].found, id, chat, delay)
      modifies this`world, this`attempts
      ensures Inv(world) && Goes(old(world), world) && old(world.log) <= world.log
      ensures Tells(old(world), world, ids)
      ensures forall id | id in ids :: ToldOf(world.log, chat, id, now)
      ensures forall id | id in ids :: Settled(world.store, id, true)
      ensures OneMore(old(attempts), attempts, ids, now, true)
    {
      var j := |world.log|;
      Do(Send(at, chat, ids, now, delay));
      ghost var was := world;
      LandMark(j);
      GoesTells(old(world), was, world, ids);
      was := world;
      Others();
      TellsGoes(old(world), was, world, ids);
      TellsFewer(old(world), world, ids, {});
      forall id | id in ids ensures ToldOf(world.log, chat, id, now) && Settled(world.store, id, true) {
        assert TellsAt(world.log[j], chat, id, now);
        SettledGoes(was, world, id, true);
      }
    }

    /** The mark of an accepted notice, whenever it lands. */
    method LandMark(j: nat)
      requires Inv(world) && j < |world.log| && world.log[j].Told? && world.log[j].p == me
      modifies this`world, this`attempts
      ensures Inv(world) && Goes(old(world), world) && old(world.log) <= world.log
      ensures Tells(old(world), world, old(world).log[j].ids)
      ensures forall id | id in world.log[j].ids :: Settled(world.store, id, true)
      ensures OneMore(old(attempts), attempts, world.log[j].ids, world.log[j].now, true)
    {
      Others();
      ghost var before := world;
      Do(Mark(j));
      GoesTrans(old(world), before, world);
      GoesTells(old(world), before, world, before.log[j].ids);
      assert GoodEvent(before.store, before.log, before.log[j]);
      attempts := attempts + [Attempt(world.log[j].ids, world.log[j].now, true, world.store)];
    }

    // ------------------------------------------------------------- unlink

    /** Read, ask, and write in one guarded batch. */
    method DecideUnlink(w: string, scope: Option<int>)
      returns (verdict: Verdict, at: nat, first: nat, rows: seq<Linked>, delays: map<int, Option<int>>)
      requires Inv(world)
      modifies this`world, this`decisions, this`unread, this`moves
      ensures Inv(world) && Goes(old(world), world) && old(world.log) <= world.log
      ensures Because(verdict, old(unread), unread, old(moves), moves)
      ensures verdict != Wrote ==> decisions == old(decisions)
      ensures verdict == Wrote ==> Extends(old(decisions), decisions)
      ensures verdict == Wrote ==> UnlinkDecided(decisions[|old(decisions)|], w, scope, rows, delays, now)
      ensures verdict == Wrote ==> first == decisions[|old(decisions)|].before.nextId && ListedAt(world.log, at, me)
      ensures verdict == Wrote ==> NamesUnlinks(world.log[at].found, first, Pick(rows, delays, true), delays)
    {
      delays := map[];
      var seen: nat;
      rows, seen := LinkedRows(w, scope);
      at, first := seen, 0;
      ghost var was := world;
      var answers := ProtectionByRow(w, rows, seen);
      GoesTrans(old(world), was, world);
      if answers == None { return Refused, at, first, rows, delays; }
      delays := answers.value;
      was := world;
      var done;
      done, at, first := CommitUnlink(seen, w, scope, rows, delays);
      GoesTrans(old(world), was, world);
      verdict := if done then Wrote else Retry;
    }

    /** The decision's one batch, after any steps of the others. */
    method CommitUnlink(seen: nat, w: string, scope: Option<int>, rows: seq<Linked>, delays: map<int, Option<int>>)
      returns (done: bool, at: nat, first: nat)
      requires Inv(world) && seen < |world.log| && world.log[seen] == Looked(me, w, scope, rows)
      requires DelaysRead(world.log, seen, me, w, rows, delays)
      modifies this`world, this`decisions, this`moves
      ensures Inv(world) && Goes(old(world), world) && old(world.log) <= world.log
      ensures moves == if done then old(moves) else old(moves) + 1
      ensures !done ==> decisions == old(decisions)
      ensures done ==> Extends(old(decisions), decisions)
      ensures done ==> UnlinkDecided(decisions[|old(decisions)|], w, scope, rows, delays, now)
      ensures done ==> first == decisions[|old(decisions)|].before.nextId && ListedAt(world.log, at, me)
      ensures done ==> NamesUnlinks(world.log[at].found, first, Pick(rows, delays, true), delays)
    {
      ghost var was := world;
      Others();
      DelaysLast(was.log, world.log, seen, me, w, rows, delays);
      ghost var before := world;
      first := world.store.nextId;
      done, at := GuardedBatch(Action.Unlink(seen, delays, now));
      GoesTrans(old(world), before, world);
      if done {
        assert GoodEvent(before.store, before.log, before.log[seen]);
        UnlinkLeaves(before.store, w, scope, rows, delays, now);
        UnlinkedNames(before.store, world.store, w, scope, rows, delays, now);
      }
    }

    /** One notice per chat and delay; `told` are the rows whose chat accepted. */
    method TellAll(at: nat, first: nat, waiting: seq<Linked>, delays: map<int, Option<int>>)
      returns (told: set<nat>)
      requires Inv(world) && ListedAt(world.log, at, me) && NamesUnlinks(world.log[at].found, first, waiting, delays)
      modifies this`world, this`attempts
      ensures Inv(world) && Goes(old(world), world) && old(world.log) <= world.log
      ensures forall i | i in told :: i < |waiting| && ToldOf(world.log, waiting[i].chat, first + i, now)
      ensures old(attempts) <= attempts && (!sender ==> told == {})
      ensures sender ==> forall i: nat :: i < |waiting| ==>
        TriedAs(attempts[|old(attempts)|..], first + i, now, i in told)
    {
      told := {};
      StaysPut(world);
      for i := 0 to |waiting|
        invariant Inv(world) && Goes(old(world), world) && old(world.log) <= world.log
        invariant forall i | i in told :: i < |waiting| && ToldOf(world.log, waiting[i].chat, first + i, now)
        invariant old(attempts) <= attempts && (!sender ==> told == {})
        invariant forall y | y in told :: y < |waiting| && Grouped(waiting, delays, i, y)
        invariant sender ==> forall y: nat :: y < |waiting| && Grouped(waiting, delays, i, y) ==>
          TriedAs(attempts[|old(attempts)|..], first + y, now, y in told)
      {
        if !Grouped(waiting, delays, i, i) {
          ghost var was, had, before := world, attempts, told;
          var group := set j: nat | i <= j < |waiting| && SameNotice(waiting, delays, i, j);
          var ok := TellGroup(at, first, waiting, delays, i, group);
          GoesTrans(old(world), was, world);
          ToldSetLasts(was.log, world.log, waiting, first, told, now);
          if ok { told := told + group; }
          if sender { GroupTried(old(attempts), had, attempts, first, waiting, delays, i, group, now, before, told, ok); }
        }
        NextGrouped(waiting, delays, i);
      }
      forall y: nat | y < |waiting| ensures Grouped(waiting, delays, |waiting|, y) {
        assert SameNotice(waiting, delays, y, y);
      }
    }

    /** The notice of one group of rows. */
    method TellGroup(at: nat, first: nat, waiting: seq<Linked>, delays: map<int, Option<int>>, i: nat, group: set<nat>)
      returns (ok: bool)
      requires Inv(world) && ListedAt(world.log, at, me) && NamesUnlinks(world.log[at].found, first, waiting, delays)
      requires i < |waiting| && i in group && forall j | j in group :: j < |waiting| && SameNotice(waiting, delays, i, j)
      modifies this`world, this`attempts
      ensures Inv(world) && Goes(old(world), world) && old(world.log) <= world.log
      ensures ok ==> sender && forall j | j in group :: ToldOf(world.log, waiting[j].chat, first + j, now)
      ensures if sender then OneMore(old(attempts), attempts, IdsOf(first, group), now, ok) else attempts == old(attempts)
    {
      var ids := IdsOf(first, group);
      assert first + i in ids;
      ok := NotifyOldChat(at, waiting[i].chat, ids, delays[waiting[i].chain].value);
      if ok {
        forall j | j in group ensures ToldOf(world.log, waiting[j].chat, first + j, now) { assert first + j in ids; }
      }
    }

    /** One attempt: decide, then tell the chats that have to be told. */
    method AttemptUnlink(w: string, scope: Option<int>)
      returns (verdict: Verdict, pending: seq<Report>, rows: seq<Linked>, delays: map<int, Option<int>>)
      requires Inv(world)
      modifies this`world, this`decisions, this`attempts, this`unread, this`moves
      ensures Inv(world) && Goes(old(world), world) && old(attempts) <= attempts
      ensures Because(verdict, old(unread), unread, old(moves), moves)
      ensures verdict != Wrote ==> decisions == old(decisions) && attempts == old(attempts)
      ensures verdict == Wrote ==> Extends(old(decisions), decisions)
      ensures verdict == Wrote ==> UnlinkDecided(decisions[|old(decisions)|], w, scope, rows, delays, now)
      ensures verdict == Wrote ==> Reported(world.log, attempts[|old(attempts)|..], sender,
        decisions[|old(decisions)|].before.nextId, Pick(rows, delays, true), delays, now, pending)
    {
      pending := [];
      Others();
      ghost var was := world;
      var at, first;
      verdict, at, first, rows, delays := DecideUnlink(w, scope);
      GoesTrans(old(world), was, world);
      if verdict == Wrote {
        was := world;
        pending := TellPending(at, first, Pick(rows, delays, true), delays);
        GoesTrans(old(world), was, world);
      }
    }

    /** Tell the chats of the waiting rows, and reply for each row. */
    method TellPending(at: nat, first: nat, waiting: seq<Linked>, delays: map<int, Option<int>>)
      returns (pending: seq<Report>)
      requires Inv(world) && ListedAt(world.log, at, me) && NamesUnlinks(world.log[at].found, first, waiting, delays)
      modifies this`world, this`attempts
      ensures Inv(world) && Goes(old(world), world) && old(attempts) <= attempts
      ensures Reported(world.log, attempts[|old(attempts)|..], sender, first, waiting, delays, now, pending)
    {
      var told := TellAll(at, first, waiting, delays);
      pending := Replies(waiting, delays, told, now);
      RepliesReport(world.log, attempts[|old(attempts)|..], sender, first, waiting, delays, told, now);
    }

    /** An owner asked to unlink, one chain or all of them. When not `done`
        nothing was written in any attempt, because an answer could not be read
        or the rows had moved under each of three batches. When done, one commit left exactly
        what `Unlinked` says of the rows as they were just before it, and the
        reply gives a time for exactly the rows whose chat accepted the notice
        this request sent it. */
    method RequestUnlink(w: string, scope: Option<int>)
      returns (done: bool, pending: seq<Report>, ghost rows: seq<Linked>, ghost delays: map<int, Option<int>>)
      requires Inv(world)
      modifies this`world, this`decisions, this`attempts, this`unread, this`moves
      ensures Inv(world) && Goes(old(world), world) && old(attempts) <= attempts
      ensures !done ==> decisions == old(decisions)
      ensures !done ==> unread > old(unread) || moves == old(moves) + DECIDE_ATTEMPTS
      ensures done ==> Extends(old(decisions), decisions)
      ensures done ==> UnlinkDecided(decisions[|old(decisions)|], w, scope, rows, delays, now)
      ensures done ==> Reported(world.log, attempts[|old(attempts)|..], sender,
        decisions[|old(decisions)|].before.nextId, Pick(rows, delays, true), delays, now, pending)
    {
      pending, rows, delays := [], [], map[];
      StaysPut(world);
      for attempt := 0 to DECIDE_ATTEMPTS
        invariant Inv(world) && Goes(old(world), world) && decisions == old(decisions) && attempts == old(attempts)
        invariant unread == old(unread) && moves == old(moves) + attempt
      {
        ghost var was := world;
        var verdict, replies, seen, waits := AttemptUnlink(w, scope);
        GoesTrans(old(world), was, world);
        if verdict == Refused { return false, [], rows, delays; }
        if verdict == Wrote { return true, replies, seen, waits; }
      }
      done := false;
    }

    // ------------------------------------------------------------- relink

    /** Link now if the row is still what was read. */
    method Immediate(k: Key, observed: seq<Linked>, seen: nat, chat: Chat) returns (linked: bool)
      requires Inv(world) && LookedAt(world.log, seen, me) && Enabled(world, me, Link(seen, k, chat, now))
      requires world.log[seen].rows == observed
      modifies this`world, this`decisions, this`moves
      ensures Inv(world) && Goes(old(world), world)
      ensures !linked ==> decisions == old(decisions)
      ensures moves == if linked then old(moves) else old(moves) + 1
      ensures linked ==> Extends(old(decisions), decisions) && LinkDecided(decisions[|old(decisions)|], k, chat)
    {
      assert GoodEvent(world.store, world.log, world.log[seen]);
      LinkLeaves(world.store, k, observed, chat, now);
      ObservedWrites(world.store, k, observed, chat);
      var writes := LinkWrites(world.store, k, chat, if observed == [] then None else Some(observed[0].chat));
      var done, at := GuardedBatch(Link(seen, k, chat, now));
      linked := done && writes;
    }

    /** One attempt to link `chat`: at once, or as a move that has to wait. */
    method DecideRelink(k: Key, chat: Chat) returns (r: Relinked)
      requires Inv(world)
      modifies this`world, this`decisions, this`attempts, this`unread, this`moves
      ensures Inv(world) && Goes(old(world), world) && old(attempts) <= attempts
      ensures r == LinkMoved || r == LinkUnknown ==> decisions == old(decisions) && attempts == old(attempts)
      ensures moves == if r == LinkMoved then old(moves) + 1 else old(moves)
      ensures unread == if r == LinkUnknown then old(unread) + 1 else old(unread)
      ensures r == LinkedNow ==> Extends(old(decisions), decisions) && LinkDecided(decisions[|old(decisions)|], k, chat)
      ensures r == LinkPending ==> Extends(old(decisions), decisions) && MoveDecided(decisions[|old(decisions)|], k, chat)
      ensures r == LinkPending && sender ==>
        TriedIn(attempts[|old(attempts)|..], decisions[|old(decisions)|].before.nextId, now)
    {
      var observed, seen := LinkedRows(k.wallet, Some(k.chain));
      ghost var was := world;
      assert GoodEvent(world.store, world.log, world.log[seen]);
      if observed == [] || observed[0].chat == chat {
        Others();
        GoesTrans(old(world), was, world);
        was := world;
        var linked := Immediate(k, observed, seen, chat);
        GoesTrans(old(world), was, world);
        return if linked then LinkedNow else LinkMoved;
      }
      var answer := Protected(k.wallet, k.chain);
      GoesTrans(old(world), was, world);
      if answer == None { return LinkUnknown; }
      assert AnsweredAfter(world.log, seen, me, k.wallet, k.chain, answer.value);
      was := world;
      r := FinishRelink(k, observed, seen, answer.value, chat);
      GoesTrans(old(world), was, world);
    }

    /** Link now, or record the move and tell the chat linked now. */
    method FinishRelink(k: Key, observed: seq<Linked>, seen: nat, wait: Option<int>, chat: Chat)
      returns (r: Relinked)
      requires Inv(world) && LookedAt(world.log, seen, me)
      requires world.log[seen] == Looked(me, k.wallet, Some(k.chain), observed)
      requires observed != [] && observed[0].chat != chat
      requires AnsweredAfter(world.log, seen, me, k.wallet, k.chain, wait)
      modifies this`world, this`decisions, this`attempts, this`moves
      ensures Inv(world) && Goes(old(world), world) && old(attempts) <= attempts
      ensures r == LinkMoved ==> decisions == old(decisions) && attempts == old(attempts)
      ensures moves == if r == LinkMoved then old(moves) + 1 else old(moves)
      ensures r == LinkedNow ==> Extends(old(decisions), decisions) && LinkDecided(decisions[|old(decisions)|], k, chat)
      ensures r == LinkPending ==> Extends(old(decisions), decisions) && MoveDecided(decisions[|old(decisions)|], k, chat)
      ensures r == LinkPending && sender ==>
        TriedIn(attempts[|old(attempts)|..], decisions[|old(decisions)|].before.nextId, now)
      ensures r != LinkUnknown
    {
      Others();
      ghost var was := world;
      AnswerLasts(old(world.log), world.log, seen, me, k.wallet, k.chain, wait);
      if wait == None {
        var linked := Immediate(k, observed, seen, chat);
        GoesTrans(old(world), was, world);
        return if linked then LinkedNow else LinkMoved;
      }
      var at, id;
      r, at, id := RecordMove(k, observed, seen, wait.value, chat);
      GoesTrans(old(world), was, world);
      if r == LinkPending {
        was := world;
        var told := NotifyOldChat(at, observed[0].chat, {id}, wait.value);
        GoesTrans(old(world), was, world);
        if sender { TriedLasts(old(attempts), old(attempts), attempts, {id}, now, told); }
      }
    }

    method RecordMove(k: Key, observed: seq<Linked>, seen: nat, delay: int, chat: Chat)
      returns (r: Relinked, at: nat, id: nat)
      requires Inv(world) && LookedAt(world.log, seen, me)
      requires world.log[seen] == Looked(me, k.wallet, Some(k.chain), observed)
      requires Enabled(world, me, Move(seen, k, chat, delay, now))
      modifies this`world, this`decisions, this`moves
      ensures Inv(world) && Goes(old(world), world)
      ensures moves == if r == LinkMoved then old(moves) + 1 else old(moves)
      ensures r == LinkMoved ==> decisions == old(decisions)
      ensures r == LinkPending ==> Extends(old(decisions), decisions) && MoveDecided(decisions[|old(decisions)|], k, chat)
      ensures r == LinkPending ==>
        ListedAt(world.log, at, me) && Names(world.log[at].found, id, observed[0].chat, delay)
      ensures r == LinkPending ==> id == decisions[|old(decisions)|].before.nextId
      ensures r == LinkMoved || r == LinkPending
    {
      assert GoodEvent(world.store, world.log, world.log[seen]);
      MoveLeaves(world.store, k, observed, chat, delay, now);
      ObservedIsTheChatIf(world.store, k, observed);
      id := world.store.nextId;
      var done;
      done, at := GuardedBatch(Move(seen, k, chat, delay, now));
      r := if done then LinkPending else LinkMoved;
    }

    /** A chat completed the handshake. Unknown means nothing was written, because
        the answer could not be read or the row moved under each of three batches. */
    method RequestRelink(k: Key, chat: Chat) returns (r: Relinked)
      requires Inv(world)
      modifies this`world, this`decisions, this`attempts, this`unread, this`moves
      ensures Inv(world) && Goes(old(world), world) && old(attempts) <= attempts
      ensures r != LinkMoved
      ensures r == LinkUnknown ==> decisions == old(decisions)
      ensures r == LinkUnknown ==> unread > old(unread) || moves == old(moves) + DECIDE_ATTEMPTS
      ensures r == LinkedNow ==> Extends(old(decisions), decisions) && LinkDecided(decisions[|old(decisions)|], k, chat)
      ensures r == LinkPending ==> Extends(old(decisions), decisions) && MoveDecided(decisions[|old(decisions)|], k, chat)
      ensures r == LinkPending && sender ==>
        TriedIn(attempts[|old(attempts)|..], decisions[|old(decisions)|].before.nextId, now)
    {
      StaysPut(world);
      for attempt := 0 to DECIDE_ATTEMPTS
        invariant Inv(world) && Goes(old(world), world) && decisions == old(decisions) && attempts == old(attempts)
        invariant unread == old(unread) && moves == old(moves) + attempt
      {
        ghost var was := world;
        Others();
        GoesTrans(old(world), was, world);
        was := world;
        r := DecideRelink(k, chat);
        GoesTrans(old(world), was, world);
        if r != LinkMoved { return; }
      }
      r := LinkUnknown;
    }

    // ------------------------------------------------------------- CANCEL

    /** CANCEL from a chat: every pending removal of that chat is closed, and
        nothing else changes; a group's message changes nothing. */
    method CancelFromChat(chat: Chat, private: bool) returns (count: nat, ghost was: Store)
      requires Inv(world)
      modifies this`world
      ensures Inv(world) && Goes(old(world), world)
      ensures !private ==> world == old(world) && count == 0
      ensures private ==> RemovalsClosed(was, world.store, chat, now) && count == |RemovalsOf(was, chat)|
    {
      was := world.store;
      StaysPut(world);
      if !private { return 0, was; }
      Others();
      was := world.store;
      ghost var before := world;
      CancelLeaves(world.store, chat, now);
      var closed := set id | id in world.store.changes && world.store.changes[id].oldChat == chat && IsPending(world.store, id);
      count := |closed|;
      assert closed == RemovalsOf(was, chat);
      Do(Cancel(chat, now));
      GoesTrans(old(world), before, world);
    }

    // --------------------------------------------------------------- tick

    /** Read a list of pending changes, in one statement. */
    method List(ids: seq<nat>) returns (at: nat)
      requires Inv(world) && forall id | id in ids :: IsPending(world.store, id)
      modifies this`world
      ensures Inv(world) && Goes(old(world), world) && old(world.log) <= world.log
      ensures world.store == old(world.store) && ListedAt(world.log, at, me)
      ensures world.log[at].found == map id | id in ids :: old(world.store).changes[id]
    {
      at := |world.log|;
      Do(Read(map id | id in ids :: world.store.changes[id]));
    }

    /** Try every notice not accepted yet, least recently tried first, one
        notice per chat, wallet, kind and delay; a move is told on its own. */
    method RetryNotices() returns (ghost batch: seq<nat>, ghost heard: State)
      requires Inv(world)
      modifies this`world, this`attempts
      ensures Inv(world) && Goes(old(world), world)
      ensures sender ==> IsFirst(Untold(heard.store, now - NOTICE_RETRY), Tries(heard.store), batch)
      ensures sender ==> Goes(old(world), heard) && Tells(heard, world, Members(batch))
      ensures old(attempts) <= attempts
      ensures sender ==> forall id | id in batch :: TriedIn(attempts[|old(attempts)|..], id, now)
    {
      batch, heard := [], world;
      StaysPut(world);
      if !sender { return; }
      Others();
      heard := world;
      var ids := FirstOf(Untold(world.store, now - NOTICE_RETRY), Tries(world.store));
      batch := ids;
      var at := List(ids);
      ghost var was := world;
      var found := world.log[at].found;
      TellListed(at, ids, found);
      GoesTells(heard, was, world, Members(ids));
      TellsFewer(heard, world, Members(ids), {});
      GoesTrans(old(world), heard, world);
    }

    method TellListed(at: nat, ids: seq<nat>, found: map<nat, Change>)
      requires sender && Inv(world) && ListedAt(world.log, at, me) && world.log[at].found == found
      requires forall id | id in ids :: id in found
      modifies this`world, this`attempts
      ensures Inv(world) && Tells(old(world), world, Members(ids))
      ensures old(attempts) <= attempts
      ensures forall id | id in ids :: TriedIn(attempts[|old(attempts)|..], id, now)
    {
      ghost var tried: set<nat> := {};
      StaysPut(world);
      for i := 0 to |ids|
        invariant Inv(world) && Tells(old(world), world, tried) && old(world.log) <= world.log
        invariant old(attempts) <= attempts && AllTried(old(attempts), attempts, tried, now)
        invariant InNotices(found, ids, i, tried)
      {
        var first := found[ids[i]].kind != Kind.Unlink || forall x :: 0 <= x < i ==> !OneNotice(found[ids[x]], found[ids[i]]);
        ghost var before := tried;
        if first {
          ghost var was, had := world, attempts;
          ghost var group := TellOne(at, ids, i, found);
          TellsTrans(old(world), was, world, tried, group);
          tried := tried + group;
          AllTriedMore(old(attempts), had, attempts, before, group, now);
        }
        NextInNotices(found, ids, i, before, tried, first);
      }
      TellsFewer(old(world), world, tried, Members(ids));
    }

    /** The notice of one change, and of those that share it. */
    method TellOne(at: nat, ids: seq<nat>, i: nat, found: map<nat, Change>) returns (ghost group: set<nat>)
      requires sender && Inv(world) && ListedAt(world.log, at, me) && world.log[at].found == found
      requires i < |ids| && forall id | id in ids :: id in found
      modifies this`world, this`attempts
      ensures group == NoticeOf(found, ids, i)
      ensures Inv(world) && Tells(old(world), world, group) && old(world.log) <= world.log
      ensures exists told :: OneMore(old(attempts), attempts, group, now, told)
    {
      var c := found[ids[i]];
      var notice := NoticeOf(found, ids, i);
      group := notice;
      assert ids[i] in notice;
      var told := NotifyOldChat(at, c.oldChat, notice, c.delay);
    }

    /** Apply one change of the due list, if it is still pending. */
    method ApplyOne(at: nat, id: nat) returns (applied: bool)
      requires Inv(world) && Enabled(world, me, ApplyDue(at, id, now))
      modifies this`world, this`applications
      ensures Inv(world) && Goes(old(world), world) && old(world.log) <= world.log
      ensures applied <==> IsPending(old(world.store), id)
      ensures !applied ==> world == old(world) && applications == old(applications)
      ensures applied ==>
        applications == old(applications) + [Application(id, old(world.store), world.store)]
      ensures applied ==> WasDue(Application(id, old(world.store), world.store), now)
      ensures Settled(world.store, id, false)
    {
      var d := DueOf(id, world.log[at].found[id]);
      assert GoodEvent(world.store, world.log, world.log[at]);
      assert Lasting(world.store, id, world.log[at].found[id]);
      ApplyLeaves(world.store, d, now);
      applied := IsPending(world.store, id);
      ghost var before := world.store;
      Do(ApplyDue(at, id, now));
      if applied { applications := applications + [Application(id, before, world.store)]; }
    }

    /** The scheduled step. It tries every notice of its first list, and applies
        every change of its second that is still pending when its turn comes; it
        answers how many rows it changed, and leaves no closed change that is
        past its retention. */
    method ApplyDueChannelChanges()
      returns (applied: nat, ghost batch: seq<nat>, ghost heard: State, ghost due: seq<nat>, ghost listed: Store)
      requires Inv(world)
      modifies this`world, this`attempts, this`applications
      ensures Inv(world) && Goes(old(world), world) && old(attempts) <= attempts
      ensures sender ==> Goes(old(world), heard) && RetriedFrom(heard, batch, world)
      ensures sender ==> forall id | id in batch :: TriedIn(attempts[|old(attempts)|..], id, now)
      ensures IsFirst(DueNow(listed, now), ById(listed), due)
      ensures AllSettled(world.store, due, |due|)
      ensures |applications| == |old(applications)| + applied && applied <= APPLY_BATCH
      ensures old(applications) <= applications && AllWereDue(applications, |old(applications)|, now)
      ensures NothingStale(world.store, now)
    {
      batch, heard := RetryNotices();
      ghost var was, told := world, world;
      applied, due, listed := ApplyDueList();
      GoesTrans(old(world), was, world);
      was := world;
      Do(Sweep(now));
      GoesTrans(old(world), was, world);
      AllSettledGoes(was, world, due, |due|);
      if sender {
        GoesTrans(told, was, world);
        TellsGoes(heard, told, world, Members(batch));
        RetriesFrom(heard, batch, world);
      }
    }

    /** From this tick's retry list the steps up to `end` are a tick's round. */
    ghost predicate RetriedFrom(heard: State, batch: seq<nat>, end: State) {
      exists steps :: Run(heard, steps) == end && Retries(Round(heard, me, now, batch, steps))
    }

    lemma RetriesFrom(heard: State, batch: seq<nat>, end: State)
      requires IsFirst(Untold(heard.store, now - NOTICE_RETRY), Tries(heard.store), batch)
      requires Tells(heard, end, Members(batch))
      ensures RetriedFrom(heard, batch, end)
    {
      var steps :| Leads(heard, end, steps, me, Members(batch), now);
      assert Retries(Round(heard, me, now, batch, steps));
    }

    /** The due changes, oldest first, as one statement reads them. */
    method ListDue() returns (at: nat, ids: seq<nat>, ghost listed: Store)
      requires Inv(world)
      modifies this`world
      ensures Inv(world) && Goes(old(world), world) && IsFirst(DueNow(listed, now), ById(listed), ids)
      ensures ListedAt(world.log, at, me) && forall id | id in ids :: IsDue(world.log[at].found, id, now)
    {
      Others();
      ghost var was := world;
      listed := world.store;
      ids := FirstOf(DueNow(world.store, now), ById(world.store));
      assert forall id | id in ids :: id in DueNow(world.store, now);
      at := List(ids);
      GoesTrans(old(world), was, world);
    }

    method ApplyDueList() returns (applied: nat, ghost due: seq<nat>, ghost listed: Store)
      requires Inv(world)
      modifies this`world, this`applications
      ensures Inv(world) && Goes(old(world), world)
      ensures IsFirst(DueNow(listed, now), ById(listed), due)
      ensures AllSettled(world.store, due, |due|)
      ensures |applications| == |old(applications)| + applied && applied <= APPLY_BATCH
      ensures old(applications) <= applications && AllWereDue(applications, |old(applications)|, now)
    {
      var at, ids, was;
      at, ids, listed := ListDue();
      due, was := ids, world;
      applied := ApplyAll(at, ids);
      GoesTrans(old(world), was, world);
    }

    method ApplyAll(at: nat, ids: seq<nat>) returns (applied: nat)
      requires Inv(world) && ListedAt(world.log, at, me)
      requires forall id | id in ids :: IsDue(world.log[at].found, id, now)
      modifies this`world, this`applications
      ensures Inv(world) && Goes(old(world), world)
      ensures AllSettled(world.store, ids, |ids|)
      ensures |applications| == |old(applications)| + applied && applied <= |ids|
      ensures old(applications) <= applications && AllWereDue(applications, |old(applications)|, now)
    {
      applied := 0;
      StaysPut(world);
      for i := 0 to |ids|
        invariant Inv(world) && Goes(old(world), world) && old(world.log) <= world.log
        invariant AllSettled(world.store, ids, i)
        invariant |applications| == |old(applications)| + applied && applied <= i
        invariant old(applications) <= applications && AllWereDue(applications, |old(applications)|, now)
      {
        ghost var was := world;
        var done := ApplyNext(at, ids, i);
        GoesTrans(old(world), was, world);
        if done { applied := applied + 1; }
      }
    }

    /** After any steps of the others, the next change of the list. */
    method ApplyNext(at: nat, ids: seq<nat>, i: nat) returns (applied: bool)
      requires Inv(world) && ListedAt(world.log, at, me)
      requires i < |ids| && IsDue(world.log[at].found, ids[i], now) && AllSettled(world.store, ids, i)
      modifies this`world, this`applications
      ensures Inv(world) && Goes(old(world), world) && old(world.log) <= world.log
      ensures AllSettled(world.store, ids, i + 1)
      ensures |applications| == |old(applications)| + (if applied then 1 else 0) && old(applications) <= applications
      ensures AllWereDue(applications, |old(applications)|, now)
    {
      Others();
      ghost var was := world;
      applied := ApplyOne(at, ids[i]);
      GoesTrans(old(world), was, world);
      AllSettledGoes(old(world), world, ids, i);
    }
  }

  /** None of the first `n` of these changes is pending any more. */
  ghost predicate AllSettled(s: Store, ids: seq<nat>, n: nat)
    requires n <= |ids|
  {
    forall k :: 0 <= k < n ==> Settled(s, ids[k], false)
  }

  predicate IsDue(found: map<nat, Change>, id: nat, now: int) {
    id in found && found[id].effectiveAt.Some? && found[id].effectiveAt.value <= now
  }

  ghost predicate AllWereDue(applications: seq<Application>, from: nat, now: int) {
    forall i :: from <= i < |applications| ==> WasDue(applications[i], now)
  }

  /** Pending, told, and its wait over. */
  function DueNow(s: Store, now: int): set<nat> {
    set id | id in s.changes && IsPending(s, id) && s.changes[id].effectiveAt.Some? && s.changes[id].effectiveAt.value <= now
  }

  /** `ORDER BY c.id`: every change of the same rank. */
  function ById(s: Store): map<nat, int> { map id | id in s.changes :: 0 }

  /** No closed change has outlived its retention. */
  ghost predicate NothingStale(s: Store, now: int) {
    forall id | id in s.changes && s.changes[id].phase != Pending && s.changes[id].closedAt.Some? ::
      s.changes[id].closedAt.value >= now - RETENTION
  }

  /** Every change of the first `i`, and every one in a notice with one of
      them, has been tried. */
  ghost predicate InNotices(found: map<nat, Change>, ids: seq<nat>, i: nat, tried: set<nat>)
    requires i <= |ids| && forall id | id in ids :: id in found
  {
    forall x, y :: 0 <= x < i && 0 <= y < |ids| && (x == y || OneNotice(found[ids[x]], found[ids[y]])) ==> ids[y] in tried
  }

  lemma NextInNotices(found: map<nat, Change>, ids: seq<nat>, i: nat, before: set<nat>, tried: set<nat>, first: bool)
    requires i < |ids| && forall id | id in ids :: id in found
    requires InNotices(found, ids, i, before)
    requires first <==> found[ids[i]].kind != Kind.Unlink || forall x :: 0 <= x < i ==> !OneNotice(found[ids[x]], found[ids[i]])
    requires tried == if first then before + NoticeOf(found, ids, i) else before
    ensures InNotices(found, ids, i + 1, tried)
  {
    forall x, y | 0 <= x < i + 1 && 0 <= y < |ids| && (x == y || OneNotice(found[ids[x]], found[ids[y]])) ensures ids[y] in tried {
      if x == i && !first {
        var z :| 0 <= z < i && OneNotice(found[ids[z]], found[ids[i]]);
        assert OneNotice(found[ids[z]], found[ids[y]]);
      }
    }
  }

  /** The changes told together with the `i`th: a move alone, an unlink with
      every unlink of its chat, wallet and delay. */
  function NoticeOf(found: map<nat, Change>, ids: seq<nat>, i: nat): set<nat>
    requires i < |ids| && forall id | id in ids :: id in found
  {
    var c := found[ids[i]];
    if c.kind != Kind.Unlink then {ids[i]}
    else set y | 0 <= y < |ids| && (y == i || OneNotice(c, found[ids[y]])) :: ids[y]
  }

  /** Every one of `ids` is in an attempt made since `was`. */
  ghost predicate AllTried(was: seq<Attempt>, now: seq<Attempt>, ids: set<nat>, at: int)
    requires was <= now
  {
    forall id | id in ids :: TriedIn(now[|was|..], id, at)
  }

  lemma AllTriedMore(start: seq<Attempt>, had: seq<Attempt>, now: seq<Attempt>, ids: set<nat>, group: set<nat>, at: int)
    requires start <= had && AllTried(start, had, ids, at)
    requires exists told :: OneMore(had, now, group, at, told)
    ensures start <= now && AllTried(start, now, ids + group, at)
  {
    var told :| OneMore(had, now, group, at, told);
    TriedLasts(start, had, now, group, at, told);
    forall id | id in ids + group ensures TriedIn(now[|start|..], id, at) {
      if id !in group { assert TriedIn(had[|start|..], id, at); }
    }
  }

  /** The retry tells these two changes in one notice. */
  predicate OneNotice(c: Change, d: Change) {
    && c.kind == Kind.Unlink && d.kind == Kind.Unlink
    && c.oldChat == d.oldChat && c.key.wallet == d.key.wallet && c.delay == d.delay
  }

  ghost predicate OneMore(was: seq<Attempt>, now: seq<Attempt>, ids: set<nat>, at: int, told: bool) {
    && |now| == |was| + 1 && now[..|was|] == was
    && now[|was|].ids == ids && now[|was|].now == at && now[|was|].told == told && Tried(now[|was|])
  }

  /** One of the attempts named this change, then, with this result. */
  ghost predicate TriedAs(attempts: seq<Attempt>, id: nat, now: int, told: bool) {
    exists j :: 0 <= j < |attempts| && TriesAs(attempts[j], id, now, told)
  }

  ghost predicate TriesAs(a: Attempt, id: nat, now: int, told: bool) {
    id in a.ids && a.now == now && a.told == told && Tried(a)
  }

  ghost predicate TriedIn(attempts: seq<Attempt>, id: nat, now: int) {
    TriedAs(attempts, id, now, true) || TriedAs(attempts, id, now, false)
  }

  lemma TriedLasts(start: seq<Attempt>, had: seq<Attempt>, now: seq<Attempt>, ids: set<nat>, at: int, told: bool)
    requires start <= had && OneMore(had, now, ids, at, told)
    ensures start <= now
    ensures forall id | id in ids :: TriedAs(now[|start|..], id, at, told)
    ensures forall id, t, b | TriedAs(had[|start|..], id, t, b) :: TriedAs(now[|start|..], id, t, b)
  {
    var before, after := had[|start|..], now[|start|..];
    assert now == had + [now[|had|]];
    assert after == before + [now[|had|]];
    forall id | id in ids ensures TriedAs(after, id, at, told) { assert TriesAs(after[|before|], id, at, told); }
    forall id, t, b | TriedAs(before, id, t, b) ensures TriedAs(after, id, t, b) {
      var j :| 0 <= j < |before| && TriesAs(before[j], id, t, b);
      assert TriesAs(after[j], id, t, b);
    }
  }

  /** Row `y` is in the notice of one of the first `i` rows. */
  predicate Grouped(waiting: seq<Linked>, delays: map<int, Option<int>>, i: nat, y: nat)
    requires i <= |waiting| && y < |waiting| && forall k :: 0 <= k < |waiting| ==> Waits(waiting[k], delays)
  {
    exists x :: 0 <= x < i && SameNotice(waiting, delays, x, y)
  }

  function IdsOf(first: nat, group: set<nat>): set<nat> { set j | j in group :: first + j }

  /** One more group tried: its rows now have the result of its notice, and the
      rows tried before keep theirs. */
  lemma GroupTried(start: seq<Attempt>, had: seq<Attempt>, now: seq<Attempt>, first: nat, waiting: seq<Linked>,
                   delays: map<int, Option<int>>, i: nat, group: set<nat>, at: int, before: set<nat>, told: set<nat>, ok: bool)
    requires start <= had && OneMore(had, now, IdsOf(first, group), at, ok)
    requires i < |waiting| && forall k :: 0 <= k < |waiting| ==> Waits(waiting[k], delays)
    requires !Grouped(waiting, delays, i, i)
    requires group == set j: nat | i <= j < |waiting| && SameNotice(waiting, delays, i, j)
    requires told == if ok then before + group else before
    requires forall y | y in before :: y < |waiting| && Grouped(waiting, delays, i, y)
    requires forall y: nat :: y < |waiting| && Grouped(waiting, delays, i, y) ==>
      TriedAs(had[|start|..], first + y, at, y in before)
    ensures forall y: nat :: y < |waiting| && (Grouped(waiting, delays, i, y) || SameNotice(waiting, delays, i, y)) ==>
      TriedAs(now[|start|..], first + y, at, y in told)
  {
    TriedLasts(start, had, now, IdsOf(first, group), at, ok);
    forall y: nat | y < |waiting| && (Grouped(waiting, delays, i, y) || SameNotice(waiting, delays, i, y))
      ensures TriedAs(now[|start|..], first + y, at, y in told)
    {
      GroupsApart(waiting, delays, i, y);
      if SameNotice(waiting, delays, i, y) {
        assert y in group;
        assert first + y in IdsOf(first, group);
      }
    }
  }

  lemma NextGrouped(waiting: seq<Linked>, delays: map<int, Option<int>>, i: nat)
    requires i < |waiting| && forall k :: 0 <= k < |waiting| ==> Waits(waiting[k], delays)
    ensures forall y: nat :: y < |waiting| ==>
      (Grouped(waiting, delays, i + 1, y) <==> Grouped(waiting, delays, i, y) || SameNotice(waiting, delays, i, y))
    ensures Grouped(waiting, delays, i, i) ==>
      forall y: nat :: y < |waiting| && SameNotice(waiting, delays, i, y) ==> Grouped(waiting, delays, i, y)
  {
    if Grouped(waiting, delays, i, i) {
      var x :| 0 <= x < i && SameNotice(waiting, delays, x, i);
      assert forall y: nat :: y < |waiting| && SameNotice(waiting, delays, i, y) ==> SameNotice(waiting, delays, x, y);
    }
  }

  /** A row of a new group is in no earlier one, and not before its first row. */
  lemma GroupsApart(waiting: seq<Linked>, delays: map<int, Option<int>>, i: nat, y: nat)
    requires i < |waiting| && y < |waiting| && forall k :: 0 <= k < |waiting| ==> Waits(waiting[k], delays)
    requires !Grouped(waiting, delays, i, i)
    ensures SameNotice(waiting, delays, i, y) ==> i <= y && !Grouped(waiting, delays, i, y)
  {
    if SameNotice(waiting, delays, i, y) {
      assert forall x :: 0 <= x < i && SameNotice(waiting, delays, x, y) ==> SameNotice(waiting, delays, x, i);
      assert y < i ==> SameNotice(waiting, delays, y, i);
    }
  }

  /** Why an attempt wrote nothing: one answer missing, or one failed guard. */
  predicate Because(v: Verdict, unread: nat, unread': nat, moves: nat, moves': nat) {
    && unread' == (if v == Refused then unread + 1 else unread)
    && moves' == (if v == Retry then moves + 1 else moves)
  }

  /** `id` is a pending change of a row linked to `chat`. */
  predicate RemovalOf(s: Store, id: nat, chat: Chat) {
    id in s.changes && IsPending(s, id) && ChatOf(s, s.changes[id].key) == Some(chat)
  }

  function RemovalsOf(s: Store, chat: Chat): set<nat> { set id | id in s.changes && RemovalOf(s, id, chat) }

  ghost predicate RemovalsClosed(s: Store, t: Store, chat: Chat, now: int) {
    && t.rows == s.rows && t.changes.Keys == s.changes.Keys
    && (forall id | id in s.changes :: t.changes[id] ==
          (if RemovalOf(s, id, chat) then Closed(s.changes[id], Cancelled, now) else s.changes[id]))
  }

  /** The row has the new chat, nothing pending, and no other row changed. */
  ghost predicate LinkDecided(d: Decision, k: Key, chat: Chat) {
    && ChatOf(d.after, k) == Some(chat) && OthersKept(d.before, d.after, k)
    && (forall id: nat :: !PendingAt(d.after, id, k))
  }

  /** No row changed; the row has one pending change, away from its own chat. */
  ghost predicate MoveDecided(d: Decision, k: Key, chat: Chat) {
    && d.after.rows == d.before.rows
    && (forall id: nat :: PendingAt(d.after, id, k) <==> id == d.before.nextId)
    && d.before.nextId in d.after.changes && d.after.changes[d.before.nextId].kind == Replace(chat)
    && ChatOf(d.before, k) == Some(d.after.changes[d.before.nextId].oldChat) && ChatOf(d.before, k) != Some(chat)
  }

  /** Exactly one more decision has been committed. */
  ghost predicate Extends(was: seq<Decision>, now: seq<Decision>) {
    |now| == |was| + 1 && now[..|was|] == was
  }

  ghost predicate UnlinkDecided(d: Decision, w: string, scope: Option<int>, rows: seq<Linked>,
                                delays: map<int, Option<int>>, now: int)
  {
    && Readable(rows, scope) && RowsAre(d.before, w, scope, rows)
    && (forall r | r in rows :: r.chain in delays)
    && Tracks(d.before) && Unlinked(d.before, d.after, w, scope, rows, delays, now)
  }

  /** The reply: every waiting row, with a time exactly when the chat accepted
      the notice this request sent it. */
  ghost predicate Reported(log: seq<Event>, tried: seq<Attempt>, sender: bool, first: nat, waiting: seq<Linked>,
                           delays: map<int, Option<int>>, now: int, pending: seq<Report>)
  {
    && |pending| == |waiting|
    && forall i :: 0 <= i < |waiting| ==> ReportedRow(log, tried, sender, first + i, waiting[i], delays, now, pending[i])
  }

  ghost predicate ReportedRow(log: seq<Event>, tried: seq<Attempt>, sender: bool, id: nat, r: Linked,
                              delays: map<int, Option<int>>, now: int, report: Report)
  {
    && Waits(r, delays) && report.chain == r.chain
    && (if sender then TriedAs(tried, id, now, report.effective.Some?) else report.effective.None?)
    && (report.effective.Some? ==>
          report.effective == Some(now + delays[r.chain].value) && ToldOf(log, r.chat, id, now))
  }

  predicate NamesUnlinks(found: map<nat, Change>, first: nat, waiting: seq<Linked>, delays: map<int, Option<int>>) {
    forall i :: 0 <= i < |waiting| ==>
      Waits(waiting[i], delays) && Names(found, first + i, waiting[i].chat, delays[waiting[i].chain].value)
  }

  predicate SameNotice(waiting: seq<Linked>, delays: map<int, Option<int>>, i: nat, j: nat)
    requires i < |waiting| && j < |waiting|
    requires Waits(waiting[i], delays) && Waits(waiting[j], delays)
  {
    waiting[i].chat == waiting[j].chat && delays[waiting[i].chain] == delays[waiting[j].chain]
  }

  function EndOf(r: Linked, delays: map<int, Option<int>>, now: int): Option<int> {
    if Waits(r, delays) then Some(now + delays[r.chain].value) else None
  }

  function Replies(waiting: seq<Linked>, delays: map<int, Option<int>>, told: set<nat>, now: int): seq<Report> {
    seq(|waiting|, i requires 0 <= i < |waiting| =>
      Report(waiting[i].chain, if i in told then EndOf(waiting[i], delays, now) else None))
  }

  lemma UnlinkedNames(s: Store, t: Store, w: string, scope: Option<int>, rows: seq<Linked>,
                      delays: map<int, Option<int>>, now: int)
    requires Unlinked(s, t, w, scope, rows, delays, now)
    ensures NamesUnlinks(Inserted(s, t), s.nextId, Pick(rows, delays, true), delays)
  {
    var waiting := Pick(rows, delays, true);
    forall i | 0 <= i < |waiting|
      ensures Waits(waiting[i], delays)
      ensures Names(Inserted(s, t), s.nextId + i, waiting[i].chat, delays[waiting[i].chain].value)
    {
      assert FreshUnlink(t, s.nextId + i, w, waiting[i], delays, now);
    }
  }

  lemma RepliesReport(log: seq<Event>, tried: seq<Attempt>, sender: bool, first: nat, waiting: seq<Linked>,
                      delays: map<int, Option<int>>, told: set<nat>, now: int)
    requires forall i :: 0 <= i < |waiting| ==> Waits(waiting[i], delays)
    requires forall i | i in told :: i < |waiting| && ToldOf(log, waiting[i].chat, first + i, now)
    requires if sender then forall i: nat :: i < |waiting| ==> TriedAs(tried, first + i, now, i in told) else told == {}
    ensures Reported(log, tried, sender, first, waiting, delays, now, Replies(waiting, delays, told, now))
  {
    var pending := Replies(waiting, delays, told, now);
    forall i: nat | i < |waiting|
      ensures ReportedRow(log, tried, sender, first + i, waiting[i], delays, now, pending[i])
    {
      assert Waits(waiting[i], delays);
    }
  }

  lemma ToldSetLasts(log: seq<Event>, later: seq<Event>, waiting: seq<Linked>, first: nat, told: set<nat>, now: int)
    requires log <= later
    requires forall i | i in told :: i < |waiting| && ToldOf(log, waiting[i].chat, first + i, now)
    ensures forall i | i in told :: ToldOf(later, waiting[i].chat, first + i, now)
  {
    forall i | i in told ensures ToldOf(later, waiting[i].chat, first + i, now) {
      var j :| 0 <= j < |log| && TellsAt(log[j], waiting[i].chat, first + i, now);
      assert TellsAt(later[j], waiting[i].chat, first + i, now);
    }
  }

  lemma ObservedIsTheChatIf(s: Store, k: Key, observed: seq<Linked>)
    requires Readable(observed, Some(k.chain)) && observed != []
    ensures GuardPasses(s, k.wallet, Some(k.chain), observed) ==> ChatOf(s, k) == Some(observed[0].chat)
  {
    GuardIsExact(s, k.wallet, Some(k.chain), observed);
    if RowsAre(s, k.wallet, Some(k.chain), observed) { ObservedIsTheChat(s, k, observed); }
  }

  /** Behind the guard the condition on the link write always holds. */
  lemma ObservedWrites(s: Store, k: Key, observed: seq<Linked>, chat: Chat)
    requires Readable(observed, Some(k.chain))
    ensures GuardPasses(s, k.wallet, Some(k.chain), observed) ==>
      LinkWrites(s, k, chat, if observed == [] then None else Some(observed[0].chat))
  {
    GuardIsExact(s, k.wallet, Some(k.chain), observed);
    if RowsAre(s, k.wallet, Some(k.chain), observed) { ObservedIsTheChat(s, k, observed); }
  }

  lemma AnswerLasts(log: seq<Event>, later: seq<Event>, at: nat, p: nat, w: string, chain: int, wait: Option<int>)
    requires log <= later && AnsweredAfter(log, at, p, w, chain, wait)
    ensures AnsweredAfter(later, at, p, w, chain, wait)
  {
    var j :| at < j < |log| && log[j] == Answered(p, w, chain, wait);
    assert later[j] == log[j];
  }

  lemma DelaysLast(log: seq<Event>, later: seq<Event>, at: nat, p: nat, w: string, rows: seq<Linked>,
                   delays: map<int, Option<int>>)
    requires DelaysRead(log, at, p, w, rows, delays) && log <= later
    ensures DelaysRead(later, at, p, w, rows, delays)
  {
    forall i | 0 <= i < |rows| ensures AnsweredAfter(later, at, p, w, rows[i].chain, delays[rows[i].chain]) {
      var j :| at < j < |log| && log[j] == Answered(p, w, rows[i].chain, delays[rows[i].chain]);
      assert later[j] == log[j];
    }
  }

  predicate Committed(s: State, a: Action)
    requires a.Unlink? || a.Link? || a.Move?
    requires a.at < |s.log| && s.log[a.at].Looked?
  {
    match a
    case Unlink(at, _, _) => GuardPasses(s.store, s.log[at].w, s.log[at].scope, s.log[at].rows)
    case Link(at, k, _, _) => GuardPasses(s.store, k.wallet, Some(k.chain), s.log[at].rows)
    case Move(at, k, _, _, _) => GuardPasses(s.store, k.wallet, Some(k.chain), s.log[at].rows)
  }

  method RowsOf(s: Store, w: string, scope: Option<int>) returns (rows: seq<Linked>)
    ensures Readable(rows, scope) && RowsAre(s, w, scope, rows)
  {
    rows := [];
    var left := LinkedKeys(s, w, scope);
    while left != {}
      invariant left <= LinkedKeys(s, w, scope)
      invariant Readable(rows, scope)
      invariant forall i :: 0 <= i < |rows| ==>
        Key(w, rows[i].chain) !in left && ChatOf(s, Key(w, rows[i].chain)) == Some(rows[i].chat)
      invariant forall k :: k in LinkedKeys(s, w, scope) && k !in left ==> Linked(k.chain, s.rows[k].value) in rows
    {
      var k :| k in left;
      var r := Linked(k.chain, s.rows[k].value);
      assert Key(w, k.chain) == k;
      rows := rows + [r];
      left := left - {k};
    }
    forall c, a | InScope(c, scope) ensures ChatOf(s, Key(w, c)) == Some(a) <==> Linked(c, a) in rows {
      if ChatOf(s, Key(w, c)) == Some(a) { assert Key(w, c) in LinkedKeys(s, w, scope); }
    }
  }
}
