/** The alert-chat protocol as a state machine: any number of requests, CANCELs
    and ticks, each a process whose every statement or batch is one atomic step,
    with any step of any other process in between. The log records what each
    process has read and what each chat has accepted; it is the only thing a
    process may act on besides the tables. */
module AlertProtocol {
  import opened Wrappers
  import opened AlertStore
  import opened AlertWrites

  /** What the chain said of an account. */
  datatype Protection = Protection(enabled: bool, delaySeconds: int)

  const MAX_DELAY := 5 * 24 * 60 * 60

  /** The wait of a row: `None` when its account is not protected, and else the
      value from 0 to `MAX_DELAY` that is nearest to what the chain says. */
  function WaitOf(a: Protection): (r: Option<int>)
    ensures r == None <==> !a.enabled
    ensures r.Some? ==> 0 <= r.value <= MAX_DELAY
    ensures r.Some? ==> (r.value < a.delaySeconds ==> r.value == MAX_DELAY) && (a.delaySeconds < r.value ==> r.value == 0)
  {
    if !a.enabled then None
    else if a.delaySeconds <= 0 then Some(0)
    else if a.delaySeconds >= MAX_DELAY then Some(MAX_DELAY)
    else Some(a.delaySeconds)
  }

  /** `Told`: the chat accepted the notice about `ids`, which says the wait ends
      at `now + delay`. */
  datatype Event =
    | Looked(p: nat, w: string, scope: Option<int>, rows: seq<Linked>)
    | Answered(p: nat, w: string, chain: int, wait: Option<int>)
    | Listed(p: nat, found: map<nat, Change>)
    | Told(p: nat, chat: Chat, ids: set<nat>, now: int, delay: int)

  datatype State = State(store: Store, log: seq<Event>)

  /** One atomic step. `at` is the log entry the process acts on. */
  datatype Action =
    | Look(w: string, scope: Option<int>, rows: seq<Linked>)
    | Ask(w: string, chain: int, answer: Protection)
    | Unlink(at: nat, delays: map<int, Option<int>>, now: int)
    | Link(at: nat, k: Key, chat: Chat, now: int)
    | Move(at: nat, k: Key, chat: Chat, delay: int, now: int)
    | Read(found: map<nat, Change>)
    | Send(at: nat, chat: Chat, ids: set<nat>, now: int, delay: int)
    | Mark(at: nat)
    | MarkRefused(at: nat, ids: set<nat>, now: int)
    | ApplyDue(at: nat, id: nat, now: int)
    | Cancel(chat: Chat, now: int)
    | Sweep(now: int)
    | Save(k: Key)

  /** The chain answered `wait` for this row after the rows were read. */
  predicate AnsweredAfter(log: seq<Event>, at: nat, p: nat, w: string, chain: int, wait: Option<int>) {
    exists j :: at < j < |log| && log[j] == Answered(p, w, chain, wait)
  }

  predicate LookedAt(log: seq<Event>, at: nat, p: nat) {
    at < |log| && log[at].Looked? && log[at].p == p
  }

  predicate ListedAt(log: seq<Event>, at: nat, p: nat) {
    at < |log| && log[at].Listed? && log[at].p == p
  }

  predicate DelaysRead(log: seq<Event>, at: nat, p: nat, w: string, rows: seq<Linked>, delays: map<int, Option<int>>) {
    forall i :: 0 <= i < |rows| ==>
      rows[i].chain in delays && AnsweredAfter(log, at, p, w, rows[i].chain, delays[rows[i].chain])
  }

  predicate Names(found: map<nat, Change>, id: nat, chat: Chat, delay: int) {
    id in found && found[id].oldChat == chat && found[id].delay == delay
  }

  function DueOf(id: nat, c: Change): Due { Due(id, c.key, c.kind, c.oldChat) }

  /** What the code lets process `p` do next. */
  predicate Enabled(s: State, p: nat, a: Action) {
    match a
    case Look(w, scope, rows) => Readable(rows, scope) && GuardPasses(s.store, w, scope, rows)
    case Ask(w, chain, answer) => true
    case Unlink(at, delays, now) =>
      LookedAt(s.log, at, p) && DelaysRead(s.log, at, p, s.log[at].w, s.log[at].rows, delays)
    case Link(at, k, chat, now) =>
      && LookedAt(s.log, at, p) && s.log[at].w == k.wallet && s.log[at].scope == Some(k.chain)
      && (s.log[at].rows == [] || s.log[at].rows[0].chat == chat
          || AnsweredAfter(s.log, at, p, k.wallet, k.chain, None))
    case Move(at, k, chat, delay, now) =>
      && LookedAt(s.log, at, p) && s.log[at].w == k.wallet && s.log[at].scope == Some(k.chain)
      && s.log[at].rows != [] && s.log[at].rows[0].chat != chat
      && AnsweredAfter(s.log, at, p, k.wallet, k.chain, Some(delay))
    case Read(found) => forall id | id in found :: IsPending(s.store, id) && s.store.changes[id] == found[id]
    case Send(at, chat, ids, now, delay) =>
      ListedAt(s.log, at, p) && forall id | id in ids :: Names(s.log[at].found, id, chat, delay)
    case Mark(at) => at < |s.log| && s.log[at].Told? && s.log[at].p == p
    case MarkRefused(at, ids, now) => ListedAt(s.log, at, p) && forall id | id in ids :: id in s.log[at].found
    case ApplyDue(at, id, now) =>
      && ListedAt(s.log, at, p) && id in s.log[at].found
      && s.log[at].found[id].effectiveAt.Some? && s.log[at].found[id].effectiveAt.value <= now
    case Cancel(chat, now) => true
    case Sweep(now) => true
    case Save(k) => true
  }

  /** The pending changes a committed batch inserted, as its replies name them. */
  function Inserted(s: Store, t: Store): map<nat, Change> {
    map id | id in t.changes && id >= s.nextId :: t.changes[id]
  }

  function Commit(s: State, p: nat, t: Option<Store>): State {
    if t.None? then s else State(t.value, s.log + [Listed(p, Inserted(s.store, t.value))])
  }

  function Step(s: State, p: nat, a: Action): State
    requires Enabled(s, p, a)
  {
    match a
    case Look(w, scope, rows) => s.(log := s.log + [Looked(p, w, scope, rows)])
    case Ask(w, chain, answer) => s.(log := s.log + [Answered(p, w, chain, WaitOf(answer))])
    case Unlink(at, delays, now) =>
      var o := s.log[at];
      Commit(s, p, UnlinkBatch(s.store, o.w, o.scope, o.rows, delays, now))
    case Link(at, k, chat, now) => Commit(s, p, LinkBatch(s.store, k, s.log[at].rows, chat, now))
    case Move(at, k, chat, delay, now) =>
      Commit(s, p, MoveBatch(s.store, k, s.log[at].rows, s.log[at].rows[0].chat, chat, delay, now))
    case Read(found) => s.(log := s.log + [Listed(p, found)])
    case Send(at, chat, ids, now, delay) => s.(log := s.log + [Told(p, chat, ids, now, delay)])
    case Mark(at) => s.(store := MarkNotified(s.store, s.log[at].ids, s.log[at].now))
    case MarkRefused(at, ids, now) => s.(store := MarkAttempt(s.store, ids, now))
    case ApplyDue(at, id, now) =>
      var t := ApplyBatch(s.store, DueOf(id, s.log[at].found[id]), now);
      if t.Some? then s.(store := t.value) else s
    case Cancel(chat, now) => s.(store := CancelFor(s.store, chat, now))
    case Sweep(now) => s.(store := Prune(s.store, now))
    case Save(k) => s.(store := SaveSettings(s.store, k, None))
  }

  // ---------------------------------------------------------- invariant

  /** `a` accepted a notice naming change `id` at time `at`. */
  ghost predicate ToldOf(log: seq<Event>, chat: Chat, id: nat, at: int) {
    exists j :: 0 <= j < |log| && TellsAt(log[j], chat, id, at)
  }

  predicate TellsAt(e: Event, chat: Chat, id: nat, at: int) {
    e.Told? && e.chat == chat && e.now == at && id in e.ids
  }

  /** A wait that has started was started by a notice the old chat accepted. */
  ghost predicate ToldFirst(log: seq<Event>, id: nat, c: Change) {
    && (c.notifiedAt.Some? ==> ToldOf(log, c.oldChat, id, c.notifiedAt.value))
    && Timed(c)
    && 0 <= c.delay <= MAX_DELAY
  }

  /** What was once listed is still true of the change, unless it is pruned. */
  ghost predicate Lasting(s: Store, id: nat, c: Change) {
    && id < s.nextId
    && (id in s.changes ==> SameRequest(s.changes[id], c))
  }

  predicate SameRequest(c: Change, d: Change) {
    && c.key == d.key && c.kind == d.kind && c.oldChat == d.oldChat && c.delay == d.delay
    && (d.notifiedAt.Some? ==> c.notifiedAt == d.notifiedAt)
  }

  ghost predicate GoodEvent(s: Store, log: seq<Event>, e: Event) {
    match e
    case Looked(p, w, scope, rows) => Readable(rows, scope)
    case Answered(p, w, chain, wait) => wait.Some? ==> 0 <= wait.value <= MAX_DELAY
    case Listed(p, found) => forall id | id in found :: Lasting(s, id, found[id]) && ToldFirst(log, id, found[id])
    case Told(p, chat, ids, now, delay) => forall id | id in ids ::
      id < s.nextId && (id in s.changes ==> s.changes[id].oldChat == chat && s.changes[id].delay == delay)
  }

  ghost predicate Inv(s: State) {
    && Tracks(s.store)
    && (forall id | id in s.store.changes :: ToldFirst(s.log, id, s.store.changes[id]))
    && (forall i :: 0 <= i < |s.log| ==> GoodEvent(s.store, s.log, s.log[i]))
  }

  /** Why a chat may leave a row in this step. */
  ghost predicate Justified(s: State, p: nat, a: Action, k: Key, chat: Chat) {
    match a
    case Unlink(at, delays, now) => OpenWhenRead(s.log, at, p, k, chat)
    case Link(at, key, to, now) => k == key && OpenWhenRead(s.log, at, p, k, chat)
    case ApplyDue(at, id, now) => WaitedOut(s.log, at, p, id, now, k, chat)
    case _ => false
  }

  /** The process's own read saw `chat` linked there, and after that read the
      chain told the process that the account is not protected. */
  ghost predicate OpenWhenRead(log: seq<Event>, at: nat, p: nat, k: Key, chat: Chat) {
    && LookedAt(log, at, p)
    && log[at].w == k.wallet && Linked(k.chain, chat) in log[at].rows
    && AnsweredAfter(log, at, p, k.wallet, k.chain, None)
  }

  /** The applied change is about this chat, which accepted a notice naming it
      at least the change's delay before now. */
  ghost predicate WaitedOut(log: seq<Event>, at: nat, p: nat, id: nat, now: int, k: Key, chat: Chat) {
    && ListedAt(log, at, p) && id in log[at].found
    && log[at].found[id].key == k && log[at].found[id].oldChat == chat
    && exists t :: ToldOf(log, chat, id, t) && t + log[at].found[id].delay <= now
  }

  // --------------------------------------------------------- every step

  lemma ToldLasts(log: seq<Event>, more: seq<Event>, id: nat, c: Change)
    requires ToldFirst(log, id, c)
    ensures ToldFirst(log + more, id, c)
  {
    if c.notifiedAt.Some? {
      var j :| 0 <= j < |log| && TellsAt(log[j], c.oldChat, id, c.notifiedAt.value);
      assert TellsAt((log + more)[j], c.oldChat, id, c.notifiedAt.value);
    }
  }

  lemma EventLasts(s: Store, t: Store, log: seq<Event>, more: seq<Event>, e: Event)
    requires GoodEvent(s, log, e) && Steady(s, t)
    ensures GoodEvent(t, log + more, e)
  {
    if e.Listed? {
      forall id | id in e.found ensures Lasting(t, id, e.found[id]) && ToldFirst(log + more, id, e.found[id]) {
        assert Lasting(s, id, e.found[id]) && ToldFirst(log, id, e.found[id]);
        ToldLasts(log, more, id, e.found[id]);
      }
    }
  }

  ghost predicate DelaysInRange(s: Store, t: Store) {
    forall id | id in t.changes && id !in s.changes :: 0 <= t.changes[id].delay <= MAX_DELAY
  }

  lemma SteadyKeepsInv(s: State, t: Store)
    requires Inv(s) && Tracks(t) && Steady(s.store, t) && DelaysInRange(s.store, t)
    ensures Inv(State(t, s.log))
  {
    assert s.log + [] == s.log;
    forall i | 0 <= i < |s.log| ensures GoodEvent(t, s.log, s.log[i]) { EventLasts(s.store, t, s.log, [], s.log[i]); }
  }

  lemma LogKeepsInv(s: State, e: Event)
    requires Inv(s) && GoodEvent(s.store, s.log + [e], e)
    ensures Inv(s.(log := s.log + [e]))
  {
    var log := s.log + [e];
    forall i | 0 <= i < |log| ensures GoodEvent(s.store, log, log[i]) {
      if i < |s.log| { EventLasts(s.store, s.store, s.log, [e], s.log[i]); }
    }
    forall id | id in s.store.changes ensures ToldFirst(log, id, s.store.changes[id]) {
      ToldLasts(s.log, [e], id, s.store.changes[id]);
    }
  }

  lemma CommitKeepsInv(s: State, p: nat, t: Store)
    requires Inv(s) && Tracks(t) && Steady(s.store, t) && DelaysInRange(s.store, t)
    ensures Inv(Commit(s, p, Some(t)))
  {
    SteadyKeepsInv(s, t);
    var e := Listed(p, Inserted(s.store, t));
    forall id | id in e.found ensures Lasting(t, id, e.found[id]) && ToldFirst(s.log + [e], id, e.found[id]) {
      ToldLasts(s.log, [e], id, t.changes[id]);
    }
    LogKeepsInv(State(t, s.log), e);
  }

  ghost predicate Removals(s: State, t: State, p: nat, a: Action) {
    forall k, chat :: ChatOf(s.store, k) == Some(chat) && ChatOf(t.store, k) != Some(chat) ==> Justified(s, p, a, k, chat)
  }

  lemma UnlinkStep(s: State, p: nat, a: Action)
    requires Inv(s) && a.Unlink? && Enabled(s, p, a)
    ensures Inv(Step(s, p, a)) && Removals(s, Step(s, p, a), p, a)
  {
    var o := s.log[a.at];
    assert GoodEvent(s.store, s.log, o);
    UnlinkLeaves(s.store, o.w, o.scope, o.rows, a.delays, a.now);
    var r := UnlinkBatch(s.store, o.w, o.scope, o.rows, a.delays, a.now);
    if r.Some? {
      var t := r.value;
      UnlinkKeepsTracks(s.store, t, o.w, o.scope, o.rows, a.delays, a.now);
      UnlinkIsSteady(s.store, t, o.w, o.scope, o.rows, a.delays, a.now);
      UnlinkDelays(s, p, a, t);
      CommitKeepsInv(s, p, t);
      forall k, chat | ChatOf(s.store, k) == Some(chat) && ChatOf(t, k) != Some(chat)
        ensures OpenWhenRead(s.log, a.at, p, k, chat)
      {
        ClearedWasOpen(s, p, a, t, k, chat);
      }
    }
  }

  lemma UnlinkDelays(s: State, p: nat, a: Action, t: Store)
    requires Inv(s) && a.Unlink? && Enabled(s, p, a)
    requires Unlinked(s.store, t, s.log[a.at].w, s.log[a.at].scope, s.log[a.at].rows, a.delays, a.now)
    ensures DelaysInRange(s.store, t)
  {
    var o := s.log[a.at];
    var waiting := Pick(o.rows, a.delays, true);
    PickIsExact(o.rows, a.delays, true);
    forall id | id in t.changes && id !in s.store.changes ensures 0 <= t.changes[id].delay <= MAX_DELAY {
      var r := waiting[id - s.store.nextId];
      assert FreshUnlink(t, s.store.nextId + (id - s.store.nextId), o.w, r, a.delays, a.now);
      assert r in waiting;
      DelayInRange(s, p, a.at, a.delays, r);
    }
  }

  lemma DelayInRange(s: State, p: nat, at: nat, delays: map<int, Option<int>>, r: Linked)
    requires Inv(s) && LookedAt(s.log, at, p) && DelaysRead(s.log, at, p, s.log[at].w, s.log[at].rows, delays)
    requires r in s.log[at].rows
    ensures r.chain in delays && AnsweredAfter(s.log, at, p, s.log[at].w, r.chain, delays[r.chain])
    ensures delays[r.chain].Some? ==> 0 <= delays[r.chain].value <= MAX_DELAY
  {
    var i :| 0 <= i < |s.log[at].rows| && s.log[at].rows[i] == r;
    var j :| at < j < |s.log| && s.log[j] == Answered(p, s.log[at].w, r.chain, delays[r.chain]);
    assert GoodEvent(s.store, s.log, s.log[j]);
  }

  lemma PickedRow(w: string, rows: seq<Linked>, delays: map<int, Option<int>>, r: Linked)
    requires r in rows
    ensures Waits(r, delays) ==> Key(w, r.chain) in KeysOf(w, Pick(rows, delays, true))
  {
    PickIsExact(rows, delays, true);
  }

  lemma ClearedWasOpen(s: State, p: nat, a: Action, t: Store, k: Key, chat: Chat)
    requires Inv(s) && a.Unlink? && Enabled(s, p, a)
    requires RowsAre(s.store, s.log[a.at].w, s.log[a.at].scope, s.log[a.at].rows)
    requires Unlinked(s.store, t, s.log[a.at].w, s.log[a.at].scope, s.log[a.at].rows, a.delays, a.now)
    requires ChatOf(s.store, k) == Some(chat) && ChatOf(t, k) != Some(chat)
    ensures OpenWhenRead(s.log, a.at, p, k, chat)
  {
    var o := s.log[a.at];
    assert ScopeCleared(s.store, t, o.w, o.scope, KeysOf(o.w, Pick(o.rows, a.delays, true)));
    assert k == Key(o.w, k.chain);
    var r := Linked(k.chain, chat);
    assert r in o.rows;
    DelayInRange(s, p, a.at, a.delays, r);
    PickedRow(o.w, o.rows, a.delays, r);
  }

  lemma LinkStep(s: State, p: nat, a: Action)
    requires Inv(s) && a.Link? && Enabled(s, p, a)
    ensures Inv(Step(s, p, a)) && Removals(s, Step(s, p, a), p, a)
  {
    var o := s.log[a.at];
    assert GoodEvent(s.store, s.log, o);
    LinkLeaves(s.store, a.k, o.rows, a.chat, a.now);
    var r := LinkBatch(s.store, a.k, o.rows, a.chat, a.now);
    if r.Some? {
      CommitKeepsInv(s, p, r.value);
      ObservedIsTheChat(s.store, a.k, o.rows);
    }
  }

  lemma MoveStep(s: State, p: nat, a: Action)
    requires Inv(s) && a.Move? && Enabled(s, p, a)
    ensures Inv(Step(s, p, a)) && Removals(s, Step(s, p, a), p, a)
  {
    var o := s.log[a.at];
    assert GoodEvent(s.store, s.log, o);
    MoveLeaves(s.store, a.k, o.rows, a.chat, a.delay, a.now);
    var r := MoveBatch(s.store, a.k, o.rows, o.rows[0].chat, a.chat, a.delay, a.now);
    if r.Some? {
      var j :| a.at < j < |s.log| && s.log[j] == Answered(p, a.k.wallet, a.k.chain, Some(a.delay));
      assert GoodEvent(s.store, s.log, s.log[j]);
      CommitKeepsInv(s, p, r.value);
    }
  }

  lemma ApplyStep(s: State, p: nat, a: Action)
    requires Inv(s) && a.ApplyDue? && Enabled(s, p, a)
    ensures Inv(Step(s, p, a)) && Removals(s, Step(s, p, a), p, a)
  {
    var c := s.log[a.at].found[a.id];
    assert GoodEvent(s.store, s.log, s.log[a.at]);
    assert Lasting(s.store, a.id, c) && ToldFirst(s.log, a.id, c);
    var d := DueOf(a.id, c);
    ApplyLeaves(s.store, d, a.now);
    var r := ApplyBatch(s.store, d, a.now);
    if r.Some? {
      SteadyKeepsInv(s, r.value);
      assert ToldOf(s.log, c.oldChat, a.id, c.notifiedAt.value) && c.notifiedAt.value + c.delay <= a.now;
    }
  }

  lemma MarkStep(s: State, p: nat, a: Action)
    requires Inv(s) && a.Mark? && Enabled(s, p, a)
    ensures Inv(Step(s, p, a)) && Removals(s, Step(s, p, a), p, a)
  {
    var o := s.log[a.at];
    var t := MarkNotified(s.store, o.ids, o.now);
    NoticeKeepsTracks(s.store, o.ids, o.now);
    assert GoodEvent(s.store, s.log, o);
    forall id | id in t.changes ensures ToldFirst(s.log, id, t.changes[id]) {
      assert ToldFirst(s.log, id, s.store.changes[id]);
      if t.changes[id] != s.store.changes[id] { assert TellsAt(o, t.changes[id].oldChat, id, o.now); }
    }
    forall i | 0 <= i < |s.log| ensures GoodEvent(t, s.log, s.log[i]) {
      MarkKeepsEvent(s, o.ids, o.now, s.log[i]);
    }
  }

  lemma MarkKeepsEvent(s: State, ids: set<nat>, now: int, e: Event)
    requires GoodEvent(s.store, s.log, e)
    ensures GoodEvent(MarkNotified(s.store, ids, now), s.log, e)
  {
    if e.Listed? {
      var t := MarkNotified(s.store, ids, now);
      forall id | id in e.found ensures Lasting(t, id, e.found[id]) && ToldFirst(s.log, id, e.found[id]) {
        assert Lasting(s.store, id, e.found[id]) && ToldFirst(s.log, id, e.found[id]);
      }
    }
  }

  lemma ReadStep(s: State, p: nat, a: Action)
    requires Inv(s) && (a.Look? || a.Ask? || a.Read? || a.Send?) && Enabled(s, p, a)
    ensures Inv(Step(s, p, a)) && Removals(s, Step(s, p, a), p, a)
  {
    var e := Step(s, p, a).log[|s.log|];
    assert Step(s, p, a) == s.(log := s.log + [e]);
    if a.Read? {
      forall id | id in a.found ensures Lasting(s.store, id, a.found[id]) && ToldFirst(s.log + [e], id, a.found[id]) {
        ToldLasts(s.log, [e], id, s.store.changes[id]);
      }
    } else if a.Send? {
      assert GoodEvent(s.store, s.log, s.log[a.at]);
      forall id | id in a.ids
        ensures id < s.store.nextId
        ensures id in s.store.changes ==> s.store.changes[id].oldChat == a.chat && s.store.changes[id].delay == a.delay
      {
        assert Names(s.log[a.at].found, id, a.chat, a.delay);
        assert Lasting(s.store, id, s.log[a.at].found[id]);
      }
    }
    LogKeepsInv(s, e);
  }

  /** Every step of every process keeps the invariant, and removes a chat only
      in one of the two ways. */
  lemma EveryStep(s: State, p: nat, a: Action)
    requires Inv(s) && Enabled(s, p, a)
    ensures Inv(Step(s, p, a)) && Removals(s, Step(s, p, a), p, a)
  {
    match a
    case Unlink(_, _, _) => UnlinkStep(s, p, a);
    case Link(_, _, _, _) => LinkStep(s, p, a);
    case Move(_, _, _, _, _) => MoveStep(s, p, a);
    case ApplyDue(_, _, _) => ApplyStep(s, p, a);
    case Mark(_) => MarkStep(s, p, a);
    case MarkRefused(_, ids, now) =>
      RefusalKeepsTracks(s.store, ids, now);
      SteadyKeepsInv(s, MarkAttempt(s.store, ids, now));
    case Cancel(chat, now) =>
      CancelLeaves(s.store, chat, now);
      SteadyKeepsInv(s, CancelFor(s.store, chat, now));
    case Sweep(now) =>
      SweepKeepsTracks(s.store, now);
      SteadyKeepsInv(s, Prune(s.store, now));
    case Save(k) =>
      SaveLeaves(s.store, k, None);
      SteadyKeepsInv(s, SaveSettings(s.store, k, None));
    case _ => ReadStep(s, p, a);
  }

  // --------------------------------------------------------- every run

  /** A run: each entry is a process and the step it takes; one the code would
      not take then is skipped. */
  function Run(s: State, steps: seq<(nat, Action)>): State
    decreases |steps|
  {
    if steps == [] then s
    else
      var s1 := Run(s, steps[..|steps| - 1]);
      var (p, a) := steps[|steps| - 1];
      if Enabled(s1, p, a) then Step(s1, p, a) else s1
  }

  /** Any linked chats, nothing pending and nothing in flight. */
  ghost predicate Start(s: State) { s.store.changes == map[] && s.log == [] }

  lemma {:induction false} EveryRun(s: State, steps: seq<(nat, Action)>)
    requires Start(s) || Inv(s)
    ensures Inv(Run(s, steps))
    decreases |steps|
  {
    if steps != [] {
      var init := steps[..|steps| - 1];
      EveryRun(s, init);
      var s1 := Run(s, init);
      var (p, a) := steps[|steps| - 1];
      if Enabled(s1, p, a) { EveryStep(s1, p, a); }
    }
  }

  /** No silent removal: in every run from any linked rows, whatever step `n`
      is, a chat leaves its row in that step only for one of the two reasons. */
  lemma NoSilentRemoval(s: State, steps: seq<(nat, Action)>, n: nat, k: Key, chat: Chat)
    requires Start(s) && n < |steps|
    requires ChatOf(Run(s, steps[..n]).store, k) == Some(chat)
    requires ChatOf(Run(s, steps[..n + 1]).store, k) != Some(chat)
    ensures Enabled(Run(s, steps[..n]), steps[n].0, steps[n].1)
    ensures Justified(Run(s, steps[..n]), steps[n].0, steps[n].1, k, chat)
  {
    EveryRun(s, steps[..n]);
    assert steps[..n + 1][..n] == steps[..n];
    var s1 := Run(s, steps[..n]);
    if Enabled(s1, steps[n].0, steps[n].1) { EveryStep(s1, steps[n].0, steps[n].1); }
  }

  lemma {:induction false} RunTwice(s: State, a: seq<(nat, Action)>, b: seq<(nat, Action)>)
    ensures Run(Run(s, a), b) == Run(s, a + b)
    decreases |b|
  {
    if b == [] {
      assert a + b == a;
    } else {
      RunTwice(s, a, b[..|b| - 1]);
      assert (a + b)[..|a + b| - 1] == a + b[..|b| - 1];
    }
  }

  lemma {:induction false} RunOne(s: State, p: nat, a: Action)
    requires Enabled(s, p, a)
    ensures Run(s, [(p, a)]) == Step(s, p, a)
  {
    assert [(p, a)][..0] == [];
  }

  lemma RunOneMore(s: State, steps: seq<(nat, Action)>, e: (nat, Action))
    requires Enabled(Run(s, steps), e.0, e.1)
    ensures Run(s, steps + [e]) == Step(Run(s, steps), e.0, e.1)
  {
    assert (steps + [e])[..|steps|] == steps;
  }

  lemma {:induction false} LogGrows(s: State, steps: seq<(nat, Action)>)
    ensures s.log <= Run(s, steps).log
    decreases |steps|
  {
    if steps != [] { LogGrows(s, steps[..|steps| - 1]); }
  }

  /** The change is closed, or, with `told`, its chat at least has been told. */
  predicate Settled(s: Store, id: nat, told: bool) {
    id < s.nextId && (IsPending(s, id) ==> told && s.changes[id].notifiedAt.Some?)
  }

  /** A change that was closed, by a CANCEL say, is never pending again, and one
      whose wait has started never has to be told again. */
  lemma {:induction false} SettledStays(s: State, steps: seq<(nat, Action)>, id: nat, told: bool)
    requires Inv(s) && Settled(s.store, id, told)
    ensures Settled(Run(s, steps).store, id, told)
    decreases |steps|
  {
    if steps != [] {
      var init := steps[..|steps| - 1];
      SettledStays(s, init, id, told);
      EveryRun(s, init);
      var s1 := Run(s, init);
      var (p, a) := steps[|steps| - 1];
      if Enabled(s1, p, a) { StepKeepsSettled(s1, p, a, id, told); }
    }
  }

  lemma StepKeepsSettled(s: State, p: nat, a: Action, id: nat, told: bool)
    requires Inv(s) && Enabled(s, p, a) && Settled(s.store, id, told)
    ensures Settled(Step(s, p, a).store, id, told)
  {
    if a.Unlink? {
      var o := s.log[a.at];
      assert GoodEvent(s.store, s.log, o);
      UnlinkLeaves(s.store, o.w, o.scope, o.rows, a.delays, a.now);
    }
  }

  /** The time an accepted notice states is the stored one exactly when the
      wait of the change started with that notice. */
  lemma StatedTimeIsStored(s: State, j: nat, id: nat)
    requires Inv(s) && j < |s.log| && s.log[j].Told? && id in s.log[j].ids && IsPending(s.store, id)
    ensures s.store.changes[id].effectiveAt == Some(s.log[j].now + s.log[j].delay)
      <==> s.store.changes[id].notifiedAt == Some(s.log[j].now)
  {
    assert GoodEvent(s.store, s.log, s.log[j]);
    assert ToldFirst(s.log, id, s.store.changes[id]);
  }

  /** When the mark of an accepted notice lands, every change it names that is
      still pending has the stated time exactly when no other notice had
      started its wait at another time before. */
  lemma MarkStoresTheStatedTime(s: State, p: nat, j: nat, id: nat)
    requires Inv(s) && Enabled(s, p, Mark(j)) && id in s.log[j].ids && IsPending(s.store, id)
    ensures var t := Step(s, p, Mark(j));
      IsPending(t.store, id)
      && (t.store.changes[id].effectiveAt == Some(s.log[j].now + s.log[j].delay)
          <==> s.store.changes[id].notifiedAt == None || s.store.changes[id].notifiedAt == Some(s.log[j].now))
  {
    EveryStep(s, p, Mark(j));
    StatedTimeIsStored(Step(s, p, Mark(j)), j, id);
  }
}
