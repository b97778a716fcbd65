/** The tables of the alert-chat protocol and the SQL statements that write them.
    Each function is what one statement, or one batch of statements, does; a D1
    batch is one transaction, so a batch whose guard fails writes nothing. */
module AlertStore {
  import opened Wrappers

  type Chat = string

  /** The primary key of a `user_thresholds` row. */
  datatype Key = Key(wallet: string, chain: int)

  /** One linked row as a request reads it. */
  datatype Linked = Linked(chain: int, chat: Chat)

  datatype Kind = Unlink | Replace(to: Chat)

  datatype Phase = Pending | Applied | Cancelled | Superseded

  /** One row of `alert_channel_changes`. */
  datatype Change = Change(
    key: Key, kind: Kind, oldChat: Chat, requestedAt: int, delay: int, phase: Phase,
    notifiedAt: Option<int>, effectiveAt: Option<int>, attemptAt: Option<int>, closedAt: Option<int>)

  /** `rows` is `user_thresholds`, of which only the chat column matters here;
      ids of `changes` are never reused. */
  datatype Store = Store(rows: map<Key, Option<Chat>>, changes: map<nat, Change>, nextId: nat)

  const RETENTION := 90 * 24 * 60 * 60

  function ChatOf(s: Store, k: Key): Option<Chat> { if k in s.rows then s.rows[k] else None }

  predicate IsPending(s: Store, id: nat) { id in s.changes && s.changes[id].phase == Pending }

  predicate PendingAt(s: Store, id: nat, k: Key) { IsPending(s, id) && s.changes[id].key == k }

  /** A chain is in scope: one chain, or every chain of the wallet. */
  predicate InScope(chain: int, scope: Option<int>) { scope.None? || scope.value == chain }

  predicate KeyInScope(k: Key, w: string, scope: Option<int>) { k.wallet == w && InScope(k.chain, scope) }

  // --------------------------------------------------------- the guard

  function LinkedKeys(s: Store, w: string, scope: Option<int>): set<Key> {
    set k | k in s.rows && s.rows[k].Some? && KeyInScope(k, w, scope)
  }

  function MatchedKeys(s: Store, w: string, observed: seq<Linked>): set<Key> {
    set k | k in s.rows && s.rows[k].Some? && k.wallet == w && Linked(k.chain, s.rows[k].value) in observed
  }

  /** `observedStateGuard`: two row counts, both equal to the number observed. */
  predicate GuardPasses(s: Store, w: string, scope: Option<int>, observed: seq<Linked>) {
    |LinkedKeys(s, w, scope)| == |observed| && |MatchedKeys(s, w, observed)| == |observed|
  }

  /** What a read of the linked rows can return: one row a chain, all in scope. */
  predicate Readable(observed: seq<Linked>, scope: Option<int>) {
    && (forall i, j :: 0 <= i < j < |observed| ==> observed[i].chain != observed[j].chain)
    && (forall i :: 0 <= i < |observed| ==> InScope(observed[i].chain, scope))
  }

  /** The linked rows in scope are exactly the observed ones. */
  ghost predicate RowsAre(s: Store, w: string, scope: Option<int>, observed: seq<Linked>) {
    forall c, a :: InScope(c, scope) ==> (ChatOf(s, Key(w, c)) == Some(a) <==> Linked(c, a) in observed)
  }

  function KeysOf(w: string, observed: seq<Linked>): (ks: set<Key>) { set r | r in observed :: Key(w, r.chain) }

  lemma {:induction false} KeysOfCount(w: string, observed: seq<Linked>, scope: Option<int>)
    requires Readable(observed, scope)
    ensures |KeysOf(w, observed)| == |observed|
  {
    if observed != [] {
      var init, last := observed[..|observed| - 1], observed[|observed| - 1];
      KeysOfCount(w, init, scope);
      assert KeysOf(w, observed) == KeysOf(w, init) + {Key(w, last.chain)};
      assert Key(w, last.chain) !in KeysOf(w, init);
    }
  }

  lemma SameSizeSubset<T>(a: set<T>, b: set<T>)
    requires a <= b && |a| == |b|
    ensures a == b
  {
    assert b == a + (b - a);
    assert |b - a| == 0;
  }

  /** The counting argument: the guard passes exactly when the linked rows in
      scope are the observed rows, no more, no fewer, none moved. */
  lemma GuardIsExact(s: Store, w: string, scope: Option<int>, observed: seq<Linked>)
    requires Readable(observed, scope)
    ensures GuardPasses(s, w, scope, observed) <==> RowsAre(s, w, scope, observed)
  {
    var linked, matched, keys := LinkedKeys(s, w, scope), MatchedKeys(s, w, observed), KeysOf(w, observed);
    KeysOfCount(w, observed, scope);
    assert matched <= keys by {
      forall k | k in matched ensures k in keys { assert Linked(k.chain, s.rows[k].value) in observed; }
    }
    assert matched <= linked by {
      forall k | k in matched ensures k in linked { assert Linked(k.chain, s.rows[k].value) in observed; }
    }
    if GuardPasses(s, w, scope, observed) {
      SameSizeSubset(matched, keys);
      SameSizeSubset(matched, linked);
      forall c, a | InScope(c, scope)
        ensures ChatOf(s, Key(w, c)) == Some(a) <==> Linked(c, a) in observed
      {
        GuardedRow(s, w, scope, observed, c, a);
      }
    }
    if RowsAre(s, w, scope, observed) {
      forall k ensures k in keys <==> k in matched {
        if k in keys {
          var r :| r in observed && Key(w, r.chain) == k;
          assert ChatOf(s, k) == Some(r.chat);
        }
      }
      forall k ensures k in keys <==> k in linked {
        if k in linked { assert Linked(k.chain, s.rows[k].value) in observed; }
      }
      assert keys == matched == linked;
    }
  }

  lemma GuardedRow(s: Store, w: string, scope: Option<int>, observed: seq<Linked>, c: int, a: Chat)
    requires Readable(observed, scope) && InScope(c, scope)
    requires MatchedKeys(s, w, observed) == KeysOf(w, observed) == LinkedKeys(s, w, scope)
    ensures ChatOf(s, Key(w, c)) == Some(a) <==> Linked(c, a) in observed
  {
    var k := Key(w, c);
    if ChatOf(s, k) == Some(a) {
      assert k in LinkedKeys(s, w, scope);
      assert k in MatchedKeys(s, w, observed);
    }
    if Linked(c, a) in observed {
      assert k in KeysOf(w, observed);
      assert k in MatchedKeys(s, w, observed);
      assert Linked(c, s.rows[k].value) in observed;
    }
  }

  // -------------------------------------------------------- statements

  function Closed(c: Change, phase: Phase, now: int): Change { c.(phase := phase, closedAt := Some(now)) }

  /** Supersede the pending changes of one key. */
  function SupersedeKey(s: Store, k: Key, now: int): Store {
    s.(changes := map id | id in s.changes ::
      if PendingAt(s, id, k) then Closed(s.changes[id], Superseded, now) else s.changes[id])
  }

  /** Supersede the pending changes of one chain, or of every chain of a wallet. */
  function SupersedeScope(s: Store, w: string, scope: Option<int>, now: int): Store {
    s.(changes := map id | id in s.changes ::
      if IsPending(s, id) && KeyInScope(s.changes[id].key, w, scope)
      then Closed(s.changes[id], Superseded, now) else s.changes[id])
  }

  function ClearChat(s: Store, k: Key): Store {
    if k in s.rows then s.(rows := s.rows[k := None]) else s
  }

  function NewChange(k: Key, kind: Kind, oldChat: Chat, delay: int, now: int): Change {
    Change(k, kind, oldChat, now, delay, Pending, None, None, None, None)
  }

  /** Record a pending change, superseding the one pending for the same key. */
  function PendChange(s: Store, k: Key, kind: Kind, oldChat: Chat, delay: int, now: int): Store {
    var t := SupersedeKey(s, k, now);
    t.(changes := t.changes[t.nextId := NewChange(k, kind, oldChat, delay, now)], nextId := t.nextId + 1)
  }

  /** The link write: an insert, or an update while the chat is still the
      expected one or already the new one. */
  predicate LinkWrites(s: Store, k: Key, chat: Chat, expected: Option<Chat>) {
    k in s.rows ==> Coalesced(s.rows[k]) == Coalesced(expected) || Coalesced(s.rows[k]) == chat
  }

  function Coalesced(c: Option<Chat>): string { if c.Some? then c.value else "" }

  function LinkChat(s: Store, k: Key, chat: Chat, expected: Option<Chat>): Store {
    if LinkWrites(s, k, chat, expected) then s.(rows := s.rows[k := Some(chat)]) else s
  }

  /** A settings save, in which a chat may be absent: the column then keeps what
      it had (`COALESCE(excluded.tg_chat_id, user_thresholds.tg_chat_id)`). */
  function SaveSettings(s: Store, k: Key, chat: Option<Chat>): Store {
    s.(rows := s.rows[k := if chat.Some? then chat else ChatOf(s, k)])
  }

  /** The chat accepted the notice naming `ids`: their wait starts now. */
  function MarkNotified(s: Store, ids: set<nat>, now: int): Store {
    s.(changes := map id | id in s.changes ::
      var c := s.changes[id];
      if id in ids && c.phase == Pending && c.notifiedAt.None?
      then c.(notifiedAt := Some(now), effectiveAt := Some(now + c.delay), attemptAt := Some(now)) else c)
  }

  /** A notice attempt the chat did not accept. */
  function MarkAttempt(s: Store, ids: set<nat>, now: int): Store {
    s.(changes := map id | id in s.changes ::
      var c := s.changes[id];
      if id in ids && c.phase == Pending && c.notifiedAt.None? then c.(attemptAt := Some(now)) else c)
  }

  /** CANCEL: close every pending change whose chat being removed is `chat`. */
  function CancelFor(s: Store, chat: Chat, now: int): Store {
    s.(changes := map id | id in s.changes ::
      var c := s.changes[id];
      if c.phase == Pending && c.oldChat == chat then Closed(c, Cancelled, now) else c)
  }

  function Prune(s: Store, now: int): Store {
    s.(changes := map id | id in s.changes &&
      !(s.changes[id].phase != Pending && s.changes[id].closedAt.Some? && s.changes[id].closedAt.value < now - RETENTION)
      :: s.changes[id])
  }

  // ------------------------------------------------------------ batches

  predicate Waits(r: Linked, delays: map<int, Option<int>>) { r.chain in delays && delays[r.chain].Some? }

  /** The rows of `rows` that are (or are not) protected, in order. */
  function Pick(rows: seq<Linked>, delays: map<int, Option<int>>, waiting: bool): (r: seq<Linked>) {
    if rows == [] then []
    else
      var rest := Pick(rows[1..], delays, waiting);
      if Waits(rows[0], delays) == waiting then [rows[0]] + rest else rest
  }

  /** Supersede and clear, row after row. */
  function ClearAll(s: Store, w: string, rows: seq<Linked>, now: int): Store
    decreases |rows|
  {
    if rows == [] then s
    else
      var k := Key(w, rows[0].chain);
      ClearAll(ClearChat(SupersedeKey(s, k, now), k), w, rows[1..], now)
  }

  /** Record one pending unlink per protected row, row after row. */
  function PendAll(s: Store, w: string, rows: seq<Linked>, delays: map<int, Option<int>>, now: int): Store
    requires forall i :: 0 <= i < |rows| ==> Waits(rows[i], delays)
    decreases |rows|
  {
    if rows == [] then s
    else
      assert Waits(rows[0], delays);
      var t := PendChange(s, Key(w, rows[0].chain), Unlink, rows[0].chat, delays[rows[0].chain].value, now);
      PendAll(t, w, rows[1..], delays, now)
  }

  lemma {:induction false} PickIsExact(rows: seq<Linked>, delays: map<int, Option<int>>, waiting: bool)
    ensures forall i :: 0 <= i < |Pick(rows, delays, waiting)| ==> Waits(Pick(rows, delays, waiting)[i], delays) == waiting
    ensures forall r :: r in Pick(rows, delays, waiting) <==> r in rows && Waits(r, delays) == waiting
  {
    if rows != [] { PickIsExact(rows[1..], delays, waiting); }
  }

  /** The batch of an unlink request: the guard, then every write of it. */
  function UnlinkBatch(s: Store, w: string, scope: Option<int>, observed: seq<Linked>,
                       delays: map<int, Option<int>>, now: int): (r: Option<Store>)
  {
    if !GuardPasses(s, w, scope, observed) then None
    else
      var waiting, open := Pick(observed, delays, true), Pick(observed, delays, false);
      PickIsExact(observed, delays, true);
      var s1 := if waiting == [] then SupersedeScope(s, w, scope, now) else s;
      var s2 := ClearAll(s1, w, open, now);
      Some(PendAll(s2, w, waiting, delays, now))
  }

  /** The batch of an immediate link. */
  function LinkBatch(s: Store, k: Key, observed: seq<Linked>, chat: Chat, now: int): Option<Store> {
    if !GuardPasses(s, k.wallet, Some(k.chain), observed) then None
    else
      var expected := if observed == [] then None else Some(observed[0].chat);
      Some(LinkChat(SupersedeKey(s, k, now), k, chat, expected))
  }

  /** The batch of a move that has to wait. */
  function MoveBatch(s: Store, k: Key, observed: seq<Linked>, oldChat: Chat, chat: Chat, delay: int, now: int)
    : Option<Store>
  {
    if !GuardPasses(s, k.wallet, Some(k.chain), observed) then None
    else Some(PendChange(s, k, Replace(chat), oldChat, delay, now))
  }

  /** A due change as the tick read it. */
  datatype Due = Due(id: nat, key: Key, kind: Kind, oldChat: Chat)

  /** The row update of a change: only while the old chat is the linked one. */
  predicate ApplyWrites(s: Store, d: Due) { ChatOf(s, d.key) == Some(d.oldChat) }

  /** The batch that applies one due change; `None` when it is not pending. */
  function ApplyBatch(s: Store, d: Due, now: int): Option<Store> {
    if !IsPending(s, d.id) then None
    else
      var t := s.(changes := s.changes[d.id := Closed(s.changes[d.id], Applied, now)]);
      if !ApplyWrites(s, d) then Some(t)
      else Some(t.(rows := t.rows[d.key := match d.kind { case Unlink => None case Replace(to) => Some(to) }]))
  }

  // ------------------------------------------------- what a batch leaves

  /** The invariant of the tables: a pending change is about the chat linked
      now, a row has at most one, and a wait that has started ends a delay
      after the notice. */
  ghost predicate Tracks(s: Store) {
    && (forall id | id in s.changes :: id < s.nextId)
    && (forall id | IsPending(s, id) :: ChatOf(s, s.changes[id].key) == Some(s.changes[id].oldChat))
    && (forall i, j | IsPending(s, i) && IsPending(s, j) && s.changes[i].key == s.changes[j].key :: i == j)
    && (forall id | id in s.changes :: Timed(s.changes[id]))
  }

  predicate Timed(c: Change) {
    c.effectiveAt == if c.notifiedAt.Some? then Some(c.notifiedAt.value + c.delay) else None
  }

  /** The changes of `s` with the pending ones of `keys` superseded. */
  ghost predicate Supersedes(s: Store, t: Store, keys: set<Key>, now: int) {
    forall id | id in s.changes :: id in t.changes && t.changes[id] ==
      if IsPending(s, id) && s.changes[id].key in keys then Closed(s.changes[id], Superseded, now)
      else s.changes[id]
  }

  ghost predicate ChatsCleared(s: Store, t: Store, keys: set<Key>) {
    forall k :: ChatOf(t, k) == if k in keys then None else ChatOf(s, k)
  }

  /** `t` adds one pending unlink per row of `rows`, in order, with fresh ids. */
  ghost predicate AddsUnlinks(s: Store, t: Store, w: string, rows: seq<Linked>, delays: map<int, Option<int>>, now: int) {
    && t.nextId == s.nextId + |rows|
    && (forall id | id in t.changes :: id in s.changes || s.nextId <= id < t.nextId)
    && (forall i | 0 <= i < |rows| :: FreshUnlink(t, s.nextId + i, w, rows[i], delays, now))
  }

  predicate FreshUnlink(t: Store, id: nat, w: string, r: Linked, delays: map<int, Option<int>>, now: int) {
    && Waits(r, delays)
    && id in t.changes
    && t.changes[id] == NewChange(Key(w, r.chain), Unlink, r.chat, delays[r.chain].value, now)
  }

  lemma {:induction false} ClearAllEffect(s: Store, w: string, rows: seq<Linked>, now: int)
    ensures var t := ClearAll(s, w, rows, now);
      ChatsCleared(s, t, KeysOf(w, rows)) && Supersedes(s, t, KeysOf(w, rows), now)
      && t.changes.Keys == s.changes.Keys && t.nextId == s.nextId
    decreases |rows|
  {
    if rows != [] {
      var k := Key(w, rows[0].chain);
      var u := ClearChat(SupersedeKey(s, k, now), k);
      ClearAllEffect(u, w, rows[1..], now);
      assert KeysOf(w, rows) == {k} + KeysOf(w, rows[1..]);
      ClearOneEffect(s, k, now);
      SupersedesThen(s, u, ClearAll(s, w, rows, now), k, KeysOf(w, rows[1..]), now);
    }
  }

  lemma ClearOneEffect(s: Store, k: Key, now: int)
    ensures var u := ClearChat(SupersedeKey(s, k, now), k);
      ChatsCleared(s, u, {k}) && Supersedes(s, u, {k}, now) && u.changes.Keys == s.changes.Keys && u.nextId == s.nextId
  {
  }

  lemma PendOneEffect(s: Store, k: Key, oldChat: Chat, delay: int, now: int)
    requires forall id | id in s.changes :: id < s.nextId
    ensures var u := PendChange(s, k, Unlink, oldChat, delay, now);
      && u.rows == s.rows && u.nextId == s.nextId + 1
      && u.changes.Keys == s.changes.Keys + {s.nextId}
      && Supersedes(s, u, {k}, now)
      && u.changes[s.nextId] == NewChange(k, Unlink, oldChat, delay, now)
  {
  }

  lemma SupersedesThen(s: Store, u: Store, t: Store, k: Key, keys: set<Key>, now: int)
    requires Supersedes(s, u, {k}, now) && Supersedes(u, t, keys, now)
    ensures Supersedes(s, t, {k} + keys, now)
  {
  }

  lemma {:induction false} PendAllEffect(s: Store, w: string, rows: seq<Linked>, delays: map<int, Option<int>>, now: int)
    requires forall i :: 0 <= i < |rows| ==> Waits(rows[i], delays)
    requires Readable(rows, None)
    requires forall id | id in s.changes :: id < s.nextId
    ensures var t := PendAll(s, w, rows, delays, now);
      t.rows == s.rows && Supersedes(s, t, KeysOf(w, rows), now) && AddsUnlinks(s, t, w, rows, delays, now)
    decreases |rows|
  {
    if rows != [] {
      var r, rest := rows[0], rows[1..];
      var k := Key(w, r.chain);
      assert Waits(r, delays);
      var u := PendChange(s, k, Unlink, r.chat, delays[r.chain].value, now);
      PendOneEffect(s, k, r.chat, delays[r.chain].value, now);
      PendAllEffect(u, w, rest, delays, now);
      PendTailEffect(s, u, PendAll(u, w, rest, delays, now), w, rows, delays, now);
    }
  }

  lemma PendTailEffect(s: Store, u: Store, t: Store, w: string, rows: seq<Linked>, delays: map<int, Option<int>>, now: int)
    requires rows != [] && Readable(rows, None) && Waits(rows[0], delays)
    requires u.nextId == s.nextId + 1 && u.changes.Keys == s.changes.Keys + {s.nextId}
    requires Supersedes(s, u, {Key(w, rows[0].chain)}, now)
    requires u.changes[s.nextId] == NewChange(Key(w, rows[0].chain), Unlink, rows[0].chat, delays[rows[0].chain].value, now)
    requires Supersedes(u, t, KeysOf(w, rows[1..]), now) && AddsUnlinks(u, t, w, rows[1..], delays, now)
    ensures Supersedes(s, t, KeysOf(w, rows), now) && AddsUnlinks(s, t, w, rows, delays, now)
  {
    var k, rest := Key(w, rows[0].chain), rows[1..];
    assert KeysOf(w, rows) == {k} + KeysOf(w, rest);
    SupersedesThen(s, u, t, k, KeysOf(w, rest), now);
    assert k !in KeysOf(w, rest);
    forall i | 0 <= i < |rows| ensures FreshUnlink(t, s.nextId + i, w, rows[i], delays, now) {
      if i > 0 { assert FreshUnlink(t, u.nextId + (i - 1), w, rest[i - 1], delays, now); }
    }
  }

  /** What a committed unlink request leaves. The rows of the scope that did not
      have to wait are cleared and every other chat is what it was; whatever was
      pending in the scope is superseded; each waiting row has one fresh pending
      unlink, in order; nothing outside the scope changed. */
  ghost predicate Unlinked(s: Store, t: Store, w: string, scope: Option<int>, observed: seq<Linked>,
                           delays: map<int, Option<int>>, now: int)
  {
    var waiting := Pick(observed, delays, true);
    && ScopeCleared(s, t, w, scope, KeysOf(w, waiting))
    && ScopeSuperseded(s, t, w, scope, now)
    && AddsUnlinks(s, t, w, waiting, delays, now)
  }

  ghost predicate ScopeCleared(s: Store, t: Store, w: string, scope: Option<int>, waiting: set<Key>) {
    forall k :: ChatOf(t, k) == if KeyInScope(k, w, scope) && k !in waiting then None else ChatOf(s, k)
  }

  ghost predicate ScopeSuperseded(s: Store, t: Store, w: string, scope: Option<int>, now: int) {
    forall id | id in s.changes :: id in t.changes && t.changes[id] ==
      (if IsPending(s, id) && KeyInScope(s.changes[id].key, w, scope) then Closed(s.changes[id], Superseded, now)
       else s.changes[id])
  }

  /** The rows a request cleared and the rows it made wait are the rows it read. */
  lemma PickedKeys(w: string, observed: seq<Linked>, delays: map<int, Option<int>>)
    ensures KeysOf(w, observed) == KeysOf(w, Pick(observed, delays, true)) + KeysOf(w, Pick(observed, delays, false))
  {
    PickIsExact(observed, delays, true);
    PickIsExact(observed, delays, false);
  }

  lemma {:induction false} PickedReadable(observed: seq<Linked>, scope: Option<int>, delays: map<int, Option<int>>, waiting: bool)
    requires Readable(observed, scope)
    ensures Readable(Pick(observed, delays, waiting), None)
    ensures Readable(Pick(observed, delays, waiting), scope)
  {
    if observed != [] {
      var rest := observed[1..];
      PickedReadable(rest, scope, delays, waiting);
      PickIsExact(rest, delays, waiting);
      forall r | r in Pick(rest, delays, waiting) ensures r.chain != observed[0].chain {
        var i :| 0 <= i < |rest| && rest[i] == r;
        assert observed[i + 1] == r;
      }
    }
  }

  lemma PickedApart(w: string, observed: seq<Linked>, scope: Option<int>, delays: map<int, Option<int>>)
    requires Readable(observed, scope)
    ensures KeysOf(w, Pick(observed, delays, true)) !! KeysOf(w, Pick(observed, delays, false))
  {
    PickIsExact(observed, delays, true);
    PickIsExact(observed, delays, false);
  }

  lemma PendingInScopeWasRead(s: Store, id: nat, w: string, scope: Option<int>, observed: seq<Linked>)
    requires Tracks(s) && RowsAre(s, w, scope, observed)
    requires IsPending(s, id) && KeyInScope(s.changes[id].key, w, scope)
    ensures s.changes[id].key in KeysOf(w, observed)
  {
    var c := s.changes[id];
    assert ChatOf(s, Key(w, c.key.chain)) == Some(c.oldChat);
    assert Linked(c.key.chain, c.oldChat) in observed;
  }

  /** The writes of the batch, one statement group after the other. */
  lemma UnlinkStages(s: Store, s1: Store, s2: Store, t: Store, w: string, scope: Option<int>, observed: seq<Linked>,
                     waiting: set<Key>, open: set<Key>, now: int)
    requires Tracks(s) && Readable(observed, scope) && RowsAre(s, w, scope, observed)
    requires KeysOf(w, observed) == waiting + open && waiting !! open
    requires s1 == if waiting == {} then SupersedeScope(s, w, scope, now) else s
    requires ChatsCleared(s1, s2, open) && Supersedes(s1, s2, open, now)
    requires t.rows == s2.rows && Supersedes(s2, t, waiting, now)
    ensures ScopeCleared(s, t, w, scope, waiting) && ScopeSuperseded(s, t, w, scope, now)
  {
    forall k ensures ChatOf(t, k) == if KeyInScope(k, w, scope) && k !in waiting then None else ChatOf(s, k) {
      ScopeRow(s, w, scope, observed, k);
      assert ChatOf(t, k) == ChatOf(s2, k) && ChatOf(s1, k) == ChatOf(s, k);
    }
    forall id | id in s.changes ensures id in t.changes && t.changes[id] ==
      (if IsPending(s, id) && KeyInScope(s.changes[id].key, w, scope) then Closed(s.changes[id], Superseded, now)
       else s.changes[id])
    {
      var k := s.changes[id].key;
      if k in KeysOf(w, observed) { KeysInScope(w, scope, observed, k); }
      if IsPending(s, id) && KeyInScope(k, w, scope) { PendingInScopeWasRead(s, id, w, scope, observed); }
      assert id in s1.changes && id in s2.changes && s1.changes[id].key == k == s2.changes[id].key;
    }
  }

  /** A request's batch commits exactly when the rows are still the ones it
      read, and then it leaves exactly what `Unlinked` says. */
  lemma UnlinkLeaves(s: Store, w: string, scope: Option<int>, observed: seq<Linked>,
                     delays: map<int, Option<int>>, now: int)
    requires Tracks(s) && Readable(observed, scope)
    ensures UnlinkBatch(s, w, scope, observed, delays, now).Some? <==> RowsAre(s, w, scope, observed)
    ensures RowsAre(s, w, scope, observed) ==>
      Unlinked(s, UnlinkBatch(s, w, scope, observed, delays, now).value, w, scope, observed, delays, now)
  {
    GuardIsExact(s, w, scope, observed);
    if RowsAre(s, w, scope, observed) { UnlinkWrites(s, w, scope, observed, delays, now); }
  }

  lemma UnlinkWrites(s: Store, w: string, scope: Option<int>, observed: seq<Linked>,
                     delays: map<int, Option<int>>, now: int)
    requires Tracks(s) && Readable(observed, scope)
    requires RowsAre(s, w, scope, observed) && GuardPasses(s, w, scope, observed)
    ensures Unlinked(s, UnlinkBatch(s, w, scope, observed, delays, now).value, w, scope, observed, delays, now)
  {
    var waiting, open := Pick(observed, delays, true), Pick(observed, delays, false);
    PickIsExact(observed, delays, true);
    PickedReadable(observed, scope, delays, true);
    var s1 := if waiting == [] then SupersedeScope(s, w, scope, now) else s;
    var s2 := ClearAll(s1, w, open, now);
    ClearAllEffect(s1, w, open, now);
    PendAllEffect(s2, w, waiting, delays, now);
    UnlinkCombined(s, s1, s2, PendAll(s2, w, waiting, delays, now), w, scope, observed, delays, now);
  }

  lemma UnlinkCombined(s: Store, s1: Store, s2: Store, t: Store, w: string, scope: Option<int>,
                       observed: seq<Linked>, delays: map<int, Option<int>>, now: int)
    requires Tracks(s) && Readable(observed, scope) && RowsAre(s, w, scope, observed)
    requires s1 == if Pick(observed, delays, true) == [] then SupersedeScope(s, w, scope, now) else s
    requires ChatsCleared(s1, s2, KeysOf(w, Pick(observed, delays, false)))
    requires Supersedes(s1, s2, KeysOf(w, Pick(observed, delays, false)), now)
    requires s2.changes.Keys == s1.changes.Keys && s2.nextId == s1.nextId
    requires t.rows == s2.rows && Supersedes(s2, t, KeysOf(w, Pick(observed, delays, true)), now)
    requires AddsUnlinks(s2, t, w, Pick(observed, delays, true), delays, now)
    ensures Unlinked(s, t, w, scope, observed, delays, now)
  {
    var waiting := Pick(observed, delays, true);
    PickedKeys(w, observed, delays);
    PickedApart(w, observed, scope, delays);
    PickedReadable(observed, scope, delays, true);
    KeysOfCount(w, waiting, scope);
    UnlinkStages(s, s1, s2, t, w, scope, observed, KeysOf(w, waiting), KeysOf(w, Pick(observed, delays, false)), now);
    AddsUnlinksAfter(s, s2, t, w, waiting, delays, now);
  }

  lemma AddsUnlinksAfter(s: Store, s2: Store, t: Store, w: string, rows: seq<Linked>, delays: map<int, Option<int>>, now: int)
    requires AddsUnlinks(s2, t, w, rows, delays, now) && s2.changes.Keys == s.changes.Keys && s2.nextId == s.nextId
    ensures AddsUnlinks(s, t, w, rows, delays, now)
  {
  }

  lemma KeysInScope(w: string, scope: Option<int>, observed: seq<Linked>, k: Key)
    requires Readable(observed, scope) && k in KeysOf(w, observed)
    ensures KeyInScope(k, w, scope)
  {
  }

  lemma ScopeRow(s: Store, w: string, scope: Option<int>, observed: seq<Linked>, k: Key)
    requires Readable(observed, scope) && RowsAre(s, w, scope, observed)
    ensures k in KeysOf(w, observed) <==> KeyInScope(k, w, scope) && ChatOf(s, k).Some?
  {
    if k in KeysOf(w, observed) {
      var r :| r in observed && Key(w, r.chain) == k;
      assert ChatOf(s, k) == Some(r.chat);
    }
    if KeyInScope(k, w, scope) && ChatOf(s, k).Some? {
      assert Linked(k.chain, ChatOf(s, k).value) in observed;
    }
  }

  lemma FreshRow(s: Store, t: Store, w: string, scope: Option<int>, observed: seq<Linked>,
                 delays: map<int, Option<int>>, now: int, id: nat) returns (r: Linked)
    requires Readable(observed, scope) && RowsAre(s, w, scope, observed)
    requires AddsUnlinks(s, t, w, Pick(observed, delays, true), delays, now)
    requires id in t.changes && id !in s.changes
    ensures 0 <= id - s.nextId < |Pick(observed, delays, true)| && r == Pick(observed, delays, true)[id - s.nextId]
    ensures FreshUnlink(t, id, w, r, delays, now)
    ensures KeyInScope(Key(w, r.chain), w, scope) && Key(w, r.chain) in KeysOf(w, Pick(observed, delays, true))
    ensures ChatOf(s, Key(w, r.chain)) == Some(r.chat)
  {
    var waiting := Pick(observed, delays, true);
    PickIsExact(observed, delays, true);
    r := waiting[id - s.nextId];
    assert FreshUnlink(t, s.nextId + (id - s.nextId), w, r, delays, now);
    assert r in waiting && r in observed;
  }

  /** Nothing else in the scope stays pending, and the tables' invariant holds. */
  lemma UnlinkKeepsTracks(s: Store, t: Store, w: string, scope: Option<int>, observed: seq<Linked>,
                          delays: map<int, Option<int>>, now: int)
    requires Tracks(s) && Readable(observed, scope) && RowsAre(s, w, scope, observed)
    requires Unlinked(s, t, w, scope, observed, delays, now)
    ensures Tracks(t)
    ensures forall id: nat :: IsPending(t, id) && KeyInScope(t.changes[id].key, w, scope) ==> id >= s.nextId
  {
    forall id | id in t.changes
      ensures id < t.nextId && Timed(t.changes[id])
      ensures IsPending(t, id) ==> ChatOf(t, t.changes[id].key) == Some(t.changes[id].oldChat)
    {
      if id !in s.changes { var r := FreshRow(s, t, w, scope, observed, delays, now, id); }
    }
    forall i: nat, j: nat | IsPending(t, i) && IsPending(t, j) && t.changes[i].key == t.changes[j].key ensures i == j {
      OnePendingEach(s, t, w, scope, observed, delays, now, i, j);
    }
  }

  lemma OnePendingEach(s: Store, t: Store, w: string, scope: Option<int>, observed: seq<Linked>,
                       delays: map<int, Option<int>>, now: int, i: nat, j: nat)
    requires Tracks(s) && Readable(observed, scope) && RowsAre(s, w, scope, observed)
    requires Unlinked(s, t, w, scope, observed, delays, now)
    requires IsPending(t, i) && IsPending(t, j) && t.changes[i].key == t.changes[j].key
    ensures i == j
  {
    if i in s.changes && j in s.changes {
      assert IsPending(s, i) && IsPending(s, j);
    } else {
      if i !in s.changes { var r := FreshRow(s, t, w, scope, observed, delays, now, i); }
      if j !in s.changes { var r := FreshRow(s, t, w, scope, observed, delays, now, j); }
      PickedReadable(observed, scope, delays, true);
    }
  }
}
