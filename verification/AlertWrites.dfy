/** What each batch of the alert-chat protocol does to the tables, and that each
    keeps their invariant: a pending change is about the chat linked now. */
module AlertWrites {
  import opened Wrappers
  import opened AlertStore

  predicate SameChange(c: Change, d: Change) {
    && c.key == d.key && c.kind == d.kind && c.oldChat == d.oldChat && c.delay == d.delay
    && c.notifiedAt == d.notifiedAt && c.effectiveAt == d.effectiveAt
  }

  /** No change of `s` has been retold in `t`; the ones `t` adds are untold. */
  ghost predicate Steady(s: Store, t: Store) {
    && s.nextId <= t.nextId
    && (forall id | id in t.changes :: if id in s.changes then SameChange(t.changes[id], s.changes[id])
                                       else s.nextId <= id < t.nextId && t.changes[id].notifiedAt == None)
  }

  /** Every chat of `s` but the one at `k` is still linked. */
  ghost predicate OthersKept(s: Store, t: Store, k: Key) {
    forall q :: q != k ==> ChatOf(t, q) == ChatOf(s, q)
  }

  ghost predicate ChatsKept(s: Store, t: Store) { forall q :: ChatOf(t, q) == ChatOf(s, q) }

  lemma SupersedeKeepsTracks(s: Store, k: Key, now: int)
    requires Tracks(s)
    ensures var t := SupersedeKey(s, k, now);
      Tracks(t) && Steady(s, t) && t.rows == s.rows && t.nextId == s.nextId && forall id: nat :: !PendingAt(t, id, k)
  {
  }

  /** An immediate link that commits always writes: the condition on the link
      write can only fail when the guard already has. Nothing stays pending for
      the row, and no other row changed. */
  lemma LinkLeaves(s: Store, k: Key, observed: seq<Linked>, chat: Chat, now: int)
    requires Tracks(s) && Readable(observed, Some(k.chain))
    ensures var r := LinkBatch(s, k, observed, chat, now);
      && (r.Some? <==> RowsAre(s, k.wallet, Some(k.chain), observed))
      && (r.Some? ==>
          && Tracks(r.value) && Steady(s, r.value) && r.value.nextId == s.nextId
          && r.value.changes.Keys == s.changes.Keys
          && ChatOf(r.value, k) == Some(chat) && OthersKept(s, r.value, k)
          && (forall id: nat :: !PendingAt(r.value, id, k)))
  {
    GuardIsExact(s, k.wallet, Some(k.chain), observed);
    SupersedeKeepsTracks(s, k, now);
    if RowsAre(s, k.wallet, Some(k.chain), observed) {
      ObservedIsTheChat(s, k, observed);
      var expected := if observed == [] then None else Some(observed[0].chat);
      assert LinkWrites(SupersedeKey(s, k, now), k, chat, expected);
      var t := LinkBatch(s, k, observed, chat, now).value;
      forall id: nat | IsPending(t, id) ensures t.changes[id].key != k && IsPending(s, id) {
        assert !PendingAt(SupersedeKey(s, k, now), id, k);
      }
    }
  }

  /** The read of one chain's row is the row's chat. */
  lemma ObservedIsTheChat(s: Store, k: Key, observed: seq<Linked>)
    requires Readable(observed, Some(k.chain)) && RowsAre(s, k.wallet, Some(k.chain), observed)
    ensures ChatOf(s, k) == if observed == [] then None else Some(observed[0].chat)
    ensures |observed| <= 1 && (observed != [] ==> observed[0].chain == k.chain)
  {
    assert |observed| >= 2 ==> observed[0].chain == observed[1].chain;
    if observed != [] { assert Linked(k.chain, observed[0].chat) in observed; }
    if ChatOf(s, k).Some? { assert Linked(k.chain, ChatOf(s, k).value) in observed; }
  }

  /** A move that has to wait changes no chat at all: it leaves exactly one
      pending change for the row, naming the chat linked now. */
  lemma MoveLeaves(s: Store, k: Key, observed: seq<Linked>, chat: Chat, delay: int, now: int)
    requires Tracks(s) && Readable(observed, Some(k.chain)) && observed != []
    ensures var r := MoveBatch(s, k, observed, observed[0].chat, chat, delay, now);
      && (r.Some? <==> RowsAre(s, k.wallet, Some(k.chain), observed))
      && (r.Some? ==> Tracks(r.value) && MovePends(s, r.value, k, observed[0].chat, chat, delay, now))
  {
    GuardIsExact(s, k.wallet, Some(k.chain), observed);
    if RowsAre(s, k.wallet, Some(k.chain), observed) {
      ObservedIsTheChat(s, k, observed);
      PendLeaves(s, k, observed[0].chat, chat, delay, now);
    }
  }

  ghost predicate MovePends(s: Store, t: Store, k: Key, from: Chat, to: Chat, delay: int, now: int) {
    && Steady(s, t) && t.rows == s.rows
    && t.changes.Keys == s.changes.Keys + {s.nextId} && t.nextId == s.nextId + 1
    && t.changes[s.nextId] == NewChange(k, Replace(to), from, delay, now)
    && (forall id: nat :: PendingAt(t, id, k) <==> id == s.nextId)
  }

  lemma PendLeaves(s: Store, k: Key, from: Chat, to: Chat, delay: int, now: int)
    requires Tracks(s) && ChatOf(s, k) == Some(from)
    ensures var t := PendChange(s, k, Replace(to), from, delay, now);
      Tracks(t) && MovePends(s, t, k, from, to, delay, now)
  {
    SupersedeKeepsTracks(s, k, now);
    PendOnTracks(s, SupersedeKey(s, k, now), k, Replace(to), from, delay, now);
  }

  lemma PendOnTracks(s: Store, u: Store, k: Key, kind: Kind, from: Chat, delay: int, now: int)
    requires Tracks(u) && Steady(s, u) && ChatOf(u, k) == Some(from) && (forall id: nat :: !PendingAt(u, id, k))
    requires u.nextId == s.nextId && u.rows == s.rows && u.changes.Keys == s.changes.Keys
    ensures var t := u.(changes := u.changes[u.nextId := NewChange(k, kind, from, delay, now)], nextId := u.nextId + 1);
      && Tracks(t) && Steady(s, t) && t.changes.Keys == s.changes.Keys + {s.nextId}
      && (forall id: nat :: PendingAt(t, id, k) <==> id == s.nextId)
  {
    var t := u.(changes := u.changes[u.nextId := NewChange(k, kind, from, delay, now)], nextId := u.nextId + 1);
    forall id: nat ensures IsPending(t, id) <==> id == s.nextId || IsPending(u, id) {}
    forall id: nat | IsPending(u, id) ensures t.changes[id] == u.changes[id] && u.changes[id].key != k {
      assert !PendingAt(u, id, k);
    }
  }

  /** A change is applied exactly when it is still pending: the second
      condition, that its old chat is the linked one, then always holds. */
  lemma ApplyLeaves(s: Store, d: Due, now: int)
    requires Tracks(s)
    requires d.id in s.changes ==>
      s.changes[d.id].key == d.key && s.changes[d.id].kind == d.kind && s.changes[d.id].oldChat == d.oldChat
    ensures var r := ApplyBatch(s, d, now);
      && (r.Some? <==> IsPending(s, d.id))
      && (IsPending(s, d.id) ==>
          && ApplyWrites(s, d) && Tracks(r.value) && Steady(s, r.value) && r.value.nextId == s.nextId
          && r.value.changes == s.changes[d.id := Closed(s.changes[d.id], Applied, now)]
          && ChatOf(s, d.key) == Some(d.oldChat) && OthersKept(s, r.value, d.key)
          && ChatOf(r.value, d.key) == match d.kind { case Unlink => None case Replace(to) => Some(to) })
  {
    if IsPending(s, d.id) {
      var t := ApplyBatch(s, d, now).value;
      assert ChatOf(s, s.changes[d.id].key) == Some(s.changes[d.id].oldChat);
      forall id: nat | IsPending(t, id) ensures IsPending(s, id) && t.changes[id].key != d.key {
        assert id != d.id;
      }
    }
  }

  /** CANCEL closes exactly the pending changes of the rows linked to the chat
      it came from, and changes no row. */
  lemma CancelLeaves(s: Store, chat: Chat, now: int)
    requires Tracks(s)
    ensures var t := CancelFor(s, chat, now);
      && Tracks(t) && Steady(s, t) && t.rows == s.rows && t.nextId == s.nextId && t.changes.Keys == s.changes.Keys
      && (forall id | id in s.changes :: t.changes[id] ==
            (if IsPending(s, id) && ChatOf(s, s.changes[id].key) == Some(chat)
             then Closed(s.changes[id], Cancelled, now) else s.changes[id]))
  {
  }

  lemma RefusalKeepsTracks(s: Store, ids: set<nat>, now: int)
    requires Tracks(s)
    ensures Tracks(MarkAttempt(s, ids, now)) && Steady(s, MarkAttempt(s, ids, now))
    ensures MarkAttempt(s, ids, now).rows == s.rows
  {
  }

  lemma NoticeKeepsTracks(s: Store, ids: set<nat>, now: int)
    requires Tracks(s)
    ensures Tracks(MarkNotified(s, ids, now))
  {
    var t := MarkNotified(s, ids, now);
    assert t.rows == s.rows && t.changes.Keys == s.changes.Keys;
    forall id: nat | id in t.changes
      ensures t.changes[id].key == s.changes[id].key && t.changes[id].oldChat == s.changes[id].oldChat
      ensures Timed(t.changes[id]) && IsPending(t, id) == IsPending(s, id)
    {
      assert Timed(s.changes[id]);
    }
  }

  lemma SweepKeepsTracks(s: Store, now: int)
    requires Tracks(s)
    ensures Tracks(Prune(s, now)) && Steady(s, Prune(s, now)) && Prune(s, now).rows == s.rows
    ensures forall id: nat :: IsPending(Prune(s, now), id) <==> IsPending(s, id)
  {
  }

  /** A settings save leaves every chat, and so the whole protocol, alone exactly
      when it carries no chat, or the one already linked. */
  lemma SaveLeaves(s: Store, k: Key, chat: Option<Chat>)
    requires Tracks(s)
    ensures var t := SaveSettings(s, k, chat);
      && (ChatsKept(s, t) <==> chat.None? || ChatOf(s, k) == chat)
      && (ChatsKept(s, t) ==> Tracks(t) && Steady(s, t) && t.changes == s.changes && t.nextId == s.nextId)
  {
    var t := SaveSettings(s, k, chat);
    assert ChatOf(t, k) == if chat.Some? then chat else ChatOf(s, k);
    assert forall q :: q != k ==> ChatOf(t, q) == ChatOf(s, q);
  }

  lemma UnlinkIsSteady(s: Store, t: Store, w: string, scope: Option<int>, observed: seq<Linked>,
                       delays: map<int, Option<int>>, now: int)
    requires Unlinked(s, t, w, scope, observed, delays, now)
    ensures Steady(s, t)
  {
    forall id | id in t.changes && id !in s.changes ensures t.changes[id].notifiedAt == None {
      assert FreshUnlink(t, s.nextId + (id - s.nextId), w, Pick(observed, delays, true)[id - s.nextId], delays, now);
    }
  }
}
