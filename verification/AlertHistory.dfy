/** Histories of the alert-chat protocol: what had happened when a process read
    the answer it later acted on, and runs from a start that show what may. */
module AlertHistory {
  import opened Wrappers
  import opened AlertStore
  import opened AlertWrites
  import opened AlertProtocol

  type Steps = seq<(nat, Action)>

  /** The tables and the log after the first `n` steps. */
  function After(s: State, steps: Steps, n: nat): State
    requires n <= |steps|
  {
    Run(s, steps[..n])
  }

  predicate LinkedAfter(s: State, steps: Steps, n: nat, k: Key, chat: Chat)
    requires n <= |steps|
  {
    ChatOf(After(s, steps, n).store, k) == Some(chat)
  }

  lemma OneMoreStep(s: State, steps: Steps, n: nat)
    requires n < |steps|
    ensures var u, (p, a) := After(s, steps, n), steps[n];
      After(s, steps, n + 1) == if Enabled(u, p, a) then Step(u, p, a) else u
  {
    assert steps[..n + 1][..n] == steps[..n];
  }

  lemma NoneYet(s: State, steps: Steps)
    ensures After(s, steps, 0) == s
  {
    assert steps[..0] == [];
  }

  // --------------------------------------------- where an entry came from

  /** Step `n` wrote the log entry `j`. */
  predicate Wrote(s: State, steps: Steps, n: nat, j: nat)
    requires n < |steps|
  {
    var u, (p, a) := After(s, steps, n), steps[n];
    Enabled(u, p, a) && |u.log| == j && |Step(u, p, a).log| == j + 1
  }

  /** A step writes at most one entry. */
  lemma OneEntryAStep(s: State, steps: Steps, n: nat)
    requires n < |steps|
    ensures var was, now := After(s, steps, n).log, After(s, steps, n + 1).log;
      now == was || (|now| == |was| + 1 && now[..|was|] == was && Wrote(s, steps, n, |was|))
  {
    OneMoreStep(s, steps, n);
  }

  lemma {:induction false} LogSource(s: State, steps: Steps, n: nat, j: nat) returns (m: nat)
    requires s.log == [] && n <= |steps| && j < |After(s, steps, n).log|
    ensures m < n && Wrote(s, steps, m, j)
    ensures j < |After(s, steps, m + 1).log| && After(s, steps, m + 1).log[j] == After(s, steps, n).log[j]
    decreases n
  {
    NoneYet(s, steps);
    OneEntryAStep(s, steps, n - 1);
    m := n - 1;
    if j < |After(s, steps, m).log| { m := LogSource(s, steps, n - 1, j); }
  }

  lemma {:induction false} LogKept(s: State, steps: Steps, m: nat, n: nat)
    requires m <= n <= |steps|
    ensures After(s, steps, m).log <= After(s, steps, n).log
    decreases n
  {
    if m < n {
      LogKept(s, steps, m, n - 1);
      OneEntryAStep(s, steps, n - 1);
    }
  }

  /** Later entries are written by later steps. */
  lemma SourcesInOrder(s: State, steps: Steps, m: nat, i: nat, l: nat, j: nat)
    requires m < |steps| && l < |steps| && Wrote(s, steps, m, i) && Wrote(s, steps, l, j) && i < j
    ensures m < l
  {
    if l <= m { LogKept(s, steps, l, m); }
  }

  lemma LookWasTrue(s: State, p: nat, a: Action, k: Key, chat: Chat)
    requires Inv(s) && Enabled(s, p, a)
    requires |Step(s, p, a).log| == |s.log| + 1
    requires var e := Step(s, p, a).log[|s.log|];
      e.Looked? && e.p == p && e.w == k.wallet && Linked(k.chain, chat) in e.rows
    ensures a.Look? && ChatOf(s.store, k) == Some(chat)
  {
    var e := Step(s, p, a).log[|s.log|];
    assert a == Look(e.w, e.scope, e.rows);
    GuardIsExact(s.store, e.w, e.scope, e.rows);
    var i :| 0 <= i < |e.rows| && e.rows[i] == Linked(k.chain, chat);
    assert InScope(k.chain, e.scope);
    assert k == Key(e.w, k.chain);
  }

  lemma AnswerWasAsked(s: State, p: nat, a: Action, q: nat, w: string, chain: int, wait: Option<int>)
    requires Enabled(s, p, a) && |Step(s, p, a).log| == |s.log| + 1
    requires Step(s, p, a).log[|s.log|] == Answered(q, w, chain, wait)
    ensures q == p && a.Ask? && a.w == w && a.chain == chain && WaitOf(a.answer) == wait
  {
  }

  // ---------------------------------- was the chat linked at the answer?

  /** Step `i` took the chat from the row, where it then was missing up to the
      moment before step `l`. */
  ghost predicate TakenUntil(s: State, steps: Steps, i: nat, l: nat, k: Key, chat: Chat)
    requires i < l <= |steps|
  {
    LinkedAfter(s, steps, i, k, chat) && forall x | i < x <= l :: !LinkedAfter(s, steps, x, k, chat)
  }

  /** Step `r` linked the chat again, as a handshake or as a move that was due. */
  predicate PutBack(s: State, steps: Steps, r: nat, k: Key, chat: Chat)
    requires r < |steps|
  {
    var u, (p, a) := After(s, steps, r), steps[r];
    && Enabled(u, p, a)
    && ((a.Link? && a.k == k && a.chat == chat)
        || (a.ApplyDue? && u.log[a.at].found[a.id].key == k && u.log[a.at].found[a.id].kind == Replace(chat)))
  }

  lemma Arrival(s: State, p: nat, a: Action, k: Key, chat: Chat)
    requires Inv(s) && Enabled(s, p, a)
    requires ChatOf(s.store, k) != Some(chat) && ChatOf(Step(s, p, a).store, k) == Some(chat)
    ensures (a.Link? && a.k == k && a.chat == chat)
      || (a.ApplyDue? && s.log[a.at].found[a.id].key == k && s.log[a.at].found[a.id].kind == Replace(chat))
  {
    if a.Unlink? || a.Link? || a.Move? { assert GoodEvent(s.store, s.log, s.log[a.at]); }
    if a.Unlink? {
      UnlinkLeaves(s.store, s.log[a.at].w, s.log[a.at].scope, s.log[a.at].rows, a.delays, a.now);
    } else if a.Link? {
      LinkLeaves(s.store, a.k, s.log[a.at].rows, a.chat, a.now);
    } else if a.Move? {
      MoveLeaves(s.store, a.k, s.log[a.at].rows, a.chat, a.delay, a.now);
    }
  }

  lemma {:induction false} WhoPutItBack(s: State, steps: Steps, l: nat, n: nat, k: Key, chat: Chat) returns (r: nat)
    requires Start(s) && l <= n <= |steps|
    requires !LinkedAfter(s, steps, l, k, chat) && LinkedAfter(s, steps, n, k, chat)
    ensures l <= r < n && PutBack(s, steps, r, k, chat)
    decreases n
  {
    OneMoreStep(s, steps, n - 1);
    if LinkedAfter(s, steps, n - 1, k, chat) {
      r := WhoPutItBack(s, steps, l, n - 1, k, chat);
    } else {
      r := n - 1;
      EveryRun(s, steps[..n - 1]);
      Arrival(After(s, steps, n - 1), steps[n - 1].0, steps[n - 1].1, k, chat);
    }
  }

  lemma {:induction false} WhoTookIt(s: State, steps: Steps, m: nat, l: nat, k: Key, chat: Chat) returns (i: nat)
    requires m <= l <= |steps| && LinkedAfter(s, steps, m, k, chat) && !LinkedAfter(s, steps, l, k, chat)
    ensures m <= i < l && TakenUntil(s, steps, i, l, k, chat)
    decreases l
  {
    if LinkedAfter(s, steps, l - 1, k, chat) {
      i := l - 1;
    } else {
      i := WhoTookIt(s, steps, m, l - 1, k, chat);
    }
  }

  /** Step `l` read, for process `p`, that the account of the row is not protected. */
  predicate ReadOpen(steps: Steps, l: nat, p: nat, k: Key)
    requires l < |steps|
  {
    && steps[l].0 == p && steps[l].1.Ask?
    && steps[l].1.w == k.wallet && steps[l].1.chain == k.chain && WaitOf(steps[l].1.answer) == None
  }

  /** A request that removes a chat at once read the row while the chat was linked,
      and after that read the answer that the account is not protected. */
  lemma RemovalHistory(s: State, steps: Steps, n: nat, k: Key, chat: Chat) returns (m: nat, l: nat)
    requires Start(s) && n < |steps| && !steps[n].1.ApplyDue?
    requires LinkedAfter(s, steps, n, k, chat) && !LinkedAfter(s, steps, n + 1, k, chat)
    ensures m < l < n && steps[m].0 == steps[n].0 && steps[m].1.Look? && LinkedAfter(s, steps, m, k, chat)
    ensures ReadOpen(steps, l, steps[n].0, k)
  {
    NoSilentRemoval(s, steps, n, k, chat);
    var u := After(s, steps, n);
    var (p, a) := steps[n];
    assert OpenWhenRead(u.log, a.at, p, k, chat);
    var j :| a.at < j < |u.log| && u.log[j] == Answered(p, k.wallet, k.chain, None);
    m := LogSource(s, steps, n, a.at);
    l := LogSource(s, steps, n, j);
    SourcesInOrder(s, steps, m, a.at, l, j);
    OneMoreStep(s, steps, m);
    OneMoreStep(s, steps, l);
    EveryRun(s, steps[..m]);
    LookWasTrue(After(s, steps, m), steps[m].0, steps[m].1, k, chat);
    AnswerWasAsked(After(s, steps, l), steps[l].0, steps[l].1, p, k.wallet, k.chain, None);
  }

  /** Whether the chat was still linked when that answer was read: exactly when no
      step between the read of the row and the answer took the chat away and left
      it away. Such a step was itself no silent removal, and by the time of the
      request's own removal a handshake or a due move had linked the chat again. */
  lemma LinkedAtAnswerIff(s: State, steps: Steps, n: nat, m: nat, l: nat, k: Key, chat: Chat)
    requires Start(s) && m < l < n < |steps|
    requires LinkedAfter(s, steps, m, k, chat) && LinkedAfter(s, steps, n, k, chat)
    ensures LinkedAfter(s, steps, l, k, chat) <==> !exists i :: m <= i < l && TakenUntil(s, steps, i, l, k, chat)
    ensures forall i | m <= i < l && TakenUntil(s, steps, i, l, k, chat) ::
      Justified(After(s, steps, i), steps[i].0, steps[i].1, k, chat)
    ensures !LinkedAfter(s, steps, l, k, chat) ==> exists r :: l <= r < n && PutBack(s, steps, r, k, chat)
  {
    forall i | m <= i < l && TakenUntil(s, steps, i, l, k, chat)
      ensures Justified(After(s, steps, i), steps[i].0, steps[i].1, k, chat) && !LinkedAfter(s, steps, l, k, chat)
    {
      assert !LinkedAfter(s, steps, i + 1, k, chat);
      NoSilentRemoval(s, steps, i, k, chat);
    }
    if !LinkedAfter(s, steps, l, k, chat) {
      var i := WhoTookIt(s, steps, m, l, k, chat);
      assert m <= i < l && TakenUntil(s, steps, i, l, k, chat);
      var r := WhoPutItBack(s, steps, l, n, k, chat);
    }
  }

  // ------------------------------------------------- away and back again

  const OFF := Protection(false, 0)

  function LookAt(k: Key, chat: Chat): Action { Look(k.wallet, Some(k.chain), [Linked(k.chain, chat)]) }

  function Saw(p: nat, k: Key, chat: Chat): Event { Looked(p, k.wallet, Some(k.chain), [Linked(k.chain, chat)]) }

  lemma RowIs(s: Store, k: Key, chat: Chat)
    requires ChatOf(s, k) == Some(chat)
    ensures Readable([Linked(k.chain, chat)], Some(k.chain))
    ensures RowsAre(s, k.wallet, Some(k.chain), [Linked(k.chain, chat)])
    ensures GuardPasses(s, k.wallet, Some(k.chain), [Linked(k.chain, chat)])
  {
    GuardIsExact(s, k.wallet, Some(k.chain), [Linked(k.chain, chat)]);
  }

  /** A request that read the row, then that the account is not protected, and
      whose batch finds the row as it was read. */
  ghost predicate MayAct(s: State, p: nat, at: nat, k: Key, chat: Chat) {
    && Inv(s) && ChatOf(s.store, k) == Some(chat)
    && at < |s.log| && s.log[at] == Saw(p, k, chat) && AnsweredAfter(s.log, at, p, k.wallet, k.chain, None)
  }

  lemma LinkDone(s: State, p: nat, at: nat, k: Key, chat: Chat, to: Chat, now: int)
    requires MayAct(s, p, at, k, chat)
    ensures Enabled(s, p, Link(at, k, to, now))
    ensures var t := Step(s, p, Link(at, k, to, now));
      Inv(t) && ChatOf(t.store, k) == Some(to) && |t.log| == |s.log| + 1 && s.log <= t.log
  {
    RowIs(s.store, k, chat);
    LinkLeaves(s.store, k, [Linked(k.chain, chat)], to, now);
    EveryStep(s, p, Link(at, k, to, now));
  }

  lemma UnlinkDone(s: State, p: nat, at: nat, k: Key, chat: Chat, now: int)
    requires MayAct(s, p, at, k, chat)
    ensures Enabled(s, p, Action.Unlink(at, map[k.chain := None], now))
    ensures ChatOf(Step(s, p, Action.Unlink(at, map[k.chain := None], now)).store, k) == None
  {
    var rows, delays := [Linked(k.chain, chat)], map[k.chain := None];
    RowIs(s.store, k, chat);
    UnlinkLeaves(s.store, k.wallet, Some(k.chain), rows, delays, now);
    assert Pick(rows, delays, true) == [];
  }

  /** Request `p` reads the row, reads that the account is not protected, and
      links another chat. `at` is where its first log entry goes. */
  function Handover(p: nat, at: nat, k: Key, chat: Chat, to: Chat, now: int): Steps {
    [(p, LookAt(k, chat)), (p, Ask(k.wallet, k.chain, OFF)), (p, Link(at, k, to, now))]
  }

  lemma LookThenAsk(s: State, p: nat, k: Key, chat: Chat)
    requires Inv(s) && ChatOf(s.store, k) == Some(chat)
    ensures var t := Run(s, [(p, LookAt(k, chat)), (p, Ask(k.wallet, k.chain, OFF))]);
      MayAct(t, p, |s.log|, k, chat) && t.log == s.log + [Saw(p, k, chat), Answered(p, k.wallet, k.chain, None)]
      && t.store == s.store
  {
    RowIs(s.store, k, chat);
    var look, ask := (p, LookAt(k, chat)), (p, Ask(k.wallet, k.chain, OFF));
    RunOne(s, p, look.1);
    assert [look] + [ask] == [look, ask];
    RunOneMore(s, [look], ask);
    EveryRun(s, [look, ask]);
    var t := Run(s, [look, ask]);
    assert t.log[|s.log| + 1] == Answered(p, k.wallet, k.chain, None);
  }

  lemma HandedOver(s: State, p: nat, k: Key, chat: Chat, to: Chat, now: int)
    requires Inv(s) && ChatOf(s.store, k) == Some(chat)
    ensures var t := Run(s, Handover(p, |s.log|, k, chat, to, now));
      Inv(t) && ChatOf(t.store, k) == Some(to) && |t.log| == |s.log| + 3 && s.log <= t.log
  {
    var first := [(p, LookAt(k, chat)), (p, Ask(k.wallet, k.chain, OFF))];
    LookThenAsk(s, p, k, chat);
    LinkDone(Run(s, first), p, |s.log|, k, chat, to, now);
    RunOneMore(s, first, (p, Link(|s.log|, k, to, now)));
    assert first + [(p, Link(|s.log|, k, to, now))] == Handover(p, |s.log|, k, chat, to, now);
  }

  /** Request 0 reads chat `a`; request 1 moves the row to `b`; request 0 reads its
      answer; request 2 moves the row back to `a`. */
  function BeforeAnswer(k: Key, a: Chat, b: Chat, now: int): Steps { [(0, LookAt(k, a))] + Handover(1, 1, k, a, b, now) }

  function BeforeRemoval(k: Key, a: Chat, b: Chat, now: int): Steps {
    BeforeAnswer(k, a, b, now) + [(0, Ask(k.wallet, k.chain, OFF))] + Handover(2, 5, k, b, a, now)
  }

  lemma AwayAtTheAnswer(s: State, k: Key, a: Chat, b: Chat, now: int)
    requires Start(s) && Inv(s) && ChatOf(s.store, k) == Some(a)
    ensures var u := Run(s, BeforeAnswer(k, a, b, now));
      Inv(u) && ChatOf(u.store, k) == Some(b) && |u.log| == 4 && u.log[0] == Saw(0, k, a)
  {
    RowIs(s.store, k, a);
    RunOne(s, 0, LookAt(k, a));
    EveryRun(s, [(0, LookAt(k, a))]);
    HandedOver(Run(s, [(0, LookAt(k, a))]), 1, k, a, b, now);
    RunTwice(s, [(0, LookAt(k, a))], Handover(1, 1, k, a, b, now));
  }

  lemma BackAtTheRemoval(s: State, k: Key, a: Chat, b: Chat, now: int)
    requires Start(s) && Inv(s) && ChatOf(s.store, k) == Some(a)
    ensures MayAct(Run(s, BeforeRemoval(k, a, b, now)), 0, 0, k, a)
  {
    AwayAtTheAnswer(s, k, a, b, now);
    var first, ask, last := BeforeAnswer(k, a, b, now), Ask(k.wallet, k.chain, OFF), Handover(2, 5, k, b, a, now);
    RunOneMore(s, first, (0, ask));
    var u := Run(s, first + [(0, ask)]);
    EveryRun(s, first + [(0, ask)]);
    HandedOver(u, 2, k, b, a, now);
    RunTwice(s, first + [(0, ask)], last);
    assert u.log[4] == Answered(0, k.wallet, k.chain, None);
    assert Run(s, BeforeRemoval(k, a, b, now)).log[4] == u.log[4];
  }

  function Removal(k: Key, now: int): (nat, Action) { (0, Action.Unlink(0, map[k.chain := None], now)) }

  function AwayAndBack(k: Key, a: Chat, b: Chat, now: int): Steps { BeforeRemoval(k, a, b, now) + [Removal(k, now)] }

  lemma PartsOfTheRun(k: Key, a: Chat, b: Chat, now: int)
    ensures var steps, l := AwayAndBack(k, a, b, now), |BeforeAnswer(k, a, b, now)|;
      && l == 4 && |steps| == 9 && steps[..l] == BeforeAnswer(k, a, b, now) && steps[l] == (0, Ask(k.wallet, k.chain, OFF))
      && steps[..8] == BeforeRemoval(k, a, b, now) && steps[..9] == steps
  {
  }

  /** That can be so: in this run from any start, request 0 removes chat `a` at
      once, and read the answer it acts on while chat `b` was linked there. */
  lemma AnswerWhileAway(s: State, k: Key, a: Chat, b: Chat, now: int)
    requires Start(s) && ChatOf(s.store, k) == Some(a) && a != b
    ensures var steps := AwayAndBack(k, a, b, now);
      && |steps| == 9 && LinkedAfter(s, steps, 0, k, a) && ReadOpen(steps, 4, 0, k)
      && LinkedAfter(s, steps, 4, k, b) && !LinkedAfter(s, steps, 4, k, a)
      && LinkedAfter(s, steps, 8, k, a) && steps[8] == Removal(k, now) && !LinkedAfter(s, steps, 9, k, a)
  {
    PartsOfTheRun(k, a, b, now);
    NoneYet(s, AwayAndBack(k, a, b, now));
    assert Inv(s) by { EveryRun(s, []); }
    AwayAtTheAnswer(s, k, a, b, now);
    BackAtTheRemoval(s, k, a, b, now);
    UnlinkDone(Run(s, BeforeRemoval(k, a, b, now)), 0, 0, k, a, now);
    RunOneMore(s, BeforeRemoval(k, a, b, now), Removal(k, now));
  }

  // ---------------------------------------------------- two notices race

  /** Request 0 asks to unlink the protected row; tick 1 lists the new change
      before the request's notice is out. */
  function BothList(k: Key, chat: Chat, answer: Protection, delay: int, id: nat, asked: int): Steps {
    [(0, LookAt(k, chat)), (0, Ask(k.wallet, k.chain, answer)), (0, Action.Unlink(0, map[k.chain := Some(delay)], asked)),
     (1, Read(map[id := NewChange(k, Kind.Unlink, chat, delay, asked)]))]
  }

  /** Both tell the chat; the tick's mark lands first. */
  function BothTell(chat: Chat, delay: int, id: nat, asked: int, tick: int): Steps {
    [(0, Send(2, chat, {id}, asked, delay)), (1, Send(3, chat, {id}, tick, delay)), (1, Mark(5)), (0, Mark(4))]
  }

  lemma Pended(s: State, k: Key, chat: Chat, delay: int, asked: int)
    requires Inv(s) && ChatOf(s.store, k) == Some(chat) && |s.log| == 2 && s.log[0] == Saw(0, k, chat)
    requires s.log[1] == Answered(0, k.wallet, k.chain, Some(delay))
    ensures var (p, a) := (0, Action.Unlink(0, map[k.chain := Some(delay)], asked));
      var c := NewChange(k, Kind.Unlink, chat, delay, asked);
      && Enabled(s, p, a) && var t := Step(s, p, a);
      && Inv(t) && IsPending(t.store, s.store.nextId) && t.store.changes[s.store.nextId] == c
      && |t.log| == 3 && ListedAt(t.log, 2, 0) && Names(t.log[2].found, s.store.nextId, chat, delay)
  {
    var rows, delays := [Linked(k.chain, chat)], map[k.chain := Some(delay)];
    RowIs(s.store, k, chat);
    UnlinkLeaves(s.store, k.wallet, Some(k.chain), rows, delays, asked);
    EveryStep(s, 0, Action.Unlink(0, delays, asked));
    assert rows[1..] == [];
    assert Pick(rows, delays, true) == rows;
    var t := UnlinkBatch(s.store, k.wallet, Some(k.chain), rows, delays, asked).value;
    assert FreshUnlink(t, s.store.nextId + 0, k.wallet, rows[0], delays, asked);
  }

  lemma TickListsIt(s: State, id: nat, chat: Chat, delay: int)
    requires Inv(s) && |s.log| == 3 && IsPending(s.store, id) && s.store.changes[id].notifiedAt == None
    requires s.store.changes[id].oldChat == chat && s.store.changes[id].delay == delay
    requires ListedAt(s.log, 2, 0) && Names(s.log[2].found, id, chat, delay)
    ensures var a := Read(map[id := s.store.changes[id]]); Enabled(s, 1, a) && MayRace(Step(s, 1, a), id, chat, delay)
  {
    EveryStep(s, 1, Read(map[id := s.store.changes[id]]));
  }

  lemma BothListed(s: State, k: Key, chat: Chat, answer: Protection, delay: int, asked: int)
    requires Start(s) && Inv(s) && ChatOf(s.store, k) == Some(chat) && WaitOf(answer) == Some(delay)
    ensures MayRace(Run(s, BothList(k, chat, answer, delay, s.store.nextId, asked)), s.store.nextId, chat, delay)
  {
    var id := s.store.nextId;
    var first := [(0, LookAt(k, chat)), (0, Ask(k.wallet, k.chain, answer)),
                  (0, Action.Unlink(0, map[k.chain := Some(delay)], asked))];
    AskedThenPended(s, k, chat, answer, delay, asked);
    TickListsIt(Run(s, first), id, chat, delay);
    var read := (1, Read(map[id := NewChange(k, Kind.Unlink, chat, delay, asked)]));
    RunOneMore(s, first, read);
    assert first + [read] == BothList(k, chat, answer, delay, id, asked);
  }

  lemma AskedThenPended(s: State, k: Key, chat: Chat, answer: Protection, delay: int, asked: int)
    requires Start(s) && Inv(s) && ChatOf(s.store, k) == Some(chat) && WaitOf(answer) == Some(delay)
    ensures var t := Run(s, [(0, LookAt(k, chat)), (0, Ask(k.wallet, k.chain, answer)),
                             (0, Action.Unlink(0, map[k.chain := Some(delay)], asked))]);
      && Inv(t) && |t.log| == 3 && IsPending(t.store, s.store.nextId)
      && t.store.changes[s.store.nextId] == NewChange(k, Kind.Unlink, chat, delay, asked)
      && ListedAt(t.log, 2, 0) && Names(t.log[2].found, s.store.nextId, chat, delay)
  {
    var look, ask := (0, LookAt(k, chat)), (0, Ask(k.wallet, k.chain, answer));
    var remove := (0, Action.Unlink(0, map[k.chain := Some(delay)], asked));
    RowIs(s.store, k, chat);
    RunOne(s, 0, look.1);
    assert [look] + [ask] == [look, ask] && [look, ask] + [remove] == [look, ask, remove];
    RunOneMore(s, [look], ask);
    EveryRun(s, [look, ask]);
    Pended(Run(s, [look, ask]), k, chat, delay, asked);
    RunOneMore(s, [look, ask], remove);
  }

  /** Processes 0 and 1 have both listed a pending change nobody was told about. */
  ghost predicate MayRace(s: State, id: nat, chat: Chat, delay: int) {
    && Inv(s) && |s.log| == 4 && IsPending(s.store, id) && s.store.changes[id].notifiedAt == None
    && ListedAt(s.log, 2, 0) && Names(s.log[2].found, id, chat, delay)
    && ListedAt(s.log, 3, 1) && Names(s.log[3].found, id, chat, delay)
  }

  lemma MarksLand(s: State, id: nat, chat: Chat, delay: int, asked: int, tick: int)
    requires Inv(s) && |s.log| == 6 && IsPending(s.store, id) && s.store.changes[id].notifiedAt == None
    requires s.log[4] == Told(0, chat, {id}, asked, delay) && s.log[5] == Told(1, chat, {id}, tick, delay)
    ensures Enabled(s, 1, Mark(5)) && Enabled(Step(s, 1, Mark(5)), 0, Mark(4))
    ensures var t := Step(Step(s, 1, Mark(5)), 0, Mark(4));
      t.log == s.log && IsPending(t.store, id) && t.store.changes[id].effectiveAt == Some(tick + delay)
  {
    assert GoodEvent(s.store, s.log, s.log[5]);
  }

  lemma TheyTell(s: State, id: nat, chat: Chat, delay: int, asked: int, tick: int)
    requires MayRace(s, id, chat, delay)
    ensures var t := Run(s, [(0, Send(2, chat, {id}, asked, delay)), (1, Send(3, chat, {id}, tick, delay))]);
      && Inv(t) && t.store == s.store && |t.log| == 6
      && t.log[4] == Told(0, chat, {id}, asked, delay) && t.log[5] == Told(1, chat, {id}, tick, delay)
  {
    var a, b := (0, Send(2, chat, {id}, asked, delay)), (1, Send(3, chat, {id}, tick, delay));
    RunOne(s, a.0, a.1);
    assert [a] + [b] == [a, b];
    RunOneMore(s, [a], b);
    EveryRun(s, [a, b]);
  }

  lemma TheyRace(s: State, id: nat, chat: Chat, delay: int, asked: int, tick: int)
    requires MayRace(s, id, chat, delay)
    ensures var t := Run(s, BothTell(chat, delay, id, asked, tick));
      && |t.log| == 6 && t.log[4] == Told(0, chat, {id}, asked, delay)
      && IsPending(t.store, id) && t.store.changes[id].effectiveAt == Some(tick + delay)
  {
    var both := [(0, Send(2, chat, {id}, asked, delay)), (1, Send(3, chat, {id}, tick, delay))];
    TheyTell(s, id, chat, delay, asked, tick);
    MarksLand(Run(s, both), id, chat, delay, asked, tick);
    RunOneMore(s, both, (1, Mark(5)));
    RunOneMore(s, both + [(1, Mark(5))], (0, Mark(4)));
    assert both + [(1, Mark(5))] + [(0, Mark(4))] == BothTell(chat, delay, id, asked, tick);
  }

  /** The time an accepted notice states need not be the stored one: in this run
      from any start the chat was told that the wait ends a delay after `asked`,
      and it ends a delay after `tick`. */
  lemma StatedTimeMayBeLost(s: State, k: Key, chat: Chat, answer: Protection, delay: int, asked: int, tick: int)
    requires Start(s) && ChatOf(s.store, k) == Some(chat) && WaitOf(answer) == Some(delay) && asked != tick
    ensures var id := s.store.nextId;
      var t := Run(s, BothList(k, chat, answer, delay, id, asked) + BothTell(chat, delay, id, asked, tick));
      && |t.log| == 6 && t.log[4] == Told(0, chat, {id}, asked, delay)
      && IsPending(t.store, id) && t.store.changes[id].effectiveAt == Some(tick + delay) != Some(asked + delay)
  {
    var first := BothList(k, chat, answer, delay, s.store.nextId, asked);
    assert Inv(s) by { EveryRun(s, []); }
    BothListed(s, k, chat, answer, delay, asked);
    TheyRace(Run(s, first), s.store.nextId, chat, delay, asked, tick);
    RunTwice(s, first, BothTell(chat, delay, s.store.nextId, asked, tick));
  }
}
