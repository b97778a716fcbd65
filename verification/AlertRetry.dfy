/** Why the retry list starves nobody: over runs of the protocol in which ticks
    follow one another, with any steps of any other process in between. */
module AlertRetry {
  import opened Wrappers
  import opened AlertStore
  import opened AlertQueue
  import opened AlertProtocol

  // ------------------------------------------------- what a flow promises

  /** Each refusal the process stamps carries the time it runs at. */
  ghost predicate OwnStamps(steps: seq<(nat, Action)>, p: nat, now: int) {
    forall e | e in steps :: e.0 == p && e.1.MarkRefused? ==> e.1.now == now
  }

  /** In step `i` the process starts the wait of `id`, or stamps the refusal. */
  ghost predicate TriesAt(s: State, steps: seq<(nat, Action)>, i: nat, p: nat, id: nat, now: int)
    requires i < |steps|
  {
    var u, a := Run(s, steps[..i]), steps[i].1;
    && steps[i].0 == p && Enabled(u, p, a)
    && ((a.MarkRefused? && id in a.ids && a.now == now) || (a.Mark? && id in u.log[a.at].ids))
  }

  ghost predicate TriedBy(s: State, steps: seq<(nat, Action)>, p: nat, id: nat, now: int) {
    exists i :: 0 <= i < |steps| && TriesAt(s, steps, i, p, id, now)
  }

  ghost predicate TriesAll(s: State, steps: seq<(nat, Action)>, p: nat, ids: set<nat>, now: int) {
    forall id | id in ids :: TriedBy(s, steps, p, id, now)
  }

  /** The steps lead from `s` to `t`; those of process `p`, which runs at `now`,
      stamp only that time, and try every change of `ids`. */
  ghost predicate Leads(s: State, t: State, steps: seq<(nat, Action)>, p: nat, ids: set<nat>, now: int) {
    Run(s, steps) == t && OwnStamps(steps, p, now) && TriesAll(s, steps, p, ids, now)
  }

  lemma InSecond<T>(a: seq<T>, b: seq<T>, i: nat)
    requires i < |b|
    ensures (a + b)[..|a| + i] == a + b[..i] && (a + b)[|a| + i] == b[i]
  {
  }

  lemma TriedLater(s: State, a: seq<(nat, Action)>, b: seq<(nat, Action)>, p: nat, id: nat, now: int)
    requires TriedBy(Run(s, a), b, p, id, now)
    ensures TriedBy(s, a + b, p, id, now)
  {
    var i :| 0 <= i < |b| && TriesAt(Run(s, a), b, i, p, id, now);
    RunTwice(s, a, b[..i]);
    InSecond(a, b, i);
    assert TriesAt(s, a + b, |a| + i, p, id, now);
  }

  lemma TriedBefore(s: State, a: seq<(nat, Action)>, b: seq<(nat, Action)>, p: nat, id: nat, now: int)
    requires TriedBy(s, a, p, id, now)
    ensures TriedBy(s, a + b, p, id, now)
  {
    var i :| 0 <= i < |a| && TriesAt(s, a, i, p, id, now);
    assert (a + b)[..i] == a[..i] && (a + b)[i] == a[i];
    assert TriesAt(s, a + b, i, p, id, now);
  }

  lemma LeadsOn(s: State, t: State, u: State, a: seq<(nat, Action)>, b: seq<(nat, Action)>, p: nat,
                ids: set<nat>, more: set<nat>, now: int)
    requires Leads(s, t, a, p, ids, now) && Leads(t, u, b, p, more, now)
    ensures Leads(s, u, a + b, p, ids + more, now)
  {
    RunTwice(s, a, b);
    forall id | id in ids + more ensures TriedBy(s, a + b, p, id, now) {
      if id in ids { TriedBefore(s, a, b, p, id, now); } else { TriedLater(s, a, b, p, id, now); }
    }
  }

  // --------------------------------------------------- stamps over a run

  /** Nobody who is not `p` stamps a refusal at or before `last`. */
  ghost predicate OthersAfter(steps: seq<(nat, Action)>, p: nat, last: int) {
    forall e | e in steps :: e.0 != p && e.1.MarkRefused? ==> last < e.1.now
  }

  ghost predicate StampsAfter(steps: seq<(nat, Action)>, last: int) {
    forall e | e in steps :: e.1.MarkRefused? ==> last < e.1.now
  }

  predicate TriedAfter(c: Change, last: int) { c.attemptAt.Some? && last < c.attemptAt.value }

  /** A change still to be told in `t` was already to be told in `s`, with the
      same stamp, unless it is new; or its stamp is later than `last`. */
  ghost predicate StampsKept(s: Store, t: Store, last: int) {
    && s.nextId <= t.nextId
    && forall id | id in t.changes && Waiting(t, id) :: StampKept(s, t, id, last)
  }

  predicate StampKept(s: Store, t: Store, id: nat, last: int)
    requires id in t.changes
  {
    if id < s.nextId then
      && id in s.changes && Waiting(s, id)
      && (t.changes[id].attemptAt == s.changes[id].attemptAt || TriedAfter(t.changes[id], last))
    else id < t.nextId && (t.changes[id].attemptAt == None || TriedAfter(t.changes[id], last))
  }

  lemma StampsKeptTrans(s: Store, t: Store, u: Store, last: int)
    requires StampsKept(s, t, last) && StampsKept(t, u, last)
    ensures StampsKept(s, u, last)
  {
    forall id | id in u.changes && Waiting(u, id) ensures StampKept(s, u, id, last) {
      assert StampKept(t, u, id, last);
      if id < t.nextId { assert StampKept(s, t, id, last); }
    }
  }

  lemma StepKeepsStamps(s: State, p: nat, a: Action, last: int)
    requires Inv(s) && Enabled(s, p, a) && (a.MarkRefused? ==> last < a.now)
    ensures StampsKept(s.store, Step(s, p, a).store, last)
  {
    if a.Unlink? || a.Link? || a.Move? {
      BatchKeepsStamps(s, p, a, last);
    } else {
      StatementKeepsStamps(s, p, a, last);
    }
  }

  lemma StatementKeepsStamps(s: State, p: nat, a: Action, last: int)
    requires Inv(s) && Enabled(s, p, a) && (a.MarkRefused? ==> last < a.now)
    requires !a.Unlink? && !a.Link? && !a.Move?
    ensures StampsKept(s.store, Step(s, p, a).store, last)
  {
  }

  lemma BatchKeepsStamps(s: State, p: nat, a: Action, last: int)
    requires Inv(s) && Enabled(s, p, a) && (a.Unlink? || a.Link? || a.Move?)
    ensures StampsKept(s.store, Step(s, p, a).store, last)
  {
    var t := Step(s, p, a).store;
    if a.Unlink? {
      var o := s.log[a.at];
      assert GoodEvent(s.store, s.log, o);
      UnlinkLeaves(s.store, o.w, o.scope, o.rows, a.delays, a.now);
      if t != s.store { UnlinkKeepsStamps(s.store, t, o.w, o.scope, o.rows, a.delays, a.now, last); }
    }
  }

  lemma UnlinkKeepsStamps(s: Store, t: Store, w: string, scope: Option<int>, observed: seq<Linked>,
                          delays: map<int, Option<int>>, now: int, last: int)
    requires Tracks(s) && Unlinked(s, t, w, scope, observed, delays, now)
    ensures StampsKept(s, t, last)
  {
    var waiting := Pick(observed, delays, true);
    forall id | id in t.changes && Waiting(t, id) ensures StampKept(s, t, id, last) {
      if id !in s.changes {
        assert FreshUnlink(t, s.nextId + (id - s.nextId), w, waiting[id - s.nextId], delays, now);
      }
    }
  }

  lemma {:induction false} RunKeepsStamps(s: State, steps: seq<(nat, Action)>, last: int)
    requires Inv(s) && StampsAfter(steps, last)
    ensures StampsKept(s.store, Run(s, steps).store, last)
    decreases |steps|
  {
    if steps == [] {
      assert forall id | id in s.store.changes :: id < s.store.nextId;
    } else {
      var init, e := steps[..|steps| - 1], steps[|steps| - 1];
      RunKeepsStamps(s, init, last);
      EveryRun(s, init);
      if Enabled(Run(s, init), e.0, e.1) {
        StepKeepsStamps(Run(s, init), e.0, e.1, last);
        StampsKeptTrans(s.store, Run(s, init).store, Run(s, steps).store, last);
      }
    }
  }

  /** The step that tries a change leaves it told or stamped. */
  lemma TryingStamps(s: State, p: nat, a: Action, id: nat, now: int)
    requires Enabled(s, p, a)
    requires (a.MarkRefused? && id in a.ids && a.now == now) || (a.Mark? && id in s.log[a.at].ids)
    ensures var t := Step(s, p, a).store;
      id in t.changes && Waiting(t, id) ==> t.changes[id].attemptAt == Some(now)
  {
  }

  lemma StampStays(s: State, steps: seq<(nat, Action)>, id: nat, last: int)
    requires Inv(s) && StampsAfter(steps, last) && id < s.store.nextId
    requires id in s.store.changes && Waiting(s.store, id) ==> TriedAfter(s.store.changes[id], last)
    requires id in Run(s, steps).store.changes && Waiting(Run(s, steps).store, id)
    ensures TriedAfter(Run(s, steps).store.changes[id], last)
  {
    RunKeepsStamps(s, steps, last);
    assert StampKept(s.store, Run(s, steps).store, id, last);
  }

  /** A change that a run tried and that is still to be told has a late stamp. */
  lemma TriedIsStamped(s: State, steps: seq<(nat, Action)>, p: nat, id: nat, now: int, last: int)
    requires Inv(s) && StampsAfter(steps, last) && last < now && id < s.store.nextId
    requires TriedBy(s, steps, p, id, now)
    requires id in Run(s, steps).store.changes && Waiting(Run(s, steps).store, id)
    ensures TriedAfter(Run(s, steps).store.changes[id], last)
  {
    var i :| 0 <= i < |steps| && TriesAt(s, steps, i, p, id, now);
    AfterTrying(s, steps, i, p, id, now);
    CutAt(steps, i + 1);
    StampStaysAfter(s, steps[..i + 1], steps[i + 1..], id, now, last);
  }

  lemma CutAt<T>(s: seq<T>, i: nat)
    requires i <= |s|
    ensures s[..i] + s[i..] == s
  {
  }

  lemma StampStaysAfter(s: State, a: seq<(nat, Action)>, b: seq<(nat, Action)>, id: nat, now: int, last: int)
    requires Inv(s) && StampsAfter(a + b, last) && last < now && id < s.store.nextId
    requires var t := Run(s, a).store; id in t.changes && Waiting(t, id) ==> t.changes[id].attemptAt == Some(now)
    requires id in Run(s, a + b).store.changes && Waiting(Run(s, a + b).store, id)
    ensures TriedAfter(Run(s, a + b).store.changes[id], last)
  {
    assert (forall e | e in a :: e in a + b) && forall e | e in b :: e in a + b;
    EveryRun(s, a);
    NextIdGrows(s, a, last);
    RunTwice(s, a, b);
    StampStays(Run(s, a), b, id, last);
  }

  lemma AfterTrying(s: State, steps: seq<(nat, Action)>, i: nat, p: nat, id: nat, now: int)
    requires i < |steps| && TriesAt(s, steps, i, p, id, now)
    ensures var t := Run(s, steps[..i + 1]).store;
      id in t.changes && Waiting(t, id) ==> t.changes[id].attemptAt == Some(now)
  {
    var e := steps[i];
    TryingStamps(Run(s, steps[..i]), p, e.1, id, now);
    RunOneMore(s, steps[..i], e);
    assert steps[..i] + [e] == steps[..i + 1];
  }

  lemma NextIdGrows(s: State, steps: seq<(nat, Action)>, last: int)
    requires Inv(s) && StampsAfter(steps, last)
    ensures s.store.nextId <= Run(s, steps).store.nextId
  {
    RunKeepsStamps(s, steps, last);
  }

  // -------------------------------------------------------------- rounds

  /** From one tick's retry list to the next one's: the state when it listed, its
      process and time, its list, and every step up to the next list. */
  datatype Round = Round(s: State, p: nat, now: int, batch: seq<nat>, steps: seq<(nat, Action)>)

  /** What the tick does in its round. */
  ghost predicate Retries(r: Round) {
    && IsFirst(Untold(r.s.store, r.now - NOTICE_RETRY), Tries(r.s.store), r.batch)
    && Leads(r.s, Run(r.s, r.steps), r.steps, r.p, Members(r.batch), r.now)
  }

  /** The round goes on while others take their steps. */
  lemma RetriesOn(r: Round, more: seq<(nat, Action)>)
    requires Retries(r) && OwnStamps(more, r.p, r.now)
    ensures Retries(r.(steps := r.steps + more))
  {
    var end := Run(r.s, r.steps);
    RunTwice(r.s, r.steps, more);
    LeadsOn(r.s, end, Run(end, more), r.steps, more, r.p, Members(r.batch), {}, r.now);
    assert Members(r.batch) + {} == Members(r.batch);
  }

  /** The next tick lists in the state this round ends in, at a later time. */
  predicate Follows(r: Round, next: Round) { next.s == Run(r.s, r.steps) && r.now < next.now }

  /** The changes recorded since `first` that nobody has tried to tell yet. */
  function Untried(s: Store, first: nat): set<nat> {
    set id | id in s.changes && first <= id && Waiting(s, id) && s.changes[id].attemptAt == None
  }

  /** No other process stamps a refusal at or before `last` in this round, and
      at its end at most `m` new changes have not been tried by their request. */
  ghost predicate Calm(r: Round, last: int, m: nat) {
    OthersAfter(r.steps, r.p, last) && |Untried(Run(r.s, r.steps).store, r.s.store.nextId)| <= m
  }

  /** The tick lists `id`, or it was closed, told, or tried since `last`. */
  ghost predicate Attempted(r: Round, id: nat, last: int) {
    id in r.batch || !StillWaits(r.s.store, id, last)
  }

  /** A tick that does not reach `id` was full of changes ahead of it. */
  lemma FullBatch(r: Round, id: nat, last: int)
    requires Retries(r) && last <= r.now - NOTICE_RETRY && !Attempted(r, id, last)
    ensures |r.batch| == APPLY_BATCH && Members(r.batch) <= Ahead(r.s.store, id)
  {
    assert id in Untold(r.s.store, r.now - NOTICE_RETRY);
  }

  /** Who may be ahead of `id` at the next list: those ahead of it now that this
      tick did not list, and the new changes nobody has tried. */
  lemma AheadNext(r: Round, id: nat, last: int, x: nat)
    requires Inv(r.s) && Retries(r) && last < r.now && OthersAfter(r.steps, r.p, last)
    requires StillWaits(r.s.store, id, last) && id < r.s.store.nextId
    requires StillWaits(Run(r.s, r.steps).store, id, last) && x in Ahead(Run(r.s, r.steps).store, id)
    ensures x in Ahead(r.s.store, id) - Members(r.batch) || x in Untried(Run(r.s, r.steps).store, r.s.store.nextId)
  {
    var t := Run(r.s, r.steps);
    assert StampsAfter(r.steps, last);
    RunKeepsStamps(r.s, r.steps, last);
    assert StampKept(r.s.store, t.store, x, last);
    if x < r.s.store.nextId && x in Members(r.batch) {
      TriedIsStamped(r.s, r.steps, r.p, x, r.now, last);
    }
  }

  /** Before the next tick the line ahead of `id` is shorter by a whole batch,
      but for the new changes nobody has tried. */
  lemma LineShrinks(r: Round, id: nat, last: int, m: nat)
    requires Inv(r.s) && Retries(r) && Calm(r, last, m)
    requires last <= r.now - NOTICE_RETRY && id < r.s.store.nextId && !Attempted(r, id, last)
    requires StillWaits(Run(r.s, r.steps).store, id, last)
    ensures |Ahead(Run(r.s, r.steps).store, id)| + APPLY_BATCH <= |Ahead(r.s.store, id)| + m
  {
    var t, listed := Run(r.s, r.steps).store, Members(r.batch);
    var untried := Untried(t, r.s.store.nextId);
    FullBatch(r, id, last);
    DistinctCount(r.batch, Tries(r.s.store));
    forall x | x in Ahead(t, id) ensures x in (Ahead(r.s.store, id) - listed) + untried {
      AheadNext(r, id, last, x);
    }
    SubsetCount(Ahead(t, id), (Ahead(r.s.store, id) - listed) + untried);
    assert |(Ahead(r.s.store, id) - listed) + untried| <= |Ahead(r.s.store, id) - listed| + |untried|;
    assert |Ahead(r.s.store, id) - listed| == |Ahead(r.s.store, id)| - |listed|;
  }

  /** A change the tick did not reach has, at the next list, a shorter line. */
  lemma NextRound(r: Round, next: Round, id: nat, last: int, n: nat, m: nat)
    requires Inv(r.s) && Retries(r) && Calm(r, last, m) && Follows(r, next)
    requires last <= r.now - NOTICE_RETRY && id < r.s.store.nextId && !Attempted(r, id, last)
    requires |Ahead(r.s.store, id)| <= n
    ensures APPLY_BATCH <= n && Inv(next.s) && id < next.s.store.nextId && last <= next.now - NOTICE_RETRY
    ensures StillWaits(next.s.store, id, last) ==> |Ahead(next.s.store, id)| <= n - APPLY_BATCH + m
  {
    FullBatchNeeds(r, id, last, n);
    EveryRun(r.s, r.steps);
    assert StampsAfter(r.steps, last);
    NextIdGrows(r.s, r.steps, last);
    if StillWaits(next.s.store, id, last) { LineShrinks(r, id, last, m); }
  }

  /** The ticks follow one another, each does what a tick does, and each round is
      calm. */
  ghost predicate Rounds(rounds: seq<Round>, last: int, m: nat) {
    && (forall i :: 0 <= i < |rounds| ==> Retries(rounds[i]) && Calm(rounds[i], last, m))
    && (forall i, j :: 0 <= i && j == i + 1 && j < |rounds| ==> Follows(rounds[i], rounds[j]))
  }

  /** Ticks follow one another in a run from a state that holds the invariant, as
      every reachable one does; the retry wait of `id` is over at the first, when
      it has at most `n` others ahead of it. */
  ghost predicate InLine(rounds: seq<Round>, id: nat, last: int, n: nat, m: nat) {
    && rounds != [] && Rounds(rounds, last, m)
    && Inv(rounds[0].s) && last <= rounds[0].now - NOTICE_RETRY && id < rounds[0].s.store.nextId
    && (id in rounds[0].s.store.changes ==> |Ahead(rounds[0].s.store, id)| <= n)
  }

  /** What `i` ticks take from the line, when each takes `k`. */
  function Taken(i: nat, k: nat): nat { if i == 0 then 0 else Taken(i - 1, k) + k }

  lemma {:induction false} TakenIs(i: nat, k: nat)
    ensures Taken(i, k) == i * k
  {
    if i > 0 {
      TakenIs(i - 1, k);
      assert i * k == (i - 1) * k + k;
    }
  }

  lemma {:induction false} ServedInTurn(rounds: seq<Round>, id: nat, last: int, n: nat, m: nat, k: nat) returns (i: nat)
    requires m + k == APPLY_BATCH && InLine(rounds, id, last, n, m) && Taken(|rounds|, k) > n
    ensures i < |rounds| && Taken(i, k) <= n && Attempted(rounds[i], id, last)
    decreases |rounds|
  {
    i := 0;
    if !Attempted(rounds[0], id, last) {
      LineAfter(rounds, id, last, n, m, k);
      i := 1;
      if StillWaits(rounds[1].s.store, id, last) {
        i := ServedInTurn(rounds[1..], id, last, n - k, m, k);
        i := i + 1;
      }
    }
  }

  /** There is a next round, and there at most `n - k` are ahead. */
  lemma LineAfter(rounds: seq<Round>, id: nat, last: int, n: nat, m: nat, k: nat)
    requires m + k == APPLY_BATCH && InLine(rounds, id, last, n, m) && Taken(|rounds|, k) > n
    requires !Attempted(rounds[0], id, last)
    ensures |rounds| > 1 && k <= n && Taken(|rounds[1..]|, k) > n - k
    ensures StillWaits(rounds[1].s.store, id, last) ==> InLine(rounds[1..], id, last, n - k, m)
  {
    FullBatchNeeds(rounds[0], id, last, n);
    assert Taken(1, k) == k && Taken(|rounds|, k) == Taken(|rounds| - 1, k) + k;
    NextRound(rounds[0], rounds[1], id, last, n, m);
    RoundsRest(rounds, last, m);
  }

  /** The retry starves nobody. Let no other process stamp a refusal at or before
      the stamp of `id`, which is to say that no request still running is older
      than the retry wait, and let each round end with at most `m < 50` changes
      that their own request has not tried. Then `id` is listed, or closed, told
      or tried otherwise, by tick `n / (50 - m)`, counting from 0. */
  lemma NeverStarves(rounds: seq<Round>, id: nat, last: int, n: nat, m: nat) returns (i: nat)
    requires m < APPLY_BATCH && InLine(rounds, id, last, n, m) && |rounds| * (APPLY_BATCH - m) > n
    ensures i < |rounds| && i * (APPLY_BATCH - m) <= n && Attempted(rounds[i], id, last)
  {
    TakenIs(|rounds|, APPLY_BATCH - m);
    i := ServedInTurn(rounds, id, last, n, m, APPLY_BATCH - m);
    TakenIs(i, APPLY_BATCH - m);
  }

  lemma FullBatchNeeds(r: Round, id: nat, last: int, n: nat)
    requires Retries(r) && last <= r.now - NOTICE_RETRY && !Attempted(r, id, last) && |Ahead(r.s.store, id)| <= n
    ensures APPLY_BATCH <= n
  {
    FullBatch(r, id, last);
    DistinctCount(r.batch, Tries(r.s.store));
    SubsetCount(Members(r.batch), Ahead(r.s.store, id));
  }

  lemma RoundsRest(rounds: seq<Round>, last: int, m: nat)
    requires rounds != [] && Rounds(rounds, last, m)
    ensures Rounds(rounds[1..], last, m)
  {
    var rest := rounds[1..];
    forall i, j | 0 <= i && j == i + 1 && j < |rest| ensures Follows(rest[i], rest[j]) {
      assert Follows(rounds[i + 1], rounds[j + 1]);
    }
  }
}
