/** The two lists a tick works through. */
module AlertQueue {
  import opened Wrappers
  import opened AlertStore

  const APPLY_BATCH := 50
  const NOTICE_RETRY := 30 * 60

  /** The order of a list: by rank, then by id. */
  predicate Precedes(rank: map<nat, int>, i: nat, j: nat)
    requires i in rank && j in rank
  {
    rank[i] < rank[j] || (rank[i] == rank[j] && i < j)
  }

  /** `batch` is the first `APPLY_BATCH` of `eligible`, in order. */
  ghost predicate IsFirst(eligible: set<nat>, rank: map<nat, int>, batch: seq<nat>)
    requires eligible <= rank.Keys
  {
    && (forall i | i in batch :: i in eligible)
    && (forall i, j :: 0 <= i < j < |batch| ==> Precedes(rank, batch[i], batch[j]))
    && (forall i, j | i in batch && j in eligible && j !in batch :: Precedes(rank, i, j))
    && |batch| <= APPLY_BATCH && (|batch| < APPLY_BATCH ==> forall i | i in eligible :: i in batch)
  }

  ghost predicate IsLeast(rank: map<nat, int>, left: set<nat>, m: nat)
    requires left <= rank.Keys
  {
    m in left && forall x | x in left && x != m :: Precedes(rank, m, x)
  }

  lemma {:induction false} LeastExists(rank: map<nat, int>, left: set<nat>) returns (m: nat)
    requires left != {} && left <= rank.Keys
    ensures IsLeast(rank, left, m)
    decreases |left|
  {
    var y :| y in left;
    m := y;
    if left != {y} {
      var least := LeastExists(rank, left - {y});
      m := if Precedes(rank, y, least) then y else least;
      forall x | x in left && x != m ensures Precedes(rank, m, x) {
        assert x == y || x in left - {y};
      }
    }
  }

  /** `ORDER BY rank, id LIMIT 50`. */
  method FirstOf(eligible: set<nat>, rank: map<nat, int>) returns (batch: seq<nat>)
    requires eligible <= rank.Keys
    ensures IsFirst(eligible, rank, batch)
  {
    batch := [];
    var left := eligible;
    while left != {} && |batch| < APPLY_BATCH
      invariant left <= eligible && |batch| <= APPLY_BATCH
      invariant forall i | i in eligible :: i in batch || i in left
      invariant forall i | i in batch :: i in eligible && i !in left
      invariant forall i, j :: 0 <= i < j < |batch| ==> Precedes(rank, batch[i], batch[j])
      invariant forall i, j | i in batch && j in left :: Precedes(rank, i, j)
      decreases |left|
    {
      ghost var least := LeastExists(rank, left);
      assert IsLeast(rank, left, least);
      var m :| m in left && forall x | x in left && x != m :: Precedes(rank, m, x);
      batch, left := batch + [m], left - {m};
    }
  }

  // ------------------------------------------------------------- notices

  /** Pending, and its chat not yet told. */
  predicate Waiting(s: Store, id: nat) { IsPending(s, id) && s.changes[id].notifiedAt.None? }

  /** `COALESCE(notice_attempt_at, 0)`. */
  function LastTry(c: Change): int { if c.attemptAt.Some? then c.attemptAt.value else 0 }

  function Tries(s: Store): map<nat, int> { map id | id in s.changes :: LastTry(s.changes[id]) }

  function Untold(s: Store, before: int): set<nat> {
    set id | id in s.changes && Waiting(s, id)
      && (s.changes[id].attemptAt.None? || s.changes[id].attemptAt.value <= before)
  }

  /** The changes still to be told that the retry order puts before `id`. */
  function Ahead(s: Store, id: nat): set<nat>
    requires id in s.changes
  {
    set x | x in s.changes && Waiting(s, x) && Precedes(Tries(s), x, id)
  }

  predicate StillWaits(s: Store, id: nat, last: int) {
    id in s.changes && Waiting(s, id) && LastTry(s.changes[id]) == last
  }

  function Members(batch: seq<nat>): set<nat> { set i | i in batch }

  lemma {:induction false} DistinctCount(batch: seq<nat>, rank: map<nat, int>)
    requires forall i | i in batch :: i in rank
    requires forall i, j :: 0 <= i < j < |batch| ==> Precedes(rank, batch[i], batch[j])
    ensures |Members(batch)| == |batch|
  {
    if batch != [] {
      var n := |batch| - 1;
      var init, last := batch[..n], batch[n];
      DistinctCount(init, rank);
      assert batch == init + [last];
      assert Members(batch) == Members(init) + {last};
      forall x | x in Members(init) ensures x != last {
        var i :| 0 <= i < n && batch[i] == x;
        assert Precedes(rank, batch[i], batch[n]);
      }
    }
  }

  lemma {:induction false} SubsetCount(a: set<nat>, b: set<nat>)
    requires a <= b
    ensures |a| <= |b|
  {
    assert b == a + (b - a);
  }
}
