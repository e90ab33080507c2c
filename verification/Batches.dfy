/** "ORDER BY deadline LIMIT n" over the due rows, and what repeated sweeps of such batches do. */
module Batches {
  import opened Common
  import opened StateMachine
  import opened Notifications

  const BATCH_SIZE := 100

  datatype Kind = Wake | Expire

  function Deadline(kind: Kind, row: Row): Option<Time> {
    match kind
    case Wake => row.snoozedUntil
    case Expire => row.expiresAt
  }

  predicate IsDue(kind: Kind, row: Row, now: Time) {
    match kind
    case Wake => WakeDue(row, now)
    case Expire => ExpireDue(row, now)
  }

  /** The due rows of a table with their deadlines. */
  function Due(kind: Kind, t: Table, now: Time): map<Id, Time> {
    map id | id in t && IsDue(kind, t[id], now) :: Deadline(kind, t[id]).value
  }

  function Sweep(kind: Kind, rows: set<Id>): Statement {
    match kind
    case Wake => WakeRows(rows)
    case Expire => ExpireRows(rows)
  }

  function Elements(s: seq<Id>): set<Id> {
    set id | id in s
  }

  lemma {:induction false} DistinctSize(s: seq<Id>)
    requires Distinct(s)
    ensures |Elements(s)| == |s|
  {
    if s != [] {
      var init, last := s[..|s| - 1], s[|s| - 1];
      DistinctSize(init);
      assert s == init + [last];
      assert Elements(s) == Elements(init) + {last};
    }
  }

  /** The `limit` earliest of the given rows, earliest first. */
  ghost predicate IsBatch(due: map<Id, Time>, limit: nat, batch: seq<Id>) {
    && Distinct(batch) && Elements(batch) <= due.Keys
    && |batch| == Min(limit, |due.Keys|)
    && (forall a, b :: 0 <= a < b < |batch| ==> due[batch[a]] <= due[batch[b]])
    && (forall id, other :: id in batch && other in due && other !in batch ==> due[id] <= due[other])
  }

  method Earliest(due: map<Id, Time>, rows: set<Id>) returns (first: Id)
    requires rows != {} && rows <= due.Keys
    ensures first in rows && forall id :: id in rows ==> due[first] <= due[id]
  {
    first :| first in rows;
    var rest := rows - {first};
    while rest != {}
      invariant rest <= rows && first in rows
      invariant forall id :: id in rows - rest ==> due[first] <= due[id]
      decreases rest
    {
      var id :| id in rest;
      if due[id] < due[first] {
        first := id;
      }
      rest := rest - {id};
    }
  }

  /** The batch so far holds the earliest rows, and `rest` the others. */
  ghost predicate Picked(due: map<Id, Time>, batch: seq<Id>, rest: set<Id>) {
    && Distinct(batch)
    && (forall id :: id in due <==> id in batch || id in rest)
    && (forall id :: id in batch ==> id !in rest)
    && (forall a, b :: 0 <= a < b < |batch| ==> due[batch[a]] <= due[batch[b]])
    && (forall id, other :: id in batch && other in rest ==> due[id] <= due[other])
  }

  lemma PickOne(due: map<Id, Time>, batch: seq<Id>, rest: set<Id>, first: Id)
    requires Picked(due, batch, rest) && first in rest && forall id :: id in rest ==> due[first] <= due[id]
    ensures Picked(due, batch + [first], rest - {first})
  {
    assert forall a :: 0 <= a < |batch| ==> batch[a] in batch;
    assert forall id :: id in batch + [first] <==> id in batch || id == first;
  }

  lemma PickedSize(due: map<Id, Time>, batch: seq<Id>, rest: set<Id>)
    requires Picked(due, batch, rest)
    ensures |due.Keys| == |batch| + |rest|
  {
    DistinctSize(batch);
    SplitSize(due.Keys, Elements(batch), rest);
  }

  /** Picks a batch. Ties between deadlines may fall either way, as they may in the database. */
  method Select(due: map<Id, Time>, limit: nat) returns (batch: seq<Id>)
    ensures IsBatch(due, limit, batch)
  {
    batch := [];
    var rest := due.Keys;
    while |batch| < limit && rest != {}
      invariant |batch| <= limit && Picked(due, batch, rest)
      decreases rest
    {
      var first := Earliest(due, rest);
      PickOne(due, batch, rest, first);
      batch, rest := batch + [first], rest - {first};
    }
    PickedSize(due, batch, rest);
  }

  // ---------- repeated sweeps ----------

  /** `batches` are what consecutive sweeps pick, with nothing else going on and the clock still. */
  ghost predicate IsDrain(kind: Kind, t: Table, now: Time, limit: nat, batches: seq<seq<Id>>)
    decreases |batches|
  {
    batches == [] ||
    (IsBatch(Due(kind, t, now), limit, batches[0])
     && IsDrain(kind, Run(t, Sweep(kind, Elements(batches[0])), now), now, limit, batches[1..]))
  }

  function AfterDrain(kind: Kind, t: Table, now: Time, batches: seq<seq<Id>>): Table
    decreases |batches|
  {
    if batches == [] then t
    else AfterDrain(kind, Run(t, Sweep(kind, Elements(batches[0])), now), now, batches[1..])
  }

  /** One sweep moves exactly its batch on and leaves the other due rows due, with their deadlines. */
  lemma SweepTakesBatch(kind: Kind, t: Table, now: Time, batch: set<Id>)
    requires batch <= Due(kind, t, now).Keys
    ensures Affected(t, Sweep(kind, batch), now) == batch
    ensures Due(kind, Run(t, Sweep(kind, batch), now), now) == Due(kind, t, now) - batch
  {
    var t' := Run(t, Sweep(kind, batch), now);
    forall id | id in t ensures IsDue(kind, t'[id], now) <==> IsDue(kind, t[id], now) && id !in batch {
    }
  }

  /** What waking and expiring do to a row, which must be due. */
  predicate Swept(kind: Kind, before: Row, after: Row, now: Time) {
    match kind
    case Wake =>
      && before.state == Snoozed && before.snoozedUntil.Some? && before.snoozedUntil.value <= now
      && after == before.(state := Unread, snoozedUntil := None, updatedAt := now)
    case Expire =>
      && before.state in {Unseen, Unread, Read} && before.expiresAt.Some? && before.expiresAt.value <= now
      && after == before.(state := Expired, updatedAt := now)
  }

  /** A sweep of due rows does that to each of them, and nothing else. */
  lemma SweepSets(kind: Kind, t: Table, now: Time, batch: set<Id>)
    requires batch <= Due(kind, t, now).Keys
    ensures OnlyChanged(t, Run(t, Sweep(kind, batch), now), batch)
    ensures forall id :: id in batch ==> id in t && Swept(kind, t[id], Run(t, Sweep(kind, batch), now)[id], now)
  {
  }

  /** Exactly which rows are due, and when they became so. */
  lemma DueMeans(kind: Kind, t: Table, now: Time, id: Id)
    ensures var due := Due(kind, t, now);
            match kind
            case Wake =>
              && (id in due <==> id in t && t[id].state == Snoozed
                                 && t[id].snoozedUntil.Some? && t[id].snoozedUntil.value <= now)
              && (id in due ==> due[id] == t[id].snoozedUntil.value)
            case Expire =>
              && (id in due <==> id in t && t[id].state in {Unseen, Unread, Read}
                                 && t[id].expiresAt.Some? && t[id].expiresAt.value <= now)
              && (id in due ==> due[id] == t[id].expiresAt.value)
  {
  }

  lemma TakeBatch(due: map<Id, Time>, limit: nat, batch: seq<Id>)
    requires IsBatch(due, limit, batch)
    ensures |(due - Elements(batch)).Keys| == Max(0, |due.Keys| - limit)
  {
    DistinctSize(batch);
    assert (due - Elements(batch)).Keys == due.Keys - Elements(batch);
    SplitSize(due.Keys, due.Keys - Elements(batch), Elements(batch));
  }

  /** max(0, n - kB) */
  function Leftover(n: nat, limit: nat, sweeps: nat): nat {
    Max(0, n - sweeps * limit)
  }

  lemma LeftoverStep(n: nat, limit: nat, sweeps: nat)
    requires sweeps > 0
    ensures Leftover(Max(0, n - limit), limit, sweeps - 1) == Leftover(n, limit, sweeps)
  {
    assert sweeps * limit == (sweeps - 1) * limit + limit;
    assert (sweeps - 1) * limit >= 0;
  }

  /** What is left was due before, and no row taken had a later deadline. */
  ghost predicate EarliestTaken(before: map<Id, Time>, left: map<Id, Time>) {
    && (forall id :: id in left ==> id in before && left[id] == before[id])
    && (forall id, other :: id in before && id !in left && other in left ==> before[id] <= before[other])
  }

  /** Taking a batch and then the earliest of the others takes the earliest. */
  lemma BatchThenEarliest(before: map<Id, Time>, limit: nat, batch: seq<Id>, left: map<Id, Time>)
    requires IsBatch(before, limit, batch) && EarliestTaken(before - Elements(batch), left)
    ensures EarliestTaken(before, left)
  {
    var middle := before - Elements(batch);
    forall id, other | id in before && id !in left && other in left ensures before[id] <= before[other] {
      assert other in middle && other !in batch;
      assert id in batch || id in middle;
    }
  }

  lemma {:induction false} DrainTakesEarliest(kind: Kind, t: Table, now: Time, limit: nat, batches: seq<seq<Id>>)
    requires IsDrain(kind, t, now, limit, batches)
    ensures EarliestTaken(Due(kind, t, now), Due(kind, AfterDrain(kind, t, now, batches), now))
    decreases |batches|
  {
    if batches != [] {
      var batch, t' := batches[0], Run(t, Sweep(kind, Elements(batches[0])), now);
      SweepTakesBatch(kind, t, now, Elements(batch));
      DrainTakesEarliest(kind, t', now, limit, batches[1..]);
      BatchThenEarliest(Due(kind, t, now), limit, batch, Due(kind, AfterDrain(kind, t', now, batches[1..]), now));
    }
  }

  lemma {:induction false} DrainCounts(kind: Kind, t: Table, now: Time, limit: nat, batches: seq<seq<Id>>)
    requires IsDrain(kind, t, now, limit, batches)
    ensures |Due(kind, AfterDrain(kind, t, now, batches), now).Keys|
            == Leftover(|Due(kind, t, now).Keys|, limit, |batches|)
    decreases |batches|
  {
    if batches != [] {
      var batch, t' := batches[0], Run(t, Sweep(kind, Elements(batches[0])), now);
      SweepTakesBatch(kind, t, now, Elements(batch));
      TakeBatch(Due(kind, t, now), limit, batch);
      DrainCounts(kind, t', now, limit, batches[1..]);
      LeftoverStep(|Due(kind, t, now).Keys|, limit, |batches|);
    }
  }

  /** With n rows due, k sweeps of batch size B leave exactly max(0, n - kB) due; those left were all
      due before, and none of them had an earlier deadline than a row taken. */
  lemma DrainLeaves(kind: Kind, t: Table, now: Time, limit: nat, batches: seq<seq<Id>>)
    requires IsDrain(kind, t, now, limit, batches)
    ensures var before, left := Due(kind, t, now), Due(kind, AfterDrain(kind, t, now, batches), now);
            var n, taken := |before.Keys|, |batches| * limit;
            && |left.Keys| == (if n <= taken then 0 else n - taken)
            && (forall id :: id in left ==> id in before && left[id] == before[id])
            && (forall id, other :: id in before && id !in left && other in left ==> before[id] <= before[other])
  {
    DrainTakesEarliest(kind, t, now, limit, batches);
    DrainCounts(kind, t, now, limit, batches);
  }

  /** The backlog is gone after ceil(n / B) sweeps, and not before: one sweep fewer leaves rows due. */
  lemma BacklogGone(kind: Kind, t: Table, now: Time, limit: nat, batches: seq<seq<Id>>)
    requires limit > 0 && IsDrain(kind, t, now, limit, batches)
    ensures Due(kind, AfterDrain(kind, t, now, batches), now) == map[]
            <==> |batches| >= (|Due(kind, t, now).Keys| + limit - 1) / limit
  {
    var n, k := |Due(kind, t, now).Keys|, |batches|;
    var left := Due(kind, AfterDrain(kind, t, now, batches), now);
    DrainLeaves(kind, t, now, limit, batches);
    CeilingDivision(n, limit, k);
    assert left == map[] <==> left.Keys == {};
  }

  lemma CeilingDivision(n: nat, b: nat, k: nat)
    requires b > 0
    ensures k >= (n + b - 1) / b <==> n <= k * b
  {
    var q := (n + b - 1) / b;
    assert q * b <= n + b - 1 < q * b + b;
    if k >= q {
      assert k * b >= q * b;
    } else {
      assert (q - 1) * b >= k * b;
      assert (q - 1) * b == q * b - b;
    }
  }
}
