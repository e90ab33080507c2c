/** The wake (or expire) sweep on many instances at once. One UPDATE with a FOR UPDATE SKIP LOCKED
    subquery is modelled in two steps, locking a batch of unlocked due rows and then updating
    them, so that the statements of several instances and of users interleave; after the commit
    the instance publishes one event per returned row. A failed publish is only logged, and the pass
    goes on with the next row; the pass may also stop at any of them. */
module Sweeps {
  import opened Common
  import opened StateMachine
  import opened Notifications
  import opened Batches

  /** One row taken through the transition, with the deadline it had. */
  datatype Firing = Firing(id: Id, at: Time, deadline: Option<Time>)

  datatype Worker =
    | Free
    | Holding(batch: seq<Id>, at: Time)  // row locks held; `at` is the statement's now()
    | Publishing(queue: seq<nat>)        // firings whose events are still to be published

  datatype SweepSys = SweepSys(
    now: Time,
    table: Table,
    workers: seq<Worker>,
    fired: seq<Firing>,    // every transition so far, in commit order
    published: seq<nat>,   // the firings whose event went out
    dropped: seq<nat>)     // the firings whose event was lost, with its pass or by a failed publish

  datatype SweepAction =
    | Tick(to: Time)
    | Add(id: Id, row: Row)   // a processor's insert
    | Other(stmt: Statement)  // any other statement
    | Lock(i: nat, batch: seq<Id>)
    | Commit(i: nat)
    | Publish(i: nat)
    | Swallow(i: nat)         // the publish fails
    | Stop(i: nat)

  function Locks(w: Worker): set<Id> {
    match w
    case Holding(batch, _) => Elements(batch)
    case _ => {}
  }

  function Queue(w: Worker): seq<nat> {
    match w
    case Publishing(queue) => queue
    case _ => []
  }

  predicate Unlocked(s: SweepSys, id: Id) {
    forall i :: 0 <= i < |s.workers| ==> id !in Locks(s.workers[i])
  }

  function UnlockedDue(kind: Kind, s: SweepSys): map<Id, Time> {
    var due := Due(kind, s.table, s.now);
    map id | id in due && Unlocked(s, id) :: due[id]
  }

  predicate IsSweep(kind: Kind, stmt: Statement) {
    match kind
    case Wake => stmt.WakeRows?
    case Expire => stmt.ExpireRows?
  }

  /** A statement that would update a locked row waits, so it only runs when it touches none. */
  ghost predicate Enabled(kind: Kind, s: SweepSys, a: SweepAction) {
    match a
    case Tick(to) => s.now <= to
    case Add(id, row) => id !in s.table && (row.state == Unseen || row.state == Archived)
    case Other(stmt) => !IsSweep(kind, stmt) && forall id :: id in Affected(s.table, stmt, s.now) ==> Unlocked(s, id)
    case Lock(i, batch) => i < |s.workers| && s.workers[i].Free? && IsBatch(UnlockedDue(kind, s), BATCH_SIZE, batch)
    case Commit(i) => i < |s.workers| && s.workers[i].Holding?
    case Publish(i) => i < |s.workers| && s.workers[i].Publishing? && s.workers[i].queue != []
    case Swallow(i) => i < |s.workers| && s.workers[i].Publishing? && s.workers[i].queue != []
    case Stop(i) => i < |s.workers|
  }

  /** The rows a commit takes along, as RETURNING hands them back. */
  function Firings(kind: Kind, t: Table, batch: seq<Id>, at: Time): (r: seq<Firing>)
    ensures |r| == |batch|
    ensures forall k :: 0 <= k < |r| ==>
              r[k] == Firing(batch[k], at, if batch[k] in t then Deadline(kind, t[batch[k]]) else None)
  {
    seq(|batch|, k requires 0 <= k < |batch| =>
      Firing(batch[k], at, if batch[k] in t then Deadline(kind, t[batch[k]]) else None))
  }

  /** `count` serial numbers from `first` on. */
  function Serials(first: nat, count: nat): seq<nat> {
    if count == 0 then [] else Serials(first, count - 1) + [first + count - 1]
  }

  function Do(kind: Kind, s: SweepSys, a: SweepAction): SweepSys
    requires Enabled(kind, s, a)
  {
    match a
    case Tick(to) => s.(now := to)
    case Add(id, row) => s.(table := s.table[id := row])
    case Other(stmt) => s.(table := Run(s.table, stmt, s.now))
    case Lock(i, batch) => s.(workers := s.workers[i := Holding(batch, s.now)])
    case Commit(i) =>
      var w := s.workers[i];
      s.(table := Run(s.table, Sweep(kind, Elements(w.batch)), w.at),
         fired := s.fired + Firings(kind, s.table, w.batch, w.at),
         workers := s.workers[i := Publishing(Serials(|s.fired|, |w.batch|))])
    case Publish(i) =>
      var queue := s.workers[i].queue;
      s.(published := s.published + [queue[0]], workers := s.workers[i := Publishing(queue[1..])])
    case Swallow(i) =>
      var queue := s.workers[i].queue;
      s.(dropped := s.dropped + [queue[0]], workers := s.workers[i := Publishing(queue[1..])])
    case Stop(i) => s.(dropped := s.dropped + Queue(s.workers[i]), workers := s.workers[i := Free])
  }

  ghost predicate Possible(kind: Kind, s: SweepSys, run: seq<SweepAction>)
    decreases |run|
  {
    run == [] || (Enabled(kind, s, run[0]) && Possible(kind, Do(kind, s, run[0]), run[1..]))
  }

  function Exec(kind: Kind, s: SweepSys, run: seq<SweepAction>): SweepSys
    requires Possible(kind, s, run)
    decreases |run|
  {
    if run == [] then s else Exec(kind, Do(kind, s, run[0]), run[1..])
  }

  predicate Initial(s: SweepSys) {
    s.table == map[] && s.fired == [] && s.published == [] && s.dropped == []
    && forall i :: 0 <= i < |s.workers| ==> s.workers[i].Free?
  }

  // ---------- where the events are ----------

  /** How many workers' queues hold the event of firing k. */
  function Queued(workers: seq<Worker>, k: nat): nat {
    if workers == [] then 0
    else Queued(workers[..|workers| - 1], k) + multiset(Queue(workers[|workers| - 1]))[k]
  }

  lemma {:induction false} QueuedUpdate(workers: seq<Worker>, i: nat, w: Worker, k: nat)
    requires i < |workers|
    ensures Queued(workers[i := w], k) + multiset(Queue(workers[i]))[k] == Queued(workers, k) + multiset(Queue(w))[k]
  {
    var last, updated := |workers| - 1, workers[i := w];
    assert Queued(updated, k) == Queued(updated[..last], k) + multiset(Queue(updated[last]))[k];
    if i == last {
      assert updated[..last] == workers[..last];
    } else {
      QueuedUpdate(workers[..last], i, w, k);
      assert updated[..last] == workers[..last][i := w];
    }
  }

  lemma {:induction false} QueuedNothing(workers: seq<Worker>)
    requires forall i :: 0 <= i < |workers| ==> workers[i].Free?
    ensures forall k :: Queued(workers, k) == 0
  {
    if workers != [] {
      QueuedNothing(workers[..|workers| - 1]);
    }
  }

  lemma {:induction false} SerialsOnce(first: nat, count: nat, k: nat)
    ensures multiset(Serials(first, count))[k] == if first <= k < first + count then 1 else 0
  {
    if count > 0 {
      SerialsOnce(first, count - 1, k);
    }
  }

  /** The events of firing k, published, dropped and still queued. */
  function Events(s: SweepSys, k: nat): nat {
    multiset(s.published)[k] + multiset(s.dropped)[k] + Queued(s.workers, k)
  }

  // ---------- the invariant ----------

  /** Rows are due when locked and stay so, and as they are, until the commit. */
  ghost predicate HoldingOk(kind: Kind, s: SweepSys, w: Worker) {
    w.Holding? ==>
      && w.at <= s.now
      && forall id :: id in w.batch ==> id in s.table && IsDue(kind, s.table[id], w.at)
  }

  ghost predicate Inv(kind: Kind, s: SweepSys) {
    && (forall i :: 0 <= i < |s.workers| ==> HoldingOk(kind, s, s.workers[i]))
    && (forall i, j :: 0 <= i < j < |s.workers| ==> Locks(s.workers[i]) !! Locks(s.workers[j]))
    && (forall k :: 0 <= k < |s.fired| ==> s.fired[k].at <= s.now && Before(s.fired[k].deadline, s.fired[k].at))
    && (forall k: nat :: Events(s, k) == if k < |s.fired| then 1 else 0)
  }

  /** A worker handing on what its queue held, and perhaps gaining new events. */
  lemma EventsMove(s: SweepSys, t: SweepSys, i: nat, out: seq<nat>, lost: seq<nat>, gained: nat, k: nat)
    requires i < |s.workers| && i < |t.workers| && t.workers == s.workers[i := t.workers[i]]
    requires t.published == s.published + out && t.dropped == s.dropped + lost
    requires multiset(out)[k] + multiset(lost)[k] + multiset(Queue(t.workers[i]))[k]
             == multiset(Queue(s.workers[i]))[k] + gained
    ensures Events(t, k) == Events(s, k) + gained
  {
    QueuedUpdate(s.workers, i, t.workers[i], k);
  }

  lemma CommitGains(kind: Kind, s: SweepSys, i: nat, k: nat)
    requires Enabled(kind, s, Commit(i))
    ensures var t := Do(kind, s, Commit(i));
            Events(t, k) == Events(s, k) + if |s.fired| <= k < |t.fired| then 1 else 0
  {
    var t := Do(kind, s, Commit(i));
    SerialsOnce(|s.fired|, |s.workers[i].batch|, k);
    EventsMove(s, t, i, [], [], if |s.fired| <= k < |t.fired| then 1 else 0, k);
  }

  lemma PublishMoves(kind: Kind, s: SweepSys, i: nat, k: nat)
    requires Enabled(kind, s, Publish(i))
    ensures Events(Do(kind, s, Publish(i)), k) == Events(s, k)
  {
    var queue := s.workers[i].queue;
    assert queue == [queue[0]] + queue[1..];
    EventsMove(s, Do(kind, s, Publish(i)), i, [queue[0]], [], 0, k);
  }

  lemma SwallowMoves(kind: Kind, s: SweepSys, i: nat, k: nat)
    requires Enabled(kind, s, Swallow(i))
    ensures Events(Do(kind, s, Swallow(i)), k) == Events(s, k)
  {
    var queue := s.workers[i].queue;
    assert queue == [queue[0]] + queue[1..];
    EventsMove(s, Do(kind, s, Swallow(i)), i, [], [queue[0]], 0, k);
  }

  /** Events are made by commits, and never doubled; those lost are recorded. */
  lemma EventsConserved(kind: Kind, s: SweepSys, a: SweepAction, k: nat)
    requires Enabled(kind, s, a)
    ensures var t := Do(kind, s, a);
            Events(t, k) == Events(s, k) + if |s.fired| <= k < |t.fired| then 1 else 0
  {
    match a
    case Lock(i, batch) => EventsMove(s, Do(kind, s, a), i, [], [], 0, k);
    case Commit(i) => CommitGains(kind, s, i, k);
    case Publish(i) => PublishMoves(kind, s, i, k);
    case Swallow(i) => SwallowMoves(kind, s, i, k);
    case Stop(i) => EventsMove(s, Do(kind, s, a), i, [], Queue(s.workers[i]), 0, k);
    case _ =>
  }

  /** What a worker holds stays due as long as the rows stay as they are. */
  lemma HoldingFramed(kind: Kind, s: SweepSys, t: SweepSys, w: Worker)
    requires HoldingOk(kind, s, w) && s.now <= t.now
    requires forall id :: id in Locks(w) ==> id in s.table ==> id in t.table && t.table[id] == s.table[id]
    ensures HoldingOk(kind, t, w)
  {
    if w.Holding? {
      forall id | id in w.batch ensures id in t.table && IsDue(kind, t.table[id], w.at) {
        assert id in Locks(w);
      }
    }
  }

  /** A step that is not worker j's own leaves the rows j has locked alone. */
  lemma LockedRowsStay(kind: Kind, s: SweepSys, a: SweepAction, j: nat, id: Id)
    requires Inv(kind, s) && Enabled(kind, s, a) && j < |s.workers| && a != Commit(j)
    requires id in Locks(s.workers[j]) && id in s.table
    ensures id in Do(kind, s, a).table && Do(kind, s, a).table[id] == s.table[id]
  {
    match a
    case Other(stmt) =>
      assert id !in Affected(s.table, stmt, s.now);
      Frame(s.table, stmt, s.now, id);
    case Commit(i) =>
      assert Locks(s.workers[i]) !! Locks(s.workers[j]);
    case _ =>
  }

  lemma HoldingKept(kind: Kind, s: SweepSys, a: SweepAction, j: nat)
    requires Inv(kind, s) && Enabled(kind, s, a) && j < |s.workers|
    ensures HoldingOk(kind, Do(kind, s, a), Do(kind, s, a).workers[j])
  {
    var t := Do(kind, s, a);
    if a.Lock? && a.i == j {
      forall id | id in a.batch ensures id in s.table && IsDue(kind, s.table[id], s.now) {
        assert id in Elements(a.batch);
      }
    } else if t.workers[j] == s.workers[j] && a != Commit(j) {
      forall id | id in Locks(s.workers[j]) && id in s.table ensures id in t.table && t.table[id] == s.table[id] {
        LockedRowsStay(kind, s, a, j, id);
      }
      HoldingFramed(kind, s, t, s.workers[j]);
    }
  }

  lemma LocksStayDisjoint(kind: Kind, s: SweepSys, a: SweepAction)
    requires Inv(kind, s) && Enabled(kind, s, a)
    ensures var t := Do(kind, s, a);
            forall i, j :: 0 <= i < j < |t.workers| ==> Locks(t.workers[i]) !! Locks(t.workers[j])
  {
    if a.Lock? {
      forall id | id in a.batch ensures Unlocked(s, id) {
        assert id in Elements(a.batch);
      }
    }
  }

  lemma DoKeepsInv(kind: Kind, s: SweepSys, a: SweepAction)
    requires Inv(kind, s) && Enabled(kind, s, a)
    ensures Inv(kind, Do(kind, s, a))
  {
    var t := Do(kind, s, a);
    forall j | 0 <= j < |t.workers| ensures HoldingOk(kind, t, t.workers[j]) {
      HoldingKept(kind, s, a, j);
    }
    LocksStayDisjoint(kind, s, a);
    forall k: nat ensures Events(t, k) == if k < |t.fired| then 1 else 0 {
      EventsConserved(kind, s, a, k);
    }
    if a.Commit? {
      var w := s.workers[a.i];
      assert HoldingOk(kind, s, w);
      assert forall k :: 0 <= k < |w.batch| ==> w.batch[k] in w.batch;
    }
  }

  lemma {:induction false} ExecKeepsInv(kind: Kind, s: SweepSys, run: seq<SweepAction>)
    requires Inv(kind, s) && Possible(kind, s, run)
    ensures Inv(kind, Exec(kind, s, run))
    decreases |run|
  {
    if run != [] {
      DoKeepsInv(kind, s, run[0]);
      ExecKeepsInv(kind, Do(kind, s, run[0]), run[1..]);
    }
  }

  // ---------- the results ----------

  /** The state change this sweep, and nothing else, makes. */
  predicate Fires(kind: Kind, from: State, to: State) {
    match kind
    case Wake => from == Snoozed && to == Unread
    case Expire => from != Expired && to == Expired
  }

  /** In every reachable state: concurrent instances hold disjoint batches; every transition was at
      or after its deadline; and of the events of the transitions each is published at most once,
      none is ever published without its transition, and none vanishes except with a stopped pass or
      by a failed publish. */
  lemma SweepsAreExact(kind: Kind, s: SweepSys, run: seq<SweepAction>, k: nat, i: nat, j: nat)
    requires Initial(s) && Possible(kind, s, run)
    ensures var t := Exec(kind, s, run);
            && (i < j < |t.workers| ==> Locks(t.workers[i]) !! Locks(t.workers[j]))
            && (k < |t.fired| ==> Before(t.fired[k].deadline, t.fired[k].at))
            && multiset(t.published)[k] <= (if k < |t.fired| then 1 else 0)
            && multiset(t.published)[k] + multiset(t.dropped)[k] + Queued(t.workers, k)
               == (if k < |t.fired| then 1 else 0)
  {
    QueuedNothing(s.workers);
    ExecKeepsInv(kind, s, run);
    assert Events(Exec(kind, s, run), k) == if k < |Exec(kind, s, run).fired| then 1 else 0;
  }

  /** After any run, the next action takes a row through the transition if and only if it is the
      commit of the one instance holding that row; what the commit returns is then exactly the rows
      that made the transition. */
  lemma CommitsAreTheTransitions(kind: Kind, s: SweepSys, run: seq<SweepAction>, a: SweepAction, id: Id)
    requires Initial(s) && Possible(kind, s, run) && Enabled(kind, Exec(kind, s, run), a)
    requires id in Exec(kind, s, run).table
    ensures var t := Exec(kind, s, run);
            var t' := Do(kind, t, a);
            && id in t'.table
            && (Fires(kind, t.table[id].state, t'.table[id].state) <==> a.Commit? && id in t.workers[a.i].batch)
            && (a.Commit? && id in t.workers[a.i].batch ==> Swept(kind, t.table[id], t'.table[id], t.workers[a.i].at))
            && (!a.Commit? ==> t'.fired == t.fired)
            && (a.Commit? ==> |t'.fired| == |t.fired| + |t.workers[a.i].batch|
                              && forall k :: 0 <= k < |t.workers[a.i].batch| ==>
                                   var w, f := t.workers[a.i], t'.fired[|t.fired| + k];
                                   && f.id == w.batch[k] && f.at == w.at && f.id in t.table
                                   && f.deadline == if kind.Wake? then t.table[f.id].snoozedUntil
                                                    else t.table[f.id].expiresAt)
  {
    QueuedNothing(s.workers);
    ExecKeepsInv(kind, s, run);
    var t := Exec(kind, s, run);
    match a
    case Other(stmt) =>
      if Run(t.table, stmt, t.now)[id].state != t.table[id].state {
        EdgeOfStatement(t.table, stmt, t.now, id);
      }
    case Commit(i) =>
      assert HoldingOk(kind, t, t.workers[i]);
    case _ =>
  }
}
