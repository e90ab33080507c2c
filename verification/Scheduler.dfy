/** The scheduler's loops as they are written (lifecycle/scheduler.rs), over a database shared with
    everything else. Between any two of its statements other parties may do anything; each pass is
    shown to be a run of the cluster, taking its own steps in exactly the coded order. */
module Scheduler {
  import opened Common
  import opened StateMachine
  import opened Notifications
  import opened Cluster
  import Batches
  import Inbox

  /** The steps of a run that instance i takes. */
  function Own(i: nat, run: seq<Action>): seq<Action> {
    if run == [] then []
    else Own(i, run[..|run| - 1]) + if Mover(run[|run| - 1]) == Some(i) then [run[|run| - 1]] else []
  }

  lemma {:induction false} OwnConcat(i: nat, first: seq<Action>, second: seq<Action>)
    ensures Own(i, first + second) == Own(i, first) + Own(i, second)
  {
    if second == [] {
      assert first + second == first;
    } else {
      assert (first + second)[..|first + second| - 1] == first + second[..|second| - 1];
      OwnConcat(i, first, second[..|second| - 1]);
    }
  }

  /** Read the type, compute the deadline, write, act. */
  function Round(i: nat): seq<Action> {
    [ReadType(i), Deadline(i), Write(i), Act(i)]
  }

  function Rounds(i: nat, n: nat): (r: seq<Action>)
    ensures |r| == 4 * n
  {
    if n == 0 then [] else Rounds(i, n - 1) + Round(i)
  }

  lemma {:induction false} RoundsPrefix(i: nat, k: nat, n: nat)
    requires k <= n
    ensures Rounds(i, k) <= Rounds(i, n)
  {
    if k < n {
      RoundsPrefix(i, k, n - 1);
    }
  }

  lemma RoundsTake(i: nat, k: nat, n: nat, taken: nat)
    requires k < n && taken <= 4
    ensures Rounds(i, n)[..4 * k + taken] == Rounds(i, n)[..4 * k] + Round(i)[..taken]
  {
    RoundsPrefix(i, k, n);
    RoundsPrefix(i, k + 1, n);
    assert Rounds(i, k + 1) == Rounds(i, k) + Round(i);
  }

  /** The tables and the clock, shared by all. `passes` records how far each instance has got. */
  class Database {
    var now: Time
    var table: Table
    var types: map<TypeId, TypeRow>
    var passes: seq<Pass>

    function View(): Sys
      reads this
    {
      Sys(now, table, types, passes)
    }

    /** Anything the other parties may do: any run of the cluster without a step of instance i. */
    method Others(i: nat) returns (run: seq<Action>)
      requires i < |passes|
      modifies this
      ensures Possible(old(View()), run) && View() == Exec(old(View()), run)
      ensures Own(i, run) == [] && |passes| == |old(passes)| && passes[i] == old(passes[i])
    {
      assert Possible(View(), []) && Exec(View(), []) == View();
      run :| Possible(View(), run) && Own(i, run) == []
             && |Exec(View(), run).passes| == |passes| && Exec(View(), run).passes[i] == passes[i];
      var after := Exec(View(), run);
      now, table, types, passes := after.now, after.table, after.types, after.passes;
    }

    /** An UPDATE, reporting how many rows it changed. */
    method Execute(stmt: Statement) returns (count: nat)
      modifies this`table
      ensures table == Run(old(table), stmt, now)
      ensures count == |Affected(old(table), stmt, now)|
    {
      count := |Affected(table, stmt, now)|;
      table := Run(table, stmt, now);
    }

    /** mark_seen as the handler dispatches it: the user's unseen rows that are listed, or all of them if
        the list is empty, become unread and seen now; the count is what the user's badge drops by. */
    method MarkSeen(user: string, ids: seq<Id>) returns (count: nat)
      modifies this`table
      ensures table.Keys == old(table).Keys
      ensures forall id :: id in table ==>
                var row := old(table)[id];
                table[id] == if row.user == user && row.state == Unseen && (ids == [] || id in ids)
                             then row.(state := Unread, seenAt := Some(now), updatedAt := now) else row
      ensures count == Inbox.Count(old(table), user, Unseen, []) - Inbox.Count(table, user, Unseen, [])
    {
      ghost var before := table;
      ghost var stmt := if ids == [] then SeenAll(user) else ByIds(SeenOp, user, ids);
      if ids == [] {
        count := Execute(SeenAll(user));
      } else {
        count := Execute(ByIds(SeenOp, user, ids));
      }
      Inbox.MarkSeenReportsBadgeDrop(before, stmt, now, user, user);
      Inbox.CountUnfiltered(before, user, Unseen);
      Inbox.CountUnfiltered(table, user, Unseen);
    }

    /** mark_read */
    method MarkRead(user: string, ids: seq<Id>) returns (count: nat)
      modifies this`table
      ensures var rows := RowsIn(old(table), user, {Unread}) * Batches.Elements(ids);
              && count == |rows| && OnlyChanged(old(table), table, rows)
              && forall i :: i in rows ==>
                   table[i] == old(table)[i].(state := Read, readAt := Some(now), updatedAt := now)
    {
      ghost var rows := RowsIn(table, user, {Unread}) * Batches.Elements(ids);
      assert Affected(table, ByIds(ReadOp, user, ids), now) == rows;
      count := Execute(ByIds(ReadOp, user, ids));
    }

    /** mark_unread */
    method MarkUnread(user: string, ids: seq<Id>) returns (count: nat)
      modifies this`table
      ensures var rows := RowsIn(old(table), user, {Read}) * Batches.Elements(ids);
              && count == |rows| && OnlyChanged(old(table), table, rows)
              && forall i :: i in rows ==>
                   table[i] == old(table)[i].(state := Unread, readAt := None, updatedAt := now)
    {
      ghost var rows := RowsIn(table, user, {Read}) * Batches.Elements(ids);
      assert Affected(table, ByIds(UnreadOp, user, ids), now) == rows;
      count := Execute(ByIds(UnreadOp, user, ids));
    }

    /** snooze */
    method Snooze(user: string, id: Id, until: Time) returns (count: nat)
      modifies this`table
      ensures var rows := RowsIn(old(table), user, {Unseen, Unread, Read}) * {id};
              && count == |rows| && OnlyChanged(old(table), table, rows)
              && forall i :: i in rows ==>
                   table[i] == old(table)[i].(state := Snoozed, snoozedUntil := Some(until), updatedAt := now)
    {
      ghost var rows := RowsIn(table, user, {Unseen, Unread, Read}) * {id};
      assert Affected(table, SnoozeOne(user, id, until), now) == rows;
      count := Execute(SnoozeOne(user, id, until));
    }

    /** archive */
    method Archive(user: string, ids: seq<Id>) returns (count: nat)
      modifies this`table
      ensures var rows := RowsIn(old(table), user, {Unseen, Unread, Read, Snoozed}) * Batches.Elements(ids);
              && count == |rows| && OnlyChanged(old(table), table, rows)
              && forall i :: i in rows ==>
                   table[i] == old(table)[i].(state := Archived, updatedAt := now)
    {
      ghost var rows := RowsIn(table, user, {Unseen, Unread, Read, Snoozed}) * Batches.Elements(ids);
      assert Affected(table, ByIds(ArchiveOp, user, ids), now) == rows;
      count := Execute(ByIds(ArchiveOp, user, ids));
    }

    /** archive_all_in_group */
    method ArchiveAllInGroup(user: string, service: ServiceId) returns (count: nat)
      modifies this`table
      ensures var rows := RowsIn(old(table), user, {Unseen, Unread, Read, Snoozed}) * OfService(old(table), service);
              && count == |rows| && OnlyChanged(old(table), table, rows)
              && forall i :: i in rows ==>
                   table[i] == old(table)[i].(state := Archived, updatedAt := now)
    {
      ghost var rows := RowsIn(table, user, {Unseen, Unread, Read, Snoozed}) * OfService(table, service);
      assert Affected(table, ArchiveGroup(user, service), now) == rows;
      count := Execute(ArchiveGroup(user, service));
    }

    /** unarchive */
    method Unarchive(user: string, ids: seq<Id>) returns (count: nat)
      modifies this`table
      ensures var rows := RowsIn(old(table), user, {Archived}) * Batches.Elements(ids);
              && count == |rows| && OnlyChanged(old(table), table, rows)
              && forall i :: i in rows ==>
                   table[i] == old(table)[i].(state := Read, updatedAt := now)
    {
      ghost var rows := RowsIn(table, user, {Archived}) * Batches.Elements(ids);
      assert Affected(table, ByIds(UnarchiveOp, user, ids), now) == rows;
      count := Execute(ByIds(UnarchiveOp, user, ids));
    }

    /** producer_mark_read */
    method ProducerMarkRead(user: string, ids: seq<Id>) returns (count: nat)
      modifies this`table
      ensures var rows := RowsIn(old(table), user, {Unread}) * Batches.Elements(ids);
              && count == |rows| && OnlyChanged(old(table), table, rows)
              && forall i :: i in rows ==>
                   table[i] == old(table)[i].(state := Read, readAt := Some(now), updatedAt := now)
    {
      ghost var rows := RowsIn(table, user, {Unread}) * Batches.Elements(ids);
      assert Affected(table, ByIds(ProducerReadOp, user, ids), now) == rows;
      count := Execute(ByIds(ProducerReadOp, user, ids));
    }

    /** wake_snoozed and expire_notifications: updates the earliest due rows nobody has locked and
        returns them as they are afterwards. */
    method SweepDue(kind: Batches.Kind, limit: nat, locked: set<Id>) returns (batch: seq<Id>, rows: seq<Held>)
      modifies this`table
      ensures Batches.IsBatch(Batches.Due(kind, old(table), now) - locked, limit, batch)
      ensures table == Run(old(table), Batches.Sweep(kind, Batches.Elements(batch)), now)
      ensures OnlyChanged(old(table), table, Batches.Elements(batch))
      ensures forall id :: id in batch ==> id in old(table) && id in table
                                           && Batches.Swept(kind, old(table)[id], table[id], now)
      ensures |rows| == |batch|
      ensures forall k :: 0 <= k < |rows| ==>
                rows[k].id == batch[k] && batch[k] in table && rows[k].row == table[batch[k]]
    {
      batch := Batches.Select(Batches.Due(kind, table, now) - locked, limit);
      Batches.SweepSets(kind, table, now, Batches.Elements(batch));
      forall k | 0 <= k < |batch| ensures batch[k] in table {
        assert batch[k] in Batches.Elements(batch);
      }
      var _ := Execute(Batches.Sweep(kind, Batches.Elements(batch)));
      rows := Returning(table, batch);
    }

    /** get_escalation_due: the earliest rows due that nobody has locked. */
    method EscalationBatch(limit: nat, locked: set<Id>) returns (ids: seq<Id>)
      ensures var due := EscalationsDue(table, now) - locked;
              Batches.IsBatch(due, limit, ids)
      ensures forall k :: 0 <= k < |ids| ==> ids[k] in table && EscalationDue(table[ids[k]], now)
    {
      ids := Batches.Select(EscalationsDue(table, now) - locked, limit);
      assert forall k :: 0 <= k < |ids| ==> ids[k] in Batches.Elements(ids);
    }
  }

  /** The user's rows in these states. */
  function RowsIn(t: Table, user: string, states: set<State>): set<Id> {
    set id | id in t && t[id].user == user && t[id].state in states
  }

  function OfService(t: Table, service: ServiceId): set<Id> {
    set id | id in t && t[id].service == service
  }

  /** The rows of the given ids, in that order. */
  function Returning(t: Table, ids: seq<Id>): (rows: seq<Held>)
    requires forall k :: 0 <= k < |ids| ==> ids[k] in t
    ensures |rows| == |ids| && forall k :: 0 <= k < |ids| ==> rows[k] == Held(ids[k], t[ids[k]])
  {
    seq(|ids|, k requires 0 <= k < |ids| => Held(ids[k], t[ids[k]]))
  }

  function EscalationsDue(t: Table, now: Time): map<Id, Time> {
    map id | id in t && EscalationDue(t[id], now) :: t[id].nextEscalationAt.value
  }

  /** Exactly which rows an escalation pass may fetch, and since when. */
  lemma EscalationsDueMeans(t: Table, now: Time, id: Id)
    ensures var due := EscalationsDue(t, now);
            && (id in due <==> id in t && t[id].state in {Unseen, Unread}
                               && t[id].nextEscalationAt.Some? && t[id].nextEscalationAt.value <= now)
            && (id in due ==> due[id] == t[id].nextEscalationAt.value)
  {
  }

  // ---------- the wake and expire loops ----------

  /** A StateChange event. */
  datatype StateChange = StateChange(user: string, id: Id, oldState: Option<State>, newState: State)

  function EventFor(kind: Batches.Kind, h: Held): StateChange {
    match kind
    case Wake => StateChange(h.row.user, h.id, Some(Snoozed), Unread)
    case Expire => StateChange(h.row.user, h.id, None, Expired)
  }

  /** The event for a swept row tells the truth about it. */
  lemma SweptRow(kind: Batches.Kind, t: Table, now: Time, batch: seq<Id>, k: nat)
    requires k < |batch| && Batches.Elements(batch) <= Batches.Due(kind, t, now).Keys
    ensures batch[k] in t && Batches.IsDue(kind, t[batch[k]], now)
    ensures var after := Run(t, Batches.Sweep(kind, Batches.Elements(batch)), now);
            Announces(kind, t, after, batch[k], EventFor(kind, Held(batch[k], after[batch[k]])))
  {
    assert batch[k] in Batches.Elements(batch);
  }

  /** Increasing positions below `end`. */
  predicate InOrder(sent: seq<nat>, end: nat) {
    && (forall j :: 0 <= j < |sent| ==> sent[j] < end)
    && (forall i, j :: 0 <= i < j < |sent| ==> sent[i] < sent[j])
  }

  /** publish_state_change for each row in order. A publish that fails is logged, and the next row
      follows; an event that cannot be encoded ends the pass. `unencodable` and `rejected` say for which
      rows that happens, `tried` how many rows were gone through and `sent` at which positions the
      events that went out are. */
  method PublishAll(kind: Batches.Kind, rows: seq<Held>, unencodable: set<Id>, rejected: set<Id>)
    returns (ok: bool, events: seq<StateChange>, tried: nat, sent: seq<nat>)
    ensures tried <= |rows| && (ok <==> tried == |rows|) && (!ok ==> rows[tried].id in unencodable)
    ensures forall k :: 0 <= k < tried ==> rows[k].id !in unencodable && (k in sent <==> rows[k].id !in rejected)
    ensures |sent| == |events| && InOrder(sent, tried)
    ensures forall j :: 0 <= j < |events| ==> events[j] == EventFor(kind, rows[sent[j]])
  {
    events, sent, tried := [], [], 0;
    while tried < |rows| && rows[tried].id !in unencodable
      invariant tried <= |rows|
      invariant forall k :: 0 <= k < tried ==> rows[k].id !in unencodable && (k in sent <==> rows[k].id !in rejected)
      invariant |sent| == |events| && InOrder(sent, tried)
      invariant forall j :: 0 <= j < |events| ==> events[j] == EventFor(kind, rows[sent[j]])
    {
      if rows[tried].id !in rejected {
        events, sent := events + [EventFor(kind, rows[tried])], sent + [tried];
      }
      tried := tried + 1;
    }
    ok := tried == |rows|;
  }

  /** run_snooze_wake and run_ttl_expiry: one sweep of the cluster and then, in order, an event for each
      returned row gone through, except those whose publish fails; only due rows are swept, and every
      event announces the state its row is then in. */
  method RunSweep(db: Database, kind: Batches.Kind, locked: set<Id>, unencodable: set<Id>, rejected: set<Id>)
    returns (ok: bool, batch: seq<Id>, events: seq<StateChange>, tried: nat, sent: seq<nat>)
    modifies db`table
    ensures Batches.IsBatch(Batches.Due(kind, old(db.table), db.now) - locked, 100, batch)
    ensures Enabled(old(db.View()), Issue(Batches.Sweep(kind, Batches.Elements(batch))))
    ensures db.View() == Do(old(db.View()), Issue(Batches.Sweep(kind, Batches.Elements(batch))))
    ensures tried <= |batch| && (ok <==> tried == |batch|) && (!ok ==> batch[tried] in unencodable)
    ensures forall k :: 0 <= k < tried ==> batch[k] !in unencodable && (k in sent <==> batch[k] !in rejected)
    ensures |sent| == |events| && InOrder(sent, tried)
    ensures forall j :: 0 <= j < |events| ==> Announces(kind, old(db.table), db.table, batch[sent[j]], events[j])
  {
    ghost var before := db.table;
    var rows;
    batch, rows := db.SweepDue(kind, Batches.BATCH_SIZE, locked);
    ok, events, tried, sent := PublishAll(kind, rows, unencodable, rejected);
    forall j | 0 <= j < |events| ensures Announces(kind, before, db.table, batch[sent[j]], events[j]) {
      SweptRow(kind, before, db.now, batch, sent[j]);
    }
  }

  /** The event goes to the row's user, about that row, with the state the row is now in; the state it
      was in is told for a wake and not for an expiry. */
  predicate Announces(kind: Batches.Kind, before: Table, after: Table, id: Id, event: StateChange) {
    && id in before && id in after
    && event.user == before[id].user && event.id == id && event.newState == after[id].state
    && (event.oldState.Some? <==> kind.Wake?) && (event.oldState.Some? ==> event.oldState.value == before[id].state)
  }

  // ---------- the escalation loop ----------

  /** The run is possible from `start` and leads to `end`. */
  ghost predicate Leads(start: Sys, run: seq<Action>, end: Sys) {
    Possible(start, run) && Exec(start, run) == end
  }

  /** Extends a run by one step of instance i. */
  lemma Step(start: Sys, run: seq<Action>, now: Sys, i: nat, a: Action)
    requires Leads(start, run, now) && Enabled(now, a) && Mover(a) == Some(i)
    ensures Leads(start, run + [a], Do(now, a)) && Own(i, run + [a]) == Own(i, run) + [a]
  {
    assert [a][1..] == [];
    ExecConcat(start, run, [a]);
    assert (run + [a])[..|run|] == run;
  }

  /** Extends it by another run. */
  lemma Then(start: Sys, run: seq<Action>, now: Sys, i: nat, more: seq<Action>, end: Sys)
    requires Leads(start, run, now) && Leads(now, more, end)
    ensures Leads(start, run + more, end) && Own(i, run + more) == Own(i, run) + Own(i, more)
  {
    ExecConcat(start, run, more);
    OwnConcat(i, run, more);
  }

  /** The others act, and the run so far grows by what they did. */
  method Wait(db: Database, i: nat, ghost start: Sys, ghost run: seq<Action>) returns (ghost longer: seq<Action>)
    requires Leads(start, run, db.View()) && i < |db.passes|
    modifies db
    ensures Leads(start, longer, db.View()) && Own(i, longer) == Own(i, run)
    ensures |db.passes| == |old(db.passes)| && db.passes[i] == old(db.passes[i])
  {
    ghost var now := db.View();
    var others := db.Others(i);
    Then(start, run, now, i, others, db.View());
    longer := run + others;
  }

  /** get_escalation_due */
  method FetchStep(db: Database, i: nat, locked: set<Id>) returns (ids: seq<Id>, due: seq<Held>)
    requires i < |db.passes| && db.passes[i].Idle?
    modifies db`passes
    ensures Batches.IsBatch(EscalationsDue(db.table, db.now) - locked, Batches.BATCH_SIZE, ids)
    ensures |due| == |ids| && |db.passes| == |old(db.passes)| && db.passes[i] == Loop(due)
    ensures Leads(old(db.View()), [Fetch(i, ids)], db.View()) && Own(i, [Fetch(i, ids)]) == [Fetch(i, ids)]
  {
    ids := db.EscalationBatch(Batches.BATCH_SIZE, locked);
    due := Returning(db.table, ids);
    assert Enabled(db.View(), Fetch(i, ids));
    assert Do(db.View(), Fetch(i, ids)).passes[i].due == due;
    Step(db.View(), [], db.View(), i, Fetch(i, ids));
    assert [] + [Fetch(i, ids)] == [Fetch(i, ids)];
    db.passes := db.passes[i := Loop(due)];
  }

  /** get_notification_type_by_id */
  method TypeStep(db: Database, i: nat, due: seq<Held>, ghost start: Sys, ghost run: seq<Action>)
    returns (conf: Option<TypeConf>)
    requires Leads(start, run, db.View()) && i < |db.passes| && db.passes[i] == Loop(due) && due != []
    modifies db`passes
    ensures Leads(start, run + [ReadType(i)], db.View()) && Own(i, run + [ReadType(i)]) == Own(i, run) + [ReadType(i)]
    ensures |db.passes| == |old(db.passes)| && db.passes[i] == Typed(due, conf)
    ensures var ty := due[0].row.ty;
            && (conf.None? <==> ty !in db.types || db.types[ty].versions == [])
            && (conf.Some? ==> conf.value == db.types[ty].versions[|db.types[ty].versions| - 1])
  {
    Step(start, run, db.View(), i, ReadType(i));
    conf := Lookup(db.types, due[0].row.ty);
    db.passes := db.passes[i := Typed(due, conf)];
  }

  /** The deadline that goes with the new count. */
  method DeadlineStep(db: Database, i: nat, due: seq<Held>, conf: Option<TypeConf>, newCount: int,
                      ghost start: Sys, ghost run: seq<Action>)
    returns (next: Option<Time>)
    requires Leads(start, run, db.View()) && i < |db.passes| && db.passes[i] == Typed(due, conf) && due != []
    requires newCount == due[0].row.escalationCount + 1
    modifies db`passes
    ensures Leads(start, run + [Deadline(i)], db.View()) && Own(i, run + [Deadline(i)]) == Own(i, run) + [Deadline(i)]
    ensures |db.passes| == |old(db.passes)| && db.passes[i] == Timed(due, conf, next)
    ensures next.Some? <==> conf.Some? && conf.value.interval.Some? && newCount < conf.value.max
    ensures next.Some? ==> next.value == db.now + conf.value.interval.value
  {
    Step(start, run, db.View(), i, Deadline(i));
    if conf.Some? {
      if newCount < conf.value.max {
        next := if conf.value.interval.Some? then Some(db.now + conf.value.interval.value) else None;
      } else {
        next := None;
      }
    } else {
      next := None;
    }
    db.passes := db.passes[i := Timed(due, conf, next)];
  }

  /** update_escalation */
  method WriteStep(db: Database, i: nat, due: seq<Held>, conf: Option<TypeConf>, next: Option<Time>, newCount: int,
                   ghost start: Sys, ghost run: seq<Action>)
    requires Leads(start, run, db.View()) && i < |db.passes| && db.passes[i] == Timed(due, conf, next) && due != []
    requires newCount == due[0].row.escalationCount + 1
    modifies db`table, db`passes
    ensures Leads(start, run + [Write(i)], db.View()) && Own(i, run + [Write(i)]) == Own(i, run) + [Write(i)]
    ensures |db.passes| == |old(db.passes)| && db.passes[i] == Acting(due, conf)
    ensures OnlyChanged(old(db.table), db.table, {due[0].id})
    ensures due[0].id in old(db.table) ==>
              db.table[due[0].id] == old(db.table)[due[0].id].(
                escalationCount := newCount, nextEscalationAt := next, updatedAt := db.now)
  {
    Step(start, run, db.View(), i, Write(i));
    var _ := db.Execute(SetEscalation(due[0].id, newCount, next));
    db.passes := db.passes[i := Acting(due, conf)];
  }

  /** resurface_notification or bump_notification */
  method ActStep(db: Database, i: nat, due: seq<Held>, conf: Option<TypeConf>, ghost start: Sys, ghost run: seq<Action>)
    requires Leads(start, run, db.View()) && i < |db.passes| && db.passes[i] == Acting(due, conf) && due != []
    modifies db`table, db`passes
    ensures Leads(start, run + [Act(i)], db.View()) && Own(i, run + [Act(i)]) == Own(i, run) + [Act(i)]
    ensures |db.passes| == |old(db.passes)| && db.passes[i] == Loop(due[1..])
    ensures OnlyChanged(old(db.table), db.table, {due[0].id})
    ensures due[0].id in old(db.table) ==>
              var row := old(db.table)[due[0].id];
              db.table[due[0].id] == if conf.Some? && conf.value.action == ActBump then row.(updatedAt := db.now)
                                     else row.(state := Unseen, seenAt := None, updatedAt := db.now)
  {
    Step(start, run, db.View(), i, Act(i));
    var action := if conf.Some? then conf.value.action else ActResurface;
    match action {
      case ActBump =>
        var _ := db.Execute(Bump(due[0].id));
      case _ =>
        var _ := db.Execute(Resurface(due[0].id));
    }
    db.passes := db.passes[i := Loop(due[1..])];
  }

  /** The end of the pass, normal or not. */
  method StopStep(db: Database, i: nat, ghost start: Sys, ghost run: seq<Action>)
    requires Leads(start, run, db.View()) && i < |db.passes|
    modifies db`passes
    ensures Leads(start, run + [Stop(i)], db.View()) && Own(i, run + [Stop(i)]) == Own(i, run) + [Stop(i)]
    ensures i < |db.passes| && db.passes[i].Idle?
  {
    Step(start, run, db.View(), i, Stop(i));
    db.passes := db.passes[i := Idle];
  }

  /** The first half of the loop body: what to write, and with which deadline. */
  method PrepareOne(db: Database, i: nat, due: seq<Held>, newCount: int)
    returns (ok: bool, conf: Option<TypeConf>, next: Option<Time>, ghost run: seq<Action>)
    requires i < |db.passes| && db.passes[i] == Loop(due) && due != [] && newCount == due[0].row.escalationCount + 1
    modifies db
    ensures Leads(old(db.View()), run, db.View()) && |db.passes| == |old(db.passes)|
    ensures Own(i, run) == if ok then [ReadType(i), Deadline(i)] else []
    ensures ok ==> db.passes[i] == Timed(due, conf, next)
  {
    ghost var start := db.View();
    ok, conf, next := false, None, None;
    run := Wait(db, i, start, []);
    if * {
      return;
    }
    conf := TypeStep(db, i, due, start, run);
    run := run + [ReadType(i)];
    run := Wait(db, i, start, run);
    next := DeadlineStep(db, i, due, conf, newCount, start, run);
    run := run + [Deadline(i)];
    ok := true;
  }

  /** The second half: writing and acting. */
  method CommitOne(db: Database, i: nat, due: seq<Held>, newCount: int, conf: Option<TypeConf>, next: Option<Time>)
    returns (ok: bool, ghost run: seq<Action>, ghost steps: nat)
    requires i < |db.passes| && db.passes[i] == Timed(due, conf, next) && due != []
    requires newCount == due[0].row.escalationCount + 1
    modifies db
    ensures Leads(old(db.View()), run, db.View()) && |db.passes| == |old(db.passes)|
    ensures steps <= 2 && Own(i, run) == [Write(i), Act(i)][..steps]
    ensures ok ==> steps == 2 && db.passes[i] == Loop(due[1..])
  {
    ghost var start := db.View();
    ok, steps := false, 0;
    run := Wait(db, i, start, []);
    if * {
      return;
    }
    WriteStep(db, i, due, conf, next, newCount, start, run);
    run, steps := run + [Write(i)], 1;
    run := Wait(db, i, start, run);
    if * {
      return;  // the reply to the write was lost, or the action is not carried out
    }
    ActStep(db, i, due, conf, start, run);
    run, steps := run + [Act(i)], 2;
    if * {
      return;  // it took effect, and its reply was lost
    }
    ok := true;
  }

  /** The body of the loop: one row of a pass. */
  method EscalateOne(db: Database, i: nat, due: seq<Held>) returns (ok: bool, ghost run: seq<Action>, ghost steps: nat)
    requires i < |db.passes| && db.passes[i] == Loop(due) && due != []
    modifies db
    ensures Leads(old(db.View()), run, db.View())
    ensures steps <= 4 && Own(i, run) == Round(i)[..steps]
    ensures |db.passes| == |old(db.passes)| && (ok ==> steps == 4 && db.passes[i] == Loop(due[1..]))
  {
    ghost var start := db.View();
    var newCount := due[0].row.escalationCount + 1;
    var conf, next;
    ok, conf, next, run := PrepareOne(db, i, due, newCount);
    steps := 0;
    if ok {
      ghost var prepared, more, taken := db.View(), [], 0;
      ok, more, taken := CommitOne(db, i, due, newCount, conf, next);
      Then(start, run, prepared, i, more, db.View());
      run, steps := run + more, 2 + taken;
    }
  }

  /** The loop over the fetched rows. */
  method EscalateRows(db: Database, i: nat, due: seq<Held>) returns (ok: bool, ghost run: seq<Action>, ghost steps: nat)
    requires i < |db.passes| && db.passes[i] == Loop(due)
    modifies db
    ensures Leads(old(db.View()), run, db.View()) && i < |db.passes|
    ensures steps <= |Rounds(i, |due|)| && (ok ==> steps == |Rounds(i, |due|)|)
    ensures Own(i, run) == Rounds(i, |due|)[..steps]
  {
    ghost var start := db.View();
    run, ok, steps := [], true, 0;
    var k := 0;
    while ok && k < |due|
      invariant k <= |due| && i < |db.passes| && (ok ==> db.passes[i] == Loop(due[k..]))
      invariant Leads(start, run, db.View())
      invariant steps <= |Rounds(i, |due|)| && (ok ==> steps == 4 * k)
      invariant Own(i, run) == Rounds(i, |due|)[..steps]
    {
      ghost var now := db.View();
      ghost var more, taken;
      ok, more, taken := EscalateOne(db, i, due[k..]);
      Then(start, run, now, i, more, db.View());
      RoundsTake(i, k, |due|, taken);
      run, steps := run + more, 4 * k + taken;
      assert due[k..][1..] == due[k + 1..];
      k := k + 1;
    }
  }

  /** run_escalation on instance i, interrupted by the others between any two of its statements, and
      stopping early when one fails. The whole execution is a run of the cluster in which i fetches
      the earliest unlocked due rows and then takes, row after row, the four steps of a round. */
  method RunEscalation(db: Database, i: nat, locked: set<Id>)
    returns (ok: bool, ghost run: seq<Action>, ids: seq<Id>, ghost steps: nat)
    requires i < |db.passes| && db.passes[i].Idle?
    modifies db
    ensures Leads(old(db.View()), run, db.View())
    ensures Batches.IsBatch(EscalationsDue(old(db.table), old(db.now)) - locked, 100, ids)
    ensures steps <= |Rounds(i, |ids|)| && (ok ==> steps == |Rounds(i, |ids|)|)
    ensures Own(i, run) == [Fetch(i, ids)] + Rounds(i, |ids|)[..steps] + [Stop(i)]
    ensures i < |db.passes| && db.passes[i].Idle?
  {
    ghost var start := db.View();
    var due;
    ids, due := FetchStep(db, i, locked);
    ghost var fetched := db.View();
    ok, run, steps := EscalateRows(db, i, due);
    Then(start, [Fetch(i, ids)], fetched, i, run, db.View());
    run := [Fetch(i, ids)] + run;
    StopStep(db, i, start, run);
    run := run + [Stop(i)];
  }
}
