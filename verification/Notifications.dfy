/** The notifications table and the SQL statements over it (db/notifications.rs).
    A statement is split into its WHERE clause (`Matches`) and its SET clause (`Assign`);
    `Run` executes it on the whole table at one instant. */
module Notifications {
  import opened Common
  import opened StateMachine

  datatype Row = Row(
    service: ServiceId,
    ty: TypeId,
    user: string,
    state: State,
    snoozedUntil: Option<Time>,
    expiresAt: Option<Time>,
    nextEscalationAt: Option<Time>,
    escalationCount: int,
    seenAt: Option<Time>,
    readAt: Option<Time>,
    createdAt: Time,
    updatedAt: Time)

  type Table = map<Id, Row>

  /** The statements of the form "... WHERE recipient_user_id = $1 AND id = ANY($2) AND state ...". */
  datatype BatchOp = SeenOp | ReadOp | UnreadOp | ArchiveOp | UnarchiveOp | ProducerReadOp

  datatype Statement =
    | ByIds(op: BatchOp, user: string, ids: seq<Id>)
    | SeenAll(user: string)
    | ArchiveGroup(user: string, service: ServiceId)
    | SnoozeOne(user: string, id: Id, until: Time)
    | WakeRows(rows: set<Id>)    // the outer UPDATE over the ids the subquery picked
    | ExpireRows(rows: set<Id>)  // likewise
    | SetEscalation(id: Id, count: int, next: Option<Time>)
    | Resurface(id: Id)
    | Bump(id: Id)

  predicate OpSource(op: BatchOp, s: State) {
    match op
    case SeenOp => s == Unseen
    case ReadOp => s == Unread
    case UnreadOp => s == Read
    case ArchiveOp => Archivable(s)
    case UnarchiveOp => s == Archived
    case ProducerReadOp => s == Unread
  }

  predicate Archivable(s: State) {
    s in {Unseen, Unread, Read, Snoozed}
  }

  predicate Before(deadline: Option<Time>, now: Time) {
    deadline.Some? && deadline.value <= now
  }

  predicate WakeDue(row: Row, now: Time) {
    row.state == Snoozed && Before(row.snoozedUntil, now)
  }

  predicate ExpireDue(row: Row, now: Time) {
    row.state in {Unseen, Unread, Read} && Before(row.expiresAt, now)
  }

  predicate EscalationDue(row: Row, now: Time) {
    row.state in {Unseen, Unread} && Before(row.nextEscalationAt, now)
  }

  /** The WHERE clause. */
  predicate Matches(stmt: Statement, id: Id, row: Row, now: Time) {
    match stmt
    case ByIds(op, user, ids) => row.user == user && id in ids && OpSource(op, row.state)
    case SeenAll(user) => row.user == user && row.state == Unseen
    case ArchiveGroup(user, service) => row.user == user && row.service == service && Archivable(row.state)
    case SnoozeOne(user, target, until) => row.user == user && id == target && row.state in {Unseen, Unread, Read}
    case WakeRows(rows) => id in rows && WakeDue(row, now)
    case ExpireRows(rows) => id in rows && ExpireDue(row, now)
    case SetEscalation(target, _, _) => id == target
    case Resurface(target) => id == target
    case Bump(target) => id == target
  }

  function AssignOp(op: BatchOp, row: Row, now: Time): Row {
    match op
    case SeenOp => row.(state := Unread, seenAt := Some(now), updatedAt := now)
    case ReadOp => row.(state := Read, readAt := Some(now), updatedAt := now)
    case UnreadOp => row.(state := Unread, readAt := None, updatedAt := now)
    case ArchiveOp => row.(state := Archived, updatedAt := now)
    case UnarchiveOp => row.(state := Read, updatedAt := now)
    case ProducerReadOp => row.(state := Read, readAt := Some(now), updatedAt := now)
  }

  /** The SET clause. */
  function Assign(stmt: Statement, row: Row, now: Time): Row {
    match stmt
    case ByIds(op, _, _) => AssignOp(op, row, now)
    case SeenAll(_) => AssignOp(SeenOp, row, now)
    case ArchiveGroup(_, _) => AssignOp(ArchiveOp, row, now)
    case SnoozeOne(_, _, until) => row.(state := Snoozed, snoozedUntil := Some(until), updatedAt := now)
    case WakeRows(_) => row.(state := Unread, snoozedUntil := None, updatedAt := now)
    case ExpireRows(_) => row.(state := Expired, updatedAt := now)
    case SetEscalation(_, count, next) => row.(escalationCount := count, nextEscalationAt := next, updatedAt := now)
    case Resurface(_) => row.(state := Unseen, seenAt := None, updatedAt := now)
    case Bump(_) => row.(updatedAt := now)
  }

  /** The ids the statement updates. */
  function Affected(t: Table, stmt: Statement, now: Time): set<Id> {
    set id | id in t && Matches(stmt, id, t[id], now)
  }

  /** The table after the statement. */
  function Run(t: Table, stmt: Statement, now: Time): Table {
    map id | id in t :: if Matches(stmt, id, t[id], now) then Assign(stmt, t[id], now) else t[id]
  }

  /** The statements issued on behalf of one recipient. */
  predicate ForUser(stmt: Statement, user: string) {
    match stmt
    case ByIds(_, u, _) => u == user
    case SeenAll(u) => u == user
    case ArchiveGroup(u, _) => u == user
    case SnoozeOne(u, _, _) => u == user
    case _ => false
  }

  // ---------- laws of the batch statements ----------

  /** Issuing any recipient's statement again, at any later instant, reports 0 rows and changes
      nothing; a sweep never updates again, at any instant, a row it has just updated. */
  lemma RepeatedStatement(t: Table, stmt: Statement, now: Time, later: Time)
    ensures var once := Run(t, stmt, now);
            && ((exists user :: ForUser(stmt, user)) ==>
                  Affected(once, stmt, later) == {} && Run(once, stmt, later) == once)
            && (stmt.WakeRows? || stmt.ExpireRows? ==> Affected(once, stmt, later) !! Affected(t, stmt, now))
  {
    var once := Run(t, stmt, now);
    if user :| ForUser(stmt, user) {
      forall id | id in t ensures !Matches(stmt, id, once[id], later) {
      }
    }
  }

  /** A row under two id-list statements in turn: at most one of them updates it, and together they
      update it just when, and just as, the one over the concatenated list does. */
  lemma ConsecutiveOnRow(op: BatchOp, user: string, a: seq<Id>, b: seq<Id>, now: Time, id: Id, row: Row)
    ensures var hit := Matches(ByIds(op, user, a), id, row, now);
            var next := if hit then AssignOp(op, row, now) else row;
            var hitNext := Matches(ByIds(op, user, b), id, next, now);
            var hitBoth := Matches(ByIds(op, user, a + b), id, row, now);
            && !(hit && hitNext) && (hitBoth <==> hit || hitNext)
            && (if hitNext then AssignOp(op, next, now) else next) == (if hitBoth then AssignOp(op, row, now) else row)
  {
  }

  /** Two id-list statements in a row are one statement over the concatenated list, and the
      reported counts add up to the count of the single statement. */
  lemma ConsecutiveLists(t: Table, op: BatchOp, user: string, a: seq<Id>, b: seq<Id>, now: Time)
    ensures var first := ByIds(op, user, a);
            var second := ByIds(op, user, b);
            var both := ByIds(op, user, a + b);
            && Run(Run(t, first, now), second, now) == Run(t, both, now)
            && |Affected(t, first, now)| + |Affected(Run(t, first, now), second, now)| == |Affected(t, both, now)|
  {
    ConsecutiveRuns(t, op, user, a, b, now);
    ConsecutiveCounts(t, op, user, a, b, now);
  }

  lemma ConsecutiveRuns(t: Table, op: BatchOp, user: string, a: seq<Id>, b: seq<Id>, now: Time)
    ensures Run(Run(t, ByIds(op, user, a), now), ByIds(op, user, b), now) == Run(t, ByIds(op, user, a + b), now)
  {
    forall id | id in t
      ensures Run(Run(t, ByIds(op, user, a), now), ByIds(op, user, b), now)[id]
              == Run(t, ByIds(op, user, a + b), now)[id]
    {
      ConsecutiveOnRow(op, user, a, b, now, id, t[id]);
    }
  }

  lemma ConsecutiveCounts(t: Table, op: BatchOp, user: string, a: seq<Id>, b: seq<Id>, now: Time)
    ensures |Affected(t, ByIds(op, user, a), now)|
            + |Affected(Run(t, ByIds(op, user, a), now), ByIds(op, user, b), now)|
            == |Affected(t, ByIds(op, user, a + b), now)|
  {
    var t1 := Run(t, ByIds(op, user, a), now);
    var hits, hitsNext := Affected(t, ByIds(op, user, a), now), Affected(t1, ByIds(op, user, b), now);
    var hitsBoth := Affected(t, ByIds(op, user, a + b), now);
    forall id | id in t
      ensures !(id in hits && id in hitsNext) && (id in hitsBoth <==> id in hits || id in hitsNext)
    {
      ConsecutiveOnRow(op, user, a, b, now, id, t[id]);
    }
    SplitSize(hitsBoth, hits, hitsNext);
  }

  /** The catch-all statements agree with their id-list forms, for any list that names every
      matching row and, of the user's rows, nothing outside the group. */
  lemma CatchAllForms(t: Table, user: string, service: ServiceId, ids: seq<Id>, now: Time)
    ensures (forall id :: id in Affected(t, SeenAll(user), now) ==> id in ids) ==>
              && Run(t, SeenAll(user), now) == Run(t, ByIds(SeenOp, user, ids), now)
              && Affected(t, SeenAll(user), now) == Affected(t, ByIds(SeenOp, user, ids), now)
    ensures (forall id :: id in Affected(t, ArchiveGroup(user, service), now) ==> id in ids)
            && (forall id :: id in ids && id in t && t[id].user == user ==> t[id].service == service) ==>
              && Run(t, ArchiveGroup(user, service), now) == Run(t, ByIds(ArchiveOp, user, ids), now)
              && Affected(t, ArchiveGroup(user, service), now) == Affected(t, ByIds(ArchiveOp, user, ids), now)
  {
    if forall id :: id in Affected(t, SeenAll(user), now) ==> id in ids {
      forall id | id in t
        ensures Matches(SeenAll(user), id, t[id], now) <==> Matches(ByIds(SeenOp, user, ids), id, t[id], now)
      {
        assert Matches(SeenAll(user), id, t[id], now) <==> id in Affected(t, SeenAll(user), now);
      }
    }
    if (forall id :: id in Affected(t, ArchiveGroup(user, service), now) ==> id in ids)
       && (forall id :: id in ids && id in t && t[id].user == user ==> t[id].service == service) {
      forall id | id in t
        ensures Matches(ArchiveGroup(user, service), id, t[id], now)
                <==> Matches(ByIds(ArchiveOp, user, ids), id, t[id], now)
      {
        assert Matches(ArchiveGroup(user, service), id, t[id], now)
               <==> id in Affected(t, ArchiveGroup(user, service), now);
      }
    }
  }

  /** What no statement touches: the set of rows, the identity columns, the TTL deadline; other
      users' rows under a user's statement; the escalation columns under all but `SetEscalation`.
      A row the WHERE clause does not select is left as it is, and a selected one is stamped. */
  lemma Frame(t: Table, stmt: Statement, now: Time, id: Id)
    ensures id in Run(t, stmt, now) <==> id in t
    ensures id in t ==>
              var old_, new_ := t[id], Run(t, stmt, now)[id];
              && new_.service == old_.service && new_.ty == old_.ty && new_.user == old_.user
              && new_.createdAt == old_.createdAt && new_.expiresAt == old_.expiresAt
              && (id !in Affected(t, stmt, now) ==> new_ == old_)
              && (id in Affected(t, stmt, now) ==> new_.updatedAt == now)
              && (!stmt.SetEscalation? ==>
                    new_.escalationCount == old_.escalationCount && new_.nextEscalationAt == old_.nextEscalationAt)
              && (forall user :: ForUser(stmt, user) && old_.user != user ==> new_ == old_)
  {
  }

  /** No row but these has changed, and none has come or gone. */
  ghost predicate OnlyChanged(before: Table, after: Table, rows: set<Id>) {
    after.Keys == before.Keys && forall id :: id in before && id !in rows ==> after[id] == before[id]
  }

  // ---------- conformance to the state machine ----------

  /** The state changes some statement can make to some row of some table. */
  ghost predicate Taken(from: State, to: State) {
    from != to && exists t: Table, stmt, now, id :: TakenBy(t, stmt, now, id, from, to)
  }

  ghost predicate TakenBy(t: Table, stmt: Statement, now: Time, id: Id, from: State, to: State) {
    id in t && t[id].state == from && Run(t, stmt, now)[id].state == to
  }

  /** Edges the statements take although `apply` rejects them. */
  predicate Deviates(from: State, to: State) {
    (from == Read && to == Snoozed) || (from == Snoozed && to == Archived) || (to == Unseen && from != Unseen)
  }

  /** Edges `apply` accepts although no statement takes them. */
  predicate Unused(from: State, to: State) {
    (from == Snoozed && to == Expired) || (from == Expired && to == Archived)
  }

  /** The statements take exactly the machine's edges, less the two unused ones, plus
      read-to-snoozed, snoozed-to-archived and every edge into unseen. */
  lemma EdgesExactly(from: State, to: State)
    ensures Taken(from, to) <==> (CanTransitionTo(from, to) && !Unused(from, to)) || Deviates(from, to)
  {
    CanTransitionIsSuccessor(from, to);
    if Taken(from, to) {
      var t: Table, stmt, now, id :| TakenBy(t, stmt, now, id, from, to);
      EdgeOfStatement(t, stmt, now, id);
    }
    if (to in Successors(from) && !Unused(from, to)) || Deviates(from, to) {
      EdgeWitnessTakes(from, to);
    }
  }

  /** A statement that takes row 0 of the anonymous user along a given edge. */
  function EdgeWitness(from: State, to: State): Statement {
    match to
    case Unseen => Resurface(0)
    case Unread =>
      if from == Unseen then SeenAll("") else if from == Read then ByIds(UnreadOp, "", [0]) else WakeRows({0})
    case Read => if from == Unread then ByIds(ReadOp, "", [0]) else ByIds(UnarchiveOp, "", [0])
    case Snoozed => SnoozeOne("", 0, 1)
    case Archived => ByIds(ArchiveOp, "", [0])
    case Expired => ExpireRows({0})
  }

  lemma EdgeWitnessTakes(from: State, to: State)
    requires (to in Successors(from) && !Unused(from, to)) || Deviates(from, to)
    ensures Taken(from, to)
  {
    var row := Row(0, 0, "", from, Some(0), Some(0), None, 0, None, None, 0, 0);
    var stmt := EdgeWitness(from, to);
    assert Matches(stmt, 0, row, 0) && Assign(stmt, row, 0).state == to;
    assert TakenBy(map[0 := row], stmt, 0, 0, from, to);
  }

  /** Which statement makes which change: a row enters unseen only by a resurface; every other
      change is accepted by `apply` except the two deviations, each with its one source. */
  lemma EdgeOfStatement(t: Table, stmt: Statement, now: Time, id: Id)
    requires id in t && Run(t, stmt, now)[id].state != t[id].state
    ensures var from, to := t[id].state, Run(t, stmt, now)[id].state;
            && !Unused(from, to)
            && (to == Unseen <==> stmt.Resurface?)
            && (from == Read && to == Snoozed ==> stmt.SnoozeOne?)
            && (from == Snoozed && to == Archived ==> stmt.ArchiveGroup? || (stmt.ByIds? && stmt.op == ArchiveOp))
            && (from == Snoozed && to == Unread <==> stmt.WakeRows?)
            && (to == Expired <==> stmt.ExpireRows?)
            && (CanTransitionTo(from, to) <==> !Deviates(from, to))
  {
    CanTransitionIsSuccessor(t[id].state, Run(t, stmt, now)[id].state);
  }

  // ---------- the columns that follow the state ----------

  /** A snoozed row has a wake-up time; an unseen row has no seen time. */
  predicate ColumnsFollowState(row: Row) {
    && (row.state == Snoozed ==> row.snoozedUntil.Some?)
    && (row.state == Unseen ==> row.seenAt.None?)
  }

  /** A statement keeps the columns in step with the state, and only `SetEscalation`, on the row it
      names, touches the escalation columns. */
  lemma StatementOnRow(t: Table, stmt: Statement, now: Time, id: Id)
    requires id in t
    ensures var row, row' := t[id], Run(t, stmt, now)[id];
            && row'.ty == row.ty
            && (ColumnsFollowState(row) ==> ColumnsFollowState(row'))
            && (if stmt.SetEscalation? && stmt.id == id
                then row'.escalationCount == stmt.count && row'.nextEscalationAt == stmt.next
                else row'.escalationCount == row.escalationCount && row'.nextEscalationAt == row.nextEscalationAt)
  {
  }
}
