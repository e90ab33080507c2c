/** What the recipient sees over a whole run: the badge counts (the COUNT queries of
    db/notifications.rs) and how rows came to be read. */
module Inbox {
  import opened Common
  import opened StateMachine
  import opened Notifications
  import opened Cluster

  // ---------- the count queries ----------

  function InState(t: Table, user: string, state: State): set<Id> {
    set id | id in t && t[id].user == user && t[id].state == state
  }

  function Selected(t: Table, user: string, state: State, services: seq<ServiceId>): set<Id> {
    set id | id in InState(t, user, state) && (services == [] || t[id].service in services)
  }

  /** `count_unseen` and `count_unread`: an empty service list means no filter. */
  function Count(t: Table, user: string, state: State, services: seq<ServiceId>): nat {
    |Selected(t, user, state, services)|
  }

  function OfService(t: Table, user: string, state: State, service: ServiceId): set<Id> {
    set id | id in InState(t, user, state) && t[id].service == service
  }

  /** `count_unseen_by_service` and `count_unread_by_service`: one entry per service with a row. */
  function CountByService(t: Table, user: string, state: State): map<ServiceId, nat> {
    map service | service in (set id | id in InState(t, user, state) :: t[id].service)
      :: |OfService(t, user, state, service)|
  }

  function SumOverDistinct(counts: map<ServiceId, nat>, services: seq<ServiceId>): nat {
    if services == [] then 0
    else (if services[0] in services[1..] || services[0] !in counts then 0 else counts[services[0]])
         + SumOverDistinct(counts, services[1..])
  }

  /** The filtered total is the sum, over the distinct services of a non-empty list, of the
      per-service counts the same response reports. */
  lemma {:induction false} FilteredCountIsSum(t: Table, user: string, state: State, services: seq<ServiceId>)
    requires services != []
    ensures Count(t, user, state, services) == SumOverDistinct(CountByService(t, user, state), services)
  {
    var first, rest := services[0], services[1..];
    CountOfService(t, user, state, first);
    if rest == [] {
      assert Selected(t, user, state, services) == OfService(t, user, state, first);
      assert SumOverDistinct(CountByService(t, user, state), rest) == 0;
    } else {
      FilteredCountIsSum(t, user, state, rest);
      SelectOneMore(t, user, state, services);
    }
  }

  lemma CountOfService(t: Table, user: string, state: State, service: ServiceId)
    ensures var counts := CountByService(t, user, state);
            && |OfService(t, user, state, service)| == (if service in counts then counts[service] else 0)
            && (service in counts <==> OfService(t, user, state, service) != {})
  {
    if id :| id in OfService(t, user, state, service) {
      assert id in InState(t, user, state) && t[id].service == service;
    }
    if service in CountByService(t, user, state) {
      var id :| id in InState(t, user, state) && t[id].service == service;
      assert id in OfService(t, user, state, service);
    } else {
      forall id | id in InState(t, user, state) ensures t[id].service != service {
      }
      assert OfService(t, user, state, service) == {};
    }
  }

  lemma SelectOneMore(t: Table, user: string, state: State, services: seq<ServiceId>)
    requires |services| > 1
    ensures |Selected(t, user, state, services)| == |Selected(t, user, state, services[1..])|
            + if services[0] in services[1..] then 0 else |OfService(t, user, state, services[0])|
  {
    var first, rest := services[0], services[1..];
    var all, others := Selected(t, user, state, services), Selected(t, user, state, rest);
    assert forall service :: service in services <==> service == first || service in rest;
    if first in rest {
      assert all == others;
    } else {
      SplitSize(all, OfService(t, user, state, first), others);
    }
  }

  // ---------- the count requests ----------

  /** One of the first n slugs is the service's. */
  predicate Asked(services: map<string, ServiceId>, slugs: seq<string>, n: nat, service: ServiceId) {
    exists k :: 0 <= k < |slugs| && k < n && slugs[k] in services && services[slugs[k]] == service
  }

  /** The rows a request asks to count: those of the services named, or all if it names none. */
  function Requested(t: Table, services: map<string, ServiceId>, user: string, state: State,
                     slugs: seq<string>): set<Id> {
    set id | id in InState(t, user, state) && (slugs == [] || Asked(services, slugs, |slugs|, t[id].service))
  }

  predicate AnyRegistered(services: map<string, ServiceId>, slugs: seq<string>) {
    exists slug :: slug in slugs && slug in services
  }

  /** What a request is answered. */
  function Answer(t: Table, services: map<string, ServiceId>, user: string, state: State, slugs: seq<string>): nat {
    if slugs == [] || AnyRegistered(services, slugs) then |Requested(t, services, user, state, slugs)|
    else |InState(t, user, state)|
  }

  /** get_unseen_count and get_unread_count. Unknown slugs are dropped, so that a request that names
      services but no registered one is answered as one that names none. */
  method GetCount(t: Table, services: map<string, ServiceId>, user: string, state: State, slugs: seq<string>)
    returns (total: nat, byService: map<ServiceId, nat>)
    ensures total == Answer(t, services, user, state, slugs)
    ensures byService == CountByService(t, user, state)
  {
    var ids := [];
    for k := 0 to |slugs|
      invariant forall service :: service in ids <==> Asked(services, slugs, k, service)
    {
      if slugs[k] in services {
        ids := ids + [services[slugs[k]]];
      }
    }
    assert ids != [] ==> Asked(services, slugs, |slugs|, ids[0]);
    if slug :| slug in slugs && slug in services {
      assert Asked(services, slugs, |slugs|, services[slug]);
    }
    if ids == [] {
      assert Selected(t, user, state, ids) == InState(t, user, state);
      assert slugs == [] ==> Requested(t, services, user, state, slugs) == InState(t, user, state);
    } else {
      assert Selected(t, user, state, ids) == Requested(t, services, user, state, slugs);
    }
    total, byService := Count(t, user, state, ids), CountByService(t, user, state);
  }

  /** A request is answered as asked, whatever is in the table, if and only if it names no service or at
      least one registered one. */
  lemma AnsweredAsAskedExactly(services: map<string, ServiceId>, slugs: seq<string>)
    ensures (forall t, user, state ::
               Answer(t, services, user, state, slugs) == |Requested(t, services, user, state, slugs)|)
            <==> slugs == [] || AnyRegistered(services, slugs)
  {
    if slugs != [] && !AnyRegistered(services, slugs) {
      var t: Table := map[0 := Row(0, 0, "", Unseen, None, None, None, 0, None, None, 0, 0)];
      assert InState(t, "", Unseen) == {0};
      assert Requested(t, services, "", Unseen, slugs) == {};
      assert Answer(t, services, "", Unseen, slugs) == 1;
    }
  }

  // ---------- the badge ledger ----------

  /** Everything that ever moved one user's unseen count, and the rows ever inserted for them. */
  datatype Ledger = Ledger(rows: nat, inserted: nat, resurfaced: nat, seen: nat, snoozed: nat, archived: nat,
                           expired: nat)

  const EmptyLedger := Ledger(0, 0, 0, 0, 0, 0, 0)

  /** The user's unseen rows a statement updates. */
  function UnseenHits(t: Table, stmt: Statement, now: Time, user: string): set<Id> {
    Affected(t, stmt, now) * InState(t, user, Unseen)
  }

  /** The user's rows that are not unseen and that a statement updates. */
  function OtherHits(t: Table, stmt: Statement, now: Time, user: string): set<Id> {
    set id | id in Affected(t, stmt, now) && t[id].user == user && t[id].state != Unseen
  }

  function ChargeStatement(l: Ledger, t: Table, stmt: Statement, now: Time, user: string): Ledger {
    var hits := |UnseenHits(t, stmt, now, user)|;
    match stmt
    case ByIds(SeenOp, _, _) => l.(seen := l.seen + hits)
    case SeenAll(_) => l.(seen := l.seen + hits)
    case SnoozeOne(_, _, _) => l.(snoozed := l.snoozed + hits)
    case ByIds(ArchiveOp, _, _) => l.(archived := l.archived + hits)
    case ArchiveGroup(_, _) => l.(archived := l.archived + hits)
    case ExpireRows(_) => l.(expired := l.expired + hits)
    case Resurface(_) => l.(resurfaced := l.resurfaced + |OtherHits(t, stmt, now, user)|)
    case _ => l
  }

  function Charge(l: Ledger, s: Sys, a: Action, user: string): Ledger
    requires Enabled(s, a)
  {
    match a
    case Insert(_, u, _, _, deliver, _, _) =>
      if u != user then l
      else l.(rows := l.rows + 1, inserted := l.inserted + if deliver then 1 else 0)
    case Issue(stmt) => ChargeStatement(l, s.table, stmt, s.now, user)
    case Act(i) => ChargeStatement(l, s.table, ActionStatement(s.passes[i].conf, s.passes[i].due[0].id), s.now, user)
    case _ => l
  }

  function LedgerOf(l: Ledger, s: Sys, run: seq<Action>, user: string): Ledger
    requires Possible(s, run)
    decreases |run|
  {
    if run == [] then l else LedgerOf(Charge(l, s, run[0], user), Do(s, run[0]), run[1..], user)
  }

  function RowsOf(t: Table, user: string): set<Id> {
    set id | id in t && t[id].user == user
  }

  /** What the ledger says the badge shows. */
  function Badge(l: Ledger): int {
    l.inserted + l.resurfaced - l.seen - l.snoozed - l.archived - l.expired
  }

  predicate Balanced(l: Ledger, t: Table, user: string) {
    |RowsOf(t, user)| == l.rows && |InState(t, user, Unseen)| == Badge(l)
  }

  /** How one statement moves the unseen set: what leaves and what enters. */
  lemma StatementMovesUnseen(t: Table, stmt: Statement, now: Time, user: string)
    ensures var leaves := !stmt.Resurface? && !stmt.SetEscalation? && !stmt.Bump?;
            InState(Run(t, stmt, now), user, Unseen)
            == (InState(t, user, Unseen) - (if leaves then UnseenHits(t, stmt, now, user) else {}))
               + (if stmt.Resurface? then OtherHits(t, stmt, now, user) else {})
  {
    forall id | id in t
      ensures Run(t, stmt, now)[id].user == t[id].user
      ensures Run(t, stmt, now)[id].state == Unseen <==>
              (t[id].state == Unseen
               && (!Matches(stmt, id, t[id], now) || stmt.Resurface? || stmt.SetEscalation? || stmt.Bump?))
              || (stmt.Resurface? && id == stmt.id)
    {
    }
  }

  /** The statements that update no unseen row. */
  lemma NoUnseenHits(t: Table, stmt: Statement, now: Time, user: string)
    ensures (stmt.ByIds? && stmt.op != SeenOp && stmt.op != ArchiveOp) || stmt.WakeRows? ==>
              UnseenHits(t, stmt, now, user) == {}
  {
    forall id | id in UnseenHits(t, stmt, now, user)
      ensures !stmt.WakeRows? && (stmt.ByIds? ==> stmt.op == SeenOp || stmt.op == ArchiveOp)
    {
      assert Matches(stmt, id, t[id], now) && t[id].state == Unseen;
    }
  }

  lemma StatementCountsUnseen(t: Table, stmt: Statement, now: Time, user: string)
    ensures |InState(Run(t, stmt, now), user, Unseen)| ==
            |InState(t, user, Unseen)|
            - (if stmt.Resurface? || stmt.SetEscalation? || stmt.Bump? then 0 else |UnseenHits(t, stmt, now, user)|)
            + (if stmt.Resurface? then |OtherHits(t, stmt, now, user)| else 0)
  {
    StatementMovesUnseen(t, stmt, now, user);
    MoveSize(InState(t, user, Unseen),
             if stmt.Resurface? || stmt.SetEscalation? || stmt.Bump? then {} else UnseenHits(t, stmt, now, user),
             if stmt.Resurface? then OtherHits(t, stmt, now, user) else {},
             InState(Run(t, stmt, now), user, Unseen));
  }

  lemma StatementKeepsRows(t: Table, stmt: Statement, now: Time, user: string)
    ensures RowsOf(Run(t, stmt, now), user) == RowsOf(t, user)
  {
    forall id | id in t ensures Run(t, stmt, now)[id].user == t[id].user {
      Frame(t, stmt, now, id);
    }
  }

  lemma ChargeMovesBadge(l: Ledger, t: Table, stmt: Statement, now: Time, user: string)
    ensures var after := ChargeStatement(l, t, stmt, now, user);
            && after.rows == l.rows
            && Badge(after) == Badge(l)
               - (if stmt.Resurface? || stmt.SetEscalation? || stmt.Bump? then 0 else |UnseenHits(t, stmt, now, user)|)
               + (if stmt.Resurface? then |OtherHits(t, stmt, now, user)| else 0)
  {
    NoUnseenHits(t, stmt, now, user);
  }

  /** The user's rows an action takes from one state to another. */
  function Moved(t: Table, t': Table, user: string, from: State, to: State): set<Id> {
    set id | id in t && id in t' && t[id].user == user && t[id].state == from && t'[id].state == to
  }

  function MadeUnseen(t: Table, t': Table, user: string): set<Id> {
    set id | id in t && id in t' && t[id].user == user && t[id].state != Unseen && t'[id].state == Unseen
  }

  /** Where a statement takes the unseen rows it updates. */
  function LeavesTo(stmt: Statement): Option<State> {
    match stmt
    case SeenAll(_) => Some(Unread)
    case ByIds(SeenOp, _, _) => Some(Unread)
    case SnoozeOne(_, _, _) => Some(Snoozed)
    case ArchiveGroup(_, _) => Some(Archived)
    case ByIds(ArchiveOp, _, _) => Some(Archived)
    case ExpireRows(_) => Some(Expired)
    case _ => None
  }

  lemma UnseenHitsMove(t: Table, stmt: Statement, now: Time, user: string, to: State)
    requires to != Unseen
    ensures Moved(t, Run(t, stmt, now), user, Unseen, to)
            == if LeavesTo(stmt) == Some(to) then UnseenHits(t, stmt, now, user) else {}
  {
    var t' := Run(t, stmt, now);
    forall id | id in t && t[id].user == user && t[id].state == Unseen
      ensures t'[id].state == to <==> LeavesTo(stmt) == Some(to) && Matches(stmt, id, t[id], now)
    {
    }
  }

  lemma OtherHitsAreMadeUnseen(t: Table, stmt: Statement, now: Time, user: string)
    ensures MadeUnseen(t, Run(t, stmt, now), user) == if stmt.Resurface? then OtherHits(t, stmt, now, user) else {}
  {
    forall id | id in t && t[id].state != Unseen
      ensures Run(t, stmt, now)[id].state == Unseen <==> stmt.Resurface? && Matches(stmt, id, t[id], now)
    {
    }
  }

  lemma StatementChargesMoves(l: Ledger, t: Table, stmt: Statement, now: Time, user: string)
    ensures var t', l' := Run(t, stmt, now), ChargeStatement(l, t, stmt, now, user);
            && l'.seen == l.seen + |Moved(t, t', user, Unseen, Unread)|
            && l'.snoozed == l.snoozed + |Moved(t, t', user, Unseen, Snoozed)|
            && l'.archived == l.archived + |Moved(t, t', user, Unseen, Archived)|
            && l'.expired == l.expired + |Moved(t, t', user, Unseen, Expired)|
            && l'.resurfaced == l.resurfaced + |MadeUnseen(t, t', user)|
            && l'.rows == l.rows && l'.inserted == l.inserted
  {
    UnseenHitsMove(t, stmt, now, user, Unread);
    UnseenHitsMove(t, stmt, now, user, Snoozed);
    UnseenHitsMove(t, stmt, now, user, Archived);
    UnseenHitsMove(t, stmt, now, user, Expired);
    OtherHitsAreMadeUnseen(t, stmt, now, user);
  }

  lemma NothingMoved(t: Table, t': Table, user: string)
    requires forall id :: id in t && id in t' ==> t'[id].state == t[id].state
    ensures forall from, to :: from != to ==> Moved(t, t', user, from, to) == {}
    ensures MadeUnseen(t, t', user) == {}
  {
  }

  /** Each entry of the ledger counts what its name says: the user's rows the action takes from unseen
      to unread, snoozed, archived or expired, those it makes unseen again, and those it inserts. */
  lemma ChargesAreMoves(l: Ledger, s: Sys, a: Action, user: string)
    requires Enabled(s, a)
    ensures var t, t', l' := s.table, Do(s, a).table, Charge(l, s, a, user);
            && l'.seen == l.seen + |Moved(t, t', user, Unseen, Unread)|
            && l'.snoozed == l.snoozed + |Moved(t, t', user, Unseen, Snoozed)|
            && l'.archived == l.archived + |Moved(t, t', user, Unseen, Archived)|
            && l'.expired == l.expired + |Moved(t, t', user, Unseen, Expired)|
            && l'.resurfaced == l.resurfaced + |MadeUnseen(t, t', user)|
            && l'.rows == l.rows + (if a.Insert? && a.user == user then 1 else 0)
            && l'.inserted == l.inserted + (if a.Insert? && a.user == user && a.deliver then 1 else 0)
  {
    match a
    case Issue(stmt) => StatementChargesMoves(l, s.table, stmt, s.now, user);
    case Act(i) =>
      StatementChargesMoves(l, s.table, ActionStatement(s.passes[i].conf, s.passes[i].due[0].id), s.now, user);
    case _ => NothingMoved(s.table, Do(s, a).table, user);
  }

  lemma StatementBalances(l: Ledger, t: Table, stmt: Statement, now: Time, user: string)
    requires Balanced(l, t, user)
    ensures Balanced(ChargeStatement(l, t, stmt, now, user), Run(t, stmt, now), user)
  {
    ChargeMovesBadge(l, t, stmt, now, user);
    StatementCountsUnseen(t, stmt, now, user);
    StatementKeepsRows(t, stmt, now, user);
  }

  lemma InsertCountsRow(t: Table, t': Table, id: Id, user: string)
    requires id !in t && id in t' && forall k :: k in t' <==> k == id || k in t
    requires forall k :: k in t ==> t'[k] == t[k]
    ensures |RowsOf(t', user)| == |RowsOf(t, user)| + if t'[id].user == user then 1 else 0
  {
    assert RowsOf(t', user) == RowsOf(t, user) + if t'[id].user == user then {id} else {};
  }

  lemma InsertCountsUnseen(t: Table, t': Table, id: Id, user: string)
    requires id !in t && id in t' && forall k :: k in t' <==> k == id || k in t
    requires forall k :: k in t ==> t'[k] == t[k]
    ensures |InState(t', user, Unseen)| == |InState(t, user, Unseen)|
                                           + if t'[id].user == user && t'[id].state == Unseen then 1 else 0
  {
    assert InState(t', user, Unseen) == InState(t, user, Unseen)
                                        + if t'[id].user == user && t'[id].state == Unseen then {id} else {};
  }

  lemma ActionBalances(l: Ledger, s: Sys, a: Action, user: string)
    requires Enabled(s, a) && Balanced(l, s.table, user)
    ensures Balanced(Charge(l, s, a, user), Do(s, a).table, user)
  {
    match a
    case Insert(id, _, _, _, _, _, _) =>
      InsertCountsRow(s.table, Do(s, a).table, id, user);
      InsertCountsUnseen(s.table, Do(s, a).table, id, user);
    case Issue(stmt) =>
      StatementBalances(l, s.table, stmt, s.now, user);
    case Act(i) =>
      StatementBalances(l, s.table, ActionStatement(s.passes[i].conf, s.passes[i].due[0].id), s.now, user);
    case Write(i) =>
      var h := s.passes[i].due[0];
      StatementBalances(l, s.table, SetEscalation(h.id, h.row.escalationCount + 1, s.passes[i].next), s.now, user);
    case _ =>
  }

  lemma {:induction false} RunBalances(l: Ledger, s: Sys, run: seq<Action>, user: string)
    requires Possible(s, run) && Balanced(l, s.table, user)
    ensures Balanced(LedgerOf(l, s, run, user), Exec(s, run).table, user)
    decreases |run|
  {
    if run != [] {
      ActionBalances(l, s, run[0], user);
      RunBalances(Charge(l, s, run[0], user), Do(s, run[0]), run[1..], user);
    }
  }

  /** Over any run from an empty database: the badge is what was inserted unseen plus what was
      resurfaced from another state, less what mark-seen, snooze, archive and expiry took out of
      unseen; and the six state counts add up to the rows inserted. */
  lemma BadgeLedger(s: Sys, run: seq<Action>, user: string)
    requires Initial(s) && Possible(s, run)
    ensures Count(Exec(s, run).table, user, Unseen, []) == Badge(LedgerOf(EmptyLedger, s, run, user))
    ensures SumOfCounts(Exec(s, run).table, user) == LedgerOf(EmptyLedger, s, run, user).rows
  {
    EmptyBalanced(s.table, user);
    RunBalances(EmptyLedger, s, run, user);
    StateCountsSum(Exec(s, run).table, user);
  }

  lemma EmptyBalanced(t: Table, user: string)
    requires t == map[]
    ensures Balanced(EmptyLedger, t, user)
  {
    assert RowsOf(t, user) == {} && InState(t, user, Unseen) == {};
  }

  /** The six state counts together. */
  function SumOfCounts(t: Table, user: string): nat {
    Count(t, user, Unseen, []) + Count(t, user, Unread, []) + Count(t, user, Read, [])
    + Count(t, user, Snoozed, []) + Count(t, user, Archived, []) + Count(t, user, Expired, [])
  }

  lemma CountUnfiltered(t: Table, user: string, state: State)
    ensures Count(t, user, state, []) == |InState(t, user, state)|
  {
    assert Selected(t, user, state, []) == InState(t, user, state);
  }

  lemma StateCountsSum(t: Table, user: string)
    ensures Count(t, user, Unseen, []) == |InState(t, user, Unseen)|
    ensures SumOfCounts(t, user) == |RowsOf(t, user)|
  {
    CountUnfiltered(t, user, Unseen);
    CountUnfiltered(t, user, Unread);
    CountUnfiltered(t, user, Read);
    CountUnfiltered(t, user, Snoozed);
    CountUnfiltered(t, user, Archived);
    CountUnfiltered(t, user, Expired);
    StatesPartition(t, user);
  }

  function InStates(t: Table, user: string, states: set<State>): set<Id> {
    set id | id in t && t[id].user == user && t[id].state in states
  }

  lemma AddState(t: Table, user: string, states: set<State>, state: State)
    requires state !in states
    ensures |InStates(t, user, states + {state})| == |InStates(t, user, states)| + |InState(t, user, state)|
  {
    SplitSize(InStates(t, user, states + {state}), InStates(t, user, states), InState(t, user, state));
  }

  lemma StatesPartition(t: Table, user: string)
    ensures |RowsOf(t, user)| == |InState(t, user, Unseen)| + |InState(t, user, Unread)| + |InState(t, user, Read)|
                                 + |InState(t, user, Snoozed)| + |InState(t, user, Archived)|
                                 + |InState(t, user, Expired)|
  {
    assert InStates(t, user, {}) == {};
    AddState(t, user, {}, Unseen);
    AddState(t, user, {} + {Unseen}, Unread);
    AddState(t, user, {} + {Unseen} + {Unread}, Read);
    AddState(t, user, {} + {Unseen} + {Unread} + {Read}, Snoozed);
    AddState(t, user, {} + {Unseen} + {Unread} + {Read} + {Snoozed}, Archived);
    AddState(t, user, {} + {Unseen} + {Unread} + {Read} + {Snoozed} + {Archived}, Expired);
    var all := {} + {Unseen} + {Unread} + {Read} + {Snoozed} + {Archived} + {Expired};
    forall state: State ensures state in all {
      assert state.Unseen? || state.Unread? || state.Read? || state.Snoozed? || state.Archived? || state.Expired?;
    }
    assert InStates(t, user, all) == RowsOf(t, user);
  }

  /** The count a mark-seen reports is what it takes off that user's badge, and no other user's. */
  lemma MarkSeenReportsBadgeDrop(t: Table, stmt: Statement, now: Time, user: string, other: string)
    requires stmt == SeenAll(user) || (stmt.ByIds? && stmt.op == SeenOp && stmt.user == user)
    ensures |InState(Run(t, stmt, now), user, Unseen)| == |InState(t, user, Unseen)| - |Affected(t, stmt, now)|
    ensures other != user ==> InState(Run(t, stmt, now), other, Unseen) == InState(t, other, Unseen)
  {
    StatementCountsUnseen(t, stmt, now, user);
    assert UnseenHits(t, stmt, now, user) == Affected(t, stmt, now) by {
      assert forall id :: id in Affected(t, stmt, now) ==> t[id].user == user && t[id].state == Unseen;
    }
    forall id | id in t && t[id].user != user ensures Run(t, stmt, now)[id] == t[id] {
    }
    forall id | id in t ensures Run(t, stmt, now)[id].user == t[id].user {
      Frame(t, stmt, now, id);
    }
  }

  // ---------- how a row came to be read ----------

  datatype ReadEntry = Never | Marked | Unarchived

  function Entry(e: ReadEntry, s: Sys, a: Action, id: Id): ReadEntry
    requires Enabled(s, a)
  {
    var t := Do(s, a).table;
    if id in s.table && id in t && s.table[id].state != Read && t[id].state == Read
    then if a.Issue? && a.stmt.ByIds? && a.stmt.op == UnarchiveOp then Unarchived else Marked
    else e
  }

  /** An entry into the read state is by being unarchived or by being marked read; anything else leaves
      the latest entry as it was. */
  lemma EntryMeans(e: ReadEntry, s: Sys, a: Action, id: Id)
    requires Enabled(s, a)
    ensures var t := Do(s, a).table;
            var entered := id in s.table && id in t && s.table[id].state != Read && t[id].state == Read;
            && (!entered ==> Entry(e, s, a, id) == e)
            && (entered ==> Entry(e, s, a, id) in {Marked, Unarchived})
            && (entered ==> (Entry(e, s, a, id) == Unarchived <==> s.table[id].state == Archived))
  {
    if id in s.table && a.Issue? {
      StatementIntoRead(s.table, a.stmt, s.now, id);
    }
  }

  /** The row's latest entry into the read state. */
  function LatestEntry(e: ReadEntry, s: Sys, run: seq<Action>, id: Id): ReadEntry
    requires Possible(s, run)
    decreases |run|
  {
    if run == [] then e else LatestEntry(Entry(e, s, run[0], id), Do(s, run[0]), run[1..], id)
  }

  predicate Explained(e: ReadEntry, t: Table, id: Id) {
    id in t && t[id].state == Read ==> e != Never && (t[id].readAt.None? ==> e == Unarchived)
  }

  lemma {:induction false} RunExplains(e: ReadEntry, s: Sys, run: seq<Action>, id: Id)
    requires Possible(s, run) && Explained(e, s.table, id)
    ensures Explained(LatestEntry(e, s, run, id), Exec(s, run).table, id)
    decreases |run|
  {
    if run != [] {
      ActionExplains(e, s, run[0], id);
      RunExplains(Entry(e, s, run[0], id), Do(s, run[0]), run[1..], id);
    }
  }

  lemma ActionExplains(e: ReadEntry, s: Sys, a: Action, id: Id)
    requires Enabled(s, a) && Explained(e, s.table, id)
    ensures Explained(Entry(e, s, a, id), Do(s, a).table, id)
  {
    if id in s.table {
      match a
      case Issue(stmt) => StatementIntoRead(s.table, stmt, s.now, id);
      case Act(i) => StatementIntoRead(s.table, ActionStatement(s.passes[i].conf, s.passes[i].due[0].id), s.now, id);
      case Write(i) =>
        var h := s.passes[i].due[0];
        StatementIntoRead(s.table, SetEscalation(h.id, h.row.escalationCount + 1, s.passes[i].next), s.now, id);
      case _ =>
    }
  }

  lemma StatementIntoRead(t: Table, stmt: Statement, now: Time, id: Id)
    requires id in t
    ensures Run(t, stmt, now)[id].state == Read ==>
              if t[id].state == Read then Run(t, stmt, now)[id].readAt == t[id].readAt
              else stmt.ByIds? && (stmt.op == UnarchiveOp || Run(t, stmt, now)[id].readAt == Some(now))
  {
  }

  /** In every run, a read row without a read time last became read by being unarchived. */
  lemma ReadWithoutTime(s: Sys, run: seq<Action>, id: Id)
    requires Initial(s) && Possible(s, run) && id in Exec(s, run).table
    requires Exec(s, run).table[id].state == Read && Exec(s, run).table[id].readAt.None?
    ensures LatestEntry(Never, s, run, id) == Unarchived
  {
    RunExplains(Never, s, run, id);
  }
}
