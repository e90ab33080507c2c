/** The notifications table under everything that acts on it at once: processors inserting rows,
    users, producers and admins issuing statements, the wake and expire sweeps, registry updates,
    and any number of scheduler instances running `run_escalation` (lifecycle/scheduler.rs).

    An escalation pass is not atomic: its SELECT commits, and releases its row locks, before the
    type is read, the deadline is computed, the count is written and the action is taken, and it
    may stop anywhere in between. Every one of these is an action of its own here, so that a run,
    a sequence of actions, can interleave the instances in every way. */
module Cluster {
  import opened Common
  import opened StateMachine
  import opened Notifications
  import Batches

  datatype EscalationAction = ActResurface | ActBump | ActElevate | ActUnknown

  /** The columns of a notification type the life of a notification depends on. */
  datatype TypeConf = TypeConf(ttl: Option<int>, interval: Option<int>, max: int, action: EscalationAction)

  /** A type with every configuration it has ever had, the current one last. */
  datatype TypeRow = TypeRow(service: ServiceId, versions: seq<TypeConf>)

  /** The scheduling fields of a RegisterType or UpdateType request, as sent. */
  datatype TypeRequest = TypeRequest(ttl: int, interval: int, max: int, action: int)

  /** How the handlers store a request. */
  function Stored(r: TypeRequest): (c: TypeConf)
    ensures c.interval.Some? ==> c.interval.value > 0
  {
    TypeConf(
      if r.ttl > 0 then Some(r.ttl) else None,
      if r.interval > 0 then Some(r.interval) else None,
      r.max,
      if r.action == 2 then ActBump else if r.action == 3 then ActElevate else ActResurface)
  }

  /** A row as a pass fetched it. */
  datatype Held = Held(id: Id, row: Row)

  /** Where an instance is in `run_escalation`. `due[0]` is the row at hand. */
  datatype Pass =
    | Idle
    | Loop(due: seq<Held>)
    | Typed(due: seq<Held>, conf: Option<TypeConf>)
    | Timed(due: seq<Held>, conf: Option<TypeConf>, next: Option<Time>)
    | Acting(due: seq<Held>, conf: Option<TypeConf>)

  datatype Sys = Sys(now: Time, table: Table, types: map<TypeId, TypeRow>, passes: seq<Pass>)

  datatype Action =
    | Tick(to: Time)
    | RegisterType(ty: TypeId, service: ServiceId, req: TypeRequest)
    | UpdateType(ty: TypeId, req: TypeRequest)
    // A processor may have used any version of the type, through its cache, and read the clock
    // for the two deadlines at any earlier instants.
    | Insert(id: Id, user: string, ty: TypeId, version: nat, deliver: bool, ttlFrom: Time, escFrom: Time)
    | Issue(stmt: Statement)
    | Fetch(i: nat, ids: seq<Id>)
    | ReadType(i: nat)
    | Deadline(i: nat)
    | Write(i: nat)
    | Act(i: nat)
    | Stop(i: nat)

  function Current(t: TypeRow): Option<TypeConf> {
    if t.versions == [] then None else Some(t.versions[|t.versions| - 1])
  }

  function Lookup(types: map<TypeId, TypeRow>, ty: TypeId): Option<TypeConf> {
    if ty in types then Current(types[ty]) else None
  }

  /** The deadline a pass writes with the new count. */
  function NextDeadline(conf: Option<TypeConf>, newCount: int, now: Time): Option<Time> {
    if conf.Some? && newCount < conf.value.max && conf.value.interval.Some?
    then Some(now + conf.value.interval.value)
    else None
  }

  /** The statement a pass ends a row with; elevate, an unknown action and a missing type resurface. */
  function ActionStatement(conf: Option<TypeConf>, id: Id): Statement {
    if conf.Some? && conf.value.action == ActBump then Bump(id) else Resurface(id)
  }

  function InsertedRow(conf: TypeConf, service: ServiceId, user: string, ty: TypeId, deliver: bool,
                       ttlFrom: Time, escFrom: Time, now: Time): Row {
    Row(service, ty, user, if deliver then Unseen else Archived, None,
        if conf.ttl.Some? then Some(ttlFrom + conf.ttl.value) else None,
        if conf.interval.Some? && conf.max > 0 then Some(escFrom + conf.interval.value) else None,
        0, None, None, now, now)
  }

  /** The instance an action moves, if any. */
  function Mover(a: Action): Option<nat> {
    match a
    case Fetch(i, _) => Some(i)
    case ReadType(i) => Some(i)
    case Deadline(i) => Some(i)
    case Write(i) => Some(i)
    case Act(i) => Some(i)
    case Stop(i) => Some(i)
    case _ => None
  }

  predicate FetchEnabled(s: Sys, i: nat, ids: seq<Id>) {
    && i < |s.passes| && s.passes[i].Idle?
    && |ids| <= Batches.BATCH_SIZE && Distinct(ids)
    && (forall k :: 0 <= k < |ids| ==> ids[k] in s.table && EscalationDue(s.table[ids[k]], s.now))
    && (forall a, b :: 0 <= a < b < |ids| ==>
          s.table[ids[a]].nextEscalationAt.value <= s.table[ids[b]].nextEscalationAt.value)
  }

  predicate Enabled(s: Sys, a: Action) {
    match a
    case Tick(to) => s.now <= to
    case RegisterType(ty, _, _) => ty !in s.types
    case UpdateType(ty, _) => ty in s.types
    case Insert(id, _, ty, version, _, ttlFrom, escFrom) =>
      && id !in s.table && ty in s.types && version < |s.types[ty].versions|
      && ttlFrom <= s.now && escFrom <= s.now
    case Issue(stmt) => !stmt.SetEscalation?
    case Fetch(i, ids) => FetchEnabled(s, i, ids)
    case ReadType(i) => i < |s.passes| && s.passes[i].Loop? && s.passes[i].due != []
    case Deadline(i) => i < |s.passes| && s.passes[i].Typed? && s.passes[i].due != []
    case Write(i) => i < |s.passes| && s.passes[i].Timed? && s.passes[i].due != []
    case Act(i) => i < |s.passes| && s.passes[i].Acting? && s.passes[i].due != []
    case Stop(i) => i < |s.passes|
  }

  function Do(s: Sys, a: Action): Sys
    requires Enabled(s, a)
  {
    match a
    case Tick(to) => s.(now := to)
    case RegisterType(ty, service, req) => s.(types := s.types[ty := TypeRow(service, [Stored(req)])])
    case UpdateType(ty, req) =>
      s.(types := s.types[ty := s.types[ty].(versions := s.types[ty].versions + [Stored(req)])])
    case Insert(id, user, ty, version, deliver, ttlFrom, escFrom) =>
      s.(table := s.table[id := InsertedRow(s.types[ty].versions[version], s.types[ty].service, user, ty,
                                            deliver, ttlFrom, escFrom, s.now)])
    case Issue(stmt) => s.(table := Run(s.table, stmt, s.now))
    case Fetch(i, ids) =>
      s.(passes := s.passes[i := Loop(seq(|ids|, k requires 0 <= k < |ids| => Held(ids[k], s.table[ids[k]])))])
    case ReadType(i) =>
      var due := s.passes[i].due;
      s.(passes := s.passes[i := Typed(due, Lookup(s.types, due[0].row.ty))])
    case Deadline(i) =>
      var p := s.passes[i];
      s.(passes := s.passes[i := Timed(p.due, p.conf, NextDeadline(p.conf, p.due[0].row.escalationCount + 1, s.now))])
    case Write(i) =>
      var p := s.passes[i];
      s.(table := Run(s.table, SetEscalation(p.due[0].id, p.due[0].row.escalationCount + 1, p.next), s.now),
         passes := s.passes[i := Acting(p.due, p.conf)])
    case Act(i) =>
      var p := s.passes[i];
      s.(table := Run(s.table, ActionStatement(p.conf, p.due[0].id), s.now),
         passes := s.passes[i := Loop(p.due[1..])])
    case Stop(i) => s.(passes := s.passes[i := Idle])
  }

  // ---------- runs ----------

  predicate Possible(s: Sys, run: seq<Action>)
    decreases |run|
  {
    run == [] || (Enabled(s, run[0]) && Possible(Do(s, run[0]), run[1..]))
  }

  function Exec(s: Sys, run: seq<Action>): Sys
    requires Possible(s, run)
    decreases |run|
  {
    if run == [] then s else Exec(Do(s, run[0]), run[1..])
  }

  /** The database is empty and no pass has begun. */
  predicate Initial(s: Sys) {
    s.table == map[] && s.types == map[] && forall i :: 0 <= i < |s.passes| ==> s.passes[i].Idle?
  }

  lemma {:induction false} ExecConcat(s: Sys, first: seq<Action>, second: seq<Action>)
    requires Possible(s, first) && Possible(Exec(s, first), second)
    ensures Possible(s, first + second)
    ensures Exec(s, first + second) == Exec(Exec(s, first), second)
    decreases |first|
  {
    if first == [] {
      assert first + second == second;
    } else {
      assert (first + second)[1..] == first[1..] + second;
      ExecConcat(Do(s, first[0]), first[1..], second);
    }
  }

  // ---------- what only grows ----------

  /** Rows and types are never removed, their identities never change, a type's history only
      grows, and the clock and the number of instances behave. */
  ghost predicate Evolves(s: Sys, t: Sys) {
    && s.now <= t.now && |s.passes| == |t.passes|
    && (forall id :: id in s.table ==> id in t.table && SameIdentity(s.table[id], t.table[id]))
    && (forall ty :: ty in s.types ==> ty in t.types && s.types[ty].versions <= t.types[ty].versions)
  }

  lemma DoEvolves(s: Sys, a: Action)
    requires Enabled(s, a)
    ensures Evolves(s, Do(s, a))
  {
    if a.Issue? || a.Write? || a.Act? {
      forall id | id in s.table ensures SameIdentity(s.table[id], Do(s, a).table[id]) {
        DoKeepsIdentity(s, a, id);
      }
    }
  }

  predicate SameIdentity(row: Row, row': Row) {
    row'.ty == row.ty && row'.user == row.user && row'.service == row.service
  }

  lemma DoKeepsIdentity(s: Sys, a: Action, id: Id)
    requires Enabled(s, a) && id in s.table
    ensures id in Do(s, a).table && SameIdentity(s.table[id], Do(s, a).table[id])
  {
    match a
    case Issue(stmt) => Frame(s.table, stmt, s.now, id);
    case Act(i) => Frame(s.table, ActionStatement(s.passes[i].conf, s.passes[i].due[0].id), s.now, id);
    case Write(i) =>
      var h := s.passes[i].due[0];
      Frame(s.table, SetEscalation(h.id, h.row.escalationCount + 1, s.passes[i].next), s.now, id);
    case _ =>
  }

  lemma {:induction false} ExecEvolves(s: Sys, run: seq<Action>)
    requires Possible(s, run)
    ensures Evolves(s, Exec(s, run))
    decreases |run|
  {
    if run != [] {
      DoEvolves(s, run[0]);
      ExecEvolves(Do(s, run[0]), run[1..]);
    }
  }

  // ---------- one action seen from one row ----------

  /** The action is a pass writing the count of this row. */
  predicate Writes(s: Sys, a: Action, id: Id)
    requires Enabled(s, a)
  {
    a.Write? && s.passes[a.i].due[0].id == id
  }

  /** Only a pass's write changes a row's escalation columns, to one more than the count it had
      fetched and the deadline it had computed; and the columns that follow the state go on doing so. */
  lemma DoOnRow(s: Sys, a: Action, id: Id)
    requires Enabled(s, a) && id in s.table
    ensures id in Do(s, a).table
    ensures var row, row' := s.table[id], Do(s, a).table[id];
            && row'.ty == row.ty
            && (Writes(s, a, id) ==>
                  && row'.escalationCount == s.passes[a.i].due[0].row.escalationCount + 1
                  && row'.nextEscalationAt == s.passes[a.i].next)
            && (!Writes(s, a, id) ==>
                  row'.escalationCount == row.escalationCount && row'.nextEscalationAt == row.nextEscalationAt)
            && (ColumnsFollowState(row) ==> ColumnsFollowState(row'))
  {
    match a
    case Issue(stmt) => StatementOnRow(s.table, stmt, s.now, id);
    case Act(i) => StatementOnRow(s.table, ActionStatement(s.passes[i].conf, s.passes[i].due[0].id), s.now, id);
    case Write(i) =>
      var h := s.passes[i].due[0];
      StatementOnRow(s.table, SetEscalation(h.id, h.row.escalationCount + 1, s.passes[i].next), s.now, id);
    case _ =>
  }

  // ---------- inserting and registering ----------

  /** A row goes in unseen if it is to be delivered and archived otherwise, never escalated, with the
      deadlines its type's version asks for; nothing else changes. */
  lemma InsertMakesRow(s: Sys, a: Action)
    requires a.Insert? && Enabled(s, a)
    ensures var t := Do(s, a);
            var conf := s.types[a.ty].versions[a.version];
            && t == s.(table := t.table) && t.table.Keys == s.table.Keys + {a.id}
            && (forall id :: id in s.table ==> t.table[id] == s.table[id])
            && var row := t.table[a.id];
               && row.service == s.types[a.ty].service && row.ty == a.ty && row.user == a.user
               && row.state == (if a.deliver then Unseen else Archived) && row.escalationCount == 0
               && row.snoozedUntil.None? && row.seenAt.None? && row.readAt.None?
               && row.createdAt == s.now && row.updatedAt == s.now
               && (row.expiresAt.Some? <==> conf.ttl.Some?)
               && (row.expiresAt.Some? ==> row.expiresAt.value == a.ttlFrom + conf.ttl.value)
               && (row.nextEscalationAt.Some? <==> conf.interval.Some? && conf.max > 0)
               && (row.nextEscalationAt.Some? ==> row.nextEscalationAt.value == a.escFrom + conf.interval.value)
  {
  }

  // ---------- the steps of a pass ----------

  /** The type is read in its last version, if there is such a type. */
  lemma ReadTypeReads(s: Sys, i: nat)
    requires Enabled(s, ReadType(i))
    ensures var ty, conf := s.passes[i].due[0].row.ty, Do(s, ReadType(i)).passes[i].conf;
            && Do(s, ReadType(i)).passes[i].due == s.passes[i].due
            && (conf.None? <==> ty !in s.types || s.types[ty].versions == [])
            && (conf.Some? ==> conf.value == s.types[ty].versions[|s.types[ty].versions| - 1])
  {
  }

  /** Another escalation is scheduled exactly while the new count is below the limit and the type has
      an interval, and then one interval from now. */
  lemma DeadlineSchedules(s: Sys, i: nat)
    requires Enabled(s, Deadline(i))
    ensures var p, next := s.passes[i], Do(s, Deadline(i)).passes[i].next;
            && (next.Some? <==> p.conf.Some? && p.conf.value.interval.Some?
                                && p.due[0].row.escalationCount + 1 < p.conf.value.max)
            && (next.Some? ==> next.value == s.now + p.conf.value.interval.value)
  {
  }

  /** The write sets the two escalation columns of its row, to one more than the count fetched and the
      deadline computed, and touches nothing else. */
  lemma WriteSets(s: Sys, i: nat, id: Id)
    requires Enabled(s, Write(i)) && id in s.table
    ensures var p, row := s.passes[i], s.table[id];
            var count := p.due[0].row.escalationCount + 1;
            Do(s, Write(i)).table[id] ==
              if id == p.due[0].id then row.(escalationCount := count, nextEscalationAt := p.next, updatedAt := s.now)
              else row
  {
  }

  /** The action only bumps a row of a bump type, and makes any other unseen: one whose type is to
      resurface or elevate, has an unknown action, or is gone. */
  lemma ActBumpsOrResurfaces(s: Sys, i: nat, id: Id)
    requires Enabled(s, Act(i)) && id in s.table
    ensures var p, row := s.passes[i], s.table[id];
            Do(s, Act(i)).table[id] ==
              if id != p.due[0].id then row
              else if p.conf.Some? && p.conf.value.action == ActBump then row.(updatedAt := s.now)
              else row.(state := Unseen, seenAt := None, updatedAt := s.now)
  {
  }
}
