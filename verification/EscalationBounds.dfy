/** Bounds on escalation that hold in every interleaving of the scheduler instances with
    everything else: the count never passes the largest limit the type has ever had, no
    escalation is early, and stale writes never take the count below every count in flight. */
module EscalationBounds {
  import opened Common
  import opened StateMachine
  import opened Notifications
  import opened Cluster

  /** The largest max_escalations in a type's history, 0 if none is positive. */
  function MaxEver(versions: seq<TypeConf>): nat {
    if versions == [] then 0
    else Max(MaxEver(versions[..|versions| - 1]), versions[|versions| - 1].max)
  }

  lemma {:induction false} MaxEverBounds(versions: seq<TypeConf>)
    ensures forall c :: c in versions ==> c.max <= MaxEver(versions)
  {
    if versions != [] {
      var init := versions[..|versions| - 1];
      MaxEverBounds(init);
      assert versions == init + [versions[|versions| - 1]];
    }
  }

  lemma {:induction false} MaxEverLeast(versions: seq<TypeConf>, bound: nat)
    requires forall c :: c in versions ==> c.max <= bound
    ensures MaxEver(versions) <= bound
  {
    if versions != [] {
      MaxEverLeast(versions[..|versions| - 1], bound);
    }
  }

  lemma MaxEverGrows(before: seq<TypeConf>, after: seq<TypeConf>)
    requires before <= after
    ensures MaxEver(before) <= MaxEver(after)
  {
    MaxEverBounds(after);
    assert forall c :: c in before ==> c in after;
    MaxEverLeast(before, MaxEver(after));
  }

  // ---------- the invariant ----------

  /** The limit no escalation of a row of this type passes. */
  function Limit(s: Sys, ty: TypeId): nat {
    if ty in s.types then MaxEver(s.types[ty].versions) else 0
  }

  ghost predicate RowOk(s: Sys, row: Row) {
    && row.ty in s.types
    && 0 <= row.escalationCount <= Limit(s, row.ty)
    && (row.nextEscalationAt.Some? ==> row.escalationCount < Limit(s, row.ty))
    && ColumnsFollowState(row)
  }

  /** A snapshot was taken while its row was due: unseen or unread, and below the limit. */
  ghost predicate HeldOk(s: Sys, h: Held) {
    && h.id in s.table && h.row.ty == s.table[h.id].ty && h.row.ty in s.types
    && h.row.state in {Unseen, Unread}
    && 0 <= h.row.escalationCount < Limit(s, h.row.ty)
  }

  ghost predicate ConfOk(s: Sys, h: Held, conf: Option<TypeConf>) {
    conf.Some? ==> h.row.ty in s.types && conf.value in s.types[h.row.ty].versions
  }

  /** The rows a pass still has to write. */
  function Pending(p: Pass): seq<Held> {
    match p
    case Idle => []
    case Acting(due, _) => if due == [] then [] else due[1..]
    case _ => p.due
  }

  ghost predicate PassOk(s: Sys, p: Pass) {
    !p.Idle? ==>
      && (forall h :: h in p.due ==> HeldOk(s, h))
      && (forall a, b :: 0 <= a < b < |p.due| ==> p.due[a].id != p.due[b].id)
      && (!p.Loop? ==> p.due != [] && p.conf.Some? && ConfOk(s, p.due[0], p.conf))
      && (p.Timed? && p.next.Some? ==> p.due[0].row.escalationCount + 1 < Limit(s, p.due[0].row.ty))
  }

  ghost predicate Inv(s: Sys) {
    && (forall id :: id in s.table ==> RowOk(s, s.table[id]))
    && (forall i :: 0 <= i < |s.passes| ==> PassOk(s, s.passes[i]))
    && (forall ty :: ty in s.types ==> s.types[ty].versions != [])
    && (forall ty, c :: ty in s.types && c in s.types[ty].versions ==> c.interval.Some? ==> c.interval.value > 0)
  }

  lemma PassOkEvolves(s: Sys, t: Sys, p: Pass)
    requires Evolves(s, t) && PassOk(s, p)
    ensures PassOk(t, p)
  {
    if !p.Idle? {
      forall h | h in p.due ensures HeldOk(t, h) {
        assert HeldOk(s, h);
        MaxEverGrows(s.types[h.row.ty].versions, t.types[h.row.ty].versions);
      }
      if p.due != [] {
        var h := p.due[0];
        assert HeldOk(s, h);
        MaxEverGrows(s.types[h.row.ty].versions, t.types[h.row.ty].versions);
      }
    }
  }

  lemma FetchIsOk(s: Sys, a: Action)
    requires Inv(s) && Enabled(s, a) && a.Fetch?
    ensures PassOk(Do(s, a), Do(s, a).passes[a.i])
  {
    var t := Do(s, a);
    forall h | h in t.passes[a.i].due ensures HeldOk(t, h) {
      assert RowOk(s, s.table[h.id]);
    }
  }

  /** The pass an action moves is well-formed afterwards. */
  lemma MoverKeepsPass(s: Sys, a: Action)
    requires Inv(s) && Enabled(s, a) && Mover(a).Some?
    ensures PassOk(Do(s, a), Do(s, a).passes[Mover(a).value])
  {
    var i, t := Mover(a).value, Do(s, a);
    assert PassOk(s, s.passes[i]);
    DoEvolves(s, a);
    PassOkEvolves(s, t, s.passes[i]);
    match a
    case Fetch(_, _) =>
      FetchIsOk(s, a);
    case ReadType(_) =>
      assert HeldOk(s, s.passes[i].due[0]);
    case Deadline(_) =>
      var h := s.passes[i].due[0];
      assert HeldOk(s, h);
      MaxEverBounds(s.types[h.row.ty].versions);
    case Act(_) =>
      assert forall h :: h in s.passes[i].due[1..] ==> h in s.passes[i].due;
    case _ =>
  }

  lemma RowsStayOk(s: Sys, a: Action, id: Id)
    requires Inv(s) && Enabled(s, a) && id in Do(s, a).table
    ensures RowOk(Do(s, a), Do(s, a).table[id])
  {
    var t := Do(s, a);
    DoEvolves(s, a);
    if id in s.table {
      assert RowOk(s, s.table[id]);
      DoOnRow(s, a, id);
      var ty := s.table[id].ty;
      MaxEverGrows(s.types[ty].versions, t.types[ty].versions);
      if Writes(s, a, id) {
        var h := s.passes[a.i].due[0];
        assert PassOk(s, s.passes[a.i]) && HeldOk(s, h);
      }
    } else {
      MaxEverBounds(s.types[a.ty].versions);
    }
  }

  lemma DoKeepsInv(s: Sys, a: Action)
    requires Inv(s) && Enabled(s, a)
    ensures Inv(Do(s, a))
  {
    var t := Do(s, a);
    DoEvolves(s, a);
    forall id | id in t.table ensures RowOk(t, t.table[id]) {
      RowsStayOk(s, a, id);
    }
    forall i | 0 <= i < |t.passes| ensures PassOk(t, t.passes[i]) {
      if Mover(a) == Some(i) {
        MoverKeepsPass(s, a);
      } else {
        PassOkEvolves(s, t, s.passes[i]);
      }
    }
  }

  lemma {:induction false} ExecKeepsInv(s: Sys, run: seq<Action>)
    requires Inv(s) && Possible(s, run)
    ensures Inv(Exec(s, run))
    decreases |run|
  {
    if run != [] {
      DoKeepsInv(s, run[0]);
      ExecKeepsInv(Do(s, run[0]), run[1..]);
    }
  }

  // ---------- the results ----------

  /** In every reachable state a row's count is at most the largest limit its type has ever had,
      strictly below it while another escalation is scheduled, and so never overflows an i32. */
  lemma CountWithinLargestLimit(s: Sys, run: seq<Action>, id: Id)
    requires Initial(s) && Possible(s, run) && id in Exec(s, run).table
    ensures var t := Exec(s, run);
            var row := t.table[id];
            && row.ty in t.types
            && 0 <= row.escalationCount <= MaxEver(t.types[row.ty].versions)
            && (row.nextEscalationAt.Some? ==> row.escalationCount < MaxEver(t.types[row.ty].versions))
            && ((forall c :: c in t.types[row.ty].versions ==> c.max <= 0x7fff_ffff) ==>
                  row.escalationCount <= 0x7fff_ffff)
  {
    ExecKeepsInv(s, run);
    var t := Exec(s, run);
    assert RowOk(t, t.table[id]);
    if forall c :: c in t.types[t.table[id].ty].versions ==> c.max <= 0x7fff_ffff {
      MaxEverLeast(t.types[t.table[id].ty].versions, 0x7fff_ffff);
    }
  }

  /** Snoozed rows always have a wake-up time and unseen rows never have a seen time; a pass that
      is about to resurface or bump a row had read that row as unseen or unread, whatever state
      the row is in by now. */
  lemma ReachableColumns(s: Sys, run: seq<Action>, id: Id, i: nat)
    requires Initial(s) && Possible(s, run)
    ensures var t := Exec(s, run);
            && (id in t.table ==> ColumnsFollowState(t.table[id]))
            && (Enabled(t, Act(i)) ==>
                  t.passes[i].due[0].row.state in {Unseen, Unread} && t.passes[i].due[0].id in t.table)
  {
    ExecKeepsInv(s, run);
    var t := Exec(s, run);
    if id in t.table {
      assert RowOk(t, t.table[id]);
    }
    if Enabled(t, Act(i)) {
      assert PassOk(t, t.passes[i]) && HeldOk(t, t.passes[i].due[0]);
    }
  }

  // ---------- no escalation is early ----------

  /** Every interval the row's type has ever had is at least `least`. */
  ghost predicate IntervalsAtLeast(s: Sys, id: Id, least: int) {
    id in s.table && s.table[id].ty in s.types &&
    forall c :: c in s.types[s.table[id].ty].versions ==> c.interval.Some? ==> c.interval.value >= least
  }

  /** The earliest instant the k-th escalation may be written. */
  function Earliest(start: Time, least: int, k: int): Time
    decreases k
  {
    if k <= 0 then start else Earliest(start, least, k - 1) + least
  }

  lemma {:induction false} EarliestIsMultiple(start: Time, least: int, k: nat)
    ensures Earliest(start, least, k) == start + k * least
  {
    if k > 0 {
      EarliestIsMultiple(start, least, k - 1);
      assert k * least == (k - 1) * least + least;
    }
  }

  ghost predicate HeldNotEarly(h: Held, start: Time, least: int, now: Time) {
    Earliest(start, least, h.row.escalationCount + 1) <= now
  }

  ghost predicate PassNotEarly(p: Pass, id: Id, start: Time, least: int, now: Time) {
    && (forall h :: h in Pending(p) && h.id == id ==> HeldNotEarly(h, start, least, now))
    && (p.Timed? && p.due != [] && p.due[0].id == id && p.next.Some? ==>
          Earliest(start, least, p.due[0].row.escalationCount + 2) <= p.next.value)
  }

  ghost predicate RowNotEarly(row: Row, start: Time, least: int, now: Time) {
    && Earliest(start, least, row.escalationCount) <= now
    && (row.nextEscalationAt.Some? ==> Earliest(start, least, row.escalationCount + 1) <= row.nextEscalationAt.value)
  }

  ghost predicate NotEarly(s: Sys, id: Id, start: Time, least: int) {
    && id in s.table
    && RowNotEarly(s.table[id], start, least, s.now)
    && (forall i :: 0 <= i < |s.passes| ==> PassNotEarly(s.passes[i], id, start, least, s.now))
  }

  lemma DoKeepsNotEarly(s: Sys, a: Action, id: Id, start: Time, least: int)
    requires Inv(s) && Enabled(s, a) && NotEarly(s, id, start, least) && IntervalsAtLeast(s, id, least)
    ensures NotEarly(Do(s, a), id, start, least)
  {
    var t := Do(s, a);
    DoOnRow(s, a, id);
    if Mover(a).Some? {
      MoverNotEarly(s, a, id, start, least);
    }
    forall i | 0 <= i < |t.passes| ensures PassNotEarly(t.passes[i], id, start, least, t.now) {
      if Mover(a) != Some(i) {
        assert PassNotEarly(s.passes[i], id, start, least, s.now);
      }
    }
    if Writes(s, a, id) {
      assert s.passes[a.i].due[0] in Pending(s.passes[a.i]);
      assert PassNotEarly(s.passes[a.i], id, start, least, s.now);
    }
  }

  lemma MoverNotEarly(s: Sys, a: Action, id: Id, start: Time, least: int)
    requires Inv(s) && Enabled(s, a) && NotEarly(s, id, start, least) && IntervalsAtLeast(s, id, least)
    requires Mover(a).Some?
    ensures PassNotEarly(Do(s, a).passes[Mover(a).value], id, start, least, s.now)
  {
    var i := Mover(a).value;
    var p, p' := s.passes[i], Do(s, a).passes[i];
    assert PassNotEarly(p, id, start, least, s.now);
    if !a.Fetch? {
      assert forall h :: h in Pending(p') ==> h in Pending(p);
    }
    if a.Deadline? && p.due[0].id == id && p'.next.Some? {
      assert PassOk(s, p) && HeldOk(s, p.due[0]);
      assert p.due[0] in Pending(p) && HeldNotEarly(p.due[0], start, least, s.now);
    }
  }

  lemma {:induction false} ExecKeepsNotEarly(s: Sys, run: seq<Action>, id: Id, start: Time, least: int)
    requires Inv(s) && Possible(s, run) && NotEarly(s, id, start, least)
    requires IntervalsAtLeast(Exec(s, run), id, least)
    ensures NotEarly(Exec(s, run), id, start, least)
    decreases |run|
  {
    if run != [] {
      ExecEvolves(s, run);
      assert RowOk(s, s.table[id]);
      assert IntervalsAtLeast(s, id, least);
      DoKeepsNotEarly(s, run[0], id, start, least);
      DoKeepsInv(s, run[0]);
      ExecKeepsNotEarly(Do(s, run[0]), run[1..], id, start, least);
    }
  }

  /** In every run, by the time a row's count has reached k, at least k of the smallest interval
      its type has ever had have passed since the processor computed the row's first deadline. */
  lemma EscalationsAreNeverEarly(s: Sys, before: seq<Action>, insert: Action, after: seq<Action>, least: int)
    requires Initial(s) && Possible(s, before)
    requires insert.Insert? && Enabled(Exec(s, before), insert)
    requires Possible(Do(Exec(s, before), insert), after)
    requires IntervalsAtLeast(Exec(Do(Exec(s, before), insert), after), insert.id, least)
    ensures var t := Exec(Do(Exec(s, before), insert), after);
            t.table[insert.id].escalationCount * least <= t.now - insert.escFrom
  {
    var s1 := Exec(s, before);
    ExecKeepsInv(s, before);
    var s2 := Do(s1, insert);
    DoKeepsInv(s1, insert);
    forall i | 0 <= i < |s2.passes| ensures PassNotEarly(s2.passes[i], insert.id, insert.escFrom, least, s2.now) {
      assert PassOk(s1, s1.passes[i]);
      forall h | h in Pending(s2.passes[i]) ensures h.id != insert.id {
        assert h in s1.passes[i].due && HeldOk(s1, h);
      }
      assert s2.passes[i].Timed? ==> s2.passes[i].due[0] in Pending(s2.passes[i]);
    }
    ExecEvolves(s2, after);
    var conf := s1.types[insert.ty].versions[insert.version];
    assert conf in s2.types[insert.ty].versions;
    assert s2.types[insert.ty].versions <= Exec(s2, after).types[insert.ty].versions;
    assert conf in Exec(s2, after).types[insert.ty].versions;
    assert NotEarly(s2, insert.id, insert.escFrom, least);
    ExecKeepsNotEarly(s2, after, insert.id, insert.escFrom, least);
    ExecKeepsInv(s2, after);
    var t := Exec(s2, after);
    assert RowOk(t, t.table[insert.id]);
    EarliestIsMultiple(insert.escFrom, least, t.table[insert.id].escalationCount);
  }

  /** As no interval is ever stored below one second, a row never escalates more often than once a
      second on average, whatever its type was set to. */
  lemma AtMostOnePerSecond(s: Sys, before: seq<Action>, insert: Action, after: seq<Action>)
    requires Initial(s) && Possible(s, before)
    requires insert.Insert? && Enabled(Exec(s, before), insert)
    requires Possible(Do(Exec(s, before), insert), after)
    ensures var t := Exec(Do(Exec(s, before), insert), after);
            insert.id in t.table && t.table[insert.id].escalationCount <= t.now - insert.escFrom
  {
    var s1 := Exec(s, before);
    ExecKeepsInv(s, before);
    DoKeepsInv(s1, insert);
    ExecKeepsInv(Do(s1, insert), after);
    ExecEvolves(Do(s1, insert), after);
    var t := Exec(Do(s1, insert), after);
    assert RowOk(t, t.table[insert.id]);
    EscalationsAreNeverEarly(s, before, insert, after, 1);
  }

  // ---------- stale writes ----------

  /** No count of this row, stored or held for a write to come, is below `floor`. */
  ghost predicate CountsAtLeast(s: Sys, id: Id, floor: int) {
    && (id in s.table ==> s.table[id].escalationCount >= floor)
    && (forall i, h :: 0 <= i < |s.passes| && h in Pending(s.passes[i]) && h.id == id ==>
          h.row.escalationCount >= floor)
  }

  /** A stale write may lower the stored count, but never below the smallest count stored or held
      before it: the minimum of the two never decreases, over any run. */
  lemma {:induction false} LeastCountNeverFalls(s: Sys, run: seq<Action>, id: Id, floor: int)
    requires Possible(s, run) && id in s.table && CountsAtLeast(s, id, floor)
    ensures CountsAtLeast(Exec(s, run), id, floor)
    decreases |run|
  {
    if run != [] {
      var t := Do(s, run[0]);
      DoOnRow(s, run[0], id);
      if run[0].Write? {
        assert s.passes[run[0].i].due[0] in Pending(s.passes[run[0].i]);
      }
      forall i, h | 0 <= i < |t.passes| && h in Pending(t.passes[i]) && h.id == id
        ensures h.row.escalationCount >= floor {
        if Mover(run[0]) == Some(i) && !run[0].Fetch? {
          assert h in Pending(s.passes[i]);
        }
      }
      LeastCountNeverFalls(t, run[1..], id, floor);
    }
  }
}
