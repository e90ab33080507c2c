/** Every state change in every run of the cluster against the specification machine. */
module Conformance {
  import opened Common
  import opened StateMachine
  import opened Notifications
  import opened Cluster
  import opened EscalationBounds

  /** The statement an action executes, if it is one. */
  function StatementOf(s: Sys, a: Action): Option<Statement>
    requires Enabled(s, a)
  {
    match a
    case Issue(stmt) => Some(stmt)
    case Act(i) => Some(ActionStatement(s.passes[i].conf, s.passes[i].due[0].id))
    case Write(i) =>
      var h := s.passes[i].due[0];
      Some(SetEscalation(h.id, h.row.escalationCount + 1, s.passes[i].next))
    case _ => None
  }

  /** An action leaves a row alone or runs its statement on it. */
  lemma ActionOnRow(s: Sys, a: Action, id: Id)
    requires Enabled(s, a) && id in s.table
    ensures id in Do(s, a).table
    ensures var stmt := StatementOf(s, a);
            Do(s, a).table[id] == if stmt.Some? then Run(s.table, stmt.value, s.now)[id] else s.table[id]
  {
  }

  /** An admin resurfaces this row, or a pass that had read it as unseen or unread does. */
  predicate EntersUnseen(s: Sys, a: Action, id: Id)
    requires Enabled(s, a)
  {
    || (a.Issue? && a.stmt == Resurface(id))
    || (a.Act? && s.passes[a.i].due[0].id == id && s.passes[a.i].due[0].row.state in {Unseen, Unread})
  }

  /** Actions that resurface a row are of these kinds only. */
  lemma ResurfacingAction(s: Sys, a: Action, id: Id)
    requires Inv(s) && Enabled(s, a) && StatementOf(s, a).Some?
    ensures StatementOf(s, a).value == Resurface(id) ==> EntersUnseen(s, a, id)
  {
    if a.Act? {
      assert PassOk(s, s.passes[a.i]) && HeldOk(s, s.passes[a.i].due[0]);
    }
  }

  /** What an action may do to the state of a row. */
  ghost predicate Conforms(s: Sys, a: Action, id: Id)
    requires Enabled(s, a) && id in s.table
  {
    id in Do(s, a).table && (Do(s, a).table[id].state != s.table[id].state ==>
      var from, to := s.table[id].state, Do(s, a).table[id].state;
      && (CanTransitionTo(from, to) <==> !Deviates(from, to)) && !Unused(from, to)
      && (to == Unseen <==> EntersUnseen(s, a, id)))
  }

  lemma ActionConforms(s: Sys, a: Action, id: Id)
    requires Inv(s) && Enabled(s, a) && id in s.table
    ensures Conforms(s, a, id)
  {
    ActionOnRow(s, a, id);
    if StatementOf(s, a).Some? {
      ConformantStatement(s.table, StatementOf(s, a).value, s.now, id);
      ResurfacingAction(s, a, id);
    }
  }

  /** In every run, a change of a row's state is one `apply` accepts, except read to snoozed, snoozed
      to archived and entering unseen; snoozed to expired and expired to archived never happen. A row
      enters unseen only when an admin resurfaces it or a pass that had read that very row as unseen
      or unread acts on it. */
  lemma StateChangesInRuns(s: Sys, run: seq<Action>, a: Action, id: Id)
    requires Initial(s) && Possible(s, run) && Enabled(Exec(s, run), a) && id in Exec(s, run).table
    ensures Conforms(Exec(s, run), a, id)
  {
    ExecKeepsInv(s, run);
    ActionConforms(Exec(s, run), a, id);
  }

  lemma ConformantStatement(t: Table, stmt: Statement, now: Time, id: Id)
    requires id in t
    ensures var from, to := t[id].state, Run(t, stmt, now)[id].state;
            from != to ==>
              && !stmt.SetEscalation? && !Unused(from, to) && (CanTransitionTo(from, to) <==> !Deviates(from, to))
              && (to == Unseen <==> stmt == Resurface(id))
  {
    if t[id].state != Run(t, stmt, now)[id].state {
      EdgeOfStatement(t, stmt, now, id);
    }
  }

  // ---------- every edge is taken ----------

  /** Some action in some run takes a row along the edge. */
  ghost predicate TakenInRun(from: State, to: State) {
    exists s, run, a, id :: TakenAfter(s, run, a, id, from, to)
  }

  ghost predicate TakenAfter(s: Sys, run: seq<Action>, a: Action, id: Id, from: State, to: State) {
    && Initial(s) && Possible(s, run) && Enabled(Exec(s, run), a)
    && id in Exec(s, run).table && Exec(s, run).table[id].state == from
    && id in Do(Exec(s, run), a).table && Do(Exec(s, run), a).table[id].state == to && from != to
  }

  /** The state changes of runs are exactly the machine's edges, less the two unused ones, plus
      read-to-snoozed, snoozed-to-archived and every edge into unseen. */
  lemma EdgesOfRuns(from: State, to: State)
    ensures TakenInRun(from, to) <==> (CanTransitionTo(from, to) && !Unused(from, to)) || Deviates(from, to)
  {
    CanTransitionIsSuccessor(from, to);
    if s, run, a, id :| TakenAfter(s, run, a, id, from, to) {
      StateChangesInRuns(s, run, a, id);
    }
    if (to in Successors(from) && !Unused(from, to)) || Deviates(from, to) {
      EdgeIsReached(from, to);
    }
  }

  /** The statements that take row 0, inserted unseen, to a state. */
  function PathTo(state: State): seq<Statement> {
    match state
    case Unseen => []
    case Unread => [SeenAll("")]
    case Read => [SeenAll(""), ByIds(ReadOp, "", [0])]
    case Snoozed => [SnoozeOne("", 0, 1)]
    case Archived => [ByIds(ArchiveOp, "", [0])]
    case Expired => [ExpireRows({0})]
  }

  function Issued(path: seq<Statement>): (run: seq<Action>)
    ensures |run| == |path|
  {
    if path == [] then [] else [Issue(path[0])] + Issued(path[1..])
  }

  /** What a path of statements makes of a row. */
  function Along(row: Row, path: seq<Statement>, now: Time): Row
    decreases |path|
  {
    if path == [] then row
    else Along(if Matches(path[0], 0, row, now) then Assign(path[0], row, now) else row, path[1..], now)
  }

  lemma {:induction false} IssuedPath(s: Sys, row: Row, path: seq<Statement>)
    requires s.table == map[0 := row] && forall stmt :: stmt in path ==> !stmt.SetEscalation?
    ensures Possible(s, Issued(path)) && Exec(s, Issued(path)) == s.(table := map[0 := Along(row, path, s.now)])
    decreases |path|
  {
    if path != [] {
      var s1 := Do(s, Issue(path[0]));
      var row1 := if Matches(path[0], 0, row, s.now) then Assign(path[0], row, s.now) else row;
      assert s1.table == map[0 := row1];
      assert Issued(path)[1..] == Issued(path[1..]);
      IssuedPath(s1, row1, path[1..]);
    }
  }

  /** An unseen row that expires at instant 1, which has come. */
  lemma OpenRow() returns (s: Sys, run: seq<Action>, row: Row)
    ensures Initial(s) && Possible(s, run) && Exec(s, run).table == map[0 := row] && Exec(s, run).now == 1
    ensures row.state == Unseen && row.user == "" && row.expiresAt == Some(1)
  {
    s := Sys(0, map[], map[], []);
    var register, insert, wait := RegisterType(0, 0, TypeRequest(1, 0, 0, 1)), Insert(0, "", 0, 0, true, 0, 0), Tick(1);
    var s1 := Do(s, register);
    var s2 := Do(s1, insert);
    var s3 := Do(s2, wait);
    assert Possible(s3, []);
    assert [wait][1..] == [] && [insert, wait][1..] == [wait] && [register, insert, wait][1..] == [insert, wait];
    assert Possible(s2, [wait]) && Exec(s2, [wait]) == s3;
    assert Possible(s1, [insert, wait]) && Exec(s1, [insert, wait]) == s3;
    run, row := [register, insert, wait], s3.table[0];
    assert s3.table == map[0 := row];
  }

  lemma PathReaches(row: Row, state: State)
    requires row.state == Unseen && row.user == "" && row.expiresAt == Some(1)
    ensures Fit(Along(row, PathTo(state), 1), state)
  {
    var path := PathTo(state);
    if path != [] {
      var row1 := if Matches(path[0], 0, row, 1) then Assign(path[0], row, 1) else row;
      assert Along(row, path, 1) == Along(row1, path[1..], 1);
      if |path| == 2 {
        assert Along(row1, path[1..], 1) == Along(Assign(path[1], row1, 1), path[1..][1..], 1);
      }
    }
  }

  /** In the state, and ready to leave it by any statement. */
  predicate Fit(row: Row, state: State) {
    && row.state == state && row.user == "" && row.expiresAt == Some(1)
    && (state == Snoozed ==> row.snoozedUntil == Some(1))
  }

  lemma StateIsReached(state: State) returns (s: Sys, run: seq<Action>, row: Row)
    ensures Initial(s) && Possible(s, run) && Exec(s, run).table == map[0 := row] && Exec(s, run).now == 1
            && Fit(row, state)
  {
    var setUp, first;
    s, setUp, first := OpenRow();
    IssuedPath(Exec(s, setUp), first, PathTo(state));
    ExecConcat(s, setUp, Issued(PathTo(state)));
    run, row := setUp + Issued(PathTo(state)), Along(first, PathTo(state), 1);
    PathReaches(first, state);
  }

  lemma EdgeIsReached(from: State, to: State)
    requires (to in Successors(from) && !Unused(from, to)) || Deviates(from, to)
    ensures TakenInRun(from, to)
  {
    var s, run, row := StateIsReached(from);
    var stmt := EdgeWitness(from, to);
    assert Matches(stmt, 0, row, 1) && Assign(stmt, row, 1).state == to;
    assert Run(map[0 := row], stmt, 1)[0].state == to;
    assert TakenAfter(s, run, Issue(stmt), 0, from, to);
  }
}
