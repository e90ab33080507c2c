/** The write bound is attained: for every number of instances and every limit there is a run in
    which one row is written exactly C(K + M, M) - 1 times. */
module EscalationWorstCase {
  import opened Common
  import opened StateMachine
  import opened Notifications
  import opened Cluster
  import opened EscalationBounds
  import opened EscalationWrites
  import opened Counting

  lemma Prepend(s: Sys, a: Action, rest: seq<Action>, id: Id)
    requires Enabled(s, a) && Possible(Do(s, a), rest)
    ensures Possible(s, [a] + rest) && Exec(s, [a] + rest) == Exec(Do(s, a), rest)
    ensures WriteCount(s, [a] + rest, id) == (if Writes(s, a, id) then 1 else 0) + WriteCount(Do(s, a), rest, id)
  {
    assert ([a] + rest)[1..] == rest;
  }

  lemma {:induction false} WriteCountConcat(s: Sys, first: seq<Action>, second: seq<Action>, id: Id)
    requires Possible(s, first) && Possible(Exec(s, first), second)
    ensures Possible(s, first + second) && Exec(s, first + second) == Exec(Exec(s, first), second)
    ensures WriteCount(s, first + second, id) == WriteCount(s, first, id) + WriteCount(Exec(s, first), second, id)
    decreases |first|
  {
    if first == [] {
      assert first + second == second;
    } else {
      assert first + second == [first[0]] + (first[1..] + second);
      WriteCountConcat(Do(s, first[0]), first[1..], second, id);
      Prepend(s, first[0], first[1..] + second, id);
    }
  }

  /** The row is open for escalation at count `c` of a type that escalates every second up to
      `limit` times by resurfacing. */
  ghost predicate AtCount(s: Sys, id: Id, c: nat, limit: nat) {
    && id in s.table && c <= limit
    && s.table[id].state in {Unseen, Unread}
    && s.table[id].escalationCount == c
    && (c < limit ==> s.table[id].nextEscalationAt.Some?)
    && Lookup(s.types, s.table[id].ty) == Some(TypeConf(None, Some(1), limit, ActResurface))
  }

  ghost predicate FreeBelow(s: Sys, k: nat) {
    k <= |s.passes| && forall i :: 0 <= i < k ==> s.passes[i].Idle?
  }

  /** Waiting until the row is due and fetching it. */
  lemma FetchOne(s: Sys, id: Id, k: nat, c: nat, limit: nat) returns (run: seq<Action>)
    requires AtCount(s, id, c, limit) && c < limit && FreeBelow(s, k + 1)
    ensures Possible(s, run) && WriteCount(s, run, id) == 0
    ensures var t := Exec(s, run);
            t.table == s.table && t.types == s.types && t.passes == s.passes[k := Loop([Held(id, s.table[id])])]
  {
    var wait, fetch := Tick(Max(s.now, s.table[id].nextEscalationAt.value)), Fetch(k, [id]);
    var s1 := Do(s, wait);
    Prepend(s1, fetch, [], id);
    Prepend(s, wait, [fetch] + [], id);
    run := [wait] + ([fetch] + []);
    assert Do(s1, fetch).passes[k].due == [Held(id, s.table[id])];
  }

  /** Reading the type and computing the deadline. */
  lemma PrepareOne(s: Sys, id: Id, k: nat, row: Row, limit: nat) returns (run: seq<Action>)
    requires k < |s.passes| && s.passes[k] == Loop([Held(id, row)])
    requires Lookup(s.types, row.ty) == Some(TypeConf(None, Some(1), limit, ActResurface))
    ensures Possible(s, run) && WriteCount(s, run, id) == 0
    ensures Exec(s, run) == s.(passes := s.passes[k := Timed([Held(id, row)], Lookup(s.types, row.ty),
                                  if row.escalationCount + 1 < limit then Some(s.now + 1) else None)])
  {
    var s1 := Do(s, ReadType(k));
    var s2 := Do(s1, Deadline(k));
    Prepend(s1, Deadline(k), [], id);
    Prepend(s, ReadType(k), [Deadline(k)] + [], id);
    run := [ReadType(k)] + ([Deadline(k)] + []);
    assert s2.passes == s.passes[k := s2.passes[k]];
  }

  /** Writing, resurfacing and ending the pass. */
  lemma CommitOne(s: Sys, id: Id, k: nat, row: Row, next: Option<Time>, conf: TypeConf) returns (run: seq<Action>)
    requires k < |s.passes| && s.passes[k] == Timed([Held(id, row)], Some(conf), next)
    requires id in s.table && conf.action == ActResurface
    ensures Possible(s, run) && WriteCount(s, run, id) == 1
    ensures var t := Exec(s, run);
            && t.types == s.types && t.passes == s.passes[k := Idle]
            && id in t.table && t.table[id].ty == s.table[id].ty && t.table[id].state == Unseen
            && t.table[id].escalationCount == row.escalationCount + 1 && t.table[id].nextEscalationAt == next
  {
    var s1 := Do(s, Write(k));
    DoOnRow(s, Write(k), id);
    var rest := ActAndStop(s1, id, k, row, conf);
    Prepend(s, Write(k), rest, id);
    run := [Write(k)] + rest;
    assert Exec(s1, rest).passes == s.passes[k := Idle];
  }

  lemma ActAndStop(s: Sys, id: Id, k: nat, row: Row, conf: TypeConf) returns (run: seq<Action>)
    requires k < |s.passes| && s.passes[k] == Acting([Held(id, row)], Some(conf))
    requires id in s.table && conf.action == ActResurface
    ensures Possible(s, run) && WriteCount(s, run, id) == 0
    ensures var t := Exec(s, run);
            && t.types == s.types && t.passes == s.passes[k := Idle]
            && id in t.table && t.table[id] == s.table[id].(state := Unseen, seenAt := None, updatedAt := s.now)
  {
    var s1 := Do(s, Act(k));
    assert Matches(Resurface(id), id, s.table[id], s.now);
    var s2 := Do(s1, Stop(k));
    Prepend(s1, Stop(k), [], id);
    Prepend(s, Act(k), [Stop(k)] + [], id);
    run := [Act(k)] + ([Stop(k)] + []);
    assert s2.passes == s.passes[k := Idle];
  }

  /** Finishing a pass over the row: one write of the count it holds plus one. */
  lemma FinishOne(s: Sys, id: Id, k: nat, row: Row, stored: nat, limit: nat) returns (run: seq<Action>)
    requires k < |s.passes| && s.passes[k] == Loop([Held(id, row)])
    requires AtCount(s, id, stored, limit) && row.ty == s.table[id].ty && 0 <= row.escalationCount < limit
    ensures Possible(s, run) && WriteCount(s, run, id) == 1
    ensures var t := Exec(s, run);
            && AtCount(t, id, row.escalationCount + 1, limit)
            && t.table[id].ty == row.ty && t.types == s.types && t.passes == s.passes[k := Idle]
  {
    var prepare := PrepareOne(s, id, k, row, limit);
    var s1 := Exec(s, prepare);
    var commit := CommitOne(s1, id, k, row, s1.passes[k].next, Lookup(s.types, row.ty).value);
    WriteCountConcat(s, prepare, commit, id);
    run := prepare + commit;
    assert Exec(s1, commit).passes == s.passes[k := Idle];
  }

  /** The k free instances alone can write the row once less than there are multisets: one of them
      fetches and stalls, the rest do their worst, then it writes its stale count and all k do their
      worst from there. */
  lemma {:induction false} Cascade(s: Sys, id: Id, k: nat, c: nat, limit: nat) returns (run: seq<Action>, last: nat)
    requires AtCount(s, id, c, limit) && FreeBelow(s, k)
    ensures Possible(s, run) && WriteCount(s, run, id) == Multisets(k + 1, limit - c) - 1
    ensures var t := Exec(s, run);
            && AtCount(t, id, last, limit)
            && t.table[id].ty == s.table[id].ty && t.types == s.types && t.passes == s.passes
    decreases k + limit - c
  {
    if k == 0 || c == limit {
      run, last := [], c;
      OneKind(limit - c);
      return;
    }
    var row := s.table[id];
    var fetch := FetchOne(s, id, k - 1, c, limit);
    var s1 := Exec(s, fetch);
    var others, stored := Cascade(s1, id, k - 1, c, limit);
    WriteCountConcat(s, fetch, others, id);
    var s2 := Exec(s1, others);
    var finish := FinishOne(s2, id, k - 1, row, stored, limit);
    WriteCountConcat(s, fetch + others, finish, id);
    var s3 := Exec(s2, finish);
    assert s3.passes == s.passes;
    var rest;
    rest, last := Cascade(s3, id, k, c + 1, limit);
    WriteCountConcat(s, (fetch + others) + finish, rest, id);
    run := ((fetch + others) + finish) + rest;
  }

  /** From an empty database to one open row of a type registered with limit M, K instances idle. */
  lemma OneOpenRow(instances: nat, limit: nat) returns (s: Sys, run: seq<Action>, t: Sys, id: Id)
    ensures Initial(s) && |s.passes| == instances && Possible(s, run) && t == Exec(s, run)
            && WriteCount(s, run, id) == 0
    ensures AtCount(t, id, 0, limit) && FreeBelow(t, instances) && |t.passes| == instances && LimitAtMost(t, id, limit)
  {
    s, id := Sys(0, map[], map[], seq(instances, i => Idle)), 0;
    var register := RegisterType(0, 0, TypeRequest(0, 1, limit, 1));
    var insert := Insert(0, "", 0, 0, true, 0, 0);
    var s1 := Do(s, register);
    t := Do(s1, insert);
    Prepend(s1, insert, [], id);
    Prepend(s, register, [insert] + [], id);
    run := [register] + ([insert] + []);
  }

  /** From an empty database, K idle instances and a type registered with limit M: a run that
      writes the one row inserted exactly C(K + M, M) - 1 times. */
  lemma WorstCaseIsAttained(instances: nat, limit: nat) returns (s: Sys, run: seq<Action>, id: Id)
    ensures Initial(s) && |s.passes| == instances && Possible(s, run)
    ensures LimitAtMost(Exec(s, run), id, limit)
    ensures WriteCount(s, run, id) == Multisets(instances + 1, limit) - 1
    ensures WriteCount(s, run, id) * (Factorial(instances) * Factorial(limit))
            == Factorial(instances + limit) - Factorial(instances) * Factorial(limit)
  {
    var setUp, t;
    s, setUp, t, id := OneOpenRow(instances, limit);
    var rest, _ := Cascade(t, id, instances, 0, limit);
    WriteCountConcat(s, setUp, rest, id);
    run := setUp + rest;
    MultisetsIsBinomial(instances, limit);
    Spread(Multisets(instances + 1, limit) - 1, 1, Factorial(instances) * Factorial(limit));
  }

  /** No run with this many instances escalates a row more often than its type's limit. */
  ghost predicate LimitHolds(instances: nat, limit: nat) {
    forall s, run, id :: LimitedRun(s, run, id, instances, limit) ==> WriteCount(s, run, id) <= limit
  }

  ghost predicate LimitedRun(s: Sys, run: seq<Action>, id: Id, instances: nat, limit: nat) {
    Initial(s) && |s.passes| == instances && Possible(s, run) && LimitAtMost(Exec(s, run), id, limit)
  }

  /** max_escalations is a limit on how often a row is escalated if and only if at most one
      scheduler instance runs, or the limit is 0. */
  lemma LimitHoldsExactly(instances: nat, limit: nat)
    ensures LimitHolds(instances, limit) <==> instances <= 1 || limit == 0
  {
    if instances <= 1 || limit == 0 {
      forall s, run, id | LimitedRun(s, run, id, instances, limit) ensures WriteCount(s, run, id) <= limit {
        WritesAtMost(s, run, id, limit);
        OneKind(limit);
        OneInstance(limit);
      }
    } else {
      var s, run, id := WorstCaseIsAttained(instances, limit);
      assert LimitedRun(s, run, id, instances, limit);
      MultisetsMonotone(3, instances + 1, limit);
      OneInstance(limit);
      MultisetsPositive(2, limit - 1);
    }
  }

  // ---------- passes on the same row ----------

  /** The pass has fetched the row and is still to write it. */
  ghost predicate Holds(p: Pass, id: Id) {
    exists h :: h in Pending(p) && h.id == id
  }

  ghost predicate HeldTwice(s: Sys, id: Id) {
    exists i, j :: 0 <= i < j < |s.passes| && Holds(s.passes[i], id) && Holds(s.passes[j], id)
  }

  /** In no run with this many instances do two passes work on the same row at once. */
  ghost predicate PassesDisjoint(instances: nat, limit: nat) {
    forall s, run, id :: LimitedRun(s, run, id, instances, limit) ==> !HeldTwice(Exec(s, run), id)
  }

  /** A row is only ever fetched below its limit. */
  lemma HeldHasLimit(s: Sys, run: seq<Action>, id: Id, limit: nat, i: nat)
    requires Initial(s) && Possible(s, run) && LimitAtMost(Exec(s, run), id, limit)
    requires i < |Exec(s, run).passes| && Holds(Exec(s, run).passes[i], id)
    ensures limit > 0
  {
    ExecKeepsInv(s, run);
    var t := Exec(s, run);
    var h :| h in Pending(t.passes[i]) && h.id == id;
    assert h in t.passes[i].due && PassOk(t, t.passes[i]) && HeldOk(t, h);
    MaxEverLeast(t.types[h.row.ty].versions, limit);
  }

  /** Two instances fetch the same row, one right after the other. */
  lemma BothFetch(instances: nat, limit: nat) returns (s: Sys, run: seq<Action>, id: Id)
    requires instances >= 2 && limit > 0
    ensures LimitedRun(s, run, id, instances, limit) && HeldTwice(Exec(s, run), id)
  {
    var setUp, t;
    s, setUp, t, id := OneOpenRow(instances, limit);
    var one := FetchOne(t, id, 1, 0, limit);
    var t1 := Exec(t, one);
    var two := FetchOne(t1, id, 0, 0, limit);
    var t2 := Exec(t1, two);
    WriteCountConcat(s, setUp, one, id);
    WriteCountConcat(s, setUp + one, two, id);
    run := (setUp + one) + two;
    var h := Held(id, t.table[id]);
    assert h in Pending(t2.passes[0]) && h in Pending(t2.passes[1]);
    assert Holds(t2.passes[0], id) && Holds(t2.passes[1], id);
  }

  /** Each instance works on its own rows if and only if there is at most one, or nothing to escalate. */
  lemma PassesDisjointExactly(instances: nat, limit: nat)
    ensures PassesDisjoint(instances, limit) <==> instances <= 1 || limit == 0
  {
    if instances <= 1 || limit == 0 {
      forall s, run, id | LimitedRun(s, run, id, instances, limit) ensures !HeldTwice(Exec(s, run), id) {
        ExecEvolves(s, run);
        var t := Exec(s, run);
        if i, j :| 0 <= i < j < |t.passes| && Holds(t.passes[i], id) && Holds(t.passes[j], id) {
          HeldHasLimit(s, run, id, limit, i);
        }
      }
    } else {
      var s, run, id := BothFetch(instances, limit);
    }
  }
}
