/** What the owners of a notification type asked for, against what its rows go through: the handlers
    of RegisterType and UpdateType (grpc/schema_registry.rs) keep the requests, and the bounds on
    escalation hold of the numbers requested. */
module Requests {
  import opened Common
  import opened StateMachine
  import opened Notifications
  import opened Cluster
  import opened EscalationBounds
  import opened EscalationWrites
  import opened Counting
  import Conformance

  /** The request an action makes for a type, if any. */
  function Asked(a: Action, ty: TypeId): seq<TypeRequest> {
    match a
    case RegisterType(t, _, req) => if t == ty then [req] else []
    case UpdateType(t, req) => if t == ty then [req] else []
    case _ => []
  }

  /** The requests of a run for one type, in order. */
  function RequestsFor(run: seq<Action>, ty: TypeId): seq<TypeRequest> {
    if run == [] then [] else Asked(run[0], ty) + RequestsFor(run[1..], ty)
  }

  /** The configuration is the one requested: a time that is not positive means none, and an action
      that is neither bump nor elevate means resurface. */
  predicate Keeps(c: TypeConf, req: TypeRequest) {
    && (c.ttl.Some? <==> req.ttl > 0) && (c.ttl.Some? ==> c.ttl.value == req.ttl)
    && (c.interval.Some? <==> req.interval > 0) && (c.interval.Some? ==> c.interval.value == req.interval)
    && c.max == req.max
    && (c.action == ActBump <==> req.action == 2) && (c.action == ActElevate <==> req.action == 3)
    && (c.action == ActResurface <==> req.action != 2 && req.action != 3)
  }

  function History(s: Sys, ty: TypeId): seq<TypeConf> {
    if ty in s.types then s.types[ty].versions else []
  }

  /** The history grows by these requests, one version each, in order. */
  ghost predicate GrowsBy(before: seq<TypeConf>, after: seq<TypeConf>, asked: seq<TypeRequest>) {
    && |after| == |before| + |asked| && before <= after
    && forall k :: 0 <= k < |asked| ==> Keeps(after[|before| + k], asked[k])
  }

  lemma DoKeepsRequest(s: Sys, a: Action, ty: TypeId)
    requires Enabled(s, a)
    ensures GrowsBy(History(s, ty), History(Do(s, a), ty), Asked(a, ty))
    ensures ty in Do(s, a).types <==> ty in s.types || Asked(a, ty) != []
    ensures a.RegisterType? ==> Do(s, a).types[a.ty].service == a.service
    ensures ty in s.types ==> Do(s, a).types[ty].service == s.types[ty].service
  {
  }

  lemma GrowsOn(before: seq<TypeConf>, middle: seq<TypeConf>, after: seq<TypeConf>,
                first: seq<TypeRequest>, second: seq<TypeRequest>)
    requires GrowsBy(before, middle, first) && GrowsBy(middle, after, second)
    ensures GrowsBy(before, after, first + second)
  {
    forall k | 0 <= k < |first + second| ensures Keeps(after[|before| + k], (first + second)[k]) {
      if k < |first| {
        assert after[|before| + k] == middle[|before| + k];
      } else {
        assert after[|before| + k] == after[|middle| + (k - |first|)];
      }
    }
  }

  lemma {:induction false} RunKeepsRequests(s: Sys, run: seq<Action>, ty: TypeId)
    requires Possible(s, run)
    ensures GrowsBy(History(s, ty), History(Exec(s, run), ty), RequestsFor(run, ty))
    ensures ty in Exec(s, run).types <==> ty in s.types || RequestsFor(run, ty) != []
    ensures ty in s.types ==> Exec(s, run).types[ty].service == s.types[ty].service
    decreases |run|
  {
    if run != [] {
      var t := Do(s, run[0]);
      DoKeepsRequest(s, run[0], ty);
      RunKeepsRequests(t, run[1..], ty);
      GrowsOn(History(s, ty), History(t, ty), History(Exec(s, run), ty), Asked(run[0], ty), RequestsFor(run[1..], ty));
    }
  }

  /** From an empty database, a type's history is what was requested for it, and nothing else. */
  lemma HistoryIsRequests(s: Sys, run: seq<Action>, ty: TypeId)
    requires Initial(s) && Possible(s, run)
    ensures var versions, asked := History(Exec(s, run), ty), RequestsFor(run, ty);
            |versions| == |asked| && forall k :: 0 <= k < |asked| ==> Keeps(versions[k], asked[k])
  {
    RunKeepsRequests(s, run, ty);
  }

  /** Each version comes from a request. */
  lemma VersionWasRequested(s: Sys, run: seq<Action>, ty: TypeId, c: TypeConf)
    requires Initial(s) && Possible(s, run) && c in History(Exec(s, run), ty)
    ensures exists req :: req in RequestsFor(run, ty) && Keeps(c, req)
  {
    HistoryIsRequests(s, run, ty);
    var k :| 0 <= k < |History(Exec(s, run), ty)| && History(Exec(s, run), ty)[k] == c;
    assert RequestsFor(run, ty)[k] in RequestsFor(run, ty);
  }

  // ---------- the bounds, as requested ----------

  /** If no request for its type ever asked for more than `limit`, a row's count never passes it. */
  lemma CountWithinRequested(s: Sys, run: seq<Action>, id: Id, limit: nat)
    requires Initial(s) && Possible(s, run) && id in Exec(s, run).table
    requires forall req :: req in RequestsFor(run, Exec(s, run).table[id].ty) ==> req.max <= limit
    ensures var row := Exec(s, run).table[id];
            0 <= row.escalationCount <= limit && (row.nextEscalationAt.Some? ==> row.escalationCount < limit)
  {
    var t := Exec(s, run);
    CountWithinLargestLimit(s, run, id);
    LimitWasRequested(s, run, id, limit);
    MaxEverLeast(t.types[t.table[id].ty].versions, limit);
  }

  lemma LimitWasRequested(s: Sys, run: seq<Action>, id: Id, limit: nat)
    requires Initial(s) && Possible(s, run) && id in Exec(s, run).table
    requires forall req :: req in RequestsFor(run, Exec(s, run).table[id].ty) ==> req.max <= limit
    ensures LimitAtMost(Exec(s, run), id, limit)
  {
    var t := Exec(s, run);
    forall c | c in History(t, t.table[id].ty) ensures c.max <= limit {
      VersionWasRequested(s, run, t.table[id].ty, c);
    }
  }

  /** And with K instances its escalation is written at most C(K + limit, limit) - 1 times. */
  lemma WritesWithinRequested(s: Sys, run: seq<Action>, id: Id, limit: nat)
    requires Initial(s) && Possible(s, run) && id in Exec(s, run).table
    requires forall req :: req in RequestsFor(run, Exec(s, run).table[id].ty) ==> req.max <= limit
    ensures WriteCount(s, run, id) < Multisets(|s.passes| + 1, limit)
  {
    LimitWasRequested(s, run, id, limit);
    WritesAtMost(s, run, id, limit);
  }

  lemma {:induction false} RequestsConcat(first: seq<Action>, second: seq<Action>, ty: TypeId)
    ensures RequestsFor(first + second, ty) == RequestsFor(first, ty) + RequestsFor(second, ty)
  {
    if first == [] {
      assert first + second == second;
    } else {
      assert (first + second)[1..] == first[1..] + second;
      RequestsConcat(first[1..], second, ty);
    }
  }

  /** If every interval ever requested for its type was at least `least`, then by the time a row's count
      is k, k times that have passed since the processor computed its first deadline. */
  lemma NeverEarlierThanRequested(s: Sys, before: seq<Action>, insert: Action, after: seq<Action>, least: int)
    requires Initial(s) && Possible(s, before)
    requires insert.Insert? && Enabled(Exec(s, before), insert)
    requires Possible(Do(Exec(s, before), insert), after)
    requires forall req :: req in RequestsFor(before + ([insert] + after), insert.ty) && req.interval > 0 ==>
                           req.interval >= least
    ensures var t := Exec(Do(Exec(s, before), insert), after);
            insert.id in t.table && t.table[insert.id].escalationCount * least <= t.now - insert.escFrom
  {
    var s1 := Exec(s, before);
    assert ([insert] + after)[1..] == after;
    ExecConcat(s, before, [insert] + after);
    var t := Exec(Do(s1, insert), after);
    ExecEvolves(Do(s1, insert), after);
    forall c | c in History(t, insert.ty) && c.interval.Some? ensures c.interval.value >= least {
      VersionWasRequested(s, before + ([insert] + after), insert.ty, c);
    }
    EscalationsAreNeverEarly(s, before, insert, after, least);
  }

  /** A row of a type that was only ever to be bumped becomes unseen again only by an admin. */
  lemma BumpedRowsStaySeen(s: Sys, run: seq<Action>, a: Action, id: Id)
    requires Initial(s) && Possible(s, run) && Enabled(Exec(s, run), a) && id in Exec(s, run).table
    requires forall req :: req in RequestsFor(run, Exec(s, run).table[id].ty) ==> req.action == 2
    requires a != Issue(Resurface(id))
    ensures var t := Exec(s, run);
            id in Do(t, a).table && (Do(t, a).table[id].state == Unseen ==> t.table[id].state == Unseen)
  {
    var t := Exec(s, run);
    Conformance.StateChangesInRuns(s, run, a, id);
    if a.Act? && t.passes[a.i].due[0].id == id {
      ExecKeepsInv(s, run);
      var p := t.passes[a.i];
      assert PassOk(t, p) && HeldOk(t, p.due[0]);
      VersionWasRequested(s, run, t.table[id].ty, p.conf.value);
      ActBumpsOrResurfaces(t, a.i, id);
    }
  }
}
