/** process_message, followed by its acknowledgement or nak, as an attempt of the ingestion pipeline. */
module Attempts {
  import opened Common
  import opened Registry
  import opened Chronicle
  import opened Processor
  import opened Ingestion
  import Cluster

  /** The pipeline's rows are those of the database, as far as ids and idempotency keys go. */
  ghost predicate Mirrors(rows: seq<Stored>, d: Db) {
    && d.keyOf.Keys == d.table.Keys
    && (forall id :: IdTaken(rows, id) <==> id in d.table)
    && (forall key :: KeyTaken(rows, key) <==> !KeyFree(d, key))
  }

  /** The attempt has received the message and done nothing yet. */
  ghost predicate Received(s: Pipe, a: nat, m: IngestMessage) {
    At(s, a) && s.attempts[a].stage.Started? && MessageOf(s, a) == Message(m.id, m.idempotencyKey)
  }

  /** The steps an outcome stands for; `deliver` is the decision. */
  function StepsOf(a: nat, r: Outcome, deliver: bool): seq<Step> {
    match r
    case Delivered => [Insert(a, true, true), Publish(a), Ack(a)]
    case Unannounced => [Insert(a, true, true), Swallow(a), Ack(a)]
    case AutoArchived => [Insert(a, false, true), Settle(a), Ack(a)]
    case Failed(ReplyLost) => [Insert(a, deliver, false), Drop(a)]
    case Failed(Unencodable) => [Insert(a, true, true), EncodeFails(a), Drop(a)]
    case Failed(_) => [Refuse(a), Drop(a)]
  }

  /** Where they lead from s, for a message whose attempt this is. */
  function After(s: Pipe, a: nat, m: IngestMessage, r: Outcome, deliver: bool): Pipe
    requires At(s, a)
  {
    s.(attempts := s.attempts - {a},
       rows := s.rows + if InsertsRow(r) then [Stored(m.id, m.idempotencyKey, deliver)] else [],
       events := s.events + if Announces(r) then [m.id] else [],
       swallowed := s.swallowed + if r == Unannounced then {m.id} else {},
       acked := s.acked + if r.Failed? then {} else {s.attempts[a].msg})
  }

  /** What an attempt did to the database: its insert, or nothing. */
  ghost predicate Did(d: Db, e: Db, m: IngestMessage, f: Faults, r: Outcome, deliver: bool) {
    if InsertsRow(r) then
      r == Fate(deliver, f) && exists c, level, a :: IsInsertOf(d, e, m, c, level, a) && a.deliver == deliver
    else
      e == d
  }

  lemma InsertMirrored(rows: seq<Stored>, d: Db, e: Db, m: IngestMessage, deliver: bool)
    requires Mirrors(rows, d) && exists c, level, a :: IsInsertOf(d, e, m, c, level, a)
    ensures !IdTaken(rows, m.id) && !KeyTaken(rows, m.idempotencyKey)
    ensures Mirrors(rows + [Stored(m.id, m.idempotencyKey, deliver)], e)
  {
    var c, level, a :| IsInsertOf(d, e, m, c, level, a);
    AppendRow(rows, Stored(m.id, m.idempotencyKey, deliver));
    assert e.table.Keys == d.table.Keys + {m.id} && e.keyOf == d.keyOf[m.id := m.idempotencyKey];
    forall key ensures !KeyFree(e, key) <==> !KeyFree(d, key) || (key.Some? && m.idempotencyKey == key) {
      if key.Some? && m.idempotencyKey == key {
        assert e.keyOf[m.id] == key;
      } else if id :| key.Some? && id in d.keyOf && d.keyOf[id] == key {
        assert e.keyOf[id] == key;
      }
    }
  }

  lemma ThreeSteps(s: Pipe, x: Step, y: Step, z: Step)
    requires Enabled(s, x) && Enabled(Do(s, x), y) && Enabled(Do(Do(s, x), y), z)
    ensures Possible(s, [x, y, z]) && Exec(s, [x, y, z]) == Do(Do(Do(s, x), y), z)
  {
    Prepend(Do(Do(s, x), y), z, []);
    Prepend(Do(s, x), y, [z] + []);
    Prepend(s, x, [y] + ([z] + []));
    assert [x, y, z] == [x] + ([y] + ([z] + []));
  }

  lemma TwoSteps(s: Pipe, x: Step, y: Step)
    requires Enabled(s, x) && Enabled(Do(s, x), y)
    ensures Possible(s, [x, y]) && Exec(s, [x, y]) == Do(Do(s, x), y)
  {
    Prepend(Do(s, x), y, []);
    Prepend(s, x, [y] + []);
    assert [x, y] == [x] + ([y] + []);
  }

  lemma Forget(attempts: map<nat, Attempt>, a: nat, x: Attempt)
    ensures attempts[a := x] - {a} == attempts - {a}
  {
  }

  /** The steps of an outcome whose row went in, by the step that follows the insert. */
  lemma CommittedSteps(s: Pipe, a: nat, m: IngestMessage, unseen: bool, y: Step)
    requires Received(s, a, m) && !IdTaken(s.rows, m.id) && !KeyTaken(s.rows, m.idempotencyKey)
    requires if unseen then y in {Publish(a), Swallow(a), EncodeFails(a)} else y == Settle(a)
    ensures var t := Do(s, Insert(a, unseen, true));
            && Enabled(t, y) && At(Do(t, y), a) && Do(t, y).attempts - {a} == s.attempts - {a}
            && Do(t, y).attempts[a] == s.attempts[a].(stage := if y.EncodeFails? then Broken else Done)
            && Do(t, y) == s.(
                 rows := s.rows + [Stored(m.id, m.idempotencyKey, unseen)], attempts := Do(t, y).attempts,
                 events := s.events + if y.Publish? then [m.id] else [],
                 swallowed := s.swallowed + if y.Swallow? then {m.id} else {})
  {
    var x := s.attempts[a];
    Forget(s.attempts, a, x.(stage := Inserted(unseen)));
    Forget(s.attempts[a := x.(stage := Inserted(unseen))], a, x.(stage := if y.EncodeFails? then Broken else Done));
  }

  lemma AckedSteps(s: Pipe, a: nat, m: IngestMessage, r: Outcome, deliver: bool)
    requires Received(s, a, m) && !IdTaken(s.rows, m.id) && !KeyTaken(s.rows, m.idempotencyKey)
    requires !r.Failed? && deliver == !r.AutoArchived?
    ensures Possible(s, StepsOf(a, r, deliver)) && Exec(s, StepsOf(a, r, deliver)) == After(s, a, m, r, deliver)
  {
    var y := if r.Delivered? then Publish(a) else if r.Unannounced? then Swallow(a) else Settle(a);
    CommittedSteps(s, a, m, deliver, y);
    ThreeSteps(s, Insert(a, deliver, true), y, Ack(a));
  }

  lemma FailedSteps(s: Pipe, a: nat, m: IngestMessage, r: Outcome, deliver: bool)
    requires Received(s, a, m) && r.Failed? && (r.why.Unencodable? ==> deliver)
    requires InsertsRow(r) ==> !IdTaken(s.rows, m.id) && !KeyTaken(s.rows, m.idempotencyKey)
    ensures Possible(s, StepsOf(a, r, deliver)) && Exec(s, StepsOf(a, r, deliver)) == After(s, a, m, r, deliver)
  {
    if r.why.Unencodable? {
      CommittedSteps(s, a, m, true, EncodeFails(a));
      ThreeSteps(s, Insert(a, true, true), EncodeFails(a), Drop(a));
    } else {
      Forget(s.attempts, a, s.attempts[a].(stage := Broken));
      TwoSteps(s, if r.why.ReplyLost? then Insert(a, deliver, false) else Refuse(a), Drop(a));
    }
  }

  /** The steps can be taken, whatever else the pipeline has been through, and lead where they should. */
  lemma StepsArePossible(s: Pipe, a: nat, m: IngestMessage, r: Outcome, deliver: bool, f: Faults)
    requires Received(s, a, m) && (InsertsRow(r) ==> r == Fate(deliver, f))
    requires InsertsRow(r) ==> !IdTaken(s.rows, m.id) && !KeyTaken(s.rows, m.idempotencyKey)
    ensures Possible(s, StepsOf(a, r, deliver))
    ensures Exec(s, StepsOf(a, r, deliver)) == After(s, a, m, r, deliver)
  {
    if r.Failed? {
      FailedSteps(s, a, m, r, deliver);
    } else {
      AckedSteps(s, a, m, r, deliver);
    }
  }

  /** A message handled is an attempt of the pipeline: in any state of it that mirrors the database the
      row was, or was not, inserted into, the steps of the outcome are possible; afterwards the pipeline
      mirrors the database again, the same event is out, and the message is acknowledged or not. */
  lemma HandledIsAttempt(s: Pipe, a: nat, d: Db, e: Db, m: IngestMessage, f: Faults, r: Outcome, deliver: bool)
    requires Received(s, a, m) && Mirrors(s.rows, d) && Did(d, e, m, f, r, deliver)
    ensures Possible(s, StepsOf(a, r, deliver))
    ensures Exec(s, StepsOf(a, r, deliver)) == After(s, a, m, r, deliver) && Mirrors(After(s, a, m, r, deliver).rows, e)
  {
    if InsertsRow(r) {
      InsertMirrored(s.rows, d, e, m, deliver);
    } else {
      assert s.rows + [] == s.rows;
    }
    StepsArePossible(s, a, m, r, deliver, f);
  }

  /** The state a record's row was, or was not, inserted into. */
  function Before(end: seq<Db>, last: Db, r: Outcome): Db {
    if InsertsRow(r) && |end| >= 2 then end[|end| - 2] else last
  }

  lemma RecordedDid(end: seq<Db>, last: Db, m: IngestMessage, a: Account, insert: Cluster.Action, f: Faults, r: Outcome)
    requires IsHistory(end, last) && (InsertsRow(r) ==> Recorded(end, m, a, insert) && r == Fate(a.deliver, f))
    ensures Did(Before(end, last, r), last, m, f, r, a.deliver)
  {
    if InsertsRow(r) {
      PresentAt(end, last, end);
      assert IsInsertOf(end[|end| - 2], last, m, a.used, IdOf(a.stored), insert);
    }
  }

  /** And every record of a processor's run is of such a message. */
  lemma RecordIsAttempt(h: seq<Db>, x: Record, m: IngestMessage, f: Faults, r: Outcome, s: Pipe, a: nat)
    requires RecordOk(h, x, m, f, r) && Received(s, a, m) && Mirrors(s.rows, Before(x.end, x.last, r))
    ensures var deliver := x.account.deliver;
            && Possible(s, StepsOf(a, r, deliver)) && Exec(s, StepsOf(a, r, deliver)) == After(s, a, m, r, deliver)
            && Mirrors(After(s, a, m, r, deliver).rows, x.last)
  {
    RecordedDid(x.end, x.last, m, x.account, x.insert, f, r);
    HandledIsAttempt(s, a, Before(x.end, x.last, r), x.last, m, f, r, x.account.deliver);
  }
}
