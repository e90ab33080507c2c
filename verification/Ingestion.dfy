/** The ingestion pipeline: messages on a work queue delivered at least once, at most five times,
    to processors that insert a row, publish an event and acknowledge (processing/processor.rs,
    nats/setup.rs, nats/publisher.rs). A crash, a redelivery or an overlapping attempt can fall between
    any two steps; an insert or an acknowledgement can take effect and still be reported failed; and
    a failed publish is not reported at all: it is logged, and the message acknowledged. */
module Ingestion {
  import opened Common

  const MAX_DELIVER := 5

  /** Every send draws a fresh notification id; a producer that retries reuses its key. */
  datatype Message = Message(id: Id, key: Option<string>)

  datatype Stored = Stored(id: Id, key: Option<string>, unseen: bool)

  datatype Stage =
    | Started                 // received, nothing inserted by this attempt as far as it knows
    | Inserted(unseen: bool)  // its insert returned
    | Done                    // process_message returned Ok, to be acknowledged
    | Broken                  // it returned an error, to be nak'ed

  datatype Attempt = Attempt(msg: nat, stage: Stage)

  datatype Pipe = Pipe(
    messages: seq<Message>,
    deliveries: seq<nat>,
    acked: set<nat>,
    attempts: map<nat, Attempt>,
    rows: seq<Stored>,
    events: seq<Id>,     // NewNotification events
    swallowed: set<Id>)  // the notifications whose publish failed and was only logged

  datatype Step =
    | Send(id: Id, key: Option<string>)
    | Deliver(msg: nat, a: nat)
    | Insert(a: nat, unseen: bool, reported: bool)
    | Refuse(a: nat)                   // a lookup or the insert failed
    | Publish(a: nat)
    | Swallow(a: nat)                  // the publish fails, and process_message succeeds
    | EncodeFails(a: nat)              // the event cannot be encoded
    | Settle(a: nat)                   // nothing to publish
    | Ack(a: nat)
    | Drop(a: nat)                     // nak, lost acknowledgement or crash, at any stage

  predicate IdTaken(rows: seq<Stored>, id: Id) {
    exists k :: 0 <= k < |rows| && rows[k].id == id
  }

  predicate KeyTaken(rows: seq<Stored>, key: Option<string>) {
    key.Some? && exists k :: 0 <= k < |rows| && rows[k].key == key
  }

  /** The row of the notification went in unseen. */
  predicate UnseenRow(rows: seq<Stored>, id: Id) {
    exists k :: 0 <= k < |rows| && rows[k].id == id && rows[k].unseen
  }

  predicate At(s: Pipe, a: nat) {
    a in s.attempts && s.attempts[a].msg < |s.messages|
  }

  function MessageOf(s: Pipe, a: nat): Message
    requires At(s, a)
  {
    s.messages[s.attempts[a].msg]
  }

  predicate Enabled(s: Pipe, step: Step) {
    match step
    case Send(id, _) => forall m :: 0 <= m < |s.messages| ==> s.messages[m].id != id
    case Deliver(m, a) =>
      m < |s.messages| && m < |s.deliveries| && m !in s.acked && s.deliveries[m] < MAX_DELIVER && a !in s.attempts
    case Insert(a, _, _) =>
      && At(s, a) && s.attempts[a].stage.Started?
      && !IdTaken(s.rows, MessageOf(s, a).id) && !KeyTaken(s.rows, MessageOf(s, a).key)
    case Refuse(a) => At(s, a) && s.attempts[a].stage.Started?
    case Publish(a) => At(s, a) && s.attempts[a].stage == Inserted(true)
    case Swallow(a) => At(s, a) && s.attempts[a].stage == Inserted(true)
    case EncodeFails(a) => At(s, a) && s.attempts[a].stage == Inserted(true)
    case Settle(a) => At(s, a) && s.attempts[a].stage == Inserted(false)
    case Ack(a) => At(s, a) && s.attempts[a].stage.Done?
    case Drop(a) => At(s, a)
  }

  function To(s: Pipe, a: nat, stage: Stage): Pipe
    requires At(s, a)
  {
    s.(attempts := s.attempts[a := s.attempts[a].(stage := stage)])
  }

  function Do(s: Pipe, step: Step): Pipe
    requires Enabled(s, step)
  {
    match step
    case Send(id, key) => s.(messages := s.messages + [Message(id, key)], deliveries := s.deliveries + [0])
    case Deliver(m, a) =>
      s.(deliveries := s.deliveries[m := s.deliveries[m] + 1], attempts := s.attempts[a := Attempt(m, Started)])
    case Insert(a, unseen, reported) =>
      var m := MessageOf(s, a);
      To(s, a, if reported then Inserted(unseen) else Broken).(rows := s.rows + [Stored(m.id, m.key, unseen)])
    case Refuse(a) => To(s, a, Broken)
    case Publish(a) => To(s, a, Done).(events := s.events + [MessageOf(s, a).id])
    case Swallow(a) => To(s, a, Done).(swallowed := s.swallowed + {MessageOf(s, a).id})
    case EncodeFails(a) => To(s, a, Broken)
    case Settle(a) => To(s, a, Done)
    case Ack(a) => s.(acked := s.acked + {s.attempts[a].msg}, attempts := s.attempts - {a})
    case Drop(a) => s.(attempts := s.attempts - {a})
  }

  predicate Possible(s: Pipe, run: seq<Step>)
    decreases |run|
  {
    run == [] || (Enabled(s, run[0]) && Possible(Do(s, run[0]), run[1..]))
  }

  function Exec(s: Pipe, run: seq<Step>): Pipe
    requires Possible(s, run)
    decreases |run|
  {
    if run == [] then s else Exec(Do(s, run[0]), run[1..])
  }

  const EmptyPipe := Pipe([], [], {}, map[], [], [], {})

  // ---------- the invariant ----------

  /** The attempt whose insert returned and that has not failed since. */
  predicate Owns(s: Pipe, a: nat, m: nat) {
    a in s.attempts && s.attempts[a].msg == m && (s.attempts[a].stage.Inserted? || s.attempts[a].stage.Done?)
  }

  /** What an owner knows about its row and event. */
  ghost predicate OwnerOk(s: Pipe, a: nat) {
    At(s, a) ==>
      var id := MessageOf(s, a).id;
      match s.attempts[a].stage
      case Inserted(unseen) =>
        IdTaken(s.rows, id) && (unseen <==> UnseenRow(s.rows, id)) && id !in s.events && id !in s.swallowed
      case Done => Settled(s, id)
      case _ => true
  }

  /** The row is there, and its event is out if and only if it went in unseen and its publish was not
      swallowed. */
  ghost predicate Settled(s: Pipe, id: Id) {
    IdTaken(s.rows, id) && (id in s.events <==> UnseenRow(s.rows, id) && id !in s.swallowed)
  }

  ghost predicate Inv(s: Pipe) {
    && |s.deliveries| == |s.messages| && (forall m :: 0 <= m < |s.deliveries| ==> s.deliveries[m] <= MAX_DELIVER)
    && (forall m, n :: 0 <= m < n < |s.messages| ==> s.messages[m].id != s.messages[n].id)
    && (forall a :: a in s.attempts ==> At(s, a) && OwnerOk(s, a))
    && (forall a, b, m :: Owns(s, a, m) && Owns(s, b, m) ==> a == b)
    && UniqueRows(s.rows) && RowsSent(s)
    && (forall j, k :: 0 <= j < k < |s.events| ==> s.events[j] != s.events[k])
    && (forall k :: 0 <= k < |s.events| ==> UnseenRow(s.rows, s.events[k]))
    && (forall id :: id in s.swallowed ==> UnseenRow(s.rows, id) && id !in s.events)
    && (forall m :: m in s.acked ==> m < |s.messages| && Settled(s, s.messages[m].id))
    && (forall a, m :: Owns(s, a, m) ==> m !in s.acked)
  }

  predicate UniqueRows(rows: seq<Stored>) {
    forall j, k :: 0 <= j < k < |rows| ==>
      rows[j].id != rows[k].id && (rows[j].key.Some? ==> rows[j].key != rows[k].key)
  }

  /** Only sent messages have rows. */
  ghost predicate RowsSent(s: Pipe) {
    forall k :: 0 <= k < |s.rows| ==> Sent(s.messages, s.rows[k].id)
  }

  predicate Sent(messages: seq<Message>, id: Id) {
    exists m :: 0 <= m < |messages| && messages[m].id == id
  }

  lemma AppendRow(rows: seq<Stored>, row: Stored)
    ensures forall id :: IdTaken(rows + [row], id) <==> IdTaken(rows, id) || row.id == id
    ensures forall id :: UnseenRow(rows + [row], id) <==> UnseenRow(rows, id) || (row.id == id && row.unseen)
    ensures forall key :: KeyTaken(rows + [row], key) <==> KeyTaken(rows, key) || (key.Some? && row.key == key)
  {
    var more := rows + [row];
    assert more[|rows|] == row;
    assert forall k :: 0 <= k < |rows| ==> more[k] == rows[k];
    forall id | IdTaken(rows, id) ensures IdTaken(more, id) {
      var k :| 0 <= k < |rows| && rows[k].id == id;
      assert more[k].id == id;
    }
    forall id | UnseenRow(rows, id) ensures UnseenRow(more, id) {
      var k :| 0 <= k < |rows| && rows[k].id == id && rows[k].unseen;
      assert more[k].id == id;
    }
    forall key | KeyTaken(rows, key) ensures KeyTaken(more, key) {
      var k :| 0 <= k < |rows| && rows[k].key == key;
      assert more[k].key == key;
    }
  }

  /** An unseen row is a row. */
  lemma UnseenIsTaken(rows: seq<Stored>, id: Id)
    ensures UnseenRow(rows, id) ==> IdTaken(rows, id)
  {
  }

  /** Owners after a step were owners before, except the attempt that just inserted. */
  lemma OwnersAfter(s: Pipe, step: Step, a: nat, m: nat)
    requires Enabled(s, step) && Owns(Do(s, step), a, m)
    ensures Owns(s, a, m) || (step.Insert? && step.a == a && step.reported && At(s, a) && s.attempts[a].msg == m)
  {
  }

  lemma OwnersStayUnique(s: Pipe, step: Step)
    requires Inv(s) && Enabled(s, step)
    ensures forall a, b, m :: Owns(Do(s, step), a, m) && Owns(Do(s, step), b, m) ==> a == b
    ensures forall a, m :: Owns(Do(s, step), a, m) ==> m !in Do(s, step).acked
  {
    var t := Do(s, step);
    if step.Ack? {
      assert Owns(s, step.a, s.attempts[step.a].msg);
    }
    forall a, m | Owns(t, a, m)
      ensures m !in t.acked && forall b :: Owns(t, b, m) ==> b == a
    {
      OwnersAfter(s, step, a, m);
      if Owns(s, a, m) {
        assert At(s, a) && OwnerOk(s, a);
      }
      forall b | Owns(t, b, m) ensures b == a {
        OwnersAfter(s, step, b, m);
        if Owns(s, b, m) {
          assert At(s, b) && OwnerOk(s, b);
        }
      }
    }
  }

  lemma OwnersStayOk(s: Pipe, step: Step, a: nat)
    requires Inv(s) && Enabled(s, step) && a in Do(s, step).attempts
    ensures At(Do(s, step), a) && OwnerOk(Do(s, step), a)
  {
    var t := Do(s, step);
    assert a in s.attempts ==> At(s, a) && OwnerOk(s, a);
    match step
    case Insert(b, unseen, _) =>
      AppendRow(s.rows, t.rows[|s.rows|]);
      if a != b && t.attempts[a].msg != t.attempts[b].msg {
        assert MessageOf(s, a).id != MessageOf(s, b).id;
      }
      UnseenIsTaken(s.rows, MessageOf(s, b).id);
    case Publish(_) | Swallow(_) =>
      var b := step.a;
      if a != b {
        assert Owns(s, b, s.attempts[b].msg);
        if t.attempts[a].stage.Inserted? || t.attempts[a].stage.Done? {
          assert Owns(s, a, s.attempts[a].msg);
          assert s.attempts[a].msg != s.attempts[b].msg;
          assert MessageOf(s, a).id != MessageOf(s, b).id;
        }
      }
    case _ =>
  }

  lemma RowsStaySent(s: Pipe, step: Step)
    requires Inv(s) && Enabled(s, step)
    ensures UniqueRows(Do(s, step).rows) && RowsSent(Do(s, step))
  {
    var t := Do(s, step);
    forall k | 0 <= k < |t.rows| ensures Sent(t.messages, t.rows[k].id) {
      if k < |s.rows| {
        assert Sent(s.messages, s.rows[k].id);
        var m :| 0 <= m < |s.messages| && s.messages[m].id == s.rows[k].id;
        assert t.messages[m].id == t.rows[k].id;
      } else {
        assert t.messages[s.attempts[step.a].msg].id == t.rows[k].id;
      }
    }
  }

  lemma AckedStaySettled(s: Pipe, step: Step, m: nat)
    requires Inv(s) && Enabled(s, step) && m in Do(s, step).acked
    ensures m < |Do(s, step).messages| && Settled(Do(s, step), Do(s, step).messages[m].id)
  {
    var t := Do(s, step);
    match step
    case Insert(a, _, _) =>
      AppendRow(s.rows, t.rows[|s.rows|]);
    case Publish(a) =>
      assert Owns(s, a, s.attempts[a].msg);
    case Swallow(a) =>
      assert Owns(s, a, s.attempts[a].msg);
    case Ack(a) =>
      assert OwnerOk(s, a);
    case _ =>
  }

  lemma EventsStayUnique(s: Pipe, step: Step)
    requires Inv(s) && Enabled(s, step)
    ensures var t := Do(s, step);
            && (forall j, k :: 0 <= j < k < |t.events| ==> t.events[j] != t.events[k])
            && (forall k :: 0 <= k < |t.events| ==> UnseenRow(t.rows, t.events[k]))
            && (forall id :: id in t.swallowed ==> UnseenRow(t.rows, id) && id !in t.events)
  {
    match step
    case Insert(a, _, _) =>
      AppendRow(s.rows, Do(s, step).rows[|s.rows|]);
    case Publish(a) =>
      assert OwnerOk(s, a);
    case Swallow(a) =>
      assert OwnerOk(s, a);
    case _ =>
  }

  lemma DoKeepsInv(s: Pipe, step: Step)
    requires Inv(s) && Enabled(s, step)
    ensures Inv(Do(s, step))
  {
    var t := Do(s, step);
    OwnersStayUnique(s, step);
    forall a | a in t.attempts ensures At(t, a) && OwnerOk(t, a) {
      OwnersStayOk(s, step, a);
    }
    RowsStaySent(s, step);
    EventsStayUnique(s, step);
    forall m | m in t.acked ensures m < |t.messages| && Settled(t, t.messages[m].id) {
      AckedStaySettled(s, step, m);
    }
  }

  lemma {:induction false} ExecKeepsInv(s: Pipe, run: seq<Step>)
    requires Inv(s) && Possible(s, run)
    ensures Inv(Exec(s, run))
    decreases |run|
  {
    if run != [] {
      DoKeepsInv(s, run[0]);
      ExecKeepsInv(Do(s, run[0]), run[1..]);
    }
  }

  /** In every run: at most one row per notification id and per idempotency key, at most one event
      per notification, every event is of a row that went in unseen, at most five deliveries, and
      every acknowledged message has its row, with its event out if and only if the row went in unseen
      and its publish did not fail. */
  lemma AtMostOnce(run: seq<Step>)
    requires Possible(EmptyPipe, run)
    ensures var s := Exec(EmptyPipe, run);
            && (forall j, k :: 0 <= j < k < |s.rows| ==>
                  s.rows[j].id != s.rows[k].id && (s.rows[j].key.Some? ==> s.rows[j].key != s.rows[k].key))
            && (forall j, k :: 0 <= j < k < |s.events| ==> s.events[j] != s.events[k])
            && (forall k :: 0 <= k < |s.events| ==> UnseenRow(s.rows, s.events[k]))
            && (forall m :: 0 <= m < |s.deliveries| ==> s.deliveries[m] <= 5)
            && (forall m :: m in s.acked ==>
                  (m < |s.messages| && IdTaken(s.rows, s.messages[m].id)
                   && (s.messages[m].id in s.events <==>
                       UnseenRow(s.rows, s.messages[m].id) && s.messages[m].id !in s.swallowed)))
  {
    ExecKeepsInv(EmptyPipe, run);
  }

  /** Five deliveries happen, and no more. */
  lemma FiveDeliveries() returns (run: seq<Step>)
    ensures Possible(EmptyPipe, run)
    ensures var s := Exec(EmptyPipe, run);
            s.deliveries == [5] && forall a :: !Enabled(s, Deliver(0, a))
  {
    var s0 := Do(EmptyPipe, Send(0, None));
    var more := DeliverAgain(s0, 5);
    Prepend(EmptyPipe, Send(0, None), more);
    run := [Send(0, None)] + more;
  }

  lemma {:induction false} DeliverAgain(s: Pipe, n: nat) returns (run: seq<Step>)
    requires s.messages == [Message(0, None)] && s.acked == {} && |s.deliveries| == 1 && s.deliveries[0] + n == 5
    ensures Possible(s, run) && Exec(s, run).deliveries == [5]
    decreases n
  {
    run := [];
    if n > 0 {
      var a := Unused(s.attempts);
      var rest := DeliverAgain(Do(s, Deliver(0, a)), n - 1);
      Prepend(s, Deliver(0, a), rest);
      run := [Deliver(0, a)] + rest;
    }
  }

  /** An acknowledged message is not delivered again. */
  lemma {:induction false} AckedIsOver(s: Pipe, run: seq<Step>, m: nat)
    requires Possible(s, run) && m in s.acked && m < |s.deliveries|
    ensures m in Exec(s, run).acked && m < |Exec(s, run).deliveries| && Exec(s, run).deliveries[m] == s.deliveries[m]
    decreases |run|
  {
    if run != [] {
      AckedIsOver(Do(s, run[0]), run[1..], m);
    }
  }

  /** Acknowledged, and unseen by the recipient, who was never told. */
  ghost predicate Unannounced(s: Pipe, m: nat) {
    m in s.acked && m < |s.messages| && UnseenRow(s.rows, s.messages[m].id) && s.messages[m].id !in s.events
  }

  /** The publish of the message's event failed in some attempt of the run. */
  ghost predicate SwallowedIn(s: Pipe, run: seq<Step>, m: nat)
    requires Possible(s, run)
    decreases |run|
  {
    run != [] && ((run[0].Swallow? && s.attempts[run[0].a].msg == m) || SwallowedIn(Do(s, run[0]), run[1..], m))
  }

  lemma {:induction false} SwallowedStays(s: Pipe, run: seq<Step>, m: nat)
    requires Inv(s) && Possible(s, run) && m < |Exec(s, run).messages|
    ensures |s.messages| <= |Exec(s, run).messages|
    ensures m < |s.messages| ==> Exec(s, run).messages[m] == s.messages[m]
    ensures Exec(s, run).messages[m].id in Exec(s, run).swallowed <==>
            Exec(s, run).messages[m].id in s.swallowed || SwallowedIn(s, run, m)
    decreases |run|
  {
    if run != [] {
      var t := Do(s, run[0]);
      DoKeepsInv(s, run[0]);
      ExecKeepsInv(t, run[1..]);
      SwallowedStays(t, run[1..], m);
      if run[0].Swallow? {
        var b := s.attempts[run[0].a].msg;
        MessagesStay(t, run[1..], b);
        assert b != m ==> Exec(s, run).messages[b].id != Exec(s, run).messages[m].id;
      }
    }
  }

  lemma {:induction false} MessagesStay(s: Pipe, run: seq<Step>, m: nat)
    requires Possible(s, run) && m < |s.messages|
    ensures m < |Exec(s, run).messages| && Exec(s, run).messages[m] == s.messages[m]
    decreases |run|
  {
    if run != [] {
      MessagesStay(Do(s, run[0]), run[1..], m);
    }
  }

  /** An acknowledged message whose row went in unseen lacks its event if and only if a publish of it
      failed. */
  lemma UnannouncedExactly(run: seq<Step>, m: nat)
    requires Possible(EmptyPipe, run) && m in Exec(EmptyPipe, run).acked
    ensures Unannounced(Exec(EmptyPipe, run), m) <==> SwallowedIn(EmptyPipe, run, m)
  {
    ExecKeepsInv(EmptyPipe, run);
    assert Settled(Exec(EmptyPipe, run), Exec(EmptyPipe, run).messages[m].id);
    SwallowedStays(EmptyPipe, run, m);
  }

  /** It happens: one attempt, whose publish fails, acknowledges its message. */
  lemma AckedUnannounced() returns (run: seq<Step>)
    ensures Possible(EmptyPipe, run) && Unannounced(Exec(EmptyPipe, run), 0)
  {
    var s1 := Do(EmptyPipe, Send(0, None));
    var s2 := Do(s1, Deliver(0, 0));
    var s3 := Do(s2, Insert(0, true, true));
    var s4 := Do(s3, Swallow(0));
    Prepend(s4, Ack(0), []);
    Prepend(s3, Swallow(0), [Ack(0)] + []);
    Prepend(s2, Insert(0, true, true), [Swallow(0)] + ([Ack(0)] + []));
    Prepend(s1, Deliver(0, 0), [Insert(0, true, true)] + ([Swallow(0)] + ([Ack(0)] + [])));
    Prepend(EmptyPipe, Send(0, None), [Deliver(0, 0)] + ([Insert(0, true, true)] + ([Swallow(0)] + ([Ack(0)] + []))));
    run := [Send(0, None)] + ([Deliver(0, 0)] + ([Insert(0, true, true)] + ([Swallow(0)] + ([Ack(0)] + []))));
    var s := Exec(EmptyPipe, run);
    assert s.rows == [Stored(0, None, true)] && s.messages == [Message(0, None)] && s.events == [];
    assert s.rows[0].unseen && s.rows[0].id == 0;
  }

  // ---------- which messages can still be acknowledged ----------

  /** An attempt that has not tried its insert yet. */
  ghost predicate Trying(s: Pipe, m: nat) {
    exists a :: a in s.attempts && s.attempts[a] == Attempt(m, Started)
  }

  ghost predicate Owned(s: Pipe, m: nat) {
    exists a :: Owns(s, a, m)
  }

  /** A live attempt holds the row, or there is no row yet, nor one with its key, and an attempt is
      under way or can still be delivered. */
  ghost predicate Hopeful(s: Pipe, m: nat) {
    && m < |s.messages| && m < |s.deliveries| && m !in s.acked
    && (Owned(s, m)
        || (!IdTaken(s.rows, s.messages[m].id) && !KeyTaken(s.rows, s.messages[m].key)
            && (Trying(s, m) || s.deliveries[m] < MAX_DELIVER)))
  }

  ghost predicate CanBeAcked(s: Pipe, m: nat) {
    exists run: seq<Step> :: Possible(s, run) && m in Exec(s, run).acked
  }

  /** No step makes a message hopeful again. */
  lemma HopeGoesBack(s: Pipe, step: Step, m: nat)
    requires Inv(s) && Enabled(s, step) && m < |s.messages| && Hopeful(Do(s, step), m)
    ensures Hopeful(s, m)
  {
    var t := Do(s, step);
    if step.Insert? {
      AppendRow(s.rows, t.rows[|s.rows|]);
    }
    if a :| Owns(t, a, m) {
      OwnersAfter(s, step, a, m);
      if !Owns(s, a, m) {
        assert s.attempts[a] == Attempt(m, Started);
      }
    } else if a :| a in t.attempts && t.attempts[a] == Attempt(m, Started) {
      if a in s.attempts {
        assert s.attempts[a] == Attempt(m, Started);
      }
    }
  }

  lemma {:induction false} AckedWasHopeful(s: Pipe, run: seq<Step>, m: nat)
    requires Inv(s) && Possible(s, run) && m < |s.messages| && m !in s.acked && m in Exec(s, run).acked
    ensures Hopeful(s, m)
    decreases |run|
  {
    var t := Do(s, run[0]);
    if m in t.acked {
      assert Owns(s, run[0].a, m);
    } else {
      DoKeepsInv(s, run[0]);
      AckedWasHopeful(t, run[1..], m);
      HopeGoesBack(s, run[0], m);
    }
  }

  lemma Prepend(s: Pipe, step: Step, rest: seq<Step>)
    requires Enabled(s, step) && Possible(Do(s, step), rest)
    ensures Possible(s, [step] + rest) && Exec(s, [step] + rest) == Exec(Do(s, step), rest)
  {
    assert ([step] + rest)[1..] == rest;
  }

  /** An owner only has to publish, if at all, and acknowledge. */
  lemma OwnerFinishes(s: Pipe, a: nat, m: nat) returns (run: seq<Step>)
    requires Owns(s, a, m) && At(s, a)
    ensures Possible(s, run) && m in Exec(s, run).acked
  {
    if s.attempts[a].stage.Done? {
      Prepend(s, Ack(a), []);
      run := [Ack(a)] + [];
    } else {
      var step := if s.attempts[a].stage.unseen then Publish(a) else Settle(a);
      var t := Do(s, step);
      Prepend(t, Ack(a), []);
      Prepend(s, step, [Ack(a)] + []);
      run := [step] + ([Ack(a)] + []);
    }
  }

  lemma TryingFinishes(s: Pipe, a: nat, m: nat) returns (run: seq<Step>)
    requires At(s, a) && s.attempts[a] == Attempt(m, Started)
    requires !IdTaken(s.rows, s.messages[m].id) && !KeyTaken(s.rows, s.messages[m].key)
    ensures Possible(s, run) && m in Exec(s, run).acked
  {
    var insert := Insert(a, true, true);
    var rest := OwnerFinishes(Do(s, insert), a, m);
    Prepend(s, insert, rest);
    run := [insert] + rest;
  }

  /** An attempt number not in use. */
  lemma Unused(attempts: map<nat, Attempt>) returns (a: nat)
    ensures a !in attempts
  {
    var used := attempts.Keys;
    if forall k :: 0 <= k <= |used| ==> k in used {
      var all := UpTo(|used| + 1);
      SubsetSize(all, used);
    }
    a :| 0 <= a <= |used| && a !in used;
  }

  /** Exactly the hopeful messages can still be acknowledged. So once the row is in and the attempt
      that put it there is lost, before its acknowledgement, the message never is: every redelivery
      fails on the primary key. */
  lemma AckableExactlyWhenHopeful(run: seq<Step>, m: nat)
    requires Possible(EmptyPipe, run) && m < |Exec(EmptyPipe, run).messages| && m !in Exec(EmptyPipe, run).acked
    ensures var s := Exec(EmptyPipe, run);
            CanBeAcked(s, m) <==> Hopeful(s, m)
  {
    var s := Exec(EmptyPipe, run);
    ExecKeepsInv(EmptyPipe, run);
    if Hopeful(s, m) {
      var more: seq<Step>;
      if Owned(s, m) {
        var a :| Owns(s, a, m);
        more := OwnerFinishes(s, a, m);
      } else if Trying(s, m) {
        var a :| a in s.attempts && s.attempts[a] == Attempt(m, Started);
        more := TryingFinishes(s, a, m);
      } else {
        var a := Unused(s.attempts);
        var rest := TryingFinishes(Do(s, Deliver(m, a)), a, m);
        Prepend(s, Deliver(m, a), rest);
        more := [Deliver(m, a)] + rest;
      }
      assert Possible(s, more) && m in Exec(s, more).acked;
    }
    if more: seq<Step> :| Possible(s, more) && m in Exec(s, more).acked {
      AckedWasHopeful(s, more, m);
    }
  }

  // ---------- which notifications can still be announced ----------

  /** An attempt whose insert of an unseen row returned and that has yet to publish. */
  ghost predicate Announcing(s: Pipe, m: nat) {
    exists a :: a in s.attempts && s.attempts[a] == Attempt(m, Inserted(true))
  }

  /** A live attempt is about to publish the event, or there is no row yet, nor one with its key, and
      an attempt is under way or can still be delivered. */
  ghost predicate Announceable(s: Pipe, m: nat) {
    && m < |s.messages| && m < |s.deliveries|
    && (Announcing(s, m)
        || (!IdTaken(s.rows, s.messages[m].id) && !KeyTaken(s.rows, s.messages[m].key)
            && (Trying(s, m) || s.deliveries[m] < MAX_DELIVER)))
  }

  ghost predicate CanBeAnnounced(s: Pipe, m: nat)
    requires m < |s.messages|
  {
    exists run: seq<Step> :: Possible(s, run) && s.messages[m].id in Exec(s, run).events
  }

  /** No step makes a notification announceable again. */
  lemma AnnounceableGoesBack(s: Pipe, step: Step, m: nat)
    requires Inv(s) && Enabled(s, step) && m < |s.messages| && Announceable(Do(s, step), m)
    ensures Announceable(s, m)
  {
    var t := Do(s, step);
    if step.Insert? {
      AppendRow(s.rows, t.rows[|s.rows|]);
    }
    if a :| a in t.attempts && t.attempts[a] == Attempt(m, Inserted(true)) {
      if step.Insert? && step.a == a {
        assert s.attempts[a] == Attempt(m, Started);
      } else {
        assert s.attempts[a] == Attempt(m, Inserted(true));
      }
    } else if a :| a in t.attempts && t.attempts[a] == Attempt(m, Started) {
      if a in s.attempts {
        assert s.attempts[a] == Attempt(m, Started);
      }
    }
  }

  lemma {:induction false} AnnouncedWasAnnounceable(s: Pipe, run: seq<Step>, m: nat)
    requires Inv(s) && Possible(s, run) && m < |s.messages|
    requires s.messages[m].id !in s.events && s.messages[m].id in Exec(s, run).events
    ensures Announceable(s, m)
    decreases |run|
  {
    var t := Do(s, run[0]);
    if s.messages[m].id in t.events {
      var a := run[0].a;
      assert MessageOf(s, a) == s.messages[m];
      assert s.attempts[a] == Attempt(m, Inserted(true));
    } else {
      DoKeepsInv(s, run[0]);
      AnnouncedWasAnnounceable(t, run[1..], m);
      AnnounceableGoesBack(s, run[0], m);
    }
  }

  lemma TryingAnnounces(s: Pipe, a: nat, m: nat) returns (run: seq<Step>)
    requires At(s, a) && s.attempts[a] == Attempt(m, Started)
    requires !IdTaken(s.rows, s.messages[m].id) && !KeyTaken(s.rows, s.messages[m].key)
    ensures Possible(s, run) && s.messages[m].id in Exec(s, run).events
  {
    var insert, publish := Insert(a, true, true), Publish(a);
    Prepend(Do(s, insert), publish, []);
    Prepend(s, insert, [publish] + []);
    run := [insert] + ([publish] + []);
  }

  /** Exactly the announceable notifications whose event is not out can still have it published. So a
      row that went in unseen loses its event for good, however many deliveries are left, if and only
      if the attempt that inserted it stopped before the publish, or the publish failed. */
  lemma AnnouncedExactlyWhenAnnounceable(run: seq<Step>, m: nat)
    requires Possible(EmptyPipe, run) && m < |Exec(EmptyPipe, run).messages|
    requires Exec(EmptyPipe, run).messages[m].id !in Exec(EmptyPipe, run).events
    ensures var s := Exec(EmptyPipe, run);
            && (CanBeAnnounced(s, m) <==> Announceable(s, m))
            && (UnseenRow(s.rows, s.messages[m].id) ==> (CanBeAnnounced(s, m) <==> Announcing(s, m)))
  {
    var s := Exec(EmptyPipe, run);
    ExecKeepsInv(EmptyPipe, run);
    UnseenIsTaken(s.rows, s.messages[m].id);
    if Announceable(s, m) {
      var more: seq<Step>;
      if a :| a in s.attempts && s.attempts[a] == Attempt(m, Inserted(true)) {
        Prepend(s, Publish(a), []);
        more := [Publish(a)] + [];
      } else if a :| a in s.attempts && s.attempts[a] == Attempt(m, Started) {
        more := TryingAnnounces(s, a, m);
      } else {
        assert m !in s.acked;
        var a := Unused(s.attempts);
        var rest := TryingAnnounces(Do(s, Deliver(m, a)), a, m);
        Prepend(s, Deliver(m, a), rest);
        more := [Deliver(m, a)] + rest;
      }
      assert Possible(s, more) && s.messages[m].id in Exec(s, more).events;
    }
    if more: seq<Step> :| Possible(s, more) && s.messages[m].id in Exec(s, more).events {
      AnnouncedWasAnnounceable(s, more, m);
    }
  }

  /** It happens: an attempt inserts an unseen row and is lost. Four deliveries are left, yet the
      notification is never announced and its message never acknowledged. */
  lemma EventCanBeLost() returns (run: seq<Step>)
    ensures Possible(EmptyPipe, run)
    ensures var s := Exec(EmptyPipe, run);
            && s.messages == [Message(0, None)] && s.deliveries == [1] && UnseenRow(s.rows, 0) && 0 !in s.events
            && !CanBeAnnounced(s, 0) && !CanBeAcked(s, 0)
  {
    var s1 := Do(EmptyPipe, Send(0, None));
    var s2 := Do(s1, Deliver(0, 0));
    var s3 := Do(s2, Insert(0, true, true));
    Prepend(s3, Drop(0), []);
    Prepend(s2, Insert(0, true, true), [Drop(0)] + []);
    Prepend(s1, Deliver(0, 0), [Insert(0, true, true)] + ([Drop(0)] + []));
    Prepend(EmptyPipe, Send(0, None), [Deliver(0, 0)] + ([Insert(0, true, true)] + ([Drop(0)] + [])));
    run := [Send(0, None)] + ([Deliver(0, 0)] + ([Insert(0, true, true)] + ([Drop(0)] + [])));
    var s := Exec(EmptyPipe, run);
    assert s.rows == [Stored(0, None, true)] && s.attempts == map[] && s.acked == {};
    assert s.rows[0].unseen && s.rows[0].id == 0;
    AnnouncedExactlyWhenAnnounceable(run, 0);
    AckableExactlyWhenHopeful(run, 0);
  }
}
