/** How long a snooze lasts, whatever else goes on. */
module Snoozes {
  import opened Common
  import opened StateMachine
  import opened Notifications
  import opened Cluster
  import Batches

  /** The row is snoozed again. */
  predicate SnoozedIn(run: seq<Action>, id: Id) {
    exists k :: 0 <= k < |run| && Snoozes(run[k], id)
  }

  predicate Snoozes(a: Action, id: Id) {
    a.Issue? && a.stmt.SnoozeOne? && a.stmt.id == id
  }

  /** The action takes the row from snoozed to unread. */
  predicate Wakes(s: Sys, a: Action, id: Id)
    requires Enabled(s, a)
  {
    id in s.table && id in Do(s, a).table && s.table[id].state == Snoozed && Do(s, a).table[id].state == Unread
  }

  predicate WokenIn(s: Sys, run: seq<Action>, id: Id)
    requires Possible(s, run)
    decreases |run|
  {
    run != [] && (Wakes(s, run[0], id) || WokenIn(Do(s, run[0]), run[1..], id))
  }

  /** Only waking, and only once it is due, takes a row's wake-up time away. */
  lemma WakeTimeStays(s: Sys, a: Action, id: Id, until: Time)
    requires Enabled(s, a) && id in s.table && s.table[id].snoozedUntil == Some(until) && !Snoozes(a, id)
    ensures id in Do(s, a).table
    ensures Wakes(s, a, id) ==> until <= s.now
    ensures !Wakes(s, a, id) ==> Do(s, a).table[id].snoozedUntil == Some(until)
  {
  }

  lemma {:induction false} SnoozeHolds(s: Sys, run: seq<Action>, id: Id, until: Time)
    requires Possible(s, run) && !SnoozedIn(run, id) && id in s.table && s.table[id].snoozedUntil == Some(until)
    ensures id in Exec(s, run).table
    ensures Exec(s, run).now < until ==> !WokenIn(s, run, id)
    ensures !WokenIn(s, run, id) ==> Exec(s, run).table[id].snoozedUntil == Some(until)
    decreases |run|
  {
    if run != [] {
      ExecEvolves(s, run);
      assert !Snoozes(run[0], id);
      forall k | 0 <= k < |run[1..]| ensures !Snoozes(run[1..][k], id) {
        assert run[1..][k] == run[k + 1];
      }
      WakeTimeStays(s, run[0], id, until);
      if !Wakes(s, run[0], id) {
        SnoozeHolds(Do(s, run[0]), run[1..], id, until);
      }
    }
  }

  /** A user's snooze of a row of theirs lasts until the time asked for: in no run in which it is not
      snoozed again is it woken earlier, and from then on, while it is snoozed, it is due and waking it
      makes it unread. */
  lemma SnoozeLasts(s: Sys, user: string, id: Id, until: Time, run: seq<Action>)
    requires id in s.table && s.table[id].user == user && s.table[id].state in {Unseen, Unread, Read}
    requires Possible(Do(s, Issue(SnoozeOne(user, id, until))), run) && !SnoozedIn(run, id)
    ensures var t := Do(s, Issue(SnoozeOne(user, id, until)));
            var u := Exec(t, run);
            && t.table[id] == s.table[id].(state := Snoozed, snoozedUntil := Some(until), updatedAt := s.now)
            && id in u.table && (u.now < until ==> !WokenIn(t, run, id))
            && (!WokenIn(t, run, id) && u.table[id].state == Snoozed ==>
                  && (id in Batches.Due(Batches.Wake, u.table, u.now) <==> until <= u.now)
                  && (Wakes(u, Issue(WakeRows({id})), id) <==> until <= u.now))
  {
    SnoozeHolds(Do(s, Issue(SnoozeOne(user, id, until))), run, id, until);
  }
}
