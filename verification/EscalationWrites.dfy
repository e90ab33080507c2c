/** How often concurrent scheduler instances can write the escalation of one row.

    Locks are gone before the writes, so a stale pass can set the count back and have rows
    escalated again. With K instances and a limit of M the exact worst case is C(K + M, M) - 1
    writes: no run has more, and some run has that many.

    Say an instance is at level t or above when the row, if another escalation is scheduled, has
    count at least t, and the instance's own snapshot of the row, if it holds one, has too.
    The instances' levels form a multiset of K elements of 0..M. Every write moves it up in
    lexicographic order and nothing moves it down (`LevelsAscend`); `Used` is its rank in that order,
    from 0 to C(K + M, M) - 1. */
module EscalationWrites {
  import opened Common
  import opened Cluster
  import opened EscalationBounds
  import opened Counting

  /** The number of `update_escalation` writes a run makes on a row. */
  function WriteCount(s: Sys, run: seq<Action>, id: Id): nat
    requires Possible(s, run)
    decreases |run|
  {
    if run == [] then 0
    else (if Writes(s, run[0], id) then 1 else 0) + WriteCount(Do(s, run[0]), run[1..], id)
  }

  ghost predicate AtLevel(s: Sys, id: Id, i: nat, t: int)
    requires i < |s.passes|
  {
    && id in s.table
    && (s.table[id].nextEscalationAt.Some? ==> s.table[id].escalationCount >= t)
    && (forall h :: h in Pending(s.passes[i]) && h.id == id ==> h.row.escalationCount >= t)
  }

  ghost function Above(s: Sys, id: Id, t: int): set<nat> {
    set i: nat | i < |s.passes| && AtLevel(s, id, i, t)
  }

  lemma AboveAtMostAll(s: Sys, id: Id, t: int)
    ensures |Above(s, id, t)| <= |s.passes|
  {
    SubsetSize(Above(s, id, t), UpTo(|s.passes|));
  }

  /** The rank of the levels from t up to `limit`. */
  ghost function Used(s: Sys, id: Id, t: nat, limit: nat): nat
    decreases limit + 1 - t
  {
    if t > limit then 0 else Multisets(|Above(s, id, t)|, limit - t + 1) + Used(s, id, t + 1, limit)
  }

  /** The levels above one that `k` instances are at rank below all of what `k + 1` could do. */
  lemma {:induction false} UsedAtMost(s: Sys, id: Id, t: nat, limit: nat, k: nat)
    requires t <= limit + 1 && |Above(s, id, t)| <= k
    ensures Used(s, id, t, limit) <= Multisets(k + 1, limit - t + 1) - 1
    decreases limit + 1 - t
  {
    if t <= limit {
      SubsetSize(Above(s, id, t + 1), Above(s, id, t));
      UsedAtMost(s, id, t + 1, limit, k);
      MultisetsMonotone(|Above(s, id, t)|, k, limit - t + 1);
    }
  }

  /** The type of the row, if the row exists, has never had a larger limit. */
  ghost predicate LimitAtMost(s: Sys, id: Id, limit: nat) {
    id in s.table && s.table[id].ty in s.types ==>
      forall c :: c in s.types[s.table[id].ty].versions ==> c.max <= limit
  }

  /** Any action but a write of the row leaves every instance at least as high. */
  lemma OtherActionsRaise(s: Sys, a: Action, id: Id, t: nat)
    requires Enabled(s, a) && !Writes(s, a, id)
    ensures Above(s, id, t) <= Above(Do(s, a), id, t)
  {
    if id in s.table {
      DoOnRow(s, a, id);
      forall i | i in Above(s, id, t) ensures AtLevel(Do(s, a), id, i, t) {
        if !(a.Fetch? && a.i == i) {
          assert forall h :: h in Pending(Do(s, a).passes[i]) ==> h in Pending(s.passes[i]);
        }
      }
    }
  }

  /** A write of count c leaves every instance at least as high up to level c, and lifts the writer
      to level c. */
  lemma WriteRaises(s: Sys, a: Action, id: Id, t: nat)
    requires Inv(s) && Enabled(s, a) && Writes(s, a, id)
    requires t <= s.passes[a.i].due[0].row.escalationCount + 1
    ensures Above(s, id, t) <= Above(Do(s, a), id, t)
    ensures t == s.passes[a.i].due[0].row.escalationCount + 1 ==>
              a.i !in Above(s, id, t) && a.i in Above(Do(s, a), id, t)
  {
    var h, s' := s.passes[a.i].due[0], Do(s, a);
    assert PassOk(s, s.passes[a.i]) && HeldOk(s, h);
    DoOnRow(s, a, id);
    assert h in Pending(s.passes[a.i]);
    assert forall g :: g in Pending(s'.passes[a.i]) ==> g.id != id;
    forall i | i in Above(s, id, t) ensures AtLevel(s', id, i, t) {
    }
  }

  lemma {:induction false} OtherActionsKeepUsed(s: Sys, a: Action, id: Id, t: nat, limit: nat)
    requires Enabled(s, a) && !Writes(s, a, id)
    ensures Used(s, id, t, limit) <= Used(Do(s, a), id, t, limit)
    decreases limit + 1 - t
  {
    if t <= limit {
      OtherActionsRaise(s, a, id, t);
      SubsetSize(Above(s, id, t), Above(Do(s, a), id, t));
      MultisetsMonotone(|Above(s, id, t)|, |Above(Do(s, a), id, t)|, limit - t + 1);
      OtherActionsKeepUsed(s, a, id, t + 1, limit);
    }
  }

  /** Lifting one more instance to level t outranks anything lost above t. */
  lemma LiftRaisesRank(s: Sys, s': Sys, id: Id, i: nat, t: nat, limit: nat)
    requires t <= limit && Above(s, id, t) <= Above(s', id, t)
    requires i !in Above(s, id, t) && i in Above(s', id, t)
    ensures Used(s, id, t, limit) + 1 <= Used(s', id, t, limit)
  {
    SubsetSize(Above(s, id, t) + {i}, Above(s', id, t));
    SubsetSize(Above(s, id, t + 1), Above(s, id, t));
    UsedAtMost(s, id, t + 1, limit, |Above(s, id, t)|);
    RankStep(|Above(s, id, t)|, |Above(s', id, t)|, limit - t + 1, Used(s, id, t + 1, limit));
    UsedUnfolds(s, id, t, limit);
    UsedUnfolds(s', id, t, limit);
  }

  lemma UsedUnfolds(s: Sys, id: Id, t: nat, limit: nat)
    requires t <= limit
    ensures Used(s, id, t, limit) == Multisets(|Above(s, id, t)|, limit - t + 1) + Used(s, id, t + 1, limit)
  {
  }

  lemma {:induction false} LiftRaisesRankFrom(s: Sys, s': Sys, id: Id, i: nat, t: nat, level: nat, limit: nat)
    requires t <= level <= limit
    requires forall u: nat :: t <= u <= level ==> Above(s, id, u) <= Above(s', id, u)
    requires i !in Above(s, id, level) && i in Above(s', id, level)
    ensures Used(s, id, t, limit) + 1 <= Used(s', id, t, limit)
    decreases level - t
  {
    if t == level {
      LiftRaisesRank(s, s', id, i, t, limit);
    } else {
      SubsetSize(Above(s, id, t), Above(s', id, t));
      MultisetsMonotone(|Above(s, id, t)|, |Above(s', id, t)|, limit - t + 1);
      LiftRaisesRankFrom(s, s', id, i, t + 1, level, limit);
      UsedUnfolds(s, id, t, limit);
      UsedUnfolds(s', id, t, limit);
    }
  }

  lemma WriteUses(s: Sys, a: Action, id: Id, limit: nat)
    requires Inv(s) && Enabled(s, a) && Writes(s, a, id)
    requires 1 <= s.passes[a.i].due[0].row.escalationCount + 1 <= limit
    ensures Used(s, id, 1, limit) + 1 <= Used(Do(s, a), id, 1, limit)
  {
    var level := s.passes[a.i].due[0].row.escalationCount + 1;
    var s' := Do(s, a);
    forall u: nat | 1 <= u <= level
      ensures Above(s, id, u) <= Above(s', id, u)
    {
      WriteRaises(s, a, id, u);
    }
    WriteRaises(s, a, id, level);
    LiftRaisesRankFrom(s, s', id, a.i, 1, level, limit);
  }

  /** How many instances are at level t or above, for each t up to the limit. */
  ghost function Levels(s: Sys, id: Id, t: nat, limit: nat): seq<nat>
    decreases limit + 1 - t
  {
    if t > limit then [] else [|Above(s, id, t)|] + Levels(s, id, t + 1, limit)
  }

  lemma {:induction false} UsedIsRank(s: Sys, id: Id, t: nat, limit: nat, top: nat)
    requires t <= limit + 1 && |Above(s, id, t)| <= top
    ensures |Levels(s, id, t, limit)| == limit + 1 - t && Descending(Levels(s, id, t, limit), top)
    ensures Used(s, id, t, limit) == Rank(Levels(s, id, t, limit))
    decreases limit + 1 - t
  {
    if t <= limit {
      SubsetSize(Above(s, id, t + 1), Above(s, id, t));
      UsedIsRank(s, id, t + 1, limit, |Above(s, id, t)|);
      assert Levels(s, id, t, limit)[1..] == Levels(s, id, t + 1, limit);
    }
  }

  /** A write moves the levels up in lexicographic order, and nothing moves them down. */
  lemma LevelsAscend(s: Sys, a: Action, id: Id, limit: nat)
    requires Inv(s) && Enabled(s, a) && LimitAtMost(s, id, limit)
    ensures |Levels(s, id, 1, limit)| == |Levels(Do(s, a), id, 1, limit)| == limit
    ensures Writes(s, a, id) ==> LexBelow(Levels(s, id, 1, limit), Levels(Do(s, a), id, 1, limit))
    ensures !LexBelow(Levels(Do(s, a), id, 1, limit), Levels(s, id, 1, limit))
  {
    var t := Do(s, a);
    DoEvolves(s, a);
    AboveAtMostAll(s, id, 1);
    AboveAtMostAll(t, id, 1);
    UsedIsRank(s, id, 1, limit, |s.passes|);
    UsedIsRank(t, id, 1, limit, |s.passes|);
    RankIsLexicographic(Levels(s, id, 1, limit), Levels(t, id, 1, limit), |s.passes|);
    RankIsLexicographic(Levels(t, id, 1, limit), Levels(s, id, 1, limit), |s.passes|);
    if Writes(s, a, id) {
      var h := s.passes[a.i].due[0];
      assert PassOk(s, s.passes[a.i]) && HeldOk(s, h);
      MaxEverLeast(s.types[h.row.ty].versions, limit);
      WriteUses(s, a, id, limit);
    } else {
      OtherActionsKeepUsed(s, a, id, 1, limit);
    }
  }

  /** What a run writes, it uses up. */
  lemma {:induction false} WritesUseUp(s: Sys, run: seq<Action>, id: Id, limit: nat)
    requires Inv(s) && Possible(s, run) && LimitAtMost(Exec(s, run), id, limit)
    ensures Used(s, id, 1, limit) + WriteCount(s, run, id) <= Used(Exec(s, run), id, 1, limit)
    decreases |run|
  {
    if run != [] {
      var a := run[0];
      DoKeepsInv(s, a);
      WritesUseUp(Do(s, a), run[1..], id, limit);
      if Writes(s, a, id) {
        var h := s.passes[a.i].due[0];
        assert PassOk(s, s.passes[a.i]) && HeldOk(s, h);
        ExecEvolves(s, run);
        MaxEverLeast(s.types[h.row.ty].versions, limit);
        WriteUses(s, a, id, limit);
      } else {
        OtherActionsKeepUsed(s, a, id, 1, limit);
      }
    }
  }

  /** With K instances, whatever they and everyone else do, a row whose type has never had a limit
      above M has its escalation written at most C(K + M, M) - 1 times. */
  lemma WritesAtMost(s: Sys, run: seq<Action>, id: Id, limit: nat)
    requires Inv(s) && Possible(s, run) && LimitAtMost(Exec(s, run), id, limit)
    ensures WriteCount(s, run, id) < Multisets(|s.passes| + 1, limit)
  {
    var t := Exec(s, run);
    WritesUseUp(s, run, id, limit);
    AboveAtMostAll(t, id, 1);
    ExecEvolves(s, run);
    UsedAtMost(t, id, 1, limit, |s.passes|);
  }

  /** Hence at most K + K^2 + ... + K^M times, and at most M times by a single instance. */
  lemma WritesAtMostPowers(s: Sys, run: seq<Action>, id: Id, limit: nat)
    requires Inv(s) && Possible(s, run) && LimitAtMost(Exec(s, run), id, limit)
    ensures WriteCount(s, run, id) <= Geometric(|s.passes|, limit)
    ensures |s.passes| == 1 ==> WriteCount(s, run, id) <= limit
  {
    WritesAtMost(s, run, id, limit);
    BinomialAtMostGeometric(|s.passes|, limit);
    OneInstance(limit);
  }
}
