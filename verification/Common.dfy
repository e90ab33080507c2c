/** Types shared by every component. All clocks of the system are taken to be one
    monotone clock whose instants are integers. */
module Common {

  datatype Option<+T> = None | Some(value: T)

  datatype Result<+T, +E> = Ok(value: T) | Err(error: E)

  type Id = nat         // a notification's UUID
  type TypeId = nat     // a notification type's UUID
  type ServiceId = nat  // a service's UUID
  type LevelId = nat    // a notification level's UUID
  type Time = int

  function Min(a: int, b: int): int {
    if a <= b then a else b
  }

  function Max(a: int, b: int): int {
    if a >= b then a else b
  }

  /** A set is no larger than a set that contains it, and is equal to it when as large. */
  lemma SubsetSize<T>(a: set<T>, b: set<T>)
    requires a <= b
    ensures |a| <= |b|
    ensures |a| == |b| ==> a == b
  {
    assert b == a + (b - a);
    assert |b| == |a| + |b - a|;
  }

  /** The size of a set is the sum over a two-way split of it. */
  lemma SplitSize<T>(whole: set<T>, a: set<T>, b: set<T>)
    requires whole == a + b && a !! b
    ensures |whole| == |a| + |b|
  {
  }

  /** Taking some elements out of a set and putting new ones in. */
  lemma MoveSize<T>(before: set<T>, gone: set<T>, new_: set<T>, after: set<T>)
    requires gone <= before && new_ !! before && after == (before - gone) + new_
    ensures |after| == |before| - |gone| + |new_|
  {
    assert before == (before - gone) + gone;
  }

  predicate Distinct<T(==)>(s: seq<T>) {
    forall a, b :: 0 <= a < b < |s| ==> s[a] != s[b]
  }

  /** The numbers below n. */
  function UpTo(n: nat): (r: set<nat>)
    ensures |r| == n && forall i: nat :: i in r <==> i < n
  {
    if n == 0 then {} else UpTo(n - 1) + {n - 1}
  }
}
