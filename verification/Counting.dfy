/** The numbers that bound escalation: multisets, binomials and powers. */
module Counting {

  /** How many multisets of `n` elements there are over `k` kinds. */
  function Multisets(k: nat, n: nat): nat
    decreases k + n
  {
    if n == 0 then 1 else if k == 0 then 0 else Multisets(k - 1, n) + Multisets(k, n - 1)
  }

  lemma {:induction false} MultisetsPositive(k: nat, n: nat)
    ensures Multisets(k + 1, n) >= 1
    decreases n
  {
    if n > 0 {
      MultisetsPositive(k, n - 1);
    }
  }

  lemma {:induction false} MultisetsMonotone(k: nat, more: nat, n: nat)
    requires k <= more
    ensures Multisets(k, n) <= Multisets(more, n)
    decreases more - k
  {
    if k < more && n > 0 {
      MultisetsMonotone(k + 1, more, n);
    }
  }

  /** One more kind at a position outweighs whatever stood at the positions after it. */
  lemma RankStep(k: nat, more: nat, n: nat, rest: nat)
    requires k < more && 0 < n && rest < Multisets(k + 1, n - 1)
    ensures Multisets(k, n) + rest < Multisets(more, n)
  {
    MultisetsMonotone(k + 1, more, n);
  }

  // ---------- the rank of a multiset ----------

  /** A multiset of n elements by how many there are at or above each position: never more than `top`,
      and never more than at the position before. */
  predicate Descending(k: seq<nat>, top: nat) {
    k != [] ==> k[0] <= top && Descending(k[1..], k[0])
  }

  function Rank(k: seq<nat>): nat {
    if k == [] then 0 else Multisets(k[0], |k|) + Rank(k[1..])
  }

  predicate LexBelow(k: seq<nat>, l: seq<nat>)
    requires |k| == |l|
  {
    k != [] && (k[0] < l[0] || (k[0] == l[0] && LexBelow(k[1..], l[1..])))
  }

  lemma {:induction false} RankBelow(k: seq<nat>, top: nat)
    requires Descending(k, top)
    ensures Rank(k) < Multisets(top + 1, |k|)
  {
    if k != [] {
      RankBelow(k[1..], k[0]);
      MultisetsMonotone(k[0] + 1, top + 1, |k|);
    }
  }

  /** The rank orders multisets lexicographically. */
  lemma {:induction false} RankIsLexicographic(k: seq<nat>, l: seq<nat>, top: nat)
    requires |k| == |l| && Descending(k, top) && Descending(l, top)
    ensures LexBelow(k, l) <==> Rank(k) < Rank(l)
  {
    if k != [] {
      RankBelow(k[1..], k[0]);
      RankBelow(l[1..], l[0]);
      if k[0] < l[0] {
        RankStep(k[0], l[0], |k|, Rank(k[1..]));
      } else if l[0] < k[0] {
        RankStep(l[0], k[0], |k|, Rank(l[1..]));
      } else {
        RankIsLexicographic(k[1..], l[1..], k[0]);
      }
    }
  }

  // ---------- binomials ----------

  function Factorial(n: nat): nat {
    if n == 0 then 1 else n * Factorial(n - 1)
  }

  /** Multisets over k + 1 kinds are the binomial coefficient (k + n)! / (k! n!). */
  lemma {:induction false} MultisetsIsBinomial(k: nat, n: nat)
    ensures Multisets(k + 1, n) * (Factorial(k) * Factorial(n)) == Factorial(k + n)
    decreases k + n
  {
    if n == 0 {
    } else if k == 0 {
      MultisetsIsBinomial(0, n - 1);
      assert Multisets(0, n) == 0;
      assert Multisets(1, n) == Multisets(1, n - 1);
      Rescale(Multisets(1, n - 1), 1, Factorial(n - 1), n);
    } else {
      MultisetsIsBinomial(k - 1, n);
      MultisetsIsBinomial(k, n - 1);
      var a, b := Multisets(k, n), Multisets(k + 1, n - 1);
      var fk, fn, f := Factorial(k - 1), Factorial(n - 1), Factorial(k + n - 1);
      calc {
        (a + b) * (Factorial(k) * Factorial(n));
        (a + b) * ((k * fk) * Factorial(n));
        { Spread(a, b, (k * fk) * Factorial(n)); }
        a * ((k * fk) * Factorial(n)) + b * (Factorial(k) * (n * fn));
        {
          Rescale(a, Factorial(n), fk, k);
          Rescale(b, Factorial(k), fn, n);
          Swap(k * fk, Factorial(n));
          Swap(fk, Factorial(n));
        }
        k * (a * (fk * Factorial(n))) + n * (b * (Factorial(k) * fn));
        k * f + n * f;
        { Spread(k, n, f); }
        (k + n) * f;
        Factorial(k + n);
      }
    }
  }

  lemma Spread(a: int, b: int, c: int)
    ensures (a + b) * c == a * c + b * c
  {
  }

  lemma Scale(k: nat, a: int, b: int)
    requires a <= b
    ensures k * a <= k * b
  {
  }

  lemma Swap(a: int, b: int)
    ensures a * b == b * a
  {
  }

  lemma Rescale(a: int, b: int, c: int, m: int)
    ensures a * (b * (m * c)) == m * (a * (b * c))
  {
    assert b * (m * c) == m * (b * c);
    assert a * (m * (b * c)) == m * (a * (b * c));
  }

  function Power(k: nat, n: nat): nat {
    if n == 0 then 1 else k * Power(k, n - 1)
  }

  /** k + k^2 + ... + k^n */
  function Geometric(k: nat, n: nat): nat {
    if n == 0 then 0 else Geometric(k, n - 1) + Power(k, n)
  }

  /** The closed form of the sum. */
  lemma {:induction false} GeometricIsClosed(k: nat, n: nat)
    requires k > 0
    ensures (k - 1) * Geometric(k, n) == k * Power(k, n) - k
  {
    if n > 0 {
      GeometricIsClosed(k, n - 1);
      var g, p := Geometric(k, n - 1), Power(k, n);
      assert (k - 1) * g == p - k;
      calc {
        (k - 1) * (g + p);
        { Swap(k - 1, g + p); Spread(g, p, k - 1); Swap(g, k - 1); Swap(p, k - 1); }
        (k - 1) * g + (k - 1) * p;
        { Spread(k, -1, p); }
        k * p - k;
      }
    }
  }

  lemma {:induction false} MultisetsAtMostPower(k: nat, n: nat)
    ensures Multisets(k, n) <= Power(k, n)
    decreases k + n
  {
    if n > 0 && k > 0 {
      MultisetsAtMostPower(k, n - 1);
      MultisetsStep(k, n);
      Scale(k, Multisets(k, n - 1), Power(k, n - 1));
    }
  }

  /** Each of at most k choices of the least element leaves at most all smaller multisets. */
  lemma {:induction false} MultisetsStep(k: nat, n: nat)
    requires n > 0
    ensures Multisets(k, n) <= k * Multisets(k, n - 1)
    decreases k
  {
    if k > 0 {
      MultisetsStep(k - 1, n);
      MultisetsMonotone(k - 1, k, n - 1);
      Scale(k - 1, Multisets(k - 1, n - 1), Multisets(k, n - 1));
      Spread(k - 1, 1, Multisets(k, n - 1));
    }
  }

  lemma {:induction false} BinomialAtMostGeometric(k: nat, n: nat)
    ensures Multisets(k + 1, n) - 1 <= Geometric(k, n)
    decreases n
  {
    if n > 0 {
      BinomialAtMostGeometric(k, n - 1);
      MultisetsAtMostPower(k, n);
    }
  }

  /** A single instance: the bound is the limit itself. */
  lemma {:induction false} OneInstance(n: nat)
    ensures Multisets(2, n) - 1 == n
    decreases n
  {
    if n > 0 {
      OneInstance(n - 1);
      OneKind(n);
    }
  }

  lemma {:induction false} OneKind(n: nat)
    ensures Multisets(1, n) == 1
    decreases n
  {
    if n > 0 {
      OneKind(n - 1);
      assert Multisets(0, n) == 0;
    }
  }
}
