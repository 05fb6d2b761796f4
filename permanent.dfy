/** The permanent of a square matrix, and Ryser's inclusion-exclusion identity for it.

    Ryser's sum selects a set S of ROWS and multiplies, over the columns y, the
    column sums  sum over z in S of A[z][y].  That sum equals the permanent in the
    form  sum over permutations s of prod over y of A[s(y)][y]. */
module Permanents {
  import opened ComplexNumbers
  import opened SubsetSums
  import opened Sequences

  type Matrix = seq<seq<Complex>>

  /** `A[r][c]`, or zero outside the matrix (so that the definitions below are total). */
  function Entry(A: Matrix, r: nat, c: nat): Complex {
    if r < |A| && c < |A[r]| then A[r][c] else Zero
  }

  function Range(n: nat): (r: seq<nat>)
    ensures |r| == n && forall i :: 0 <= i < n ==> r[i] == i
  {
    seq(n, i => i)
  }

  function Factorial(n: nat): nat { if n == 0 then 1 else n * Factorial(n - 1) }

  // ---------------------------------------------------------------------------
  // Column sums and their product, as the loops of `ryser` compute them.

  /** The sum of `A[r][y]` over the rows `r < z` that belong to `S`, added in
      increasing order of `r`. */
  function ColumnSum(A: Matrix, S: set<nat>, y: nat, z: nat): Complex {
    if z == 0 then Zero
    else if z - 1 in S then Add(ColumnSum(A, S, y, z - 1), Entry(A, z - 1, y))
    else ColumnSum(A, S, y, z - 1)
  }

  /** The product, over the columns `y < k`, of the column sums over rows `S`
      (rows below `n`), multiplied from left to right starting from one. */
  function ColumnProduct(A: Matrix, n: nat, S: set<nat>, k: nat): Complex {
    if k == 0 then One else Mul(ColumnProduct(A, n, S, k - 1), ColumnSum(A, S, k - 1, n))
  }

  function ProductFn(A: Matrix, n: nat, k: nat): SetFn { S => ColumnProduct(A, n, S, k) }

  /** Ryser's sum for the rows listed in `L` and the first `k` columns. */
  function RyserOver(A: Matrix, n: nat, L: seq<nat>, k: nat): Complex {
    AltSum(L, ProductFn(A, n, k))
  }

  // ---------------------------------------------------------------------------
  // The permanent: Laplace expansion along the last column, and the explicit sum
  // over permutations.

  /** The permanent of the submatrix with rows `L` and columns `0 .. k-1`,
      expanded along column `k - 1` (zero when `|L| != k`). */
  function Laplace(A: Matrix, L: seq<nat>, k: nat): Complex
    decreases k, 1, 0
  {
    if k == 0 then (if L == [] then One else Zero) else LaplaceSum(A, L, k, |L|)
  }

  function LaplaceSum(A: Matrix, L: seq<nat>, k: nat, m: nat): Complex
    requires 1 <= k && m <= |L|
    decreases k, 0, m
  {
    if m == 0 then Zero
    else Add(LaplaceSum(A, L, k, m - 1), Mul(Entry(A, L[m - 1], k - 1), Laplace(A, Remove(L, m - 1), k - 1)))
  }

  /** Every ordering of the elements of `L`, grouped by last element. */
  function Arrangements(L: seq<nat>): seq<seq<nat>>
    decreases |L|, 1, 0
  {
    if L == [] then [[]] else ArrangementsEnding(L, |L|)
  }

  /** The orderings of `L` whose last element is one of `L[0], ..., L[m-1]`. */
  function ArrangementsEnding(L: seq<nat>, m: nat): seq<seq<nat>>
    requires m <= |L|
    decreases |L|, 0, m
  {
    if m == 0 then []
    else ArrangementsEnding(L, m - 1) + Append(Arrangements(Remove(L, m - 1)), L[m - 1])
  }

  function Append(P: seq<seq<nat>>, x: nat): (r: seq<seq<nat>>)
    ensures |r| == |P| && forall i :: 0 <= i < |P| ==> r[i] == P[i] + [x]
  {
    seq(|P|, i requires 0 <= i < |P| => P[i] + [x])
  }

  /** `A[p[0]][0] * ... * A[p[k-1]][k-1]`. */
  function DiagonalProduct(A: Matrix, p: seq<nat>, k: nat): Complex {
    if k == 0 then One
    else Mul(DiagonalProduct(A, p, k - 1), if k - 1 < |p| then Entry(A, p[k - 1], k - 1) else Zero)
  }

  function PermutationSum(A: Matrix, P: seq<seq<nat>>, k: nat): Complex {
    if P == [] then Zero
    else Add(PermutationSum(A, P[..|P| - 1], k), DiagonalProduct(A, P[|P| - 1], k))
  }

  /** The permanent of an n-by-n matrix: the sum, over all permutations s of
      0 .. n-1, of  A[s(0)][0] * ... * A[s(n-1)][n-1]. */
  function Permanent(A: Matrix): Complex {
    PermutationSum(A, Arrangements(Range(|A|)), |A|)
  }

  // ---------------------------------------------------------------------------
  // Arrangements are exactly the permutations, each listed once.

  /** An ordering of `L` is listed exactly when it is a permutation of `L`. */
  lemma ArrangementsArePermutations(L: seq<nat>, p: seq<nat>)
    ensures p in Arrangements(L) <==> multiset(p) == multiset(L)
  {
    if p in Arrangements(L) { ArrangementIsPermutation(L, p); }
    if multiset(p) == multiset(L) { PermutationIsArrangement(L, p); }
  }

  lemma MultisetRemove(L: seq<nat>, j: nat)
    requires j < |L|
    ensures multiset(L) == multiset(Remove(L, j)) + multiset{L[j]}
  {
    assert L == L[..j] + [L[j]] + L[j + 1..];
  }

  lemma {:induction false} ArrangementIsPermutation(L: seq<nat>, p: seq<nat>)
    requires p in Arrangements(L)
    ensures multiset(p) == multiset(L)
    decreases |L|
  {
    if L != [] {
      var j := ArrangementEndingInv(L, |L|, p);
      var q := p[..|p| - 1];
      assert q + [L[j]] == p;
      ArrangementIsPermutation(Remove(L, j), q);
      MultisetRemove(L, j);
    }
  }

  lemma {:induction false} PermutationIsArrangement(L: seq<nat>, p: seq<nat>)
    requires multiset(p) == multiset(L)
    ensures p in Arrangements(L)
    decreases |L|
  {
    assert |p| == |multiset(p)| == |multiset(L)| == |L|;
    if L == [] {
      assert p == [];
    } else {
      var x := p[|p| - 1];
      assert x in multiset(L);
      var j :| 0 <= j < |L| && L[j] == x;
      var q := p[..|p| - 1];
      assert p == q + [x];
      MultisetRemove(L, j);
      assert multiset(p) == multiset(q) + multiset{x};
      assert multiset(q) == multiset(p) - multiset{x};
      assert multiset(Remove(L, j)) == multiset(L) - multiset{x};
      PermutationIsArrangement(Remove(L, j), q);
      ArrangementEndingIntro(L, |L|, j, q);
    }
  }

  /** An arrangement ending with block `j` has the form `q + [L[j]]`. */
  lemma {:induction false} ArrangementEndingInv(L: seq<nat>, m: nat, p: seq<nat>) returns (j: nat)
    requires m <= |L| && p in ArrangementsEnding(L, m)
    ensures j < m && |p| > 0 && p[|p| - 1] == L[j] && p[..|p| - 1] in Arrangements(Remove(L, j))
    decreases m
  {
    var B := Append(Arrangements(Remove(L, m - 1)), L[m - 1]);
    if p in ArrangementsEnding(L, m - 1) {
      j := ArrangementEndingInv(L, m - 1, p);
    } else {
      assert p in B;
      var i :| 0 <= i < |B| && B[i] == p;
      j := m - 1;
      assert p[..|p| - 1] == Arrangements(Remove(L, m - 1))[i];
    }
  }

  lemma {:induction false} ArrangementEndingIntro(L: seq<nat>, m: nat, j: nat, q: seq<nat>)
    requires j < m <= |L| && q in Arrangements(Remove(L, j))
    ensures q + [L[j]] in ArrangementsEnding(L, m)
    decreases m
  {
    if j < m - 1 {
      ArrangementEndingIntro(L, m - 1, j, q);
    } else {
      var P := Arrangements(Remove(L, j));
      var i :| 0 <= i < |P| && P[i] == q;
      assert Append(P, L[j])[i] == q + [L[j]];
    }
  }

  lemma ArrangementLength(L: seq<nat>, p: seq<nat>)
    requires p in Arrangements(L)
    ensures |p| == |L|
  {
    ArrangementsArePermutations(L, p);
    assert |multiset(p)| == |multiset(L)|;
  }

  /** For rows without repetition no ordering is listed twice. */
  lemma {:induction false} ArrangementsDistinct(L: seq<nat>)
    requires Distinct(L)
    ensures Distinct(Arrangements(L))
    decreases |L|, 1, 0
  {
    if L != [] { ArrangementsEndingDistinct(L, |L|); }
  }

  lemma {:induction false} ArrangementsEndingDistinct(L: seq<nat>, m: nat)
    requires Distinct(L) && m <= |L|
    ensures Distinct(ArrangementsEnding(L, m))
    decreases |L|, 0, m
  {
    if m > 0 {
      var E := ArrangementsEnding(L, m - 1);
      var P := Arrangements(Remove(L, m - 1));
      var B := Append(P, L[m - 1]);
      ArrangementsEndingDistinct(L, m - 1);
      ElemsRemove(L, m - 1);
      ArrangementsDistinct(Remove(L, m - 1));
      forall a, b | 0 <= a < b < |B| ensures B[a] != B[b] {
        assert B[a][..|B[a]| - 1] == P[a];
        assert B[b][..|B[b]| - 1] == P[b];
      }
      forall a, b | 0 <= a < |E| && 0 <= b < |B| ensures E[a] != B[b] {
        var j := ArrangementEndingInv(L, m - 1, E[a]);
        assert B[b][|B[b]| - 1] == L[m - 1];
      }
      var EB: seq<seq<nat>> := E + B;
      forall a, b | 0 <= a < b < |EB| ensures EB[a] != EB[b] {
        if b < |E| {
          assert EB[a] == E[a] && EB[b] == E[b];
        } else if a < |E| {
          assert EB[a] == E[a] && EB[b] == B[b - |E|];
        } else {
          assert EB[a] == B[a - |E|] && EB[b] == B[b - |E|];
        }
      }
    }
  }

  lemma {:induction false} ArrangementsCount(L: seq<nat>)
    ensures |Arrangements(L)| == Factorial(|L|)
    decreases |L|, 1, 0
  {
    if L != [] { ArrangementsEndingCount(L, |L|); }
  }

  lemma {:induction false} ArrangementsEndingCount(L: seq<nat>, m: nat)
    requires 0 < |L| && m <= |L|
    ensures |ArrangementsEnding(L, m)| == m * Factorial(|L| - 1)
    decreases |L|, 0, m
  {
    if m > 0 {
      var f := Factorial(|L| - 1);
      ArrangementsEndingCount(L, m - 1);
      ArrangementsCount(Remove(L, m - 1));
      assert |ArrangementsEnding(L, m)| == (m - 1) * f + f;
      assert (m - 1) * f + f == m * f;
    }
  }

  // ---------------------------------------------------------------------------
  // The sum over permutations satisfies the Laplace recursion.

  lemma {:induction false} PermutationSumConcat(A: Matrix, P: seq<seq<nat>>, Q: seq<seq<nat>>, k: nat)
    ensures PermutationSum(A, P + Q, k) == Add(PermutationSum(A, P, k), PermutationSum(A, Q, k))
    decreases |Q|
  {
    if Q == [] {
      assert P + Q == P;
    } else {
      assert (P + Q)[..|P + Q| - 1] == P + Q[..|Q| - 1];
      PermutationSumConcat(A, P, Q[..|Q| - 1], k);
    }
  }

  lemma {:induction false} DiagonalProductPrefix(A: Matrix, p: seq<nat>, x: nat, k: nat)
    requires k <= |p|
    ensures DiagonalProduct(A, p + [x], k) == DiagonalProduct(A, p, k)
  {
    if k > 0 { DiagonalProductPrefix(A, p, x, k - 1); }
  }

  lemma {:induction false} PermutationSumAppend(A: Matrix, P: seq<seq<nat>>, x: nat, k: nat)
    requires 1 <= k
    requires forall i :: 0 <= i < |P| ==> |P[i]| == k - 1
    ensures PermutationSum(A, Append(P, x), k) == Mul(PermutationSum(A, P, k - 1), Entry(A, x, k - 1))
    decreases |P|
  {
    if P == [] {
      MulZero(Entry(A, x, k - 1));
    } else {
      var I := P[..|P| - 1];
      var p := P[|P| - 1];
      assert Append(P, x)[..|P| - 1] == Append(I, x);
      PermutationSumAppend(A, I, x, k);
      DiagonalProductPrefix(A, p, x, k - 1);
      assert (p + [x])[k - 1] == x;
      MulAddLeft(PermutationSum(A, I, k - 1), DiagonalProduct(A, p, k - 1), Entry(A, x, k - 1));
    }
  }

  lemma {:induction false} PermutationSumIsLaplace(A: Matrix, L: seq<nat>)
    ensures PermutationSum(A, Arrangements(L), |L|) == Laplace(A, L, |L|)
    decreases |L|, 1, 0
  {
    if L == [] {
      assert PermutationSum(A, [[]], 0) == Add(PermutationSum(A, [], 0), One);
    } else {
      PermutationSumEndingIsLaplaceSum(A, L, |L|);
    }
  }

  lemma {:induction false} PermutationSumEndingIsLaplaceSum(A: Matrix, L: seq<nat>, m: nat)
    requires 0 < |L| && m <= |L|
    ensures PermutationSum(A, ArrangementsEnding(L, m), |L|) == LaplaceSum(A, L, |L|, m)
    decreases |L|, 0, m
  {
    if m > 0 {
      var R := Remove(L, m - 1);
      var P := Arrangements(R);
      PermutationSumEndingIsLaplaceSum(A, L, m - 1);
      PermutationSumConcat(A, ArrangementsEnding(L, m - 1), Append(P, L[m - 1]), |L|);
      forall i | 0 <= i < |P| ensures |P[i]| == |L| - 1 { ArrangementLength(R, P[i]); }
      PermutationSumAppend(A, P, L[m - 1], |L|);
      PermutationSumIsLaplace(A, R);
      MulComm(Laplace(A, R, |L| - 1), Entry(A, L[m - 1], |L| - 1));
    }
  }

  /** The permanent, as the Laplace expansion along the last column. */
  lemma PermanentIsLaplace(A: Matrix)
    ensures Permanent(A) == Laplace(A, Range(|A|), |A|)
  {
    PermutationSumIsLaplace(A, Range(|A|));
  }
}
