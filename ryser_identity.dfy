/** Ryser's identity: for rows listed without repetition, the inclusion-exclusion
    sum over subsets of rows equals the permanent. The proof follows the last
    column: both sides satisfy the same recursion in the number of columns. */
module RyserIdentity {
  import opened ComplexNumbers
  import opened SubsetSums
  import opened Sequences
  import opened Permanents

  predicate RowsBelow(L: seq<nat>, n: nat) { forall j :: 0 <= j < |L| ==> L[j] < n }

  /** The column sum over `S`, taken along the list `L[0 .. m-1]` instead of along 0 .. n-1. */
  function ListColumnSum(A: Matrix, L: seq<nat>, S: set<nat>, y: nat, m: nat): Complex
    requires m <= |L|
  {
    if m == 0 then Zero
    else Add(ListColumnSum(A, L, S, y, m - 1), if L[m - 1] in S then Entry(A, L[m - 1], y) else Zero)
  }

  function Indicator(x: nat, g: SetFn): SetFn { S => if x in S then g(S) else Zero }

  /** sum over j < m of  A[L[j]][c] * (L[j] in S ? ColumnProduct(S, c) : 0). */
  function TermSum(A: Matrix, n: nat, L: seq<nat>, c: nat, m: nat, S: set<nat>): Complex
    requires m <= |L|
  {
    if m == 0 then Zero
    else Add(TermSum(A, n, L, c, m - 1, S), Mul(Entry(A, L[m - 1], c), Indicator(L[m - 1], ProductFn(A, n, c))(S)))
  }

  function StepTerms(A: Matrix, n: nat, L: seq<nat>, c: nat, m: nat): SetFn
    requires m <= |L|
  {
    S => TermSum(A, n, L, c, m, S)
  }

  /** The right-hand side of the column recursion of Ryser's sum. */
  function StepSum(A: Matrix, n: nat, L: seq<nat>, c: nat, m: nat): Complex
    requires m <= |L|
  {
    if m == 0 then Zero
    else Add(StepSum(A, n, L, c, m - 1),
             Mul(Entry(A, L[m - 1], c), Add(RyserOver(A, n, L, c), RyserOver(A, n, Remove(L, m - 1), c))))
  }

  // ---------------------------------------------------------------------------
  // Column sums along 0 .. n-1 and along a list of the rows.

  lemma {:induction false} ColumnSumAgree(A: Matrix, S: set<nat>, T: set<nat>, y: nat, z: nat)
    requires forall r :: 0 <= r < z ==> (r in S <==> r in T)
    ensures ColumnSum(A, S, y, z) == ColumnSum(A, T, y, z)
  {
    if z > 0 { ColumnSumAgree(A, S, T, y, z - 1); }
  }

  lemma {:induction false} ColumnSumSplit(A: Matrix, S: set<nat>, y: nat, z: nat, x: nat)
    requires x < z
    ensures ColumnSum(A, S, y, z) == Add(ColumnSum(A, S - {x}, y, z), if x in S then Entry(A, x, y) else Zero)
  {
    if x == z - 1 {
      ColumnSumAgree(A, S, S - {x}, y, z - 1);
    } else {
      ColumnSumSplit(A, S, y, z - 1, x);
    }
  }

  lemma {:induction false} ListColumnSumDrop(A: Matrix, L: seq<nat>, S: set<nat>, y: nat, m: nat, x: nat)
    requires L != [] && m < |L| && forall j :: 0 <= j < m ==> L[j] != x
    ensures ListColumnSum(A, L, S, y, m) == ListColumnSum(A, L[..|L| - 1], S - {x}, y, m)
  {
    if m > 0 { ListColumnSumDrop(A, L, S, y, m - 1, x); }
  }

  lemma {:induction false} ColumnSumOverList(A: Matrix, n: nat, L: seq<nat>, S: set<nat>, y: nat)
    requires Distinct(L) && RowsBelow(L, n) && S <= Elems(L)
    ensures ColumnSum(A, S, y, n) == ListColumnSum(A, L, S, y, |L|)
    decreases |L|
  {
    if L == [] {
      assert S == {};
      ColumnSumAgree(A, S, {}, y, n);
      ColumnSumEmpty(A, y, n);
    } else {
      var I, x := L[..|L| - 1], L[|L| - 1];
      ElemsInit(L);
      assert x !in Elems(I);
      ColumnSumSplit(A, S, y, n, x);
      ListColumnSumDrop(A, L, S, y, |I|, x);
      ColumnSumOverList(A, n, I, S - {x}, y);
    }
  }

  lemma {:induction false} ColumnSumEmpty(A: Matrix, y: nat, z: nat)
    ensures ColumnSum(A, {}, y, z) == Zero
  {
    if z > 0 { ColumnSumEmpty(A, y, z - 1); }
  }

  // ---------------------------------------------------------------------------
  // One more column: the product distributes over the rows of the last column sum.

  lemma {:induction false} MulListColumnSum(A: Matrix, n: nat, L: seq<nat>, c: nat, m: nat, S: set<nat>)
    requires m <= |L|
    ensures Mul(ColumnProduct(A, n, S, c), ListColumnSum(A, L, S, c, m)) == TermSum(A, n, L, c, m, S)
  {
    var P := ColumnProduct(A, n, S, c);
    if m == 0 {
      MulZero(P);
    } else {
      var x := L[m - 1];
      MulListColumnSum(A, n, L, c, m - 1, S);
      MulAddRight(P, ListColumnSum(A, L, S, c, m - 1), if x in S then Entry(A, x, c) else Zero);
      if x in S {
        MulComm(P, Entry(A, x, c));
      } else {
        MulZero(P);
        MulZero(Entry(A, x, c));
      }
    }
  }

  lemma ProductAsTerms(A: Matrix, n: nat, L: seq<nat>, c: nat, S: set<nat>)
    requires Distinct(L) && RowsBelow(L, n) && S <= Elems(L)
    ensures ColumnProduct(A, n, S, c + 1) == TermSum(A, n, L, c, |L|, S)
  {
    ColumnSumOverList(A, n, L, S, c);
    MulListColumnSum(A, n, L, c, |L|, S);
  }

  /** Restricting Ryser's sum to the subsets that contain row `L[j]`. */
  lemma IndicatorSum(A: Matrix, n: nat, L: seq<nat>, j: nat, c: nat)
    requires Distinct(L) && j < |L|
    ensures AltSum(L, Indicator(L[j], ProductFn(A, n, c)))
         == Add(RyserOver(A, n, L, c), RyserOver(A, n, Remove(L, j), c))
  {
    var x, P, R := L[j], ProductFn(A, n, c), Remove(L, j);
    ElemsRemove(L, j);
    AltSumPullOut(L, j, Indicator(x, P));
    AltSumPullOut(L, j, P);
    forall S | S <= Elems(R) ensures Shift(Indicator(x, P), x)(S) == Shift(P, x)(S) {}
    AltSumCongruent(R, Shift(Indicator(x, P), x), Shift(P, x));
    forall S | S <= Elems(R) ensures Indicator(x, P)(S) == Const(Zero)(S) {}
    AltSumCongruent(R, Indicator(x, P), Const(Zero));
    AltSumConst(R, Zero);
  }

  lemma {:induction false} AltSumStepTerms(A: Matrix, n: nat, L: seq<nat>, c: nat, m: nat)
    requires Distinct(L) && m <= |L|
    ensures AltSum(L, StepTerms(A, n, L, c, m)) == StepSum(A, n, L, c, m)
  {
    if m == 0 {
      AltSumCongruent(L, StepTerms(A, n, L, c, 0), Const(Zero));
      AltSumConst(L, Zero);
    } else {
      var x := L[m - 1];
      var e := Entry(A, x, c);
      var G := Indicator(x, ProductFn(A, n, c));
      AltSumCongruent(L, StepTerms(A, n, L, c, m), Plus(StepTerms(A, n, L, c, m - 1), Times(e, G)));
      AltSumAdd(L, StepTerms(A, n, L, c, m - 1), Times(e, G));
      AltSumTimes(L, e, G);
      AltSumStepTerms(A, n, L, c, m - 1);
      IndicatorSum(A, n, L, m - 1, c);
    }
  }

  /** The column recursion: Ryser's sum over k + 1 columns, expanded along the last one. */
  lemma RyserStep(A: Matrix, n: nat, L: seq<nat>, c: nat)
    requires Distinct(L) && RowsBelow(L, n)
    ensures RyserOver(A, n, L, c + 1) == StepSum(A, n, L, c, |L|)
  {
    forall S | S <= Elems(L) ensures ProductFn(A, n, c + 1)(S) == StepTerms(A, n, L, c, |L|)(S) {
      ProductAsTerms(A, n, L, c, S);
    }
    AltSumCongruent(L, ProductFn(A, n, c + 1), StepTerms(A, n, L, c, |L|));
    AltSumStepTerms(A, n, L, c, |L|);
  }

  lemma RemoveRowsBelow(L: seq<nat>, n: nat, j: nat)
    requires Distinct(L) && RowsBelow(L, n) && j < |L|
    ensures Distinct(Remove(L, j)) && RowsBelow(Remove(L, j), n)
  {
    ElemsRemove(L, j);
  }

  /** With more rows than columns some row is never chosen: the sum vanishes. */
  lemma {:induction false} RyserVanishes(A: Matrix, n: nat, L: seq<nat>, k: nat)
    requires Distinct(L) && RowsBelow(L, n) && |L| > k
    ensures RyserOver(A, n, L, k) == Zero
    decreases k, 1, 0
  {
    if k == 0 {
      AltSumCongruent(L, ProductFn(A, n, 0), Const(One));
      AltSumConst(L, One);
    } else {
      RyserStep(A, n, L, k - 1);
      RyserVanishes(A, n, L, k - 1);
      StepSumVanishes(A, n, L, k - 1, |L|);
    }
  }

  lemma {:induction false} StepSumVanishes(A: Matrix, n: nat, L: seq<nat>, c: nat, m: nat)
    requires Distinct(L) && RowsBelow(L, n) && |L| > c + 1 && m <= |L|
    requires RyserOver(A, n, L, c) == Zero
    ensures StepSum(A, n, L, c, m) == Zero
    decreases c + 1, 0, m
  {
    if m > 0 {
      StepSumVanishes(A, n, L, c, m - 1);
      RemoveRowsBelow(L, n, m - 1);
      RyserVanishes(A, n, Remove(L, m - 1), c);
      MulZero(Entry(A, L[m - 1], c));
    }
  }

  /** With as many rows as columns, Ryser's sum is the Laplace expansion. */
  lemma {:induction false} RyserIsLaplace(A: Matrix, n: nat, L: seq<nat>)
    requires Distinct(L) && RowsBelow(L, n)
    ensures RyserOver(A, n, L, |L|) == Laplace(A, L, |L|)
    decreases |L|
  {
    if L != [] {
      var c := |L| - 1;
      RyserStep(A, n, L, c);
      RyserVanishes(A, n, L, c);
      StepSumIsLaplaceSum(A, n, L, |L|);
    }
  }

  lemma {:induction false} StepSumIsLaplaceSum(A: Matrix, n: nat, L: seq<nat>, m: nat)
    requires Distinct(L) && RowsBelow(L, n) && 0 < |L| && m <= |L|
    requires RyserOver(A, n, L, |L| - 1) == Zero
    ensures StepSum(A, n, L, |L| - 1, m) == LaplaceSum(A, L, |L|, m)
    decreases |L|, m
  {
    if m > 0 {
      StepSumIsLaplaceSum(A, n, L, m - 1);
      RemoveRowsBelow(L, n, m - 1);
      RyserIsLaplace(A, n, Remove(L, m - 1));
    }
  }

  /** Ryser's identity for an n-by-n matrix: the signed sum over all subsets of the
      rows 0 .. n-1 equals the permanent. */
  lemma RyserIsPermanent(A: Matrix)
    ensures RyserOver(A, |A|, Range(|A|), |A|) == Permanent(A)
  {
    var n := |A|;
    assert Distinct(Range(n));
    RyserIsLaplace(A, n, Range(n));
    PermanentIsLaplace(A);
  }
}
