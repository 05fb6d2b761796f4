/** The permanents of a few matrices, computed through what `ryser` returns. */
module PermanentExamples {
  import opened ComplexNumbers
  import opened SubsetSums
  import opened Permanents
  import opened QlabPermanent

  function Identity(n: nat): (A: Matrix)
    ensures |A| == n && forall r :: 0 <= r < n ==> |A[r]| == n
  {
    seq(n, r => seq(n, c => if r == c then One else Zero))
  }

  function AllOnes(n: nat): (A: Matrix)
    ensures |A| == n && forall r :: 0 <= r < n ==> |A[r]| == n
  {
    seq(n, r => seq(n, c => One))
  }

  predicate IsIdentity(I: Matrix, n: nat) {
    forall r, c :: 0 <= r < n && 0 <= c < n ==> Entry(I, r, c) == if r == c then One else Zero
  }

  predicate IsAllOnes(J: Matrix, n: nat) {
    forall r, c :: 0 <= r < n && 0 <= c < n ==> Entry(J, r, c) == One
  }

  /** The expansion of a single row against a single column is that entry. */
  lemma LaplaceOne(A: Matrix, r: nat)
    ensures Laplace(A, [r], 1) == Entry(A, r, 0)
  {
    assert Remove([r], 0) == [];
    assert LaplaceSum(A, [r], 1, 0) == Zero;
    MulOne(Entry(A, r, 0));
  }

  /** Two rows against two columns: both ways of pairing them. */
  lemma LaplaceTwo(A: Matrix, r: nat, s: nat)
    ensures Laplace(A, [r, s], 2)
         == Add(Mul(Entry(A, r, 0), Entry(A, s, 1)), Mul(Entry(A, s, 0), Entry(A, r, 1)))
  {
    assert Remove([r, s], 0) == [s] && Remove([r, s], 1) == [r];
    LaplaceOne(A, r);
    LaplaceOne(A, s);
    var t0 := LaplaceSum(A, [r, s], 2, 0);
    var t1 := LaplaceSum(A, [r, s], 2, 1);
    assert t0 == Zero;
    assert t1 == Add(Zero, Mul(Entry(A, r, 1), Entry(A, s, 0)));
    assert Laplace(A, [r, s], 2) == Add(t1, Mul(Entry(A, s, 1), Entry(A, r, 0)));
    MulComm(Entry(A, r, 1), Entry(A, s, 0));
    MulComm(Entry(A, s, 1), Entry(A, r, 0));
  }

  /** perm [[a, b], [c, d]] = a*d + b*c. */
  lemma TwoByTwo(a: Complex, b: Complex, c: Complex, d: Complex)
    ensures RyserValue([[a, b], [c, d]], 2) == Add(Mul(a, d), Mul(b, c))
  {
    var A: Matrix := [[a, b], [c, d]];
    RyserValueIsPermanent(A);
    PermanentIsLaplace(A);
    assert Range(2) == [0, 1];
    LaplaceTwo(A, 0, 1);
    assert Entry(A, 0, 0) == a && Entry(A, 0, 1) == b && Entry(A, 1, 0) == c && Entry(A, 1, 1) == d;
    MulComm(c, b);
  }

  lemma {:induction false} IdentityLaplace(I: Matrix, n: nat, k: nat)
    requires IsIdentity(I, n) && k <= n
    ensures Laplace(I, Range(k), k) == One
  {
    if k > 0 {
      IdentityLaplaceSum(I, n, k, k - 1);
      assert Remove(Range(k), k - 1) == Range(k - 1);
      IdentityLaplace(I, n, k - 1);
      assert Entry(I, k - 1, k - 1) == One;
      MulOne(One);
    }
  }

  lemma {:induction false} IdentityLaplaceSum(I: Matrix, n: nat, k: nat, m: nat)
    requires IsIdentity(I, n) && 0 < k <= n && m < k
    ensures LaplaceSum(I, Range(k), k, m) == Zero
  {
    if m > 0 {
      IdentityLaplaceSum(I, n, k, m - 1);
      assert Range(k)[m - 1] == m - 1;
      assert Entry(I, m - 1, k - 1) == Zero;
      MulZero(Laplace(I, Remove(Range(k), m - 1), k - 1));
    }
  }

  /** The permanent of the n-by-n identity is one, for every n. */
  lemma IdentityPermanent(n: nat)
    ensures RyserValue(Identity(n), n) == One
    ensures Permanent(Identity(n)) == One
  {
    var I := Identity(n);
    RyserValueIsPermanent(I);
    PermanentIsLaplace(I);
    assert IsIdentity(I, n);
    IdentityLaplace(I, n, n);
  }

  lemma {:induction false} AllOnesLaplace(J: Matrix, n: nat, L: seq<nat>)
    requires IsAllOnes(J, n)
    requires |L| <= n && forall j :: 0 <= j < |L| ==> L[j] < n
    ensures Laplace(J, L, |L|) == FromReal(Factorial(|L|) as real)
    decreases |L|, 1
  {
    if L != [] { AllOnesLaplaceSum(J, n, L, |L|); }
  }

  lemma {:induction false} AllOnesLaplaceSum(J: Matrix, n: nat, L: seq<nat>, m: nat)
    requires IsAllOnes(J, n)
    requires 0 < |L| <= n && forall j :: 0 <= j < |L| ==> L[j] < n
    requires m <= |L|
    ensures LaplaceSum(J, L, |L|, m) == FromReal((m * Factorial(|L| - 1)) as real)
    decreases |L|, 0, m
  {
    if m > 0 {
      var f := Factorial(|L| - 1);
      var R := Remove(L, m - 1);
      AllOnesLaplaceSum(J, n, L, m - 1);
      AllOnesLaplace(J, n, R);
      assert Entry(J, L[m - 1], |L| - 1) == One;
      MulOne(FromReal(f as real));
      assert (m - 1) * f + f == m * f;
      assert ((m - 1) * f) as real + f as real == (m * f) as real;
    }
  }

  /** The permanent of the n-by-n all-ones matrix is n!, for every n. */
  lemma AllOnesPermanent(n: nat)
    ensures RyserValue(AllOnes(n), n) == FromReal(Factorial(n) as real)
    ensures Permanent(AllOnes(n)) == FromReal(Factorial(n) as real)
  {
    var J := AllOnes(n);
    RyserValueIsPermanent(J);
    PermanentIsLaplace(J);
    assert IsAllOnes(J, n);
    AllOnesLaplace(J, n, Range(n));
  }
}
