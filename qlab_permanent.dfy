/** The permanent extension of `qlab.utils` (qlab/utils/src/qlabmodule.c):
    `ryser` walks every subset mask of the rows, multiplies the column sums over
    the selected rows, signs each product by the parity of the mask, and negates
    the total for odd n; `permanent` rejects arrays whose dtype is not complex. */
module QlabPermanent {
  import opened ComplexNumbers
  import opened SubsetSums
  import opened Permanents
  import opened RyserIdentity

  function Pow2(n: nat): (r: nat)
    ensures r >= 1
  {
    if n == 0 then 1 else 2 * Pow2(n - 1)
  }

  /** `(i & (1 << z)) != 0`: bit `z` of `i`, found by halving `i` z times. */
  function Bit(i: nat, z: nat): (b: bool)
    ensures b <==> (i / Pow2(z)) % 2 == 1
  {
    if z == 0 then i % 2 == 1
    else
      HalfDiv(i, Pow2(z - 1));
      Bit(i / 2, z - 1)
  }

  /** Halving, then dividing by p, is dividing by 2p. */
  lemma HalfDiv(i: nat, p: nat)
    requires p >= 1
    ensures (i / 2) / p == i / (2 * p)
  {
    var q, r := i / (2 * p), i % (2 * p);
    assert i == 2 * (p * q) + r && 0 <= r < 2 * p;
    DivUnique(i, 2, p * q + r / 2, r % 2);
    DivUnique(i / 2, p, q, r / 2);
  }

  /** The quotient is the only q with n == d * q + r and 0 <= r < d. */
  lemma DivUnique(n: int, d: int, q: int, r: int)
    requires 0 < d && n == d * q + r && 0 <= r < d
    ensures n / d == q
  {
    var q0, r0 := n / d, n % d;
    assert d * (q - q0) == r0 - r;
    if q > q0 {
      MulAtLeast(d, q - q0);
    } else if q < q0 {
      MulAtLeast(d, q0 - q);
    }
  }

  lemma MulAtLeast(d: int, k: int)
    requires 0 < d && 1 <= k
    ensures d * k >= d
  {
    assert d * k == d * (k - 1) + d;
  }

  /** The number of one bits of `i`. */
  function PopCount(i: nat): nat {
    if i == 0 then 0 else i % 2 + PopCount(i / 2)
  }

  /** `bitparity(i)` of bithacks.h: +1 for an even number of one bits, -1 for an odd one. */
  function BitParity(i: nat): (p: real)
    ensures p * p == 1.0
    ensures i == 0 ==> p == 1.0
  {
    if PopCount(i) % 2 == 0 then 1.0 else -1.0
  }

  /** (-1)^k. */
  function Sign(k: int): real {
    if k % 2 == 0 then 1.0 else -1.0
  }

  /** The rows selected by mask `i` among rows 0 .. n-1. */
  function MaskSet(n: nat, i: nat): set<nat> {
    set z: nat | z < n && Bit(i, z)
  }

  /** The mask that selects the rows of `S` below `n`. */
  function MaskOf(n: nat, S: set<nat>): nat {
    if n == 0 then 0 else MaskOf(n - 1, S) + (if n - 1 in S then Pow2(n - 1) else 0)
  }

  /** sum over the masks i < m of  bitparity(i) * h(rows of i),  in increasing i. */
  function MaskSum(n: nat, m: nat, h: SetFn): Complex {
    if m == 0 then Zero else Add(MaskSum(n, m - 1, h), Scale(h(MaskSet(n, m - 1)), BitParity(m - 1)))
  }

  /** What `ryser` returns for the n-by-n matrix `A`, in exact arithmetic. */
  function RyserValue(A: Matrix, n: nat): Complex {
    var s := MaskSum(n, Pow2(n), ProductFn(A, n, n));
    if n % 2 == 1 then Scale(s, -1.0) else s
  }

  /** The same sum with every term carrying its net sign (-1)^(n - |S|) explicitly. */
  function SignedTerms(A: Matrix, n: nat, m: nat): Complex {
    if m == 0 then Zero
    else
      var S := MaskSet(n, m - 1);
      Add(SignedTerms(A, n, m - 1), Scale(ColumnProduct(A, n, S, n), Sign(n - |S|)))
  }

  // ---------------------------------------------------------------------------
  // Bits of i and of i + 2^n.

  lemma {:induction false} BitsAboveZero(n: nat, i: nat, z: nat)
    requires i < Pow2(n) && n <= z
    ensures !Bit(i, z)
  {
    if n == 0 {
      assert i == 0;
      if z > 0 { BitsAboveZero(0, 0, z - 1); }
    } else {
      assert i / 2 < Pow2(n - 1);
      BitsAboveZero(n - 1, i / 2, z - 1);
    }
  }

  lemma {:induction false} BitsOfHigh(n: nat, i: nat, z: nat)
    requires i < Pow2(n) && z <= n
    ensures Bit(i + Pow2(n), z) == (z == n || Bit(i, z))
  {
    if z == 0 {
      if n == 0 { assert i == 0; }
    } else {
      assert (i + Pow2(n)) / 2 == i / 2 + Pow2(n - 1);
      BitsOfHigh(n - 1, i / 2, z - 1);
    }
  }

  lemma {:induction false} PopCountHigh(n: nat, i: nat)
    requires i < Pow2(n)
    ensures PopCount(i + Pow2(n)) == PopCount(i) + 1
  {
    var j := i + Pow2(n);
    if n == 0 {
      assert i == 0 && j == 1;
      PopCountStep(j);
    } else {
      var h := Pow2(n - 1);
      assert j == i + 2 * h;
      HalfOfDouble(i, h);
      PopCountHigh(n - 1, i / 2);
      PopCountCombine(i, j, h);
    }
  }

  lemma PopCountCombine(i: nat, j: nat, h: nat)
    requires j % 2 == i % 2 && j / 2 == i / 2 + h
    requires PopCount(i / 2 + h) == PopCount(i / 2) + 1
    ensures PopCount(j) == PopCount(i) + 1
  {
    PopCountStep(i);
    PopCountStep(j);
  }

  lemma HalfOfDouble(i: nat, h: nat)
    requires i < 2 * h
    ensures (i + 2 * h) % 2 == i % 2 && (i + 2 * h) / 2 == i / 2 + h && i / 2 < h
  {
  }

  lemma PopCountStep(i: nat)
    ensures PopCount(i) == i % 2 + PopCount(i / 2)
  {
  }

  lemma MaskSetLow(n: nat, i: nat)
    requires i < Pow2(n)
    ensures MaskSet(n + 1, i) == MaskSet(n, i)
  {
    BitsAboveZero(n, i, n);
  }

  lemma MaskSetHigh(n: nat, i: nat)
    requires i < Pow2(n)
    ensures MaskSet(n + 1, i + Pow2(n)) == MaskSet(n, i) + {n}
  {
    forall z: nat ensures z in MaskSet(n + 1, i + Pow2(n)) <==> z in MaskSet(n, i) + {n} {
      if z <= n { BitsOfHigh(n, i, z); }
    }
  }

  /** A mask below 2^n selects exactly PopCount(i) rows. */
  lemma {:induction false} MaskSetSize(n: nat, i: nat)
    requires i < Pow2(n)
    ensures |MaskSet(n, i)| == PopCount(i) <= n
  {
    if n == 0 {
      assert MaskSet(0, i) == {};
    } else if i < Pow2(n - 1) {
      MaskSetLow(n - 1, i);
      MaskSetSize(n - 1, i);
    } else {
      var j := i - Pow2(n - 1);
      MaskSetHigh(n - 1, j);
      PopCountHigh(n - 1, j);
      MaskSetSize(n - 1, j);
      assert n - 1 !in MaskSet(n - 1, j);
    }
  }

  /** Masks and row sets below n are in one-to-one correspondence: the outer loop of
      `ryser`, over i in [0, 2^n), visits every subset of the rows exactly once. */
  lemma {:induction false} MaskRoundTrip(n: nat, i: nat)
    requires i < Pow2(n)
    ensures MaskOf(n, MaskSet(n, i)) == i
  {
    if n > 0 {
      if i < Pow2(n - 1) {
        MaskSetLow(n - 1, i);
        MaskOfAgree(n - 1, MaskSet(n, i), MaskSet(n - 1, i));
        MaskRoundTrip(n - 1, i);
      } else {
        var j := i - Pow2(n - 1);
        MaskSetHigh(n - 1, j);
        MaskOfAgree(n - 1, MaskSet(n, i), MaskSet(n - 1, j));
        MaskRoundTrip(n - 1, j);
      }
    }
  }

  lemma {:induction false} MaskOfAgree(n: nat, S: set<nat>, T: set<nat>)
    requires forall z :: 0 <= z < n ==> (z in S <==> z in T)
    ensures MaskOf(n, S) == MaskOf(n, T)
  {
    if n > 0 { MaskOfAgree(n - 1, S, T); }
  }

  lemma {:induction false} SetRoundTrip(n: nat, S: set<nat>)
    ensures MaskOf(n, S) < Pow2(n)
    ensures MaskSet(n, MaskOf(n, S)) == set z: nat | z < n && z in S
  {
    if n > 0 {
      var i := MaskOf(n - 1, S);
      SetRoundTrip(n - 1, S);
      if n - 1 in S {
        MaskSetHigh(n - 1, i);
      } else {
        MaskSetLow(n - 1, i);
      }
    }
  }

  // ---------------------------------------------------------------------------
  // The mask sum is the alternating subset sum.

  lemma {:induction false} MaskSumCongruent(n: nat, m: nat, g: SetFn, h: SetFn)
    requires forall i :: 0 <= i < m ==> g(MaskSet(n, i)) == h(MaskSet(n, i))
    ensures MaskSum(n, m, g) == MaskSum(n, m, h)
  {
    if m > 0 { MaskSumCongruent(n, m - 1, g, h); }
  }

  lemma {:induction false} MaskSumLow(n: nat, m: nat, h: SetFn)
    requires m <= Pow2(n)
    ensures MaskSum(n + 1, m, h) == MaskSum(n, m, h)
  {
    if m > 0 {
      MaskSumLow(n, m - 1, h);
      MaskSetLow(n, m - 1);
    }
  }

  lemma {:induction false} MaskSumHigh(n: nat, m: nat, h: SetFn)
    requires m <= Pow2(n)
    ensures MaskSum(n + 1, Pow2(n) + m, h) == Sub(MaskSum(n, Pow2(n), h), MaskSum(n, m, Shift(h, n)))
  {
    if m == 0 {
      MaskSumLow(n, Pow2(n), h);
    } else {
      MaskSumHigh(n, m - 1, h);
      HighStep(n, m, h, MaskSum(n, Pow2(n), h));
    }
  }

  /** One more mask of the upper half keeps the mask sum the low half minus the shifted sum. */
  lemma HighStep(n: nat, m: nat, h: SetFn, low: Complex)
    requires 1 <= m <= Pow2(n)
    requires MaskSum(n + 1, Pow2(n) + (m - 1), h) == Sub(low, MaskSum(n, m - 1, Shift(h, n)))
    ensures MaskSum(n + 1, Pow2(n) + m, h) == Sub(low, MaskSum(n, m, Shift(h, n)))
  {
    HighMaskTerm(n, m, h);
    ShiftedMaskTerm(n, m, h);
    HighTerm(MaskSum(n + 1, Pow2(n) + m, h), MaskSum(n, m, Shift(h, n)),
             low, MaskSum(n, m - 1, Shift(h, n)), h(MaskSet(n, m - 1) + {n}), BitParity(m - 1));
  }

  /** The term of mask 2^n + i: the rows of i and row n, with the parity of i flipped. */
  lemma HighMaskTerm(n: nat, m: nat, h: SetFn)
    requires 1 <= m <= Pow2(n)
    ensures MaskSum(n + 1, Pow2(n) + m, h) == Add(MaskSum(n + 1, Pow2(n) + (m - 1), h), Scale(h(MaskSet(n, m - 1) + {n}), -BitParity(m - 1)))
  {
    var i := m - 1;
    MaskSetHigh(n, i);
    PopCountHigh(n, i);
    ParityFlip(i, i + Pow2(n));
  }

  /** The term of mask i in the sum over the shifted function. */
  lemma ShiftedMaskTerm(n: nat, m: nat, h: SetFn)
    requires 1 <= m
    ensures MaskSum(n, m, Shift(h, n)) == Add(MaskSum(n, m - 1, Shift(h, n)), Scale(h(MaskSet(n, m - 1) + {n}), BitParity(m - 1)))
  {
    assert Shift(h, n)(MaskSet(n, m - 1)) == h(MaskSet(n, m - 1) + {n});
  }

  lemma SignStep(k: nat)
    ensures Sign(k + 1) == -Sign(k)
  {
  }

  /** One more set bit flips the parity. */
  lemma ParityFlip(i: nat, j: nat)
    requires PopCount(j) == PopCount(i) + 1
    ensures BitParity(j) == -BitParity(i)
  {
    OddAfterEven(PopCount(i));
  }

  lemma OddAfterEven(p: nat)
    ensures ((p + 1) % 2 == 0) == (p % 2 != 0)
  {
  }

  lemma HighTerm(high: Complex, shifted: Complex, x: Complex, y: Complex, t: Complex, b: real)
    requires high == Add(Sub(x, y), Scale(t, -b)) && shifted == Add(y, Scale(t, b))
    ensures high == Sub(x, shifted)
  {}

  lemma AltStep(a: Complex, a': Complex, s: real)
    ensures Sub(Scale(a, s), Scale(a', s)) == Scale(Sub(a', a), -s)
  {}

  lemma {:induction false} MaskSumIsAltSum(n: nat, h: SetFn)
    ensures MaskSum(n, Pow2(n), h) == Scale(AltSum(Range(n), h), Sign(n))
  {
    if n == 0 {
      assert MaskSet(0, 0) == {};
    } else {
      var k := n - 1;
      assert Pow2(n) == Pow2(k) + Pow2(k);
      MaskSumHigh(k, Pow2(k), h);
      MaskSumIsAltSum(k, h);
      MaskSumIsAltSum(k, Shift(h, k));
      assert Range(n)[..k] == Range(k);
      assert AltSum(Range(n), h) == Sub(AltSum(Range(k), Shift(h, k)), AltSum(Range(k), h));
      AltStep(AltSum(Range(k), h), AltSum(Range(k), Shift(h, k)), Sign(k));
      SignStep(k);
    }
  }

  /** The loops of `ryser` compute Ryser's alternating subset sum over rows 0 .. n-1. */
  lemma RyserValueIsAltSum(A: Matrix, n: nat)
    ensures RyserValue(A, n) == RyserOver(A, n, Range(n), n)
  {
    MaskSumIsAltSum(n, ProductFn(A, n, n));
  }

  /** The term of mask i carries the net sign (-1)^(n - |S|): bitparity gives
      (-1)^|S| and the final negation for odd n gives (-1)^n. */
  lemma RyserSigns(A: Matrix, n: nat)
    ensures RyserValue(A, n) == SignedTerms(A, n, Pow2(n))
  {
    SignedTermsScale(A, n, Pow2(n));
  }

  lemma {:induction false} SignedTermsScale(A: Matrix, n: nat, m: nat)
    requires m <= Pow2(n)
    ensures SignedTerms(A, n, m) == Scale(MaskSum(n, m, ProductFn(A, n, n)), Sign(n))
  {
    if m > 0 {
      var S := MaskSet(n, m - 1);
      var t := ColumnProduct(A, n, S, n);
      var P := ProductFn(A, n, n);
      assert P(S) == t;
      SignedTermsScale(A, n, m - 1);
      SignedTerm(t, n, m - 1);
      SignedSumStep(SignedTerms(A, n, m - 1), MaskSum(n, m - 1, P), t, BitParity(m - 1), Sign(n), Sign(n - |S|));
    }
  }

  /** Adding one term to both sides keeps the signed sum (-1)^n times the parity sum. */
  lemma SignedSumStep(signed: Complex, masked: Complex, t: Complex, b: real, s: real, s': real)
    requires signed == Scale(masked, s) && Scale(t, s') == Scale(Scale(t, b), s)
    ensures Add(signed, Scale(t, s')) == Scale(Add(masked, Scale(t, b)), s)
  {
    ScaleAdd(masked, Scale(t, b), s);
  }

  /** One term: the mask's parity times (-1)^n is (-1)^(n - |S|). */
  lemma SignedTerm(t: Complex, n: nat, i: nat)
    requires i < Pow2(n)
    ensures Scale(t, Sign(n - |MaskSet(n, i)|)) == Scale(Scale(t, BitParity(i)), Sign(n))
  {
    MaskSetSize(n, i);
    ScaleScale(t, BitParity(i), Sign(n));
    SignProduct(PopCount(i), n);
  }

  lemma SignProduct(p: nat, n: nat)
    requires p <= n
    ensures (if p % 2 == 0 then 1.0 else -1.0) * Sign(n) == Sign(n - p)
  {}

  /** The empty mask i = 0 contributes nothing once there is at least one column. */
  lemma EmptyMaskTerm(A: Matrix, n: nat)
    requires n >= 1
    ensures MaskSet(n, 0) == {}
    ensures ColumnProduct(A, n, MaskSet(n, 0), n) == Zero
  {
    assert MaskSet(n, 0) == {} by {
      forall z: nat | z < n ensures !Bit(0, z) { BitsAboveZero(0, 0, z); }
    }
    ColumnSumEmpty(A, n - 1, n);
    MulZero(ColumnProduct(A, n, {}, n - 1));
  }

  /** Ryser's formula as computed by `ryser` equals the permanent. */
  lemma RyserValueIsPermanent(A: Matrix)
    ensures RyserValue(A, |A|) == Permanent(A)
  {
    RyserValueIsAltSum(A, |A|);
    RyserIsPermanent(A);
  }

  // ---------------------------------------------------------------------------
  // The C functions.

  /** The rows of the numpy array, read as a matrix (`SM(z, y)` is `M[z, y]`). */
  function Rows(M: array2<Complex>): (A: Matrix)
    reads M
    ensures |A| == M.Length0
    ensures forall r :: 0 <= r < M.Length0 ==> |A[r]| == M.Length1
    ensures forall r, c :: 0 <= r < M.Length0 && 0 <= c < M.Length1 ==> A[r][c] == M[r, c]
  {
    seq(M.Length0, r requires 0 <= r < M.Length0 reads M =>
      seq(M.Length1, c requires 0 <= c < M.Length1 reads M => M[r, c]))
  }

  /** The innermost loop of `ryser`: `rowsum`, the sum of column `y` over the rows
      whose bit is set in mask `i`. */
  method MaskedColumnSum(M: array2<Complex>, i: nat, y: nat) returns (rowsum: Complex)
    requires M.Length0 <= M.Length1 && y < M.Length1
    ensures rowsum == ColumnSum(Rows(M), MaskSet(M.Length0, i), y, M.Length0)
  {
    var n := M.Length0;
    ghost var A := Rows(M);
    ghost var S := MaskSet(n, i);
    rowsum := Zero;
    var z := 0;
    while z < n
      invariant 0 <= z <= n
      invariant rowsum == ColumnSum(A, S, y, z)
    {
      assert z in S <==> Bit(i, z);
      if Bit(i, z) {
        assert Entry(A, z, y) == M[z, y];
        rowsum := Add(rowsum, M[z, y]);
      }
      z := z + 1;
    }
  }

  /** The middle loop of `ryser`: `rowsumprod`, the product over the columns of
      the column sums over the rows of mask `i`. */
  method MaskedProduct(M: array2<Complex>, i: nat) returns (rowsumprod: Complex)
    requires M.Length0 <= M.Length1
    ensures rowsumprod == ProductFn(Rows(M), M.Length0, M.Length0)(MaskSet(M.Length0, i))
  {
    var n := M.Length0;
    ghost var A := Rows(M);
    ghost var S := MaskSet(n, i);
    rowsumprod := One;
    var y := 0;
    while y < n
      invariant 0 <= y <= n
      invariant rowsumprod == ColumnProduct(A, n, S, y)
    {
      var rowsum := MaskedColumnSum(M, i, y);
      rowsumprod := Mul(rowsumprod, rowsum);
      y := y + 1;
    }
  }

  /** `ryser`: n is the first dimension of the array and only its leading n-by-n
      block is read, so there must be at least n columns; `1 << n` must fit in a C `int`. */
  method Ryser(M: array2<Complex>) returns (perm: Complex)
    requires M.Length0 <= M.Length1
    requires M.Length0 <= 30
    ensures perm == RyserValue(Rows(M), M.Length0)
    ensures perm == Permanent(Rows(M))
  {
    var n := M.Length0;
    ghost var A := Rows(M);
    ghost var P := ProductFn(A, n, n);
    perm := Zero;
    var exp := Pow2(n);
    var i := 0;
    while i < exp
      invariant 0 <= i <= exp
      invariant perm == MaskSum(n, i, P)
    {
      var rowsumprod := MaskedProduct(M, i);
      perm := Add(perm, Scale(rowsumprod, BitParity(i)));
      i := i + 1;
    }
    if n % 2 == 1 {
      perm := Scale(perm, -1.0);
    }
    RyserValueIsPermanent(A);
  }

  datatype DType = Bool | Int64 | Float64 | Complex64 | Complex128 | CLongDouble | Object

  /** `PyArray_ISCOMPLEX`. */
  predicate IsComplexType(d: DType) {
    d == Complex64 || d == Complex128 || d == CLongDouble
  }

  datatype PyError = TypeError(message: string)

  datatype Result<T> = Ok(value: T) | Err(error: PyError)

  /** `permanent(a)`: a TypeError for a non-complex array, otherwise Ryser's value.
      `ryser` reads every entry as a `complex128`, so only for that dtype is the
      value the permanent of the array's entries; other complex dtypes still
      return a value, which this model does not describe. */
  method PermanentOf(dtype: DType, M: array2<Complex>) returns (r: Result<Complex>)
    requires IsComplexType(dtype) ==> M.Length0 <= M.Length1 && M.Length0 <= 30
    ensures !IsComplexType(dtype) ==> r == Err(TypeError("Array dtype must be `complex`."))
    ensures IsComplexType(dtype) ==> r.Ok?
    ensures dtype == Complex128 ==> r == Ok(Permanent(Rows(M)))
  {
    if !IsComplexType(dtype) {
      return Err(TypeError("Array dtype must be `complex`."));
    }
    var p := Ryser(M);
    return Ok(p);
  }
}
