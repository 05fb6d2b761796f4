/** Signed sums over the subsets of a finite set of rows: the inclusion-exclusion
    sum that Ryser's formula is built from. */
module SubsetSums {
  import opened ComplexNumbers
  import opened Sequences

  type SetFn = set<nat> -> Complex

  function Elems(L: seq<nat>): set<nat> { set x | x in L }

  /** `L` with its `j`-th element taken out. */
  function Remove(L: seq<nat>, j: nat): (r: seq<nat>)
    requires j < |L|
    ensures |r| == |L| - 1
    ensures forall a :: 0 <= a < j ==> r[a] == L[a]
    ensures forall a :: j <= a < |r| ==> r[a] == L[a + 1]
  {
    L[..j] + L[j + 1..]
  }

  /** `S => g(S + {x})`: the same function seen from the subsets that contain `x`. */
  function Shift(g: SetFn, x: nat): SetFn { S => g(S + {x}) }

  function Plus(f: SetFn, g: SetFn): SetFn { S => Add(f(S), g(S)) }

  function Times(c: Complex, g: SetFn): SetFn { S => Mul(c, g(S)) }

  function Const(c: Complex): SetFn { S => c }

  /** The signed subset sum  sum over S within Elems(L) of (-1)^(|L| - |S|) * g(S),
      unfolded along the last element x of L: the subsets that contain x count
      positively, those that do not count negatively. */
  function AltSum(L: seq<nat>, g: SetFn): Complex
    decreases |L|
  {
    if L == [] then g({})
    else
      var I := L[..|L| - 1];
      Sub(AltSum(I, Shift(g, L[|L| - 1])), AltSum(I, g))
  }

  lemma ElemsInit(L: seq<nat>)
    requires L != []
    ensures Elems(L) == Elems(L[..|L| - 1]) + {L[|L| - 1]}
  {
    var I := L[..|L| - 1];
    forall x ensures x in Elems(L) <==> x in Elems(I) + {L[|L| - 1]} {
      if x in Elems(L) {
        var a :| 0 <= a < |L| && L[a] == x;
        if a < |L| - 1 { assert I[a] == x; }
      }
    }
  }

  lemma ElemsRemove(L: seq<nat>, j: nat)
    requires j < |L| && Distinct(L)
    ensures Elems(Remove(L, j)) == Elems(L) - {L[j]}
    ensures Distinct(Remove(L, j))
  {
    var R := Remove(L, j);
    forall x ensures x in Elems(R) <==> x in Elems(L) - {L[j]} {
      if x in Elems(L) - {L[j]} {
        var a :| 0 <= a < |L| && L[a] == x;
        if a < j { assert R[a] == x; } else { assert R[a - 1] == x; }
      }
    }
  }

  /** Only the values of `g` on subsets of `Elems(L)` matter. */
  lemma {:induction false} AltSumCongruent(L: seq<nat>, g: SetFn, h: SetFn)
    requires forall S :: S <= Elems(L) ==> g(S) == h(S)
    ensures AltSum(L, g) == AltSum(L, h)
    decreases |L|
  {
    if L != [] {
      var I, x := L[..|L| - 1], L[|L| - 1];
      ElemsInit(L);
      forall S | S <= Elems(I) ensures Shift(g, x)(S) == Shift(h, x)(S) {
        assert S + {x} <= Elems(L);
      }
      AltSumCongruent(I, Shift(g, x), Shift(h, x));
      AltSumCongruent(I, g, h);
    }
  }

  lemma {:induction false} AltSumAdd(L: seq<nat>, f: SetFn, g: SetFn)
    ensures AltSum(L, Plus(f, g)) == Add(AltSum(L, f), AltSum(L, g))
    decreases |L|
  {
    if L != [] {
      var I, x := L[..|L| - 1], L[|L| - 1];
      AltSumCongruent(I, Shift(Plus(f, g), x), Plus(Shift(f, x), Shift(g, x)));
      AltSumAdd(I, Shift(f, x), Shift(g, x));
      AltSumAdd(I, f, g);
    }
  }

  lemma {:induction false} AltSumTimes(L: seq<nat>, c: Complex, g: SetFn)
    ensures AltSum(L, Times(c, g)) == Mul(c, AltSum(L, g))
    decreases |L|
  {
    if L != [] {
      var I, x := L[..|L| - 1], L[|L| - 1];
      AltSumCongruent(I, Shift(Times(c, g), x), Times(c, Shift(g, x)));
      AltSumTimes(I, c, Shift(g, x));
      AltSumTimes(I, c, g);
      MulSubRight(c, AltSum(I, Shift(g, x)), AltSum(I, g));
    }
  }

  /** A constant cancels out of every non-empty alternating sum. */
  lemma {:induction false} AltSumConst(L: seq<nat>, c: Complex)
    ensures AltSum(L, Const(c)) == if L == [] then c else Zero
    decreases |L|
  {
    if L != [] {
      var I, x := L[..|L| - 1], L[|L| - 1];
      AltSumCongruent(I, Shift(Const(c), x), Const(c));
      AltSumConst(I, c);
    }
  }

  /** Any element of `L`, not only the last, can be pulled out of the sum. */
  lemma {:induction false} AltSumPullOut(L: seq<nat>, j: nat, g: SetFn)
    requires j < |L|
    ensures AltSum(L, g) == Sub(AltSum(Remove(L, j), Shift(g, L[j])), AltSum(Remove(L, j), g))
    decreases |L|
  {
    var I, t := L[..|L| - 1], L[|L| - 1];
    if j == |L| - 1 {
      assert Remove(L, j) == I;
    } else {
      var x := L[j];
      var I' := Remove(I, j);
      assert I[j] == x;
      assert Remove(L, j) == I' + [t];
      assert (I' + [t])[..|I'|] == I';
      AltSumPullOut(I, j, Shift(g, t));
      AltSumPullOut(I, j, g);
      forall S ensures Shift(Shift(g, t), x)(S) == Shift(Shift(g, x), t)(S) {
        assert S + {x} + {t} == S + {t} + {x};
      }
      AltSumCongruent(I', Shift(Shift(g, t), x), Shift(Shift(g, x), t));
    }
  }
}
