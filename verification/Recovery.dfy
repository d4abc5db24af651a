/** The algebra of repair: what is left of a recovery slice once the present slices are
    taken out of it is a combination of the missing slices alone. */
module Recovery {
  import opened Bases
  import opened Bits
  import opened Galois
  import opened Generator
  import opened Gf16
  import opened LinearAlgebra
  import opened Order
  import opened SliceMap
  import opened Totient
  import opened Vandermonde

  ghost function BaseVector(n: nat): (v: Vector)
    ensures |v| == n
  {
    seq(n, j requires 0 <= j < n => Base(j))
  }

  /** The entries at the given positions. */
  ghost function Pick(v: Vector, positions: seq<nat>): (r: Vector)
    requires forall j :: j in positions ==> j < |v|
    ensures |r| == |positions|
  {
    seq(|positions|, c requires 0 <= c < |positions| => assert positions[c] in positions; v[positions[c]])
  }

  /** What the present slices below j contribute to a recovery slice. */
  ghost function PresentSum(lost: seq<bool>, bases: Vector, exponent: nat, x: Vector, j: nat): Word
    requires |lost| == |bases| == |x| && j <= |x|
  {
    if j == 0 then 0
    else if lost[j - 1] then PresentSum(lost, bases, exponent, x, j - 1)
    else Add(PresentSum(lost, bases, exponent, x, j - 1), Mul(Power(bases[j - 1], exponent), x[j - 1]))
  }

  lemma PickStep(v: Vector, positions: seq<nat>, j: nat)
    requires j < |v| && forall i :: i in positions ==> i < |v|
    ensures Pick(v, positions + [j]) == Pick(v, positions) + [v[j]]
  {
    assert forall i :: i in positions + [j] <==> i in positions || i == j;
  }

  lemma {:induction false} SelectBound(lost: seq<bool>, j: nat)
    requires j <= |lost|
    ensures forall i :: i in Select(lost, j) ==> i < |lost|
  {
    SelectFlagged(lost, j);
  }

  /** A sum over all slices below j is the present part plus the missing part. */
  lemma {:induction false} SplitSum(lost: seq<bool>, bases: Vector, exponent: nat, x: Vector, j: nat)
    requires |lost| == |bases| == |x| && j <= |x|
    requires forall i :: i in Select(lost, j) ==> i < |x|
    ensures Dot(PowerRow(bases, exponent)[..j], x[..j])
         == Add(PresentSum(lost, bases, exponent, x, j),
                Dot(PowerRow(Pick(bases, Select(lost, j)), exponent), Pick(x, Select(lost, j))))
  {
    hide Xor, Mul, Add, Power;
    if j == 0 {
      AddZero(0);
    } else {
      var row, i := PowerRow(bases, exponent), j - 1;
      var selected := Select(lost, i);
      SelectBound(lost, i);
      SplitSum(lost, bases, exponent, x, i);
      assert row[..j][..i] == row[..i] && x[..j][..i] == x[..i];
      var p := PresentSum(lost, bases, exponent, x, i);
      var q := Dot(PowerRow(Pick(bases, selected), exponent), Pick(x, selected));
      var term := Mul(Power(bases[i], exponent), x[i]);
      AddAssoc(p, q, term);
      if lost[i] {
        PickStep(bases, selected, i);
        PickStep(x, selected, i);
        DotAppend(PowerRow(Pick(bases, selected), exponent), Pick(x, selected), Power(bases[i], exponent), x[i]);
        assert PowerRow(Pick(bases, selected) + [bases[i]], exponent)
            == PowerRow(Pick(bases, selected), exponent) + [Power(bases[i], exponent)];
      } else {
        AddComm(q, term);
        AddAssoc(p, term, q);
        assert Select(lost, j) == selected;
      }
    }
  }

  lemma DotAppend(u: Vector, v: Vector, a: Word, b: Word)
    requires |u| == |v|
    ensures Dot(u + [a], v + [b]) == Add(Dot(u, v), Mul(a, b))
  {
    assert (u + [a])[..|u|] == u && (v + [b])[..|v|] == v;
  }

  /** Removing the present part from a recovery word leaves the repair equation of its row. */
  lemma RepairEquation(lost: seq<bool>, bases: Vector, exponent: nat, x: Vector, word: Word)
    requires |lost| == |bases| == |x|
    requires forall i :: i in Select(lost, |x|) ==> i < |x|
    requires word == Dot(PowerRow(bases, exponent), x)
    ensures Add(word, PresentSum(lost, bases, exponent, x, |x|))
         == Dot(PowerRow(Pick(bases, Select(lost, |x|)), exponent), Pick(x, Select(lost, |x|)))
  {
    hide Xor, Mul, Add, Power, Dot;
    SplitSum(lost, bases, exponent, x, |x|);
    assert PowerRow(bases, exponent)[..|x|] == PowerRow(bases, exponent) && x[..|x|] == x;
    var p := PresentSum(lost, bases, exponent, x, |x|);
    var q := Dot(PowerRow(Pick(bases, Select(lost, |x|)), exponent), Pick(x, Select(lost, |x|)));
    AddComm(p, q);
    AddCancel(q, p);
  }

  // ---- When repair can succeed ----

  /** The repair matrix of the missing slices for the selected exponents. */
  ghost function RepairMatrix(missing: seq<nat>, exponents: seq<nat>): (m: Matrix)
    ensures |m| == |exponents|
  {
    PowerMatrix(seq(|missing|, c requires 0 <= c < |missing| => Base(missing[c])), exponents)
  }

  /** The exponents n of the bases 2^n of two slices give the same power of x. */
  ghost predicate SamePower(i: nat, j: nat, step: nat) {
    Power(Base(i), step) == Power(Base(j), step)
  }

  /** With exponents in arithmetic progression, repair meets a singular matrix exactly when two
      missing slices have bases that agree after raising to the common difference. */
  lemma ProgressionRepair(missing: seq<nat>, exponents: seq<nat>, start: nat, step: nat)
    requires |missing| == |exponents| && Progression(exponents, start, step)
    ensures Nonsingular(RepairMatrix(missing, exponents))
       <==> forall c, d :: 0 <= c < d < |missing| ==> !SamePower(missing[c], missing[d], step)
  {
    hide Power, Base, Nonsingular, PowerMatrix;
    var bases: Vector := seq(|missing|, c requires 0 <= c < |missing| => Base(missing[c]));
    forall c | 0 <= c < |bases|
      ensures bases[c] != 0
    {
      BaseIsNonzero(missing[c]);
    }
    ProgressionNonsingular(bases, exponents, start, step);
    var powers := PowerRow(bases, step);
    forall c, d | 0 <= c < d < |missing|
      ensures SamePower(missing[c], missing[d], step) <==> powers[c] == powers[d]
    {
    }
  }

  /** With consecutive exponents repair is always possible while the set has at most 32768 slices. */
  lemma ConsecutiveRepair(missing: seq<nat>, exponents: seq<nat>, start: nat)
    requires |missing| == |exponents| && Progression(exponents, start, 1)
    requires forall c, d :: 0 <= c < d < |missing| ==> missing[c] < missing[d]
    requires forall c :: 0 <= c < |missing| ==> missing[c] < MAX_SLICES
    ensures Nonsingular(RepairMatrix(missing, exponents))
  {
    hide Base, Nonsingular;
    ProgressionRepair(missing, exponents, start, 1);
    forall c, d | 0 <= c < d < |missing|
      ensures !SamePower(missing[c], missing[d], 1)
    {
      PowerOne(Base(missing[c]));
      PowerOne(Base(missing[d]));
      BasesCollide(missing[c], missing[d]);
    }
  }

  lemma PowerOne(a: Word)
    ensures Power(a, 1) == a
  {
    MulOne(a);
  }

  /** The exponent e with Power(Base(i), step) == x^e. */
  ghost function BaseExponent(i: nat, step: nat): nat
    requires i < MAX_SLICES
  {
    NthCoprime(i) * step
  }

  /** The guard in terms of the base exponents: their difference times the step is a multiple of 65535. */
  lemma SamePowerCondition(i: nat, j: nat, step: nat)
    requires i < MAX_SLICES && j < MAX_SLICES
    ensures SamePower(i, j, step) <==> BaseExponent(i, step) % LIMIT == BaseExponent(j, step) % LIMIT
  {
    hide Exp, Power, Base, BaseExponent;
    BasePower(i, step);
    BasePower(j, step);
    SameExp(BaseExponent(i, step), BaseExponent(j, step));
  }

  lemma BasePower(i: nat, step: nat)
    requires i < MAX_SLICES
    ensures Power(Base(i), step) == Exp(BaseExponent(i, step))
  {
    hide Exp, Power, NthCoprime;
    PowerOfExp(Base(i), NthCoprime(i), step, BaseExponent(i, step));
  }

  lemma SameExp(a: nat, b: nat)
    ensures Exp(a) == Exp(b) <==> a % LIMIT == b % LIMIT
  {
    ExpMod(a);
    ExpMod(b);
    hide Exp;
    if Exp(a) == Exp(b) {
      ExpInjective(a % LIMIT, b % LIMIT);
    }
  }

  /** Two recovery slices with the same exponent are one equation: with them no repair of that many slices succeeds. */
  lemma EqualExponentsIrreparable(missing: seq<nat>, exponents: seq<nat>, i: nat, j: nat)
    requires |missing| == |exponents| && i < j < |exponents| && exponents[i] == exponents[j]
    ensures !Nonsingular(RepairMatrix(missing, exponents))
  {
    hide Power;
    var m := RepairMatrix(missing, exponents);
    assert m[i] == m[j];
    EqualRowsSingular(m, |missing|, i, j);
  }

  /** Two missing slices beyond the first 32768 share the base one, so no exponents can tell them apart. */
  lemma LateSlicesIrreparable(missing: seq<nat>, exponents: seq<nat>, c: nat, d: nat)
    requires |missing| == |exponents| && c < d < |missing|
    requires missing[c] >= MAX_SLICES && missing[d] >= MAX_SLICES
    ensures !Nonsingular(RepairMatrix(missing, exponents))
  {
    hide Mul, Add, Dot, Base, Power;
    var m, k := RepairMatrix(missing, exponents), |missing|;
    var x := TwoEntries(k, c, 1, d, 1);
    LateBaseIsOne(missing[c]);
    LateBaseIsOne(missing[d]);
    forall i | 0 <= i < k
      ensures Dot(m[i], x) == 0
    {
      forall j | 0 <= j < k && j != c && j != d
        ensures Mul(m[i][j], x[j]) == 0
      {
        MulZero(m[i][j]);
      }
      DotTwo(m[i], x, c, d);
      AddSelf(Mul(m[i][c], 1));
    }
    assert Solves(m, x, Zeros(k));
    assert x[c] != 0;
  }

  /** A recovery set can hold enough slices and still be irreparable: with exponents 0 and 21845,
      losing the first and third source slices gives a singular matrix. */
  lemma EnoughSlicesMayNotSuffice()
    ensures !Nonsingular(RepairMatrix([0, 2], [0, 21845]))
  {
    hide Nonsingular, Power, Base, RepairMatrix;
    var missing, exponents := [0, 2], [0, 21845];
    assert SamePower(missing[0], missing[1], 21845) by {
      SmallCoprimes();
      SamePowerCondition(0, 2, 21845);
    }
    ProgressionRepair(missing, exponents, 0, 21845);
  }

  lemma SmallCoprimes()
    ensures NthCoprime(0) == 1 && NthCoprime(2) == 4
  {
    assert Sieve(Factors(), 1) && Sieve(Factors(), 2) && Sieve(Factors(), 4);
    assert 3 in Factors();
    assert !Sieve(Factors(), 3) && !Sieve(Factors(), 0);
    CoprimeIsSieved(1);
    CoprimeIsSieved(4);
    assert CoprimesBelow(1) == 0;
    assert CoprimesBelow(2) == 1;
    assert CoprimesBelow(3) == 2;
    assert CoprimesBelow(4) == 2;
    NthUnique(NthCoprime(0), 1, 0);
    NthUnique(NthCoprime(2), 4, 2);
  }
}
