/** When the repair matrix can be inverted: matrices of powers of distinct bases. */
module Vandermonde {
  import opened Bases
  import opened Galois
  import opened Generator
  import opened Gf16
  import opened LinearAlgebra
  import opened Numbers
  import opened Order

  /** One row per exponent, one column per base. */
  function PowerMatrix(bases: Vector, exponents: seq<nat>): (m: Matrix)
    ensures |m| == |exponents|
    ensures forall i :: 0 <= i < |m| ==> |m[i]| == |bases|
  {
    seq(|exponents|, i requires 0 <= i < |exponents| => PowerRow(bases, exponents[i]))
  }

  function PowerRow(bases: Vector, exponent: nat): (row: Vector)
    ensures |row| == |bases|
  {
    seq(|bases|, c requires 0 <= c < |bases| => Power(bases[c], exponent))
  }

  ghost predicate Progression(exponents: seq<nat>, start: nat, step: nat) {
    forall i :: 0 <= i < |exponents| ==> exponents[i] == start + i * step
  }

  ghost predicate AllNonzero(bases: Vector) {
    forall c :: 0 <= c < |bases| ==> bases[c] != 0
  }

  ghost predicate PairwiseDistinct(v: Vector) {
    forall c, d :: 0 <= c < d < |v| ==> v[c] != v[d]
  }

  // ---- Powers ----

  lemma {:induction false} PowerNonzero(a: Word, n: nat)
    requires a != 0
    ensures Power(a, n) != 0
  {
    hide Mul;
    if n != 0 {
      PowerNonzero(a, n - 1);
      NoZeroDivisors(Power(a, n - 1), a);
    }
  }

  lemma {:induction false} PowerOfPower(a: Word, n: nat, i: nat)
    ensures Power(Power(a, n), i) == Power(a, i * n)
  {
    hide Mul;
    if i == 0 {
      assert i * n == 0;
    } else {
      PowerOfPower(a, n, i - 1);
      PowerAdd(a, (i - 1) * n, n);
      assert (i - 1) * n + n == i * n;
    }
  }

  // ---- Polynomials with given roots, evaluated at the bases ----

  function RootProduct(roots: Vector, z: Word): Word {
    if roots == [] then 1 else Mul(Add(z, roots[0]), RootProduct(roots[1..], z))
  }

  lemma {:induction false} RootProductZero(roots: Vector, z: Word)
    ensures RootProduct(roots, z) == 0 <==> z in roots
  {
    hide Mul, Add;
    if roots != [] {
      RootProductZero(roots[1..], z);
      NoZeroDivisors(Add(z, roots[0]), RootProduct(roots[1..], z));
      AddIsZero(z, roots[0]);
      assert roots == [roots[0]] + roots[1..];
    }
  }

  /** Entry c is scale_c * node_c^s * (product of node_c - root over the roots). */
  function RootRow(scale: Vector, nodes: Vector, roots: Vector, s: nat): (row: Vector)
    requires |scale| == |nodes|
    ensures |row| == |nodes|
  {
    seq(|nodes|, c requires 0 <= c < |nodes| =>
      Mul(Mul(scale[c], Power(nodes[c], s)), RootProduct(roots, nodes[c])))
  }

  lemma RootRowStep(scale: Vector, nodes: Vector, roots: Vector, s: nat)
    requires |scale| == |nodes| && roots != []
    ensures RootRow(scale, nodes, roots, s)
         == SumRow(RootRow(scale, nodes, roots[1..], s + 1), roots[0], RootRow(scale, nodes, roots[1..], s))
  {
    hide Mul, Add;
    forall c | 0 <= c < |nodes|
      ensures RootRow(scale, nodes, roots, s)[c]
           == Add(RootRow(scale, nodes, roots[1..], s + 1)[c], Mul(roots[0], RootRow(scale, nodes, roots[1..], s)[c]))
    {
      var z, p := nodes[c], Mul(scale[c], Power(nodes[c], s));
      var q, a := RootProduct(roots[1..], z), roots[0];
      calc {
        Mul(p, Mul(Add(z, a), q));
        { MulAssoc(p, Add(z, a), q); MulDistributes(p, z, a); }
        Mul(Add(Mul(p, z), Mul(p, a)), q);
        { MulDistributesLeft(Mul(p, z), Mul(p, a), q); }
        Add(Mul(Mul(p, z), q), Mul(Mul(p, a), q));
        { MulAssoc(scale[c], Power(z, s), z); MulComm(p, a); MulAssoc(a, p, q); }
        Add(Mul(Mul(scale[c], Power(z, s + 1)), q), Mul(a, Mul(p, q)));
      }
    }
  }

  /** A vector orthogonal to the first k power rows is orthogonal to every polynomial of degree below k. */
  lemma {:induction false} RootRowOrthogonal(scale: Vector, nodes: Vector, x: Vector, roots: Vector, s: nat, k: nat)
    requires |scale| == |nodes| == |x| && s + |roots| < k
    requires forall i :: 0 <= i < k ==> Dot(RootRow(scale, nodes, [], i), x) == 0
    ensures Dot(RootRow(scale, nodes, roots, s), x) == 0
    decreases |roots|
  {
    hide Mul, Add, Dot, RootRow;
    if roots != [] {
      RootRowOrthogonal(scale, nodes, x, roots[1..], s + 1, k);
      RootRowOrthogonal(scale, nodes, x, roots[1..], s, k);
      RootRowStep(scale, nodes, roots, s);
      DotSum(RootRow(scale, nodes, roots[1..], s + 1), roots[0], RootRow(scale, nodes, roots[1..], s), x);
      MulZero(roots[0]);
      AddZero(0);
    }
  }

  /** The polynomial vanishing at every node but one isolates that coordinate. */
  lemma OrthogonalIsZero(scale: Vector, nodes: Vector, x: Vector, d: nat)
    requires |scale| == |nodes| == |x| && d < |nodes|
    requires AllNonzero(scale) && PairwiseDistinct(nodes)
    requires forall i :: 0 <= i < |nodes| ==> Dot(RootRow(scale, nodes, [], i), x) == 0
    ensures x[d] == 0
  {
    hide Mul, Add, Dot, RootProduct;
    var roots := nodes[..d] + nodes[d + 1..];
    var row := RootRow(scale, nodes, roots, 0);
    RootRowOrthogonal(scale, nodes, x, roots, 0, |nodes|);
    forall c | 0 <= c < |nodes| && c != d
      ensures Mul(row[c], x[c]) == 0
    {
      assert nodes[c] == roots[if c < d then c else c - 1];
      RootProductZero(roots, nodes[c]);
      MulZero(Mul(scale[c], Power(nodes[c], 0)));
      MulZero(x[c]);
    }
    DotOne(row, x, d);
    RootProductZero(roots, nodes[d]);
    MulComm(scale[d], 1);
    MulOne(scale[d]);
    NoZeroDivisors(scale[d], RootProduct(roots, nodes[d]));
    NoZeroDivisors(row[d], x[d]);
  }

  // ---- The theorem ----

  lemma PowerRowIsRootRow(bases: Vector, start: nat, step: nat, i: nat)
    ensures PowerRow(bases, start + i * step) == RootRow(PowerRow(bases, start), PowerRow(bases, step), [], i)
  {
    hide Mul;
    forall c | 0 <= c < |bases|
      ensures Power(bases[c], start + i * step)
           == Mul(Mul(Power(bases[c], start), Power(Power(bases[c], step), i)), 1)
    {
      var b := bases[c];
      PowerAdd(b, start, i * step);
      PowerOfPower(b, step, i);
      var p := Power(b, start + i * step);
      MulComm(p, 1);
      MulOne(p);
    }
  }

  lemma DistinctPowersSuffice(bases: Vector, exponents: seq<nat>, start: nat, step: nat)
    requires |exponents| == |bases| && AllNonzero(bases) && Progression(exponents, start, step)
    requires PairwiseDistinct(PowerRow(bases, step))
    ensures Nonsingular(PowerMatrix(bases, exponents))
  {
    hide Mul, Dot, RootRow;
    var m, k := PowerMatrix(bases, exponents), |bases|;
    var scale, nodes := PowerRow(bases, start), PowerRow(bases, step);
    forall c | 0 <= c < k
      ensures scale[c] != 0
    {
      PowerNonzero(bases[c], start);
    }
    forall x | Solves(m, x, Zeros(k))
      ensures x == Zeros(k)
    {
      forall i | 0 <= i < k
        ensures Dot(RootRow(scale, nodes, [], i), x) == 0
      {
        PowerRowIsRootRow(bases, start, step, i);
        assert Dot(m[i], x) == 0;
      }
      forall d | 0 <= d < k
        ensures x[d] == 0
      {
        OrthogonalIsZero(scale, nodes, x, d);
      }
    }
  }

  ghost function TwoEntries(k: nat, c: nat, u: Word, d: nat, v: Word): (x: Vector)
    requires c < d < k
    ensures |x| == k
  {
    seq(k, i => if i == c then u else if i == d then v else 0)
  }

  /** Columns whose nodes agree are proportional, so some nonzero vector is sent to zero. */
  lemma EqualPowersSingular(bases: Vector, exponents: seq<nat>, start: nat, step: nat, c: nat, d: nat)
    requires |exponents| == |bases| && AllNonzero(bases) && Progression(exponents, start, step)
    requires c < d < |bases| && Power(bases[c], step) == Power(bases[d], step)
    ensures !Nonsingular(PowerMatrix(bases, exponents))
  {
    hide Mul, Add, Dot;
    var m, k := PowerMatrix(bases, exponents), |bases|;
    var u, v := Power(bases[d], start), Power(bases[c], start);
    var x := TwoEntries(k, c, u, d, v);
    forall i | 0 <= i < k
      ensures Dot(m[i], x) == 0
    {
      var g := Power(Power(bases[c], step), i);
      PowerAdd(bases[c], start, i * step);
      PowerAdd(bases[d], start, i * step);
      PowerOfPower(bases[c], step, i);
      PowerOfPower(bases[d], step, i);
      forall j | 0 <= j < k && j != c && j != d
        ensures Mul(m[i][j], x[j]) == 0
      {
        MulZero(m[i][j]);
      }
      DotTwo(m[i], x, c, d);
      CrossTerms(v, u, g);
    }
    PowerNonzero(bases[d], start);
    assert Solves(m, x, Zeros(k));
    assert x[c] != 0;
  }

  lemma CrossTerms(v: Word, u: Word, g: Word)
    ensures Add(Mul(Mul(v, g), u), Mul(Mul(u, g), v)) == 0
  {
    hide Mul, Add;
    MulComm(v, g);
    MulComm(u, g);
    MulAssoc(g, v, u);
    MulAssoc(g, u, v);
    MulComm(u, v);
    AddSelf(Mul(Mul(v, g), u));
  }

  /** For exponents in arithmetic progression, consecutive ones among them, the matrix is
      invertible exactly when the bases stay distinct after raising to the common difference. */
  lemma ProgressionNonsingular(bases: Vector, exponents: seq<nat>, start: nat, step: nat)
    requires |exponents| == |bases| && AllNonzero(bases) && Progression(exponents, start, step)
    ensures Nonsingular(PowerMatrix(bases, exponents)) <==> PairwiseDistinct(PowerRow(bases, step))
  {
    hide Mul, PowerMatrix, Nonsingular;
    if PairwiseDistinct(PowerRow(bases, step)) {
      DistinctPowersSuffice(bases, exponents, start, step);
    } else {
      var c, d :| 0 <= c < d < |bases| && PowerRow(bases, step)[c] == PowerRow(bases, step)[d];
      EqualPowersSingular(bases, exponents, start, step, c, d);
    }
  }
}
