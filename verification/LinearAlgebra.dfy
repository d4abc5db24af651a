/** Systems of linear equations over GF(2^16) and the row operations that keep their solutions. */
module LinearAlgebra {
  import opened Bits
  import opened Gf16
  import opened Order

  type Vector = seq<Word>

  type Matrix = seq<Vector>

  ghost predicate Square(m: Matrix, k: nat) {
    |m| == k && forall r :: 0 <= r < k ==> |m[r]| == k
  }

  function Dot(u: Vector, v: Vector): Word
    requires |u| == |v|
  {
    if |u| == 0 then 0 else
      var n := |u| - 1;
      Add(Dot(u[..n], v[..n]), Mul(u[n], v[n]))
  }

  function Zeros(k: nat): (z: Vector)
    ensures |z| == k
  {
    seq(k, _ => 0)
  }

  /** The vector x satisfies every equation. */
  ghost predicate Solves(m: Matrix, x: Vector, b: Vector) {
    && Square(m, |x|)
    && |b| == |x|
    && forall r :: 0 <= r < |m| ==> Dot(m[r], x) == b[r]
  }

  /** Only the zero vector is sent to zero. */
  ghost predicate Nonsingular(m: Matrix) {
    forall x: Vector :: Solves(m, x, Zeros(|m|)) ==> x == Zeros(|m|)
  }

  // ---- Linear combinations of rows ----

  function ScaledRow(c: Word, u: Vector): (r: Vector)
    ensures |r| == |u|
  {
    seq(|u|, i requires 0 <= i < |u| => Mul(c, u[i]))
  }

  function SumRow(u: Vector, c: Word, v: Vector): (r: Vector)
    requires |u| == |v|
    ensures |r| == |u|
  {
    seq(|u|, i requires 0 <= i < |u| => Add(u[i], Mul(c, v[i])))
  }

  lemma {:induction false} DotScaled(c: Word, u: Vector, v: Vector)
    requires |u| == |v|
    ensures Dot(ScaledRow(c, u), v) == Mul(c, Dot(u, v))
  {
    hide Xor, Mul, Add;
    if |u| == 0 {
      MulZero(c);
    } else {
      var n := |u| - 1;
      DotScaled(c, u[..n], v[..n]);
      assert ScaledRow(c, u)[..n] == ScaledRow(c, u[..n]);
      MulDistributes(c, Dot(u[..n], v[..n]), Mul(u[n], v[n]));
      MulAssoc(c, u[n], v[n]);
    }
  }

  lemma {:induction false} DotSum(u: Vector, c: Word, v: Vector, x: Vector)
    requires |u| == |v| == |x|
    ensures Dot(SumRow(u, c, v), x) == Add(Dot(u, x), Mul(c, Dot(v, x)))
  {
    hide Xor, Mul, Add;
    if |u| == 0 {
      MulZero(c);
      AddZero(0);
    } else {
      var n := |u| - 1;
      var p, q := Dot(u[..n], x[..n]), Dot(v[..n], x[..n]);
      DotSum(u[..n], c, v[..n], x[..n]);
      assert SumRow(u, c, v)[..n] == SumRow(u[..n], c, v[..n]);
      MulDistributesLeft(u[n], Mul(c, v[n]), x[n]);
      MulAssoc(c, v[n], x[n]);
      AddSwapMiddle(p, Mul(c, q), Mul(u[n], x[n]), Mul(c, Mul(v[n], x[n])));
      MulDistributes(c, q, Mul(v[n], x[n]));
    }
  }

  /** A row with a single one picks out one coordinate. */
  lemma {:induction false} DotUnit(u: Vector, x: Vector, i: nat)
    requires |u| == |x| && i < |u|
    requires forall j :: 0 <= j < |u| ==> u[j] == if j == i then 1 else 0
    ensures Dot(u, x) == x[i]
  {
    hide Xor, Mul, Add;
    var n := |u| - 1;
    if i == n {
      DotZeros(u[..n], x[..n]);
      MulOne(x[n]);
      AddZero(x[n]);
    } else {
      DotUnit(u[..n], x[..n], i);
      MulZero(x[n]);
      AddZero(x[i]);
    }
  }

  lemma {:induction false} DotZeros(u: Vector, x: Vector)
    requires |u| == |x|
    requires forall j :: 0 <= j < |u| ==> u[j] == 0
    ensures Dot(u, x) == 0
  {
    hide Xor, Mul, Add;
    if |u| > 0 {
      var n := |u| - 1;
      DotZeros(u[..n], x[..n]);
      MulZero(x[n]);
      AddZero(0);
    }
  }

  // ---- Row operations ----

  function SwappedRows<T>(s: seq<T>, p: nat, q: nat): seq<T>
    requires p < |s| && q < |s|
  {
    s[p := s[q]][q := s[p]]
  }

  lemma SwapKeepsSolutions(m: Matrix, x: Vector, b: Vector, p: nat, q: nat)
    requires |m| == |b| && p < |m| && q < |m|
    ensures Solves(m, x, b) <==> Solves(SwappedRows(m, p, q), x, SwappedRows(b, p, q))
  {
    hide Dot;
    var m', b' := SwappedRows(m, p, q), SwappedRows(b, p, q);
    assert SwappedRows(m', p, q) == m && SwappedRows(b', p, q) == b;
    if Solves(m, x, b) {
      assert Solves(m', x, b');
    }
    if Solves(m', x, b') {
      forall r | 0 <= r < |m|
        ensures |m[r]| == |x| && Dot(m[r], x) == b[r]
      {
        var s := if r == p then q else if r == q then p else r;
        assert m[r] == m'[s] && b[r] == b'[s];
      }
    }
  }

  lemma ScaleKeepsSolutions(m: Matrix, x: Vector, b: Vector, p: nat, c: Word)
    requires |m| == |b| && p < |m| && c != 0
    ensures Solves(m, x, b) <==> Solves(m[p := ScaledRow(c, m[p])], x, b[p := Mul(c, b[p])])
  {
    hide Xor, Mul, Add, Dot;
    var m', b' := m[p := ScaledRow(c, m[p])], b[p := Mul(c, b[p])];
    if Solves(m, x, b) {
      DotScaled(c, m[p], x);
    }
    if Solves(m', x, b') {
      forall r | 0 <= r < |m|
        ensures |m[r]| == |x| && Dot(m[r], x) == b[r]
      {
        if r == p {
          assert |m'[p]| == |x|;
          DotScaled(c, m[p], x);
          MulCancel(c, Dot(m[p], x), b[p]);
        } else {
          assert m'[r] == m[r] && b'[r] == b[r];
        }
      }
    }
  }

  lemma SumKeepsSolutions(m: Matrix, x: Vector, b: Vector, r: nat, p: nat, c: Word)
    requires Square(m, |b|) && r < |m| && p < |m| && r != p
    ensures Solves(m, x, b) <==> Solves(m[r := SumRow(m[r], c, m[p])], x, b[r := Add(b[r], Mul(c, b[p]))])
  {
    hide Xor, Mul, Add, Dot;
    var m', b' := m[r := SumRow(m[r], c, m[p])], b[r := Add(b[r], Mul(c, b[p]))];
    if |x| == |b| {
      DotSum(m[r], c, m[p], x);
      if Solves(m', x, b') {
        assert m'[p] == m[p] && Dot(m[p], x) == b[p];
        AddCancel(Dot(m[r], x), Mul(c, b[p]));
        AddCancel(b[r], Mul(c, b[p]));
        forall s | 0 <= s < |m|
          ensures Dot(m[s], x) == b[s]
        {
          assert Dot(m'[s], x) == b'[s];
        }
      }
    }
  }

  // ---- Identity columns and kernel vectors ----

  ghost predicate IdentityColumns(m: Matrix, p: nat) {
    forall r, c :: 0 <= r < |m| && 0 <= c < p && c < |m[r]| ==> m[r][c] == if r == c then 1 else 0
  }

  lemma IdentitySolution(m: Matrix, x: Vector, b: Vector)
    requires Square(m, |x|) && |b| == |x| && IdentityColumns(m, |m|)
    ensures Solves(m, x, b) <==> x == b
  {
    forall r | 0 <= r < |m|
      ensures Dot(m[r], x) == x[r]
    {
      DotUnit(m[r], x, r);
    }
    if Solves(m, x, b) {
      forall r | 0 <= r < |x|
        ensures x[r] == b[r]
      {
        assert Dot(m[r], x) == b[r];
      }
    }
  }

  /** The kernel vector that a missing pivot in column p gives away. */
  ghost function KernelVector(m: Matrix, p: nat): (v: Vector)
    requires Square(m, |m|) && p < |m|
    ensures |v| == |m|
  {
    seq(|m|, i requires 0 <= i < |m| => if i < p then m[i][p] else if i == p then 1 else 0)
  }

  /** Two entries of a row matter: the diagonal one and the one in column p. */
  lemma {:induction false} DotTwo(u: Vector, x: Vector, i: nat, p: nat)
    requires |u| == |x| && i < p < |u|
    requires forall j :: 0 <= j < |u| && j != i && j != p ==> Mul(u[j], x[j]) == 0
    ensures Dot(u, x) == Add(Mul(u[i], x[i]), Mul(u[p], x[p]))
  {
    hide Xor, Mul, Add;
    var n := |u| - 1;
    if p == n {
      DotOne(u[..n], x[..n], i);
    } else {
      DotTwo(u[..n], x[..n], i, p);
      AddZero(Add(Mul(u[i], x[i]), Mul(u[p], x[p])));
    }
  }

  lemma {:induction false} DotOne(u: Vector, x: Vector, i: nat)
    requires |u| == |x| && i < |u|
    requires forall j :: 0 <= j < |u| && j != i ==> Mul(u[j], x[j]) == 0
    ensures Dot(u, x) == Mul(u[i], x[i])
  {
    hide Xor, Mul, Add;
    var n := |u| - 1;
    if i == n {
      DotNone(u[..n], x[..n]);
    } else {
      DotOne(u[..n], x[..n], i);
    }
    AddZero(Mul(u[i], x[i]));
  }

  lemma {:induction false} DotNone(u: Vector, x: Vector)
    requires |u| == |x|
    requires forall j :: 0 <= j < |u| ==> Mul(u[j], x[j]) == 0
    ensures Dot(u, x) == 0
  {
    hide Xor, Mul, Add;
    if |u| > 0 {
      DotNone(u[..|u| - 1], x[..|u| - 1]);
      AddZero(0);
    }
  }

  /** When the first p columns are identity columns and column p has no pivot from row p on,
      the matrix has a kernel vector. */
  lemma KernelVectorSolves(m: Matrix, p: nat)
    requires Square(m, |m|) && p < |m| && IdentityColumns(m, p)
    requires forall r :: p <= r < |m| ==> m[r][p] == 0
    ensures Solves(m, KernelVector(m, p), Zeros(|m|))
  {
    hide Xor, Mul, Add, Dot;
    var v := KernelVector(m, p);
    forall r | 0 <= r < |m|
      ensures Dot(m[r], v) == 0
    {
      forall j | 0 <= j < |m|
        ensures j != r && j != p ==> Mul(m[r][j], v[j]) == 0
        ensures j == p && p <= r ==> Mul(m[r][j], v[j]) == 0
        ensures j == r && p < r ==> Mul(m[r][j], v[j]) == 0
      {
        MulZero(m[r][j]);
        MulZero(v[j]);
      }
      if r < p {
        DotTwo(m[r], v, r, p);
        MulOne(m[r][p]);
        MulComm(1, m[r][p]);
        AddSelf(m[r][p]);
      } else {
        DotNone(m[r], v);
      }
    }
  }

  // ---- More unknowns than equations ----

  lemma DotPush(u: Vector, v: Vector, a: Word, b: Word)
    requires |u| == |v|
    ensures Dot(u + [a], v + [b]) == Add(Dot(u, v), Mul(a, b))
  {
    assert (u + [a])[..|u|] == u && (v + [b])[..|v|] == v;
  }

  lemma {:induction false} DotByZeros(u: Vector)
    ensures Dot(u, Zeros(|u|)) == 0
  {
    hide Mul, Add;
    if u != [] {
      var n := |u| - 1;
      DotByZeros(u[..n]);
      assert Zeros(|u|)[..n] == Zeros(n);
      MulZero(u[n]);
      AddZero(0);
    }
  }

  /** Every one of the equations is homogeneous and satisfied. */
  ghost predicate Annihilates(rows: seq<Vector>, x: Vector) {
    forall r :: 0 <= r < |rows| ==> |rows[r]| == |x| && Dot(rows[r], x) == 0
  }

  /** The equation without its last unknown, after adding the multiple of the pivot equation that removes it. */
  function Reduced(row: Vector, pivot: Vector, inverse: Word): (r: Vector)
    requires |row| == |pivot| > 0
    ensures |r| == |row| - 1
  {
    var n := |row| - 1;
    SumRow(row, Mul(row[n], inverse), pivot)[..n]
  }

  lemma ReducedSolved(row: Vector, pivot: Vector, inverse: Word, y: Vector, z: Word)
    requires |row| == |pivot| == |y| + 1 && Mul(inverse, pivot[|y|]) == 1
    requires Dot(Reduced(row, pivot, inverse), y) == 0 && Dot(pivot, y + [z]) == 0
    ensures Dot(row, y + [z]) == 0
  {
    hide Mul, Add, Dot;
    var n := |y|;
    var c := Mul(row[n], inverse);
    var sum := SumRow(row, c, pivot);
    MulAssoc(row[n], inverse, pivot[n]);
    MulComm(row[n], 1);
    MulOne(row[n]);
    AddSelf(row[n]);
    assert sum == sum[..n] + [sum[n]] && sum[n] == 0;
    DotPush(sum[..n], y, 0, z);
    MulZero(z);
    AddZero(0);
    DotSum(row, c, pivot, y + [z]);
    MulZero(c);
    AddZero(Dot(row, y + [z]));
  }

  lemma PivotSolved(pivot: Vector, inverse: Word, y: Vector)
    requires |pivot| == |y| + 1 && Mul(inverse, pivot[|y|]) == 1
    ensures Dot(pivot, y + [Mul(inverse, Dot(pivot[..|y|], y))]) == 0
  {
    hide Mul, Add, Dot;
    var n := |y|;
    var d := Dot(pivot[..n], y);
    assert pivot == pivot[..n] + [pivot[n]];
    DotPush(pivot[..n], y, pivot[n], Mul(inverse, d));
    MulAssoc(pivot[n], inverse, d);
    MulComm(pivot[n], inverse);
    MulOne(d);
    AddSelf(d);
  }

  /** Fewer homogeneous equations than unknowns have a solution that is not zero. */
  lemma {:induction false} WideKernel(rows: seq<Vector>, n: nat) returns (x: Vector)
    requires |rows| < n && forall r :: 0 <= r < |rows| ==> |rows[r]| == n
    ensures |x| == n && x != Zeros(n) && Annihilates(rows, x)
    decreases n
  {
    hide Mul, Add, Dot;
    var last := n - 1;
    if forall r :: 0 <= r < |rows| ==> rows[r][last] == 0 {
      x := Zeros(last) + [1];
      forall r | 0 <= r < |rows|
        ensures Dot(rows[r], x) == 0
      {
        assert rows[r] == rows[r][..last] + [0];
        DotPush(rows[r][..last], Zeros(last), 0, 1);
        DotByZeros(rows[r][..last]);
        MulZero(1);
        AddZero(0);
      }
      assert x[last] == 1;
    } else {
      var p :| 0 <= p < |rows| && rows[p][last] != 0;
      var inverse := Inverse(rows[p][last]);
      MulComm(rows[p][last], inverse);
      var rest := rows[..p] + rows[p + 1..];
      var reduced := seq(|rest|, i requires 0 <= i < |rest| => Reduced(rest[i], rows[p], inverse));
      var y := WideKernel(reduced, last);
      x := y + [Mul(inverse, Dot(rows[p][..last], y))];
      PivotSolved(rows[p], inverse, y);
      forall r | 0 <= r < |rows|
        ensures Dot(rows[r], x) == 0
      {
        if r != p {
          var i := if r < p then r else r - 1;
          assert rest[i] == rows[r] && reduced[i] == Reduced(rows[r], rows[p], inverse);
          ReducedSolved(rows[r], rows[p], inverse, y, x[last]);
        }
      }
      assert x[..last] == y && Zeros(n)[..last] == Zeros(last);
    }
  }

  /** A matrix with two equal rows is singular. */
  lemma EqualRowsSingular(m: Matrix, k: nat, i: nat, j: nat)
    requires Square(m, k) && i < j < k && m[i] == m[j]
    ensures !Nonsingular(m)
  {
    var rest := m[..j] + m[j + 1..];
    var x := WideKernel(rest, k);
    hide Dot;
    forall r | 0 <= r < k
      ensures Dot(m[r], x) == 0
    {
      var s := if r == j then i else if r < j then r else r - 1;
      assert rest[s] == m[r];
    }
    assert Solves(m, x, Zeros(k));
  }
}
