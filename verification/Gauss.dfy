/** In-place Gauss-Jordan elimination on a flat matrix of words and rows of bytes. */
module FlatMatrix {
  import opened Gf16
  import opened LinearAlgebra
  import opened Numbers

  lemma CellIndex(r: nat, c: nat, k: nat)
    requires r < k && c < k
    ensures r * k + c < k * k
  {
    assert k * k == r * k + (k - r) * k;
    MultipleSize(k, k - r);
    assert (k - r) * k == k * (k - r);
  }

  /** Where row r, column c of a k by k matrix is stored. */
  function Index(r: nat, c: nat, k: nat): (i: nat)
    requires r < k && c < k
    ensures i < k * k
  {
    CellIndex(r, c, k);
    r * k + c
  }

  lemma IndexInjective(r: nat, c: nat, s: nat, d: nat, k: nat)
    requires r < k && c < k && s < k && d < k && Index(r, c, k) == Index(s, d, k)
    ensures r == s && c == d
  {
    assert (s - r) * k == c - d;
    assert (s - r) * k == k * (s - r);
    MultipleSize(k, s - r);
  }

  function Row(cells: seq<Word>, k: nat, r: nat): (row: Vector)
    requires |cells| == k * k && r < k
    ensures |row| == k
  {
    seq(k, c requires 0 <= c < k => cells[Index(r, c, k)])
  }

  /** The rows of a matrix stored row by row. */
  function Rows(cells: seq<Word>, k: nat): (m: Matrix)
    requires |cells| == k * k
    ensures Square(m, k)
  {
    seq(k, r requires 0 <= r < k => Row(cells, k, r))
  }

  function Cell(matrix: array<Word>, k: nat, r: nat, c: nat): (v: Word)
    requires matrix.Length == k * k && r < k && c < k
    reads matrix
    ensures v == Rows(matrix[..], k)[r][c]
  {
    matrix[Index(r, c, k)]
  }

  function WithCell(m: Matrix, r: nat, c: nat, v: Word): Matrix
    requires r < |m| && c < |m[r]|
  {
    var row: Vector := m[r][c := v];
    m[r := row]
  }

  lemma UpdateCell(cells: seq<Word>, k: nat, r: nat, c: nat, v: Word)
    requires |cells| == k * k && r < k && c < k
    ensures Rows(cells[Index(r, c, k) := v], k) == WithCell(Rows(cells, k), r, c, v)
  {
    hide Index;
    var cells' := cells[Index(r, c, k) := v];
    var m, m' := Rows(cells, k), Rows(cells', k);
    forall s, d | 0 <= s < k && 0 <= d < k
      ensures m'[s][d] == WithCell(m, r, c, v)[s][d]
    {
      if Index(s, d, k) == Index(r, c, k) {
        IndexInjective(s, d, r, c, k);
      }
    }
    forall s | 0 <= s < k
      ensures m'[s] == WithCell(m, r, c, v)[s]
    {
    }
  }

  method SetCell(matrix: array<Word>, k: nat, r: nat, c: nat, v: Word)
    requires matrix.Length == k * k && r < k && c < k
    modifies matrix
    ensures Rows(matrix[..], k) == WithCell(old(Rows(matrix[..], k)), r, c, v)
  {
    hide Index, WithCell, Rows;
    UpdateCell(matrix[..], k, r, c, v);
    matrix[Index(r, c, k)] := v;
    assert matrix[..] == old(matrix[..][Index(r, c, k) := v]);
  }
}

/** What one elimination step does to a system, and why its solutions survive. */
module Elimination {
  import opened Bits
  import opened Gf16
  import opened LinearAlgebra
  import opened Common
  import opened MulTables
  import opened Order

  /** All right-hand sides have n bytes. */
  ghost predicate Rectangular(b: seq<seq<Byte>>, n: nat) {
    forall r :: 0 <= r < |b| ==> |b[r]| == n
  }

  /** Word t of every right-hand side. */
  function Column(b: seq<seq<Byte>>, t: nat): (v: Vector)
    requires forall r :: 0 <= r < |b| ==> 2 * t + 1 < |b[r]|
    ensures |v| == |b|
  {
    seq(|b|, r requires 0 <= r < |b| => WordAt(b[r], t))
  }

  /** The two systems have the same solutions, word position by word position, and the same kernel. */
  ghost predicate Equivalent(m: Matrix, b: seq<seq<Byte>>, m': Matrix, b': seq<seq<Byte>>, n: nat) {
    && Square(m, |m|) && Square(m', |m|)
    && |b| == |b'| == |m|
    && Rectangular(b, n) && Rectangular(b', n)
    && (forall x :: Solves(m, x, Zeros(|m|)) <==> Solves(m', x, Zeros(|m|)))
    && (forall x, t :: 0 <= t < n / 2 ==> (Solves(m, x, Column(b, t)) <==> Solves(m', x, Column(b', t))))
  }

  lemma EquivalentRefl(m: Matrix, b: seq<seq<Byte>>, n: nat)
    requires Square(m, |m|) && |b| == |m| && Rectangular(b, n)
    ensures Equivalent(m, b, m, b, n)
  {
    hide Solves, Column;
  }

  lemma EquivalentTrans(m: Matrix, b: seq<seq<Byte>>, m': Matrix, b': seq<seq<Byte>>, m'': Matrix, b'': seq<seq<Byte>>, n: nat)
    requires Equivalent(m, b, m', b', n) && Equivalent(m', b', m'', b'', n)
    ensures Equivalent(m, b, m'', b'', n)
  {
    hide Solves, Column;
  }

  lemma SwapIsEquivalent(m: Matrix, b: seq<seq<Byte>>, p: nat, q: nat, n: nat)
    requires Square(m, |m|) && |b| == |m| && Rectangular(b, n) && p < |m| && q < |m|
    ensures Equivalent(m, b, SwappedRows(m, p, q), SwappedRows(b, p, q), n)
  {
    hide Solves, WordAt;
    var m', b' := SwappedRows(m, p, q), SwappedRows(b, p, q);
    forall x
      ensures Solves(m, x, Zeros(|m|)) <==> Solves(m', x, Zeros(|m|))
    {
      SwapKeepsSolutions(m, x, Zeros(|m|), p, q);
      assert SwappedRows(Zeros(|m|), p, q) == Zeros(|m|);
    }
    forall x, t | 0 <= t < n / 2
      ensures Solves(m, x, Column(b, t)) <==> Solves(m', x, Column(b', t))
    {
      SwapKeepsSolutions(m, x, Column(b, t), p, q);
      assert SwappedRows(Column(b, t), p, q) == Column(b', t);
    }
  }

  /** A word of a multiplied row is the multiplied word. */
  lemma ScaledWord(c: Word, s: seq<Byte>, t: nat)
    requires 2 * t + 1 < |s|
    ensures WordAt(Scaled(c, s), t) == Mul(c, WordAt(s, t))
  {
    hide Xor, Mul;
    ProductWord(c, s, t);
    var w: nat := Mul(c, WordAt(s, t));
    assert w == w % 256 + 256 * (w / 256);
  }

  lemma AccumulatedWord(d: seq<Byte>, c: Word, s: seq<Byte>, t: nat)
    requires |d| == |s| && 2 * t + 1 < |s|
    ensures WordAt(Accumulated(d, c, s), t) == Add(WordAt(d, t), Mul(c, WordAt(s, t)))
  {
    hide Xor, Mul, XorByte, Add;
    ProductWord(c, s, t);
    var v := WordAt(d, t);
    var w := Mul(c, WordAt(s, t));
    AddBytes(v, w);
    var lo: nat, hi: nat := d[2 * t], d[2 * t + 1];
    assert v == lo + 256 * hi;
    var sum: nat := Add(v, w);
    assert sum == sum % 256 + 256 * (sum / 256);
  }

  lemma ScaleIsEquivalent(m: Matrix, b: seq<seq<Byte>>, p: nat, c: Word, n: nat)
    requires Square(m, |m|) && |b| == |m| && Rectangular(b, n) && p < |m| && c != 0
    ensures Equivalent(m, b, m[p := ScaledRow(c, m[p])], b[p := Scaled(c, b[p])], n)
  {
    hide Solves, Mul, WordAt, Scaled;
    var m', b' := m[p := ScaledRow(c, m[p])], b[p := Scaled(c, b[p])];
    forall x
      ensures Solves(m, x, Zeros(|m|)) <==> Solves(m', x, Zeros(|m|))
    {
      ScaleKeepsSolutions(m, x, Zeros(|m|), p, c);
      MulZero(c);
      assert Zeros(|m|)[p := Mul(c, 0)] == Zeros(|m|);
    }
    forall x, t | 0 <= t < n / 2
      ensures Solves(m, x, Column(b, t)) <==> Solves(m', x, Column(b', t))
    {
      ScaleKeepsSolutions(m, x, Column(b, t), p, c);
      ScaledWord(c, b[p], t);
      assert Column(b, t)[p := Mul(c, WordAt(b[p], t))] == Column(b', t);
    }
  }

  lemma SumIsEquivalent(m: Matrix, b: seq<seq<Byte>>, r: nat, p: nat, c: Word, n: nat)
    requires Square(m, |m|) && |b| == |m| && Rectangular(b, n) && r < |m| && p < |m| && r != p
    ensures Equivalent(m, b, m[r := SumRow(m[r], c, m[p])], b[r := Accumulated(b[r], c, b[p])], n)
  {
    hide Solves, Mul, Add, WordAt, Accumulated;
    var m', b' := m[r := SumRow(m[r], c, m[p])], b[r := Accumulated(b[r], c, b[p])];
    forall x
      ensures Solves(m, x, Zeros(|m|)) <==> Solves(m', x, Zeros(|m|))
    {
      SumKeepsSolutions(m, x, Zeros(|m|), r, p, c);
      MulZero(c);
      AddZero(0);
      assert Zeros(|m|)[r := Add(0, Mul(c, 0))] == Zeros(|m|);
    }
    forall x, t | 0 <= t < n / 2
      ensures Solves(m, x, Column(b, t)) <==> Solves(m', x, Column(b', t))
    {
      SumKeepsSolutions(m, x, Column(b, t), r, p, c);
      AccumulatedWord(b[r], c, b[p], t);
      assert Column(b, t)[r := Add(WordAt(b[r], t), Mul(c, WordAt(b[p], t)))] == Column(b', t);
    }
  }

  // ---- Columns that are already eliminated stay eliminated ----

  lemma SwapKeepsColumns(m: Matrix, p: nat, q: nat)
    requires Square(m, |m|) && IdentityColumns(m, p) && p <= q < |m|
    ensures IdentityColumns(SwappedRows(m, p, q), p)
  {
  }

  lemma ScaleKeepsColumns(m: Matrix, p: nat, c: Word)
    requires Square(m, |m|) && IdentityColumns(m, p) && p < |m|
    ensures IdentityColumns(m[p := ScaledRow(c, m[p])], p)
  {
    hide Mul;
    MulZero(c);
  }

  lemma SumKeepsColumns(m: Matrix, p: nat, r: nat, c: Word)
    requires Square(m, |m|) && IdentityColumns(m, p) && p < |m| && r < |m|
    ensures IdentityColumns(m[r := SumRow(m[r], c, m[p])], p)
  {
    hide Mul, Add;
    MulZero(c);
    forall j | 0 <= j < p
      ensures SumRow(m[r], c, m[p])[j] == m[r][j]
    {
      AddZero(m[r][j]);
    }
  }

  /** Adding an entry times a row whose pivot is one clears that entry. */
  lemma SumClearsEntry(m: Matrix, p: nat, r: nat)
    requires Square(m, |m|) && p < |m| && r < |m| && m[p][p] == 1
    ensures SumRow(m[r], m[r][p], m[p])[p] == 0
  {
    MulComm(m[r][p], 1);
    MulOne(m[r][p]);
    AddSelf(m[r][p]);
  }

  lemma ColumnDone(m: Matrix, p: nat)
    requires Square(m, |m|) && IdentityColumns(m, p) && p < |m|
    requires forall r :: 0 <= r < |m| ==> m[r][p] == if r == p then 1 else 0
    ensures IdentityColumns(m, p + 1)
  {
  }
}

/** gauss_eliminate, on a flat matrix and an array of row buffers. */
module Gauss {
  import opened Elimination
  import opened FlatMatrix
  import opened Galois
  import opened Gf16
  import opened LinearAlgebra
  import opened Common
  import opened MulTables
  import opened Order

  ghost predicate Distinct(rows: seq<array<Byte>>) {
    forall i, j :: 0 <= i < j < |rows| ==> rows[i] != rows[j]
  }

  ghost function Contents(rows: seq<array<Byte>>): (b: seq<seq<Byte>>)
    reads rows
    ensures |b| == |rows|
    ensures forall i :: 0 <= i < |rows| ==> b[i] == rows[i][..]
  {
    seq(|rows|, i requires 0 <= i < |rows| reads rows => rows[i][..])
  }

  /** Rows p and q with their first columns exchanged. */
  ghost function HalfSwapped(m: Matrix, p: nat, q: nat, col: nat): Matrix
    requires p < |m| && q < |m| && col <= |m[p]| == |m[q]|
  {
    m[p := m[q][..col] + m[p][col..]][q := m[p][..col] + m[q][col..]]
  }

  lemma SwapNext(m: Matrix, p: nat, q: nat, col: nat)
    requires p < |m| && q < |m| && p != q && col < |m[p]| == |m[q]|
    ensures var h := HalfSwapped(m, p, q, col);
            && |h[p]| == |h[q]| == |m[p]| && h[p][col] == m[p][col] && h[q][col] == m[q][col]
            && h[p := h[p][col := m[q][col]]][q := h[q][col := m[p][col]]] == HalfSwapped(m, p, q, col + 1)
  {
    assert m[q][..col + 1] + m[p][col + 1..] == (m[q][..col] + m[p][col..])[col := m[q][col]];
    assert m[p][..col + 1] + m[q][col + 1..] == (m[p][..col] + m[q][col..])[col := m[p][col]];
  }

  lemma SwapEnds(m: Matrix, p: nat, q: nat)
    requires p < |m| && q < |m| && p != q && |m[p]| == |m[q]|
    ensures HalfSwapped(m, p, q, 0) == m && HalfSwapped(m, p, q, |m[p]|) == SwappedRows(m, p, q)
  {
    assert m[q][..0] + m[p][0..] == m[p] && m[p][..0] + m[q][0..] == m[q];
    assert m[q][..|m[p]|] + m[p][|m[p]|..] == m[q] && m[p][..|m[p]|] + m[q][|m[p]|..] == m[p];
  }

  method SwapMatrixRows(matrix: array<Word>, k: nat, p: nat, q: nat)
    requires matrix.Length == k * k && p < k && q < k && p != q
    modifies matrix
    ensures Rows(matrix[..], k) == SwappedRows(old(Rows(matrix[..], k)), p, q)
  {
    hide Rows, Index, HalfSwapped, SwappedRows;
    ghost var m := Rows(matrix[..], k);
    SwapEnds(m, p, q);
    for col := 0 to k
      invariant Rows(matrix[..], k) == HalfSwapped(m, p, q, col)
    {
      SwapNext(m, p, q, col);
      var u, v := Cell(matrix, k, p, col), Cell(matrix, k, q, col);
      SetCell(matrix, k, p, col, v);
      SetCell(matrix, k, q, col, u);
    }
  }

  /** Multiplies row p from column p on; the columns before it hold zeros. */
  method ScaleMatrixRow(matrix: array<Word>, k: nat, p: nat, table: MulTable)
    requires matrix.Length == k * k && p < k
    requires table.Valid() && {matrix} !! {table.lo, table.hi}
    requires forall c :: 0 <= c < p ==> Rows(matrix[..], k)[p][c] == 0
    modifies matrix
    ensures Rows(matrix[..], k) == old(Rows(matrix[..], k)[p := ScaledRow(table.coeff, Rows(matrix[..], k)[p])])
  {
    hide Rows, Index, Mul;
    ghost var m := Rows(matrix[..], k);
    ghost var target := ScaledRow(table.coeff, m[p]);
    MulZero(table.coeff);
    assert target[..p] == m[p][..p];
    assert target[..p] + m[p][p..] == m[p];
    for col := p to k
      invariant Rows(matrix[..], k) == m[p := target[..col] + m[p][col..]]
    {
      var v := table.MulU16(Cell(matrix, k, p, col));
      SetCell(matrix, k, p, col, v);
      assert target[..col + 1] + m[p][col + 1..] == (target[..col] + m[p][col..])[col := target[col]];
    }
    assert target[..k] + m[p][k..] == target;
  }

  /** Adds a multiple of row p to row r from column p on. */
  method SumMatrixRow(matrix: array<Word>, k: nat, r: nat, p: nat, table: MulTable)
    requires matrix.Length == k * k && p < k && r < k && r != p
    requires table.Valid() && {matrix} !! {table.lo, table.hi}
    requires forall c :: 0 <= c < p ==> Rows(matrix[..], k)[p][c] == 0
    modifies matrix
    ensures Rows(matrix[..], k)
         == old(Rows(matrix[..], k)[r := SumRow(Rows(matrix[..], k)[r], table.coeff, Rows(matrix[..], k)[p])])
  {
    hide Rows, Index, Mul, Add;
    ghost var m := Rows(matrix[..], k);
    ghost var target := SumRow(m[r], table.coeff, m[p]);
    MulZero(table.coeff);
    forall c | 0 <= c < p
      ensures target[c] == m[r][c]
    {
      AddZero(m[r][c]);
    }
    assert target[..p] == m[r][..p];
    assert target[..p] + m[r][p..] == m[r];
    for col := p to k
      invariant Rows(matrix[..], k) == m[r := target[..col] + m[r][col..]]
    {
      var v := table.MulU16(Cell(matrix, k, p, col));
      SetCell(matrix, k, r, col, Add(Cell(matrix, k, r, col), v));
      assert target[..col + 1] + m[r][col + 1..] == (target[..col] + m[r][col..])[col := target[col]];
    }
    assert target[..k] + m[r][k..] == target;
  }

  // ---- Row operations on the matrix and the right-hand sides together ----

  /** A k by k matrix with k separate right-hand side buffers of n bytes each. */
  ghost predicate IsSystem(t: Tables, matrix: array<Word>, rhs: array<array<Byte>>, k: nat, n: nat)
    reads t.log, t.exp, matrix, rhs, rhs[..]
  {
    && t.Valid() && matrix != t.log && matrix != t.exp
    && matrix.Length == k * k && rhs.Length == k
    && Distinct(rhs[..])
    && (forall i :: 0 <= i < k ==> rhs[i].Length == n)
  }

  method SwapRows(t: Tables, matrix: array<Word>, rhs: array<array<Byte>>, k: nat, n: nat, p: nat, q: nat)
    requires IsSystem(t, matrix, rhs, k, n) && p < k && q < k && p != q
    modifies matrix, rhs
    ensures IsSystem(t, matrix, rhs, k, n)
    ensures rhs[..] == SwappedRows(old(rhs[..]), p, q)
    ensures Rows(matrix[..], k) == SwappedRows(old(Rows(matrix[..], k)), p, q)
    ensures Contents(rhs[..]) == SwappedRows(old(Contents(rhs[..])), p, q)
  {
    hide Rows;
    SwapMatrixRows(matrix, k, p, q);
    rhs[p], rhs[q] := rhs[q], rhs[p];
    assert rhs[..] == SwappedRows(old(rhs[..]), p, q);
  }

  /** Divides row p by its pivot. */
  method NormaliseRow(t: Tables, matrix: array<Word>, rhs: array<array<Byte>>, k: nat, n: nat, p: nat, vectors: bool)
    returns (ghost inverse: Word)
    requires IsSystem(t, matrix, rhs, k, n) && p < k
    requires Rows(matrix[..], k)[p][p] != 0
    requires forall c :: 0 <= c < p ==> Rows(matrix[..], k)[p][c] == 0
    modifies matrix, rhs[p]
    ensures IsSystem(t, matrix, rhs, k, n)
    ensures Mul(old(Rows(matrix[..], k))[p][p], inverse) == 1
    ensures Rows(matrix[..], k) == old(Rows(matrix[..], k))[p := ScaledRow(inverse, old(Rows(matrix[..], k))[p])]
    ensures Contents(rhs[..]) == old(Contents(rhs[..]))[p := Scaled(inverse, old(Contents(rhs[..]))[p])]
  {
    hide Rows, Mul, Scaled;
    var pivotInv := t.Inverse(Cell(matrix, k, p, p));
    if pivotInv != 1 {
      var table := new MulTable(t, pivotInv);
      ScaleMatrixRow(matrix, k, p, table);
      ScaleInPlace(t, rhs[p], pivotInv, vectors);
    } else {
      ScaleByOne(Rows(matrix[..], k)[p], rhs[p][..]);
    }
    inverse := pivotInv;
  }

  lemma ScaleByOne(u: Vector, s: seq<Byte>)
    ensures ScaledRow(1, u) == u && Scaled(1, s) == s
  {
    hide Mul, ProductByte;
    forall i | 0 <= i < |u|
      ensures Mul(1, u[i]) == u[i]
    {
      MulOne(u[i]);
    }
    forall j | 0 <= j < |s|
      ensures ProductByte(1, s, j) == s[j]
    {
      OneProduct(s, j);
    }
  }

  /** Adds factor times row p to row r. */
  method EliminateRow(t: Tables, matrix: array<Word>, rhs: array<array<Byte>>, k: nat, n: nat, p: nat, r: nat,
                      factor: Word, vectors: bool)
    requires IsSystem(t, matrix, rhs, k, n) && p < k && r < k && r != p
    requires forall c :: 0 <= c < p ==> Rows(matrix[..], k)[p][c] == 0
    modifies matrix, rhs[r]
    ensures IsSystem(t, matrix, rhs, k, n)
    ensures Rows(matrix[..], k)
         == old(Rows(matrix[..], k)[r := SumRow(Rows(matrix[..], k)[r], factor, Rows(matrix[..], k)[p])])
    ensures Contents(rhs[..])
         == old(Contents(rhs[..])[r := Accumulated(Contents(rhs[..])[r], factor, Contents(rhs[..])[p])])
  {
    hide Rows, Mul, Accumulated;
    var table := new MulTable(t, factor);
    SumMatrixRow(matrix, k, r, p, table);
    assert rhs[r] != rhs[p];
    MulAddWithTable(rhs[r], rhs[p], table, vectors);
    assert old(rhs[p][..n]) == old(rhs[p][..]);
  }

  // ---- The algorithm ----

  datatype Outcome = Solved | SingularMatrix

  /** The first row from p on with a nonzero entry in column p. */
  method FindPivot(matrix: array<Word>, k: nat, p: nat) returns (found: bool, row: nat)
    requires matrix.Length == k * k && p < k
    ensures found ==> p <= row < k && Rows(matrix[..], k)[row][p] != 0
    ensures !found ==> forall r :: p <= r < k ==> Rows(matrix[..], k)[r][p] == 0
  {
    hide Rows;
    row := p;
    while row < k
      invariant p <= row <= k
      invariant forall r :: p <= r < row ==> Rows(matrix[..], k)[r][p] == 0
    {
      if Cell(matrix, k, row, p) != 0 {
        return true, row;
      }
      row := row + 1;
    }
    found := false;
  }

  /** Clears column p in every row but p, whose entry there is one. */
  method ClearColumn(t: Tables, matrix: array<Word>, rhs: array<array<Byte>>, k: nat, n: nat, p: nat, vectors: bool)
    requires IsSystem(t, matrix, rhs, k, n) && p < k
    requires IdentityColumns(Rows(matrix[..], k), p) && Rows(matrix[..], k)[p][p] == 1
    modifies matrix, rhs[..]
    ensures IsSystem(t, matrix, rhs, k, n)
    ensures IdentityColumns(Rows(matrix[..], k), p + 1)
    ensures Equivalent(old(Rows(matrix[..], k)), old(Contents(rhs[..])), Rows(matrix[..], k), Contents(rhs[..]), n)
  {
    hide Rows, Mul, Add, Equivalent, SumRow, Accumulated;
    ghost var m0, b0 := Rows(matrix[..], k), Contents(rhs[..]);
    EquivalentRefl(m0, b0, n);
    for r := 0 to k
      invariant IsSystem(t, matrix, rhs, k, n)
      invariant IdentityColumns(Rows(matrix[..], k), p) && Rows(matrix[..], k)[p][p] == 1
      invariant forall i :: 0 <= i < r && i != p ==> Rows(matrix[..], k)[i][p] == 0
      invariant Equivalent(m0, b0, Rows(matrix[..], k), Contents(rhs[..]), n)
    {
      if r == p {
        continue;
      }
      var factor := Cell(matrix, k, r, p);
      if factor == 0 {
        continue;
      }
      ghost var m, b := Rows(matrix[..], k), Contents(rhs[..]);
      EliminateRow(t, matrix, rhs, k, n, p, r, factor, vectors);
      SumIsEquivalent(m, b, r, p, factor, n);
      EquivalentTrans(m0, b0, m, b, Rows(matrix[..], k), Contents(rhs[..]), n);
      SumKeepsColumns(m, p, r, factor);
      SumClearsEntry(m, p, r);
    }
    ColumnDone(Rows(matrix[..], k), p);
  }

  /** Brings a nonzero pivot into row p and makes it one. */
  method PreparePivot(t: Tables, matrix: array<Word>, rhs: array<array<Byte>>, k: nat, n: nat, p: nat, row: nat, vectors: bool)
    requires IsSystem(t, matrix, rhs, k, n) && p <= row < k
    requires IdentityColumns(Rows(matrix[..], k), p) && Rows(matrix[..], k)[row][p] != 0
    modifies matrix, rhs, rhs[..]
    ensures IsSystem(t, matrix, rhs, k, n)
    ensures forall i :: 0 <= i < k ==> rhs[i] in old(rhs[..])
    ensures IdentityColumns(Rows(matrix[..], k), p) && Rows(matrix[..], k)[p][p] == 1
    ensures Equivalent(old(Rows(matrix[..], k)), old(Contents(rhs[..])), Rows(matrix[..], k), Contents(rhs[..]), n)
  {
    hide Rows, Mul, Add, Equivalent, Scaled;
    ghost var m0, b0 := Rows(matrix[..], k), Contents(rhs[..]);
    if row != p {
      SwapRows(t, matrix, rhs, k, n, p, row);
      SwapIsEquivalent(m0, b0, p, row, n);
      SwapKeepsColumns(m0, p, row);
    } else {
      EquivalentRefl(m0, b0, n);
    }
    ghost var m, b := Rows(matrix[..], k), Contents(rhs[..]);
    ghost var inverse := NormaliseRow(t, matrix, rhs, k, n, p, vectors);
    InverseIsNonzero(m[p][p], inverse);
    ScaleIsEquivalent(m, b, p, inverse, n);
    ScaleKeepsColumns(m, p, inverse);
    EquivalentTrans(m0, b0, m, b, Rows(matrix[..], k), Contents(rhs[..]), n);
  }

  lemma InverseIsNonzero(a: Word, inverse: Word)
    requires Mul(a, inverse) == 1
    ensures inverse != 0 && Mul(inverse, a) == 1
  {
    MulZero(a);
    MulComm(a, inverse);
  }

  /** Solves the system in place, or finds that the matrix is singular. */
  method GaussEliminate(t: Tables, matrix: array<Word>, rhs: array<array<Byte>>, k: nat, n: nat, vectors: bool)
    returns (outcome: Outcome)
    requires IsSystem(t, matrix, rhs, k, n)
    modifies matrix, rhs, rhs[..]
    ensures IsSystem(t, matrix, rhs, k, n)
    ensures forall i :: 0 <= i < k ==> rhs[i] in old(rhs[..])
    ensures outcome.Solved? <==> Nonsingular(old(Rows(matrix[..], k)))
    ensures outcome.Solved? ==> IdentityColumns(Rows(matrix[..], k), k)
    ensures outcome.Solved? ==> forall x, i :: 0 <= i < n / 2 ==>
              (Solves(old(Rows(matrix[..], k)), x, Column(old(Contents(rhs[..])), i)) <==> x == Column(Contents(rhs[..]), i))
  {
    hide Rows, Mul, Add, Equivalent, Solves, Column;
    ghost var m0, b0 := Rows(matrix[..], k), Contents(rhs[..]);
    EquivalentRefl(m0, b0, n);
    for p := 0 to k
      invariant IsSystem(t, matrix, rhs, k, n)
      invariant forall i :: 0 <= i < k ==> rhs[i] in old(rhs[..])
      invariant IdentityColumns(Rows(matrix[..], k), p)
      invariant Equivalent(m0, b0, Rows(matrix[..], k), Contents(rhs[..]), n)
    {
      var found, row := FindPivot(matrix, k, p);
      ghost var m, b := Rows(matrix[..], k), Contents(rhs[..]);
      if !found {
        MissingPivot(m0, b0, m, b, p, n);
        return SingularMatrix;
      }
      PreparePivot(t, matrix, rhs, k, n, p, row, vectors);
      EquivalentTrans(m0, b0, m, b, Rows(matrix[..], k), Contents(rhs[..]), n);
      ghost var m1, b1 := Rows(matrix[..], k), Contents(rhs[..]);
      ClearColumn(t, matrix, rhs, k, n, p, vectors);
      EquivalentTrans(m0, b0, m1, b1, Rows(matrix[..], k), Contents(rhs[..]), n);
    }
    IdentityReached(m0, b0, Rows(matrix[..], k), Contents(rhs[..]), n);
    return Solved;
  }

  lemma MissingPivot(m0: Matrix, b0: seq<seq<Byte>>, m: Matrix, b: seq<seq<Byte>>, p: nat, n: nat)
    requires Equivalent(m0, b0, m, b, n) && IdentityColumns(m, p) && p < |m|
    requires forall r :: p <= r < |m| ==> m[r][p] == 0
    ensures !Nonsingular(m0)
  {
    hide Solves;
    KernelVectorSolves(m, p);
    assert Solves(m0, KernelVector(m, p), Zeros(|m0|));
    assert KernelVector(m, p)[p] == 1;
  }

  lemma IdentityReached(m0: Matrix, b0: seq<seq<Byte>>, m: Matrix, b: seq<seq<Byte>>, n: nat)
    requires Equivalent(m0, b0, m, b, n) && IdentityColumns(m, |m|)
    ensures Nonsingular(m0)
    ensures forall x, i :: 0 <= i < n / 2 ==> (Solves(m0, x, Column(b0, i)) <==> x == Column(b, i))
  {
    hide Column, IdentityColumns, Dot;
    forall x | Solves(m0, x, Zeros(|m0|))
      ensures x == Zeros(|m0|)
    {
      assert Solves(m, x, Zeros(|m0|));
      IdentitySolution(m, x, Zeros(|m|));
    }
    forall x, i | 0 <= i < n / 2
      ensures Solves(m0, x, Column(b0, i)) <==> x == Column(b, i)
    {
      if |x| == |m| {
        IdentitySolution(m, x, Column(b, i));
      }
    }
  }
}
