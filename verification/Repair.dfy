/** repair_recovery_set: rebuilding the missing slices of a file set and writing them back. */
module Repair {
  import opened Bases
  import opened Common
  import opened Elimination
  import opened FlatMatrix
  import opened Galois
  import opened Gauss
  import opened Gf16
  import opened LinearAlgebra
  import opened MulTables
  import opened Numbers
  import opened Recovery
  import opened SliceMap
  import opened Vandermonde

  type Files = map<string, seq<Byte>>

  class Disk {
    var files: Files

    constructor (initial: Files)
      ensures files == initial
    {
      files := initial;
    }
  }

  datatype RepairError =
    | NotEnoughRecoverySlices(needed: nat, available: nat)
    | SingularMatrix
    | ReadFailed
    | WriteFailed

  datatype Result = Success(repairedSlices: nat, repairedFiles: set<string>) | Failure(error: RepairError)

  /** Cuts a file or buffer to n bytes, or fills it up with zeros. */
  function SetLen(s: seq<Byte>, n: nat): (r: seq<Byte>)
    ensures |r| == n
    ensures forall i :: 0 <= i < n ==> r[i] == if i < |s| then s[i] else 0
  {
    if |s| >= n then s[..n] else s + seq(n - |s|, _ => 0)
  }

  /** A present slice as read from disk, zero-padded; None when the file is absent or too short. */
  function ReadSlice(files: Files, rs: RecoverySet, gs: GlobalSlice): (r: Option<seq<Byte>>)
    requires gs.fileIdx < |rs.files|
    ensures r.Some? ==> |r.value| == rs.sliceSize
  {
    var name := rs.files[gs.fileIdx].filename;
    if name in files && gs.fileOffset + gs.writeLen <= |files[name]|
    then Some(SetLen(files[name][gs.fileOffset..gs.fileOffset + gs.writeLen], rs.sliceSize))
    else None
  }

  // ---- Reading the recovery slices ----

  function Stored(r: RecoverySlice): seq<Byte> {
    if r.stored.Some? then r.stored.value else []
  }

  /** The first k recovery slices can be read. */
  predicate Loadable(rs: RecoverySet, k: nat)
    requires k <= |rs.recovery|
  {
    forall i :: 0 <= i < k ==> rs.recovery[i].stored.Some?
  }

  function RecoveryBytes(rs: RecoverySet, k: nat): (b: seq<seq<Byte>>)
    requires k <= |rs.recovery|
    ensures |b| == k && Rectangular(b, rs.sliceSize)
  {
    seq(k, i requires 0 <= i < k => SetLen(Stored(rs.recovery[i]), rs.sliceSize))
  }

  function Exponents(rs: RecoverySet, k: nat): (e: seq<nat>)
    requires k <= |rs.recovery|
    ensures |e| == k
  {
    seq(k, i requires 0 <= i < k => rs.recovery[i].exponent)
  }

  method NewBuffer(s: seq<Byte>) returns (buf: array<Byte>)
    ensures fresh(buf) && buf[..] == s
  {
    buf := new Byte[|s|](i requires 0 <= i < |s| => s[i]);
  }

  method LoadRecovery(rs: RecoverySet, k: nat) returns (ok: bool, rows: array<array<Byte>>)
    requires k <= |rs.recovery|
    ensures ok <==> Loadable(rs, k)
    ensures fresh(rows) && fresh(rows[..])
    ensures ok ==> rows.Length == k && Distinct(rows[..]) && Contents(rows[..]) == RecoveryBytes(rs, k)
  {
    var loaded: seq<array<Byte>> := [];
    for i := 0 to k
      invariant |loaded| == i && fresh(loaded) && Loadable(rs, i)
      invariant Distinct(loaded)
      invariant forall j :: 0 <= j < i ==> loaded[j][..] == RecoveryBytes(rs, k)[j]
    {
      if rs.recovery[i].stored.None? {
        rows := new array<Byte>[0];
        return false, rows;
      }
      var buf := NewBuffer(SetLen(rs.recovery[i].stored.value, rs.sliceSize));
      loaded := loaded + [buf];
    }
    ok := true;
    if k == 0 {
      rows := new array<Byte>[0];
    } else {
      rows := new array<Byte>[k](i requires 0 <= i < k => loaded[i]);
    }
    assert rows[..] == loaded;
  }

  // ---- Building the system: present slices go into the right-hand sides, missing ones into the matrix ----

  /** What is on disk for every slice of the map; zeros where nothing can be read. */
  ghost function DiskSlices(files: Files, rs: RecoverySet): (s: seq<seq<Byte>>)
    ensures |s| == |AllSlices(rs)| && Rectangular(s, rs.sliceSize)
  {
    SlicesUpToLists(rs, |rs.files|);
    var slices := AllSlices(rs);
    seq(|slices|, j requires 0 <= j < |slices| =>
      match ReadSlice(files, rs, slices[j])
      case Some(bytes) => bytes
      case None => seq(rs.sliceSize, _ => 0))
  }

  ghost predicate Readable(files: Files, rs: RecoverySet, lost: seq<bool>, j: nat)
    requires |lost| == |AllSlices(rs)| && j <= |lost|
  {
    SlicesUpToLists(rs, |rs.files|);
    forall i :: 0 <= i < j && !lost[i] ==> ReadSlice(files, rs, AllSlices(rs)[i]).Some?
  }

  /** Each right-hand side is its recovery slice plus the present slices below j. */
  ghost predicate Absorbed(b: seq<seq<Byte>>, recovery: seq<seq<Byte>>, lost: seq<bool>, bases: Vector,
                           exponents: seq<nat>, sources: seq<seq<Byte>>, n: nat, j: nat)
    requires |b| == |recovery| == |exponents| && |lost| == |bases| == |sources| && j <= |lost|
    requires Rectangular(b, n) && Rectangular(recovery, n) && Rectangular(sources, n)
  {
    forall i, t :: 0 <= i < |b| && 0 <= t < n / 2 ==>
      WordAt(b[i], t) == Add(WordAt(recovery[i], t), PresentSum(lost, bases, exponents[i], Column(sources, t), j))
  }

  lemma AbsorbedAtStart(b: seq<seq<Byte>>, lost: seq<bool>, bases: Vector, exponents: seq<nat>, sources: seq<seq<Byte>>, n: nat)
    requires |b| == |exponents| && |lost| == |bases| == |sources|
    requires Rectangular(b, n) && Rectangular(sources, n)
    ensures Absorbed(b, b, lost, bases, exponents, sources, n, 0)
  {
    hide WordAt, Column;
    forall i, t | 0 <= i < |b| && 0 <= t < n / 2
      ensures WordAt(b[i], t) == Add(WordAt(b[i], t), 0)
    {
      AddZero(WordAt(b[i], t));
    }
  }

  lemma AbsorbLost(b: seq<seq<Byte>>, recovery: seq<seq<Byte>>, lost: seq<bool>, bases: Vector,
                   exponents: seq<nat>, sources: seq<seq<Byte>>, n: nat, j: nat)
    requires |b| == |recovery| == |exponents| && |lost| == |bases| == |sources| && j < |lost|
    requires Rectangular(b, n) && Rectangular(recovery, n) && Rectangular(sources, n)
    requires Absorbed(b, recovery, lost, bases, exponents, sources, n, j) && lost[j]
    ensures Absorbed(b, recovery, lost, bases, exponents, sources, n, j + 1)
  {
    hide WordAt, Column, Add, Mul;
  }

  ghost function WithSlice(b: seq<seq<Byte>>, base: Word, exponents: seq<nat>, source: seq<Byte>, n: nat): (r: seq<seq<Byte>>)
    requires |b| == |exponents| && Rectangular(b, n) && |source| == n
    ensures |r| == |b| && Rectangular(r, n)
  {
    seq(|b|, i requires 0 <= i < |b| => Accumulated(b[i], Power(base, exponents[i]), source))
  }

  lemma AbsorbPresent(b: seq<seq<Byte>>, recovery: seq<seq<Byte>>, lost: seq<bool>, bases: Vector,
                      exponents: seq<nat>, sources: seq<seq<Byte>>, n: nat, j: nat)
    requires |b| == |recovery| == |exponents| && |lost| == |bases| == |sources| && j < |lost|
    requires Rectangular(b, n) && Rectangular(recovery, n) && Rectangular(sources, n)
    requires Absorbed(b, recovery, lost, bases, exponents, sources, n, j) && !lost[j]
    ensures Absorbed(WithSlice(b, bases[j], exponents, sources[j], n), recovery, lost, bases, exponents, sources, n, j + 1)
  {
    hide WordAt, Add, Mul, Power, Accumulated;
    var b' := WithSlice(b, bases[j], exponents, sources[j], n);
    forall i, t | 0 <= i < |b| && 0 <= t < n / 2
      ensures WordAt(b'[i], t)
           == Add(WordAt(recovery[i], t), PresentSum(lost, bases, exponents[i], Column(sources, t), j + 1))
    {
      var c := Power(bases[j], exponents[i]);
      var p := PresentSum(lost, bases, exponents[i], Column(sources, t), j);
      AccumulatedWord(b[i], c, sources[j], t);
      AddAssoc(WordAt(recovery[i], t), p, Mul(c, WordAt(sources[j], t)));
    }
  }

  /** Adds one present slice to every right-hand side with the power of its base. */
  method AbsorbSlice(t: Tables, rows: array<array<Byte>>, buf: array<Byte>, base: Word, exponents: seq<nat>, n: nat, vectors: bool)
    requires t.Valid() && rows.Length == |exponents| && Distinct(rows[..])
    requires buf.Length == n && buf !in rows[..] && forall i :: 0 <= i < rows.Length ==> rows[i].Length == n
    modifies rows[..]
    ensures Contents(rows[..]) == WithSlice(old(Contents(rows[..])), base, exponents, buf[..], n)
  {
    hide Accumulated, Power, Mul;
    ghost var b := Contents(rows[..]);
    ghost var b' := WithSlice(b, base, exponents, buf[..], n);
    ghost var source := buf[..];
    for i := 0 to rows.Length
      invariant buf[..] == source
      invariant forall m :: 0 <= m < i ==> rows[m][..] == b'[m]
      invariant forall m :: i <= m < rows.Length ==> rows[m][..] == b[m]
    {
      var coeff := t.Pow(base, exponents[i]);
      assert rows[i] in rows[..];
      MulAddSlice(t, rows[i], buf, coeff, vectors);
      assert source[..n] == source;
    }
    assert Contents(rows[..]) == b';
  }

  ghost predicate FilledColumns(m: Matrix, missing: seq<nat>, bases: Vector, exponents: seq<nat>, j: nat)
    requires Square(m, |missing|) && |exponents| == |missing|
    requires forall c :: 0 <= c < |missing| ==> missing[c] < |bases|
  {
    forall i, c :: 0 <= i < |m| && 0 <= c < |m| && missing[c] < j ==> m[i][c] == Power(bases[missing[c]], exponents[i])
  }

  /** Enters the powers of a missing slice's base into its column. */
  method FillColumn(t: Tables, matrix: array<Word>, k: nat, col: nat, base: Word, exponents: seq<nat>)
    requires t.Valid() && matrix != t.log && matrix != t.exp
    requires matrix.Length == k * k && col < k && |exponents| == k
    modifies matrix
    ensures forall i, c :: 0 <= i < k && 0 <= c < k ==>
              Rows(matrix[..], k)[i][c] == if c == col then Power(base, exponents[i]) else old(Rows(matrix[..], k))[i][c]
  {
    hide Rows, Power, Mul;
    ghost var m := Rows(matrix[..], k);
    for i := 0 to k
      invariant forall r, c :: 0 <= r < k && 0 <= c < k ==>
                  Rows(matrix[..], k)[r][c] == if c == col && r < i then Power(base, exponents[r]) else m[r][c]
    {
      SetCell(matrix, k, i, col, t.Pow(base, exponents[i]));
    }
  }

  /** Everything the loop over the slices maintains after the slices below j. */
  ghost predicate Building(files: Files, rs: RecoverySet, lost: seq<bool>, missing: seq<nat>, k: nat,
                           m: Matrix, b: seq<seq<Byte>>, j: nat)
  {
    && |lost| == |AllSlices(rs)| && j <= |lost|
    && missing == Select(lost, |lost|) && |missing| == k <= |rs.recovery|
    && Square(m, k) && |b| == k && Rectangular(b, rs.sliceSize)
    && Readable(files, rs, lost, j)
    && (forall c :: 0 <= c < k ==> missing[c] < |lost|)
    && Absorbed(b, RecoveryBytes(rs, k), lost, BaseVector(|lost|), Exponents(rs, k), DiskSlices(files, rs), rs.sliceSize, j)
    && FilledColumns(m, missing, BaseVector(|lost|), Exponents(rs, k), j)
  }

  lemma BuildLost(files: Files, rs: RecoverySet, lost: seq<bool>, missing: seq<nat>, k: nat,
                  m: Matrix, m': Matrix, b: seq<seq<Byte>>, j: nat, col: nat)
    requires Building(files, rs, lost, missing, k, m, b, j) && j < |lost| && lost[j]
    requires col < k && missing[col] == j && Square(m', k)
    requires forall i, c :: 0 <= i < k && 0 <= c < k ==>
               m'[i][c] == if c == col then Power(Base(j), Exponents(rs, k)[i]) else m[i][c]
    ensures Building(files, rs, lost, missing, k, m', b, j + 1)
  {
    hide Absorbed, Power, RecoveryBytes, DiskSlices, ReadSlice;
    SelectFlagged(lost, |lost|);
    AbsorbLost(b, RecoveryBytes(rs, k), lost, BaseVector(|lost|), Exponents(rs, k), DiskSlices(files, rs), rs.sliceSize, j);
  }

  lemma BuildPresent(files: Files, rs: RecoverySet, lost: seq<bool>, missing: seq<nat>, k: nat,
                     m: Matrix, b: seq<seq<Byte>>, j: nat, source: seq<Byte>)
    requires Building(files, rs, lost, missing, k, m, b, j) && j < |lost| && !lost[j]
    requires AllSlices(rs)[j].fileIdx < |rs.files| && ReadSlice(files, rs, AllSlices(rs)[j]) == Some(source)
    ensures Building(files, rs, lost, missing, k, m, WithSlice(b, Base(j), Exponents(rs, k), source, rs.sliceSize), j + 1)
  {
    hide Absorbed, Power, RecoveryBytes, ReadSlice;
    SelectFlagged(lost, |lost|);
    assert DiskSlices(files, rs)[j] == source;
    AbsorbPresent(b, RecoveryBytes(rs, k), lost, BaseVector(|lost|), Exponents(rs, k), DiskSlices(files, rs), rs.sliceSize, j);
    forall c | 0 <= c < k
      ensures missing[c] != j
    {
      assert missing[c] in missing;
    }
  }

  /** The column of every missing slice. */
  method ColumnIndex(missing: seq<nat>) returns (columns: map<nat, nat>)
    requires forall c, d :: 0 <= c < d < |missing| ==> missing[c] < missing[d]
    ensures forall j :: j in columns <==> j in missing
    ensures forall j :: j in columns ==> columns[j] < |missing| && missing[columns[j]] == j
  {
    columns := map[];
    for c := 0 to |missing|
      invariant forall j :: j in columns <==> j in missing[..c]
      invariant forall j :: j in columns ==> columns[j] < |missing| && missing[columns[j]] == j
    {
      columns := columns[missing[c] := c];
    }
  }

  /** A slice that is there: its share is taken out of every right-hand side. */
  method AddPresent(t: Tables, files: Files, rs: RecoverySet, gs: GlobalSlice, j: nat, bases: Vector,
                    rows: array<array<Byte>>, k: nat, vectors: bool,
                    ghost m: Matrix, ghost lost: seq<bool>, ghost missing: seq<nat>) returns (ok: bool)
    requires t.Valid() && rows.Length == k && Distinct(rows[..]) && forall i :: 0 <= i < k ==> rows[i].Length == rs.sliceSize
    requires Building(files, rs, lost, missing, k, m, Contents(rows[..]), j)
    requires j < |lost| && !lost[j] && gs == AllSlices(rs)[j] && gs.fileIdx < |rs.files| && bases == BaseVector(|lost|)
    modifies rows[..]
    ensures ok <==> ReadSlice(files, rs, gs).Some?
    ensures ok ==> Building(files, rs, lost, missing, k, m, Contents(rows[..]), j + 1)
  {
    hide Rows, Power, Absorbed, FilledColumns, ReadSlice, RecoveryBytes, DiskSlices, Readable, WithSlice;
    ghost var b := Contents(rows[..]);
    var read := ReadSlice(files, rs, gs);
    if read.None? {
      return false;
    }
    var buf := NewBuffer(read.value);
    AbsorbSlice(t, rows, buf, bases[j], Exponents(rs, k), rs.sliceSize, vectors);
    BuildPresent(files, rs, lost, missing, k, m, b, j, read.value);
    ok := true;
  }

  lemma BuildingFacts(files: Files, rs: RecoverySet, lost: seq<bool>, missing: seq<nat>, k: nat,
                      m: Matrix, b: seq<seq<Byte>>, j: nat)
    requires Building(files, rs, lost, missing, k, m, b, j)
    ensures |lost| == |AllSlices(rs)| && j <= |lost| && Readable(files, rs, lost, j)
    ensures missing == Select(lost, |lost|) && |missing| == k <= |rs.recovery| && Square(m, k)
  {
  }

  /** The loop body for one slice of the map. */
  method AddSlice(t: Tables, files: Files, rs: RecoverySet, gs: GlobalSlice, j: nat, bases: Vector, columns: map<nat, nat>,
                  matrix: array<Word>, rows: array<array<Byte>>, k: nat, vectors: bool,
                  ghost lost: seq<bool>, ghost missing: seq<nat>) returns (ok: bool)
    requires IsSystem(t, matrix, rows, k, rs.sliceSize)
    requires Building(files, rs, lost, missing, k, Rows(matrix[..], k), Contents(rows[..]), j)
    requires j < |lost| && gs == AllSlices(rs)[j] && gs.fileIdx < |rs.files| && bases == BaseVector(|lost|)
    requires forall i :: i in columns <==> i in missing
    requires forall i :: i in columns ==> columns[i] < k && missing[columns[i]] == i
    modifies matrix, rows[..]
    ensures IsSystem(t, matrix, rows, k, rs.sliceSize)
    ensures ok <==> lost[j] || ReadSlice(files, rs, gs).Some?
    ensures ok ==> Building(files, rs, lost, missing, k, Rows(matrix[..], k), Contents(rows[..]), j + 1)
  {
    hide Rows, Power, Building, ReadSlice, Readable, WithSlice, Select, Base;
    ghost var m, b := Rows(matrix[..], k), Contents(rows[..]);
    BuildingFacts(files, rs, lost, missing, k, m, b, j);
    SelectFlagged(lost, |lost|);
    if j in columns {
      FillColumn(t, matrix, k, columns[j], bases[j], Exponents(rs, k));
      BuildLost(files, rs, lost, missing, k, m, Rows(matrix[..], k), b, j, columns[j]);
      assert Contents(rows[..]) == b;
      return true;
    }
    ok := AddPresent(t, files, rs, gs, j, bases, rows, k, vectors, m, lost, missing);
  }

  lemma NotReadable(files: Files, rs: RecoverySet, lost: seq<bool>, j: nat)
    requires |lost| == |AllSlices(rs)| && j < |lost| && !lost[j] && AllSlices(rs)[j].fileIdx < |rs.files|
    requires ReadSlice(files, rs, AllSlices(rs)[j]).None?
    ensures !Readable(files, rs, lost, |lost|)
  {
  }

  lemma SlicesOfFile(rs: RecoverySet, f: nat)
    requires f < |rs.files|
    ensures |SlicesUpTo(rs, f + 1)| == |SlicesUpTo(rs, f)| + SliceCount(rs, rs.files[f])
  {
  }

  /** The slices of one file. */
  method BuildFile(t: Tables, files: Files, rs: RecoverySet, fileIdx: nat, slices: seq<GlobalSlice>, bases: Vector,
                   columns: map<nat, nat>, matrix: array<Word>, rows: array<array<Byte>>, k: nat, vectors: bool,
                   ghost lost: seq<bool>, ghost missing: seq<nat>) returns (ok: bool)
    requires IsSystem(t, matrix, rows, k, rs.sliceSize) && fileIdx < |rs.files|
    requires slices == AllSlices(rs) && bases == BaseVector(|slices|)
    requires Building(files, rs, lost, missing, k, Rows(matrix[..], k), Contents(rows[..]), |SlicesUpTo(rs, fileIdx)|)
    requires forall i :: i in columns <==> i in missing
    requires forall i :: i in columns ==> columns[i] < k && missing[columns[i]] == i
    modifies matrix, rows[..]
    ensures IsSystem(t, matrix, rows, k, rs.sliceSize)
    ensures !ok ==> !Readable(files, rs, lost, |lost|)
    ensures ok ==> Building(files, rs, lost, missing, k, Rows(matrix[..], k), Contents(rows[..]), |SlicesUpTo(rs, fileIdx + 1)|)
  {
    hide Rows, Building, Readable, ReadSlice, BaseVector, SliceCount, SliceOf, SlicesUpTo, AllSlices;
    SlicesOfFile(rs, fileIdx);
    var start := |SlicesUpTo(rs, fileIdx)|;
    BuildingFacts(files, rs, lost, missing, k, Rows(matrix[..], k), Contents(rows[..]), start);
    for local := 0 to SliceCount(rs, rs.files[fileIdx])
      invariant IsSystem(t, matrix, rows, k, rs.sliceSize)
      invariant Building(files, rs, lost, missing, k, Rows(matrix[..], k), Contents(rows[..]), start + local)
    {
      SlicePosition(rs, fileIdx, local);
      var j := start + local;
      ok := AddSlice(t, files, rs, slices[j], j, bases, columns, matrix, rows, k, vectors, lost, missing);
      if !ok {
        NotReadable(files, rs, lost, j);
        return;
      }
    }
    ok := true;
  }

  /** Walks file by file through all slices. */
  method BuildSystem(t: Tables, files: Files, rs: RecoverySet, slices: seq<GlobalSlice>, bases: Vector, missing: seq<nat>,
                     matrix: array<Word>, rows: array<array<Byte>>, k: nat, vectors: bool, ghost lost: seq<bool>)
    returns (ok: bool)
    requires IsSystem(t, matrix, rows, k, rs.sliceSize)
    requires slices == AllSlices(rs) && bases == BaseVector(|slices|) && |lost| == |slices|
    requires Building(files, rs, lost, missing, k, Rows(matrix[..], k), Contents(rows[..]), 0)
    modifies matrix, rows[..]
    ensures IsSystem(t, matrix, rows, k, rs.sliceSize)
    ensures ok <==> Readable(files, rs, lost, |lost|)
    ensures ok ==> Building(files, rs, lost, missing, k, Rows(matrix[..], k), Contents(rows[..]), |lost|)
  {
    hide Rows, Building, Readable, ReadSlice, BaseVector, SliceCount, SliceOf;
    BuildingFacts(files, rs, lost, missing, k, Rows(matrix[..], k), Contents(rows[..]), 0);
    SelectFlagged(lost, |lost|);
    var columns := ColumnIndex(missing);
    for fileIdx := 0 to |rs.files|
      invariant IsSystem(t, matrix, rows, k, rs.sliceSize)
      invariant Building(files, rs, lost, missing, k, Rows(matrix[..], k), Contents(rows[..]), |SlicesUpTo(rs, fileIdx)|)
    {
      ok := BuildFile(t, files, rs, fileIdx, slices, bases, columns, matrix, rows, k, vectors, lost, missing);
      if !ok {
        return;
      }
    }
    BuildingFacts(files, rs, lost, missing, k, Rows(matrix[..], k), Contents(rows[..]), |lost|);
    ok := true;
  }

  // ---- Writing back ----

  /** The first n bytes of data put in at an offset. */
  function Spliced(current: seq<Byte>, data: seq<Byte>, offset: nat, n: nat): (r: seq<Byte>)
    requires offset + n <= |current| && n <= |data|
    ensures |r| == |current|
    ensures forall pos :: 0 <= pos < |r| ==> r[pos] == if offset <= pos < offset + n then data[pos - offset] else current[pos]
  {
    current[..offset] + data[..n] + current[offset + n..]
  }

  /** How far the write of one slice gets: the file untouched, opened or created, or sized with some bytes written. */
  datatype Extent = Untouched | Created | Sized(bytes: nat)

  /** The write of this slice, counted among the missing ones, fails after getting so far. */
  datatype Fault = Fault(at: nat, extent: Extent)

  /** set_len to the file's length, then the slice's bytes at its offset, as far as the write gets. */
  function WritePart(files: Files, rs: RecoverySet, gs: GlobalSlice, data: seq<Byte>, extent: Extent): Files
    requires IsSliceOf(rs, gs) && |data| == rs.sliceSize
  {
    var entry := rs.files[gs.fileIdx];
    var found := if entry.filename in files then files[entry.filename] else [];
    match extent
    case Untouched => files
    case Created => files[entry.filename := found]
    case Sized(bytes) =>
      var n := Min(bytes, gs.writeLen);
      var current := SetLen(found, entry.length);
      files[entry.filename := Spliced(current, data, gs.fileOffset, n)]
  }

  function WriteSlice(files: Files, rs: RecoverySet, gs: GlobalSlice, data: seq<Byte>): Files
    requires IsSliceOf(rs, gs) && |data| == rs.sliceSize
  {
    WritePart(files, rs, gs, data, Sized(gs.writeLen))
  }

  function WriteAll(files: Files, rs: RecoverySet, missing: seq<nat>, data: seq<seq<Byte>>, c: nat): Files
    requires |missing| == |data| && c <= |data| && Rectangular(data, rs.sliceSize)
    requires forall d :: 0 <= d < |missing| ==> missing[d] < |AllSlices(rs)|
  {
    if c == 0 then files else
      SlicesUpToLists(rs, |rs.files|);
      WriteSlice(WriteAll(files, rs, missing, data, c - 1), rs, AllSlices(rs)[missing[c - 1]], data[c - 1])
  }

  /** The names of the files that the first c missing slices belong to. */
  function RepairedNames(rs: RecoverySet, missing: seq<nat>, c: nat): set<string>
    requires c <= |missing|
    requires forall d :: 0 <= d < |missing| ==> missing[d] < |AllSlices(rs)|
  {
    if c == 0 then {} else
      SlicesUpToLists(rs, |rs.files|);
      RepairedNames(rs, missing, c - 1) + {rs.files[AllSlices(rs)[missing[c - 1]].fileIdx].filename}
  }

  /** A write that fails ends the repair there. */
  predicate Hits(fault: Option<Fault>, n: nat) {
    fault.Some? && fault.value.at < n
  }

  /** The files after writing back, up to a failing write. */
  function WrittenBack(files: Files, rs: RecoverySet, missing: seq<nat>, data: seq<seq<Byte>>, fault: Option<Fault>): Files
    requires |missing| == |data| && Rectangular(data, rs.sliceSize)
    requires forall d :: 0 <= d < |missing| ==> missing[d] < |AllSlices(rs)|
  {
    if Hits(fault, |missing|) then
      var c := fault.value.at;
      SlicesUpToLists(rs, |rs.files|);
      WritePart(WriteAll(files, rs, missing, data, c), rs, AllSlices(rs)[missing[c]], data[c], fault.value.extent)
    else WriteAll(files, rs, missing, data, |missing|)
  }

  lemma NothingWritten(files: Files, rs: RecoverySet, missing: seq<nat>, data: seq<seq<Byte>>)
    requires |missing| == |data| && Rectangular(data, rs.sliceSize)
    requires forall d :: 0 <= d < |missing| ==> missing[d] < |AllSlices(rs)|
    ensures WriteAll(files, rs, missing, data, 0) == files && RepairedNames(rs, missing, 0) == {}
  {
  }

  lemma WriteNext(files: Files, rs: RecoverySet, missing: seq<nat>, data: seq<seq<Byte>>, c: nat)
    requires |missing| == |data| && c < |data| && Rectangular(data, rs.sliceSize)
    requires forall d :: 0 <= d < |missing| ==> missing[d] < |AllSlices(rs)|
    ensures var gs := AllSlices(rs)[missing[c]];
            && IsSliceOf(rs, gs) && gs.fileIdx < |rs.files|
            && WriteAll(files, rs, missing, data, c + 1) == WriteSlice(WriteAll(files, rs, missing, data, c), rs, gs, data[c])
            && RepairedNames(rs, missing, c + 1) == RepairedNames(rs, missing, c) + {rs.files[gs.fileIdx].filename}
  {
    SlicesUpToLists(rs, |rs.files|);
    hide WriteSlice, SliceOf, SliceCount, SlicesUpTo;
  }

  method WriteBack(disk: Disk, rs: RecoverySet, slices: seq<GlobalSlice>, missing: seq<nat>, rows: array<array<Byte>>,
                   fault: Option<Fault>)
    returns (ok: bool, names: set<string>)
    requires slices == AllSlices(rs) && rows.Length == |missing|
    requires forall d :: 0 <= d < |missing| ==> missing[d] < |slices|
    requires Rectangular(Contents(rows[..]), rs.sliceSize)
    modifies disk
    ensures ok <==> !Hits(fault, |missing|)
    ensures disk.files == WrittenBack(old(disk.files), rs, missing, Contents(rows[..]), fault)
    ensures ok ==> names == RepairedNames(rs, missing, |missing|)
  {
    hide WriteSlice, WritePart, WriteAll, RepairedNames, AllSlices, IsSliceOf;
    SlicesUpToLists(rs, |rs.files|);
    NothingWritten(disk.files, rs, missing, Contents(rows[..]));
    names := {};
    ghost var data := Contents(rows[..]);
    for c := 0 to |missing|
      invariant Contents(rows[..]) == data
      invariant disk.files == WriteAll(old(disk.files), rs, missing, data, c)
      invariant names == RepairedNames(rs, missing, c)
      invariant !Hits(fault, c)
    {
      var gs := slices[missing[c]];
      WriteNext(old(disk.files), rs, missing, data, c);
      if Hits(fault, c + 1) {
        disk.files := WritePart(disk.files, rs, gs, rows[c][..], fault.value.extent);
        return false, names;
      }
      disk.files := WriteSlice(disk.files, rs, gs, rows[c][..]);
      names := names + {rs.files[gs.fileIdx].filename};
    }
    ok := true;
  }

  // ---- What the originals have to do with the recovery set ----

  ghost predicate HasOriginals(rs: RecoverySet, originals: seq<seq<Byte>>) {
    && |originals| == |rs.files|
    && (forall f :: 0 <= f < |rs.files| ==> |originals[f]| == rs.files[f].length)
    && (forall f, g :: 0 <= f < g < |rs.files| ==> rs.files[f].filename != rs.files[g].filename)
  }

  /** The zero-padded slices of the original files. */
  ghost function SourceSlices(rs: RecoverySet, originals: seq<seq<Byte>>): (s: seq<seq<Byte>>)
    requires HasOriginals(rs, originals)
    ensures |s| == |AllSlices(rs)| && Rectangular(s, rs.sliceSize)
  {
    SlicesUpToLists(rs, |rs.files|);
    var slices := AllSlices(rs);
    seq(|slices|, j requires 0 <= j < |slices| => SourceSlice(rs, originals, slices[j]))
  }

  ghost function SourceSlice(rs: RecoverySet, originals: seq<seq<Byte>>, gs: GlobalSlice): (s: seq<Byte>)
    requires HasOriginals(rs, originals) && IsSliceOf(rs, gs)
    ensures |s| == rs.sliceSize
  {
    SetLen(originals[gs.fileIdx][gs.fileOffset..gs.fileOffset + gs.writeLen], rs.sliceSize)
  }

  /** Recovery slice i is the sum over all source slices of base to the exponent times the slice. */
  ghost predicate Encodes(rs: RecoverySet, originals: seq<seq<Byte>>, k: nat)
    requires HasOriginals(rs, originals) && k <= |rs.recovery|
  {
    forall i, t :: 0 <= i < k && 0 <= t < rs.sliceSize / 2 ==>
      WordAt(RecoveryBytes(rs, k)[i], t)
        == Dot(PowerRow(BaseVector(|AllSlices(rs)|), Exponents(rs, k)[i]), Column(SourceSlices(rs, originals), t))
  }

  /** Every slice not reported lost is on disk as it was. */
  ghost predicate PresentIntact(files: Files, rs: RecoverySet, lost: seq<bool>, originals: seq<seq<Byte>>)
    requires HasOriginals(rs, originals) && |lost| == |AllSlices(rs)|
  {
    SlicesUpToLists(rs, |rs.files|);
    forall j :: 0 <= j < |lost| && !lost[j] ==>
      ReadSlice(files, rs, AllSlices(rs)[j]) == Some(SourceSlices(rs, originals)[j])
  }

  /** The missing slices' words satisfy the equations the loops have built. */
  lemma OriginalsSolve(files: Files, rs: RecoverySet, lost: seq<bool>, missing: seq<nat>, k: nat,
                       m: Matrix, b: seq<seq<Byte>>, originals: seq<seq<Byte>>, t: nat)
    requires Building(files, rs, lost, missing, k, m, b, |lost|)
    requires HasOriginals(rs, originals) && PresentIntact(files, rs, lost, originals) && Encodes(rs, originals, k)
    requires t < rs.sliceSize / 2
    ensures forall i :: i in missing ==> i < |lost|
    ensures Solves(m, Pick(Column(SourceSlices(rs, originals), t), missing), Column(b, t))
  {
    hide Add, Mul, Power, WordAt, Dot, RecoveryBytes, BaseVector, ReadSlice, SourceSlice;
    SelectFlagged(lost, |lost|);
    var sources, onDisk := SourceSlices(rs, originals), DiskSlices(files, rs);
    var bases, exponents := BaseVector(|lost|), Exponents(rs, k);
    var x, y := Column(sources, t), Column(onDisk, t);
    var z := Pick(x, missing);
    forall i | 0 <= i < k
      ensures Dot(m[i], z) == Column(b, t)[i]
    {
      SamePresentSum(lost, bases, exponents[i], x, y, |lost|);
      RepairEquation(lost, bases, exponents[i], x, WordAt(RecoveryBytes(rs, k)[i], t));
      MatrixRow(m, missing, bases, exponents, |lost|, i);
    }
  }

  lemma MatrixRow(m: Matrix, missing: seq<nat>, bases: Vector, exponents: seq<nat>, n: nat, i: nat)
    requires Square(m, |missing|) && |exponents| == |missing| && i < |m|
    requires forall c :: 0 <= c < |missing| ==> missing[c] < |bases| == n
    requires forall j :: j in missing ==> j < |bases|
    requires FilledColumns(m, missing, bases, exponents, n)
    ensures m[i] == PowerRow(Pick(bases, missing), exponents[i])
  {
    hide Power;
    forall c | 0 <= c < |m|
      ensures m[i][c] == Power(bases[missing[c]], exponents[i])
    {
    }
  }

  /** The present part only looks at slices that are not lost. */
  lemma {:induction false} SamePresentSum(lost: seq<bool>, bases: Vector, exponent: nat, x: Vector, y: Vector, j: nat)
    requires |lost| == |bases| == |x| == |y| && j <= |x|
    requires forall i :: 0 <= i < j && !lost[i] ==> x[i] == y[i]
    ensures PresentSum(lost, bases, exponent, x, j) == PresentSum(lost, bases, exponent, y, j)
  {
    hide Add, Mul, Power;
    if j != 0 {
      SamePresentSum(lost, bases, exponent, x, y, j - 1);
    }
  }

  lemma WordsDetermineBytes(a: seq<Byte>, b: seq<Byte>)
    requires |a| == |b| && |a| % 2 == 0
    requires forall t :: 0 <= t < |a| / 2 ==> WordAt(a, t) == WordAt(b, t)
    ensures a == b
  {
    forall i | 0 <= i < |a|
      ensures a[i] == b[i]
    {
      var t := i / 2;
      assert WordAt(a, t) == WordAt(b, t);
      assert i == 2 * t || i == 2 * t + 1;
    }
  }

  /** The solved right-hand sides are the missing slices. */
  lemma SolvedIsOriginal(files: Files, rs: RecoverySet, lost: seq<bool>, missing: seq<nat>, k: nat,
                         m: Matrix, b: seq<seq<Byte>>, data: seq<seq<Byte>>, originals: seq<seq<Byte>>)
    requires Building(files, rs, lost, missing, k, m, b, |lost|)
    requires HasOriginals(rs, originals) && PresentIntact(files, rs, lost, originals) && Encodes(rs, originals, k)
    requires rs.sliceSize % 2 == 0 && |data| == k && Rectangular(data, rs.sliceSize)
    requires forall x, t :: 0 <= t < rs.sliceSize / 2 ==> (Solves(m, x, Column(b, t)) <==> x == Column(data, t))
    ensures forall c :: 0 <= c < k ==> missing[c] < |lost| && data[c] == SourceSlices(rs, originals)[missing[c]]
  {
    hide WordAt, Solves, SourceSlices, FilledColumns, Absorbed, Readable;
    var sources := SourceSlices(rs, originals);
    forall c | 0 <= c < k
      ensures data[c] == sources[missing[c]]
    {
      forall t | 0 <= t < rs.sliceSize / 2
        ensures WordAt(data[c], t) == WordAt(sources[missing[c]], t)
      {
        OriginalsSolve(files, rs, lost, missing, k, m, b, originals, t);
        assert Pick(Column(sources, t), missing)[c] == Column(data, t)[c];
      }
      WordsDetermineBytes(data[c], sources[missing[c]]);
    }
  }

  // ---- The files after writing back ----

  ghost predicate FileLost(rs: RecoverySet, lost: seq<bool>, f: nat)
    requires |lost| == |AllSlices(rs)|
  {
    exists j :: 0 <= j < |lost| && lost[j] && AllSlices(rs)[j].fileIdx == f
  }

  /** Some of the first c missing slices belong to file f. */
  ghost predicate Touched(rs: RecoverySet, missing: seq<nat>, c: nat, f: nat)
    requires c <= |missing| && forall d :: 0 <= d < |missing| ==> missing[d] < |AllSlices(rs)|
  {
    exists d :: 0 <= d < c && AllSlices(rs)[missing[d]].fileIdx == f
  }

  /** The slice of a byte position is on disk already, or among the first c missing slices. */
  ghost predicate Settled(rs: RecoverySet, lost: seq<bool>, missing: seq<nat>, c: nat, f: nat, pos: nat)
    requires |lost| == |AllSlices(rs)| && c <= |missing|
    requires forall d :: 0 <= d < |missing| ==> missing[d] < |AllSlices(rs)|
    requires rs.sliceSize > 0
  {
    var slices := AllSlices(rs);
    || (exists j :: 0 <= j < |lost| && !lost[j] && slices[j].fileIdx == f && slices[j].localIdx == pos / rs.sliceSize)
    || (exists d :: 0 <= d < c && slices[missing[d]].fileIdx == f && slices[missing[d]].localIdx == pos / rs.sliceSize)
  }

  lemma SourceByte(rs: RecoverySet, originals: seq<seq<Byte>>, gs: GlobalSlice, pos: nat)
    requires HasOriginals(rs, originals) && IsSliceOf(rs, gs)
    requires gs.fileOffset <= pos < gs.fileOffset + gs.writeLen
    ensures SourceSlice(rs, originals, gs)[pos - gs.fileOffset] == originals[gs.fileIdx][pos]
  {
  }

  /** A present slice shows its original bytes at its place in the file. */
  lemma PresentByte(files: Files, rs: RecoverySet, originals: seq<seq<Byte>>, gs: GlobalSlice, pos: nat)
    requires HasOriginals(rs, originals) && IsSliceOf(rs, gs)
    requires ReadSlice(files, rs, gs) == Some(SourceSlice(rs, originals, gs))
    requires gs.fileOffset <= pos < gs.fileOffset + gs.writeLen
    ensures rs.files[gs.fileIdx].filename in files
    ensures pos < |files[rs.files[gs.fileIdx].filename]|
    ensures files[rs.files[gs.fileIdx].filename][pos] == originals[gs.fileIdx][pos]
  {
    hide SliceOf, SliceCount;
    SourceByte(rs, originals, gs, pos);
    var read := ReadSlice(files, rs, gs).value;
    assert read[pos - gs.fileOffset] == files[rs.files[gs.fileIdx].filename][pos];
  }

  /** The data written are the original slices, in order. */
  ghost predicate IsRepairData(rs: RecoverySet, originals: seq<seq<Byte>>, lost: seq<bool>, missing: seq<nat>,
                               data: seq<seq<Byte>>)
  {
    && HasOriginals(rs, originals) && |lost| == |AllSlices(rs)| && |missing| == |data|
    && missing == Select(lost, |lost|)
    && Rectangular(data, rs.sliceSize)
    && (forall c :: 0 <= c < |missing| ==> missing[c] < |lost| && data[c] == SourceSlices(rs, originals)[missing[c]])
  }

  /** How far file f has come after c slices have been written. */
  ghost predicate FileState(files: Files, written: Files, rs: RecoverySet, originals: seq<seq<Byte>>, lost: seq<bool>,
                            missing: seq<nat>, c: nat, f: nat)
    requires HasOriginals(rs, originals) && |lost| == |AllSlices(rs)| && c <= |missing| && f < |rs.files|
    requires forall d :: 0 <= d < |missing| ==> missing[d] < |AllSlices(rs)|
    requires rs.sliceSize > 0
  {
    var name := rs.files[f].filename;
    if Touched(rs, missing, c, f) then
      && name in written
      && |written[name]| == rs.files[f].length
      && (forall pos :: 0 <= pos < rs.files[f].length && Settled(rs, lost, missing, c, f, pos) ==>
            written[name][pos] == originals[f][pos])
    else
      && (name in written <==> name in files)
      && (name in written ==> written[name] == files[name])
  }

  lemma WriteToOther(files: Files, written: Files, rs: RecoverySet, originals: seq<seq<Byte>>, lost: seq<bool>,
                     missing: seq<nat>, data: seq<seq<Byte>>, c: nat, f: nat)
    requires IsRepairData(rs, originals, lost, missing, data) && c < |missing| && f < |rs.files| && rs.sliceSize > 0
    requires FileState(files, written, rs, originals, lost, missing, c, f)
    requires IsSliceOf(rs, AllSlices(rs)[missing[c]]) && AllSlices(rs)[missing[c]].fileIdx != f
    ensures FileState(files, WriteSlice(written, rs, AllSlices(rs)[missing[c]], data[c]), rs, originals, lost, missing, c + 1, f)
  {
    hide SliceOf, SliceCount, SetLen, SlicesUpTo, SourceSlices;
    var g := AllSlices(rs)[missing[c]].fileIdx;
    assert rs.files[f].filename != rs.files[g].filename;
    assert Touched(rs, missing, c + 1, f) <==> Touched(rs, missing, c, f);
    forall pos | 0 <= pos < rs.files[f].length && Settled(rs, lost, missing, c + 1, f, pos)
      ensures Settled(rs, lost, missing, c, f, pos)
    {
    }
  }

  lemma WriteSliceEffect(written: Files, rs: RecoverySet, gs: GlobalSlice, data: seq<Byte>)
    requires IsSliceOf(rs, gs) && |data| == rs.sliceSize
    ensures var name, after := rs.files[gs.fileIdx].filename, WriteSlice(written, rs, gs, data);
            && name in after
            && |after[name]| == rs.files[gs.fileIdx].length
            && (forall pos :: 0 <= pos < |after[name]| ==>
                  after[name][pos] ==
                    if gs.fileOffset <= pos < gs.fileOffset + gs.writeLen then data[pos - gs.fileOffset]
                    else if name in written && pos < |written[name]| then written[name][pos]
                    else 0)
  {
    hide SliceOf, SliceCount, SetLen, Spliced;
  }

  lemma WriteToSame(files: Files, written: Files, rs: RecoverySet, originals: seq<seq<Byte>>, lost: seq<bool>,
                    missing: seq<nat>, data: seq<seq<Byte>>, c: nat, f: nat, pos: nat)
    requires IsRepairData(rs, originals, lost, missing, data) && c < |missing| && f < |rs.files| && rs.sliceSize > 0
    requires PresentIntact(files, rs, lost, originals)
    requires FileState(files, written, rs, originals, lost, missing, c, f)
    requires IsSliceOf(rs, AllSlices(rs)[missing[c]]) && AllSlices(rs)[missing[c]].fileIdx == f
    requires pos < rs.files[f].length && Settled(rs, lost, missing, c + 1, f, pos)
    ensures WriteSlice(written, rs, AllSlices(rs)[missing[c]], data[c])[rs.files[f].filename][pos] == originals[f][pos]
  {
    hide SliceOf, SliceCount, AllSlices, ReadSlice, SourceSlice, WriteSlice, Select, PresentIntact;
    var gs := AllSlices(rs)[missing[c]];
    SliceHoldsByte(rs, f, gs.localIdx, pos);
    WriteSliceEffect(written, rs, gs, data[c]);
    if gs.localIdx == pos / rs.sliceSize {
      SourceByte(rs, originals, gs, pos);
    } else if !Touched(rs, missing, c, f) {
      SettledByPresent(files, rs, originals, lost, f, pos);
    }
  }

  lemma SettledByPresent(files: Files, rs: RecoverySet, originals: seq<seq<Byte>>, lost: seq<bool>, f: nat, pos: nat)
    requires HasOriginals(rs, originals) && |lost| == |AllSlices(rs)| && f < |rs.files| && rs.sliceSize > 0
    requires PresentIntact(files, rs, lost, originals) && pos < rs.files[f].length
    requires exists j :: 0 <= j < |lost| && !lost[j] && AllSlices(rs)[j].fileIdx == f
                      && AllSlices(rs)[j].localIdx == pos / rs.sliceSize
    ensures rs.files[f].filename in files && pos < |files[rs.files[f].filename]|
    ensures files[rs.files[f].filename][pos] == originals[f][pos]
  {
    hide SliceOf, SliceCount, SlicesUpTo, ReadSlice, SourceSlice;
    SlicesUpToLists(rs, |rs.files|);
    var slices := AllSlices(rs);
    var j :| 0 <= j < |lost| && !lost[j] && slices[j].fileIdx == f && slices[j].localIdx == pos / rs.sliceSize;
    SliceHoldsByte(rs, f, slices[j].localIdx, pos);
    PresentByte(files, rs, originals, slices[j], pos);
  }

  lemma WriteToTouched(files: Files, written: Files, rs: RecoverySet, originals: seq<seq<Byte>>, lost: seq<bool>,
                       missing: seq<nat>, data: seq<seq<Byte>>, c: nat, f: nat)
    requires IsRepairData(rs, originals, lost, missing, data) && c < |missing| && f < |rs.files| && rs.sliceSize > 0
    requires PresentIntact(files, rs, lost, originals)
    requires FileState(files, written, rs, originals, lost, missing, c, f)
    requires IsSliceOf(rs, AllSlices(rs)[missing[c]]) && AllSlices(rs)[missing[c]].fileIdx == f
    ensures FileState(files, WriteSlice(written, rs, AllSlices(rs)[missing[c]], data[c]), rs, originals, lost, missing, c + 1, f)
  {
    hide SliceOf, SliceCount, SlicesUpTo, AllSlices, Select, SourceSlices, WriteSlice, Settled, PresentIntact;
    var gs := AllSlices(rs)[missing[c]];
    WriteSliceEffect(written, rs, gs, data[c]);
    forall pos | 0 <= pos < rs.files[f].length && Settled(rs, lost, missing, c + 1, f, pos)
      ensures WriteSlice(written, rs, gs, data[c])[rs.files[f].filename][pos] == originals[f][pos]
    {
      WriteToSame(files, written, rs, originals, lost, missing, data, c, f, pos);
    }
    assert Touched(rs, missing, c + 1, f);
  }

  lemma {:induction false} WriteAllState(files: Files, rs: RecoverySet, originals: seq<seq<Byte>>, lost: seq<bool>,
                                         missing: seq<nat>, data: seq<seq<Byte>>, c: nat, f: nat)
    requires IsRepairData(rs, originals, lost, missing, data) && c <= |missing| && f < |rs.files| && rs.sliceSize > 0
    requires PresentIntact(files, rs, lost, originals)
    ensures FileState(files, WriteAll(files, rs, missing, data, c), rs, originals, lost, missing, c, f)
  {
    hide SliceOf, SliceCount, SlicesUpTo, Select, WriteSlice, ReadSlice, SourceSlices, Settled, PresentIntact;
    if c != 0 {
      hide FileState, Touched;
      SlicesUpToLists(rs, |rs.files|);
      WriteAllState(files, rs, originals, lost, missing, data, c - 1, f);
      var before := WriteAll(files, rs, missing, data, c - 1);
      if AllSlices(rs)[missing[c - 1]].fileIdx == f {
        WriteToTouched(files, before, rs, originals, lost, missing, data, c - 1, f);
      } else {
        WriteToOther(files, before, rs, originals, lost, missing, data, c - 1, f);
      }
    }
  }

  /** Writing a slice, even in part, leaves every other slice of the map as it can be read. */
  lemma PartKeepsOthers(files: Files, rs: RecoverySet, gs: GlobalSlice, data: seq<Byte>, extent: Extent, other: GlobalSlice)
    requires IsSliceOf(rs, gs) && IsSliceOf(rs, other) && gs != other && |data| == rs.sliceSize
    requires forall f, g :: 0 <= f < g < |rs.files| ==> rs.files[f].filename != rs.files[g].filename
    requires ReadSlice(files, rs, other).Some?
    ensures ReadSlice(WritePart(files, rs, gs, data, extent), rs, other) == ReadSlice(files, rs, other)
  {
    hide SliceOf, SliceCount, SetLen, Spliced;
    var name := rs.files[gs.fileIdx].filename;
    if gs.fileIdx == other.fileIdx {
      SlicesApart(rs, gs, other);
      if extent.Sized? {
        var after := WritePart(files, rs, gs, data, extent);
        assert |after[name]| == rs.files[gs.fileIdx].length;
        assert forall pos :: other.fileOffset <= pos < other.fileOffset + other.writeLen ==> after[name][pos] == files[name][pos];
        assert after[name][other.fileOffset..other.fileOffset + other.writeLen]
            == files[name][other.fileOffset..other.fileOffset + other.writeLen];
      }
    }
  }

  /** Different slices of one file do not overlap. */
  lemma SlicesApart(rs: RecoverySet, a: GlobalSlice, b: GlobalSlice)
    requires IsSliceOf(rs, a) && IsSliceOf(rs, b) && a != b && a.fileIdx == b.fileIdx
    ensures a.fileOffset + a.writeLen <= b.fileOffset || b.fileOffset + b.writeLen <= a.fileOffset
  {
    MultipleSize(rs.sliceSize, a.localIdx - b.localIdx);
    TimesMinus(rs.sliceSize, a.localIdx, b.localIdx);
  }

  lemma WriteKeepsPresent(files: Files, rs: RecoverySet, lost: seq<bool>, originals: seq<seq<Byte>>,
                          j: nat, data: seq<Byte>, extent: Extent)
    requires HasOriginals(rs, originals) && |lost| == |AllSlices(rs)| && PresentIntact(files, rs, lost, originals)
    requires j < |lost| && lost[j] && |data| == rs.sliceSize && IsSliceOf(rs, AllSlices(rs)[j])
    ensures PresentIntact(WritePart(files, rs, AllSlices(rs)[j], data, extent), rs, lost, originals)
  {
    hide ReadSlice, WritePart, SourceSlices, IsSliceOf, SlicesUpTo;
    SlicesUpToLists(rs, |rs.files|);
    var slices := AllSlices(rs);
    forall i | 0 <= i < |lost| && !lost[i]
      ensures ReadSlice(WritePart(files, rs, slices[j], data, extent), rs, slices[i]) == ReadSlice(files, rs, slices[i])
    {
      PartKeepsOthers(files, rs, slices[j], data, extent, slices[i]);
    }
  }

  lemma {:induction false} WriteAllKeepsPresent(files: Files, rs: RecoverySet, lost: seq<bool>, missing: seq<nat>, data: seq<seq<Byte>>,
                                                originals: seq<seq<Byte>>, c: nat)
    requires HasOriginals(rs, originals) && |lost| == |AllSlices(rs)| && PresentIntact(files, rs, lost, originals)
    requires |missing| == |data| && c <= |data| && Rectangular(data, rs.sliceSize)
    requires forall d :: 0 <= d < |missing| ==> missing[d] < |AllSlices(rs)| && lost[missing[d]]
    ensures PresentIntact(WriteAll(files, rs, missing, data, c), rs, lost, originals)
  {
    hide PresentIntact, WritePart, SlicesUpTo;
    if c > 0 {
      SlicesUpToLists(rs, |rs.files|);
      WriteAllKeepsPresent(files, rs, lost, missing, data, originals, c - 1);
      var j := missing[c - 1];
      WriteKeepsPresent(WriteAll(files, rs, missing, data, c - 1), rs, lost, originals, j, data[c - 1],
                        Sized(AllSlices(rs)[j].writeLen));
    }
  }

  /** Wherever the writing stops, every slice that was intact still is, so the repair can be tried again. */
  lemma WritingKeepsPresent(files: Files, rs: RecoverySet, lost: seq<bool>, missing: seq<nat>, data: seq<seq<Byte>>,
                            originals: seq<seq<Byte>>, fault: Option<Fault>)
    requires HasOriginals(rs, originals) && |lost| == |AllSlices(rs)| && PresentIntact(files, rs, lost, originals)
    requires missing == Select(lost, |lost|) && |missing| == |data| && Rectangular(data, rs.sliceSize)
    ensures forall d :: 0 <= d < |missing| ==> missing[d] < |AllSlices(rs)|
    ensures PresentIntact(WrittenBack(files, rs, missing, data, fault), rs, lost, originals)
  {
    SelectFlagged(lost, |lost|);
    forall d | 0 <= d < |missing|
      ensures missing[d] < |lost| && lost[missing[d]]
    {
      assert missing[d] in missing;
    }
    hide PresentIntact, WritePart, SlicesUpTo, Select, WriteAll;
    SlicesUpToLists(rs, |rs.files|);
    var c := if Hits(fault, |missing|) then fault.value.at else |missing|;
    WriteAllKeepsPresent(files, rs, lost, missing, data, originals, c);
    if Hits(fault, |missing|) {
      WriteKeepsPresent(WriteAll(files, rs, missing, data, c), rs, lost, originals, missing[c], data[c], fault.value.extent);
    }
  }

  /** Every file that had lost slices is again what it was; the others are left alone. */
  ghost predicate Restored(before: Files, after: Files, rs: RecoverySet, originals: seq<seq<Byte>>, lost: seq<bool>)
    requires HasOriginals(rs, originals) && |lost| == |AllSlices(rs)|
  {
    forall f :: 0 <= f < |rs.files| ==>
      var name := rs.files[f].filename;
      if FileLost(rs, lost, f) then name in after && after[name] == originals[f]
      else (name in after <==> name in before) && (name in after ==> after[name] == before[name])
  }

  /** The slice that covers a byte is in the map. */
  lemma SliceListed(rs: RecoverySet, f: nat, pos: nat) returns (j: nat)
    requires f < |rs.files| && rs.sliceSize > 0 && pos < rs.files[f].length
    ensures j < |AllSlices(rs)|
    ensures AllSlices(rs)[j].fileIdx == f && AllSlices(rs)[j].localIdx == pos / rs.sliceSize
  {
    hide SliceCount, SlicesUpTo;
    ByteHasSlice(rs, f, pos);
    SlicesUpToLists(rs, |rs.files|);
    var gs := SliceOf(rs, f, pos / rs.sliceSize);
    assert IsSliceOf(rs, gs);
    j :| 0 <= j < |AllSlices(rs)| && AllSlices(rs)[j] == gs;
  }

  lemma AllSettled(rs: RecoverySet, lost: seq<bool>, missing: seq<nat>, f: nat, pos: nat)
    requires |lost| == |AllSlices(rs)| && missing == Select(lost, |lost|) && f < |rs.files| && rs.sliceSize > 0
    requires forall d :: 0 <= d < |missing| ==> missing[d] < |AllSlices(rs)|
    requires pos < rs.files[f].length
    ensures Settled(rs, lost, missing, |missing|, f, pos)
  {
    hide AllSlices, Select;
    var j := SliceListed(rs, f, pos);
    SelectFlagged(lost, |lost|);
    if lost[j] {
      var d :| 0 <= d < |missing| && missing[d] == j;
    }
  }

  lemma LostIsTouched(rs: RecoverySet, lost: seq<bool>, missing: seq<nat>, f: nat)
    requires |lost| == |AllSlices(rs)| && missing == Select(lost, |lost|)
    requires forall d :: 0 <= d < |missing| ==> missing[d] < |AllSlices(rs)|
    ensures FileLost(rs, lost, f) <==> Touched(rs, missing, |missing|, f)
  {
    hide Select, AllSlices;
    SelectFlagged(lost, |lost|);
    if FileLost(rs, lost, f) {
      var j :| 0 <= j < |lost| && lost[j] && AllSlices(rs)[j].fileIdx == f;
      var d :| 0 <= d < |missing| && missing[d] == j;
    }
    if Touched(rs, missing, |missing|, f) {
      var d :| 0 <= d < |missing| && AllSlices(rs)[missing[d]].fileIdx == f;
      assert missing[d] in missing;
    }
  }

  lemma WriteAllRestores(files: Files, rs: RecoverySet, originals: seq<seq<Byte>>, lost: seq<bool>,
                         missing: seq<nat>, data: seq<seq<Byte>>)
    requires IsRepairData(rs, originals, lost, missing, data) && rs.sliceSize > 0
    requires PresentIntact(files, rs, lost, originals)
    ensures Restored(files, WriteAll(files, rs, missing, data, |missing|), rs, originals, lost)
  {
    hide SliceOf, SliceCount, SlicesUpTo, ReadSlice, SourceSlices, Settled, WriteAll, Touched, FileLost;
    forall f | 0 <= f < |rs.files|
      ensures var name, after := rs.files[f].filename, WriteAll(files, rs, missing, data, |missing|);
              if FileLost(rs, lost, f) then name in after && after[name] == originals[f]
              else (name in after <==> name in files) && (name in after ==> after[name] == files[name])
    {
      WriteAllState(files, rs, originals, lost, missing, data, |missing|, f);
      LostIsTouched(rs, lost, missing, f);
      forall pos | 0 <= pos < rs.files[f].length
        ensures Settled(rs, lost, missing, |missing|, f, pos)
      {
        AllSettled(rs, lost, missing, f, pos);
      }
    }
  }

  // ---- The whole repair ----

  method ComputeBases(t: Tables, n: nat) returns (bases: Vector)
    requires t.Valid()
    ensures bases == BaseVector(n)
  {
    hide Base;
    bases := [];
    for j := 0 to n
      invariant |bases| == j && forall i :: 0 <= i < j ==> bases[i] == Base(i)
    {
      var base := ComputeBase(t, j);
      bases := bases + [base];
    }
  }

  /** Before any slice has been looked at. */
  lemma BuildingStarts(files: Files, rs: RecoverySet, lost: seq<bool>, missing: seq<nat>, k: nat, m: Matrix, b: seq<seq<Byte>>)
    requires |lost| == |AllSlices(rs)| && missing == Select(lost, |lost|) && |missing| == k <= |rs.recovery|
    requires Square(m, k) && b == RecoveryBytes(rs, k)
    ensures Building(files, rs, lost, missing, k, m, b, 0)
  {
    hide RecoveryBytes, DiskSlices, Absorbed;
    SelectFlagged(lost, |lost|);
    forall c | 0 <= c < k
      ensures missing[c] < |lost|
    {
      assert missing[c] in missing;
    }
    AbsorbedAtStart(b, lost, BaseVector(|lost|), Exponents(rs, k), DiskSlices(files, rs), rs.sliceSize);
  }

  /** The matrix the loops have filled is the repair matrix. */
  lemma BuiltMatrix(files: Files, rs: RecoverySet, lost: seq<bool>, missing: seq<nat>, k: nat, m: Matrix, b: seq<seq<Byte>>)
    requires Building(files, rs, lost, missing, k, m, b, |lost|)
    ensures m == RepairMatrix(missing, Exponents(rs, k))
  {
    hide Power, Absorbed, Base, Readable;
    var exponents := Exponents(rs, k);
    forall i | 0 <= i < k
      ensures m[i] == RepairMatrix(missing, exponents)[i]
    {
      forall c | 0 <= c < k
        ensures m[i][c] == RepairMatrix(missing, exponents)[i][c]
      {
      }
    }
  }

  /** The recovery set was made from the originals and what is not reported lost is unchanged. */
  ghost predicate Genuine(files: Files, rs: RecoverySet, verify: seq<FileVerify>, originals: seq<seq<Byte>>) {
    && rs.sliceSize % 2 == 0
    && HasOriginals(rs, originals)
    && Encodes(rs, originals, Min(|Select(LostFlags(rs, verify), |AllSlices(rs)|)|, |rs.recovery|))
    && PresentIntact(files, rs, LostFlags(rs, verify), originals)
    && (AllOk(verify) ==> Covers(rs, verify))
  }

  lemma NothingToRestore(files: Files, rs: RecoverySet, lost: seq<bool>, originals: seq<seq<Byte>>)
    requires HasOriginals(rs, originals) && |lost| == |AllSlices(rs)| && Select(lost, |lost|) == []
    ensures Restored(files, files, rs, originals, lost)
  {
    SelectFlagged(lost, |lost|);
    assert forall j :: 0 <= j < |lost| ==> j !in Select(lost, |lost|);
  }

  lemma PositiveSize(rs: RecoverySet, j: nat)
    requires j < |AllSlices(rs)|
    ensures rs.sliceSize > 0
  {
    SlicesUpToLists(rs, |rs.files|);
    assert IsSliceOf(rs, AllSlices(rs)[j]);
  }

  lemma SelectIndices(lost: seq<bool>)
    ensures forall d :: 0 <= d < |Select(lost, |lost|)| ==> Select(lost, |lost|)[d] < |lost|
  {
    SelectFlagged(lost, |lost|);
    var missing := Select(lost, |lost|);
    assert forall d :: 0 <= d < |missing| ==> missing[d] in missing;
  }

  /** How repair ends, decided by the files, the set, the verification and the writes that fail. */
  ghost function Verdict(files: Files, rs: RecoverySet, verify: seq<FileVerify>, fault: Option<Fault>): Result {
    var lost := LostFlags(rs, verify);
    var missing := Select(lost, |lost|);
    var k := |missing|;
    SelectIndices(lost);
    if AllOk(verify) || missing == [] then Success(0, {})
    else if k > |rs.recovery| then Failure(NotEnoughRecoverySlices(k, |rs.recovery|))
    else if !Loadable(rs, k) || !Readable(files, rs, lost, |lost|) then Failure(ReadFailed)
    else if !Nonsingular(RepairMatrix(missing, Exponents(rs, k))) then Failure(RepairError.SingularMatrix)
    else if Hits(fault, k) then Failure(WriteFailed)
    else Success(k, RepairedNames(rs, missing, k))
  }

  /** From the loaded recovery slices to the solved system: with genuine input, the lost slices. */
  method Rebuild(t: Tables, rs: RecoverySet, files: Files, slices: seq<GlobalSlice>, missing: seq<nat>, vectors: bool,
                 ghost lost: seq<bool>, ghost originals: seq<seq<Byte>>)
    returns (error: Option<RepairError>, rows: array<array<Byte>>)
    requires t.Valid() && slices == AllSlices(rs) && |lost| == |slices|
    requires missing == Select(lost, |lost|) && missing != [] && |missing| <= |rs.recovery|
    ensures error ==
      if !Loadable(rs, |missing|) || !Readable(files, rs, lost, |lost|) then Some(ReadFailed)
      else if !Nonsingular(RepairMatrix(missing, Exponents(rs, |missing|))) then Some(RepairError.SingularMatrix)
      else None
    ensures fresh(rows) && (error.None? ==> rows.Length == |missing| && Rectangular(Contents(rows[..]), rs.sliceSize))
    ensures error.None? && rs.sliceSize % 2 == 0 && HasOriginals(rs, originals)
              && Encodes(rs, originals, |missing|) && PresentIntact(files, rs, lost, originals) ==>
              IsRepairData(rs, originals, lost, missing, Contents(rows[..]))
  {
    hide Rows, Building, Readable, Nonsingular, Solves, Column, Encodes, PresentIntact, BaseVector,
         AllSlices, Select, RecoveryBytes, RepairMatrix, Exponents, IsRepairData, Loadable;
    var k := |missing|;
    var ok;
    ok, rows := LoadRecovery(rs, k);
    if !ok {
      return Some(ReadFailed), rows;
    }
    var bases := ComputeBases(t, |slices|);
    var matrix := new Word[k * k](_ => 0);
    BuildingStarts(files, rs, lost, missing, k, Rows(matrix[..], k), Contents(rows[..]));
    ok := BuildSystem(t, files, rs, slices, bases, missing, matrix, rows, k, vectors, lost);
    if !ok {
      return Some(ReadFailed), rows;
    }
    ghost var m, b := Rows(matrix[..], k), Contents(rows[..]);
    BuiltMatrix(files, rs, lost, missing, k, m, b);
    var outcome := GaussEliminate(t, matrix, rows, k, rs.sliceSize, vectors);
    if outcome.SingularMatrix? {
      return Some(RepairError.SingularMatrix), rows;
    }
    if rs.sliceSize % 2 == 0 && HasOriginals(rs, originals) && Encodes(rs, originals, k)
      && PresentIntact(files, rs, lost, originals)
    {
      SolvedRepairs(files, rs, lost, missing, k, m, b, Contents(rows[..]), originals);
    }
    error := None;
  }

  lemma SolvedRepairs(files: Files, rs: RecoverySet, lost: seq<bool>, missing: seq<nat>, k: nat,
                      m: Matrix, b: seq<seq<Byte>>, data: seq<seq<Byte>>, originals: seq<seq<Byte>>)
    requires Building(files, rs, lost, missing, k, m, b, |lost|)
    requires HasOriginals(rs, originals) && PresentIntact(files, rs, lost, originals) && Encodes(rs, originals, k)
    requires rs.sliceSize % 2 == 0 && |data| == k && Rectangular(data, rs.sliceSize)
    requires forall x, t :: 0 <= t < rs.sliceSize / 2 ==> (Solves(m, x, Column(b, t)) <==> x == Column(data, t))
    ensures IsRepairData(rs, originals, lost, missing, data)
  {
    hide Solves, Column, Encodes, PresentIntact, AllSlices, Select, Absorbed, FilledColumns, SourceSlices;
    SolvedIsOriginal(files, rs, lost, missing, k, m, b, data, originals);
  }

  /** From the loaded recovery slices to the files written back. */
  method RepairMissing(t: Tables, rs: RecoverySet, disk: Disk, slices: seq<GlobalSlice>, missing: seq<nat>, vectors: bool,
                       fault: Option<Fault>, ghost lost: seq<bool>, ghost originals: seq<seq<Byte>>) returns (result: Result)
    requires t.Valid() && slices == AllSlices(rs) && |lost| == |slices|
    requires missing == Select(lost, |lost|) && missing != [] && |missing| <= |rs.recovery|
    modifies disk
    ensures forall d :: 0 <= d < |missing| ==> missing[d] < |slices|
    ensures result ==
      if !Loadable(rs, |missing|) || !Readable(old(disk.files), rs, lost, |lost|) then Failure(ReadFailed)
      else if !Nonsingular(RepairMatrix(missing, Exponents(rs, |missing|))) then Failure(RepairError.SingularMatrix)
      else if Hits(fault, |missing|) then Failure(WriteFailed)
      else Success(|missing|, RepairedNames(rs, missing, |missing|))
    ensures result.Failure? && result != Failure(WriteFailed) ==> disk.files == old(disk.files)
    ensures HasOriginals(rs, originals) && PresentIntact(old(disk.files), rs, lost, originals) ==>
              PresentIntact(disk.files, rs, lost, originals)
    ensures result.Success? && rs.sliceSize % 2 == 0 && HasOriginals(rs, originals)
              && Encodes(rs, originals, |missing|) && PresentIntact(old(disk.files), rs, lost, originals) ==>
              Restored(old(disk.files), disk.files, rs, originals, lost)
  {
    hide Readable, Loadable, Nonsingular, Encodes, PresentIntact, WriteAll, Restored, AllSlices, Select, RepairedNames, RepairMatrix,
         Exponents, IsRepairData;
    ghost var files := disk.files;
    SelectIndices(lost);
    var error, rows := Rebuild(t, rs, disk.files, slices, missing, vectors, lost, originals);
    if error.Some? {
      return Failure(error.value);
    }
    ghost var data := Contents(rows[..]);
    var written, names := WriteBack(disk, rs, slices, missing, rows, fault);
    if HasOriginals(rs, originals) && PresentIntact(files, rs, lost, originals) {
      WritingKeepsPresent(files, rs, lost, missing, data, originals, fault);
    }
    if !written {
      return Failure(WriteFailed);
    }
    if HasOriginals(rs, originals) && PresentIntact(files, rs, lost, originals) && IsRepairData(rs, originals, lost, missing, data) {
      PositiveSize(rs, missing[0]);
      WriteAllRestores(files, rs, originals, lost, missing, data);
    }
    return Success(|missing|, names);
  }

  method RepairRecoverySet(t: Tables, rs: RecoverySet, verify: seq<FileVerify>, disk: Disk, vectors: bool,
                           fault: Option<Fault>, ghost originals: seq<seq<Byte>>) returns (result: Result)
    requires t.Valid()
    modifies disk
    ensures result == Verdict(old(disk.files), rs, verify, fault)
    ensures result.Failure? && result != Failure(WriteFailed) ==> disk.files == old(disk.files)
    ensures Genuine(old(disk.files), rs, verify, originals) ==> Genuine(disk.files, rs, verify, originals)
    ensures result.Success? && Genuine(old(disk.files), rs, verify, originals) ==>
              Restored(old(disk.files), disk.files, rs, originals, LostFlags(rs, verify))
  {
    hide Readable, LostFlags, Nonsingular, Encodes, PresentIntact, Restored, AllSlices, Select, RepairedNames,
         RepairMatrix, Exponents;
    ghost var files, lost := disk.files, LostFlags(rs, verify);
    if AllOk(verify) {
      if Genuine(files, rs, verify, originals) {
        NothingLost(rs, verify);
        NothingToRestore(files, rs, lost, originals);
      }
      return Success(0, {});
    }
    var slices := BuildGlobalSliceMap(rs);
    var missing := FindMissing(rs, verify, slices);
    var k := |missing|;
    if k == 0 {
      if Genuine(files, rs, verify, originals) {
        NothingToRestore(files, rs, lost, originals);
      }
      return Success(0, {});
    }
    if k > |rs.recovery| {
      return Failure(NotEnoughRecoverySlices(k, |rs.recovery|));
    }
    result := RepairMissing(t, rs, disk, slices, missing, vectors, fault, lost, originals);
  }

  // ---- What the verdict says ----

  /** A slice among the missing ones belongs to a file of the name. */
  predicate LosesFrom(rs: RecoverySet, missing: seq<nat>, name: string) {
    exists d :: 0 <= d < |missing| && BelongsTo(rs, missing[d], name)
  }

  predicate BelongsTo(rs: RecoverySet, j: nat, name: string) {
    && j < |AllSlices(rs)| && AllSlices(rs)[j].fileIdx < |rs.files|
    && rs.files[AllSlices(rs)[j].fileIdx].filename == name
  }

  /** Some slice that is not missing has no file or ends behind the end of its file. */
  predicate Unread(files: Files, rs: RecoverySet, missing: seq<nat>) {
    exists j :: 0 <= j < |AllSlices(rs)| && j !in missing && !OnDisk(files, rs, AllSlices(rs)[j])
  }

  predicate OnDisk(files: Files, rs: RecoverySet, gs: GlobalSlice) {
    && gs.fileIdx < |rs.files| && rs.files[gs.fileIdx].filename in files
    && gs.fileOffset + gs.writeLen <= |files[rs.files[gs.fileIdx].filename]|
  }

  lemma {:induction false} NamesOfMissing(rs: RecoverySet, missing: seq<nat>, c: nat)
    requires c <= |missing| && forall d :: 0 <= d < |missing| ==> missing[d] < |AllSlices(rs)|
    ensures forall name :: name in RepairedNames(rs, missing, c) <==> LosesFrom(rs, missing[..c], name)
  {
    if c > 0 {
      hide AllSlices, LosesFrom, RepairedNames;
      NamesOfMissing(rs, missing, c - 1);
      NextName(rs, missing, c - 1);
      LosesOneMore(rs, missing, c - 1);
    }
  }

  lemma NextName(rs: RecoverySet, missing: seq<nat>, c: nat)
    requires c < |missing| && forall d :: 0 <= d < |missing| ==> missing[d] < |AllSlices(rs)|
    ensures AllSlices(rs)[missing[c]].fileIdx < |rs.files|
    ensures RepairedNames(rs, missing, c + 1)
         == RepairedNames(rs, missing, c) + {rs.files[AllSlices(rs)[missing[c]].fileIdx].filename}
  {
    SlicesUpToLists(rs, |rs.files|);
    hide SlicesUpTo, SliceOf, SliceCount;
  }

  lemma LosesOneMore(rs: RecoverySet, missing: seq<nat>, c: nat)
    requires c < |missing|
    ensures forall name :: LosesFrom(rs, missing[..c + 1], name) <==>
              LosesFrom(rs, missing[..c], name) || BelongsTo(rs, missing[c], name)
  {
    hide AllSlices, BelongsTo, LosesFrom;
    forall name: string
      ensures LosesFrom(rs, missing[..c + 1], name) <==> LosesFrom(rs, missing[..c], name) || BelongsTo(rs, missing[c], name)
    {
      LosesFromPush(rs, missing[..c], missing[c], name);
      assert missing[..c + 1] == missing[..c] + [missing[c]];
    }
  }

  lemma LosesFromPush(rs: RecoverySet, missing: seq<nat>, j: nat, name: string)
    ensures LosesFrom(rs, missing + [j], name) <==> LosesFrom(rs, missing, name) || BelongsTo(rs, j, name)
  {
    hide BelongsTo;
    var next := missing + [j];
    if LosesFrom(rs, missing, name) {
      var d :| 0 <= d < |missing| && BelongsTo(rs, missing[d], name);
      assert BelongsTo(rs, next[d], name);
    }
    if BelongsTo(rs, j, name) {
      assert BelongsTo(rs, next[|missing|], name);
    }
  }

  lemma ReadableMeans(files: Files, rs: RecoverySet, lost: seq<bool>)
    requires |lost| == |AllSlices(rs)|
    ensures Readable(files, rs, lost, |lost|) <==> !Unread(files, rs, Select(lost, |lost|))
  {
    SlicesUpToLists(rs, |rs.files|);
    SelectFlagged(lost, |lost|);
    var missing := Select(lost, |lost|);
    forall j | 0 <= j < |lost|
      ensures j !in missing <==> !lost[j]
      ensures ReadSlice(files, rs, AllSlices(rs)[j]).Some? <==> OnDisk(files, rs, AllSlices(rs)[j])
    {
      ReadsWhatIsThere(files, rs, AllSlices(rs)[j]);
    }
    hide AllSlices, SlicesUpTo, SliceOf, SliceCount, Select, ReadSlice, OnDisk;
    if Unread(files, rs, missing) {
      var j :| 0 <= j < |AllSlices(rs)| && j !in missing && !OnDisk(files, rs, AllSlices(rs)[j]);
      assert !lost[j] && ReadSlice(files, rs, AllSlices(rs)[j]).None?;
    } else {
      forall j | 0 <= j < |lost| && !lost[j]
        ensures ReadSlice(files, rs, AllSlices(rs)[j]).Some?
      {
        assert j !in missing;
      }
    }
  }

  lemma ReadsWhatIsThere(files: Files, rs: RecoverySet, gs: GlobalSlice)
    requires gs.fileIdx < |rs.files|
    ensures ReadSlice(files, rs, gs).Some? <==> OnDisk(files, rs, gs)
  {
  }

  /**
   * Success reports how many slices were lost and the files they belong to. A failure means in turn
   * that there are fewer recovery slices than lost ones, that one of the first as many or a present
   * slice cannot be read, that these recovery slices do not determine the lost ones, or that a
   * write failed.
   */
  lemma VerdictMeans(files: Files, rs: RecoverySet, verify: seq<FileVerify>, fault: Option<Fault>)
    requires !AllOk(verify)
    ensures var missing := Select(LostFlags(rs, verify), |AllSlices(rs)|);
            var k := |missing|;
            match Verdict(files, rs, verify, fault)
            case Success(count, names) => count == k <= |rs.recovery| && forall name :: name in names <==> LosesFrom(rs, missing, name)
            case Failure(NotEnoughRecoverySlices(needed, available)) => needed == k > available == |rs.recovery|
            case Failure(ReadFailed) =>
              k <= |rs.recovery| && (Unread(files, rs, missing) || exists i :: 0 <= i < k && rs.recovery[i].stored.None?)
            case Failure(SingularMatrix) =>
              && k <= |rs.recovery| && !Unread(files, rs, missing) && (forall i :: 0 <= i < k ==> rs.recovery[i].stored.Some?)
              && !Nonsingular(RepairMatrix(missing, seq(k, i requires 0 <= i < k => rs.recovery[i].exponent)))
            case Failure(WriteFailed) => fault.Some? && fault.value.at < k <= |rs.recovery| && !Unread(files, rs, missing)
  {
    var lost := LostFlags(rs, verify);
    var missing := Select(lost, |lost|);
    SelectIndices(lost);
    NamesOfMissing(rs, missing, |missing|);
    assert missing[..|missing|] == missing;
    ReadableMeans(files, rs, lost);
    hide AllSlices, LostFlags, Select, Nonsingular, RepairMatrix, RepairedNames, Readable, Unread, LosesFrom;
    if |missing| <= |rs.recovery| {
      assert Exponents(rs, |missing|) == seq(|missing|, i requires 0 <= i < |missing| => rs.recovery[i].exponent);
    }
  }

  // ---- When repair succeeds ----

  lemma IntactIsReadable(files: Files, rs: RecoverySet, lost: seq<bool>, originals: seq<seq<Byte>>)
    requires HasOriginals(rs, originals) && |lost| == |AllSlices(rs)| && PresentIntact(files, rs, lost, originals)
    ensures Readable(files, rs, lost, |lost|)
  {
    hide AllSlices, ReadSlice, SourceSlices;
  }

  /** With consecutive exponents, enough readable recovery slices and at most 32768 source slices,
      repair of a genuine set always succeeds if no write fails. */
  lemma RepairSucceeds(files: Files, rs: RecoverySet, verify: seq<FileVerify>, originals: seq<seq<Byte>>, start: nat)
    requires Genuine(files, rs, verify, originals)
    requires |AllSlices(rs)| <= MAX_SLICES
    requires |Select(LostFlags(rs, verify), |AllSlices(rs)|)| <= |rs.recovery|
    requires Progression(Exponents(rs, |rs.recovery|), start, 1) && Loadable(rs, |rs.recovery|)
    ensures Verdict(files, rs, verify, None).Success?
  {
    hide AllSlices, LostFlags, Select, Encodes, PresentIntact, Readable, RepairMatrix, Nonsingular;
    var lost := LostFlags(rs, verify);
    var missing := Select(lost, |lost|);
    IntactIsReadable(files, rs, lost, originals);
    SelectFlagged(lost, |lost|);
    SelectIndices(lost);
    forall i | 0 <= i < |missing|
      ensures Exponents(rs, |missing|)[i] == Exponents(rs, |rs.recovery|)[i]
    {
    }
    ConsecutiveRepair(missing, Exponents(rs, |missing|), start);
  }
}
