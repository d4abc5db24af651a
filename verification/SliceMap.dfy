/** Which bytes of which file each source slice covers, and which slices are lost. */
module SliceMap {
  import opened Common
  import opened MulTables
  import opened Numbers

  datatype FileEntry = FileEntry(filename: string, length: nat)

  /** A recovery slice: its exponent and the bytes stored for it, if they can be read. */
  datatype RecoverySlice = RecoverySlice(exponent: nat, stored: Option<seq<Byte>>)

  datatype RecoverySet = RecoverySet(sliceSize: nat, files: seq<FileEntry>, recovery: seq<RecoverySlice>)

  datatype FileStatus = Ok | Missing | Damaged(badSlices: seq<nat>)

  datatype FileVerify = FileVerify(filename: string, status: FileStatus)

  datatype GlobalSlice = GlobalSlice(fileIdx: nat, localIdx: nat, fileOffset: nat, writeLen: nat)

  /** length.div_ceil(slice_size), or no slices at all when the size is zero. */
  function SliceCount(rs: RecoverySet, entry: FileEntry): nat {
    if rs.sliceSize == 0 then 0 else (entry.length + rs.sliceSize - 1) / rs.sliceSize
  }

  lemma SliceFits(rs: RecoverySet, entry: FileEntry, local: nat)
    requires local < SliceCount(rs, entry)
    ensures local * rs.sliceSize < entry.length
  {
    var s, n := rs.sliceSize, SliceCount(rs, entry);
    assert entry.length + s - 1 == s * n + (entry.length + s - 1) % s;
    assert s * n == local * s + s * (n - local);
    MultipleSize(s, n - local);
  }

  lemma SlicesCover(rs: RecoverySet, entry: FileEntry)
    requires rs.sliceSize > 0
    ensures SliceCount(rs, entry) * rs.sliceSize >= entry.length
  {
    var s, n := rs.sliceSize, SliceCount(rs, entry);
    assert entry.length + s - 1 == s * n + (entry.length + s - 1) % s;
  }

  function SliceOf(rs: RecoverySet, fileIdx: nat, local: nat): (gs: GlobalSlice)
    requires fileIdx < |rs.files| && local < SliceCount(rs, rs.files[fileIdx])
    ensures gs.fileIdx == fileIdx && gs.localIdx == local
    ensures 0 < gs.writeLen <= rs.sliceSize
    ensures gs.fileOffset + gs.writeLen <= rs.files[fileIdx].length
  {
    SliceFits(rs, rs.files[fileIdx], local);
    var offset := local * rs.sliceSize;
    GlobalSlice(fileIdx, local, offset, Min(rs.files[fileIdx].length - offset, rs.sliceSize))
  }

  function FileSlices(rs: RecoverySet, fileIdx: nat, count: nat): (slices: seq<GlobalSlice>)
    requires fileIdx < |rs.files| && count <= SliceCount(rs, rs.files[fileIdx])
    ensures |slices| == count
  {
    seq(count, local requires 0 <= local < count => SliceOf(rs, fileIdx, local))
  }

  /** The slices of the first n files, file by file. */
  function SlicesUpTo(rs: RecoverySet, n: nat): seq<GlobalSlice>
    requires n <= |rs.files|
  {
    if n == 0 then [] else SlicesUpTo(rs, n - 1) + FileSlices(rs, n - 1, SliceCount(rs, rs.files[n - 1]))
  }

  function AllSlices(rs: RecoverySet): seq<GlobalSlice> {
    SlicesUpTo(rs, |rs.files|)
  }

  method BuildGlobalSliceMap(rs: RecoverySet) returns (slices: seq<GlobalSlice>)
    ensures slices == AllSlices(rs)
  {
    slices := [];
    for fileIdx := 0 to |rs.files|
      invariant slices == SlicesUpTo(rs, fileIdx)
    {
      var count := SliceCount(rs, rs.files[fileIdx]);
      for local := 0 to count
        invariant slices == SlicesUpTo(rs, fileIdx) + FileSlices(rs, fileIdx, local)
      {
        SliceFits(rs, rs.files[fileIdx], local);
        var offset := local * rs.sliceSize;
        var remaining := rs.files[fileIdx].length - offset;
        slices := slices + [GlobalSlice(fileIdx, local, offset, Min(remaining, rs.sliceSize))];
        assert FileSlices(rs, fileIdx, local) + [SliceOf(rs, fileIdx, local)] == FileSlices(rs, fileIdx, local + 1);
      }
    }
  }

  ghost predicate IsSliceOf(rs: RecoverySet, gs: GlobalSlice) {
    && gs.fileIdx < |rs.files|
    && gs.localIdx < SliceCount(rs, rs.files[gs.fileIdx])
    && gs == SliceOf(rs, gs.fileIdx, gs.localIdx)
  }

  /** The map lists every slice of every file exactly once. */
  lemma {:induction false} SlicesUpToLists(rs: RecoverySet, n: nat)
    requires n <= |rs.files|
    ensures forall j :: 0 <= j < |SlicesUpTo(rs, n)| ==> IsSliceOf(rs, SlicesUpTo(rs, n)[j]) && SlicesUpTo(rs, n)[j].fileIdx < n
    ensures forall gs :: IsSliceOf(rs, gs) && gs.fileIdx < n ==> gs in SlicesUpTo(rs, n)
    ensures forall i, j :: 0 <= i < j < |SlicesUpTo(rs, n)| ==> SlicesUpTo(rs, n)[i] != SlicesUpTo(rs, n)[j]
  {
    if n != 0 {
      SlicesUpToLists(rs, n - 1);
      var earlier, last := SlicesUpTo(rs, n - 1), FileSlices(rs, n - 1, SliceCount(rs, rs.files[n - 1]));
      assert SlicesUpTo(rs, n) == earlier + last;
      forall gs | IsSliceOf(rs, gs) && gs.fileIdx < n
        ensures gs in SlicesUpTo(rs, n)
      {
        if gs.fileIdx == n - 1 {
          assert gs == last[gs.localIdx];
        }
      }
    }
  }

  /** The slices of a file tile it: every byte position lies in exactly one of them. */
  lemma SliceHoldsByte(rs: RecoverySet, fileIdx: nat, local: nat, pos: nat)
    requires fileIdx < |rs.files| && local < SliceCount(rs, rs.files[fileIdx])
    requires pos < rs.files[fileIdx].length
    ensures var gs := SliceOf(rs, fileIdx, local);
            gs.fileOffset <= pos < gs.fileOffset + gs.writeLen <==> local == pos / rs.sliceSize
  {
    var s := rs.sliceSize;
    assert pos == s * (pos / s) + pos % s;
    assert s * (pos / s - local) == s * (pos / s) - local * s;
    MultipleSize(s, pos / s - local);
  }

  lemma ByteHasSlice(rs: RecoverySet, fileIdx: nat, pos: nat)
    requires fileIdx < |rs.files| && rs.sliceSize > 0 && pos < rs.files[fileIdx].length
    ensures pos / rs.sliceSize < SliceCount(rs, rs.files[fileIdx])
  {
    var s, n := rs.sliceSize, SliceCount(rs, rs.files[fileIdx]);
    SlicesCover(rs, rs.files[fileIdx]);
    assert pos == s * (pos / s) + pos % s;
    assert s * (n - pos / s) == n * s - s * (pos / s);
    MultipleSize(s, n - pos / s);
  }

  // ---- Which slices are lost ----

  /** The status of the first entry with the given name. */
  function FindStatus(verify: seq<FileVerify>, name: string): Option<FileStatus> {
    if verify == [] then None
    else if verify[0].filename == name then Some(verify[0].status)
    else FindStatus(verify[1..], name)
  }

  function IsLost(rs: RecoverySet, verify: seq<FileVerify>, gs: GlobalSlice): bool
    requires gs.fileIdx < |rs.files|
  {
    match FindStatus(verify, rs.files[gs.fileIdx].filename)
    case None => true
    case Some(Ok) => false
    case Some(Missing) => true
    case Some(Damaged(bad)) => gs.localIdx in bad
  }

  /** For every slice of the map, whether it is lost. */
  function LostFlags(rs: RecoverySet, verify: seq<FileVerify>): (flags: seq<bool>)
    ensures |flags| == |AllSlices(rs)|
  {
    SlicesUpToLists(rs, |rs.files|);
    var slices := AllSlices(rs);
    seq(|slices|, j requires 0 <= j < |slices| => IsLost(rs, verify, slices[j]))
  }

  /** The indices below n that are flagged, in increasing order. */
  function Select(flags: seq<bool>, n: nat): seq<nat>
    requires n <= |flags|
  {
    if n == 0 then [] else Select(flags, n - 1) + (if flags[n - 1] then [n - 1] else [])
  }

  lemma {:induction false} SelectFlagged(flags: seq<bool>, n: nat)
    requires n <= |flags|
    ensures forall j :: j in Select(flags, n) <==> 0 <= j < n && flags[j]
    ensures forall c, d :: 0 <= c < d < |Select(flags, n)| ==> Select(flags, n)[c] < Select(flags, n)[d]
    ensures |Select(flags, n)| <= n
  {
    if n != 0 {
      SelectFlagged(flags, n - 1);
      var earlier := Select(flags, n - 1);
      assert forall c :: 0 <= c < |earlier| ==> earlier[c] in earlier;
    }
  }

  /** The v-th entry is the first with the name. */
  predicate FirstNamed(verify: seq<FileVerify>, v: nat, name: string) {
    v < |verify| && verify[v].filename == name && forall u :: 0 <= u < v ==> verify[u].filename != name
  }

  /**
   * What the verification says of a slice, by the first entry with its file's name: nothing of an Ok
   * file is missing, all of a Missing one, and exactly the bad slices of a Damaged one. A file
   * without an entry is missing as a whole.
   */
  ghost predicate AsVerified(rs: RecoverySet, verify: seq<FileVerify>, missing: seq<nat>) {
    forall j, f: nat :: 0 <= j < |AllSlices(rs)| && f < |rs.files| && AllSlices(rs)[j].fileIdx == f ==>
      && ((forall v :: 0 <= v < |verify| ==> verify[v].filename != rs.files[f].filename) ==> j in missing)
      && forall v: nat :: FirstNamed(verify, v, rs.files[f].filename) ==>
           match verify[v].status
           case Ok => j !in missing
           case Missing => j in missing
           case Damaged(bad) => j in missing <==> AllSlices(rs)[j].localIdx in bad
  }

  lemma {:induction false} StatusOfFirst(verify: seq<FileVerify>, v: nat, name: string)
    requires FirstNamed(verify, v, name)
    ensures FindStatus(verify, name) == Some(verify[v].status)
  {
    if v > 0 {
      StatusOfFirst(verify[1..], v - 1, name);
    }
  }

  lemma {:induction false} NoStatus(verify: seq<FileVerify>, name: string)
    requires forall v :: 0 <= v < |verify| ==> verify[v].filename != name
    ensures FindStatus(verify, name) == None
  {
    if verify != [] {
      NoStatus(verify[1..], name);
    }
  }

  /** The slices taken for lost are those that the verification reports. */
  lemma LostAsVerified(rs: RecoverySet, verify: seq<FileVerify>)
    ensures AsVerified(rs, verify, Select(LostFlags(rs, verify), |AllSlices(rs)|))
  {
    hide Select, SlicesUpTo, FindStatus;
    var flags := LostFlags(rs, verify);
    var missing := Select(flags, |AllSlices(rs)|);
    SelectFlagged(flags, |AllSlices(rs)|);
    SlicesUpToLists(rs, |rs.files|);
    forall j, f: nat | 0 <= j < |AllSlices(rs)| && f < |rs.files| && AllSlices(rs)[j].fileIdx == f
      ensures (forall v :: 0 <= v < |verify| ==> verify[v].filename != rs.files[f].filename) ==> j in missing
      ensures forall v: nat :: FirstNamed(verify, v, rs.files[f].filename) ==>
                match verify[v].status
                case Ok => j !in missing
                case Missing => j in missing
                case Damaged(bad) => j in missing <==> AllSlices(rs)[j].localIdx in bad
    {
      var name := rs.files[f].filename;
      if forall v :: 0 <= v < |verify| ==> verify[v].filename != name {
        NoStatus(verify, name);
      }
      forall v: nat | FirstNamed(verify, v, name)
        ensures FindStatus(verify, name) == Some(verify[v].status)
      {
        StatusOfFirst(verify, v, name);
      }
    }
  }

  method FindMissing(rs: RecoverySet, verify: seq<FileVerify>, slices: seq<GlobalSlice>) returns (missing: seq<nat>)
    requires slices == AllSlices(rs)
    ensures missing == Select(LostFlags(rs, verify), |slices|) && AsVerified(rs, verify, missing)
  {
    hide AsVerified, SliceOf, SliceCount, SlicesUpTo;
    SlicesUpToLists(rs, |rs.files|);
    LostAsVerified(rs, verify);
    missing := [];
    for j := 0 to |slices|
      invariant missing == Select(LostFlags(rs, verify), j)
    {
      if IsLost(rs, verify, slices[j]) {
        missing := missing + [j];
      }
    }
  }

  predicate AllOk(verify: seq<FileVerify>) {
    forall i :: 0 <= i < |verify| ==> verify[i].status == Ok
  }

  /** Every file that has slices is listed. */
  predicate Covers(rs: RecoverySet, verify: seq<FileVerify>) {
    forall f :: 0 <= f < |rs.files| && SliceCount(rs, rs.files[f]) > 0 ==> FindStatus(verify, rs.files[f].filename).Some?
  }

  lemma {:induction false} FoundStatusIsListed(verify: seq<FileVerify>, name: string)
    requires AllOk(verify) && FindStatus(verify, name).Some?
    ensures FindStatus(verify, name) == Some(Ok)
  {
    if verify[0].filename != name {
      FoundStatusIsListed(verify[1..], name);
    }
  }

  lemma CoveredLosesNothing(rs: RecoverySet, verify: seq<FileVerify>)
    requires AllOk(verify) && Covers(rs, verify)
    ensures Select(LostFlags(rs, verify), |AllSlices(rs)|) == []
  {
    hide Select, SliceOf, SliceCount, SlicesUpTo, AllOk;
    var flags, n := LostFlags(rs, verify), |AllSlices(rs)|;
    SlicesUpToLists(rs, |rs.files|);
    forall j | 0 <= j < n
      ensures !flags[j]
    {
      FoundStatusIsListed(verify, rs.files[AllSlices(rs)[j].fileIdx].filename);
    }
    SelectNone(flags, n);
  }

  lemma UncoveredLoses(rs: RecoverySet, verify: seq<FileVerify>, f: nat)
    requires f < |rs.files| && SliceCount(rs, rs.files[f]) > 0 && FindStatus(verify, rs.files[f].filename).None?
    ensures Select(LostFlags(rs, verify), |AllSlices(rs)|) != []
  {
    hide Select, SliceOf, SliceCount, SlicesUpTo;
    var flags, n := LostFlags(rs, verify), |AllSlices(rs)|;
    SlicesUpToLists(rs, |rs.files|);
    var gs := SliceOf(rs, f, 0);
    assert IsSliceOf(rs, gs);
    var j :| 0 <= j < n && AllSlices(rs)[j] == gs;
    SelectFlagged(flags, n);
    assert j in Select(flags, n);
  }

  /** When every verdict is Ok, nothing is lost if and only if every file with slices is listed. */
  lemma NothingLost(rs: RecoverySet, verify: seq<FileVerify>)
    requires AllOk(verify)
    ensures Select(LostFlags(rs, verify), |AllSlices(rs)|) == [] <==> Covers(rs, verify)
  {
    hide Select, AllSlices, LostFlags, SliceCount;
    if Covers(rs, verify) {
      CoveredLosesNothing(rs, verify);
    } else {
      var f :| 0 <= f < |rs.files| && SliceCount(rs, rs.files[f]) > 0 && FindStatus(verify, rs.files[f].filename).None?;
      UncoveredLoses(rs, verify, f);
    }
  }

  /** The verifier returns one entry for each file of the set, so nothing is left out. */
  lemma VerifierCovers(rs: RecoverySet, verify: seq<FileVerify>)
    requires |verify| == |rs.files| && forall f :: 0 <= f < |rs.files| ==> verify[f].filename == rs.files[f].filename
    ensures Covers(rs, verify)
  {
    forall f | 0 <= f < |rs.files|
      ensures FindStatus(verify, rs.files[f].filename).Some?
    {
      Listed(verify, f);
    }
  }

  lemma {:induction false} Listed(verify: seq<FileVerify>, i: nat)
    requires i < |verify|
    ensures FindStatus(verify, verify[i].filename).Some?
  {
    if i > 0 {
      Listed(verify[1..], i - 1);
    }
  }

  lemma {:induction false} SelectNone(flags: seq<bool>, n: nat)
    requires n <= |flags| && forall j :: 0 <= j < n ==> !flags[j]
    ensures Select(flags, n) == []
  {
    if n != 0 {
      SelectNone(flags, n - 1);
    }
  }

  lemma {:induction false} SlicesPrefix(rs: RecoverySet, n: nat, m: nat)
    requires n <= m <= |rs.files|
    ensures SlicesUpTo(rs, n) <= SlicesUpTo(rs, m)
  {
    if n < m {
      SlicesPrefix(rs, n, m - 1);
    }
  }

  /** Slice local of file n sits right after the slices of the earlier files. */
  lemma SlicePosition(rs: RecoverySet, n: nat, local: nat)
    requires n < |rs.files| && local < SliceCount(rs, rs.files[n])
    ensures var j := |SlicesUpTo(rs, n)| + local;
            j < |AllSlices(rs)| && AllSlices(rs)[j] == SliceOf(rs, n, local)
  {
    SlicesPrefix(rs, n + 1, |rs.files|);
    var earlier, last := SlicesUpTo(rs, n), FileSlices(rs, n, SliceCount(rs, rs.files[n]));
    assert SlicesUpTo(rs, n + 1)[|earlier| + local] == last[local];
  }
}
