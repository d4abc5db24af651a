/** Which articles of a file are done: a bitset snapshot plus a write-ahead log. */
module ArticleLog {
  import opened Bits
  import opened Common

  type Word32 = n: nat | n < 0x1_0000_0000

  datatype Record = Record(index: Word32, crc: Word32)

  // ---- Bits of a byte ----

  /** value & (1 << k) != 0 */
  predicate BitSet(v: nat, k: nat) {
    if k == 0 then v % 2 == 1 else BitSet(v / 2, k - 1)
  }

  /** value | 1 << k */
  function WithBit(v: nat, k: nat): nat {
    if k == 0 then 2 * (v / 2) + 1 else 2 * WithBit(v / 2, k - 1) + v % 2
  }

  function CountOnes(v: nat): nat {
    if v == 0 then 0 else v % 2 + CountOnes(v / 2)
  }

  lemma {:induction false} WithBitFits(v: nat, k: nat, n: nat)
    requires v < Two(n) && k < n
    ensures WithBit(v, k) < Two(n)
  {
    var half := Two(n - 1);
    HalfFits(v, half);
    if k == 0 {
      PairFits(v / 2, 1, half);
    } else {
      WithBitFits(v / 2, k - 1, n - 1);
      PairFits(WithBit(v / 2, k - 1), v % 2, half);
    }
  }

  lemma HalfFits(v: nat, t: nat)
    requires v < 2 * t
    ensures v / 2 < t
  {
  }

  lemma PairFits(h: nat, bit: nat, t: nat)
    requires h < t && bit < 2
    ensures 2 * h + bit < 2 * t
  {
  }

  lemma WithBitByte(v: Byte, k: nat)
    requires k < 8
    ensures WithBit(v, k) < 256
  {
    TwoLiterals();
    WithBitFits(v, k, 8);
  }

  /** Setting a bit sets it and no other. */
  lemma {:induction false} WithBitSets(v: nat, k: nat, j: nat)
    ensures BitSet(WithBit(v, k), j) <==> j == k || BitSet(v, j)
  {
    if k == 0 {
      assert WithBit(v, 0) / 2 == v / 2;
    } else {
      assert WithBit(v, k) / 2 == WithBit(v / 2, k - 1) && WithBit(v, k) % 2 == v % 2;
      if j > 0 {
        WithBitSets(v / 2, k - 1, j - 1);
      }
    }
  }

  /** Setting a bit that is set changes nothing. */
  lemma {:induction false} WithBitAgain(v: nat, k: nat)
    requires BitSet(v, k)
    ensures WithBit(v, k) == v
  {
    if k > 0 {
      WithBitAgain(v / 2, k - 1);
    }
  }

  lemma {:induction false} WithBitCount(v: nat, k: nat)
    requires !BitSet(v, k)
    ensures CountOnes(WithBit(v, k)) == CountOnes(v) + 1
  {
    if k == 0 {
      assert WithBit(v, 0) / 2 == v / 2 && WithBit(v, 0) % 2 == 1;
    } else {
      assert WithBit(v, k) / 2 == WithBit(v / 2, k - 1) && WithBit(v, k) % 2 == v % 2;
      WithBitCount(v / 2, k - 1);
      SomeBit(WithBit(v / 2, k - 1), k - 1);
    }
  }

  lemma {:induction false} SomeBit(v: nat, k: nat)
    ensures CountOnes(v) > 0 ==> v > 0
  {
  }

  // ---- The bitset ----

  /** is_article_done */
  predicate Done(bits: Bytes, index: nat) {
    index / 8 < |bits| && BitSet(bits[index / 8], index % 8)
  }

  function Grown(bits: Bytes, n: nat): (r: Bytes)
    ensures |r| == if n > |bits| then n else |bits|
    ensures forall i :: 0 <= i < |r| ==> r[i] == if i < |bits| then bits[i] else 0
  {
    if n > |bits| then bits + seq(n - |bits|, _ => 0) else bits
  }

  function Marked(bits: Bytes, index: nat): (r: Bytes)
    ensures |r| == if index / 8 + 1 > |bits| then index / 8 + 1 else |bits|
  {
    var grown := Grown(bits, index / 8 + 1);
    WithBitByte(grown[index / 8], index % 8);
    grown[index / 8 := WithBit(grown[index / 8], index % 8)]
  }

  lemma GrownIs(bits: Bytes, n: nat, grown: Bytes)
    requires |grown| == if n > |bits| then n else |bits|
    requires forall i :: 0 <= i < |grown| ==> grown[i] == if i < |bits| then bits[i] else 0
    ensures grown == Grown(bits, n)
  {
  }

  lemma MarkedByte(bits: Bytes, index: nat)
    ensures var grown := Grown(bits, index / 8 + 1);
            && WithBit(grown[index / 8], index % 8) < 256
            && Marked(bits, index) == grown[index / 8 := WithBit(grown[index / 8], index % 8)]
  {
    WithBitByte(Grown(bits, index / 8 + 1)[index / 8], index % 8);
  }

  lemma {:induction false} ZeroBit(k: nat)
    ensures !BitSet(0, k)
  {
    if k > 0 {
      ZeroBit(k - 1);
    }
  }

  lemma MarkedDone(bits: Bytes, index: nat, other: nat)
    ensures Done(Marked(bits, index), other) <==> other == index || Done(bits, other)
  {
    var grown := Grown(bits, index / 8 + 1);
    WithBitSets(grown[index / 8], index % 8, other % 8);
    ZeroBit(other % 8);
    hide BitSet, WithBit;
  }

  lemma MarkedAgain(bits: Bytes, index: nat)
    requires Done(bits, index)
    ensures Marked(bits, index) == bits
  {
    WithBitAgain(bits[index / 8], index % 8);
  }

  /** The bit of an index has the weight of its remainder by eight in the byte of its quotient. */
  lemma MarkedWeight(bits: Bytes, index: nat)
    requires !Done(bits, index)
    ensures Marked(bits, index)[index / 8] == (if index / 8 < |bits| then bits[index / 8] else 0) + Two(index % 8)
  {
    var grown := Grown(bits, index / 8 + 1);
    ZeroBit(index % 8);
    WithBitByte(grown[index / 8], index % 8);
    WithBitAdds(grown[index / 8], index % 8);
    hide BitSet, WithBit;
  }

  lemma {:induction false} WithBitAdds(v: nat, k: nat)
    requires !BitSet(v, k)
    ensures WithBit(v, k) == v + Two(k)
  {
    if k > 0 {
      WithBitAdds(v / 2, k - 1);
    }
  }

  function Count(bits: Bytes): nat {
    if bits == [] then 0 else Count(bits[..|bits| - 1]) + CountOnes(bits[|bits| - 1])
  }

  lemma {:induction false} CountUpdate(bits: Bytes, i: nat, b: Byte)
    requires i < |bits|
    ensures Count(bits[i := b]) + CountOnes(bits[i]) == Count(bits) + CountOnes(b)
  {
    hide CountOnes;
    var last := |bits| - 1;
    if i == last {
      assert bits[i := b][..last] == bits[..last];
    } else {
      CountUpdate(bits[..last], i, b);
      assert bits[i := b][..last] == bits[..last][i := b];
    }
  }

  lemma {:induction false} CountGrown(bits: Bytes, n: nat)
    ensures Count(Grown(bits, n)) == Count(bits)
    decreases n
  {
    if n > |bits| {
      CountGrown(bits, n - 1);
      assert Grown(bits, n)[..n - 1] == Grown(bits, n - 1);
    } else {
      assert Grown(bits, n) == bits;
    }
  }

  /** Marking counts once. */
  lemma MarkedCount(bits: Bytes, index: nat)
    ensures Count(Marked(bits, index)) == Count(bits) + if Done(bits, index) then 0 else 1
  {
    if Done(bits, index) {
      MarkedAgain(bits, index);
    } else {
      var grown := Grown(bits, index / 8 + 1);
      CountGrown(bits, index / 8 + 1);
      ZeroBit(index % 8);
      WithBitByte(grown[index / 8], index % 8);
      WithBitCount(grown[index / 8], index % 8);
      CountUpdate(grown, index / 8, WithBit(grown[index / 8], index % 8));
    }
  }

  // ---- The state ----

  datatype FileState = FileState(total: Word32, bits: Bytes, crcs: map<Word32, Word32>)

  function Fresh(total: Word32): FileState {
    FileState(total, seq((total + 7) / 8, _ => 0), map[])
  }

  /** A fresh bitset has room for every article and no byte to spare, so marking them never makes it grow. */
  lemma FreshFits(total: Word32, index: nat)
    ensures index < total ==> |Marked(Fresh(total).bits, index)| == |Fresh(total).bits|
    ensures 8 * |Fresh(total).bits| < total + 8
  {
  }

  /** mark_article_done */
  function Mark(s: FileState, r: Record): FileState {
    s.(bits := Marked(s.bits, r.index), crcs := s.crcs[r.index := r.crc])
  }

  function Replay(s: FileState, records: seq<Record>): FileState {
    if records == [] then s
    else Mark(Replay(s, records[..|records| - 1]), records[|records| - 1])
  }

  /** The bits of a state are exactly the articles whose checksum is known. */
  ghost predicate Consistent(s: FileState) {
    && (forall i: nat :: Done(s.bits, i) <==> i in s.crcs)
    && Count(s.bits) == |s.crcs|
  }

  lemma {:induction false} CountZeros(n: nat)
    ensures Count(seq(n, _ => 0)) == 0
  {
    if n > 0 {
      CountZeros(n - 1);
      assert seq(n, _ => 0 as Byte)[..n - 1] == seq(n - 1, _ => 0);
    }
  }

  lemma FreshConsistent(total: Word32)
    ensures Consistent(Fresh(total))
  {
    CountZeros((total + 7) / 8);
    forall i: nat
      ensures !Done(Fresh(total).bits, i)
    {
      ZeroBit(i % 8);
    }
  }

  lemma MarkConsistent(s: FileState, r: Record)
    requires Consistent(s)
    ensures Consistent(Mark(s, r))
  {
    MarkedCount(s.bits, r.index);
    forall i: nat
      ensures Done(Mark(s, r).bits, i) <==> i in Mark(s, r).crcs
    {
      MarkedDone(s.bits, r.index, i);
    }
    hide Done, Marked, Count;
  }

  lemma {:induction false} ReplayConsistent(s: FileState, records: seq<Record>)
    requires Consistent(s)
    ensures Consistent(Replay(s, records))
  {
    hide Consistent, Mark;
    if records != [] {
      ReplayConsistent(s, records[..|records| - 1]);
      MarkConsistent(Replay(s, records[..|records| - 1]), records[|records| - 1]);
    }
  }

  /** total_articles - completed_count() on unsigned integers: a negative result would wrap or panic. */
  function Remaining(s: FileState): (r: int) {
    s.total - Count(s.bits)
  }

  ghost function UpTo(n: nat): (s: set<nat>)
    ensures |s| == n && forall i: nat :: i in s <==> i < n
  {
    if n == 0 then {} else UpTo(n - 1) + {n - 1}
  }

  ghost function Undone(s: FileState): set<nat> {
    set i | i in UpTo(s.total) && !Done(s.bits, i)
  }

  /** What remains is the number of undone articles exactly when no index beyond the total was marked. */
  lemma RemainingExact(s: FileState)
    requires Consistent(s)
    ensures Remaining(s) == |Undone(s)| <==> forall i :: i in s.crcs ==> i < s.total
  {
    hide Done, Count;
    var all := UpTo(s.total);
    var below: set<nat> := set i | i in all && Done(s.bits, i);
    var beyond: set<nat> := set i: nat | i in s.crcs.Keys && i >= s.total :: i;
    assert Undone(s) + below == all;
    assert Undone(s) !! below && below !! beyond;
    var keys := below + beyond;
    forall k: nat
      ensures k in keys <==> k < 0x1_0000_0000 && k in s.crcs.Keys
    {
      assert Done(s.bits, k) <==> k in s.crcs;
    }
    SameSize(s.crcs.Keys, keys);
    assert |keys| == |below| + |beyond|;
    assert beyond == {} <==> forall i :: i in s.crcs ==> i < s.total;
  }

  lemma {:induction false} SameSize(a: set<Word32>, b: set<nat>)
    requires forall k: nat :: k in b <==> k < 0x1_0000_0000 && k in a
    ensures |a| == |b|
  {
    if a == {} {
      assert b == {};
    } else {
      var k :| k in a;
      SameSize(a - {k}, b - {k});
    }
  }

  // ---- Replaying ----

  /** The last checksum recorded for each index. */
  function LastOf(records: seq<Record>): map<Word32, Word32> {
    if records == [] then map[]
    else LastOf(records[..|records| - 1])[records[|records| - 1].index := records[|records| - 1].crc]
  }

  lemma {:induction false} ReplayCrcs(s: FileState, records: seq<Record>)
    ensures Replay(s, records).crcs == s.crcs + LastOf(records)
    ensures Replay(s, records).total == s.total
  {
    hide Marked;
    if records != [] {
      ReplayCrcs(s, records[..|records| - 1]);
    }
  }

  /** Everything replayed is done, and nothing is undone. */
  lemma {:induction false} ReplayDone(s: FileState, records: seq<Record>, index: nat)
    ensures Done(Replay(s, records).bits, index) <==> Done(s.bits, index) || exists r :: r in records && r.index == index
  {
    hide Done, Marked;
    if records != [] {
      var n := |records| - 1;
      ReplayDone(s, records[..n], index);
      MarkedDone(Replay(s, records[..n]).bits, records[n].index, index);
      assert records == records[..n] + [records[n]];
    }
  }

  lemma {:induction false} ReplayBitsAgain(s: FileState, records: seq<Record>)
    requires forall r :: r in records ==> Done(s.bits, r.index)
    ensures Replay(s, records).bits == s.bits
  {
    hide Done, Marked;
    if records != [] {
      var n := |records| - 1;
      assert forall r :: r in records[..n] ==> r in records;
      ReplayBitsAgain(s, records[..n]);
      assert records[n] in records;
      MarkedAgain(s.bits, records[n].index);
    }
  }

  /** Replaying the same log twice is replaying it once. */
  lemma ReplayIdempotent(s: FileState, records: seq<Record>)
    ensures Replay(Replay(s, records), records) == Replay(s, records)
  {
    var t := Replay(s, records);
    forall r | r in records
      ensures Done(t.bits, r.index)
    {
      ReplayDone(s, records, r.index);
    }
    hide Done, Marked, Replay;
    ReplayBitsAgain(t, records);
    ReplayCrcs(s, records);
    ReplayCrcs(t, records);
  }

  lemma {:induction false} ReplayAppend(s: FileState, a: seq<Record>, b: seq<Record>)
    ensures Replay(s, a + b) == Replay(Replay(s, a), b)
    decreases |b|
  {
    hide Mark;
    if b == [] {
      assert a + b == a;
    } else {
      ReplayAppend(s, a, b[..|b| - 1]);
      assert (a + b)[..|a + b| - 1] == a + b[..|b| - 1];
    }
  }

  // ---- The log file ----

  /** u32::to_le_bytes */
  function LittleEndian(w: Word32): (r: Bytes)
    ensures |r| == 4
  {
    [w % 256, w / 256 % 256, w / 65536 % 256, w / 16777216]
  }

  function FromLittleEndian(b: Bytes): Word32
    requires |b| == 4
  {
    var b0: nat, b1: nat, b2: nat, b3: nat := b[0], b[1], b[2], b[3];
    b0 + 256 * b1 + 65536 * b2 + 16777216 * b3
  }

  lemma LittleEndianRoundTrip(w: Word32)
    ensures FromLittleEndian(LittleEndian(w)) == w
  {
    var h, m := w / 256, w / 65536;
    assert w == 256 * h + w % 256;
    assert h / 256 == m && h == 256 * m + h % 256;
    assert m / 256 == w / 16777216 && m == 256 * (w / 16777216) + m % 256;
  }

  function Encode(r: Record): (b: Bytes)
    ensures |b| == 8
  {
    LittleEndian(r.index) + LittleEndian(r.crc)
  }

  function Decode(b: Bytes): Record
    requires |b| == 8
  {
    Record(FromLittleEndian(b[..4]), FromLittleEndian(b[4..]))
  }

  lemma DecodeEncode(r: Record)
    ensures Decode(Encode(r)) == r
  {
    assert Encode(r)[..4] == LittleEndian(r.index) && Encode(r)[4..] == LittleEndian(r.crc);
    LittleEndianRoundTrip(r.index);
    LittleEndianRoundTrip(r.crc);
  }

  function EncodeAll(records: seq<Record>): (b: Bytes)
    ensures |b| == 8 * |records|
  {
    if records == [] then [] else EncodeAll(records[..|records| - 1]) + Encode(records[|records| - 1])
  }

  /** The bytes of the i-th record. */
  function RecordBytes(log: Bytes, i: nat): (b: Bytes)
    requires 8 * (i + 1) <= |log|
    ensures |b| == 8
  {
    log[8 * i..8 * i + 8]
  }

  /** The whole records of a log; a torn one at the end is ignored. */
  function Records(log: Bytes): (r: seq<Record>)
    ensures |r| == |log| / 8
  {
    seq(|log| / 8, i requires 0 <= i < |log| / 8 => Decode(RecordBytes(log, i)))
  }

  lemma RecordAt(log: Bytes, i: nat)
    requires i < |log| / 8
    ensures 8 * (i + 1) <= |log| && Records(log)[i] == Decode(RecordBytes(log, i))
  {
  }

  lemma {:induction false} EncodedAt(records: seq<Record>, i: nat)
    requires i < |records|
    ensures RecordBytes(EncodeAll(records), i) == Encode(records[i])
  {
    var n := |records| - 1;
    if i < n {
      EncodedAt(records[..n], i);
    }
  }

  lemma RecordBytesOfPrefix(log: Bytes, more: Bytes, i: nat)
    requires 8 * (i + 1) <= |log|
    ensures RecordBytes(log + more, i) == RecordBytes(log, i)
  {
  }

  lemma RecordBytesBehind(log: Bytes, m: nat, more: Bytes, i: nat)
    requires |log| == 8 * m && 8 * (i + 1) <= |more|
    ensures RecordBytes(log + more, m + i) == RecordBytes(more, i)
  {
  }

  /** The j-th record behind a log of m records, in an append that may be cut short. */
  lemma TornAt(log: Bytes, m: nat, records: seq<Record>, torn: Bytes, j: nat)
    requires |log| == 8 * m && torn <= EncodeAll(records) && 8 * (j + 1) <= |torn|
    ensures j < |records| && Records(log + torn)[m + j] == records[j]
  {
    hide RecordBytes, EncodeAll, Encode, Decode, Records;
    var rest := EncodeAll(records)[|torn|..];
    assert torn + rest == EncodeAll(records);
    RecordAt(log + torn, m + j);
    RecordBytesBehind(log, m, torn, j);
    RecordBytesOfPrefix(torn, rest, j);
    EncodedAt(records, j);
    DecodeEncode(records[j]);
  }

  lemma TornBefore(log: Bytes, more: Bytes, i: nat)
    requires 8 * (i + 1) <= |log|
    ensures Records(log + more)[i] == Records(log)[i]
  {
    hide RecordBytes, Decode, Records;
    RecordAt(log + more, i);
    RecordAt(log, i);
    RecordBytesOfPrefix(log, more, i);
  }

  lemma WholeRecords(n: nat, m: nat, k: nat, q: nat)
    requires n == 8 * m + k && 8 * q <= k < 8 * q + 8
    ensures n / 8 == m + q
  {
  }

  lemma TornCount(log: Bytes, m: nat, torn: Bytes, q: nat)
    requires |log| == 8 * m && 8 * q <= |torn| < 8 * q + 8
    ensures |Records(log)| == m && |Records(log + torn)| == m + q
  {
    WholeRecords(|log|, m, 0, 0);
    WholeRecords(|log + torn|, m, |torn|, q);
  }

  lemma TornReadAt(log: Bytes, m: nat, records: seq<Record>, torn: Bytes, q: nat, i: nat)
    requires |log| == 8 * m && torn <= EncodeAll(records) && 8 * q <= |torn| && i < m + q
    requires |Records(log)| == m && |Records(log + torn)| == m + q && q <= |records|
    ensures Records(log + torn)[i] == (Records(log) + records[..q])[i]
  {
    hide EncodeAll, Records;
    if i < m {
      TornBefore(log, torn, i);
      assert (Records(log) + records[..q])[i] == Records(log)[i];
    } else {
      TornAt(log, m, records, torn, i - m);
      assert (Records(log) + records[..q])[i] == records[..q][i - m] == records[i - m];
    }
  }

  lemma TornRead(log: Bytes, m: nat, records: seq<Record>, torn: Bytes, q: nat)
    requires |log| == 8 * m && torn <= EncodeAll(records) && 8 * q <= |torn| < 8 * q + 8 && q <= |records|
    ensures Records(log + torn) == Records(log) + records[..q]
  {
    hide EncodeAll, Records;
    TornCount(log, m, torn, q);
    var read, expected := Records(log + torn), Records(log) + records[..q];
    forall i | 0 <= i < |read|
      ensures read[i] == expected[i]
    {
      TornReadAt(log, m, records, torn, q, i);
    }
  }

  /** However an append is cut short, the log holds the records before it and a prefix of the new ones. */
  lemma TornAppend(log: Bytes, records: seq<Record>, k: nat)
    requires |log| % 8 == 0 && k <= 8 * |records|
    ensures Records(log + EncodeAll(records)[..k]) == Records(log) + records[..k / 8]
  {
    hide EncodeAll, Records;
    TornRead(log, |log| / 8, records, EncodeAll(records)[..k], k / 8);
  }

  /** An append is read back for every list of records exactly when the log is not torn before it. */
  lemma AppendReadsBack(log: Bytes)
    ensures |log| % 8 == 0 <==>
              forall records :: Records(log + EncodeAll(records)) == Records(log) + records
  {
    if |log| % 8 == 0 {
      forall records
        ensures Records(log + EncodeAll(records)) == Records(log) + records
      {
        TornAppend(log, records, 8 * |records|);
        assert EncodeAll(records)[..8 * |records|] == EncodeAll(records);
        assert records[..|records|] == records;
      }
    } else {
      TornLogMisreads(log);
    }
  }

  /** Behind a torn record the next one is read with the torn bytes in front. */
  lemma TornLogMisreads(log: Bytes)
    requires |log| % 8 != 0
    ensures exists records :: Records(log + EncodeAll(records)) != Records(log) + records
  {
    var m := |log| / 8;
    var first := log[8 * m];
    var r := Record(if first == 0 then 1 else 0, 0);
    OneRecord(r);
    var after := log + EncodeAll([r]);
    hide EncodeAll;
    assert RecordBytes(after, m)[0] == first;
    FirstByte(RecordBytes(after, m));
    assert Records(after)[m] == Decode(RecordBytes(after, m));
    assert Records(after)[m].index % 256 == first;
    assert (Records(log) + [r])[m] == r;
  }

  lemma OneRecord(r: Record)
    ensures EncodeAll([r]) == Encode(r)
  {
    assert EncodeAll([]) == [];
  }

  lemma FirstByte(b: Bytes)
    requires |b| == 8
    ensures Decode(b).index % 256 == b[0]
  {
  }

  // ---- The files ----

  /** The snapshot and the log of one file on disk. */
  datatype Files = Files(snapshot: Option<FileState>, log: Bytes)

  /** What load_file_state reads; without a snapshot it fails. */
  function Loaded(files: Files): Option<FileState> {
    match files.snapshot
    case None => None
    case Some(s) => Some(Replay(s, Records(files.log)))
  }

  /** A crash in the middle of an append loses at most the last records appended. */
  lemma CrashInAppend(files: Files, records: seq<Record>, k: nat)
    requires |files.log| % 8 == 0 && k <= 8 * |records|
    ensures var after := files.(log := files.log + EncodeAll(records)[..k]);
            Loaded(after) == match Loaded(files) { case None => None case Some(s) => Some(Replay(s, records[..k / 8])) }
  {
    TornAppend(files.log, records, k);
    hide Records, Replay;
    if files.snapshot.Some? {
      ReplayAppend(files.snapshot.value, Records(files.log), records[..k / 8]);
    }
  }

  /** Compacting: before the new snapshot, between it and removing the log, and after. */
  datatype CompactionPoint = BeforeSnapshot | BeforeRemoval | Finished

  function Compacting(files: Files, state: FileState, at: CompactionPoint): Files {
    match at
    case BeforeSnapshot => files
    case BeforeRemoval => files.(snapshot := Some(state))
    case Finished => Files(Some(state), [])
  }

  /** Compacting the loaded state changes nothing that is loaded, wherever it crashes. */
  lemma CrashInCompaction(files: Files, at: CompactionPoint)
    requires files.snapshot.Some?
    ensures Loaded(Compacting(files, Loaded(files).value, at)) == Loaded(files)
  {
    hide Replay, Records;
    ReplayIdempotent(files.snapshot.value, Records(files.log));
    EmptyReplay(Loaded(files).value, []);
  }

  /** After a finished compaction the log is empty: what is appended then is replayed on the snapshot alone. */
  lemma CompactionEmptiesLog(files: Files, records: seq<Record>)
    requires files.snapshot.Some?
    ensures var after := Compacting(files, Loaded(files).value, Finished);
            && |after.log + EncodeAll(records)| == 8 * |records|
            && Loaded(after.(log := after.log + EncodeAll(records))) == Some(Replay(Loaded(files).value, records))
  {
    hide Records, Replay, EncodeAll;
    RecordsOfAll(records);
    assert [] + EncodeAll(records) == EncodeAll(records);
  }

  lemma RecordsOfAll(records: seq<Record>)
    ensures Records(EncodeAll(records)) == records
  {
    hide EncodeAll;
    TornAppend([], records, 8 * |records|);
    assert [] + EncodeAll(records)[..8 * |records|] == EncodeAll(records);
    assert Records([]) == [] && records[..8 * |records| / 8] == records;
    hide Records;
  }

  lemma EmptyReplay(s: FileState, log: Bytes)
    ensures Replay(s, Records(log)[..0]) == s && Replay(s, Records([])) == s
  {
  }

  // ---- The program ----

  class ArticleState {
    const total: Word32
    var completed: Bytes
    var crcs: map<Word32, Word32>

    ghost function Value(): FileState
      reads this
    {
      FileState(total, completed, crcs)
    }

    constructor (total: Word32)
      ensures Value() == Fresh(total) && Consistent(Value())
    {
      FreshConsistent(total);
      this.total, completed, crcs := total, seq((total + 7) / 8, _ => 0), map[];
    }

    constructor Restore(s: FileState)
      ensures Value() == s
    {
      total, completed, crcs := s.total, s.bits, s.crcs;
    }

    method IsArticleDone(index: Word32) returns (done: bool)
      ensures done <==> Done(completed, index)
    {
      var byte, bit := index / 8, index % 8;
      done := byte < |completed| && BitSet(completed[byte], bit);
    }

    method MarkArticleDone(index: Word32, crc: Word32)
      modifies this
      ensures Value() == Mark(old(Value()), Record(index, crc))
      ensures old(Consistent(Value())) ==> Consistent(Value())
    {
      if Consistent(Value()) {
        MarkConsistent(Value(), Record(index, crc));
      }
      hide Consistent, BitSet, WithBit, Done, Grown, Marked;
      var byte, bit := index / 8, index % 8;
      ghost var before := completed;
      if byte >= |completed| {
        completed := completed + seq(byte + 1 - |completed|, _ => 0);
      }
      GrownIs(before, byte + 1, completed);
      MarkedByte(before, index);
      completed := completed[byte := WithBit(completed[byte], bit)];
      crcs := crcs[index := crc];
    }

    method CompletedCount() returns (count: nat)
      ensures count == Count(completed)
      ensures Consistent(Value()) ==> count == |crcs|
    {
      count := 0;
      for i := 0 to |completed|
        invariant count == Count(completed[..i])
      {
        assert completed[..i + 1][..i] == completed[..i];
        count := count + CountOnes(completed[i]);
      }
      assert completed[..|completed|] == completed;
    }
  }

  method AppendLog(log: Bytes, records: seq<Record>) returns (r: Bytes)
    ensures r == log + EncodeAll(records)
  {
    r := log;
    for i := 0 to |records|
      invariant r == log + EncodeAll(records[..i])
    {
      assert records[..i + 1][..i] == records[..i];
      r := r + LittleEndian(records[i].index);
      r := r + LittleEndian(records[i].crc);
    }
    assert records[..|records|] == records;
  }

  method ReplayRecord(state: ArticleState, log: Bytes, i: nat)
    requires 8 * (i + 1) <= |log|
    modifies state
    ensures state.Value() == Mark(old(state.Value()), Decode(RecordBytes(log, i)))
  {
    hide FromLittleEndian, Mark, Decode, RecordBytes;
    var offset := i * 8;
    var index := FromLittleEndian(log[offset..offset + 4]);
    var crc := FromLittleEndian(log[offset + 4..offset + 8]);
    DecodedFields(log, i);
    state.MarkArticleDone(index, crc);
  }

  method LoadFileState(files: Files) returns (state: Option<FileState>)
    ensures state == Loaded(files)
    ensures state.Some? && Consistent(files.snapshot.value) ==> Consistent(state.value)
  {
    if files.snapshot.None? {
      return None;
    }
    hide Records, Replay, Consistent, Mark, Decode, RecordBytes;
    ghost var snapshot, records := files.snapshot.value, Records(files.log);
    EmptyReplay(snapshot, files.log);
    var s := new ArticleState.Restore(files.snapshot.value);
    var full := |files.log| / 8;
    for i := 0 to full
      invariant s.Value() == Replay(snapshot, records[..i])
    {
      ReplayStep(snapshot, files.log, i);
      ReplayRecord(s, files.log, i);
    }
    assert records[..full] == records;
    if Consistent(snapshot) {
      ReplayConsistent(snapshot, records);
    }
    state := Some(FileState(s.total, s.completed, s.crcs));
  }

  lemma ReplayStep(s: FileState, log: Bytes, i: nat)
    requires 8 * (i + 1) <= |log|
    ensures Replay(s, Records(log)[..i + 1]) == Mark(Replay(s, Records(log)[..i]), Decode(RecordBytes(log, i)))
  {
    assert Records(log)[..i + 1][..i] == Records(log)[..i];
  }

  lemma DecodedFields(log: Bytes, i: nat)
    requires 8 * (i + 1) <= |log|
    ensures var offset := i * 8;
            Decode(RecordBytes(log, i))
            == Record(FromLittleEndian(log[offset..offset + 4]), FromLittleEndian(log[offset + 4..offset + 8]))
  {
    var b, offset := RecordBytes(log, i), i * 8;
    assert b[..4] == log[offset..offset + 4] && b[4..] == log[offset + 4..offset + 8];
  }
}
