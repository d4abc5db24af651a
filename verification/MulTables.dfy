/** Multiplying buffers of little-endian words by one coefficient: the word-at-a-time loop,
    and the 16-byte nibble-table loop that refines it. */
module MulTables {
  import opened Bits
  import opened Common
  import opened Galois
  import opened Gf16
  import opened Numbers

  function LowByte(w: Word): Byte {
    w % 256
  }

  function HighByte(w: Word): Byte {
    w / 256
  }

  function XorByte(a: Byte, b: Byte): Byte {
    TwoLiterals();
    XorBound(a, b, 8);
    Xor(a, b)
  }

  /** The word stored as two bytes, low byte first. */
  function WordOf(lo: Byte, hi: Byte): Word {
    var l: nat, h: nat := lo, hi;
    l + 256 * h
  }

  /** Word i of a buffer. */
  function WordAt(s: seq<Byte>, i: nat): Word
    requires 2 * i + 1 < |s|
  {
    WordOf(s[2 * i], s[2 * i + 1])
  }

  // ---- Bytes of sums ----

  lemma AddBytes(a: Word, b: Word)
    ensures LowByte(Add(a, b)) == XorByte(LowByte(a), LowByte(b))
    ensures HighByte(Add(a, b)) == XorByte(HighByte(a), HighByte(b))
  {
    hide Xor;
    XorBytes(a / 256, b / 256, a % 256, b % 256);
    BytesOf(XorByte(HighByte(a), HighByte(b)), XorByte(LowByte(a), LowByte(b)));
  }

  lemma BytesOf(hi: nat, lo: nat)
    requires hi < 256 && lo < 256
    ensures (256 * hi + lo) % 256 == lo && (256 * hi + lo) / 256 == hi
  {
  }

  lemma JoinParts(hi: nat, lo: nat)
    requires hi < 256 && lo < 256
    ensures Add(256 * hi, lo) == 256 * hi + lo
  {
    XorBytes(hi, 0, 0, lo);
    XorZero(hi);
  }

  lemma JoinNibbles(hi: nat, lo: nat)
    requires hi < 16 && lo < 16
    ensures Add(16 * hi, lo) == 16 * hi + lo
  {
    XorNibbles(hi, 0, 0, lo);
    XorZero(hi);
  }

  /** A product is the sum of the products of the bytes of one factor. */
  lemma MulByBytes(c: Word, w: Word)
    ensures Mul(c, w) == Add(Mul(c, w % 256), Mul(c, 256 * (w / 256)))
  {
    hide Mul, Add;
    JoinParts(w / 256, w % 256);
    AddComm(256 * (w / 256), w % 256);
    MulDistributes(c, w % 256, 256 * (w / 256));
  }

  lemma MulLowNibbles(c: Word, b: nat)
    requires b < 256
    ensures Mul(c, b) == Add(Mul(c, b % 16), Mul(c, 16 * (b / 16)))
  {
    JoinNibbles(b / 16, b % 16);
    AddComm(16 * (b / 16), b % 16);
    MulDistributes(c, b % 16, 16 * (b / 16));
  }

  lemma MulHighNibbles(c: Word, b: nat)
    requires b < 256
    ensures Mul(c, 256 * b) == Add(Mul(c, 256 * (b % 16)), Mul(c, 4096 * (b / 16)))
  {
    JoinHighNibbles(b);
    MulDistributes(c, 256 * (b % 16), 4096 * (b / 16));
  }

  lemma MulTwoBytes(c: Word, w: Word, lo: nat, hi: nat)
    requires w % 256 == lo && w / 256 == hi
    ensures Mul(c, w) == Add(Mul(c, lo), Mul(c, 256 * hi))
  {
    MulByBytes(c, w);
  }

  lemma JoinHighNibbles(hi: nat)
    requires hi < 256
    ensures Add(256 * (hi % 16), 4096 * (hi / 16)) == 256 * hi
  {
    hide Xor;
    var p, q := hi % 16, 16 * (hi / 16);
    JoinNibbles(hi / 16, p);
    AddComm(q, p);
    assert Xor(256 * p + 0, 256 * q + 0) == 256 * Xor(p, q) + Xor(0, 0) by {
      XorBytes(p, q, 0, 0);
    }
    XorSelf(0);
  }

  // ---- What multiplying and accumulating means, byte by byte ----

  /** Byte j of coefficient c times a buffer; an odd last byte is multiplied as a word of its own. */
  function ProductByte(c: Word, s: seq<Byte>, j: nat): Byte
    requires j < |s|
  {
    if j % 2 == 1 then HighByte(Mul(c, WordAt(s, j / 2)))
    else if j + 1 < |s| then LowByte(Mul(c, WordAt(s, j / 2)))
    else LowByte(Mul(c, s[j]))
  }

  function Scaled(c: Word, s: seq<Byte>): (r: seq<Byte>)
    ensures |r| == |s|
  {
    seq(|s|, j requires 0 <= j < |s| => ProductByte(c, s, j))
  }

  /** d with c times s added to its first |s| bytes. */
  function Accumulated(d: seq<Byte>, c: Word, s: seq<Byte>): (r: seq<Byte>)
    requires |s| <= |d|
    ensures |r| == |d|
  {
    seq(|d|, j requires 0 <= j < |d| => if j < |s| then XorByte(d[j], ProductByte(c, s, j)) else d[j])
  }

  function Min(a: nat, b: nat): nat {
    if a < b then a else b
  }

  /** The products of a coefficient with the multiples of a place value. */
  ghost function Row(c: Word, place: nat, n: nat): (r: seq<Word>)
    requires n <= 256 && place * n <= 65536
    ensures |r| == n
    ensures forall i :: 0 <= i < n ==> place * i < 65536 && r[i] == Mul(c, place * i)
  {
    assert forall i :: 0 <= i < n ==> place * i < 65536 by {
      forall i | 0 <= i < n
        ensures place * i < 65536
      {
        PlaceBound(place, i, n);
      }
    }
    seq(n, i requires 0 <= i < n => Mul(c, place * i))
  }

  lemma PlaceBound(place: nat, i: nat, n: nat)
    requires i < n && place * n <= 65536
    ensures place * i < 65536
  {
    assert place * n == place * i + place * (n - i);
    MultipleSize(place, n - i);
  }

  lemma ZeroRow(place: nat, n: nat)
    requires n <= 256 && place * n <= 65536
    ensures forall i :: 0 <= i < n ==> Row(0, place, n)[i] == 0
  {
    hide Mul;
    var row := Row(0, place, n);
    forall i | 0 <= i < n
      ensures row[i] == 0
    {
      var w := place * i;
      MulZero(w);
    }
  }

  /** The lookup tables of one coefficient. */
  class MulTable {
    ghost const coeff: Word
    const lo: array<Word>
    const hi: array<Word>
    const nibbleLo: array2<Byte>
    const nibbleHi: array2<Byte>

    ghost predicate Valid()
      reads lo, hi, nibbleLo, nibbleHi
    {
      && lo.Length == 256
      && hi.Length == 256
      && nibbleLo.Length0 == 4 && nibbleLo.Length1 == 16
      && nibbleHi.Length0 == 4 && nibbleHi.Length1 == 16
      && lo[..] == Row(coeff, 1, 256) && hi[..] == Row(coeff, 256, 256)
      && (forall p, n :: 0 <= p < 4 && 0 <= n < 16 ==>
            && nibbleLo[p, n] == LowByte(Row(coeff, Place(p), 16)[n])
            && nibbleHi[p, n] == HighByte(Row(coeff, Place(p), 16)[n]))
    }

    constructor (t: Tables, c: Word)
      requires t.Valid()
      ensures Valid() && coeff == c
      ensures fresh(lo) && fresh(hi) && fresh(nibbleLo) && fresh(nibbleHi)
    {
      var l, h := new Word[256](_ => 0), new Word[256](_ => 0);
      var nl, nh := new Byte[4, 16]((_, _) => 0), new Byte[4, 16]((_, _) => 0);
      FillBytes(t, c, l, h);
      FillNibbles(t, c, nl, nh);
      coeff, lo, hi, nibbleLo, nibbleHi := c, l, h, nl, nh;
    }

    static method FillBytes(t: Tables, c: Word, l: array<Word>, h: array<Word>)
      requires t.Valid() && l.Length == 256 && h.Length == 256
      requires l != h && {l, h} !! {t.log, t.exp}
      requires forall i :: 0 <= i < 256 ==> l[i] == 0 && h[i] == 0
      modifies l, h
      ensures l[..] == Row(c, 1, 256) && h[..] == Row(c, 256, 256)
    {
      hide Mul, Row;
      ghost var low, high := Row(c, 1, 256), Row(c, 256, 256);
      if c != 0 {
        MulZero(c);
        for i := 1 to 256
          invariant forall j :: 0 <= j < i ==> l[j] == low[j] && h[j] == high[j]
        {
          l[i] := t.Multiply(c, i);
          h[i] := t.Multiply(c, 256 * i);
        }
      } else {
        ZeroRow(1, 256);
        ZeroRow(256, 256);
      }
    }

    static method FillNibbles(t: Tables, c: Word, nl: array2<Byte>, nh: array2<Byte>)
      requires t.Valid() && nl.Length0 == 4 && nl.Length1 == 16 && nh.Length0 == 4 && nh.Length1 == 16
      requires nl != nh
      requires forall p, n :: 0 <= p < 4 && 0 <= n < 16 ==> nl[p, n] == 0 && nh[p, n] == 0
      modifies nl, nh
      ensures forall p, n :: 0 <= p < 4 && 0 <= n < 16 ==>
                nl[p, n] == LowByte(Row(c, Place(p), 16)[n]) && nh[p, n] == HighByte(Row(c, Place(p), 16)[n])
    {
      hide Mul, Row;
      ghost var rows := seq(4, p requires 0 <= p < 4 => Row(c, Place(p), 16));
      if c != 0 {
        for p := 0 to 4
          invariant forall q, n :: 0 <= q < p && 0 <= n < 16 ==>
                      nl[q, n] == LowByte(rows[q][n]) && nh[q, n] == HighByte(rows[q][n])
        {
          for n := 0 to 16
            invariant forall q, m :: 0 <= m < 16 && (0 <= q < p || (q == p && m < n)) ==>
                        nl[q, m] == LowByte(rows[q][m]) && nh[q, m] == HighByte(rows[q][m])
          {
            var product := t.Multiply(c, Place(p) * n);
            nl[p, n] := LowByte(product);
            nh[p, n] := HighByte(product);
          }
        }
      } else {
        forall p | 0 <= p < 4
          ensures forall n :: 0 <= n < 16 ==> Row(c, Place(p), 16)[n] == 0
        {
          ZeroRow(Place(p), 16);
        }
      }
    }

    /** Two lookups and an exclusive or multiply a word. */
    function MulU16(w: Word): (r: Word)
      requires Valid()
      reads lo, hi, nibbleLo, nibbleHi
      ensures r == Mul(coeff, w)
    {
      MulByBytes(coeff, w);
      Add(lo[w % 256], hi[w / 256])
    }
  }

  /** The weight of nibble p of a word. */
  function Place(p: nat): (w: nat)
    requires p < 4
    ensures w <= 4096
  {
    if p == 0 then 1 else if p == 1 then 16 else if p == 2 then 256 else 4096
  }

  // ---- The scalar loops ----

  /** Adds one product word to the word at dst[k]. */
  method MulAddWord(dst: array<Byte>, src: array<Byte>, k: nat, table: MulTable)
    requires table.Valid() && dst != src && {dst, src} !! {table.lo, table.hi}
    requires k + 1 < dst.Length && k + 1 < src.Length
    modifies dst
    ensures dst[k] == XorByte(old(dst[k]), LowByte(Mul(table.coeff, WordOf(src[k], src[k + 1]))))
    ensures dst[k + 1] == XorByte(old(dst[k + 1]), HighByte(Mul(table.coeff, WordOf(src[k], src[k + 1]))))
    ensures forall j :: 0 <= j < dst.Length && j != k && j != k + 1 ==> dst[j] == old(dst[j])
  {
    hide Xor, Mul;
    var product := table.MulU16(WordOf(src[k], src[k + 1]));
    var sum := Add(WordOf(dst[k], dst[k + 1]), product);
    AddBytes(WordOf(dst[k], dst[k + 1]), product);
    dst[k] := LowByte(sum);
    dst[k + 1] := HighByte(sum);
  }

  method ScaleWord(buf: array<Byte>, k: nat, table: MulTable)
    requires table.Valid() && {buf} !! {table.lo, table.hi}
    requires k + 1 < buf.Length
    modifies buf
    ensures buf[k] == LowByte(Mul(table.coeff, WordOf(old(buf[k]), old(buf[k + 1]))))
    ensures buf[k + 1] == HighByte(Mul(table.coeff, WordOf(old(buf[k]), old(buf[k + 1]))))
    ensures forall j :: 0 <= j < buf.Length && j != k && j != k + 1 ==> buf[j] == old(buf[j])
  {
    hide Xor, Mul;
    var product := table.MulU16(WordOf(buf[k], buf[k + 1]));
    buf[k] := LowByte(product);
    buf[k + 1] := HighByte(product);
  }

  /** Word i of a product, written out for the two bytes it occupies. */
  lemma ProductWord(c: Word, s: seq<Byte>, i: nat)
    requires 2 * i + 1 < |s|
    ensures ProductByte(c, s, 2 * i) == LowByte(Mul(c, WordOf(s[2 * i], s[2 * i + 1])))
    ensures ProductByte(c, s, 2 * i + 1) == HighByte(Mul(c, WordOf(s[2 * i], s[2 * i + 1])))
  {
    hide Xor, Mul;
    assert (2 * i + 1) / 2 == i && (2 * i) / 2 == i;
  }

  /** Adds the table's coefficient times src[from..from + len] to dst[from..from + len]. */
  method MulAddScalar(dst: array<Byte>, src: array<Byte>, from: nat, len: nat, table: MulTable)
    requires table.Valid() && dst != src && {dst, src} !! {table.lo, table.hi}
    requires from + len <= dst.Length && from + len <= src.Length
    modifies dst
    ensures forall k :: from <= k < from + len ==>
              dst[k] == XorByte(old(dst[k]), ProductByte(table.coeff, src[from..from + len], k - from))
    ensures forall j :: 0 <= j < dst.Length && !(from <= j < from + len) ==> dst[j] == old(dst[j])
  {
    hide Xor, Mul, XorByte, ProductByte, LowByte, HighByte, WordOf;
    ghost var s := src[from..from + len];
    for i := 0 to len / 2
      invariant forall k :: from <= k < from + 2 * i ==>
                  dst[k] == XorByte(old(dst[k]), ProductByte(table.coeff, s, k - from))
      invariant forall k :: 0 <= k < dst.Length && !(from <= k < from + 2 * i) ==> dst[k] == old(dst[k])
    {
      ProductWord(table.coeff, s, i);
      MulAddWord(dst, src, from + 2 * i, table);
    }
    if len % 2 == 1 {
      var last := from + len - 1;
      LastByte(table.coeff, s);
      dst[last] := XorByte(dst[last], LowByte(table.lo[src[last]]));
    }
  }

  lemma LastByte(c: Word, s: seq<Byte>)
    requires |s| % 2 == 1
    ensures ProductByte(c, s, |s| - 1) == LowByte(Mul(c, s[|s| - 1]))
  {
  }

  /** Multiplies the table's coefficient into buf[from..]. */
  method ScaleScalar(buf: array<Byte>, from: nat, table: MulTable)
    requires table.Valid() && {buf} !! {table.lo, table.hi}
    requires from <= buf.Length
    modifies buf
    ensures buf[from..] == Scaled(table.coeff, old(buf[from..]))
    ensures forall j :: 0 <= j < from ==> buf[j] == old(buf[j])
  {
    hide Xor, Mul, XorByte, ProductByte, LowByte, HighByte, WordOf;
    ghost var s := buf[from..];
    var len := buf.Length - from;
    for i := 0 to len / 2
      invariant forall k :: from <= k < from + 2 * i ==> buf[k] == ProductByte(table.coeff, s, k - from)
      invariant forall k :: 0 <= k < buf.Length && !(from <= k < from + 2 * i) ==> buf[k] == old(buf[k])
    {
      ProductWord(table.coeff, s, i);
      ScaleWord(buf, from + 2 * i, table);
    }
    if len % 2 == 1 {
      var last := buf.Length - 1;
      LastByte(table.coeff, s);
      buf[last] := LowByte(table.lo[buf[last]]);
    }
  }

  // ---- The 16-byte nibble loops ----

  type Lanes = s: seq<Byte> | |s| == 16 witness seq(16, _ => 0)

  /** The even (or odd) bytes of a chunk in the low eight lanes, zeros above. */
  function Deinterleave(s: Lanes, parity: nat): Lanes
    requires parity < 2
  {
    seq(16, i requires 0 <= i < 16 => if i < 8 then s[2 * i + parity] else 0)
  }

  function MaskLow(s: Lanes): Lanes {
    seq(16, i requires 0 <= i < 16 => s[i] % 16)
  }

  /** Shifts each pair of lanes, taken as one 16-bit word, right by four bits. */
  function ShiftWords(s: Lanes): Lanes {
    seq(16, i requires 0 <= i < 16 =>
      var w := WordOf(s[i - i % 2], s[i - i % 2 + 1]) / 16;
      if i % 2 == 0 then LowByte(w) else HighByte(w))
  }

  function XorLanes(a: Lanes, b: Lanes): Lanes {
    seq(16, i requires 0 <= i < 16 => XorByte(a[i], b[i]))
  }

  /** Alternates the low eight lanes of two registers. */
  function UnpackLow(a: Lanes, b: Lanes): Lanes {
    seq(16, i requires 0 <= i < 16 => if i % 2 == 0 then a[i / 2] else b[i / 2])
  }

  /** Sixteen lookups in one row of a nibble table. */
  function Shuffle(t: array2<Byte>, p: nat, s: Lanes): Lanes
    requires p < t.Length0 && t.Length1 == 16
    requires forall i :: 0 <= i < 16 ==> s[i] < 16
    reads t
  {
    seq(16, i requires 0 <= i < 16 reads t => t[p, s[i]])
  }

  /** The nibble in position p of each word of a chunk. */
  function Nibbles(s: Lanes, p: nat): (n: Lanes)
    requires p < 4
    ensures forall i :: 0 <= i < 16 ==> n[i] < 16
  {
    var bytes := Deinterleave(s, p / 2);
    if p % 2 == 0 then MaskLow(bytes) else MaskLow(ShiftWords(bytes))
  }

  function LookupAll(t: array2<Byte>, s: Lanes): Lanes
    requires t.Length0 == 4 && t.Length1 == 16
    reads t
  {
    XorLanes(
      XorLanes(Shuffle(t, 0, Nibbles(s, 0)), Shuffle(t, 1, Nibbles(s, 1))),
      XorLanes(Shuffle(t, 2, Nibbles(s, 2)), Shuffle(t, 3, Nibbles(s, 3))))
  }

  /** The product of the table's coefficient and the eight words of a chunk. */
  function ChunkProduct(table: MulTable, s: Lanes): Lanes
    requires table.Valid()
    reads table.lo, table.hi, table.nibbleLo, table.nibbleHi
  {
    UnpackLow(LookupAll(table.nibbleLo, s), LookupAll(table.nibbleHi, s))
  }

  lemma ShiftedLane(s: Lanes, i: nat)
    requires i < 16
    ensures MaskLow(ShiftWords(s))[i] == s[i] / 16
  {
    ShiftedNibble(s[i - i % 2], s[i - i % 2 + 1]);
  }

  lemma NibbleOf(s: Lanes, p: nat, i: nat)
    requires p < 4 && i < 8
    ensures Nibbles(s, p)[i] == if p % 2 == 0 then s[2 * i + p / 2] % 16 else s[2 * i + p / 2] / 16
  {
    hide ShiftWords, LowByte, HighByte, WordOf;
    ShiftedLane(Deinterleave(s, p / 2), i);
  }

  lemma ShiftedNibble(lo: Byte, hi: Byte)
    ensures LowByte(WordOf(lo, hi) / 16) % 16 == lo / 16
    ensures HighByte(WordOf(lo, hi) / 16) % 16 == hi / 16
  {
    var l1: nat, l0: nat, h1: nat, h0: nat := lo / 16, lo % 16, hi / 16, hi % 16;
    var w: nat := WordOf(lo, hi);
    assert w == 16 * (l1 + 16 * h0 + 256 * h1) + l0;
    var s: nat := l1 + 16 * h0 + 256 * h1;
    assert w / 16 == s;
    BytesOf(h1, l1 + 16 * h0);
    assert (l1 + 16 * h0) % 16 == l1;
  }

  /** The product of a word, put together from the products of its four nibbles. */
  lemma ProductOfNibbles(c: Word, lo: Byte, hi: Byte, q0: Word, q1: Word, q2: Word, q3: Word)
    requires q0 == Mul(c, lo % 16) && q1 == Mul(c, 16 * (lo / 16))
    requires q2 == Mul(c, 256 * (hi % 16)) && q3 == Mul(c, 4096 * (hi / 16))
    ensures Mul(c, WordOf(lo, hi)) == Add(Add(q0, q1), Add(q2, q3))
  {
    hide Xor, Mul, Add;
    MulLowNibbles(c, lo);
    MulHighNibbles(c, hi);
    MulTwoBytes(c, WordOf(lo, hi), lo, hi);
  }

  lemma BytesOfFour(q0: Word, q1: Word, q2: Word, q3: Word)
    ensures LowByte(Add(Add(q0, q1), Add(q2, q3)))
         == XorByte(XorByte(LowByte(q0), LowByte(q1)), XorByte(LowByte(q2), LowByte(q3)))
    ensures HighByte(Add(Add(q0, q1), Add(q2, q3)))
         == XorByte(XorByte(HighByte(q0), HighByte(q1)), XorByte(HighByte(q2), HighByte(q3)))
  {
    hide Xor, Add, XorByte, LowByte, HighByte;
    AddBytes(q0, q1);
    AddBytes(q2, q3);
    AddBytes(Add(q0, q1), Add(q2, q3));
  }

  /** Lane i of the lookups is word i of the chunk times the coefficient. */
  lemma LookupWord(table: MulTable, s: Lanes, i: nat)
    requires table.Valid() && i < 8
    ensures LookupAll(table.nibbleLo, s)[i] == LowByte(Mul(table.coeff, WordOf(s[2 * i], s[2 * i + 1])))
    ensures LookupAll(table.nibbleHi, s)[i] == HighByte(Mul(table.coeff, WordOf(s[2 * i], s[2 * i + 1])))
  {
    hide Xor, Mul, Add, XorByte, LowByte, HighByte, WordOf, Nibbles;
    var c, lo, hi := table.coeff, s[2 * i], s[2 * i + 1];
    NibbleOf(s, 0, i);
    NibbleOf(s, 1, i);
    NibbleOf(s, 2, i);
    NibbleOf(s, 3, i);
    var q0, q1 := Row(c, 1, 16)[lo % 16], Row(c, 16, 16)[lo / 16];
    var q2, q3 := Row(c, 256, 16)[hi % 16], Row(c, 4096, 16)[hi / 16];
    ProductOfNibbles(c, lo, hi, q0, q1, q2, q3);
    BytesOfFour(q0, q1, q2, q3);
  }

  lemma ChunkProductByte(table: MulTable, s: Lanes, j: nat)
    requires table.Valid() && j < 16
    ensures ChunkProduct(table, s)[j] == ProductByte(table.coeff, s, j)
  {
    hide Xor, Mul, LookupAll;
    LookupWord(table, s, j / 2);
    ProductWord(table.coeff, s, j / 2);
  }

  /** A byte's product depends only on the aligned word it belongs to. */
  lemma ProductByteInChunk(c: Word, s: seq<Byte>, from: nat, j: nat)
    requires from % 2 == 0 && j < 16 && from + 16 <= |s|
    ensures ProductByte(c, s[from..from + 16], j) == ProductByte(c, s, from + j)
  {
    hide Xor, Mul;
    var chunk, i := s[from..from + 16], j / 2;
    ProductWord(c, chunk, i);
    ProductWord(c, s, from / 2 + i);
  }

  lemma ProductByteInTail(c: Word, s: seq<Byte>, from: nat, j: nat)
    requires from % 2 == 0 && from + j < |s|
    ensures ProductByte(c, s[from..], j) == ProductByte(c, s, from + j)
  {
    hide Xor, Mul;
    var tail, i := s[from..], j / 2;
    if 2 * i + 1 < |tail| {
      ProductWord(c, tail, i);
      ProductWord(c, s, from / 2 + i);
    } else {
      LastByte(c, tail);
      LastByte(c, s);
    }
  }

  /** The lanes computed from one chunk are the bytes of the whole buffer's product. */
  lemma ChunkBytes(table: MulTable, s: seq<Byte>, from: nat)
    requires table.Valid() && from % 2 == 0 && from + 16 <= |s|
    ensures forall k :: from <= k < from + 16 ==>
              ChunkProduct(table, s[from..from + 16])[k - from] == ProductByte(table.coeff, s, k)
  {
    hide Xor, Mul, ProductByte, ChunkProduct;
    forall k | from <= k < from + 16
      ensures ChunkProduct(table, s[from..from + 16])[k - from] == ProductByte(table.coeff, s, k)
    {
      ChunkProductByte(table, s[from..from + 16], k - from);
      ProductByteInChunk(table.coeff, s, from, k - from);
    }
  }

  /** One round of the vector loop: load, multiply by lookups, exclusive or, store. */
  method MulAddChunk(dst: array<Byte>, src: array<Byte>, offset: nat, table: MulTable, ghost s: seq<Byte>)
    requires table.Valid() && dst != src && {dst, src} !! {table.lo, table.hi, table.nibbleLo, table.nibbleHi}
    requires offset % 2 == 0 && offset + 16 <= dst.Length && offset + 16 <= |s| <= src.Length && s == src[..|s|]
    modifies dst
    ensures forall k :: offset <= k < offset + 16 ==> dst[k] == XorByte(old(dst[k]), ProductByte(table.coeff, s, k))
    ensures forall k :: 0 <= k < dst.Length && !(offset <= k < offset + 16) ==> dst[k] == old(dst[k])
  {
    hide Xor, Mul, XorByte, ProductByte, ChunkProduct, MulTable.Valid;
    assert src[offset..offset + 16] == s[offset..offset + 16];
    ChunkBytes(table, s, offset);
    var product := ChunkProduct(table, src[offset..offset + 16]);
    forall k | offset <= k < offset + 16 {
      dst[k] := XorByte(dst[k], product[k - offset]);
    }
  }

  method MulAddChunks(dst: array<Byte>, src: array<Byte>, chunks: nat, table: MulTable)
    requires table.Valid() && dst != src && {dst, src} !! {table.lo, table.hi, table.nibbleLo, table.nibbleHi}
    requires 16 * chunks <= dst.Length && 16 * chunks <= src.Length
    modifies dst
    ensures forall k :: 0 <= k < 16 * chunks ==>
              dst[k] == XorByte(old(dst[k]), ProductByte(table.coeff, src[..16 * chunks], k))
    ensures forall k :: 16 * chunks <= k < dst.Length ==> dst[k] == old(dst[k])
  {
    hide Xor, Mul, XorByte, ProductByte, MulTable.Valid;
    ghost var s := src[..16 * chunks];
    var offset := 0;
    for chunk := 0 to chunks
      invariant offset == 16 * chunk && offset % 2 == 0
      invariant forall k :: 0 <= k < offset ==> dst[k] == XorByte(old(dst[k]), ProductByte(table.coeff, s, k))
      invariant forall k :: offset <= k < dst.Length ==> dst[k] == old(dst[k])
    {
      MulAddChunk(dst, src, offset, table, s);
      offset := offset + 16;
    }
  }

  /** The vector path: whole chunks, then the scalar loop on what is left. */
  method MulAddVector(dst: array<Byte>, src: array<Byte>, len: nat, table: MulTable)
    requires table.Valid() && dst != src && {dst, src} !! {table.lo, table.hi, table.nibbleLo, table.nibbleHi}
    requires len <= dst.Length && len <= src.Length
    modifies dst
    ensures dst[..] == Accumulated(old(dst[..]), table.coeff, src[..len])
  {
    hide Xor, Mul, XorByte, ProductByte, ChunkProduct, MulTable.Valid, Accumulated;
    if len < 16 {
      MulAddScalar(dst, src, 0, len, table);
      AccumulatedWhole(old(dst[..]), dst[..], table.coeff, src[..], len);
      return;
    }
    var tailStart := 16 * (len / 16);
    MulAddChunks(dst, src, len / 16, table);
    ghost var middle := dst[..];
    if tailStart < len {
      MulAddScalar(dst, src, tailStart, len - tailStart, table);
    }
    AccumulatedParts(old(dst[..]), middle, dst[..], table.coeff, src[..], len, tailStart);
  }

  lemma AccumulatedWhole(d: seq<Byte>, e: seq<Byte>, c: Word, src: seq<Byte>, len: nat)
    requires len <= |src| && len <= |d| == |e|
    requires forall k :: 0 <= k < len ==> e[k] == XorByte(d[k], ProductByte(c, src[0..len], k))
    requires forall k :: len <= k < |d| ==> e[k] == d[k]
    ensures e == Accumulated(d, c, src[..len])
  {
    hide XorByte, ProductByte;
    assert src[0..len] == src[..len];
  }

  /** The chunks and the tail together are the whole sum. */
  lemma AccumulatedParts(d: seq<Byte>, middle: seq<Byte>, e: seq<Byte>, c: Word, src: seq<Byte>, len: nat, to: nat)
    requires to % 2 == 0 && to <= len <= |src| && len <= |d| == |middle| == |e|
    requires forall k :: 0 <= k < to ==> middle[k] == XorByte(d[k], ProductByte(c, src[..to], k))
    requires forall k :: to <= k < |d| ==> middle[k] == d[k]
    requires forall k :: to <= k < len ==> e[k] == XorByte(middle[k], ProductByte(c, src[to..len], k - to))
    requires forall k :: 0 <= k < |d| && !(to <= k < len) ==> e[k] == middle[k]
    ensures e == Accumulated(d, c, src[..len])
  {
    hide XorByte, ProductByte;
    assert src[..len][..to] == src[..to] && src[..len][to..] == src[to..len];
    HeadBytes(c, src[..len], to);
    TailBytes(c, src[..len], to);
  }

  lemma HeadBytes(c: Word, s: seq<Byte>, to: nat)
    requires to % 2 == 0 && to <= |s|
    ensures forall k :: 0 <= k < to ==> ProductByte(c, s[..to], k) == ProductByte(c, s, k)
  {
    hide Xor, Mul;
    forall k | 0 <= k < to
      ensures ProductByte(c, s[..to], k) == ProductByte(c, s, k)
    {
      ProductWord(c, s[..to], k / 2);
      ProductWord(c, s, k / 2);
    }
  }

  lemma TailBytes(c: Word, s: seq<Byte>, from: nat)
    requires from % 2 == 0 && from <= |s|
    ensures forall k :: from <= k < |s| ==> ProductByte(c, s[from..], k - from) == ProductByte(c, s, k)
  {
    forall k | from <= k < |s|
      ensures ProductByte(c, s[from..], k - from) == ProductByte(c, s, k)
    {
      ProductByteInTail(c, s, from, k - from);
    }
  }

  method ScaleChunk(buf: array<Byte>, offset: nat, table: MulTable, ghost s: seq<Byte>)
    requires table.Valid() && {buf} !! {table.lo, table.hi, table.nibbleLo, table.nibbleHi}
    requires offset % 2 == 0 && offset + 16 <= |s| <= buf.Length && buf[offset..offset + 16] == s[offset..offset + 16]
    modifies buf
    ensures forall k :: offset <= k < offset + 16 ==> buf[k] == ProductByte(table.coeff, s, k)
    ensures forall k :: 0 <= k < buf.Length && !(offset <= k < offset + 16) ==> buf[k] == old(buf[k])
  {
    hide Xor, Mul, XorByte, ProductByte, ChunkProduct, MulTable.Valid;
    ChunkBytes(table, s, offset);
    var product := ChunkProduct(table, buf[offset..offset + 16]);
    forall k | offset <= k < offset + 16 {
      buf[k] := product[k - offset];
    }
  }

  method ScaleChunks(buf: array<Byte>, chunks: nat, table: MulTable)
    requires table.Valid() && {buf} !! {table.lo, table.hi, table.nibbleLo, table.nibbleHi}
    requires 16 * chunks <= buf.Length
    modifies buf
    ensures forall k :: 0 <= k < 16 * chunks ==> buf[k] == ProductByte(table.coeff, old(buf[..16 * chunks]), k)
    ensures forall k :: 16 * chunks <= k < buf.Length ==> buf[k] == old(buf[k])
  {
    hide Xor, Mul, ProductByte, MulTable.Valid;
    ghost var s := buf[..16 * chunks];
    var offset := 0;
    for chunk := 0 to chunks
      invariant offset == 16 * chunk && offset % 2 == 0
      invariant forall k :: 0 <= k < offset ==> buf[k] == ProductByte(table.coeff, s, k)
      invariant forall k :: offset <= k < buf.Length ==> buf[k] == old(buf[k])
    {
      assert forall k :: offset <= k < 16 * chunks ==> buf[k] == s[k];
      ScaleChunk(buf, offset, table, s);
      offset := offset + 16;
    }
  }

  method ScaleVector(buf: array<Byte>, table: MulTable)
    requires table.Valid() && {buf} !! {table.lo, table.hi, table.nibbleLo, table.nibbleHi}
    modifies buf
    ensures buf[..] == Scaled(table.coeff, old(buf[..]))
  {
    hide Xor, Mul, XorByte, ProductByte, ChunkProduct, MulTable.Valid;
    ghost var s := buf[..];
    if buf.Length < 16 {
      ScaleScalar(buf, 0, table);
      assert buf[0..] == buf[..] && s[0..] == s;
      return;
    }
    var tailStart := 16 * (buf.Length / 16);
    HeadBytes(table.coeff, s, tailStart);
    TailBytes(table.coeff, s, tailStart);
    assert s[..tailStart] == buf[..tailStart];
    ScaleChunks(buf, buf.Length / 16, table);
    if tailStart < buf.Length {
      assert buf[tailStart..] == s[tailStart..];
      ScaleScalar(buf, tailStart, table);
      assert forall k :: tailStart <= k < buf.Length ==> buf[k] == buf[tailStart..][k - tailStart];
    }
  }

  // ---- The entry points ----

  /** muladd_with_table: vectors when the processor has them, the scalar loop otherwise. */
  method MulAddWithTable(dst: array<Byte>, src: array<Byte>, table: MulTable, vectors: bool)
    requires table.Valid() && dst != src && {dst, src} !! {table.lo, table.hi, table.nibbleLo, table.nibbleHi}
    modifies dst
    ensures dst[..] == Accumulated(old(dst[..]), table.coeff, src[..Min(dst.Length, src.Length)])
  {
    hide Xor, Mul, XorByte, ProductByte;
    var len := Min(dst.Length, src.Length);
    if vectors {
      MulAddVector(dst, src, len, table);
    } else {
      MulAddScalar(dst, src, 0, len, table);
      assert src[0..0 + len] == src[..len];
    }
  }

  /** A zero coefficient leaves the buffer alone, which is also what adding its product does. */
  method MulAddSlice(t: Tables, dst: array<Byte>, src: array<Byte>, coeff: Word, vectors: bool)
    requires t.Valid() && dst != src
    modifies dst
    ensures dst[..] == Accumulated(old(dst[..]), coeff, src[..Min(dst.Length, src.Length)])
  {
    hide Xor, Mul, XorByte, ProductByte;
    if coeff == 0 {
      AddingZero(dst[..], src[..Min(dst.Length, src.Length)]);
      return;
    }
    var table := new MulTable(t, coeff);
    MulAddWithTable(dst, src, table, vectors);
  }

  lemma ZeroProduct(s: seq<Byte>, j: nat)
    requires j < |s|
    ensures ProductByte(0, s, j) == 0
  {
    MulZero(s[j]);
    if 2 * (j / 2) + 1 < |s| {
      MulZero(WordAt(s, j / 2));
    }
  }

  lemma AddingZero(d: seq<Byte>, s: seq<Byte>)
    requires |s| <= |d|
    ensures Accumulated(d, 0, s) == d
  {
    forall j | 0 <= j < |s|
      ensures XorByte(d[j], ProductByte(0, s, j)) == d[j]
    {
      ZeroProduct(s, j);
      XorZero(d[j]);
    }
  }

  lemma OneProduct(s: seq<Byte>, j: nat)
    requires j < |s|
    ensures ProductByte(1, s, j) == s[j]
  {
    hide Mul;
    var i := j / 2;
    if 2 * i + 1 < |s| {
      ProductWord(1, s, i);
      MulOne(WordOf(s[2 * i], s[2 * i + 1]));
      BytesOf(s[2 * i + 1], s[2 * i]);
    } else {
      LastByte(1, s);
      MulOne(s[j]);
    }
  }

  /** mul_slice_inplace, with its two shortcuts. */
  method ScaleInPlace(t: Tables, buf: array<Byte>, coeff: Word, vectors: bool)
    requires t.Valid() && {buf} !! {t.log, t.exp}
    modifies buf
    ensures buf[..] == Scaled(coeff, old(buf[..]))
  {
    hide Xor, Mul, XorByte, ProductByte;
    if coeff == 0 {
      forall j | 0 <= j < buf.Length
        ensures ProductByte(0, buf[..], j) == 0
      {
        ZeroProduct(buf[..], j);
      }
      forall j | 0 <= j < buf.Length {
        buf[j] := 0;
      }
      return;
    }
    if coeff == 1 {
      forall j | 0 <= j < buf.Length
        ensures ProductByte(1, buf[..], j) == buf[j]
      {
        OneProduct(buf[..], j);
      }
      return;
    }
    var table := new MulTable(t, coeff);
    if vectors {
      ScaleVector(buf, table);
    } else {
      ScaleScalar(buf, 0, table);
      assert buf[0..] == buf[..];
    }
  }
}
