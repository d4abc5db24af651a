/** Arithmetic of the field on words written out bit by bit. The words are values of a
    datatype, so a product of two constants is evaluated by unfolding definitions. */
module BitWords {
  import opened Bits
  import opened Gf16

  datatype Nibble = Nibble(b3: bool, b2: bool, b1: bool, b0: bool)

  /** Four nibbles, most significant first. */
  datatype Bits16 = Bits16(n3: Nibble, n2: Nibble, n1: Nibble, n0: Nibble)

  const H0 := Nibble(false, false, false, false)
  const H1 := Nibble(false, false, false, true)
  const H2 := Nibble(false, false, true, false)
  const H3 := Nibble(false, false, true, true)
  const H4 := Nibble(false, true, false, false)
  const H5 := Nibble(false, true, false, true)
  const H6 := Nibble(false, true, true, false)
  const H7 := Nibble(false, true, true, true)
  const H8 := Nibble(true, false, false, false)
  const H9 := Nibble(true, false, false, true)
  const HA := Nibble(true, false, true, false)
  const HB := Nibble(true, false, true, true)
  const HC := Nibble(true, true, false, false)
  const HD := Nibble(true, true, false, true)
  const HE := Nibble(true, true, true, false)
  const HF := Nibble(true, true, true, true)
  const ZERO := Bits16(H0, H0, H0, H0)

  /** Horner's step: m * x + bit * a, reduced by the generator polynomial. */
  function Step(m: Bits16, a: Bits16, bit: bool): Bits16 {
    Bits16(
      Nibble(m.n3.b2 != (bit && a.n3.b3), m.n3.b1 != (bit && a.n3.b2), m.n3.b0 != (bit && a.n3.b1), (m.n2.b3 != m.n3.b3) != (bit && a.n3.b0)),
      Nibble(m.n2.b2 != (bit && a.n2.b3), m.n2.b1 != (bit && a.n2.b2), m.n2.b0 != (bit && a.n2.b1), m.n1.b3 != (bit && a.n2.b0)),
      Nibble(m.n1.b2 != (bit && a.n1.b3), m.n1.b1 != (bit && a.n1.b2), m.n1.b0 != (bit && a.n1.b1), m.n0.b3 != (bit && a.n1.b0)),
      Nibble((m.n0.b2 != m.n3.b3) != (bit && a.n0.b3), m.n0.b1 != (bit && a.n0.b2), (m.n0.b0 != m.n3.b3) != (bit && a.n0.b1), m.n3.b3 != (bit && a.n0.b0)))
  }

  function Steps(m: Bits16, a: Bits16, n: Nibble): Bits16 {
    Step(Step(Step(Step(m, a, n.b3), a, n.b2), a, n.b1), a, n.b0)
  }

  function BitsMul(a: Bits16, b: Bits16): Bits16 {
    Steps(Steps(Steps(Steps(ZERO, a, b.n3), a, b.n2), a, b.n1), a, b.n0)
  }

  // ---- The number a word stands for ----

  /** Appends a binary digit to a number. */
  function Push(u: nat, b: bool): nat {
    2 * u + (if b then 1 else 0)
  }

  function PushNibble(u: nat, n: Nibble): nat {
    Push(Push(Push(Push(u, n.b3), n.b2), n.b1), n.b0)
  }

  function Number(w: Bits16): nat {
    PushNibble(PushNibble(PushNibble(PushNibble(0, w.n3), w.n2), w.n1), w.n0)
  }

  lemma PushXor(u: nat, v: nat, p: bool, q: bool)
    ensures Xor(Push(u, p), Push(v, q)) == Push(Xor(u, v), p != q)
  {
    XorStep(Push(u, p), Push(v, q));
    assert Push(u, p) / 2 == u && Push(v, q) / 2 == v;
  }

  function NibbleXor(a: Nibble, b: Nibble): Nibble {
    Nibble(a.b3 != b.b3, a.b2 != b.b2, a.b1 != b.b1, a.b0 != b.b0)
  }

  function BitsXor(a: Bits16, b: Bits16): Bits16 {
    Bits16(NibbleXor(a.n3, b.n3), NibbleXor(a.n2, b.n2), NibbleXor(a.n1, b.n1), NibbleXor(a.n0, b.n0))
  }

  lemma PushNibbleXor(u: nat, v: nat, a: Nibble, b: Nibble)
    ensures Xor(PushNibble(u, a), PushNibble(v, b)) == PushNibble(Xor(u, v), NibbleXor(a, b))
  {
    var u3, v3 := Push(u, a.b3), Push(v, b.b3);
    var u2, v2 := Push(u3, a.b2), Push(v3, b.b2);
    var u1, v1 := Push(u2, a.b1), Push(v2, b.b1);
    PushXor(u, v, a.b3, b.b3);
    PushXor(u3, v3, a.b2, b.b2);
    PushXor(u2, v2, a.b1, b.b1);
    PushXor(u1, v1, a.b0, b.b0);
  }

  lemma NumberXor(a: Bits16, b: Bits16)
    ensures Number(BitsXor(a, b)) == Xor(Number(a), Number(b))
  {
    var u3, v3 := PushNibble(0, a.n3), PushNibble(0, b.n3);
    var u2, v2 := PushNibble(u3, a.n2), PushNibble(v3, b.n2);
    var u1, v1 := PushNibble(u2, a.n1), PushNibble(v2, b.n1);
    PushNibbleXor(0, 0, a.n3, b.n3);
    PushNibbleXor(u3, v3, a.n2, b.n2);
    PushNibbleXor(u2, v2, a.n1, b.n1);
    PushNibbleXor(u1, v1, a.n0, b.n0);
  }

  lemma PushNibbleSum(u: nat, n: Nibble)
    ensures PushNibble(u, n) == 16 * u + PushNibble(0, n)
    ensures PushNibble(0, n) < 16
  {
  }

  /** The four nibbles of w appended to u. */
  function Append(u: nat, w: Bits16): nat {
    PushNibble(PushNibble(PushNibble(PushNibble(u, w.n3), w.n2), w.n1), w.n0)
  }

  lemma AppendSum(u: nat, w: Bits16)
    ensures Append(u, w) == 65536 * u + Number(w)
    ensures Number(w) < 65536
  {
    var a3 := PushNibble(u, w.n3);
    var a2 := PushNibble(a3, w.n2);
    var a1 := PushNibble(a2, w.n1);
    var b3 := PushNibble(0, w.n3);
    var b2 := PushNibble(b3, w.n2);
    var b1 := PushNibble(b2, w.n1);
    PushNibbleSum(u, w.n3);
    PushNibbleSum(a3, w.n2);
    PushNibbleSum(b3, w.n2);
    PushNibbleSum(a2, w.n1);
    PushNibbleSum(b2, w.n1);
    PushNibbleSum(a1, w.n0);
    PushNibbleSum(b1, w.n0);
  }

  function Value(w: Bits16): Word {
    AppendSum(0, w);
    Number(w)
  }

  function NibbleShift(n: Nibble, carry: bool): Nibble {
    Nibble(n.b2, n.b1, n.b0, carry)
  }

  function Shift(w: Bits16): Bits16 {
    Bits16(NibbleShift(w.n3, w.n2.b3), NibbleShift(w.n2, w.n1.b3), NibbleShift(w.n1, w.n0.b3), NibbleShift(w.n0, false))
  }

  lemma PushAfterNibble(u: nat, n: Nibble, carry: bool)
    ensures Push(PushNibble(u, n), carry) == PushNibble(Push(u, n.b3), NibbleShift(n, carry))
  {
  }

  lemma ShiftValue(w: Bits16)
    ensures 2 * Value(w) == Value(Shift(w)) + (if w.n3.b3 then 65536 else 0)
  {
    var u3 := PushNibble(0, w.n3);
    var u2 := PushNibble(u3, w.n2);
    var u1 := PushNibble(u2, w.n1);
    PushAfterNibble(0, w.n3, w.n2.b3);
    PushAfterNibble(u3, w.n2, w.n1.b3);
    PushAfterNibble(u2, w.n1, w.n0.b3);
    PushAfterNibble(u1, w.n0, false);
    assert Push(Number(w), false) == Append(Push(0, w.n3.b3), Shift(w));
    AppendSum(Push(0, w.n3.b3), Shift(w));
  }

  const LOW_POLY := Bits16(H1, H0, H0, HB)

  lemma PolyValue()
    ensures Value(LOW_POLY) == 0x100B && Value(ZERO) == 0
  {
    AppendSum(0, LOW_POLY);
    AppendSum(0, ZERO);
  }

  function Gate(bit: bool, a: Bits16): Bits16 {
    if bit then a else ZERO
  }

  function BitsXtime(m: Bits16): Bits16 {
    BitsXor(Shift(m), Gate(m.n3.b3, LOW_POLY))
  }

  lemma StepIsXor(m: Bits16, a: Bits16, bit: bool)
    ensures Step(m, a, bit) == BitsXor(BitsXtime(m), Gate(bit, a))
  {
  }

  lemma TopBits(a: nat, b: nat)
    requires a < 65536 && b < 65536
    ensures Xor(65536 + a, 65536 + b) == Xor(a, b)
  {
    TwoLiterals();
    XorSplit(1, 1, a, b, 16);
    ShlIsProduct(1, 16);
    ShlIsProduct(0, 16);
    XorSelf(1);
  }

  lemma XtimeNumber(a: Word, s: Word, top: bool)
    requires 2 * a == s + (if top then 65536 else 0)
    ensures Xtime(a) == Xor(s, if top then 0x100B else 0)
  {
    if top {
      TopBits(s, 0x100B);
    } else {
      XorZero(s);
    }
  }

  lemma XtimeValue(m: Bits16)
    ensures Value(BitsXtime(m)) == Xtime(Value(m))
  {
    ShiftValue(m);
    XtimeNumber(Value(m), Value(Shift(m)), m.n3.b3);
    PolyValue();
    NumberXor(Shift(m), Gate(m.n3.b3, LOW_POLY));
  }

  lemma StepValue(m: Bits16, a: Bits16, bit: bool)
    ensures Value(Step(m, a, bit)) == Add(Xtime(Value(m)), if bit then Value(a) else 0)
  {
    StepIsXor(m, a, bit);
    XtimeValue(m);
    PolyValue();
    NumberXor(BitsXtime(m), Gate(bit, a));
  }

  lemma StepMul(m: Bits16, a: Bits16, bit: bool, u: nat)
    requires Push(u, bit) < 65536 && Value(m) == Mul(Value(a), u)
    ensures Value(Step(m, a, bit)) == Mul(Value(a), Push(u, bit))
  {
    StepValue(m, a, bit);
    MulUnfold(Value(a), Push(u, bit), u);
  }

  lemma MulUnfold(a: Word, b: Word, u: nat)
    requires b / 2 == u
    ensures Mul(a, b) == Add(Xtime(Mul(a, u)), Times(a, b))
  {
  }

  lemma StepsMul(m: Bits16, a: Bits16, n: Nibble, u: nat)
    requires PushNibble(u, n) < 65536 && Value(m) == Mul(Value(a), u)
    ensures Value(Steps(m, a, n)) == Mul(Value(a), PushNibble(u, n))
  {
    var m3 := Step(m, a, n.b3);
    var m2 := Step(m3, a, n.b2);
    var m1 := Step(m2, a, n.b1);
    var u3 := Push(u, n.b3);
    var u2 := Push(u3, n.b2);
    var u1 := Push(u2, n.b1);
    StepMul(m, a, n.b3, u);
    StepMul(m3, a, n.b2, u3);
    StepMul(m2, a, n.b1, u2);
    StepMul(m1, a, n.b0, u1);
  }

  /** Multiplying bit by bit is multiplying in the field. */
  lemma BitsMulValue(a: Bits16, b: Bits16)
    ensures Value(BitsMul(a, b)) == Mul(Value(a), Value(b))
  {
    var u3 := PushNibble(0, b.n3);
    var u2 := PushNibble(u3, b.n2);
    var u1 := PushNibble(u2, b.n1);
    var m3 := Steps(ZERO, a, b.n3);
    var m2 := Steps(m3, a, b.n2);
    var m1 := Steps(m2, a, b.n1);
    AppendSum(0, b);
    PushNibbleSum(u1, b.n0);
    PushNibbleSum(u2, b.n1);
    PushNibbleSum(u3, b.n2);
    PolyValue();
    StepsMul(ZERO, a, b.n3, 0);
    StepsMul(m3, a, b.n2, u3);
    StepsMul(m2, a, b.n1, u2);
    StepsMul(m1, a, b.n0, u1);
  }
}
