/** The field GF(2^16) of the Parity Volume Set Specification 2.0: words are
    polynomials over GF(2) of degree below 16, added by exclusive or and multiplied
    modulo the generator polynomial 0x1100B. */
module Gf16 {
  import opened Bits

  const POLY := 0x1100B

  type Word = x: nat | x < 65536

  function Add(a: Word, b: Word): Word {
    XorWord(a, b);
    Xor(a, b)
  }

  lemma XorWord(a: Word, b: Word)
    ensures Xor(a, b) < 65536
  {
    TwoLiterals();
    XorBound(a, b, 16);
  }

  lemma ReduceBound(a: nat)
    requires 65536 <= a < 131072
    ensures Xor(a, POLY) < 65536
  {
    TwoLiterals();
    XorTop(a, POLY, 16);
  }

  /** Multiplication by the polynomial x. */
  function Xtime(a: Word): Word {
    if 2 * a < 65536 then 2 * a else
      ReduceBound(2 * a);
      Xor(2 * a, POLY)
  }

  function Times(a: Word, bit: nat): Word {
    if bit % 2 == 1 then a else 0
  }

  function Mul(a: Word, b: Word): Word
    decreases b
  {
    if b == 0 then 0 else Add(Xtime(Mul(a, b / 2)), Times(a, b))
  }

  // ---- Ring laws ----

  lemma DoubleXor(a: nat, b: nat)
    ensures 2 * Xor(a, b) == Xor(2 * a, 2 * b)
  {
    XorStep(2 * a, 2 * b);
  }

  lemma XtimeAdd(a: Word, b: Word)
    ensures Xtime(Add(a, b)) == Add(Xtime(a), Xtime(b))
  {
    var p := if a < 32768 then 0 else POLY;
    var q := if b < 32768 then 0 else POLY;
    XtimeAsXor(a);
    XtimeAsXor(b);
    XtimeAsXor(Add(a, b));
    TwoLiterals();
    XorTop(a, b, 15);
    DoubleXor(a, b);
    XorSwapMiddle(2 * a, p, 2 * b, q);
    XorZero(POLY);
    XorSelf(POLY);
  }

  lemma XtimeAsXor(a: Word)
    ensures Xtime(a) == Xor(2 * a, if a < 32768 then 0 else POLY)
  {
    XorZero(2 * a);
  }

  lemma AddComm(a: Word, b: Word)
    ensures Add(a, b) == Add(b, a)
  {
    XorComm(a, b);
  }

  lemma AddAssoc(a: Word, b: Word, c: Word)
    ensures Add(Add(a, b), c) == Add(a, Add(b, c))
  {
    XorAssoc(a, b, c);
  }

  lemma AddZero(a: Word)
    ensures Add(a, 0) == a && Add(0, a) == a
  {
    XorZero(a);
  }

  lemma AddSelf(a: Word)
    ensures Add(a, a) == 0
  {
    XorSelf(a);
  }

  lemma AddSwapMiddle(a: Word, b: Word, c: Word, d: Word)
    ensures Add(Add(a, b), Add(c, d)) == Add(Add(a, c), Add(b, d))
  {
    XorSwapMiddle(a, b, c, d);
  }

  lemma AddCancel(a: Word, b: Word)
    ensures Add(Add(a, b), b) == a
    ensures Add(a, Add(a, b)) == b
  {
    AddAssoc(a, b, b);
    AddSelf(b);
    AddZero(a);
    AddAssoc(a, a, b);
    AddSelf(a);
    AddZero(b);
  }

  lemma AddIsZero(a: Word, b: Word)
    ensures Add(a, b) == 0 <==> a == b
  {
    AddSelf(a);
    AddCancel(a, b);
    AddZero(b);
  }

  lemma {:induction false} MulDistributesLeft(a: Word, b: Word, c: Word)
    ensures Mul(Add(a, b), c) == Add(Mul(a, c), Mul(b, c))
    decreases c
  {
    if c != 0 {
      var p, q := Mul(a, c / 2), Mul(b, c / 2);
      MulDistributesLeft(a, b, c / 2);
      XtimeAdd(p, q);
      AddSwapMiddle(Xtime(p), Xtime(q), Times(a, c), Times(b, c));
    }
  }

  lemma {:induction false} MulXtimeLeft(a: Word, b: Word)
    ensures Mul(Xtime(a), b) == Xtime(Mul(a, b))
    decreases b
  {
    if b != 0 {
      MulXtimeLeft(a, b / 2);
      XtimeAdd(Xtime(Mul(a, b / 2)), Times(a, b));
    }
  }

  lemma {:induction false} MulZero(b: Word)
    ensures Mul(0, b) == 0 && Mul(b, 0) == 0
    decreases b
  {
    if b != 0 {
      MulZero(b / 2);
    }
  }

  /** Horner's step: a polynomial is x times its upper part plus its constant term. */
  lemma Halve(a: Word)
    ensures a == Add(Xtime(a / 2), a % 2)
  {
    XorZero(a / 2);
    XorHalves(2 * (a / 2), a % 2, a);
  }

  lemma {:induction false} MulOne(b: Word)
    ensures Mul(1, b) == b
    decreases b
  {
    if b != 0 {
      MulOne(b / 2);
      Halve(b);
    }
  }

  lemma MulUnfolds(a: Word, b: Word)
    ensures Mul(a, b) == if b == 0 then 0 else Add(Xtime(Mul(a, b / 2)), Times(a, b))
    ensures Times(a, b) == if b % 2 == 1 then a else 0
  {
  }

  lemma {:induction false} MulComm(a: Word, b: Word)
    ensures Mul(a, b) == Mul(b, a)
    decreases a
  {
    hide Mul, Add, Xtime, Times;
    MulUnfolds(b, a);
    MulZero(b);
    if a != 0 {
      Halve(a);
      MulDistributesLeft(Xtime(a / 2), a % 2, b);
      MulXtimeLeft(a / 2, b);
      MulComm(a / 2, b);
      MulOne(b);
    }
  }

  lemma MulDistributes(a: Word, b: Word, c: Word)
    ensures Mul(a, Add(b, c)) == Add(Mul(a, b), Mul(a, c))
  {
    MulComm(a, Add(b, c));
    MulDistributesLeft(b, c, a);
    MulComm(a, b);
    MulComm(a, c);
  }

  lemma MulXtime(a: Word, b: Word)
    ensures Mul(a, Xtime(b)) == Xtime(Mul(a, b))
  {
    MulComm(a, Xtime(b));
    MulXtimeLeft(b, a);
    MulComm(a, b);
  }

  lemma {:induction false} MulAssoc(a: Word, b: Word, c: Word)
    ensures Mul(Mul(a, b), c) == Mul(a, Mul(b, c))
    decreases c
  {
    MulZero(a);
    if c != 0 {
      var m := Mul(b, c / 2);
      MulAssoc(a, b, c / 2);
      MulDistributes(a, Xtime(m), Times(b, c));
      MulXtime(a, m);
    }
  }

  // ---- Multiplication is the polynomial product reduced modulo the generator ----

  /** The product of two polynomials over GF(2), not reduced. */
  function Product(a: nat, b: nat): nat
    decreases b
  {
    if b == 0 then 0 else Xor(2 * Product(a, b / 2), if b % 2 == 1 then a else 0)
  }

  ghost predicate IsRemainder(p: nat, r: Word) {
    exists q: nat :: p == Xor(Product(POLY, q), r)
  }

  lemma ProductStep(a: nat, b: nat, bit: nat)
    requires bit < 2
    ensures Product(a, 2 * b + bit) == Xor(2 * Product(a, b), if bit == 1 then a else 0)
  {
    assert (2 * b + bit) / 2 == b;
  }

  lemma {:induction false} MulIsRemainder(a: Word, b: Word)
    ensures IsRemainder(Product(a, b), Mul(a, b))
    decreases b
  {
    if b == 0 {
      assert Product(a, b) == Xor(Product(POLY, 0), 0);
    } else {
      MulIsRemainder(a, b / 2);
      var m: nat, t: nat := Mul(a, b / 2), Times(a, b);
      var q: nat :| Product(a, b / 2) == Xor(Product(POLY, q), m);
      var bit := if m < 32768 then 0 else 1;
      var p := if bit == 1 then POLY else 0;
      calc {
        Product(a, b);
        Xor(2 * Xor(Product(POLY, q), m), t);
        { DoubleXor(Product(POLY, q), m); }
        Xor(Xor(2 * Product(POLY, q), 2 * m), t);
        { AddTwice(2 * Product(POLY, q), 2 * m, p); XtimeAsXor(m); }
        Xor(Xor(Xor(2 * Product(POLY, q), p), Xtime(m)), t);
        { ProductStep(POLY, q, bit); XorAssoc(Product(POLY, 2 * q + bit), Xtime(m), t); }
        Xor(Product(POLY, 2 * q + bit), Mul(a, b));
      }
    }
  }

  lemma AddTwice(a: nat, b: nat, p: nat)
    ensures Xor(a, b) == Xor(Xor(a, p), Xor(b, p))
  {
    XorSwapMiddle(a, p, b, p);
    XorSelf(p);
    XorZero(Xor(a, b));
  }

  lemma {:induction false} ProductXor(a: nat, b: nat, c: nat)
    ensures Product(a, Xor(b, c)) == Xor(Product(a, b), Product(a, c))
    decreases b + c
  {
    if b == 0 {
    } else if c == 0 {
      XorZero(b);
      XorZero(Product(a, b));
    } else {
      ProductXor(a, b / 2, c / 2);
      XorStep(b, c);
      var s, t := if b % 2 == 1 then a else 0, if c % 2 == 1 then a else 0;
      var p, q := Product(a, b / 2), Product(a, c / 2);
      DoubleXor(p, q);
      XorSwapMiddle(2 * p, s, 2 * q, t);
      XorSelf(a);
      XorZero(a);
      var bit := Xor(b, c) % 2;
      ProductStep(a, Xor(b / 2, c / 2), bit);
      assert Xor(b, c) == 2 * Xor(b / 2, c / 2) + bit;
    }
  }

  /** A nonzero multiple of the generator has degree at least 16. */
  lemma {:induction false} MultipleIsLarge(q: nat)
    requires q > 0
    ensures Product(POLY, q) >= 65536
  {
    if q > 1 {
      MultipleIsLarge(q / 2);
      var m := 2 * Product(POLY, q / 2);
      if q % 2 == 1 && Xor(m, POLY) < 65536 {
        AddTwice(m, 0, POLY);
        XorZero(m);
        SmallXor(Xor(m, POLY));
      } else {
        XorZero(m);
      }
    } else {
      assert Product(POLY, 1) == Xor(0, POLY);
    }
  }

  lemma SmallXor(r: Word)
    ensures Xor(r, POLY) < 131072
  {
    TwoLiterals();
    XorBound(r, POLY, 17);
  }

  /** The remainder is unique, so Mul is the product modulo the generator. */
  lemma RemainderIsUnique(p: nat, r: Word, s: Word)
    requires IsRemainder(p, r) && IsRemainder(p, s)
    ensures r == s
  {
    var u: nat :| p == Xor(Product(POLY, u), r);
    var v: nat :| p == Xor(Product(POLY, v), s);
    XorSelf(p);
    XorSwapMiddle(Product(POLY, u), r, Product(POLY, v), s);
    ProductXor(POLY, u, v);
    var m := Product(POLY, Xor(u, v));
    AddTwice(m, 0, Add(r, s));
    XorZero(m);
    if Xor(u, v) > 0 {
      MultipleIsLarge(Xor(u, v));
    } else {
      AddIsZero(r, s);
    }
  }
}
