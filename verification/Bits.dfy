/** Exclusive or on natural numbers, bit by bit. */
module Bits {

  function Xor(a: nat, b: nat): nat
    decreases a
  {
    if a == 0 then b else 2 * Xor(a / 2, b / 2) + (if a % 2 == b % 2 then 0 else 1)
  }

  lemma XorStep(a: nat, b: nat)
    ensures Xor(a, b) / 2 == Xor(a / 2, b / 2)
    ensures Xor(a, b) % 2 == if a % 2 == b % 2 then 0 else 1
  {
  }

  lemma {:induction false} XorZero(a: nat)
    ensures Xor(a, 0) == a
    decreases a
  {
    if a != 0 {
      XorZero(a / 2);
    }
  }

  lemma {:induction false} XorSelf(a: nat)
    ensures Xor(a, a) == 0
  {
    if a != 0 {
      XorSelf(a / 2);
    }
  }

  lemma {:induction false} XorComm(a: nat, b: nat)
    ensures Xor(a, b) == Xor(b, a)
    decreases a
  {
    if a == 0 {
      XorZero(b);
    } else if b == 0 {
      XorZero(a);
    } else {
      XorComm(a / 2, b / 2);
    }
  }

  lemma {:induction false} XorAssoc(a: nat, b: nat, c: nat)
    ensures Xor(Xor(a, b), c) == Xor(a, Xor(b, c))
    decreases a
  {
    if a != 0 {
      XorAssoc(a / 2, b / 2, c / 2);
      XorHalves(Xor(a, b), c, Xor(a, Xor(b, c))) by {
        XorStep(a, b);
        XorStep(b, c);
        XorStep(a, Xor(b, c));
      }
    }
  }

  /** A number is the exclusive or of two others when its half and its parity are. */
  lemma XorHalves(a: nat, b: nat, r: nat)
    requires r / 2 == Xor(a / 2, b / 2)
    requires r % 2 == if a % 2 == b % 2 then 0 else 1
    ensures r == Xor(a, b)
  {
    XorStep(a, b);
  }

  /** Exchanging the two middle terms of a sum of four. */
  lemma XorSwapMiddle(a: nat, b: nat, c: nat, d: nat)
    ensures Xor(Xor(a, b), Xor(c, d)) == Xor(Xor(a, c), Xor(b, d))
  {
    XorAssoc(a, b, Xor(c, d));
    XorAssoc(b, c, d);
    XorComm(b, c);
    XorAssoc(c, b, d);
    XorAssoc(a, c, Xor(b, d));
  }

  function Two(n: nat): (r: nat)
    ensures r > 0
  {
    if n == 0 then 1 else 2 * Two(n - 1)
  }

  lemma TwoLiterals()
    ensures Two(4) == 16 && Two(8) == 256 && Two(12) == 4096 && Two(16) == 65536
  {
    assert Two(4) == 16;
    assert Two(8) == 256;
    assert Two(12) == 4096;
  }

  lemma {:induction false} XorBound(a: nat, b: nat, n: nat)
    requires a < Two(n) && b < Two(n)
    ensures Xor(a, b) < Two(n)
  {
    if a != 0 {
      XorBound(a / 2, b / 2, n - 1);
    }
  }

  /** The top bit of a sum is the sum of the top bits. */
  lemma {:induction false} XorTop(a: nat, b: nat, n: nat)
    requires a < 2 * Two(n) && b < 2 * Two(n)
    ensures Xor(a, b) >= Two(n) <==> (a >= Two(n)) != (b >= Two(n))
    decreases n
  {
    XorStep(a, b);
    if n != 0 && a != 0 {
      XorTop(a / 2, b / 2, n - 1);
    }
  }

  function Shl(a: nat, n: nat): nat {
    if n == 0 then a else 2 * Shl(a, n - 1)
  }

  lemma {:induction false} ShlIsProduct(a: nat, n: nat)
    ensures Shl(a, n) == Two(n) * a
  {
    if n != 0 {
      ShlIsProduct(a, n - 1);
      assert 2 * (Two(n - 1) * a) == (2 * Two(n - 1)) * a;
    }
  }

  /** The bits above and below any position are summed independently. */
  lemma {:induction false} XorSplit(a: nat, b: nat, x: nat, y: nat, n: nat)
    requires x < Two(n) && y < Two(n)
    ensures Xor(Shl(a, n) + x, Shl(b, n) + y) == Shl(Xor(a, b), n) + Xor(x, y)
  {
    if n == 0 {
      assert x == 0 && y == 0;
    } else {
      hide Xor, Shl, Two;
      ShlTwice(a, n, x);
      ShlTwice(b, n, y);
      ShlTwice(Xor(a, b), n, 0);
      XorSplit(a, b, x / 2, y / 2, n - 1);
      XorCarry(Shl(a, n - 1), Shl(b, n - 1), Shl(Xor(a, b), n - 1), x, y);
    }
  }

  lemma ShlTwice(a: nat, n: nat, x: nat)
    requires n > 0 && x < Two(n)
    ensures Shl(a, n) == 2 * Shl(a, n - 1) && x / 2 < Two(n - 1)
  {
  }

  lemma XorCarry(a: nat, b: nat, s: nat, x: nat, y: nat)
    requires Xor(a + x / 2, b + y / 2) == s + Xor(x / 2, y / 2)
    ensures Xor(2 * a + x, 2 * b + y) == 2 * s + Xor(x, y)
  {
    XorStep(2 * a + x, 2 * b + y);
    XorStep(x, y);
    assert (2 * a + x) / 2 == a + x / 2 && (2 * b + y) / 2 == b + y / 2;
  }

  lemma XorNibbles(a: nat, b: nat, x: nat, y: nat)
    requires x < 16 && y < 16
    ensures Xor(16 * a + x, 16 * b + y) == 16 * Xor(a, b) + Xor(x, y)
  {
    TwoLiterals();
    XorSplit(a, b, x, y, 4);
    ShlIsProduct(a, 4);
    ShlIsProduct(b, 4);
    ShlIsProduct(Xor(a, b), 4);
  }

  lemma XorBytes(a: nat, b: nat, x: nat, y: nat)
    requires x < 256 && y < 256
    ensures Xor(256 * a + x, 256 * b + y) == 256 * Xor(a, b) + Xor(x, y)
  {
    TwoLiterals();
    XorSplit(a, b, x, y, 8);
    ShlIsProduct(a, 8);
    ShlIsProduct(b, 8);
    ShlIsProduct(Xor(a, b), 8);
  }
}
