/** The powers of x run through every nonzero word exactly once. */
module Order {
  import opened Bits
  import opened BitWords
  import opened Gf16
  import opened Generator
  import opened Numbers

  const LIMIT := 65535

  lemma ExpLimit()
    ensures Exp(65535) == 1
  {
    Power65536();
    ExpOne();
    AppendSum(0, F16);
    XtimeInjective(Exp(65535), 1);
  }

  lemma {:induction false} ExpSmall(k: nat)
    requires k < 16
    ensures Exp(k) == Two(k) && Two(k) <= 32768
  {
    if k != 0 {
      ExpSmall(k - 1);
      TwoMonotone(k, 15);
      TwoLiterals();
    }
  }

  lemma {:induction false} TwoMonotone(m: nat, n: nat)
    requires m <= n
    ensures Two(m) <= Two(n)
  {
    if m < n {
      TwoMonotone(m, n - 1);
    }
  }

  lemma Values()
    ensures Value(F8) == 0x0B2F
    ensures Value(X15) == 0x8000
  {
    AppendSum(0, F8);
    AppendSum(0, X15);
  }

  lemma NotOne255()
    ensures Exp(255) != 1
  {
    Power256();
    Values();
  }

  lemma NotOne3855()
    ensures Exp(3855) != 1
  {
    ExpSmall(15);
    TwoLiterals();
    Values();
    assert Exp(4111) == Value(K) by {
      Power4096();
      Shifted();
      ExpProduct(4096, 15, F12, X15, K);
    }
    AppendSum(0, K);
    Power256();
    ExpAdd(3855, 256);
    MulOne(Exp(256));
  }

  lemma Exp4352()
    ensures Exp(4352) == Value(G1)
  {
    Power256();
    Power4096();
    Norm1();
    hide Exp, Value;
    ExpProduct(4096, 256, F12, F8, G1);
  }

  lemma Exp17()
    ensures Exp(17) == Value(G2)
  {
    Power16();
    ExpOne();
    Norm2();
    ExpProduct(16, 1, F4, F0, G2);
  }

  lemma ExpNorm()
    ensures Exp(4369) == Value(G)
  {
    Exp4352();
    Exp17();
    hide Exp, Value;
    ExpNormProduct();
  }

  lemma ExpNormProduct()
    requires Exp(4352) == Value(G1) && Exp(17) == Value(G2)
    ensures Exp(4369) == Value(G)
  {
    Norm();
    ExpProduct(4352, 17, G1, G2, G);
  }

  lemma ExpNormSquare()
    ensures Exp(8738) == Value(GG)
  {
    ExpNorm();
    NormSquare();
    ExpProduct(4369, 4369, G, G, GG);
  }

  lemma NotOne13107()
    ensures Exp(13107) != 1
  {
    assert Exp(13107) == Value(G3) by {
      ExpNormSquare();
      ExpNorm();
      NormCube();
      ExpProduct(8738, 4369, GG, G, G3);
    }
    AppendSum(0, G3);
  }

  lemma ExpNormFourth()
    ensures Exp(17476) == Value(G4)
  {
    ExpNormSquare();
    NormFourth();
    ExpProduct(8738, 8738, GG, GG, G4);
  }

  lemma NotOne21845()
    ensures Exp(21845) != 1
  {
    assert Exp(21845) == Value(G5) by {
      ExpNormFourth();
      ExpNorm();
      NormFifth();
      ExpProduct(17476, 4369, G4, G, G5);
    }
    AppendSum(0, G5);
  }

  // ---- The order of x ----

  lemma {:induction false} ExpMultiple(d: nat, k: nat)
    requires Exp(d) == 1
    ensures Exp(d * k) == 1
  {
    if k == 0 {
      assert d * k == 0;
    } else {
      ExpMultiple(d, k - 1);
      assert d * k == d * (k - 1) + d;
      ExpAdd(d * (k - 1), d);
      MulOne(1);
    }
  }

  lemma {:induction false} ExpGcd(a: nat, b: nat)
    requires Exp(a) == 1 && Exp(b) == 1
    ensures Exp(Gcd(a, b)) == 1
    decreases b
  {
    if b != 0 {
      var q := Remainder(a, b);
      ExpMultiple(b, q);
      assert q * b == b * q;
      ExpAdd(q * b, a % b);
      MulOne(Exp(a % b));
      ExpGcd(b, a % b);
    }
  }

  ghost predicate IsFactor(p: nat) {
    p == 3 || p == 5 || p == 17 || p == 257
  }

  lemma NoSmallDivisor(p: nat, d: nat)
    requires IsFactor(p) && 2 <= d <= 16 && d < p
    ensures p % d != 0
  {
    if d <= 4 {
    } else if d <= 8 {
    } else if d <= 12 {
    }
  }

  lemma FactorIsPrime(p: nat)
    requires IsFactor(p)
    ensures Prime(p)
  {
    forall d: nat | Divides(d, p)
      ensures d == 1 || d == p
    {
      var k: nat :| d * k == p;
      assert k * d == p;
      DividesIntro(k, d, p);
      FactorSizes(p, d, k);
      if 2 <= d <= 16 && d < p {
        NoSmallDivisor(p, d);
        DividesMod(d, p);
      } else if 2 <= k <= 16 && k < p {
        NoSmallDivisor(p, k);
        DividesMod(k, p);
      }
    }
  }

  lemma FactorSizes(p: nat, d: nat, k: nat)
    requires d * k == p && 0 < p <= 257
    ensures 0 < d <= p && 0 < k <= p
    ensures d <= 16 || k <= 16
    ensures k == 1 ==> d == p
    ensures d == p ==> k == 1
  {
    BigProduct(d, k);
  }

  lemma BigProduct(d: nat, k: nat)
    ensures d > 16 && k > 16 ==> d * k > 257
  {
    if d > 16 && k > 16 {
      assert d * k >= 17 * k;
    }
  }

  /** A number that divides 65535 and is not 65535 divides it further by one of its primes. */
  lemma ProperDivisor(g: nat)
    requires Divides(g, LIMIT) && g != LIMIT
    ensures Divides(g, 21845) || Divides(g, 13107) || Divides(g, 3855) || Divides(g, 255)
  {
    var m: nat :| g * m == LIMIT;
    if Divides(3, m) {
      DivideOut(g, m, 3, 21845);
    } else if Divides(5, m) {
      DivideOut(g, m, 5, 13107);
    } else if Divides(17, m) {
      DivideOut(g, m, 17, 3855);
    } else if Divides(257, m) {
      DivideOut(g, m, 257, 255);
    } else {
      var g3 := MoveFactor(m, g, 3, 21845);
      var g5 := MoveFactor(m, g3, 5, 4369);
      var g17 := MoveFactor(m, g5, 17, 257);
      var g257 := MoveFactor(m, g17, 257, 1);
      FactorSizes(1, m, g257);
    }
  }

  lemma DivideOut(g: nat, m: nat, p: nat, n: nat)
    requires p > 0 && Divides(p, m) && g * m == p * n
    ensures Divides(g, n)
  {
    var k: nat :| p * k == m;
    assert p * (g * k) == g * (p * k);
    CancelLeft(p, g * k, n);
  }

  lemma CancelLeft(p: nat, a: nat, b: nat)
    requires p > 0 && p * a == p * b
    ensures a == b
  {
    MultipleSize(p, a - b);
    assert p * (a - b) == 0;
  }

  /** A prime factor of a product that does not divide one side divides the other. */
  lemma Rearrange(p: nat, m: nat, k: nat)
    ensures p * (m * k) == m * (p * k)
  {
  }

  lemma MoveFactor(m: nat, g: nat, p: nat, n: nat) returns (k: nat)
    requires IsFactor(p) && m * g == p * n && !Divides(p, m)
    ensures m * k == n
  {
    FactorIsPrime(p);
    hide Prime;
    DividesIntro(p, n, m * g);
    PrimeEuclid(p, m, g);
    k :| p * k == g;
    hide Divides;
    Rearrange(p, m, k);
    CancelLeft(p, m * k, n);
  }

  lemma ExpOfDivisor(g: nat, n: nat)
    requires Exp(g) == 1 && Divides(g, n)
    ensures Exp(n) == 1
  {
    var k: nat :| g * k == n;
    ExpMultiple(g, k);
  }

  /** The order of x is 65535. */
  lemma OrderOfX(d: nat)
    ensures Exp(d) == 1 <==> Divides(LIMIT, d)
  {
    ExpLimit();
    if Divides(LIMIT, d) {
      ExpOfDivisor(LIMIT, d);
    }
    if Exp(d) == 1 {
      var g := Gcd(d, LIMIT);
      ExpGcd(d, LIMIT);
      GcdDivides(d, LIMIT);
      if g != LIMIT {
        ProperDivisor(g);
        NotOne21845();
        NotOne13107();
        NotOne3855();
        NotOne255();
        NoProperPower(g);
      }
    }
  }

  lemma NoProperPower(g: nat)
    requires Exp(g) == 1
    requires Exp(21845) != 1 && Exp(13107) != 1 && Exp(3855) != 1 && Exp(255) != 1
    ensures !Divides(g, 21845) && !Divides(g, 13107) && !Divides(g, 3855) && !Divides(g, 255)
  {
    if Divides(g, 21845) {
      ExpOfDivisor(g, 21845);
    }
    if Divides(g, 13107) {
      ExpOfDivisor(g, 13107);
    }
    if Divides(g, 3855) {
      ExpOfDivisor(g, 3855);
    }
    if Divides(g, 255) {
      ExpOfDivisor(g, 255);
    }
  }

  // ---- Every nonzero word is exactly one power of x below 65535 ----

  lemma {:induction false} ExpNonzero(l: nat)
    ensures Exp(l) != 0
  {
    if l != 0 {
      ExpNonzero(l - 1);
      if Xtime(Exp(l - 1)) == 0 {
        XtimeInjective(Exp(l - 1), 0);
      }
    }
  }

  lemma {:induction false} ExpCancel(i: nat, d: nat)
    requires Exp(i + d) == Exp(i)
    ensures Exp(d) == 1
  {
    if i != 0 {
      XtimeInjective(Exp(i - 1 + d), Exp(i - 1));
      ExpCancel(i - 1, d);
    }
  }

  lemma ExpInjective(i: nat, j: nat)
    requires i < LIMIT && j < LIMIT && Exp(i) == Exp(j)
    ensures i == j
  {
    if i < j {
      ExpDistinct(i, j);
    } else if j < i {
      ExpDistinct(j, i);
    }
  }

  lemma ExpDistinct(i: nat, j: nat)
    requires i < j < i + LIMIT
    ensures Exp(i) != Exp(j)
  {
    OrderOfX(j - i);
    DividesMod(LIMIT, j - i);
    if Exp(i) == Exp(j) {
      ExpCancel(i, j - i);
    }
  }

  ghost function Powers(n: nat): set<Word> {
    set l: nat | l < n :: Exp(l)
  }

  ghost function Range(n: nat): (r: set<nat>)
    ensures forall w :: w in r <==> 1 <= w <= n
    ensures |r| == n
  {
    if n == 0 then {} else Range(n - 1) + {n}
  }

  lemma {:induction false} PowersSize(n: nat)
    requires n <= LIMIT
    ensures |Powers(n)| == n
  {
    hide Exp;
    if n == 0 {
      assert Powers(0) == {};
    } else {
      PowersSize(n - 1);
      assert Powers(n) == Powers(n - 1) + {Exp(n - 1)};
      if Exp(n - 1) in Powers(n - 1) {
        var l: nat :| l < n - 1 && Exp(l) == Exp(n - 1);
        ExpInjective(l, n - 1);
      }
    }
  }

  lemma {:induction false} SameSize(a: set<nat>, b: set<nat>)
    requires a <= b && |a| == |b|
    ensures a == b
  {
    if a != {} {
      var x :| x in a;
      SameSize(a - {x}, b - {x});
    }
  }

  /** The pigeonhole step: 65535 distinct powers are all the nonzero words. */
  lemma EveryWordIsAPower(w: Word)
    requires w != 0
    ensures exists l: nat :: l < LIMIT && Exp(l) == w
  {
    var powers: set<nat> := Powers(LIMIT);
    forall p | p in powers
      ensures p in Range(LIMIT)
    {
      var l: nat :| l < LIMIT && Exp(l) == p;
      ExpNonzero(l);
    }
    PowersSize(LIMIT);
    assert |Range(LIMIT)| == LIMIT;
    SameSize(powers, Range(LIMIT));
    assert w in powers;
  }

  /** The discrete logarithm of a nonzero word. */
  ghost function Log(w: Word): (l: nat)
    requires w != 0
    ensures l < LIMIT && Exp(l) == w
  {
    EveryWordIsAPower(w);
    var l: nat :| l < LIMIT && Exp(l) == w;
    l
  }

  lemma ExpPeriod(l: nat)
    ensures Exp(l + LIMIT) == Exp(l)
  {
    ExpAdd(l, LIMIT);
    ExpLimit();
    MulComm(Exp(l), 1);
    MulOne(Exp(l));
  }

  lemma {:induction false} ExpMod(l: nat)
    ensures Exp(l % LIMIT) == Exp(l)
  {
    hide Exp;
    if l >= LIMIT {
      assert (l - LIMIT) % LIMIT == l % LIMIT;
      ExpMod(l - LIMIT);
      ExpPeriod(l - LIMIT);
    }
  }

  // ---- Field laws that need inverses ----

  lemma NoZeroDivisors(a: Word, b: Word)
    ensures Mul(a, b) == 0 <==> a == 0 || b == 0
  {
    MulZero(a);
    MulZero(b);
    if a != 0 && b != 0 {
      ExpAdd(Log(a), Log(b));
      ExpNonzero(Log(a) + Log(b));
    }
  }

  lemma MulCancel(a: Word, b: Word, c: Word)
    requires a != 0 && Mul(a, b) == Mul(a, c)
    ensures b == c
  {
    MulDistributes(a, b, c);
    AddSelf(Mul(a, b));
    NoZeroDivisors(a, Add(b, c));
    AddIsZero(b, c);
  }

  lemma Inverse(a: Word) returns (b: Word)
    requires a != 0
    ensures Mul(a, b) == 1
  {
    hide Exp;
    b := Exp(LIMIT - Log(a));
    ExpAdd(Log(a), LIMIT - Log(a));
    ExpLimit();
  }
}
