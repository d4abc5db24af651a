/** The bases that identify source slices: powers of two whose exponents are coprime to 65535. */
module Bases {
  import opened Galois
  import opened Generator
  import opened Gf16
  import opened Numbers
  import opened Order
  import opened Totient

  /** How many source slices can have a base of full order. */
  const MAX_SLICES := 32768

  function Factors(): seq<Positive> {
    [3, 5, 17, 257]
  }

  ghost predicate Coprime(n: nat) {
    Gcd(LIMIT, n) == 1
  }

  /** The numbers below n that are coprime to 65535, counted by sieving. */
  function CoprimesBelow(n: nat): nat {
    Count(Factors(), n)
  }

  lemma FactorDivides(p: nat)
    requires IsFactor(p)
    ensures Divides(p, LIMIT)
  {
    DividesMod(p, LIMIT);
  }

  /** A divisor of 65535 that none of its primes divides is one. */
  lemma NoFactorLeft(g: nat)
    requires Divides(g, LIMIT)
    requires !Divides(3, g) && !Divides(5, g) && !Divides(17, g) && !Divides(257, g)
    ensures g == 1
  {
    var m: nat :| g * m == LIMIT;
    var m3 := MoveFactor(g, m, 3, 21845);
    var m5 := MoveFactor(g, m3, 5, 4369);
    var m17 := MoveFactor(g, m5, 17, 257);
    var m257 := MoveFactor(g, m17, 257, 1);
    FactorSizes(1, g, m257);
  }

  lemma CommonFactor(p: nat, n: nat)
    requires IsFactor(p) && Divides(p, n)
    ensures !Coprime(n)
  {
    FactorDivides(p);
    GcdGreatest(LIMIT, n, p);
    DividesMod(p, Gcd(LIMIT, n));
  }

  lemma CoprimeIsSieved(n: nat)
    ensures Coprime(n) <==> Sieve(Factors(), n)
  {
    var g := Gcd(LIMIT, n);
    GcdDivides(LIMIT, n);
    forall p | IsFactor(p)
      ensures n % p == 0 <==> Divides(p, n)
    {
      DividesMod(p, n);
    }
    if Coprime(n) {
      forall p | p in Factors()
        ensures n % p != 0
      {
        if Divides(p, n) {
          CommonFactor(p, n);
        }
      }
    }
    if Sieve(Factors(), n) {
      forall p | IsFactor(p)
        ensures !Divides(p, g)
      {
        assert p in Factors();
        if Divides(p, g) {
          DividesTrans(p, g, n);
        }
      }
      NoFactorLeft(g);
    }
  }

  lemma CountThree()
    ensures Count([3], 3) == 2
  {
    assert Count([], 1) == 1 by {
      assert Count([], 0) == 0;
    }
    hide Count;
    FactorIsPrime(3);
    CountPrime([], 1, 3);
    assert [] + [3] == [3];
  }

  lemma CountFive()
    ensures Count([3, 5], 15) == 8
  {
    CountThree();
    hide Count;
    FactorIsPrime(3);
    FactorIsPrime(5);
    DividesMod(3, 3);
    CountPrime([3], 3, 5);
    assert [3] + [5] == [3, 5];
  }

  lemma CountSeventeen()
    ensures Count([3, 5, 17], 255) == 128
  {
    CountFive();
    hide Count;
    FactorIsPrime(3);
    FactorIsPrime(5);
    FactorIsPrime(17);
    DividesMod(3, 15);
    DividesMod(5, 15);
    CountPrime([3, 5], 15, 17);
    assert [3, 5] + [17] == [3, 5, 17];
  }

  /** Euler's totient of 65535. */
  lemma TotientOfLimit()
    ensures CoprimesBelow(LIMIT) == MAX_SLICES
  {
    CountSeventeen();
    hide Count;
    FactorIsPrime(3);
    FactorIsPrime(5);
    FactorIsPrime(17);
    FactorIsPrime(257);
    DividesMod(3, 255);
    DividesMod(5, 255);
    DividesMod(17, 255);
    CountPrime([3, 5, 17], 255, 257);
    assert [3, 5, 17] + [257] == Factors();
  }

  // ---- The i-th coprime number ----

  lemma {:induction false} CountMonotone(m: nat, n: nat)
    requires m <= n
    ensures CoprimesBelow(m) <= CoprimesBelow(n)
  {
    if m < n {
      CountMonotone(m, n - 1);
    }
  }

  ghost predicate IsNth(n: nat, i: nat) {
    Coprime(n) && CoprimesBelow(n) == i
  }

  lemma {:induction false} NthExists(i: nat, n: nat)
    requires i < CoprimesBelow(n)
    ensures exists m: nat :: m < n && IsNth(m, i)
  {
    CoprimeIsSieved(n - 1);
    if i < CoprimesBelow(n - 1) {
      NthExists(i, n - 1);
    } else {
      assert IsNth(n - 1, i);
    }
  }

  lemma NthUnique(m: nat, n: nat, i: nat)
    requires IsNth(m, i) && IsNth(n, i)
    ensures m == n
  {
    CoprimeIsSieved(m);
    CoprimeIsSieved(n);
    if m < n {
      CountMonotone(m + 1, n);
    } else if n < m {
      CountMonotone(n + 1, m);
    }
  }

  /** The i-th number coprime to 65535, counting from zero. */
  ghost function NthCoprime(i: nat): (n: nat)
    requires i < MAX_SLICES
    ensures 0 < n < LIMIT && IsNth(n, i)
  {
    TotientOfLimit();
    NthExists(i, LIMIT);
    var n: nat :| n < LIMIT && IsNth(n, i);
    assert Gcd(LIMIT, 0) == LIMIT;
    n
  }

  /** The base of source slice i: past the last full-order base the exponent sticks at 65535. */
  ghost function Base(i: nat): Word {
    if i < MAX_SLICES then Exp(NthCoprime(i)) else Exp(LIMIT)
  }

  // ---- The program ----

  method GcdLoop(a: nat, b: nat) returns (g: nat)
    ensures g == Gcd(a, b)
  {
    var x, y := a, b;
    while y != 0
      invariant Gcd(x, y) == Gcd(a, b)
      decreases y
    {
      x, y := y, x % y;
    }
    g := x;
  }

  /** Where the search stands after i bases. */
  ghost predicate SearchState(i: nat, logbase: nat) {
    if i == 0 then logbase == 0
    else if i <= MAX_SLICES then 0 < logbase <= LIMIT && IsNth(logbase - 1, i - 1)
    else logbase == LIMIT + 1
  }

  lemma SearchStart(i: nat, logbase: nat)
    requires SearchState(i, logbase)
    ensures logbase <= LIMIT + 1
    ensures i <= MAX_SLICES ==> CoprimesBelow(logbase) == i
  {
    if 0 < i <= MAX_SLICES {
      CoprimeIsSieved(logbase - 1);
    }
  }

  lemma LimitNeighbours()
    ensures !Coprime(LIMIT) && Coprime(LIMIT + 1)
  {
    CoprimeIsSieved(LIMIT);
    CoprimeIsSieved(LIMIT + 1);
    assert 3 in Factors();
  }

  /** The search never runs past 65536, which is coprime to 65535. */
  method NextCoprime(from: nat) returns (n: nat)
    requires from <= LIMIT + 1
    ensures from <= n <= LIMIT + 1 && Coprime(n)
    ensures CoprimesBelow(n) == CoprimesBelow(from)
  {
    LimitNeighbours();
    n := from;
    var g := GcdLoop(LIMIT, n);
    while g != 1
      invariant from <= n <= LIMIT + 1
      invariant CoprimesBelow(n) == CoprimesBelow(from)
      invariant g == Gcd(LIMIT, n)
      decreases LIMIT + 1 - n
    {
      CoprimeIsSieved(n);
      n := n + 1;
      g := GcdLoop(LIMIT, n);
    }
  }

  lemma CountNext(n: nat)
    requires Coprime(n)
    ensures CoprimesBelow(n + 1) == CoprimesBelow(n) + 1
  {
    CoprimeIsSieved(n);
    hide Sieve;
  }

  lemma SearchStep(i: nat, logbase: nat, n: nat)
    requires SearchState(i, logbase)
    requires logbase <= n <= LIMIT + 1 && Coprime(n) && CoprimesBelow(n) == CoprimesBelow(logbase)
    ensures SearchState(i + 1, if n < LIMIT then n + 1 else n)
  {
    hide CoprimesBelow, Gcd;
    SearchStart(i, logbase);
    TotientOfLimit();
    LimitNeighbours();
    if i < MAX_SLICES {
      if n >= LIMIT {
        CountMonotone(LIMIT, n);
      }
    } else if i == MAX_SLICES && n < LIMIT {
      CountNext(n);
      CountMonotone(n + 1, LIMIT);
    }
  }

  method ComputeBase(t: Tables, index: nat) returns (base: Word)
    requires t.Valid()
    ensures base == Base(index)
  {
    var logbase := 0;
    for i := 0 to index + 1
      invariant SearchState(i, logbase)
    {
      SearchStart(i, logbase);
      var n := NextCoprime(logbase);
      SearchStep(i, logbase, n);
      logbase := if n < LIMIT then n + 1 else n;
    }
    if index < MAX_SLICES {
      NthUnique(logbase - 1, NthCoprime(index), index);
    }
    PowerOfTwo(logbase - 1);
    base := t.Pow(2, logbase - 1);
  }

  lemma PowerOfTwo(n: nat)
    ensures Power(2, n) == Exp(n)
  {
    ExpOne();
    PowerOfExp(2, 1, n, n);
  }

  // ---- What the bases are good for ----

  lemma BaseIsNonzero(i: nat)
    ensures Base(i) != 0
  {
    ExpNonzero(if i < MAX_SLICES then NthCoprime(i) else LIMIT);
  }

  lemma LateBaseIsOne(i: nat)
    requires i >= MAX_SLICES
    ensures Base(i) == 1
  {
    ExpLimit();
  }

  /** Two slices share a base exactly when both lie beyond the first 32768. */
  lemma BasesCollide(i: nat, j: nat)
    requires i < j
    ensures Base(i) == Base(j) <==> i >= MAX_SLICES
  {
    ExpLimit();
    if i < MAX_SLICES {
      var m := NthCoprime(i);
      if j < MAX_SLICES {
        var n := NthCoprime(j);
        if Exp(m) == Exp(n) {
          ExpInjective(m, n);
        }
      } else if Exp(m) == Exp(0) {
        ExpInjective(m, 0);
      }
    }
  }

  /** A base has the full multiplicative order exactly when its index is below 32768. */
  lemma BaseOrder(i: nat)
    ensures (forall d: nat :: Power(Base(i), d) == 1 <==> Divides(LIMIT, d)) <==> i < MAX_SLICES
  {
    if i < MAX_SLICES {
      var n := NthCoprime(i);
      forall d: nat
        ensures Power(Base(i), d) == 1 <==> Divides(LIMIT, d)
      {
        PowerOfExp(Base(i), n, d, n * d);
        OrderOfX(n * d);
        if Divides(LIMIT, n * d) {
          Euclid(LIMIT, n, d);
        }
        if Divides(LIMIT, d) {
          DividesMultiple(LIMIT, d, n);
        }
      }
    } else {
      LateBaseIsOne(i);
      assert Power(1, 1) == 1 by {
        MulOne(1);
      }
      DividesMod(LIMIT, 1);
    }
  }
}
