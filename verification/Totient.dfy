/** How many numbers below a product of primes none of the primes divides. */
module Totient {
  import opened Numbers

  type Positive = n: nat | n > 0 witness 1

  /** No prime of the list divides m. */
  predicate Sieve(ps: seq<Positive>, m: nat)
  {
    forall p :: p in ps ==> m % p != 0
  }

  function Count(ps: seq<Positive>, n: nat): nat
  {
    if n == 0 then 0 else Count(ps, n - 1) + (if Sieve(ps, n - 1) then 1 else 0)
  }

  /** How many multiples of p below n pass the sieve. */
  function CountMultiples(ps: seq<Positive>, p: Positive, n: nat): nat
  {
    if n == 0 then 0
    else CountMultiples(ps, p, n - 1) + (if (n - 1) % p == 0 && Sieve(ps, n - 1) then 1 else 0)
  }

  lemma ModShift(a: nat, d: nat, p: Positive)
    requires Divides(p, a)
    ensures (a + d) % p == d % p
  {
    var k: nat :| p * k == a;
    ModAddMultiple(d, k, p);
  }

  lemma {:induction false} ModAddMultiple(d: nat, k: nat, p: Positive)
    ensures (p * k + d) % p == d % p
  {
    if k != 0 {
      ModAddMultiple(d, k - 1, p);
      assert p * k + d == p * (k - 1) + d + p;
      ModAddOnce(p * (k - 1) + d, p);
    }
  }

  lemma ModAddOnce(x: nat, p: Positive)
    ensures (x + p) % p == x % p
  {
    var q, r := x / p, x % p;
    var q', r' := (x + p) / p, (x + p) % p;
    assert x + p == p * q' + r' && x == p * q + r;
    assert p * (q' - q - 1) == r - r';
    MultipleSize(p, q' - q - 1);
  }

  lemma SieveShift(ps: seq<Positive>, a: nat, d: nat)
    requires forall p :: p in ps ==> Divides(p, a)
    ensures Sieve(ps, a + d) <==> Sieve(ps, d)
  {
    forall p | p in ps
      ensures (a + d) % p == d % p
    {
      ModShift(a, d, p);
    }
  }

  lemma {:induction false} CountShift(ps: seq<Positive>, a: nat, n: nat)
    requires forall p :: p in ps ==> Divides(p, a)
    ensures Count(ps, a + n) == Count(ps, a) + Count(ps, n)
  {
    hide Divides, Sieve;
    if n != 0 {
      CountShift(ps, a, n - 1);
      SieveShift(ps, a, n - 1);
    }
  }

  lemma {:induction false} CountPeriods(ps: seq<Positive>, a: nat, k: nat)
    requires forall p :: p in ps ==> Divides(p, a)
    ensures Count(ps, a * k) == k * Count(ps, a)
  {
    hide Divides, Sieve;
    if k == 0 {
      assert a * k == 0;
    } else {
      CountPeriods(ps, a, k - 1);
      assert a * k == a + a * (k - 1);
      CountShift(ps, a, a * (k - 1));
      assert k * Count(ps, a) == Count(ps, a) + (k - 1) * Count(ps, a);
    }
  }

  lemma SieveMore(ps: seq<Positive>, p: Positive, m: nat)
    ensures Sieve(ps + [p], m) <==> Sieve(ps, m) && m % p != 0
  {
    assert p in ps + [p];
    assert forall q :: q in ps + [p] <==> q in ps || q == p;
  }

  lemma {:induction false} CountSplit(ps: seq<Positive>, p: Positive, n: nat)
    ensures Count(ps + [p], n) + CountMultiples(ps, p, n) == Count(ps, n)
  {
    hide Sieve;
    if n != 0 {
      CountSplit(ps, p, n - 1);
      SieveMore(ps, p, n - 1);
    }
  }

  lemma ModSmall(x: nat, d: nat, p: Positive)
    requires Divides(p, x) && d < p
    ensures (x + d) % p == d
  {
    ModShift(x, d, p);
  }

  /** One block of p consecutive numbers holds one multiple of p. */
  lemma {:induction false} CountBlock(ps: seq<Positive>, p: Positive, x: nat, j: nat)
    requires Divides(p, x) && 1 <= j <= p
    ensures CountMultiples(ps, p, x + j) == CountMultiples(ps, p, x) + (if Sieve(ps, x) then 1 else 0)
  {
    hide Sieve, Divides;
    ModSmall(x, j - 1, p);
    if j > 1 {
      CountBlock(ps, p, x, j - 1);
    }
  }

  /** Multiplying by a prime outside the list does not change the sieve. */
  lemma SieveMultiple(ps: seq<Positive>, p: Positive, m: nat)
    requires Prime(p) && forall q :: q in ps ==> Prime(q) && q != p
    ensures Sieve(ps, p * m) <==> Sieve(ps, m)
  {
    forall q | q in ps
      ensures (p * m) % q == 0 <==> m % q == 0
    {
      DividesMod(q, p * m);
      DividesMod(q, m);
      if Divides(q, p * m) {
        PrimeEuclid(q, p, m);
      }
      if Divides(q, m) {
        DividesMultiple(q, m, p);
      }
    }
  }

  lemma {:induction false} CountMultiplesOf(ps: seq<Positive>, p: Positive, n: nat)
    requires Prime(p) && forall q :: q in ps ==> Prime(q) && q != p
    ensures CountMultiples(ps, p, p * n) == Count(ps, n)
  {
    hide Sieve;
    if n == 0 {
      assert p * n == 0;
    } else {
      CountMultiplesOf(ps, p, n - 1);
      DividesIntro(p, n - 1, p * (n - 1));
      CountBlock(ps, p, p * (n - 1), p);
      assert p * (n - 1) + p == p * n;
      SieveMultiple(ps, p, n - 1);
    }
  }

  /** Adding a prime multiplies the count over a period by the prime less one. */
  lemma CountPrime(ps: seq<Positive>, a: nat, p: Positive)
    requires Prime(p) && forall q :: q in ps ==> Prime(q) && q != p && Divides(q, a)
    ensures Count(ps + [p], p * a) == (p - 1) * Count(ps, a)
  {
    hide Divides, Sieve;
    CountSplit(ps, p, p * a);
    CountMultiplesOf(ps, p, a);
    CountPeriods(ps, a, p);
    assert a * p == p * a;
    assert p * Count(ps, a) == (p - 1) * Count(ps, a) + Count(ps, a);
  }
}
