/** Divisibility of natural numbers, as far as the multiplicative order of 65535 needs it. */
module Numbers {

  ghost predicate Divides(d: nat, n: nat) {
    exists k: nat :: d * k == n
  }

  lemma DividesIntro(d: nat, k: nat, n: nat)
    requires d * k == n
    ensures Divides(d, n)
  {
  }

  lemma DividesTrans(a: nat, b: nat, c: nat)
    requires Divides(a, b) && Divides(b, c)
    ensures Divides(a, c)
  {
    var k: nat :| a * k == b;
    var l: nat :| b * l == c;
    assert a * (k * l) == c;
  }

  lemma DividesSum(d: nat, a: nat, b: nat)
    requires Divides(d, a) && Divides(d, b)
    ensures Divides(d, a + b)
  {
    var k: nat :| d * k == a;
    var l: nat :| d * l == b;
    assert d * (k + l) == a + b;
  }

  lemma DividesMultiple(d: nat, a: nat, m: nat)
    requires Divides(d, a)
    ensures Divides(d, m * a)
  {
    var k: nat :| d * k == a;
    assert d * (m * k) == m * a;
  }

  lemma DividesDifference(d: nat, a: nat, b: nat)
    requires Divides(d, a) && Divides(d, b) && b <= a
    ensures Divides(d, a - b)
  {
    var k: nat :| d * k == a;
    var l: nat :| d * l == b;
    TimesMinus(d, k, l);
    if k < l {
      MultipleSize(d, k - l);
      DividesIntro(d, 0, a - b);
    } else {
      DividesIntro(d, k - l, a - b);
    }
  }

  lemma TimesMinus(d: nat, k: int, l: int)
    ensures d * (k - l) == d * k - d * l
  {
  }

  lemma DividesMod(d: nat, n: nat)
    requires d > 0
    ensures Divides(d, n) <==> n % d == 0
  {
    var q := n / d;
    assert n == d * q + n % d;
    if n % d == 0 {
      DividesIntro(d, q, n);
    }
    if Divides(d, n) {
      var k: nat :| d * k == n;
      var r := n % d;
      assert r == d * (k - q);
      MultipleSize(d, k - q);
    }
  }

  lemma MultipleSize(d: nat, k: int)
    ensures k >= 1 ==> d * k >= d
    ensures k <= -1 ==> d * k + d <= 0
  {
  }

  lemma TimesMonotone(d: nat, x: nat, y: nat)
    requires x <= y
    ensures d * x <= d * y
  {
    assert d * (y - x) >= 0;
  }

  lemma DivideBelow(a: nat, d: nat, q: nat)
    requires d > 0
    ensures a / d < q <==> a < d * q
  {
    var p := a / d;
    assert a == d * p + a % d;
    if p < q {
      TimesMonotone(d, p + 1, q);
      assert d * (p + 1) == d * p + d;
    } else {
      TimesMonotone(d, q, p);
    }
  }

  lemma DivideMonotone(a: nat, b: nat, d: nat)
    requires a <= b && d > 0
    ensures a / d <= b / d
  {
    DivideBelow(b, d, b / d + 1);
    DivideBelow(a, d, b / d + 1);
  }

  /** Euclid's algorithm. */
  function Gcd(a: nat, b: nat): nat
    decreases b
  {
    if b == 0 then a else Gcd(b, a % b)
  }

  lemma Remainder(a: nat, b: nat) returns (q: nat)
    requires b > 0
    ensures a == q * b + a % b
  {
    q := a / b;
  }

  lemma {:induction false} GcdDivides(a: nat, b: nat)
    ensures Divides(Gcd(a, b), a) && Divides(Gcd(a, b), b)
    decreases b
  {
    if b == 0 {
      assert a * 1 == a && a * 0 == b;
    } else {
      GcdDivides(b, a % b);
      var q := Remainder(a, b);
      DividesMultiple(Gcd(a, b), b, q);
      DividesSum(Gcd(a, b), q * b, a % b);
    }
  }

  lemma {:induction false} GcdGreatest(a: nat, b: nat, d: nat)
    requires Divides(d, a) && Divides(d, b)
    ensures Divides(d, Gcd(a, b))
    decreases b
  {
    if b != 0 {
      var q := Remainder(a, b);
      DividesMultiple(d, b, q);
      DividesDifference(d, a, q * b);
      GcdGreatest(b, a % b, d);
    }
  }

  /** Bezout's identity. */
  lemma {:induction false} Bezout(a: nat, b: nat) returns (x: int, y: int)
    ensures x * a + y * b == Gcd(a, b)
    decreases b
  {
    if b == 0 {
      x, y := 1, 0;
    } else {
      var q := Remainder(a, b);
      var u, v := Bezout(b, a % b);
      x, y := v, u - v * q;
      calc {
        x * a + y * b;
        v * (q * b + a % b) + (u - v * q) * b;
        { assert v * (q * b + a % b) == v * (q * b) + v * (a % b); }
        v * (q * b) + v * (a % b) + (u * b - (v * q) * b);
        { assert v * (q * b) == (v * q) * b; }
        u * b + v * (a % b);
      }
    }
  }

  lemma Combine(x: int, p: int, y: int, m: int, n: int, k: int)
    requires p * k == m * n && x * p + y * m == 1
    ensures n == p * (x * n + y * k)
  {
    calc {
      n;
      (x * p + y * m) * n;
      (x * p) * n + (y * m) * n;
      { assert (x * p) * n == p * (x * n); assert (y * m) * n == y * (m * n); }
      p * (x * n) + y * (p * k);
      { assert y * (p * k) == p * (y * k); }
      p * (x * n) + p * (y * k);
      p * (x * n + y * k);
    }
  }

  /** Euclid's lemma. */
  lemma Euclid(p: nat, m: nat, n: nat)
    requires p > 0 && Gcd(p, m) == 1 && Divides(p, m * n)
    ensures Divides(p, n)
  {
    var x, y := Bezout(p, m);
    var k: nat :| p * k == m * n;
    Combine(x, p, y, m, n, k);
    var c := x * n + y * k;
    MultipleSize(p, c);
    DividesIntro(p, c, n);
  }

  ghost predicate Prime(p: nat) {
    p > 1 && forall d: nat :: Divides(d, p) ==> d == 1 || d == p
  }

  lemma PrimeGcd(p: nat, m: nat)
    requires Prime(p)
    ensures Gcd(p, m) == if m % p == 0 then p else 1
  {
    GcdDivides(p, m);
    DividesMod(p, m);
    if m % p == 0 {
      assert p * 1 == p;
      GcdGreatest(p, m, p);
      PrimeAbove(p, Gcd(p, m));
    }
  }

  lemma PrimeAbove(p: nat, g: nat)
    requires Prime(p) && Divides(p, g) && Divides(g, p)
    ensures g == p
  {
    DividesMod(p, 1);
  }

  lemma PrimeEuclid(p: nat, m: nat, n: nat)
    requires Prime(p) && Divides(p, m * n)
    ensures Divides(p, m) || Divides(p, n)
  {
    PrimeGcd(p, m);
    DividesMod(p, m);
    if m % p != 0 {
      Euclid(p, m, n);
    }
  }
}
