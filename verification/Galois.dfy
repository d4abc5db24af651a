/** Table-driven arithmetic in GF(2^16). */
module Galois {
  import opened Bits
  import opened Gf16
  import opened Generator
  import opened Order

  /** Repeated multiplication, the meaning of raising to a power. */
  function Power(a: Word, n: nat): Word {
    if n == 0 then 1 else Mul(Power(a, n - 1), a)
  }

  class Tables {
    const log: array<Word>
    const exp: array<Word>

    ghost predicate Valid()
      reads log, exp
    {
      && log.Length == 65536
      && exp.Length == 131070
      && (forall l :: 0 <= l < 131070 ==> exp[l] == Exp(l))
      && (forall w: Word :: w != 0 ==> log[w] == Log(w))
      && log[0] == 0
    }

    constructor ()
      ensures Valid() && fresh(log) && fresh(exp)
    {
      hide Exp, Xtime, Log;
      var logs := new Word[65536](_ => 0);
      var exps := new Word[131070](_ => 0);
      ghost var powers := PowerList();
      WalkPowers(logs, exps, powers);
      AllLogarithms(logs[..], powers);
      logs[0] := 0;
      RepeatPowers(exps);
      log, exp := logs, exps;
    }

    /** Walks once through the powers of x, entering each into both tables. */
    static method WalkPowers(logs: array<Word>, exps: array<Word>, ghost powers: seq<Word>)
      requires logs.Length == 65536 && exps.Length == 131070 && logs != exps
      requires IsPowerList(powers)
      modifies logs, exps
      ensures forall l :: 0 <= l < LIMIT ==> exps[l] == powers[l]
      ensures forall l :: 0 <= l < LIMIT ==> logs[powers[l]] == l
    {
      var b: nat := 1;
      for l := 0 to LIMIT
        invariant b == powers[l]
        invariant forall j :: 0 <= j < l ==> exps[j] == powers[j]
        invariant forall j :: 0 <= j < l ==> logs[powers[j]] == j
      {
        logs[b] := l;
        exps[l] := b;
        b := NextPower(b);
      }
    }

    /** The table-building step on a 32-bit register. */
    static method NextPower(b: nat) returns (r: nat)
      requires b < 65536
      ensures r == Xtime(b)
    {
      r := 2 * b;
      if r >= 0x10000 {
        r := Xor(r, POLY);
      }
    }

    static method RepeatPowers(exps: array<Word>)
      requires exps.Length == 131070
      requires forall l :: 0 <= l < LIMIT ==> exps[l] == Exp(l)
      modifies exps
      ensures forall l :: 0 <= l < 131070 ==> exps[l] == Exp(l)
    {
      hide Exp;
      for l := 0 to LIMIT
        invariant forall j :: 0 <= j < LIMIT + l ==> exps[j] == Exp(j)
      {
        ExpPeriod(l);
        exps[l + LIMIT] := exps[l];
      }
    }

    function Multiply(a: Word, b: Word): (r: Word)
      requires Valid()
      reads log, exp
      ensures r == Mul(a, b)
    {
      NoZeroDivisors(a, b);
      if a == 0 || b == 0 then 0 else
        ExpAdd(Log(a), Log(b));
        exp[log[a] as nat + log[b] as nat]
    }

    /** The quotient, which is the only word that times b gives a. */
    function Divide(a: Word, b: Word): (r: Word)
      requires Valid() && b != 0
      reads log, exp
      ensures Mul(r, b) == a
    {
      MulZero(b);
      if a == 0 then 0 else
        var logA, logB := log[a] as nat, log[b] as nat;
        var l := if logA >= logB then logA - logB else logA + LIMIT - logB;
        ExpAdd(l, logB);
        ExpPeriod(logA);
        exp[l]
    }

    function Inverse(a: Word): (r: Word)
      requires Valid() && a != 0
      reads log, exp
      ensures Mul(a, r) == 1
    {
      ExpAdd(log[a], LIMIT - log[a]);
      ExpLimit();
      exp[LIMIT - log[a]]
    }

    function Pow(a: Word, n: nat): (r: Word)
      requires Valid()
      reads log, exp
      ensures r == Power(a, n)
    {
      if n == 0 then 1
      else if a == 0 then
        PowerOfZero(n);
        0
      else
        PowerOfExp(a, log[a], n, log[a] * n);
        ExpMod(log[a] * n);
        exp[(log[a] * n) % LIMIT]
    }
  }

  lemma PowerOfZero(n: nat)
    requires n > 0
    ensures Power(0, n) == 0
  {
    NoZeroDivisors(Power(0, n - 1), 0);
  }

  ghost predicate IsPowerList(powers: seq<Word>) {
    && |powers| == LIMIT + 1
    && powers[0] == 1
    && (forall l :: 0 <= l < LIMIT ==> powers[l + 1] == Xtime(powers[l]))
    && (forall i, j :: 0 <= i < j < LIMIT ==> powers[i] != powers[j])
  }

  ghost function PowerList(): (powers: seq<Word>)
    ensures IsPowerList(powers)
    ensures forall l :: 0 <= l <= LIMIT ==> powers[l] == Exp(l)
  {
    PowersDiffer();
    seq(LIMIT + 1, l requires 0 <= l => Exp(l))
  }

  lemma PowersDiffer()
    ensures forall i, j :: 0 <= i < j < LIMIT ==> Exp(i) != Exp(j)
  {
    forall i, j | 0 <= i < j < LIMIT
      ensures Exp(i) != Exp(j)
    {
      ExpDistinct(i, j);
    }
  }

  lemma AllLogarithms(logs: seq<Word>, powers: seq<Word>)
    requires |logs| == 65536 && |powers| > LIMIT
    requires forall l :: 0 <= l < LIMIT ==> logs[powers[l]] == l && powers[l] == Exp(l)
    ensures forall w: Word :: w != 0 ==> logs[w] == Log(w)
  {
    forall w: Word | w != 0
      ensures logs[w] == Log(w)
    {
      assert logs[powers[Log(w)]] == Log(w);
    }
  }

  lemma {:induction false} PowerOfExp(a: Word, l: nat, n: nat, m: nat)
    requires a == Exp(l) && m == l * n
    ensures Power(a, n) == Exp(m)
  {
    if n != 0 {
      DistributeOne(l, n);
      PowerOfExp(a, l, n - 1, m - l);
      ExpAdd(m - l, l);
    }
  }

  lemma DistributeOne(l: nat, n: nat)
    requires n > 0
    ensures l * n == l * (n - 1) + l
  {
  }

  lemma {:induction false} PowerAdd(a: Word, m: nat, n: nat)
    ensures Power(a, m + n) == Mul(Power(a, m), Power(a, n))
  {
    if n == 0 {
      MulComm(Power(a, m), 1);
      MulOne(Power(a, m));
    } else {
      PowerAdd(a, m, n - 1);
      MulAssoc(Power(a, m), Power(a, n - 1), a);
    }
  }
}
