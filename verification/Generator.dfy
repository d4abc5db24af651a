/** The polynomial x generates the multiplicative group: its order is exactly 65535. */
module Generator {
  import opened Bits
  import opened BitWords
  import opened Gf16
  import opened Numbers

  /** The powers of the polynomial x. */
  function Exp(l: nat): Word {
    if l == 0 then 1 else Xtime(Exp(l - 1))
  }

  lemma {:induction false} ExpAdd(m: nat, n: nat)
    ensures Exp(m + n) == Mul(Exp(m), Exp(n))
  {
    if n == 0 {
      MulComm(Exp(m), 1);
      MulOne(Exp(m));
    } else {
      ExpAdd(m, n - 1);
      MulXtime(Exp(m), Exp(n - 1));
    }
  }

  lemma XtimeInjective(a: Word, b: Word)
    requires Xtime(a) == Xtime(b)
    ensures a == b
  {
    var c := Add(a, b);
    XtimeAdd(a, b);
    AddSelf(Xtime(a));
    AddIsZero(a, b);
    AddIsZeroNat(2 * c, POLY);
  }

  lemma AddIsZeroNat(a: nat, b: nat)
    ensures Xor(a, b) == 0 ==> a == b
  {
    XorAssoc(a, b, b);
    XorSelf(b);
    XorZero(a);
  }

  // ---- Repeated squaring: Fk is x to the power 2^k ----

  const F0 := Bits16(H0, H0, H0, H2)
  const F1 := Bits16(H0, H0, H0, H4)
  const F2 := Bits16(H0, H0, H1, H0)
  const F3 := Bits16(H0, H1, H0, H0)
  const F4 := Bits16(H1, H0, H0, HB)
  const F5 := Bits16(H1, HB, HF, HE)
  const F6 := Bits16(H5, HC, H2, H4)
  const F7 := Bits16(HE, H6, H4, H7)
  const F8 := Bits16(H0, HB, H2, HF)
  const F9 := Bits16(H1, H6, H9, HE)
  const F10 := Bits16(H0, HA, H7, H8)
  const F11 := Bits16(H1, H7, H8, H0)
  const F12 := Bits16(H1, HB, H2, H7)
  const F13 := Bits16(H0, HD, H6, H5)
  const F14 := Bits16(H5, H6, H4, HD)
  const F15 := Bits16(HF, H0, HC, H6)
  const F16 := Bits16(H0, H0, H0, H2)
  const G1 := Bits16(H2, HB, HE, H5)
  const G2 := Bits16(H2, H0, H1, H6)
  const G := Bits16(H0, H0, H1, HA)
  const GG := Bits16(H0, H1, H4, H4)
  const G3 := Bits16(H1, HC, HE, H8)
  const G4 := Bits16(H0, H0, H1, HB)
  const G5 := Bits16(H0, H1, H5, HE)
  const X15 := Bits16(H8, H0, H0, H0)
  const K := Bits16(H8, HD, HF, H1)

  lemma Square0() ensures BitsMul(F0, F0) == F1 {}
  lemma Square1() ensures BitsMul(F1, F1) == F2 {}
  lemma Square2() ensures BitsMul(F2, F2) == F3 {}
  lemma Square3() ensures BitsMul(F3, F3) == F4 {}
  lemma Square4() ensures BitsMul(F4, F4) == F5 {}
  lemma Square5() ensures BitsMul(F5, F5) == F6 {}
  lemma Square6() ensures BitsMul(F6, F6) == F7 {}
  lemma Square7() ensures BitsMul(F7, F7) == F8 {}
  lemma Square8() ensures BitsMul(F8, F8) == F9 {}
  lemma Square9() ensures BitsMul(F9, F9) == F10 {}
  lemma Square10() ensures BitsMul(F10, F10) == F11 {}
  lemma Square11() ensures BitsMul(F11, F11) == F12 {}
  lemma Square12() ensures BitsMul(F12, F12) == F13 {}
  lemma Square13() ensures BitsMul(F13, F13) == F14 {}
  lemma Square14() ensures BitsMul(F14, F14) == F15 {}
  lemma Square15() ensures BitsMul(F15, F15) == F16 {}
  lemma Norm1() ensures BitsMul(F12, F8) == G1 {}
  lemma Norm2() ensures BitsMul(F4, F0) == G2 {}
  lemma Norm() ensures BitsMul(G1, G2) == G {}
  lemma NormSquare() ensures BitsMul(G, G) == GG {}
  lemma NormCube() ensures BitsMul(GG, G) == G3 {}
  lemma NormFourth() ensures BitsMul(GG, GG) == G4 {}
  lemma NormFifth() ensures BitsMul(G4, G) == G5 {}
  lemma Shifted() ensures BitsMul(F12, X15) == K {}

  lemma ExpProduct(m: nat, n: nat, a: Bits16, b: Bits16, c: Bits16)
    requires Exp(m) == Value(a) && Exp(n) == Value(b) && BitsMul(a, b) == c
    ensures Exp(m + n) == Value(c)
  {
    ExpAdd(m, n);
    BitsMulValue(a, b);
  }

  lemma ExpOne()
    ensures Exp(1) == Value(F0) == 2
  {
    AppendSum(0, F0);
  }

  lemma Power2()
    ensures Exp(2) == Value(F1)
  {
    ExpOne();
    Square0();
    ExpProduct(1, 1, F0, F0, F1);
  }

  lemma Power4()
    ensures Exp(4) == Value(F2)
  {
    Power2();
    Square1();
    ExpProduct(2, 2, F1, F1, F2);
  }

  lemma Power8()
    ensures Exp(8) == Value(F3)
  {
    Power4();
    Square2();
    ExpProduct(4, 4, F2, F2, F3);
  }

  lemma Power16()
    ensures Exp(16) == Value(F4)
  {
    Power8();
    Square3();
    ExpProduct(8, 8, F3, F3, F4);
  }

  lemma Power32()
    ensures Exp(32) == Value(F5)
  {
    Power16();
    Square4();
    ExpProduct(16, 16, F4, F4, F5);
  }

  lemma Power64()
    ensures Exp(64) == Value(F6)
  {
    Power32();
    Square5();
    ExpProduct(32, 32, F5, F5, F6);
  }

  lemma Power128()
    ensures Exp(128) == Value(F7)
  {
    Power64();
    Square6();
    ExpProduct(64, 64, F6, F6, F7);
  }

  lemma Power256()
    ensures Exp(256) == Value(F8)
  {
    Power128();
    Square7();
    ExpProduct(128, 128, F7, F7, F8);
  }

  lemma Power512()
    ensures Exp(512) == Value(F9)
  {
    Power256();
    Square8();
    ExpProduct(256, 256, F8, F8, F9);
  }

  lemma Power1024()
    ensures Exp(1024) == Value(F10)
  {
    Power512();
    Square9();
    ExpProduct(512, 512, F9, F9, F10);
  }

  lemma Power2048()
    ensures Exp(2048) == Value(F11)
  {
    Power1024();
    Square10();
    ExpProduct(1024, 1024, F10, F10, F11);
  }

  lemma Power4096()
    ensures Exp(4096) == Value(F12)
  {
    Power2048();
    Square11();
    ExpProduct(2048, 2048, F11, F11, F12);
  }

  lemma Power8192()
    ensures Exp(8192) == Value(F13)
  {
    Power4096();
    Square12();
    ExpProduct(4096, 4096, F12, F12, F13);
  }

  lemma Power16384()
    ensures Exp(16384) == Value(F14)
  {
    Power8192();
    Square13();
    ExpProduct(8192, 8192, F13, F13, F14);
  }

  lemma Power32768()
    ensures Exp(32768) == Value(F15)
  {
    Power16384();
    Square14();
    ExpProduct(16384, 16384, F14, F14, F15);
  }

  lemma Power65536()
    ensures Exp(65536) == Value(F16)
  {
    Power32768();
    Square15();
    ExpProduct(32768, 32768, F15, F15, F16);
  }
}
