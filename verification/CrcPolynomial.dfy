/** The checksum as polynomial division over the two-element field. A natural number
    stands for the polynomial whose coefficient of x^e is its bit e: exclusive-or adds,
    doubling multiplies by x. */
module CrcPolynomial {
  import opened Arithmetic
  import opened Words
  import opened Crc32Spec

  /** The generator of IEEE 802.3 (section 3.2.9), by its exponents. */
  function Generator(): nat {
    Pow2(32) + Pow2(26) + Pow2(23) + Pow2(22) + Pow2(16) + Pow2(12) + Pow2(11) + Pow2(10) +
    Pow2(8) + Pow2(7) + Pow2(5) + Pow2(4) + Pow2(2) + Pow2(1) + Pow2(0)
  }

  /** The product of two polynomials. */
  function Times(p: nat, q: nat): nat
    decreases p
  {
    if p == 0 then 0 else Xor(2 * Times(p / 2, q), if p % 2 == 1 then q else 0)
  }

  /** They leave the same remainder: their difference is a multiple of the generator. */
  ghost predicate Congruent(a: nat, b: nat) {
    exists p: nat :: Xor(a, b) == Times(p, Generator())
  }

  /** The low n bits of c as coefficients from x^(n-1) down, bit 0 first. */
  function Reflected(c: nat, n: nat): (r: nat)
    ensures r < Pow2(n)
    decreases n
  {
    if n == 0 then 0 else (if c % 2 == 1 then Pow2(n - 1) else 0) + Reflected(c / 2, n - 1)
  }

  /** The message with the bits of each byte sent from the lowest to the highest, the first
      bit sent being the coefficient of the highest power. */
  function Message(s: seq<u8>): nat
    decreases |s|
  {
    if s == [] then 0 else 0x100 * Message(s[..|s| - 1]) + Reflected(s[|s| - 1], 8)
  }

  /** What is divided: the message times x^32, the start value added to its first 32 bits. */
  function Dividend(c: u32, s: seq<u8>): nat {
    Xor(Shl(Reflected(c, 32), 8 * |s|), Shl(Message(s), 32))
  }

  /** r, reflected, is what the division leaves. */
  ghost predicate IsRemainder(c: u32, s: seq<u8>, r: u32) {
    Congruent(Reflected(r, 32), Dividend(c, s))
  }

  // ----- products

  lemma XorZero(a: nat)
    ensures Xor(a, 0) == a && Xor(0, a) == a
  {
  }

  lemma XorDouble(a: nat, b: nat)
    ensures Xor(2 * a, 2 * b) == 2 * Xor(a, b)
  {
    XorHalf(2 * a, 2 * b);
    XorBit(2 * a, 2 * b);
  }

  lemma {:induction false} TimesXor(p: nat, q: nat, g: nat)
    ensures Times(Xor(p, q), g) == Xor(Times(p, g), Times(q, g))
    decreases p + q
  {
    if p == 0 || q == 0 {
      XorZero(p);
      XorZero(q);
      XorZero(Times(p, g));
      XorZero(Times(q, g));
    } else {
      TimesXor(p / 2, q / 2, g);
      XorHalf(p, q);
      XorBit(p, q);
      var a, b := Times(p / 2, g), Times(q / 2, g);
      var d, e := if p % 2 == 1 then g else 0, if q % 2 == 1 then g else 0;
      TimesParts(p, g);
      TimesParts(q, g);
      TimesParts(Xor(p, q), g);
      hide Times, Xor;
      XorSwap(2 * a, d, 2 * b, e);
      XorDouble(a, b);
      XorSelf(g);
      XorZero(g);
      XorSelf(0);
    }
  }

  lemma TimesParts(p: nat, g: nat)
    ensures Times(p, g) == Xor(2 * Times(p / 2, g), if p % 2 == 1 then g else 0)
  {
  }

  /** A multiple other than zero is not smaller than the generator's highest power. */
  lemma {:induction false} TimesGrows(p: nat, g: nat, k: nat)
    requires p > 0 && Pow2(k) <= g < Pow2(k + 1)
    ensures Times(p, g) >= Pow2(k)
    decreases p
  {
    if p == 1 {
      XorZero(g);
      assert Times(0, g) == 0;
    } else {
      TimesGrows(p / 2, g, k);
      TimesParts(p, g);
      hide Times, Xor;
      XorZero(2 * Times(p / 2, g));
      XorHigh(g, 2 * Times(p / 2, g), k + 1);
      XorComm(g, 2 * Times(p / 2, g));
    }
  }

  lemma XorHigh(a: nat, b: nat, k: nat)
    requires a < Pow2(k) <= b
    ensures Xor(a, b) >= Pow2(k)
  {
    hide Xor, Pow2;
    XorAssoc(a, a, b);
    XorSelf(a);
    XorZero(b);
    if Xor(a, b) < Pow2(k) {
      XorBound(a, Xor(a, b), k);
    }
  }

  // ----- congruence

  lemma CongruentRefl(a: nat)
    ensures Congruent(a, a)
  {
    hide Generator;
    XorSelf(a);
    TimesZero(Generator());
  }

  lemma CongruentTrans(a: nat, b: nat, c: nat)
    requires Congruent(a, b) && Congruent(b, c)
    ensures Congruent(a, c)
  {
    hide Xor, Times, Generator;
    var p: nat :| Xor(a, b) == Times(p, Generator());
    var q: nat :| Xor(b, c) == Times(q, Generator());
    TimesXor(p, q, Generator());
    XorSwap(a, b, b, c);
    XorComm(a, b);
    MiddleOut(a, b, c);
    assert Xor(a, c) == Times(Xor(p, q), Generator());
  }

  lemma MiddleOut(a: nat, b: nat, c: nat)
    ensures Xor(Xor(a, b), Xor(b, c)) == Xor(a, c)
  {
    hide Xor;
    XorAssoc(a, b, Xor(b, c));
    XorAssoc(b, b, c);
    XorSelf(b);
    XorZero(c);
  }

  lemma CongruentDouble(a: nat, b: nat)
    requires Congruent(a, b)
    ensures Congruent(2 * a, 2 * b)
  {
    hide Xor, Times, Generator;
    var p: nat :| Xor(a, b) == Times(p, Generator());
    TimesParts(2 * p, Generator());
    XorDouble(a, b);
    XorZero(2 * Times(p, Generator()));
    assert Xor(2 * a, 2 * b) == Times(2 * p, Generator());
  }

  lemma {:induction false} CongruentShl(a: nat, b: nat, k: nat)
    requires Congruent(a, b)
    ensures Congruent(Shl(a, k), Shl(b, k))
  {
    hide Congruent;
    if k != 0 {
      CongruentShl(a, b, k - 1);
      CongruentDouble(Shl(a, k - 1), Shl(b, k - 1));
    }
  }

  lemma CongruentXor(a: nat, b: nat, c: nat)
    requires Congruent(a, b)
    ensures Congruent(Xor(a, c), Xor(b, c))
  {
    hide Xor, Times, Generator;
    XorSwap(a, c, b, c);
    XorSelf(c);
    XorZero(Xor(a, b));
  }

  /** Below x^32 no two polynomials are congruent. */
  lemma RemainderUnique(a: nat, b: nat)
    requires a < Pow2(32) && b < Pow2(32) && Congruent(a, b)
    ensures a == b
  {
    hide Xor, Times, Generator, Pow2;
    var p: nat :| Xor(a, b) == Times(p, Generator());
    GeneratorIs();
    XorBound(a, b, 32);
    if p != 0 {
      TimesGrows(p, Generator(), 32);
    }
    TimesZero(Generator());
    XorZeroIff(a, b);
  }

  lemma TimesZero(g: nat)
    ensures Times(0, g) == 0
  {
  }

  // ----- reflection

  lemma {:induction false} ReflectedXor(a: nat, b: nat, n: nat)
    ensures Reflected(Xor(a, b), n) == Xor(Reflected(a, n), Reflected(b, n))
    decreases n
  {
    if n != 0 {
      ReflectedXor(a / 2, b / 2, n - 1);
      XorHalf(a, b);
      XorBit(a, b);
      ReflectedParts(a, n);
      ReflectedParts(b, n);
      ReflectedParts(Xor(a, b), n);
      hide Xor, Reflected, Pow2;
      var d, e := if a % 2 == 1 then Pow2(n - 1) else 0, if b % 2 == 1 then Pow2(n - 1) else 0;
      XorSwap(d, Reflected(a / 2, n - 1), e, Reflected(b / 2, n - 1));
      XorSelf(Pow2(n - 1));
      XorSelf(0);
      XorZero(Pow2(n - 1));
    }
  }

  lemma ReflectedParts(a: nat, n: nat)
    requires n > 0
    ensures Reflected(a, n) == Xor(if a % 2 == 1 then Pow2(n - 1) else 0, Reflected(a / 2, n - 1))
  {
    ShlBit(n - 1);
    XorDisjoint(a % 2, Reflected(a / 2, n - 1), n - 1);
  }

  lemma {:induction false} ShlBit(k: nat)
    ensures Shl(0, k) == 0 && Shl(1, k) == Pow2(k)
  {
    if k != 0 {
      ShlBit(k - 1);
    }
  }

  /** Dropping bit 0 doubles the reflection, less what leaves the top. */
  lemma {:induction false} ReflectedHalf(c: nat, n: nat)
    requires c < Pow2(n)
    ensures 2 * Reflected(c, n) == Reflected(c / 2, n) + if c % 2 == 1 then Pow2(n) else 0
    decreases n
  {
    if n != 0 {
      ReflectedHalf(c / 2, n - 1);
    }
  }

  lemma {:induction false} ReflectedZero(n: nat)
    ensures Reflected(0, n) == 0
    decreases n
  {
    if n != 0 {
      ReflectedZero(n - 1);
    }
  }

  /** A byte as a word: its reflection stands at the top. */
  lemma {:induction false} ReflectedByte(c: nat, m: nat, n: nat)
    requires c < Pow2(m) && m <= n
    ensures Reflected(c, n) == Shl(Reflected(c, m), n - m)
    decreases m
  {
    if m == 0 {
      ReflectedZero(n);
      ShlBit(n);
    } else {
      ReflectedByte(c / 2, m - 1, n - 1);
      ReflectedOne(c, m - 1);
      ReflectedOne(c, n - 1);
      hide Reflected, Shl, Pow2;
      ShlBit(n - m);
      ShlPower(m - 1, n - m);
      ShlSum(if c % 2 == 1 then Pow2(m - 1) else 0, Reflected(c / 2, m - 1), n - m);
    }
  }

  lemma {:induction false} ShlSum(a: nat, b: nat, k: nat)
    ensures Shl(a + b, k) == Shl(a, k) + Shl(b, k)
  {
    if k != 0 {
      ShlSum(a, b, k - 1);
    }
  }

  lemma {:induction false} ShlPower(j: nat, k: nat)
    ensures Shl(Pow2(j), k) == Pow2(j + k)
  {
    if k != 0 {
      ShlPower(j, k - 1);
    }
  }

  lemma {:induction false} ReflectedInjective(a: nat, b: nat, n: nat)
    requires a < Pow2(n) && b < Pow2(n) && Reflected(a, n) == Reflected(b, n)
    ensures a == b
    decreases n
  {
    if n != 0 {
      ReflectedInjective(a / 2, b / 2, n - 1);
    }
  }

  // ----- the generator

  lemma PowersOfTwo()
    ensures Pow2(0) == 1 && Pow2(1) == 2 && Pow2(2) == 4 && Pow2(4) == 0x10 && Pow2(5) == 0x20
    ensures Pow2(7) == 0x80 && Pow2(8) == 0x100 && Pow2(10) == 0x400 && Pow2(11) == 0x800 && Pow2(12) == 0x1000
    ensures Pow2(16) == 0x1_0000 && Pow2(20) == 0x10_0000 && Pow2(24) == 0x100_0000 && Pow2(28) == 0x1000_0000
    ensures Pow2(22) == 0x40_0000 && Pow2(23) == 0x80_0000 && Pow2(26) == 0x400_0000
    ensures Pow2(32) == 0x1_0000_0000 && Pow2(33) == 0x2_0000_0000
  {
    Pow2Values();
  }

  lemma GeneratorValue()
    ensures Generator() == 0x1_04C1_1DB7
  {
    PowersOfTwo();
    hide Pow2;
  }

  /** Four bits of a reflection at once. */
  lemma ReflectedFour(q: nat, a: nat, b: nat, c: nat, d: nat, n: nat)
    requires a < 2 && b < 2 && c < 2 && d < 2
    ensures Reflected(16 * q + 8 * a + 4 * b + 2 * c + d, n + 4)
         == (if d == 1 then 8 * Pow2(n) else 0) + (if c == 1 then 4 * Pow2(n) else 0)
          + (if b == 1 then 2 * Pow2(n) else 0) + (if a == 1 then Pow2(n) else 0) + Reflected(q, n)
  {
    hide Pow2, Reflected;
    ReflectedTwo(4 * q + 2 * a + b, c, d, n + 2);
    ReflectedTwo(q, a, b, n);
    PowersFrom(n);
  }

  lemma ReflectedTwo(q: nat, a: nat, b: nat, n: nat)
    requires a < 2 && b < 2
    ensures Reflected(4 * q + 2 * a + b, n + 2)
         == (if b == 1 then 2 * Pow2(n) else 0) + (if a == 1 then Pow2(n) else 0) + Reflected(q, n)
  {
    hide Pow2, Reflected;
    ReflectedOne(4 * q + 2 * a + b, n + 1);
    ReflectedOne(2 * q + a, n);
    PowersFrom(n);
  }

  lemma PowersFrom(n: nat)
    ensures Pow2(n + 1) == 2 * Pow2(n) && Pow2(n + 2) == 4 * Pow2(n) && Pow2(n + 3) == 8 * Pow2(n)
  {
  }

  lemma ReflectedOne(c: nat, n: nat)
    ensures Reflected(c, n + 1) == (if c % 2 == 1 then Pow2(n) else 0) + Reflected(c / 2, n)
  {
  }

  lemma PolynomialReflected()
    ensures Reflected(POLYNOMIAL, 32) == 0x04C1_1DB7
  {
    PowersOfTwo();
    hide Pow2, Reflected;
    UpperReflected();
    ReflectedFour(0xEDB8, 1, 0, 0, 0, 16);
    ReflectedFour(0xE_DB88, 0, 0, 1, 1, 20);
    ReflectedFour(0xED_B883, 0, 0, 1, 0, 24);
    ReflectedFour(0xEDB_8832, 0, 0, 0, 0, 28);
  }

  lemma UpperReflected()
    ensures Reflected(0xEDB8, 16) == 0x1DB7
  {
    PowersOfTwo();
    hide Pow2, Reflected;
    ReflectedNone(0);
    ReflectedFour(0, 1, 1, 1, 0, 0);
    ReflectedFour(0xE, 1, 1, 0, 1, 4);
    ReflectedFour(0xED, 1, 0, 1, 1, 8);
    ReflectedFour(0xEDB, 1, 0, 0, 0, 12);
  }

  lemma ReflectedNone(c: nat)
    ensures Reflected(c, 0) == 0
  {
  }

  /** The constant of the bit step is the generator without x^32, reflected. */
  lemma GeneratorIs()
    ensures Generator() == Pow2(32) + Reflected(POLYNOMIAL, 32)
    ensures Pow2(32) <= Generator() < Pow2(33)
  {
    hide *;
    PowersOfTwo();
    GeneratorValue();
    PolynomialReflected();
  }

  // ----- the checksum

  lemma {:induction false} ShlXor(a: nat, b: nat, k: nat)
    ensures Shl(Xor(a, b), k) == Xor(Shl(a, k), Shl(b, k))
  {
    hide Xor;
    if k != 0 {
      ShlXor(a, b, k - 1);
      XorDouble(Shl(a, k - 1), Shl(b, k - 1));
    }
  }

  lemma {:induction false} ShlAdd(a: nat, j: nat, k: nat)
    ensures Shl(Shl(a, j), k) == Shl(a, j + k)
    decreases k
  {
    if k != 0 {
      ShlAdd(a, j, k - 1);
    }
  }

  /** Adding x^32 to what lies below it. */
  lemma TopBit(a: nat)
    requires a < Pow2(32)
    ensures Xor(Pow2(32), a) == Pow2(32) + a
  {
    hide Xor, Shl, Pow2;
    ShlBit(32);
    XorDisjoint(1, a, 32);
  }

  /** One bit step multiplies by x and takes the generator off when x^32 comes up. */
  lemma StepReflected(c: u32)
    ensures Reflected(Step(c), 32) == Xor(2 * Reflected(c, 32), if c % 2 == 1 then Generator() else 0)
  {
    hide Xor, Reflected, Pow2, Generator;
    PowersOfTwo();
    ReflectedXor(c / 2, Feedback(c), 32);
    ReflectedHalf(c, 32);
    var r, q := Reflected(c / 2, 32), Reflected(POLYNOMIAL, 32);
    if c % 2 == 1 {
      GeneratorIs();
      TopBit(r);
      TopBit(q);
      XorSwap(Pow2(32), r, Pow2(32), q);
      XorSelf(Pow2(32));
      XorZero(Xor(r, q));
    } else {
      ReflectedZero(32);
      XorZero(r);
    }
  }

  lemma StepCongruent(c: u32)
    ensures Congruent(Reflected(Step(c), 32), 2 * Reflected(c, 32))
  {
    hide Xor, Reflected, Generator, Step, Times;
    StepReflected(c);
    var g := if c % 2 == 1 then Generator() else 0;
    XorComm(2 * Reflected(c, 32), g);
    XorAssoc(g, 2 * Reflected(c, 32), 2 * Reflected(c, 32));
    XorSelf(2 * Reflected(c, 32));
    XorZero(g);
    TimesBit(Generator());
    assert Xor(Reflected(Step(c), 32), 2 * Reflected(c, 32)) == Times(c % 2, Generator());
  }

  lemma TimesBit(g: nat)
    ensures Times(0, g) == 0 && Times(1, g) == g
  {
    XorZero(g);
  }

  lemma {:induction false} StepsCongruent(n: nat, c: u32)
    ensures Congruent(Reflected(Steps(n, c), 32), Shl(Reflected(c, 32), n))
  {
    hide Congruent, Reflected, Step;
    if n == 0 {
      CongruentRefl(Reflected(c, 32));
    } else {
      var d := Steps(n - 1, c);
      StepsCongruent(n - 1, c);
      StepCongruent(d);
      CongruentDouble(Reflected(d, 32), Shl(Reflected(c, 32), n - 1));
      CongruentTrans(Reflected(Steps(n, c), 32), 2 * Reflected(d, 32), Shl(Reflected(c, 32), n));
    }
  }

  lemma ByteCongruent(c: u32, b: u8)
    ensures Congruent(Reflected(ByteStep(c, b), 32), Xor(Shl(Reflected(c, 32), 8), Shl(Reflected(b, 8), 32)))
  {
    hide Congruent, Reflected, Steps, Shl, Xor;
    StepsCongruent(8, XorW(c, b));
    ReflectedXor(c, b, 32);
    PowersOfTwo();
    ReflectedByte(b, 8, 32);
    ShlXor(Reflected(c, 32), Reflected(b, 32), 8);
    ShlAdd(Reflected(b, 8), 24, 8);
  }

  lemma DividendSnoc(c: u32, s: seq<u8>, b: u8)
    ensures Dividend(c, s + [b]) == Xor(Shl(Dividend(c, s), 8), Shl(Reflected(b, 8), 32))
  {
    hide Reflected, Shl, Xor;
    var r, m, q := Reflected(c, 32), Message(s), Reflected(b, 8);
    assert (s + [b])[..|s|] == s;
    PowersOfTwo();
    Shl8(m);
    XorDisjoint(m, q, 8);
    ShlXor(Shl(m, 8), q, 32);
    ShlAdd(m, 8, 32);
    ShlXor(Shl(r, 8 * |s|), Shl(m, 32), 8);
    ShlAdd(r, 8 * |s|, 8);
    ShlAdd(m, 32, 8);
    XorAssoc(Shl(r, 8 * |s| + 8), Shl(m, 40), Shl(q, 32));
  }

  lemma DividendNone(c: u32)
    ensures Dividend(c, []) == Reflected(c, 32)
  {
    hide Reflected;
    ShlBit(32);
    XorZero(Reflected(c, 32));
  }

  lemma CrcSnoc(c: u32, s: seq<u8>, b: u8)
    ensures Crc(c, s + [b]) == ByteStep(Crc(c, s), b)
  {
    hide ByteStep;
    CrcAppend(c, s, [b]);
    assert [b][1..] == [];
  }

  /** The checksum, reflected, leaves the remainder of the dividend. */
  lemma {:induction false} CrcCongruent(c: u32, s: seq<u8>)
    ensures Congruent(Reflected(Crc(c, s), 32), Dividend(c, s))
    decreases |s|
  {
    hide *;
    if s == [] {
      DividendNone(c);
      CrcNone(c);
      CongruentRefl(Reflected(c, 32));
    } else {
      var t, b := s[..|s| - 1], s[|s| - 1];
      assert s == t + [b];
      var r := Crc(c, t);
      CrcCongruent(c, t);
      CrcSnoc(c, t, b);
      ByteCongruent(r, b);
      CongruentShl(Reflected(r, 32), Dividend(c, t), 8);
      CongruentXor(Shl(Reflected(r, 32), 8), Shl(Dividend(c, t), 8), Shl(Reflected(b, 8), 32));
      DividendSnoc(c, t, b);
      CongruentTrans(Reflected(Crc(c, s), 32), Xor(Shl(Reflected(r, 32), 8), Shl(Reflected(b, 8), 32)),
                     Dividend(c, s));
    }
  }

  lemma CrcNone(c: u32)
    ensures Crc(c, []) == c
  {
  }

  /** The checksum is the reflected remainder of the message, times x^32 and with the start
      value added at its front, divided by the generator: it, and no other word. */
  lemma CrcIsRemainder(c: u32, s: seq<u8>, r: u32)
    ensures r == Crc(c, s) <==> IsRemainder(c, s, r)
  {
    RemainderUnfolds(c, s, r);
    hide *;
    PowersOfTwo();
    CrcCongruent(c, s);
    if Congruent(Reflected(r, 32), Dividend(c, s)) {
      CongruentSym(Reflected(Crc(c, s), 32), Dividend(c, s));
      CongruentTrans(Reflected(r, 32), Dividend(c, s), Reflected(Crc(c, s), 32));
      RemainderUnique(Reflected(r, 32), Reflected(Crc(c, s), 32));
      ReflectedInjective(r, Crc(c, s), 32);
    }
  }

  lemma RemainderUnfolds(c: u32, s: seq<u8>, r: u32)
    ensures IsRemainder(c, s, r) <==> Congruent(Reflected(r, 32), Dividend(c, s))
  {
  }

  lemma CongruentSym(a: nat, b: nat)
    requires Congruent(a, b)
    ensures Congruent(b, a)
  {
    hide Xor, Times, Generator;
    XorComm(a, b);
  }

  /** Bit i of a word becomes bit n-1-i of its reflection. */
  lemma {:induction false} ReflectedBit(c: nat, n: nat, i: nat)
    requires i < n
    ensures Reflected(c, n) / Pow2(n - 1 - i) % 2 == c / Pow2(i) % 2
    decreases n
  {
    hide *;
    ReflectedOne(c, n - 1);
    PowersFrom(if i == 0 then 0 else i - 1);
    if i == 0 {
      PowerZero();
      HighBit(c % 2, Reflected(c / 2, n - 1), Pow2(n - 1));
    } else {
      ReflectedBit(c / 2, n - 1, i - 1);
      QuotientTwice(c, Pow2(i - 1));
      LowerBit(c % 2, Reflected(c / 2, n - 1), n - 1, n - 1 - i);
    }
  }

  lemma PowerZero()
    ensures Pow2(0) == 1
  {
  }

  lemma HighBit(a: nat, b: nat, p: nat)
    requires a < 2 && b < p
    ensures ((if a == 1 then p else 0) + b) / p % 2 == a
  {
  }

  lemma QuotientTwice(c: nat, p: nat)
    requires p > 0
    ensures c / 2 / p == c / (2 * p)
  {
    var q, r := c / 2 / p, c / 2 % p;
    assert c / 2 == p * q + r && c == 2 * (c / 2) + c % 2;
    assert c == (2 * p) * q + (2 * r + c % 2);
    Quotient(c, 2 * p, q, 2 * r + c % 2);
  }

  lemma Quotient(c: nat, d: nat, q: nat, r: nat)
    requires d > 0 && c == d * q + r && r < d
    ensures c / d == q
  {
    Remainder(c, d, q, r);
  }

  /** A power of two on top does not change the bits below it. */
  lemma LowerBit(a: nat, b: nat, n: nat, k: nat)
    requires a < 2 && k < n
    ensures ((if a == 1 then Pow2(n) else 0) + b) / Pow2(k) % 2 == b / Pow2(k) % 2
  {
    if a == 1 {
      Pow2Add(n - k - 1, k);
      hide Pow2;
      PowerAbove(b, Pow2(n - k - 1), Pow2(k));
      PowersFrom(n - 1);
    }
  }

  lemma PowerAbove(b: nat, h: nat, p: nat)
    requires p > 0
    ensures (2 * (h * p) + b) / p % 2 == b / p % 2
  {
    Divided(b, p);
    MoveOut(h, p, b / p);
    QuotientOf(2 * (h * p) + b, p, 2 * h + b / p, b % p, p * (2 * h + b / p));
  }

  lemma Divided(b: nat, p: nat)
    requires p > 0
    ensures b == p * (b / p) + b % p && b % p < p
  {
  }

  lemma QuotientOf(c: nat, d: nat, q: nat, r: nat, m: nat)
    requires d > 0 && m == d * q && c == m + r && r < d
    ensures c / d % 2 == q % 2
  {
    Quotient(c, d, q, r);
  }

  lemma MoveOut(h: nat, p: nat, q: nat)
    ensures p * (2 * h + q) == 2 * (h * p) + p * q
    ensures (2 * h + q) % 2 == q % 2
  {
  }
}
