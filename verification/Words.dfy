/** Machine words as bounded integers, and exclusive-or on them bit by bit. */
module Words {

  type u8 = x: int | 0 <= x < 0x100
  type u32 = x: int | 0 <= x < 0x1_0000_0000

  function Pow2(k: nat): (r: nat)
    ensures r >= 1
  {
    if k == 0 then 1 else 2 * Pow2(k - 1)
  }

  lemma Pow2Values()
    ensures Pow2(8) == 0x100
    ensures Pow2(31) == 0x8000_0000 && Pow2(32) == 0x1_0000_0000
  {
    assert Pow2(4) == 16;
    assert Pow2(8) == 0x100;
    Pow2Add(8, 8);
    Pow2Add(16, 8);
    Pow2Add(24, 4);
    assert Pow2(31) == 8 * Pow2(28);
  }

  lemma {:induction false} Pow2Add(m: nat, n: nat)
    ensures Pow2(m + n) == Pow2(m) * Pow2(n)
  {
    if m != 0 {
      Pow2Add(m - 1, n);
      assert 2 * Pow2(m - 1) * Pow2(n) == 2 * Pow2(m - 1 + n);
    }
  }

  /** Bitwise exclusive-or. */
  function Xor(a: nat, b: nat): nat
    decreases a + b
  {
    if a == 0 then b
    else if b == 0 then a
    else 2 * Xor(a / 2, b / 2) + (if a % 2 == b % 2 then 0 else 1)
  }

  lemma XorHalf(a: nat, b: nat)
    ensures Xor(a, b) / 2 == Xor(a / 2, b / 2)
  {
  }

  lemma XorBit(a: nat, b: nat)
    ensures Xor(a, b) % 2 == 1 <==> a % 2 != b % 2
  {
  }

  lemma SameHalves(x: nat, y: nat)
    requires x / 2 == y / 2 && (x % 2 == 1 <==> y % 2 == 1)
    ensures x == y
  {
  }

  lemma {:induction false} XorComm(a: nat, b: nat)
    ensures Xor(a, b) == Xor(b, a)
    decreases a + b
  {
    if a != 0 && b != 0 {
      XorComm(a / 2, b / 2);
    }
  }

  lemma {:induction false} XorAssoc(a: nat, b: nat, c: nat)
    ensures Xor(Xor(a, b), c) == Xor(a, Xor(b, c))
    decreases a + b + c
  {
    if a != 0 && b != 0 && c != 0 {
      XorAssocHalf(a, b, c);
      XorAssocBit(a, b, c);
      SameHalves(Xor(Xor(a, b), c), Xor(a, Xor(b, c)));
    }
  }

  lemma XorAssocHalf(a: nat, b: nat, c: nat)
    requires a + b + c > 0
    ensures Xor(Xor(a, b), c) / 2 == Xor(a, Xor(b, c)) / 2
    decreases a + b + c, 0
  {
    hide Xor;
    XorHalf(a, b);
    XorHalf(b, c);
    XorHalf(Xor(a, b), c);
    XorHalf(a, Xor(b, c));
    XorAssoc(a / 2, b / 2, c / 2);
  }

  lemma XorAssocBit(a: nat, b: nat, c: nat)
    ensures Xor(Xor(a, b), c) % 2 == 1 <==> Xor(a, Xor(b, c)) % 2 == 1
  {
    hide Xor;
    XorBit(a, b);
    XorBit(b, c);
    XorBit(Xor(a, b), c);
    XorBit(a, Xor(b, c));
  }

  lemma {:induction false} XorSelf(a: nat)
    ensures Xor(a, a) == 0
  {
    if a != 0 {
      XorSelf(a / 2);
    }
  }

  lemma {:induction false} XorBound(a: nat, b: nat, k: nat)
    requires a < Pow2(k) && b < Pow2(k)
    ensures Xor(a, b) < Pow2(k)
  {
    if k != 0 {
      XorBound(a / 2, b / 2, k - 1);
      XorHalf(a, b);
    }
  }

  lemma Xor32(a: u32, b: u32)
    ensures Xor(a, b) < 0x1_0000_0000
  {
    Pow2Values();
    XorBound(a, b, 32);
  }

  /** The top bit of one operand survives when the other has none. */
  lemma XorTop(a: nat, b: nat)
    requires a < 0x8000_0000 <= b
    ensures Xor(a, b) >= 0x8000_0000
  {
    Pow2Values();
    XorAssoc(a, a, b);
    XorSelf(a);
    if Xor(a, b) < 0x8000_0000 {
      XorBound(a, Xor(a, b), 31);
    }
  }

  lemma XorCancel(a: nat, b: nat, x: nat)
    requires Xor(a, x) == Xor(b, x)
    ensures a == b
  {
    XorAssoc(a, x, x);
    XorAssoc(b, x, x);
    XorSelf(x);
    XorComm(a, 0);
    XorComm(b, 0);
  }

  lemma XorSwap(a: nat, b: nat, c: nat, d: nat)
    ensures Xor(Xor(a, b), Xor(c, d)) == Xor(Xor(a, c), Xor(b, d))
  {
    XorAssoc(a, b, Xor(c, d));
    XorAssoc(b, c, d);
    XorComm(b, c);
    XorAssoc(c, b, d);
    XorAssoc(a, c, Xor(b, d));
  }

  lemma XorZeroIff(a: nat, b: nat)
    ensures Xor(a, b) == 0 <==> a == b
  {
    XorSelf(a);
    XorSelf(b);
    if Xor(a, b) == 0 {
      XorCancel(a, b, b);
    }
  }

  /** x shifted left by k bits, without a width limit. */
  function Shl(x: nat, k: nat): nat {
    if k == 0 then x else 2 * Shl(x, k - 1)
  }

  /** Words with disjoint bits: exclusive-or is addition. */
  lemma {:induction false} XorDisjoint(hi: nat, lo: nat, k: nat)
    requires lo < Pow2(k)
    ensures Xor(Shl(hi, k), lo) == Shl(hi, k) + lo
  {
    if k != 0 {
      hide Xor;
      XorDisjoint(hi, lo / 2, k - 1);
      DisjointDouble(Shl(hi, k - 1), lo);
    } else {
      XorComm(hi, 0);
    }
  }

  lemma DisjointDouble(s: nat, lo: nat)
    requires Xor(s, lo / 2) == s + lo / 2
    ensures Xor(2 * s, lo) == 2 * s + lo
  {
    hide Xor;
    DoublePlus(s, 0);
    DoublePlus(s, lo);
    XorHalf(2 * s, lo);
    XorBit(2 * s, lo);
    SameHalves(Xor(2 * s, lo), 2 * s + lo);
  }

  lemma DoublePlus(s: nat, lo: nat)
    ensures (2 * s + lo) / 2 == s + lo / 2
    ensures (2 * s + lo) % 2 == lo % 2
  {
  }

  lemma Shl8(x: nat)
    ensures Shl(x, 8) == 0x100 * x
  {
    assert Shl(x, 1) == 2 * x;
    assert Shl(x, 2) == 4 * x;
    assert Shl(x, 3) == 8 * x;
    assert Shl(x, 4) == 16 * x;
    assert Shl(x, 5) == 32 * x;
    assert Shl(x, 6) == 64 * x;
    assert Shl(x, 7) == 128 * x;
  }
}
