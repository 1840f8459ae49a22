/** The reference meaning of the checksum: the reflected CRC-32 of IEEE 802.3
    (section 3.2.9), one bit at a time, without pre- or post-inversion; and the
    algebra of the bit step that both the tables and the error detection rest on. */
module Crc32Spec {
  import opened Words

  const POLYNOMIAL: u32 := 0xEDB88320

  function Feedback(c: u32): u32 {
    if c % 2 == 1 then POLYNOMIAL else 0
  }

  /** One bit step of the reflected division. */
  function Step(c: u32): u32 {
    Xor32(c / 2, Feedback(c));
    Xor(c / 2, Feedback(c))
  }

  function Steps(n: nat, c: u32): u32 {
    if n == 0 then c else Step(Steps(n - 1, c))
  }

  /** Exclusive-or of two 32-bit words. */
  function XorW(a: u32, b: u32): u32 {
    Xor32(a, b);
    Xor(a, b)
  }

  function ByteStep(c: u32, b: u8): u32 {
    Steps(8, XorW(c, b))
  }

  /** The checksum of a message, started from c. */
  function Crc(c: u32, s: seq<u8>): u32
    decreases |s|
  {
    if s == [] then c else Crc(ByteStep(c, s[0]), s[1..])
  }

  function XorBytes(s: seq<u8>, t: seq<u8>): seq<u8>
    requires |s| == |t|
  {
    seq(|s|, i requires 0 <= i < |s| => XorByte(s[i], t[i]))
  }

  function XorByte(a: u8, b: u8): u8 {
    Pow2Values();
    XorBound(a, b, 8);
    Xor(a, b)
  }

  // ----- the step is xor-linear and injective

  lemma FeedbackXor(a: u32, b: u32)
    ensures Feedback(XorW(a, b)) == XorW(Feedback(a), Feedback(b))
  {
    XorBit(a, b);
    XorSelf(POLYNOMIAL);
  }

  lemma StepXor(a: u32, b: u32)
    ensures Step(XorW(a, b)) == XorW(Step(a), Step(b))
  {
    hide Xor, Feedback;
    XorHalf(a, b);
    FeedbackXor(a, b);
    XorSwap(a / 2, b / 2, Feedback(a), Feedback(b));
  }

  /** The polynomial's top bit tells which way the step went, so no state is lost. */
  lemma StepInjective(a: u32, b: u32)
    requires Step(a) == Step(b)
    ensures a == b
  {
    hide Xor;
    if a % 2 == b % 2 {
      XorCancel(a / 2, b / 2, Feedback(a));
    } else {
      XorComm(0, a / 2);
      XorComm(0, b / 2);
      XorNothing(a / 2);
      XorNothing(b / 2);
      XorTop(a / 2, POLYNOMIAL);
      XorTop(b / 2, POLYNOMIAL);
      assert false;
    }
  }

  lemma XorNothing(a: nat)
    ensures Xor(a, 0) == a
  {
  }

  lemma {:induction false} StepsXor(n: nat, a: u32, b: u32)
    ensures Steps(n, XorW(a, b)) == XorW(Steps(n, a), Steps(n, b))
  {
    hide Step, XorW;
    if n != 0 {
      StepsXor(n - 1, a, b);
      StepXor(Steps(n - 1, a), Steps(n - 1, b));
    }
  }

  lemma {:induction false} StepsInjective(n: nat, a: u32, b: u32)
    requires Steps(n, a) == Steps(n, b)
    ensures a == b
  {
    hide Step;
    if n != 0 {
      StepInjective(Steps(n - 1, a), Steps(n - 1, b));
      StepsInjective(n - 1, a, b);
    }
  }

  lemma {:induction false} StepsAdd(m: nat, n: nat, c: u32)
    ensures Steps(m + n, c) == Steps(m, Steps(n, c))
  {
    hide Step;
    if m != 0 {
      StepsAdd(m - 1, n, c);
    }
  }

  /** Stepping a word whose low bits are zero only shifts it. */
  lemma {:induction false} StepsShift(x: u32, k: nat)
    requires Shl(x, k) < 0x1_0000_0000
    ensures Steps(k, Shl(x, k)) == x
  {
    if k != 0 {
      var d := Shl(x, k - 1);
      XorNothing(d);
      assert Step(2 * d) == d;
      hide Step;
      StepsAdd(k - 1, 1, 2 * d);
      assert Steps(1, 2 * d) == Step(Steps(0, 2 * d));
      StepsShift(x, k - 1);
    }
  }

  /** Eight steps split into a look-up of the low byte and a shift. */
  lemma StepsSplit(c: u32)
    ensures Steps(8, c) == XorW(Steps(8, c % 0x100), c / 0x100)
  {
    hide Step, Steps;
    SplitByte(c);
    var hi := 0x100 * (c / 0x100);
    StepsXor(8, hi, c % 0x100);
    Shl8(c / 0x100);
    StepsShift(c / 0x100, 8);
    XorComm(c / 0x100, Steps(8, c % 0x100));
  }

  lemma SplitByte(c: u32)
    ensures c == XorW(0x100 * (c / 0x100), c % 0x100)
  {
    Pow2Values();
    Shl8(c / 0x100);
    XorDisjoint(c / 0x100, c % 0x100, 8);
  }

  // ----- messages

  lemma {:induction false} CrcAppend(c: u32, s: seq<u8>, t: seq<u8>)
    ensures Crc(c, s + t) == Crc(Crc(c, s), t)
    decreases |s|
  {
    hide ByteStep;
    if s == [] {
      assert s + t == t;
    } else {
      assert (s + t)[1..] == s[1..] + t;
      CrcAppend(ByteStep(c, s[0]), s[1..], t);
    }
  }

  lemma {:induction false} CrcStateInjective(c: u32, d: u32, s: seq<u8>)
    requires Crc(c, s) == Crc(d, s)
    ensures c == d
    decreases |s|
  {
    if s != [] {
      CrcStateInjective(ByteStep(c, s[0]), ByteStep(d, s[0]), s[1..]);
      StepsInjective(8, XorW(c, s[0]), XorW(d, s[0]));
      XorCancel(c, d, s[0]);
    }
  }

  lemma ByteStepXor(c: u32, d: u32, x: u8, y: u8)
    ensures ByteStep(XorW(c, d), XorByte(x, y)) == XorW(ByteStep(c, x), ByteStep(d, y))
  {
    hide Step, Steps, Xor;
    XorSwap(c, d, x, y);
    StepsXor(8, XorW(c, x), XorW(d, y));
  }

  /** The checksum is xor-linear in the start value and the message together. */
  lemma {:induction false} CrcXor(c: u32, d: u32, s: seq<u8>, t: seq<u8>)
    requires |s| == |t|
    ensures Crc(XorW(c, d), XorBytes(s, t)) == XorW(Crc(c, s), Crc(d, t))
    decreases |s|
  {
    hide ByteStep, XorW, XorByte;
    if s != [] {
      var u := XorBytes(s, t);
      ByteStepXor(c, d, s[0], t[0]);
      assert u[1..] == XorBytes(s[1..], t[1..]);
      CrcXor(ByteStep(c, s[0]), ByteStep(d, t[0]), s[1..], t[1..]);
    }
  }

  /** Two messages of one length collide exactly when their difference checks to zero. */
  lemma CollisionIff(c: u32, s: seq<u8>, t: seq<u8>)
    requires |s| == |t|
    ensures Crc(c, s) == Crc(c, t) <==> Crc(0, XorBytes(s, t)) == 0
  {
    hide Crc;
    CrcXor(c, c, s, t);
    XorSelf(c);
    XorZeroIff(Crc(c, s), Crc(c, t));
  }

  // ----- words of up to four bytes

  /** The little-endian word of at most four bytes. */
  function Word(s: seq<u8>): (w: u32)
    requires |s| <= 4
    ensures match |s|
            case 0 => w == 0
            case 1 => w < 0x100
            case 2 => w < 0x1_0000
            case 3 => w < 0x100_0000
            case _ => true
  {
    if s == [] then 0 else s[0] + 0x100 * Word(s[1..])
  }

  lemma {:induction false} WordInjective(s: seq<u8>, t: seq<u8>)
    requires |s| == |t| <= 4 && Word(s) == Word(t)
    ensures s == t
  {
    if s != [] {
      var v, w := Word(s[1..]), Word(t[1..]);
      assert s[0] + 0x100 * v == t[0] + 0x100 * w;
      WordInjective(s[1..], t[1..]);
      assert s == [s[0]] + s[1..] && t == [t[0]] + t[1..];
    }
  }

  /** Up to four bytes are absorbed by xoring their word in and stepping. */
  lemma {:induction false} CrcWord(c: u32, s: seq<u8>)
    requires |s| <= 4
    ensures Crc(c, s) == Steps(8 * |s|, XorW(c, Word(s)))
    decreases |s|
  {
    hide ByteStep, Steps, XorW;
    if s == [] {
      StepsNone(c);
    } else {
      var w, n := Word(s[1..]), |s| - 1;
      assert Word(s) == s[0] + 0x100 * w;
      CrcWord(ByteStep(c, s[0]), s[1..]);
      AbsorbByte(c, s[0], w);
      StepsAdd(8 * n, 8, XorW(c, Word(s)));
    }
  }

  lemma StepsNone(c: u32)
    ensures Steps(0, XorW(c, 0)) == c
  {
    XorNothing(c);
  }

  lemma AbsorbByte(c: u32, b: u8, w: u32)
    requires w < 0x100_0000
    ensures Steps(8, XorW(c, b + 0x100 * w)) == XorW(ByteStep(c, b), w)
  {
    hide Step, Steps, Xor;
    SplitByte(b + 0x100 * w);
    assert (b + 0x100 * w) / 0x100 == w && (b + 0x100 * w) % 0x100 == b;
    XorComm(0x100 * w, b);
    XorAssoc(c, b, 0x100 * w);
    Shl8(w);
    StepsShift(w, 8);
    StepsXor(8, XorW(c, b), 0x100 * w);
  }

  // ----- error detection

  /** A burst confined to four consecutive bytes always changes the checksum. */
  lemma BurstDetected(c: u32, m: seq<u8>, n: seq<u8>, i: nat)
    requires |m| == |n| && m != n
    requires forall k :: 0 <= k < |m| && !(i <= k < i + 4) ==> m[k] == n[k]
    ensures Crc(c, m) != Crc(c, n)
  {
    hide Crc, Steps, Word, Xor;
    var lo := if i < |m| then i else |m|;
    var hi := if i + 4 < |m| then i + 4 else |m|;
    var v, w := m[lo..hi], n[lo..hi];
    assert m[..lo] == n[..lo] && m[hi..] == n[hi..];
    assert m == m[..lo] + v + m[hi..];
    assert n == n[..lo] + w + n[hi..];
    var d := Crc(c, m[..lo]);
    CrcAppend(c, m[..lo] + v, m[hi..]);
    CrcAppend(c, m[..lo], v);
    CrcAppend(c, n[..lo] + w, n[hi..]);
    CrcAppend(c, n[..lo], w);
    if Crc(c, m) == Crc(c, n) {
      CrcStateInjective(Crc(d, v), Crc(d, w), m[hi..]);
      WindowInjective(d, v, w);
      assert false;
    }
  }

  lemma WindowInjective(d: u32, v: seq<u8>, w: seq<u8>)
    requires |v| == |w| <= 4 && Crc(d, v) == Crc(d, w)
    ensures v == w
  {
    hide Crc, Steps, Word, Xor;
    CrcWord(d, v);
    CrcWord(d, w);
    StepsInjective(8 * |v|, XorW(d, Word(v)), XorW(d, Word(w)));
    XorComm(d, Word(v));
    XorComm(d, Word(w));
    XorCancel(Word(v), Word(w), d);
    WordInjective(v, w);
  }
}
