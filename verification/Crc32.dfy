/** The table-driven checksum: an exclusive-or doubling loop fills the first row,
    a byte recurrence the other seven, and the body consumes eight bytes a turn. */
module Crc32 {
  import opened Words
  import opened Crc32Spec
  import CrcPolynomial

  const ROWS := 8
  const COLUMNS := 256

  // ----- arithmetic of the doubling loop

  lemma {:induction false} ShlAdd(x: nat, y: nat, k: nat)
    ensures Shl(x + y, k) == Shl(x, k) + Shl(y, k)
  {
    if k != 0 {
      ShlAdd(x, y, k - 1);
    }
  }

  lemma {:induction false} ShlOne(k: nat)
    ensures Shl(1, k) == Pow2(k)
  {
    if k != 0 {
      ShlOne(k - 1);
    }
  }

  lemma {:induction false} ShlMonotone(x: nat, y: nat, k: nat)
    ensures x < y <==> Shl(x, k) < Shl(y, k)
  {
    if k != 0 {
      ShlMonotone(x, y, k - 1);
    }
  }

  function OddShl(q: nat, k: nat): nat {
    Shl(2 * q + 1, k)
  }

  /** The odd multiples of a power of two sit half-way between its even multiples. */
  lemma OddMultiple(q: nat, p: nat)
    ensures Shl(2 * q, p) == Shl(q, p + 1)
    ensures OddShl(q, p) == Shl(q, p + 1) + Pow2(p)
  {
    ShlAdd(q, q, p);
    ShlAdd(2 * q, 1, p);
    ShlOne(p);
  }

  lemma StepDouble(x: u32)
    requires 2 * x < 0x1_0000_0000
    ensures Step(2 * x) == x
  {
    XorNothing(x);
  }

  lemma StepsNext(n: nat, c: u32)
    ensures Steps(n + 1, c) == Step(Steps(n, c))
  {
  }

  lemma StepsOne(c: u32)
    ensures Steps(1, c) == Step(c)
  {
    StepsNext(0, c);
  }

  lemma PowerSteps()
    ensures Step(1) == Steps(8, 128)
    ensures Steps(8, 0) == 0
  {
    hide Step, Steps;
    Shl8(0);
    StepsShift(0, 8);
    ShlOne(7);
    Pow2Values();
    assert Pow2(8) == 2 * Pow2(7);
    StepsShift(1, 7);
    StepsNext(7, 128);
  }

  /** Halving a power of two is one more step of the running value. */
  lemma NextPower(crc: u32, x: u32)
    requires 2 * x < 0x1_0000_0000 && crc == Steps(8, 2 * x)
    ensures Step(crc) == Steps(8, x)
  {
    hide Step, Steps;
    StepDouble(x);
    StepsOne(2 * x);
    StepsAdd(8, 1, 2 * x);
    StepsNext(8, 2 * x);
  }

  lemma PowBelow(p: nat)
    requires p <= 7
    ensures Pow2(p) <= 128
    decreases 7 - p
  {
    if p < 7 {
      PowBelow(p + 1);
    } else {
      Pow2Values();
    }
  }

  /** What a first-row entry must be: eight bit steps applied to its index. */
  ghost predicate EntryOk(tab: array2<u32>, k: nat)
    requires tab.Length0 == ROWS && tab.Length1 == COLUMNS && k < COLUMNS
    reads tab
  {
    tab[0, k] == Steps(8, k)
  }

  ghost predicate MultiplesOk(tab: array2<u32>, k: nat)
    requires tab.Length0 == ROWS && tab.Length1 == COLUMNS
    reads tab
  {
    forall q: nat :: Shl(q, k) < COLUMNS ==> EntryOk(tab, Shl(q, k))
  }

  ghost predicate OddMultiplesOk(tab: array2<u32>, k: nat, below: nat)
    requires tab.Length0 == ROWS && tab.Length1 == COLUMNS
    reads tab
  {
    forall q: nat :: q < below && OddShl(q, k) < COLUMNS ==> EntryOk(tab, OddShl(q, k))
  }

  /** The value the doubling loop stores is right because the step is xor-linear. */
  lemma DoubledEntry(q: nat, p: nat, i: u32, j: u32)
    requires i == Pow2(p) && j == Shl(q, p + 1) && i + j < COLUMNS
    ensures XorW(Steps(8, i), Steps(8, j)) == Steps(8, i + j)
  {
    hide Steps, Step, Xor;
    XorDisjoint(q, i, p + 1);
    XorComm(i, j);
    StepsXor(8, i, j);
  }

  lemma Covered(tab: array2<u32>, p: nat, below: nat)
    requires tab.Length0 == ROWS && tab.Length1 == COLUMNS
    requires MultiplesOk(tab, p + 1) && OddMultiplesOk(tab, p, below) && COLUMNS <= Shl(below, p + 1)
    ensures MultiplesOk(tab, p)
  {
    forall s: nat | Shl(s, p) < COLUMNS
      ensures EntryOk(tab, Shl(s, p))
    {
      var q := s / 2;
      OddMultiple(q, p);
      if s % 2 == 0 {
        assert s == 2 * q;
        assert EntryOk(tab, Shl(q, p + 1));
      } else {
        assert s == 2 * q + 1;
        assert OddShl(q, p) == Shl(s, p);
        ShlMonotone(q, below, p + 1);
      }
    }
  }

  lemma FirstRowDone(tab: array2<u32>)
    requires tab.Length0 == ROWS && tab.Length1 == COLUMNS && MultiplesOk(tab, 0)
    ensures forall k :: 0 <= k < COLUMNS ==> tab[0, k] == Steps(8, k)
  {
    hide Steps;
    forall k | 0 <= k < COLUMNS
      ensures tab[0, k] == Steps(8, k)
    {
      assert Shl(k, 0) == k;
      assert EntryOk(tab, Shl(k, 0));
    }
  }

  lemma FirstRowBegun(tab: array2<u32>)
    requires tab.Length0 == ROWS && tab.Length1 == COLUMNS && tab[0, 0] == 0
    ensures MultiplesOk(tab, 8)
  {
    hide Steps;
    PowerSteps();
    forall q: nat | Shl(q, 8) < COLUMNS
      ensures EntryOk(tab, Shl(q, 8))
    {
      Shl8(q);
    }
  }

  /** Fills the first row by exclusive-or doubling. */
  method InitFirstRow(tab: array2<u32>)
    requires tab.Length0 == ROWS && tab.Length1 == COLUMNS
    modifies tab
    ensures forall k :: 0 <= k < COLUMNS ==> tab[0, k] == Steps(8, k)
  {
    hide Steps, Step, MultiplesOk;
    var crc: u32 := 1;
    tab[0, 0] := 0;
    PowerSteps();
    Pow2Values();
    FirstRowBegun(tab);
    var i := COLUMNS / 2;
    ghost var p := 8;
    assert Pow2(8) == 2 * Pow2(7);
    while i != 0
      invariant 0 <= p <= 8
      invariant i == if p == 0 then 0 else Pow2(p - 1)
      invariant p != 0 ==> i <= 128 && Step(crc) == Steps(8, i)
      invariant MultiplesOk(tab, p)
      decreases p
    {
      crc := Step(crc);
      p := p - 1;
      DoubleRow(tab, crc, i, p);
      if p > 0 {
        PowBelow(p - 1);
        assert i == 2 * Pow2(p - 1);
        NextPower(crc, Pow2(p - 1));
      }
      i := i / 2;
    }
    FirstRowDone(tab);
  }

  /** One turn of the doubling loop: the odd multiples of i from its even ones. */
  method DoubleRow(tab: array2<u32>, crc: u32, i: u32, ghost p: nat)
    requires tab.Length0 == ROWS && tab.Length1 == COLUMNS
    requires p <= 7 && i == Pow2(p) && i <= 128 && crc == Steps(8, i)
    requires MultiplesOk(tab, p + 1)
    modifies tab
    ensures MultiplesOk(tab, p)
  {
    hide Steps, XorW, MultiplesOk, OddMultiplesOk, Shl;
    var j := 0;
    ghost var q := 0;
    Whole(p);
    ShlNone(p + 1);
    NoneYet(tab, p);
    while j < COLUMNS
      invariant j == Shl(q, p + 1)
      invariant MultiplesOk(tab, p + 1)
      invariant OddMultiplesOk(tab, p, q)
      decreases COLUMNS + 2 * i - j
    {
      OddMultiple(q, p);
      Spacing(q, p);
      DoubledEntry(q, p, i, j);
      EvenEntry(tab, p, q);
      DoubleOne(tab, crc, i, j, q, p);
      j := j + 2 * i;
      q := q + 1;
    }
    Covered(tab, p, q);
  }

  lemma ShlNone(k: nat)
    ensures Shl(0, k) == 0
  {
    ShlAdd(0, 0, k);
  }

  lemma NoneYet(tab: array2<u32>, k: nat)
    requires tab.Length0 == ROWS && tab.Length1 == COLUMNS
    ensures OddMultiplesOk(tab, k, 0)
  {
  }

  lemma EvenEntry(tab: array2<u32>, p: nat, q: nat)
    requires tab.Length0 == ROWS && tab.Length1 == COLUMNS
    requires MultiplesOk(tab, p + 1) && Shl(q, p + 1) < COLUMNS
    ensures tab[0, Shl(q, p + 1)] == Steps(8, Shl(q, p + 1))
  {
    hide Steps, Shl;
    assert EntryOk(tab, Shl(q, p + 1));
  }

  /** Even multiples below the width leave room for the odd one after them. */
  lemma Spacing(q: nat, p: nat)
    requires p <= 7 && Shl(q, p + 1) < COLUMNS
    ensures Shl(q, p + 1) + 2 * Pow2(p) == Shl(q + 1, p + 1) <= COLUMNS
  {
    var n := Pow2(7 - p);
    Whole(p);
    ShlMonotone(q, n, p + 1);
    ShlMonotone(n, q + 1, p + 1);
    ShlAdd(q, 1, p + 1);
    ShlOne(p + 1);
  }

  lemma Whole(p: nat)
    requires p <= 7
    ensures Shl(Pow2(7 - p), p + 1) == COLUMNS
  {
    if p == 0 {
      Pow2Values();
      assert Pow2(8) == 2 * Pow2(7);
    } else {
      Whole(p - 1);
      ShlAdd(Pow2(7 - p), Pow2(7 - p), p);
      assert Pow2(7 - (p - 1)) == 2 * Pow2(7 - p);
    }
  }

  method DoubleOne(tab: array2<u32>, crc: u32, i: u32, j: u32, ghost q: nat, ghost p: nat)
    requires tab.Length0 == ROWS && tab.Length1 == COLUMNS && i + j < COLUMNS
    requires i + j == OddShl(q, p)
    requires MultiplesOk(tab, p + 1) && OddMultiplesOk(tab, p, q)
    requires XorW(crc, tab[0, j]) == Steps(8, i + j)
    modifies tab
    ensures MultiplesOk(tab, p + 1) && OddMultiplesOk(tab, p, q + 1)
  {
    hide Steps, XorW;
    tab[0, i + j] := XorW(crc, tab[0, j]);
    ghost var k := p + 1;
    forall r: nat | Shl(r, k) < COLUMNS
      ensures EntryOk(tab, Shl(r, k))
    {
      OddMultiple(r, p);
      ShlMonotone(2 * r, 2 * q + 1, p);
      ShlMonotone(2 * q + 1, 2 * r, p);
      assert old(EntryOk(tab, Shl(r, k)));
    }
    forall r: nat | r < q + 1 && OddShl(r, p) < COLUMNS
      ensures EntryOk(tab, OddShl(r, p))
    {
      ShlMonotone(2 * r + 1, 2 * q + 1, p);
      assert r < q ==> old(EntryOk(tab, OddShl(r, p)));
    }
  }

  // ----- the whole table

  /** Row j, column k: eight bit steps for the index followed by j zero bytes. */
  ghost predicate TableOk(tab: array2<u32>)
    reads tab
  {
    && tab.Length0 == ROWS
    && tab.Length1 == COLUMNS
    && forall k :: 0 <= k < COLUMNS ==> ColumnOk(tab, ROWS, k)
  }

  method InitTable(tab: array2<u32>)
    requires tab.Length0 == ROWS && tab.Length1 == COLUMNS
    modifies tab
    ensures TableOk(tab)
  {
    InitFirstRow(tab);
    for i := 0 to COLUMNS
      invariant forall k :: 0 <= k < COLUMNS ==> EntryOk(tab, k)
      invariant forall k :: 0 <= k < i ==> ColumnOk(tab, ROWS, k)
    {
      FillColumn(tab, i);
    }
  }

  ghost predicate ColumnOk(tab: array2<u32>, rows: nat, k: nat)
    requires tab.Length0 == ROWS && tab.Length1 == COLUMNS && k < COLUMNS && rows <= ROWS
    reads tab
  {
    forall j :: 0 <= j < rows ==> tab[j, k] == Steps(8 * (j + 1), k)
  }

  method FillColumn(tab: array2<u32>, i: nat)
    requires tab.Length0 == ROWS && tab.Length1 == COLUMNS && i < COLUMNS
    requires forall k :: 0 <= k < COLUMNS ==> EntryOk(tab, k)
    modifies tab
    ensures ColumnOk(tab, ROWS, i)
    ensures forall k :: 0 <= k < COLUMNS ==> EntryOk(tab, k)
    ensures forall k :: 0 <= k < COLUMNS && k != i && old(ColumnOk(tab, ROWS, k)) ==> ColumnOk(tab, ROWS, k)
  {
    hide Steps, XorW;
    var crc := tab[0, i];
    assert EntryOk(tab, i);
    for j := 1 to ROWS
      invariant forall k :: 0 <= k < COLUMNS ==> EntryOk(tab, k)
      invariant ColumnOk(tab, j, i)
      invariant crc == Steps(8 * j, i)
      invariant forall k :: 0 <= k < COLUMNS && k != i && old(ColumnOk(tab, ROWS, k)) ==> ColumnOk(tab, ROWS, k)
    {
      StepsSplit(crc);
      StepsAdd(8, 8 * j, i);
      assert EntryOk(tab, crc % 0x100);
      crc := XorW(tab[0, crc % 0x100], crc / 0x100);
      label before:
      tab[j, i] := crc;
      forall k | 0 <= k < COLUMNS
        ensures EntryOk(tab, k)
      {
        assert old@before(EntryOk(tab, k));
      }
    }
  }

  /** What a table row says about messages: the index byte, then j zero bytes. */
  lemma {:induction false} RowMeaning(k: u8, j: nat)
    ensures Steps(8 * (j + 1), k) == Crc(0, [k] + Zeros(j))
  {
    var z := Zeros(j);
    assert ([k] + z)[0] == k && ([k] + z)[1..] == z;
    assert XorW(0, k) == k;
    ZerosStep(ByteStep(0, k), j);
    hide Steps, XorW;
    StepsAdd(8 * j, 8, k);
  }

  lemma StepsZeroTimes(c: u32)
    ensures Steps(0, c) == c
  {
  }

  function Zeros(j: nat): seq<u8> {
    seq(j, _ => 0)
  }

  lemma {:induction false} ZerosStep(c: u32, j: nat)
    ensures Crc(c, Zeros(j)) == Steps(8 * j, c)
    decreases j
  {
    hide Steps;
    if j == 0 {
      StepsZeroTimes(c);
    } else {
      assert Zeros(j)[1..] == Zeros(j - 1);
      XorNothing(c);
      ZerosStep(ByteStep(c, 0), j - 1);
      StepsAdd(8 * (j - 1), 8, c);
    }
  }

  // ----- slicing by eight

  lemma PeelLane(n: nat, c: u32)
    ensures Steps(n + 8, c) == XorW(Steps(n + 8, c % 0x100), Steps(n, c / 0x100))
  {
    hide Step, Steps, Xor;
    var hi := 0x100 * (c / 0x100);
    SplitByte(c);
    XorComm(hi, c % 0x100);
    StepsXor(n + 8, c % 0x100, hi);
    Shl8(c / 0x100);
    StepsShift(c / 0x100, 8);
    StepsAdd(n, 8, hi);
  }

  /** Stepping a word is the exclusive-or of four table look-ups. */
  lemma Lanes(n: nat, q: u32)
    ensures Steps(n + 32, q) ==
            XorW(XorW(XorW(Steps(n + 32, q % 0x100), Steps(n + 24, q / 0x100 % 0x100)),
                      Steps(n + 16, q / 0x1_0000 % 0x100)), Steps(n + 8, q / 0x100_0000 % 0x100))
  {
    hide Step, Steps, Xor;
    var q1, q2, q3: u32 := q / 0x100, q / 0x1_0000, q / 0x100_0000;
    assert q1 / 0x100 == q2 && q2 / 0x100 == q3 && q3 % 0x100 == q3;
    PeelLane(n + 24, q);
    PeelLane(n + 16, q1);
    PeelLane(n + 8, q2);
    XorAssoc(Steps(n + 32, q % 0x100), Steps(n + 24, q1 % 0x100),
             XorW(Steps(n + 16, q2 % 0x100), Steps(n + 8, q3)));
    XorAssoc(XorW(Steps(n + 32, q % 0x100), Steps(n + 24, q1 % 0x100)),
             Steps(n + 16, q2 % 0x100), Steps(n + 8, q3));
  }

  /** One byte through the first row. */
  lemma ByteLookup(c: u32, b: u8)
    ensures ByteStep(c, b) == XorW(Steps(8, XorW(c, b) % 0x100), c / 0x100)
  {
    hide Step, Steps, Xor;
    StepsSplit(XorW(c, b));
    var hi, lo := 0x100 * (c / 0x100), c % 0x100;
    SplitByte(c);
    XorAssoc(hi, lo, b);
    Pow2Values();
    Shl8(c / 0x100);
    XorBound(lo, b, 8);
    XorDisjoint(c / 0x100, Xor(lo, b), 8);
    assert XorW(c, b) == hi + Xor(lo, b);
  }

  /** Eight bytes at once: the word tables agree with eight byte steps. */
  lemma EightBytes(c: u32, s: seq<u8>)
    requires |s| == 8
    ensures Crc(c, s) == XorW(Steps(64, XorW(c, Word(s[..4]))), Steps(32, Word(s[4..])))
  {
    hide Step, Steps, Xor, Crc, Word;
    var v, w := s[..4], s[4..];
    assert s == v + w;
    CrcAppend(c, v, w);
    CrcWord(c, v);
    CrcWord(Crc(c, v), w);
    StepsXor(32, Steps(32, XorW(c, Word(v))), Word(w));
    StepsAdd(32, 32, XorW(c, Word(v)));
  }

  /** The four look-ups of one loaded word, rows base + 3 down to base. */
  method LookUpWord(tab: array2<u32>, base: nat, q: u32) returns (r: u32)
    requires TableOk(tab) && base + 3 < ROWS
    ensures r == Steps(8 * base + 32, q)
  {
    hide Steps, XorW;
    assert ColumnOk(tab, ROWS, q % 0x100) && ColumnOk(tab, ROWS, q / 0x100 % 0x100);
    assert ColumnOk(tab, ROWS, q / 0x1_0000 % 0x100) && ColumnOk(tab, ROWS, q / 0x100_0000 % 0x100);
    r := XorW(XorW(XorW(tab[base + 3, q % 0x100], tab[base + 2, q / 0x100 % 0x100]),
                   tab[base + 1, q / 0x1_0000 % 0x100]), tab[base, q / 0x100_0000 % 0x100]);
    Lanes(8 * base, q);
  }

  /** Consumes a buffer that starts at address addr: bytes up to a word boundary,
      then eight bytes a turn, then the bytes left over. */
  method Crc32Body(init: u32, addr: nat, buf: seq<u8>, tab: array2<u32>) returns (crc: u32)
    requires TableOk(tab)
    ensures crc == Crc(init, buf)
  {
    hide Steps, XorW, Crc, ByteStep, Word;
    crc := init;
    var pos: nat, len: nat := 0, |buf|;
    CrcNone(init);
    var more := addr % 4 != 0 && len != 0;
    while more
      invariant 0 <= pos && pos + len == |buf|
      invariant more ==> len > 0
      invariant crc == Crc(init, buf[..pos])
      decreases len, more
    {
      OneMore(init, buf, pos);
      ByteLookup(crc, buf[pos]);
      assert ColumnOk(tab, ROWS, XorW(crc, buf[pos]) % 0x100);
      crc := XorW(tab[0, XorW(crc, buf[pos]) % 0x100], crc / 0x100);
      pos := pos + 1;
      len := len - 1;
      more := len != 0 && (addr + pos) % 4 != 0;
    }
    var remLen := len % 8;
    len := len / 8;
    while len != 0
      invariant 0 <= pos && pos + 8 * len + remLen == |buf|
      invariant crc == Crc(init, buf[..pos])
    {
      var chunk := buf[pos..pos + 8];
      assert buf[..pos + 8] == buf[..pos] + chunk;
      CrcAppend(init, buf[..pos], chunk);
      EightBytes(crc, chunk);
      var lo := LookUpWord(tab, 4, XorW(crc, Word(chunk[..4])));
      var hi := LookUpWord(tab, 0, Word(chunk[4..]));
      crc := XorW(lo, hi);
      pos := pos + 8;
      len := len - 1;
    }
    len := remLen;
    while len != 0
      invariant 0 <= pos && pos + len == |buf|
      invariant crc == Crc(init, buf[..pos])
    {
      OneMore(init, buf, pos);
      ByteLookup(crc, buf[pos]);
      assert ColumnOk(tab, ROWS, XorW(crc, buf[pos]) % 0x100);
      crc := XorW(tab[0, XorW(crc, buf[pos]) % 0x100], crc / 0x100);
      pos := pos + 1;
      len := len - 1;
    }
    assert buf[..pos] == buf;
  }

  lemma CrcNone(c: u32)
    ensures Crc(c, []) == c
  {
  }

  lemma OneMore(c: u32, buf: seq<u8>, pos: nat)
    requires pos < |buf|
    ensures Crc(c, buf[..pos + 1]) == ByteStep(Crc(c, buf[..pos]), buf[pos])
  {
    hide ByteStep;
    assert buf[..pos + 1] == buf[..pos] + [buf[pos]];
    CrcAppend(c, buf[..pos], [buf[pos]]);
    assert Crc(Crc(c, buf[..pos]), [buf[pos]]) == Crc(ByteStep(Crc(c, buf[..pos]), buf[pos]), []);
  }

  /** The file's static state: the table and the never-set "already built" flag. */
  class Checksum {
    const table: array2<u32>
    var initFlag: bool

    constructor ()
      ensures fresh(table) && table.Length0 == ROWS && table.Length1 == COLUMNS && !initFlag
    {
      table := new u32[ROWS, COLUMNS];
      initFlag := false;
    }

    ghost predicate Valid()
      reads this, table
    {
      && table.Length0 == ROWS
      && table.Length1 == COLUMNS
      && (initFlag ==> TableOk(table))
    }

    /** The flag is never raised, so every call rebuilds the table; the answer is the
        bit-serial checksum whatever the buffer's address, and the remainder of the message
        divided by the generator of the standard. */
    method Crc32Le(crc: u32, addr: nat, p: seq<u8>) returns (r: u32)
      requires Valid()
      modifies table
      ensures Valid() && initFlag == old(initFlag) && TableOk(table)
      ensures r == Crc(crc, p)
      ensures CrcPolynomial.IsRemainder(crc, p, r)
    {
      if !initFlag {
        InitTable(table);
      }
      r := Crc32Body(crc, addr, p, table);
      hide *;
      CrcPolynomial.CrcIsRemainder(crc, p, r);
    }
  }
}
