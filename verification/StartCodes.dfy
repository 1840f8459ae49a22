/** Byte streams written as pieces, each a start code of three or four bytes and a payload:
    when the splitter gives exactly the pieces back. Everything is in terms of bytes. */
module StartCodes {
  import opened Arithmetic
  import opened Words
  import opened ObuRewriter
  import opened NaluSplitter

  datatype Piece = Piece(long: bool, payload: seq<u8>)

  function Bytes(p: Piece): seq<u8> {
    (if p.long then [0, 0, 0, 1] else [0, 0, 1]) + p.payload
  }

  function AllBytes(ps: seq<Piece>): (units: seq<seq<u8>>)
    ensures |units| == |ps|
    decreases |ps|
  {
    if ps == [] then [] else [Bytes(ps[0])] + AllBytes(ps[1..])
  }

  /** The stream. */
  function Whole(ps: seq<Piece>): seq<u8>
    decreases |ps|
  {
    if ps == [] then [] else Bytes(ps[0]) + Whole(ps[1..])
  }

  /** No start code inside. */
  predicate NoCode(s: seq<u8>) {
    forall i :: 0 <= i < |s| - 2 ==> !(s[i] == 0 && s[i + 1] == 0 && s[i + 2] == 1)
  }

  predicate EndsInZero(s: seq<u8>) {
    s != [] && s[|s| - 1] == 0
  }

  /** No payload contains a start code, and none ends in zero before a three-byte code. */
  predicate Clean(ps: seq<Piece>)
    decreases |ps|
  {
    ps == [] || (HeadClean(ps) && Clean(ps[1..]))
  }

  predicate HeadClean(ps: seq<Piece>)
    requires ps != []
  {
    NoCode(ps[0].payload) && (|ps| > 1 && !ps[1].long ==> !EndsInZero(ps[0].payload))
  }

  /** A start, in bytes: 00 00 00 01, or 00 00 01 with no zero before it. */
  predicate Start(s: seq<u8>, i: nat) {
    || (i + 4 <= |s| && s[i] == 0 && s[i + 1] == 0 && s[i + 2] == 0 && s[i + 3] == 1)
    || (i + 3 <= |s| && s[i] == 0 && s[i + 1] == 0 && s[i + 2] == 1 && !(i > 0 && s[i - 1] == 0))
  }

  lemma CodeBytes(s: seq<u8>, i: nat)
    ensures ShortCode(s, i) <==> i + 3 <= |s| && s[i] == 0 && s[i + 1] == 0 && s[i + 2] == 1
    ensures LongCode(s, i) <==> i + 4 <= |s| && s[i] == 0 && s[i + 1] == 0 && s[i + 2] == 0 && s[i + 3] == 1
  {
    if i + 3 <= |s| {
      assert s[i..][0] == s[i] && s[i..][1] == s[i + 1] && s[i..][2] == s[i + 2];
    }
    if i + 4 <= |s| {
      assert s[i..][3] == s[i + 3];
    }
  }

  /** The starts at which byte streams are cut, in bytes. */
  lemma StartIff(s: seq<u8>, i: nat)
    ensures StartAt(ByteStream, s, i) <==> Start(s, i)
  {
    CodeBytes(s, i);
    if i > 0 {
      CodeBytes(s, i - 1);
    }
    hide ShortCode, LongCode;
  }

  // ----- where one piece ends

  /** The piece stands at i in the stream, followed by the others. */
  ghost predicate Stands(s: seq<u8>, i: nat, ps: seq<Piece>) {
    ps != [] && i <= |s| && s[i..] == Whole(ps)
  }

  lemma StandsBytes(s: seq<u8>, i: nat, ps: seq<Piece>)
    requires Stands(s, i, ps)
    ensures ps != []
    ensures var u := Bytes(ps[0]);
            && i + |u| <= |s| && s[i..i + |u|] == u && s[i + |u|..] == Whole(ps[1..])
            && (forall x :: 0 <= x < |u| ==> s[i + x] == u[x])
  {
    hide Bytes;
    var u := Bytes(ps[0]);
    assert s[i..] == u + Whole(ps[1..]);
    assert forall x :: 0 <= x < |u| ==> s[i + x] == s[i..][x];
    assert s[i..][|u|..] == s[i + |u|..];
  }

  /** What follows the piece begins with a start code, or nothing follows. */
  lemma NextBytes(s: seq<u8>, i: nat, ps: seq<Piece>)
    requires Stands(s, i, ps)
    ensures var e := i + |Bytes(ps[0])|;
            if |ps| == 1 then e == |s|
            else
              && e + 3 <= |s| && s[e] == 0 && s[e + 1] == 0
              && (ps[1].long ==> e + 4 <= |s| && s[e + 2] == 0 && s[e + 3] == 1)
              && (!ps[1].long ==> s[e + 2] == 1)
  {
    StandsBytes(s, i, ps);
    var e := i + |Bytes(ps[0])|;
    if |ps| > 1 {
      assert Stands(s, e, ps[1..]);
      StandsBytes(s, e, ps[1..]);
      assert Bytes(ps[1])[0] == 0 && Bytes(ps[1])[1] == 0;
    }
  }

  function CodeLen(p: Piece): nat {
    if p.long then 4 else 3
  }

  lemma PieceBytes(p: Piece, x: nat)
    ensures |Bytes(p)| == CodeLen(p) + |p.payload|
    ensures Bytes(p)[0] == 0 && Bytes(p)[1] == 0
    ensures Bytes(p)[2] == (if p.long then 0 else 1) && (p.long ==> Bytes(p)[3] == 1)
    ensures x < |p.payload| ==> Bytes(p)[CodeLen(p) + x] == p.payload[x]
  {
  }

  /** No start inside a clean piece. */
  lemma NoneInside(s: seq<u8>, i: nat, ps: seq<Piece>, j: nat)
    requires Stands(s, i, ps) && HeadClean(ps) && i < j < i + |Bytes(ps[0])|
    ensures !Start(s, j)
  {
    hide Stands, Bytes, Start, Whole, NoCode, EndsInZero;
    StandsBytes(s, i, ps);
    NextBytes(s, i, ps);
    var p, e := ps[0], i + |Bytes(ps[0])|;
    PieceBytes(p, 0);
    if j < i + CodeLen(p) {
      NoneInCode(s, i, p, j);
    } else {
      forall y | 0 <= y < |p.payload|
        ensures s[i + CodeLen(p) + y] == p.payload[y]
      {
        PieceBytes(p, y);
      }
      NoneInPayload(s, i + CodeLen(p), e, p.payload, j, |ps| > 1, |ps| > 1 && ps[1].long);
    }
  }

  lemma NoneInCode(s: seq<u8>, i: nat, p: Piece, j: nat)
    requires i < j < i + CodeLen(p) <= |s|
    requires s[i] == 0 && s[i + 1] == 0 && s[i + 2] == (if p.long then 0 else 1) && (p.long ==> s[i + 3] == 1)
    ensures !Start(s, j)
  {
  }

  lemma NoneInPayload(s: seq<u8>, b: nat, e: nat, payload: seq<u8>, j: nat, more: bool, long: bool)
    requires b <= j < e == b + |payload| <= |s| && NoCode(payload)
    requires forall y :: 0 <= y < |payload| ==> s[b + y] == payload[y]
    requires if more then e + 3 <= |s| && s[e] == 0 && s[e + 1] == 0 else e == |s|
    requires more ==> if long then s[e + 2] == 0 else s[e + 2] == 1 && !EndsInZero(payload)
    ensures !Start(s, j)
  {
    var y := j - b;
    assert s[j] == payload[y];
    if y + 1 < |payload| {
      assert s[j + 1] == payload[y + 1];
    }
    if y + 2 < |payload| {
      assert s[j + 2] == payload[y + 2];
    }
    if y + 3 < |payload| {
      assert s[j + 3] == payload[y + 3];
      assert !(payload[y + 1] == 0 && payload[y + 2] == 0 && payload[y + 3] == 1);
    }
  }

  /** A start inside a piece that is not clean. */
  lemma OneInside(s: seq<u8>, i: nat, ps: seq<Piece>) returns (j: nat)
    requires Stands(s, i, ps) && !HeadClean(ps)
    ensures i < j < i + |Bytes(ps[0])| && Start(s, j)
  {
    var payload := ps[0].payload;
    if NoCode(payload) {
      j := ZeroAtEnd(s, i, ps);
    } else {
      var y :| 0 <= y < |payload| - 2 && payload[y] == 0 && payload[y + 1] == 0 && payload[y + 2] == 1;
      j := CodeInside(s, i, ps, y);
    }
    hide *;
  }

  lemma CodeInside(s: seq<u8>, i: nat, ps: seq<Piece>, y: nat) returns (j: nat)
    requires Stands(s, i, ps) && y + 2 < |ps[0].payload|
    requires ps[0].payload[y] == 0 && ps[0].payload[y + 1] == 0 && ps[0].payload[y + 2] == 1
    ensures i < j < i + |Bytes(ps[0])| && Start(s, j)
  {
    hide Stands, Bytes, Start, Whole;
    StandsBytes(s, i, ps);
    var p := ps[0];
    PieceBytes(p, y);
    PieceBytes(p, y + 1);
    PieceBytes(p, y + 2);
    j := i + CodeLen(p) + y;
    assert s[j] == 0 && s[j + 1] == 0 && s[j + 2] == 1;
    BeforeCode(p, y);
    assert s[j - 1] == Bytes(p)[CodeLen(p) + y - 1];
    IsStart(s, j);
    if s[j - 1] == 0 {
      j := j - 1;
    }
  }

  /** A zero before a code in a payload is in the payload. */
  lemma BeforeCode(p: Piece, y: nat)
    requires y < |p.payload|
    ensures y == 0 ==> Bytes(p)[CodeLen(p) + y - 1] == 1
  {
  }

  lemma IsStart(s: seq<u8>, j: nat)
    requires 0 < j && j + 3 <= |s| && s[j] == 0 && s[j + 1] == 0 && s[j + 2] == 1
    ensures if s[j - 1] == 0 then Start(s, j - 1) else Start(s, j)
  {
  }

  lemma ZeroAtEnd(s: seq<u8>, i: nat, ps: seq<Piece>) returns (j: nat)
    requires Stands(s, i, ps) && |ps| > 1 && !ps[1].long && EndsInZero(ps[0].payload)
    ensures i < j < i + |Bytes(ps[0])| && Start(s, j)
  {
    hide Stands, Bytes, Start, Whole;
    StandsBytes(s, i, ps);
    var p := ps[0];
    NextBytes(s, i, ps);
    PieceBytes(p, |p.payload| - 1);
    j := i + |Bytes(p)| - 1;
    IsStart(s, j + 1);
  }

  // ----- the pieces

  lemma UnitsParts(s: seq<u8>, i: nat)
    requires i < |s|
    ensures var n := NextStart(ByteStream, s, i + 1);
            UnitsFrom(ByteStream, s, i) == [s[i..n]] + UnitsFrom(ByteStream, s, n)
  {
    hide StartAt, NextStart;
  }

  lemma NextIs(s: seq<u8>, i: nat, e: nat)
    requires i < e <= |s| && (e < |s| ==> Start(s, e))
    requires forall j :: i < j < e ==> !Start(s, j)
    ensures NextStart(ByteStream, s, i + 1) == e
  {
    hide StartAt, Start;
    StartIff(s, e);
    forall j | i + 1 <= j < e
      ensures !StartAt(ByteStream, s, j)
    {
      StartIff(s, j);
    }
    NextStartIs(ByteStream, s, i + 1, e);
  }

  lemma NextBefore(s: seq<u8>, i: nat, j: nat)
    requires i < j < |s| && Start(s, j)
    ensures i < NextStart(ByteStream, s, i + 1) <= j
  {
    hide StartAt, Start;
    StartIff(s, j);
  }

  lemma PieceStarts(s: seq<u8>, i: nat, ps: seq<Piece>)
    requires Stands(s, i, ps) && (!ps[0].long && i > 0 ==> s[i - 1] != 0)
    ensures Start(s, i)
  {
    StandsBytes(s, i, ps);
    PieceBytes(ps[0], 0);
    hide Whole, Bytes;
  }

  lemma {:induction false} PiecesFrom(s: seq<u8>, i: nat, ps: seq<Piece>)
    requires i <= |s| && s[i..] == Whole(ps)
    requires ps != [] && !ps[0].long && i > 0 ==> s[i - 1] != 0
    ensures UnitsFrom(ByteStream, s, i) == AllBytes(ps) <==> Clean(ps)
    decreases |ps|
  {
    hide StartAt, NextStart, Bytes, HeadClean, UnitsFrom, Start, Whole;
    if ps == [] {
      EmptyRest(s, i);
    } else {
      var u := Bytes(ps[0]);
      var e := i + |u|;
      StandsBytes(s, i, ps);
      PieceBytes(ps[0], 0);
      UnitsParts(s, i);
      if HeadClean(ps) {
        forall j | i < j < e
          ensures !Start(s, j)
        {
          NoneInside(s, i, ps, j);
        }
        NextReady(s, i, ps);
        NextIs(s, i, e);
        PiecesFrom(s, e, ps[1..]);
        SameHead([u], UnitsFrom(ByteStream, s, e), AllBytes(ps[1..]));
      } else {
        var j := OneInside(s, i, ps);
        NextBefore(s, i, j);
        assert ([s[i..NextStart(ByteStream, s, i + 1)]] + UnitsFrom(ByteStream, s, NextStart(ByteStream, s, i + 1)))[0]
            != u;
        assert AllBytes(ps)[0] == u;
      }
    }
  }

  lemma EmptyRest(s: seq<u8>, i: nat)
    requires i <= |s| && s[i..] == Whole([])
    ensures UnitsFrom(ByteStream, s, i) == []
  {
    hide NextStart;
  }

  /** After a clean piece the next one begins with a start. */
  lemma NextReady(s: seq<u8>, i: nat, ps: seq<Piece>)
    requires Stands(s, i, ps) && HeadClean(ps)
    ensures var e := i + |Bytes(ps[0])|;
            && e <= |s| && s[e..] == Whole(ps[1..]) && (e == |s| <==> |ps| == 1)
            && (|ps| > 1 && !ps[1].long ==> s[e - 1] != 0)
            && (e < |s| ==> Start(s, e))
  {
    StandsBytes(s, i, ps);
    NextBytes(s, i, ps);
    var p, e := ps[0], i + |Bytes(ps[0])|;
    PieceBytes(p, if p.payload == [] then 0 else |p.payload| - 1);
    assert s[e - 1] == Bytes(p)[|Bytes(p)| - 1];
    if |ps| > 1 {
      assert Stands(s, e, ps[1..]);
      hide Whole;
      PieceStarts(s, e, ps[1..]);
    }
  }

  /** The splitter gives the pieces of a byte stream back exactly when no payload contains
      00 00 01 and none that a three-byte code follows ends in 00. */
  lemma PiecesIff(ps: seq<Piece>)
    ensures AllUnits(ByteStream, Whole(ps)) == AllBytes(ps) <==> Clean(ps)
  {
    hide StartAt, Bytes, Whole, Start, Clean, AllBytes, UnitsFrom;
    var s := Whole(ps);
    assert s[0..] == s;
    PiecesFrom(s, 0, ps);
    if s != [] {
      NotEmpty(ps);
      PieceStarts(s, 0, ps);
      StartIff(s, 0);
    }
    FirstIsZero(s);
  }

  lemma NotEmpty(ps: seq<Piece>)
    ensures Whole(ps) != [] ==> ps != []
  {
  }

  lemma FirstIsZero(s: seq<u8>)
    requires s != [] ==> StartAt(ByteStream, s, 0)
    ensures NextStart(ByteStream, s, 0) == 0
  {
    hide StartAt;
  }

  // ----- headers

  /** Two 32-bit words add up to all ones exactly when each byte of one is the complement of
      the other's. */
  lemma ComplementIff(s: seq<u8>, i: nat)
    requires i + 8 <= |s|
    ensures (BigEndianValue(s[i..]) + BigEndianValue(s[i + 4..])) % W32 == 0xFFFF_FFFF <==>
            forall k :: i <= k < i + 4 ==> s[k + 4] == 255 - s[k]
  {
    var a: nat, b: nat := (s[i] as int) + s[i + 4], (s[i + 1] as int) + s[i + 5];
    var c: nat, d: nat := (s[i + 2] as int) + s[i + 6], (s[i + 3] as int) + s[i + 7];
    assert BigEndianValue(s[i..]) + BigEndianValue(s[i + 4..]) == 0x100_0000 * a + 0x1_0000 * b + 0x100 * c + d;
    hide BigEndianValue;
    DigitSum(a, b, c, d);
    Four(s, i);
  }

  lemma Four(s: seq<u8>, i: nat)
    requires i + 8 <= |s|
    ensures (forall k :: i <= k < i + 4 ==> s[k + 4] == 255 - s[k]) <==>
              && (s[i] as int) + s[i + 4] == 255 && (s[i + 1] as int) + s[i + 5] == 255
              && (s[i + 2] as int) + s[i + 6] == 255 && (s[i + 3] as int) + s[i + 7] == 255
  {
  }

  lemma DigitSum(a: nat, b: nat, c: nat, d: nat)
    requires a < 511 && b < 511 && c < 511 && d < 511
    ensures (0x100_0000 * a + 0x1_0000 * b + 0x100 * c + d) % W32 == 0xFFFF_FFFF <==>
            a == 255 && b == 255 && c == 255 && d == 255
  {
    var v := 0x100_0000 * a + 0x1_0000 * b + 0x100 * c + d;
    if v % W32 == 0xFFFF_FFFF {
      assert v == 0xFFFF_FFFF || v == 0xFFFF_FFFF + W32;
      assert d % 0x100 == 255;
      assert d == 255;
      assert c % 0x100 == 255;
      assert c == 255;
      assert b % 0x100 == 255;
    }
  }

  /** The starts at which rewritten AV1 frames are cut, in bytes: four bytes, their
      complements, 00 00 00 01 and the letters AMLV. */
  lemma HeaderStartIff(s: seq<u8>, i: nat)
    ensures StartAt(AmlHeaders, s, i) <==>
              && i + 16 <= |s|
              && (forall k :: i <= k < i + 4 ==> s[k + 4] == 255 - s[k])
              && s[i + 8] == 0 && s[i + 9] == 0 && s[i + 10] == 0 && s[i + 11] == 1
              && s[i + 12] == 'A' as int && s[i + 13] == 'M' as int
              && s[i + 14] == 'L' as int && s[i + 15] == 'V' as int
  {
    hide StartAt, FindAmlStartCode, BigEndianValue;
    HeaderAt(s, i);
    if i + 16 <= |s| {
      ComplementIff(s, i);
      HeaderTest(s, i);
    }
  }

  lemma HeaderAt(s: seq<u8>, i: nat)
    ensures StartAt(AmlHeaders, s, i) <==> i + 16 <= |s| && FindAmlStartCode(s[i..])
  {
    hide FindAmlStartCode;
  }

  lemma HeaderTest(s: seq<u8>, i: nat)
    requires i + 16 <= |s|
    ensures FindAmlStartCode(s[i..]) <==>
              && (BigEndianValue(s[i..]) + BigEndianValue(s[i + 4..])) % W32 == 0xFFFF_FFFF
              && s[i + 8] == 0 && s[i + 9] == 0 && s[i + 10] == 0 && s[i + 11] == 1
              && s[i + 12] == 0x41 && s[i + 13] == 0x4D && s[i + 14] == 0x4C && s[i + 15] == 0x56
  {
    hide BigEndianValue;
    var u := s[i..];
    assert u[4..] == s[i + 4..];
    assert u[8] == s[i + 8] && u[9] == s[i + 9] && u[10] == s[i + 10] && u[11] == s[i + 11];
    assert u[12] == s[i + 12] && u[13] == s[i + 13] && u[14] == s[i + 14] && u[15] == s[i + 15];
  }
}
