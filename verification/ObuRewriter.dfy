/** Rewriting an AV1 frame for the decoder: every open bitstream unit is wrapped in a
    header with its length, the complement of the length, a start code, a mark, and
    outside Annex B a padded size field. */
module ObuRewriter {
  import opened Arithmetic
  import opened Words
  import opened Leb128
  import opened Obu

  /** The start code and the mark "AMLV". */
  const MARK: seq<u8> := [0x00, 0x00, 0x00, 0x01, 0x41, 0x4D, 0x4C, 0x56]

  /** The size field before the first unit is written. */
  const FIRST_FIELD: seq<u8> := [0xD0, 0x82, 0x80, 0x00]

  // ----- the frame state machine

  datatype Verdict = Abort | Finish | Go(seen: bool)

  /** What a unit of this type means for the frame; atEnd says that the input ends with
      it. */
  function Switch(ty: nat, seen: bool, atEnd: bool): Verdict {
    if ty == OBU_TEMPORAL_DELIMITER then Go(false)
    else if ty == OBU_SEQUENCE_HEADER then if seen then Abort else Go(seen)
    else if ty == OBU_FRAME_HEADER then if atEnd then Finish else Go(true)
    else if ty == OBU_REDUNDANT_FRAME_HEADER then if seen then Go(seen) else Abort
    else if ty == OBU_FRAME then if seen then Abort else if atEnd then Finish else Go(seen)
    else if ty == OBU_TILE_GROUP then if !seen then Abort else if atEnd then Finish else Go(seen)
    else Go(seen)
  }

  /** How long the unit at the front is, header and payload; zero when there is none that
      fits. */
  function UnitSize(data: seq<u8>, annexb: bool): (n: nat)
    ensures n <= |data|
    ensures n != 0 ==> n >= 2 && ParseHeaderAndSize(data, annexb).Parsed?
  {
    match ParseHeaderAndSize(data, annexb)
    case ParseError => 0
    case Parsed(h, payload, bytesRead) =>
      ParsedSize(data, annexb);
      if |data| - bytesRead < payload then 0 else bytesRead + payload
  }

  function UnitType(data: seq<u8>, annexb: bool): nat
    requires UnitSize(data, annexb) != 0
  {
    ParseHeaderAndSize(data, annexb).header.ty
  }

  /** The result code and the units written before the end or the error. */
  datatype Rewritten = Rewritten(status: int, bodies: seq<seq<u8>>)

  function Rewrite(data: seq<u8>, annexb: bool, seen: bool): Rewritten
    decreases |data|
  {
    var n := UnitSize(data, annexb);
    if data == [] && !seen then Rewritten(0, [])
    else if n == 0 then Rewritten(-1, [])
    else
      match Switch(UnitType(data, annexb), seen, n == |data|)
      case Abort => Rewritten(-1, [data[..n]])
      case Finish => Rewritten(0, [data[..n]])
      case Go(seen') =>
        var rest := Rewrite(data[n..], annexb, seen');
        Rewritten(rest.status, [data[..n]] + rest.bodies)
  }

  // ----- the packets

  function BigEndian(x: nat): seq<u8>
  {
    [x / 0x100_0000 % 0x100, x / 0x1_0000 % 0x100, x / 0x100 % 0x100, x % 0x100]
  }

  function Complement(s: seq<u8>): (r: seq<u8>)
    ensures |r| == |s|
  {
    seq(|s|, i requires 0 <= i < |s| => 0xFF - s[i])
  }

  /** What the header calls the size of a unit of n bytes, in 32 bits. */
  function ObuSize(n: nat, annexb: bool): nat {
    (if annexb then n else n + 4) % W32
  }

  function Front(n: nat, annexb: bool): (s: seq<u8>)
    ensures |s| == 16
  {
    var len := BigEndian((ObuSize(n, annexb) + 4) % W32);
    len + Complement(len) + MARK
  }

  /** The size field after a unit of n bytes: what does not fit it leaves it alone. */
  function FieldAfter(field: seq<u8>, n: nat, annexb: bool): (f: seq<u8>)
    requires |field| == 4
    ensures |f| == 4
  {
    if annexb || ObuSize(n, false) >= Pow128(4) then field else Fixed(ObuSize(n, false), 4)
  }

  function Packet(body: seq<u8>, field: seq<u8>, annexb: bool): seq<u8> {
    Front(|body|, annexb) + (if annexb then [] else field) + body
  }

  /** The packets of the units one after the other. */
  function Output(bodies: seq<seq<u8>>, field: seq<u8>, annexb: bool): seq<u8>
    requires |field| == 4
    decreases |bodies|
  {
    if bodies == [] then []
    else
      var f := FieldAfter(field, |bodies[0]|, annexb);
      Packet(bodies[0], f, annexb) + Output(bodies[1..], f, annexb)
  }

  /** What the routine adds to the caller's frame length. */
  function Counted(bodies: seq<seq<u8>>): nat
    decreases |bodies|
  {
    if bodies == [] then 0 else 20 + |bodies[0]| + Counted(bodies[1..])
  }

  function Concat(bodies: seq<seq<u8>>): seq<u8>
    decreases |bodies|
  {
    if bodies == [] then [] else bodies[0] + Concat(bodies[1..])
  }

  // ----- the routine

  lemma {:induction false} XorOnes(a: nat, k: nat)
    requires a < Pow2(k)
    ensures Xor(a, Pow2(k) - 1) == Pow2(k) - 1 - a
    decreases k
  {
    if k != 0 {
      hide Xor;
      XorOnes(a / 2, k - 1);
      OnesDoubled(a, Pow2(k - 1) - 1);
    }
  }

  lemma OnesDoubled(a: nat, ones: nat)
    requires Xor(a / 2, ones) == ones - a / 2
    ensures Xor(a, 2 * ones + 1) == 2 * ones + 1 - a
  {
    hide Xor;
    XorHalf(a, 2 * ones + 1);
    XorBit(a, 2 * ones + 1);
    assert (2 * ones + 1) / 2 == ones && (2 * ones + 1) % 2 == 1;
  }

  lemma XorByte(a: u8)
    ensures Xor(a, 0xFF) == 0xFF - a
  {
    Pow2Values();
    XorOnes(a, 8);
  }

  /** Writes the length and its complement to the front of the header. */
  method FillLength(header: array<u8>, len: nat)
    requires header.Length == 20
    modifies header
    ensures header[..8] == BigEndian(len) + Complement(BigEndian(len))
    ensures header[8..] == old(header[8..])
  {
    hide Xor, Pow2, BigEndian, Complement;
    header[0], header[1] := len / 0x100_0000 % 0x100, len / 0x1_0000 % 0x100;
    header[2], header[3] := len / 0x100 % 0x100, len % 0x100;
    XorByte(header[0]);
    XorByte(header[1]);
    XorByte(header[2]);
    XorByte(header[3]);
    header[4], header[5] := Xor(header[0], 0xFF), Xor(header[1], 0xFF);
    header[6], header[7] := Xor(header[2], 0xFF), Xor(header[3], 0xFF);
    LengthBytes(header[..8], len);
  }

  lemma LengthBytes(s: seq<u8>, len: nat)
    requires |s| == 8 && s[0] == len / 0x100_0000 % 0x100 && s[1] == len / 0x1_0000 % 0x100
    requires s[2] == len / 0x100 % 0x100 && s[3] == len % 0x100
    requires s[4] == 0xFF - s[0] && s[5] == 0xFF - s[1] && s[6] == 0xFF - s[2] && s[7] == 0xFF - s[3]
    ensures s == BigEndian(len) + Complement(BigEndian(len))
  {
    assert s[..4] == BigEndian(len);
    assert s[4..] == Complement(BigEndian(len));
  }

  /** Writes the size field, unless the size does not fit it. */
  method FillField(header: array<u8>, obuSize: nat)
    requires header.Length == 20 && obuSize < W32
    modifies header
    ensures header[..16] == old(header[..16])
    ensures header[16..] == if obuSize >= Pow128(4) then old(header[16..]) else Fixed(obuSize, 4)
  {
    var coded := UlebEncodeFixedSize(obuSize, 4, 4);
    if coded.Bytes? {
      var i := 0;
      while i < 4
        invariant i <= 4 && header[..16] == old(header[..16])
        invariant header[16..16 + i] == coded.bytes[..i]
      {
        header[16 + i] := coded.bytes[i];
        i := i + 1;
      }
      assert header[16..20] == coded.bytes[..4] == coded.bytes;
    }
  }

  lemma OneMore(dst: seq<u8>, left: seq<seq<u8>>, field: seq<u8>, annexb: bool)
    requires left != [] && |field| == 4
    ensures dst + Output(left, field, annexb)
         == dst + Packet(left[0], FieldAfter(field, |left[0]|, annexb), annexb)
                + Output(left[1..], FieldAfter(field, |left[0]|, annexb), annexb)
  {
    hide FieldAfter, Packet;
  }

  lemma ModSum(a: nat, b: nat)
    ensures (a % W32 + b) % W32 == (a + b) % W32
  {
  }

  /** Completes the header for a unit and appends both. */
  method WritePacket(header: array<u8>, body: seq<u8>, annexb: bool, dst: seq<u8>) returns (newDst: seq<u8>)
    requires header.Length == 20 && header[8..16] == MARK
    modifies header
    ensures header[8..16] == MARK && header[16..] == FieldAfter(old(header[16..]), |body|, annexb)
    ensures newDst == dst + Packet(body, header[16..], annexb)
  {
    hide Fixed, Pow128, BigEndian, Complement;
    var obuSize := if annexb then |body| % W32 else (|body| + 4) % W32;
    if !annexb {
      FillField(header, obuSize);
    }
    assert header[8..16] == header[..16][8..] == MARK;
    FillLength(header, (obuSize + 4) % W32);
    assert header[16..] == header[8..][8..] && header[8..16] == header[8..][..8];
    var headerSize := if annexb then 16 else 20;
    assert header[..headerSize] == header[..8] + header[8..16] + header[16..headerSize];
    assert header[16..headerSize] == if annexb then [] else header[16..];
    ghost var front := Front(|body|, annexb);
    assert header[..headerSize] == front + header[16..headerSize];
    newDst := dst + header[..headerSize] + body;
    assert newDst == dst + (front + header[16..headerSize] + body);
  }

  lemma UnitParsed(data: seq<u8>, annexb: bool)
    ensures match ParseHeaderAndSize(data, annexb)
            case ParseError => UnitSize(data, annexb) == 0
            case Parsed(h, payload, bytesRead) =>
              && 2 <= bytesRead <= |data|
              && if |data| - bytesRead < payload then UnitSize(data, annexb) == 0
                 else UnitSize(data, annexb) == bytesRead + payload && UnitType(data, annexb) == h.ty
  {
    hide ParseHeaderAndSize;
    if ParseHeaderAndSize(data, annexb).Parsed? {
      ParsedSize(data, annexb);
    }
  }

  /** One round of the frame loop, by what the unit at the front means. */
  lemma Round(data: seq<u8>, annexb: bool, seen: bool)
    ensures var n := UnitSize(data, annexb);
            var r := Rewrite(data, annexb, seen);
            if data == [] && !seen then r == Rewritten(0, [])
            else if n == 0 then r == Rewritten(-1, [])
            else
              && r.bodies != [] && r.bodies[0] == data[..n]
              && match Switch(UnitType(data, annexb), seen, n == |data|)
                 case Abort => r == Rewritten(-1, [data[..n]])
                 case Finish => r == Rewritten(0, [data[..n]])
                 case Go(seen') => Rewrite(data[n..], annexb, seen') == Rewritten(r.status, r.bodies[1..])
  {
    hide UnitSize, UnitType, Switch;
  }

  method FirstHeader() returns (header: array<u8>)
    ensures fresh(header) && header.Length == 20
    ensures header[8..16] == MARK && header[16..] == FIRST_FIELD
  {
    header := new u8[20] [0x00, 0x00, 0x01, 0x54, 0xFF, 0xFF, 0xFE, 0xAB, 0x00, 0x00,
                          0x00, 0x01, 0x41, 0x4D, 0x4C, 0x56, 0xD0, 0x82, 0x80, 0x00];
  }

  /** The branches on the unit type: the frame state after it, and whether the frame is
      complete or in error. */
  method ProcessType(ty: nat, seenBefore: bool, atEnd: bool) returns (error: bool, finished: bool, seen: bool)
    ensures match Switch(ty, seenBefore, atEnd)
            case Abort => error
            case Finish => !error && finished
            case Go(s) => !error && !finished && seen == s
  {
    error, finished, seen := false, false, seenBefore;
    if ty == OBU_TEMPORAL_DELIMITER {
      seen := false;
    } else if ty == OBU_SEQUENCE_HEADER {
      if seen {
        error := true;
      }
    } else if ty == OBU_FRAME_HEADER {
      if atEnd {
        finished := true;
      } else {
        seen := true;
      }
    } else if ty == OBU_REDUNDANT_FRAME_HEADER {
      if !seen {
        error := true;
      }
    } else if ty == OBU_FRAME {
      if seen {
        error := true;
      } else if atEnd {
        finished, seen := true, false;
      }
    } else if ty == OBU_TILE_GROUP {
      if !seen {
        error := true;
      } else if atEnd {
        finished, seen := true, false;
      }
    }
  }

  /** frameLen is the caller's count so far. */
  method ParserFrame(annexb: bool, data: seq<u8>, frameLen: nat)
    returns (status: int, dst: seq<u8>, newFrameLen: nat)
    requires frameLen < W32
    ensures status == Rewrite(data, annexb, false).status
    ensures dst == Output(Rewrite(data, annexb, false).bodies, FIRST_FIELD, annexb)
    ensures newFrameLen == (frameLen + Counted(Rewrite(data, annexb, false).bodies)) % W32
  {
    hide Rewrite, Output, ParseHeaderAndSize, UnitSize, UnitType, FieldAfter, Packet, Switch;
    var header := FirstHeader();
    status, dst, newFrameLen := 0, [], frameLen;
    ghost var all := Rewrite(data, annexb, false);
    ghost var left := all.bodies;
    var rest, seen, finished := data, false, false;
    assert [] + Output(left, FIRST_FIELD, annexb) == Output(left, FIRST_FIELD, annexb);
    while !finished
      invariant fresh(header) && header[8..16] == MARK && status == 0 && newFrameLen < W32
      invariant !finished ==> Rewrite(rest, annexb, seen) == Rewritten(all.status, left)
      invariant finished ==> left == [] && all.status == 0
      invariant dst + Output(left, header[16..], annexb) == Output(all.bodies, FIRST_FIELD, annexb)
      invariant (newFrameLen + Counted(left)) % W32 == (frameLen + Counted(all.bodies)) % W32
      decreases !finished, |rest|
    {
      Round(rest, annexb, seen);
      NoMore(dst, header[16..], annexb);
      if rest == [] && !seen {
        break;
      }
      UnitParsed(rest, annexb);
      var parsed := ReadObuHeaderAndSize(rest, annexb);
      if parsed == ParseError {
        return -1, dst, newFrameLen;
      }
      if |rest| - parsed.bytesRead < parsed.payload {
        return -1, dst, newFrameLen;
      }
      var n := parsed.bytesRead + parsed.payload;
      var ty := parsed.header.ty;
      OneMore(dst, left, header[16..], annexb);
      ModSum(newFrameLen + 20 + n, Counted(left[1..]));
      dst := WritePacket(header, rest[..n], annexb, dst);
      NoMore(dst, header[16..], annexb);
      newFrameLen := (newFrameLen + 20 + n) % W32;
      left := left[1..];
      var atEnd := n == |rest|;
      rest := rest[n..];
      var error;
      error, finished, seen := ProcessType(ty, seen, atEnd);
      if error {
        return -1, dst, newFrameLen;
      }
    }
    NoMore(dst, header[16..], annexb);
  }

  lemma NoMore(dst: seq<u8>, field: seq<u8>, annexb: bool)
    requires |field| == 4
    ensures dst + Output([], field, annexb) == dst
  {
  }

  // ----- what comes out

  function BigEndianValue(s: seq<u8>): nat
    requires |s| >= 4
  {
    0x100_0000 * (s[0] as nat) + 0x1_0000 * (s[1] as nat) + 0x100 * (s[2] as nat) + s[3]
  }

  /** The test for a header: the first two words add up to all ones, then the start code
      and the mark. */
  predicate FindAmlStartCode(s: seq<u8>)
    requires |s| >= 16
  {
    && (BigEndianValue(s) + BigEndianValue(s[4..])) % W32 == 0xFFFF_FFFF
    && s[8] == 0 && s[9] == 0 && s[10] == 0 && s[11] == 1
    && s[12] == 0x41 && s[13] == 0x4D && s[14] == 0x4C && s[15] == 0x56
  }

  lemma BigEndianRoundTrip(x: nat)
    requires x < W32
    ensures BigEndianValue(BigEndian(x)) == x
  {
    var a, b := x / 0x100, x / 0x1_0000;
    assert a / 0x100 == b && b / 0x100 == x / 0x100_0000;
  }

  lemma ComplementSum(s: seq<u8>)
    requires |s| == 4
    ensures BigEndianValue(s) + BigEndianValue(Complement(s)) == 0xFFFF_FFFF
  {
  }

  /** Every packet passes the test for a header, and its first word is the size of what
      follows its first twelve bytes. */
  lemma PacketRecognised(body: seq<u8>, field: seq<u8>, annexb: bool, t: seq<u8>)
    requires |field| == 4 && |body| + 8 < W32
    ensures |Packet(body, field, annexb)| >= 16
    ensures FindAmlStartCode(Packet(body, field, annexb) + t)
    ensures BigEndianValue(Packet(body, field, annexb) + t) == |Packet(body, field, annexb)| - 12
    ensures Packet(body, field, annexb)[8..16] == [0, 0, 0, 1, 'A' as int, 'M' as int, 'L' as int, 'V' as int]
  {
    hide BigEndian, Complement, BigEndianValue;
    var len := (ObuSize(|body|, annexb) + 4) % W32;
    var a := BigEndian(len);
    PacketFront(body, field, annexb, t);
    PacketSize(body, field, annexb);
    BigEndianRoundTrip(len);
    ComplementSum(a);
    hide Packet;
    FrontParts(Packet(body, field, annexb) + t, a, Complement(a));
  }

  lemma PacketFront(body: seq<u8>, field: seq<u8>, annexb: bool, t: seq<u8>)
    ensures |Packet(body, field, annexb) + t| >= 16
    ensures (Packet(body, field, annexb) + t)[..16] == Front(|body|, annexb)
  {
    hide Front;
  }

  lemma FrontParts(s: seq<u8>, a: seq<u8>, b: seq<u8>)
    requires |a| == 4 && |b| == 4 && |s| >= 16 && s[..16] == a + b + MARK
    ensures BigEndianValue(s) == BigEndianValue(a) && BigEndianValue(s[4..]) == BigEndianValue(b)
    ensures s[8..16] == MARK && s[8] == 0 && s[9] == 0 && s[10] == 0 && s[11] == 1
    ensures s[12] == 0x41 && s[13] == 0x4D && s[14] == 0x4C && s[15] == 0x56
  {
    assert s[..16][8..] == MARK;
    assert s[..16][..4] == a && s[..16][4..8] == b;
    assert s[..4] == a && s[4..8] == b && s[8..16] == MARK;
    assert forall i :: 0 <= i < 4 ==> s[..4][i] == s[i];
    assert forall i :: 0 <= i < 4 ==> s[4..8][i] == s[4..][i];
    assert forall i :: 0 <= i < 8 ==> s[8..16][i] == s[8..][i];
    assert s[8..][0] == 0 && s[8..][1] == 0 && s[8..][2] == 0 && s[8..][3] == 1;
    assert s[8..][4] == 0x41 && s[8..][5] == 0x4D && s[8..][6] == 0x4C && s[8..][7] == 0x56;
  }

  /** Outside Annex B the padded size field gives the unit's size plus its own four bytes
      exactly when that fits twenty-eight bits; a bigger unit finds whatever field the
      one before it left. */
  lemma FieldIff(field: seq<u8>, n: nat, t: seq<u8>)
    requires |field| == 4 && n + 4 < W32
    ensures Decode(FieldAfter(field, n, false) + t) == Value(n + 4, 4) <==> n + 4 < 0x1000_0000
  {
    hide Decode, Fixed, Pow128;
    Pow128Values();
    if n + 4 < 0x1000_0000 {
      FixedRoundTrip(n + 4, 4, t);
    } else {
      DecodeIff(field + t, n + 4, 4);
      CompleteIff(field + t, 4);
      if Complete((field + t)[..4]) {
        LebBound((field + t)[..4]);
      }
    }
  }

  /** Before any unit the field holds 336, four less than the length word of that header. */
  lemma FirstField()
    ensures Decode(FIRST_FIELD) == Value(0x150, 4)
  {
    assert FIRST_FIELD == Fixed(0x150, 4);
    hide Decode, Fixed;
    Pow128Values();
    FixedRoundTrip(0x150, 4, []);
    assert FIRST_FIELD + [] == FIRST_FIELD;
  }

  // ----- the whole output

  /** The units written are consecutive pieces of the input, from its beginning. */
  lemma {:induction false} BodiesArePrefix(data: seq<u8>, annexb: bool, seen: bool)
    ensures Concat(Rewrite(data, annexb, seen).bodies) <= data
    decreases |data|
  {
    hide Switch, UnitType, Rewrite, Concat;
    Round(data, annexb, seen);
    ConcatNone();
    var n := UnitSize(data, annexb);
    if n != 0 {
      var v := Switch(UnitType(data, annexb), seen, n == |data|);
      var bodies := Rewrite(data, annexb, seen).bodies;
      ConcatOne(bodies);
      if v.Go? {
        BodiesArePrefix(data[n..], annexb, v.seen);
      } else {
        assert bodies[1..] == [];
      }
      PrefixJoin(data, n, Concat(bodies[1..]));
    }
  }

  lemma PrefixJoin(data: seq<u8>, n: nat, s: seq<u8>)
    requires n <= |data| && s <= data[n..]
    ensures data[..n] + s <= data
  {
    assert data == data[..n] + data[n..];
  }

  lemma ConcatNone()
    ensures Concat([]) == []
  {
  }

  lemma ConcatOne(bodies: seq<seq<u8>>)
    requires bodies != []
    ensures Concat(bodies) == bodies[0] + Concat(bodies[1..])
  {
  }

  /** A frame rewritten without an error is rewritten to its end. */
  lemma {:induction false} SuccessIsComplete(data: seq<u8>, annexb: bool, seen: bool)
    requires Rewrite(data, annexb, seen).status == 0
    ensures Concat(Rewrite(data, annexb, seen).bodies) == data
    decreases |data|
  {
    hide UnitType, Rewrite, Concat, Switch;
    Round(data, annexb, seen);
    ConcatNone();
    var n := UnitSize(data, annexb);
    if n != 0 {
      var v := Switch(UnitType(data, annexb), seen, n == |data|);
      var bodies := Rewrite(data, annexb, seen).bodies;
      ConcatOne(bodies);
      FrontAndRest(data, n);
      if v.Go? {
        SuccessIsComplete(data[n..], annexb, v.seen);
      } else {
        FinishesAtEnd(UnitType(data, annexb), seen, n == |data|);
        assert bodies[1..] == [];
      }
    }
  }

  lemma FrontAndRest(data: seq<u8>, n: nat)
    requires n <= |data|
    ensures data[..n] + data[n..] == data
    ensures n == |data| ==> data[..n] + [] == data
  {
  }

  lemma FinishesAtEnd(ty: nat, seen: bool, atEnd: bool)
    ensures Switch(ty, seen, atEnd) == Finish ==> atEnd
  {
  }

  lemma {:induction false} OutputLength(bodies: seq<seq<u8>>, field: seq<u8>, annexb: bool)
    requires |field| == 4
    ensures |Output(bodies, field, annexb)| == Counted(bodies) - if annexb then 4 * |bodies| else 0
    decreases |bodies|
  {
    if bodies != [] {
      OutputLength(bodies[1..], FieldAfter(field, |bodies[0]|, annexb), annexb);
    }
  }

  /** The length reported is the number of bytes written, except in Annex B mode, where
      it counts four bytes a unit that are never written. */
  lemma FrameLenIff(bodies: seq<seq<u8>>, annexb: bool)
    ensures Counted(bodies) == |Output(bodies, FIRST_FIELD, annexb)| <==> !annexb || bodies == []
  {
    OutputLength(bodies, FIRST_FIELD, annexb);
  }

  // ----- taking the packets apart again

  /** Cuts the stream at the lengths the headers give. */
  function Unwrap(s: seq<u8>, annexb: bool): seq<seq<u8>>
    decreases |s|
  {
    var header := if annexb then 16 else 20;
    if |s| < header then []
    else
      var n := BigEndianValue(s) + 12;
      if n < header || n > |s| then [] else [s[header..n]] + Unwrap(s[n..], annexb)
  }

  /** Every unit is short enough for its length to fit the header. */
  predicate Small(bodies: seq<seq<u8>>) {
    forall b :: b in bodies ==> |b| + 8 < W32
  }

  lemma SmallParts(bodies: seq<seq<u8>>)
    requires Small(bodies) && bodies != []
    ensures |bodies[0]| + 8 < W32 && Small(bodies[1..])
    ensures [bodies[0]] + bodies[1..] == bodies
  {
  }

  /** The decoder's end can cut the output back into the units. */
  lemma {:induction false} UnwrapOutput(bodies: seq<seq<u8>>, field: seq<u8>, annexb: bool)
    requires |field| == 4 && Small(bodies)
    ensures Unwrap(Output(bodies, field, annexb), annexb) == bodies
    decreases |bodies|
  {
    OutputParts(bodies, field, annexb);
    if bodies == [] {
      assert Unwrap([], annexb) == [];
    } else {
      var f := FieldAfter(field, |bodies[0]|, annexb);
      SmallParts(bodies);
      hide *;
      PacketRecognised(bodies[0], f, annexb, Output(bodies[1..], f, annexb));
      PacketSize(bodies[0], f, annexb);
      UnwrapOutput(bodies[1..], f, annexb);
      UnwrapOne(Packet(bodies[0], f, annexb), Output(bodies[1..], f, annexb), annexb);
    }
  }

  lemma OutputParts(bodies: seq<seq<u8>>, field: seq<u8>, annexb: bool)
    requires |field| == 4
    ensures bodies == [] ==> Output(bodies, field, annexb) == []
    ensures bodies != [] ==>
              var f := FieldAfter(field, |bodies[0]|, annexb);
              Output(bodies, field, annexb) == Packet(bodies[0], f, annexb) + Output(bodies[1..], f, annexb)
  {
    hide Packet, FieldAfter;
  }

  lemma PacketSize(body: seq<u8>, field: seq<u8>, annexb: bool)
    requires |field| == 4
    ensures |Packet(body, field, annexb)| == |body| + if annexb then 16 else 20
    ensures Packet(body, field, annexb)[if annexb then 16 else 20..] == body
  {
  }

  lemma UnwrapOne(p: seq<u8>, t: seq<u8>, annexb: bool)
    requires |p| >= if annexb then 16 else 20
    requires BigEndianValue(p + t) == |p| - 12
    ensures Unwrap(p + t, annexb) == [p[if annexb then 16 else 20..]] + Unwrap(t, annexb)
  {
    hide BigEndianValue;
    var header := if annexb then 16 else 20;
    assert (p + t)[header..|p|] == p[header..];
    assert (p + t)[|p|..] == t;
  }

  /** From input to units again: what the routine writes unwraps to consecutive pieces of
      its input, to all of it when it reports success. */
  lemma RewriteThenUnwrap(data: seq<u8>, annexb: bool)
    requires |data| + 8 < W32
    ensures var r := Rewrite(data, annexb, false);
            var units := Unwrap(Output(r.bodies, FIRST_FIELD, annexb), annexb);
            Concat(units) <= data && (r.status == 0 ==> Concat(units) == data)
  {
    hide Rewrite, Output, Unwrap, Concat;
    var r := Rewrite(data, annexb, false);
    BodiesArePrefix(data, annexb, false);
    BodiesFit(r.bodies);
    assert Small(r.bodies);
    UnwrapOutput(r.bodies, FIRST_FIELD, annexb);
    if r.status == 0 {
      SuccessIsComplete(data, annexb, false);
    }
  }

  lemma {:induction false} BodiesFit(bodies: seq<seq<u8>>)
    ensures forall b :: b in bodies ==> |b| <= |Concat(bodies)|
    decreases |bodies|
  {
    if bodies != [] {
      BodiesFit(bodies[1..]);
      assert bodies == [bodies[0]] + bodies[1..];
    }
  }

  // ----- which frames are accepted

  datatype Units = Units(types: seq<nat>, whole: bool)

  /** The unit types of the input, and whether it divides into units without a rest. */
  function Split(data: seq<u8>, annexb: bool): Units
    decreases |data|
  {
    var n := UnitSize(data, annexb);
    if data == [] then Units([], true)
    else if n == 0 then Units([], false)
    else
      var rest := Split(data[n..], annexb);
      Units([UnitType(data, annexb)] + rest.types, rest.whole)
  }

  /** A frame is open when a frame header (3) came after the last temporal delimiter (2). */
  ghost predicate Open(types: seq<nat>) {
    exists i :: 0 <= i < |types| && types[i] == 3 && forall j :: i < j < |types| ==> types[j] != 2
  }

  /** A sequence header (1) and a whole frame (6) belong outside an open frame, tile groups
      (4) and repeated frame headers (7) inside one. */
  ghost predicate Fits(ty: nat, before: seq<nat>) {
    && (ty == 1 || ty == 6 ==> !Open(before))
    && (ty == 4 || ty == 7 ==> Open(before))
  }

  ghost predicate AllFit(before: seq<nat>, types: seq<nat>) {
    forall i :: 0 <= i < |types| ==> Fits(types[i], before + types[..i])
  }

  /** The end: no frame left open, or the last unit is a frame header or tile group. */
  ghost predicate EndsWell(before: seq<nat>, types: seq<nat>) {
    || !Open(before + types)
    || (types != [] && types[|types| - 1] in {3, 4})
  }

  lemma OpenSnoc(types: seq<nat>, ty: nat)
    ensures Open(types + [ty]) <==> ty == OBU_FRAME_HEADER || (Open(types) && ty != OBU_TEMPORAL_DELIMITER)
  {
    var s := types + [ty];
    if ty == OBU_FRAME_HEADER {
      assert s[|types|] == OBU_FRAME_HEADER;
    } else if ty != OBU_TEMPORAL_DELIMITER && Open(types) {
      var i :| 0 <= i < |types| && types[i] == OBU_FRAME_HEADER
               && forall j :: i < j < |types| ==> types[j] != OBU_TEMPORAL_DELIMITER;
      assert s[i] == OBU_FRAME_HEADER;
    }
    if Open(s) && ty != OBU_FRAME_HEADER {
      var i :| 0 <= i < |s| && s[i] == OBU_FRAME_HEADER
               && forall j :: i < j < |s| ==> s[j] != OBU_TEMPORAL_DELIMITER;
      assert types[i] == OBU_FRAME_HEADER;
      assert s[|types|] == ty;
      assert forall j :: i < j < |types| ==> types[j] == s[j];
    }
  }

  lemma EndsWellCons(before: seq<nat>, ty: nat, rest: seq<nat>)
    requires rest != []
    ensures EndsWell(before, [ty] + rest) <==> EndsWell(before + [ty], rest)
  {
    hide Open;
    assert before + ([ty] + rest) == (before + [ty]) + rest;
  }

  lemma AllFitCons(before: seq<nat>, ty: nat, rest: seq<nat>)
    ensures AllFit(before, [ty] + rest) <==> Fits(ty, before) && AllFit(before + [ty], rest)
  {
    hide Fits, AllFit;
    if AllFit(before, [ty] + rest) {
      FitsLater(before, ty, rest);
    }
    if Fits(ty, before) && AllFit(before + [ty], rest) {
      FitsEarlier(before, ty, rest);
    }
  }

  lemma AllFitNone(before: seq<nat>)
    ensures AllFit(before, [])
  {
  }

  lemma FitsLater(before: seq<nat>, ty: nat, rest: seq<nat>)
    requires AllFit(before, [ty] + rest)
    ensures Fits(ty, before) && AllFit(before + [ty], rest)
  {
    hide Fits;
    var all := [ty] + rest;
    assert Fits(all[0], before + all[..0]) && before + all[..0] == before;
    forall i | 0 <= i < |rest|
      ensures Fits(rest[i], (before + [ty]) + rest[..i])
    {
      assert Fits(all[i + 1], before + all[..i + 1]);
      assert before + all[..i + 1] == (before + [ty]) + rest[..i];
    }
  }

  lemma FitsEarlier(before: seq<nat>, ty: nat, rest: seq<nat>)
    requires Fits(ty, before) && AllFit(before + [ty], rest)
    ensures AllFit(before, [ty] + rest)
  {
    hide Fits;
    var all := [ty] + rest;
    forall i | 0 <= i < |all|
      ensures Fits(all[i], before + all[..i])
    {
      if i == 0 {
        assert before + all[..0] == before;
      } else {
        assert Fits(rest[i - 1], (before + [ty]) + rest[..i - 1]);
        assert before + all[..i] == (before + [ty]) + rest[..i - 1];
      }
    }
  }

  /** How one unit moves the frame on, in terms of the units before it. */
  lemma SwitchIff(ty: nat, before: seq<nat>, atEnd: bool)
    ensures var v := Switch(ty, Open(before), atEnd);
            && (v == Abort <==> !Fits(ty, before))
            && (v == Finish ==> atEnd && EndsWell(before, [ty]))
            && (v.Go? ==> v.seen == Open(before + [ty]) && (atEnd ==> (EndsWell(before, [ty]) <==> !v.seen)))
  {
    hide Open;
    OpenSnoc(before, ty);
  }

  lemma {:induction false} AcceptedFrom(data: seq<u8>, annexb: bool, before: seq<nat>)
    ensures var u := Split(data, annexb);
            Rewrite(data, annexb, Open(before)).status == 0 <==>
            u.whole && AllFit(before, u.types) && (if u.types == [] then !Open(before) else EndsWell(before, u.types))
    decreases |data|
  {
    AllFitNone(before);
    hide Open, Fits, AllFit, EndsWell, Switch, UnitType, Rewrite;
    Round(data, annexb, Open(before));
    var n := UnitSize(data, annexb);
    if n != 0 {
      var ty, rest := UnitType(data, annexb), Split(data[n..], annexb);
      SwitchIff(ty, before, n == |data|);
      AllFitNone(before + [ty]);
      AllFitCons(before, ty, rest.types);
      if rest.types != [] {
        EndsWellCons(before, ty, rest.types);
      }
      AcceptedFrom(data[n..], annexb, before + [ty]);
      if n == |data| {
        assert rest == Units([], true);
        assert [ty] + [] == [ty];
      } else if rest.types == [] {
        assert !rest.whole;
      }
    }
  }

  /** The result is success or minus one. */
  lemma {:induction false} TwoCodes(data: seq<u8>, annexb: bool, seen: bool)
    ensures Rewrite(data, annexb, seen).status in {0, -1}
    decreases |data|
  {
    hide UnitType, Rewrite, Switch;
    Round(data, annexb, seen);
    var n := UnitSize(data, annexb);
    if n != 0 {
      var v := Switch(UnitType(data, annexb), seen, n == |data|);
      if v.Go? {
        TwoCodes(data[n..], annexb, v.seen);
      }
    }
  }

  /** The routine reports success exactly for inputs that divide into units, each of a
      type that fits where it stands, and that end with no frame open or with a frame
      header or tile group. */
  lemma AcceptedIff(data: seq<u8>, annexb: bool)
    ensures var u := Split(data, annexb);
            Rewrite(data, annexb, false).status == 0 <==>
            u.whole && AllFit([], u.types) && EndsWell([], u.types)
    ensures Rewrite(data, annexb, false).status in {0, -1}
  {
    hide AllFit, Rewrite, Split;
    TwoCodes(data, annexb, false);
    AcceptedFrom(data, annexb, []);
    assert !Open([]);
    assert [] + Split(data, annexb).types == Split(data, annexb).types;
  }

  // ----- frames made of given units

  datatype RawUnit = RawUnit(header: Header, payload: seq<u8>)

  predicate Sized(u: RawUnit) {
    Valid(u.header) && u.header.hasSizeField && |u.payload| <= MAX_VALUE
  }

  function UnitOf(u: RawUnit): seq<u8>
    requires Sized(u)
  {
    UnitBytes(u.header, u.payload)
  }

  /** The bytes of each unit. */
  function Pieces(us: seq<RawUnit>): (ps: seq<seq<u8>>)
    requires forall u :: u in us ==> Sized(u)
    ensures |ps| == |us|
    decreases |us|
  {
    if us == [] then [] else [UnitOf(us[0])] + Pieces(us[1..])
  }

  function Types(us: seq<RawUnit>): (types: seq<nat>)
    ensures |types| == |us|
    decreases |us|
  {
    if us == [] then [] else [us[0].header.ty] + Types(us[1..])
  }

  /** The unit at the front of a frame is found whole. */
  lemma FrontUnit(u: RawUnit, t: seq<u8>)
    requires Sized(u)
    ensures var s := UnitOf(u);
            && UnitSize(s + t, false) == |s| > 0
            && UnitType(s + t, false) == u.header.ty
            && (s + t)[..|s|] == s && (s + t)[|s|..] == t
  {
    hide HeaderBytes, Encode, Size, ParseHeaderAndSize, UnitBytes;
    ParseRoundTrip(u.header, u.payload, t);
    UnitParsed(UnitOf(u) + t, false);
    UnitLength(u);
  }

  lemma UnitLength(u: RawUnit)
    requires Sized(u)
    ensures |UnitOf(u)| == Size(u.header) + |Encode(|u.payload|)| + |u.payload|
  {
  }

  lemma PiecesParts(us: seq<RawUnit>)
    requires us != [] && forall u :: u in us ==> Sized(u)
    ensures Sized(us[0]) && forall u :: u in us[1..] ==> Sized(u)
    ensures Pieces(us) == [UnitOf(us[0])] + Pieces(us[1..])
    ensures Concat(Pieces(us)) == UnitOf(us[0]) + Concat(Pieces(us[1..]))
  {
    hide Sized, UnitOf;
    ConcatOne(Pieces(us));
  }

  lemma {:induction false} SplitPieces(us: seq<RawUnit>)
    requires forall u :: u in us ==> Sized(u)
    ensures Split(Concat(Pieces(us)), false) == Units(Types(us), true)
    decreases |us|
  {
    hide Sized, UnitOf, UnitSize, UnitType, Concat;
    ConcatNone();
    if us != [] {
      PiecesParts(us);
      FrontUnit(us[0], Concat(Pieces(us[1..])));
      SplitPieces(us[1..]);
    }
  }

  /** What is written of such a frame are its first units, all of them on success. */
  lemma {:induction false} RewritePieces(us: seq<RawUnit>, seen: bool)
    requires forall u :: u in us ==> Sized(u)
    ensures var r := Rewrite(Concat(Pieces(us)), false, seen);
            r.bodies <= Pieces(us) && (r.status == 0 ==> r.bodies == Pieces(us))
    decreases |us|
  {
    hide Sized, UnitOf, UnitSize, UnitType, Concat, Rewrite, Switch;
    ConcatNone();
    var data := Concat(Pieces(us));
    Round(data, false, seen);
    if us != [] {
      PiecesParts(us);
      FrontUnit(us[0], Concat(Pieces(us[1..])));
      var n := UnitSize(data, false);
      var v := Switch(UnitType(data, false), seen, n == |data|);
      if v.Go? {
        RewritePieces(us[1..], v.seen);
      } else if v == Finish {
        FinishesAtEnd(UnitType(data, false), seen, n == |data|);
        NothingAfter(us);
      }
    } else {
      EmptyUnit();
    }
  }

  lemma EmptyUnit()
    ensures UnitSize([], false) == 0
  {
  }

  /** A frame whose first unit is all of it has no other. */
  lemma NothingAfter(us: seq<RawUnit>)
    requires us != [] && forall u :: u in us ==> Sized(u)
    requires |Concat(Pieces(us))| == |UnitOf(us[0])|
    ensures us[1..] == []
  {
    hide Sized, UnitOf, Concat;
    PiecesParts(us);
    if us[1..] != [] {
      PiecesParts(us[1..]);
      FrontUnit(us[1], []);
    }
  }

  /** A frame made of units with size fields is rewritten unit by unit, with success exactly
      when every type fits where it stands and the frame ends well. */
  lemma FrameAccepted(us: seq<RawUnit>)
    requires forall u :: u in us ==> Sized(u)
    ensures var r := Rewrite(Concat(Pieces(us)), false, false);
            && (r.status == 0 <==> AllFit([], Types(us)) && EndsWell([], Types(us)))
            && r.bodies <= Pieces(us)
            && (r.status == 0 ==> r.bodies == Pieces(us))
  {
    hide AllFit, EndsWell, Rewrite, Split, Pieces, Types;
    AcceptedIff(Concat(Pieces(us)), false);
    SplitPieces(us);
    RewritePieces(us, false);
  }

  /** The usual frame, byte by byte: temporal delimiter, sequence header, whole frame. */
  lemma UsualFrame(header: seq<u8>, frame: seq<u8>)
    requires |header| <= MAX_VALUE && |frame| <= MAX_VALUE
    ensures var bodies := [[0x12, 0x00], [0x0A] + Encode(|header|) + header, [0x32] + Encode(|frame|) + frame];
            Rewrite(bodies[0] + bodies[1] + bodies[2], false, false) == Rewritten(0, bodies)
  {
    hide *;
    var us := [RawUnit(Header(2, true, NoExtension), []), RawUnit(Header(1, true, NoExtension), header),
               RawUnit(Header(6, true, NoExtension), frame)];
    var bodies := [[0x12, 0x00], [0x0A] + Encode(|header|) + header, [0x32] + Encode(|frame|) + frame];
    UsualPieces(us, header, frame);
    UsualTypes(us);
    FrameAccepted(us);
  }

  lemma UsualPieces(us: seq<RawUnit>, header: seq<u8>, frame: seq<u8>)
    requires |header| <= MAX_VALUE && |frame| <= MAX_VALUE
    requires us == [RawUnit(Header(2, true, NoExtension), []), RawUnit(Header(1, true, NoExtension), header),
                    RawUnit(Header(6, true, NoExtension), frame)]
    ensures forall u :: u in us ==> Sized(u)
    ensures var bodies := [[0x12, 0x00], [0x0A] + Encode(|header|) + header, [0x32] + Encode(|frame|) + frame];
            Pieces(us) == bodies && Concat(bodies) == bodies[0] + bodies[1] + bodies[2]
  {
    hide *;
    EncodeNone();
    PlainUnit(us[0]);
    PlainUnit(us[1]);
    PlainUnit(us[2]);
    AllThree(us);
    ThreePieces(us);
  }

  lemma EncodeNone()
    ensures Encode(0) == [0]
  {
  }

  lemma AllThree(us: seq<RawUnit>)
    requires |us| == 3 && Sized(us[0]) && Sized(us[1]) && Sized(us[2])
    ensures forall u :: u in us ==> Sized(u)
  {
    hide Sized;
  }

  lemma ThreePieces(us: seq<RawUnit>)
    requires |us| == 3 && forall u :: u in us ==> Sized(u)
    ensures Pieces(us) == [UnitOf(us[0]), UnitOf(us[1]), UnitOf(us[2])]
    ensures Concat(Pieces(us)) == UnitOf(us[0]) + UnitOf(us[1]) + UnitOf(us[2])
  {
    hide Sized, UnitOf, Pieces, Concat;
    var rest, last := us[1..], us[2..];
    PiecesParts(us);
    PiecesParts(rest);
    PiecesParts(last);
    assert rest[1..] == last && last[1..] == [];
    NoPieces();
    ConcatNone();
    assert UnitOf(us[2]) + [] == UnitOf(us[2]);
    assert UnitOf(us[0]) + (UnitOf(us[1]) + UnitOf(us[2])) == UnitOf(us[0]) + UnitOf(us[1]) + UnitOf(us[2]);
  }

  lemma NoPieces()
    ensures Pieces([]) == []
  {
  }

  /** A unit without an extension, in bytes. */
  lemma PlainUnit(u: RawUnit)
    requires u.header.extension == NoExtension && u.header.hasSizeField && u.header.ty in {1, 2, 6}
    requires |u.payload| <= MAX_VALUE
    ensures Sized(u) && UnitOf(u) == [8 * u.header.ty + 2] + Encode(|u.payload|) + u.payload
    ensures u.payload == [] ==> UnitOf(u) == [8 * u.header.ty + 2] + Encode(0)
    ensures u.payload == [] && Encode(0) == [0] ==> UnitOf(u) == [8 * u.header.ty + 2, 0]
  {
    hide Encode;
  }

  lemma ThreeTypes(us: seq<RawUnit>)
    requires |us| == 3
    ensures Types(us) == [us[0].header.ty, us[1].header.ty, us[2].header.ty]
  {
    var rest, last := us[1..], us[2..];
    assert rest[1..] == last && last[1..] == [];
    assert Types(last) == [last[0].header.ty] + Types([]);
    assert Types(rest) == [rest[0].header.ty] + Types(last);
  }

  lemma UsualTypes(us: seq<RawUnit>)
    requires |us| == 3 && us[0].header.ty == 2 && us[1].header.ty == 1 && us[2].header.ty == 6
    ensures AllFit([], Types(us)) && EndsWell([], Types(us))
  {
    ThreeTypes(us);
    hide Types;
    forall i | 0 <= i < 3
      ensures Fits([2, 1, 6][i], [] + [2, 1, 6][..i])
    {
      assert forall j :: 0 <= j < i ==> ([] + [2, 1, 6][..i])[j] == [2, 1, 6][j];
    }
  }
}
