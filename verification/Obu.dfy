/** The header of an AV1 open bitstream unit (sections 5.3.2 and 5.3.3 of the AV1
    bitstream specification), read bit by bit, and the size fields around it. */
module Obu {
  import opened Words
  import opened Leb128

  const OBU_SEQUENCE_HEADER := 1
  const OBU_TEMPORAL_DELIMITER := 2
  const OBU_FRAME_HEADER := 3
  const OBU_TILE_GROUP := 4
  const OBU_METADATA := 5
  const OBU_FRAME := 6
  const OBU_REDUNDANT_FRAME_HEADER := 7
  const OBU_TILE_LIST := 8
  const OBU_PADDING := 15

  predicate ValidObuType(ty: int) {
    ty in {OBU_SEQUENCE_HEADER, OBU_TEMPORAL_DELIMITER, OBU_FRAME_HEADER, OBU_TILE_GROUP, OBU_METADATA,
           OBU_FRAME, OBU_REDUNDANT_FRAME_HEADER, OBU_TILE_LIST, OBU_PADDING}
  }

  /** The extension as temporal and spatial layer. */
  datatype Extension = Layers(temporal: nat, spatial: nat) | NoExtension

  datatype Header = Header(ty: nat, hasSizeField: bool, extension: Extension)

  datatype MaybeHeader = SomeHeader(header: Header) | BadHeader

  function Size(h: Header): (n: nat)
    ensures n <= 2
  {
    if h.extension.Layers? then 2 else 1
  }

  predicate Valid(h: Header) {
    && ValidObuType(h.ty)
    && (h.extension.Layers? ==> h.extension.temporal < 8 && h.extension.spatial < 4)
  }

  // ----- the bit reader

  function BitAt(data: seq<u8>, off: nat): (b: nat)
    requires off / 8 < |data|
    ensures b < 2
  {
    data[off / 8] / Pow2(7 - off % 8) % 2
  }

  /** n bits from a position, the first one on top. */
  function Literal(data: seq<u8>, off: nat, n: nat): (v: nat)
    requires off + n <= 8 * |data|
    ensures v < Pow2(n)
    decreases n
  {
    if n == 0 then 0 else (if BitAt(data, off) == 1 then Pow2(n - 1) else 0) + Literal(data, off + 1, n - 1)
  }

  class BitReader {
    const data: seq<u8>
    var bitOffset: nat

    constructor (data: seq<u8>)
      ensures this.data == data && bitOffset == 0
    {
      this.data, bitOffset := data, 0;
    }

    /** At the end of the buffer a read yields zero and stays where it is. */
    method ReadBit() returns (bit: nat)
      modifies this
      ensures old(bitOffset) / 8 < |data| ==> bit == BitAt(data, old(bitOffset)) && bitOffset == old(bitOffset) + 1
      ensures old(bitOffset) / 8 >= |data| ==> bit == 0 && bitOffset == old(bitOffset)
    {
      var off := bitOffset;
      var p, q := off / 8, 7 - off % 8;
      if p < |data| {
        bit := data[p] / Pow2(q) % 2;
        bitOffset := off + 1;
      } else {
        bit := 0;
      }
    }

    method ReadLiteral(bits: nat) returns (value: nat)
      requires bitOffset + bits <= 8 * |data|
      modifies this
      ensures value == Literal(data, old(bitOffset), bits) && bitOffset == old(bitOffset) + bits
    {
      hide BitAt, Pow2;
      value := 0;
      var left: nat := bits;
      while left > 0
        invariant left <= bits && bitOffset == old(bitOffset) + bits - left
        invariant value + Literal(data, bitOffset, left) == Literal(data, old(bitOffset), bits)
      {
        left := left - 1;
        var bit := ReadBit();
        value := value + if bit == 1 then Pow2(left) else 0;
      }
    }
  }

  // ----- the header

  /** What the one or two header bytes say. */
  function HeaderOf(data: seq<u8>, annexb: bool): MaybeHeader {
    if data == [] then BadHeader
    else
      var b := data[0];
      var ty, hasExtension, hasSizeField := b / 8 % 16, b / 4 % 2 == 1, b / 2 % 2 == 1;
      if b / 128 != 0 || !ValidObuType(ty) || (!hasSizeField && !annexb) || b % 2 != 0 then BadHeader
      else if !hasExtension then SomeHeader(Header(ty, hasSizeField, NoExtension))
      else if |data| == 1 || data[1] % 8 != 0 then BadHeader
      else SomeHeader(Header(ty, hasSizeField, Layers(data[1] / 32, data[1] / 8 % 4)))
  }

  /** Which first bytes begin a header, in numbers: a clear top and bottom bit, one of the
      nine types, a size field outside Annex B, and a clean extension byte when announced. */
  lemma HeaderIff(b: u8, t: seq<u8>, annexb: bool)
    ensures HeaderOf([b] + t, annexb).SomeHeader? <==>
              && b < 128 && b % 2 == 0
              && b / 8 in {1, 2, 3, 4, 5, 6, 7, 8, 15}
              && (b / 2 % 2 == 1 || annexb)
              && (b / 4 % 2 == 1 ==> t != [] && t[0] % 8 == 0)
    ensures HeaderOf([b] + t, annexb).SomeHeader? ==>
              var h := HeaderOf([b] + t, annexb).header;
              && h.ty == b / 8
              && (h.hasSizeField <==> b / 2 % 2 == 1)
              && h.extension == (if b / 4 % 2 == 1 then Layers(t[0] / 32, t[0] / 8 % 4) else NoExtension)
  {
    assert b < 128 ==> b / 8 < 16;
    assert t != [] ==> ([b] + t)[1] == t[0];
  }

  /** The bytes of a header. */
  function HeaderBytes(h: Header): (s: seq<u8>)
    requires Valid(h)
    ensures |s| == Size(h)
  {
    var b := 8 * h.ty + (if h.extension.Layers? then 4 else 0) + if h.hasSizeField then 2 else 0;
    if h.extension.Layers? then [b, 32 * h.extension.temporal + 8 * h.extension.spatial] else [b]
  }

  /** Reading a header back gives it again, whatever follows. */
  lemma HeaderRoundTrip(h: Header, annexb: bool, t: seq<u8>)
    requires Valid(h) && (h.hasSizeField || annexb)
    ensures HeaderOf(HeaderBytes(h) + t, annexb) == SomeHeader(h)
  {
    var s := HeaderBytes(h) + t;
    FirstByteFields(h.ty, if h.extension.Layers? then 1 else 0, if h.hasSizeField then 1 else 0);
    if h.extension.Layers? {
      SecondByteFields(h.extension.temporal, h.extension.spatial);
    }
    hide ValidObuType;
  }

  lemma FirstByteFields(ty: nat, extension: nat, size: nat)
    requires ty < 16 && extension < 2 && size < 2
    ensures var b := 8 * ty + 4 * extension + 2 * size;
            b / 128 == 0 && b / 8 % 16 == ty && b / 4 % 2 == extension && b / 2 % 2 == size && b % 2 == 0
  {
    var b := 8 * ty + 4 * extension + 2 * size;
    assert b / 8 == ty;
    assert b / 4 == 2 * ty + extension;
    assert b / 2 == 4 * ty + 2 * extension + size;
  }

  lemma SecondByteFields(temporal: nat, spatial: nat)
    requires temporal < 8 && spatial < 4
    ensures var b := 32 * temporal + 8 * spatial; b / 32 == temporal && b / 8 % 4 == spatial && b % 8 == 0
  {
    var b := 32 * temporal + 8 * spatial;
    assert b / 8 == 4 * temporal + spatial;
  }

  /** An accepted header is the only reading of its bytes. */
  lemma HeaderOnly(data: seq<u8>, annexb: bool, h: Header)
    requires HeaderOf(data, annexb) == SomeHeader(h)
    ensures Valid(h) && Size(h) <= |data| && (h.hasSizeField || annexb)
    ensures data[..Size(h)] == HeaderBytes(h)
  {
    FieldsOfByte(data[0]);
    if h.extension.Layers? {
      FieldsOfExtension(data[1]);
      assert data[..2] == [data[0], data[1]];
    } else {
      assert data[..1] == [data[0]];
    }
    hide ValidObuType;
  }

  lemma FieldsOfExtension(b: u8)
    requires b % 8 == 0
    ensures b == 32 * (b / 32) + 8 * (b / 8 % 4) && b / 32 < 8
  {
    assert b / 32 == b / 8 / 4;
  }

  lemma FieldsOfByte(b: u8)
    ensures b / 128 == 0 && b % 2 == 0 ==> b == 8 * (b / 8 % 16) + 4 * (b / 4 % 2) + 2 * (b / 2 % 2)
  {
    LowBits(b);
    assert b == 8 * (b / 8) + b % 8;
  }

  lemma Pow2Small()
    ensures Pow2(0) == 1 && Pow2(1) == 2 && Pow2(2) == 4 && Pow2(3) == 8
    ensures Pow2(4) == 16 && Pow2(5) == 32 && Pow2(6) == 64 && Pow2(7) == 128
  {
  }

  lemma TwoBits(data: seq<u8>, off: nat)
    requires off + 2 <= 8 * |data|
    ensures Literal(data, off, 2) == 2 * BitAt(data, off) + BitAt(data, off + 1)
  {
    hide BitAt;
    Pow2Small();
    assert Literal(data, off + 1, 1) == BitAt(data, off + 1) + Literal(data, off + 2, 0);
  }

  lemma ThreeBits(data: seq<u8>, off: nat)
    requires off + 3 <= 8 * |data|
    ensures Literal(data, off, 3) == 4 * BitAt(data, off) + 2 * BitAt(data, off + 1) + BitAt(data, off + 2)
  {
    hide BitAt;
    Pow2Small();
    TwoBits(data, off + 1);
  }

  lemma FourBits(data: seq<u8>, off: nat)
    requires off + 4 <= 8 * |data|
    ensures Literal(data, off, 4)
         == 8 * BitAt(data, off) + 4 * BitAt(data, off + 1) + 2 * BitAt(data, off + 2) + BitAt(data, off + 3)
  {
    hide BitAt;
    Pow2Small();
    ThreeBits(data, off + 1);
  }

  /** The bits of a byte, the first one on top. */
  lemma BitsOfByte(data: seq<u8>, p: nat)
    requires p < |data|
    ensures BitAt(data, 8 * p) == data[p] / 128 % 2 && BitAt(data, 8 * p + 1) == data[p] / 64 % 2
    ensures BitAt(data, 8 * p + 2) == data[p] / 32 % 2 && BitAt(data, 8 * p + 3) == data[p] / 16 % 2
    ensures BitAt(data, 8 * p + 4) == data[p] / 8 % 2 && BitAt(data, 8 * p + 5) == data[p] / 4 % 2
    ensures BitAt(data, 8 * p + 6) == data[p] / 2 % 2 && BitAt(data, 8 * p + 7) == data[p] % 2
  {
    hide *;
    Pow2Small();
    BitOf(data, p, 0);
    BitOf(data, p, 1);
    BitOf(data, p, 2);
    BitOf(data, p, 3);
    BitOf(data, p, 4);
    BitOf(data, p, 5);
    BitOf(data, p, 6);
    BitOf(data, p, 7);
  }

  lemma BitOf(data: seq<u8>, p: nat, j: nat)
    requires p < |data| && j < 8
    ensures BitAt(data, 8 * p + j) == data[p] / Pow2(7 - j) % 2
  {
    hide Pow2;
    assert (8 * p + j) / 8 == p && (8 * p + j) % 8 == j;
  }

  lemma HighBits(b: u8)
    ensures b / 128 % 2 == b / 128
    ensures 4 * (b / 128 % 2) + 2 * (b / 64 % 2) + b / 32 % 2 == b / 32
  {
    var c := b / 32;
    assert b / 64 == c / 2 && b / 128 == c / 2 / 2;
  }

  lemma LowFour(c: nat)
    ensures c % 16 == 2 * (c / 2 % 8) + c % 2
  {
  }

  lemma LowThree(c: nat)
    ensures c % 8 == 2 * (c / 2 % 4) + c % 2
  {
  }

  lemma LowTwo(c: nat)
    ensures c % 4 == 2 * (c / 2 % 2) + c % 2
  {
  }

  lemma FourDigits(c: nat)
    ensures c % 16 == 8 * (c / 2 / 2 / 2 % 2) + 4 * (c / 2 / 2 % 2) + 2 * (c / 2 % 2) + c % 2
  {
    LowFour(c);
    ThreeDigits(c / 2);
  }

  lemma ThreeDigits(c: nat)
    ensures c % 8 == 4 * (c / 2 / 2 % 2) + 2 * (c / 2 % 2) + c % 2
  {
    LowThree(c);
    LowTwo(c / 2);
  }

  lemma MiddleBits(b: u8)
    ensures 8 * (b / 64 % 2) + 4 * (b / 32 % 2) + 2 * (b / 16 % 2) + b / 8 % 2 == b / 8 % 16
    ensures 2 * (b / 16 % 2) + b / 8 % 2 == b / 8 % 4
  {
    FourDigits(b / 8);
    LowTwo(b / 8);
    Halvings(b / 8);
    assert b / 16 == b / 8 / 2 && b / 32 == b / 8 / 4 && b / 64 == b / 8 / 8;
  }

  lemma Halvings(c: nat)
    ensures c / 2 / 2 == c / 4 && c / 2 / 2 / 2 == c / 8
  {
  }

  lemma LowBits(b: u8)
    ensures 4 * (b / 4 % 2) + 2 * (b / 2 % 2) + b % 2 == b % 8
  {
    ThreeDigits(b);
    Halvings(b);
  }

  /** The fields of the header bytes as the bit reader comes upon them. */
  lemma FieldsInOrder(data: seq<u8>)
    requires data != []
    ensures BitAt(data, 0) == data[0] / 128 && Literal(data, 1, 4) == data[0] / 8 % 16
    ensures BitAt(data, 5) == data[0] / 4 % 2 && BitAt(data, 6) == data[0] / 2 % 2 && BitAt(data, 7) == data[0] % 2
    ensures |data| > 1 ==>
              && Literal(data, 8, 3) == data[1] / 32
              && Literal(data, 11, 2) == data[1] / 8 % 4
              && Literal(data, 13, 3) == data[1] % 8
  {
    hide BitAt, Literal;
    BitsOfByte(data, 0);
    HighBits(data[0]);
    MiddleBits(data[0]);
    FourBits(data, 1);
    if |data| > 1 {
      BitsOfByte(data, 1);
      HighBits(data[1]);
      MiddleBits(data[1]);
      LowBits(data[1]);
      ThreeBits(data, 8);
      TwoBits(data, 11);
      ThreeBits(data, 13);
    }
  }

  /** Reads the header field by field; the fields are those of HeaderOf. */
  method ReadObuHeader(rb: BitReader, annexb: bool) returns (r: MaybeHeader)
    requires rb.bitOffset == 0
    modifies rb
    ensures r == HeaderOf(rb.data, annexb)
  {
    hide BitAt, Literal;
    if |rb.data| < 1 {
      return BadHeader;
    }
    FieldsInOrder(rb.data);
    var forbidden := rb.ReadBit();
    if forbidden != 0 {
      return BadHeader;
    }
    var ty := rb.ReadLiteral(4);
    if !ValidObuType(ty) {
      return BadHeader;
    }
    var hasExtension := rb.ReadBit();
    var hasSizeField := rb.ReadBit();
    if hasSizeField == 0 && !annexb {
      return BadHeader;
    }
    var reserved := rb.ReadBit();
    if reserved != 0 {
      return BadHeader;
    }
    if hasExtension == 0 {
      return SomeHeader(Header(ty, hasSizeField == 1, NoExtension));
    }
    if |rb.data| == 1 {
      return BadHeader;
    }
    var temporal := rb.ReadLiteral(3);
    var spatial := rb.ReadLiteral(2);
    var reserved3 := rb.ReadLiteral(3);
    if reserved3 != 0 {
      return BadHeader;
    }
    r := SomeHeader(Header(ty, hasSizeField == 1, Layers(temporal, spatial)));
  }

  // ----- header and size together

  /** What comes before the payload: the header, the payload size, and how many bytes all
      that took. */
  datatype Parsed = Parsed(header: Header, payload: nat, bytesRead: nat) | ParseError

  function ParseHeaderAndSize(data: seq<u8>, annexb: bool): Parsed {
    var outer := if annexb then Decode(data) else Value(0, 0);
    if outer == Malformed || outer.length > |data| then ParseError
    else
      match HeaderOf(data[outer.length..], annexb)
      case BadHeader => ParseError
      case SomeHeader(h) =>
        if !h.hasSizeField then
          if outer.value < Size(h) then ParseError
          else Parsed(h, outer.value - Size(h), outer.length + Size(h))
        else if outer.length + Size(h) > |data| then ParseError
        else
          match Decode(data[outer.length + Size(h)..])
          case Malformed => ParseError
          case Value(payload, length) => Parsed(h, payload, outer.length + Size(h) + length)
  }

  method ReadObuHeaderAndSize(data: seq<u8>, annexb: bool) returns (r: Parsed)
    ensures r == ParseHeaderAndSize(data, annexb)
  {
    hide HeaderOf, Decode, Size;
    var obuSize, lengthFieldSize := 0, 0;
    if annexb {
      var outer := UlebDecode(data);
      if outer == Malformed || outer.value > MAX_VALUE {
        DecodeWithin(data);
        return ParseError;
      }
      DecodeWithin(data);
      obuSize, lengthFieldSize := outer.value, outer.length;
    }
    var rb := new BitReader(data[lengthFieldSize..]);
    var header := ReadObuHeader(rb, annexb);
    if header == BadHeader {
      return ParseError;
    }
    var h := header.header;
    HeaderOnly(data[lengthFieldSize..], annexb, h);
    if !h.hasSizeField {
      if obuSize < Size(h) {
        return ParseError;
      }
      return Parsed(h, obuSize - Size(h), lengthFieldSize + Size(h));
    }
    var payload := UlebDecode(data[lengthFieldSize + Size(h)..]);
    if payload == Malformed || payload.value > MAX_VALUE {
      DecodeWithin(data[lengthFieldSize + Size(h)..]);
      return ParseError;
    }
    r := Parsed(h, payload.value, lengthFieldSize + Size(h) + payload.length);
  }

  lemma DecodeWithin(s: seq<u8>)
    ensures Decode(s).Value? ==> 0 < Decode(s).length <= |s| && Decode(s).value <= MAX_VALUE
  {
  }

  /** A parsed unit takes at least two bytes before its payload and never more than there
      are. */
  lemma ParsedSize(data: seq<u8>, annexb: bool)
    requires ParseHeaderAndSize(data, annexb).Parsed?
    ensures 2 <= ParseHeaderAndSize(data, annexb).bytesRead <= |data|
    ensures Valid(ParseHeaderAndSize(data, annexb).header)
  {
    hide HeaderOf, Decode;
    var p := ParseHeaderAndSize(data, annexb);
    var n := if annexb then Decode(data).length else 0;
    DecodeWithin(data);
    HeaderOnly(data[n..], annexb, p.header);
    if p.header.hasSizeField {
      DecodeWithin(data[n + Size(p.header)..]);
    }
  }

  /** A unit of the low-overhead format. */
  function UnitBytes(h: Header, payload: seq<u8>): seq<u8>
    requires Valid(h)
  {
    HeaderBytes(h) + Encode(|payload|) + payload
  }

  lemma UnitParts(h: Header, payload: seq<u8>, t: seq<u8>)
    requires Valid(h)
    ensures var s := UnitBytes(h, payload) + t;
            var size := Encode(|payload|);
            && s == HeaderBytes(h) + (size + payload + t)
            && |s| >= Size(h) + |size| + |payload|
            && s[Size(h)..] == size + (payload + t)
            && s[Size(h) + |size|..] == payload + t
            && s[Size(h) + |size|..][..|payload|] == payload
  {
    hide HeaderBytes, Encode, Size;
    var s := UnitBytes(h, payload) + t;
    var size := Encode(|payload|);
    assert s == HeaderBytes(h) + (size + payload + t);
    assert s == (HeaderBytes(h) + size) + (payload + t);
  }

  /** Parsing a serialised unit finds its header and its payload, whatever follows. */
  lemma ParseRoundTrip(h: Header, payload: seq<u8>, t: seq<u8>)
    requires Valid(h) && h.hasSizeField && |payload| <= MAX_VALUE
    ensures ParseHeaderAndSize(UnitBytes(h, payload) + t, false)
         == Parsed(h, |payload|, Size(h) + |Encode(|payload|)|)
    ensures Size(h) + |Encode(|payload|)| + |payload| <= |UnitBytes(h, payload) + t|
    ensures (UnitBytes(h, payload) + t)[Size(h) + |Encode(|payload|)|..][..|payload|] == payload
  {
    var s := UnitBytes(h, payload) + t;
    var size := Encode(|payload|);
    UnitParts(h, payload, t);
    hide HeaderOf, HeaderBytes, Decode, Encode, Size, UnitBytes;
    HeaderRoundTrip(h, false, size + payload + t);
    RoundTrip(|payload|, payload + t);
    assert s[0..] == s;
  }

  /** A unit of Annex B (section 5.3 with the length of annex B in front): the size field
      inside may be left out. */
  function AnnexBBytes(h: Header, payload: seq<u8>): seq<u8>
    requires Valid(h)
  {
    var unit := if h.hasSizeField then UnitBytes(h, payload) else HeaderBytes(h) + payload;
    Encode(|unit|) + unit
  }

  /** The same round trip in Annex B, with and without the size field. */
  lemma AnnexBRoundTrip(h: Header, payload: seq<u8>, t: seq<u8>)
    requires Valid(h) && |payload| + 10 <= MAX_VALUE
    ensures var s := AnnexBBytes(h, payload);
            && ParseHeaderAndSize(s + t, true) == Parsed(h, |payload|, |s| - |payload|)
            && |payload| <= |s| && (s + t)[|s| - |payload|..][..|payload|] == payload
  {
    hide HeaderOf, HeaderBytes, Decode, Encode, Size, UnitBytes, ParseHeaderAndSize;
    AnnexBParts(h, payload);
    var size := if h.hasSizeField then Encode(|payload|) else [];
    var unit := HeaderBytes(h) + size + payload;
    var s := AnnexBBytes(h, payload);
    SmallSize(|payload|);
    assert s + t == Encode(|unit|) + (unit + t);
    RoundTrip(|unit|, unit + t);
    assert unit + t == HeaderBytes(h) + (size + payload + t);
    HeaderRoundTrip(h, true, size + payload + t);
    assert size + payload + t == size + (payload + t);
    if h.hasSizeField {
      RoundTrip(|payload|, payload + t);
    }
    AnnexBParsed(h, Encode(|unit|), HeaderBytes(h), size, payload + t, |unit|, |payload|);
    assert s + t == Encode(|unit|) + (HeaderBytes(h) + (size + (payload + t)));
    assert s + t == (Encode(|unit|) + HeaderBytes(h) + size) + (payload + t);
  }

  lemma AnnexBParts(h: Header, payload: seq<u8>)
    requires Valid(h)
    ensures var size := if h.hasSizeField then Encode(|payload|) else [];
            var unit := HeaderBytes(h) + size + payload;
            AnnexBBytes(h, payload) == Encode(|unit|) + unit
  {
    hide HeaderBytes, Encode;
    assert HeaderBytes(h) + [] + payload == HeaderBytes(h) + payload;
  }

  /** Parsing in Annex B, field by field. */
  lemma AnnexBParsed(h: Header, outer: seq<u8>, header: seq<u8>, size: seq<u8>, rest: seq<u8>, n: nat, payload: nat)
    requires Decode(outer + (header + (size + rest))) == Value(n, |outer|)
    requires |header| == Size(h) && HeaderOf(header + (size + rest), true) == SomeHeader(h)
    requires if h.hasSizeField then Decode(size + rest) == Value(payload, |size|) else size == []
    requires !h.hasSizeField ==> n == Size(h) + payload
    ensures ParseHeaderAndSize(outer + (header + (size + rest)), true)
         == Parsed(h, payload, |outer| + |header| + |size|)
  {
    hide Decode, HeaderOf, Size;
    var s := outer + (header + (size + rest));
    assert s[|outer|..] == header + (size + rest);
    assert s[|outer| + |header|..] == size + rest;
  }

  lemma SmallSize(n: nat)
    requires n <= MAX_VALUE
    ensures |Encode(n)| <= 8
  {
    EncodeShort(n);
  }
}
