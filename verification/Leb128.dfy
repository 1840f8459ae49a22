/** LEB128 numbers as AV1 uses them (section 4.10.5 of the AV1 bitstream specification):
    seven bits a byte, least significant first, the top bit announcing another byte. */
module Leb128 {
  import opened Arithmetic
  import opened Words

  const MAX_SIZE := 8
  const MAX_VALUE := 0xFFFF_FFFF

  datatype Decoded = Value(value: nat, length: nat) | Malformed

  datatype Encoded = Bytes(bytes: seq<u8>) | Refused

  /** The value of a byte string read seven bits at a time. */
  function Leb(s: seq<u8>): (v: nat)
    decreases |s|
  {
    if s == [] then 0 else s[0] % 128 + 128 * Leb(s[1..])
  }

  /** Where the first byte without a continuation bit is. */
  function Terminator(s: seq<u8>): (k: nat)
    ensures k <= |s|
    ensures k < |s| ==> s[k] < 128
    ensures forall i :: 0 <= i < k ==> s[i] >= 128
    decreases |s|
  {
    if s == [] || s[0] < 128 then 0 else 1 + Terminator(s[1..])
  }

  /** One complete number: every byte but the last announces another. */
  predicate Complete(s: seq<u8>) {
    s != [] && Terminator(s) == |s| - 1
  }

  function Decode(s: seq<u8>): Decoded {
    var k := Terminator(s);
    if k == |s| || k >= MAX_SIZE then Malformed
    else if Leb(s[..k + 1]) > MAX_VALUE then Malformed
    else Value(Leb(s[..k + 1]), k + 1)
  }

  function Pow128(n: nat): (p: nat)
    ensures p >= 1
  {
    if n == 0 then 1 else 128 * Pow128(n - 1)
  }

  function Encode(v: nat): (s: seq<u8>)
    ensures s != []
    decreases v
  {
    if v < 128 then [v] else [v % 128 + 128] + Encode(v / 128)
  }

  /** The low 7 n bits of v in exactly n bytes. */
  function Fixed(v: nat, n: nat): (s: seq<u8>)
    ensures |s| == n
    decreases n
  {
    if n == 0 then [] else [v % 128 + if n > 1 then 128 else 0] + Fixed(v / 128, n - 1)
  }

  // ----- facts about byte strings

  lemma {:induction false} LebSnoc(s: seq<u8>, b: u8)
    ensures Leb(s + [b]) == Leb(s) + Pow128(|s|) * (b % 128)
    decreases |s|
  {
    if s == [] {
      assert [b][1..] == [];
    } else {
      assert (s + [b])[1..] == s[1..] + [b];
      LebSnoc(s[1..], b);
      Distribute(Leb(s[1..]), Pow128(|s| - 1), b % 128);
    }
  }

  lemma Distribute(x: int, p: int, d: int)
    ensures 128 * (x + p * d) == 128 * x + (128 * p) * d
  {
  }

  lemma {:induction false} LebBound(s: seq<u8>)
    ensures Leb(s) < Pow128(|s|)
    decreases |s|
  {
    if s != [] {
      LebBound(s[1..]);
    }
  }

  /** The terminator does not depend on what follows it. */
  lemma {:induction false} TerminatorPrefix(s: seq<u8>, t: seq<u8>)
    requires Terminator(s) < |s|
    ensures Terminator(s + t) == Terminator(s)
    decreases |s|
  {
    assert (s + t)[0] == s[0];
    if s[0] >= 128 {
      assert (s + t)[1..] == s[1..] + t;
      TerminatorPrefix(s[1..], t);
    }
  }

  /** A complete number decodes to its value and its own length whatever follows it. */
  lemma DecodeComplete(s: seq<u8>, t: seq<u8>)
    requires Complete(s) && |s| <= MAX_SIZE
    ensures Decode(s + t) == if Leb(s) <= MAX_VALUE then Value(Leb(s), |s|) else Malformed
  {
    TerminatorPrefix(s, t);
    assert (s + t)[..|s|] == s;
  }

  /** Decoding succeeds exactly on inputs that begin with a complete number of at most
      eight bytes and 32 bits of value; it returns that number and its length. */
  lemma DecodeIff(s: seq<u8>, v: nat, n: nat)
    ensures Decode(s) == Value(v, n) <==>
              && 0 < n <= 8 && n <= |s|
              && (forall i :: 0 <= i < n ==> (s[i] < 128 <==> i == n - 1))
              && Leb(s[..n]) == v <= 0xFFFF_FFFF
  {
    if 0 < n <= |s| {
      CompleteIff(s, n);
    }
    if 0 < n <= MAX_SIZE && n <= |s| && Complete(s[..n]) {
      DecodeComplete(s[..n], s[n..]);
      assert s[..n] + s[n..] == s;
    }
    if Decode(s) == Value(v, n) {
      FirstComplete(s);
    }
  }

  /** A complete number in terms of its bytes: only the last is below 128. */
  lemma CompleteIff(s: seq<u8>, n: nat)
    requires 0 < n <= |s|
    ensures Complete(s[..n]) <==> forall i :: 0 <= i < n ==> (s[i] < 128 <==> i == n - 1)
  {
    var k := Terminator(s[..n]);
    if k == n {
      assert s[..n][n - 1] >= 128;
    } else {
      assert s[..n][k] < 128;
    }
  }

  /** Byte i carries the i-th seven bits of the value, from the lowest up. */
  lemma {:induction false} LebDigit(s: seq<u8>, i: nat)
    requires i < |s|
    ensures Leb(s) / Pow128(i) % 128 == s[i] % 128
    decreases i
  {
    var d, rest := s[0] % 128, Leb(s[1..]);
    if i == 0 {
      LowDigit(d, rest);
    } else {
      LebDigit(s[1..], i - 1);
      NextDigits(d, rest, Pow128(i - 1));
    }
  }

  lemma LowDigit(d: nat, rest: nat)
    requires d < 128
    ensures (d + 128 * rest) / 1 % 128 == d
  {
  }

  lemma NextDigits(d: nat, rest: nat, p: nat)
    requires d < 128 && p > 0
    ensures (d + 128 * rest) / (128 * p) == rest / p
  {
    var q, r := rest / p, rest % p;
    Spread(p, q, r, d);
    Remainder(d + 128 * rest, 128 * p, q, d + 128 * r);
  }

  lemma Spread(p: nat, q: nat, r: nat, d: nat)
    requires r < p && d < 128
    ensures d + 128 * (p * q + r) == (128 * p) * q + (d + 128 * r) && d + 128 * r < 128 * p
  {
  }

  lemma {:induction false} FirstComplete(s: seq<u8>)
    requires Terminator(s) < |s|
    ensures Complete(s[..Terminator(s) + 1])
    decreases |s|
  {
    var k := Terminator(s);
    assert s[..k + 1][0] == s[0];
    if s[0] >= 128 {
      assert s[..k + 1][1..] == s[1..][..k];
      FirstComplete(s[1..]);
    }
  }

  /** No complete number is a proper beginning of another. */
  lemma PrefixFree(s: seq<u8>, t: seq<u8>)
    requires Complete(s) && Complete(s + t)
    ensures t == []
  {
    TerminatorPrefix(s, t);
  }

  // ----- round trips

  lemma {:induction false} EncodeComplete(v: nat)
    ensures Complete(Encode(v)) && Leb(Encode(v)) == v
    decreases v
  {
    if v < 128 {
      assert [v][1..] == [];
    } else {
      EncodeComplete(v / 128);
      assert Encode(v)[1..] == Encode(v / 128);
    }
  }

  /** An encoding has no more bytes than its value needs. */
  lemma {:induction false} EncodeLength(v: nat)
    ensures |Encode(v)| == 1 || Pow128(|Encode(v)| - 1) <= v
    decreases v
  {
    if v >= 128 {
      EncodeLength(v / 128);
      assert Pow128(1) == 128;
    }
  }

  lemma {:induction false} Pow128Grows(m: nat, n: nat)
    requires m <= n
    ensures Pow128(m) <= Pow128(n)
    decreases n
  {
    if m < n {
      Pow128Grows(m, n - 1);
    }
  }

  lemma Pow128Values()
    ensures Pow128(4) == 0x1000_0000 && Pow128(5) == 0x8_0000_0000
  {
    assert Pow128(2) == 0x4000;
    assert Pow128(4) == 0x4000 * Pow128(2);
  }

  /** Thirty-two bits need at most five bytes. */
  lemma EncodeShort(v: nat)
    requires v <= MAX_VALUE
    ensures |Encode(v)| <= 5
  {
    EncodeLength(v);
    Pow128Values();
    if |Encode(v)| > 5 {
      Pow128Grows(5, |Encode(v)| - 1);
    }
  }

  /** Decoding undoes encoding, with anything behind the number. */
  lemma RoundTrip(v: nat, t: seq<u8>)
    requires v <= MAX_VALUE
    ensures Decode(Encode(v) + t) == Value(v, |Encode(v)|)
  {
    EncodeComplete(v);
    EncodeShort(v);
    DecodeComplete(Encode(v), t);
  }

  lemma {:induction false} FixedComplete(v: nat, n: nat)
    requires n > 0 && v < Pow128(n)
    ensures Complete(Fixed(v, n)) && Leb(Fixed(v, n)) == v
    decreases n
  {
    assert Fixed(v, n)[1..] == Fixed(v / 128, n - 1);
    if n > 1 {
      FixedComplete(v / 128, n - 1);
    } else {
      assert Pow128(1) == 128;
    }
  }

  lemma FixedRoundTrip(v: nat, n: nat, t: seq<u8>)
    requires 0 < n <= MAX_SIZE && v < Pow128(n) && v <= MAX_VALUE
    ensures Decode(Fixed(v, n) + t) == Value(v, n)
  {
    FixedComplete(v, n);
    DecodeComplete(Fixed(v, n), t);
  }

  /** The encoder accepts a padded size of zero for the value zero and writes nothing, so
      what it accepts decodes again exactly when the padded size is positive. */
  lemma FixedRoundTripIff(v: nat, n: nat)
    requires n <= MAX_SIZE && v < Pow128(n) && v <= MAX_VALUE
    ensures (forall t: seq<u8> :: Decode(Fixed(v, n) + t) == Value(v, n)) <==> n > 0
  {
    if n > 0 {
      forall t: seq<u8>
        ensures Decode(Fixed(v, n) + t) == Value(v, n)
      {
        FixedRoundTrip(v, n, t);
      }
    } else {
      assert Decode(Fixed(v, n) + []) != Value(v, n);
    }
  }

  /** The plain encoding is the shortest one, and the only one of its length. */
  lemma Shortest(s: seq<u8>, v: nat, n: nat)
    requires Decode(s) == Value(v, n)
    ensures |Encode(v)| <= n
    ensures n == |Encode(v)| ==> s[..n] == Encode(v)
  {
    hide *;
    DecodeIff(s, v, n);
    CompleteIff(s, n);
    LebBound(s[..n]);
    EncodeComplete(v);
    EncodeLength(v);
    if |Encode(v)| > n {
      Pow128Grows(n, |Encode(v)| - 1);
    }
    if n == |Encode(v)| {
      SameLength(s[..n], Encode(v));
    }
  }

  lemma {:induction false} SameLength(s: seq<u8>, t: seq<u8>)
    requires Complete(s) && Complete(t) && |s| == |t| && Leb(s) == Leb(t)
    ensures s == t
    decreases |s|
  {
    hide *;
    SameHead(s, t);
    if |s| > 1 {
      SameLength(s[1..], t[1..]);
    }
    assert s == [s[0]] + s[1..] && t == [t[0]] + t[1..];
  }

  /** Two numbers of one length and value agree in their first byte, and their rests are
      again numbers of one value. */
  lemma SameHead(s: seq<u8>, t: seq<u8>)
    requires Complete(s) && Complete(t) && |s| == |t| && Leb(s) == Leb(t)
    ensures s != [] && s[0] == t[0]
    ensures |s| > 1 ==> Complete(s[1..]) && Complete(t[1..]) && Leb(s[1..]) == Leb(t[1..])
  {
    hide *;
    HeadAndRest(s);
    HeadAndRest(t);
    DigitsAgree(s[0] % 128, t[0] % 128, Leb(s[1..]), Leb(t[1..]));
  }

  lemma DigitsAgree(a: nat, b: nat, x: nat, y: nat)
    requires a < 128 && b < 128 && a + 128 * x == b + 128 * y
    ensures a == b && x == y
  {
  }

  lemma HeadAndRest(s: seq<u8>)
    requires Complete(s)
    ensures s != [] && Leb(s) == s[0] % 128 + 128 * Leb(s[1..])
    ensures |s| > 1 <==> s[0] >= 128
    ensures |s| > 1 ==> Complete(s[1..])
  {
    if s[0] < 128 {
      assert |s| == 1;
    }
  }

  // ----- the routines

  /** value is an unsigned 64-bit number. */
  method UlebSizeInBytes(value: nat) returns (size: nat)
    ensures size == |Encode(value)|
  {
    var v: nat := value / 128;
    size := 1;
    while v != 0
      decreases v
      invariant |Encode(value)| == size + if v == 0 then 0 else |Encode(v)|
    {
      size := size + 1;
      v := v / 128;
    }
  }

  lemma DecodedAt(buffer: seq<u8>, i: nat)
    requires i < MAX_SIZE && i < |buffer| && Terminator(buffer) >= i && buffer[i] < 128
    ensures Decode(buffer) == if Leb(buffer[..i + 1]) > MAX_VALUE then Malformed else Value(Leb(buffer[..i + 1]), i + 1)
  {
    assert Terminator(buffer) == i;
    hide Leb, Terminator;
  }

  lemma NotDecoded(buffer: seq<u8>, i: nat)
    requires Terminator(buffer) >= i && (i == MAX_SIZE || i == |buffer|)
    ensures Decode(buffer) == Malformed
  {
    hide Leb, Terminator;
  }

  lemma Further(buffer: seq<u8>, i: nat)
    requires i < |buffer| && Terminator(buffer) >= i && buffer[i] >= 128
    ensures Terminator(buffer) >= i + 1
  {
  }

  /** buffer holds the available bytes. The low seven bits of each go above those already
      read, so or-ing them in is adding them. */
  method UlebDecode(buffer: seq<u8>) returns (r: Decoded)
    ensures r == Decode(buffer)
  {
    hide Decode, Leb, Terminator, Pow128;
    var i, value, unit := 0, 0, 1;
    NothingRead(buffer);
    while i < MAX_SIZE && i < |buffer|
      invariant i <= |buffer| && i <= MAX_SIZE
      invariant unit == Pow128(i) && value == Leb(buffer[..i])
      invariant Terminator(buffer) >= i
    {
      var decodedByte := buffer[i] % 128;
      NextByteRead(buffer, i);
      value := value + unit * decodedByte;
      if buffer[i] < 128 {
        DecodedAt(buffer, i);
        return if value > MAX_VALUE then Malformed else Value(value, i + 1);
      }
      Further(buffer, i);
      i, unit := i + 1, unit * 128;
    }
    NotDecoded(buffer, i);
    r := Malformed;
  }

  lemma NothingRead(buffer: seq<u8>)
    ensures Pow128(0) == 1 && Leb(buffer[..0]) == 0
  {
  }

  lemma NextByteRead(buffer: seq<u8>, i: nat)
    requires i < |buffer|
    ensures Leb(buffer[..i + 1]) == Leb(buffer[..i]) + Pow128(i) * (buffer[i] % 128)
    ensures Pow128(i + 1) == Pow128(i) * 128
  {
    hide Leb;
    assert buffer[..i + 1] == buffer[..i] + [buffer[i]];
    LebSnoc(buffer[..i], buffer[i]);
  }

  /** Refuses exactly what does not fit 32 bits or the space available. */
  method UlebEncode(value: nat, available: nat) returns (r: Encoded)
    ensures r == if value > MAX_VALUE || |Encode(value)| > available then Refused else Bytes(Encode(value))
  {
    var lebSize := UlebSizeInBytes(value);
    if value > MAX_VALUE || lebSize > MAX_SIZE || lebSize > available {
      if value <= MAX_VALUE {
        EncodeShort(value);
      }
      return Refused;
    }
    hide Encode;
    var coded: seq<u8> := [];
    var v: nat := value;
    var i := 0;
    assert [] + Encode(value) == Encode(value);
    while i < lebSize
      invariant i <= lebSize && |coded| == i
      invariant i < lebSize ==> coded + Encode(v) == Encode(value)
      invariant i == lebSize ==> coded == Encode(value)
    {
      var byte := v % 128;
      EncodeParts(coded, v, Encode(value));
      v := v / 128;
      if v != 0 {
        byte := byte + 128;
      }
      coded := coded + [byte];
      i := i + 1;
    }
    r := Bytes(coded);
  }

  /** The next byte of an encoding that is under way; after it there is more exactly when
      some value is left. */
  lemma EncodeParts(coded: seq<u8>, v: nat, whole: seq<u8>)
    requires coded + Encode(v) == whole
    ensures v / 128 == 0 ==> coded + [v % 128] == whole && |coded| + 1 == |whole|
    ensures v / 128 != 0 ==> coded + [v % 128 + 128] + Encode(v / 128) == whole && |coded| + 1 < |whole|
  {
  }

  lemma NextByte(coded: seq<u8>, v: nat, n: nat)
    requires n > 0
    ensures coded + Fixed(v, n) == coded + [v % 128 + if n > 1 then 128 else 0] + Fixed(v / 128, n - 1)
  {
  }

  method UlebEncodeFixedSize(value: nat, available: nat, padToSize: nat) returns (r: Encoded)
    ensures r == if value > MAX_VALUE || available < padToSize || padToSize > MAX_SIZE || value >= Pow128(padToSize)
                 then Refused else Bytes(Fixed(value, padToSize))
  {
    hide Fixed, Pow128;
    if value > MAX_VALUE || available < padToSize || padToSize > MAX_SIZE {
      return Refused;
    }
    var limit := Pow128(padToSize);
    if value >= limit {
      return Refused;
    }
    var coded := WriteFixed(value, padToSize);
    r := Bytes(coded);
  }

  /** The byte loop of the padded encoding. */
  method WriteFixed(value: nat, padToSize: nat) returns (coded: seq<u8>)
    ensures coded == Fixed(value, padToSize)
  {
    hide Fixed;
    coded := [];
    var v: nat := value;
    assert [] + Fixed(v, padToSize) == Fixed(v, padToSize);
    for i := 0 to padToSize
      invariant coded + Fixed(v, padToSize - i) == Fixed(value, padToSize)
    {
      var byte := v % 128;
      if i < padToSize - 1 {
        byte := byte + 128;
      }
      NextByte(coded, v, padToSize - i);
      v := v / 128;
      coded := coded + [byte];
    }
    assert coded + Fixed(v, 0) == coded;
  }
}
