/** Cutting an elementary stream at its start codes: the three- and four-byte codes of
    byte streams (section B.1.1 of ITU-T H.264), or the sixteen-byte headers put in front
    of rewritten AV1 units. */
module NaluSplitter {
  import opened Words
  import opened ObuRewriter

  datatype Mode = ByteStream | AmlHeaders

  function PrefixLen(mode: Mode): nat {
    if mode == ByteStream then 4 else 16
  }

  predicate FindStartCode2(s: seq<u8>)
    requires |s| >= 3
  {
    s[0] == 0 && s[1] == 0 && s[2] == 1
  }

  predicate FindStartCode3(s: seq<u8>)
    requires |s| >= 4
  {
    s[0] == 0 && s[1] == 0 && s[2] == 0 && s[3] == 1
  }

  predicate ShortCode(s: seq<u8>, i: nat) {
    i + 3 <= |s| && FindStartCode2(s[i..])
  }

  predicate LongCode(s: seq<u8>, i: nat) {
    i + 4 <= |s| && FindStartCode3(s[i..])
  }

  predicate HeaderCode(s: seq<u8>, i: nat) {
    i + 16 <= |s| && FindAmlStartCode(s[i..])
  }

  /** Where units begin: at the longest reading of each start code. */
  predicate StartAt(mode: Mode, s: seq<u8>, i: nat) {
    match mode
    case ByteStream => LongCode(s, i) || (ShortCode(s, i) && !(i > 0 && LongCode(s, i - 1)))
    case AmlHeaders => HeaderCode(s, i)
  }

  /** The first unit beginning at or after i, or the end of the stream. */
  function NextStart(mode: Mode, s: seq<u8>, i: nat): (n: nat)
    requires i <= |s|
    ensures i <= n <= |s|
    ensures n < |s| ==> StartAt(mode, s, n)
    ensures forall j :: i <= j < n ==> !StartAt(mode, s, j)
    decreases |s| - i
  {
    if i == |s| || StartAt(mode, s, i) then i else NextStart(mode, s, i + 1)
  }

  lemma NextStartIs(mode: Mode, s: seq<u8>, i: nat, n: nat)
    requires i <= n <= |s| && (n < |s| ==> StartAt(mode, s, n))
    requires forall j :: i <= j < n ==> !StartAt(mode, s, j)
    ensures NextStart(mode, s, i) == n
  {
    hide StartAt;
    assert NextStart(mode, s, i) < |s| ==> StartAt(mode, s, NextStart(mode, s, i));
  }

  /** The length of the start code that ends at e, the long reading first; zero if there
      is none. */
  function CodeEnding(mode: Mode, s: seq<u8>, e: nat): (n: nat)
    ensures n <= e
    ensures n > 0 ==> e <= |s|
  {
    match mode
    case ByteStream =>
      if e >= 4 && e <= |s| && LongCode(s, e - 4) then 4
      else if e >= 3 && e <= |s| && ShortCode(s, e - 3) then 3
      else 0
    case AmlHeaders => if e >= 16 && e <= |s| && HeaderCode(s, e - 16) then 16 else 0
  }

  // ----- the file

  class Stream {
    const data: seq<u8>
    var pos: nat
    var eof: bool

    constructor (data: seq<u8>)
      ensures this.data == data && pos == 0 && !eof
    {
      this.data, pos, eof := data, 0, false;
    }

    predicate Valid()
      reads this
    {
      pos <= |data| && (eof ==> pos == |data|)
    }

    /** The next byte, or the digit zero at the end of the file. */
    method FgetcDirect() returns (c: u8)
      requires Valid()
      modifies this
      ensures Valid()
      ensures old(pos) < |data| ==> c == data[old(pos)] && pos == old(pos) + 1 && eof == old(eof)
      ensures old(pos) == |data| ==> c == 0x30 && pos == old(pos) && eof
    {
      if pos < |data| {
        c := data[pos];
        pos := pos + 1;
      } else {
        eof := true;
        c := 0x30;
      }
    }

    method SeekBack(n: nat)
      requires Valid() && n <= pos
      modifies this
      ensures Valid() && pos == old(pos) - n && !eof
    {
      pos := pos - n;
      eof := false;
    }
  }

  // ----- the search for the first code

  /** A code at i in either reading. */
  predicate CodeAt(mode: Mode, s: seq<u8>, i: nat) {
    match mode
    case ByteStream => LongCode(s, i) || ShortCode(s, i)
    case AmlHeaders => HeaderCode(s, i)
  }

  /** From the beginning or the start of a unit, the first code is the first start. */
  lemma FirstCodeIsStart(mode: Mode, s: seq<u8>, p: nat, i: nat)
    requires p <= i && (p == 0 || StartAt(mode, s, p))
    requires CodeAt(mode, s, i) && forall j :: p <= j < i ==> !CodeAt(mode, s, j)
    ensures i < |s| && StartAt(mode, s, i) && NextStart(mode, s, p) == i
  {
    assert i > p ==> !CodeAt(mode, s, i - 1);
    assert forall j :: p <= j < i ==> StartAt(mode, s, j) ==> CodeAt(mode, s, j);
    NextStartIs(mode, s, p, i);
  }

  lemma NoCodeNoStart(mode: Mode, s: seq<u8>, p: nat)
    requires p <= |s| && forall j :: p <= j < |s| ==> !CodeAt(mode, s, j)
    ensures NextStart(mode, s, p) == |s|
  {
    assert forall j :: p <= j < |s| ==> StartAt(mode, s, j) ==> CodeAt(mode, s, j);
    NextStartIs(mode, s, p, |s|);
  }

  /** The stream followed by the byte the reader makes up at its end. */
  function Padded(s: seq<u8>): seq<u8> {
    s + [0x30]
  }

  /** The last k bytes of the first t. */
  function Window(s: seq<u8>, t: nat, k: nat): (w: seq<u8>)
    requires k <= t <= |s| + 1
    ensures |w| == k
  {
    Padded(s)[t - k..t]
  }

  lemma WindowMoves(s: seq<u8>, t: nat, k: nat, c: u8)
    requires k <= t <= |s| && c == Padded(s)[t]
    ensures Window(s, t, k) + [c] == Window(s, t + 1, k + 1)
    ensures k > 0 ==> Window(s, t, k)[1..] + [c] == Window(s, t + 1, k)
  {
  }

  /** The code test on a full window of bytes read, t being its end. */
  predicate WindowHit(mode: Mode, w: seq<u8>)
    requires |w| == PrefixLen(mode)
  {
    if mode == ByteStream then FindStartCode2(w) || FindStartCode3(w) else FindAmlStartCode(w)
  }

  lemma WindowHitIff(mode: Mode, s: seq<u8>, t: nat)
    requires PrefixLen(mode) <= t <= |s| + 1
    ensures WindowHit(mode, Window(s, t, PrefixLen(mode))) <==> CodeAt(mode, s, t - PrefixLen(mode))
    ensures mode == ByteStream ==> (FindStartCode2(Window(s, t, 4)) <==> ShortCode(s, t - 4))
  {
    var n := PrefixLen(mode);
    var w := Window(s, t, n);
    if t <= |s| {
      InnerWindow(s, t, n);
      SameCode(w, s[t - n..], mode);
    } else {
      assert w[n - 1] == Padded(s)[|s|] == 0x30;
      if mode == ByteStream {
        assert forall k :: 0 <= k < 3 ==> w[k] == s[t - n..][k];
      }
    }
  }

  lemma InnerWindow(s: seq<u8>, t: nat, n: nat)
    requires n <= t <= |s|
    ensures Window(s, t, n) == s[t - n..][..n]
  {
  }

  lemma SameCode(w: seq<u8>, u: seq<u8>, mode: Mode)
    requires |w| == PrefixLen(mode) <= |u| && w == u[..PrefixLen(mode)]
    ensures mode == ByteStream ==> (FindStartCode2(w) <==> FindStartCode2(u))
    ensures mode == ByteStream ==> (FindStartCode3(w) <==> FindStartCode3(u))
    ensures mode == AmlHeaders ==> (FindAmlStartCode(w) <==> FindAmlStartCode(u))
  {
    assert forall k :: 0 <= k < |w| ==> w[k] == u[k];
    if mode == AmlHeaders {
      assert w[4..] == u[..16][4..];
      assert forall k :: 0 <= k < 4 ==> w[4..][k] == u[4..][k];
    }
  }

  /** Nothing that begins at p or later and whose window ends by t is a code. */
  ghost predicate Clear(mode: Mode, s: seq<u8>, p: nat, t: nat) {
    && (forall j :: p <= j && j + PrefixLen(mode) <= t ==> !CodeAt(mode, s, j))
    && (mode == ByteStream && t >= p + 3 ==> !ShortCode(s, p))
  }

  /** Where the first phase stopped: at the first start n with its first pos bytes read,
      or at the end without one. */
  ghost predicate FirstFound(mode: Mode, s: seq<u8>, n: nat, buf: seq<u8>, pos: nat, prefix: nat,
                             at: nat, eof: bool)
    requires n <= |s|
  {
    if n == |s| then pos == 0 && eof
    else
      && n + pos <= |s| + 1
      && buf == Window(s, n + pos, pos)
      && n + pos == at + (if eof then 1 else 0)
      && HandOver(mode, s, n, pos)
      && prefix == if mode == AmlHeaders then 16 else if ShortCode(s, n) then 3 else 4
  }

  /** The first phase hands over enough to overlap no further code with this one. */
  predicate HandOver(mode: Mode, s: seq<u8>, n: nat, pos: nat) {
    match mode
    case ByteStream => pos == 4 || (pos == 3 && ShortCode(s, n))
    case AmlHeaders => pos == 16
  }

  method FindFirst(f: Stream, mode: Mode) returns (buf: seq<u8>, pos: nat, prefix: nat)
    requires f.Valid() && !f.eof && (f.pos == 0 || StartAt(mode, f.data, f.pos))
    modifies f
    ensures f.Valid()
    ensures FirstFound(mode, f.data, NextStart(mode, f.data, old(f.pos)), buf, pos, prefix, f.pos, f.eof)
  {
    hide Clear, FirstFound, Window, StartAt, NextStart, FindStartCode2, FindStartCode3, FindAmlStartCode;
    buf, pos, prefix := [], 0, 0;
    ghost var s, p, t := f.data, f.pos, f.pos;
    NothingRead(mode, s, p);
    while !f.eof
      invariant f.Valid() && p <= t && t == f.pos + if f.eof then 1 else 0
      invariant |buf| == prefix == (if t - p < PrefixLen(mode) then t - p else PrefixLen(mode))
      invariant buf == Window(s, t, prefix)
      invariant Clear(mode, s, p, t) && pos == 0
      decreases |s| + 1 - t
    {
      var c := f.FgetcDirect();
      WindowMoves(s, t, prefix, c);
      if prefix < PrefixLen(mode) {
        buf := buf + [c];
        prefix := prefix + 1;
      } else {
        buf := buf[1..] + [c];
      }
      t := t + 1;
      if mode == ByteStream {
        if prefix >= 3 {
          if FindStartCode2(buf) {
            pos := prefix;
            prefix := 3;
            ShortHit(s, p, t, pos, f.pos, f.eof);
            return;
          }
        }
        if prefix == 4 {
          if FindStartCode3(buf) {
            pos := prefix;
            LongHit(mode, s, p, t, f.pos, f.eof);
            return;
          }
        }
      } else if prefix == PrefixLen(mode) {
        if FindAmlStartCode(buf) {
          pos := prefix;
          LongHit(mode, s, p, t, f.pos, f.eof);
          return;
        }
      }
      StillClear(mode, s, p, t);
    }
    AllClear(mode, s, p, buf, prefix, f.pos);
  }

  lemma NothingRead(mode: Mode, s: seq<u8>, p: nat)
    requires p <= |s|
    ensures Clear(mode, s, p, p) && Window(s, p, 0) == []
  {
  }

  /** A three-byte code at the front of the window. */
  lemma ShortHit(s: seq<u8>, p: nat, t: nat, k: nat, at: nat, eof: bool)
    requires p + k <= t <= |s| + 1 && (k == 4 || (k == 3 && t == p + 3))
    requires t == at + (if eof then 1 else 0) && at <= |s| && (eof ==> at == |s|)
    requires (p == 0 || StartAt(ByteStream, s, p)) && Clear(ByteStream, s, p, t - 1)
    requires FindStartCode2(Window(s, t, k))
    ensures FirstFound(ByteStream, s, NextStart(ByteStream, s, p), Window(s, t, k), k, 3, at, eof)
  {
    ShortFront(s, t, k);
    hide FindStartCode2, FindStartCode3, ShortCode, LongCode, Window, NextStart, StartAt;
    FirstCodeIsStart(ByteStream, s, p, t - k);
  }

  /** The three bytes in front of the window are in the stream. */
  lemma ShortFront(s: seq<u8>, t: nat, k: nat)
    requires 3 <= k <= t <= |s| + 1 && FindStartCode2(Window(s, t, k))
    ensures ShortCode(s, t - k)
  {
    var i, w := t - k, Window(s, t, k);
    forall j | 0 <= j < 3
      ensures w[j] == Padded(s)[i + j]
    {
    }
    assert w[2] != 0x30;
    forall j | 0 <= j < 3
      ensures s[i..][j] == w[j]
    {
      assert s[i..][j] == s[i + j];
    }
  }

  /** A full code in the window. */
  lemma LongHit(mode: Mode, s: seq<u8>, p: nat, t: nat, at: nat, eof: bool)
    requires p + PrefixLen(mode) <= t <= |s| + 1
    requires t == at + (if eof then 1 else 0) && at <= |s| && (eof ==> at == |s|)
    requires (p == 0 || StartAt(mode, s, p)) && Clear(mode, s, p, t - 1)
    requires var w := Window(s, t, PrefixLen(mode));
             if mode == ByteStream then FindStartCode3(w) && !FindStartCode2(w) else FindAmlStartCode(w)
    ensures var n := PrefixLen(mode); FirstFound(mode, s, NextStart(mode, s, p), Window(s, t, n), n, n, at, eof)
  {
    var n := PrefixLen(mode);
    WindowHitIff(mode, s, t);
    if t == |s| + 1 {
      LastByte(mode, s, t);
    }
    assert t <= |s|;
    hide FindStartCode2, FindStartCode3, FindAmlStartCode, ShortCode, LongCode, HeaderCode, StartAt;
    FirstCodeIsStart(mode, s, p, t - n);
  }

  /** The made-up byte ends no code. */
  lemma LastByte(mode: Mode, s: seq<u8>, t: nat)
    requires PrefixLen(mode) <= t == |s| + 1
    ensures mode == ByteStream ==> !FindStartCode3(Window(s, t, 4))
    ensures mode == AmlHeaders ==> !FindAmlStartCode(Window(s, t, 16))
  {
    assert Window(s, t, PrefixLen(mode))[PrefixLen(mode) - 1] == 0x30;
  }

  lemma StillClear(mode: Mode, s: seq<u8>, p: nat, t: nat)
    requires p < t <= |s| + 1 && Clear(mode, s, p, t - 1)
    requires t >= p + PrefixLen(mode) ==> !WindowHit(mode, Window(s, t, PrefixLen(mode)))
    requires mode == ByteStream && t == p + 3 ==> !FindStartCode2(Window(s, t, 3))
    ensures Clear(mode, s, p, t)
  {
    hide WindowHit, Window, CodeAt, ShortCode, FindStartCode2;
    if t >= p + PrefixLen(mode) {
      WindowHitIff(mode, s, t);
    }
    if mode == ByteStream && t == p + 3 {
      FrontTest(s, p);
    }
  }

  lemma FrontTest(s: seq<u8>, p: nat)
    requires p + 3 <= |s| + 1
    ensures ShortCode(s, p) ==> FindStartCode2(Window(s, p + 3, 3))
  {
    if p + 3 <= |s| {
      InnerWindow(s, p + 3, 3);
      assert forall k :: 0 <= k < 3 ==> Window(s, p + 3, 3)[k] == s[p..][k];
    }
  }

  lemma AllClear(mode: Mode, s: seq<u8>, p: nat, buf: seq<u8>, prefix: nat, at: nat)
    requires p <= |s| == at && Clear(mode, s, p, |s| + 1)
    ensures FirstFound(mode, s, NextStart(mode, s, p), buf, 0, prefix, at, true)
  {
    forall j | p <= j < |s|
      ensures !CodeAt(mode, s, j)
    {
    }
    NoCodeNoStart(mode, s, p);
  }

  // ----- the search for the next code

  /** No code ends after lo and by t. */
  ghost predicate NoEnd(mode: Mode, s: seq<u8>, lo: nat, t: nat) {
    forall e :: lo < e <= t ==> CodeEnding(mode, s, e) == 0
  }

  /** The tests on the last bytes of the buffer recognise a code ending there, the long
      reading first. */
  lemma TailTest(mode: Mode, s: seq<u8>, t: nat)
    requires PrefixLen(mode) <= t <= |s| + 1
    ensures mode == AmlHeaders ==> (FindAmlStartCode(Window(s, t, 16)) <==> CodeEnding(mode, s, t) == 16)
    ensures mode == AmlHeaders && CodeEnding(mode, s, t) != 16 ==> CodeEnding(mode, s, t) == 0
    ensures mode == ByteStream ==> (FindStartCode3(Window(s, t, 4)) <==> CodeEnding(mode, s, t) == 4)
    ensures mode == ByteStream && CodeEnding(mode, s, t) != 4 ==>
              (FindStartCode2(Window(s, t, 3)) <==> CodeEnding(mode, s, t) == 3)
    ensures mode == ByteStream && CodeEnding(mode, s, t) != 4 && CodeEnding(mode, s, t) != 3 ==>
              CodeEnding(mode, s, t) == 0
  {
    if t == |s| + 1 {
      PaddingIsNoCode(mode, s);
    } else if mode == AmlHeaders {
      assert Window(s, t, 16) == s[t - 16..][..16];
      SameCode(Window(s, t, 16), s[t - 16..], mode);
    } else {
      assert Window(s, t, 4) == s[t - 4..][..4];
      SameCode(Window(s, t, 4), s[t - 4..], mode);
      assert forall m :: 0 <= m < 3 ==> Window(s, t, 3)[m] == s[t - 3..][m];
    }
  }

  lemma PaddingIsNoCode(mode: Mode, s: seq<u8>)
    requires PrefixLen(mode) <= |s| + 1
    ensures CodeEnding(mode, s, |s| + 1) == 0
    ensures mode == AmlHeaders ==> !FindAmlStartCode(Window(s, |s| + 1, 16))
    ensures mode == ByteStream ==> !FindStartCode3(Window(s, |s| + 1, 4)) && !FindStartCode2(Window(s, |s| + 1, 3))
  {
    assert mode == AmlHeaders ==> Window(s, |s| + 1, 16)[15] == 0x30;
    assert mode == ByteStream ==> Window(s, |s| + 1, 4)[3] == 0x30 && Window(s, |s| + 1, 3)[2] == 0x30;
  }

  /** Where the code of a start ends. */
  function EndOf(mode: Mode, s: seq<u8>, j: nat): nat {
    match mode
    case ByteStream => j + if LongCode(s, j) then 4 else 3
    case AmlHeaders => j + 16
  }

  /** How many bytes past a unit ending at m the search reads: the code there, or the byte
      made up at the end of the file. */
  function Overshoot(mode: Mode, s: seq<u8>, m: nat): nat
    requires m <= |s|
  {
    if m == |s| then 1 else EndOf(mode, s, m) - m
  }

  /** The code that ends at e is the one that begins where it says. */
  lemma EndingIsEnd(mode: Mode, s: seq<u8>, e: nat)
    requires CodeEnding(mode, s, e) > 0 && e - CodeEnding(mode, s, e) < |s|
    ensures Overshoot(mode, s, e - CodeEnding(mode, s, e)) == CodeEnding(mode, s, e)
  {
    hide FindAmlStartCode;
  }

  /** A later start's code ends after the bytes handed over. */
  lemma LaterStartEnds(mode: Mode, s: seq<u8>, n: nat, pos: nat, j: nat)
    requires StartAt(mode, s, n) && HandOver(mode, s, n, pos) && StartAt(mode, s, j) && j > n
    ensures n + pos < EndOf(mode, s, j) <= |s| && CodeEnding(mode, s, EndOf(mode, s, j)) > 0
  {
    hide FindAmlStartCode;
    if mode == ByteStream && j == n + 1 {
      assert s[n..][2] == s[j..][1] && s[n..][1] == s[j..][0];
    }
  }

  /** Of two codes the one that ends later does not begin earlier. */
  lemma LaterEndLaterStart(mode: Mode, s: seq<u8>, j: nat, e: nat)
    requires StartAt(mode, s, j) && EndOf(mode, s, j) >= e && CodeEnding(mode, s, e) > 0
    ensures j >= e - CodeEnding(mode, s, e)
  {
    hide FindAmlStartCode;
  }

  /** What a code ends begins a unit, after the present one. */
  lemma EndingStarts(mode: Mode, s: seq<u8>, n: nat, pos: nat, e: nat)
    requires StartAt(mode, s, n) && HandOver(mode, s, n, pos)
    requires n + pos < e && CodeEnding(mode, s, e) > 0
    ensures n < e - CodeEnding(mode, s, e) < |s| && StartAt(mode, s, e - CodeEnding(mode, s, e))
  {
    hide FindAmlStartCode;
  }

  /** The first code ending after those bytes begins the next unit. */
  lemma EndIsNextStart(mode: Mode, s: seq<u8>, n: nat, pos: nat, e: nat)
    requires n < |s| && StartAt(mode, s, n) && HandOver(mode, s, n, pos)
    requires n + pos < e && CodeEnding(mode, s, e) > 0 && NoEnd(mode, s, n + pos, e - 1)
    ensures n < e - CodeEnding(mode, s, e) < |s|
    ensures NextStart(mode, s, n + 1) == e - CodeEnding(mode, s, e)
  {
    hide StartAt, HandOver, CodeEnding, EndOf;
    var i := e - CodeEnding(mode, s, e);
    EndingStarts(mode, s, n, pos, e);
    forall j | n + 1 <= j < i
      ensures !StartAt(mode, s, j)
    {
      if StartAt(mode, s, j) {
        LaterStartEnds(mode, s, n, pos, j);
        LaterEndLaterStart(mode, s, j, e);
      }
    }
    NextStartIs(mode, s, n + 1, i);
  }

  lemma NoEndNoStart(mode: Mode, s: seq<u8>, n: nat, pos: nat)
    requires n < |s| && StartAt(mode, s, n) && HandOver(mode, s, n, pos) && NoEnd(mode, s, n + pos, |s|)
    ensures NextStart(mode, s, n + 1) == |s|
  {
    hide StartAt, HandOver, CodeEnding, EndOf;
    forall j | n + 1 <= j < |s|
      ensures !StartAt(mode, s, j)
    {
      if StartAt(mode, s, j) {
        LaterStartEnds(mode, s, n, pos, j);
      }
    }
    NextStartIs(mode, s, n + 1, |s|);
  }

  /** The tests at the end of the buffer: how long the code there is, zero without one. */
  method TestEnd(mode: Mode, buf: seq<u8>, ghost s: seq<u8>, ghost t: nat) returns (back: nat)
    requires PrefixLen(mode) <= |buf| <= t <= |s| + 1 && buf == Window(s, t, |buf|)
    ensures back == CodeEnding(mode, s, t)
  {
    hide Window, CodeEnding, FindStartCode2, FindStartCode3, FindAmlStartCode;
    TailTest(mode, s, t);
    back := 0;
    if mode == ByteStream {
      WindowTail(s, t, |buf|, 4);
      WindowTail(s, t, |buf|, 3);
      if FindStartCode3(buf[|buf| - 4..]) {
        back := 4;
      } else if FindStartCode2(buf[|buf| - 3..]) {
        back := 3;
      }
    } else {
      WindowTail(s, t, |buf|, 16);
      if FindAmlStartCode(buf[|buf| - 16..]) {
        back := 16;
      }
    }
  }

  /** At the end of the file the unit is everything but the made-up byte. */
  lemma EndOfFile(mode: Mode, s: seq<u8>, n: nat, pos: nat, t: nat, buf: seq<u8>)
    requires n < |s| && StartAt(mode, s, n) && HandOver(mode, s, n, pos)
    requires t == |s| + 1 && NoEnd(mode, s, n + pos, t) && buf == Window(s, t, t - n)
    ensures NextStart(mode, s, n + 1) == |s| && 1 <= |buf| && buf[..|buf| - 1] == s[n..|s|]
  {
    hide *;
    NoEndAtAll(mode, s, n, pos, t);
    SliceOfPadded(s, n, t, |s|);
  }

  /** At a code the unit is everything before it. */
  lemma EndOfUnit(mode: Mode, s: seq<u8>, n: nat, pos: nat, t: nat, buf: seq<u8>)
    requires n < |s| && StartAt(mode, s, n) && HandOver(mode, s, n, pos)
    requires n + pos < t <= |s| && NoEnd(mode, s, n + pos, t - 1)
    requires CodeEnding(mode, s, t) > 0 && buf == Window(s, t, t - n)
    ensures var back := CodeEnding(mode, s, t);
            && n < t - back && NextStart(mode, s, n + 1) == t - back
            && back == Overshoot(mode, s, t - back)
            && back <= |buf| && buf[..|buf| - back] == s[n..t - back]
  {
    hide *;
    EndIsNextStart(mode, s, n, pos, t);
    EndingIsEnd(mode, s, t);
    SliceOfPadded(s, n, t, t - CodeEnding(mode, s, t));
  }

  /** The size of the buffer, and of the biggest unit the player takes. */
  const MAX_SIZE := 0x20_0000

  /** The buffer takes the unit that begins at n and the bytes read past it. */
  predicate Fits(mode: Mode, s: seq<u8>, n: nat)
    requires n < |s|
  {
    var m := NextStart(mode, s, n + 1);
    m - n + Overshoot(mode, s, m) <= 0x20_0000
  }

  /** With no code ended by t, before the end of the file, the search reads beyond t. */
  lemma ReadsBeyond(mode: Mode, s: seq<u8>, n: nat, pos: nat, t: nat)
    requires n < |s| && StartAt(mode, s, n) && HandOver(mode, s, n, pos)
    requires t <= |s| && NoEnd(mode, s, n + pos, t)
    ensures var m := NextStart(mode, s, n + 1); m + Overshoot(mode, s, m) > t
  {
    hide StartAt, NextStart, HandOver, CodeEnding, EndOf;
    var m := NextStart(mode, s, n + 1);
    if m < |s| {
      LaterStartEnds(mode, s, n, pos, m);
    }
  }

  /** Reads on to the next code or the end of the file, as long as the buffer takes it. back
      is how far the bytes read reach past the unit. */
  method FindNext(f: Stream, mode: Mode, ghost n: nat, buf0: seq<u8>, pos0: nat)
    returns (buf: seq<u8>, back: nat, fits: bool)
    requires f.Valid() && n < |f.data| && StartAt(mode, f.data, n) && HandOver(mode, f.data, n, pos0)
    requires n + pos0 == f.pos + (if f.eof then 1 else 0) && buf0 == Window(f.data, n + pos0, pos0)
    modifies f
    ensures f.Valid()
    ensures fits <==> Fits(mode, f.data, n)
    ensures var m := NextStart(mode, f.data, n + 1);
            fits ==>
              && back == Overshoot(mode, f.data, m)
              && back <= |buf| <= MAX_SIZE && buf[..|buf| - back] == f.data[n..m]
              && f.pos == m && (f.eof <==> m == |f.data|)
  {
    hide Window, StartAt, NextStart, HandOver, CodeEnding, NoEnd, EndOf, FindStartCode2, FindStartCode3,
      FindAmlStartCode;
    ghost var s, t := f.data, n + pos0;
    var found := false;
    var pos := pos0;
    buf, back, fits := buf0, 0, true;
    NoEndYet(mode, s, t);
    EnoughRead(mode, s, n, pos0);
    while !found
      invariant f.Valid() && t == n + pos == f.pos + (if f.eof then 1 else 0) && t <= |s| + 1
      invariant |buf| == pos && pos0 <= pos <= MAX_SIZE && buf == Window(s, t, pos)
      invariant !found ==> NoEnd(mode, s, n + pos0, t)
      invariant found ==> t > n + pos0 && NoEnd(mode, s, n + pos0, t - 1) && CodeEnding(mode, s, t) > 0 && !f.eof
      invariant found ==> back == CodeEnding(mode, s, t)
      decreases !found, |s| + 1 - t
    {
      if f.eof {
        EndOfFile(mode, s, n, pos0, t, buf);
        return buf, 1, true;
      }
      if pos == MAX_SIZE {
        ReadsBeyond(mode, s, n, pos0, t);
        return buf, 0, false;
      }
      var c := f.FgetcDirect();
      WindowMoves(s, t, pos, c);
      buf := buf + [c];
      pos := pos + 1;
      t := t + 1;
      back := TestEnd(mode, buf, s, t);
      found := back > 0;
      if !found {
        NoEndMore(mode, s, n + pos0, t);
      } else {
        CodeInside(mode, s, t);
      }
    }
    EndOfUnit(mode, s, n, pos0, t, buf);
    f.SeekBack(back);
  }

  lemma NoEndYet(mode: Mode, s: seq<u8>, t: nat)
    ensures NoEnd(mode, s, t, t)
  {
  }

  lemma NoEndMore(mode: Mode, s: seq<u8>, lo: nat, t: nat)
    requires t > 0 && NoEnd(mode, s, lo, t - 1) && CodeEnding(mode, s, t) == 0
    ensures NoEnd(mode, s, lo, t)
  {
    hide CodeEnding;
  }

  lemma NoEndAtAll(mode: Mode, s: seq<u8>, n: nat, pos: nat, t: nat)
    requires n < |s| && StartAt(mode, s, n) && HandOver(mode, s, n, pos)
    requires t == |s| + 1 && NoEnd(mode, s, n + pos, t)
    ensures NextStart(mode, s, n + 1) == |s|
  {
    hide CodeEnding, StartAt, HandOver;
    NoEndNoStart(mode, s, n, pos);
  }

  lemma EnoughRead(mode: Mode, s: seq<u8>, n: nat, pos: nat)
    requires HandOver(mode, s, n, pos)
    ensures 3 <= pos <= 16 && (mode == AmlHeaders ==> pos == 16)
  {
  }

  lemma CodeInside(mode: Mode, s: seq<u8>, t: nat)
    requires CodeEnding(mode, s, t) > 0
    ensures t <= |s|
  {
  }

  lemma WindowTail(s: seq<u8>, t: nat, k: nat, m: nat)
    requires m <= k <= t <= |s| + 1
    ensures Window(s, t, k)[k - m..] == Window(s, t, m)
  {
  }

  lemma SliceOfPadded(s: seq<u8>, n: nat, t: nat, m: nat)
    requires n <= m <= |s| && m <= t <= |s| + 1
    ensures Window(s, t, t - n)[..m - n] == s[n..m]
  {
    var w, u := Window(s, t, t - n)[..m - n], s[n..m];
    forall k | 0 <= k < |u|
      ensures w[k] == u[k]
    {
      assert w[k] == Padded(s)[n + k];
    }
  }

  // ----- one unit, and all of them

  /** A unit with its start code; or the end of the program; or more bytes read than the
      buffer takes. */
  datatype Nalu = Unit(bytes: seq<u8>, prefix: nat) | Exits | Overruns

  /** The next unit. The length is unsigned, so that of minus one, when the rest of the file
      has no start code, is above the limit; a unit above it never gets that far. */
  method GetAnnexbNalu(f: Stream, mode: Mode) returns (r: Nalu)
    requires f.Valid() && !f.eof && (f.pos == 0 || StartAt(mode, f.data, f.pos))
    modifies f
    ensures f.Valid()
    ensures var n := NextStart(mode, f.data, old(f.pos));
            if n == |f.data| then r == Exits
            else if !Fits(mode, f.data, n) then r == Overruns
            else
              var m := NextStart(mode, f.data, n + 1);
              && r == Unit(f.data[n..m], if mode == AmlHeaders then 16 else if ShortCode(f.data, n) then 3 else 4)
              && f.pos == m && (f.eof <==> m == |f.data|)
  {
    hide StartAt, NextStart, Window, HandOver, ShortCode, Fits, Overshoot;
    var buf, pos, prefix;
    ghost var n := NextStart(mode, f.data, f.pos);
    buf, pos, prefix := FindFirst(f, mode);
    var len := -1;
    if pos != 0 {
      var back, fits;
      buf, back, fits := FindNext(f, mode, n, buf, pos);
      if !fits {
        return Overruns;
      }
      len := |buf| - back;
    } else if n < |f.data| {
      HandsOverSome(mode, f.data, n);
    }
    if len < 0 || len > MAX_SIZE {
      return Exits;
    }
    r := Unit(buf[..len], prefix);
  }

  lemma HandsOverSome(mode: Mode, s: seq<u8>, n: nat)
    ensures !HandOver(mode, s, n, 0)
  {
  }

  /** All units from a start on. */
  function UnitsFrom(mode: Mode, s: seq<u8>, i: nat): seq<seq<u8>>
    requires i <= |s|
    decreases |s| - i
  {
    if i == |s| then []
    else
      var n := NextStart(mode, s, i + 1);
      [s[i..n]] + UnitsFrom(mode, s, n)
  }

  function AllUnits(mode: Mode, s: seq<u8>): seq<seq<u8>> {
    UnitsFrom(mode, s, NextStart(mode, s, 0))
  }

  /** The units before the first that the buffer does not take. */
  function FittingFrom(mode: Mode, s: seq<u8>, i: nat): (units: seq<seq<u8>>)
    requires i <= |s|
    ensures units <= UnitsFrom(mode, s, i)
    decreases |s| - i
  {
    if i == |s| || !Fits(mode, s, i) then []
    else
      var n := NextStart(mode, s, i + 1);
      [s[i..n]] + FittingFrom(mode, s, n)
  }

  function Fitting(mode: Mode, s: seq<u8>): (units: seq<seq<u8>>)
    ensures units <= AllUnits(mode, s)
  {
    FittingFrom(mode, s, NextStart(mode, s, 0))
  }

  /** The buffer takes every unit. */
  ghost predicate AllFit(mode: Mode, s: seq<u8>, i: nat) {
    forall j :: i <= j < |s| && StartAt(mode, s, j) ==> Fits(mode, s, j)
  }

  lemma {:induction false} FittingIff(mode: Mode, s: seq<u8>, i: nat)
    requires i <= |s| && (i < |s| ==> StartAt(mode, s, i))
    ensures FittingFrom(mode, s, i) == UnitsFrom(mode, s, i) <==> AllFit(mode, s, i)
    decreases |s| - i
  {
    hide StartAt, Fits;
    if i < |s| && Fits(mode, s, i) {
      var n := NextStart(mode, s, i + 1);
      FittingIff(mode, s, n);
      SameHead([s[i..n]], FittingFrom(mode, s, n), UnitsFrom(mode, s, n));
      AllFitOne(mode, s, i);
    }
  }

  lemma SameHead(h: seq<seq<u8>>, a: seq<seq<u8>>, b: seq<seq<u8>>)
    ensures h + a == h + b <==> a == b
  {
    assert (h + a)[|h|..] == a && (h + b)[|h|..] == b;
  }

  lemma AllFitOne(mode: Mode, s: seq<u8>, i: nat)
    requires i < |s| && Fits(mode, s, i)
    ensures AllFit(mode, s, i) <==> AllFit(mode, s, NextStart(mode, s, i + 1))
  {
    hide StartAt, Fits;
  }

  /** Where the reading loop stands: these units read, the file at p. */
  predicate Reading(mode: Mode, s: seq<u8>, units: seq<seq<u8>>, p: nat, eof: bool) {
    && p <= |s|
    && (if units == [] then p == 0 && !eof
        else
          && units + UnitsFrom(mode, s, p) == AllUnits(mode, s)
          && units + FittingFrom(mode, s, p) == Fitting(mode, s)
          && (eof <==> p == |s|))
    && (eof || units == [] || StartAt(mode, s, p))
  }

  /** How the reading loop ends. */
  datatype Ending = EndReached | NoCode | OutOfRoom

  /** The reading loop of the player. It yields the units up to the first that the buffer
      does not take: all of them exactly when it takes each. */
  method SplitStream(f: Stream, mode: Mode) returns (units: seq<seq<u8>>, ending: Ending)
    requires f.Valid() && f.pos == 0 && !f.eof
    modifies f
    ensures units == Fitting(mode, f.data)
    ensures ending == NoCode <==> AllUnits(mode, f.data) == []
    ensures ending == EndReached <==> AllUnits(mode, f.data) != [] && AllFit(mode, f.data, 0)
    ensures ending == EndReached ==> units == AllUnits(mode, f.data)
  {
    hide StartAt, NextStart, AllUnits, Fitting, AllFit, Fits, ShortCode, Reading;
    units, ending := [], EndReached;
    ReadingBegins(mode, f.data);
    while !f.eof
      invariant f.Valid() && ending == EndReached
      invariant Reading(mode, f.data, units, f.pos, f.eof)
      decreases !f.eof, |f.data| - f.pos, units == []
    {
      ReadingOn(mode, f.data, units, f.pos);
      var r := GetAnnexbNalu(f, mode);
      match r
      case Exits => return units, NoCode;
      case Overruns => return units, OutOfRoom;
      case Unit(bytes, _) => units := units + [bytes];
    }
    ReadingEnds(mode, f.data, units, f.pos);
  }

  lemma ReadingBegins(mode: Mode, s: seq<u8>)
    ensures Reading(mode, s, [], 0, false)
  {
  }

  /** What one more call does: the program ends, the buffer overruns, or there is one unit
      more. */
  lemma ReadingOn(mode: Mode, s: seq<u8>, units: seq<seq<u8>>, p: nat)
    requires Reading(mode, s, units, p, false)
    ensures p == 0 || StartAt(mode, s, p)
    ensures var n := NextStart(mode, s, p);
            if n == |s| then units == Fitting(mode, s) == AllUnits(mode, s) == []
            else if !Fits(mode, s, n) then
              units == Fitting(mode, s) && AllUnits(mode, s) != [] && !AllFit(mode, s, 0)
            else
              var m := NextStart(mode, s, n + 1);
              Reading(mode, s, units + [s[n..m]], m, m == |s|) && (units == [] || n == p)
  {
    hide StartAt, NextStart, UnitsFrom, FittingFrom, Fits, AllFit;
    FirstUnit(mode, s, p);
    var n := NextStart(mode, s, p);
    Joined(units, UnitsFrom(mode, s, n));
    Joined(units, FittingFrom(mode, s, n));
    assert units + UnitsFrom(mode, s, n) == AllUnits(mode, s);
    assert units + FittingFrom(mode, s, n) == Fitting(mode, s);
    if n == |s| {
      NoUnits(mode, s);
    } else {
      OneUnit(mode, s, p, units);
    }
  }

  lemma Joined(units: seq<seq<u8>>, rest: seq<seq<u8>>)
    ensures units == [] ==> units + rest == rest
    ensures units + [] == units
  {
  }

  lemma ReadingEnds(mode: Mode, s: seq<u8>, units: seq<seq<u8>>, p: nat)
    requires Reading(mode, s, units, p, true)
    ensures units == Fitting(mode, s) == AllUnits(mode, s) != [] && AllFit(mode, s, 0)
  {
    hide StartAt, NextStart, Fits, FittingFrom, UnitsFrom;
    NoUnits(mode, s);
    Joined(units, []);
    FittingIff(mode, s, NextStart(mode, s, 0));
    NoneBefore(mode, s);
  }

  lemma NoneBefore(mode: Mode, s: seq<u8>)
    ensures AllFit(mode, s, NextStart(mode, s, 0)) ==> AllFit(mode, s, 0)
    ensures NextStart(mode, s, 0) < |s| ==> StartAt(mode, s, NextStart(mode, s, 0))
  {
    hide StartAt, Fits;
  }

  lemma NoUnits(mode: Mode, s: seq<u8>)
    ensures UnitsFrom(mode, s, |s|) == [] && FittingFrom(mode, s, |s|) == []
  {
  }

  /** From a start the next start is itself. */
  lemma FirstUnit(mode: Mode, s: seq<u8>, p: nat)
    requires p <= |s|
    ensures p < |s| && StartAt(mode, s, p) ==> NextStart(mode, s, p) == p
  {
    hide StartAt;
  }

  lemma OneUnit(mode: Mode, s: seq<u8>, p: nat, before: seq<seq<u8>>)
    requires p <= |s| && NextStart(mode, s, p) < |s|
    ensures var n := NextStart(mode, s, p);
            var m := NextStart(mode, s, n + 1);
            && before + UnitsFrom(mode, s, n) == (before + [s[n..m]]) + UnitsFrom(mode, s, m) != []
            && (m < |s| ==> StartAt(mode, s, m))
            && (Fits(mode, s, n) ==>
                  before + FittingFrom(mode, s, n) == (before + [s[n..m]]) + FittingFrom(mode, s, m))
            && (!Fits(mode, s, n) ==> FittingFrom(mode, s, n) == [] && !AllFit(mode, s, 0))
  {
    hide StartAt, NextStart, Fits;
    var n := NextStart(mode, s, p);
    var m := NextStart(mode, s, n + 1);
    Regrouped(before, s[n..m], UnitsFrom(mode, s, m));
    Regrouped(before, s[n..m], FittingFrom(mode, s, m));
  }

  lemma Regrouped(before: seq<seq<u8>>, u: seq<u8>, rest: seq<seq<u8>>)
    ensures before + ([u] + rest) == (before + [u]) + rest
  {
  }
}
