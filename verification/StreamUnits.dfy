/** What the splitter's units are worth: nothing is lost, every cut is at a start, and
    the packets of a rewritten AV1 frame survive. */
module StreamUnits {
  import opened Arithmetic
  import opened Leb128
  import opened Words
  import opened ObuRewriter
  import opened NaluSplitter

  lemma UnitsStep(mode: Mode, s: seq<u8>, i: nat)
    requires i < |s|
    ensures var n := NextStart(mode, s, i + 1);
            UnitsFrom(mode, s, i) == [s[i..n]] + UnitsFrom(mode, s, n)
  {
    hide StartAt;
  }

  lemma NextIsStart(mode: Mode, s: seq<u8>, i: nat)
    requires i < |s|
    ensures var n := NextStart(mode, s, i + 1); i < n <= |s| && (n < |s| ==> StartAt(mode, s, n))
  {
    hide StartAt;
  }

  lemma NoneBetween(mode: Mode, s: seq<u8>, i: nat, b: nat)
    requires i < b <= |s| && (b < |s| ==> StartAt(mode, s, b))
    ensures i < NextStart(mode, s, i + 1) <= b
  {
    hide StartAt;
  }

  // ----- nothing is lost, and every cut is at a start

  /** The units put together are the stream from the first start to the end. */
  lemma {:induction false} Lossless(mode: Mode, s: seq<u8>, i: nat)
    requires i <= |s|
    ensures Concat(UnitsFrom(mode, s, i)) == s[i..]
    decreases |s| - i
  {
    hide *;
    NoUnits(mode, s);
    ConcatNone();
    if i < |s| {
      UnitsStep(mode, s, i);
      NextIsStart(mode, s, i);
      ConcatOne(UnitsFrom(mode, s, i));
      var n := NextStart(mode, s, i + 1);
      Lossless(mode, s, n);
      assert s[i..] == s[i..n] + s[n..];
    }
  }

  /** Where the k-th unit begins, when the first one does at i. */
  function Offset(units: seq<seq<u8>>, i: nat, k: nat): nat
    requires k <= |units|
    decreases k
  {
    if k == 0 then i else Offset(units[1..], i + |units[0]|, k - 1)
  }

  lemma OffsetStep(u: seq<u8>, rest: seq<seq<u8>>, i: nat, k: nat)
    requires k <= |rest|
    ensures Offset([u] + rest, i, 0) == i
    ensures Offset([u] + rest, i, k + 1) == Offset(rest, i + |u|, k)
  {
    assert ([u] + rest)[1..] == rest;
  }

  lemma {:induction false} StartsAreCuts(mode: Mode, s: seq<u8>, i: nat, j: nat) returns (k: nat)
    requires i <= j < |s| && StartAt(mode, s, i) && StartAt(mode, s, j)
    ensures k < |UnitsFrom(mode, s, i)| && Offset(UnitsFrom(mode, s, i), i, k) == j
    decreases |s| - i
  {
    hide *;
    UnitsStep(mode, s, i);
    NextIsStart(mode, s, i);
    var n := NextStart(mode, s, i + 1);
    if j == i {
      k := 0;
      OffsetStep(s[i..n], UnitsFrom(mode, s, n), i, 0);
    } else {
      NoneBetween(mode, s, i, j);
      var h := StartsAreCuts(mode, s, n, j);
      k := h + 1;
      OffsetStep(s[i..n], UnitsFrom(mode, s, n), i, h);
    }
  }

  lemma {:induction false} CutsAreAtStarts(mode: Mode, s: seq<u8>, i: nat, k: nat)
    requires i < |s| && StartAt(mode, s, i) && k < |UnitsFrom(mode, s, i)|
    ensures i <= Offset(UnitsFrom(mode, s, i), i, k) < |s|
    ensures StartAt(mode, s, Offset(UnitsFrom(mode, s, i), i, k))
    decreases k
  {
    hide *;
    UnitsStep(mode, s, i);
    NextIsStart(mode, s, i);
    NoUnits(mode, s);
    var n := NextStart(mode, s, i + 1);
    OffsetStep(s[i..n], UnitsFrom(mode, s, n), i, if k == 0 then 0 else k - 1);
    if k > 0 {
      CutsAreAtStarts(mode, s, n, k - 1);
    }
  }

  /** From a start on, the positions where units begin are exactly the starts: no start
      is missed, and no unit contains a second one. */
  lemma CutsAreStarts(mode: Mode, s: seq<u8>, i: nat, j: nat)
    requires i <= j < |s| && StartAt(mode, s, i)
    ensures var units := UnitsFrom(mode, s, i);
            StartAt(mode, s, j) <==> exists k :: 0 <= k < |units| && Offset(units, i, k) == j
  {
    hide StartAt, UnitsFrom, Offset;
    var units := UnitsFrom(mode, s, i);
    if StartAt(mode, s, j) {
      var k := StartsAreCuts(mode, s, i, j);
    }
    if k :| 0 <= k < |units| && Offset(units, i, k) == j {
      CutsAreAtStarts(mode, s, i, k);
    }
  }

  // ----- rewritten AV1 frames

  function Packets(bodies: seq<seq<u8>>, field: seq<u8>, annexb: bool): (ps: seq<seq<u8>>)
    requires |field| == 4
    ensures |ps| == |bodies|
    decreases |bodies|
  {
    if bodies == [] then []
    else
      var f := FieldAfter(field, |bodies[0]|, annexb);
      [Packet(bodies[0], f, annexb)] + Packets(bodies[1..], f, annexb)
  }

  lemma {:induction false} OutputIsPackets(bodies: seq<seq<u8>>, field: seq<u8>, annexb: bool)
    requires |field| == 4
    ensures Concat(Packets(bodies, field, annexb)) == Output(bodies, field, annexb)
    decreases |bodies|
  {
    hide Packet, FieldAfter;
    if bodies != [] {
      OutputIsPackets(bodies[1..], FieldAfter(field, |bodies[0]|, annexb), annexb);
      ConcatOne(Packets(bodies, field, annexb));
    }
  }

  lemma FieldOfPacket(body: seq<u8>, f: seq<u8>)
    requires |f| == 4
    ensures |Packet(body, f, false)| >= 20 && Packet(body, f, false)[16..] == f + body
  {
  }

  /** Over the whole output outside Annex B: a packet's size field gives its unit's size
      plus the field's own four bytes exactly when that fits twenty-eight bits, whatever
      the units before it were. */
  lemma {:induction false} EveryField(bodies: seq<seq<u8>>, field: seq<u8>, k: nat)
    requires |field| == 4 && Small(bodies) && k < |bodies|
    ensures var p := Packets(bodies, field, false)[k];
            && |p| >= 20
            && (Decode(p[16..]) == Value(|bodies[k]| + 4, 4) <==> |bodies[k]| + 4 < 0x1000_0000)
    decreases k
  {
    hide *;
    var f := FieldAfter(field, |bodies[0]|, false);
    SmallParts(bodies);
    PacketsParts(bodies, field, false);
    if k == 0 {
      FieldOfPacket(bodies[0], f);
      FieldIff(field, |bodies[0]|, bodies[0]);
    } else {
      EveryField(bodies[1..], f, k - 1);
    }
  }

  function Flatten(groups: seq<seq<seq<u8>>>): seq<seq<u8>>
    decreases |groups|
  {
    if groups == [] then [] else groups[0] + Flatten(groups[1..])
  }

  /** The units up to a later start. */
  lemma {:induction false} UnitsUpTo(mode: Mode, s: seq<u8>, i: nat, b: nat) returns (g: seq<seq<u8>>)
    requires i <= b <= |s| && (b < |s| ==> StartAt(mode, s, b))
    ensures UnitsFrom(mode, s, i) == g + UnitsFrom(mode, s, b) && Concat(g) == s[i..b]
    decreases b - i
  {
    hide *;
    if i == b {
      g := [];
      ConcatNone();
      assert [] + UnitsFrom(mode, s, b) == UnitsFrom(mode, s, b);
    } else {
      NoneBetween(mode, s, i, b);
      UnitsStep(mode, s, i);
      var n := NextStart(mode, s, i + 1);
      var h := UnitsUpTo(mode, s, n, b);
      g := [s[i..n]] + h;
      JoinUnits(s, i, n, b, h, UnitsFrom(mode, s, b));
    }
  }

  lemma JoinUnits(s: seq<u8>, i: nat, n: nat, b: nat, h: seq<seq<u8>>, rest: seq<seq<u8>>)
    requires i <= n <= b <= |s| && Concat(h) == s[n..b]
    ensures Concat([s[i..n]] + h) == s[i..b]
    ensures [s[i..n]] + (h + rest) == [s[i..n]] + h + rest
  {
    var g := [s[i..n]] + h;
    ConcatOne(g);
    hide Concat;
    assert g[1..] == h;
    assert s[i..b] == s[i..n] + s[n..b];
  }

  /** Whatever the payloads contain, the splitter cuts before every packet: the units of a
      rewritten frame fall into consecutive groups, one for each packet, that put together
      are the packet. */
  lemma {:induction false} PacketsSurvive(done: seq<u8>, bodies: seq<seq<u8>>, field: seq<u8>, annexb: bool)
    returns (groups: seq<seq<seq<u8>>>)
    requires |field| == 4 && Small(bodies)
    ensures Flatten(groups) == UnitsFrom(AmlHeaders, done + Output(bodies, field, annexb), |done|)
    ensures |groups| == |bodies|
    ensures forall k :: 0 <= k < |bodies| ==> Concat(groups[k]) == Packets(bodies, field, annexb)[k]
    decreases |bodies|
  {
    hide *;
    OutputParts(bodies, field, annexb);
    if bodies == [] {
      groups := [];
      NothingToSplit(done);
      assert done + [] == done;
    } else {
      var f := FieldAfter(field, |bodies[0]|, annexb);
      var p := Packet(bodies[0], f, annexb);
      var s := done + Output(bodies, field, annexb);
      SmallParts(bodies);
      assert s == (done + p) + Output(bodies[1..], f, annexb);
      var rest := PacketsSurvive(done + p, bodies[1..], f, annexb);
      PacketStarts(done + p, bodies[1..], f, annexb);
      var g := UnitsUpTo(AmlHeaders, s, |done|, |done + p|);
      assert s[|done|..|done + p|] == p;
      groups := [g] + rest;
      FlattenOne(g, rest);
      PacketsParts(bodies, field, annexb);
    }
  }

  lemma NothingToSplit(done: seq<u8>)
    ensures UnitsFrom(AmlHeaders, done, |done|) == []
    ensures Flatten([]) == []
  {
  }

  lemma PacketsParts(bodies: seq<seq<u8>>, field: seq<u8>, annexb: bool)
    requires |field| == 4 && bodies != []
    ensures var f := FieldAfter(field, |bodies[0]|, annexb);
            Packets(bodies, field, annexb) == [Packet(bodies[0], f, annexb)] + Packets(bodies[1..], f, annexb)
  {
    hide Packet, FieldAfter;
  }

  lemma FlattenOne(g: seq<seq<u8>>, rest: seq<seq<seq<u8>>>)
    ensures Flatten([g] + rest) == g + Flatten(rest)
  {
    assert ([g] + rest)[1..] == rest;
  }

  lemma PacketStarts(done: seq<u8>, bodies: seq<seq<u8>>, field: seq<u8>, annexb: bool)
    requires |field| == 4 && Small(bodies)
    ensures |done| < |done + Output(bodies, field, annexb)| ==>
              StartAt(AmlHeaders, done + Output(bodies, field, annexb), |done|)
  {
    OutputParts(bodies, field, annexb);
    if bodies != [] {
      var f := FieldAfter(field, |bodies[0]|, annexb);
      SmallParts(bodies);
      hide Packet, FieldAfter, Output, FindAmlStartCode;
      PacketRecognised(bodies[0], f, annexb, Output(bodies[1..], f, annexb));
      assert (done + Output(bodies, field, annexb))[|done|..] == Output(bodies, field, annexb);
    }
  }

  /** A frame through both programs: rewriting succeeds or fails, but the units the
      splitter then finds group into packets whose bodies are consecutive pieces of the
      frame, all of it on success. */
  lemma RewriteThenSplit(data: seq<u8>, annexb: bool) returns (groups: seq<seq<seq<u8>>>)
    requires |data| + 8 < W32
    ensures var r := Rewrite(data, annexb, false);
            && Flatten(groups) == UnitsFrom(AmlHeaders, Output(r.bodies, FIRST_FIELD, annexb), 0)
            && |groups| == |r.bodies|
            && (forall k :: 0 <= k < |groups| ==> Concat(groups[k]) == Packets(r.bodies, FIRST_FIELD, annexb)[k])
            && Concat(r.bodies) <= data && (r.status == 0 ==> Concat(r.bodies) == data)
  {
    hide Rewrite, Output, UnitsFrom, Packets, Concat;
    var r := Rewrite(data, annexb, false);
    BodiesArePrefix(data, annexb, false);
    BodiesFit(r.bodies);
    assert Small(r.bodies);
    if r.status == 0 {
      SuccessIsComplete(data, annexb, false);
    }
    groups := PacketsSurvive([], r.bodies, FIRST_FIELD, annexb);
    assert [] + Output(r.bodies, FIRST_FIELD, annexb) == Output(r.bodies, FIRST_FIELD, annexb);
  }
}
