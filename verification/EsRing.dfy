/** The elementary-stream reference manager: access units lie one after another in a
    circular buffer, and a raw read pointer decides which of them are used up. */
module EsRing {
  import Arithmetic

  const AML_ES_REF_MAX := 1024
  const EBADSLT := 57
  /** The cursor before the first access unit: all ones in an unsigned long. */
  const NO_CURSOR: int := 0xFFFF_FFFF_FFFF_FFFF

  /** A queued access unit and the ring it was written to. */
  datatype Au = Au(dbuf: nat, bufStart: nat, bufSize: nat, addr: nat, size: nat, timestamp: nat)

  predicate IsTurnAround(e: Au) {
    e.addr + e.size >= e.bufStart + e.bufSize
  }

  function RemainPos(e: Au): int {
    if IsTurnAround(e) then e.bufStart + (e.size - (e.bufStart + e.bufSize - e.addr))
    else e.addr + e.size
  }

  /** The test the dequeue loop applies to the oldest unit, with the cursor as it was
      when the loop began. */
  predicate Consumed(e: Au, cursor: int, rp: int) {
    if rp >= cursor then
      !IsTurnAround(e) && rp >= RemainPos(e)
    else
      (!IsTurnAround(e) && e.addr >= cursor) || rp >= RemainPos(e)
  }

  /** How many units one dequeue pops. */
  function Popped(aus: seq<Au>, cursor: int, rp: int): (k: nat)
    ensures k <= |aus|
  {
    if aus == [] || !Consumed(aus[0], cursor, rp) then 0 else 1 + Popped(aus[1..], cursor, rp)
  }

  // ----- absolute stream positions

  /** The address of absolute position p in a ring of n bytes at address s. */
  function Phys(s: nat, n: nat, p: nat): nat
    requires n > 0
  {
    s + p % n
  }

  function Total(aus: seq<Au>): nat {
    if aus == [] then 0 else aus[0].size + Total(aus[1..])
  }

  /** The units occupy the ring contiguously from absolute position a on. */
  predicate Laid(aus: seq<Au>, s: nat, n: nat, a: nat)
    requires n > 0
    decreases |aus|
  {
    aus == [] || (
      && aus[0].bufStart == s
      && aus[0].bufSize == n
      && aus[0].addr == Phys(s, n, a)
      && Laid(aus[1..], s, n, a + aus[0].size))
  }

  /** Two positions less than a lap apart differ by at most one wrap. */
  lemma Wrap(n: nat, c: nat, p: nat)
    requires n > 0 && c <= p < c + n
    ensures p % n == if c % n + (p - c) < n then c % n + (p - c) else c % n + (p - c) - n
  {
    var d := c % n + (p - c);
    assert p == n * (c / n) + d;
    if d < n {
      Arithmetic.Remainder(p, n, c / n, d);
    } else {
      assert p == n * (c / n + 1) + (d - n);
      Arithmetic.Remainder(p, n, c / n + 1, d - n);
    }
  }

  /** The physical test on one unit is exact: it starts at a, the cursor is at c, the
      read position is r, and all three lie within one lap. */
  lemma ConsumedExact(e: Au, s: nat, n: nat, c: nat, a: nat, r: nat)
    requires n > 0 && e.bufStart == s && e.bufSize == n && e.addr == Phys(s, n, a)
    requires c <= a <= r < c + n && a + e.size < c + n
    ensures Consumed(e, Phys(s, n, c), Phys(s, n, r)) <==> a + e.size <= r
    ensures RemainPos(e) == Phys(s, n, a + e.size)
  {
    Wrap(n, c, a);
    Wrap(n, c, r);
    Wrap(n, c, a + e.size);
  }

  /** One dequeue pops exactly the units that end at or before the read position,
      although the loop goes on comparing with the cursor it started from. */
  lemma {:induction false} PopFrom(aus: seq<Au>, s: nat, n: nat, c: nat, a: nat, r: nat, j: nat)
    requires n > 0 && Laid(aus, s, n, a) && j <= |aus|
    requires c <= a <= r <= a + Total(aus) < c + n
    ensures a + Total(aus[..j]) <= r <==> j <= Popped(aus, Phys(s, n, c), Phys(s, n, r))
    decreases |aus|
  {
    hide Phys, Consumed, RemainPos, IsTurnAround;
    if aus != [] && j != 0 {
      var e, rest := aus[0], aus[1..];
      ConsumedExact(e, s, n, c, a, r);
      assert aus[..j][1..] == rest[..j - 1];
      if a + e.size <= r {
        PopFrom(rest, s, n, c, a + e.size, r, j - 1);
      }
    }
  }

  /** Exactness of consumption. */
  lemma PopExact(aus: seq<Au>, s: nat, n: nat, c: nat, r: nat)
    requires n > 0 && Laid(aus, s, n, c)
    requires Total(aus) < n && c <= r <= c + Total(aus)
    ensures var k := Popped(aus, Phys(s, n, c), Phys(s, n, r));
            forall j :: 0 <= j <= |aus| ==> (c + Total(aus[..j]) <= r <==> j <= k)
  {
    forall j | 0 <= j <= |aus|
      ensures c + Total(aus[..j]) <= r <==> j <= Popped(aus, Phys(s, n, c), Phys(s, n, r))
    {
      PopFrom(aus, s, n, c, c, r, j);
    }
  }

  lemma {:induction false} TotalSplit(aus: seq<Au>, k: nat)
    requires k <= |aus|
    ensures Total(aus) == Total(aus[..k]) + Total(aus[k..])
  {
    if k == 0 {
      assert aus[0..] == aus;
    } else {
      assert aus[..k][1..] == aus[1..][..k - 1];
      assert aus[k..] == aus[1..][k - 1..];
      TotalSplit(aus[1..], k - 1);
    }
  }

  /** What is left after popping k units is laid out from the end of the last of them,
      and that end is where the cursor is put. */
  lemma {:induction false} LaidDrop(aus: seq<Au>, s: nat, n: nat, a: nat, k: nat)
    requires n > 0 && Laid(aus, s, n, a) && k <= |aus| && Total(aus) < n
    ensures Laid(aus[k..], s, n, a + Total(aus[..k]))
    ensures k > 0 ==> RemainPos(aus[k - 1]) == Phys(s, n, a + Total(aus[..k]))
    decreases |aus|
  {
    if k == 0 {
      assert aus[0..] == aus;
    } else {
      var e := aus[0];
      assert aus[..k][1..] == aus[1..][..k - 1];
      assert aus[k..] == aus[1..][k - 1..];
      LaidDrop(aus[1..], s, n, a + e.size, k - 1);
      if k == 1 {
        assert Total(aus[..1]) == e.size;
        ConsumedExact(e, s, n, a, a, a);
      }
    }
  }

  lemma {:induction false} LaidAppend(aus: seq<Au>, s: nat, n: nat, a: nat, e: Au)
    requires n > 0 && Laid(aus, s, n, a)
    requires e.bufStart == s && e.bufSize == n && e.addr == Phys(s, n, a + Total(aus))
    ensures Laid(aus + [e], s, n, a)
    ensures Total(aus + [e]) == Total(aus) + e.size
    decreases |aus|
  {
    if aus != [] {
      assert (aus + [e])[1..] == aus[1..] + [e];
      LaidAppend(aus[1..], s, n, a + aus[0].size, e);
    }
  }

  /** Handing over a read pointer equal to the write pointer empties the queue, unless
      the queued units fill the whole ring: then the two pointers cannot be told from
      an untouched ring and something stays behind. */
  lemma DrainIff(aus: seq<Au>, s: nat, n: nat, c: nat)
    requires n > 0 && Laid(aus, s, n, c) && Total(aus) <= n
    ensures Popped(aus, Phys(s, n, c), Phys(s, n, c + Total(aus))) == |aus| <==> Total(aus) < n
  {
    hide *;
    if Total(aus) < n {
      PopExact(aus, s, n, c, c + Total(aus));
      assert aus[..|aus|] == aus;
    } else {
      OneLap(s, n, c);
      FullRingStuck(aus, s, n, c);
    }
  }

  lemma OneLap(s: nat, n: nat, c: nat)
    requires n > 0
    ensures Phys(s, n, c + n) == Phys(s, n, c)
  {
    assert c + n == n * (c / n + 1) + c % n;
    Arithmetic.Remainder(c + n, n, c / n + 1, c % n);
  }

  lemma {:induction false} FullRingStuck(aus: seq<Au>, s: nat, n: nat, c: nat)
    requires n > 0 && Laid(aus, s, n, c) && Total(aus) > 0
    ensures Popped(aus, Phys(s, n, c), Phys(s, n, c)) < |aus|
    decreases |aus|
  {
    if aus[0].size == 0 {
      FullRingStuck(aus[1..], s, n, c);
    }
  }

  // ----- runs

  /** What the hardware side does: write one more unit, or report a read position. */
  datatype Op = Enqueue(dbuf: nat, size: nat, timestamp: nat) | Dequeue(r: nat)

  /** The queue and cursor as the driver holds them, with the absolute positions they
      stand for: everything written, the end of the last popped unit, and the last
      reported read position. */
  datatype Ring = Ring(aus: seq<Au>, cursor: int, written: seq<Au>, start: nat, read: nat)

  function WritePos(g: Ring): nat {
    g.start + Total(g.written)
  }

  function CursorPos(g: Ring): int {
    WritePos(g) - Total(g.aus)
  }

  /** Units are not empty, what is queued stays below the ring size, and the read
      position moves forward without passing the write position. */
  predicate Legal(g: Ring, op: Op, n: nat) {
    match op
    case Enqueue(_, size, _) => 0 < size && Total(g.aus) + size < n
    case Dequeue(r) => g.read <= r <= WritePos(g)
  }

  /** A unit that finds no free element is refused and not written; the writer comes back
      with it later. */
  function Apply(g: Ring, op: Op, s: nat, n: nat): Ring
    requires n > 0
  {
    match op
    case Enqueue(dbuf, size, timestamp) =>
      if |g.aus| == AML_ES_REF_MAX then g
      else
        var e := Au(dbuf, s, n, Phys(s, n, WritePos(g)), size, timestamp);
        g.(aus := g.aus + [e], written := g.written + [e],
           cursor := if g.cursor == NO_CURSOR then e.addr else g.cursor)
    case Dequeue(r) =>
      var k := Popped(g.aus, g.cursor, Phys(s, n, r));
      g.(aus := g.aus[k..], read := r,
         cursor := if k == 0 then g.cursor else RemainPos(g.aus[k - 1]))
  }

  predicate LegalRun(g: Ring, ops: seq<Op>, s: nat, n: nat)
    requires n > 0
    decreases |ops|
  {
    ops == [] || (Legal(g, ops[0], n) && LegalRun(Apply(g, ops[0], s, n), ops[1..], s, n))
  }

  function Run(g: Ring, ops: seq<Op>, s: nat, n: nat): Ring
    requires n > 0
    decreases |ops|
  {
    if ops == [] then g else Run(Apply(g, ops[0], s, n), ops[1..], s, n)
  }

  predicate Tail(aus: seq<Au>, written: seq<Au>) {
    |aus| <= |written| && aus == written[|written| - |aus|..]
  }

  predicate Positive(aus: seq<Au>) {
    forall i :: 0 <= i < |aus| ==> aus[i].size > 0
  }

  /** Of units laid out from c on, none ends at or before r. */
  ghost predicate Unread(aus: seq<Au>, c: int, r: int) {
    forall j :: 0 <= j <= |aus| ==> (c + Total(aus[..j]) <= r <==> j == 0)
  }

  /** The queue is the tail of everything written from the first unit that ends after
      the read position; the cursor is the address of that unit's start. */
  ghost predicate Exact(g: Ring, s: nat, n: nat)
    requires n > 0
  {
    && |g.aus| <= AML_ES_REF_MAX
    && Tail(g.aus, g.written)
    && Total(g.aus) < n
    && g.start <= CursorPos(g) <= g.read <= WritePos(g)
    && Laid(g.aus, s, n, CursorPos(g))
    && (g.cursor == NO_CURSOR ==> g.written == [])
    && (g.cursor != NO_CURSOR ==> g.cursor == Phys(s, n, CursorPos(g)))
    && Positive(g.aus)
    && Unread(g.aus, CursorPos(g), g.read)
  }

  lemma EnqueueExact(g: Ring, op: Op, s: nat, n: nat)
    requires n > 0 && s + n <= NO_CURSOR && Exact(g, s, n) && op.Enqueue? && Legal(g, op, n)
    ensures Exact(Apply(g, op, s, n), s, n)
  {
    if |g.aus| < AML_ES_REF_MAX {
      var e := Au(op.dbuf, s, n, Phys(s, n, WritePos(g)), op.size, op.timestamp);
      AppendExact(g, e, s, n);
    }
    hide Exact, Phys;
  }

  /** One more unit at the write position. */
  function Appended(g: Ring, e: Au): Ring {
    g.(aus := g.aus + [e], written := g.written + [e],
       cursor := if g.cursor == NO_CURSOR then e.addr else g.cursor)
  }

  lemma AppendPlaces(g: Ring, e: Au)
    ensures CursorPos(Appended(g, e)) == CursorPos(g)
    ensures WritePos(Appended(g, e)) == WritePos(g) + e.size
    ensures Total(g.aus + [e]) == Total(g.aus) + e.size && WritePos(g) == CursorPos(g) + Total(g.aus)
  {
    hide Total;
    TotalAppend(g.written, e);
    TotalAppend(g.aus, e);
  }

  lemma AppendCursor(g: Ring, e: Au, s: nat, n: nat)
    requires n > 0 && s + n <= NO_CURSOR && Exact(g, s, n) && e.addr == Phys(s, n, WritePos(g))
    ensures Appended(g, e).cursor == Phys(s, n, CursorPos(g)) && Appended(g, e).cursor != NO_CURSOR
  {
    hide Total, Laid, Phys, Tail, Positive, Unread;
    PhysBound(s, n, WritePos(g));
    PhysBound(s, n, CursorPos(g));
    if g.cursor == NO_CURSOR {
      NothingWritten(g.aus, g.written);
    }
  }

  lemma AppendExact(g: Ring, e: Au, s: nat, n: nat)
    requires n > 0 && s + n <= NO_CURSOR && Exact(g, s, n) && |g.aus| < AML_ES_REF_MAX
    requires e.bufStart == s && e.bufSize == n && e.addr == Phys(s, n, WritePos(g))
    requires 0 < e.size && Total(g.aus) + e.size < n
    ensures Exact(Appended(g, e), s, n)
  {
    AppendCursor(g, e, s, n);
    hide Total, Laid, Phys, Tail, Positive, Unread, CursorPos, WritePos;
    AppendPlaces(g, e);
    LaidAppend(g.aus, s, n, CursorPos(g), e);
    TailAppend(g.aus, g.written, e);
    StillUnread(g.aus, e, CursorPos(g), g.read);
  }

  lemma NothingWritten(aus: seq<Au>, written: seq<Au>)
    requires Tail(aus, written) && written == []
    ensures Total(aus) == 0 && Total(written) == 0
  {
  }

  lemma TailAppend(aus: seq<Au>, written: seq<Au>, e: Au)
    requires Tail(aus, written) && Positive(aus) && e.size > 0
    ensures Tail(aus + [e], written + [e]) && Positive(aus + [e])
  {
  }

  lemma StillUnread(aus: seq<Au>, e: Au, c: int, r: nat)
    requires Unread(aus, c, r) && e.size > 0 && c <= r <= c + Total(aus)
    ensures Unread(aus + [e], c, r)
  {
    hide Total;
    TotalAppend(aus, e);
    forall j | 0 <= j <= |aus + [e]|
      ensures c + Total((aus + [e])[..j]) <= r <==> j == 0
    {
      if j <= |aus| {
        assert (aus + [e])[..j] == aus[..j];
      } else {
        assert (aus + [e])[..j] == aus + [e];
      }
    }
  }

  lemma {:induction false} TotalAppend(aus: seq<Au>, e: Au)
    ensures Total(aus + [e]) == Total(aus) + e.size
  {
    if aus != [] {
      assert (aus + [e])[1..] == aus[1..] + [e];
      TotalAppend(aus[1..], e);
    }
  }

  lemma DequeueExact(g: Ring, op: Op, s: nat, n: nat)
    requires n > 0 && s + n <= NO_CURSOR && Exact(g, s, n) && op.Dequeue? && Legal(g, op, n)
    ensures Exact(Apply(g, op, s, n), s, n)
  {
    hide Popped, Laid, Phys, Total, RemainPos, Tail, Positive, Unread;
    var c := CursorPos(g);
    var k := Popped(g.aus, g.cursor, Phys(s, n, op.r));
    if g.aus == [] {
      NothingQueued(g.aus, g.cursor, Phys(s, n, op.r));
      UnreadNone(g.aus, c, op.r);
    } else {
      SomethingWritten(g.aus, g.written);
      PopExact(g.aus, s, n, c, op.r);
      LaidDrop(g.aus, s, n, c, k);
      TotalSplit(g.aus, k);
      PhysBound(s, n, c + Total(g.aus[..k]));
      LeftAfterRead(g.aus, c, op.r, k);
      TailDrop(g.aus, g.written, k);
    }
  }

  lemma SomethingWritten(aus: seq<Au>, written: seq<Au>)
    requires Tail(aus, written) && aus != []
    ensures written != []
  {
  }

  lemma TailDrop(aus: seq<Au>, written: seq<Au>, k: nat)
    requires Tail(aus, written) && Positive(aus) && k <= |aus|
    ensures Tail(aus[k..], written) && Positive(aus[k..])
    ensures k == 0 ==> aus[k..] == aus && Total(aus[..k]) == 0
  {
  }

  lemma PhysBound(s: nat, n: nat, p: nat)
    requires n > 0
    ensures s <= Phys(s, n, p) < s + n
  {
  }

  lemma NothingQueued(aus: seq<Au>, cursor: int, rp: int)
    requires aus == []
    ensures Popped(aus, cursor, rp) == 0 && aus[0..] == aus && Total(aus) == 0
  {
  }

  lemma UnreadNone(aus: seq<Au>, c: int, r: int)
    requires aus == [] && c <= r
    ensures Unread(aus, c, r)
  {
    assert aus[..0] == [];
  }

  lemma LeftAfterRead(aus: seq<Au>, c: nat, r: nat, k: nat)
    requires k <= |aus|
    requires forall j :: 0 <= j <= |aus| ==> (c + Total(aus[..j]) <= r <==> j <= k)
    ensures c + Total(aus[..k]) <= r && Unread(aus[k..], c + Total(aus[..k]), r)
  {
    hide Total;
    forall j | 0 <= j <= |aus[k..]|
      ensures c + Total(aus[..k]) + Total(aus[k..][..j]) <= r <==> j == 0
    {
      var p := aus[..k + j];
      TotalSplit(p, k);
      assert p[..k] == aus[..k];
      assert p[k..] == aus[k..][..j];
    }
  }

  /** Over every legal run from an empty manager, the driver's queue holds exactly the
      units not yet wholly read. */
  lemma {:induction false} RunExact(g: Ring, ops: seq<Op>, s: nat, n: nat)
    requires n > 0 && s + n <= NO_CURSOR && Exact(g, s, n) && LegalRun(g, ops, s, n)
    ensures Exact(Run(g, ops, s, n), s, n)
    decreases |ops|
  {
    if ops != [] {
      if ops[0].Enqueue? {
        EnqueueExact(g, ops[0], s, n);
      } else {
        DequeueExact(g, ops[0], s, n);
      }
      RunExact(Apply(g, ops[0], s, n), ops[1..], s, n);
    }
  }

  /** From the empty manager, wherever the stream starts: what is queued is the end of what
      was written, from the first unit that is not wholly read. */
  lemma RunFromEmpty(start: nat, ops: seq<Op>, s: nat, n: nat)
    requires n > 0 && s + n <= NO_CURSOR
    requires LegalRun(Ring([], NO_CURSOR, [], start, start), ops, s, n)
    ensures Exact(Run(Ring([], NO_CURSOR, [], start, start), ops, s, n), s, n)
  {
    hide *;
    EmptyExact(s, n, start);
    RunExact(Ring([], NO_CURSOR, [], start, start), ops, s, n);
  }

  lemma EmptyExact(s: nat, n: nat, start: nat)
    requires n > 0
    ensures Exact(Ring([], NO_CURSOR, [], start, start), s, n)
  {
  }

  // ----- the manager itself

  /** The units whose pool indices are listed in a FIFO. */
  function Pick(pool: seq<Au>, q: seq<nat>): (aus: seq<Au>)
    ensures |aus| == |q|
  {
    if q == [] then []
    else [if q[0] < |pool| then pool[q[0]] else Au(0, 0, 0, 0, 0, 0)] + Pick(pool, q[1..])
  }

  lemma {:induction false} PickAppend(pool: seq<Au>, q: seq<nat>, e: nat)
    requires e < |pool|
    ensures Pick(pool, q + [e]) == Pick(pool, q) + [pool[e]]
    decreases |q|
  {
    if q != [] {
      assert (q + [e])[1..] == q[1..] + [e];
      PickAppend(pool, q[1..], e);
    }
  }

  /** Refilling a pool element that is not listed leaves the listed units alone. */
  lemma {:induction false} PickElsewhere(pool: seq<Au>, q: seq<nat>, e: nat, x: Au)
    requires e < |pool| && e !in q
    ensures Pick(pool[e := x], q) == Pick(pool, q)
    decreases |q|
  {
    if q != [] {
      PickElsewhere(pool, q[1..], e, x);
    }
  }

  /** A free element refilled and listed adds its unit. */
  lemma Refilled(pool: seq<Au>, q: seq<nat>, e: nat, x: Au)
    requires e < |pool| && e !in q
    ensures Pick(pool[e := x], q + [e]) == Pick(pool, q) + [x]
  {
    hide Pick;
    PickElsewhere(pool, q, e, x);
    PickAppend(pool[e := x], q, e);
  }

  /** How many references on a dma-buf the listed units hold. */
  function Bufs(aus: seq<Au>): multiset<nat> {
    if aus == [] then multiset{} else multiset{aus[0].dbuf} + Bufs(aus[1..])
  }

  lemma {:induction false} BufsAppend(aus: seq<Au>, e: Au)
    ensures Bufs(aus + [e]) == Bufs(aus) + multiset{e.dbuf}
    decreases |aus|
  {
    if aus != [] {
      assert (aus + [e])[1..] == aus[1..] + [e];
      BufsAppend(aus[1..], e);
    }
  }

  /** A kernel FIFO: a put on a full one is dropped. */
  function FifoPut(q: seq<nat>, x: nat): (r: seq<nat>)
    ensures |q| <= 1024 ==> |r| <= 1024
  {
    if |q| < AML_ES_REF_MAX then q + [x] else q
  }

  /** Two FIFOs share out the pool, element by element. */
  ghost predicate Partition(a: seq<nat>, b: seq<nat>) {
    && |a| + |b| == AML_ES_REF_MAX
    && (forall i :: 0 <= i < |a| ==> a[i] < AML_ES_REF_MAX)
    && (forall i :: 0 <= i < |b| ==> b[i] < AML_ES_REF_MAX)
    && (forall i, j :: 0 <= i < j < |a| ==> a[i] != a[j])
    && (forall i, j :: 0 <= i < j < |b| ==> b[i] != b[j])
    && (forall i, j :: 0 <= i < |a| && 0 <= j < |b| ==> a[i] != b[j])
  }

  /** Moving the head of one FIFO to the tail of the other keeps the partition, and the
      receiving FIFO is never full. */
  lemma MoveHead(a: seq<nat>, b: seq<nat>)
    requires a != [] && Partition(a, b)
    ensures Partition(a[1..], b + [a[0]]) && Partition(b + [a[0]], a[1..])
    ensures FifoPut(b, a[0]) == b + [a[0]]
    ensures a[0] < AML_ES_REF_MAX && a[0] !in a[1..] && a[0] !in b
  {
  }

  lemma HeadInPool(a: seq<nat>, b: seq<nat>)
    requires Partition(a, b)
    ensures b != [] ==> b[0] < AML_ES_REF_MAX
    ensures b == [] ==> |a| == AML_ES_REF_MAX
  {
  }

  lemma FreeLeft(a: seq<nat>, b: seq<nat>)
    requires Partition(a, b)
    ensures a == [] <==> |b| == AML_ES_REF_MAX
  {
  }

  /** k elements have gone from the head of one FIFO to the tail of the other. */
  predicate Moved(a0: seq<nat>, b0: seq<nat>, a: seq<nat>, b: seq<nat>, k: nat) {
    k <= |b0| && b == b0[k..] && a == a0 + b0[..k]
  }

  lemma MovedOne(a0: seq<nat>, b0: seq<nat>, a: seq<nat>, b: seq<nat>, k: nat)
    requires Moved(a0, b0, a, b, k) && b != []
    ensures Moved(a0, b0, a + [b[0]], b[1..], k + 1)
  {
  }

  lemma MovedNone(a: seq<nat>, b: seq<nat>)
    ensures Moved(a, b, a, b, 0)
  {
  }

  lemma MovedEnds(a0: seq<nat>, b0: seq<nat>, a: seq<nat>, b: seq<nat>, k: nat)
    requires Moved(a0, b0, a, b, k)
    ensures k <= |b0| && b == b0[k..] && a == a0 + b0[..k]
    ensures b == [] ==> a == a0 + b0
  {
    assert b0[..|b0|] == b0;
  }

  /** The running state of a dequeue after k pops. */
  ghost predicate Progress(was: seq<Au>, now: seq<Au>, cursor: int, rp: int, cursorWp: int,
                           puts0: multiset<nat>, puts: multiset<nat>, k: nat)
  {
    && k <= |was|
    && now == was[k..]
    && Popped(was, cursor, rp) == k + Popped(now, cursor, rp)
    && cursorWp == (if k == 0 then cursor else RemainPos(was[k - 1]))
    && puts == puts0 + Bufs(was[..k])
  }

  lemma ProgressBegins(was: seq<Au>, cursor: int, rp: int, puts: multiset<nat>)
    ensures Progress(was, was, cursor, rp, cursor, puts, puts, 0)
  {
    assert was[0..] == was;
  }

  lemma ProgressEnds(was: seq<Au>, now: seq<Au>, cursor: int, rp: int, cursorWp: int,
                     puts0: multiset<nat>, puts: multiset<nat>, k: nat)
    requires Progress(was, now, cursor, rp, cursorWp, puts0, puts, k)
    requires now == [] || !Consumed(now[0], cursor, rp)
    ensures k == Popped(was, cursor, rp) && now == was[k..]
    ensures cursorWp == if k == 0 then cursor else RemainPos(was[k - 1])
    ensures puts == puts0 + Bufs(was[..k])
  {
  }

  lemma ProgressOne(was: seq<Au>, now: seq<Au>, cursor: int, rp: int, cursorWp: int,
                    puts0: multiset<nat>, puts: multiset<nat>, k: nat)
    requires Progress(was, now, cursor, rp, cursorWp, puts0, puts, k)
    requires now != [] && Consumed(now[0], cursor, rp)
    ensures Progress(was, now[1..], cursor, rp, RemainPos(now[0]), puts0, puts + multiset{now[0].dbuf}, k + 1)
  {
    hide Consumed, Bufs;
    assert was[..k + 1] == was[..k] + [was[k]];
    BufsAppend(was[..k], was[k]);
    MsAssoc(puts0, Bufs(was[..k]), multiset{was[k].dbuf});
    assert was[k..][1..] == was[k + 1..];
  }

  lemma MsAssoc(a: multiset<nat>, b: multiset<nat>, c: multiset<nat>)
    ensures (a + b) + c == a + (b + c)
  {
  }

  /** One reference taken for one more queued unit. */
  lemma StillBalanced(gets: multiset<nat>, puts: multiset<nat>, aus: seq<Au>, x: Au)
    requires gets == puts + Bufs(aus)
    ensures gets + multiset{x.dbuf} == puts + Bufs(aus + [x])
  {
    hide Bufs;
    BufsAppend(aus, x);
    MsAssoc(puts, Bufs(aus), multiset{x.dbuf});
  }

  lemma SwapParts(a: seq<nat>, b: seq<nat>)
    requires Partition(a, b)
    ensures Partition(b, a)
  {
  }

  /** Every pool element is in exactly one of the two FIFOs. */
  lemma PartitionCovers(a: seq<nat>, b: seq<nat>, e: nat)
    requires Partition(a, b) && e < AML_ES_REF_MAX
    ensures e in a <==> e !in b
  {
    if e !in a && e !in b {
      var q := a + b + [e];
      assert forall i :: 0 <= i < |b| ==> q[|a| + i] == b[i];
      Pigeonhole(q, AML_ES_REF_MAX);
      assert false;
    }
  }

  /** Distinct numbers below n: at most n of them. */
  lemma {:induction false} Pigeonhole(q: seq<nat>, n: nat)
    requires forall i :: 0 <= i < |q| ==> q[i] < n
    requires forall i, j :: 0 <= i < j < |q| ==> q[i] != q[j]
    ensures |q| <= n
  {
    if n - 1 in q {
      var k :| 0 <= k < |q| && q[k] == n - 1;
      Pigeonhole(q[..k] + q[k + 1..], n - 1);
    } else if n != 0 {
      Pigeonhole(q, n - 1);
    }
  }

  /** Elements move between the free and the reference FIFO; each queued element holds
      one reference on its dma-buf. */
  class EsMgr {
    const elems: array<Au>
    var freeQ: seq<nat>
    var refQ: seq<nat>
    var cursorWp: int
    var bufStart: nat
    var bufSize: nat
    var bufCache: int
    /** Every dma-buf reference taken and every one given back so far. */
    ghost var gets: multiset<nat>
    ghost var puts: multiset<nat>

    ghost predicate Valid()
      reads this, elems
    {
      && elems.Length == AML_ES_REF_MAX
      && Partition(freeQ, refQ)
      && bufCache == |refQ|
      && gets == puts + Bufs(Queued())
    }

    ghost function Queued(): (q: seq<Au>)
      reads this, elems
      ensures |q| == |refQ|
    {
      Pick(elems[..], refQ)
    }

    constructor (bufStart: nat, bufSize: nat)
      ensures Valid() && Queued() == [] && cursorWp == 0xFFFF_FFFF_FFFF_FFFF
      ensures fresh(elems) && |freeQ| == 1024
      ensures this.bufStart == bufStart && this.bufSize == bufSize
    {
      elems := new Au[AML_ES_REF_MAX](_ => Au(0, 0, 0, 0, 0, 0));
      freeQ := seq(AML_ES_REF_MAX, i => i);
      refQ := [];
      cursorWp := NO_CURSOR;
      this.bufStart := bufStart;
      this.bufSize := bufSize;
      bufCache := 0;
      gets := multiset{};
      puts := multiset{};
    }

    /** Queues one access unit; with no free element nothing changes. */
    method RefQue(dbuf: nat, addr: nat, size: nat, timestamp: nat) returns (ret: int)
      requires Valid()
      modifies this, elems
      ensures Valid() && bufStart == old(bufStart) && bufSize == old(bufSize)
      ensures puts == old(puts)
      ensures ret == if old(freeQ) == [] then -57 else 0
      ensures ret != 0 ==> unchanged(this) && unchanged(elems)
      ensures ret == 0 ==>
                && Queued() == old(Queued()) + [Au(dbuf, bufStart, bufSize, addr, size, timestamp)]
                && freeQ == old(freeQ)[1..]
                && refQ == old(refQ) + [old(freeQ)[0]]
                && cursorWp == (if old(cursorWp) == NO_CURSOR then addr else old(cursorWp))
                && gets == old(gets) + multiset{dbuf}
    {
      if freeQ == [] {
        return -EBADSLT;
      }
      Enlist(Au(dbuf, bufStart, bufSize, addr, size, timestamp));
      return 0;
    }

    /** Fills the next free element and appends it to the reference FIFO. */
    method Enlist(x: Au)
      requires Valid() && freeQ != []
      modifies this, elems
      ensures Valid() && bufStart == old(bufStart) && bufSize == old(bufSize)
      ensures puts == old(puts) && gets == old(gets) + multiset{x.dbuf}
      ensures Queued() == old(Queued()) + [x]
      ensures freeQ == old(freeQ)[1..] && refQ == old(refQ) + [old(freeQ)[0]]
      ensures cursorWp == if old(cursorWp) == NO_CURSOR then x.addr else old(cursorWp)
    {
      hide Partition, Pick, Bufs, FifoPut;
      MoveHead(freeQ, refQ);
      var e := freeQ[0];
      ghost var pool := elems[..];
      Refilled(pool, refQ, e, x);
      StillBalanced(gets, puts, Pick(pool, refQ), x);
      FillElem(e, x);
      Record(e, x);
    }

    /** Moves an element to the reference FIFO and counts it. */
    method Record(e: nat, x: Au)
      requires freeQ != []
      modifies this
      ensures freeQ == old(freeQ)[1..] && refQ == FifoPut(old(refQ), e)
      ensures cursorWp == if old(cursorWp) == NO_CURSOR then x.addr else old(cursorWp)
      ensures gets == old(gets) + multiset{x.dbuf} && puts == old(puts) && bufCache == old(bufCache) + 1
      ensures bufStart == old(bufStart) && bufSize == old(bufSize)
    {
      freeQ := freeQ[1..];
      if cursorWp == NO_CURSOR {
        cursorWp := x.addr;
      }
      gets := gets + multiset{x.dbuf};
      bufCache := bufCache + 1;
      refQ := FifoPut(refQ, e);
    }

    /** Fills one pool element. */
    method FillElem(e: nat, x: Au)
      requires e < elems.Length
      modifies elems
      ensures elems[..] == old(elems[..])[e := x]
    {
      elems[e] := x;
    }

    /** Gives one popped element back. */
    method PutRef(e: nat)
      requires elems.Length == AML_ES_REF_MAX && e < AML_ES_REF_MAX
      modifies this
      ensures cursorWp == RemainPos(elems[e]) && bufCache == old(bufCache) - 1
      ensures puts == old(puts) + multiset{elems[e].dbuf} && gets == old(gets)
      ensures freeQ == FifoPut(old(freeQ), e) && refQ == old(refQ)
      ensures bufStart == old(bufStart) && bufSize == old(bufSize)
    {
      cursorWp := RemainPos(elems[e]);
      bufCache := bufCache - 1;
      puts := puts + multiset{elems[e].dbuf};
      freeQ := FifoPut(freeQ, e);
    }

    /** Pops the oldest element and gives it back. */
    method PopOne()
      requires Valid() && refQ != []
      modifies this
      ensures Valid() && bufStart == old(bufStart) && bufSize == old(bufSize)
      ensures Queued() == old(Queued())[1..] && refQ == old(refQ)[1..]
      ensures freeQ == old(freeQ) + [old(refQ)[0]]
      ensures cursorWp == RemainPos(old(Queued())[0])
      ensures gets == old(gets) && puts == old(puts) + multiset{old(Queued())[0].dbuf}
    {
      SwapParts(freeQ, refQ);
      MoveHead(refQ, freeQ);
      hide Partition;
      var e := refQ[0];
      refQ := refQ[1..];
      PutRef(e);
    }

    /** Reports a read position: pops what the physical test calls consumed, always
        against the cursor found on entry. */
    method RefDque(rp: nat) returns (ret: int)
      requires Valid()
      modifies this
      ensures Valid() && bufStart == old(bufStart) && bufSize == old(bufSize)
      ensures ret == 0 && gets == old(gets)
      ensures var was, k := old(Queued()), Popped(old(Queued()), old(cursorWp), rp);
              && Queued() == was[k..]
              && refQ == old(refQ)[k..]
              && freeQ == old(freeQ) + old(refQ)[..k]
              && cursorWp == (if k == 0 then old(cursorWp) else RemainPos(was[k - 1]))
              && puts == old(puts) + Bufs(was[..k])
    {
      hide Partition, Moved, Progress, Bufs, Popped, Consumed;
      var cursor := cursorWp;
      ghost var was, k := Queued(), 0;
      assert Progress(was, was, cursor, rp, cursor, puts, puts, 0) by {
        ProgressBegins(was, cursor, rp, puts);
      }
      assert Moved(freeQ, refQ, freeQ, refQ, 0) by {
        MovedNone(freeQ, refQ);
      }
      HeadInPool(freeQ, refQ);
      while refQ != [] && Consumed(elems[refQ[0]], cursor, rp)
        invariant Valid() && bufStart == old(bufStart) && bufSize == old(bufSize)
        invariant gets == old(gets) && (refQ != [] ==> refQ[0] < AML_ES_REF_MAX)
        invariant Moved(old(freeQ), old(refQ), freeQ, refQ, k)
        invariant Progress(was, Queued(), cursor, rp, cursorWp, old(puts), puts, k)
        decreases |refQ|
      {
        ProgressOne(was, Queued(), cursor, rp, cursorWp, old(puts), puts, k);
        MovedOne(old(freeQ), old(refQ), freeQ, refQ, k);
        PopOne();
        HeadInPool(freeQ, refQ);
        k := k + 1;
      }
      ProgressEnds(was, Queued(), cursor, rp, cursorWp, old(puts), puts, k);
      MovedEnds(old(freeQ), old(refQ), freeQ, refQ, k);
      return 0;
    }

    /** The manager is in the state of the ring. */
    ghost predicate Holds(g: Ring)
      reads this, elems
    {
      Queued() == g.aus && cursorWp == g.cursor
    }

    /** A unit written at the write position: the manager follows the ring, or refuses
        together with it. */
    method Write(dbuf: nat, addr: nat, size: nat, timestamp: nat, ghost g: Ring) returns (ret: int)
      requires Valid() && bufSize > 0 && bufStart + bufSize <= NO_CURSOR
      requires Holds(g) && Exact(g, bufStart, bufSize) && Legal(g, Enqueue(dbuf, size, timestamp), bufSize)
      requires addr == Phys(bufStart, bufSize, WritePos(g))
      modifies this, elems
      ensures Valid() && bufStart == old(bufStart) && bufSize == old(bufSize) && bufSize > 0
      ensures ret == if |g.aus| == 1024 then -57 else 0
      ensures Holds(Apply(g, Enqueue(dbuf, size, timestamp), bufStart, bufSize))
      ensures Exact(Apply(g, Enqueue(dbuf, size, timestamp), bufStart, bufSize), bufStart, bufSize)
    {
      hide Exact, Partition, Pick, Bufs, Total;
      EnqueueExact(g, Enqueue(dbuf, size, timestamp), bufStart, bufSize);
      FreeLeft(freeQ, refQ);
      ret := RefQue(dbuf, addr, size, timestamp);
    }

    /** A read position reported: what stays queued is exactly what is not wholly read. */
    method InputFree(addr: nat, ghost g: Ring, ghost r: nat)
      requires Valid() && bufSize > 0 && bufStart + bufSize <= NO_CURSOR
      requires Holds(g) && Exact(g, bufStart, bufSize) && Legal(g, Dequeue(r), bufSize)
      requires addr == Phys(bufStart, bufSize, r)
      modifies this
      ensures Valid() && bufStart == old(bufStart) && bufSize == old(bufSize) && bufSize > 0
      ensures Holds(Apply(g, Dequeue(r), bufStart, bufSize))
      ensures Exact(Apply(g, Dequeue(r), bufStart, bufSize), bufStart, bufSize)
    {
      hide Exact, Partition, Pick, Bufs, Total, Popped, RemainPos;
      DequeueExact(g, Dequeue(r), bufStart, bufSize);
      var ret := RefDque(addr);
    }

    /** Tears the manager down: every reference still held is given back. */
    method Release()
      requires Valid()
      modifies this
      ensures Valid() && refQ == [] && gets == puts && gets == old(gets)
      ensures |freeQ| == AML_ES_REF_MAX && freeQ == old(freeQ) + old(refQ)
    {
      hide Partition, Moved;
      ghost var k := 0;
      MovedNone(freeQ, refQ);
      while refQ != []
        invariant Valid() && gets == old(gets)
        invariant Moved(old(freeQ), old(refQ), freeQ, refQ, k)
        decreases |refQ|
      {
        MovedOne(old(freeQ), old(refQ), freeQ, refQ, k);
        PopOne();
        k := k + 1;
      }
      assert Bufs(Queued()) == multiset{};
      HeadInPool(freeQ, refQ);
      MovedEnds(old(freeQ), old(refQ), freeQ, refQ, k);
    }
  }
}
