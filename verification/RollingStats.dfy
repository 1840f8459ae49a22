/** Statistics on the pages that compressed frames occupy: a rolling window over the last
    recycled buffers, the largest window average, and a histogram by megabytes. */
module RollingStats {
  import opened Arithmetic
  import opened DriverLimits

  const MAX_AVBC_BUFFER_SIZE := 16
  const PAGE_NUM_ONE_MB := 256

  // ----- what the numbers mean, over the whole history of page counts

  function Sum(h: seq<nat>): nat
    decreases |h|
  {
    if h == [] then 0 else Sum(h[..|h| - 1]) + h[|h| - 1]
  }

  /** The last d values, or all when there are fewer. */
  function LastWindow(h: seq<nat>, d: nat): seq<nat> {
    if |h| < d then h else h[|h| - d..]
  }

  function WindowSum(h: seq<nat>, d: nat): nat {
    Sum(LastWindow(h, d))
  }

  /** The value last written to slot i when the k-th value goes to slot k modulo d. */
  function Slot(h: seq<nat>, d: nat, i: nat): nat
    requires d > 0
    decreases |h|
  {
    if h == [] then 0
    else if (|h| - 1) % d == i then h[|h| - 1]
    else Slot(h[..|h| - 1], d, i)
  }

  /** The largest window average at any time. */
  function MaxAverage(h: seq<nat>, d: nat): nat
    requires d > 0
    decreases |h|
  {
    if h == [] then 0
    else
      var before := MaxAverage(h[..|h| - 1], d);
      if WindowSum(h, d) / d > before then WindowSum(h, d) / d else before
  }

  function Bucket(v: nat): nat {
    v / PAGE_NUM_ONE_MB
  }

  /** How many values fall into a bucket. */
  function Count(h: seq<nat>, b: nat): nat
    decreases |h|
  {
    if h == [] then 0 else Count(h[..|h| - 1], b) + if Bucket(h[|h| - 1]) == b then 1 else 0
  }

  function CountBelow(h: seq<nat>, n: nat): nat
    decreases n
  {
    if n == 0 then 0 else CountBelow(h, n - 1) + Count(h, n - 1)
  }

  // ----- the window

  /** The slot about to be overwritten holds the value that leaves the window. */
  lemma LeavingSlot(h: seq<nat>, d: nat)
    requires d > 0
    ensures Slot(h, d, |h| % d) == if |h| < d then 0 else h[|h| - d]
  {
    SlotAgo(h, d, 0);
    assert h[..|h| - 0] == h;
  }

  /** Going back k values from the end, none of them in the slot of the next value. */
  lemma {:induction false} SlotAgo(h: seq<nat>, d: nat, k: nat)
    requires d > 0 && k < d && k <= |h|
    ensures var i := |h| % d;
            Slot(h[..|h| - k], d, i) == if |h| < d then 0 else h[|h| - d]
    decreases d - k
  {
    var i, g := |h| % d, h[..|h| - k];
    if g != [] {
      if k + 1 == d {
        SameSlot(|h|, d);
      } else {
        OtherSlot(|h|, d, k + 1);
        assert g[..|g| - 1] == h[..|h| - (k + 1)];
        SlotAgo(h, d, k + 1);
      }
    }
  }

  lemma SameSlot(n: nat, d: nat)
    requires 0 < d <= n
    ensures (n - d) % d == n % d
  {
    var q := n / d;
    assert n - d == d * (q - 1) + n % d;
    Remainder(n - d, d, q - 1, n % d);
  }

  lemma OtherSlot(n: nat, d: nat, k: nat)
    requires 0 < k < d && k <= n
    ensures (n - k) % d != n % d
  {
    MultiplesApart(d, n / d - (n - k) / d);
    assert n == d * (n / d) + n % d && n - k == d * ((n - k) / d) + (n - k) % d;
  }

  lemma MultiplesApart(d: nat, m: int)
    ensures d * m <= 0 || d * m >= d
  {
  }

  lemma {:induction false} SumDropFirst(h: seq<nat>)
    requires h != []
    ensures Sum(h) == h[0] + Sum(h[1..])
    decreases |h|
  {
    if |h| > 1 {
      SumDropFirst(h[..|h| - 1]);
      assert h[..|h| - 1][1..] == h[1..][..|h| - 2];
    } else {
      assert h[..0] == [] && h[1..] == [];
    }
  }

  /** The update rule: the window sum loses the slot about to be overwritten and gains
      the new value. */
  lemma WindowMoves(h: seq<nat>, d: nat, x: nat)
    requires d > 0
    ensures WindowSum(h + [x], d) == WindowSum(h, d) - Slot(h, d, |h| % d) + x
  {
    LeavingSlot(h, d);
    var w := LastWindow(h, d);
    if |h| < d {
      assert LastWindow(h + [x], d) == w + [x];
      assert (w + [x])[..|w|] == w;
    } else {
      assert LastWindow(h + [x], d) == w[1..] + [x];
      assert (w[1..] + [x])[..|w| - 1] == w[1..];
      SumDropFirst(w);
    }
  }

  lemma {:induction false} WindowBound(h: seq<nat>, m: nat)
    requires forall v :: v in h ==> v <= m
    ensures Sum(h) <= |h| * m
    decreases |h|
  {
    if h != [] {
      var g := h[..|h| - 1];
      assert forall v :: v in g ==> v in h;
      assert h[|h| - 1] in h;
      OneTimesMore(|g|, m);
      WindowBound(g, m);
    }
  }

  lemma OneTimesMore(k: nat, m: nat)
    ensures (k + 1) * m == k * m + m
  {
  }

  // ----- maximum and histogram

  /** The maximum bounds every window average so far and, unless all are zero, is one. */
  lemma {:induction false} MaxAverageIs(h: seq<nat>, d: nat)
    requires d > 0
    ensures forall k :: 0 <= k <= |h| ==> WindowSum(h[..k], d) / d <= MaxAverage(h, d)
    ensures exists k :: 0 <= k <= |h| && WindowSum(h[..k], d) / d == MaxAverage(h, d)
    decreases |h|
  {
    hide WindowSum;
    if h == [] {
      NoWindow(d);
      assert h[..0] == [];
    } else {
      var g := h[..|h| - 1];
      MaxAverageIs(g, d);
      assert h[..|h|] == h;
      forall k | 0 <= k <= |h|
        ensures WindowSum(h[..k], d) / d <= MaxAverage(h, d)
      {
        if k < |h| {
          assert g[..k] == h[..k];
        }
      }
      if WindowSum(h, d) / d <= MaxAverage(g, d) {
        var k :| 0 <= k <= |g| && WindowSum(g[..k], d) / d == MaxAverage(g, d);
        assert g[..k] == h[..k];
      }
    }
  }

  lemma NoWindow(d: nat)
    requires d > 0
    ensures WindowSum([], d) == 0
  {
  }

  lemma {:induction false} CountBelowSnoc(h: seq<nat>, x: nat, n: nat)
    ensures CountBelow(h + [x], n) == CountBelow(h, n) + if Bucket(x) < n then 1 else 0
    decreases n
  {
    if n > 0 {
      CountBelowSnoc(h, x, n - 1);
      assert (h + [x])[..|h|] == h;
    }
  }

  /** The histogram accounts for every value when all fit its buckets. */
  /** A bucket counts the values of one megabyte's worth of pages, 256 of them. */
  lemma {:induction false} CountIs(h: seq<nat>, b: nat)
    ensures Count(h, b) == |set i: nat | i < |h| && 256 * b <= h[i] < 256 * (b + 1)|
    decreases |h|
  {
    var all := set i: nat | i < |h| && 256 * b <= h[i] < 256 * (b + 1);
    if h == [] {
      assert all == {};
    } else {
      var n := |h| - 1;
      var g := h[..n];
      CountIs(g, b);
      var before := set i: nat | i < |g| && 256 * b <= g[i] < 256 * (b + 1);
      BucketIff(h[n], b);
      assert all == before + if Bucket(h[n]) == b then {n} else {};
    }
  }

  lemma BucketIff(v: nat, b: nat)
    ensures Bucket(v) == b <==> 256 * b <= v < 256 * (b + 1)
  {
  }

  lemma {:induction false} HistogramTotal(h: seq<nat>, n: nat)
    requires forall v :: v in h ==> Bucket(v) < n
    ensures CountBelow(h, n) == |h|
    decreases |h|
  {
    if h == [] {
      NothingCounted(n);
    } else {
      var g := h[..|h| - 1];
      HistogramTotal(g, n);
      assert h == g + [h[|h| - 1]];
      CountBelowSnoc(g, h[|h| - 1], n);
    }
  }

  lemma {:induction false} NothingCounted(n: nat)
    ensures CountBelow([], n) == 0
    decreases n
  {
    if n > 0 {
      NothingCounted(n - 1);
    }
  }

  // ----- the record

  /** The histogram counts the history by buckets. */
  ghost predicate CountsAll(distributed: seq<nat>, h: seq<nat>) {
    |distributed| == MAX_AVBC_BUFFER_SIZE && forall b :: 0 <= b < |distributed| ==> distributed[b] == Count(h, b)
  }

  /** The slots hold the last values written to them. */
  ghost predicate SlotsHold(inGroup: seq<nat>, d: nat, h: seq<nat>) {
    0 < d <= |inGroup| && forall i :: 0 <= i < d ==> inGroup[i] == Slot(h, d, i)
  }

  lemma CountedOne(distributed: seq<nat>, h: seq<nat>, x: nat)
    requires CountsAll(distributed, h) && Bucket(x) < |distributed|
    ensures CountsAll(distributed[Bucket(x) := distributed[Bucket(x)] + 1], h + [x])
  {
    assert (h + [x])[..|h|] == h;
  }

  lemma StoredOne(inGroup: seq<nat>, d: nat, h: seq<nat>, x: nat)
    requires SlotsHold(inGroup, d, h)
    ensures |h| % d < d && inGroup[|h| % d] == Slot(h, d, |h| % d)
    ensures SlotsHold(inGroup[|h| % d := x], d, h + [x])
  {
    assert (h + [x])[..|h|] == h;
  }

  predicate InHistogram(h: seq<nat>) {
    forall v :: v in h ==> v < MAX_AVBC_BUFFER_SIZE * PAGE_NUM_ONE_MB
  }

  lemma InHistogramOne(h: seq<nat>, x: nat)
    requires InHistogram(h) && x < MAX_AVBC_BUFFER_SIZE * PAGE_NUM_ONE_MB
    ensures InHistogram(h + [x]) && Bucket(x) < MAX_AVBC_BUFFER_SIZE
  {
  }

  class CompressedBufferInfo {
    const dpbSize: nat
    var recycleNum: nat
    var usedPageSum: nat
    const distributed: array<nat>
    const inGroup: array<nat>
    var maxAvgByGroup: nat
    var byGroup: nat
    ghost var history: seq<nat>

    /** The fields agree with recomputation from the history. */
    ghost predicate Valid()
      reads this, distributed, inGroup
    {
      && 1 <= dpbSize <= V4L_CAP_BUFF_MAX == inGroup.Length
      && distributed != inGroup
      && recycleNum == |history|
      && usedPageSum == Sum(history)
      && InHistogram(history)
      && CountsAll(distributed[..], history)
      && SlotsHold(inGroup[..], dpbSize, history)
      && byGroup == WindowSum(history, dpbSize)
      && maxAvgByGroup == MaxAverage(history, dpbSize)
    }

    constructor (dpbSize: nat)
      requires 1 <= dpbSize <= V4L_CAP_BUFF_MAX
      ensures Valid() && history == [] && this.dpbSize == dpbSize
      ensures fresh(distributed) && fresh(inGroup) && distributed.Length == 16
    {
      this.dpbSize := dpbSize;
      recycleNum, usedPageSum, maxAvgByGroup, byGroup, history := 0, 0, 0, 0, [];
      distributed := new nat[MAX_AVBC_BUFFER_SIZE](_ => 0);
      inGroup := new nat[V4L_CAP_BUFF_MAX](_ => 0);
    }

    /** The group sum is unsigned 32-bit; the window keeps it far below that. */
    method CalCompressBuffInfo(usedPageNum: nat)
      requires Valid() && usedPageNum < 4096
      modifies this, distributed, inGroup
      ensures Valid() && history == old(history) + [usedPageNum]
    {
      hide Count, Slot, Sum, WindowSum, MaxAverage, CountsAll, SlotsHold, InHistogram;
      ghost var h, g := history, history + [usedPageNum];
      HistoryGrows(h, usedPageNum, dpbSize);
      GroupSumFits(h, dpbSize);
      InHistogramOne(h, usedPageNum);
      SizesFit(distributed[..], h);
      CountedOne(distributed[..], h, usedPageNum);
      StoredOne(inGroup[..], dpbSize, h, usedPageNum);
      var curIndex := recycleNum % dpbSize;
      usedPageSum := usedPageSum + usedPageNum;
      Increment(distributed, usedPageNum / PAGE_NUM_ONE_MB);
      byGroup := (byGroup - inGroup[curIndex] + usedPageNum) % W32;
      Store(inGroup, curIndex, usedPageNum);
      var curAvg := byGroup / dpbSize;
      if curAvg > maxAvgByGroup {
        maxAvgByGroup := curAvg;
      }
      recycleNum := recycleNum + 1;
      history := g;
    }
  }

  lemma SizesFit(distributed: seq<nat>, h: seq<nat>)
    requires CountsAll(distributed, h)
    ensures |distributed| == MAX_AVBC_BUFFER_SIZE
  {
  }

  method Increment(a: array<nat>, i: nat)
    requires i < a.Length
    modifies a
    ensures a[..] == old(a[..])[i := old(a[i]) + 1]
  {
    a[i] := a[i] + 1;
  }

  method Store(a: array<nat>, i: nat, x: nat)
    requires i < a.Length
    modifies a
    ensures a[..] == old(a[..])[i := x]
  {
    a[i] := x;
  }

  /** Everything the record keeps, for one more value. */
  lemma HistoryGrows(h: seq<nat>, x: nat, d: nat)
    requires d > 0
    ensures Sum(h + [x]) == Sum(h) + x
    ensures WindowSum(h + [x], d) == WindowSum(h, d) - Slot(h, d, |h| % d) + x
    ensures MaxAverage(h + [x], d)
         == var avg := WindowSum(h + [x], d) / d; if avg > MaxAverage(h, d) then avg else MaxAverage(h, d)
  {
    hide WindowSum;
    assert (h + [x])[..|h|] == h;
    WindowMoves(h, d, x);
  }

  lemma GroupSumFits(h: seq<nat>, d: nat)
    requires 0 < d <= V4L_CAP_BUFF_MAX
    requires InHistogram(h)
    ensures WindowSum(h, d) < W32 / 2
  {
    var w := LastWindow(h, d);
    assert forall v :: v in w ==> v in h;
    WindowBound(w, 4095);
    assert |w| <= 32;
  }
}
