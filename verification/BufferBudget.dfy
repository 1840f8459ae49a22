/** The budget of capture buffers: how many the decoder, the post-processor and the
    converter get, outside the DI-post and avbcd modes. The margin is unsigned in the
    driver; here it may go negative, where the driver's wraps. */
module BufferBudget {
  import opened DriverLimits

  datatype Budget = Budget(frames: nat, margin: int, dpb: int, vpp: nat, ge2d: int)

  /** What the stream needs: the post-processor with that many buffers of its own, whether
      the content is progressive, the converter. */
  datatype Needs = Needs(vpp: bool, vppBuffers: nat, progressive: bool, ge2d: bool)

  function Total(b: Budget): int {
    b.dpb + b.vpp + b.ge2d
  }

  /** The decoder's share is its frames and its margin. */
  predicate Tied(b: Budget) {
    b.dpb == b.frames + b.margin
  }

  function VppShare(n: Needs): nat {
    if n.vpp && !n.progressive then n.vppBuffers else 0
  }

  /** The converter is sized from the margin before it is fixed to two. */
  function Ge2dShare(margin: int, n: Needs): int {
    if !n.ge2d then 0 else 4 + if n.vpp && !n.progressive then 2 else margin
  }

  function Margin(margin: int, n: Needs): int {
    if n.ge2d || (n.vpp && !n.progressive) then 2 else margin
  }

  /** The three places that set the budget. */
  datatype Op = Sizing(needs: Needs) | Request(count: nat) | NoVpp

  function Size(b: Budget, n: Needs): Budget {
    var margin, vpp, ge2d := Margin(b.margin, n), VppShare(n), Ge2dShare(b.margin, n);
    if b.frames + margin + vpp + ge2d <= V4L_CAP_BUFF_MAX then Budget(b.frames, margin, b.frames + margin, vpp, ge2d)
    else
      var dpb := if ge2d != 0 then V4L_CAP_BUFF_MAX - ge2d - vpp
                 else if vpp != 0 then V4L_CAP_BUFF_MAX - vpp
                 else V4L_CAP_BUFF_MAX;
      Budget(b.frames, dpb - b.frames, dpb, vpp, ge2d)
  }

  function Ask(b: Budget, count: nat): Budget {
    if count <= Total(b) then b
    else
      var margin := b.margin + count - Total(b);
      b.(margin := margin, dpb := b.frames + margin)
  }

  function DropVpp(b: Budget): Budget {
    var margin := b.margin + b.vpp;
    b.(margin := margin, dpb := margin + b.frames, vpp := 0)
  }

  function Apply(b: Budget, op: Op): Budget {
    match op
    case Sizing(n) => Size(b, n)
    case Request(count) => Ask(b, count)
    case NoVpp => DropVpp(b)
  }

  function Run(b: Budget, ops: seq<Op>): Budget
    decreases |ops|
  {
    if ops == [] then b else Run(Apply(b, ops[0]), ops[1..])
  }

  /** The largest request in a run, or the bound of sizing when that is more. */
  function Peak(ops: seq<Op>): (p: nat)
    ensures p >= V4L_CAP_BUFF_MAX
    decreases |ops|
  {
    if ops == [] then V4L_CAP_BUFF_MAX
    else
      var rest := Peak(ops[1..]);
      if ops[0].Request? && ops[0].count > rest then ops[0].count else rest
  }

  /** Over any run after a sizing: the decoder's share stays tied to frames and margin, and
      the total never exceeds thirty-two or the largest request made. */
  lemma {:induction false} RunBudget(b: Budget, ops: seq<Op>, bound: nat)
    requires Tied(b) && Total(b) <= bound && Peak(ops) <= bound
    ensures Tied(Run(b, ops)) && Total(Run(b, ops)) <= bound && Run(b, ops).frames == b.frames
    decreases |ops|
  {
    if ops != [] {
      RunBudget(Apply(b, ops[0]), ops[1..], bound);
    }
  }

  /** Sizing keeps the total at thirty-two or less; cutting down to that leaves the margin
      negative, so wrapped in the driver, exactly when the frames alone no longer fit
      beside the other two shares. */
  lemma SizeFits(b: Budget, n: Needs)
    requires b.margin >= 0
    ensures Tied(Size(b, n)) && Total(Size(b, n)) <= V4L_CAP_BUFF_MAX
    ensures Size(b, n).margin < 0 <==> b.frames + VppShare(n) + Ge2dShare(b.margin, n) > V4L_CAP_BUFF_MAX
  {
  }

  /** The other two shares: progressive content and content that needs no post-processor get
      no buffers for one; the converter gets four and the margin, which is two beside a
      post-processor with buffers. When all fit, the decoder has its frames and the margin. */
  lemma SizeShares(b: Budget, n: Needs)
    requires b.margin >= 0
    ensures Size(b, n).vpp == if n.vpp && !n.progressive then n.vppBuffers else 0
    ensures Size(b, n).ge2d == if !n.ge2d then 0 else if n.vpp && !n.progressive then 6 else 4 + b.margin
    ensures var margin := if n.ge2d || (n.vpp && !n.progressive) then 2 else b.margin;
            if b.frames + margin + Size(b, n).vpp + Size(b, n).ge2d <= 32 then Size(b, n).margin == margin
            else Total(Size(b, n)) == 32
  {
  }

  class Context {
    var frames: nat
    var margin: int
    var dpbSize: int
    var vppSize: nat
    var ge2dSize: int

    function Model(): Budget
      reads this
    {
      Budget(frames, margin, dpbSize, vppSize, ge2dSize)
    }

    constructor (frames: nat, margin: nat)
      ensures Model() == Budget(frames, margin, 0, 0, 0)
    {
      this.frames, this.margin := frames, margin;
      dpbSize, vppSize, ge2dSize := 0, 0, 0;
    }

    method BufSizeDecision(n: Needs) returns (totalSize: int)
      modifies this
      ensures Model() == Size(old(Model()), n)
      ensures totalSize == Total(Model())
    {
      vppSize := 0;
      if n.vpp {
        if !n.progressive {
          vppSize := n.vppBuffers;
          margin := 2;
        }
      }
      ge2dSize := 0;
      if n.ge2d {
        ge2dSize := 4 + margin;
        margin := 2;
      }
      dpbSize := frames + margin;
      totalSize := dpbSize + vppSize + ge2dSize;
      if totalSize > V4L_CAP_BUFF_MAX {
        if ge2dSize != 0 {
          dpbSize := V4L_CAP_BUFF_MAX - ge2dSize - vppSize;
        } else if vppSize != 0 {
          dpbSize := V4L_CAP_BUFF_MAX - vppSize;
        } else {
          dpbSize := V4L_CAP_BUFF_MAX;
        }
        margin := dpbSize - frames;
        totalSize := V4L_CAP_BUFF_MAX;
      }
    }

    /** A request beyond the total raises the total to exactly the request. */
    method Reqbufs(count: nat)
      requires Tied(Model())
      modifies this
      ensures Model() == Ask(old(Model()), count) && Tied(Model())
      ensures Total(Model()) == if count > old(Total(Model())) then count else old(Total(Model()))
    {
      if count > dpbSize + vppSize + ge2dSize {
        margin := margin + (count - (dpbSize + vppSize + ge2dSize));
        dpbSize := frames + margin;
      }
    }

    /** Doing without the post-processor keeps the total. */
    method StreamonWithoutVpp()
      requires Tied(Model())
      modifies this
      ensures Model() == DropVpp(old(Model())) && Tied(Model())
      ensures Total(Model()) == old(Total(Model()))
    {
      margin := margin + vppSize;
      dpbSize := margin + frames;
      vppSize := 0;
    }
  }
}
