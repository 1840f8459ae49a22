/** The video post-processing wrapper as a concurrent protocol. A producer pushes decoded
    frames, one worker thread pairs each with an output buffer and hands both to the
    de-interlacer (DI), and DI callbacks bring them back. Every FIFO operation, every
    semaphore operation and every hand-over is one atomic step; any number of producers
    and callbacks may be in flight at once. */
module VppPipeline {

  /** Slots of the input pool and of the three fixed FIFOs. */
  const VPP_FRAME_SIZE := 64

  /** isProg: progressive content; local: DI supplies the picture memory. n is the output
      pool size. bypass: how many progressive frames go past DI before the first goes
      through it, with local buffers; otherwise it is all frames or none. */
  datatype Mode = Mode(isProg: bool, local: bool, n: nat, bypass: nat)

  predicate Supported(m: Mode) {
    m.n <= 64
  }

  /** The output callback gives the input back, the input callback does not. */
  predicate ByOutput(m: Mode) {
    m.isProg && m.local
  }

  /** Some input is not given back by either callback. */
  predicate Lossy(m: Mode) {
    m.isProg && (!m.local || m.bypass > 0)
  }

  /** An output buffer on its way round, with the frame struct bound to it, the input buffer
      it was paired with, and how many hand-overs came before (local buffers). */
  datatype Out = Out(ob: nat, vf: nat, ib: nat, turn: nat)

  /** A DI output bound to the buffer prepared for one hand-over, with the picture of one. */
  datatype Binding = Binding(turn: nat, picture: nat)

  /** The worker thread, named by what it is about to do. */
  datatype Worker =
    | WaitIn                                   // down(sem_in)
    | Retry                                    // test whether output is empty
    | WaitOut                                  // down(sem_out)
    | TakeOut                                  // pop output
    | HoldOut(ob: nat)                         // get a capture buffer (interlaced)
    | NeedIn(ob: nat)                          // pop in_done_q
    | NeedFrame(ob: nat, ib: nat)              // pop frame
    | Bind(ob: nat, ib: nat, vf: nat)          // hand the output side over
    | Give(ib: nat)                            // hand the input side over
    | PassInput(ib: nat)                       // call the input callback itself (bypass)
    | Dead                                     // an exit the code takes for impossible

  datatype Vpp = Vpp(
    input: seq<nat>, inDone: seq<nat>, output: seq<nat>, frame: seq<nat>,
    processing: seq<Out>, outDone: seq<Out>,
    semIn: nat, semOut: nat, worker: Worker,
    pushing: seq<nat>,      // producers that popped input, before in_done_q
    pushed: nat,            // producers that filled in_done_q, before up(sem_in)
    diIn: seq<nat>,         // inputs inside DI, to come back through empty_input_done
    diOut: seq<Out>,        // outputs inside DI (caller's buffers)
    diOrder: seq<nat>,      // hand-overs whose DI output is still due (local buffers)
    returning: seq<Out>,    // output callbacks, before out_done_q
    givingBack: seq<nat>,   // output callbacks, before the input goes back (progressive, local)
    submitted: nat,         // output callbacks, before they fetch from out_done_q
    recycling: seq<Out>,    // callbacks that fetched, before frame
    framed: seq<nat>,       // callbacks that returned the frame, before output
    waking: nat,            // callbacks that returned the buffer, before up(sem_out)
    handed: nat,            // frames through the worker (progressive, local buffers)
    sent: nat,              // hand-overs to DI so far (local buffers)
    bound: seq<Binding>,    // DI outputs in the order they came (local buffers)
    lost: seq<nat>)         // inputs nobody holds or gives back any more

  datatype Action =
    | Push | StorePushed(i: nat) | UpIn
    | WorkerStep(gotBuffer: bool)
    | EmptyInputDone(i: nat) | OutputDone(i: nat) | StoreDone(i: nat) | GiveBack(i: nat)
    | Fetch(accepted: bool) | PutFrame(i: nat) | PutOutput(i: nat) | UpOut

  /** kfifo_put: lost silently when the FIFO is full. */
  function Put<T>(q: seq<T>, x: T, cap: nat): (r: seq<T>)
    ensures |q| <= cap ==> |r| <= cap
  {
    if |q| < cap then q + [x] else q
  }

  function RemoveAt<T>(q: seq<T>, i: nat): seq<T>
    requires i < |q|
  {
    q[..i] + q[i + 1..]
  }

  predicate Bypassed(m: Mode, s: Vpp) {
    if ByOutput(m) then s.handed < m.bypass else m.bypass > 0
  }

  /** The worker has done with a frame. */
  function HandedNext(m: Mode, s: Vpp): Vpp {
    s.(worker := WaitIn, handed := if ByOutput(m) then s.handed + 1 else s.handed)
  }

  /** The input callback puts an interlaced input back and leaves a progressive one alone. */
  function InputDone(m: Mode, s: Vpp, ib: nat): Vpp {
    if m.isProg then s.(lost := s.lost + [ib]) else s.(input := Put(s.input, ib, VPP_FRAME_SIZE))
  }

  /** The worker hands the output side over, or calls the output callback itself. */
  function BindNext(m: Mode, s: Vpp, o: Out): Vpp {
    if Bypassed(m, s) then
      s.(outDone := Put(s.outDone, o, VPP_FRAME_SIZE), submitted := s.submitted + 1, worker := PassInput(o.ib))
    else if m.local then s.(processing := Put(s.processing, o, m.n), worker := Give(o.ib))
    else s.(diOut := s.diOut + [o], worker := Give(o.ib))
  }

  function WorkerNext(m: Mode, s: Vpp, gotBuffer: bool): Vpp {
    match s.worker
    case WaitIn =>
      if s.semIn == 0 then s else s.(semIn := s.semIn - 1, worker := Retry)
    case Retry =>
      s.(worker := if s.output == [] then WaitOut else TakeOut)
    case WaitOut =>
      if s.semOut == 0 then s else s.(semOut := s.semOut - 1, worker := Retry)
    case TakeOut =>
      if s.output == [] then s.(worker := Dead)
      else s.(output := s.output[1..], worker := HoldOut(s.output[0]))
    case HoldOut(ob) =>
      if m.isProg || gotBuffer then s.(worker := NeedIn(ob))
      else s.(output := Put(s.output, ob, m.n), worker := Retry)
    case NeedIn(ob) =>
      if s.inDone == [] then s.(worker := Dead)
      else s.(inDone := s.inDone[1..], worker := NeedFrame(ob, s.inDone[0]))
    case NeedFrame(ob, ib) =>
      if s.frame == [] then s.(worker := Dead)
      else s.(frame := s.frame[1..], worker := Bind(ob, ib, s.frame[0]))
    case Bind(ob, ib, vf) => BindNext(m, s, Out(ob, vf, ib, s.sent))
    case Give(ib) =>
      HandedNext(m, s.(diIn := s.diIn + [ib],
                       diOrder := if m.local then s.diOrder + [s.sent] else s.diOrder,
                       sent := if m.local then s.sent + 1 else s.sent))
    case PassInput(ib) => HandedNext(m, InputDone(m, s, ib))
    case Dead => s
  }

  /** A DI output. DI may finish any of those it owes: in the caller's buffer it picks, or,
      with local buffers, bound to the head of the processing FIFO; an empty one loses it. */
  function OutputNext(m: Mode, s: Vpp, i: nat): Vpp {
    if !m.local then
      if i < |s.diOut| then
        s.(diOut := RemoveAt(s.diOut, i), returning := s.returning + [s.diOut[i]])
      else s
    else if i >= |s.diOrder| then s
    else if s.processing == [] then s.(diOrder := RemoveAt(s.diOrder, i))
    else
      s.(diOrder := RemoveAt(s.diOrder, i), processing := s.processing[1..],
         returning := s.returning + [s.processing[0]],
         bound := s.bound + [Binding(s.processing[0].turn, s.diOrder[i])])
  }

  function StoreNext(m: Mode, s: Vpp, i: nat): Vpp
    requires i < |s.returning|
  {
    var o := s.returning[i];
    var t := s.(returning := RemoveAt(s.returning, i), outDone := Put(s.outDone, o, VPP_FRAME_SIZE));
    if ByOutput(m) then t.(givingBack := t.givingBack + [o.ib]) else t.(submitted := t.submitted + 1)
  }

  function ProducerNext(s: Vpp, a: Action): Vpp
    requires a.Push? || a.StorePushed? || a.UpIn?
  {
    match a
    case Push =>
      if s.input == [] then s
      else s.(input := s.input[1..], pushing := s.pushing + [s.input[0]])
    case StorePushed(i) =>
      if i < |s.pushing| then
        s.(pushing := RemoveAt(s.pushing, i), inDone := Put(s.inDone, s.pushing[i], VPP_FRAME_SIZE),
           pushed := s.pushed + 1)
      else s
    case UpIn =>
      if s.pushed == 0 then s else s.(pushed := s.pushed - 1, semIn := s.semIn + 1)
  }

  /** The input callback from DI. A progressive input with local buffers still belongs to
      its output. */
  function InputBackNext(m: Mode, s: Vpp, a: Action): Vpp
    requires a.EmptyInputDone? || a.GiveBack?
  {
    match a
    case EmptyInputDone(i) =>
      if i >= |s.diIn| then s
      else if ByOutput(m) then s.(diIn := RemoveAt(s.diIn, i))
      else InputDone(m, s.(diIn := RemoveAt(s.diIn, i)), s.diIn[i])
    case GiveBack(i) =>
      if i < |s.givingBack| then
        s.(givingBack := RemoveAt(s.givingBack, i),
           input := Put(s.input, s.givingBack[i], VPP_FRAME_SIZE), submitted := s.submitted + 1)
      else s
  }

  /** A callback that was accepted downstream fetches the oldest finished output. */
  function FetchNext(s: Vpp, accepted: bool): Vpp {
    if s.submitted == 0 then s
    else if !accepted || s.outDone == [] then s.(submitted := s.submitted - 1)
    else s.(submitted := s.submitted - 1, outDone := s.outDone[1..],
            recycling := s.recycling + [s.outDone[0]])
  }

  function ReturnNext(m: Mode, s: Vpp, a: Action): Vpp
    requires a.PutFrame? || a.PutOutput?
  {
    match a
    case PutFrame(i) =>
      if i < |s.recycling| then
        s.(recycling := RemoveAt(s.recycling, i), frame := Put(s.frame, s.recycling[i].vf, m.n),
           framed := s.framed + [s.recycling[i].ob])
      else s
    case PutOutput(i) =>
      if i < |s.framed| then
        s.(framed := RemoveAt(s.framed, i), output := Put(s.output, s.framed[i], m.n),
           waking := s.waking + 1)
      else s
  }

  /** One step of one actor; a step that is not enabled leaves the state alone. */
  function Next(m: Mode, s: Vpp, a: Action): Vpp {
    match a
    case WorkerStep(gotBuffer) => WorkerNext(m, s, gotBuffer)
    case OutputDone(i) => OutputNext(m, s, i)
    case StoreDone(i) => if i < |s.returning| then StoreNext(m, s, i) else s
    case EmptyInputDone(_) => InputBackNext(m, s, a)
    case GiveBack(_) => InputBackNext(m, s, a)
    case Push => ProducerNext(s, a)
    case StorePushed(_) => ProducerNext(s, a)
    case UpIn => ProducerNext(s, a)
    case Fetch(accepted) => FetchNext(s, accepted)
    case PutFrame(_) => ReturnNext(m, s, a)
    case PutOutput(_) => ReturnNext(m, s, a)
    case UpOut => if s.waking == 0 then s else s.(waking := s.waking - 1, semOut := s.semOut + 1)
  }

  function Run(m: Mode, s: Vpp, run: seq<Action>): Vpp
    decreases |run|
  {
    if run == [] then s else Run(m, Next(m, s, run[0]), run[1..])
  }

  function Ids(n: nat): seq<nat> {
    seq(n, i => i)
  }

  /** What initialisation and reset leave behind. */
  function Init(m: Mode): Vpp {
    Vpp(Ids(VPP_FRAME_SIZE), [], Ids(m.n), Ids(m.n), [], [], 0, 0, WaitIn,
        [], 0, [], [], [], [], [], 0, [], [], 0, 0, 0, [], [])
  }

  // ----- counting tokens

  function Is(a: nat, x: nat): nat {
    if a == x then 1 else 0
  }

  function Count(q: seq<nat>, x: nat): nat {
    if q == [] then 0 else Is(q[0], x) + Count(q[1..], x)
  }

  datatype Field = OB | VF | IB

  function Get(o: Out, f: Field): nat {
    match f
    case OB => o.ob
    case VF => o.vf
    case IB => o.ib
  }

  function Col(q: seq<Out>, f: Field): (c: seq<nat>)
    ensures |c| == |q|
  {
    seq(|q|, i requires 0 <= i < |q| => Get(q[i], f))
  }

  function CountOut(q: seq<Out>, f: Field, x: nat): nat {
    Count(Col(q, f), x)
  }

  lemma {:induction false} CountAppend(q: seq<nat>, r: seq<nat>, x: nat)
    ensures Count(q + r, x) == Count(q, x) + Count(r, x)
  {
    if q == [] {
      assert q + r == r;
    } else {
      assert (q + r)[1..] == q[1..] + r;
      CountAppend(q[1..], r, x);
    }
  }

  lemma CountSnoc(q: seq<nat>, a: nat, x: nat)
    ensures Count(q + [a], x) == Count(q, x) + Is(a, x)
  {
    CountAppend(q, [a], x);
    assert [a][1..] == [];
  }

  lemma CountRemove(q: seq<nat>, i: nat, x: nat)
    requires i < |q|
    ensures Count(q, x) == Count(RemoveAt(q, i), x) + Is(q[i], x)
  {
    assert q == q[..i] + ([q[i]] + q[i + 1..]);
    CountAppend(q[..i], [q[i]] + q[i + 1..], x);
    CountAppend([q[i]], q[i + 1..], x);
    CountAppend(q[..i], q[i + 1..], x);
    assert [q[i]][1..] == [];
  }

  lemma OutSnoc(q: seq<Out>, o: Out, f: Field, x: nat)
    ensures CountOut(q + [o], f, x) == CountOut(q, f, x) + Is(Get(o, f), x)
  {
    assert Col(q + [o], f) == Col(q, f) + [Get(o, f)];
    CountSnoc(Col(q, f), Get(o, f), x);
  }

  lemma OutRemove(q: seq<Out>, i: nat, f: Field, x: nat)
    requires i < |q|
    ensures CountOut(q, f, x) == CountOut(RemoveAt(q, i), f, x) + Is(Get(q[i], f), x)
  {
    assert Col(RemoveAt(q, i), f) == RemoveAt(Col(q, f), i);
    CountRemove(Col(q, f), i, x);
  }

  lemma OutHead(q: seq<Out>, f: Field, x: nat)
    requires q != []
    ensures CountOut(q, f, x) == Is(Get(q[0], f), x) + CountOut(q[1..], f, x)
  {
    assert Col(q, f)[1..] == Col(q[1..], f);
  }

  lemma {:induction false} CountIds(n: nat, x: nat)
    ensures Count(Ids(n), x) == if x < n then 1 else 0
  {
    if n != 0 {
      assert Ids(n) == Ids(n - 1) + [n - 1];
      CountIds(n - 1, x);
      CountSnoc(Ids(n - 1), n - 1, x);
    }
  }

  // ----- the invariant

  /** The input buffer, output buffer and frame in the worker's hands. An input that goes
      back with its output already belongs to that when it is handed over. */
  function WorkerIn(m: Mode, w: Worker): seq<nat> {
    match w
    case NeedFrame(_, ib) => [ib]
    case Bind(_, ib, _) => [ib]
    case Give(ib) => if ByOutput(m) then [] else [ib]
    case PassInput(ib) => [ib]
    case _ => []
  }

  function WorkerOut(w: Worker): seq<nat> {
    match w
    case HoldOut(ob) => [ob]
    case NeedIn(ob) => [ob]
    case NeedFrame(ob, _) => [ob]
    case Bind(ob, _, _) => [ob]
    case _ => []
  }

  function WorkerVf(w: Worker): seq<nat> {
    match w
    case Bind(_, _, vf) => [vf]
    case _ => []
  }

  /** Where input buffer x is: in a FIFO, or in some actor's hands. */
  function InCount(m: Mode, s: Vpp, x: nat): nat {
    Count(s.input, x) + Count(s.pushing, x) + Count(s.inDone, x) + Count(WorkerIn(m, s.worker), x) +
    Count(s.givingBack, x) +
    (if ByOutput(m) then CountOut(s.processing, IB, x) + CountOut(s.returning, IB, x) else Count(s.diIn, x))
  }

  function InSize(m: Mode, s: Vpp): nat {
    |s.input| + |s.pushing| + |s.inDone| + |WorkerIn(m, s.worker)| + |s.givingBack| +
    (if ByOutput(m) then |s.processing| + |s.returning| else |s.diIn|)
  }

  /** The places an output buffer and its frame travel through together. */
  function BoundCount(s: Vpp, f: Field, x: nat): nat {
    CountOut(s.processing, f, x) + CountOut(s.diOut, f, x) + CountOut(s.returning, f, x) +
    CountOut(s.outDone, f, x) + CountOut(s.recycling, f, x)
  }

  function BoundSize(s: Vpp): nat {
    |s.processing| + |s.diOut| + |s.returning| + |s.outDone| + |s.recycling|
  }

  function OutCount(s: Vpp, x: nat): nat {
    Count(s.output, x) + Count(WorkerOut(s.worker), x) + BoundCount(s, OB, x) + Count(s.framed, x)
  }

  function OutSize(s: Vpp): nat {
    |s.output| + |WorkerOut(s.worker)| + BoundSize(s) + |s.framed|
  }

  function VfCount(s: Vpp, x: nat): nat {
    Count(s.frame, x) + Count(WorkerVf(s.worker), x) + BoundCount(s, VF, x)
  }

  function VfSize(s: Vpp): nat {
    |s.frame| + |WorkerVf(s.worker)| + BoundSize(s)
  }

  /** Each output buffer and each frame struct is in exactly one place. */
  ghost predicate OutputsPlaced(m: Mode, s: Vpp) {
    && (forall x: nat :: OutCount(s, x) == if x < m.n then 1 else 0)
    && (forall x: nat :: VfCount(s, x) == if x < m.n then 1 else 0)
  }

  /** Each pool element is in exactly one place. */
  ghost predicate Conserved(m: Mode, s: Vpp) {
    && (forall x: nat :: InCount(m, s, x) == if x < VPP_FRAME_SIZE then 1 else 0)
    && OutputsPlaced(m, s)
  }

  /** Each pool element is in exactly one place or, an input, lost. */
  ghost predicate Accounted(m: Mode, s: Vpp) {
    && (forall x: nat :: InCount(m, s, x) + Count(s.lost, x) == if x < VPP_FRAME_SIZE then 1 else 0)
    && OutputsPlaced(m, s)
  }

  predicate Sizes(m: Mode, s: Vpp) {
    InSize(m, s) + |s.lost| == VPP_FRAME_SIZE && OutSize(s) == m.n && VfSize(s) == m.n
  }

  /** One sem_in token has been taken for an input not popped yet. */
  function TokenHeld(w: Worker): nat {
    match w
    case Retry => 1
    case WaitOut => 1
    case TakeOut => 1
    case HoldOut(_) => 1
    case NeedIn(_) => 1
    case _ => 0
  }

  /** The worker holds an output buffer whose frame it has not popped yet. */
  function FrameDue(w: Worker): nat {
    match w
    case HoldOut(_) => 1
    case NeedIn(_) => 1
    case NeedFrame(_, _) => 1
    case _ => 0
  }

  /** An output prepared for a hand-over still to come. */
  function Giving(w: Worker): nat {
    if w.Give? then 1 else 0
  }

  predicate Tokens(m: Mode, s: Vpp) {
    && s.worker != Dead
    && |s.inDone| == s.semIn + TokenHeld(s.worker) + s.pushed
    && |s.frame| == |s.output| + FrameDue(s.worker) + |s.framed|
    && (s.worker == TakeOut ==> s.output != [])
    && (s.worker == WaitOut ==> |s.output| <= s.semOut + s.waking)
    && |s.outDone| >= s.submitted + |s.givingBack|
  }

  /** The processing FIFO holds the outputs prepared for the hand-overs after those bound. */
  predicate Order(m: Mode, s: Vpp) {
    && (forall k :: 0 <= k < |s.processing| ==> s.processing[k].turn == |s.bound| + k)
    && (forall k :: 0 <= k < |s.bound| ==> s.bound[k].turn == k)
    && (m.local ==>
          && |s.processing| == |s.diOrder| + Giving(s.worker)
          && s.sent == |s.bound| + |s.diOrder|
          && s.diOut == [])
    && (!m.local ==> s.processing == [] && s.diOrder == [])
    && (!ByOutput(m) ==> s.givingBack == [])
    && (!Lossy(m) ==> s.lost == [])
    && (s.worker.PassInput? ==> m.bypass > 0)
  }

  ghost predicate Inv(m: Mode, s: Vpp) {
    Supported(m) && Accounted(m, s) && Sizes(m, s) && Tokens(m, s) && Order(m, s)
  }

  lemma InitInv(m: Mode)
    requires Supported(m)
    ensures Inv(m, Init(m))
  {
    forall x: nat
      ensures InCount(m, Init(m), x) + Count(Init(m).lost, x) == if x < VPP_FRAME_SIZE then 1 else 0
      ensures OutCount(Init(m), x) == if x < m.n then 1 else 0
      ensures VfCount(Init(m), x) == if x < m.n then 1 else 0
    {
      CountIds(VPP_FRAME_SIZE, x);
      CountIds(m.n, x);
    }
  }

  // ----- FIFO capacity

  /** Whenever some actor is about to put, the FIFO has room. */
  predicate Room(m: Mode, s: Vpp) {
    && (s.pushing != [] ==> |s.inDone| < VPP_FRAME_SIZE)
    && ((!m.isProg && (s.diIn != [] || s.worker.PassInput?)) || s.givingBack != [] ==> |s.input| < VPP_FRAME_SIZE)
    && (s.returning != [] ==> |s.outDone| < VPP_FRAME_SIZE)
    && (s.recycling != [] ==> |s.frame| < m.n)
    && (s.framed != [] || s.worker.HoldOut? ==> |s.output| < m.n)
    && (s.worker.Bind? ==> |s.processing| < m.n && |s.outDone| < VPP_FRAME_SIZE)
  }

  lemma HasRoom(m: Mode, s: Vpp)
    requires Supported(m) && Sizes(m, s)
    ensures Room(m, s)
  {
  }

  // ----- one step keeps the invariant

  /** The part of the invariant that speaks of lengths, tokens and order. */
  predicate Shape(m: Mode, s: Vpp) {
    Supported(m) && Sizes(m, s) && Tokens(m, s) && Order(m, s)
  }

  lemma PushShape(m: Mode, s: Vpp)
    requires Shape(m, s)
    ensures Shape(m, ProducerNext(s, Push))
  {
  }

  lemma StorePushedShape(m: Mode, s: Vpp, i: nat)
    requires Shape(m, s)
    ensures Shape(m, ProducerNext(s, StorePushed(i)))
  {
    HasRoom(m, s);
    hide Col;
  }

  lemma UpInShape(m: Mode, s: Vpp)
    requires Shape(m, s)
    ensures Shape(m, ProducerNext(s, UpIn))
  {
  }

  lemma EmptyInputShape(m: Mode, s: Vpp, i: nat)
    requires Shape(m, s)
    ensures Shape(m, InputBackNext(m, s, EmptyInputDone(i)))
  {
    HasRoom(m, s);
    hide Col;
  }

  lemma GiveBackShape(m: Mode, s: Vpp, i: nat)
    requires Shape(m, s)
    ensures Shape(m, InputBackNext(m, s, GiveBack(i)))
  {
    HasRoom(m, s);
    hide Col;
  }

  lemma FetchShape(m: Mode, s: Vpp, accepted: bool)
    requires Shape(m, s)
    ensures Shape(m, FetchNext(s, accepted))
  {
  }

  lemma PutFrameShape(m: Mode, s: Vpp, i: nat)
    requires Shape(m, s)
    ensures Shape(m, ReturnNext(m, s, PutFrame(i)))
  {
    HasRoom(m, s);
    hide Col;
  }

  lemma PutOutputShape(m: Mode, s: Vpp, i: nat)
    requires Shape(m, s)
    ensures Shape(m, ReturnNext(m, s, PutOutput(i)))
  {
    HasRoom(m, s);
    hide Col;
  }

  lemma StoreShape(m: Mode, s: Vpp, i: nat)
    requires Shape(m, s) && i < |s.returning|
    ensures Shape(m, StoreNext(m, s, i))
  {
    HasRoom(m, s);
    hide Col;
  }

  lemma OutputShape(m: Mode, s: Vpp, i: nat)
    requires Shape(m, s)
    ensures Shape(m, OutputNext(m, s, i))
  {
    hide Col;
  }

  lemma WorkerWaitShape(m: Mode, s: Vpp, gotBuffer: bool)
    requires Shape(m, s) && (s.worker.WaitIn? || s.worker.Retry? || s.worker.WaitOut?)
    ensures Shape(m, WorkerNext(m, s, gotBuffer))
  {
  }

  lemma WorkerTakeShape(m: Mode, s: Vpp, gotBuffer: bool)
    requires Shape(m, s) && s.worker.TakeOut?
    ensures Shape(m, WorkerNext(m, s, gotBuffer))
  {
    hide Col;
  }

  lemma WorkerHoldShape(m: Mode, s: Vpp, gotBuffer: bool)
    requires Shape(m, s) && s.worker.HoldOut?
    ensures Shape(m, WorkerNext(m, s, gotBuffer))
  {
    HasRoom(m, s);
    hide Col;
  }

  lemma WorkerNeedShape(m: Mode, s: Vpp, gotBuffer: bool)
    requires Shape(m, s) && (s.worker.NeedIn? || s.worker.NeedFrame?)
    ensures Shape(m, WorkerNext(m, s, gotBuffer))
  {
  }

  lemma WorkerBindShape(m: Mode, s: Vpp, o: Out)
    requires Shape(m, s) && s.worker == Bind(o.ob, o.ib, o.vf) && o.turn == s.sent
    ensures Shape(m, BindNext(m, s, o))
  {
    HasRoom(m, s);
    hide Shape, BindNext;
    if Bypassed(m, s) {
      BypassShape(m, s, o);
    } else if m.local {
      BindLocalShape(m, s, o);
    } else {
      BindCallerShape(m, s, o);
    }
  }

  lemma BypassShape(m: Mode, s: Vpp, o: Out)
    requires Shape(m, s) && Room(m, s) && s.worker == Bind(o.ob, o.ib, o.vf) && Bypassed(m, s)
    ensures Shape(m, BindNext(m, s, o))
  {
    hide Col;
  }

  lemma BindLocalShape(m: Mode, s: Vpp, o: Out)
    requires Shape(m, s) && Room(m, s) && s.worker == Bind(o.ob, o.ib, o.vf) && o.turn == s.sent
    requires !Bypassed(m, s) && m.local
    ensures Shape(m, BindNext(m, s, o))
  {
    hide Col, Bypassed;
  }

  lemma BindCallerShape(m: Mode, s: Vpp, o: Out)
    requires Shape(m, s) && s.worker == Bind(o.ob, o.ib, o.vf) && !Bypassed(m, s) && !m.local
    ensures Shape(m, BindNext(m, s, o))
  {
    hide Col, Bypassed;
  }

  lemma WorkerGiveShape(m: Mode, s: Vpp, gotBuffer: bool)
    requires Shape(m, s) && s.worker.Give?
    ensures Shape(m, WorkerNext(m, s, gotBuffer))
  {
    hide Col;
  }

  lemma PassInputShape(m: Mode, s: Vpp, gotBuffer: bool)
    requires Shape(m, s) && s.worker.PassInput?
    ensures Shape(m, WorkerNext(m, s, gotBuffer))
  {
    HasRoom(m, s);
    hide Col;
  }

  lemma WorkerShape(m: Mode, s: Vpp, gotBuffer: bool)
    requires Shape(m, s)
    ensures Shape(m, WorkerNext(m, s, gotBuffer))
  {
    var w := s.worker;
    if w.WaitIn? || w.Retry? || w.WaitOut? {
      WorkerWaitShape(m, s, gotBuffer);
    } else if w.TakeOut? {
      WorkerTakeShape(m, s, gotBuffer);
    } else if w.HoldOut? {
      WorkerHoldShape(m, s, gotBuffer);
    } else if w.NeedIn? || w.NeedFrame? {
      WorkerNeedShape(m, s, gotBuffer);
    } else if w.Bind? {
      WorkerBindShape(m, s, Out(w.ob, w.vf, w.ib, s.sent));
    } else if w.Give? {
      WorkerGiveShape(m, s, gotBuffer);
    } else if w.PassInput? {
      PassInputShape(m, s, gotBuffer);
    }
    hide Shape, BindNext;
  }

  lemma ShapeStep(m: Mode, s: Vpp, a: Action)
    requires Shape(m, s)
    ensures Shape(m, Next(m, s, a))
  {
    hide Shape, ProducerNext, InputBackNext, WorkerNext, OutputNext, StoreNext, FetchNext, ReturnNext;
    match a
    case WorkerStep(gotBuffer) => WorkerShape(m, s, gotBuffer);
    case OutputDone(i) => OutputShape(m, s, i);
    case StoreDone(i) => if i < |s.returning| { StoreShape(m, s, i); }
    case EmptyInputDone(i) => EmptyInputShape(m, s, i);
    case GiveBack(i) => GiveBackShape(m, s, i);
    case Push => PushShape(m, s);
    case StorePushed(i) => StorePushedShape(m, s, i);
    case UpIn => UpInShape(m, s);
    case Fetch(accepted) => FetchShape(m, s, accepted);
    case PutFrame(i) => PutFrameShape(m, s, i);
    case PutOutput(i) => PutOutputShape(m, s, i);
    case UpOut => if s.waking > 0 { UpOutShape(m, s); }
  }

  lemma UpOutShape(m: Mode, s: Vpp)
    requires Shape(m, s) && s.waking > 0
    ensures Shape(m, s.(waking := s.waking - 1, semOut := s.semOut + 1))
  {
  }

  // ----- one step conserves every token

  /** The three counts of one token number agree before and after. */
  ghost predicate SameCounts(m: Mode, s: Vpp, t: Vpp, x: nat) {
    && InCount(m, t, x) + Count(t.lost, x) == InCount(m, s, x) + Count(s.lost, x)
    && OutCount(t, x) == OutCount(s, x)
    && VfCount(t, x) == VfCount(s, x)
  }

  lemma CountHead(q: seq<nat>, x: nat)
    requires q != []
    ensures Count(q, x) == Is(q[0], x) + Count(q[1..], x)
  {
  }

  lemma CountOne(a: nat, x: nat)
    ensures Count([a], x) == Is(a, x) && Count([], x) == 0
  {
    assert [a][1..] == [];
  }

  lemma PushCounts(m: Mode, s: Vpp, x: nat)
    ensures SameCounts(m, s, ProducerNext(s, Push), x)
  {
    hide Count, CountOut;
    if s.input != [] {
      CountHead(s.input, x);
      CountSnoc(s.pushing, s.input[0], x);
    }
  }

  /** A put with room moves a token from one place to another. */
  lemma PutMoves(q: seq<nat>, i: nat, r: seq<nat>, cap: nat, x: nat)
    requires i < |q| && |r| < cap
    ensures Count(RemoveAt(q, i), x) + Count(Put(r, q[i], cap), x) == Count(q, x) + Count(r, x)
  {
    CountRemove(q, i, x);
    CountSnoc(r, q[i], x);
  }

  lemma StorePushedCounts(m: Mode, s: Vpp, i: nat, x: nat)
    requires Room(m, s)
    ensures SameCounts(m, s, ProducerNext(s, StorePushed(i)), x)
  {
    hide Count, CountOut, Put, RemoveAt;
    if i < |s.pushing| {
      PutMoves(s.pushing, i, s.inDone, VPP_FRAME_SIZE, x);
    }
  }

  lemma EmptyInputCounts(m: Mode, s: Vpp, i: nat, x: nat)
    requires Room(m, s)
    ensures SameCounts(m, s, InputBackNext(m, s, EmptyInputDone(i)), x)
  {
    hide Count, CountOut, Put, RemoveAt;
    if i < |s.diIn| {
      if m.isProg {
        CountRemove(s.diIn, i, x);
        CountSnoc(s.lost, s.diIn[i], x);
      } else {
        PutMoves(s.diIn, i, s.input, VPP_FRAME_SIZE, x);
      }
    }
  }

  lemma GiveBackCounts(m: Mode, s: Vpp, i: nat, x: nat)
    requires Room(m, s)
    ensures SameCounts(m, s, InputBackNext(m, s, GiveBack(i)), x)
  {
    hide Count, CountOut, Put, RemoveAt;
    if i < |s.givingBack| {
      PutMoves(s.givingBack, i, s.input, VPP_FRAME_SIZE, x);
    }
  }

  lemma FetchCounts(m: Mode, s: Vpp, accepted: bool, x: nat)
    ensures SameCounts(m, s, FetchNext(s, accepted), x)
  {
    hide Count, CountOut;
    if s.outDone != [] {
      OutHead(s.outDone, OB, x);
      OutHead(s.outDone, VF, x);
      OutSnoc(s.recycling, s.outDone[0], OB, x);
      OutSnoc(s.recycling, s.outDone[0], VF, x);
    }
  }

  lemma PutFrameCounts(m: Mode, s: Vpp, i: nat, x: nat)
    requires Room(m, s)
    ensures SameCounts(m, s, ReturnNext(m, s, PutFrame(i)), x)
  {
    if i < |s.recycling| {
      var o := s.recycling[i];
      OutRemove(s.recycling, i, OB, x);
      OutRemove(s.recycling, i, VF, x);
      CountSnoc(s.frame, o.vf, x);
      CountSnoc(s.framed, o.ob, x);
      hide Count, CountOut, RemoveAt;
    }
  }

  lemma PutOutputCounts(m: Mode, s: Vpp, i: nat, x: nat)
    requires Room(m, s)
    ensures SameCounts(m, s, ReturnNext(m, s, PutOutput(i)), x)
  {
    hide Count, CountOut, Put, RemoveAt;
    if i < |s.framed| {
      PutMoves(s.framed, i, s.output, m.n, x);
    }
  }

  lemma StoreCounts(m: Mode, s: Vpp, i: nat, x: nat)
    requires Room(m, s) && i < |s.returning|
    ensures SameCounts(m, s, StoreNext(m, s, i), x)
  {
    hide Count, CountOut, RemoveAt;
    var o := s.returning[i];
    OutRemove(s.returning, i, OB, x);
    OutRemove(s.returning, i, VF, x);
    OutRemove(s.returning, i, IB, x);
    OutSnoc(s.outDone, o, OB, x);
    OutSnoc(s.outDone, o, VF, x);
    CountSnoc(s.givingBack, o.ib, x);
  }

  lemma OutputCounts(m: Mode, s: Vpp, i: nat, x: nat)
    requires Order(m, s)
    ensures SameCounts(m, s, OutputNext(m, s, i), x)
  {
    hide Count, CountOut, RemoveAt;
    if m.local {
      if i < |s.diOrder| {
        OutputMoves(s.processing, 0, s.returning, x);
      }
    } else if i < |s.diOut| {
      OutputMoves(s.diOut, i, s.returning, x);
    }
  }

  /** An output that moves takes its frame and its input along. */
  lemma OutputMoves(q: seq<Out>, i: nat, r: seq<Out>, x: nat)
    requires i < |q|
    ensures CountOut(RemoveAt(q, i), OB, x) + CountOut(r + [q[i]], OB, x) == CountOut(q, OB, x) + CountOut(r, OB, x)
    ensures CountOut(RemoveAt(q, i), VF, x) + CountOut(r + [q[i]], VF, x) == CountOut(q, VF, x) + CountOut(r, VF, x)
    ensures CountOut(RemoveAt(q, i), IB, x) + CountOut(r + [q[i]], IB, x) == CountOut(q, IB, x) + CountOut(r, IB, x)
    ensures i == 0 ==> RemoveAt(q, i) == q[1..]
  {
    OutputMovesIn(q, i, r, OB, x);
    OutputMovesIn(q, i, r, VF, x);
    OutputMovesIn(q, i, r, IB, x);
    hide Count, CountOut;
  }

  lemma OutputMovesIn(q: seq<Out>, i: nat, r: seq<Out>, f: Field, x: nat)
    requires i < |q|
    ensures CountOut(RemoveAt(q, i), f, x) + CountOut(r + [q[i]], f, x) == CountOut(q, f, x) + CountOut(r, f, x)
  {
    hide *;
    OutRemove(q, i, f, x);
    OutSnoc(r, q[i], f, x);
  }

  lemma TakeOutCounts(m: Mode, s: Vpp, gotBuffer: bool, x: nat)
    requires s.worker.TakeOut?
    ensures SameCounts(m, s, WorkerNext(m, s, gotBuffer), x)
  {
    hide Count, CountOut;
    if s.output != [] {
      CountHead(s.output, x);
      CountOne(s.output[0], x);
    }
  }

  lemma HoldOutCounts(m: Mode, s: Vpp, gotBuffer: bool, x: nat)
    requires Room(m, s) && s.worker.HoldOut?
    ensures SameCounts(m, s, WorkerNext(m, s, gotBuffer), x)
  {
    hide Count, CountOut;
    CountOne(s.worker.ob, x);
    CountSnoc(s.output, s.worker.ob, x);
  }

  lemma NeedInCounts(m: Mode, s: Vpp, gotBuffer: bool, x: nat)
    requires s.inDone != [] && s.worker.NeedIn?
    ensures SameCounts(m, s, WorkerNext(m, s, gotBuffer), x)
  {
    hide Count, CountOut;
    CountHead(s.inDone, x);
    CountOne(s.inDone[0], x);
  }

  lemma NeedFrameCounts(m: Mode, s: Vpp, gotBuffer: bool, x: nat)
    requires s.frame != [] && s.worker.NeedFrame?
    ensures SameCounts(m, s, WorkerNext(m, s, gotBuffer), x)
  {
    hide Count, CountOut;
    CountHead(s.frame, x);
    CountOne(s.frame[0], x);
  }

  lemma BindLocalCounts(m: Mode, s: Vpp, gotBuffer: bool, x: nat)
    requires Room(m, s) && s.worker.Bind? && !Bypassed(m, s) && m.local
    ensures SameCounts(m, s, WorkerNext(m, s, gotBuffer), x)
  {
    hide Count, CountOut;
    var o := Out(s.worker.ob, s.worker.vf, s.worker.ib, s.sent);
    OutSnoc(s.processing, o, OB, x);
    OutSnoc(s.processing, o, VF, x);
    OutSnoc(s.processing, o, IB, x);
    CountOne(o.ob, x);
    CountOne(o.vf, x);
    CountOne(o.ib, x);
  }

  lemma BindCallerCounts(m: Mode, s: Vpp, gotBuffer: bool, x: nat)
    requires Room(m, s) && s.worker.Bind? && !Bypassed(m, s) && !m.local
    ensures SameCounts(m, s, WorkerNext(m, s, gotBuffer), x)
  {
    hide Count, CountOut;
    var o := Out(s.worker.ob, s.worker.vf, s.worker.ib, s.sent);
    OutSnoc(s.diOut, o, OB, x);
    OutSnoc(s.diOut, o, VF, x);
    CountOne(o.ob, x);
    CountOne(o.vf, x);
  }

  lemma BypassCounts(m: Mode, s: Vpp, gotBuffer: bool, x: nat)
    requires Room(m, s) && s.worker.Bind? && Bypassed(m, s)
    ensures SameCounts(m, s, WorkerNext(m, s, gotBuffer), x)
  {
    hide Count, CountOut;
    var o := Out(s.worker.ob, s.worker.vf, s.worker.ib, s.sent);
    OutSnoc(s.outDone, o, OB, x);
    OutSnoc(s.outDone, o, VF, x);
    CountOne(o.ob, x);
    CountOne(o.vf, x);
  }

  lemma WorkerBindCounts(m: Mode, s: Vpp, gotBuffer: bool, x: nat)
    requires Room(m, s) && s.worker.Bind?
    ensures SameCounts(m, s, WorkerNext(m, s, gotBuffer), x)
  {
    hide *;
    if Bypassed(m, s) {
      BypassCounts(m, s, gotBuffer, x);
    } else if m.local {
      BindLocalCounts(m, s, gotBuffer, x);
    } else {
      BindCallerCounts(m, s, gotBuffer, x);
    }
  }

  lemma WorkerGiveCounts(m: Mode, s: Vpp, gotBuffer: bool, x: nat)
    requires s.worker.Give?
    ensures SameCounts(m, s, WorkerNext(m, s, gotBuffer), x)
  {
    hide Count, CountOut;
    CountSnoc(s.diIn, s.worker.ib, x);
    CountOne(s.worker.ib, x);
  }

  lemma PassInputCounts(m: Mode, s: Vpp, gotBuffer: bool, x: nat)
    requires Room(m, s) && s.worker.PassInput?
    ensures SameCounts(m, s, WorkerNext(m, s, gotBuffer), x)
  {
    hide Count, CountOut;
    CountOne(s.worker.ib, x);
    if m.isProg {
      CountSnoc(s.lost, s.worker.ib, x);
    } else {
      CountSnoc(s.input, s.worker.ib, x);
    }
  }

  lemma WorkerCounts(m: Mode, s: Vpp, gotBuffer: bool, x: nat)
    requires Shape(m, s) && Room(m, s)
    ensures SameCounts(m, s, WorkerNext(m, s, gotBuffer), x)
  {
    var w := s.worker;
    if w.TakeOut? {
      TakeOutCounts(m, s, gotBuffer, x);
    } else if w.HoldOut? {
      HoldOutCounts(m, s, gotBuffer, x);
    } else if w.NeedIn? {
      NeedInCounts(m, s, gotBuffer, x);
    } else if w.NeedFrame? {
      NeedFrameCounts(m, s, gotBuffer, x);
    } else if w.Bind? {
      WorkerBindCounts(m, s, gotBuffer, x);
    } else if w.Give? {
      WorkerGiveCounts(m, s, gotBuffer, x);
    } else if w.PassInput? {
      PassInputCounts(m, s, gotBuffer, x);
    } else {
      WorkerWaitCounts(m, s, gotBuffer, x);
    }
    hide SameCounts, WorkerNext, Room;
  }

  lemma WorkerWaitCounts(m: Mode, s: Vpp, gotBuffer: bool, x: nat)
    requires s.worker.WaitIn? || s.worker.Retry? || s.worker.WaitOut? || s.worker.Dead?
    ensures SameCounts(m, s, WorkerNext(m, s, gotBuffer), x)
  {
    hide Count, CountOut;
  }

  lemma CountsStep(m: Mode, s: Vpp, a: Action, x: nat)
    requires Supported(m) && Shape(m, s) && Room(m, s) && Order(m, s)
    ensures SameCounts(m, s, Next(m, s, a), x)
  {
    hide Shape, Order, ProducerNext, InputBackNext, WorkerNext, OutputNext, StoreNext, FetchNext, ReturnNext,
      SameCounts, Room;
    match a
    case WorkerStep(gotBuffer) => WorkerCounts(m, s, gotBuffer, x);
    case OutputDone(i) => OutputCounts(m, s, i, x);
    case StoreDone(i) => if i < |s.returning| { StoreCounts(m, s, i, x); } else { StillCounts(m, s, x); }
    case EmptyInputDone(i) => EmptyInputCounts(m, s, i, x);
    case GiveBack(i) => GiveBackCounts(m, s, i, x);
    case Push => PushCounts(m, s, x);
    case StorePushed(i) => StorePushedCounts(m, s, i, x);
    case UpIn => UpInCounts(m, s, x);
    case Fetch(accepted) => FetchCounts(m, s, accepted, x);
    case PutFrame(i) => PutFrameCounts(m, s, i, x);
    case PutOutput(i) => PutOutputCounts(m, s, i, x);
    case UpOut => StillCounts(m, s, x);
  }

  lemma UpInCounts(m: Mode, s: Vpp, x: nat)
    ensures SameCounts(m, s, ProducerNext(s, UpIn), x)
  {
  }

  lemma StillCounts(m: Mode, s: Vpp, x: nat)
    ensures SameCounts(m, s, s, x)
    ensures s.waking > 0 ==> SameCounts(m, s, s.(waking := s.waking - 1, semOut := s.semOut + 1), x)
  {
  }

  // ----- runs

  lemma StillAccounted(m: Mode, s: Vpp, t: Vpp)
    requires Accounted(m, s) && forall x: nat :: SameCounts(m, s, t, x)
    ensures Accounted(m, t)
  {
    hide InCount, OutCount, VfCount;
    forall x: nat
      ensures InCount(m, t, x) + Count(t.lost, x) == if x < VPP_FRAME_SIZE then 1 else 0
      ensures OutCount(t, x) == if x < m.n then 1 else 0
      ensures VfCount(t, x) == if x < m.n then 1 else 0
    {
      assert SameCounts(m, s, t, x);
    }
  }

  lemma InvParts(m: Mode, s: Vpp)
    ensures Inv(m, s) <==> Shape(m, s) && Accounted(m, s)
    ensures Inv(m, s) ==> Room(m, s) && Supported(m) && Order(m, s)
  {
    hide Accounted, Tokens, Order;
    if Inv(m, s) {
      HasRoom(m, s);
    }
  }

  lemma StepInv(m: Mode, s: Vpp, a: Action)
    requires Inv(m, s)
    ensures Inv(m, Next(m, s, a))
  {
    hide *;
    var t := Next(m, s, a);
    InvParts(m, s);
    ShapeStep(m, s, a);
    forall x: nat
      ensures SameCounts(m, s, t, x)
    {
      CountsStep(m, s, a, x);
    }
    StillAccounted(m, s, t);
    InvParts(m, t);
  }

  lemma {:induction false} RunInv(m: Mode, s: Vpp, run: seq<Action>)
    requires Inv(m, s)
    ensures Inv(m, Run(m, s, run))
    decreases |run|
  {
    hide Next, Inv;
    if run != [] {
      StepInv(m, s, run[0]);
      RunInv(m, Next(m, s, run[0]), run[1..]);
    }
  }

  /** In every interleaving and every mode: outputs and frames are each in exactly one
      place, every put finds room, none of the worker's "can not get" exits is ever taken,
      DI never delivers an output nothing was prepared for; and inputs are conserved until
      the first that neither callback gives back. */
  lemma PipelineSafe(m: Mode, run: seq<Action>)
    requires Supported(m)
    ensures var s := Run(m, Init(m), run);
            && OutputsPlaced(m, s)
            && Room(m, s)
            && s.worker != Dead
            && (s.diOrder != [] ==> s.processing != [])
            && (Conserved(m, s) <==> s.lost == [])
            && (!Lossy(m) ==> s.lost == [])
  {
    InitInv(m);
    RunInv(m, Init(m), run);
    var s := Run(m, Init(m), run);
    HasRoom(m, s);
    NothingLostIff(m, s);
    hide Run, Init, Room, OutputsPlaced, Conserved;
  }

  lemma NothingLostIff(m: Mode, s: Vpp)
    requires Accounted(m, s)
    ensures Conserved(m, s) <==> s.lost == []
  {
    hide InCount, OutputsPlaced;
    if s.lost != [] {
      assert InCount(m, s, s.lost[0]) + Count(s.lost, s.lost[0]) <= 1;
    }
  }

  lemma NextGrows(m: Mode, s: Vpp, a: Action)
    ensures s.lost <= Next(m, s, a).lost && s.bound <= Next(m, s, a).bound
  {
    match a
    case WorkerStep(gotBuffer) => WorkerGrows(m, s, gotBuffer);
    case OutputDone(i) => OutputGrows(m, s, i);
    case EmptyInputDone(_) => InputBackGrows(m, s, a);
    case GiveBack(_) => InputBackGrows(m, s, a);
    case _ =>
    hide WorkerNext, OutputNext, InputBackNext, RemoveAt, Put;
  }

  lemma WorkerGrows(m: Mode, s: Vpp, gotBuffer: bool)
    ensures s.lost <= WorkerNext(m, s, gotBuffer).lost && s.bound == WorkerNext(m, s, gotBuffer).bound
    ensures var t := WorkerNext(m, s, gotBuffer);
            t.diOrder == s.diOrder || (m.local && t.diOrder == s.diOrder + [s.sent])
  {
    if s.worker.Bind? {
      BindGrows(m, s, Out(s.worker.ob, s.worker.vf, s.worker.ib, s.sent));
    }
    hide BindNext, Put;
  }

  lemma BindGrows(m: Mode, s: Vpp, o: Out)
    ensures s.lost == BindNext(m, s, o).lost && s.bound == BindNext(m, s, o).bound
    ensures s.diOrder == BindNext(m, s, o).diOrder
  {
    hide Bypassed, Put;
  }

  lemma OutputGrows(m: Mode, s: Vpp, i: nat)
    ensures s.lost == OutputNext(m, s, i).lost && s.bound <= OutputNext(m, s, i).bound
  {
    hide RemoveAt;
  }

  lemma InputBackGrows(m: Mode, s: Vpp, a: Action)
    requires a.EmptyInputDone? || a.GiveBack?
    ensures s.lost <= InputBackNext(m, s, a).lost && s.bound == InputBackNext(m, s, a).bound
    ensures s.diOrder == InputBackNext(m, s, a).diOrder
  {
    hide RemoveAt, Put;
  }

  /** Neither a lost input nor a wrong binding is ever made good. */
  lemma {:induction false} RunGrows(m: Mode, s: Vpp, run: seq<Action>)
    ensures s.lost <= Run(m, s, run).lost && s.bound <= Run(m, s, run).bound
    decreases |run|
  {
    hide Next;
    if run != [] {
      NextGrows(m, s, run[0]);
      RunGrows(m, Next(m, s, run[0]), run[1..]);
    }
  }

  /** What is lost never comes back: the inputs in circulation are those not lost, and with
      all 64 lost no frame can be pushed again. */
  lemma LossIsFinal(m: Mode, run: seq<Action>, more: seq<Action>)
    requires Supported(m)
    ensures var s := Run(m, Init(m), run);
            var t := Run(m, s, more);
            && (forall x :: x in s.lost ==> InCount(m, t, x) == 0)
            && InSize(m, t) == 64 - |t.lost| <= 64 - |s.lost|
            && (|s.lost| == 64 ==> Next(m, t, Push) == t)
  {
    var s := Run(m, Init(m), run);
    var t := Run(m, s, more);
    InitInv(m);
    RunInv(m, Init(m), run);
    RunInv(m, s, more);
    RunGrows(m, s, more);
    hide Run, Init;
    LostOnce(m, s, t);
  }

  lemma LostOnce(m: Mode, s: Vpp, t: Vpp)
    requires Inv(m, t) && s.lost <= t.lost
    ensures forall x :: x in s.lost ==> InCount(m, t, x) == 0
    ensures InSize(m, t) == VPP_FRAME_SIZE - |t.lost|
    ensures |s.lost| == VPP_FRAME_SIZE ==> Next(m, t, Push) == t
  {
    forall x | x in s.lost
      ensures InCount(m, t, x) == 0
    {
      CountIn(t.lost, x);
      assert InCount(m, t, x) + Count(t.lost, x) <= 1;
    }
  }

  lemma {:induction false} CountIn(q: seq<nat>, x: nat)
    requires x in q
    ensures Count(q, x) > 0
  {
    if q[0] != x {
      CountIn(q[1..], x);
    }
  }

  /** No lost wake-up: a worker blocked on an empty sem_out while output has a buffer is
      about to be woken. */
  lemma NoLostWakeup(m: Mode, run: seq<Action>)
    requires Supported(m)
    ensures var s := Run(m, Init(m), run);
            s.worker == WaitOut && s.semOut == 0 && s.output != [] ==> s.waking > 0
  {
    InitInv(m);
    RunInv(m, Init(m), run);
  }

  // ----- whose picture goes where

  /** Each DI output went to the buffer prepared for the hand-over its picture is of. */
  predicate Right(s: Vpp) {
    forall k :: 0 <= k < |s.bound| ==> s.bound[k].picture == s.bound[k].turn
  }

  /** DI owes its outputs in the order they will be bound. */
  predicate DueInOrder(s: Vpp) {
    forall k :: 0 <= k < |s.diOrder| ==> s.diOrder[k] == |s.bound| + k
  }

  /** A DI output with local buffers other than the first one due. */
  predicate OutOfTurn(m: Mode, s: Vpp, a: Action) {
    m.local && a.OutputDone? && 0 < a.i < |s.diOrder|
  }

  /** DI always finishes the first output due. */
  predicate InOrder(m: Mode, s: Vpp, run: seq<Action>)
    decreases |run|
  {
    run == [] || (!OutOfTurn(m, s, run[0]) && InOrder(m, Next(m, s, run[0]), run[1..]))
  }

  /** The output DI delivers finds the buffer prepared for it exactly when it is the first
      one due. */
  lemma BoundRightIff(m: Mode, s: Vpp, i: nat)
    requires Order(m, s) && m.local && i < |s.diOrder| && Right(s) && DueInOrder(s)
    ensures Right(OutputNext(m, s, i)) <==> i == 0
    ensures i == 0 ==> DueInOrder(OutputNext(m, s, i))
  {
    var t := OutputNext(m, s, i);
    assert t.bound[|s.bound|] == Binding(|s.bound|, |s.bound| + i);
  }

  lemma StepDue(m: Mode, s: Vpp, a: Action)
    requires Order(m, s) && Right(s) && DueInOrder(s)
    ensures Right(Next(m, s, a)) <==> !OutOfTurn(m, s, a)
    ensures Right(Next(m, s, a)) ==> DueInOrder(Next(m, s, a))
  {
    if a.OutputDone? {
      OutputDue(m, s, a.i);
    } else {
      OtherSteps(m, s, a);
    }
    hide OutputNext, Next, Order, RemoveAt;
  }

  lemma OutputDue(m: Mode, s: Vpp, i: nat)
    requires Order(m, s) && Right(s) && DueInOrder(s)
    ensures Right(OutputNext(m, s, i)) <==> !OutOfTurn(m, s, OutputDone(i))
    ensures Right(OutputNext(m, s, i)) ==> DueInOrder(OutputNext(m, s, i))
    ensures Next(m, s, OutputDone(i)) == OutputNext(m, s, i)
  {
    if m.local && i < |s.diOrder| {
      BoundRightIff(m, s, i);
    }
    hide RemoveAt;
  }

  /** Nothing but a DI output and a hand-over bears on the bindings. */
  lemma OtherSteps(m: Mode, s: Vpp, a: Action)
    requires !a.OutputDone?
    ensures Next(m, s, a).bound == s.bound
    ensures Next(m, s, a).diOrder == s.diOrder || (m.local && Next(m, s, a).diOrder == s.diOrder + [s.sent])
  {
    match a
    case WorkerStep(gotBuffer) => WorkerGrows(m, s, gotBuffer);
    case EmptyInputDone(_) => InputBackGrows(m, s, a);
    case GiveBack(_) => InputBackGrows(m, s, a);
    case _ =>
    hide WorkerNext, InputBackNext, RemoveAt, Put;
  }

  lemma WrongStays(s: Vpp, t: Vpp)
    requires s.bound <= t.bound && Right(t)
    ensures Right(s)
  {
  }

  lemma {:induction false} RunRightIff(m: Mode, s: Vpp, run: seq<Action>)
    requires Inv(m, s) && Right(s) && DueInOrder(s)
    ensures Right(Run(m, s, run)) <==> InOrder(m, s, run)
    decreases |run|
  {
    hide Next, Inv, Right, DueInOrder, Order, OutOfTurn;
    if run != [] {
      var t := Next(m, s, run[0]);
      InvParts(m, s);
      StepDue(m, s, run[0]);
      StepInv(m, s, run[0]);
      RunGrows(m, t, run[1..]);
      if Right(t) {
        RunRightIff(m, t, run[1..]);
      } else if Right(Run(m, t, run[1..])) {
        WrongStays(t, Run(m, t, run[1..]));
      }
    }
  }

  /** The k-th DI output goes to the buffer prepared for the k-th hand-over, whatever DI
      delivers; so all pictures are where they belong exactly when DI finishes in order. */
  lemma OutputsMatchIff(m: Mode, run: seq<Action>)
    requires Supported(m)
    ensures var s := Run(m, Init(m), run);
            && (forall k :: 0 <= k < |s.bound| ==> s.bound[k].turn == k)
            && (Right(s) <==> InOrder(m, Init(m), run))
  {
    InitInv(m);
    RunInv(m, Init(m), run);
    RunRightIff(m, Init(m), run);
    hide InOrder;
  }

  // ----- why the mode matters

  lemma RunOne(m: Mode, s: Vpp, a: Action, rest: seq<Action>)
    ensures Run(m, s, [a] + rest) == Run(m, Next(m, s, a), rest)
  {
    assert ([a] + rest)[1..] == rest;
  }

  lemma RunNone(m: Mode, s: Vpp)
    ensures Run(m, s, []) == s
  {
  }

  lemma One(m: Mode, s: Vpp, a: Action)
    ensures Run(m, s, [a]) == Next(m, s, a)
  {
    hide Next;
    RunOne(m, s, a, []);
    RunNone(m, Next(m, s, a));
    assert [a] + [] == [a];
  }

  lemma Two(m: Mode, s: Vpp, a: Action, b: Action)
    ensures Run(m, s, [a, b]) == Next(m, Next(m, s, a), b)
  {
    hide Next, Run;
    RunOne(m, s, a, [b]);
    One(m, Next(m, s, a), b);
    assert [a] + [b] == [a, b];
  }

  lemma Three(m: Mode, s: Vpp, a: Action, b: Action, c: Action)
    ensures Run(m, s, [a, b, c]) == Next(m, Next(m, Next(m, s, a), b), c)
  {
    hide Next, Run;
    RunOne(m, s, a, [b, c]);
    Two(m, Next(m, s, a), b, c);
    assert [a] + [b, c] == [a, b, c];
  }

  lemma {:induction false} RunAppend(m: Mode, s: Vpp, a: seq<Action>, b: seq<Action>)
    ensures Run(m, s, a + b) == Run(m, Run(m, s, a), b)
    decreases |a|
  {
    hide Next;
    if a == [] {
      assert a + b == b;
    } else {
      assert (a + b)[1..] == a[1..] + b;
      RunAppend(m, Next(m, s, a[0]), a[1..], b);
    }
  }

  /** A frame that loses its input buffer: pushed, taken, and either handed past DI or, with
      no local buffers, given back by DI. */
  lemma FrameLost(m: Mode) returns (run: seq<Action>)
    requires Lossy(m) && 0 < m.n <= VPP_FRAME_SIZE
    ensures Run(m, Init(m), run).lost == [0]
    ensures !Conserved(m, Run(m, Init(m), run))
  {
    var w := WorkerStep(true);
    var tail := [w, w, w, w, w] + [EmptyInputDone(0)];
    var s3 := Init(m).(input := Ids(VPP_FRAME_SIZE)[1..], inDone := [0], semIn := 1);
    var s6 := s3.(semIn := 0, output := Ids(m.n)[1..], worker := HoldOut(0));
    FrameLostTail(m, s6, s6.input, s6.output);
    var mid := FrameTaken(m, s3, s6, tail);
    run := FramePushed(m, s3, mid);
    hide Run, Init, Conserved;
    PipelineSafe(m, run);
  }

  lemma FramePushed(m: Mode, s3: Vpp, rest: seq<Action>) returns (run: seq<Action>)
    requires s3 == Init(m).(input := Ids(VPP_FRAME_SIZE)[1..], inDone := [0], semIn := 1)
    ensures Run(m, Init(m), run) == Run(m, s3, rest)
  {
    var s1 := Init(m).(input := Ids(VPP_FRAME_SIZE)[1..], pushing := [0]);
    assert Next(m, Init(m), Push) == s1;
    var s2 := s1.(pushing := [], inDone := [0], pushed := 1);
    assert Next(m, s1, StorePushed(0)) == s2;
    assert Next(m, s2, UpIn) == s3;
    hide Run, Next;
    RunOne(m, s2, UpIn, rest);
    RunOne(m, s1, StorePushed(0), [UpIn] + rest);
    run := [Push] + ([StorePushed(0)] + ([UpIn] + rest));
    RunOne(m, Init(m), Push, [StorePushed(0)] + ([UpIn] + rest));
  }

  lemma FrameTaken(m: Mode, s3: Vpp, s6: Vpp, rest: seq<Action>) returns (run: seq<Action>)
    requires m.n > 0 && s3.worker == WaitIn && s3.semIn == 1 && s3.output == Ids(m.n)
    requires s6 == s3.(semIn := 0, output := Ids(m.n)[1..], worker := HoldOut(0))
    ensures Run(m, s3, run) == Run(m, s6, rest)
  {
    var w := WorkerStep(true);
    var s4 := s3.(semIn := 0, worker := Retry);
    assert Next(m, s3, w) == s4;
    var s5 := s4.(worker := TakeOut);
    assert Next(m, s4, w) == s5;
    assert Next(m, s5, w) == s6;
    hide Run, Next;
    RunOne(m, s5, w, rest);
    RunOne(m, s4, w, [w] + rest);
    run := [w] + ([w] + ([w] + rest));
    RunOne(m, s3, w, [w] + ([w] + rest));
  }

  lemma FrameLostTail(m: Mode, s6: Vpp, rest: seq<nat>, left: seq<nat>)
    requires Lossy(m) && m.n > 0
    requires rest == Ids(VPP_FRAME_SIZE)[1..] && left == Ids(m.n)[1..]
    requires s6 == Init(m).(input := rest, output := left, inDone := [0], worker := HoldOut(0))
    ensures var w := WorkerStep(true);
            Run(m, s6, [w, w, w, w, w] + [EmptyInputDone(0)]).lost == [0]
  {
    var w := WorkerStep(true);
    var s8 := s6.(inDone := [], worker := NeedFrame(0, 0));
    hide Run, Next;
    InputTaken(m, s6, s8);
    FrameHandedOn(m, s8);
    RunAppend(m, s6, [w, w], [w, w, w]);
    assert [w, w] + [w, w, w] == [w, w, w, w, w];
    RunAppend(m, s6, [w, w, w, w, w], [EmptyInputDone(0)]);
    One(m, Run(m, s8, [w, w, w]), EmptyInputDone(0));
  }

  lemma InputTaken(m: Mode, s: Vpp, t: Vpp)
    requires m.isProg && s.inDone == [0] && s.worker == HoldOut(0)
    requires t == s.(inDone := [], worker := NeedFrame(0, 0))
    ensures Run(m, s, [WorkerStep(true), WorkerStep(true)]) == t
  {
    var w := WorkerStep(true);
    Two(m, s, w, w);
    hide Run;
    assert Next(m, s, w) == s.(worker := NeedIn(0));
  }

  lemma FrameHandedOn(m: Mode, s: Vpp)
    requires Lossy(m) && s.worker == NeedFrame(0, 0) && s.frame != []
    requires s.diIn == [] && s.lost == [] && s.handed == 0
    ensures Next(m, Run(m, s, [WorkerStep(true), WorkerStep(true), WorkerStep(true)]), EmptyInputDone(0)).lost == [0]
  {
    var w := WorkerStep(true);
    Three(m, s, w, w, w);
    hide Run;
    var s1 := s.(frame := s.frame[1..], worker := Bind(0, 0, s.frame[0]));
    assert Next(m, s, w) == s1;
    HandedOn(m, s1);
  }

  lemma HandedOn(m: Mode, s: Vpp)
    requires Lossy(m) && s.worker.Bind? && s.worker.ib == 0
    requires s.diIn == [] && s.lost == [] && s.handed == 0
    ensures var w := WorkerStep(true);
            Next(m, Next(m, Next(m, s, w), w), EmptyInputDone(0)).lost == [0]
  {
    var w := WorkerStep(true);
    var t := Next(m, s, w);
    assert t.worker == if m.bypass > 0 then PassInput(0) else Give(0);
  }

  /** Tokens survive every run exactly when progressive content has local buffers and no
      frame goes past DI. */
  lemma ConservedIff(m: Mode)
    requires 0 < m.n <= VPP_FRAME_SIZE
    ensures (forall run: seq<Action> :: Conserved(m, Run(m, Init(m), run))) <==> (m.isProg ==> m.local && m.bypass == 0)
  {
    if !Lossy(m) {
      forall run: seq<Action>
        ensures Conserved(m, Run(m, Init(m), run))
      {
        PipelineSafe(m, run);
      }
    } else {
      var run := FrameLost(m);
    }
  }
}
