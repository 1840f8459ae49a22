/** The format converter (GE2D) as a concurrent protocol. Its worker converts in place of
    handing over to callbacks: it finishes the output and the input itself. Every run is
    a run of the post-processing protocol with caller's buffers, so it inherits its
    guarantees. */
module Ge2dPipeline {
  import opened VppPipeline

  datatype Thread =
    | AwaitInput                               // down(sem_in)
    | Test                                     // test whether output is empty
    | AwaitOutput                              // down(sem_out)
    | PopOutput                                // pop output
    | Allocate(ob: nat)                        // get a capture buffer
    | PopInput(ob: nat)                        // pop in_done_q
    | PopFrame(ob: nat, ib: nat)               // pop frame
    | FinishOutput(ob: nat, ib: nat, vf: nat)  // converted: fill out_done_q, submit
    | FinishInput(ib: nat)                     // give the input back
    | Stopped                                  // an exit the code takes for impossible

  datatype Ge2d = Ge2d(
    input: seq<nat>, inDone: seq<nat>, output: seq<nat>, frame: seq<nat>, outDone: seq<Out>,
    semIn: nat, semOut: nat, thread: Thread,
    pushing: seq<nat>,      // producers that popped input, before in_done_q
    pushed: nat,            // producers that filled in_done_q, before up(sem_in)
    submitted: nat,         // submissions that have yet to fetch from out_done_q
    recycling: seq<Out>,    // fetched, before frame
    framed: seq<nat>,       // returned the frame, before output
    waking: nat)            // returned the buffer, before up(sem_out)

  datatype Event =
    | PushFrame | StoreFrame(i: nat) | SignalInput
    | ThreadStep(gotBuffer: bool)
    | FetchOutput(accepted: bool) | ReturnFrame(i: nat) | ReturnOutput(i: nat) | SignalOutput

  function ThreadNext(n: nat, g: Ge2d, gotBuffer: bool): Ge2d {
    match g.thread
    case AwaitInput =>
      if g.semIn == 0 then g else g.(semIn := g.semIn - 1, thread := Test)
    case Test =>
      g.(thread := if g.output == [] then AwaitOutput else PopOutput)
    case AwaitOutput =>
      if g.semOut == 0 then g else g.(semOut := g.semOut - 1, thread := Test)
    case PopOutput =>
      if g.output == [] then g.(thread := Stopped)
      else g.(output := g.output[1..], thread := Allocate(g.output[0]))
    case Allocate(ob) =>
      if gotBuffer then g.(thread := PopInput(ob))
      else g.(output := Put(g.output, ob, n), thread := Test)
    case PopInput(ob) =>
      if g.inDone == [] then g.(thread := Stopped)
      else g.(inDone := g.inDone[1..], thread := PopFrame(ob, g.inDone[0]))
    case PopFrame(ob, ib) =>
      if g.frame == [] then g.(thread := Stopped)
      else g.(frame := g.frame[1..], thread := FinishOutput(ob, ib, g.frame[0]))
    case FinishOutput(ob, ib, vf) =>
      g.(outDone := Put(g.outDone, Out(ob, vf, ib, 0), VPP_FRAME_SIZE), submitted := g.submitted + 1,
         thread := FinishInput(ib))
    case FinishInput(ib) =>
      g.(input := Put(g.input, ib, VPP_FRAME_SIZE), thread := AwaitInput)
    case Stopped => g
  }

  function EventNext(n: nat, g: Ge2d, e: Event): Ge2d {
    match e
    case ThreadStep(gotBuffer) => ThreadNext(n, g, gotBuffer)
    case PushFrame =>
      if g.input == [] then g
      else g.(input := g.input[1..], pushing := g.pushing + [g.input[0]])
    case StoreFrame(i) =>
      if i < |g.pushing| then
        g.(pushing := RemoveAt(g.pushing, i), inDone := Put(g.inDone, g.pushing[i], VPP_FRAME_SIZE),
           pushed := g.pushed + 1)
      else g
    case SignalInput =>
      if g.pushed == 0 then g else g.(pushed := g.pushed - 1, semIn := g.semIn + 1)
    case FetchOutput(accepted) =>
      if g.submitted == 0 then g
      else if !accepted || g.outDone == [] then g.(submitted := g.submitted - 1)
      else g.(submitted := g.submitted - 1, outDone := g.outDone[1..], recycling := g.recycling + [g.outDone[0]])
    case ReturnFrame(i) =>
      if i < |g.recycling| then
        g.(recycling := RemoveAt(g.recycling, i), frame := Put(g.frame, g.recycling[i].vf, n),
           framed := g.framed + [g.recycling[i].ob])
      else g
    case ReturnOutput(i) =>
      if i < |g.framed| then
        g.(framed := RemoveAt(g.framed, i), output := Put(g.output, g.framed[i], n), waking := g.waking + 1)
      else g
    case SignalOutput =>
      if g.waking == 0 then g else g.(waking := g.waking - 1, semOut := g.semOut + 1)
  }

  function EventRun(n: nat, g: Ge2d, es: seq<Event>): Ge2d
    decreases |es|
  {
    if es == [] then g else EventRun(n, EventNext(n, g, es[0]), es[1..])
  }

  function Begin(n: nat): Ge2d {
    Ge2d(Ids(VPP_FRAME_SIZE), [], Ids(n), Ids(n), [], 0, 0, AwaitInput, [], 0, 0, [], [], 0)
  }

  // ----- as post-processing

  function CallersBuffers(n: nat): Mode {
    Mode(false, false, n, 0)
  }

  function AsWorker(t: Thread): Worker {
    match t
    case AwaitInput => WaitIn
    case Test => Retry
    case AwaitOutput => WaitOut
    case PopOutput => TakeOut
    case Allocate(ob) => HoldOut(ob)
    case PopInput(ob) => NeedIn(ob)
    case PopFrame(ob, ib) => NeedFrame(ob, ib)
    case FinishOutput(ob, ib, vf) => Bind(ob, ib, vf)
    case FinishInput(ib) => Give(ib)
    case Stopped => Dead
  }

  /** Nothing is ever inside a DI here. */
  function AsVpp(g: Ge2d): Vpp {
    Vpp(g.input, g.inDone, g.output, g.frame, [], g.outDone, g.semIn, g.semOut, AsWorker(g.thread),
        g.pushing, g.pushed, [], [], [], [], [], g.submitted, g.recycling, g.framed, g.waking, 0, 0, [], [])
  }

  /** The steps of the post-processing protocol one step here amounts to. */
  function Steps(g: Ge2d, e: Event): seq<Action> {
    match e
    case PushFrame => [Push]
    case StoreFrame(i) => [StorePushed(i)]
    case SignalInput => [UpIn]
    case FetchOutput(accepted) => [Fetch(accepted)]
    case ReturnFrame(i) => [PutFrame(i)]
    case ReturnOutput(i) => [PutOutput(i)]
    case SignalOutput => [UpOut]
    case ThreadStep(gotBuffer) =>
      if g.thread.FinishOutput? then [WorkerStep(gotBuffer), OutputDone(0), StoreDone(0)]
      else if g.thread.FinishInput? then [WorkerStep(gotBuffer), EmptyInputDone(0)]
      else [WorkerStep(gotBuffer)]
  }

  /** The worker finishing an output is the worker's hand-over followed at once by the
      output callback. */
  lemma OutputSimulated(n: nat, g: Ge2d, gotBuffer: bool)
    requires g.thread.FinishOutput?
    ensures Run(CallersBuffers(n), AsVpp(g), [WorkerStep(gotBuffer), OutputDone(0), StoreDone(0)])
         == AsVpp(ThreadNext(n, g, gotBuffer))
  {
    var m, s := CallersBuffers(n), AsVpp(g);
    var o := Out(g.thread.ob, g.thread.vf, g.thread.ib, 0);
    Three(m, s, WorkerStep(gotBuffer), OutputDone(0), StoreDone(0));
    hide Run, Next, Put;
    var s1 := s.(diOut := [o], worker := Give(o.ib));
    HandedOver(m, s, o, gotBuffer);
    Delivered(m, s1, o);
    Submitted(m, s1.(diOut := [], returning := [o]), o);
  }

  lemma HandedOver(m: Mode, s: Vpp, o: Out, gotBuffer: bool)
    requires !m.local && m.bypass == 0 && s.diOut == []
    requires s.worker == Bind(o.ob, o.ib, o.vf) && o.turn == s.sent
    ensures Next(m, s, WorkerStep(gotBuffer)) == s.(diOut := [o], worker := Give(o.ib))
  {
  }

  lemma Delivered(m: Mode, s: Vpp, o: Out)
    requires !m.local && s.diOut == [o] && s.returning == []
    ensures Next(m, s, OutputDone(0)) == s.(diOut := [], returning := [o])
  {
  }

  lemma Submitted(m: Mode, s: Vpp, o: Out)
    requires !m.isProg && s.returning == [o]
    ensures Next(m, s, StoreDone(0))
         == s.(returning := [], outDone := Put(s.outDone, o, VPP_FRAME_SIZE), submitted := s.submitted + 1)
  {
    hide Put;
  }

  lemma InputSimulated(n: nat, g: Ge2d, gotBuffer: bool)
    requires g.thread.FinishInput?
    ensures Run(CallersBuffers(n), AsVpp(g), [WorkerStep(gotBuffer), EmptyInputDone(0)])
         == AsVpp(ThreadNext(n, g, gotBuffer))
  {
    var m, s := CallersBuffers(n), AsVpp(g);
    Two(m, s, WorkerStep(gotBuffer), EmptyInputDone(0));
    hide Run;
    var s1 := s.(diIn := [g.thread.ib], worker := WaitIn);
    assert Next(m, s, WorkerStep(gotBuffer)) == s1;
  }

  lemma WaitSimulated(n: nat, g: Ge2d, gotBuffer: bool)
    requires g.thread.AwaitInput? || g.thread.Test? || g.thread.AwaitOutput? || g.thread.Stopped?
    ensures WorkerNext(CallersBuffers(n), AsVpp(g), gotBuffer) == AsVpp(ThreadNext(n, g, gotBuffer))
  {
  }

  lemma OutputPopSimulated(n: nat, g: Ge2d, gotBuffer: bool)
    requires g.thread.PopOutput? || g.thread.Allocate?
    ensures WorkerNext(CallersBuffers(n), AsVpp(g), gotBuffer) == AsVpp(ThreadNext(n, g, gotBuffer))
  {
  }

  lemma InputPopSimulated(n: nat, g: Ge2d, gotBuffer: bool)
    requires g.thread.PopInput? || g.thread.PopFrame?
    ensures WorkerNext(CallersBuffers(n), AsVpp(g), gotBuffer) == AsVpp(ThreadNext(n, g, gotBuffer))
  {
  }

  lemma ThreadSimulated(n: nat, g: Ge2d, gotBuffer: bool)
    requires !g.thread.FinishOutput? && !g.thread.FinishInput?
    ensures Run(CallersBuffers(n), AsVpp(g), [WorkerStep(gotBuffer)]) == AsVpp(ThreadNext(n, g, gotBuffer))
  {
    One(CallersBuffers(n), AsVpp(g), WorkerStep(gotBuffer));
    hide Run, WorkerNext, ThreadNext, AsVpp;
    if g.thread.PopOutput? || g.thread.Allocate? {
      OutputPopSimulated(n, g, gotBuffer);
    } else if g.thread.PopInput? || g.thread.PopFrame? {
      InputPopSimulated(n, g, gotBuffer);
    } else {
      WaitSimulated(n, g, gotBuffer);
    }
  }

  lemma ProducerSimulated(n: nat, g: Ge2d, e: Event)
    requires e.PushFrame? || e.StoreFrame? || e.SignalInput?
    ensures Run(CallersBuffers(n), AsVpp(g), Steps(g, e)) == AsVpp(EventNext(n, g, e))
  {
    One(CallersBuffers(n), AsVpp(g), Steps(g, e)[0]);
    hide Run;
  }

  lemma FetchSimulated(n: nat, g: Ge2d, e: Event)
    requires e.FetchOutput? || e.SignalOutput?
    ensures Run(CallersBuffers(n), AsVpp(g), Steps(g, e)) == AsVpp(EventNext(n, g, e))
  {
    One(CallersBuffers(n), AsVpp(g), Steps(g, e)[0]);
    hide Run, RemoveAt, Put;
  }

  lemma ReturnSimulated(n: nat, g: Ge2d, e: Event)
    requires e.ReturnFrame? || e.ReturnOutput?
    ensures Run(CallersBuffers(n), AsVpp(g), Steps(g, e)) == AsVpp(EventNext(n, g, e))
  {
    One(CallersBuffers(n), AsVpp(g), Steps(g, e)[0]);
    hide Run, RemoveAt, Put;
  }

  lemma StepSimulated(n: nat, g: Ge2d, e: Event)
    ensures Run(CallersBuffers(n), AsVpp(g), Steps(g, e)) == AsVpp(EventNext(n, g, e))
  {
    hide Run, AsVpp, ThreadNext;
    match e {
      case ThreadStep(gotBuffer) =>
        if g.thread.FinishOutput? {
          OutputSimulated(n, g, gotBuffer);
        } else if g.thread.FinishInput? {
          InputSimulated(n, g, gotBuffer);
        } else {
          ThreadSimulated(n, g, gotBuffer);
        }
      case FetchOutput(_) => FetchSimulated(n, g, e);
      case ReturnFrame(_) => ReturnSimulated(n, g, e);
      case ReturnOutput(_) => ReturnSimulated(n, g, e);
      case SignalOutput => FetchSimulated(n, g, e);
      case _ => ProducerSimulated(n, g, e);
    }
  }

  /** Every run of the converter is a run of the post-processing protocol. */
  lemma {:induction false} RunSimulated(n: nat, g: Ge2d, es: seq<Event>) returns (run: seq<Action>)
    ensures Run(CallersBuffers(n), AsVpp(g), run) == AsVpp(EventRun(n, g, es))
    decreases |es|
  {
    if es == [] {
      run := [];
    } else {
      hide Run, AsVpp, EventNext, Steps;
      StepSimulated(n, g, es[0]);
      var rest := RunSimulated(n, EventNext(n, g, es[0]), es[1..]);
      run := Steps(g, es[0]) + rest;
      RunAppend(CallersBuffers(n), AsVpp(g), Steps(g, es[0]), rest);
    }
  }

  /** In every interleaving each pool element of the converter is in exactly one place,
      every put finds room, its thread never takes an exit meant for the impossible, and
      a thread blocked while output has a buffer is about to be woken. */
  lemma ConverterSafe(n: nat, es: seq<Event>)
    requires n <= VPP_FRAME_SIZE
    ensures var g := EventRun(n, Begin(n), es);
            && Conserved(CallersBuffers(n), AsVpp(g))
            && Room(CallersBuffers(n), AsVpp(g))
            && g.thread != Stopped
            && (g.thread == AwaitOutput && g.semOut == 0 && g.output != [] ==> g.waking > 0)
  {
    hide Run, EventRun, Conserved, Room;
    var m := CallersBuffers(n);
    var run := RunSimulated(n, Begin(n), es);
    assert AsVpp(Begin(n)) == Init(m);
    PipelineSafe(m, run);
    NoLostWakeup(m, run);
  }
}
