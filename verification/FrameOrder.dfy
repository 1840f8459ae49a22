/** Every FIFO of the post-processor and of the converter hands out what was put into it,
    in that order; so frames leave in the order they came. What was put and what was taken
    is read off the steps of a run: what an actor holds before it puts, and what one holds
    after it has taken. */
module FrameOrder {
  import opened VppPipeline
  import opened Ge2dPipeline

  /** The FIFOs of pool elements, and those of outputs with what is bound to them. */
  datatype Fifo = Inputs | InDone | Outputs | Frames
  datatype OutFifo = Processing | OutDone

  function Content(s: Vpp, f: Fifo): seq<nat> {
    match f
    case Inputs => s.input
    case InDone => s.inDone
    case Outputs => s.output
    case Frames => s.frame
  }

  function OutContent(s: Vpp, f: OutFifo): seq<Out> {
    if f == Processing then s.processing else s.outDone
  }

  /** The element at i, if there is one. */
  function At<T>(q: seq<T>, i: nat): seq<T> {
    if i < |q| then [q[i]] else []
  }

  /** What has been added at the end. */
  function New<T>(before: seq<T>, after: seq<T>): seq<T> {
    if |after| > |before| then after[|before|..] else []
  }

  /** What an actor lets go into the FIFO in a step, by what it holds before. */
  function PutBy(m: Mode, s: Vpp, a: Action, f: Fifo): seq<nat> {
    match f
    case Inputs =>
      (match a
       case EmptyInputDone(i) => if m.isProg then [] else At(s.diIn, i)
       case GiveBack(i) => At(s.givingBack, i)
       case WorkerStep(_) => if s.worker.PassInput? && !m.isProg then [s.worker.ib] else []
       case _ => [])
    case InDone => if a.StorePushed? then At(s.pushing, a.i) else []
    case Outputs =>
      (match a
       case PutOutput(i) => At(s.framed, i)
       case WorkerStep(gotBuffer) => if s.worker.HoldOut? && !m.isProg && !gotBuffer then [s.worker.ob] else []
       case _ => [])
    case Frames => if a.PutFrame? then At(Col(s.recycling, VF), a.i) else []
  }

  /** What an actor has taken from it, by what it holds after the step. */
  function TakenBy(s: Vpp, t: Vpp, f: Fifo): seq<nat> {
    match f
    case Inputs => New(s.pushing, t.pushing)
    case InDone => if s.worker.NeedIn? && t.worker.NeedFrame? then [t.worker.ib] else []
    case Outputs => if s.worker.TakeOut? && t.worker.HoldOut? then [t.worker.ob] else []
    case Frames => if s.worker.NeedFrame? && t.worker.Bind? then [t.worker.vf] else []
  }

  /** The worker prepares an output for DI, or fills out_done_q itself; or a callback does. */
  function OutPutBy(m: Mode, s: Vpp, a: Action, f: OutFifo): seq<Out> {
    match a
    case WorkerStep(_) =>
      if s.worker.Bind? && (if f == OutDone then Bypassed(m, s) else m.local && !Bypassed(m, s)) then
        [Out(s.worker.ob, s.worker.vf, s.worker.ib, s.sent)]
      else []
    case StoreDone(i) => if f == OutDone then At(s.returning, i) else []
    case _ => []
  }

  function OutTakenBy(m: Mode, s: Vpp, t: Vpp, f: OutFifo): seq<Out> {
    if f == OutDone then New(s.recycling, t.recycling) else if m.local then New(s.returning, t.returning) else []
  }

  function Puts(m: Mode, s: Vpp, run: seq<Action>, f: Fifo): seq<nat>
    decreases |run|
  {
    if run == [] then [] else PutBy(m, s, run[0], f) + Puts(m, Next(m, s, run[0]), run[1..], f)
  }

  function Takes(m: Mode, s: Vpp, run: seq<Action>, f: Fifo): seq<nat>
    decreases |run|
  {
    if run == [] then [] else TakenBy(s, Next(m, s, run[0]), f) + Takes(m, Next(m, s, run[0]), run[1..], f)
  }

  function OutPuts(m: Mode, s: Vpp, run: seq<Action>, f: OutFifo): seq<Out>
    decreases |run|
  {
    if run == [] then [] else OutPutBy(m, s, run[0], f) + OutPuts(m, Next(m, s, run[0]), run[1..], f)
  }

  function OutTakes(m: Mode, s: Vpp, run: seq<Action>, f: OutFifo): seq<Out>
    decreases |run|
  {
    if run == [] then [] else OutTakenBy(m, s, Next(m, s, run[0]), f) + OutTakes(m, Next(m, s, run[0]), run[1..], f)
  }

  // ----- how one FIFO moves

  /** Content before, what is put, what is taken, content after. */
  predicate Moves<T(==)>(c: seq<T>, put: seq<T>, taken: seq<T>, d: seq<T>) {
    c + put == taken + d
  }

  lemma Rests<T>(c: seq<T>)
    ensures Moves(c, [], [], c)
  {
  }

  lemma HeadGoes<T>(c: seq<T>)
    requires c != []
    ensures Moves(c, [], [c[0]], c[1..])
  {
  }

  lemma TailComes<T>(c: seq<T>, x: T, cap: nat)
    requires |c| < cap
    ensures Moves(c, [x], [], Put(c, x, cap))
  {
  }

  lemma NewOne<T>(q: seq<T>, x: T)
    ensures New(q, q + [x]) == [x]
  {
  }

  lemma NewNone<T>(q: seq<T>, i: nat)
    ensures New(q, q) == []
    ensures i < |q| ==> New(q, RemoveAt(q, i)) == []
  {
  }

  lemma Joined<T>(c: seq<T>, p: seq<T>, t: seq<T>, d: seq<T>, ps: seq<T>, ts: seq<T>, e: seq<T>)
    requires Moves(c, p, t, d) && Moves(d, ps, ts, e)
    ensures Moves(c, p + ps, t + ts, e)
  {
    assert c + (p + ps) == (c + p) + ps;
    assert (t + d) + ps == t + (d + ps);
    assert t + (ts + e) == (t + ts) + e;
  }

  // ----- one step

  ghost predicate StepMoves(m: Mode, s: Vpp, a: Action, t: Vpp, f: Fifo) {
    Moves(Content(s, f), PutBy(m, s, a, f), TakenBy(s, t, f), Content(t, f))
  }

  ghost predicate OutMoves(m: Mode, s: Vpp, a: Action, t: Vpp, f: OutFifo) {
    Moves(OutContent(s, f), OutPutBy(m, s, a, f), OutTakenBy(m, s, t, f), OutContent(t, f))
  }

  /** Nothing put, nothing taken. */
  lemma FifoRests(m: Mode, s: Vpp, a: Action, t: Vpp, f: Fifo)
    requires PutBy(m, s, a, f) == [] && TakenBy(s, t, f) == [] && Content(t, f) == Content(s, f)
    ensures StepMoves(m, s, a, t, f)
  {
    hide PutBy, TakenBy, Content;
    Rests(Content(s, f));
  }

  lemma WorkerFifo(m: Mode, s: Vpp, gotBuffer: bool, f: Fifo)
    requires Room(m, s)
    ensures StepMoves(m, s, WorkerStep(gotBuffer), WorkerNext(m, s, gotBuffer), f)
  {
    match s.worker {
      case TakeOut => TakeOutFifo(m, s, gotBuffer, f);
      case HoldOut(_) => HoldOutFifo(m, s, gotBuffer, f);
      case NeedIn(_) => NeedInFifo(m, s, gotBuffer, f);
      case NeedFrame(_, _) => NeedFrameFifo(m, s, gotBuffer, f);
      case PassInput(_) => PassInputFifo(m, s, gotBuffer, f);
      case _ =>
        WorkerRests(m, s, gotBuffer, f);
        FifoRests(m, s, WorkerStep(gotBuffer), WorkerNext(m, s, gotBuffer), f);
    }
    hide StepMoves, WorkerNext, Room;
  }

  lemma WorkerRests(m: Mode, s: Vpp, gotBuffer: bool, f: Fifo)
    requires s.worker.WaitIn? || s.worker.Retry? || s.worker.WaitOut? || s.worker.Bind? || s.worker.Give?
             || s.worker.Dead?
    ensures PutBy(m, s, WorkerStep(gotBuffer), f) == [] && TakenBy(s, WorkerNext(m, s, gotBuffer), f) == []
    ensures Content(WorkerNext(m, s, gotBuffer), f) == Content(s, f)
  {
    hide Bypassed, Put;
  }

  lemma TakeOutFifo(m: Mode, s: Vpp, gotBuffer: bool, f: Fifo)
    requires s.worker.TakeOut?
    ensures StepMoves(m, s, WorkerStep(gotBuffer), WorkerNext(m, s, gotBuffer), f)
  {
    hide Moves, New;
    Rests(Content(s, f));
    NewNone(s.pushing, 0);
    if s.output != [] {
      HeadGoes(s.output);
    }
  }

  lemma HoldOutFifo(m: Mode, s: Vpp, gotBuffer: bool, f: Fifo)
    requires Room(m, s) && s.worker.HoldOut?
    ensures StepMoves(m, s, WorkerStep(gotBuffer), WorkerNext(m, s, gotBuffer), f)
  {
    hide Moves, Put, New;
    Rests(Content(s, f));
    NewNone(s.pushing, 0);
    TailComes(s.output, s.worker.ob, m.n);
  }

  lemma NeedInFifo(m: Mode, s: Vpp, gotBuffer: bool, f: Fifo)
    requires s.worker.NeedIn?
    ensures StepMoves(m, s, WorkerStep(gotBuffer), WorkerNext(m, s, gotBuffer), f)
  {
    hide Moves, New;
    Rests(Content(s, f));
    NewNone(s.pushing, 0);
    if s.inDone != [] {
      HeadGoes(s.inDone);
    }
  }

  lemma NeedFrameFifo(m: Mode, s: Vpp, gotBuffer: bool, f: Fifo)
    requires s.worker.NeedFrame?
    ensures StepMoves(m, s, WorkerStep(gotBuffer), WorkerNext(m, s, gotBuffer), f)
  {
    hide Moves, New;
    Rests(Content(s, f));
    NewNone(s.pushing, 0);
    if s.frame != [] {
      HeadGoes(s.frame);
    }
  }

  lemma PassInputFifo(m: Mode, s: Vpp, gotBuffer: bool, f: Fifo)
    requires Room(m, s) && s.worker.PassInput?
    ensures StepMoves(m, s, WorkerStep(gotBuffer), WorkerNext(m, s, gotBuffer), f)
  {
    hide Moves, Put, New;
    Rests(Content(s, f));
    NewNone(s.pushing, 0);
    if !m.isProg {
      TailComes(s.input, s.worker.ib, VPP_FRAME_SIZE);
    }
  }

  lemma ProducerFifo(m: Mode, s: Vpp, a: Action, f: Fifo)
    requires Room(m, s) && (a.Push? || a.StorePushed? || a.UpIn?)
    ensures StepMoves(m, s, a, ProducerNext(s, a), f)
  {
    hide Moves, Put, New, RemoveAt;
    Rests(Content(s, f));
    NewNone(s.pushing, if a.StorePushed? then a.i else 0);
    if a == Push && s.input != [] {
      HeadGoes(s.input);
      NewOne(s.pushing, s.input[0]);
    }
    if a.StorePushed? && a.i < |s.pushing| {
      TailComes(s.inDone, s.pushing[a.i], VPP_FRAME_SIZE);
    }
  }

  lemma InputBackFifo(m: Mode, s: Vpp, a: Action, f: Fifo)
    requires Room(m, s) && Order(m, s) && (a.EmptyInputDone? || a.GiveBack?)
    ensures StepMoves(m, s, a, InputBackNext(m, s, a), f)
  {
    hide Moves, Put, New, RemoveAt, Order;
    Rests(Content(s, f));
    NewNone(s.pushing, 0);
    if a.EmptyInputDone? && a.i < |s.diIn| && !m.isProg {
      TailComes(s.input, s.diIn[a.i], VPP_FRAME_SIZE);
    }
    if a.GiveBack? && a.i < |s.givingBack| {
      TailComes(s.input, s.givingBack[a.i], VPP_FRAME_SIZE);
    }
  }

  lemma ReturnFifo(m: Mode, s: Vpp, a: Action, f: Fifo)
    requires Room(m, s) && (a.PutFrame? || a.PutOutput?)
    ensures StepMoves(m, s, a, ReturnNext(m, s, a), f)
  {
    hide Moves, Put, New, RemoveAt;
    Rests(Content(s, f));
    NewNone(s.pushing, 0);
    if a.PutFrame? && a.i < |s.recycling| {
      TailComes(s.frame, s.recycling[a.i].vf, m.n);
    }
    if a.PutOutput? && a.i < |s.framed| {
      TailComes(s.output, s.framed[a.i], m.n);
    }
  }

  lemma OtherFifo(m: Mode, s: Vpp, a: Action, f: Fifo)
    requires a.OutputDone? || a.StoreDone? || a.Fetch? || a.UpOut?
    ensures StepMoves(m, s, a, Next(m, s, a), f)
  {
    hide Moves, Put, New, RemoveAt;
    Rests(Content(s, f));
    NewNone(s.pushing, 0);
  }

  lemma StepFifo(m: Mode, s: Vpp, a: Action, f: Fifo)
    requires Room(m, s) && Order(m, s)
    ensures StepMoves(m, s, a, Next(m, s, a), f)
  {
    match a {
      case WorkerStep(gotBuffer) => WorkerFifo(m, s, gotBuffer, f);
      case Push => ProducerFifo(m, s, a, f);
      case StorePushed(_) => ProducerFifo(m, s, a, f);
      case UpIn => ProducerFifo(m, s, a, f);
      case EmptyInputDone(_) => InputBackFifo(m, s, a, f);
      case GiveBack(_) => InputBackFifo(m, s, a, f);
      case PutFrame(_) => ReturnFifo(m, s, a, f);
      case PutOutput(_) => ReturnFifo(m, s, a, f);
      case _ => OtherFifo(m, s, a, f);
    }
    hide StepMoves, WorkerNext, ProducerNext, InputBackNext, ReturnNext, OutputNext, StoreNext, FetchNext;
  }

  lemma OutWorkerFifo(m: Mode, s: Vpp, gotBuffer: bool, f: OutFifo)
    requires Room(m, s)
    ensures OutMoves(m, s, WorkerStep(gotBuffer), WorkerNext(m, s, gotBuffer), f)
  {
    if s.worker.Bind? {
      OutBindFifo(m, s, gotBuffer, f);
    } else {
      OutputsRest(m, s, gotBuffer);
      OutRests(m, s, WorkerStep(gotBuffer), WorkerNext(m, s, gotBuffer), f);
    }
    hide OutMoves, WorkerNext, Room;
  }

  lemma OutputsRest(m: Mode, s: Vpp, gotBuffer: bool)
    requires !s.worker.Bind?
    ensures var t := WorkerNext(m, s, gotBuffer);
            && t.processing == s.processing && t.outDone == s.outDone
            && t.recycling == s.recycling && t.returning == s.returning
  {
    if s.worker.Give? || s.worker.PassInput? {
      DoneRests(m, s, gotBuffer);
    } else {
      hide Put, InputDone, HandedNext;
    }
  }

  lemma DoneRests(m: Mode, s: Vpp, gotBuffer: bool)
    requires s.worker.Give? || s.worker.PassInput?
    ensures var t := WorkerNext(m, s, gotBuffer);
            && t.processing == s.processing && t.outDone == s.outDone
            && t.recycling == s.recycling && t.returning == s.returning
  {
    hide Put;
  }

  /** Nothing put, nothing taken. */
  lemma OutRests(m: Mode, s: Vpp, a: Action, t: Vpp, f: OutFifo)
    requires OutPutBy(m, s, a, f) == []
    requires t.processing == s.processing && t.outDone == s.outDone
    requires t.recycling == s.recycling && t.returning == s.returning
    ensures OutMoves(m, s, a, t, f)
  {
    hide Moves, New, OutPutBy;
    Rests(OutContent(s, f));
    NewNone(s.recycling, 0);
    NewNone(s.returning, 0);
  }

  lemma OutBindFifo(m: Mode, s: Vpp, gotBuffer: bool, f: OutFifo)
    requires Room(m, s) && s.worker.Bind?
    ensures OutMoves(m, s, WorkerStep(gotBuffer), WorkerNext(m, s, gotBuffer), f)
  {
    hide Moves, Put, New, At, Bypassed;
    Rests(OutContent(s, f));
    NewNone(s.recycling, 0);
    NewNone(s.returning, 0);
    var o := Out(s.worker.ob, s.worker.vf, s.worker.ib, s.sent);
    TailComes(s.outDone, o, VPP_FRAME_SIZE);
    TailComes(s.processing, o, m.n);
  }

  lemma OutputDoneFifo(m: Mode, s: Vpp, i: nat, f: OutFifo)
    requires Order(m, s)
    ensures OutMoves(m, s, OutputDone(i), OutputNext(m, s, i), f)
  {
    hide Moves, New, RemoveAt;
    Rests(OutContent(s, f));
    NewNone(s.recycling, 0);
    NewNone(s.returning, 0);
    if m.local && i < |s.diOrder| {
      HeadGoes(s.processing);
      NewOne(s.returning, s.processing[0]);
    }
  }

  lemma StoreDoneFifo(m: Mode, s: Vpp, i: nat, f: OutFifo)
    requires Room(m, s) && i < |s.returning|
    ensures OutMoves(m, s, StoreDone(i), StoreNext(m, s, i), f)
  {
    hide Moves, Put, New, RemoveAt;
    Rests(OutContent(s, f));
    NewNone(s.recycling, 0);
    NewNone(s.returning, i);
    TailComes(s.outDone, s.returning[i], VPP_FRAME_SIZE);
  }

  lemma FetchFifo(m: Mode, s: Vpp, accepted: bool, f: OutFifo)
    ensures OutMoves(m, s, Fetch(accepted), FetchNext(s, accepted), f)
  {
    hide Moves, New;
    Rests(OutContent(s, f));
    NewNone(s.recycling, 0);
    NewNone(s.returning, 0);
    if s.outDone != [] {
      HeadGoes(s.outDone);
      NewOne(s.recycling, s.outDone[0]);
    }
  }

  lemma OutOtherFifo(m: Mode, s: Vpp, a: Action, f: OutFifo)
    requires !a.WorkerStep? && !a.OutputDone? && !a.Fetch? && (a.StoreDone? ==> a.i >= |s.returning|)
    ensures OutMoves(m, s, a, Next(m, s, a), f)
  {
    hide Moves, Put, New, RemoveAt;
    Rests(OutContent(s, f));
    NewNone(s.recycling, if a.PutFrame? then a.i else 0);
    NewNone(s.returning, 0);
  }

  lemma OutStepFifo(m: Mode, s: Vpp, a: Action, f: OutFifo)
    requires Room(m, s) && Order(m, s)
    ensures OutMoves(m, s, a, Next(m, s, a), f)
  {
    match a {
      case WorkerStep(gotBuffer) => OutWorkerFifo(m, s, gotBuffer, f);
      case OutputDone(i) => OutputDoneFifo(m, s, i, f);
      case StoreDone(i) => if i < |s.returning| { StoreDoneFifo(m, s, i, f); } else { OutOtherFifo(m, s, a, f); }
      case Fetch(accepted) => FetchFifo(m, s, accepted, f);
      case _ => OutOtherFifo(m, s, a, f);
    }
    hide OutMoves, WorkerNext, ProducerNext, InputBackNext, ReturnNext, OutputNext, StoreNext, FetchNext;
  }

  // ----- runs

  /** Over every run each FIFO hands out first what it held, then what was put, in order. */
  lemma {:induction false} RunFifo(m: Mode, s: Vpp, run: seq<Action>, f: Fifo)
    requires Inv(m, s)
    ensures Content(s, f) + Puts(m, s, run, f) == Takes(m, s, run, f) + Content(Run(m, s, run), f)
    decreases |run|
  {
    hide Next, Inv, Content, PutBy, TakenBy, Room, Order;
    if run == [] {
      Rests(Content(s, f));
    } else {
      var t := Next(m, s, run[0]);
      InvParts(m, s);
      StepFifo(m, s, run[0], f);
      StepInv(m, s, run[0]);
      RunFifo(m, t, run[1..], f);
      Joined(Content(s, f), PutBy(m, s, run[0], f), TakenBy(s, t, f), Content(t, f),
             Puts(m, t, run[1..], f), Takes(m, t, run[1..], f), Content(Run(m, t, run[1..]), f));
    }
  }

  lemma {:induction false} RunOutFifo(m: Mode, s: Vpp, run: seq<Action>, f: OutFifo)
    requires Inv(m, s)
    ensures OutContent(s, f) + OutPuts(m, s, run, f) == OutTakes(m, s, run, f) + OutContent(Run(m, s, run), f)
    decreases |run|
  {
    hide Next, Inv, OutContent, OutPutBy, OutTakenBy, Room, Order;
    if run == [] {
      Rests(OutContent(s, f));
    } else {
      var t := Next(m, s, run[0]);
      InvParts(m, s);
      OutStepFifo(m, s, run[0], f);
      StepInv(m, s, run[0]);
      RunOutFifo(m, t, run[1..], f);
      Joined(OutContent(s, f), OutPutBy(m, s, run[0], f), OutTakenBy(m, s, t, f), OutContent(t, f),
             OutPuts(m, t, run[1..], f), OutTakes(m, t, run[1..], f), OutContent(Run(m, t, run[1..]), f));
    }
  }

  lemma Nothing<T>(q: seq<T>)
    ensures [] + q == q
  {
  }

  // ----- the post-processor

  /** The input in the worker's hands, and the one it has done with in a step. */
  function Holding(w: Worker): seq<nat> {
    match w
    case NeedFrame(_, ib) => [ib]
    case Bind(_, ib, _) => [ib]
    case Give(ib) => [ib]
    case PassInput(ib) => [ib]
    case _ => []
  }

  function HandedBy(s: Vpp, t: Vpp): seq<nat> {
    if s.worker != WaitIn && t.worker == WaitIn then Holding(s.worker) else []
  }

  function Handed(m: Mode, s: Vpp, run: seq<Action>): seq<nat>
    decreases |run|
  {
    if run == [] then [] else HandedBy(s, Next(m, s, run[0])) + Handed(m, Next(m, s, run[0]), run[1..])
  }

  lemma HandedStep(m: Mode, s: Vpp, a: Action)
    requires s.worker.NeedFrame? ==> s.frame != []
    ensures Moves(Holding(s.worker), TakenBy(s, Next(m, s, a), InDone), HandedBy(s, Next(m, s, a)),
                  Holding(Next(m, s, a).worker))
  {
    if a.WorkerStep? {
      HandedWorker(m, s, a.gotBuffer);
    } else {
      Rests(Holding(s.worker));
      hide Moves, RemoveAt, Put;
    }
  }

  lemma FrameThere(m: Mode, s: Vpp)
    requires Inv(m, s)
    ensures s.worker.NeedFrame? ==> s.frame != []
  {
    hide Accounted, Sizes, Order;
  }

  lemma HandedWorker(m: Mode, s: Vpp, gotBuffer: bool)
    requires s.worker.NeedFrame? ==> s.frame != []
    ensures var t := WorkerNext(m, s, gotBuffer);
            Moves(Holding(s.worker), TakenBy(s, t, InDone), HandedBy(s, t), Holding(t.worker))
  {
    hide Put, Bypassed;
  }

  lemma {:induction false} RunHanded(m: Mode, s: Vpp, run: seq<Action>)
    requires Inv(m, s)
    ensures Moves(Holding(s.worker), Takes(m, s, run, InDone), Handed(m, s, run), Holding(Run(m, s, run).worker))
    decreases |run|
  {
    hide Next, Inv, Moves, TakenBy, HandedBy, Holding;
    if run == [] {
      Rests(Holding(s.worker));
    } else {
      var t := Next(m, s, run[0]);
      FrameThere(m, s);
      StepInv(m, s, run[0]);
      HandedStep(m, s, run[0]);
      RunHanded(m, t, run[1..]);
      Joined(Holding(s.worker), TakenBy(s, t, InDone), HandedBy(s, t), Holding(t.worker),
             Takes(m, t, run[1..], InDone), Handed(m, t, run[1..]), Holding(Run(m, t, run[1..]).worker));
    }
  }

  /** Frames pass the worker in the order in which producers stored them: those handed over,
      the one in its hands and those waiting are those stored. Likewise outputs are fetched
      in the order in which they were filled. */
  lemma FramesInOrder(m: Mode, run: seq<Action>)
    requires Supported(m)
    ensures var s := Run(m, Init(m), run);
            && Handed(m, Init(m), run) + Holding(s.worker) + s.inDone == Puts(m, Init(m), run, InDone)
            && OutTakes(m, Init(m), run, OutDone) + s.outDone == OutPuts(m, Init(m), run, OutDone)
  {
    InitInv(m);
    hide Run, Puts, Takes, OutPuts, OutTakes, Handed, Inv;
    RunFifo(m, Init(m), run, InDone);
    RunOutFifo(m, Init(m), run, OutDone);
    RunHanded(m, Init(m), run);
    Nothing(Puts(m, Init(m), run, InDone));
    Nothing(OutPuts(m, Init(m), run, OutDone));
    Nothing(Takes(m, Init(m), run, InDone));
  }

  // ----- how often

  function Bit(c: bool): nat {
    if c then 1 else 0
  }

  /** How often in a run a callback fetched, or was refused downstream; returned an output
      buffer; or the worker was woken on sem_out. */
  function Fetches(m: Mode, s: Vpp, run: seq<Action>): nat
    decreases |run|
  {
    if run == [] then 0 else Bit(run[0].Fetch? && s.submitted > 0) + Fetches(m, Next(m, s, run[0]), run[1..])
  }

  function Returns(m: Mode, s: Vpp, run: seq<Action>): nat
    decreases |run|
  {
    if run == [] then 0
    else Bit(run[0].PutOutput? && run[0].i < |s.framed|) + Returns(m, Next(m, s, run[0]), run[1..])
  }

  function Wakes(m: Mode, s: Vpp, run: seq<Action>): nat
    decreases |run|
  {
    if run == [] then 0
    else Bit(run[0].WorkerStep? && s.worker == WaitOut && s.semOut > 0) + Wakes(m, Next(m, s, run[0]), run[1..])
  }

  lemma StepCounts(m: Mode, s: Vpp, a: Action)
    ensures var t := Next(m, s, a);
            && t.submitted + |t.givingBack| + Bit(a.Fetch? && s.submitted > 0)
               == s.submitted + |s.givingBack| + |OutPutBy(m, s, a, OutDone)|
            && t.semOut + t.waking + Bit(a.WorkerStep? && s.worker == WaitOut && s.semOut > 0)
               == s.semOut + s.waking + Bit(a.PutOutput? && a.i < |s.framed|)
  {
    match a {
      case WorkerStep(gotBuffer) => WorkerSubmits(m, s, gotBuffer); WorkerWakes(m, s, gotBuffer);
      case StoreDone(i) => if i < |s.returning| { StoreSubmits(m, s, i); }
      case GiveBack(_) => BackSubmits(m, s, a);
      case EmptyInputDone(_) => BackSubmits(m, s, a);
      case OutputDone(i) => OutputSubmits(m, s, i);
      case PutFrame(_) => ReturnSubmits(m, s, a);
      case PutOutput(_) => ReturnSubmits(m, s, a);
      case _ =>
    }
    hide WorkerNext, StoreNext, InputBackNext, OutputNext, ReturnNext, Put;
  }

  lemma WorkerSubmits(m: Mode, s: Vpp, gotBuffer: bool)
    ensures var t := WorkerNext(m, s, gotBuffer);
            t.submitted + |t.givingBack|
            == s.submitted + |s.givingBack| + |OutPutBy(m, s, WorkerStep(gotBuffer), OutDone)|
  {
    if s.worker.Bind? {
      BindSubmits(m, s, Out(s.worker.ob, s.worker.vf, s.worker.ib, s.sent));
    }
    hide Put, Bypassed, BindNext;
  }

  lemma BindSubmits(m: Mode, s: Vpp, o: Out)
    ensures var t := BindNext(m, s, o);
            && t.submitted == s.submitted + Bit(Bypassed(m, s)) && t.givingBack == s.givingBack
            && t.semOut == s.semOut && t.waking == s.waking
  {
    hide Put, Bypassed;
  }

  lemma WorkerWakes(m: Mode, s: Vpp, gotBuffer: bool)
    ensures var t := WorkerNext(m, s, gotBuffer);
            t.semOut + t.waking + Bit(s.worker == WaitOut && s.semOut > 0) == s.semOut + s.waking
  {
    if s.worker.Bind? {
      BindSubmits(m, s, Out(s.worker.ob, s.worker.vf, s.worker.ib, s.sent));
    }
    hide Put, Bypassed, BindNext;
  }

  lemma BackSubmits(m: Mode, s: Vpp, a: Action)
    requires a.EmptyInputDone? || a.GiveBack?
    ensures var t := InputBackNext(m, s, a);
            && t.submitted + |t.givingBack| == s.submitted + |s.givingBack|
            && t.semOut == s.semOut && t.waking == s.waking
  {
    hide Put;
  }

  lemma OutputSubmits(m: Mode, s: Vpp, i: nat)
    ensures var t := OutputNext(m, s, i);
            && t.submitted == s.submitted && t.givingBack == s.givingBack
            && t.semOut == s.semOut && t.waking == s.waking
  {
    hide RemoveAt;
  }

  lemma ReturnSubmits(m: Mode, s: Vpp, a: Action)
    requires a.PutFrame? || a.PutOutput?
    ensures var t := ReturnNext(m, s, a);
            && t.submitted == s.submitted && t.givingBack == s.givingBack && t.semOut == s.semOut
            && t.waking == s.waking + Bit(a.PutOutput? && a.i < |s.framed|)
  {
    hide RemoveAt, Put;
  }

  lemma StoreSubmits(m: Mode, s: Vpp, i: nat)
    requires i < |s.returning|
    ensures var t := StoreNext(m, s, i);
            && t.submitted + |t.givingBack| == s.submitted + |s.givingBack| + 1
            && t.semOut == s.semOut && t.waking == s.waking
  {
    hide Put, RemoveAt;
  }

  lemma {:induction false} RunCounts(m: Mode, s: Vpp, run: seq<Action>)
    ensures var t := Run(m, s, run);
            && t.submitted + |t.givingBack| + Fetches(m, s, run)
               == s.submitted + |s.givingBack| + |OutPuts(m, s, run, OutDone)|
            && t.semOut + t.waking + Wakes(m, s, run) == s.semOut + s.waking + Returns(m, s, run)
    decreases |run|
  {
    hide Next, OutPutBy, Bit;
    if run != [] {
      StepCounts(m, s, run[0]);
      RunCounts(m, Next(m, s, run[0]), run[1..]);
    }
  }

  /** Each output filled is submitted once, and each output buffer returned wakes the worker
      once: submissions and wake-ups are those used and those still to come. */
  lemma EachOnce(m: Mode, run: seq<Action>)
    ensures var s := Run(m, Init(m), run);
            && Fetches(m, Init(m), run) + s.submitted + |s.givingBack| == |OutPuts(m, Init(m), run, OutDone)|
            && Wakes(m, Init(m), run) + s.semOut + s.waking == Returns(m, Init(m), run)
  {
    RunCounts(m, Init(m), run);
    hide Run, Fetches, OutPuts, Wakes, Returns;
  }

  // ----- which frames go past DI

  function Least(a: nat, b: nat): nat {
    if a < b then a else b
  }

  /** With local buffers, progressive: the first frames go past DI and lose their input, the
      others are handed over. */
  predicate PastFirst(m: Mode, s: Vpp, n: nat) {
    && s.handed == n
    && |s.lost| == Least(n, m.bypass)
    && s.sent == n - Least(n, m.bypass)
    && (s.worker.PassInput? ==> n < m.bypass)
    && (s.worker.Give? ==> n >= m.bypass)
  }

  lemma PastStep(m: Mode, s: Vpp, a: Action, n: nat)
    requires ByOutput(m) && PastFirst(m, s, n)
    ensures PastFirst(m, Next(m, s, a), n + |HandedBy(s, Next(m, s, a))|)
  {
    match a {
      case WorkerStep(gotBuffer) => PastWorker(m, s, gotBuffer, n);
      case _ => PastOthers(m, s, a);
    }
    hide Next, HandedBy;
  }

  lemma PastWorker(m: Mode, s: Vpp, gotBuffer: bool, n: nat)
    requires ByOutput(m) && PastFirst(m, s, n)
    ensures var t := WorkerNext(m, s, gotBuffer); PastFirst(m, t, n + |HandedBy(s, t)|)
    ensures Next(m, s, WorkerStep(gotBuffer)) == WorkerNext(m, s, gotBuffer)
  {
    if s.worker.Bind? {
      PastBind(m, s, Out(s.worker.ob, s.worker.vf, s.worker.ib, s.sent), n);
    } else if s.worker.Give? || s.worker.PassInput? {
      PastDone(m, s, gotBuffer, n);
    } else {
      PastWait(m, s, gotBuffer);
    }
    hide WorkerNext, Least;
  }

  lemma PastBind(m: Mode, s: Vpp, o: Out, n: nat)
    requires ByOutput(m) && PastFirst(m, s, n) && s.worker == Bind(o.ob, o.ib, o.vf) && o.turn == s.sent
    ensures var t := WorkerNext(m, s, true);
            && WorkerNext(m, s, false) == t
            && PastFirst(m, t, n) && HandedBy(s, t) == []
  {
    hide Put, Least;
  }

  lemma PastDone(m: Mode, s: Vpp, gotBuffer: bool, n: nat)
    requires ByOutput(m) && PastFirst(m, s, n) && (s.worker.Give? || s.worker.PassInput?)
    ensures var t := WorkerNext(m, s, gotBuffer);
            PastFirst(m, t, n + 1) && |HandedBy(s, t)| == 1
  {
  }

  lemma PastWait(m: Mode, s: Vpp, gotBuffer: bool)
    requires !s.worker.Bind? && !s.worker.Give? && !s.worker.PassInput?
    ensures var t := WorkerNext(m, s, gotBuffer);
            && t.handed == s.handed && t.lost == s.lost && t.sent == s.sent
            && !t.worker.PassInput? && !t.worker.Give? && HandedBy(s, t) == []
  {
    hide Put, BindNext, HandedNext, InputDone;
  }

  lemma PastOthers(m: Mode, s: Vpp, a: Action)
    requires ByOutput(m) && !a.WorkerStep?
    ensures var t := Next(m, s, a);
            && t.handed == s.handed && t.lost == s.lost && t.sent == s.sent && t.worker == s.worker
            && HandedBy(s, t) == []
  {
    hide Put, RemoveAt, Holding;
  }

  lemma {:induction false} RunPast(m: Mode, s: Vpp, run: seq<Action>, n: nat)
    requires ByOutput(m) && PastFirst(m, s, n)
    ensures PastFirst(m, Run(m, s, run), n + |Handed(m, s, run)|)
    decreases |run|
  {
    hide Next, HandedBy, PastFirst;
    if run != [] {
      var t := Next(m, s, run[0]);
      PastStep(m, s, run[0], n);
      RunPast(m, t, run[1..], n + |HandedBy(s, t)|);
    }
  }

  /** Progressive content with local buffers: of the frames the worker has done with, exactly
      the first ones up to the bypass count went past DI, each losing its input, and all
      later ones were handed to DI. */
  lemma FirstGoPast(m: Mode, run: seq<Action>)
    requires ByOutput(m)
    ensures var s, n := Run(m, Init(m), run), |Handed(m, Init(m), run)|;
            |s.lost| == Least(n, m.bypass) && s.sent == n - Least(n, m.bypass)
  {
    RunPast(m, Init(m), run, 0);
    hide Run, Handed;
  }

  // ----- the converter

  function ThreadHolds(t: Thread): seq<nat> {
    match t
    case PopFrame(_, ib) => [ib]
    case FinishOutput(_, ib, _) => [ib]
    case _ => []
  }

  /** The inputs under way, the oldest first: converted, in the thread's hands, waiting. */
  function UnderWay(g: Ge2d): seq<nat> {
    Col(g.outDone, IB) + ThreadHolds(g.thread) + g.inDone
  }

  function StoredBy(g: Ge2d, e: Event): seq<nat> {
    if e.StoreFrame? then At(g.pushing, e.i) else []
  }

  function FetchedBy(g: Ge2d, h: Ge2d): seq<nat> {
    Col(New(g.recycling, h.recycling), IB)
  }

  /** The inputs stored in a run, and those of the outputs fetched. */
  function Stored(n: nat, g: Ge2d, es: seq<Event>): seq<nat>
    decreases |es|
  {
    if es == [] then [] else StoredBy(g, es[0]) + Stored(n, EventNext(n, g, es[0]), es[1..])
  }

  function Fetched(n: nat, g: Ge2d, es: seq<Event>): seq<nat>
    decreases |es|
  {
    if es == [] then []
    else FetchedBy(g, EventNext(n, g, es[0])) + Fetched(n, EventNext(n, g, es[0]), es[1..])
  }

  lemma ThreadOrder(n: nat, g: Ge2d, gotBuffer: bool)
    requires g.thread.FinishOutput? ==> |g.outDone| < VPP_FRAME_SIZE
    requires g.thread.PopFrame? ==> g.frame != []
    ensures UnderWay(ThreadNext(n, g, gotBuffer)) == UnderWay(g)
  {
    match g.thread {
      case PopInput(_) =>
        if g.inDone != [] {
          assert Col(g.outDone, IB) + [g.inDone[0]] + g.inDone[1..] == Col(g.outDone, IB) + [] + g.inDone;
        }
      case FinishOutput(ob, ib, vf) =>
        assert Col(g.outDone + [Out(ob, vf, ib, 0)], IB) == Col(g.outDone, IB) + [ib];
      case _ =>
    }
    hide Col, Put;
  }

  lemma FetchOrder(n: nat, g: Ge2d, accepted: bool)
    ensures var h := EventNext(n, g, FetchOutput(accepted));
            Moves(UnderWay(g), [], FetchedBy(g, h), UnderWay(h))
  {
    Rests(UnderWay(g));
    NewNone(g.recycling, 0);
    if g.outDone != [] {
      NewOne(g.recycling, g.outDone[0]);
      assert Col(g.outDone, IB) == [g.outDone[0].ib] + Col(g.outDone[1..], IB);
      assert Col([g.outDone[0]], IB) == [g.outDone[0].ib];
    }
    hide New;
  }

  lemma StoreOrder(n: nat, g: Ge2d, i: nat)
    requires |g.inDone| < VPP_FRAME_SIZE || g.pushing == []
    ensures var h := EventNext(n, g, StoreFrame(i));
            Moves(UnderWay(g), StoredBy(g, StoreFrame(i)), FetchedBy(g, h), UnderWay(h))
  {
    NewNone(g.recycling, 0);
    hide New, RemoveAt;
  }

  lemma EventOrder(n: nat, g: Ge2d, e: Event)
    requires Inv(CallersBuffers(n), AsVpp(g))
    ensures var h := EventNext(n, g, e);
            Moves(UnderWay(g), StoredBy(g, e), FetchedBy(g, h), UnderWay(h))
  {
    EnoughRoom(n, g);
    Rests(UnderWay(g));
    NewNone(g.recycling, if e.ReturnFrame? then e.i else 0);
    match e {
      case ThreadStep(gotBuffer) => ThreadOrder(n, g, gotBuffer); SameRecycling(n, g, gotBuffer);
      case FetchOutput(accepted) => FetchOrder(n, g, accepted);
      case StoreFrame(i) => StoreOrder(n, g, i);
      case _ =>
    }
    hide Moves, ThreadNext, RemoveAt, Put, New, Inv, AsVpp;
  }

  lemma SameRecycling(n: nat, g: Ge2d, gotBuffer: bool)
    ensures ThreadNext(n, g, gotBuffer).recycling == g.recycling
  {
  }

  lemma EnoughRoom(n: nat, g: Ge2d)
    requires Inv(CallersBuffers(n), AsVpp(g))
    ensures |g.outDone| < VPP_FRAME_SIZE || !g.thread.FinishOutput?
    ensures |g.inDone| < VPP_FRAME_SIZE || g.pushing == []
    ensures g.thread.PopFrame? ==> g.frame != []
  {
    hide Inv;
    InvParts(CallersBuffers(n), AsVpp(g));
    FrameThere(CallersBuffers(n), AsVpp(g));
  }

  lemma EventInv(n: nat, g: Ge2d, e: Event)
    requires Inv(CallersBuffers(n), AsVpp(g))
    ensures Inv(CallersBuffers(n), AsVpp(EventNext(n, g, e)))
  {
    hide *;
    StepSimulated(n, g, e);
    RunInv(CallersBuffers(n), AsVpp(g), Steps(g, e));
  }

  lemma {:induction false} RunConverted(n: nat, g: Ge2d, es: seq<Event>)
    requires Inv(CallersBuffers(n), AsVpp(g))
    ensures Moves(UnderWay(g), Stored(n, g, es), Fetched(n, g, es), UnderWay(EventRun(n, g, es)))
    decreases |es|
  {
    hide Inv, AsVpp, EventNext, Moves, UnderWay, StoredBy, FetchedBy;
    if es == [] {
      Rests(UnderWay(g));
    } else {
      var h := EventNext(n, g, es[0]);
      EventInv(n, g, es[0]);
      EventOrder(n, g, es[0]);
      RunConverted(n, h, es[1..]);
      Joined(UnderWay(g), StoredBy(g, es[0]), FetchedBy(g, h), UnderWay(h),
             Stored(n, h, es[1..]), Fetched(n, h, es[1..]), UnderWay(EventRun(n, h, es[1..])));
    }
  }

  /** The converter hands frames on in the order in which they came: the inputs of the
      outputs fetched, then those under way, are the inputs stored. */
  lemma ConvertedInOrder(n: nat, es: seq<Event>)
    requires n <= VPP_FRAME_SIZE
    ensures Fetched(n, Begin(n), es) + UnderWay(EventRun(n, Begin(n), es)) == Stored(n, Begin(n), es)
  {
    var m := CallersBuffers(n);
    assert AsVpp(Begin(n)) == Init(m);
    InitInv(m);
    hide Inv, EventRun, Fetched, Stored;
    RunConverted(n, Begin(n), es);
    assert UnderWay(Begin(n)) == [];
    Nothing(Stored(n, Begin(n), es));
  }
}
