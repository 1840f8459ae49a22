/** Buffers with their task chains: who pays when a stage takes a buffer over is no longer
    the caller's word but what the buffer's chain reports. */
module ChainedBuffers {
  import opened OwnerWord
  import opened BufCore
  import TC = TaskChain

  /** The chain of one buffer: what the last clean left, the stages attached since, and the
      chain that makes. */
  datatype Line = Line(base: TC.Chain, types: seq<TC.TaskType>, chain: TC.Chain)

  datatype Chained = Chained(core: Core, lines: map<nat, Line>)

  predicate LineOk(l: Line) {
    && TC.Sized(l.base)
    && l.base.items == []
    && TC.Distinct(l.types)
    && l.chain == TC.AttachAll(l.base, l.types)
  }

  predicate Ok(s: Chained) {
    && s.lines.Keys == s.core.entries.Keys
    && forall k :: k in s.lines ==> LineOk(s.lines[k])
  }

  /** The stages attached for a buffer that the decoder or the post-processor gets. */
  predicate Pipeline(user: Owner, types: seq<TC.TaskType>) {
    match user
    case DEC =>
      || types == [TC.TASK_TYPE_V4L_SINK, TC.TASK_TYPE_DEC]
      || types == [TC.TASK_TYPE_V4L_SINK, TC.TASK_TYPE_VPP, TC.TASK_TYPE_DEC]
      || types == [TC.TASK_TYPE_VPP, TC.TASK_TYPE_DEC]
      || types == [TC.TASK_TYPE_GE2D, TC.TASK_TYPE_DEC]
    case VPP => types == [TC.TASK_TYPE_V4L_SINK, TC.TASK_TYPE_VPP]
    case _ => false
  }

  function StageOf(user: Owner): TC.TaskType {
    match user
    case DEC => TC.TASK_TYPE_DEC
    case VPP => TC.TASK_TYPE_VPP
    case GE2D => TC.TASK_TYPE_GE2D
    case _ => TC.TASK_TYPE_V4L_SINK
  }

  /** Preparing a buffer for its getter: the chain is cleaned and attached anew. */
  function Prepared(l: Line, types: seq<TC.TaskType>): (p: Line)
    requires LineOk(l)
  {
    CleanOfLine(l);
    Line(TC.Clean(l.chain), types, TC.AttachAll(TC.Clean(l.chain), types))
  }

  /** A chain at rest comes out of a clean empty, whatever was attached. */
  lemma CleanOfLine(l: Line)
    requires LineOk(l)
    ensures TC.Sized(TC.Clean(l.chain)) && TC.Clean(l.chain).items == []
  {
    TC.AttachWhole(l.base, l.types);
    var n := |l.types|;
    forall i | 0 <= i < |l.chain.items|
      ensures l.chain.items[i].ref == 1
    {
      assert l.chain.items[n - 1 - (n - 1 - i)] == TC.Item(l.types[n - 1 - i], 1);
    }
    TC.CleanEmpties(l.chain);
    hide TC.AttachAll, TC.Clean;
  }

  /** A stage gets a free buffer; a stage passes a finished buffer on to the one attached
      before it; or anything else the core offers. */
  datatype Event =
    | Acquire(user: Owner, types: seq<TC.TaskType>)
    | Submit(key: nat, stage: nat)
    | Plain(op: BufCore.Op)

  /** A submission names a stage of an attached buffer's chain that has a next one. */
  predicate Formed(s: Chained, e: Event) {
    e.Submit? ==>
      && e.key in s.lines
      && 0 < e.stage < |s.lines[e.key].types|
      && StageOwner(s.lines[e.key].types[e.stage - 1]).From?
  }

  /** The operation of the core an event comes to, the predecessor read off the chain. */
  function AsOp(s: Chained, e: Event): BufCore.Op
    requires Ok(s) && Formed(s, e)
  {
    match e
    case Acquire(user, types) =>
      if CanGet(s.core) then
        OpGet(user, StageOwner(TC.PreUser(Prepared(s.lines[s.core.freeQ[0]], types).chain, StageOf(user))))
      else OpGet(user, NoSource)
    case Submit(k, i) =>
      var next := s.lines[k].types[i - 1];
      OpMove(k, StageOwner(next).owner, StageOwner(TC.PreUser(s.lines[k].chain, next)))
    case Plain(op) => op
  }

  /** What callers owe now: a submitting stage holds the finished buffer; nothing is asked
      about predecessors. */
  predicate EventLegal(s: Chained, toks: map<nat, Tokens>, e: Event)
    requires Ok(s) && s.core.entries.Keys == toks.Keys
  {
    match e
    case Acquire(user, types) => Pipeline(user, types)
    case Submit(k, i) =>
      && k in s.core.entries
      && s.core.entries[k].state == DONE
      && 0 < i < |s.lines[k].types|
      && Passes(s.lines[k].types[i], s.lines[k].types[i - 1])
      && Of(toks[k], StageOwner(s.lines[k].types[i]).owner) > 0
      && Of(toks[k], StageOwner(s.lines[k].types[i - 1]).owner) < 15
    case Plain(op) => !op.OpGet? && !op.OpMove? && Legal(s.core, toks, op)
  }

  /** Which stage passes buffers on to which. */
  predicate Passes(from: TC.TaskType, to: TC.TaskType) {
    || (to == TC.TASK_TYPE_V4L_SINK && from in {TC.TASK_TYPE_DEC, TC.TASK_TYPE_GE2D, TC.TASK_TYPE_VPP})
    || (to == TC.TASK_TYPE_VPP && from in {TC.TASK_TYPE_DEC, TC.TASK_TYPE_GE2D})
    || (to == TC.TASK_TYPE_GE2D && from == TC.TASK_TYPE_DEC)
  }

  function LinesAfter(s: Chained, e: Event): map<nat, Line>
    requires Ok(s)
  {
    match e
    case Acquire(user, types) =>
      if CanGet(s.core) then s.lines[s.core.freeQ[0] := Prepared(s.lines[s.core.freeQ[0]], types)] else s.lines
    case Submit(_, _) => s.lines
    case Plain(op) =>
      match op
      case OpAttach(k, memory) =>
        if k !in s.core.entries && memory then s.lines[k := Line(TC.NewChain(), [], TC.NewChain())] else s.lines
      case OpDetach(k) => s.lines - {k}
      case _ => s.lines
  }

  function EventNext(s: Chained, e: Event): Chained
    requires Ok(s) && Formed(s, e)
  {
    Chained(Apply(s.core, AsOp(s, e)), LinesAfter(s, e))
  }

  // ----- one event

  /** The keys of the table after an operation. */
  function KeysAfter(b: Core, op: BufCore.Op): set<nat> {
    match op
    case OpAttach(k, memory) => if memory then b.entries.Keys + {k} else b.entries.Keys
    case OpDetach(k) => b.entries.Keys - {k}
    case _ => b.entries.Keys
  }

  lemma KeysOfApply(b: Core, op: BufCore.Op)
    ensures Apply(b, op).entries.Keys == KeysAfter(b, op)
  {
    match op {
      case OpPutRef(k) => if k in b.entries { DropKeys(b, k, DEC); }
      case OpFill(k, user, _) => if k in b.entries { DropKeys(b, k, user); }
      case OpVppCb(k) => if k in b.entries { DropKeys(b, k, DI); }
      case _ =>
    }
    hide Drop, DirectionGet, HolderGet;
  }

  lemma LinesKeys(s: Chained, e: Event)
    requires Ok(s) && Formed(s, e)
    ensures LinesAfter(s, e).Keys == KeysAfter(s.core, AsOp(s, e))
  {
    hide Prepared, LineOk, TC.PreUser;
  }

  lemma LinesStayOk(s: Chained, e: Event)
    requires Ok(s) && (e.Acquire? ==> Pipeline(e.user, e.types))
    ensures forall k :: k in LinesAfter(s, e) ==> LineOk(LinesAfter(s, e)[k])
  {
    if e.Acquire? && CanGet(s.core) {
      PreparedOk(s.lines[s.core.freeQ[0]], e.user, e.types);
    }
    hide Prepared, TC.AttachAll;
    assert LineOk(Line(TC.NewChain(), [], TC.NewChain())) by {
      NothingAttached();
    }
    hide LineOk;
  }

  lemma NothingAttached()
    ensures LineOk(Line(TC.NewChain(), [], TC.NewChain()))
  {
  }

  lemma PreparedOk(l: Line, user: Owner, types: seq<TC.TaskType>)
    requires LineOk(l) && Pipeline(user, types)
    ensures LineOk(Prepared(l, types))
  {
    CleanOfLine(l);
    hide TC.AttachAll, TC.Clean;
  }

  lemma EventStaysOk(s: Chained, e: Event)
    requires Ok(s) && Formed(s, e) && (e.Acquire? ==> Pipeline(e.user, e.types))
    ensures Ok(EventNext(s, e))
  {
    LinesKeys(s, e);
    KeysOfApply(s.core, AsOp(s, e));
    LinesStayOk(s, e);
    hide LinesAfter, Apply, AsOp, LineOk;
  }

  /** A submission is a legal take-over: the stage the chain reports is the one that
      submits. */
  lemma SubmitLegal(s: Chained, toks: map<nat, Tokens>, e: Event)
    requires Ok(s) && s.core.entries.Keys == toks.Keys && e.Submit? && EventLegal(s, toks, e)
    ensures Formed(s, e)
    ensures Legal(s.core, toks, AsOp(s, e))
  {
    hide LineOk, TC.PreUser, Of;
    PreOfNext(s.lines[e.key], e.stage);
  }

  lemma PreOfNext(l: Line, i: nat)
    requires LineOk(l) && 0 < i < |l.types|
    ensures TC.PreUser(l.chain, l.types[i - 1]) == l.types[i]
  {
    hide TC.AttachAll, TC.PreUser, TC.NextUser;
    TC.NeighboursLinked(l.base, l.types, i);
  }

  lemma AcquireLegal(s: Chained, toks: map<nat, Tokens>, e: Event)
    requires Ok(s) && s.core.entries.Keys == toks.Keys && e.Acquire? && EventLegal(s, toks, e)
    ensures Legal(s.core, toks, AsOp(s, e))
  {
    if CanGet(s.core) && e.user == VPP {
      var l := s.lines[s.core.freeQ[0]];
      CleanOfLine(l);
      OwnLineIsFree(TC.Clean(l.chain));
    }
    hide TC.AttachAll, TC.PreUser, TC.Clean, LineOk;
  }

  lemma EventAsOp(s: Chained, toks: map<nat, Tokens>, e: Event)
    requires Ok(s) && s.core.entries.Keys == toks.Keys && EventLegal(s, toks, e)
    ensures Formed(s, e)
    ensures Legal(s.core, toks, AsOp(s, e))
  {
    match e {
      case Acquire(_, _) => AcquireLegal(s, toks, e);
      case Submit(_, _) => SubmitLegal(s, toks, e);
      case Plain(_) =>
    }
    hide *;
  }

  lemma AccountKeys(b: Core, toks: map<nat, Tokens>, op: BufCore.Op)
    requires b.entries.Keys == toks.Keys && Legal(b, toks, op)
    ensures Account(b, toks, op).Keys == KeysAfter(b, op)
  {
    hide TokensGet, Returned, Forgotten, Of, Sum, Loser;
    if op.OpReset? {
      ForgottenKeys(toks);
    }
  }

  lemma ForgottenKeys(toks: map<nat, Tokens>)
    ensures Forgotten(toks).Keys == toks.Keys
  {
  }

  lemma EventKeys(s: Chained, toks: map<nat, Tokens>, e: Event)
    requires Ok(s) && s.core.entries.Keys == toks.Keys && EventLegal(s, toks, e)
    ensures Formed(s, e)
    ensures Legal(s.core, toks, AsOp(s, e))
    ensures Ok(EventNext(s, e))
    ensures EventNext(s, e).core.entries.Keys == Account(s.core, toks, AsOp(s, e)).Keys
  {
    EventAsOp(s, toks, e);
    EventStaysOk(s, e);
    AccountKeys(s.core, toks, AsOp(s, e));
    KeysOfApply(s.core, AsOp(s, e));
    hide Legal, AsOp, Ok, EventLegal, Account, Apply, LinesAfter, KeysAfter;
  }

  // ----- runs

  ghost predicate EventsLegal(s: Chained, toks: map<nat, Tokens>, es: seq<Event>)
    decreases |es|
  {
    && Ok(s)
    && s.core.entries.Keys == toks.Keys
    && (es == [] || (&& EventLegal(s, toks, es[0])
                     && (EventKeys(s, toks, es[0]);
                         EventsLegal(EventNext(s, es[0]), Account(s.core, toks, AsOp(s, es[0])), es[1..]))))
  }

  /** The operations of the core a run comes to. */
  ghost function Ops(s: Chained, toks: map<nat, Tokens>, es: seq<Event>): seq<BufCore.Op>
    requires EventsLegal(s, toks, es)
    decreases |es|
  {
    if es == [] then []
    else
      EventKeys(s, toks, es[0]);
      [AsOp(s, es[0])] + Ops(EventNext(s, es[0]), Account(s.core, toks, AsOp(s, es[0])), es[1..])
  }

  ghost function EventRun(s: Chained, toks: map<nat, Tokens>, es: seq<Event>): Chained
    requires EventsLegal(s, toks, es)
    decreases |es|
  {
    if es == [] then s
    else
      EventKeys(s, toks, es[0]);
      EventRun(EventNext(s, es[0]), Account(s.core, toks, AsOp(s, es[0])), es[1..])
  }

  /** A run of events is a legal run of the core: the chains vouch for the predecessors. */
  lemma {:induction false} RunIsLegal(s: Chained, toks: map<nat, Tokens>, es: seq<Event>)
    requires EventsLegal(s, toks, es)
    ensures LegalRun(s.core, toks, Ops(s, toks, es))
    ensures Run(s.core, Ops(s, toks, es)) == EventRun(s, toks, es).core
    decreases |es|
  {
    hide Ok, EventLegal, Legal, Account, Apply, AsOp, LinesAfter;
    if es != [] {
      EventKeys(s, toks, es[0]);
      var op, rest := AsOp(s, es[0]), Account(s.core, toks, AsOp(s, es[0]));
      RunIsLegal(EventNext(s, es[0]), rest, es[1..]);
      var ops := Ops(EventNext(s, es[0]), rest, es[1..]);
      assert ([op] + ops)[1..] == ops;
    }
  }

  /** Over every run in which stages get buffers, pass them on along their chains, and
      return what they hold: no buffer is lost or queued twice, and each count is the
      number of references handed out. */
  lemma ChainsKeepCounts(es: seq<Event>)
    requires EventsLegal(Chained(NewCore(), map[]), map[], es)
    ensures var ops := Ops(Chained(NewCore(), map[]), map[], es);
            var b := EventRun(Chained(NewCore(), map[]), map[], es).core;
            && LegalRun(NewCore(), map[], ops)
            && Inv(b, RunAccount(NewCore(), map[], ops))
            && b.freeNum == |b.freeQ| == |Elements(b.freeQ)|
            && (forall k :: k in b.entries ==> (k in b.freeQ <==> b.entries[k].ref == 0))
  {
    NewCoreInv();
    hide *;
    var s := Chained(NewCore(), map[]);
    RunIsLegal(s, map[], es);
    NeverLostNorTwice(Ops(s, map[], es));
    RunInv(NewCore(), map[], Ops(s, map[], es));
  }
}
