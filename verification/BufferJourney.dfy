/** The way of one buffer: got by a stage, finished, passed along its chain, returned by the
    last stage, and free again. */
module BufferJourney {
  import opened OwnerWord
  import opened BufCore
  import opened ChainedBuffers
  import TC = TaskChain

  /** A state that runs reach, with its account. */
  ghost predicate Good(s: Chained, toks: map<nat, Tokens>) {
    Ok(s) && Inv(s.core, toks)
  }

  /** The owner's one reference is the only one. */
  function Only(o: Owner): Tokens {
    match o
    case DEC => Tokens(1, 0, 0, 0, 0)
    case GE2D => Tokens(0, 1, 0, 0, 0)
    case VPP => Tokens(0, 0, 1, 0, 0)
    case VSINK => Tokens(0, 0, 0, 1, 0)
    case DI => Tokens(0, 0, 0, 0, 1)
  }

  /** The buffer is with the i-th stage of its chain, finished, and nobody else has it. */
  ghost predicate With(s: Chained, toks: map<nat, Tokens>, k: nat, types: seq<TC.TaskType>, i: nat) {
    && Good(s, toks)
    && k in s.core.entries && k !in s.core.freeQ
    && s.core.entries[k].state == DONE
    && i < |types| && s.lines[k].types == types
    && StageOwner(types[i]).From? && toks[k] == Only(StageOwner(types[i]).owner)
  }

  /** Each stage up to the i-th passes on to the one before it in the list. */
  predicate Passing(types: seq<TC.TaskType>, i: nat) {
    i < |types| && forall j :: 0 < j <= i ==> Passes(types[j], types[j - 1])
  }

  /** Submitted from stage i on to the end of the chain, and returned by the last stage. */
  function Onward(k: nat, types: seq<TC.TaskType>, i: nat): seq<Event>
    requires i < |types| && StageOwner(types[0]).From?
    decreases i
  {
    if i == 0 then [Plain(OpFill(k, StageOwner(types[0]).owner, false))]
    else [Submit(k, i)] + Onward(k, types, i - 1)
  }

  /** An event and what follows it. */
  lemma EventFirst(s: Chained, toks: map<nat, Tokens>, e: Event, rest: seq<Event>)
    requires Good(s, toks) && s.core.entries.Keys == toks.Keys && EventLegal(s, toks, e)
    ensures Formed(s, e) && Legal(s.core, toks, AsOp(s, e))
    ensures var t, u := EventNext(s, e), Account(s.core, toks, AsOp(s, e));
            && Good(t, u)
            && (EventsLegal(t, u, rest) ==>
                  && EventsLegal(s, toks, [e] + rest)
                  && EventRun(s, toks, [e] + rest) == EventRun(t, u, rest))
  {
    hide Inv, Ok, EventLegal, Legal, Account, Apply, AsOp, LinesAfter;
    EventKeys(s, toks, e);
    StepInv(s.core, toks, AsOp(s, e));
    assert ([e] + rest)[1..] == rest;
  }

  // ----- what single events do, on the core

  lemma PlainCore(s: Chained, op: BufCore.Op)
    requires Ok(s)
    ensures Formed(s, Plain(op)) && AsOp(s, Plain(op)) == op
    ensures EventNext(s, Plain(op)).core == Apply(s.core, op)
  {
    hide Ok, Apply, LinesAfter;
  }

  lemma OnlyOne(o: Owner)
    ensures Of(Only(o), o) == 1 && Sum(Only(o)) == 1
    ensures forall p :: p != o ==> Of(Only(o), p) == 0
  {
  }

  lemma OneReference(b: Core, toks: map<nat, Tokens>, k: nat, o: Owner)
    requires Inv(b, toks) && k in b.entries && toks[k] == Only(o)
    ensures b.entries[k].ref == 1 && k !in b.freeQ && Active(b)
  {
    OnlyOne(o);
    Queued(b, toks, k);
    ActiveWhileAttached(b, toks, k);
    hide Inv, Shows, InRange, Only, Sum;
  }

  /** The last reference given back: the buffer is free, at the end of the queue. */
  lemma LastReturn(b: Core, toks: map<nat, Tokens>, k: nat, o: Owner)
    requires Inv(b, toks) && k in b.entries && toks[k] == Only(o) && b.entries[k].state == DONE
    requires b.entries.Keys == toks.Keys
    ensures Legal(b, toks, OpFill(k, o, false))
    ensures var c := Apply(b, OpFill(k, o, false));
            && c.freeQ == b.freeQ + [k]
            && k in c.entries && c.entries[k].state == FREE && c.entries[k].ref == 0
  {
    hide *;
    OneReference(b, toks, k, o);
    OnlyOne(o);
    FillLegal(b, toks, k, o);
    FillDrops(b, k, o);
    DropLast(b, k, o);
    FreedIs(b.entries[k]);
  }

  lemma FillLegal(b: Core, toks: map<nat, Tokens>, k: nat, o: Owner)
    requires k in b.entries && b.entries.Keys == toks.Keys && Of(toks[k], o) > 0
    ensures Legal(b, toks, OpFill(k, o, false))
  {
    hide Of;
  }

  lemma FillDrops(b: Core, k: nat, o: Owner)
    requires k in b.entries && Active(b) && b.entries[k].state == DONE
    ensures Apply(b, OpFill(k, o, false)) == Drop(b, k, o)
  {
    hide Drop;
  }

  lemma FreedIs(e: Entry)
    ensures Freed(e.(ref := 0)).state == FREE && Freed(e.(ref := 0)).ref == 0
  {
  }

  /** A buffer just got may be finished, and then is. */
  lemma Finishes(b: Core, toks: map<nat, Tokens>, k: nat)
    requires k in b.entries && Active(b) && b.entries[k].state == USE && b.entries.Keys == toks.Keys
    ensures Legal(b, toks, OpDone(k, false))
    ensures Account(b, toks, OpDone(k, false)) == toks
    ensures var c := Apply(b, OpDone(k, false));
            c.freeQ == b.freeQ && k in c.entries && c.entries[k].state == DONE
  {
  }

  lemma OnlyMoves(from: Owner, to: Owner)
    requires Loser(to, From(from)) == From(from) && from != to
    ensures TokensGet(Only(from), to, From(from)) == Only(to)
  {
  }

  /** A take-over moves the one reference. */
  lemma TakesOver(b: Core, toks: map<nat, Tokens>, k: nat, from: Owner, to: Owner)
    requires k in b.entries && b.entries.Keys == toks.Keys && toks[k] == Only(from) && b.entries[k].state == DONE
    requires Loser(to, From(from)) == From(from) && from != to
    ensures Legal(b, toks, OpMove(k, to, From(from)))
    ensures Account(b, toks, OpMove(k, to, From(from)))[k] == Only(to)
    ensures var c := Apply(b, OpMove(k, to, From(from)));
            c.freeQ == b.freeQ && k in c.entries && c.entries[k].state == DONE
  {
    hide *;
    OnlyMoves(from, to);
    MoveLegal(b, toks, k, from, to);
    MoveAccount(b, toks, k, to, From(from));
    MoveEffect(b, k, to, From(from));
  }

  lemma MoveLegal(b: Core, toks: map<nat, Tokens>, k: nat, from: Owner, to: Owner)
    requires k in b.entries && b.entries.Keys == toks.Keys && toks[k] == Only(from) && b.entries[k].state == DONE
    requires Loser(to, From(from)) == From(from) && from != to
    ensures Legal(b, toks, OpMove(k, to, From(from)))
  {
    OnlyOne(from);
    hide Only, Of, Loser;
  }

  lemma MoveAccount(b: Core, toks: map<nat, Tokens>, k: nat, to: Owner, pre: Source)
    requires b.entries.Keys == toks.Keys && Legal(b, toks, OpMove(k, to, pre)) && k in toks
    ensures Account(b, toks, OpMove(k, to, pre))[k] == TokensGet(toks[k], to, pre)
  {
    hide Legal, TokensGet;
  }

  lemma MoveEffect(b: Core, k: nat, to: Owner, pre: Source)
    requires k in b.entries && b.entries[k].state == DONE
    ensures var c := Apply(b, OpMove(k, to, pre));
            c.freeQ == b.freeQ && k in c.entries && c.entries[k].state == DONE
  {
    hide HolderGet, DirectionGet;
  }

  // ----- along the chain

  lemma LegalPlain(s: Chained, toks: map<nat, Tokens>, op: BufCore.Op)
    requires Ok(s) && s.core.entries.Keys == toks.Keys && Legal(s.core, toks, op) && !op.OpGet? && !op.OpMove?
    ensures EventLegal(s, toks, Plain(op))
  {
    hide Ok, Legal;
  }

  /** One submission: the reference moves to the next stage. */
  lemma OneSubmit(s: Chained, toks: map<nat, Tokens>, k: nat, types: seq<TC.TaskType>, i: nat)
    requires With(s, toks, k, types, i) && i > 0 && Passes(types[i], types[i - 1])
    requires s.core.entries.Keys == toks.Keys
    ensures var e := Submit(k, i);
            && EventLegal(s, toks, e) && Formed(s, e) && Legal(s.core, toks, AsOp(s, e))
            && With(EventNext(s, e), Account(s.core, toks, AsOp(s, e)), k, types, i - 1)
            && EventNext(s, e).core.freeQ == s.core.freeQ
  {
    hide *;
    var e := Submit(k, i);
    WithParts(s, toks, k, types, i);
    PassesOwners(types[i], types[i - 1]);
    var from, to := StageOwner(types[i]).owner, StageOwner(types[i - 1]).owner;
    GoodCore(s, toks);
    SubmitFits(s, toks, k, types, i);
    EventFirst(s, toks, e, []);
    SubmitAs(s, k, types, i);
    TakesOver(s.core, toks, k, from, to);
    SubmitKeeps(s, k, i);
    var t, u := EventNext(s, e), Account(s.core, toks, AsOp(s, e));
    GoodCore(t, u);
    OneReference(t.core, u, k, to);
    WithFrom(t, u, k, types, i - 1);
  }

  lemma WithFrom(s: Chained, toks: map<nat, Tokens>, k: nat, types: seq<TC.TaskType>, i: nat)
    requires Good(s, toks) && k in s.core.entries && k in toks && k !in s.core.freeQ && s.core.entries[k].state == DONE
    requires i < |types| && k in s.lines && s.lines[k].types == types
    requires StageOwner(types[i]).From? && toks[k] == Only(StageOwner(types[i]).owner)
    ensures With(s, toks, k, types, i)
  {
    hide Good, StageOwner, Only;
  }

  lemma GoodCore(s: Chained, toks: map<nat, Tokens>)
    requires Good(s, toks)
    ensures Ok(s) && Inv(s.core, toks) && s.core.entries.Keys == toks.Keys
  {
  }

  /** The chains stay as they are. */
  lemma SubmitKeeps(s: Chained, k: nat, i: nat)
    requires Ok(s) && Formed(s, Submit(k, i))
    ensures EventNext(s, Submit(k, i)).lines == s.lines
    ensures EventNext(s, Submit(k, i)).core == Apply(s.core, AsOp(s, Submit(k, i)))
  {
    hide Ok, Apply, AsOp;
  }

  lemma SubmitFits(s: Chained, toks: map<nat, Tokens>, k: nat, types: seq<TC.TaskType>, i: nat)
    requires With(s, toks, k, types, i) && i > 0 && Passes(types[i], types[i - 1])
    requires s.core.entries.Keys == toks.Keys
    ensures EventLegal(s, toks, Submit(k, i))
  {
    hide *;
    WithParts(s, toks, k, types, i);
    PassesOwners(types[i], types[i - 1]);
    OnlyOne(StageOwner(types[i]).owner);
    SubmitAllowed(s, toks, k, types, i);
  }

  lemma SubmitAllowed(s: Chained, toks: map<nat, Tokens>, k: nat, types: seq<TC.TaskType>, i: nat)
    requires Ok(s) && s.core.entries.Keys == toks.Keys && k in s.core.entries && s.lines[k].types == types
    requires s.core.entries[k].state == DONE && 0 < i < |types| && Passes(types[i], types[i - 1])
    requires StageOwner(types[i]).From? && StageOwner(types[i - 1]).From?
    requires Of(toks[k], StageOwner(types[i]).owner) > 0 && Of(toks[k], StageOwner(types[i - 1]).owner) < 15
    ensures EventLegal(s, toks, Submit(k, i))
  {
    hide Ok, Passes, StageOwner, Of;
  }

  lemma PassesOwners(from: TC.TaskType, to: TC.TaskType)
    requires Passes(from, to)
    ensures StageOwner(from).From? && StageOwner(to).From?
    ensures StageOwner(from).owner != StageOwner(to).owner
    ensures Loser(StageOwner(to).owner, StageOwner(from)) == StageOwner(from)
  {
  }

  /** On the core it is a take-over from the submitting stage. */
  lemma SubmitAs(s: Chained, k: nat, types: seq<TC.TaskType>, i: nat)
    requires Ok(s) && k in s.lines && s.lines[k].types == types && 0 < i < |types|
    requires Passes(types[i], types[i - 1])
    ensures Formed(s, Submit(k, i))
    ensures var from, to := StageOwner(types[i]), StageOwner(types[i - 1]);
            && from.From? && to.From?
            && AsOp(s, Submit(k, i)) == OpMove(k, to.owner, from)
            && Loser(to.owner, from) == from && from.owner != to.owner
  {
    PassesOwners(types[i], types[i - 1]);
    hide LineOk, TC.PreUser, StageOwner, Passes, Loser;
    PreOfNext(s.lines[k], i);
  }

  lemma WithParts(s: Chained, toks: map<nat, Tokens>, k: nat, types: seq<TC.TaskType>, i: nat)
    requires With(s, toks, k, types, i)
    ensures Good(s, toks) && k in s.core.entries && k in toks && i < |types| && StageOwner(types[i]).From?
    ensures s.core.entries[k].state == DONE && toks[k] == Only(StageOwner(types[i]).owner)
    ensures Ok(s) && k in s.lines && s.lines[k].types == types
  {
    GoodCore(s, toks);
    hide LineOk, Inv, Only, StageOwner, Good;
  }

  lemma {:induction false} Arrives(s: Chained, toks: map<nat, Tokens>, k: nat, types: seq<TC.TaskType>, i: nat)
    requires With(s, toks, k, types, i) && Passing(types, i) && StageOwner(types[0]).From?
    ensures EventsLegal(s, toks, Onward(k, types, i))
    ensures var t := EventRun(s, toks, Onward(k, types, i));
            && t.core.freeQ == s.core.freeQ + [k]
            && k in t.core.entries && t.core.entries[k].state == FREE && t.core.entries[k].ref == 0
    decreases i
  {
    hide *;
    WithParts(s, toks, k, types, i);
    GoodCore(s, toks);
    OnwardParts(k, types, i);
    if i == 0 {
      var op := OpFill(k, StageOwner(types[0]).owner, false);
      LastReturn(s.core, toks, k, StageOwner(types[0]).owner);
      NotGet(k, StageOwner(types[0]).owner);
      LegalPlain(s, toks, op);
      PlainCore(s, op);
      EventFirst(s, toks, Plain(op), []);
      NoEvents(EventNext(s, Plain(op)), Account(s.core, toks, AsOp(s, Plain(op))));
      assert [Plain(op)] + [] == [Plain(op)];
    } else {
      var e := Submit(k, i);
      PassingParts(types, i);
      OneSubmit(s, toks, k, types, i);
      Arrives(EventNext(s, e), Account(s.core, toks, AsOp(s, e)), k, types, i - 1);
      EventFirst(s, toks, e, Onward(k, types, i - 1));
    }
  }

  lemma NotGet(k: nat, o: Owner)
    ensures !OpFill(k, o, false).OpGet? && !OpFill(k, o, false).OpMove?
  {
  }

  lemma OnwardParts(k: nat, types: seq<TC.TaskType>, i: nat)
    requires i < |types| && StageOwner(types[0]).From?
    ensures i == 0 ==> Onward(k, types, i) == [Plain(OpFill(k, StageOwner(types[0]).owner, false))]
    ensures i > 0 ==> Onward(k, types, i) == [Submit(k, i)] + Onward(k, types, i - 1)
  {
    hide StageOwner;
  }

  lemma PassingParts(types: seq<TC.TaskType>, i: nat)
    requires Passing(types, i) && i > 0
    ensures Passes(types[i], types[i - 1]) && Passing(types, i - 1)
  {
    hide Passes;
  }

  lemma NoEvents(s: Chained, toks: map<nat, Tokens>)
    requires Good(s, toks)
    ensures EventsLegal(s, toks, []) && EventRun(s, toks, []) == s
  {
    GoodCore(s, toks);
    hide Ok, Inv;
  }

  // ----- got and finished

  lemma ZeroTokens(t: Tokens)
    requires InRange(t) && Sum(t) == 0
    ensures t == Tokens(0, 0, 0, 0, 0)
  {
  }

  lemma GotTokens(t: Tokens, user: Owner)
    requires InRange(t) && Sum(t) == 0 && user != GE2D
    ensures TokensGet(t, user, NoSource) == Only(user)
  {
    hide *;
    ZeroTokens(t);
    FirstToken(user);
  }

  lemma FirstToken(user: Owner)
    requires user != GE2D
    ensures TokensGet(Tokens(0, 0, 0, 0, 0), user, NoSource) == Only(user)
  {
    match user {
      case DEC =>
      case VPP =>
      case VSINK =>
      case DI =>
    }
  }

  lemma PipelineOwner(user: Owner, types: seq<TC.TaskType>)
    requires Pipeline(user, types)
    ensures user != DI && user != GE2D && |types| > 1 && StageOwner(types[|types| - 1]) == From(user)
    ensures Passing(types, |types| - 1) && StageOwner(types[0]).From?
  {
  }

  /** What the getter's predecessor is does not matter: nobody pays. */
  lemma TokensFree(t: Tokens, user: Owner, pre: Source)
    requires Loser(user, pre) == NoSource
    ensures TokensGet(t, user, pre) == TokensGet(t, user, NoSource)
  {
  }

  /** A stage gets the oldest free buffer: in use, with that one reference. */
  lemma Acquired(s: Chained, toks: map<nat, Tokens>, user: Owner, types: seq<TC.TaskType>)
    requires Good(s, toks) && s.core.entries.Keys == toks.Keys && Pipeline(user, types) && s.core.freeQ != []
    ensures var e, k := Acquire(user, types), s.core.freeQ[0];
            && EventLegal(s, toks, e) && Formed(s, e) && Legal(s.core, toks, AsOp(s, e))
            && var t, u := EventNext(s, e), Account(s.core, toks, AsOp(s, e));
            && Good(t, u)
            && t.core.freeQ == s.core.freeQ[1..] && k in t.core.entries
            && t.core.entries[k].state == USE && t.lines[k].types == types && u[k] == Only(user)
  {
    var e := Acquire(user, types);
    PipelineOwner(user, types);
    EventFirst(s, toks, e, []);
    HeadReady(s, toks);
    hide Good, Ok, Inv, LineOk, TC.AttachAll, TC.PreUser, TC.Clean, Pipeline, InRange, Sum, TokensGet, HolderGet,
      DirectionGet, Only, Loser;
    var k := s.core.freeQ[0];
    var pre := AsOp(s, e).pre;
    TokensFree(toks[k], user, pre);
    GotTokens(toks[k], user);
  }

  lemma HeadReady(s: Chained, toks: map<nat, Tokens>)
    requires Good(s, toks) && s.core.freeQ != []
    ensures CanGet(s.core) && s.core.freeQ[0] in toks && s.core.freeQ[0] in s.lines
    ensures InRange(toks[s.core.freeQ[0]]) && Sum(toks[s.core.freeQ[0]]) == 0
  {
    var k := s.core.freeQ[0];
    QueueAttached(s.core, toks);
    ActiveWhileAttached(s.core, toks, k);
    Queued(s.core, toks, k);
    hide LineOk, Pack;
  }

  /** Its getter finishes it. */
  lemma GetterFinishes(s: Chained, toks: map<nat, Tokens>, k: nat, types: seq<TC.TaskType>, user: Owner)
    requires Good(s, toks) && s.core.entries.Keys == toks.Keys && k in s.core.entries
    requires s.core.entries[k].state == USE && toks[k] == Only(user) && s.lines[k].types == types
    requires types != [] && StageOwner(types[|types| - 1]) == From(user)
    ensures var e := Plain(OpDone(k, false));
            && EventLegal(s, toks, e) && Formed(s, e) && Legal(s.core, toks, AsOp(s, e))
            && EventNext(s, e).core.freeQ == s.core.freeQ
            && With(EventNext(s, e), Account(s.core, toks, AsOp(s, e)), k, types, |types| - 1)
  {
    hide *;
    var op := OpDone(k, false);
    GoodCore(s, toks);
    DoneKeeps(s, k);
    OneReference(s.core, toks, k, user);
    Finishes(s.core, toks, k);
    NotMove(k);
    LegalPlain(s, toks, op);
    PlainCore(s, op);
    EventFirst(s, toks, Plain(op), []);
    WithFrom(EventNext(s, Plain(op)), toks, k, types, |types| - 1);
  }

  lemma NotMove(k: nat)
    ensures !OpDone(k, false).OpGet? && !OpDone(k, false).OpMove?
  {
  }

  lemma DoneKeeps(s: Chained, k: nat)
    requires Ok(s)
    ensures EventNext(s, Plain(OpDone(k, false))).lines == s.lines
    ensures s.lines.Keys == s.core.entries.Keys
  {
    hide LineOk, Apply;
  }

  /** The whole way: whatever state runs have led to, a stage that asks gets the oldest free
      buffer, may finish it, pass it along its chain and have it returned by the last stage;
      the buffer is then the youngest free one, and the rest of the queue is as it was. */
  lemma RoundTrip(s: Chained, toks: map<nat, Tokens>, user: Owner, types: seq<TC.TaskType>)
    requires Good(s, toks) && Pipeline(user, types) && s.core.freeQ != []
    ensures StageOwner(types[0]).From?
    ensures var k := s.core.freeQ[0];
            var way := [Acquire(user, types)] + ([Plain(OpDone(k, false))] + Onward(k, types, |types| - 1));
            && EventsLegal(s, toks, way)
            && var t := EventRun(s, toks, way);
            && t.core.freeQ == s.core.freeQ[1..] + [k]
            && k in t.core.entries && t.core.entries[k].state == FREE && t.core.entries[k].ref == 0
  {
    GoodCore(s, toks);
    PipelineOwner(user, types);
    hide Good, EventLegal, AsOp, Account, Legal, Only, Pipeline, Passing, With, Onward;
    var k, n := s.core.freeQ[0], |types| - 1;
    var got, done, onward := Acquire(user, types), Plain(OpDone(k, false)), Onward(k, types, n);
    Acquired(s, toks, user, types);
    var t, u := EventNext(s, got), Account(s.core, toks, AsOp(s, got));
    GoodCore(t, u);
    GetterFinishes(t, u, k, types, user);
    var v, w := EventNext(t, done), Account(t.core, u, AsOp(t, done));
    Arrives(v, w, k, types, n);
    EventFirst(t, u, done, onward);
    EventFirst(s, toks, got, [done] + onward);
  }

  /** Every state a run reaches is one from which the round trip works. */
  lemma RunsAreGood(es: seq<Event>)
    requires EventsLegal(Chained(NewCore(), map[]), map[], es)
    ensures var start := Chained(NewCore(), map[]);
            && LegalRun(NewCore(), map[], Ops(start, map[], es))
            && Good(EventRun(start, map[], es), RunAccount(NewCore(), map[], Ops(start, map[], es)))
  {
    hide *;
    var start := Chained(NewCore(), map[]);
    ChainsKeepCounts(es);
    RunOk(start, map[], es);
    GoodFrom(EventRun(start, map[], es), RunAccount(NewCore(), map[], Ops(start, map[], es)));
  }

  lemma GoodFrom(s: Chained, toks: map<nat, Tokens>)
    requires Ok(s) && Inv(s.core, toks)
    ensures Good(s, toks)
  {
  }

  lemma {:induction false} RunOk(s: Chained, toks: map<nat, Tokens>, es: seq<Event>)
    requires EventsLegal(s, toks, es)
    ensures Ok(EventRun(s, toks, es))
    decreases |es|
  {
    hide Ok, EventLegal, Legal, Account, Apply, AsOp, LinesAfter;
    if es != [] {
      EventKeys(s, toks, es[0]);
      RunOk(EventNext(s, es[0]), Account(s.core, toks, AsOp(s, es[0])), es[1..]);
    }
  }
}
