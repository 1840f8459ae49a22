/** The buffer core: reference-counted entries, a queue of free ones, and the packed
    owner word of each. Unpaired entries, static mode. */
module BufCore {
  import opened OwnerWord
  import TaskChain

  datatype BufState = INIT | FREE | USE | REF | DONE

  datatype MgrState = MgrInit | MgrActive | MgrExit

  /** One attached buffer; user NoSource stands for "none". */
  datatype Entry = Entry(ref: int, state: BufState, user: Source, holder: Holder, word: nat, inited: bool)

  /** The manager: its state, its table by key, its free queue with the separate count,
      and its own reference count. */
  datatype Core = Core(state: MgrState, entries: map<nat, Entry>, freeQ: seq<nat>, freeNum: int, coreRef: int)

  function NewCore(): Core {
    Core(MgrInit, map[], [], 0, 1)
  }

  predicate Active(b: Core) {
    b.state == MgrActive
  }

  function Freed(e: Entry): Entry {
    e.(state := FREE, holder := HoldFree, word := 0, inited := true)
  }

  /** Puts the entry at the end of the queue, unless it already is the last one there:
      the list check sees a double add only then. */
  function FreeQue(b: Core, k: nat): Core
    requires k in b.entries
  {
    var c := b.(entries := b.entries[k := Freed(b.entries[k])]);
    if b.freeQ != [] && b.freeQ[|b.freeQ| - 1] == k then c
    else c.(freeQ := b.freeQ + [k], freeNum := b.freeNum + 1)
  }

  function Got(e: Entry, user: Owner, pre: Source): Entry {
    e.(ref := e.ref + 1, state := USE, user := From(user),
       holder := HolderGet(e.holder, user), word := DirectionGet(e.word, user, pre))
  }

  predicate CanGet(b: Core) {
    Active(b) && b.freeQ != [] && b.freeQ[0] in b.entries
  }

  function Get(b: Core, user: Owner, pre: Source): Core {
    if CanGet(b) then
      var k := b.freeQ[0];
      b.(freeQ := b.freeQ[1..], freeNum := b.freeNum - 1, entries := b.entries[k := Got(b.entries[k], user, pre)])
    else b
  }

  function Referenced(e: Entry): Entry {
    e.(ref := e.ref + 1, state := REF, holder := HolderGet(e.holder, DEC), word := DirectionGet(e.word, DEC, NoSource))
  }

  function GetRef(b: Core, k: nat): Core
    requires k in b.entries
  {
    if Active(b) then b.(entries := b.entries[k := Referenced(b.entries[k])]) else b
  }

  /** An entry that lost one of several references. */
  function Lessened(e: Entry, user: Owner): Entry {
    var w := DirectionPut(e.word, user);
    e.(state := REF, word := w, holder := HolderPut(e.holder, w, user))
  }

  /** The common end of put-ref, fill and the DI callback. */
  function Drop(b: Core, k: nat, user: Owner): Core
    requires k in b.entries
  {
    var e := b.entries[k].(ref := b.entries[k].ref - 1);
    if e.ref == 0 then FreeQue(b.(entries := b.entries[k := e]), k)
    else b.(entries := b.entries[k := Lessened(e, user)])
  }

  /** The guard refuses only a put without a reference in an inactive manager. */
  function PutRef(b: Core, k: nat): Core
    requires k in b.entries
  {
    if b.entries[k].ref == 0 && !Active(b) then b else Drop(b, k, DEC)
  }

  predicate CanDone(b: Core, k: nat)
    requires k in b.entries
  {
    Active(b) && b.entries[k].state in {USE, REF, DONE}
  }

  /** toDi: a DI post-processor takes the buffer on its way to the sink. */
  function Finished(e: Entry, toDi: bool): Entry {
    if toDi then
      e.(state := DONE, ref := e.ref + 1,
         holder := HolderGet(e.holder, DI), word := DirectionGet(e.word, DI, NoSource))
    else e.(state := DONE)
  }

  function Done(b: Core, k: nat, toDi: bool): Core
    requires k in b.entries
  {
    if CanDone(b, k) then b.(entries := b.entries[k := Finished(b.entries[k], toDi)]) else b
  }

  /** The next stage takes a finished buffer over from the one before. */
  function Moved(e: Entry, user: Owner, pre: Source): Entry {
    e.(holder := HolderGet(e.holder, user), word := DirectionGet(e.word, user, pre))
  }

  function Move(b: Core, k: nat, user: Owner, pre: Source): Core
    requires k in b.entries
  {
    b.(entries := b.entries[k := Moved(b.entries[k], user, pre)])
  }

  /** inDi: the DI post-processor says it still refers to the buffer. */
  function Fill(b: Core, k: nat, user: Owner, inDi: bool): Core
    requires k in b.entries
  {
    if !Active(b) then b
    else if user == VSINK && inDi && !b.entries[k].inited then b
    else if b.entries[k].state !in {INIT, DONE, REF} then b
    else Drop(b, k, user)
  }

  function VppCb(b: Core, k: nat): Core
    requires k in b.entries
  {
    Drop(b, k, DI)
  }

  function Restarted(e: Entry): Entry {
    e.(user := NoSource, state := INIT, inited := false, ref := 1)
  }

  function Reset(b: Core): Core {
    b.(entries := map k | k in b.entries :: Restarted(b.entries[k]), freeQ := [], freeNum := 0)
  }

  function Reclaimed(e: Entry): Entry {
    e.(user := NoSource, state := INIT)
  }

  /** What re-attaching a known key and handing it a new queue buffer both do. */
  function Replace(b: Core, k: nat): Core
    requires k in b.entries
  {
    b.(entries := b.entries[k := Reclaimed(b.entries[k])])
  }

  const FRESH := Entry(1, INIT, NoSource, HoldDec, 0, false)

  function Attach(b: Core, k: nat, memory: bool): Core {
    if k in b.entries then Replace(b, k)
    else if !memory then b
    else b.(entries := b.entries[k := FRESH], state := MgrActive, coreRef := b.coreRef + 1)
  }

  function Detach(b: Core, k: nat): Core {
    if k !in b.entries then b
    else
      var c := b.(entries := b.entries - {k}, coreRef := b.coreRef - 1);
      if c.coreRef == 0 then c.(state := MgrExit, freeQ := [], freeNum := 0) else c
  }

  // ----- the invariant

  predicate NoDup(q: seq<nat>) {
    forall i, j :: 0 <= i < j < |q| ==> q[i] != q[j]
  }

  /** The owner word and the reference count both show the references handed out. */
  predicate Known(e: Entry, t: Tokens) {
    Shows(e.word, t) && Sum(t) == e.ref
  }

  /** An entry against the references its owners hold. A reset forgets those: the entry
      then waits for a single return, and its word is stale. */
  predicate EntryOk(e: Entry, t: Tokens, queued: bool) {
    && (queued <==> e.ref == 0)
    && e.ref >= 0
    && (e.ref == 0 <==> e.state == FREE)
    && (e.ref == 0 ==> e.word == 0 && e.holder == HoldFree && e.inited)
    && (Sum(t) != 0 ==> e.holder != HoldFree)
    && (e.state == USE ==> e.ref == 1)
    && (Known(e, t) || (e.state == INIT && e.ref == 1 && InRange(t) && Sum(t) == 0))
  }

  ghost predicate Inv(b: Core, toks: map<nat, Tokens>) {
    && b.entries.Keys == toks.Keys
    && (forall k :: k in b.entries ==> EntryOk(b.entries[k], toks[k], k in b.freeQ))
    && (forall k :: k in b.freeQ ==> k in b.entries)
    && NoDup(b.freeQ)
    && b.freeNum == |b.freeQ|
    && b.coreRef == |b.entries| + 1
    && (|b.entries| > 0 ==> Active(b))
  }

  // ----- entries

  /** Whether this owner has a reference to give back: one it was handed, or the single
      one still due since a reset. */
  predicate Entitled(e: Entry, t: Tokens, user: Owner) {
    Of(t, user) > 0 || (Sum(t) == 0 && e.ref == 1)
  }

  function Returned(t: Tokens, user: Owner): Tokens {
    if Sum(t) == 0 then t else Give(t, user, -1)
  }

  lemma KnownHolds(e: Entry, t: Tokens, o: Owner)
    requires Known(e, t)
    ensures 0 <= Of(t, o) <= Sum(t) == e.ref
  {
    hide Pack;
    match o {
      case DEC =>
      case GE2D =>
      case VPP =>
      case VSINK =>
      case DI =>
    }
  }

  lemma HolderGetLive(h: Holder, user: Owner)
    requires h != HoldFree || user != DI
    ensures HolderGet(h, user) != HoldFree
  {
  }

  /** A free entry handed out has one reference, its getter's. */
  lemma GotOk(e: Entry, t: Tokens, user: Owner, pre: Source)
    requires EntryOk(e, t, true) && user != DI && Loser(user, pre) == NoSource
    ensures EntryOk(Got(e, user, pre), TokensGet(t, user, pre), false)
  {
    KnownHolds(e, t, user);
    HolderGetLive(e.holder, user);
    hide Shows, DirectionGet, HolderGet, Give, Of, Sum;
    GetShows(e.word, t, user, pre);
  }

  /** A further reference, for the decoder or the DI post-processor, of a buffer that is
      in use. */
  lemma ReferencedOk(e: Entry, t: Tokens, user: Owner, st: BufState)
    requires EntryOk(e, t, false) && Sum(t) != 0 && user in {DEC, DI} && Of(t, user) < 15 && st in {REF, DONE}
    ensures var f := e.(ref := e.ref + 1, state := st, holder := HolderGet(e.holder, user),
                        word := DirectionGet(e.word, user, NoSource));
            EntryOk(f, TokensGet(t, user, NoSource), false)
  {
    KnownHolds(e, t, user);
    HolderGetLive(e.holder, user);
    hide Shows, DirectionGet, HolderGet, Give, Of, Sum;
    GetShows(e.word, t, user, NoSource);
  }

  /** A take-over moves a reference, so the count stands still. */
  lemma MovedOk(e: Entry, t: Tokens, user: Owner, pre: Source)
    requires EntryOk(e, t, false) && e.state == DONE && Of(t, user) < 15
    requires Loser(user, pre).From? && Of(t, Loser(user, pre).owner) > 0
    ensures EntryOk(Moved(e, user, pre), TokensGet(t, user, pre), false)
  {
    HolderGetLive(e.holder, user);
    hide Shows, DirectionGet, HolderGet, Give, Of, Sum, TokensGet;
    GetShows(e.word, t, user, pre);
  }

  lemma HolderPutLive(h: Holder, w: nat, user: Owner)
    requires h != HoldFree
    ensures HolderPut(h, w, user) != HoldFree
  {
  }

  /** Giving back one of several references. */
  lemma LessenedOk(e: Entry, t: Tokens, user: Owner)
    requires EntryOk(e, t, false) && Entitled(e, t, user) && e.ref != 1
    ensures EntryOk(Lessened(e.(ref := e.ref - 1), user), Returned(t, user), false)
  {
    KnownHolds(e, t, user);
    hide Shows, DirectionPut, HolderPut, Give, Of, Sum;
    PutShows(e.word, t, user);
    HolderPutLive(e.holder, DirectionPut(e.word, user), user);
  }

  lemma NoTokens(t: Tokens)
    requires InRange(t) && Sum(t) == 0
    ensures Shows(0, t)
  {
  }

  lemma LastToken(t: Tokens, user: Owner)
    requires InRange(t) && Of(t, user) > 0
    ensures InRange(Give(t, user, -1)) && Sum(Give(t, user, -1)) == Sum(t) - 1
  {
    match user {
      case DEC =>
      case GE2D =>
      case VPP =>
      case VSINK =>
      case DI =>
    }
  }

  /** Giving back the last one. */
  lemma FreedOk(e: Entry, t: Tokens, user: Owner)
    requires EntryOk(e, t, false) && Entitled(e, t, user) && e.ref == 1
    ensures EntryOk(Freed(e.(ref := 0)), Returned(t, user), true)
  {
    hide Give, Of, Sum, InRange, Pack;
    if Sum(t) != 0 {
      LastToken(t, user);
    }
    NoTokens(Returned(t, user));
  }

  // ----- one operation

  /** Changing one entry, with the queue changing at most in that key. */
  lemma OneEntry(b: Core, toks: map<nat, Tokens>, k: nat, e: Entry, t: Tokens, q: seq<nat>)
    requires Inv(b, toks) && k in b.entries
    requires EntryOk(e, t, k in q) && NoDup(q)
    requires forall j: nat :: j != k ==> (j in q <==> j in b.freeQ)
    ensures Inv(b.(entries := b.entries[k := e], freeQ := q, freeNum := |q|), toks[k := t])
  {
    hide EntryOk, NoDup;
    SizeOfUpdate(b.entries, k, e);
    OthersOk(b, toks, k, e, t, q);
    SizeOfAccount(toks, k, t);
    assert forall j :: j in q ==> j in b.entries;
  }

  lemma SizeOfAccount(toks: map<nat, Tokens>, k: nat, t: Tokens)
    requires k in toks
    ensures toks[k := t].Keys == toks.Keys
  {
  }

  lemma OthersOk(b: Core, toks: map<nat, Tokens>, k: nat, e: Entry, t: Tokens, q: seq<nat>)
    requires Inv(b, toks) && k in b.entries && EntryOk(e, t, k in q)
    requires forall j: nat :: j != k ==> (j in q <==> j in b.freeQ)
    ensures forall j :: j in b.entries[k := e] ==>
              j in toks[k := t] && EntryOk(b.entries[k := e][j], toks[k := t][j], j in q)
  {
    hide EntryOk, NoDup;
    forall j | j in b.entries[k := e]
      ensures j in toks[k := t] && EntryOk(b.entries[k := e][j], toks[k := t][j], j in q)
    {
      if j != k {
        assert EntryOk(b.entries[j], toks[j], j in b.freeQ);
      }
    }
  }

  lemma SizeOfUpdate(m: map<nat, Entry>, k: nat, e: Entry)
    requires k in m
    ensures m[k := e].Keys == m.Keys && |m[k := e]| == |m|
  {
  }

  /** The same with the queue as it was. */
  lemma SameQueue(b: Core, toks: map<nat, Tokens>, k: nat, e: Entry, t: Tokens)
    requires Inv(b, toks) && k in b.entries && k !in b.freeQ && EntryOk(e, t, false)
    ensures Inv(b.(entries := b.entries[k := e]), toks[k := t])
  {
    hide EntryOk, NoDup;
    OneEntry(b, toks, k, e, t, b.freeQ);
    assert b.(entries := b.entries[k := e], freeQ := b.freeQ, freeNum := |b.freeQ|) == b.(entries := b.entries[k := e]);
  }

  lemma SameMap(m: map<nat, Tokens>, k: nat)
    requires k in m
    ensures m[k := m[k]] == m
  {
  }

  lemma Queued(b: Core, toks: map<nat, Tokens>, k: nat)
    requires Inv(b, toks) && k in b.entries
    ensures EntryOk(b.entries[k], toks[k], k in b.freeQ)
  {
    hide EntryOk, NoDup;
  }

  /** Whoever may give a reference back may do so only for a buffer that is not queued. */
  lemma HeldOffQueue(e: Entry, t: Tokens, user: Owner, queued: bool)
    requires EntryOk(e, t, queued) && Entitled(e, t, user)
    ensures !queued && e.ref > 0
  {
    hide Shows;
    if Known(e, t) {
      KnownHolds(e, t, user);
    }
  }

  lemma GetInv(b: Core, toks: map<nat, Tokens>, user: Owner, pre: Source)
    requires Inv(b, toks) && CanGet(b) && user != DI && Loser(user, pre) == NoSource
    ensures Inv(Get(b, user, pre), toks[b.freeQ[0] := TokensGet(toks[b.freeQ[0]], user, pre)])
  {
    hide EntryOk, Got, TokensGet;
    var k := b.freeQ[0];
    var q := b.freeQ[1..];
    Queued(b, toks, k);
    GotOk(b.entries[k], toks[k], user, pre);
    TailDistinct(b.freeQ);
    OneEntry(b, toks, k, Got(b.entries[k], user, pre), TokensGet(toks[k], user, pre), q);
  }

  lemma TailDistinct(q: seq<nat>)
    requires NoDup(q) && q != []
    ensures NoDup(q[1..]) && q[0] !in q[1..]
    ensures forall j: nat :: j != q[0] ==> (j in q[1..] <==> j in q)
  {
    assert q == [q[0]] + q[1..];
  }

  /** The last reference queues the buffer: the double-add check never gets in the way. */
  lemma DropLast(b: Core, k: nat, user: Owner)
    requires k in b.entries && b.entries[k].ref == 1 && k !in b.freeQ
    ensures Drop(b, k, user) == b.(entries := b.entries[k := Freed(b.entries[k].(ref := 0))],
                                   freeQ := b.freeQ + [k], freeNum := b.freeNum + 1)
  {
    hide Freed;
    var e := b.entries[k].(ref := 0);
    assert b.entries[k := e][k := Freed(e)] == b.entries[k := Freed(e)];
  }

  lemma DropOther(b: Core, k: nat, user: Owner)
    requires k in b.entries && b.entries[k].ref != 1
    ensures var e := b.entries[k];
            Drop(b, k, user) == b.(entries := b.entries[k := Lessened(e.(ref := e.ref - 1), user)])
  {
    hide Lessened;
  }

  lemma SnocDistinct(q: seq<nat>, k: nat)
    requires NoDup(q) && k !in q
    ensures NoDup(q + [k])
  {
  }

  /** A reference given back by someone entitled to it keeps the invariant, and the last
      one appends the buffer to the queue. */
  lemma DropInv(b: Core, toks: map<nat, Tokens>, k: nat, user: Owner)
    requires Inv(b, toks) && k in b.entries && Entitled(b.entries[k], toks[k], user)
    ensures Inv(Drop(b, k, user), toks[k := Returned(toks[k], user)])
    ensures Drop(b, k, user).freeQ == if b.entries[k].ref == 1 then b.freeQ + [k] else b.freeQ
  {
    var e, t := b.entries[k], toks[k];
    Queued(b, toks, k);
    HeldOffQueue(e, t, user, k in b.freeQ);
    CountedQueue(b, toks);
    hide EntryOk, Entitled, Returned, Freed, Lessened, Drop, Inv;
    if e.ref == 1 {
      FreedOk(e, t, user);
      DropLast(b, k, user);
      SnocDistinct(b.freeQ, k);
      OneEntry(b, toks, k, Freed(e.(ref := 0)), Returned(t, user), b.freeQ + [k]);
    } else {
      LessenedOk(e, t, user);
      DropOther(b, k, user);
      SameQueue(b, toks, k, Lessened(e.(ref := e.ref - 1), user), Returned(t, user));
    }
  }

  /** Exactly then: without a reference to give back the account or the count goes wrong. */
  lemma DropIff(b: Core, toks: map<nat, Tokens>, k: nat, user: Owner)
    requires Inv(b, toks) && k in b.entries
    ensures Inv(Drop(b, k, user), toks[k := Returned(toks[k], user)]) <==> Entitled(b.entries[k], toks[k], user)
  {
    if Entitled(b.entries[k], toks[k], user) {
      hide *;
      DropInv(b, toks, k, user);
    } else {
      Queued(b, toks, k);
      DropEntry(b, k, user);
      var c := Drop(b, k, user);
      NotEntitled(b.entries[k], toks[k], user, k in b.freeQ, c.entries[k], k in c.freeQ);
      hide EntryOk, Drop, Returned, Entitled;
    }
  }

  lemma DropEntry(b: Core, k: nat, user: Owner)
    requires k in b.entries
    ensures k in Drop(b, k, user).entries && Drop(b, k, user).entries[k].ref == b.entries[k].ref - 1
  {
    hide DirectionPut, HolderPut;
  }

  lemma NotEntitled(e: Entry, t: Tokens, user: Owner, queued: bool, f: Entry, after: bool)
    requires EntryOk(e, t, queued) && !Entitled(e, t, user) && f.ref == e.ref - 1
    ensures !EntryOk(f, Returned(t, user), after)
  {
    GiveSum(t, user, -1);
    assert InRange(t);
    if InRange(Give(t, user, -1)) {
      RangeOf(Give(t, user, -1), user);
    }
    hide Give, Of, Sum, InRange, Pack;
  }

  /** So a put-ref is sound exactly for a decoder that has a reference. */
  lemma PutRefIff(b: Core, toks: map<nat, Tokens>, k: nat)
    requires Inv(b, toks) && k in b.entries
    ensures Inv(PutRef(b, k), toks[k := Returned(toks[k], DEC)]) <==> Entitled(b.entries[k], toks[k], DEC)
  {
    hide *;
    PutRefStep(b, toks, k);
    DropIff(b, toks, k, DEC);
  }

  lemma CountedQueue(b: Core, toks: map<nat, Tokens>)
    requires Inv(b, toks)
    ensures b.freeNum == |b.freeQ| && NoDup(b.freeQ)
    ensures b.entries.Keys == toks.Keys
  {
  }

  lemma ResetInv(b: Core, toks: map<nat, Tokens>)
    requires Inv(b, toks)
    ensures Inv(Reset(b), Forgotten(toks))
  {
    hide EntryOk;
    var c := Reset(b);
    assert c.entries.Keys == b.entries.Keys;
    forall k | k in c.entries
      ensures EntryOk(c.entries[k], Forgotten(toks)[k], false)
    {
      RestartedOk(b.entries[k]);
    }
  }

  lemma RestartedOk(e: Entry)
    ensures EntryOk(Restarted(e), NONE, false)
  {
    NothingHeld();
    hide Sum, InRange, Shows;
  }

  lemma NothingHeld()
    ensures InRange(NONE) && Sum(NONE) == 0
  {
  }

  function Forgotten(toks: map<nat, Tokens>): map<nat, Tokens> {
    map k | k in toks :: NONE
  }

  /** Re-attaching a known key, or giving it a new queue buffer, is sound exactly when
      the buffer is not queued. */
  lemma ReplaceIff(b: Core, toks: map<nat, Tokens>, k: nat)
    requires Inv(b, toks) && k in b.entries
    ensures Inv(Replace(b, k), toks) <==> k !in b.freeQ
  {
    var e, t := b.entries[k], toks[k];
    Queued(b, toks, k);
    ReclaimedIff(e, t, k in b.freeQ);
    SameMap(toks, k);
    if k in b.freeQ {
      hide EntryOk, Reclaimed;
      assert Replace(b, k).entries[k] == Reclaimed(e);
    } else {
      hide EntryOk, Reclaimed, Inv;
      SameQueue(b, toks, k, Reclaimed(e), t);
    }
  }

  lemma ReclaimedIff(e: Entry, t: Tokens, queued: bool)
    requires EntryOk(e, t, queued)
    ensures EntryOk(Reclaimed(e), t, queued) <==> !queued
  {
    hide Shows, Sum, InRange;
  }

  lemma AttachInv(b: Core, toks: map<nat, Tokens>, k: nat)
    requires Inv(b, toks) && k !in b.entries
    ensures Inv(Attach(b, k, true), toks[k := NONE])
    ensures var e := Attach(b, k, true).entries[k];
            e.ref == 1 && e.word == 0 && e.state == INIT && e.holder == HoldDec && !e.inited
  {
    hide EntryOk;
    assert EntryOk(FRESH, NONE, false) by {
      RestartedOk(FRESH);
      assert Restarted(FRESH) == FRESH;
    }
    var c := Attach(b, k, true);
    assert c.entries.Keys == b.entries.Keys + {k};
    assert |c.entries| == |b.entries| + 1;
  }

  /** Detaching is sound exactly when the buffer is not queued; then the manager also
      survives. */
  lemma DetachIff(b: Core, toks: map<nat, Tokens>, k: nat)
    requires Inv(b, toks)
    ensures Inv(Detach(b, k), toks - {k}) <==> k !in b.freeQ
  {
    hide EntryOk;
    if k in b.entries {
      var c := Detach(b, k);
      assert c.entries.Keys == b.entries.Keys - {k};
      CardinalityLess(b.entries, k);
      assert c.coreRef == |c.entries| + 1;
    } else {
      assert toks - {k} == toks;
    }
  }

  lemma CardinalityLess(m: map<nat, Entry>, k: nat)
    requires k in m
    ensures |m - {k}| == |m| - 1
  {
    var n := m - {k};
    assert n.Keys == m.Keys - {k};
    assert |n.Keys| == |n| && |m.Keys| == |m|;
  }

  // ----- runs

  datatype Op =
    | OpGet(user: Owner, pre: Source)
    | OpGetRef(key: nat)
    | OpPutRef(key: nat)
    | OpDone(key: nat, toDi: bool)
    | OpMove(key: nat, user: Owner, pre: Source)
    | OpFill(key: nat, user: Owner, inDi: bool)
    | OpVppCb(key: nat)
    | OpReset
    | OpAttach(key: nat, memory: bool)
    | OpReplace(key: nat)
    | OpDetach(key: nat)

  predicate Accepts(b: Core, k: nat, user: Owner, inDi: bool)
    requires k in b.entries
  {
    && Active(b)
    && !(user == VSINK && inDi && !b.entries[k].inited)
    && b.entries[k].state in {INIT, DONE, REF}
  }

  /** What callers owe: an operation on an attached buffer they hold, fewer than fifteen
      references per owner before one more, take-overs along a chain, no re-attach or
      detach of a queued buffer. */
  predicate Legal(b: Core, toks: map<nat, Tokens>, op: Op)
    requires b.entries.Keys == toks.Keys
  {
    match op
    case OpGet(user, pre) => user != DI && Loser(user, pre) == NoSource
    case OpGetRef(k) => k in b.entries && Sum(toks[k]) != 0 && Of(toks[k], DEC) < 15
    case OpPutRef(k) => k in b.entries && Entitled(b.entries[k], toks[k], DEC)
    case OpDone(k, toDi) => k in b.entries && (toDi ==> Of(toks[k], DI) < 15)
    case OpMove(k, user, pre) =>
      && k in b.entries
      && b.entries[k].state == DONE
      && Loser(user, pre).From?
      && Of(toks[k], Loser(user, pre).owner) > 0
      && Of(toks[k], user) < 15
    case OpFill(k, user, inDi) => k in b.entries && Entitled(b.entries[k], toks[k], user)
    case OpVppCb(k) => k in b.entries && Entitled(b.entries[k], toks[k], DI)
    case OpReset => true
    case OpAttach(k, memory) => k !in b.freeQ
    case OpReplace(k) => k in b.entries && k !in b.freeQ
    case OpDetach(k) => k !in b.freeQ
  }

  function Apply(b: Core, op: Op): Core
  {
    match op
    case OpGet(user, pre) => Get(b, user, pre)
    case OpReset => Reset(b)
    case OpAttach(k, memory) => Attach(b, k, memory)
    case OpDetach(k) => Detach(b, k)
    case _ => if op.key in b.entries then ApplyTo(b, op) else b
  }

  function ApplyTo(b: Core, op: Op): Core
    requires !op.OpGet? && !op.OpReset? && op.key in b.entries
  {
    match op
    case OpGetRef(k) => GetRef(b, k)
    case OpPutRef(k) => PutRef(b, k)
    case OpDone(k, toDi) => Done(b, k, toDi)
    case OpMove(k, user, pre) => Move(b, k, user, pre)
    case OpFill(k, user, inDi) => Fill(b, k, user, inDi)
    case OpVppCb(k) => VppCb(b, k)
    case OpReplace(k) => Replace(b, k)
    case _ => b
  }

  /** The references handed out after an operation. */
  function Account(b: Core, toks: map<nat, Tokens>, op: Op): map<nat, Tokens>
    requires b.entries.Keys == toks.Keys && Legal(b, toks, op)
  {
    match op
    case OpGet(user, pre) =>
      if CanGet(b) then toks[b.freeQ[0] := TokensGet(toks[b.freeQ[0]], user, pre)] else toks
    case OpGetRef(k) => toks[k := TokensGet(toks[k], DEC, NoSource)]
    case OpPutRef(k) => toks[k := Returned(toks[k], DEC)]
    case OpDone(k, toDi) =>
      if CanDone(b, k) && toDi then toks[k := TokensGet(toks[k], DI, NoSource)] else toks
    case OpMove(k, user, pre) => toks[k := TokensGet(toks[k], user, pre)]
    case OpFill(k, user, inDi) => if Accepts(b, k, user, inDi) then toks[k := Returned(toks[k], user)] else toks
    case OpVppCb(k) => toks[k := Returned(toks[k], DI)]
    case OpReset => Forgotten(toks)
    case OpAttach(k, memory) => if k !in b.entries && memory then toks[k := NONE] else toks
    case OpReplace(k) => toks
    case OpDetach(k) => toks - {k}
  }

  lemma GetRefInv(b: Core, toks: map<nat, Tokens>, k: nat)
    requires Inv(b, toks) && k in b.entries && Sum(toks[k]) != 0 && Of(toks[k], DEC) < 15
    ensures Inv(GetRef(b, k), toks[k := TokensGet(toks[k], DEC, NoSource)])
  {
    var e, t := b.entries[k], toks[k];
    Queued(b, toks, k);
    InUse(e, t, k in b.freeQ);
    ReferencedOk(e, t, DEC, REF);
    ActiveWhileAttached(b, toks, k);
    hide EntryOk, Inv, TokensGet, HolderGet, DirectionGet;
    SameQueue(b, toks, k, Referenced(e), TokensGet(t, DEC, NoSource));
  }

  lemma InUse(e: Entry, t: Tokens, queued: bool)
    requires EntryOk(e, t, queued) && Sum(t) != 0
    ensures !queued && e.ref > 0
  {
    hide Shows;
  }

  lemma ActiveWhileAttached(b: Core, toks: map<nat, Tokens>, k: nat)
    requires Inv(b, toks) && k in b.entries
    ensures Active(b)
  {
    hide EntryOk;
    assert k in b.entries.Keys;
    assert |b.entries.Keys| == |b.entries|;
  }

  lemma DoneInv(b: Core, toks: map<nat, Tokens>, k: nat)
    requires Inv(b, toks) && k in b.entries && CanDone(b, k)
    ensures Inv(Done(b, k, false), toks)
  {
    var e, t := b.entries[k], toks[k];
    Queued(b, toks, k);
    BusyInUse(e, t, k in b.freeQ);
    InUse(e, t, k in b.freeQ);
    FinishedOk(e, t);
    SameMap(toks, k);
    hide EntryOk, Inv, Finished;
    SameQueue(b, toks, k, Finished(e, false), t);
  }

  lemma DoneToDiInv(b: Core, toks: map<nat, Tokens>, k: nat)
    requires Inv(b, toks) && k in b.entries && CanDone(b, k) && Of(toks[k], DI) < 15
    ensures Inv(Done(b, k, true), toks[k := TokensGet(toks[k], DI, NoSource)])
  {
    CountedQueue(b, toks);
    DoneStep(b, k);
    hide *;
    var e, t := b.entries[k], toks[k];
    Queued(b, toks, k);
    FinishedToDi(e, t, k in b.freeQ);
    SameQueue(b, toks, k, Finished(e, true), TokensGet(t, DI, NoSource));
  }

  lemma DoneStep(b: Core, k: nat)
    requires k in b.entries && CanDone(b, k)
    ensures Done(b, k, true) == b.(entries := b.entries[k := Finished(b.entries[k], true)])
    ensures b.entries[k].state in {USE, REF, DONE}
  {
    hide Finished;
  }

  lemma FinishedToDi(e: Entry, t: Tokens, queued: bool)
    requires EntryOk(e, t, queued) && e.state in {USE, REF, DONE} && Of(t, DI) < 15
    ensures !queued && EntryOk(Finished(e, true), TokensGet(t, DI, NoSource), false)
  {
    hide EntryOk, TokensGet, HolderGet, DirectionGet, Of, Sum;
    BusyInUse(e, t, queued);
    InUse(e, t, queued);
    ReferencedOk(e, t, DI, DONE);
  }

  lemma BusyInUse(e: Entry, t: Tokens, queued: bool)
    requires EntryOk(e, t, queued) && e.state in {USE, REF, DONE}
    ensures Sum(t) != 0
  {
    hide Shows;
  }

  lemma FinishedOk(e: Entry, t: Tokens)
    requires EntryOk(e, t, false) && e.state in {USE, REF, DONE}
    ensures EntryOk(Finished(e, false), t, false)
  {
    hide Shows;
  }

  lemma MoveInv(b: Core, toks: map<nat, Tokens>, k: nat, user: Owner, pre: Source)
    requires Inv(b, toks) && k in b.entries && b.entries[k].state == DONE
    requires Loser(user, pre).From? && Of(toks[k], Loser(user, pre).owner) > 0 && Of(toks[k], user) < 15
    ensures Inv(Move(b, k, user, pre), toks[k := TokensGet(toks[k], user, pre)])
  {
    var e, t := b.entries[k], toks[k];
    Queued(b, toks, k);
    BusyInUse(e, t, k in b.freeQ);
    InUse(e, t, k in b.freeQ);
    MovedOk(e, t, user, pre);
    hide EntryOk, Inv, TokensGet, Moved;
    SameQueue(b, toks, k, Moved(e, user, pre), TokensGet(t, user, pre));
  }

  /** Every legal operation keeps the invariant. */
  lemma StepInv(b: Core, toks: map<nat, Tokens>, op: Op)
    requires Inv(b, toks) && Legal(b, toks, op)
    ensures Inv(Apply(b, op), Account(b, toks, op))
  {
    hide Inv, EntryOk, Entitled, Returned, TokensGet, Drop, Reset, Replace, Forgotten, Loser, Move, Of, Sum;
    match op {
      case OpGet(user, pre) =>
        if CanGet(b) {
          hide Get;
          GetInv(b, toks, user, pre);
        }
      case OpGetRef(k) => hide GetRef; GetRefInv(b, toks, k);
      case OpPutRef(k) => PutRefStep(b, toks, k); hide PutRef; DropInv(b, toks, k, DEC);
      case OpDone(k, toDi) => 
        if CanDone(b, k) {
          hide Done;
          if toDi { DoneToDiInv(b, toks, k); } else { DoneInv(b, toks, k); }
        }
      case OpMove(k, user, pre) => MoveInv(b, toks, k, user, pre);
      case OpFill(k, user, inDi) => DropInv(b, toks, k, user);
      case OpVppCb(k) => DropInv(b, toks, k, DI);
      case OpReset => ResetInv(b, toks);
      case OpAttach(k, memory) =>
        if k in b.entries {
          ReplaceIff(b, toks, k);
        } else if memory {
          hide Attach;
          AttachInv(b, toks, k);
        }
      case OpReplace(k) => ReplaceIff(b, toks, k);
      case OpDetach(k) => hide Detach; DetachIff(b, toks, k);
    }
  }

  lemma PutRefStep(b: Core, toks: map<nat, Tokens>, k: nat)
    requires Inv(b, toks) && k in b.entries
    ensures PutRef(b, k) == Drop(b, k, DEC)
  {
    hide EntryOk, Drop;
    ActiveWhileAttached(b, toks, k);
  }

  ghost predicate LegalRun(b: Core, toks: map<nat, Tokens>, ops: seq<Op>)
    decreases |ops|
  {
    ops == [] || (&& b.entries.Keys == toks.Keys
                  && Legal(b, toks, ops[0])
                  && LegalRun(Apply(b, ops[0]), Account(b, toks, ops[0]), ops[1..]))
  }

  function Run(b: Core, ops: seq<Op>): Core
    decreases |ops|
  {
    if ops == [] then b else Run(Apply(b, ops[0]), ops[1..])
  }

  ghost function RunAccount(b: Core, toks: map<nat, Tokens>, ops: seq<Op>): map<nat, Tokens>
    requires LegalRun(b, toks, ops)
    decreases |ops|
  {
    if ops == [] then toks else RunAccount(Apply(b, ops[0]), Account(b, toks, ops[0]), ops[1..])
  }

  lemma {:induction false} RunInv(b: Core, toks: map<nat, Tokens>, ops: seq<Op>)
    requires Inv(b, toks) && LegalRun(b, toks, ops)
    ensures Inv(Run(b, ops), RunAccount(b, toks, ops))
    decreases |ops|
  {
    hide Inv, Legal, Apply, Account;
    if ops != [] {
      StepInv(b, toks, ops[0]);
      RunInv(Apply(b, ops[0]), Account(b, toks, ops[0]), ops[1..]);
    }
  }

  // ----- what the invariant is worth

  function Elements(q: seq<nat>): set<nat> {
    set k | k in q
  }

  lemma {:induction false} ElementsCount(q: seq<nat>)
    requires NoDup(q)
    ensures |Elements(q)| == |q|
    decreases |q|
  {
    if q != [] {
      TailDistinct(q);
      ElementsCount(q[1..]);
      assert Elements(q) == Elements(q[1..]) + {q[0]};
    }
  }

  /** Over any legal run of a new manager: the count agrees with the queue, no buffer is
      queued twice, and an attached buffer is queued exactly when nobody refers to it, in
      which case it is free with an empty owner word. Otherwise its count is the number
      of references handed out, and its owner word shows whose they are. */
  lemma NeverLostNorTwice(ops: seq<Op>)
    requires LegalRun(NewCore(), map[], ops)
    ensures var b, toks := Run(NewCore(), ops), RunAccount(NewCore(), map[], ops);
            && b.freeNum == |b.freeQ| == |Elements(b.freeQ)|
            && (forall k :: k in b.freeQ ==> k in b.entries)
            && b.entries.Keys == toks.Keys
            && (forall k :: k in b.entries ==>
                  var e := b.entries[k];
                  && (k in b.freeQ <==> e.ref == 0)
                  && (k in b.freeQ ==> e.state == FREE && e.word == 0 && e.holder == HoldFree)
                  && (e.state != INIT ==> Sum(toks[k]) == e.ref
                                          && Nibble(e.word, DEC) == toks[k].dec
                                          && Nibble(e.word, GE2D) == toks[k].ge2d
                                          && Nibble(e.word, VPP) == toks[k].vpp
                                          && Nibble(e.word, VSINK) == toks[k].vsink
                                          && Nibble(e.word, DI) == toks[k].di))
  {
    var b, toks := Run(NewCore(), ops), RunAccount(NewCore(), map[], ops);
    assert Inv(NewCore(), map[]);
    RunInv(NewCore(), map[], ops);
    CountedQueue(b, toks);
    ElementsCount(b.freeQ);
    QueueAttached(b, toks);
    hide Run, RunAccount, Inv, NoDup, Nibble;
    forall k | k in b.entries
      ensures var e := b.entries[k];
              && (k in b.freeQ <==> e.ref == 0)
              && (k in b.freeQ ==> e.state == FREE && e.word == 0 && e.holder == HoldFree)
              && (e.state != INIT ==> Sum(toks[k]) == e.ref
                                      && Nibble(e.word, DEC) == toks[k].dec
                                      && Nibble(e.word, GE2D) == toks[k].ge2d
                                      && Nibble(e.word, VPP) == toks[k].vpp
                                      && Nibble(e.word, VSINK) == toks[k].vsink
                                      && Nibble(e.word, DI) == toks[k].di)
    {
      Queued(b, toks, k);
      EntryFacts(b.entries[k], toks[k], k in b.freeQ);
    }
  }

  lemma QueueAttached(b: Core, toks: map<nat, Tokens>)
    requires Inv(b, toks)
    ensures forall k :: k in b.freeQ ==> k in b.entries
  {
    hide EntryOk;
  }

  lemma EntryFacts(e: Entry, t: Tokens, queued: bool)
    requires EntryOk(e, t, queued)
    ensures queued <==> e.ref == 0
    ensures queued ==> e.state == FREE && e.word == 0 && e.holder == HoldFree
    ensures e.state != INIT ==>
              && Sum(t) == e.ref
              && Nibble(e.word, DEC) == t.dec
              && Nibble(e.word, GE2D) == t.ge2d
              && Nibble(e.word, VPP) == t.vpp
              && Nibble(e.word, VSINK) == t.vsink
              && Nibble(e.word, DI) == t.di
  {
    hide Nibble, Shows, InRange, Sum;
    if Shows(e.word, t) {
      ShowsNibbles(e.word, t);
    }
  }

  /** A buffer handed out had no reference at all and now has one, and is not queued any
      more. */
  lemma GetExclusive(b: Core, toks: map<nat, Tokens>, user: Owner, pre: Source)
    requires Inv(b, toks) && b.freeQ != [] && user != DI && Loser(user, pre) == NoSource
    ensures var k, c := b.freeQ[0], Get(b, user, pre);
            && k in b.entries && Sum(toks[k]) == 0
            && k !in c.freeQ && c.entries[k].ref == 1 && c.entries[k].state == USE
            && Nibble(c.entries[k].word, user) == 1
  {
    var k := b.freeQ[0];
    QueueAttached(b, toks);
    ActiveWhileAttached(b, toks, k);
    Queued(b, toks, k);
    CountedQueue(b, toks);
    TailDistinct(b.freeQ);
    hide Inv, NoDup, Nibble, DirectionGet;
    EmptyQueued(b.entries[k], toks[k]);
    KnownHolds(b.entries[k], toks[k], user);
    hide EntryOk, Shows, Of, Sum;
    OneMoreShown(b.entries[k].word, toks[k], user, pre);
  }

  lemma EmptyQueued(e: Entry, t: Tokens)
    requires EntryOk(e, t, true)
    ensures Known(e, t) && Sum(t) == 0 && e.ref == 0 && e.word == 0
  {
    hide Shows, InRange;
  }

  lemma OneMoreShown(w: nat, t: Tokens, user: Owner, pre: Source)
    requires Shows(w, t) && Loser(user, pre) == NoSource && Of(t, user) < 15
    ensures Nibble(DirectionGet(w, user, pre), user) == Of(t, user) + 1
  {
    OneGiven(t, user);
    hide Nibble, DirectionGet, Shows, Give, Of, Sum;
    GetShows(w, t, user, pre);
    NibbleOf(DirectionGet(w, user, pre), TokensGet(t, user, pre), user);
  }

  lemma OneGiven(t: Tokens, user: Owner)
    ensures Of(Give(t, user, 1), user) == Of(t, user) + 1
  {
    match user {
      case DEC =>
      case GE2D =>
      case VPP =>
      case VSINK =>
      case DI =>
    }
  }

  /** When every reference has come back and nothing waits for its first or its
      after-reset return, all the attached buffers are in the queue. */
  lemma AllReturnedAllFree(b: Core, toks: map<nat, Tokens>)
    requires Inv(b, toks)
    requires forall k :: k in b.entries ==> b.entries[k].state != INIT && Sum(toks[k]) == 0
    ensures Elements(b.freeQ) == b.entries.Keys && b.freeNum == |b.entries|
  {
    CountedQueue(b, toks);
    QueueAttached(b, toks);
    ElementsCount(b.freeQ);
    hide Inv, NoDup;
    forall k | k in b.entries
      ensures k in b.freeQ
    {
      Queued(b, toks, k);
      hide Shows, InRange, Sum;
    }
    assert Elements(b.freeQ) == b.entries.Keys;
    assert |b.entries.Keys| == |b.entries|;
  }

  // ----- after a seek

  /** One buffer coming back after a reset: filled by its user, or released by the DI
      post-processor's callback. */
  datatype Return = Filled(key: nat, user: Owner) | Released(key: nat)

  function TakeBack(b: Core, r: Return): Core
    requires r.key in b.entries
  {
    match r
    case Filled(k, user) => Fill(b, k, user, false)
    case Released(k) => VppCb(b, k)
  }

  function TakeAllBack(b: Core, rs: seq<Return>): Core
    decreases |rs|
  {
    if rs == [] || rs[0].key !in b.entries then b else TakeAllBack(TakeBack(b, rs[0]), rs[1..])
  }

  function Keys(rs: seq<Return>): (q: seq<nat>)
    ensures |q| == |rs|
    ensures forall i :: 0 <= i < |rs| ==> q[i] == rs[i].key
  {
    if rs == [] then [] else [rs[0].key] + Keys(rs[1..])
  }

  lemma TakeBackIsDrop(b: Core, toks: map<nat, Tokens>, r: Return)
    requires Inv(b, toks) && r.key in b.entries && b.entries[r.key].state == INIT
    ensures exists user :: TakeBack(b, r) == Drop(b, r.key, user)
  {
    hide EntryOk, Drop;
    ActiveWhileAttached(b, toks, r.key);
    match r {
      case Filled(k, user) => assert TakeBack(b, r) == Drop(b, k, user);
      case Released(k) => assert TakeBack(b, r) == Drop(b, k, DI);
    }
  }

  lemma DropFrame(b: Core, k: nat, user: Owner, j: nat)
    requires k in b.entries && j in b.entries && j != k
    ensures j in Drop(b, k, user).entries && Drop(b, k, user).entries[j] == b.entries[j]
  {
  }

  lemma DropKeys(b: Core, k: nat, user: Owner)
    requires k in b.entries
    ensures Drop(b, k, user).entries.Keys == b.entries.Keys
  {
  }

  /** The buffers still waiting after a reset, all owing exactly one return. */
  predicate Owes(b: Core, k: nat) {
    k in b.entries && b.entries[k].state == INIT && b.entries[k].ref == 1
  }

  predicate Waiting(b: Core, q: seq<nat>) {
    forall i :: 0 <= i < |q| ==> Owes(b, q[i])
  }

  predicate NoneHeld(toks: map<nat, Tokens>) {
    forall k :: k in toks ==> Sum(toks[k]) == 0
  }

  lemma OneBack(b: Core, toks: map<nat, Tokens>, r: Return)
    requires Inv(b, toks) && NoneHeld(toks) && Owes(b, r.key)
    ensures Inv(TakeBack(b, r), toks)
    ensures TakeBack(b, r).freeQ == b.freeQ + [r.key]
    ensures TakeBack(b, r).entries.Keys == b.entries.Keys
    ensures forall j :: j in b.entries && j != r.key ==> TakeBack(b, r).entries[j] == b.entries[j]
  {
    TakeBackIsDrop(b, toks, r);
    hide TakeBack;
    var user :| TakeBack(b, r) == Drop(b, r.key, user);
    CountedQueue(b, toks);
    SameMap(toks, r.key);
    hide Inv, Sum, Of;
    DropInv(b, toks, r.key, user);
    hide Drop;
    forall j | j in b.entries && j != r.key
      ensures j in Drop(b, r.key, user).entries && Drop(b, r.key, user).entries[j] == b.entries[j]
    {
      DropFrame(b, r.key, user, j);
    }
    DropKeys(b, r.key, user);
  }

  lemma StillWaiting(b: Core, c: Core, q: seq<nat>)
    requires q != [] && Waiting(b, q) && NoDup(q)
    requires c.entries.Keys == b.entries.Keys
    requires forall j :: j in b.entries && j != q[0] ==> c.entries[j] == b.entries[j]
    ensures Waiting(c, q[1..])
  {
  }

  lemma Regroup(q: seq<nat>, k: nat, rest: seq<nat>)
    ensures q + ([k] + rest) == (q + [k]) + rest
    ensures ([k] + rest)[1..] == rest && ([k] + rest)[0] == k
  {
  }

  lemma {:induction false} AllBack(b: Core, toks: map<nat, Tokens>, rs: seq<Return>)
    requires Inv(b, toks) && NoneHeld(toks) && Waiting(b, Keys(rs)) && NoDup(Keys(rs))
    ensures Inv(TakeAllBack(b, rs), toks)
    ensures TakeAllBack(b, rs).freeQ == b.freeQ + Keys(rs)
    ensures TakeAllBack(b, rs).entries.Keys == b.entries.Keys
    decreases |rs|
  {
    if rs == [] {
      assert b.freeQ + [] == b.freeQ;
    } else {
      var k := rs[0].key;
      assert Owes(b, Keys(rs)[0]);
      TailDistinct(Keys(rs));
      Regroup(b.freeQ, k, Keys(rs[1..]));
      hide Inv, NoDup, TakeBack, NoneHeld, Waiting;
      OneBack(b, toks, rs[0]);
      StillWaiting(b, TakeBack(b, rs[0]), Keys(rs));
      AllBack(TakeBack(b, rs[0]), toks, rs[1..]);
    }
  }

  lemma AfterReset(b: Core, q: seq<nat>)
    requires forall i :: 0 <= i < |q| ==> q[i] in b.entries
    ensures Waiting(Reset(b), q) && Reset(b).freeQ == [] && Reset(b).entries.Keys == b.entries.Keys
  {
  }

  lemma QueuedFree(b: Core, toks: map<nat, Tokens>, k: nat)
    requires Inv(b, toks) && k in b.freeQ
    ensures k in b.entries
    ensures b.entries[k].state == FREE && b.entries[k].ref == 0 && b.entries[k].word == 0
  {
    QueueAttached(b, toks);
    Queued(b, toks, k);
    hide Inv, Nibble;
    EntryFacts(b.entries[k], toks[k], true);
  }

  lemma ForgottenHeld(toks: map<nat, Tokens>)
    ensures NoneHeld(Forgotten(toks))
  {
    NothingHeld();
    hide Sum;
  }

  lemma SeekOrder(b: Core, toks: map<nat, Tokens>, rs: seq<Return>)
    requires Inv(b, toks) && NoDup(Keys(rs)) && Elements(Keys(rs)) == b.entries.Keys
    ensures TakeAllBack(Reset(b), rs).freeQ == Keys(rs)
    ensures TakeAllBack(Reset(b), rs).entries.Keys == b.entries.Keys
    ensures Inv(TakeAllBack(Reset(b), rs), Forgotten(toks))
  {
    hide *;
    KeysAttached(b, Keys(rs));
    AfterReset(b, Keys(rs));
    ForgottenHeld(toks);
    ResetInv(b, toks);
    AllBack(Reset(b), Forgotten(toks), rs);
    assert [] + Keys(rs) == Keys(rs);
  }

  /** From any reachable state: a reset, then every attached buffer coming back once, in
      any order and either way, leaves all of them queued in that order and free. */
  lemma SeekRecovers(b: Core, toks: map<nat, Tokens>, rs: seq<Return>)
    requires Inv(b, toks) && NoDup(Keys(rs)) && Elements(Keys(rs)) == b.entries.Keys
    ensures var c := TakeAllBack(Reset(b), rs);
            && c.freeQ == Keys(rs) && c.freeNum == |b.entries| && c.entries.Keys == b.entries.Keys
            && Inv(c, Forgotten(toks))
            && forall k :: k in c.entries ==>
                 c.entries[k].state == FREE && c.entries[k].ref == 0 && c.entries[k].word == 0
  {
    hide *;
    SeekOrder(b, toks, rs);
    AllQueued(TakeAllBack(Reset(b), rs), Forgotten(toks));
    SameSize(TakeAllBack(Reset(b), rs).entries, b.entries);
  }

  lemma KeysAttached(b: Core, q: seq<nat>)
    requires Elements(q) == b.entries.Keys
    ensures forall i :: 0 <= i < |q| ==> q[i] in b.entries
  {
    assert forall i :: 0 <= i < |q| ==> q[i] in Elements(q);
  }

  lemma SameSize(m: map<nat, Entry>, n: map<nat, Entry>)
    requires m.Keys == n.Keys
    ensures |m| == |n|
  {
    assert |m.Keys| == |m| && |n.Keys| == |n|;
  }

  lemma AllQueued(c: Core, toks: map<nat, Tokens>)
    requires Inv(c, toks) && Elements(c.freeQ) == c.entries.Keys
    ensures c.freeNum == |c.entries|
    ensures forall k :: k in c.entries ==> c.entries[k].state == FREE && c.entries[k].ref == 0 && c.entries[k].word == 0
  {
    CountedQueue(c, toks);
    ElementsCount(c.freeQ);
    assert |c.entries.Keys| == |c.entries|;
    hide Inv, NoDup;
    forall k | k in c.entries
      ensures c.entries[k].state == FREE && c.entries[k].ref == 0 && c.entries[k].word == 0
    {
      assert k in Elements(c.freeQ);
      QueuedFree(c, toks, k);
    }
  }

  // ----- since when a buffer counts as initialised

  /** The buffers queued at some time since their attach and the last reset: who is still
      among them after an operation, and who is after it. */
  function Kept(b: Core, op: Op, since: set<nat>): set<nat> {
    match op
    case OpReset => {}
    case OpAttach(k, memory) => if k !in b.entries && memory then since - {k} else since
    case OpDetach(k) => since - {k}
    case _ => since
  }

  function NextQueuedSince(b: Core, op: Op, since: set<nat>): set<nat> {
    Kept(b, op, since) + Elements(Apply(b, op).freeQ)
  }

  function QueuedSince(b: Core, ops: seq<Op>, since: set<nat>): set<nat>
    decreases |ops|
  {
    if ops == [] then since else QueuedSince(Apply(b, ops[0]), ops[1..], NextQueuedSince(b, ops[0], since))
  }

  predicate Marked(b: Core, since: set<nat>) {
    forall k :: k in b.entries ==> (b.entries[k].inited <==> k in since)
  }

  /** No entry loses its mark, and one gains it only by being queued. */
  predicate KeepsMarks(b: Core, c: Core) {
    && c.entries.Keys == b.entries.Keys
    && forall k :: k in c.entries ==>
         c.entries[k].inited == b.entries[k].inited || (c.entries[k].inited && k in c.freeQ)
  }

  lemma QueuedMarked(c: Core, toks: map<nat, Tokens>)
    requires Inv(c, toks)
    ensures forall k :: k in c.freeQ ==> k in c.entries && c.entries[k].inited
  {
    hide EntryOk, NoDup;
    forall k | k in c.freeQ
      ensures k in c.entries && c.entries[k].inited
    {
      Queued(c, toks, k);
      MarkedWhenFree(c.entries[k], toks[k]);
    }
  }

  lemma MarkedWhenFree(e: Entry, t: Tokens)
    requires EntryOk(e, t, true)
    ensures e.inited
  {
  }

  lemma DropKeepsMarks(b: Core, k: nat, user: Owner)
    requires k in b.entries
    ensures KeepsMarks(b, Drop(b, k, user))
  {
    hide DirectionPut, HolderPut;
  }

  lemma OtherKeepsMarks(b: Core, op: Op)
    requires op.OpGet? || op.OpGetRef? || op.OpDone? || op.OpMove? || op.OpReplace?
    ensures KeepsMarks(b, Apply(b, op))
  {
    hide DirectionGet, HolderGet;
  }

  lemma ReturnKeepsMarks(b: Core, op: Op)
    requires op.OpPutRef? || op.OpFill? || op.OpVppCb?
    ensures KeepsMarks(b, Apply(b, op))
  {
    if op.key in b.entries {
      DropKeepsMarks(b, op.key, if op.OpPutRef? then DEC else if op.OpFill? then op.user else DI);
    }
    hide Drop;
  }

  lemma KeptMarked(b: Core, c: Core, since: set<nat>)
    requires KeepsMarks(b, c) && Marked(b, since)
    requires forall k :: k in c.freeQ ==> k in c.entries && c.entries[k].inited
    ensures Marked(c, since + Elements(c.freeQ))
  {
  }

  lemma QueuedAddsNothing(c: Core, since: set<nat>)
    requires Marked(c, since)
    requires forall k :: k in c.freeQ ==> k in c.entries && c.entries[k].inited
    ensures Marked(c, since + Elements(c.freeQ))
  {
  }

  lemma ResetUnmarks(b: Core)
    ensures Marked(Reset(b), {})
  {
  }

  lemma AttachUnmarks(b: Core, k: nat, memory: bool, since: set<nat>)
    requires Marked(b, since)
    ensures Marked(Attach(b, k, memory), if k !in b.entries && memory then since - {k} else since)
  {
  }

  lemma DetachUnmarks(b: Core, k: nat, since: set<nat>)
    requires Marked(b, since)
    ensures Marked(Detach(b, k), since - {k})
  {
  }

  lemma TableMarked(b: Core, op: Op, since: set<nat>)
    requires Marked(b, since) && (op.OpReset? || op.OpAttach? || op.OpDetach?)
    ensures Marked(Apply(b, op), Kept(b, op, since))
  {
    hide Marked, Reset, Attach, Detach;
    match op {
      case OpReset => ResetUnmarks(b);
      case OpAttach(k, memory) => AttachUnmarks(b, k, memory, since);
      case OpDetach(k) => DetachUnmarks(b, k, since);
    }
  }

  lemma KeepsMarksOf(b: Core, op: Op, since: set<nat>)
    requires !op.OpReset? && !op.OpAttach? && !op.OpDetach?
    ensures KeepsMarks(b, Apply(b, op)) && Kept(b, op, since) == since
  {
    hide KeepsMarks, Apply;
    if op.OpPutRef? || op.OpFill? || op.OpVppCb? {
      ReturnKeepsMarks(b, op);
    } else {
      OtherKeepsMarks(b, op);
    }
  }

  lemma StepMarked(b: Core, toks: map<nat, Tokens>, op: Op, since: set<nat>)
    requires Inv(b, toks) && Legal(b, toks, op) && Marked(b, since)
    ensures Marked(Apply(b, op), Kept(b, op, since) + Elements(Apply(b, op).freeQ))
  {
    CountedQueue(b, toks);
    hide *;
    StepInv(b, toks, op);
    QueuedMarked(Apply(b, op), Account(b, toks, op));
    if op.OpReset? || op.OpAttach? || op.OpDetach? {
      TableMarked(b, op, since);
      QueuedAddsNothing(Apply(b, op), Kept(b, op, since));
    } else {
      KeepsMarksOf(b, op, since);
      KeptMarked(b, Apply(b, op), since);
    }
  }

  lemma {:induction false} RunMarked(b: Core, toks: map<nat, Tokens>, ops: seq<Op>, since: set<nat>)
    requires Inv(b, toks) && LegalRun(b, toks, ops) && Marked(b, since)
    ensures Marked(Run(b, ops), QueuedSince(b, ops, since))
    decreases |ops|
  {
    hide Inv, Legal, Apply, Account, Marked, Kept, Elements;
    if ops != [] {
      StepInv(b, toks, ops[0]);
      StepMarked(b, toks, ops[0], since);
      RunMarked(Apply(b, ops[0]), Account(b, toks, ops[0]), ops[1..], NextQueuedSince(b, ops[0], since));
    }
  }

  lemma DiAnswerIff(b: Core, k: nat)
    requires k in b.entries && Active(b) && b.entries[k].state in {INIT, DONE, REF}
    ensures Fill(b, k, VSINK, true) == b <==> !b.entries[k].inited
  {
    if b.entries[k].inited {
      DropEntry(b, k, VSINK);
    }
    hide Drop;
  }

  /** Over every legal run: a buffer that DI says it still refers to is left with DI, when
      the sink returns it, exactly when it has not been queued since its attach or the
      last reset. */
  lemma DiHoldsBackIff(ops: seq<Op>, k: nat)
    requires LegalRun(NewCore(), map[], ops) && k in Run(NewCore(), ops).entries
    requires Run(NewCore(), ops).entries[k].state in {INIT, DONE, REF}
    ensures var b := Run(NewCore(), ops);
            Fill(b, k, VSINK, true) == b <==> k !in QueuedSince(NewCore(), ops, {})
  {
    NewCoreInv();
    hide *;
    RunInv(NewCore(), map[], ops);
    RunMarked(NewCore(), map[], ops, {});
    ActiveWhileAttached(Run(NewCore(), ops), RunAccount(NewCore(), map[], ops), k);
    MarkOf(Run(NewCore(), ops), QueuedSince(NewCore(), ops, {}), k);
    DiAnswerIff(Run(NewCore(), ops), k);
  }

  lemma MarkOf(b: Core, since: set<nat>, k: nat)
    requires Marked(b, since) && k in b.entries
    ensures b.entries[k].inited <==> k in since
  {
  }

  lemma NewCoreInv()
    ensures Inv(NewCore(), map[]) && Marked(NewCore(), {})
  {
  }

  // ----- what goes wrong outside the rules

  lemma SinkBorrows(e: Entry)
    requires e.word == 0
    ensures Lessened(e.(ref := e.ref - 1), VSINK).word == 0xFFFF_F000
    ensures Lessened(e.(ref := e.ref - 1), VSINK).ref == e.ref - 1
  {
    hide HolderPut;
  }

  /** A queued buffer given a new queue buffer and then returned by the sink keeps its
      place in the queue with a count of minus one and a borrowed owner word. */
  lemma ReplacedWhileQueued(b: Core, toks: map<nat, Tokens>, k: nat)
    requires Inv(b, toks) && k in b.freeQ
    ensures k in b.entries
    ensures var c := Fill(Replace(b, k), k, VSINK, false);
            c.freeQ == b.freeQ && k in c.entries && c.entries[k].ref == -1 && c.entries[k].word == 0xFFFF_F000
  {
    QueuedFree(b, toks, k);
    ActiveWhileAttached(b, toks, k);
    hide Inv, Lessened, Drop;
    DropOther(Replace(b, k), k, VSINK);
    SinkBorrows(Reclaimed(b.entries[k]));
  }

  /** Putting a reference of a buffer that has none is not refused while the manager is
      active: the count goes to minus one and the buffer stays queued. */
  lemma PutWithoutReference(b: Core, toks: map<nat, Tokens>, k: nat)
    requires Inv(b, toks) && k in b.freeQ
    ensures k in b.entries
    ensures var c := PutRef(b, k); c.freeQ == b.freeQ && k in c.entries && c.entries[k].ref == -1
  {
    QueueAttached(b, toks);
    ActiveWhileAttached(b, toks, k);
    Queued(b, toks, k);
    EmptyQueued(b.entries[k], toks[k]);
  }

  // ----- who gives up the reference when a chain's stage takes over

  /** How the buffer core names a stage of the task chain; a stage that it does not
      count, or none, gives up nothing. */
  function StageOwner(ty: nat): Source {
    if ty == TaskChain.TASK_TYPE_DEC then From(DEC)
    else if ty == TaskChain.TASK_TYPE_VPP then From(VPP)
    else if ty == TaskChain.TASK_TYPE_GE2D then From(GE2D)
    else if ty == TaskChain.TASK_TYPE_V4L_SINK then From(VSINK)
    else NoSource
  }

  /** On a chain attached sink first, whatever it was used for before, the stage before a
      post-processor or sink pays for the take-over: its reference moves. */
  lemma NeighbourPays(c: TaskChain.Chain, types: seq<TaskChain.TaskType>, i: nat)
    requires TaskChain.Sized(c) && c.items == [] && TaskChain.Distinct(types) && 0 < i < |types|
    requires types[i - 1] == TaskChain.TASK_TYPE_V4L_SINK || types[i - 1] == TaskChain.TASK_TYPE_VPP
    requires types[i] in {TaskChain.TASK_TYPE_DEC, TaskChain.TASK_TYPE_GE2D, TaskChain.TASK_TYPE_VPP}
    ensures var d := TaskChain.AttachAll(c, types);
            var user := StageOwner(types[i - 1]).owner;
            Loser(user, StageOwner(TaskChain.PreUser(d, types[i - 1]))) == StageOwner(types[i])
  {
    hide TaskChain.AttachAll, TaskChain.PreUser, TaskChain.NextUser;
    TaskChain.NeighboursLinked(c, types, i);
  }

  /** A post-processor that gets a buffer for itself attaches only the sink and itself:
      nobody pays then, even when a stale map reports someone before it. */
  lemma OwnLineIsFree(c: TaskChain.Chain)
    requires TaskChain.Sized(c) && c.items == []
    ensures var d := TaskChain.AttachAll(c, [TaskChain.TASK_TYPE_V4L_SINK, TaskChain.TASK_TYPE_VPP]);
            Loser(VPP, StageOwner(TaskChain.PreUser(d, TaskChain.TASK_TYPE_VPP))) == NoSource
  {
    var types: seq<TaskChain.TaskType> := [TaskChain.TASK_TYPE_V4L_SINK, TaskChain.TASK_TYPE_VPP];
    TaskChain.AttachedTypes(c, types);
    hide TaskChain.AttachAll;
    assert TaskChain.TASK_TYPE_DEC !in types && TaskChain.TASK_TYPE_GE2D !in types;
  }

  /** The stages of the task chain by number, with the fourth one not counted. */
  lemma StagesByNumber(ty: nat)
    ensures StageOwner(ty)
         == if ty == 0 then From(DEC) else if ty == 1 then From(VPP) else if ty == 2 then From(GE2D)
            else if ty == 4 then From(VSINK) else NoSource
  {
  }

  // ----- whom an operation names

  /** Whoever gets a buffer or takes it over is named its holder, except DI; a further
      reference of the decoder names the decoder. */
  lemma NamedAfter(b: Core, k: nat, user: Owner, pre: Source)
    requires k in b.entries && user != DI
    ensures CanGet(b) && b.freeQ[0] == k ==> Named(Get(b, user, pre).entries[k].holder) == From(user)
    ensures Named(Move(b, k, user, pre).entries[k].holder) == From(user)
    ensures Active(b) ==>
              && Named(GetRef(b, k).entries[k].holder) == From(DEC)
              && GetRef(b, k).entries[k].state == REF
              && GetRef(b, k).entries[k].ref == b.entries[k].ref + 1
    ensures Done(b, k, true).entries[k].holder == Done(b, k, false).entries[k].holder == b.entries[k].holder
  {
    hide DirectionGet;
    match user {
      case DEC =>
      case GE2D =>
      case VPP =>
      case VSINK =>
    }
  }

  // ----- which states allow what

  /** A put by the decoder takes a reference off in any state, unless there is none and the
      manager is not active; then nothing changes. */
  lemma PutRefTakesIff(b: Core, k: nat)
    requires k in b.entries
    ensures if b.entries[k].ref == 0 && b.state != MgrActive then PutRef(b, k) == b
            else PutRef(b, k).entries[k].ref == b.entries[k].ref - 1
  {
    hide HolderPut, DirectionPut;
  }

  /** Detaching the last buffer when nobody else refers to the manager closes it and empties
      its queue; otherwise it stays as it is but for the entry. */
  lemma DetachCloses(b: Core, k: nat)
    requires k in b.entries
    ensures var c := Detach(b, k);
            && c.entries == b.entries - {k} && c.coreRef == b.coreRef - 1
            && (b.coreRef == 1 ==> c.state == MgrExit && c.freeQ == [] && c.freeNum == 0)
            && (b.coreRef != 1 ==> c.state == b.state && c.freeQ == b.freeQ && c.freeNum == b.freeNum)
  {
  }

  /** In an active manager exactly a buffer just got, referenced or finished is finished by a
      frame done; one that is free or waits for its return after a reset is left alone. */
  lemma DoneIff(b: Core, toks: map<nat, Tokens>, k: nat, toDi: bool)
    requires Inv(b, toks) && k in b.entries
    ensures Done(b, k, toDi).entries[k].state == DONE <==> b.entries[k].state !in {FREE, INIT}
    ensures b.entries[k].state !in {FREE, INIT} ==>
              Done(b, k, toDi).entries[k].ref == b.entries[k].ref + if toDi then 1 else 0
    ensures b.entries[k].state in {FREE, INIT} ==> Done(b, k, toDi) == b
  {
    ActiveWhileAttached(b, toks, k);
    hide Inv, HolderGet, DirectionGet;
  }

  /** A fill by somebody entitled takes one reference off exactly when the buffer is not in
      use without having been finished, and DI does not hold the sink's fill back. */
  lemma FillReturnsIff(b: Core, toks: map<nat, Tokens>, k: nat, user: Owner, inDi: bool)
    requires Inv(b, toks) && k in b.entries && Entitled(b.entries[k], toks[k], user)
    ensures Fill(b, k, user, inDi).entries[k].ref == b.entries[k].ref - 1 <==>
            b.entries[k].state != USE && !(user == VSINK && inDi && !b.entries[k].inited)
    ensures b.entries[k].state == USE || (user == VSINK && inDi && !b.entries[k].inited) ==> Fill(b, k, user, inDi) == b
    ensures Fill(b, k, user, inDi).entries[k].ref == 0 ==>
              Fill(b, k, user, inDi).freeQ == b.freeQ + [k] && Fill(b, k, user, inDi).entries[k].state == FREE
  {
    ActiveWhileAttached(b, toks, k);
    Queued(b, toks, k);
    HeldOffQueue(b.entries[k], toks[k], user, k in b.freeQ);
    NotFree(b.entries[k], toks[k]);
    hide Inv, EntryOk, Entitled, HolderPut, DirectionPut;
    if b.entries[k].ref == 1 {
      DropLast(b, k, user);
    } else {
      DropOther(b, k, user);
    }
  }

  lemma NotFree(e: Entry, t: Tokens)
    requires EntryOk(e, t, false)
    ensures e.state != FREE && e.ref > 0
  {
    hide Shows, Sum, InRange;
  }

  // ----- the manager itself

  datatype MaybeKey = SomeKey(key: nat) | NoKey

  class BufCoreMgr {
    var state: MgrState
    var entries: map<nat, Entry>
    var freeQ: seq<nat>
    var freeNum: int
    var coreRef: int

    function Model(): Core
      reads this
    {
      Core(state, entries, freeQ, freeNum, coreRef)
    }

    constructor ()
      ensures Model() == NewCore()
    {
      state, entries, freeQ, freeNum, coreRef := MgrInit, map[], [], 0, 1;
    }

    method FreeQueue(k: nat)
      requires k in entries
      modifies this
      ensures Model() == FreeQue(old(Model()), k)
    {
      entries := entries[k := entries[k].(state := FREE, holder := HoldFree, word := 0, inited := true)];
      if freeQ != [] && freeQ[|freeQ| - 1] == k {
        return;
      }
      freeQ := freeQ + [k];
      freeNum := freeNum + 1;
    }

    method GetBuffer(user: Owner, pre: Source) returns (out: MaybeKey)
      requires forall k :: k in freeQ ==> k in entries
      modifies this
      ensures Model() == Get(old(Model()), user, pre)
      ensures out == if old(CanGet(Model())) then SomeKey(old(freeQ[0])) else NoKey
    {
      hide DirectionGet, HolderGet;
      if state != MgrActive || freeQ == [] {
        return NoKey;
      }
      var k := freeQ[0];
      freeQ := freeQ[1..];
      freeNum := freeNum - 1;
      entries := entries[k := entries[k].(user := From(user), state := USE, ref := entries[k].ref + 1)];
      UpdateHolderGet(k, user, pre);
      out := SomeKey(k);
    }

    /** The branches of a GET, holder and word changed as they come. */
    method UpdateHolderGet(k: nat, user: Owner, pre: Source)
      requires k in entries
      modifies this`entries
      ensures Model() == Move(old(Model()), k, user, pre)
    {
      hide Add, Sub;
      var holder, word := entries[k].holder, entries[k].word;
      match user {
        case DEC =>
          holder := HoldDec;
          word := Add(word, DEC);
        case VPP =>
          holder := HoldVpp;
          word := Add(word, VPP);
          if pre == From(DEC) {
            word := Sub(word, DEC);
          }
          if pre == From(GE2D) {
            word := Sub(word, GE2D);
          }
        case GE2D =>
          holder := HoldGe2d;
          word := Add(word, GE2D);
          word := Sub(word, DEC);
        case VSINK =>
          holder := HoldVsink;
          word := Add(word, VSINK);
          if pre == From(VPP) {
            word := Sub(word, VPP);
          }
          if pre == From(DEC) {
            word := Sub(word, DEC);
          }
          if pre == From(GE2D) {
            word := Sub(word, GE2D);
          }
        case DI =>
          word := Add(word, DI);
      }
      assert holder == HolderGet(entries[k].holder, user) && word == DirectionGet(entries[k].word, user, pre);
      entries := entries[k := entries[k].(holder := holder, word := word)];
    }

    /** The branches of a PUT: a later branch overrides the holder an earlier one named. */
    method UpdateHolderPut(k: nat, user: Owner)
      requires k in entries
      modifies this`entries
      ensures var e := old(entries[k]);
              var w := DirectionPut(e.word, user);
              entries == old(entries)[k := e.(word := w, holder := HolderPut(e.holder, w, user))]
    {
      hide Sub, Nibble;
      var holder, word := entries[k].holder, entries[k].word;
      match user {
        case DEC =>
          if Nibble(word, DEC) != 0 {
            word := Sub(word, DEC);
          }
          if Nibble(word, GE2D) != 0 {
            holder := HoldGe2d;
          }
          if Nibble(word, VPP) != 0 {
            holder := HoldVpp;
          }
          if Nibble(word, VSINK) != 0 {
            holder := HoldVsink;
          }
        case VPP =>
          word := Sub(word, VPP);
          if Nibble(word, VPP) != 0 {
            holder := HoldVpp;
          } else {
            if Nibble(word, GE2D) != 0 {
              holder := HoldGe2d;
            }
            if Nibble(word, DEC) != 0 {
              holder := HoldDec;
            }
          }
        case GE2D =>
          word := Sub(word, GE2D);
          if Nibble(word, GE2D) != 0 {
            holder := HoldGe2d;
          } else {
            holder := HoldDec;
          }
        case VSINK =>
          word := Sub(word, VSINK);
          if Nibble(word, DEC) != 0 {
            holder := HoldDec;
          }
          if Nibble(word, VSINK) != 0 {
            holder := HoldVsink;
          } else if Nibble(word, DI) != 0 {
            holder := HoldDi;
          }
        case DI =>
          word := Sub(word, DI);
      }
      assert word == DirectionPut(entries[k].word, user) && holder == HolderPut(entries[k].holder, word, user);
      entries := entries[k := entries[k].(holder := holder, word := word)];
    }

    method GetReference(k: nat)
      requires k in entries
      modifies this
      ensures Model() == GetRef(old(Model()), k)
    {
      if state != MgrActive {
        return;
      }
      entries := entries[k := entries[k].(state := REF, ref := entries[k].ref + 1)];
      UpdateHolderGet(k, DEC, NoSource);
    }

    method GiveBack(k: nat, user: Owner)
      requires k in entries
      modifies this
      ensures Model() == Drop(old(Model()), k, user)
    {
      hide DirectionPut, HolderPut;
      entries := entries[k := entries[k].(ref := entries[k].ref - 1)];
      if entries[k].ref == 0 {
        FreeQueue(k);
      } else {
        entries := entries[k := entries[k].(state := REF)];
        UpdateHolderPut(k, user);
      }
    }

    method PutReference(k: nat)
      requires k in entries
      modifies this
      ensures Model() == PutRef(old(Model()), k)
    {
      if entries[k].ref == 0 && state != MgrActive {
        return;
      }
      GiveBack(k, DEC);
    }

    /** submitted is what handing the buffer on returns; an inactive manager answers zero
        without doing anything. */
    method FrameDone(k: nat, toDi: bool, submitted: int) returns (ret: int)
      requires k in entries
      modifies this
      ensures Model() == Done(old(Model()), k, toDi)
      ensures ret == if old(state) != MgrActive then 0
                     else if old(entries[k].state) in {USE, REF, DONE} then submitted else -1
      ensures old(state) == MgrActive && old(entries[k].state) in {USE, REF, DONE} ==> entries[k].state == DONE
    {
      hide DirectionGet, HolderGet;
      if state != MgrActive {
        return 0;
      }
      if entries[k].state != USE && entries[k].state != REF && entries[k].state != DONE {
        return -1;
      }
      entries := entries[k := entries[k].(state := DONE)];
      if toDi {
        entries := entries[k := entries[k].(ref := entries[k].ref + 1)];
        UpdateHolderGet(k, DI, NoSource);
      }
      ret := submitted;
    }

    method FillBuffer(k: nat, user: Owner, inDi: bool)
      requires k in entries
      modifies this
      ensures Model() == Fill(old(Model()), k, user, inDi)
    {
      if state != MgrActive {
        return;
      }
      if user == VSINK && inDi {
        if !entries[k].inited {
          return;
        }
      }
      if entries[k].state != INIT && entries[k].state != DONE && entries[k].state != REF {
        return;
      }
      GiveBack(k, user);
    }

    method ResetAll()
      modifies this
      ensures Model() == Reset(old(Model()))
    {
      freeQ := [];
      var left := entries.Keys;
      while left != {}
        invariant left <= entries.Keys == old(entries.Keys)
        invariant forall k :: k in entries ==>
                    entries[k] == if k in left then old(entries[k]) else Restarted(old(entries[k]))
        invariant freeQ == [] && unchanged(`state) && unchanged(`coreRef)
      {
        var k :| k in left;
        entries := entries[k := entries[k].(user := NoSource, state := INIT, inited := false, ref := 1)];
        left := left - {k};
      }
      freeNum := 0;
      assert entries == Reset(old(Model())).entries;
    }

    method AttachBuffer(k: nat, memory: bool) returns (ok: bool)
      modifies this
      ensures Model() == Attach(old(Model()), k, memory)
      ensures ok <==> k in entries
    {
      if k in entries {
        entries := entries[k := entries[k].(user := NoSource, state := INIT)];
        return true;
      }
      if !memory {
        return false;
      }
      entries := entries[k := Entry(1, INIT, NoSource, HoldDec, 0, false)];
      state := MgrActive;
      coreRef := coreRef + 1;
      ok := true;
    }

    method DetachBuffer(k: nat)
      modifies this
      ensures Model() == Detach(old(Model()), k)
    {
      if k in entries {
        entries := entries - {k};
        coreRef := coreRef - 1;
        if coreRef == 0 {
          freeQ, freeNum, state := [], 0, MgrExit;
        }
      }
    }
  }
}
