/** The task chain of one buffer: processing stages attached sink first, with two
    direction maps that say which stage comes next and which came before. */
module TaskChain {

  const TASK_TYPE_DEC := 0
  const TASK_TYPE_VPP := 1
  const TASK_TYPE_GE2D := 2
  const TASK_TYPE_V4L_SINK := 4
  const TASK_TYPE_MAX := 5

  /** A stage type, and a stage type or "none". */
  type TaskType = t: nat | t < TASK_TYPE_MAX
  type TaskSlot = t: nat | t <= TASK_TYPE_MAX

  /** An attached stage; its count is one for the chain itself until the chain is
      cleaned, plus one for each look-up still holding it. */
  datatype Item = Item(ty: TaskType, ref: int)

  /** next is the submit map, pre the recycle map; both keep whatever earlier uses of
      the chain left in them. */
  datatype Chain = Chain(items: seq<Item>, next: seq<TaskSlot>, pre: seq<TaskSlot>, cur: TaskSlot, kref: int)

  predicate Sized(c: Chain) {
    |c.next| == 8 && |c.pre| == 8
  }

  // ----- look-up

  function Find(items: seq<Item>, ty: nat): (k: nat)
    ensures k <= |items|
    ensures k < |items| ==> items[k].ty == ty
    ensures forall i :: 0 <= i < k ==> items[i].ty != ty
  {
    if items == [] || items[0].ty == ty then 0 else 1 + Find(items[1..], ty)
  }

  predicate Has(c: Chain, ty: nat) {
    Find(c.items, ty) < |c.items|
  }

  /** The stage after (before) ty on the given map, none when either is not attached. */
  function UserOf(c: Chain, map_: seq<TaskSlot>, ty: TaskType): TaskSlot
    requires |map_| == 8
  {
    if Has(c, ty) && Has(c, map_[ty]) then map_[ty] else TASK_TYPE_MAX
  }

  function NextUser(c: Chain, ty: TaskType): TaskSlot
    requires Sized(c)
  {
    UserOf(c, c.next, ty)
  }

  function PreUser(c: Chain, ty: TaskType): TaskSlot
    requires Sized(c)
  {
    UserOf(c, c.pre, ty)
  }

  /** The item with one more reference. */
  function Retained(i: Item): Item {
    i.(ref := i.ref + 1)
  }

  // ----- attach and clean

  function Attach(c: Chain, ty: TaskType): (d: Chain)
    requires Sized(c)
    ensures Sized(d)
  {
    Chain([Item(ty, 1)] + c.items, c.next[ty := c.cur], c.pre[c.cur := ty], ty, c.kref + 1)
  }

  function AttachAll(c: Chain, types: seq<TaskType>): (d: Chain)
    requires Sized(c)
    ensures Sized(d)
    decreases |types|
  {
    if types == [] then c else AttachAll(Attach(c, types[0]), types[1..])
  }

  /** Drops one reference of the k-th item; the last one unlinks it. */
  function Dropped(items: seq<Item>, k: nat): seq<Item>
    requires k < |items|
  {
    if items[k].ref == 1 then items[..k] + items[k + 1..]
    else items[k := items[k].(ref := items[k].ref - 1)]
  }

  lemma RetainedDropped(items: seq<Item>, k: nat)
    requires k < |items| && items[k].ref >= 1
    ensures Dropped(items[k := Retained(items[k])], k) == items
  {
  }

  function PutItem(c: Chain, k: nat): Chain
    requires k < |c.items|
  {
    c.(items := Dropped(c.items, k), kref := if c.items[k].ref == 1 then c.kref - 1 else c.kref)
  }

  /** Drops the chain's own reference of every item from the k-th on; the maps and the
      current type stay as they are. */
  function CleanFrom(c: Chain, k: nat): (d: Chain)
    requires k <= |c.items|
    ensures d.next == c.next && d.pre == c.pre && d.cur == c.cur
    decreases |c.items| - k
  {
    if k == |c.items| then c
    else if c.items[k].ref == 1 then CleanFrom(PutItem(c, k), k)
    else CleanFrom(PutItem(c, k), k + 1)
  }

  function Clean(c: Chain): Chain {
    CleanFrom(c, 0)
  }

  /** An idle chain (no look-up in flight) comes out of a clean with no items. */
  lemma {:induction false} CleanEmpties(c: Chain)
    requires forall i :: 0 <= i < |c.items| ==> c.items[i].ref == 1
    ensures Clean(c) == c.(items := [], kref := c.kref - |c.items|)
    decreases |c.items|
  {
    if c.items != [] {
      var d := PutItem(c, 0);
      assert d.items == c.items[1..];
      CleanEmpties(d);
    }
  }

  // ----- what attaching a list builds, whatever was left behind

  predicate Distinct(types: seq<TaskType>) {
    forall i, j :: 0 <= i < j < |types| ==> types[i] != types[j]
  }

  /** The items after attaching the first k of the listed types, sink first. */
  ghost predicate BuiltItems(c: Chain, d: Chain, types: seq<TaskType>, k: nat)
    requires k <= |types|
  {
    && |d.items| == |c.items| + k
    && d.kref == c.kref + k
    && d.items[k..] == c.items
    && (forall i :: 0 <= i < k ==> d.items[k - 1 - i] == Item(types[i], 1))
  }

  /** The maps then; the recycle map outside the listed types is as the first attach
      left it. */
  ghost predicate BuiltMaps(c: Chain, d: Chain, types: seq<TaskType>, k: nat)
    requires Sized(c) && Sized(d) && k <= |types|
  {
    && (k == 0 ==> d == c)
    && (k > 0 ==> d.cur == types[k - 1] && d.next[types[0]] == c.cur)
    && (forall i :: 1 <= i < k ==> d.next[types[i]] == types[i - 1] && d.pre[types[i - 1]] == types[i])
    && (k > 0 ==> forall t: nat :: t < 8 && t !in types[..k - 1] ==>
                    d.pre[t] == if t == c.cur then types[0] else c.pre[t])
  }

  lemma BuiltItemsOne(c: Chain, d: Chain, types: seq<TaskType>, k: nat)
    requires Sized(d) && k < |types| && BuiltItems(c, d, types, k)
    ensures BuiltItems(c, Attach(d, types[k]), types, k + 1)
  {
    var e := Attach(d, types[k]);
    forall i | 0 <= i < k + 1
      ensures e.items[k + 1 - 1 - i] == Item(types[i], 1)
    {
      if i < k {
        assert e.items[k - i] == d.items[k - 1 - i];
      }
    }
    assert e.items[k + 1..] == d.items[k..];
  }

  lemma BuiltMapsOne(c: Chain, d: Chain, types: seq<TaskType>, k: nat)
    requires Sized(c) && Sized(d) && Distinct(types) && k < |types| && BuiltMaps(c, d, types, k)
    ensures BuiltMaps(c, Attach(d, types[k]), types, k + 1)
  {
    var e := Attach(d, types[k]);
    if k > 0 {
      assert e.next == d.next[types[k] := types[k - 1]] && e.pre == d.pre[types[k - 1] := types[k]];
      forall i | 1 <= i < k + 1
        ensures e.next[types[i]] == types[i - 1] && e.pre[types[i - 1]] == types[i]
      {
        assert i < k ==> types[i] != types[k] && types[i - 1] != types[k - 1];
      }
      assert types[..k] == types[..k - 1] + [types[k - 1]];
      forall t: nat | t < 8 && t !in types[..k]
        ensures e.pre[t] == if t == c.cur then types[0] else c.pre[t]
      {
        assert t !in types[..k - 1];
      }
      assert types[0] != types[k];
    }
  }

  lemma {:induction false} AttachAllSnoc(c: Chain, types: seq<TaskType>, ty: TaskType)
    requires Sized(c)
    ensures AttachAll(c, types + [ty]) == Attach(AttachAll(c, types), ty)
    decreases |types|
  {
    if types == [] {
      assert [ty][1..] == [];
    } else {
      assert (types + [ty])[1..] == types[1..] + [ty];
      AttachAllSnoc(Attach(c, types[0]), types[1..], ty);
    }
  }

  lemma {:induction false} AttachPrefix(c: Chain, types: seq<TaskType>, k: nat)
    requires Sized(c) && Distinct(types) && k <= |types|
    ensures BuiltItems(c, AttachAll(c, types[..k]), types, k)
    ensures BuiltMaps(c, AttachAll(c, types[..k]), types, k)
  {
    hide BuiltItems, BuiltMaps, Attach;
    if k == 0 {
      BuiltNone(c, types);
    } else {
      AttachPrefix(c, types, k - 1);
      assert types[..k] == types[..k - 1] + [types[k - 1]];
      AttachAllSnoc(c, types[..k - 1], types[k - 1]);
      var d := AttachAll(c, types[..k - 1]);
      BuiltItemsOne(c, d, types, k - 1);
      BuiltMapsOne(c, d, types, k - 1);
    }
  }

  lemma BuiltNone(c: Chain, types: seq<TaskType>)
    requires Sized(c)
    ensures BuiltItems(c, c, types, 0) && BuiltMaps(c, c, types, 0)
  {
  }

  lemma AttachWhole(c: Chain, types: seq<TaskType>)
    requires Sized(c) && Distinct(types)
    ensures BuiltItems(c, AttachAll(c, types), types, |types|)
    ensures BuiltMaps(c, AttachAll(c, types), types, |types|)
  {
    hide BuiltItems, BuiltMaps, AttachAll;
    AttachPrefix(c, types, |types|);
    assert types[..|types|] == types;
  }

  lemma HasIff(c: Chain, ty: nat)
    ensures Has(c, ty) <==> exists i :: 0 <= i < |c.items| && c.items[i].ty == ty
  {
  }

  lemma AttachedTypes(c: Chain, types: seq<TaskType>)
    requires Sized(c) && Distinct(types) && c.items == []
    ensures forall ty: nat :: Has(AttachAll(c, types), ty) <==> ty in types
  {
    var n := |types|;
    AttachWhole(c, types);
    var d := AttachAll(c, types);
    forall ty: nat
      ensures Has(d, ty) <==> ty in types
    {
      HasIff(d, ty);
      if ty in types {
        var i :| 0 <= i < n && types[i] == ty;
        assert d.items[n - 1 - i].ty == ty;
      }
      if Has(d, ty) {
        var j :| 0 <= j < n && d.items[j].ty == ty;
        assert d.items[n - 1 - (n - 1 - j)] == Item(types[n - 1 - j], 1);
      }
    }
  }

  /** Attaching pairwise distinct types to an emptied chain, whatever stale maps and
      current type it carries, links neighbours both ways: each stage's next user is
      the one attached before it, and pre-user undoes next-user. */
  lemma NeighboursLinked(c: Chain, types: seq<TaskType>, i: nat)
    requires Sized(c) && c.items == [] && Distinct(types) && 0 < i < |types|
    ensures var d := AttachAll(c, types);
            NextUser(d, types[i]) == types[i - 1] && PreUser(d, types[i - 1]) == types[i]
  {
    AttachWhole(c, types);
    AttachedTypes(c, types);
    hide AttachAll;
  }

  /** Walking the submit map n times from ty. */
  function Walk(c: Chain, ty: TaskSlot, n: nat): TaskSlot
    requires Sized(c)
    decreases n
  {
    if n == 0 || ty == TASK_TYPE_MAX then ty else Walk(c, NextUser(c, ty), n - 1)
  }

  /** Repeated next-user from the last attached stage visits the list in order. */
  lemma {:induction false} WalkInOrder(c: Chain, types: seq<TaskType>, i: nat, n: nat)
    requires Sized(c) && c.items == [] && Distinct(types) && n <= i < |types|
    ensures Walk(AttachAll(c, types), types[i], n) == types[i - n]
    decreases n
  {
    hide AttachAll, NextUser, PreUser;
    if n != 0 {
      NeighboursLinked(c, types, i);
      WalkInOrder(c, types, i - 1, n - 1);
    }
  }

  /** Cleaning leaves the current type behind, so the end of the new list is the end of
      the walk exactly when that stale type is not attached again. */
  lemma WalkEndsIff(c: Chain, types: seq<TaskType>)
    requires Sized(c) && c.items == [] && Distinct(types) && types != []
    ensures NextUser(AttachAll(c, types), types[0]) == TASK_TYPE_MAX <==> c.cur !in types
  {
    AttachWhole(c, types);
    AttachedTypes(c, types);
    hide AttachAll;
  }

  /** The same for the other end: who is reported before the last attached stage. */
  lemma HeadHasNoPreIff(c: Chain, types: seq<TaskType>)
    requires Sized(c) && c.items == [] && Distinct(types) && types != []
    ensures var last := types[|types| - 1];
            PreUser(AttachAll(c, types), last) == TASK_TYPE_MAX <==> c.cur != last && c.pre[last] !in types
  {
    AttachWhole(c, types);
    AttachedTypes(c, types);
    hide AttachAll;
  }

  function NewChain(): (c: Chain)
    ensures Sized(c)
  {
    Chain([], seq(8, _ => 0), seq(8, _ => 0), TASK_TYPE_MAX, 1)
  }

  /** A chain never used before, in numbers: nobody (5) comes after the stage attached first;
      before the one attached last its cleared map names the decoder (0), when attached. */
  lemma FreshEnds(types: seq<TaskType>)
    requires Distinct(types) && types != []
    ensures var d := AttachAll(NewChain(), types);
            && NextUser(d, types[0]) == 5
            && PreUser(d, types[|types| - 1]) == if 0 in types then 0 else 5
    ensures CountsOk(Tracked(NewChain(), []))
  {
    AttachWhole(NewChain(), types);
    AttachedTypes(NewChain(), types);
    hide AttachAll;
  }

  /** The stages of a decoder that feeds the sink directly. */
  const DIRECT_LINE: seq<TaskType> := [TASK_TYPE_V4L_SINK, TASK_TYPE_DEC]

  /** A chain used for them and reused for the same stages runs in a circle: the sink's
      next user is the decoder. */
  lemma ReuseMakesACircle()
    ensures var d := AttachAll(Clean(AttachAll(NewChain(), DIRECT_LINE)), DIRECT_LINE);
            && NextUser(d, TASK_TYPE_V4L_SINK) == TASK_TYPE_DEC
            && NextUser(d, TASK_TYPE_DEC) == TASK_TYPE_V4L_SINK
  {
    var types := DIRECT_LINE;
    var c := AttachAll(NewChain(), types);
    AttachWhole(NewChain(), types);
    forall j | 0 <= j < |c.items|
      ensures c.items[j].ref == 1
    {
      assert c.items[2 - 1 - (1 - j)] == Item(types[1 - j], 1);
    }
    CleanEmpties(c);
    var e := Clean(c);
    NeighboursLinked(e, types, 1);
    WalkEndsIff(e, types);
    assert types[1] in types;
    AttachWhole(e, types);
  }

  // ----- reference counts over runs

  datatype Op = OpAttach(ty: TaskType) | OpLookUp(ty: TaskType) | OpRelease(k: nat) | OpClean

  /** base tells whether the chain's own reference is still there; holders counts the
      look-ups in flight. */
  datatype Account = Account(base: bool, holders: nat)

  datatype Tracked = Tracked(c: Chain, book: seq<Account>)

  predicate LegalOp(t: Tracked, op: Op)
    requires |t.book| == |t.c.items| && Sized(t.c)
  {
    match op
    case OpAttach(_) => true
    case OpLookUp(_) => true
    case OpRelease(k) => k < |t.book| && t.book[k].holders > 0
    case OpClean => forall i :: 0 <= i < |t.book| ==> t.book[i].base
  }

  /** Items and accounts move together: an item goes when its account is empty. */
  function Settle(items: seq<Item>, book: seq<Account>): (seq<Item>, seq<Account>)
    requires |book| == |items|
  {
    if items == [] then ([], [])
    else
      var (i, b) := Settle(items[1..], book[1..]);
      if items[0].ref == 1 then (i, b)
      else ([items[0].(ref := items[0].ref - 1)] + i, [book[0].(base := false)] + b)
  }

  function ApplyOp(t: Tracked, op: Op): Tracked
    requires |t.book| == |t.c.items| && Sized(t.c) && LegalOp(t, op)
  {
    match op
    case OpAttach(ty) => Tracked(Attach(t.c, ty), [Account(true, 0)] + t.book)
    case OpLookUp(ty) =>
      var k := Find(t.c.items, ty);
      if k == |t.c.items| then t
      else Tracked(t.c.(items := t.c.items[k := Retained(t.c.items[k])]),
                   t.book[k := t.book[k].(holders := t.book[k].holders + 1)])
    case OpRelease(k) =>
      var a := t.book[k].(holders := t.book[k].holders - 1);
      Tracked(PutItem(t.c, k),
              if t.c.items[k].ref == 1 then t.book[..k] + t.book[k + 1..] else t.book[k := a])
    case OpClean => Tracked(Clean(t.c), Settle(t.c.items, t.book).1)
  }

  predicate CountsOk(t: Tracked) {
    && Sized(t.c)
    && |t.book| == |t.c.items|
    && t.c.kref == 1 + |t.c.items|
    && forall i :: 0 <= i < |t.book| ==>
         t.c.items[i].ref == t.book[i].holders + (if t.book[i].base then 1 else 0) && t.c.items[i].ref >= 1
  }

  /** A clean settles every account in one sweep. */
  lemma {:induction false} CleanSettles(c: Chain, book: seq<Account>, k: nat)
    requires k <= |c.items| && |book| == |c.items| - k
    ensures var (i, b) := Settle(c.items[k..], book);
            CleanFrom(c, k) == c.(items := c.items[..k] + i, kref := c.kref - (|c.items| - k - |i|)) && |b| == |i|
    decreases |c.items| - k
  {
    if k == |c.items| {
      assert c.items[..k] + [] == c.items;
    } else {
      var d := PutItem(c, k);
      assert c.items[k..][1..] == c.items[k + 1..];
      if c.items[k].ref == 1 {
        assert d.items[k..] == c.items[k + 1..];
        assert d.items[..k] == c.items[..k];
        CleanSettles(d, book[1..], k);
      } else {
        assert d.items[k + 1..] == c.items[k + 1..];
        assert d.items[..k + 1] == c.items[..k] + [d.items[k]];
        CleanSettles(d, book[1..], k + 1);
        var (i, b) := Settle(c.items[k + 1..], book[1..]);
        assert d.items[..k + 1] + i == c.items[..k] + ([d.items[k]] + i);
      }
    }
  }

  lemma {:induction false} SettleOk(items: seq<Item>, book: seq<Account>)
    requires |book| == |items|
    requires forall i :: 0 <= i < |book| ==> book[i].base && items[i].ref == book[i].holders + 1
    ensures var (i, b) := Settle(items, book);
            |b| == |i| <= |items| &&
            forall j :: 0 <= j < |i| ==> !b[j].base && i[j].ref == b[j].holders >= 1
  {
    if items != [] {
      SettleOk(items[1..], book[1..]);
    }
  }

  lemma LookUpKeepsCounts(t: Tracked, op: Op)
    requires CountsOk(t) && op.OpLookUp?
    ensures CountsOk(ApplyOp(t, op))
  {
  }

  lemma ReleaseKeepsCounts(t: Tracked, op: Op)
    requires CountsOk(t) && LegalOp(t, op) && op.OpRelease?
    ensures CountsOk(ApplyOp(t, op))
  {
    var u, k := ApplyOp(t, op), op.k;
    if t.c.items[k].ref == 1 {
      forall i | 0 <= i < |u.book|
        ensures u.c.items[i].ref == u.book[i].holders + (if u.book[i].base then 1 else 0) >= 1
      {
        var j := if i < k then i else i + 1;
        assert u.c.items[i] == t.c.items[j] && u.book[i] == t.book[j];
      }
    }
  }

  lemma CleanKeepsCounts(t: Tracked, op: Op)
    requires CountsOk(t) && LegalOp(t, op) && op.OpClean?
    ensures CountsOk(ApplyOp(t, op))
  {
    assert t.c.items[0..] == t.c.items && t.c.items[..0] == [];
    CleanSettles(t.c, t.book, 0);
    SettleOk(t.c.items, t.book);
    var (i, b) := Settle(t.c.items, t.book);
    assert [] + i == i;
  }

  lemma OpKeepsCounts(t: Tracked, op: Op)
    requires CountsOk(t) && LegalOp(t, op)
    ensures CountsOk(ApplyOp(t, op))
  {
    match op
    case OpAttach(_) =>
    case OpLookUp(_) => LookUpKeepsCounts(t, op);
    case OpRelease(_) => ReleaseKeepsCounts(t, op);
    case OpClean => CleanKeepsCounts(t, op);
  }

  predicate LegalOps(t: Tracked, ops: seq<Op>)
    requires CountsOk(t)
    decreases |ops|
  {
    ops == [] || (LegalOp(t, ops[0]) && (OpKeepsCounts(t, ops[0]); LegalOps(ApplyOp(t, ops[0]), ops[1..])))
  }

  function RunOps(t: Tracked, ops: seq<Op>): Tracked
    requires CountsOk(t) && LegalOps(t, ops)
    decreases |ops|
  {
    if ops == [] then t
    else
      OpKeepsCounts(t, ops[0]);
      RunOps(ApplyOp(t, ops[0]), ops[1..])
  }

  /** Over any run of attach, look-up, release and clean, the chain's count is one plus
      its live items, and no live item's count has dropped to zero. */
  lemma {:induction false} RunKeepsCounts(t: Tracked, ops: seq<Op>)
    requires CountsOk(t) && LegalOps(t, ops)
    ensures CountsOk(RunOps(t, ops))
    decreases |ops|
  {
    if ops != [] {
      OpKeepsCounts(t, ops[0]);
      RunKeepsCounts(ApplyOp(t, ops[0]), ops[1..]);
    }
  }

  // ----- the chain as the driver keeps it

  class TaskChainObject {
    var items: seq<Item>
    const map_: array2<TaskSlot>
    var curType: TaskSlot
    var kref: int

    ghost predicate Valid()
      reads this
    {
      map_.Length0 == 2 && map_.Length1 == 8
    }

    ghost function Model(): (c: Chain)
      requires Valid()
      reads this, map_
      ensures Sized(c)
    {
      Chain(items, seq(8, i requires 0 <= i < 8 reads this, map_ => map_[0, i]),
            seq(8, i requires 0 <= i < 8 reads this, map_ => map_[1, i]), curType, kref)
    }

    constructor ()
      ensures Valid() && Model() == NewChain() && fresh(map_)
    {
      items := [];
      map_ := new TaskSlot[2, 8]((_, _) => 0);
      curType := TASK_TYPE_MAX;
      kref := 1;
    }

    method OrderAttach(ty: TaskType)
      requires Valid()
      modifies this, map_
      ensures Valid() && Model() == Attach(old(Model()), ty)
    {
      ghost var was := Model();
      map_[0, ty] := curType;
      map_[1, curType] := ty;
      curType := ty;
      kref := kref + 1;
      items := [Item(ty, 1)] + items;
      assert Model().next == was.next[ty := was.cur];
      assert Model().pre == was.pre[was.cur := ty];
    }

    /** First attached item of the type, taking a reference on it. */
    method FindItem(ty: nat) returns (k: nat)
      requires Valid()
      modifies this`items
      ensures Valid() && k == Find(old(items), ty)
      ensures k == |old(items)| ==> items == old(items)
      ensures k < |old(items)| ==> items == old(items)[k := Retained(old(items)[k])]
    {
      k := 0;
      while k < |items| && items[k].ty != ty
        invariant k <= |items|
        invariant Find(items, ty) == k + Find(items[k..], ty)
      {
        assert items[k..][1..] == items[k + 1..];
        k := k + 1;
      }
      if k < |items| {
        items := items[k := Retained(items[k])];
      }
    }

    method ItemPut(k: nat)
      requires Valid() && k < |items|
      modifies this`items, this`kref
      ensures items == Dropped(old(items), k) && kref == if old(items)[k].ref == 1 then old(kref) - 1 else old(kref)
      ensures Valid() && Model() == PutItem(old(Model()), k)
    {
      var r := items[k].ref - 1;
      if r == 0 {
        items := items[..k] + items[k + 1..];
        kref := kref - 1;
      } else {
        items := items[k := items[k].(ref := r)];
      }
    }

    /** The neighbour of ty on one of the two maps; every reference taken on the way is
        given back. */
    method GetUser(dir: nat, ty: TaskType) returns (user: TaskSlot)
      requires Valid() && dir < 2
      requires forall i :: 0 <= i < |items| ==> items[i].ref >= 1
      modifies this`items, this`kref
      ensures Valid() && items == old(items) && kref == old(kref)
      ensures user ==
              if Find(items, ty) < |items| && Find(items, map_[dir, ty]) < |items| then map_[dir, ty]
              else TASK_TYPE_MAX
    {
      hide Find, Dropped, Model;
      user := TASK_TYPE_MAX;
      var k := FindItem(ty);
      if k < |items| {
        ghost var held := items;
        RetainedDropped(old(items), k);
        SameTypes(old(items), held, map_[dir, ty]);
        var k2 := FindItem(map_[dir, ty]);
        if k2 < |items| {
          user := map_[dir, ty];
          RetainedDropped(held, k2);
          ItemPut(k2);
        }
        ItemPut(k);
      }
    }

    method GetNextUser(ty: TaskType) returns (user: TaskSlot)
      requires Valid()
      requires forall i :: 0 <= i < |items| ==> items[i].ref >= 1
      modifies this`items, this`kref
      ensures Valid() && Model() == old(Model())
      ensures user == NextUser(old(Model()), ty)
    {
      user := GetUser(0, ty);
    }

    method GetPreUser(ty: TaskType) returns (user: TaskSlot)
      requires Valid()
      requires forall i :: 0 <= i < |items| ==> items[i].ref >= 1
      modifies this`items, this`kref
      ensures Valid() && Model() == old(Model())
      ensures user == PreUser(old(Model()), ty)
    {
      user := GetUser(1, ty);
    }

    method CleanAll()
      requires Valid() && forall i :: 0 <= i < |items| ==> items[i].ref >= 1
      modifies this`items, this`kref
      ensures Valid() && Model() == Clean(old(Model()))
    {
      var k := 0;
      while k < |items|
        invariant k <= |items|
        invariant Model().next == old(Model()).next && Model().pre == old(Model()).pre
        invariant CleanFrom(Model(), k) == Clean(old(Model()))
        decreases |items| - k
      {
        var last := items[k].ref == 1;
        ItemPut(k);
        if !last {
          k := k + 1;
        }
      }
    }
  }

  lemma {:induction false} SameTypes(a: seq<Item>, b: seq<Item>, ty: nat)
    requires |a| == |b| && forall i :: 0 <= i < |a| ==> a[i].ty == b[i].ty
    ensures Find(a, ty) == Find(b, ty)
  {
    if a != [] {
      SameTypes(a[1..], b[1..], ty);
    }
  }
}
