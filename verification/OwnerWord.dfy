/** The packed owner word of a capture buffer: one nibble per owner, counting the
    references that owner holds, updated by plain additions and subtractions. */
module OwnerWord {
  import opened Arithmetic

  datatype Owner = DEC | GE2D | VPP | VSINK | DI

  /** What the task chain reports as the predecessor; other users are not told apart. */
  datatype Source = From(owner: Owner) | NoSource

  datatype Holder = HoldDec | HoldGe2d | HoldVpp | HoldVsink | HoldDi | HoldFree

  function Unit(o: Owner): nat {
    match o
    case DEC => 0x1
    case GE2D => 0x10
    case VPP => 0x100
    case VSINK => 0x1000
    case DI => 0x1_0000
  }

  function Nibble(w: nat, o: Owner): nat {
    w / Unit(o) % 16
  }

  /** Unsigned 32-bit addition and subtraction. */
  function Add(w: nat, o: Owner): nat {
    (w + Unit(o)) % W32
  }

  function Sub(w: nat, o: Owner): nat {
    (w - Unit(o)) % W32
  }

  /** A GET: the user's nibble goes up, the predecessor's goes down; the converter
      always takes its reference from the decoder. */
  function DirectionGet(w: nat, user: Owner, pre: Source): nat {
    match user
    case DEC => Add(w, DEC)
    case VPP =>
      if pre == From(DEC) then Sub(Add(w, VPP), DEC)
      else if pre == From(GE2D) then Sub(Add(w, VPP), GE2D)
      else Add(w, VPP)
    case GE2D => Sub(Add(w, GE2D), DEC)
    case VSINK =>
      if pre == From(VPP) then Sub(Add(w, VSINK), VPP)
      else if pre == From(DEC) then Sub(Add(w, VSINK), DEC)
      else if pre == From(GE2D) then Sub(Add(w, VSINK), GE2D)
      else Add(w, VSINK)
    case DI => Add(w, DI)
  }

  function HolderOf(o: Owner): Holder {
    match o
    case DEC => HoldDec
    case GE2D => HoldGe2d
    case VPP => HoldVpp
    case VSINK => HoldVsink
    case DI => HoldDi
  }

  function HolderGet(h: Holder, user: Owner): Holder {
    if user == DI then h else HolderOf(user)
  }

  /** A PUT: only the decoder checks that it has something to give back. */
  function DirectionPut(w: nat, user: Owner): nat {
    if user == DEC && Nibble(w, DEC) == 0 then w else Sub(w, user)
  }

  /** Who is named holder after a PUT that left the word w. */
  function HolderPut(h: Holder, w: nat, user: Owner): Holder {
    match user
    case DEC =>
      if Nibble(w, VSINK) != 0 then HoldVsink
      else if Nibble(w, VPP) != 0 then HoldVpp
      else if Nibble(w, GE2D) != 0 then HoldGe2d
      else h
    case VPP =>
      if Nibble(w, VPP) != 0 then HoldVpp
      else if Nibble(w, DEC) != 0 then HoldDec
      else if Nibble(w, GE2D) != 0 then HoldGe2d
      else h
    case GE2D => if Nibble(w, GE2D) != 0 then HoldGe2d else HoldDec
    case VSINK =>
      if Nibble(w, VSINK) != 0 then HoldVsink
      else if Nibble(w, DI) != 0 then HoldDi
      else if Nibble(w, DEC) != 0 then HoldDec
      else h
    case DI => h
  }

  // ----- the references the word stands for

  /** How many references each owner holds. */
  datatype Tokens = Tokens(dec: int, ge2d: int, vpp: int, vsink: int, di: int)

  const NONE := Tokens(0, 0, 0, 0, 0)

  function Of(t: Tokens, o: Owner): int {
    match o
    case DEC => t.dec
    case GE2D => t.ge2d
    case VPP => t.vpp
    case VSINK => t.vsink
    case DI => t.di
  }

  function Give(t: Tokens, o: Owner, d: int): Tokens {
    match o
    case DEC => t.(dec := t.dec + d)
    case GE2D => t.(ge2d := t.ge2d + d)
    case VPP => t.(vpp := t.vpp + d)
    case VSINK => t.(vsink := t.vsink + d)
    case DI => t.(di := t.di + d)
  }

  function Sum(t: Tokens): int {
    t.dec + t.ge2d + t.vpp + t.vsink + t.di
  }

  predicate InRange(t: Tokens) {
    0 <= t.dec < 16 && 0 <= t.ge2d < 16 && 0 <= t.vpp < 16 && 0 <= t.vsink < 16 && 0 <= t.di < 16
  }

  function Pack(t: Tokens): int {
    t.dec + 0x10 * t.ge2d + 0x100 * t.vpp + 0x1000 * t.vsink + 0x1_0000 * t.di
  }

  /** The word shows exactly these counts. */
  predicate Shows(w: nat, t: Tokens) {
    InRange(t) && w == Pack(t)
  }

  /** A nibble is what stands between the counts below it and the counts above. */
  lemma NibbleAt(w: nat, o: Owner, low: int, d: int, high: int)
    requires 0 <= low < Unit(o) && 0 <= d < 16
    requires w == low + Unit(o) * (d + 16 * high)
    ensures Nibble(w, o) == d
  {
    hide Unit;
    Quotient(w, o, d + 16 * high);
  }

  lemma Quotient(w: nat, o: Owner, v: int)
    requires Unit(o) * v <= w < Unit(o) * v + Unit(o)
    ensures w / Unit(o) == v
  {
    match o {
      case DEC =>
      case GE2D =>
      case VPP =>
      case VSINK =>
      case DI =>
    }
  }

  lemma NibbleOf(w: nat, t: Tokens, o: Owner)
    requires Shows(w, t)
    ensures Nibble(w, o) == Of(t, o)
  {
    hide Nibble;
    match o {
      case DEC => NibbleAt(w, DEC, 0, t.dec, t.ge2d + 0x10 * t.vpp + 0x100 * t.vsink + 0x1000 * t.di);
      case GE2D => NibbleAt(w, GE2D, t.dec, t.ge2d, t.vpp + 0x10 * t.vsink + 0x100 * t.di);
      case VPP => NibbleAt(w, VPP, t.dec + 0x10 * t.ge2d, t.vpp, t.vsink + 0x10 * t.di);
      case VSINK => NibbleAt(w, VSINK, t.dec + 0x10 * t.ge2d + 0x100 * t.vpp, t.vsink, t.di);
      case DI => NibbleAt(w, DI, t.dec + 0x10 * t.ge2d + 0x100 * t.vpp + 0x1000 * t.vsink, t.di, 0);
    }
  }

  /** A word that shows some counts shows them nibble by nibble, and nothing above. */
  lemma ShowsNibbles(w: nat, t: Tokens)
    requires Shows(w, t)
    ensures Nibble(w, DEC) == t.dec && Nibble(w, GE2D) == t.ge2d && Nibble(w, VPP) == t.vpp
    ensures Nibble(w, VSINK) == t.vsink && Nibble(w, DI) == t.di
    ensures w < 0x10_0000
  {
    hide Nibble;
    NibbleOf(w, t, DEC);
    NibbleOf(w, t, GE2D);
    NibbleOf(w, t, VPP);
    NibbleOf(w, t, VSINK);
    NibbleOf(w, t, DI);
  }

  /** A word shows one set of counts only. */
  lemma ShowsUnique(w: nat, t: Tokens, u: Tokens)
    requires Shows(w, t) && Shows(w, u)
    ensures t == u
  {
    hide Nibble, Pack;
    ShowsNibbles(w, t);
    ShowsNibbles(w, u);
  }

  /** Who loses a reference when the user gets one; nobody when it is a new one. */
  function Loser(user: Owner, pre: Source): Source {
    match user
    case VPP => if pre == From(DEC) || pre == From(GE2D) then pre else NoSource
    case GE2D => From(DEC)
    case VSINK => if pre == From(VPP) || pre == From(DEC) || pre == From(GE2D) then pre else NoSource
    case _ => NoSource
  }

  function TokensGet(t: Tokens, user: Owner, pre: Source): Tokens {
    var u := Give(t, user, 1);
    match Loser(user, pre)
    case From(o) => Give(u, o, -1)
    case NoSource => u
  }

  lemma PackBound(t: Tokens)
    requires InRange(t)
    ensures 0 <= Pack(t) < 0x10_0000
  {
  }

  lemma GivePack(t: Tokens, o: Owner, d: int)
    ensures Pack(Give(t, o, d)) == Pack(t) + d * Unit(o)
  {
    match o {
      case DEC =>
      case GE2D =>
      case VPP =>
      case VSINK =>
      case DI =>
    }
  }

  lemma AddShows(w: nat, t: Tokens, o: Owner)
    requires Shows(w, t) && Of(t, o) < 15
    ensures Shows(Add(w, o), Give(t, o, 1))
  {
    hide Pack;
    GivePack(t, o, 1);
    PackBound(t);
    PackBound(Give(t, o, 1));
  }

  lemma SubShows(w: nat, t: Tokens, o: Owner)
    requires Shows(w, t) && Of(t, o) > 0
    ensures Shows(Sub(w, o), Give(t, o, -1))
  {
    hide Pack;
    GivePack(t, o, -1);
    PackBound(t);
    PackBound(Give(t, o, -1));
  }

  /** A GET keeps word and counts in step, without a carry between nibbles, and adds a
      reference exactly when no predecessor gives one up. */
  lemma GetShows(w: nat, t: Tokens, user: Owner, pre: Source)
    requires Shows(w, t) && Of(t, user) < 15
    requires Loser(user, pre).From? ==> Of(t, Loser(user, pre).owner) > 0
    ensures Shows(DirectionGet(w, user, pre), TokensGet(t, user, pre))
    ensures Sum(TokensGet(t, user, pre)) == Sum(t) + if Loser(user, pre) == NoSource then 1 else 0
  {
    GetArithmetic(w, user, pre);
    GiveSum(t, user, 1);
    AddShows(w, t, user);
    if Loser(user, pre).From? {
      var o := Loser(user, pre).owner;
      GiveOther(t, user, o);
      GiveSum(Give(t, user, 1), o, -1);
      SubShows(Add(w, user), Give(t, user, 1), o);
    }
    hide Shows, DirectionGet, Give, Of, Sum, Add, Sub, Loser;
  }

  lemma GetArithmetic(w: nat, user: Owner, pre: Source)
    ensures Loser(user, pre) == NoSource ==> DirectionGet(w, user, pre) == Add(w, user)
    ensures Loser(user, pre).From? ==>
              DirectionGet(w, user, pre) == Sub(Add(w, user), Loser(user, pre).owner) && Loser(user, pre).owner != user
  {
    hide Add, Sub;
  }

  lemma GiveSum(t: Tokens, o: Owner, d: int)
    ensures Sum(Give(t, o, d)) == Sum(t) + d && Of(Give(t, o, d), o) == Of(t, o) + d
  {
    match o {
      case DEC =>
      case GE2D =>
      case VPP =>
      case VSINK =>
      case DI =>
    }
  }

  lemma GiveOther(t: Tokens, user: Owner, o: Owner)
    requires user != o
    ensures forall d: int :: Of(Give(t, user, d), o) == Of(t, o)
  {
  }

  lemma RangeOf(t: Tokens, o: Owner)
    requires InRange(t)
    ensures 0 <= Of(t, o) < 16
  {
  }

  /** Exactly then: word and counts part when the user's sixteenth reference carries, or
      when the predecessor has none to give. */
  lemma GetShowsIff(w: nat, t: Tokens, user: Owner, pre: Source)
    requires Shows(w, t)
    ensures Shows(DirectionGet(w, user, pre), TokensGet(t, user, pre)) <==>
              Of(t, user) < 15 && (Loser(user, pre).From? ==> Of(t, Loser(user, pre).owner) > 0)
  {
    GetArithmetic(w, user, pre);
    var lost := Loser(user, pre);
    var after := TokensGet(t, user, pre);
    GiveSum(t, user, 1);
    if lost.From? {
      GiveOther(t, user, lost.owner);
      GiveOther(Give(t, user, 1), lost.owner, user);
      GiveSum(Give(t, user, 1), lost.owner, -1);
    }
    hide Give, Of, Pack, InRange, DirectionGet, Loser;
    if Of(t, user) < 15 && (lost.From? ==> Of(t, lost.owner) > 0) {
      GetShows(w, t, user, pre);
    } else if InRange(after) {
      RangeOf(after, user);
      if lost.From? {
        RangeOf(after, lost.owner);
      }
    }
  }

  /** A PUT by an owner that holds a reference keeps them in step. */
  lemma PutShows(w: nat, t: Tokens, user: Owner)
    requires Shows(w, t) && Of(t, user) > 0
    ensures Shows(DirectionPut(w, user), Give(t, user, -1))
    ensures Sum(Give(t, user, -1)) == Sum(t) - 1
  {
    NibbleOf(w, t, user);
    SubShows(w, t, user);
    GiveSum(t, user, -1);
    hide Shows, Give, Of, Sum, Sub, Nibble;
  }

  /** Exactly then. */
  lemma PutShowsIff(w: nat, t: Tokens, user: Owner)
    requires Shows(w, t)
    ensures Shows(DirectionPut(w, user), Give(t, user, -1)) <==> Of(t, user) > 0
  {
    GiveSum(t, user, -1);
    hide Give, Of, Pack, InRange, DirectionPut;
    if Of(t, user) > 0 {
      PutShows(w, t, user);
    } else if InRange(Give(t, user, -1)) {
      RangeOf(Give(t, user, -1), user);
    }
  }

  /** The owner whose nibble comes next; above DI there is none. */
  function Above(o: Owner): Owner
    requires o != DI
  {
    match o
    case DEC => GE2D
    case GE2D => VPP
    case VPP => VSINK
    case VSINK => DI
  }

  lemma AboveUnit(o: Owner)
    requires o != DI
    ensures Unit(Above(o)) == 16 * Unit(o)
  {
  }

  lemma MovesInRange(t: Tokens, o: Owner, p: Owner, d: int, e: int)
    requires InRange(t) && o != p && 0 <= Of(t, o) + d < 16 && 0 <= Of(t, p) + e < 16
    ensures InRange(Give(Give(t, o, d), p, e))
  {
  }

  /** Fifteen out of one nibble and one into the next is one unit of the former. */
  lemma CarryPack(t: Tokens, o: Owner)
    requires o != DI
    ensures Pack(Give(Give(t, o, -15), Above(o), 1)) == Pack(t) + Unit(o)
    ensures Pack(Give(Give(t, o, 15), Above(o), -1)) == Pack(t) - Unit(o)
  {
    hide *;
    AboveUnit(o);
    GivePack(t, o, -15);
    GivePack(Give(t, o, -15), Above(o), 1);
    GivePack(t, o, 15);
    GivePack(Give(t, o, 15), Above(o), -1);
  }

  lemma DiOverflows(w: nat, t: Tokens)
    requires Shows(w, t) && t.di == 15
    ensures forall u: Tokens :: !Shows(Add(w, DI), u)
  {
    forall u: Tokens
      ensures !Shows(Add(w, DI), u)
    {
      if InRange(u) {
        PackBound(u);
      }
    }
  }

  /** Beyond fifteen references of an owner the next one empties its nibble into the one
      above; beyond fifteen of DI the word stands for no counts at all. */
  lemma SixteenthCarries(w: nat, t: Tokens, o: Owner)
    requires Shows(w, t) && Of(t, o) == 15
    ensures o != DI && Of(t, Above(o)) < 15 ==> Shows(Add(w, o), Give(Give(t, o, -15), Above(o), 1))
    ensures o == DI ==> forall u: Tokens :: !Shows(Add(w, o), u)
  {
    if o == DI {
      DiOverflows(w, t);
    } else if Of(t, Above(o)) < 15 {
      CarryShows(w, t, o);
    }
  }

  lemma CarryShows(w: nat, t: Tokens, o: Owner)
    requires o != DI && Shows(w, t) && Of(t, o) == 15 && Of(t, Above(o)) < 15
    ensures Shows(Add(w, o), Give(Give(t, o, -15), Above(o), 1))
  {
    hide Pack, Give, Of, Above, InRange, Unit;
    CarryPack(t, o);
    RangeOf(t, Above(o));
    AboveOther(o);
    MovesInRange(t, o, Above(o), -15, 1);
    PackBound(Give(Give(t, o, -15), Above(o), 1));
  }

  lemma AboveOther(o: Owner)
    requires o != DI
    ensures Above(o) != o
  {
  }

  /** A PUT by an owner without a reference: the decoder's is ignored, any other's takes
      sixteen from the nibble above. */
  lemma PutWithoutReferenceBorrows(w: nat, t: Tokens, o: Owner)
    requires Shows(w, t) && Of(t, o) == 0
    ensures o == DEC ==> DirectionPut(w, o) == w
    ensures o != DEC && o != DI && Of(t, Above(o)) > 0 ==>
              Shows(DirectionPut(w, o), Give(Give(t, o, 15), Above(o), -1))
  {
    if o == DEC {
      NibbleOf(w, t, DEC);
    } else if o != DI && Of(t, Above(o)) > 0 {
      BorrowShows(w, t, o);
    }
  }

  lemma BorrowShows(w: nat, t: Tokens, o: Owner)
    requires o != DEC && o != DI && Shows(w, t) && Of(t, o) == 0 && Of(t, Above(o)) > 0
    ensures Shows(DirectionPut(w, o), Give(Give(t, o, 15), Above(o), -1))
  {
    hide Pack, Give, Of, Above, InRange, Unit, Nibble;
    CarryPack(t, o);
    RangeOf(t, Above(o));
    AboveOther(o);
    MovesInRange(t, o, Above(o), 15, -1);
    PackBound(t);
    PackBound(Give(Give(t, o, 15), Above(o), -1));
  }

  /** A converter that allocates a buffer itself borrows across the nibbles: the word
      ends up with fifteen decoder references and none of its own. */
  lemma ConverterAllocationBorrows()
    ensures Shows(DirectionGet(0, GE2D, NoSource), Tokens(15, 0, 0, 0, 0))
  {
  }

  /** The word's own alarm tests the top bit of the low four nibbles. */
  predicate Alarm(w: nat) {
    w / 0x8 % 2 == 1 || w / 0x80 % 2 == 1 || w / 0x800 % 2 == 1 || w / 0x8000 % 2 == 1
  }

  /** It rings exactly when one of those four owners holds eight or more, and stays
      silent about DI. */
  lemma AlarmIff(w: nat, t: Tokens)
    requires Shows(w, t)
    ensures Alarm(w) <==> t.dec >= 8 || t.ge2d >= 8 || t.vpp >= 8 || t.vsink >= 8
  {
    hide Nibble, Pack;
    ShowsNibbles(w, t);
    TopBit(w, DEC);
    TopBit(w, GE2D);
    TopBit(w, VPP);
    TopBit(w, VSINK);
  }

  lemma TopBit(w: nat, o: Owner)
    ensures w / (8 * Unit(o)) % 2 == 1 <==> Nibble(w, o) >= 8
  {
    Floor(w, o);
    hide Unit;
    var v := w / Unit(o);
    HighDigit(v);
    Eighth(w, o, v, v / 8);
  }

  lemma HighDigit(v: nat)
    ensures v % 16 >= 8 <==> v / 8 % 2 == 1
  {
  }

  lemma Floor(w: nat, o: Owner)
    ensures Unit(o) * (w / Unit(o)) <= w < Unit(o) * (w / Unit(o)) + Unit(o)
  {
    match o {
      case DEC =>
      case GE2D =>
      case VPP =>
      case VSINK =>
      case DI =>
    }
  }

  lemma Eighth(w: nat, o: Owner, v: nat, a: nat)
    requires Unit(o) * v <= w < Unit(o) * v + Unit(o) && 8 * a <= v < 8 * a + 8
    ensures w / (8 * Unit(o)) == a
  {
    match o {
      case DEC =>
      case GE2D => assert 0x80 * a <= w < 0x80 * a + 0x80;
      case VPP => assert 0x800 * a <= w < 0x800 * a + 0x800;
      case VSINK => assert 0x8000 * a <= w < 0x8000 * a + 0x8000;
      case DI => assert 0x8_0000 * a <= w < 0x8_0000 * a + 0x8_0000;
    }
  }

  // ----- the holder

  predicate Live(h: Holder, t: Tokens) {
    match h
    case HoldDec => t.dec > 0
    case HoldGe2d => t.ge2d > 0
    case HoldVpp => t.vpp > 0
    case HoldVsink => t.vsink > 0
    case HoldDi => t.di > 0
    case HoldFree => Sum(t) == 0
  }

  /** Whether one of the owners a PUT looks at is among those still holding the buffer. */
  predicate StaysLive(h: Holder, left: Tokens, user: Owner) {
    match user
    case DEC => left.vsink > 0 || left.vpp > 0 || left.ge2d > 0 || Live(h, left)
    case VPP => left.vpp > 0 || left.dec > 0 || left.ge2d > 0 || Live(h, left)
    case GE2D => left.ge2d > 0 || left.dec > 0
    case VSINK => left.vsink > 0 || left.di > 0 || left.dec > 0 || Live(h, left)
    case DI => Live(h, left)
  }

  /** Exactly when the owner named after a PUT still holds the buffer: the converter's PUT
      falls back to the decoder unasked, and nobody's PUT looks at every other owner. */
  lemma HolderLiveIff(h: Holder, w: nat, t: Tokens, user: Owner)
    requires Shows(w, t) && Of(t, user) > 0
    ensures Live(HolderPut(h, DirectionPut(w, user), user), Give(t, user, -1)) <==>
              StaysLive(h, Give(t, user, -1), user)
  {
    hide *;
    PutShows(w, t, user);
    HolderNamed(h, DirectionPut(w, user), Give(t, user, -1), user);
  }

  lemma HolderNamed(h: Holder, w: nat, left: Tokens, user: Owner)
    requires Shows(w, left)
    ensures Live(HolderPut(h, w, user), left) <==> StaysLive(h, left, user)
  {
    ShowsNibbles(w, left);
    assert InRange(left);
    hide Shows, Nibble, Sum;
    match user {
      case DEC =>
      case VPP =>
      case GE2D =>
      case VSINK =>
      case DI =>
    }
  }

  /** In the decoder, post-processor and sink pipelines a buffer is on display with one
      of the latter two at most once; then the named holder always holds something. */
  lemma HolderStaysLive(h: Holder, w: nat, t: Tokens, user: Owner)
    requires Shows(w, t) && Live(h, t) && Of(t, user) > 0 && user != DI && user != GE2D
    requires t.ge2d == 0 && t.di == 0 && t.vpp + t.vsink <= 1
    requires Sum(t) > 1
    ensures Live(HolderPut(h, DirectionPut(w, user), user), Give(t, user, -1))
  {
    HolderLiveIff(h, w, t, user);
    SomeoneLeft(h, t, user);
    hide *;
  }

  lemma SomeoneLeft(h: Holder, t: Tokens, user: Owner)
    requires InRange(t) && Live(h, t) && Of(t, user) > 0 && user != DI && user != GE2D
    requires t.ge2d == 0 && t.di == 0 && t.vpp + t.vsink <= 1 && Sum(t) > 1
    ensures StaysLive(h, Give(t, user, -1), user)
  {
    match user {
      case DEC =>
      case VPP =>
      case VSINK =>
    }
  }

  /** Whom a holder names. */
  function Named(h: Holder): Source {
    match h
    case HoldDec => From(DEC)
    case HoldGe2d => From(GE2D)
    case HoldVpp => From(VPP)
    case HoldVsink => From(VSINK)
    case HoldDi => From(DI)
    case HoldFree => NoSource
  }

  /** A GET names the getter, whose reference the word then shows; DI names nobody anew. */
  lemma GetterNamed(h: Holder, w: nat, t: Tokens, user: Owner, pre: Source)
    requires Shows(w, t) && Of(t, user) < 15
    requires Loser(user, pre).From? ==> Of(t, Loser(user, pre).owner) > 0
    ensures Named(HolderGet(h, user)) == if user == DI then Named(h) else From(user)
    ensures user != DI && Loser(user, pre) != From(user) ==> Live(HolderGet(h, user), TokensGet(t, user, pre))
  {
    match user {
      case DEC =>
      case GE2D =>
      case VPP =>
      case VSINK =>
      case DI =>
    }
  }

  /** The first of these owners that holds a reference, or else somebody given. */
  function FirstHolding(os: seq<Owner>, t: Tokens, other: Source): Source
    decreases |os|
  {
    if os == [] then other else if Of(t, os[0]) > 0 then From(os[0]) else FirstHolding(os[1..], t, other)
  }

  /** The owners a PUT asks, in this order. */
  function Asked(user: Owner): seq<Owner> {
    match user
    case DEC => [VSINK, VPP, GE2D]
    case VPP => [VPP, DEC, GE2D]
    case GE2D => [GE2D]
    case VSINK => [VSINK, DI, DEC]
    case DI => []
  }

  /** A PUT names the first owner asked that still holds a reference; if none does, the
      holder stays, except that the converter names the decoder. */
  lemma PutNames(h: Holder, w: nat, left: Tokens, user: Owner)
    requires Shows(w, left)
    ensures Named(HolderPut(h, w, user))
         == FirstHolding(Asked(user), left, if user == GE2D then From(DEC) else Named(h))
  {
    hide *;
    var other := if user == GE2D then From(DEC) else Named(h);
    PutPicks(h, w, left, user);
    AskedPicks(user, left, other);
  }

  /** The choice made, owner by owner. */
  function Pick(user: Owner, t: Tokens, other: Source): Source {
    match user
    case DEC =>
      if t.vsink > 0 then From(VSINK) else if t.vpp > 0 then From(VPP)
      else if t.ge2d > 0 then From(GE2D) else other
    case VPP =>
      if t.vpp > 0 then From(VPP) else if t.dec > 0 then From(DEC)
      else if t.ge2d > 0 then From(GE2D) else other
    case GE2D => if t.ge2d > 0 then From(GE2D) else other
    case VSINK =>
      if t.vsink > 0 then From(VSINK) else if t.di > 0 then From(DI)
      else if t.dec > 0 then From(DEC) else other
    case DI => other
  }

  lemma PutPicks(h: Holder, w: nat, left: Tokens, user: Owner)
    requires Shows(w, left)
    ensures Named(HolderPut(h, w, user)) == Pick(user, left, if user == GE2D then From(DEC) else Named(h))
  {
    ShowsNibbles(w, left);
    assert InRange(left);
    hide Shows, Nibble, Sum;
  }

  lemma AskedPicks(user: Owner, t: Tokens, other: Source)
    ensures FirstHolding(Asked(user), t, other) == Pick(user, t, other)
  {
    match user {
      case DEC => AskThree(VSINK, VPP, GE2D, t, other);
      case VPP => AskThree(VPP, DEC, GE2D, t, other);
      case GE2D => AskThree(GE2D, GE2D, GE2D, t, other);
      case VSINK => AskThree(VSINK, DI, DEC, t, other);
      case DI => AskThree(DI, DI, DI, t, other);
    }
    hide FirstHolding;
  }

  lemma AskThree(a: Owner, b: Owner, c: Owner, t: Tokens, other: Source)
    ensures FirstHolding([a, b, c], t, other)
         == if Of(t, a) > 0 then From(a) else if Of(t, b) > 0 then From(b) else if Of(t, c) > 0 then From(c) else other
    ensures FirstHolding([a], t, other) == if Of(t, a) > 0 then From(a) else other
    ensures FirstHolding([], t, other) == other
  {
    assert [a, b, c][1..] == [b, c] && [b, c][1..] == [c] && [c][1..] == [] && [a][1..] == [];
    hide Of;
    assert FirstHolding([c], t, other) == if Of(t, c) > 0 then From(c) else other;
    assert FirstHolding([b, c], t, other) == if Of(t, b) > 0 then From(b) else FirstHolding([c], t, other);
  }
}
