/**
 How MyFree finds the span of a block.  PageId2Span reads the radix tree without a lock, while
 other threads enter the pages of new spans, one by one, under latch_, and the entries of deleted
 spans stay.  Every block on loan is found to be of its span all the same.
 */
module HeapLookup {
  import opened Wrappers
  import opened SystemPages
  import opened HeapSizes
  import opened HeapState
  import opened HeapSteps
  import opened HeapLocks
  import opened HeapGuards

  /** The threads and the heap, the page table, and how many pages of the span just made are in it. */
  datatype View = View(world: World, pages: map<int, int>, registered: nat)

  datatype Act = Move(event: Event) | Register

  /** The span has been mapped and its pages are being entered. */
  predicate Entering(v: View, t: nat) {
    t in v.world.pcs && v.world.pcs[t].MadeSpan?
  }

  function NewPages(v: View, t: nat): int
    requires Entering(v, t)
  {
    PagesFor(v.world.pcs[t].who, v.world.pcs[t].wish)
  }

  /** latch_ is not given up before all pages are in. */
  ghost predicate CanAct(v: View, t: nat, c: Act) {
    match c
    case Register => Entering(v, t) && v.registered < NewPages(v, t)
    case Move(e) => CanDo(v.world, t, e) && (Entering(v, t) && e.Release? ==> NewPages(v, t) <= v.registered)
  }

  ghost function DoAct(v: View, t: nat, c: Act): View
    requires CanAct(v, t, c)
  {
    match c
    case Register =>
      var s := v.world.pcs[t].s;
      v.(pages := v.pages[s / PAGE_SIZE + v.registered := s], registered := v.registered + 1)
    case Move(e) => v.(world := Do(v.world, t, e), registered := if e.Map? then 0 else v.registered)
  }

  // ---------------------------------------------------------------- the invariant

  /** Its pages are being entered: who has it in hand has just made it. */
  predicate InMaking(a: World, s: int) {
    s in a.hand && a.hand[s] in a.pcs && a.pcs[a.hand[s]].MadeSpan?
  }

  /** The first pages of the span lead to it. */
  predicate Leads(pages: map<int, int>, s: int, n: int) {
    forall i :: s / PAGE_SIZE <= i < s / PAGE_SIZE + n ==> i in pages && pages[i] == s
  }

  predicate SpanLeads(v: View, s: int) {
    s in v.world.heap.headers ==>
      var n := v.world.heap.headers[s].pageNum;
      Leads(v.pages, s, if InMaking(v.world, s) && v.registered < n then v.registered else n)
  }

  ghost predicate PagesOk(v: View) {
    forall s :: s in v.world.heap.headers ==> SpanLeads(v, s)
  }

  /** latch_ is with one thread, so all other spans have all their pages in. */
  lemma OneInMaking(a: World, t: nat, s: int)
    requires Safe(a) && t in a.pcs && Latch in Held(a.pcs[t]) && InMaking(a, s)
    ensures Hand(a.pcs[t]) == Some(s) && a.hand[s] == t
  {
    hide ThreadsOk, ReturnsOk, Settled, Inv;
    assert Holds(a, t, Latch) && Holds(a, a.hand[s], Latch);
  }

  /** The pages of another span are other pages. */
  lemma OtherPages(h: State, s: int, x: int, i: int)
    requires Inv(h) && s in h.headers && x in h.headers && x != s
    requires s / PAGE_SIZE <= i < s / PAGE_SIZE + h.headers[s].pageNum
    ensures !(x / PAGE_SIZE <= i < x / PAGE_SIZE + h.headers[x].pageNum)
  {
    hide HeaderOk, Proper, IsBlock, Accounted, Listed, LoansInv, ListsInv, TablesOk, DeadSpansOk;
    assert SpanInv(h, s) && SpanInv(h, x);
    assert i in h.mapped && h.mapped[i] == s;
  }

  lemma RegisterKeeps(v: View, t: nat)
    requires Safe(v.world) && PagesOk(v) && CanAct(v, t, Register)
    ensures PagesOk(DoAct(v, t, Register))
  {
    hide ReturnsOk, Settled, Inv, LocksOk, WishOk, PagesFor;
    var a, w := v.world, DoAct(v, t, Register);
    var s := a.pcs[t].s;
    assert PcOk(a.heap, t, a.pcs[t]);
    assert InMaking(a, s);
    forall x | x in a.heap.headers ensures SpanLeads(w, x) {
      assert SpanLeads(v, x);
      if x != s {
        if InMaking(a, x) { OneInMaking(a, t, x); }
        OtherPages(a.heap, s, x, s / PAGE_SIZE + v.registered);
      }
    }
  }

  /** What a thread that has latch_ may do next. */
  lemma UnderLatch(a: World, t: nat, e: Event)
    requires CanDo(a, t, e) && Latch in Held(a.pcs[t])
    ensures e.Release? || (e.Map? && a.pcs[t].InLatchNew?) || (e.Unmap? && a.pcs[t].InLatchDel?)
  {
    hide PagesFor, OwnWish, SlotWish, OnLoan, Mapped, Unmapped;
  }

  /** The spans after a step are those before it, but for a new one, whose pages are to be entered. */
  lemma NewSpan(a: World, t: nat, e: Event, s: int)
    requires CanDo(a, t, e) && Guarded(a, Do(a, t, e), t) && s in Do(a, t, e).heap.headers && s !in a.heap.headers
    ensures e.Map? && InMaking(Do(a, t, e), s)
  {
    hide Do, CanDo, Held;
    UnderLatch(a, t, e);
    NotByRelease(a, t, e, s);
  }

  lemma NotByRelease(a: World, t: nat, e: Event, s: int)
    requires CanDo(a, t, e) && (e.Release? || e.Unmap? || e.Map?)
    requires s in Do(a, t, e).heap.headers && s !in a.heap.headers
    ensures e.Map? && InMaking(Do(a, t, e), s)
  {
    hide PagesFor, OwnWish, SlotWish, OnLoan, Mapped, Unmapped;
  }

  /** A thread that goes on from where it enters pages has given up latch_; others stay there. */
  lemma StaysInMaking(a: World, t: nat, e: Event, s: int)
    requires CanDo(a, t, e) && Safe(a) && Safe(Do(a, t, e)) && InMaking(a, s)
    ensures s in a.hand && ((e.Release? && a.hand[s] == t) || (a.hand[s] != t && InMaking(Do(a, t, e), s)))
  {
    hide ThreadsOk, ReturnsOk, Settled, Inv, LocksOk, Do, CanDo;
    var u, b := a.hand[s], Do(a, t, e);
    HeldAfter(a, t, e);
    if u == t {
      UnderLatch(a, t, e);
    } else {
      assert b.pcs[u] == a.pcs[u] && Hand(b.pcs[u]) == Some(s);
    }
  }

  lemma NoMapBeside(a: World, t: nat, e: Event, s: int)
    requires CanDo(a, t, e) && Safe(a) && e.Map?
    ensures !InMaking(a, s)
  {
    hide Safe, PagesFor, Mapped;
    if InMaking(a, s) { OneInMaking(a, t, s); }
  }

  lemma SpanStillLeads(v: View, t: nat, e: Event, s: int)
    requires Safe(v.world) && PagesOk(v) && CanAct(v, t, Move(e)) && s in Do(v.world, t, e).heap.headers
    requires Safe(Do(v.world, t, e)) && Guarded(v.world, Do(v.world, t, e), t)
    ensures SpanLeads(DoAct(v, t, Move(e)), s)
  {
    hide Safe, Do, CanDo, InMaking, HoldsList, HoldsSpan, SpanStays, ListAt;
    var a := v.world;
    if s !in a.heap.headers {
      NewSpan(a, t, e, s);
    } else {
      assert SpanLeads(v, s);
      if e.Map? { NoMapBeside(a, t, e, s); }
      if InMaking(a, s) {
        StaysInMaking(a, t, e, s);
        if a.hand[s] == t { AllEntered(v, t, e, s); }
      }
    }
  }

  lemma AllEntered(v: View, t: nat, e: Event, s: int)
    requires Safe(v.world) && CanAct(v, t, Move(e)) && e.Release? && InMaking(v.world, s) && v.world.hand[s] == t
    ensures s in v.world.heap.headers && v.world.heap.headers[s].pageNum <= v.registered
  {
    hide ReturnsOk, Settled, Inv, LocksOk, PagesFor, WishOk;
    assert PcOk(v.world.heap, t, v.world.pcs[t]);
  }

  /** Every act keeps the entries of every span. */
  lemma ActKeeps(v: View, t: nat, c: Act)
    requires Safe(v.world) && PagesOk(v) && CanAct(v, t, c)
    ensures Safe(DoAct(v, t, c).world) && PagesOk(DoAct(v, t, c))
  {
    hide Safe, Do, CanDo, SpanLeads;
    match c
    case Register => RegisterKeeps(v, t);
    case Move(e) =>
      StepKeeps(v.world, t, e);
      StepsAreGuarded(v.world, t, e);
      var w := DoAct(v, t, c);
      forall s | s in w.world.heap.headers ensures SpanLeads(w, s) {
        SpanStillLeads(v, t, e, s);
      }
  }

  // ---------------------------------------------------------------- lookups

  datatype Turn = Turn(thread: nat, act: Act)

  ghost predicate CanGo(v: View, turns: seq<Turn>)
    decreases |turns|
  {
    turns == [] ||
    (CanAct(v, turns[0].thread, turns[0].act) && CanGo(DoAct(v, turns[0].thread, turns[0].act), turns[1..]))
  }

  ghost function Gone(v: View, turns: seq<Turn>): View
    requires CanGo(v, turns)
    decreases |turns|
  {
    if turns == [] then v else Gone(DoAct(v, turns[0].thread, turns[0].act), turns[1..])
  }

  lemma {:induction false} EveryTurn(v: View, turns: seq<Turn>)
    requires Safe(v.world) && PagesOk(v) && CanGo(v, turns)
    ensures Safe(Gone(v, turns).world) && PagesOk(Gone(v, turns))
    decreases |turns|
  {
    hide Safe, PagesOk, CanAct, DoAct;
    if turns != [] {
      ActKeeps(v, turns[0].thread, turns[0].act);
      EveryTurn(DoAct(v, turns[0].thread, turns[0].act), turns[1..]);
    }
  }

  /** The entry of a block on loan is the span it was lent from. */
  lemma LoanLeads(v: View, x: int)
    requires Safe(v.world) && PagesOk(v) && x in v.world.heap.live
    ensures x / PAGE_SIZE in v.pages && v.pages[x / PAGE_SIZE] == v.world.heap.live[x].span
  {
    hide ThreadsOk, ReturnsOk, Settled, LocksOk, Accounted, Listed, Proper, ListsInv, TablesOk, DeadSpansOk, Hand;
    var h, s := v.world.heap, v.world.heap.live[x].span;
    assert LoanInv(h, x) && SpanInv(h, s);
    assert SpanLeads(v, s) && !InMaking(v.world, s);
    BlockInside(s, h.headers[s], x);
    PageOfByte(s, h.headers[s].pageNum, x);
  }

  lemma PageOfByte(s: int, n: int, x: int)
    requires s % PAGE_SIZE == 0 && s <= x < s + n * PAGE_SIZE
    ensures s / PAGE_SIZE <= x / PAGE_SIZE < s / PAGE_SIZE + n
  {
  }

  /** Whatever the threads do, and wherever they are in entering pages: MyFree of a block on loan finds its span. */
  lemma LookupsFindSpans(v: View, turns: seq<Turn>, x: int)
    requires Init(v.world) && CanGo(v, turns) && x in Gone(v, turns).world.heap.live
    ensures var w := Gone(v, turns);
            x / PAGE_SIZE in w.pages && w.pages[x / PAGE_SIZE] == w.world.heap.live[x].span
  {
    StartsWell(v.world);
    assert PagesOk(v);
    hide Safe, PagesOk, Init, CanGo, Gone;
    EveryTurn(v, turns);
    LoanLeads(Gone(v, turns), x);
  }

  /** Entering pages blocks nobody for good: some busy thread can always go on. */
  lemma NobodyIsStuck(v: View, t: nat) returns (u: nat, c: Act)
    requires Safe(v.world) && CanMap(v.world.heap) && t in v.world.pcs && v.world.pcs[t] != Idle
    ensures u in v.world.pcs && v.world.pcs[u] != Idle && CanAct(v, u, c)
    ensures c.Move? ==> Progress(v.world, Do(v.world, u, c.event), u, c.event)
  {
    hide Safe, CanDo, Progress, CanMap;
    var e;
    u, e := NoDeadlock(v.world, t);
    c := if Entering(v, u) && v.registered < NewPages(v, u) then Register else Move(e);
  }
}
