/**
 What the locks of the tiered heap guard: a list, or a span in a cache, changes only in a step
 of the thread that holds its lock, or whose own it is, and spans are made and deleted under
 latch_.  So a locked section is one step to all other threads.
 */
module HeapGuards {
  import opened Wrappers
  import opened SystemPages
  import opened ChunkList
  import opened HeapSizes
  import opened HeapState
  import opened HeapSteps
  import opened HeapLocks

  function ListAt(h: State, id: ListId): Option<seq<int>> {
    if id in h.lists then Some(h.lists[id]) else None
  }

  /** The thread holds the lock of the list; the lists of a thread's cache need none. */
  predicate HoldsList(a: World, t: nat, id: ListId) {
    t in a.pcs &&
    match id
    case PageList(n) => PageLock(n) in Held(a.pcs[t])
    case CentralList(slot) => SlotLock(slot) in Held(a.pcs[t])
    case ThreadList(u, _) => u == t
  }

  /** The thread has the span in hand, or in its cache, or holds the lock of the list the span belongs to. */
  predicate HoldsSpan(a: World, t: nat, s: int) {
    t in a.pcs && s in a.heap.holder && s in a.heap.headers &&
    match a.heap.holder[s]
    case InHand => Hand(a.pcs[t]) == Some(s)
    case OfThread(u) => u == t
    case OfCentral => SlotLock(Size2Slot(a.heap.headers[s].blockSize)) in Held(a.pcs[t])
    case OfPages => PageLock(a.heap.headers[s].pageNum) in Held(a.pcs[t])
  }

  /** The header of the span, its free blocks and its holder are the same. */
  predicate SpanStays(g: State, h: State, s: int) {
    (s in g.headers ==> s in h.headers && h.headers[s] == g.headers[s]) &&
    (s in g.holder ==> s in h.holder && h.holder[s] == g.holder[s]) &&
    (s in g.free ==> s in h.free && h.free[s] == g.free[s])
  }

  /** A step of thread t changes only what t has or has locked; spans are made and deleted under latch_. */
  ghost predicate Guarded(a: World, b: World, t: nat) {
    t in a.pcs &&
    (forall id :: ListAt(b.heap, id) != ListAt(a.heap, id) ==> HoldsList(a, t, id)) &&
    (forall s :: s in a.heap.headers && !SpanStays(a.heap, b.heap, s) ==> HoldsSpan(a, t, s)) &&
    (b.heap.headers.Keys != a.heap.headers.Keys ==> Latch in Held(a.pcs[t])) &&
    (forall s :: s in a.heap.headers && s in b.heap.headers ==>
       b.heap.headers[s].pageNum == a.heap.headers[s].pageNum)
  }

  lemma NothingTouched(a: World, b: World, t: nat)
    requires t in a.pcs && b.heap.lists == a.heap.lists && b.heap.headers == a.heap.headers
    requires b.heap.holder == a.heap.holder && b.heap.free == a.heap.free
    ensures Guarded(a, b, t)
  {
    hide HoldsList, HoldsSpan;
  }

  /** h' differs from h in one list and one span, whose pages stay. */
  ghost predicate OnlyThese(h: State, h': State, id: ListId, s: int) {
    (forall l :: l != id ==> ListAt(h', l) == ListAt(h, l)) &&
    (forall x :: x in h.headers && x != s ==> SpanStays(h, h', x)) &&
    h'.headers.Keys == h.headers.Keys && s in h.headers && s in h'.headers &&
    h'.headers[s].pageNum == h.headers[s].pageNum
  }

  /** A step that touches one list and one span. */
  lemma OneListOneSpan(a: World, b: World, t: nat, id: ListId, s: int)
    requires t in a.pcs && HoldsList(a, t, id) && HoldsSpan(a, t, s) && OnlyThese(a.heap, b.heap, id, s)
    ensures Guarded(a, b, t)
  {
    hide HoldsList, HoldsSpan;
    forall x | x in a.heap.headers && x in b.heap.headers
      ensures b.heap.headers[x].pageNum == a.heap.headers[x].pageNum
    {
      assert x != s ==> SpanStays(a.heap, b.heap, x);
    }
  }

  lemma GuardedLend(a: World, t: nat, wish: Wish)
    requires Safe(a) && CanDo(a, t, LendOwn(wish))
    ensures Guarded(a, Do(a, t, LendOwn(wish)), t)
  {
    hide Inv, Settled, ThreadsOk, HandsOk, ReturnsOk, LocksOk, SizeClass, Size2Slot;
    var s := a.heap.lists[OwnList(t, wish)][0];
    FrontOfOwn(a.heap, t, wish);
    OneListOneSpan(a, Do(a, t, LendOwn(wish)), t, OwnList(t, wish), s);
  }

  lemma GuardedFree(a: World, t: nat, x: int)
    requires Safe(a) && CanDo(a, t, FreeOwn(x))
    ensures Guarded(a, Do(a, t, FreeOwn(x)), t)
  {
    hide Inv, QuietSpan, Settled, ThreadsOk, HandsOk, ReturnsOk, LocksOk, OnlySpan, Size2Slot;
    var s := a.heap.live[x].span;
    ThreadLoan(a.heap, x);
    SettledAt(a.heap, s);
    ThreadReturnStep(a.heap, x);
    OneListOneSpan(a, Do(a, t, FreeOwn(x)), t, ThreadList(t, Size2Slot(a.heap.headers[s].blockSize)), s);
  }

  lemma GuardedReturn(a: World, t: nat)
    requires Safe(a) && CanDo(a, t, Advance) && a.pcs[t].InSlotBack?
    ensures Guarded(a, Do(a, t, Advance), t)
  {
    hide Inv, OnlySpan, QuietSpan, Settled, HandsOk, ReturnsOk, LocksOk, Size2Slot;
    var x := a.pcs[t].x;
    assert PcOk(a.heap, t, a.pcs[t]);
    var s := a.heap.live[x].span;
    SettledAt(a.heap, s);
    CentralReturnStep(a.heap, x);
    assert ReturnReady(a.heap, a.pcs[t].slot, x);
    OneListOneSpan(a, Do(a, t, Advance), t, CentralList(a.pcs[t].slot), s);
  }

  lemma FrontOfPages(h: State, n: int, s: int)
    requires Inv(h) && PageList(n) in h.lists && h.lists[PageList(n)] != [] && s == h.lists[PageList(n)][0]
    ensures s in h.headers && s in h.holder && h.holder[s] == OfPages && h.headers[s].pageNum == n
  {
    hide SpansInv, LoansInv, TablesOk, DeadSpansOk, Apart;
    assert s in h.lists[PageList(n)];
    OnItsList(h, PageList(n), s);
  }

  lemma GuardedTake(a: World, t: nat)
    requires Safe(a) && CanDo(a, t, Advance) && a.pcs[t].InPage?
    ensures Guarded(a, Do(a, t, Advance), t)
  {
    hide Inv, Settled, HandsOk, ReturnsOk, LocksOk, ThreadsOk, PagesFor;
    var n := PagesFor(a.pcs[t].who, a.pcs[t].wish);
    var b := Do(a, t, Advance);
    if PageList(n) in a.heap.lists && a.heap.lists[PageList(n)] != [] {
      var s := a.heap.lists[PageList(n)][0];
      FrontOfPages(a.heap, n, s);
      OneListOneSpan(a, b, t, PageList(n), s);
    } else {
      NothingTouched(a, b, t);
    }
  }

  lemma GuardedKeep(a: World, t: nat)
    requires Safe(a) && CanDo(a, t, Advance) && a.pcs[t].HasRoom?
    ensures Guarded(a, Do(a, t, Advance), t)
  {
    hide Inv, Settled, HandsOk, ReturnsOk, LocksOk;
    var n, s := a.pcs[t].n, a.pcs[t].s;
    assert PcOk(a.heap, t, a.pcs[t]);
    assert HomeList(OfPages, a.heap.headers[s]) == PageList(n);
    OneListOneSpan(a, Do(a, t, Advance), t, PageList(n), s);
  }

  lemma OnlyTheseTwice(f: State, g: State, h: State, id: ListId, s: int)
    requires OnlyThese(f, g, id, s) && OnlyThese(g, h, id, s)
    ensures OnlyThese(f, h, id, s)
  {
  }

  lemma SplitAndListed(h: State, s: int, size: int, who: Holder)
    requires s in h.headers && size > 0 && BlockCount(h.headers[s].pageNum, size) >= 0
    requires HomeList(who, Divide(h, s, size).headers[s]) in h.lists
    ensures var cut := Divide(h, s, size);
            OnlyThese(h, Shelve(cut, s, who), HomeList(who, cut.headers[s]), s)
  {
    hide BlockCount, Blocks, HomeList;
  }

  lemma LentOnly(h: State, s: int, size: int, t: nat, id: ListId)
    requires s in h.free && h.free[s] != [] && s in h.headers
    ensures OnlyThese(h, Lend(h, s, size, t), id, s)
    ensures LendReady(h, t, s) ==>
              OnlyThese(h, ThreadLend(h, s, size, t), ThreadList(t, Size2Slot(h.headers[s].blockSize)), s)
  {
    hide Size2Slot;
  }

  lemma SlotSupplied(h: State, t: nat, slot: int, wish: Wish, s: int)
    requires Inv(h) && WishOk(h, t, ForSlot(slot), wish) && Carried(h, s, PagesFor(ForSlot(slot), wish)) && s in h.free
    ensures SupplyReady(h, t, ForSlot(slot), wish, s)
    ensures OnlyThese(h, Supply(h, t, ForSlot(slot), wish, s), CentralList(slot), s)
  {
    hide Inv, PagesFor, SizeClass, Size2Slot, BlockCount, Blocks, OnlyThese;
    SupplySlot(h, t, slot, wish, s);
    var home := Shelve(Divide(h, s, wish.size), s, OfCentral);
    SplitAndListed(h, s, wish.size, OfCentral);
    LentOnly(home, s, wish.request, t, CentralList(slot));
    OnlyTheseTwice(h, home, Supply(h, t, ForSlot(slot), wish, s), CentralList(slot), s);
  }

  lemma ThreadSupplied(h: State, t: nat, wish: Wish, s: int)
    requires Inv(h) && WishOk(h, t, ForThread, wish) && Carried(h, s, PagesFor(ForThread, wish)) && s in h.free
    ensures SupplyReady(h, t, ForThread, wish, s)
    ensures OnlyThese(h, Supply(h, t, ForThread, wish, s), OwnList(t, wish), s)
  {
    hide Inv, PagesFor, SizeClass, Size2Slot, BlockCount, Blocks, OnlyThese;
    SupplyThread(h, t, wish, s);
    var home := Shelve(Divide(h, s, wish.size), s, OfThread(t));
    SplitAndListed(h, s, wish.size, OfThread(t));
    LentOnly(home, s, wish.request, t, OwnList(t, wish));
    OnlyTheseTwice(h, home, Supply(h, t, ForThread, wish, s), OwnList(t, wish), s);
  }

  /** The span in hand that is split and lent from goes on the one list its caller has. */
  lemma GuardedSupply(a: World, t: nat)
    requires Safe(a) && CanDo(a, t, Advance) && a.pcs[t].GotSpan?
    ensures Guarded(a, Do(a, t, Advance), t)
  {
    hide Inv, Settled, HandsOk, ReturnsOk, LocksOk, PagesFor, WishOk, Supply, SupplyReady, OnlyThese;
    var who, wish, s := a.pcs[t].who, a.pcs[t].wish, a.pcs[t].s;
    assert PcOk(a.heap, t, a.pcs[t]);
    CarriedFacts(a.heap, s, PagesFor(who, wish));
    if who.ForSlot? {
      SlotSupplied(a.heap, t, who.slot, wish, s);
      OneListOneSpan(a, Do(a, t, Advance), t, CentralList(who.slot), s);
    } else {
      ThreadSupplied(a.heap, t, wish, s);
      OneListOneSpan(a, Do(a, t, Advance), t, OwnList(t, wish), s);
    }
  }

  lemma GuardedNewThread(a: World, t: nat, mapped: PageMap)
    requires Safe(a) && CanDo(a, t, NewThread(mapped))
    ensures Guarded(a, Do(a, t, NewThread(mapped)), t)
  {
    hide Inv, Settled, HandsOk, ReturnsOk, LocksOk, ThreadsOk, HoldsSpan;
  }

  lemma GuardedMap(a: World, t: nat, s: int, mapped: PageMap)
    requires Safe(a) && CanDo(a, t, Map(s, mapped))
    ensures Guarded(a, Do(a, t, Map(s, mapped)), t)
    ensures s !in a.heap.headers
  {
    hide Inv, Settled, HandsOk, ReturnsOk, LocksOk, HoldsSpan, HoldsList, PagesFor, Mapped, WishOk;
    var pc := a.pcs[t];
    assert PcOk(a.heap, t, pc);
    PagesInRange(a.heap, t, pc.who, pc.wish);
    FreshStep(a.heap, s, PagesFor(pc.who, pc.wish), mapped);
  }

  lemma GuardedUnmap(a: World, t: nat, mapped: PageMap)
    requires Safe(a) && CanDo(a, t, Unmap(mapped))
    ensures Guarded(a, Do(a, t, Unmap(mapped)), t)
  {
    hide Inv, Settled, HandsOk, ReturnsOk, LocksOk, HoldsList, Unmapped;
    assert PcOk(a.heap, t, a.pcs[t]);
  }

  /** Every step of every thread changes only what that thread has or has locked. */
  lemma StepsAreGuarded(a: World, t: nat, e: Event)
    requires Safe(a) && CanDo(a, t, e)
    ensures Guarded(a, Do(a, t, e), t)
  {
    hide Safe, Do, Guarded;
    match e {
      case NewThread(mapped) => GuardedNewThread(a, t, mapped);
      case LendOwn(wish) => GuardedLend(a, t, wish);
      case FreeOwn(x) => GuardedFree(a, t, x);
      case Map(s, mapped) => GuardedMap(a, t, s, mapped);
      case Unmap(mapped) => GuardedUnmap(a, t, mapped);
      case Advance =>
        match a.pcs[t] {
          case InSlotBack(_, _) => GuardedReturn(a, t);
          case InPage(_, _) => GuardedTake(a, t);
          case HasRoom(_, _, _) => GuardedKeep(a, t);
          case GotSpan(_, _, _) => GuardedSupply(a, t);
          case _ => GuardedDecision(a, t);
        }
      case _ => GuardedMove(a, t, e);
    }
  }

  lemma GuardedDecision(a: World, t: nat)
    requires CanDo(a, t, Advance) && (a.pcs[t].InSlot? || a.pcs[t].InPageBack?)
    ensures Guarded(a, Do(a, t, Advance), t)
  {
    NothingTouched(a, Do(a, t, Advance), t);
  }

  lemma GuardedMove(a: World, t: nat, e: Event)
    requires CanDo(a, t, e)
    requires e.Acquire? || e.Release? || e.BeginLocal? || e.BeginCentral? || e.BeginReturn? || e.LoseBlock?
    ensures Guarded(a, Do(a, t, e), t)
  {
    hide PagesFor, OwnWish, SlotWish, Guarded, Size2Slot;
    NothingTouched(a, Do(a, t, e), t);
  }
}
