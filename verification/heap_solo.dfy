/**
 The steps of one thread that runs alone make the calls of the sequential heap: MyMalloc and MyFree
 as HeapCalls says, from idle to idle.
 */
module HeapSolo {
  import opened Wrappers
  import opened SystemPages
  import opened ChunkList
  import opened HeapSizes
  import opened HeapState
  import opened HeapSteps
  import opened HeapCalls
  import opened HeapLocks

  /** All other threads are idle. */
  ghost predicate Solo(w: World, t: nat) {
    Safe(w) && t in w.pcs && forall u :: u in w.pcs && u != t ==> w.pcs[u] == Idle
  }

  ghost predicate OnlyBy(run: seq<Choice>, t: nat) {
    forall i :: 0 <= i < |run| ==> run[i].thread == t
  }

  /** Thread t alone gets from a to b. */
  ghost predicate Goes(a: World, b: World, t: nat) {
    exists run :: CanRun(a, run) && After(a, run) == b && OnlyBy(run, t)
  }

  lemma Stays(a: World, t: nat)
    ensures Goes(a, a, t)
  {
    assert CanRun(a, []) && After(a, []) == a && OnlyBy([], t);
  }

  lemma {:induction false} OneMore(a: World, run: seq<Choice>, c: Choice)
    requires CanRun(a, run) && CanDo(After(a, run), c.thread, c.event)
    ensures CanRun(a, run + [c]) && After(a, run + [c]) == Do(After(a, run), c.thread, c.event)
    decreases |run|
  {
    hide CanDo, Do;
    if run == [] {
      assert run + [c] == [c] && [c][1..] == [];
      assert CanRun(Do(a, c.thread, c.event), []);
    } else {
      assert (run + [c])[0] == run[0] && (run + [c])[1..] == run[1..] + [c];
      OneMore(Do(a, run[0].thread, run[0].event), run[1..], c);
    }
  }

  /** One step further. */
  lemma Go(a: World, w: World, t: nat, e: Event)
    requires Goes(a, w, t) && Solo(w, t) && CanDo(w, t, e)
    ensures Goes(a, Do(w, t, e), t) && Solo(Do(w, t, e), t)
  {
    hide CanDo, Do, Safe, Held, Wants, Frees;
    var run :| CanRun(a, run) && After(a, run) == w && OnlyBy(run, t);
    OneMore(a, run, Choice(t, e));
    assert OnlyBy(run + [Choice(t, e)], t);
    StepKeeps(w, t, e);
    HeldAfter(w, t, e);
  }

  /** ... and is here then. */
  ghost predicate Reaches(a: World, b: World, t: nat, pc: Pc) {
    Goes(a, b, t) && Solo(b, t) && b.pcs[t] == pc
  }

  /** Nobody else has a lock. */
  lemma FreeLock(w: World, t: nat, l: Lock)
    requires Solo(w, t) && l !in Held(w.pcs[t])
    ensures l !in w.owner
  {
    hide ThreadsOk, HandsOk, ReturnsOk, Settled, Inv;
    assert l in w.owner ==> Holds(w, w.owner[l], l);
  }

  lemma TakeLock(a: World, w: World, t: nat, pc: Pc) returns (b: World)
    requires Reaches(a, w, t, pc) && Wants(pc).Some?
    ensures Reaches(a, b, t, Wants(pc).value.1) && b.heap == w.heap
  {
    hide Safe, Held, Wants, Frees, Goes;
    var l := Wants(pc).value.0;
    if l in Held(pc) { LockOrder(pc, l); }
    FreeLock(w, t, l);
    Go(a, w, t, Acquire);
    b := Do(w, t, Acquire);
  }

  lemma GiveLock(a: World, w: World, t: nat, pc: Pc) returns (b: World)
    requires Reaches(a, w, t, pc) && Frees(pc).Some?
    ensures Reaches(a, b, t, Frees(pc).value.1) && b.heap == w.heap
  {
    hide Safe, Held, Wants, Frees, Goes;
    Go(a, w, t, Release);
    b := Do(w, t, Release);
  }

  // ---------------------------------------------------------------- the page cache

  lemma HandIsCarried(w: World, t: nat)
    requires Solo(w, t) && Hand(w.pcs[t]).Some?
    ensures Carried(w.heap, Hand(w.pcs[t]).value, HandPages(w.pcs[t]))
  {
    hide LocksOk, HandsOk, ReturnsOk, Settled, Inv, Carried, Hand, HandPages, WishOk, OfSlot;
    assert PcOk(w.heap, t, w.pcs[t]);
  }

  function AfterPages(who: Caller): Pc {
    if who.ForSlot? then LeaveSlot(who.slot) else Idle
  }

  /** Inside the list's lock there is room: the span is pushed. */
  lemma PushedBack(a: World, w: World, t: nat, who: Caller, n: int, s: int) returns (b: World)
    requires Reaches(a, w, t, HasRoom(who, n, s))
    ensures Reaches(a, b, t, LeavePage(who, n))
    ensures PageList(n) in w.heap.lists
            && b.heap == w.heap.(lists := w.heap.lists[PageList(n) := [s] + w.heap.lists[PageList(n)]],
                                 holder := w.heap.holder[s := OfPages])
  {
    hide Safe, Goes;
    HandIsCarried(w, t);
    assert HomeList(OfPages, w.heap.headers[s]) == PageList(n);
    RoomThere(w, t);
    Go(a, w, t, Advance);
    b := Do(w, t, Advance);
  }

  lemma RoomThere(w: World, t: nat)
    requires Solo(w, t) && w.pcs[t].HasRoom?
    ensures PageList(w.pcs[t].n) in w.heap.lists
  {
    hide LocksOk, HandsOk, ReturnsOk, Settled, Inv, Carried, WishOk, OfSlot;
    assert PcOk(w.heap, t, w.pcs[t]);
  }

  /** ... or there is none: the span is unmapped. */
  lemma UnmappedNow(a: World, w: World, t: nat, who: Caller, n: int, s: int) returns (b: World)
    requires Reaches(a, w, t, AskLatchDel(who, n, s))
    ensures Reaches(a, b, t, LeavePage(who, n))
    ensures b.heap == w.heap.(mapped := b.heap.mapped, headers := w.heap.headers - {s}, holder := w.heap.holder - {s})
            && Unmapped(w.heap.mapped, b.heap.mapped, s, n)
  {
    hide Reaches, Unmapped;
    var c := TakeLock(a, w, t, AskLatchDel(who, n, s));
    var d := PagesGone(a, c, t, who, n, s);
    b := GiveLock(a, d, t, Deleted(who, n));
  }

  lemma PagesGone(a: World, w: World, t: nat, who: Caller, n: int, s: int) returns (b: World)
    requires Reaches(a, w, t, InLatchDel(who, n, s))
    ensures Reaches(a, b, t, Deleted(who, n))
    ensures b.heap == w.heap.(mapped := b.heap.mapped, headers := w.heap.headers - {s}, holder := w.heap.holder - {s})
            && Unmapped(w.heap.mapped, b.heap.mapped, s, n)
  {
    hide Safe, Goes;
    var mapped := WithoutPages(w.heap.mapped, s, n);
    Go(a, w, t, Unmap(mapped));
    b := Do(w, t, Unmap(mapped));
  }

  /** Whether there is room is decided by the number of spans on the list. */
  lemma RoomDecides(a: World, w: World, t: nat, who: Caller, n: int, s: int) returns (b: World)
    requires Reaches(a, w, t, InPageBack(who, n, s))
    ensures b.heap == w.heap && PageList(n) in w.heap.lists
    ensures var room := |w.heap.lists[PageList(n)]| < 8;
            Reaches(a, b, t, if room then HasRoom(who, n, s) else AskLatchDel(who, n, s))
  {
    hide Safe, Goes, Inv;
    HandIsCarried(w, t);
    PageTableHas(w.heap, s, n) by { assert Inv(w.heap) by { CoreOf(w, t); } }
    Go(a, w, t, Advance);
    b := Do(w, t, Advance);
  }

  lemma CoreOf(w: World, t: nat)
    requires Solo(w, t)
    ensures Inv(w.heap) && CoreSafe(w)
  {
    hide Inv;
  }

  lemma PageTableHas(h: State, s: int, n: int)
    requires Inv(h) && Carried(h, s, n)
    ensures PageList(n) in h.lists && 1 <= n < PC_SPAN_LIST_NUM
  {
    hide Proper, IsBlock, Accounted, Listed, LoansInv, ListsInv, DeadSpansOk, Owns, NoDup;
    assert SpanInv(h, s);
  }

  /** TakeBackSpan, alone. */
  lemma SpanBack(a: World, w: World, t: nat, who: Caller, n: int, s: int) returns (b: World)
    requires Reaches(a, w, t, AskPageBack(who, n, s))
    ensures Reaches(a, b, t, AfterPages(who)) && Returned(w.heap, b.heap, s, n)
  {
    hide Reaches, Unmapped;
    var c := TakeLock(a, w, t, AskPageBack(who, n, s));
    var d := RoomDecides(a, c, t, who, n, s);
    var e;
    if |w.heap.lists[PageList(n)]| < 8 {
      e := PushedBack(a, d, t, who, n, s);
    } else {
      e := UnmappedNow(a, d, t, who, n, s);
    }
    b := GiveLock(a, e, t, LeavePage(who, n));
  }

  lemma FreshIsObtained(h: State, s: int, n: int, mapped: PageMap)
    requires s !in h.headers && PageList(n) in h.lists && h.lists[PageList(n)] == []
    ensures Obtained(h, Fresh(h, s, n, mapped), s, n)
  {
  }

  /** What mmap delivers for a span that is to be made. */
  lemma SomePages(w: World, t: nat, who: Caller, wish: Wish) returns (s: int, mapped: PageMap)
    requires Solo(w, t) && w.pcs[t] == InLatchNew(who, wish) && CanMap(w.heap)
    ensures Mapped(w.heap.mapped, mapped, s, PagesFor(who, wish)) && s !in w.heap.headers
  {
    hide Safe, Inv, PagesFor, Mapped;
    var n := PagesFor(who, wish);
    WishOf(w, t);
    PagesInRange(w.heap, t, who, wish);
    assert CanMapPages(w.heap, n);
    s, mapped :| Mapped(w.heap.mapped, mapped, s, n);
    CoreOf(w, t);
    FreshStep(w.heap, s, n, mapped);
  }

  /** mallocSpan, alone. */
  lemma SpanMade(a: World, w: World, t: nat, who: Caller, wish: Wish) returns (b: World, s: int)
    requires Reaches(a, w, t, AskLatchNew(who, wish)) && CanMap(w.heap)
    requires var page := PageList(PagesFor(who, wish)); page in w.heap.lists && w.heap.lists[page] == []
    ensures Reaches(a, b, t, GotSpan(who, wish, s))
    ensures Obtained(w.heap, b.heap, s, PagesFor(who, wish))
  {
    hide Reaches, PagesFor, CanMap, Obtained;
    var c := TakeLock(a, w, t, AskLatchNew(who, wish));
    var d;
    d, s := PagesMapped(a, c, t, who, wish);
    b := GiveLock(a, d, t, MadeSpan(who, wish, s));
  }

  lemma PagesMapped(a: World, w: World, t: nat, who: Caller, wish: Wish) returns (b: World, s: int)
    requires Reaches(a, w, t, InLatchNew(who, wish)) && CanMap(w.heap)
    requires var page := PageList(PagesFor(who, wish)); page in w.heap.lists && w.heap.lists[page] == []
    ensures Reaches(a, b, t, MadeSpan(who, wish, s)) && Obtained(w.heap, b.heap, s, PagesFor(who, wish))
  {
    hide Safe, Goes, PagesFor, Mapped, CanMap, Obtained, Fresh;
    var mapped;
    s, mapped := SomePages(w, t, who, wish);
    Go(a, w, t, Map(s, mapped));
    FreshIsObtained(w.heap, s, PagesFor(who, wish), mapped);
    b := Do(w, t, Map(s, mapped));
  }

  lemma WishOf(w: World, t: nat)
    requires Solo(w, t) && Wanted(w.pcs[t]).Some?
    ensures WishOk(w.heap, t, Wanted(w.pcs[t]).value.0, Wanted(w.pcs[t]).value.1)
  {
    hide LocksOk, HandsOk, ReturnsOk, Settled, Inv, Carried, WishOk, OfSlot, Wanted, Hand, HandPages;
    assert PcOk(w.heap, t, w.pcs[t]);
  }

  lemma PageListThere(h: State, t: nat, who: Caller, wish: Wish)
    requires Inv(h) && WishOk(h, t, who, wish)
    ensures PageList(PagesFor(who, wish)) in h.lists
  {
    hide WishOk, PagesFor;
    PagesInRange(h, t, who, wish);
  }

  /** Under the list's lock: the front span, if there is one. */
  lemma FrontDecides(a: World, w: World, t: nat, who: Caller, wish: Wish) returns (b: World)
    requires Reaches(a, w, t, InPage(who, wish))
    ensures var n := PagesFor(who, wish);
            PageList(n) in w.heap.lists
            && var f := w.heap.lists[PageList(n)];
               if f == [] then Reaches(a, b, t, NoSpan(who, wish)) && b.heap == w.heap
               else Reaches(a, b, t, TookSpan(who, wish, f[0])) && Obtained(w.heap, b.heap, f[0], n)
  {
    hide Safe, Goes, Inv, PagesFor;
    WishOf(w, t);
    CoreOf(w, t);
    PageListThere(w.heap, t, who, wish);
    Go(a, w, t, Advance);
    b := Do(w, t, Advance);
  }

  /** DistributeSpan, alone. */
  lemma SpanHere(a: World, w: World, t: nat, who: Caller, wish: Wish) returns (b: World, s: int)
    requires Reaches(a, w, t, AskPage(who, wish)) && CanMap(w.heap)
    ensures Reaches(a, b, t, GotSpan(who, wish, s))
    ensures Obtained(w.heap, b.heap, s, PagesFor(who, wish))
  {
    hide Reaches, PagesFor, CanMap, Obtained;
    var c := TakeLock(a, w, t, AskPage(who, wish));
    var d := FrontDecides(a, c, t, who, wish);
    var f := w.heap.lists[PageList(PagesFor(who, wish))];
    if f == [] {
      var e := GiveLock(a, d, t, NoSpan(who, wish));
      b, s := SpanMade(a, e, t, who, wish);
    } else {
      s := f[0];
      b := GiveLock(a, d, t, TookSpan(who, wish, s));
    }
  }

  // ---------------------------------------------------------------- calls

  function AfterSupply(who: Caller): Pc {
    if who.ForSlot? then LeaveSlot(who.slot) else Idle
  }

  function ListOf(t: nat, who: Caller, wish: Wish): ListId {
    if who.ForSlot? then CentralList(Size2Slot(wish.size)) else ThreadList(t, Size2Slot(wish.size))
  }

  /** A span that has just been got is split, listed and lent from. */
  lemma Supplied(a: World, w: World, t: nat, g: State, who: Caller, wish: Wish, s: int) returns (b: World, x: int)
    requires Reaches(a, w, t, GotSpan(who, wish, s))
    requires Obtained(g, w.heap, s, PagesFor(who, wish)) && ListOf(t, who, wish) in g.lists
    requires who.ForThread? ==> g.lists[ListOf(t, who, wish)] == []
    ensures Reaches(a, b, t, AfterSupply(who))
    ensures StockedAndTaken(g, b.heap, ListOf(t, who, wish), PagesFor(who, wish), wish.size, wish.request, t, x)
  {
    hide Safe, Goes, Inv, PagesFor, Stocked, FrontTaken, WishOk, Supply, SupplyReady, Obtained;
    CoreOf(w, t);
    WishOf(w, t);
    HandIsCarried(w, t);
    CarriedFacts(w.heap, s, PagesFor(who, wish));
    Go(a, w, t, Advance);
    b := Do(w, t, Advance);
    if who.ForSlot? {
      SupplySlot(w.heap, t, who.slot, wish, s);
      x := SlotTaken(g, w.heap, t, who.slot, wish, s);
    } else {
      SupplyThread(w.heap, t, wish, s);
      x := ThreadTaken(g, w.heap, t, wish, s);
    }
  }

  lemma SlotTaken(g: State, h: State, t: nat, slot: int, wish: Wish, s: int) returns (x: int)
    requires Inv(h) && WishOk(h, t, ForSlot(slot), wish) && Carried(h, s, PagesFor(ForSlot(slot), wish)) && s in h.free
    requires Obtained(g, h, s, PagesFor(ForSlot(slot), wish)) && CentralList(Size2Slot(wish.size)) in g.lists
    requires SupplyReady(h, t, ForSlot(slot), wish, s)
    ensures StockedAndTaken(g, Supply(h, t, ForSlot(slot), wish, s), CentralList(Size2Slot(wish.size)),
                            PagesFor(ForSlot(slot), wish), wish.size, wish.request, t, x)
  {
    hide Inv, PagesFor, Stocked, FrontTaken, Obtained, SizeClass, Size2Slot, BlockCount, Blocks, OnlySpan;
    var n, id := PagesFor(ForSlot(slot), wish), CentralList(Size2Slot(wish.size));
    PagesInRange(h, t, ForSlot(slot), wish);
    CutStep(h, t, ForSlot(slot), wish, s);
    var home := Shelve(Divide(h, s, wish.size), s, OfCentral);
    StockedFrom(g, h, home, OfCentral, n, wish.size, s);
    assert home.lists[id][0] == s;
    CentralFrontTaken(home, id, wish.request, t);
    x := home.free[s][0];
    assert Stocked(g, home, id, n, wish.size, s);
  }

  lemma ThreadTaken(g: State, h: State, t: nat, wish: Wish, s: int) returns (x: int)
    requires Inv(h) && WishOk(h, t, ForThread, wish) && Carried(h, s, PagesFor(ForThread, wish)) && s in h.free
    requires Obtained(g, h, s, PagesFor(ForThread, wish)) && ThreadList(t, Size2Slot(wish.size)) in g.lists
    requires SupplyReady(h, t, ForThread, wish, s)
    ensures StockedAndTaken(g, Supply(h, t, ForThread, wish, s), ThreadList(t, Size2Slot(wish.size)),
                            PagesFor(ForThread, wish), wish.size, wish.request, t, x)
  {
    hide Inv, PagesFor, Stocked, FrontTaken, Obtained, SizeClass, Size2Slot, BlockCount, Blocks, OnlySpan;
    var n, id := PagesFor(ForThread, wish), ThreadList(t, Size2Slot(wish.size));
    PagesInRange(h, t, ForThread, wish);
    CutStep(h, t, ForThread, wish, s);
    var home := Shelve(Divide(h, s, wish.size), s, OfThread(t));
    StockedFrom(g, h, home, OfThread(t), n, wish.size, s);
    assert home.lists[id] == [s];
    ThreadFront(home, id, wish.request, t);
    x := home.free[s][0];
    assert Stocked(g, home, id, n, wish.size, s);
  }

  /** MyMalloc on a thread with a cache, alone: the steps end, and have done what the call promises. */
  lemma SoloMalloc(a: World, t: nat, request: int) returns (b: World, x: int)
    requires Solo(a, t) && a.pcs[t] == Idle && t in a.heap.threads && CanMap(a.heap)
    requires RequestTier(request) != SystemTier && CeilMemSize(request) != 65536
    ensures Reaches(a, b, t, Idle) && Allocated(a.heap, b.heap, t, request, x)
  {
    hide Safe, Goes, Solo, CanMap, Inv, CeilMemSize, Size2Slot, SizeClass, FrontTaken, StockedAndTaken, FetchPages,
      CentralPages;
    CoreOf(a, t);
    Stays(a, t);
    var wish := Wish(CeilMemSize(request), request);
    WishServed(a.heap, t, request);
    if request >= 65536 {
      b, x := SoloCentral(a, t, wish);
    } else if a.heap.lists[OwnList(t, wish)] == [] {
      b, x := SoloFetched(a, t, wish);
    } else {
      b, x := SoloFront(a, t, wish);
    }
  }

  lemma WishServed(h: State, t: nat, request: int)
    requires Inv(h) && t in h.threads && RequestTier(request) != SystemTier && CeilMemSize(request) != 65536
    ensures var wish := Wish(CeilMemSize(request), request);
            wish.size > 0 &&
            if request < 65536 then OwnWish(h, t, wish)
            else SlotWish(Size2Slot(wish.size), wish) && CentralList(Size2Slot(wish.size)) in h.lists
  {
    hide SpansInv, LoansInv, ListsInv, DeadSpansOk, CeilMemSize, Size2Slot;
    var size := CeilMemSize(request);
    CeilIsLeastClass(request, 65536);
    CeilIsLeastClass(request, 524224);
    if request < 65536 { ThreadSpans(size); } else { CentralSpans(size); }
  }

  lemma SoloFront(a: World, t: nat, wish: Wish) returns (b: World, x: int)
    requires Solo(a, t) && a.pcs[t] == Idle && OwnWish(a.heap, t, wish) && a.heap.lists[OwnList(t, wish)] != []
    ensures Reaches(a, b, t, Idle)
    ensures FrontTaken(a.heap, b.heap, OwnList(t, wish), wish.request, t, x)
  {
    hide Safe, Goes, Inv, SizeClass, Size2Slot, FrontTaken, ThreadLend;
    CoreOf(a, t);
    Stays(a, t);
    var s := a.heap.lists[OwnList(t, wish)][0];
    FrontOfOwn(a.heap, t, wish);
    Go(a, a, t, LendOwn(wish));
    b := Do(a, t, LendOwn(wish));
    ThreadFront(a.heap, OwnList(t, wish), wish.request, t);
    x := a.heap.free[s][0];
  }

  lemma SoloFetched(a: World, t: nat, wish: Wish) returns (b: World, x: int)
    requires Solo(a, t) && a.pcs[t] == Idle && OwnWish(a.heap, t, wish) && a.heap.lists[OwnList(t, wish)] == []
    requires CanMap(a.heap) && wish.size > 0
    ensures Reaches(a, b, t, Idle)
    ensures StockedAndTaken(a.heap, b.heap, OwnList(t, wish), FetchPages(wish.size), wish.size, wish.request, t, x)
  {
    hide Safe, Goes, SizeClass, Size2Slot, StockedAndTaken, FetchPages, CanMap, Obtained;
    Stays(a, t);
    Go(a, a, t, BeginLocal(wish));
    var c := Do(a, t, BeginLocal(wish));
    var d, s := SpanHere(a, c, t, ForThread, wish);
    b, x := Supplied(a, d, t, a.heap, ForThread, wish, s);
  }

  lemma SoloCentral(a: World, t: nat, wish: Wish) returns (b: World, x: int)
    requires Solo(a, t) && a.pcs[t] == Idle && SlotWish(Size2Slot(wish.size), wish) && CanMap(a.heap) && wish.size > 0
    requires CentralList(Size2Slot(wish.size)) in a.heap.lists
    ensures Reaches(a, b, t, Idle)
    ensures StockedAndTaken(a.heap, b.heap, CentralList(Size2Slot(wish.size)), CentralPages(wish.size), wish.size,
                            wish.request, t, x)
  {
    hide Safe, Goes, SizeClass, Size2Slot, StockedAndTaken, CentralPages, CanMap, Obtained;
    Stays(a, t);
    var slot := Size2Slot(wish.size);
    Go(a, a, t, BeginCentral(wish));
    var c := TakeLock(a, Do(a, t, BeginCentral(wish)), t, AskSlot(slot, wish));
    var d := SlotSearched(a, c, t, slot, wish);
    var e, s := SpanHere(a, d, t, ForSlot(slot), wish);
    var g;
    g, x := Supplied(a, e, t, a.heap, ForSlot(slot), wish, s);
    b := GiveLock(a, g, t, LeaveSlot(slot));
  }

  lemma SlotSearched(a: World, w: World, t: nat, slot: int, wish: Wish) returns (b: World)
    requires Reaches(a, w, t, InSlot(slot, wish))
    ensures Reaches(a, b, t, AskPage(ForSlot(slot), wish)) && b.heap == w.heap
  {
    hide Safe, Goes;
    Go(a, w, t, Advance);
    b := Do(w, t, Advance);
  }

  /** MyFree of a block on loan, alone; a thread's block on the thread that took it. */
  lemma SoloFree(a: World, t: nat, x: int) returns (b: World)
    requires Solo(a, t) && a.pcs[t] == Idle && x in a.heap.live && a.heap.live[x].span in a.heap.headers
    requires BlockTier(a.heap.headers[a.heap.live[x].span].blockSize) == ThreadTier ==> a.heap.live[x].thread == t
    ensures Reaches(a, b, t, Idle) && Freed(a.heap, b.heap, x)
  {
    hide Safe, Goes, Inv, Freed;
    CoreOf(a, t);
    Stays(a, t);
    LoanSpan(a.heap, x);
    var tier := BlockTier(a.heap.headers[a.heap.live[x].span].blockSize);
    if tier == ThreadTier {
      b := SoloTakeBack(a, t, x);
    } else if tier == CentralTier {
      b := SoloReturn(a, t, x);
    } else {
      Go(a, a, t, LoseBlock(x));
      NeverTakenBack(a.heap, x);
      b := Do(a, t, LoseBlock(x));
    }
  }

  /** TakeBackMem, alone. */
  lemma SoloTakeBack(a: World, t: nat, x: int) returns (b: World)
    requires Solo(a, t) && a.pcs[t] == Idle && OnLoan(a.heap, x, ThreadTier) && a.heap.live[x].thread == t
    ensures Reaches(a, b, t, Idle) && Freed(a.heap, b.heap, x)
  {
    hide Safe, Goes, Inv, Freed, ThreadReturn, ThreadOwns, Returned, QuietSpan, OnlySpan;
    CoreOf(a, t);
    Stays(a, t);
    LoanSpan(a.heap, x);
    ThreadLoan(a.heap, x);
    var s := a.heap.live[x].span;
    SettledAt(a.heap, s);
    ThreadReturnStep(a.heap, x);
    Go(a, a, t, FreeOwn(x));
    var c := Do(a, t, FreeOwn(x));
    InHandAfter(a.heap, x);
    if a.heap.headers[s].blockNum == |a.heap.free[s]| + 1 {
      b := SpanBack(a, c, t, ForThread, a.heap.headers[s].pageNum, s);
      GoneFromThread(a.heap, b.heap, x);
    } else {
      KeptByThread(a.heap, x);
      b := c;
    }
  }

  lemma InHandAfter(h: State, x: int)
    requires ThreadOwns(h, x) && h.live[x].span in h.holder && h.holder[h.live[x].span] == OfThread(h.live[x].thread)
    requires h.headers[h.live[x].span].blockNum >= 2
    ensures var s, b := h.live[x].span, ThreadReturn(h, x);
            s in b.holder && (b.holder[s] == InHand <==> h.headers[s].blockNum == |h.free[s]| + 1)
  {
    hide Size2Slot, Without;
  }

  /** Inside the slot's lock: the block is put back and its span leaves the list. */
  lemma SlotTakesBack(a: World, w: World, t: nat, slot: int, x: int) returns (b: World)
    requires Reaches(a, w, t, InSlotBack(slot, x)) && ReturnReady(w.heap, slot, x)
    ensures var s := w.heap.live[x].span;
            && Reaches(a, b, t, AskPageBack(ForSlot(slot), w.heap.headers[s].pageNum, s))
            && b.heap == Merged(PutBack(w.heap, x), CentralList(slot), s)
  {
    hide Safe, Goes, Merged, PutBack, On;
    Go(a, w, t, Advance);
    b := Do(w, t, Advance);
  }

  /** TakeBackMemBlock, alone. */
  lemma SoloReturn(a: World, t: nat, x: int) returns (b: World)
    requires Solo(a, t) && a.pcs[t] == Idle && OnLoan(a.heap, x, CentralTier)
    ensures Reaches(a, b, t, Idle) && Freed(a.heap, b.heap, x)
  {
    hide Solo, Reaches, Inv, Freed, Returned, Size2Slot, Merged, PutBack, On, BlockTier;
    LoanSpan(a.heap, x) by { hide Inv; CoreOf(a, t); }
    var s := a.heap.live[x].span;
    var slot := Size2Slot(a.heap.headers[s].blockSize);
    ReturnsToSlot(a, t, x);
    var c := ReturnBegun(a, t, x);
    var d := SlotTakesBack(a, c, t, slot, x);
    var e := SpanBack(a, d, t, ForSlot(slot), a.heap.headers[s].pageNum, s);
    GoneFromCentral(a.heap, e.heap, x);
    b := GiveLock(a, e, t, LeaveSlot(slot));
  }

  lemma ReturnBegun(a: World, t: nat, x: int) returns (b: World)
    requires Solo(a, t) && a.pcs[t] == Idle && OnLoan(a.heap, x, CentralTier)
    ensures Reaches(a, b, t, InSlotBack(Size2Slot(a.heap.headers[a.heap.live[x].span].blockSize), x))
    ensures b.heap == a.heap
  {
    hide Safe, Goes, Size2Slot, BlockTier;
    Stays(a, t);
    var slot := Size2Slot(a.heap.headers[a.heap.live[x].span].blockSize);
    Go(a, a, t, BeginReturn(x));
    b := TakeLock(a, Do(a, t, BeginReturn(x)), t, AskSlotBack(slot, x));
  }

  lemma ReturnsToSlot(a: World, t: nat, x: int)
    requires Solo(a, t) && OnLoan(a.heap, x, CentralTier)
    ensures var h, s := a.heap.headers[a.heap.live[x].span], a.heap.live[x].span;
            s in a.heap.free && a.heap.free[s] == [] && h.blockNum == 1
            && ReturnReady(a.heap, Size2Slot(h.blockSize), x)
            && On(PutBack(a.heap, x), CentralList(Size2Slot(h.blockSize)), s)
  {
    hide Inv, QuietSpan, OnlySpan, Size2Slot, Merged;
    CoreOf(a, t);
    CentralLoan(a.heap, x);
    SettledAt(a.heap, a.heap.live[x].span);
    CentralReturnStep(a.heap, x);
  }
}
