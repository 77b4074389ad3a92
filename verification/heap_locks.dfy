/**
 The tiered heap allocator under any number of threads.  A step is one locked operation, or
 what a thread does in its own cache; it changes the heap as HeapSteps says.  The locks are
 those of the central cache's slots, those of the page cache's lists, and latch_.
 */
module HeapLocks {
  import opened Wrappers
  import opened SystemPages
  import opened ChunkList
  import opened HeapSizes
  import opened HeapState
  import opened HeapSteps

  datatype Lock = SlotLock(slot: int) | PageLock(pageNum: int) | Latch

  /** The order in which locks may be taken. */
  function Rank(l: Lock): nat {
    match l
    case SlotLock(_) => 0
    case PageLock(_) => 1
    case Latch => 2
  }

  /** On whose behalf the page cache works: a thread cache, or the central cache under a slot's lock. */
  datatype Caller = ForThread | ForSlot(slot: int)

  /** The block size that is needed, and the request it answers. */
  datatype Wish = Wish(size: int, request: int)

  /** Where a thread is; the names say which function it is in and what comes next. */
  datatype Pc =
    | Idle
    // DistributeMemBlock
    | AskSlot(slot: int, wish: Wish) | InSlot(slot: int, wish: Wish) | LeaveSlot(slot: int)
    // TakeBackMemBlock
    | AskSlotBack(slot: int, x: int) | InSlotBack(slot: int, x: int)
    // DistributeSpan and mallocSpan
    | AskPage(who: Caller, wish: Wish) | InPage(who: Caller, wish: Wish) | TookSpan(who: Caller, wish: Wish, s: int)
    | NoSpan(who: Caller, wish: Wish) | AskLatchNew(who: Caller, wish: Wish) | InLatchNew(who: Caller, wish: Wish)
    | MadeSpan(who: Caller, wish: Wish, s: int) | GotSpan(who: Caller, wish: Wish, s: int)
    // TakeBackSpan and deleteSpan
    | AskPageBack(who: Caller, n: int, s: int) | InPageBack(who: Caller, n: int, s: int)
    | HasRoom(who: Caller, n: int, s: int) | AskLatchDel(who: Caller, n: int, s: int)
    | InLatchDel(who: Caller, n: int, s: int) | Deleted(who: Caller, n: int) | LeavePage(who: Caller, n: int)

  /** The pages a cache asks for. */
  function PagesFor(who: Caller, wish: Wish): int {
    if wish.size <= 0 then 0 else if who.ForSlot? then CentralPages(wish.size) else FetchPages(wish.size)
  }

  function CallerLocks(who: Caller): set<Lock> {
    if who.ForSlot? then {SlotLock(who.slot)} else {}
  }

  /** The locks a thread holds. */
  function Held(pc: Pc): set<Lock> {
    match pc
    case Idle | AskSlot(_, _) | AskSlotBack(_, _) => {}
    case InSlot(slot, _) => {SlotLock(slot)}
    case LeaveSlot(slot) => {SlotLock(slot)}
    case InSlotBack(slot, _) => {SlotLock(slot)}
    case AskPage(who, _) => CallerLocks(who)
    case InPage(who, wish) => CallerLocks(who) + {PageLock(PagesFor(who, wish))}
    case TookSpan(who, wish, _) => CallerLocks(who) + {PageLock(PagesFor(who, wish))}
    case NoSpan(who, wish) => CallerLocks(who) + {PageLock(PagesFor(who, wish))}
    case AskLatchNew(who, _) => CallerLocks(who)
    case InLatchNew(who, _) => CallerLocks(who) + {Latch}
    case MadeSpan(who, _, _) => CallerLocks(who) + {Latch}
    case GotSpan(who, _, _) => CallerLocks(who)
    case AskPageBack(who, _, _) => CallerLocks(who)
    case InPageBack(who, n, _) => CallerLocks(who) + {PageLock(n)}
    case HasRoom(who, n, _) => CallerLocks(who) + {PageLock(n)}
    case AskLatchDel(who, n, _) => CallerLocks(who) + {PageLock(n)}
    case InLatchDel(who, n, _) => CallerLocks(who) + {PageLock(n), Latch}
    case Deleted(who, n) => CallerLocks(who) + {PageLock(n), Latch}
    case LeavePage(who, n) => CallerLocks(who) + {PageLock(n)}
  }

  /** The lock a thread waits for, and where it is once it has it. */
  function Wants(pc: Pc): Option<(Lock, Pc)> {
    match pc
    case AskSlot(slot, wish) => Some((SlotLock(slot), InSlot(slot, wish)))
    case AskSlotBack(slot, x) => Some((SlotLock(slot), InSlotBack(slot, x)))
    case AskPage(who, wish) => Some((PageLock(PagesFor(who, wish)), InPage(who, wish)))
    case AskLatchNew(who, wish) => Some((Latch, InLatchNew(who, wish)))
    case AskPageBack(who, n, s) => Some((PageLock(n), InPageBack(who, n, s)))
    case AskLatchDel(who, n, s) => Some((Latch, InLatchDel(who, n, s)))
    case _ => None
  }

  /** The lock a thread gives up next, and where it is then. */
  function Frees(pc: Pc): Option<(Lock, Pc)> {
    match pc
    case LeaveSlot(slot) => Some((SlotLock(slot), Idle))
    case TookSpan(who, wish, s) => Some((PageLock(PagesFor(who, wish)), GotSpan(who, wish, s)))
    case NoSpan(who, wish) => Some((PageLock(PagesFor(who, wish)), AskLatchNew(who, wish)))
    case MadeSpan(who, wish, s) => Some((Latch, GotSpan(who, wish, s)))
    case Deleted(who, n) => Some((Latch, LeavePage(who, n)))
    case LeavePage(who, n) => Some((PageLock(n), if who.ForSlot? then LeaveSlot(who.slot) else Idle))
    case _ => None
  }

  /** Locks are asked for in rank order. */
  lemma LockOrder(pc: Pc, l: Lock)
    requires Wants(pc).Some? && l in Held(pc)
    ensures Rank(l) < Rank(Wants(pc).value.0)
  {
    hide PagesFor;
  }

  /** The span a thread has in hand. */
  function Hand(pc: Pc): Option<int> {
    match pc
    case TookSpan(_, _, s) => Some(s)
    case MadeSpan(_, _, s) => Some(s)
    case GotSpan(_, _, s) => Some(s)
    case AskPageBack(_, _, s) => Some(s)
    case InPageBack(_, _, s) => Some(s)
    case HasRoom(_, _, s) => Some(s)
    case AskLatchDel(_, _, s) => Some(s)
    case InLatchDel(_, _, s) => Some(s)
    case _ => None
  }

  /** Its pages. */
  function HandPages(pc: Pc): int {
    match pc
    case TookSpan(who, wish, _) => PagesFor(who, wish)
    case MadeSpan(who, wish, _) => PagesFor(who, wish)
    case GotSpan(who, wish, _) => PagesFor(who, wish)
    case AskPageBack(_, n, _) => n
    case InPageBack(_, n, _) => n
    case HasRoom(_, n, _) => n
    case AskLatchDel(_, n, _) => n
    case InLatchDel(_, n, _) => n
    case _ => 0
  }

  /** What a thread that allocates is after. */
  function Wanted(pc: Pc): Option<(Caller, Wish)> {
    match pc
    case AskSlot(slot, wish) => Some((ForSlot(slot), wish))
    case InSlot(slot, wish) => Some((ForSlot(slot), wish))
    case AskPage(who, wish) => Some((who, wish))
    case InPage(who, wish) => Some((who, wish))
    case TookSpan(who, wish, _) => Some((who, wish))
    case NoSpan(who, wish) => Some((who, wish))
    case AskLatchNew(who, wish) => Some((who, wish))
    case InLatchNew(who, wish) => Some((who, wish))
    case MadeSpan(who, wish, _) => Some((who, wish))
    case GotSpan(who, wish, _) => Some((who, wish))
    case _ => None
  }

  /** The slot and the block a thread is giving back to the central cache. */
  function GivesBack(pc: Pc): Option<(int, int)> {
    match pc
    case AskSlotBack(slot, x) => Some((slot, x))
    case InSlotBack(slot, x) => Some((slot, x))
    case _ => None
  }

  // ---------------------------------------------------------------- steps

  /** The locks and who owns them, where the threads are, who has which span in hand, and the heap. */
  datatype World = World(owner: map<Lock, nat>, pcs: map<nat, Pc>, hand: map<int, nat>, heap: State)

  /** A thread's choice, and what the system answers. */
  datatype Event =
    | Acquire | Release | Advance
    // MyMalloc
    | NewThread(mapped: PageMap) | LendOwn(wish: Wish) | BeginLocal(wish: Wish) | BeginCentral(wish: Wish)
    // MyFree
    | FreeOwn(x: int) | BeginReturn(x: int) | LoseBlock(x: int)
    // mmap and munmap
    | Map(s: int, mapped: PageMap) | Unmap(mapped: PageMap)

  function OwnList(t: nat, wish: Wish): ListId {
    ThreadList(t, Size2Slot(wish.size))
  }

  /** The list of a thread for a block size. */
  predicate OwnWish(h: State, t: nat, wish: Wish) {
    SizeClass(wish.size) && wish.size < THREAD_CACHE_MAX_SIZE && 0 <= wish.request <= wish.size && t in h.threads &&
    OwnList(t, wish) in h.lists
  }

  predicate SlotWish(slot: int, wish: Wish) {
    SizeClass(wish.size) && THREAD_CACHE_MAX_SIZE < wish.size <= CENTRAL_CACHE_MAX_SIZE &&
    0 <= wish.request <= wish.size && slot == Size2Slot(wish.size)
  }

  /** A block on loan, and the tier its span belongs to. */
  predicate OnLoan(h: State, x: int, tier: Tier) {
    x in h.live && h.live[x].span in h.headers && BlockTier(h.headers[h.live[x].span].blockSize) == tier
  }

  /** Can thread t do this now?  A block is freed by one caller only: the owner of the block gives it up. */
  ghost predicate CanDo(a: World, t: nat, e: Event) {
    t in a.pcs &&
    var pc, h := a.pcs[t], a.heap;
    match e
    case Acquire => Wants(pc).Some? && Wants(pc).value.0 !in a.owner
    case Release => Frees(pc).Some?
    case Advance => pc.InSlot? || pc.InSlotBack? || pc.InPage? || pc.GotSpan? || pc.InPageBack? || pc.HasRoom?
    case NewThread(mapped) =>
      pc == Idle && t !in h.threads && forall i :: i in h.mapped ==> i in mapped && mapped[i] == h.mapped[i]
    case LendOwn(wish) => pc == Idle && OwnWish(h, t, wish) && h.lists[OwnList(t, wish)] != []
    case BeginLocal(wish) => pc == Idle && OwnWish(h, t, wish) && h.lists[OwnList(t, wish)] == []
    case BeginCentral(wish) => pc == Idle && SlotWish(Size2Slot(wish.size), wish)
    case FreeOwn(x) => pc == Idle && OnLoan(h, x, ThreadTier) && h.live[x].thread == t
    case BeginReturn(x) =>
      pc == Idle && OnLoan(h, x, CentralTier) &&
      forall u :: u in a.pcs && GivesBack(a.pcs[u]).Some? ==> GivesBack(a.pcs[u]).value.1 != x
    case LoseBlock(x) => pc == Idle && OnLoan(h, x, NoTier)
    case Map(s, mapped) => pc.InLatchNew? && Mapped(h.mapped, mapped, s, PagesFor(pc.who, pc.wish))
    case Unmap(mapped) => pc.InLatchDel? && Unmapped(h.mapped, mapped, pc.s, pc.n)
  }

  function Move(a: World, t: nat, pc: Pc): World {
    a.(pcs := a.pcs[t := pc])
  }

  /** The state after the step. */
  ghost function Do(a: World, t: nat, e: Event): World
    requires CanDo(a, t, e)
  {
    var pc, h := a.pcs[t], a.heap;
    match e
    case Acquire => Move(a, t, Wants(pc).value.1).(owner := a.owner[Wants(pc).value.0 := t])
    case Release => Move(a, t, Frees(pc).value.1).(owner := a.owner - {Frees(pc).value.0})
    case Advance => Work(a, t, pc)
    case NewThread(mapped) => a.(heap := WithThread(h, t, mapped))
    case LendOwn(wish) => LendFront(a, t, wish)
    case BeginLocal(wish) => Move(a, t, AskPage(ForThread, wish))
    case BeginCentral(wish) => Move(a, t, AskSlot(Size2Slot(wish.size), wish))
    case FreeOwn(x) => TakeBack(a, t, x)
    case BeginReturn(x) => Move(a, t, AskSlotBack(Size2Slot(h.headers[h.live[x].span].blockSize), x))
    case LoseBlock(x) => a.(heap := Lose(h, x))
    case Map(s, mapped) =>
      Move(a, t, MadeSpan(pc.who, pc.wish, s)).(
        heap := Fresh(h, s, PagesFor(pc.who, pc.wish), mapped), hand := a.hand[s := t])
    case Unmap(mapped) => Move(a, t, Deleted(pc.who, pc.n)).(heap := Drop(h, pc.s, mapped), hand := a.hand - {pc.s})
  }

  ghost function WithThread(h: State, t: nat, mapped: PageMap): State {
    h.(mapped := mapped, threads := h.threads + {t},
       lists := h.lists + map n | 0 <= n < TC_SPAN_LIST_NUM :: ThreadList(t, n) := [])
  }

  predicate LendReady(h: State, t: nat, s: int) {
    s in h.free && h.free[s] != [] && s in h.headers && On(h, ThreadList(t, Size2Slot(h.headers[s].blockSize)), s)
  }

  /** DistributeMem when the list has a span. */
  function LendFront(a: World, t: nat, wish: Wish): World
    requires OwnWish(a.heap, t, wish) && a.heap.lists[OwnList(t, wish)] != []
  {
    var s := a.heap.lists[OwnList(t, wish)][0];
    if LendReady(a.heap, t, s) then a.(heap := ThreadLend(a.heap, s, wish.request, t)) else a
  }

  /** TakeBackMem; a span that is fully free is now in the thread's hand. */
  function TakeBack(a: World, t: nat, x: int): World
    requires OnLoan(a.heap, x, ThreadTier)
  {
    if ThreadOwns(a.heap, x) then
      var s, b := a.heap.live[x].span, ThreadReturn(a.heap, x);
      if s in b.holder && b.holder[s] == InHand then
        Move(a, t, AskPageBack(ForThread, a.heap.headers[s].pageNum, s)).(heap := b, hand := a.hand[s := t])
      else a.(heap := b)
    else a
  }

  /** Whose a new span will be. */
  function CacheOf(t: nat, who: Caller): Holder {
    if who.ForSlot? then OfCentral else OfThread(t)
  }

  predicate SupplyReady(h: State, t: nat, who: Caller, wish: Wish, s: int) {
    s in h.headers && wish.size > 0 && BlockCount(h.headers[s].pageNum, wish.size) >= 1 &&
    var cut := Divide(h, s, wish.size);
    HomeList(CacheOf(t, who), cut.headers[s]) in cut.lists &&
    var home := Shelve(cut, s, CacheOf(t, who));
    if who.ForSlot? then s in home.free && home.free[s] != []
    else
      OwnList(t, wish) in home.lists && home.lists[OwnList(t, wish)] != []
      && LendReady(home, t, home.lists[OwnList(t, wish)][0])
  }

  /** A span in hand is split, goes on its list, and the block that was asked for is lent. */
  function Supply(h: State, t: nat, who: Caller, wish: Wish, s: int): State
    requires SupplyReady(h, t, who, wish, s)
  {
    var home := Shelve(Divide(h, s, wish.size), s, CacheOf(t, who));
    if who.ForSlot? then Lend(home, s, wish.request, t)
    else ThreadLend(home, home.lists[OwnList(t, wish)][0], wish.request, t)
  }

  predicate ReturnReady(h: State, slot: int, x: int) {
    x in h.live && h.live[x].span in h.headers && h.live[x].span in h.free && On(h, CentralList(slot), h.live[x].span)
  }

  /** The step inside a locked section, or with a span in hand. */
  function Work(a: World, t: nat, pc: Pc): World {
    var h := a.heap;
    match pc
    case InSlot(slot, wish) =>
      // the walk over the list finds nothing: SlotExhausted
      Move(a, t, AskPage(ForSlot(slot), wish))
    case InSlotBack(slot, x) =>
      if ReturnReady(h, slot, x) then
        var s := h.live[x].span;
        Move(a, t, AskPageBack(ForSlot(slot), h.headers[s].pageNum, s)).(
          heap := Merged(PutBack(h, x), CentralList(slot), s), hand := a.hand[s := t])
      else a
    case InPage(who, wish) =>
      var n := PagesFor(who, wish);
      if PageList(n) in h.lists && h.lists[PageList(n)] != [] then
        var s := h.lists[PageList(n)][0];
        Move(a, t, TookSpan(who, wish, s)).(heap := Unshelve(h, n), hand := a.hand[s := t])
      else Move(a, t, NoSpan(who, wish))
    case GotSpan(who, wish, s) =>
      if SupplyReady(h, t, who, wish, s) then
        Move(a, t, if who.ForSlot? then LeaveSlot(who.slot) else Idle).(
          heap := Supply(h, t, who, wish, s), hand := a.hand - {s})
      else a
    case InPageBack(who, n, s) =>
      if PageList(n) in h.lists && |h.lists[PageList(n)]| < SPAN_MAX_LIST_SIZE then Move(a, t, HasRoom(who, n, s))
      else Move(a, t, AskLatchDel(who, n, s))
    case HasRoom(who, n, s) =>
      if s in h.headers && HomeList(OfPages, h.headers[s]) in h.lists then
        Move(a, t, LeavePage(who, n)).(heap := Shelve(h, s, OfPages), hand := a.hand - {s})
      else a
    case _ => a
  }

  // ---------------------------------------------------------------- the invariant

  predicate Holds(a: World, t: nat, l: Lock) {
    t in a.pcs && l in Held(a.pcs[t])
  }

  /** A lock is owned by the one thread that holds it. */
  ghost predicate LocksOk(a: World) {
    (forall t, l :: Holds(a, t, l) ==> l in a.owner && a.owner[l] == t) &&
    (forall l :: l in a.owner ==> Holds(a, a.owner[l], l))
  }

  predicate WishOk(h: State, t: nat, who: Caller, wish: Wish) {
    match who
    case ForThread => OwnWish(h, t, wish) && h.lists[OwnList(t, wish)] == []
    case ForSlot(slot) => SlotWish(slot, wish)
  }

  /** An unsplit span of some pages in somebody's hand. */
  predicate Carried(h: State, s: int, n: int) {
    s in h.headers && s in h.holder && h.holder[s] == InHand && h.headers[s] == Header(n, -1, 0)
  }

  /** A block on loan from a slot of the central cache. */
  predicate OfSlot(h: State, slot: int, x: int) {
    x in h.live &&
    var s := h.live[x].span;
    s in h.headers && s in h.holder && s in h.free && h.holder[s] == OfCentral &&
    slot == Size2Slot(h.headers[s].blockSize) &&
    BlockTier(h.headers[s].blockSize) == CentralTier
  }

  predicate Room(h: State, n: int) {
    PageList(n) in h.lists && |h.lists[PageList(n)]| < SPAN_MAX_LIST_SIZE
  }

  predicate PcOk(h: State, t: nat, pc: Pc) {
    (Wanted(pc).Some? ==> WishOk(h, t, Wanted(pc).value.0, Wanted(pc).value.1)) &&
    (Hand(pc).Some? ==> Carried(h, Hand(pc).value, HandPages(pc))) &&
    (GivesBack(pc).Some? ==> OfSlot(h, GivesBack(pc).value.0, GivesBack(pc).value.1)) &&
    (pc.HasRoom? ==> Room(h, pc.n))
  }

  ghost predicate ThreadsOk(a: World) {
    forall t :: t in a.pcs ==> PcOk(a.heap, t, a.pcs[t])
  }

  /** A span that is in no cache is in the hand of one thread. */
  ghost predicate HandsOk(a: World) {
    (forall s :: s in a.hand <==> s in a.heap.holder && a.heap.holder[s] == InHand) &&
    (forall s :: s in a.hand ==> a.hand[s] in a.pcs && Hand(a.pcs[a.hand[s]]) == Some(s)) &&
    (forall t :: t in a.pcs && Hand(a.pcs[t]).Some? ==>
       Hand(a.pcs[t]).value in a.hand && a.hand[Hand(a.pcs[t]).value] == t)
  }

  /** No block is being given back twice. */
  ghost predicate ReturnsOk(a: World) {
    forall t, u :: t in a.pcs && u in a.pcs && t != u && GivesBack(a.pcs[t]).Some? && GivesBack(a.pcs[u]).Some? ==>
      GivesBack(a.pcs[t]).value.1 != GivesBack(a.pcs[u]).value.1
  }

  ghost predicate SettledSpan(h: State, s: int) {
    s in h.headers && s in h.holder && s in h.free && h.holder[s] != InHand ==> QuietSpan(h, s)
  }

  /** Spans that nobody has in hand are as between two calls. */
  ghost predicate Settled(h: State) {
    forall s :: s in h.headers ==> SettledSpan(h, s)
  }

  ghost predicate Safe(a: World) {
    LocksOk(a) && ThreadsOk(a) && HandsOk(a) && ReturnsOk(a) && Settled(a.heap) && Inv(a.heap)
  }

  // ---------------------------------------------------------------- locks

  lemma HeldAcquired(pc: Pc)
    requires Wants(pc).Some?
    ensures Held(Wants(pc).value.1) == Held(pc) + {Wants(pc).value.0}
  {
    hide PagesFor;
  }

  lemma HeldReleased(pc: Pc)
    requires Frees(pc).Some?
    ensures Frees(pc).value.0 in Held(pc) && Held(Frees(pc).value.1) == Held(pc) - {Frees(pc).value.0}
  {
    hide PagesFor;
  }

  ghost predicate SameLocks(a: World, b: World, t: nat) {
    t in a.pcs && t in b.pcs && b.pcs == a.pcs[t := b.pcs[t]] && b.owner == a.owner && Held(b.pcs[t]) == Held(a.pcs[t])
  }

  lemma HeldAtWork(a: World, t: nat)
    requires t in a.pcs
    ensures SameLocks(a, Work(a, t, a.pcs[t]), t)
  {
    hide PagesFor, ReturnReady, SupplyReady, Supply, Shelve, Unshelve, Merged, PutBack;
    match a.pcs[t]
    case InSlotBack(slot, x) =>
    case GotSpan(who, wish, s) =>
    case HasRoom(who, n, s) =>
    case InPage(who, wish) =>
    case InPageBack(who, n, s) =>
    case InSlot(slot, wish) =>
    case _ =>
  }

  /** In its own cache, and while it begins something, a thread holds no lock. */
  lemma HeldAtOwn(a: World, t: nat, e: Event)
    requires CanDo(a, t, e) && (e.NewThread? || e.LendOwn? || e.BeginLocal? || e.BeginCentral? || e.FreeOwn? || e.BeginReturn?
                                || e.LoseBlock?)
    ensures SameLocks(a, Do(a, t, e), t)
  {
    hide PagesFor, ThreadReturn, ThreadLend, ThreadOwns, LendReady, OwnWish, SlotWish, OnLoan, Size2Slot, Lose,
      WithThread;
    match e
    case FreeOwn(x) =>
    case LendOwn(wish) =>
    case _ =>
  }

  lemma HeldAtSystem(a: World, t: nat, e: Event)
    requires CanDo(a, t, e) && (e.Map? || e.Unmap?)
    ensures SameLocks(a, Do(a, t, e), t)
  {
    hide PagesFor, Mapped, Unmapped, Fresh, Drop;
  }

  /** What a step does to the locks a thread holds. */
  lemma HeldAfter(a: World, t: nat, e: Event)
    requires CanDo(a, t, e)
    ensures var b, pc := Do(a, t, e), a.pcs[t];
            t in b.pcs && b.pcs == a.pcs[t := b.pcs[t]]
            && match e
               case Acquire => Held(b.pcs[t]) == Held(pc) + {Wants(pc).value.0}
                 && b.owner == a.owner[Wants(pc).value.0 := t]
               case Release =>
                 Held(b.pcs[t]) == Held(pc) - {Frees(pc).value.0} && Frees(pc).value.0 in Held(pc)
                 && b.owner == a.owner - {Frees(pc).value.0}
               case _ => Held(b.pcs[t]) == Held(pc) && b.owner == a.owner
  {
    hide Wants, Frees, Held, Work;
    match e
    case Acquire => HeldAcquired(a.pcs[t]);
    case Release => HeldReleased(a.pcs[t]);
    case Advance => HeldAtWork(a, t);
    case Map(_, _) => HeldAtSystem(a, t, e);
    case Unmap(_) => HeldAtSystem(a, t, e);
    case _ => HeldAtOwn(a, t, e);
  }

  lemma LocksKeep(a: World, t: nat, e: Event)
    requires LocksOk(a) && CanDo(a, t, e)
    ensures LocksOk(Do(a, t, e))
  {
    HeldAfter(a, t, e);
    hide Held, Wants, Frees, Do;
    var b := Do(a, t, e);
    assert e.Release? ==> Holds(a, t, Frees(a.pcs[t]).value.0);
    forall u, l | Holds(b, u, l) ensures l in b.owner && b.owner[l] == u {
      assert u != t ==> Holds(a, u, l);
      assert u == t && l in Held(a.pcs[t]) ==> Holds(a, t, l);
    }
    forall l | l in b.owner ensures Holds(b, b.owner[l], l) {
      assert l in a.owner ==> Holds(a, a.owner[l], l);
    }
  }

  // ---------------------------------------------------------------- steps that only move a program counter

  /** What Safe says besides the locks. */
  ghost predicate CoreSafe(a: World) {
    ThreadsOk(a) && HandsOk(a) && ReturnsOk(a) && Settled(a.heap) && Inv(a.heap)
  }

  lemma MoveKeeps(a: World, b: World, t: nat)
    requires CoreSafe(a) && t in a.pcs && b.heap == a.heap && b.hand == a.hand
    requires t in b.pcs && b.pcs == a.pcs[t := b.pcs[t]] && PcOk(b.heap, t, b.pcs[t]) && Hand(b.pcs[t]) == Hand(a.pcs[t])
    requires GivesBack(b.pcs[t]).Some? ==>
               forall u :: u in a.pcs && u != t && GivesBack(a.pcs[u]).Some? ==>
                 GivesBack(a.pcs[u]).value.1 != GivesBack(b.pcs[t]).value.1
    ensures CoreSafe(b)
  {
    hide PcOk, Hand, GivesBack, Inv, Settled;
  }

  lemma SamePcFacts(pc: Pc, pc': Pc)
    requires (Wants(pc).Some? && pc' == Wants(pc).value.1) || (Frees(pc).Some? && pc' == Frees(pc).value.1)
    ensures Hand(pc') == Hand(pc) && (Hand(pc).Some? ==> HandPages(pc') == HandPages(pc)) && GivesBack(pc') == GivesBack(pc)
    ensures Wanted(pc').Some? ==> Wanted(pc') == Wanted(pc)
    ensures !pc'.HasRoom?
  {
    hide PagesFor;
  }

  lemma LockStepKeeps(a: World, t: nat, e: Event)
    requires CoreSafe(a) && CanDo(a, t, e) && (e.Acquire? || e.Release?)
    ensures CoreSafe(Do(a, t, e))
  {
    var b := Do(a, t, e);
    SamePcFacts(a.pcs[t], b.pcs[t]);
    hide Wants, Frees, Hand, HandPages, GivesBack, Wanted, Inv, WishOk, Carried, OfSlot, Room, Settled, HandsOk;
    assert PcOk(a.heap, t, a.pcs[t]);
    MoveKeeps(a, b, t);
  }

  lemma BeginKeeps(a: World, t: nat, e: Event)
    requires CoreSafe(a) && CanDo(a, t, e) && (e.BeginLocal? || e.BeginCentral? || e.BeginReturn?)
    ensures CoreSafe(Do(a, t, e))
  {
    hide Inv, Settled, HandsOk, OwnWish, SlotWish;
    var b := Do(a, t, e);
    if e.BeginReturn? {
      CentralLoan(a.heap, e.x);
    }
    MoveKeeps(a, b, t);
  }

  /** A block of the central tier is from a span of the central cache. */
  lemma CentralLoan(h: State, x: int)
    requires Inv(h) && OnLoan(h, x, CentralTier)
    ensures OfSlot(h, Size2Slot(h.headers[h.live[x].span].blockSize), x)
  {
    hide HeaderOk, HomeList, On, IsBlock, Listed, Accounted, ListsInv, TablesOk, DeadSpansOk;
    assert LoanInv(h, x) && SpanInv(h, h.live[x].span);
  }

  lemma DecideKeeps(a: World, t: nat)
    requires CoreSafe(a) && CanDo(a, t, Advance) && (a.pcs[t].InSlot? || a.pcs[t].InPageBack? || a.pcs[t].InPage?)
    requires a.pcs[t].InPage? ==>
               var id := PageList(PagesFor(a.pcs[t].who, a.pcs[t].wish)); id !in a.heap.lists || a.heap.lists[id] == []
    ensures CoreSafe(Do(a, t, Advance))
  {
    hide Inv, Settled, HandsOk, ReturnsOk, WishOk, Carried, PagesFor, OfSlot;
    var pc, b := a.pcs[t], Do(a, t, Advance);
    assert PcOk(a.heap, t, pc);
    match pc
    case InSlot(slot, wish) => assert b.pcs[t] == AskPage(ForSlot(slot), wish); MoveKeeps(a, b, t);
    case InPage(who, wish) => assert b.pcs[t] == NoSpan(who, wish); MoveKeeps(a, b, t);
    case InPageBack(who, n, s) => DecideBack(a, t);
  }

  lemma DecideBack(a: World, t: nat)
    requires CoreSafe(a) && CanDo(a, t, Advance) && a.pcs[t].InPageBack?
    ensures CoreSafe(Do(a, t, Advance))
  {
    hide Inv, Settled, HandsOk, ReturnsOk, WishOk, Carried, PagesFor, OfSlot;
    assert PcOk(a.heap, t, a.pcs[t]);
    MoveKeeps(a, Do(a, t, Advance), t);
  }

  // ---------------------------------------------------------------- steps that touch one span

  /** The step of thread t touches span s only, and no list of another thread. */
  ghost predicate Touches(a: World, b: World, t: nat, s: int) {
    t in a.pcs && t in b.pcs && b.pcs == a.pcs[t := b.pcs[t]] && OnlySpan(a.heap, b.heap, s) &&
    (forall x :: x != s ==> (x in a.hand <==> x in b.hand)) &&
    (forall x :: x != s && x in a.hand && x in b.hand ==> a.hand[x] == b.hand[x]) &&
    OtherLists(a.heap, b.heap, t)
  }

  ghost predicate OtherLists(g: State, h: State, t: nat) {
    forall id :: id in g.lists && id.ThreadList? && id.thread != t ==> id in h.lists && h.lists[id] == g.lists[id]
  }

  /** No list of the page cache gets longer. */
  ghost predicate NoLonger(g: State, h: State) {
    forall n :: PageList(n) in g.lists ==> PageList(n) in h.lists && |h.lists[PageList(n)]| <= |g.lists[PageList(n)]|
  }

  /** Other threads have nothing to do with the span. */
  ghost predicate Uninvolved(a: World, t: nat, s: int) {
    forall u :: u in a.pcs && u != t ==> Elsewhere(a.heap, a.pcs[u], s)
  }

  ghost predicate Elsewhere(h: State, pc: Pc, s: int) {
    Hand(pc) != Some(s) &&
    (GivesBack(pc).Some? ==> GivesBack(pc).value.1 in h.live && h.live[GivesBack(pc).value.1].span != s)
  }

  /** What the step has to show for its own thread and span. */
  ghost predicate OwnOk(a: World, b: World, t: nat, s: int) {
    t in a.pcs && t in b.pcs && PcOk(b.heap, t, b.pcs[t]) && GivesBack(b.pcs[t]) == None &&
    (Hand(a.pcs[t]).Some? ==> Hand(a.pcs[t]).value == s) &&
    (Hand(b.pcs[t]).Some? ==> Hand(b.pcs[t]).value == s) &&
    (s in b.hand <==> s in b.heap.holder && b.heap.holder[s] == InHand) &&
    (s in b.hand <==> Hand(b.pcs[t]) == Some(s)) && (s in b.hand ==> b.hand[s] == t) &&
    SettledSpan(b.heap, s)
  }

  lemma OneSpanKeeps(a: World, b: World, t: nat, s: int)
    requires CoreSafe(a) && Touches(a, b, t, s) && Uninvolved(a, t, s) && OwnOk(a, b, t, s) && Inv(b.heap)
    requires forall u :: u in a.pcs && u != t && a.pcs[u].HasRoom? ==> Room(b.heap, a.pcs[u].n)
    ensures CoreSafe(b)
  {
    hide Inv;
    OtherThreadsKeep(a, b, t, s);
    OtherHandsKeep(a, b, t, s);
    OtherSpansSettled(a.heap, b.heap, s);
  }

  lemma OtherThreadsKeep(a: World, b: World, t: nat, s: int)
    requires ThreadsOk(a) && ReturnsOk(a) && Touches(a, b, t, s) && Uninvolved(a, t, s) && OwnOk(a, b, t, s)
    requires forall u :: u in a.pcs && u != t && a.pcs[u].HasRoom? ==> Room(b.heap, a.pcs[u].n)
    ensures ThreadsOk(b) && ReturnsOk(b)
  {
    hide PcOk, Room, Elsewhere, OnlySpan, OtherLists, SettledSpan, Hand, GivesBack;
    forall u | u in b.pcs ensures PcOk(b.heap, u, b.pcs[u]) {
      if u != t {
        assert Elsewhere(a.heap, a.pcs[u], s);
        OtherPcKeeps(a.heap, b.heap, t, s, u, a.pcs[u]);
      }
    }
  }

  lemma OtherPcKeeps(g: State, h: State, t: nat, s: int, u: nat, pc: Pc)
    requires PcOk(g, u, pc) && u != t && OnlySpan(g, h, s) && OtherLists(g, h, t) && Elsewhere(g, pc, s)
    requires pc.HasRoom? ==> Room(h, pc.n)
    ensures PcOk(h, u, pc)
  {
    hide HandPages, Wanted, Hand, GivesBack, On, SizeClass, Owns, Size2Slot, Room;
    if Hand(pc).Some? {
      assert SameSpan(g, h, Hand(pc).value);
    }
    if GivesBack(pc).Some? {
      assert SameSpan(g, h, g.live[GivesBack(pc).value.1].span);
    }
  }

  lemma OtherHandsKeep(a: World, b: World, t: nat, s: int)
    requires HandsOk(a) && Touches(a, b, t, s) && Uninvolved(a, t, s) && OwnOk(a, b, t, s)
    ensures HandsOk(b)
  {
    hide PcOk, On, Owns, OtherLists, SettledSpan, Hand, GivesBack;
    forall x ensures x in b.hand <==> x in b.heap.holder && b.heap.holder[x] == InHand {
      if x != s {
        assert SameSpan(a.heap, b.heap, x);
        assert x in a.hand <==> x in b.hand;
      }
    }
    forall u | u in b.pcs && Hand(b.pcs[u]).Some?
      ensures Hand(b.pcs[u]).value in b.hand && b.hand[Hand(b.pcs[u]).value] == u
    {
      if u != t {
        assert Elsewhere(a.heap, a.pcs[u], s);
        var x := Hand(a.pcs[u]).value;
        assert x in a.hand && a.hand[x] == u && x != s;
        assert x in b.hand;
      }
    }
    forall x | x in b.hand ensures b.hand[x] in b.pcs && Hand(b.pcs[b.hand[x]]) == Some(x) {
      if x != s {
        assert x in a.hand;
        assert a.hand[x] == b.hand[x];
      }
    }
  }

  lemma OtherSpansSettled(g: State, h: State, s: int)
    requires Settled(g) && OnlySpan(g, h, s) && SettledSpan(h, s)
    ensures Settled(h)
  {
    forall x | x in h.headers ensures SettledSpan(h, x) {
      if x != s {
        assert SameSpan(g, h, x);
        assert x in g.headers;
        assert SettledSpan(g, x);
      }
    }
  }

  /** A span that no other thread has in hand, or is returning a block of, is nobody else's business. */
  lemma Mine(a: World, t: nat, s: int)
    requires ThreadsOk(a) && HandsOk(a)
    requires s in a.hand ==> a.hand[s] == t
    requires s in a.heap.holder && a.heap.holder[s] == OfCentral ==>
               forall u :: (u in a.pcs && u != t && GivesBack(a.pcs[u]).Some?
                            && GivesBack(a.pcs[u]).value.1 in a.heap.live) ==>
                 a.heap.live[GivesBack(a.pcs[u]).value.1].span != s
    ensures Uninvolved(a, t, s)
  {
    hide Hand, GivesBack, HandPages, Wanted, WishOk, Room;
    forall u | u in a.pcs && u != t ensures Elsewhere(a.heap, a.pcs[u], s) {
      assert PcOk(a.heap, u, a.pcs[u]);
    }
  }

  lemma RoomsStay(a: World, b: World)
    requires ThreadsOk(a) && NoLonger(a.heap, b.heap)
    ensures forall u :: u in a.pcs && a.pcs[u].HasRoom? ==> Room(b.heap, a.pcs[u].n)
  {
    hide Hand, GivesBack, HandPages, Wanted, WishOk, Carried, OfSlot;
    forall u | u in a.pcs && a.pcs[u].HasRoom? ensures Room(b.heap, a.pcs[u].n) {
      assert PcOk(a.heap, u, a.pcs[u]);
    }
  }

  // ---------------------------------------------------------------- in a thread's own cache

  /** The front span of a thread's list for a block size: it has that block size and a free block. */
  lemma FrontOfOwn(h: State, t: nat, wish: Wish)
    requires Inv(h) && OwnWish(h, t, wish) && h.lists[OwnList(t, wish)] != []
    ensures var s := h.lists[OwnList(t, wish)][0];
            LendReady(h, t, s) && s in h.holder && h.holder[s] == OfThread(t) && h.headers[s].blockSize == wish.size
  {
    hide HeaderOk, IsBlock, Accounted, LoansInv, TablesOk, DeadSpansOk, NoDup, Owns, SizeClass;
    var s := h.lists[OwnList(t, wish)][0];
    assert s in h.lists[OwnList(t, wish)];
    assert On(h, OwnList(t, wish), s);
    OnItsList(h, OwnList(t, wish), s);
    assert SpanInv(h, s);
    SlotsAreOrdered(h.headers[s].blockSize, wish.size, 4);
    SlotsAreOrdered(wish.size, h.headers[s].blockSize, 4);
  }

  lemma LendOwnKeeps(a: World, t: nat, wish: Wish)
    requires CoreSafe(a) && CanDo(a, t, LendOwn(wish))
    ensures CoreSafe(Do(a, t, LendOwn(wish)))
  {
    hide Inv, OnlySpan, QuietSpan, Settled, ThreadsOk, HandsOk, ReturnsOk, SizeClass;
    var b, s := Do(a, t, LendOwn(wish)), a.heap.lists[OwnList(t, wish)][0];
    FrontOfOwn(a.heap, t, wish);
    ThreadLendStep(a.heap, s, wish.request, t);
    LendFrame(a.heap, s, wish.request, t);
    NotInHand(a, s);
    Mine(a, t, s);
    RoomsStay(a, b);
    hide ThreadLend;
    assert b.heap == ThreadLend(a.heap, s, wish.request, t);
    OneSpanKeeps(a, b, t, s);
  }

  lemma LendFrame(h: State, s: int, size: int, t: nat)
    requires s in h.free && h.free[s] != [] && s in h.headers
    requires On(h, ThreadList(t, Size2Slot(h.headers[s].blockSize)), s)
    ensures var b := ThreadLend(h, s, size, t);
            OtherLists(h, b, t) && NoLonger(h, b) && b.holder == h.holder && b.headers == h.headers
  {
  }

  lemma NotInHand(a: World, s: int)
    requires HandsOk(a) && s in a.heap.holder && a.heap.holder[s] != InHand
    ensures s !in a.hand
  {
  }

  lemma FreeOwnKeeps(a: World, t: nat, x: int)
    requires CoreSafe(a) && CanDo(a, t, FreeOwn(x))
    ensures CoreSafe(Do(a, t, FreeOwn(x)))
  {
    hide Inv, OnlySpan, QuietSpan, Settled, ThreadsOk, HandsOk, ReturnsOk, ThreadReturn, ThreadOwns, NoLonger,
      OtherLists, Uninvolved, Unlisted;
    var b, s := Do(a, t, FreeOwn(x)), a.heap.live[x].span;
    ThreadLoan(a.heap, x);
    SettledAt(a.heap, s);
    ThreadReturnStep(a.heap, x);
    ReturnFrame(a.heap, x);
    assert b.heap == ThreadReturn(a.heap, x);
    NotInHand(a, s);
    Mine(a, t, s);
    RoomsStay(a, b);
    assert OwnOk(a, b, t, s);
    assert Touches(a, b, t, s);
    hide OwnOk, Touches;
    OneSpanKeeps(a, b, t, s);
  }

  lemma SettledAt(h: State, s: int)
    requires Settled(h) && s in h.headers && s in h.holder && s in h.free && h.holder[s] != InHand
    ensures QuietSpan(h, s)
  {
    assert SettledSpan(h, s);
  }

  /** A block of the thread tier is from a span of the cache of the thread that took it. */
  lemma ThreadLoan(h: State, x: int)
    requires Inv(h) && OnLoan(h, x, ThreadTier)
    ensures var s := h.live[x].span;
            s in h.headers && s in h.holder && s in h.free && h.holder[s] == OfThread(h.live[x].thread)
  {
    hide HeaderOk, HomeList, On, IsBlock, Listed, Accounted, ListsInv, TablesOk, DeadSpansOk;
    assert LoanInv(h, x) && SpanInv(h, h.live[x].span);
  }

  lemma ReturnFrame(h: State, x: int)
    requires ThreadOwns(h, x) && h.live[x].span in h.holder && h.holder[h.live[x].span] == OfThread(h.live[x].thread)
    ensures var s, b := h.live[x].span, ThreadReturn(h, x);
            OtherLists(h, b, h.live[x].thread) && NoLonger(h, b)
            && s in b.holder && s in b.headers && s in b.free
            && (b.holder[s] == InHand ==> b.headers[s] == Header(h.headers[s].pageNum, -1, 0))
            && (|h.free[s]| + 1 == h.headers[s].blockNum && h.headers[s].blockNum != 1 ==> b.holder[s] == InHand)
  {
  }

  lemma LoseBlockKeeps(a: World, t: nat, x: int)
    requires CoreSafe(a) && CanDo(a, t, LoseBlock(x))
    ensures CoreSafe(Do(a, t, LoseBlock(x)))
  {
    hide Inv, OnlySpan, QuietSpan, Settled, HandsOk, ReturnsOk;
    var b, s := Do(a, t, LoseBlock(x)), a.heap.live[x].span;
    LargestLoan(a.heap, x);
    LoseStep(a.heap, x);
    assert QuietSpan(a.heap, s) by { SettledAt(a.heap, s); }
    NotInHand(a, s);
    forall u | u in a.pcs && u != t && GivesBack(a.pcs[u]).Some? && GivesBack(a.pcs[u]).value.1 in a.heap.live
      ensures a.heap.live[GivesBack(a.pcs[u]).value.1].span != s
    {
      assert PcOk(a.heap, u, a.pcs[u]);
    }
    Mine(a, t, s);
    RoomsStay(a, b);
    OneSpanKeeps(a, b, t, s);
  }

  lemma LargestLoan(h: State, x: int)
    requires Inv(h) && OnLoan(h, x, NoTier)
    ensures var s := h.live[x].span; s in h.headers && s in h.holder && s in h.free && h.holder[s] == OfCentral
  {
    hide HeaderOk, HomeList, On, IsBlock, Listed, Accounted, ListsInv, TablesOk, DeadSpansOk;
    assert LoanInv(h, x) && SpanInv(h, h.live[x].span);
  }

  /** A thread gets a cache of its own. */
  lemma NewThreadSafe(a: World, t: nat, mapped: PageMap)
    requires CoreSafe(a) && CanDo(a, t, NewThread(mapped))
    ensures CoreSafe(Do(a, t, NewThread(mapped)))
  {
    hide Inv, QuietSpan, Hand, GivesBack, Wanted, HandPages, Size2Slot, SizeClass;
    var b := Do(a, t, NewThread(mapped));
    NoListsYet(a.heap, t);
    NewThreadKeeps(a.heap, t, mapped, b.heap.lists);
    forall u | u in b.pcs ensures PcOk(b.heap, u, b.pcs[u]) {
      assert PcOk(a.heap, u, a.pcs[u]);
    }
    SameSettled(a.heap, b.heap);
  }

  lemma NoListsYet(h: State, t: nat)
    requires Inv(h) && t !in h.threads
    ensures forall n :: ThreadList(t, n) !in h.lists
  {
  }

  lemma SameSettled(g: State, h: State)
    requires Settled(g) && g.headers == h.headers && g.holder == h.holder && g.free == h.free
    ensures Settled(h)
  {
    forall s | s in h.headers ensures SettledSpan(h, s) {
      assert SettledSpan(g, s);
    }
  }

  // ---------------------------------------------------------------- under a slot's lock

  /** Between two steps no span on a list of the central cache has a free block: the walk for one finds none. */
  lemma SlotExhausted(h: State, slot: int, s: int)
    requires Inv(h) && Settled(h) && On(h, CentralList(slot), s)
    ensures s in h.free && h.free[s] == []
  {
    hide HeaderOk, IsBlock, Accounted, Listed, LoansInv, TablesOk, NoDup, Owns, Proper;
    OnItsList(h, CentralList(slot), s);
    assert SpanInv(h, s) && SettledSpan(h, s);
  }

  /** A block comes back to its slot: its span, which has no other block, leaves the list. */
  lemma SlotReturnKeeps(a: World, t: nat)
    requires CoreSafe(a) && CanDo(a, t, Advance) && a.pcs[t].InSlotBack?
    ensures CoreSafe(Do(a, t, Advance))
  {
    hide Inv, OnlySpan, QuietSpan, Settled, HandsOk, ReturnsOk, NoLonger, OtherLists, Uninvolved, Unlisted, On;
    var x, slot, b := a.pcs[t].x, a.pcs[t].slot, Do(a, t, Advance);
    assert PcOk(a.heap, t, a.pcs[t]);
    var s := a.heap.live[x].span;
    SettledAt(a.heap, s);
    CentralReturnStep(a.heap, x);
    SlotReturnFrame(a.heap, slot, x, t);
    assert b.heap == Merged(PutBack(a.heap, x), CentralList(slot), s);
    hide Merged, PutBack;
    NotInHand(a, s);
    OneBlockOnly(a, t);
    Mine(a, t, s);
    RoomsStay(a, b);
    assert OwnOk(a, b, t, s);
    assert Touches(a, b, t, s);
    hide OwnOk, Touches;
    OneSpanKeeps(a, b, t, s);
  }

  lemma SlotReturnFrame(h: State, slot: int, x: int, t: nat)
    requires ReturnReady(h, slot, x)
    ensures var s := h.live[x].span;
            On(PutBack(h, x), CentralList(slot), s)
            && var b := Merged(PutBack(h, x), CentralList(slot), s);
               OtherLists(h, b, t) && NoLonger(h, b) && s in b.holder && s in b.headers && b.holder[s] == InHand
               && b.headers[s] == Header(h.headers[s].pageNum, -1, 0)
  {
  }

  /** Nobody else is returning a block of the same central span: the span has one block. */
  lemma OneBlockOnly(a: World, t: nat)
    requires ThreadsOk(a) && ReturnsOk(a) && Inv(a.heap) && t in a.pcs && GivesBack(a.pcs[t]).Some?
    requires GivesBack(a.pcs[t]).value.1 in a.heap.live
    ensures forall u :: u in a.pcs && u != t && GivesBack(a.pcs[u]).Some? ==>
              GivesBack(a.pcs[u]).value.1 in a.heap.live
              && a.heap.live[GivesBack(a.pcs[u]).value.1].span != a.heap.live[GivesBack(a.pcs[t]).value.1].span
  {
    hide Inv, Hand, HandPages, Wanted, WishOk, Carried, Room, GivesBack;
    forall u | u in a.pcs && u != t && GivesBack(a.pcs[u]).Some?
      ensures GivesBack(a.pcs[u]).value.1 in a.heap.live
              && a.heap.live[GivesBack(a.pcs[u]).value.1].span != a.heap.live[GivesBack(a.pcs[t]).value.1].span
    {
      assert PcOk(a.heap, u, a.pcs[u]) && PcOk(a.heap, t, a.pcs[t]);
      if a.heap.live[GivesBack(a.pcs[u]).value.1].span == a.heap.live[GivesBack(a.pcs[t]).value.1].span {
        OneBlock(a.heap, GivesBack(a.pcs[u]).value.1, GivesBack(a.pcs[t]).value.1);
      }
    }
  }

  lemma OneBlock(h: State, x: int, y: int)
    requires Inv(h) && x in h.live && y in h.live && h.live[x].span == h.live[y].span
    requires h.live[x].span in h.holder && h.holder[h.live[x].span] == OfCentral
    ensures x == y
  {
    hide HeaderOk, HomeList, On, Listed, Accounted, ListsInv, TablesOk, DeadSpansOk, Owns;
    assert LoanInv(h, x) && LoanInv(h, y) && SpanInv(h, h.live[x].span);
  }

  // ---------------------------------------------------------------- under the lock of a page list, or latch_

  /** The page cache hands out the front span of a list. */
  lemma TakeFrontKeeps(a: World, t: nat)
    requires CoreSafe(a) && CanDo(a, t, Advance) && a.pcs[t].InPage?
    requires var id := PageList(PagesFor(a.pcs[t].who, a.pcs[t].wish)); id in a.heap.lists && a.heap.lists[id] != []
    ensures CoreSafe(Do(a, t, Advance))
  {
    hide Inv, OnlySpan, QuietSpan, Settled, HandsOk, ReturnsOk, NoLonger, OtherLists, Uninvolved, PagesFor, WishOk;
    var n, b := PagesFor(a.pcs[t].who, a.pcs[t].wish), Do(a, t, Advance);
    var s := a.heap.lists[PageList(n)][0];
    assert PcOk(a.heap, t, a.pcs[t]);
    UnshelveStep(a.heap, n);
    UnshelveFrame(a.heap, n, t);
    NotInHand(a, s);
    Mine(a, t, s);
    RoomsStay(a, b);
    WishStays(a.heap, b.heap, t, a.pcs[t].who, a.pcs[t].wish);
    assert OwnOk(a, b, t, s);
    assert Touches(a, b, t, s);
    hide OwnOk, Touches;
    OneSpanKeeps(a, b, t, s);
  }

  lemma UnshelveFrame(h: State, n: int, t: nat)
    requires PageList(n) in h.lists && h.lists[PageList(n)] != []
    ensures var b := Unshelve(h, n);
            AllThreadLists(h, b) && OtherLists(h, b, t) && NoLonger(h, b)
  {
  }

  /** No list of a thread cache changes. */
  ghost predicate AllThreadLists(g: State, h: State) {
    g.threads == h.threads && forall id :: id in g.lists && id.ThreadList? ==> id in h.lists && h.lists[id] == g.lists[id]
  }

  lemma WishStays(g: State, h: State, t: nat, who: Caller, wish: Wish)
    requires WishOk(g, t, who, wish) && AllThreadLists(g, h)
    ensures WishOk(h, t, who, wish)
  {
    hide SizeClass, Size2Slot;
  }

  /** How many pages a cache asks for. */
  lemma PagesInRange(h: State, t: nat, who: Caller, wish: Wish)
    requires WishOk(h, t, who, wish)
    ensures 1 <= PagesFor(who, wish) < PC_SPAN_LIST_NUM && wish.size > 0
    ensures var n := BlockCount(PagesFor(who, wish), wish.size); if who.ForSlot? then n == 1 else n >= 2
  {
    hide FetchPages, CentralPages, BlockCount, Size2Slot;
    if who.ForSlot? { CentralSpans(wish.size); } else { ThreadSpans(wish.size); }
  }

  /** A span is made. */
  lemma MapKeeps(a: World, t: nat, s: int, mapped: PageMap)
    requires CoreSafe(a) && CanDo(a, t, Map(s, mapped))
    ensures CoreSafe(Do(a, t, Map(s, mapped)))
  {
    hide Inv, OnlySpan, QuietSpan, Settled, ReturnsOk, NoLonger, OtherLists, Uninvolved, PagesFor, WishOk, Mapped;
    var pc, b := a.pcs[t], Do(a, t, Map(s, mapped));
    assert PcOk(a.heap, t, pc);
    PagesInRange(a.heap, t, pc.who, pc.wish);
    FreshStep(a.heap, s, PagesFor(pc.who, pc.wish), mapped);
    NotHeld(a.heap, s);
    FreshFrame(a.heap, s, PagesFor(pc.who, pc.wish), mapped, t);
    Mine(a, t, s);
    RoomsStay(a, b);
    WishStays(a.heap, b.heap, t, pc.who, pc.wish);
    assert OwnOk(a, b, t, s);
    assert Touches(a, b, t, s);
    hide OwnOk, Touches, HandsOk;
    OneSpanKeeps(a, b, t, s);
  }

  lemma NotHeld(h: State, s: int)
    requires Inv(h) && s !in h.headers
    ensures s !in h.holder
  {
  }

  lemma FreshFrame(h: State, s: int, n: int, mapped: PageMap, t: nat)
    ensures var b := Fresh(h, s, n, mapped); AllThreadLists(h, b) && OtherLists(h, b, t) && NoLonger(h, b)
  {
  }

  /** The page cache keeps a span: nobody else has pushed since there was room. */
  lemma KeepKeeps(a: World, t: nat)
    requires Safe(a) && CanDo(a, t, Advance) && a.pcs[t].HasRoom?
    ensures CoreSafe(Do(a, t, Advance))
  {
    hide Inv, OnlySpan, QuietSpan, Settled, ReturnsOk, OtherLists, Uninvolved, LocksOk;
    var n, s, b := a.pcs[t].n, a.pcs[t].s, Do(a, t, Advance);
    assert PcOk(a.heap, t, a.pcs[t]);
    CarriedFacts(a.heap, s, n);
    assert HomeList(OfPages, a.heap.headers[s]) == PageList(n);
    ShelveStep(a.heap, s, OfPages);
    ShelveFrame(a.heap, s, OfPages, t);
    Mine(a, t, s);
    forall u | u in a.pcs && u != t && a.pcs[u].HasRoom? ensures Room(b.heap, a.pcs[u].n) {
      AloneOnPage(a, t, u);
      assert PcOk(a.heap, u, a.pcs[u]);
    }
    assert SettledSpan(b.heap, s) by { ShelvedIsQuiet(a.heap, s); }
    assert OwnOk(a, b, t, s);
    assert Touches(a, b, t, s);
    hide OwnOk, Touches, HandsOk, ThreadsOk;
    OneSpanKeeps(a, b, t, s);
  }

  lemma CarriedFacts(h: State, s: int, n: int)
    requires Inv(h) && Carried(h, s, n)
    ensures s in h.free && h.free[s] == []
  {
    hide HeaderOk, HomeList, On, Listed, Accounted, ListsInv, TablesOk, DeadSpansOk, Owns, LoansInv;
    assert SpanInv(h, s);
    UnsplitIsEmpty(h, s);
  }

  lemma ShelvedIsQuiet(h: State, s: int)
    requires s in h.headers && HomeList(OfPages, h.headers[s]) in h.lists
    ensures SettledSpan(Shelve(h, s, OfPages), s)
  {
  }

  lemma ShelveFrame(h: State, s: int, who: Holder, t: nat)
    requires s in h.headers && HomeList(who, h.headers[s]) in h.lists
    requires who.OfThread? ==> who.thread == t
    ensures OtherLists(h, Shelve(h, s, who), t)
    ensures who == OfPages || who == OfCentral ==> AllThreadLists(h, Shelve(h, s, who))
    ensures who.OfThread? || who == OfCentral ==> NoLonger(h, Shelve(h, s, who))
  {
  }

  lemma AloneOnPage(a: World, t: nat, u: nat)
    requires LocksOk(a) && t in a.pcs && u in a.pcs && t != u && a.pcs[t].HasRoom? && a.pcs[u].HasRoom?
    ensures a.pcs[u].n != a.pcs[t].n
  {
    if a.pcs[u].n == a.pcs[t].n {
      assert Holds(a, t, PageLock(a.pcs[t].n)) && Holds(a, u, PageLock(a.pcs[t].n));
      assert false;
    }
  }

  /** A span goes back to the system. */
  lemma DeleteKeeps(a: World, t: nat, mapped: PageMap)
    requires CoreSafe(a) && CanDo(a, t, Unmap(mapped))
    ensures CoreSafe(Do(a, t, Unmap(mapped)))
  {
    hide Inv, OnlySpan, QuietSpan, Settled, ReturnsOk, OtherLists, NoLonger, Uninvolved, Unmapped;
    var n, s, b := a.pcs[t].n, a.pcs[t].s, Do(a, t, Unmap(mapped));
    assert PcOk(a.heap, t, a.pcs[t]);
    CarriedFacts(a.heap, s, n);
    DropStep(a.heap, s, mapped);
    DropFrame(a.heap, s, mapped, t);
    Mine(a, t, s);
    RoomsStay(a, b);
    assert OwnOk(a, b, t, s);
    assert Touches(a, b, t, s);
    hide OwnOk, Touches, HandsOk, ThreadsOk;
    OneSpanKeeps(a, b, t, s);
  }

  lemma DropFrame(h: State, s: int, mapped: PageMap, t: nat)
    ensures var b := Drop(h, s, mapped); OtherLists(h, b, t) && NoLonger(h, b)
  {
  }

  // ---------------------------------------------------------------- a span goes to the cache that asked

  /** Exactly one block more is on loan: it was free, it is the thread's, and it is of the size class of the request. */
  ghost predicate Lent(g: State, h: State, t: nat, wish: Wish) {
    exists x, s :: x !in g.live && h.live == g.live[x := Loan(s, wish.request, t)]
                   && s in h.headers && h.headers[s].blockSize == wish.size
  }

  lemma LentFront(f: State, h: State, s: int, t: nat, wish: Wish)
    requires s in h.free && h.free[s] != [] && s in h.headers && h.headers[s].blockSize == wish.size
    requires f.live == h.live && h.free[s][0] !in h.live
    ensures Lent(f, Lend(h, s, wish.request, t), t, wish)
    ensures On(h, ThreadList(t, Size2Slot(wish.size)), s) ==> Lent(f, ThreadLend(h, s, wish.request, t), t, wish)
  {
    hide Size2Slot;
    var x := h.free[s][0];
    assert Lend(h, s, wish.request, t).live == f.live[x := Loan(s, wish.request, t)];
    if On(h, ThreadList(t, Size2Slot(wish.size)), s) {
      assert ThreadLend(h, s, wish.request, t).live == f.live[x := Loan(s, wish.request, t)];
    }
  }

  lemma OnlySpanTwice(f: State, g: State, h: State, s: int)
    requires OnlySpan(f, g, s) && OnlySpan(g, h, s)
    ensures OnlySpan(f, h, s)
  {
    hide On, Owns;
    forall t | t != s ensures SameSpan(f, h, t) {
      assert SameSpan(f, g, t) && SameSpan(g, h, t);
    }
    forall t, id | t != s ensures On(f, id, t) <==> On(h, id, t) {
      assert On(f, id, t) <==> On(g, id, t);
    }
  }

  /** The span in hand is split into as many blocks as fit. */
  lemma CutStep(h: State, t: nat, who: Caller, wish: Wish, s: int)
    requires Inv(h) && WishOk(h, t, who, wish) && Carried(h, s, PagesFor(who, wish)) && s in h.free
    ensures wish.size > 0 && BlockCount(h.headers[s].pageNum, wish.size) >= 1
    ensures var cut := Divide(h, s, wish.size);
            Inv(cut) && OnlySpan(h, cut, s) && s in cut.headers && s in cut.free && cut.free[s] != []
            && Proper(CacheOf(t, who), cut.headers[s])
            && HomeList(CacheOf(t, who), cut.headers[s]) in cut.lists
            && cut.headers[s].blockSize == wish.size
  {
    hide Inv, OnlySpan, BlockCount, PagesFor, SizeClass;
    PagesInRange(h, t, who, wish);
    DivideStep(h, s, wish.size);
    if who.ForSlot? { SlotTable(h, wish); }
  }

  lemma SlotTable(h: State, wish: Wish)
    requires Inv(h) && SlotWish(Size2Slot(wish.size), wish)
    ensures CentralList(Size2Slot(wish.size)) in h.lists
  {
    CentralSpans(wish.size);
  }

  /** For a thread cache: the list was empty, so the new span is its front. */
  lemma SupplyThread(h: State, t: nat, wish: Wish, s: int)
    requires Inv(h) && WishOk(h, t, ForThread, wish) && Carried(h, s, PagesFor(ForThread, wish)) && s in h.free
    ensures SupplyReady(h, t, ForThread, wish, s)
    ensures var b := Supply(h, t, ForThread, wish, s);
            Inv(b) && OnlySpan(h, b, s) && s in b.holder && b.holder[s] == OfThread(t) && SettledSpan(b, s)
            && OtherLists(h, b, t) && NoLonger(h, b) && Lent(h, b, t, wish)
  {
    hide Inv, OnlySpan, BlockCount, PagesFor, SizeClass, Divide, QuietSpan, Size2Slot, Lent;
    CutStep(h, t, ForThread, wish, s);
    var cut := Divide(h, s, wish.size);
    DivideFrame(h, s, wish.size);
    ShelveStep(cut, s, OfThread(t));
    var home := Shelve(cut, s, OfThread(t));
    assert home.lists[OwnList(t, wish)] == [s];
    ShelveFrame(cut, s, OfThread(t), t);
    ThreadLendStep(home, s, wish.request, t);
    LendFrame(home, s, wish.request, t);
    LentFront(h, home, s, t, wish);
    hide ThreadLend;
    OnlySpanTwice(h, cut, home, s);
    OnlySpanTwice(h, home, ThreadLend(home, s, wish.request, t), s);
  }

  lemma DivideFrame(h: State, s: int, size: int)
    requires s in h.headers && size > 0 && BlockCount(h.headers[s].pageNum, size) >= 0
    ensures var cut := Divide(h, s, size);
            cut.lists == h.lists && cut.threads == h.threads && cut.holder == h.holder && cut.live == h.live
  {
  }

  /** For the central cache, under the slot's lock. */
  lemma SupplySlot(h: State, t: nat, slot: int, wish: Wish, s: int)
    requires Inv(h) && WishOk(h, t, ForSlot(slot), wish) && Carried(h, s, PagesFor(ForSlot(slot), wish)) && s in h.free
    ensures SupplyReady(h, t, ForSlot(slot), wish, s)
    ensures var b := Supply(h, t, ForSlot(slot), wish, s);
            Inv(b) && OnlySpan(h, b, s) && s in b.holder && b.holder[s] == OfCentral && SettledSpan(b, s)
            && OtherLists(h, b, t) && NoLonger(h, b) && Lent(h, b, t, wish)
  {
    hide Inv, OnlySpan, BlockCount, PagesFor, SizeClass, Divide, QuietSpan, Size2Slot, Lent;
    CutStep(h, t, ForSlot(slot), wish, s);
    var cut := Divide(h, s, wish.size);
    DivideFrame(h, s, wish.size);
    ShelveStep(cut, s, OfCentral);
    var home := Shelve(cut, s, OfCentral);
    ShelveFrame(cut, s, OfCentral, t);
    CentralLendStep(home, s, wish.request, t);
    LentFront(h, home, s, t, wish);
    hide Lend;
    OnlySpanTwice(h, cut, home, s);
    OnlySpanTwice(h, home, Lend(home, s, wish.request, t), s);
    LendLists(home, s, wish.request, t);
  }

  lemma LendLists(h: State, s: int, size: int, t: nat)
    requires s in h.free && h.free[s] != []
    ensures var b := Lend(h, s, size, t); b.lists == h.lists && b.holder == h.holder && b.headers == h.headers
  {
  }

  /** A span in hand is split and goes to the cache that asked. */
  lemma SupplyKeeps(a: World, t: nat)
    requires CoreSafe(a) && CanDo(a, t, Advance) && a.pcs[t].GotSpan?
    ensures CoreSafe(Do(a, t, Advance))
  {
    hide Inv, OnlySpan, QuietSpan, Settled, ReturnsOk, OtherLists, NoLonger, Uninvolved, SupplyReady, Supply,
      PagesFor, WishOk;
    var who, wish, s, b := a.pcs[t].who, a.pcs[t].wish, a.pcs[t].s, Do(a, t, Advance);
    assert PcOk(a.heap, t, a.pcs[t]);
    CarriedFacts(a.heap, s, PagesFor(who, wish));
    if who.ForSlot? {
      SupplySlot(a.heap, t, who.slot, wish, s);
    } else {
      SupplyThread(a.heap, t, wish, s);
    }
    Mine(a, t, s);
    RoomsStay(a, b);
    assert OwnOk(a, b, t, s);
    assert Touches(a, b, t, s);
    hide OwnOk, Touches, HandsOk, ThreadsOk;
    OneSpanKeeps(a, b, t, s);
  }

  // ---------------------------------------------------------------- every step, every run

  /** Every step of every thread keeps the invariant. */
  lemma StepKeeps(a: World, t: nat, e: Event)
    requires Safe(a) && CanDo(a, t, e)
    ensures Safe(Do(a, t, e))
  {
    LocksKeep(a, t, e);
    assert CoreSafe(a);
    hide LocksOk, ThreadsOk, HandsOk, ReturnsOk, Settled, Inv, Do;
    match e {
      case Acquire => LockStepKeeps(a, t, e);
      case Release => LockStepKeeps(a, t, e);
      case NewThread(mapped) => NewThreadSafe(a, t, mapped);
      case LendOwn(wish) => LendOwnKeeps(a, t, wish);
      case BeginLocal(wish) => BeginKeeps(a, t, e);
      case BeginCentral(wish) => BeginKeeps(a, t, e);
      case FreeOwn(x) => FreeOwnKeeps(a, t, x);
      case BeginReturn(x) => BeginKeeps(a, t, e);
      case LoseBlock(x) => LoseBlockKeeps(a, t, x);
      case Map(s, mapped) => MapKeeps(a, t, s, mapped);
      case Unmap(mapped) => DeleteKeeps(a, t, mapped);
      case Advance => AdvanceKeeps(a, t);
    }
  }

  lemma AdvanceKeeps(a: World, t: nat)
    requires Safe(a) && CanDo(a, t, Advance)
    ensures CoreSafe(Do(a, t, Advance))
  {
    assert CoreSafe(a);
    hide LocksOk, ThreadsOk, HandsOk, ReturnsOk, Settled, Inv, Do, CoreSafe, PagesFor;
    match a.pcs[t] {
      case InSlotBack(_, _) => SlotReturnKeeps(a, t);
      case GotSpan(_, _, _) => SupplyKeeps(a, t);
      case HasRoom(_, _, _) => KeepKeeps(a, t);
      case InPage(who, wish) =>
        var id := PageList(PagesFor(who, wish));
        if id in a.heap.lists && a.heap.lists[id] != [] {
          TakeFrontKeeps(a, t);
        } else {
          DecideKeeps(a, t);
        }
      case _ => DecideKeeps(a, t);
    }
  }

  /** The start: every thread idle, the tables of lists empty, no span. */
  ghost predicate Init(a: World) {
    a.owner == map[] && (forall t :: t in a.pcs ==> a.pcs[t] == Idle) && a.hand == map[] &&
    NothingMade(a.heap)
  }

  datatype Choice = Choice(thread: nat, event: Event)

  /** A run makes the chosen steps in order. */
  ghost predicate CanRun(a: World, run: seq<Choice>)
    decreases |run|
  {
    run == [] || (CanDo(a, run[0].thread, run[0].event) && CanRun(Do(a, run[0].thread, run[0].event), run[1..]))
  }

  ghost function After(a: World, run: seq<Choice>): World
    requires CanRun(a, run)
    decreases |run|
  {
    if run == [] then a else After(Do(a, run[0].thread, run[0].event), run[1..])
  }

  lemma StartsWell(a: World)
    requires Init(a)
    ensures Safe(a)
  {
    hide Inv;
    NothingYet(a.heap);
  }

  /** The invariant holds after every run of any number of threads. */
  lemma {:induction false} EveryRun(a: World, run: seq<Choice>)
    requires Safe(a) && CanRun(a, run)
    ensures Safe(After(a, run))
    decreases |run|
  {
    hide Safe, Do, CanDo;
    if run != [] {
      StepKeeps(a, run[0].thread, run[0].event);
      EveryRun(Do(a, run[0].thread, run[0].event), run[1..]);
    }
  }

  // ---------------------------------------------------------------- what a step delivers

  /** An upper bound on the steps a thread still makes in its call. */
  function Remaining(pc: Pc): nat {
    match pc
    case Idle => 0
    case LeaveSlot(_) => 1
    case LeavePage(_, _) => 2
    case Deleted(_, _) | HasRoom(_, _, _) => 3
    case InLatchDel(_, _, _) => 4
    case AskLatchDel(_, _, _) => 5
    case InPageBack(_, _, _) => 6
    case AskPageBack(_, _, _) => 7
    case InSlotBack(_, _) => 8
    case AskSlotBack(_, _) => 9
    case GotSpan(_, _, _) => 2
    case TookSpan(_, _, _) | MadeSpan(_, _, _) => 3
    case InLatchNew(_, _) => 4
    case AskLatchNew(_, _) => 5
    case NoSpan(_, _) => 6
    case InPage(_, _) => 7
    case AskPage(_, _) => 8
    case InSlot(_, _) => 9
    case AskSlot(_, _) => 10
  }

  /** What the step does to the blocks on loan. */
  ghost predicate Delivers(a: World, b: World, t: nat, e: Event) {
    t in a.pcs &&
    match e
    case LendOwn(wish) => Lent(a.heap, b.heap, t, wish)
    case FreeOwn(x) => b.heap.live == a.heap.live - {x}
    case LoseBlock(x) => b.heap.live == a.heap.live - {x}
    case Advance =>
      (match a.pcs[t]
       case GotSpan(_, wish, _) => Lent(a.heap, b.heap, t, wish)
       case InSlotBack(_, x) => b.heap.live == a.heap.live - {x}
       case _ => b.heap.live == a.heap.live)
    case _ => b.heap.live == a.heap.live
  }

  /** A step of a call under way leaves fewer of them; the blocks on loan change as they should. */
  ghost predicate Progress(a: World, b: World, t: nat, e: Event) {
    Delivers(a, b, t, e) && t in b.pcs && (a.pcs[t] != Idle ==> Remaining(b.pcs[t]) < Remaining(a.pcs[t]))
  }

  lemma SupplyDelivers(a: World, t: nat)
    requires CoreSafe(a) && CanDo(a, t, Advance) && a.pcs[t].GotSpan?
    ensures Progress(a, Do(a, t, Advance), t, Advance)
  {
    hide Inv, Settled, HandsOk, ReturnsOk, SupplyReady, Supply, PagesFor, WishOk, Lent;
    var who, wish, s := a.pcs[t].who, a.pcs[t].wish, a.pcs[t].s;
    assert PcOk(a.heap, t, a.pcs[t]);
    CarriedFacts(a.heap, s, PagesFor(who, wish));
    if who.ForSlot? {
      SupplySlot(a.heap, t, who.slot, wish, s);
    } else {
      SupplyThread(a.heap, t, wish, s);
    }
  }

  lemma SlotReturnDelivers(a: World, t: nat)
    requires CoreSafe(a) && CanDo(a, t, Advance) && a.pcs[t].InSlotBack?
    ensures Progress(a, Do(a, t, Advance), t, Advance)
  {
    hide Inv, OnlySpan, QuietSpan, Settled, HandsOk, ReturnsOk, On;
    var x := a.pcs[t].x;
    assert PcOk(a.heap, t, a.pcs[t]);
    SettledAt(a.heap, a.heap.live[x].span);
    CentralReturnStep(a.heap, x);
    assert ReturnReady(a.heap, a.pcs[t].slot, x);
  }

  lemma KeepDelivers(a: World, t: nat)
    requires CoreSafe(a) && CanDo(a, t, Advance) && a.pcs[t].HasRoom?
    ensures Progress(a, Do(a, t, Advance), t, Advance)
  {
    hide Inv, Settled, HandsOk, ReturnsOk;
    assert PcOk(a.heap, t, a.pcs[t]);
    assert HomeList(OfPages, a.heap.headers[a.pcs[t].s]) == PageList(a.pcs[t].n);
  }

  lemma LendOwnDelivers(a: World, t: nat, wish: Wish)
    requires CoreSafe(a) && CanDo(a, t, LendOwn(wish))
    ensures Progress(a, Do(a, t, LendOwn(wish)), t, LendOwn(wish))
  {
    hide Inv, Settled, ThreadsOk, HandsOk, ReturnsOk, SizeClass, Size2Slot, Lent;
    var s := a.heap.lists[OwnList(t, wish)][0];
    FrontOfOwn(a.heap, t, wish);
    ThreadLendStep(a.heap, s, wish.request, t);
    LentFront(a.heap, a.heap, s, t, wish);
  }

  lemma FreeOwnDelivers(a: World, t: nat, x: int)
    requires CoreSafe(a) && CanDo(a, t, FreeOwn(x))
    ensures Progress(a, Do(a, t, FreeOwn(x)), t, FreeOwn(x))
  {
    hide Inv, QuietSpan, Settled, ThreadsOk, HandsOk, ReturnsOk, OnlySpan;
    ThreadLoan(a.heap, x);
    SettledAt(a.heap, a.heap.live[x].span);
    ThreadReturnStep(a.heap, x);
  }

  lemma LockStepsProgress(a: World, t: nat, e: Event)
    requires CanDo(a, t, e) && (e.Acquire? || e.Release?)
    ensures Progress(a, Do(a, t, e), t, e)
  {
    hide PagesFor;
  }

  lemma OtherStepsProgress(a: World, t: nat, e: Event)
    requires CanDo(a, t, e) && !e.Acquire? && !e.Release? && !e.LendOwn? && !e.FreeOwn?
    requires e.Advance? ==> !a.pcs[t].GotSpan? && !a.pcs[t].InSlotBack? && !a.pcs[t].HasRoom?
    ensures Progress(a, Do(a, t, e), t, e)
  {
    hide PagesFor, OwnWish, SlotWish, OnLoan, Mapped, Unmapped, Size2Slot;
  }

  /** Every step brings its thread nearer to the end of its call, and changes the blocks on loan as the call promises:
      a block is lent once when a span has been found, and taken back once when it is freed. */
  lemma StepDelivers(a: World, t: nat, e: Event)
    requires Safe(a) && CanDo(a, t, e)
    ensures Progress(a, Do(a, t, e), t, e)
  {
    hide LocksOk, ThreadsOk, HandsOk, ReturnsOk, Settled, Inv, Do, Progress;
    match e {
      case Acquire => LockStepsProgress(a, t, e);
      case Release => LockStepsProgress(a, t, e);
      case LendOwn(wish) => LendOwnDelivers(a, t, wish);
      case FreeOwn(x) => FreeOwnDelivers(a, t, x);
      case Advance =>
        if a.pcs[t].GotSpan? {
          SupplyDelivers(a, t);
        } else if a.pcs[t].InSlotBack? {
          SlotReturnDelivers(a, t);
        } else if a.pcs[t].HasRoom? {
          KeepDelivers(a, t);
        } else {
          OtherStepsProgress(a, t, e);
        }
      case _ => OtherStepsProgress(a, t, e);
    }
  }

  // ---------------------------------------------------------------- no deadlock

  /** mmap can deliver: there is room for a span of each number of pages. */
  ghost predicate CanMap(h: State) {
    forall n :: 1 <= n < PC_SPAN_LIST_NUM ==> CanMapPages(h, n)
  }

  ghost predicate CanMapPages(h: State, n: int) {
    exists s, mapped :: Mapped(h.mapped, mapped, s, n)
  }

  /** A step a thread that is not idle can make next, unless it waits for a lock that is taken. */
  lemma OnlyLocksBlock(a: World, t: nat) returns (e: Event)
    requires ThreadsOk(a) && CanMap(a.heap) && t in a.pcs && a.pcs[t] != Idle
    ensures (Wants(a.pcs[t]).Some? ==> Wants(a.pcs[t]).value.0 !in a.owner) ==> CanDo(a, t, e)
  {
    hide PagesFor, Mapped, OwnWish, SlotWish, OnLoan, OfSlot, Carried;
    var pc := a.pcs[t];
    if Wants(pc).Some? {
      e := Acquire;
    } else if Frees(pc).Some? {
      e := Release;
    } else if pc.InLatchNew? {
      assert PcOk(a.heap, t, pc);
      PagesInRange(a.heap, t, pc.who, pc.wish);
      assert CanMapPages(a.heap, PagesFor(pc.who, pc.wish));
      var s, mapped :| Mapped(a.heap.mapped, mapped, s, PagesFor(pc.who, pc.wish));
      e := Map(s, mapped);
    } else if pc.InLatchDel? {
      e := Unmap(WithoutPages(a.heap.mapped, pc.s, pc.n));
    } else {
      e := Advance;
    }
  }

  /** Among the busy threads there is always one that can go on, and gets nearer to the end of its call: the chain of
      owners ends within three. */
  lemma NoDeadlock(a: World, t: nat) returns (u: nat, e: Event)
    requires Safe(a) && CanMap(a.heap) && t in a.pcs && a.pcs[t] != Idle
    ensures u in a.pcs && a.pcs[u] != Idle && CanDo(a, u, e) && Progress(a, Do(a, u, e), u, e)
    decreases if Wants(a.pcs[t]).Some? then 3 - Rank(Wants(a.pcs[t]).value.0) else 0
  {
    hide ThreadsOk, HandsOk, ReturnsOk, Settled, Inv, CanDo, Do, Progress;
    e := OnlyLocksBlock(a, t);
    if Wants(a.pcs[t]).Some? && Wants(a.pcs[t]).value.0 in a.owner {
      var l := Wants(a.pcs[t]).value.0;
      var o := a.owner[l];
      assert Holds(a, o, l);
      if Wants(a.pcs[o]).Some? {
        LockOrder(a.pcs[o], l);
      }
      u, e := NoDeadlock(a, o);
    } else {
      u := t;
      StepDelivers(a, u, e);
    }
  }

  // ---------------------------------------------------------------- what every reachable state gives

  /** Whatever the threads do, the blocks they hold are large enough, lie inside live spans, and never overlap. */
  lemma LoansNeverOverlap(a: World, run: seq<Choice>)
    requires Init(a) && CanRun(a, run)
    ensures var h := After(a, run).heap;
            (forall x :: x in h.live ==> LoanFits(h, x))
            && forall x, y :: x in h.live && y in h.live && x != y ==>
                 LoanFits(h, x) && LoanFits(h, y) && (x + BlockSize(h, x) <= y || y + BlockSize(h, y) <= x)
  {
    hide After, CanRun, Init, Inv, LoanFits;
    StartsWell(a);
    EveryRun(a, run);
    LoansApart(After(a, run).heap);
  }

  /** No span is on a list twice, or on two lists. */
  ghost predicate EachOnce(lists: map<ListId, seq<int>>) {
    forall id, id', i, j :: (id in lists && id' in lists && 0 <= i < |lists[id]| && 0 <= j < |lists[id']|
                             && lists[id][i] == lists[id'][j]) ==> id == id' && i == j
  }

  /** Where a span is: in somebody's hand, on the list of its cache, or, exhausted, only in the books of its thread. */
  ghost predicate Somewhere(b: World, s: int) {
    s in b.heap.holder && s in b.heap.headers && s in b.heap.free &&
    var home := HomeList(b.heap.holder[s], b.heap.headers[s]);
    (forall id :: On(b.heap, id, s) ==> id == home) &&
    match b.heap.holder[s]
    case InHand => s in b.hand && !On(b.heap, home, s)
    case OfThread(_) => s !in b.hand && (On(b.heap, home, s) <==> b.heap.free[s] != [])
    case _ => s !in b.hand && On(b.heap, home, s)
  }

  lemma SpanPlace(b: World, s: int)
    requires Inv(b.heap) && HandsOk(b) && s in b.heap.headers
    ensures Somewhere(b, s)
  {
    hide HeaderOk, IsBlock, Accounted, LoansInv, TablesOk, NoDup, Owns, Proper, Hand;
    assert SpanInv(b.heap, s);
    forall id | On(b.heap, id, s)
      ensures id == HomeList(b.heap.holder[s], b.heap.headers[s]) && b.heap.holder[s] != InHand
    {
      OnItsList(b.heap, id, s);
      assert ListInv(b.heap, id);
    }
  }

  /** Every span is in one place: on at most one list, once, or in the hand of one thread; a list of the page cache has
      at most 8 spans, all unsplit and of its page count. */
  lemma ReachableStates(a: World, run: seq<Choice>)
    requires Init(a) && CanRun(a, run)
    ensures var b := After(a, run);
            EachOnce(b.heap.lists)
            && (forall id, s :: On(b.heap, id, s) ==> s !in b.hand && s in b.heap.headers)
            && (forall s :: s in b.heap.headers ==> Somewhere(b, s))
            && (forall n :: PageList(n) in b.heap.lists ==> |b.heap.lists[PageList(n)]| <= SPAN_MAX_LIST_SIZE)
            && (forall n, s :: On(b.heap, PageList(n), s) ==>
                  s in b.heap.headers && b.heap.headers[s] == Header(n, -1, 0)
                  && s in b.heap.free && b.heap.free[s] == [])
            && (forall t, u :: t in b.pcs && u in b.pcs && Hand(b.pcs[t]).Some? && Hand(b.pcs[u]) == Hand(b.pcs[t]) ==>
                  t == u)
  {
    StartsWell(a);
    EveryRun(a, run);
    var b := After(a, run);
    hide After, CanRun, Init, Hand, SpansInv, LoansInv, TablesOk, Settled, ThreadsOk, ReturnsOk, LocksOk;
    forall id, id', i, j | (id in b.heap.lists && id' in b.heap.lists && 0 <= i < |b.heap.lists[id]|
                            && 0 <= j < |b.heap.lists[id']| && b.heap.lists[id][i] == b.heap.lists[id'][j])
      ensures id == id' && i == j
    {
      OneHolder(b.heap, id, id', i, j);
    }
    forall id, s | On(b.heap, id, s) ensures s !in b.hand && s in b.heap.headers {
      OnItsList(b.heap, id, s);
    }
    forall n | PageList(n) in b.heap.lists ensures |b.heap.lists[PageList(n)]| <= SPAN_MAX_LIST_SIZE {
      assert ListInv(b.heap, PageList(n));
    }
    forall n, s | On(b.heap, PageList(n), s)
      ensures s in b.heap.headers && b.heap.headers[s] == Header(n, -1, 0) && s in b.heap.free && b.heap.free[s] == []
    {
      PageListHolds(b.heap, n, s);
    }
    forall s | s in b.heap.headers ensures Somewhere(b, s) {
      SpanPlace(b, s);
    }
  }

  /** When every thread is idle, the heap is in a state between two calls of the sequential heap. */
  lemma AtRest(a: World, run: seq<Choice>)
    requires Init(a) && CanRun(a, run) && forall t :: t in After(a, run).pcs ==> After(a, run).pcs[t] == Idle
    ensures Inv(After(a, run).heap) && Quiet(After(a, run).heap) && After(a, run).owner == map[]
  {
    StartsWell(a);
    EveryRun(a, run);
    var b := After(a, run);
    hide After, CanRun, Init, Inv, QuietSpan;
    forall s | s in b.heap.headers && s in b.heap.holder && s in b.heap.free ensures QuietSpan(b.heap, s) {
      assert s !in b.hand;
      assert SettledSpan(b.heap, s);
    }
    forall l ensures l !in b.owner {
      NobodyHolds(b, l);
    }
  }

  lemma NobodyHolds(a: World, l: Lock)
    requires LocksOk(a) && forall t :: t in a.pcs ==> a.pcs[t] == Idle
    ensures l !in a.owner
  {
    assert l in a.owner ==> Holds(a, a.owner[l], l);
  }
}
