/**
 The tiered heap allocator: Span::Split and Merge, the page cache, the thread caches, the
 central cache, MyMalloc and MyFree.  Every method is one step of the sequential heap; the
 locks are in HeapLocks.  The source does not check whether mmap failed; here a method
 that meets a failed mmap stops with None, and does so only then: System counts the failures.
 */
module TieredHeap {
  import opened Wrappers
  import opened SystemPages
  import opened ChunkList
  import opened RadixTree
  import opened HeapSizes
  import opened HeapState
  import opened HeapSteps
  import opened HeapCalls

  /** The pages newThreadCacheBySystem maps for 1040 lists of 112 bytes. */
  const THREAD_CACHE_PAGES: int := (TC_SPAN_LIST_NUM * 112 + 64 + PAGE_SIZE - 1) / PAGE_SIZE

  // ---------------------------------------------------------------- facts the methods combine

  /** The pages of live spans lead to their spans, pages of span x only up to a limit. */
  ghost predicate RegisteredUpTo(nodes: Nodes, root: int, headers: map<int, Header>, x: int, limit: int) {
    forall s, i :: s in headers && s / PAGE_SIZE <= i < s / PAGE_SIZE + headers[s].pageNum && (s == x ==> i < limit) ==>
      Present(nodes, root, i) && Entry(nodes, root, i) == s
  }

  ghost predicate Registered(nodes: Nodes, root: int, headers: map<int, Header>) {
    forall s, i :: s in headers && s / PAGE_SIZE <= i < s / PAGE_SIZE + headers[s].pageNum ==>
      Present(nodes, root, i) && Entry(nodes, root, i) == s
  }

  /** No node of the tree is a span. */
  ghost predicate NodesApart(nodes: Nodes, headers: map<int, Header>) {
    forall s :: s in headers ==> s !in nodes
  }

  lemma StartRegistering(nodes: Nodes, root: int, headers: map<int, Header>, s: int, h: Header)
    requires Registered(nodes, root, headers) && s !in headers
    ensures RegisteredUpTo(nodes, root, headers[s := h], s, s / PAGE_SIZE)
  {
    hide Present, Entry;
  }

  lemma RegisterOne(before: Nodes, after: Nodes, root: int, st: State, s: int, i: int)
    requires RegisteredUpTo(before, root, st.headers, s, s / PAGE_SIZE + i) && s in st.headers
    requires 0 <= i < st.headers[s].pageNum
    requires Inv(st) && Sets(before, after, root, s / PAGE_SIZE + i, s)
    ensures RegisteredUpTo(after, root, st.headers, s, s / PAGE_SIZE + i + 1)
  {
    hide Present, Entry, HeaderOk, Proper, Accounted, Listed, IsBlock, NoDup;
    var key := s / PAGE_SIZE + i;
    assert SpanInv(st, s);
    forall t, p | t in st.headers && t / PAGE_SIZE <= p < t / PAGE_SIZE + st.headers[t].pageNum && (t == s ==> p < key + 1)
      ensures Present(after, root, p) && Entry(after, root, p) == t
    {
      assert SpanInv(st, t);
      if p == key {
        assert st.mapped[p] == t && st.mapped[p] == s;
      }
    }
  }

  lemma AllRegistered(nodes: Nodes, root: int, headers: map<int, Header>, s: int)
    requires s in headers && RegisteredUpTo(nodes, root, headers, s, s / PAGE_SIZE + headers[s].pageNum)
    ensures Registered(nodes, root, headers)
  {
    hide Present, Entry;
  }

  /** The page of every byte of a live span yields the span. */
  lemma Resolves(nodes: Nodes, root: int, st: State, s: int, a: int)
    requires Inv(st) && Registered(nodes, root, st.headers) && s in st.headers
    requires s <= a < s + st.headers[s].pageNum * PAGE_SIZE
    ensures Present(nodes, root, a / PAGE_SIZE) && Entry(nodes, root, a / PAGE_SIZE) == s
  {
    hide Present, Entry, HeaderOk, Proper, Accounted, Listed, IsBlock;
    assert SpanInv(st, s);
    PageInside(st.mapped, s, st.headers[s].pageNum, a);
  }

  /** A block on loan: its span and where it lies. */
  lemma LoanFacts(st: State, x: int)
    requires Inv(st)
    ensures x in st.live ==> LoanPlace(st, x, st.live[x].span)
  {
    hide Accounted, HomeList, On;
    if x in st.live {
      assert LoanInv(st, x);
      assert SpanInv(st, st.live[x].span);
      BlockInside(st.live[x].span, st.headers[st.live[x].span], x);
    }
  }

  ghost predicate LoanPlace(st: State, x: int, s: int) {
    s in st.headers && s in st.holder && s in st.free && LoanInv(st, x) &&
    s + SPAN_HEAD_SIZE <= x < s + st.headers[s].pageNum * PAGE_SIZE &&
    var tier := BlockTier(st.headers[s].blockSize);
    (match st.holder[s]
     case OfThread(t) => tier == ThreadTier && t == st.live[x].thread && t in st.threads
     case holder => holder == OfCentral && tier != ThreadTier) &&
    (tier == NoTier <==> st.headers[s].blockSize == CENTRAL_CACHE_MAX_SIZE)
  }

  /** Blocks still to be made are on no list of blocks. */
  lemma NewBlocksUnlisted(st: State, s: int, size: int)
    requires Inv(st) && s in st.headers && s in st.free && st.free[s] == [] && SizeClass(size)
    requires BlockCount(st.headers[s].pageNum, size) >= 0
    ensures forall i :: 0 <= i < BlockCount(st.headers[s].pageNum, size) ==> Unlisted(st.free, BlockAt(s, size, i))
  {
    hide HeaderOk, Proper, Accounted, Listed, BlockAt;
    var h := Header(st.headers[s].pageNum, size, BlockCount(st.headers[s].pageNum, size));
    assert SpanInv(st, s);
    forall i, t | 0 <= i < h.blockNum && t in st.free && t != s ensures BlockAt(s, size, i) !in st.free[t] {
      var a := BlockAt(s, size, i);
      if t in st.headers && a in st.free[t] {
        assert SpanInv(st, t) && IsBlock(t, st.headers[t], a) && IsBlock(s, h, a);
        BlockInside(s, h, a);
        HeaderCounts(st, t);
        BlockInside(t, st.headers[t], a);
        PageInside(st.mapped, s, h.pageNum, a);
        PageInside(st.mapped, t, st.headers[t].pageNum, a);
      }
    }
  }

  lemma HeaderCounts(st: State, s: int)
    requires SpanInv(st, s) && st.headers[s].blockSize > 0
    ensures st.headers[s].blockNum == BlockCount(st.headers[s].pageNum, st.headers[s].blockSize)
  {
  }

  /** A returned block is on no list of blocks. */
  lemma LoanUnlisted(st: State, x: int)
    requires Inv(st)
    ensures x in st.live ==> Unlisted(st.free, x)
  {
    hide HeaderOk, Proper, Accounted, Listed, IsBlock;
    forall t | t in st.free && x in st.live ensures x !in st.free[t] {
      if t in st.headers && x in st.free[t] {
        FreeIsNotLent(st, t, x);
      }
    }
  }

  // ---------------------------------------------------------------- the heap

  class Heap {
    const sys: System
    const tree: Tree
    const blocks: ListTable<int>
    const spans: ListTable<ListId>
    var headers: map<int, Header>
    var tls: map<nat, int>
    ghost var holder: map<int, Holder>
    ghost var live: map<int, Loan>
    ghost var lost: map<int, int>

    ghost function St(): State
      reads this, sys, blocks, spans
    {
      State(sys.mapped, headers, blocks.lists, spans.lists, tls.Keys, holder, live, lost)
    }

    ghost predicate Shape()
      reads this, sys, tree, blocks, spans
    {
      tree.sys == sys && tree.Valid() && blocks.Valid() && spans.Valid()
    }

    ghost predicate Valid()
      reads this, sys, tree, blocks, spans
    {
      Shape() && Inv(St()) && Registered(tree.nodes, tree.root, headers) && NodesApart(tree.nodes, headers)
    }

    /** Static initialisation: empty lists, and a tree on memory from sbrk. */
    constructor (system: System, memory: int)
      requires Owns(system.mapped, memory, NODE_PAGES)
      ensures sys == system && fresh(tree) && fresh(blocks) && fresh(spans)
      ensures Valid() && Quiet(St()) && live == map[] && lost == map[] && tls == map[]
      ensures forall id :: id in spans.lists ==> spans.lists[id] == []
    {
      sys := system;
      tree := new Tree(system, memory);
      blocks := new ListTable<int>();
      spans := new ListTable<ListId>();
      headers, tls, holder, live, lost := map[], map[], map[], map[], map[];
      new;
      MakeTables(spans);
      NothingYet(St());
    }

    // -------------------------------------------------------------- Span

    /** Span::Split: cut an unsplit span in hand into blocks, in address order. */
    method Split(s: int, size: int) returns (ok: bool)
      requires Valid() && QuietBut(St(), s) && s in headers && s in holder && holder[s] == InHand
      requires SizeClass(size) && BlockCount(headers[s].pageNum, size) >= 1
      modifies this`headers, blocks
      ensures Valid() && QuietBut(St(), s) && ok == (old(headers)[s].blockSize == -1)
      ensures if ok then St() == Divide(old(St()), s, size) else St() == old(St())
    {
      hide Inv, QuietBut, Registered, Unlisted, BlockAt, BlockCount, AllLinked, Apart, Blocks, Shaped, NodesMapped,
        NoDup, Chained;
      if headers[s].blockSize != -1 {
        return false;
      }
      ghost var st := St();
      SpanIsThere(st, s);
      DivideKeeps(st, s, size);
      NewBlocksUnlisted(st, s, size);
      BlocksAreMaximal(s, headers[s].pageNum, size);
      var num := BlockCount(headers[s].pageNum, size);
      ghost var c := Blocks(s, size, num);
      headers := headers[s := Header(headers[s].pageNum, size, num)];
      var userSpace := s + SPAN_HEAD_SIZE;
      var end := userSpace + (num - 1) * size;
      BlockEnds(s, size, num);
      var i := 0;
      while i < num
        invariant 0 <= i <= num && blocks.Valid() && blocks.lists == st.free
        invariant headers == Divide(st, s, size).headers
        invariant forall j :: 0 <= j < i ==> Threaded(blocks.next, blocks.prev, s, size, j)
      {
        ghost var next, prev := blocks.next, blocks.prev;
        blocks.Write(BlockAt(s, size, i), BlockAt(s, size, i + 1), BlockAt(s, size, i - 1));
        ThreadMore(next, prev, blocks.next, blocks.prev, s, size, i);
        i := i + 1;
      }
      ChainOfBlocks(blocks.next, blocks.prev, s, size, num);
      assert forall k :: k in c ==> Unlisted(blocks.lists, k);
      blocks.MultiPushFront(s, userSpace, end, num, c);
      assert c + [] == c;
      DivideRegistered(tree.nodes, tree.root, st, s, size);
      ok := true;
    }

    method IsFree(s: int) returns (b: bool)
      requires blocks.Valid() && s in headers && s in blocks.lists
      ensures b == (headers[s].blockNum == |blocks.lists[s]|)
    {
      var n := blocks.Size(s);
      b := headers[s].blockNum == n;
    }

    /** Span::Merge: a fully free span becomes unsplit again. */
    method Merge(s: int) returns (ok: bool)
      requires blocks.Valid() && s in headers && s in blocks.lists
      modifies this`headers, blocks
      ensures blocks.Valid() && ok == (old(headers)[s].blockNum == |old(blocks.lists)[s]|)
      ensures ok ==> headers == old(headers)[s := Header(old(headers)[s].pageNum, -1, 0)]
                     && blocks.lists == old(blocks.lists)[s := []]
      ensures !ok ==> headers == old(headers) && blocks.lists == old(blocks.lists)
    {
      ok := IsFree(s);
      if ok {
        blocks.Reset(s);
        headers := headers[s := Header(headers[s].pageNum, -1, 0)];
      }
    }

    // -------------------------------------------------------------- PageCache

    /** PageCache::mallocSpan: a new span, registered page by page. */
    method MallocSpan(pageNum: int) returns (r: Option<int>)
      requires Valid() && Quiet(St()) && 1 <= pageNum && pageNum != PC_SPAN_LIST_NUM
      modifies this`headers, this`holder, sys, tree, blocks
      ensures sys.failures == old(sys.failures) + if r.None? && pageNum < PC_SPAN_LIST_NUM then 1 else 0
      ensures r.Some? ==> Valid() && InHandNow(old(St()), St(), r.value, pageNum)
      ensures r.Some? ==> r.value !in old(headers) && St() == Fresh(old(St()), r.value, pageNum, sys.mapped)
    {
      hide Inv, Quiet, QuietBut, Registered, RegisteredUpTo, Shaped, AllLinked, Apart, Owns, Mapped, NodesMapped,
        NodesApart, Grows, Sets, Unmapped;
      if pageNum > PC_SPAN_LIST_NUM {
        return None;
      }
      ghost var st := St();
      var memory, words := sys.SysMallocPage(pageNum);
      if memory.None? {
        return None;
      }
      var s := memory.value;
      FreshKeeps(st, s, pageNum, sys.mapped);
      NewSpanPages(st, s, pageNum, sys.mapped, tree.nodes);
      StartRegistering(tree.nodes, tree.root, headers, s, Header(pageNum, -1, 0));
      headers := headers[s := Header(pageNum, -1, 0)];
      blocks.Reset(s);
      holder := holder[s := InHand];
      ghost var made := St();
      var i := 0;
      while i < pageNum
        invariant sys.failures == old(sys.failures)
        invariant 0 <= i <= pageNum && Shape() && St() == made.(mapped := sys.mapped)
        invariant headers == made.headers && Inv(St()) && QuietBut(St(), s) && NodesApart(tree.nodes, headers)
        invariant RegisteredUpTo(tree.nodes, tree.root, headers, s, s / PAGE_SIZE + i)
      {
        var ok := RegisterPage(s, i);
        if !ok {
          return None;
        }
        i := i + 1;
      }
      AllRegistered(tree.nodes, tree.root, headers, s);
      return Some(s);
    }

    /** ... page i of the span. */
    method RegisterPage(s: int, i: int) returns (ok: bool)
      requires Shape() && Inv(St()) && QuietBut(St(), s) && NodesApart(tree.nodes, headers)
      requires s in headers && 0 <= i < headers[s].pageNum
      requires RegisteredUpTo(tree.nodes, tree.root, headers, s, s / PAGE_SIZE + i)
      modifies sys, tree
      ensures sys.failures == old(sys.failures) + if ok then 0 else 1
      ensures ok ==> Shape() && St() == old(St()).(mapped := sys.mapped)
      ensures ok ==> Inv(St()) && QuietBut(St(), s) && NodesApart(tree.nodes, headers)
      ensures ok ==> RegisteredUpTo(tree.nodes, tree.root, headers, s, s / PAGE_SIZE + i + 1)
    {
      hide Inv, QuietBut, RegisteredUpTo, Shaped, AllLinked, Apart, NodesMapped, NodesApart, Grows, Sets;
      ghost var before, nodes := St(), tree.nodes;
      KeyInRange(before, s, i);
      ok := tree.Insert(s / PAGE_SIZE + i, s);
      if ok {
        Regrow(before, sys.mapped, nodes, tree.nodes);
        RemapKeeps(before, sys.mapped);
        RegisterOne(nodes, tree.nodes, tree.root, St(), s, i);
      }
    }

    /** PageCache::DistributeSpan: an unsplit span of some pages, from the list or from the system. */
    method DistributeSpan(pageNum: int) returns (r: Option<int>)
      requires Valid() && Quiet(St()) && 1 <= pageNum && pageNum != PC_SPAN_LIST_NUM
      modifies this`headers, this`holder, sys, tree, blocks, spans
      ensures sys.failures == old(sys.failures) + if r.None? && pageNum < PC_SPAN_LIST_NUM then 1 else 0
      ensures pageNum < PC_SPAN_LIST_NUM ==>
                PageList(pageNum) in old(spans.lists) && (old(spans.lists)[PageList(pageNum)] != [] ==> r.Some?)
      ensures r.Some? ==> Valid() && InHandNow(old(St()), St(), r.value, pageNum)
      ensures r.Some? ==> PageList(pageNum) in old(spans.lists)
      ensures r.Some? ==> if old(spans.lists)[PageList(pageNum)] == [] then
                            r.value !in old(headers) && St() == Fresh(old(St()), r.value, pageNum, sys.mapped)
                          else
                            r.value == old(spans.lists)[PageList(pageNum)][0] && St() == Unshelve(old(St()), pageNum)
      ensures r.Some? ==> Obtained(old(St()), St(), r.value, pageNum)
    {
      hide Inv, Quiet, QuietBut, Registered, Shaped, AllLinked, Apart, NodesMapped, NodesApart;
      if pageNum > PC_SPAN_LIST_NUM {
        return None;
      }
      PageTable(St(), pageNum);
      var empty := spans.IsEmpty(PageList(pageNum));
      if empty {
        r := MallocSpan(pageNum);
      } else {
        ghost var st := St();
        UnshelveKeeps(st, pageNum);
        var s := spans.RemoveFrontChunk(PageList(pageNum));
        holder := holder[s := InHand];
        SpanIsThere(st, s);
        r := Some(s);
      }
    }

    /** PageCache::deleteSpan: back to the system; the tree keeps its entries. */
    method DeleteSpan(s: int)
      requires Valid() && QuietBut(St(), s) && s in headers && s in holder && holder[s] == InHand
      requires headers[s].blockSize == -1
      modifies this`headers, this`holder, sys
      ensures Valid() && Quiet(St()) && St() == Drop(old(St()), s, sys.mapped)
      ensures Unmapped(old(sys.mapped), sys.mapped, s, old(headers)[s].pageNum)
    {
      hide Inv, Quiet, QuietBut, Registered, Shaped, AllLinked, Apart, NodesMapped, NodesApart, Unmapped;
      ghost var st := St();
      SpanIsThere(st, s);
      var pageNum := headers[s].pageNum;
      sys.SysFreePage(s, pageNum);
      DropKeeps(st, s, sys.mapped);
      DropNodes(st, s, sys.mapped, tree.nodes, tree.root);
      headers := headers - {s};
      holder := holder - {s};
    }

    /** PageCache::TakeBackSpan: a list keeps 8 spans, the others go back to the system. */
    method TakeBackSpan(s: int)
      requires Valid() && QuietBut(St(), s) && s in headers && s in holder && holder[s] == InHand
      requires headers[s].blockSize == -1
      modifies this`headers, this`holder, sys, spans
      ensures Valid() && Quiet(St())
      ensures Returned(old(St()), St(), s, old(headers)[s].pageNum)
    {
      hide Inv, Quiet, QuietBut, Registered, Shaped, AllLinked, Apart, NodesMapped, NodesApart, Unlisted;
      ghost var st := St();
      SpanIsThere(st, s);
      var pageNum := headers[s].pageNum;
      PageTable(st, pageNum);
      HandUnlisted(st, s);
      var n := spans.Size(PageList(pageNum));
      if n < SPAN_MAX_LIST_SIZE {
        ShelveKeeps(st, s, OfPages);
        spans.PushFront(PageList(pageNum), s);
        holder := holder[s := OfPages];
        PagesAreQuiet(St(), s);
      } else {
        DeleteSpan(s);
      }
    }

    /** A span of some pages, cut into blocks. */
    method CutSpan(pageNum: int, size: int) returns (ok: bool, s: int)
      requires Valid() && Quiet(St()) && 1 <= pageNum < PC_SPAN_LIST_NUM && SizeClass(size)
      requires BlockCount(pageNum, size) >= 1
      modifies this`headers, this`holder, sys, tree, blocks, spans
      ensures sys.failures == old(sys.failures) + if ok then 0 else 1
      ensures ok ==> Valid() && QuietBut(St(), s) && Uncut(St(), s, pageNum, size) && Moving(old(St()), St(), s)
      ensures ok ==> ObtainedCut(old(St()), St(), s, pageNum, size)
    {
      hide Inv, Quiet, QuietBut, Registered, Shaped, AllLinked, Apart, NodesMapped, NodesApart, BlockCount, SizeClass,
        Blocks, Obtained;
      var span := DistributeSpan(pageNum);
      if span.None? {
        return false, 0;
      }
      s := span.value;
      ghost var mid := St();
      SpanIsThere(mid, s);
      ClassPositive(size);
      ok := Split(s, size);
      assert Obtained(old(St()), mid, s, pageNum) && St() == Divide(mid, s, size);
    }

    /** A fully free span leaves its list, is merged and goes to the page cache. */
    method Retire(id: ListId, s: int)
      requires Shape() && Registered(tree.nodes, tree.root, headers) && NodesApart(tree.nodes, headers)
      requires s in headers && s in blocks.lists && headers[s].blockNum == |blocks.lists[s]|
      requires On(St(), id, s) && Inv(Merged(St(), id, s)) && QuietBut(Merged(St(), id, s), s)
      modifies this`headers, this`holder, sys, blocks, spans
      ensures Valid() && Quiet(St()) && Retired(Merged(old(St()), id, s), St(), s)
    {
      hide Inv, Quiet, QuietBut, Registered, Shaped, AllLinked, Apart, NodesMapped, NodesApart, Unlisted, Without,
        Returned;
      ghost var st := St();
      var gone := spans.Remove(id, s);
      var merged := Merge(s);
      holder := holder[s := InHand];
      MergedRegistered(tree.nodes, tree.root, st.headers, s);
      TakeBackSpan(s);
    }

    // -------------------------------------------------------------- ThreadCache

    /** ThreadCache::fetchSpanFromPageCache: a span for one block size goes on the thread's list. */
    method FetchSpanFromPageCache(t: nat, size: int) returns (ok: bool, ghost s: int)
      requires Valid() && Quiet(St()) && t in tls && SizeClass(size) && size < THREAD_CACHE_MAX_SIZE
      modifies this`headers, this`holder, sys, tree, blocks, spans
      ensures sys.failures == old(sys.failures) + if ok then 0 else 1
      ensures ok ==> Valid() && Supplied(old(St()), St(), ThreadList(t, Size2Slot(size)), s)
      ensures ok ==> Uncut(St(), s, FetchPages(size), size)
      ensures ok ==> Stocked(old(St()), St(), ThreadList(t, Size2Slot(size)), FetchPages(size), size, s)
    {
      hide Inv, Quiet, QuietBut, Registered, Shaped, AllLinked, Apart, NodesMapped, NodesApart, Unlisted, BlockCount,
        FetchPages, SizeClass, Supplied, Uncut, Proper, Stocked, ObtainedCut;
      ThreadSpans(size);
      var slot := Size2Slot(size);
      ghost var st0 := St();
      ThreadTables(st0, t, slot);
      var span;
      ok, span := CutSpan(FetchPages(size), size);
      if !ok {
        return false, 0;
      }
      ghost var st := St();
      HandUnlisted(st, span);
      ThreadTables(st, t, slot);
      CutForThread(st, span, size);
      ShelveKeeps(st, span, OfThread(t));
      spans.PushBack(ThreadList(t, slot), span);
      holder := holder[span := OfThread(t)];
      Supply(st0, st, St(), span, OfThread(t));
      StockedThread(st0, st, St(), t, FetchPages(size), size, span);
      s := span;
    }

    /** ThreadCache::DistributeMem: the front block of the front span. */
    method DistributeMem(t: nat, size: int, ghost request: int) returns (r: Option<int>)
      requires Valid() && Quiet(St()) && t in tls && SizeClass(size) && size < THREAD_CACHE_MAX_SIZE && request <= size
      modifies this`headers, this`holder, this`live, sys, tree, blocks, spans
      ensures sys.failures == old(sys.failures) + if r.None? then 1 else 0
      ensures r.None? ==> var id := ThreadList(t, Size2Slot(size));
              id in old(spans.lists) && old(spans.lists)[id] == []
      ensures r.Some? ==> Valid() && Quiet(St()) && Lent(old(St()), St(), r.value, request, t)
      ensures r.Some? ==> LentFrom(St(), r.value, OfThread(t), size)
      ensures r.Some? ==> var id := ThreadList(t, Size2Slot(size));
              id in old(spans.lists)
              && if old(spans.lists)[id] == [] then FirstOfNew(St(), r.value, OfThread(t), FetchPages(size), size)
                 else FrontLent(old(St()), St(), old(spans.lists)[id][0], r.value, request, t)
      ensures r.Some? ==> var id := ThreadList(t, Size2Slot(size));
              if old(spans.lists)[id] != [] then FrontTaken(old(St()), St(), id, request, t, r.value)
              else StockedAndTaken(old(St()), St(), id, FetchPages(size), size, request, t, r.value)
    {
      hide Inv, Quiet, QuietBut, Registered, Shaped, AllLinked, Apart, NodesMapped, NodesApart, Unlisted, BlockCount,
        SizeClass, Without, Uncut, ThreadLend, FirstOfNew, FetchPages, Stocked, FrontTaken;
      ThreadSpans(size);
      var slot := Size2Slot(size);
      ghost var st0 := St();
      ThreadTables(st0, t, slot);
      QuietAll(st0);
      var empty := spans.IsEmpty(ThreadList(t, slot));
      if empty {
        var ok, s := FetchSpanFromPageCache(t, size);
        if !ok {
          return None;
        }
      }
      FrontOfThread(St(), t, size);
      var front := spans.GetFrontChunk(ThreadList(t, slot));
      ghost var st := St();
      var mem := LendBlock(t, slot, front.addr, request);
      FrontIsTaken(st, St(), ThreadList(t, slot), mem, request, t);
      LentFromFront(st, St(), front.addr, mem, request, t, size);
      if empty {
        NewFirst(st, St(), front.addr, mem, request, t, FetchPages(size), size);
      }
      return Some(mem);
    }

    /** ... which leaves the list when its last free block goes. */
    method LendBlock(t: nat, slot: int, s: int, ghost request: int) returns (mem: int)
      requires Valid() && QuietBut(St(), s) && s in headers && s in holder && s in blocks.lists
      requires holder[s] == OfThread(t)
      requires slot == Size2Slot(headers[s].blockSize) && blocks.lists[s] != [] && request <= headers[s].blockSize
      modifies this`live, blocks, spans
      ensures Valid() && Quiet(St()) && Lent(old(St()), St(), mem, request, t)
              && FrontLent(old(St()), St(), s, mem, request, t)
    {
      hide Inv, Quiet, QuietBut, Registered, Shaped, AllLinked, Apart, NodesMapped, NodesApart, Unlisted, Without,
        Lent, FrontLent;
      ghost var st := St();
      ThreadLendKeeps(st, s, request, t);
      LentByThread(st, s, request, t);
      mem := blocks.RemoveFrontChunk(s);
      var left := blocks.Size(s);
      if left == 0 {
        var gone := spans.Remove(ThreadList(t, slot), s);
      }
      live := live[mem := Loan(s, request, t)];
      assert St() == ThreadLend(st, s, request, t);
    }

    /** ThreadCache::releaseSpanToPageCache: a fully free span leaves the thread. */
    method ReleaseSpanToPageCache(t: nat, s: int)
      requires Shape() && Registered(tree.nodes, tree.root, headers) && NodesApart(tree.nodes, headers)
      requires s in headers && s in blocks.lists && headers[s].blockNum == |blocks.lists[s]|
      requires var id := ThreadList(t, Size2Slot(headers[s].blockSize));
               On(St(), id, s) && Inv(Merged(St(), id, s)) && QuietBut(Merged(St(), id, s), s)
      modifies this`headers, this`holder, sys, blocks, spans
      ensures Valid() && Quiet(St())
      ensures Retired(Merged(old(St()), ThreadList(t, Size2Slot(old(headers)[s].blockSize)), s), St(), s)
    {
      hide Inv, Quiet, QuietBut, Registered, Shaped, AllLinked, Apart, NodesMapped, NodesApart, Retired;
      var slot := Size2Slot(headers[s].blockSize);
      Retire(ThreadList(t, slot), s);
    }

    /** ThreadCache::TakeBackMem. */
    method TakeBackMem(t: nat, mem: int, s: int)
      requires Valid() && Quiet(St()) && mem in live && s == live[mem].span && t == live[mem].thread
      requires s in holder && holder[s] == OfThread(t)
      modifies this`headers, this`holder, this`live, sys, blocks, spans
      ensures Valid() && Quiet(St()) && live == old(live) - {mem} && lost == old(lost)
      ensures ThreadOwns(old(St()), mem)
              && if old(headers)[s].blockNum == |old(blocks.lists)[s]| + 1 then Retired(ThreadReturn(old(St()), mem), St(), s)
                 else St() == ThreadReturn(old(St()), mem)
    {
      hide Inv, Quiet, QuietBut, Registered, Shaped, AllLinked, Apart, NodesMapped, NodesApart, Unlisted, Without,
        Returned;
      ghost var st := St();
      ThreadReturnKeeps(st, mem);
      LoanUnlisted(st, mem);
      blocks.PushFront(s, mem);
      live := live - {mem};
      assert St() == PutBack(st, mem);
      var n := blocks.Size(s);
      if n == 1 {
        var slot := Size2Slot(headers[s].blockSize);
        spans.PushFront(ThreadList(t, slot), s);
      } else {
        var isFree := IsFree(s);
        if isFree {
          ReleaseSpanToPageCache(t, s);
        }
      }
    }

    // -------------------------------------------------------------- CentralCache

    /** The walk over a list: the first span with a free block, or the head. */
    method FindSpan(id: ListId) returns (p: Ptr<ListId>)
      requires Valid() && id in spans.lists
      ensures p == Head(id) || (p.Chunk? && On(St(), id, p.addr) && p.addr in blocks.lists
              && blocks.lists[p.addr] != [])
      ensures p == Head(id) ==> forall s :: s in spans.lists[id] ==> s in blocks.lists && blocks.lists[s] == []
    {
      hide Inv, Registered, Shaped, AllLinked, Apart, NodesMapped, NodesApart;
      ghost var list, k := spans.lists[id], 1;
      p := spans.GetFrontChunk(id);
      var found := false;
      while p != Head(id) && !found
        invariant 1 <= k <= |list| + 1 && p == Node(id, list, k)
        invariant forall j :: 0 <= j < k - 1 ==> list[j] in blocks.lists && blocks.lists[list[j]] == []
        invariant found ==> p.Chunk? && p.addr in blocks.lists && blocks.lists[p.addr] != []
        modifies {}
        decreases |list| - k, !found
      {
        OnCentral(St(), id, p.addr);
        var n := blocks.Size(p.addr);
        if n == 0 {
          p := spans.NextOf(id, p, k);
          k := k + 1;
        } else {
          found := true;
        }
      }
    }

    /** A new span for the central cache. */
    method AddCentralSpan(size: int) returns (ok: bool, s: int)
      requires Valid() && Quiet(St()) && SizeClass(size) && THREAD_CACHE_MAX_SIZE < size <= CENTRAL_CACHE_MAX_SIZE
      modifies this`headers, this`holder, sys, tree, blocks, spans
      ensures sys.failures == old(sys.failures) + if ok then 0 else 1
      ensures ok ==> Valid() && Supplied(old(St()), St(), CentralList(Size2Slot(size)), s)
      ensures ok ==> Uncut(St(), s, CentralPages(size), size)
      ensures ok ==> Stocked(old(St()), St(), CentralList(Size2Slot(size)), CentralPages(size), size, s)
    {
      hide Inv, Quiet, QuietBut, Registered, Shaped, AllLinked, Apart, NodesMapped, NodesApart, Unlisted, BlockCount,
        SizeClass, CentralPages, Supplied, Uncut, Proper, Stocked, ObtainedCut;
      CentralSpans(size);
      ghost var st0 := St();
      CentralTable(st0, Size2Slot(size));
      ok, s := CutSpan(CentralPages(size), size);
      if !ok {
        return false, 0;
      }
      ghost var st := St();
      HandUnlisted(st, s);
      CentralTable(st, Size2Slot(size));
      CutForCentral(st, s, size);
      ShelveKeeps(st, s, OfCentral);
      spans.PushFront(CentralList(Size2Slot(size)), s);
      holder := holder[s := OfCentral];
      Supply(st0, st, St(), s, OfCentral);
      StockedCentral(st0, st, St(), CentralPages(size), size, s);
    }

    /** CentralCache::DistributeMemBlock: the first span with a free block, or a new one. */
    method DistributeMemBlock(size: int, ghost request: int, ghost t: nat) returns (r: Option<int>)
      requires Valid() && Quiet(St()) && CentralAccepts(size) && SizeClass(size) && size <= CENTRAL_CACHE_MAX_SIZE
      requires request <= size
      modifies this`headers, this`holder, this`live, sys, tree, blocks, spans
      ensures sys.failures == old(sys.failures) + if r.None? then 1 else 0
      ensures r.Some? ==> Valid() && Quiet(St()) && Lent(old(St()), St(), r.value, request, t)
      ensures r.Some? ==> FirstOfNew(St(), r.value, OfCentral, CentralPages(size), size)
      ensures r.Some? ==> LentFrom(St(), r.value, OfCentral, size)
      ensures r.Some? ==> StockedAndTaken(old(St()), St(), CentralList(Size2Slot(size)), CentralPages(size), size,
                                          request, t, r.value)
    {
      hide Inv, Quiet, QuietBut, Registered, Shaped, AllLinked, Apart, NodesMapped, NodesApart, SizeClass, FirstOfNew,
        CentralPages, BlockCount, Stocked, FrontTaken;
      CentralSpans(size);
      NoneFree(St(), Size2Slot(size));
      var id := CentralList(Size2Slot(size));
      CentralTable(St(), Size2Slot(size));
      QuietAll(St());
      var p := FindSpan(id);
      if p == Head(id) {
        var ok, s := AddCentralSpan(size);
        if !ok {
          return None;
        }
        p := Chunk(s);
      }
      CentralFront(St(), Size2Slot(size), p.addr, size);
      ghost var st := St();
      var mem := LendCentral(p.addr, request, t);
      NewCentral(st, St(), p.addr, mem, request, t, CentralPages(size), size);
      StockedFront(old(St()), st, id, CentralPages(size), size, p.addr);
      CentralIsTaken(st, St(), id, mem, request, t);
      assert Stocked(old(St()), st, id, CentralPages(size), size, p.addr);
      return Some(mem);
    }

    method LendCentral(s: int, ghost request: int, ghost t: nat) returns (mem: int)
      requires Valid() && QuietBut(St(), s) && s in headers && s in holder && s in blocks.lists
      requires holder[s] == OfCentral
      requires blocks.lists[s] != [] && request <= headers[s].blockSize
      modifies this`live, blocks
      ensures Valid() && Quiet(St()) && Lent(old(St()), St(), mem, request, t)
      ensures mem == old(blocks.lists)[s][0] && St() == Lend(old(St()), s, request, t)
    {
      hide Inv, Quiet, QuietBut, Registered, Shaped, AllLinked, Apart, NodesMapped, NodesApart, Unlisted;
      ghost var st := St();
      CentralLendKeeps(st, s, request, t);
      mem := blocks.RemoveFrontChunk(s);
      live := live[mem := Loan(s, request, t)];
      assert St() == Lend(st, s, request, t);
    }

    /** CentralCache::TakeBackMemBlock. */
    method TakeBackMemBlock(p: int, s: int)
      requires Valid() && Quiet(St()) && p in live && s == live[p].span && s in holder && holder[s] == OfCentral
      modifies this`headers, this`holder, this`live, sys, blocks, spans
      ensures Valid() && Quiet(St()) && live == old(live) - {p} && lost == old(lost)
      ensures s in old(headers) && s in old(blocks.lists)
              && var id := CentralList(Size2Slot(old(headers)[s].blockSize));
                 On(old(St()), id, s) && Retired(Merged(PutBack(old(St()), p), id, s), St(), s)
    {
      hide Inv, Quiet, QuietBut, Registered, Shaped, AllLinked, Apart, NodesMapped, NodesApart, Unlisted, Without,
        Returned;
      ghost var st := St();
      CentralReturnKeeps(st, p);
      LoanUnlisted(st, p);
      var slot := Size2Slot(headers[s].blockSize);
      blocks.PushFront(s, p);
      live := live - {p};
      var isFree := IsFree(s);
      if isFree {
        Retire(CentralList(slot), s);
      }
    }

    // -------------------------------------------------------------- HeapAllocator

    /** newThreadCacheBySystem. */
    method NewThreadCacheBySystem(t: nat) returns (ok: bool)
      requires Valid() && Quiet(St()) && t !in tls
      modifies this`tls, sys, spans
      ensures sys.failures == old(sys.failures) + if ok then 0 else 1
      ensures ok ==> Valid() && Quiet(St()) && tls.Keys == old(tls).Keys + {t}
      ensures ok ==> forall id :: id in old(spans.lists) ==> id in spans.lists && spans.lists[id] == old(spans.lists)[id]
      ensures ok ==> forall n :: 0 <= n < TC_SPAN_LIST_NUM ==>
                ThreadList(t, n) in spans.lists && spans.lists[ThreadList(t, n)] == []
      ensures ok ==> ThreadAdded(old(St()), St(), t)
    {
      hide Inv, Quiet, Registered, Shaped, AllLinked, Apart, NodesMapped, NodesApart, Mapped;
      ghost var st := St();
      var memory, words := sys.SysMallocPage(THREAD_CACHE_PAGES);
      if memory.None? {
        return false;
      }
      MappedGrows(st.mapped, sys.mapped, memory.value, THREAD_CACHE_PAGES, tree.nodes);
      tls := tls[t := memory.value + 64];
      NoThreadLists(st, t);
      MakeThreadTable(spans, t);
      NewThreadKeeps(st, t, sys.mapped, spans.lists);
      AddedLists(st.lists, spans.lists, t);
      assert tls.Keys == st.threads + {t};
      ok := true;
    }

    /** MyMalloc, below the system tier and outside the size class that trips an assertion. */
    method MyMalloc(t: nat, size: int) returns (r: Option<int>)
      requires Valid() && Quiet(St()) && RequestTier(size) != SystemTier && CeilMemSize(size) != THREAD_CACHE_MAX_SIZE
      modifies this`headers, this`holder, this`live, this`tls, sys, tree, blocks, spans
      ensures sys.failures == old(sys.failures) + if r.None? then 1 else 0
      ensures r.Some? ==> Valid() && Quiet(St()) && Lent(old(St()), St(), r.value, size, t)
      ensures r.Some? ==> tls.Keys == old(tls).Keys + {t}
      ensures r.Some? ==> var who := if RequestTier(size) == ThreadTier then OfThread(t) else OfCentral;
                          LentFrom(St(), r.value, who, CeilMemSize(size))
      ensures r.Some? ==> if t in old(tls) then Allocated(old(St()), St(), t, size, r.value)
                          else exists a :: ThreadAdded(old(St()), a, t) && Allocated(a, St(), t, size, r.value)
    {
      hide Inv, Quiet, Registered, Shaped, AllLinked, Apart, NodesMapped, NodesApart, CeilMemSize, SizeClass,
        LentFrom, FirstOfNew, FrontLent, FrontTaken, StockedAndTaken, ThreadAdded, FetchPages, CentralPages;
      if t !in tls {
        var ok := NewThreadCacheBySystem(t);
        if !ok {
          return None;
        }
      }
      ghost var a := St();
      assert t !in old(tls) ==> ThreadAdded(old(St()), a, t);
      var alignSize := CeilMemSize(size);
      RequestFacts(size);
      if size < THREAD_CACHE_MAX_SIZE {
        r := DistributeMem(t, alignSize, size);
      } else {
        r := DistributeMemBlock(alignSize, size, t);
      }
      assert r.Some? ==> Allocated(a, St(), t, size, r.value);
    }

    /** MyFree of a block on loan, on the thread that took it unless the block is the central cache's. */
    method MyFree(t: nat, p: int)
      requires Valid() && Quiet(St()) && p in live
      requires live[p].span in holder && (holder[live[p].span].OfThread? ==> t == live[p].thread)
      modifies this`headers, this`holder, this`live, this`lost, sys, blocks, spans
      ensures Valid() && Quiet(St()) && live == old(live) - {p}
      ensures var s := old(live)[p].span;
              s in old(headers)
              && lost == (if old(headers)[s].blockSize == CENTRAL_CACHE_MAX_SIZE then old(lost)[p := s] else old(lost))
              && FreedFrom(old(St()), St(), p, s)
      ensures Freed(old(St()), St(), p)
    {
      hide Inv, Quiet, Registered, Shaped, AllLinked, Apart, NodesMapped, NodesApart, Present, Entry, LoanInv;
      ghost var st := St();
      LoanFacts(st, p);
      Resolves(tree.nodes, tree.root, st, live[p].span, p);
      var s := tree.GetValue(p / PAGE_SIZE);
      var size := headers[s].blockSize;
      if size < THREAD_CACHE_MAX_SIZE {
        TakeBackMem(t, p, s);
      } else if size < CENTRAL_CACHE_MAX_SIZE {
        TakeBackMemBlock(p, s);
      } else {
        LoseKeeps(st, p);
        live, lost := live - {p}, lost[p := s];
      }
      FreedAsCalled(st, St(), p, s);
    }

    /** The owner of a block writes over the two words where the block's links would be. */
    method Store(p: int, first: int, second: int)
      requires Valid() && Quiet(St()) && p in live
      modifies blocks
      ensures Valid() && St() == old(St())
    {
      hide Inv, Registered, AllLinked, Apart, Shaped;
      LoanUnlisted(St(), p);
      blocks.Write(p, first, second);
    }
  }

  // ---------------------------------------------------------------- what the steps hand over

  /** A span of n pages has come into hand, and little else changed. */
  ghost predicate InHandNow(a: State, b: State, s: int, n: int) {
    QuietBut(b, s) && s in b.headers && b.headers[s] == Header(n, -1, 0) && s in b.holder && b.holder[s] == InHand &&
    b.live == a.live && b.lost == a.lost && b.threads == a.threads &&
    forall id :: id in a.lists && !id.PageList? ==> id in b.lists && b.lists[id] == a.lists[id]
  }

  /** A merged span in hand has gone to the page cache, or to the system if its list was full. */
  ghost predicate Retired(a: State, b: State, s: int) {
    s in a.headers && Returned(a, b, s, a.headers[s].pageNum)
  }

  /** A span of the page cache, cut into blocks. */
  ghost predicate ObtainedCut(a: State, b: State, s: int, n: int, size: int) {
    exists mid :: Obtained(a, mid, s, n) && s in mid.headers && mid.headers[s].pageNum == n
                  && size > 0 && BlockCount(n, size) > 0 && b == Divide(mid, s, size)
  }

  lemma ClassPositive(size: int)
    requires SizeClass(size)
    ensures size > 0
  {
  }

  lemma StockedThread(a: State, st: State, b: State, t: nat, n: int, size: int, s: int)
    requires ObtainedCut(a, st, s, n, size) && ThreadList(t, Size2Slot(size)) in a.lists
    requires s in st.headers && HomeList(OfThread(t), st.headers[s]) in st.lists && b == Shelve(st, s, OfThread(t))
    ensures Stocked(a, b, ThreadList(t, Size2Slot(size)), n, size, s)
  {
    hide BlockCount, Blocks, Size2Slot, Obtained, Stocked;
    var mid :| Obtained(a, mid, s, n) && s in mid.headers && mid.headers[s].pageNum == n && size > 0
               && BlockCount(n, size) > 0 && st == Divide(mid, s, size);
    StockedFrom(a, mid, b, OfThread(t), n, size, s);
  }

  lemma StockedCentral(a: State, st: State, b: State, n: int, size: int, s: int)
    requires ObtainedCut(a, st, s, n, size) && CentralList(Size2Slot(size)) in a.lists
    requires s in st.headers && HomeList(OfCentral, st.headers[s]) in st.lists && b == Shelve(st, s, OfCentral)
    ensures Stocked(a, b, CentralList(Size2Slot(size)), n, size, s)
  {
    hide BlockCount, Blocks, Size2Slot, Obtained, Stocked;
    var mid :| Obtained(a, mid, s, n) && s in mid.headers && mid.headers[s].pageNum == n && size > 0
               && BlockCount(n, size) > 0 && st == Divide(mid, s, size);
    StockedFrom(a, mid, b, OfCentral, n, size, s);
  }

  /** What becomes of the span of a freed block, by tier. */
  ghost predicate FreedFrom(a: State, b: State, x: int, s: int) {
    x in a.live && s == a.live[x].span && s in a.headers && s in a.free &&
    match BlockTier(a.headers[s].blockSize)
    case ThreadTier =>
      ThreadOwns(a, x) &&
      (if a.headers[s].blockNum == |a.free[s]| + 1 then Retired(ThreadReturn(a, x), b, s) else b == ThreadReturn(a, x))
    case CentralTier =>
      var id := CentralList(Size2Slot(a.headers[s].blockSize));
      On(a, id, s) && Retired(Merged(PutBack(a, x), id, s), b, s)
    case _ => b == Lose(a, x)
  }

  /** A list has got a span; nothing was lent or lost. */
  ghost predicate Supplied(a: State, b: State, id: ListId, s: int) {
    id in a.lists && On(b, id, s) && QuietBut(b, s) &&
    b.lists[id] == (if id.ThreadList? then a.lists[id] + [s] else [s] + a.lists[id]) &&
    b.live == a.live && b.lost == a.lost && b.threads == a.threads
  }

  /** A span has been split and none of its blocks lent. */
  ghost predicate Uncut(st: State, s: int, pageNum: int, size: int)
    requires size > 0
  {
    s in st.headers && s in st.free && BlockCount(pageNum, size) > 0 &&
    st.headers[s] == Header(pageNum, size, BlockCount(pageNum, size)) &&
    st.free[s] == Blocks(s, size, BlockCount(pageNum, size))
  }

  /** A span is in hand; what was lent, lost and listed by threads and the central cache is as before. */
  ghost predicate Moving(a: State, b: State, s: int) {
    s in b.headers && s in b.holder && s in b.free && b.holder[s] == InHand &&
    b.live == a.live && b.lost == a.lost && b.threads == a.threads &&
    forall id :: id in a.lists && !id.PageList? ==> id in b.lists && b.lists[id] == a.lists[id]
  }

  /** A span in hand that is shelved supplies its list. */
  lemma Supply(a: State, st: State, b: State, s: int, who: Holder)
    requires Moving(a, st, s) && HomeList(who, st.headers[s]) in st.lists && b == Shelve(st, s, who) && QuietBut(b, s)
    requires HomeList(who, st.headers[s]) in a.lists && !HomeList(who, st.headers[s]).PageList?
    ensures Supplied(a, b, HomeList(who, st.headers[s]), s)
    ensures forall n, size :: size > 0 && Uncut(st, s, n, size) ==> Uncut(b, s, n, size)
  {
    hide QuietBut, BlockCount;
  }

  lemma CutForThread(st: State, s: int, size: int)
    requires SizeClass(size) && size < THREAD_CACHE_MAX_SIZE && Uncut(st, s, FetchPages(size), size)
    ensures Proper(OfThread(0), st.headers[s]) && st.free[s] != [] && st.headers[s].blockSize == size
    ensures forall t :: Proper(OfThread(t), st.headers[s])
  {
    ThreadSpans(size);
  }

  lemma CutForCentral(st: State, s: int, size: int)
    requires SizeClass(size) && THREAD_CACHE_MAX_SIZE < size <= CENTRAL_CACHE_MAX_SIZE
    requires Uncut(st, s, CentralPages(size), size)
    ensures Proper(OfCentral, st.headers[s]) && st.headers[s].blockSize == size
  {
    CentralSpans(size);
  }

  /** The span of a block on loan: who has it, and the size of its blocks. */
  ghost predicate LentFrom(b: State, x: int, who: Holder, size: int) {
    x in b.live && b.live[x].span in b.headers && b.live[x].span in b.holder &&
    b.headers[b.live[x].span].blockSize == size && b.holder[b.live[x].span] == who
  }

  /** The front free block of a thread's span has been lent. */
  ghost predicate FrontLent(a: State, b: State, s: int, x: int, request: int, t: nat) {
    s in a.headers && s in a.free && a.free[s] != [] && x == a.free[s][0] &&
    On(a, ThreadList(t, Size2Slot(a.headers[s].blockSize)), s) && b == ThreadLend(a, s, request, t)
  }

  lemma LentByThread(st: State, s: int, request: int, t: nat)
    requires s in st.headers && s in st.free && st.free[s] != [] && st.free[s][0] !in st.live
    requires On(st, ThreadList(t, Size2Slot(st.headers[s].blockSize)), s)
    ensures var x, b := st.free[s][0], ThreadLend(st, s, request, t);
            Lent(st, b, x, request, t) && FrontLent(st, b, s, x, request, t)
  {
  }

  /** The block is the first of a span that its holder has just got. */
  ghost predicate FirstOfNew(b: State, x: int, who: Holder, pageNum: int, size: int)
    requires size > 0
  {
    x in b.live && var s := b.live[x].span;
    s in b.headers && s in b.holder && b.holder[s] == who && x == BlockAt(s, size, 0)
    && BlockCount(pageNum, size) > 0 && b.headers[s] == Header(pageNum, size, BlockCount(pageNum, size))
  }

  lemma LentFromFront(a: State, b: State, s: int, x: int, request: int, t: nat, size: int)
    requires FrontLent(a, b, s, x, request, t) && s in a.holder && a.holder[s] == OfThread(t)
    requires a.headers[s].blockSize == size
    ensures LentFrom(b, x, OfThread(t), size)
  {
  }

  lemma FrontIsTaken(a: State, b: State, id: ListId, x: int, request: int, t: nat)
    requires id in a.lists && a.lists[id] != [] && FrontLent(a, b, a.lists[id][0], x, request, t)
    requires id == ThreadList(t, Size2Slot(a.headers[a.lists[id][0]].blockSize))
    ensures FrontTaken(a, b, id, request, t, x)
  {
    ThreadFront(a, id, request, t);
  }

  lemma StockedFront(a: State, b: State, id: ListId, n: int, size: int, s: int)
    requires Stocked(a, b, id, n, size, s) && !id.ThreadList?
    ensures id in b.lists && b.lists[id] != [] && b.lists[id][0] == s
  {
  }

  lemma CentralIsTaken(a: State, b: State, id: ListId, x: int, request: int, t: nat)
    requires id in a.lists && a.lists[id] != [] && !id.ThreadList?
    requires var s := a.lists[id][0]; s in a.free && a.free[s] != [] && x == a.free[s][0] && b == Lend(a, s, request, t)
    ensures FrontTaken(a, b, id, request, t, x)
  {
    CentralFrontTaken(a, id, request, t);
  }

  /** The steps of a free, together. */
  lemma FreedAsCalled(a: State, b: State, x: int, s: int)
    requires FreedFrom(a, b, x, s) && LoanPlace(a, x, s) && Inv(a)
    ensures Freed(a, b, x)
  {
    hide Returned, Without, Size2Slot, IsBlock, LoanInv, Inv, LoanPlace, Freed, ThreadReturn, ThreadOwns;
    LoanSpan(a, x);
    match BlockTier(a.headers[s].blockSize) {
      case ThreadTier =>
        if a.headers[s].blockNum == |a.free[s]| + 1 {
          assert ThreadReturn(a, x).headers[s].pageNum == a.headers[s].pageNum by { ReturnPages(a, x); }
          GoneFromThread(a, b, x);
        } else {
          KeptByThread(a, x);
        }
      case CentralTier => GoneFromCentral(a, b, x);
      case _ => NeverTakenBack(a, x);
    }
  }

  lemma ReturnPages(a: State, x: int)
    requires ThreadOwns(a, x)
    ensures var s := a.live[x].span;
            s in ThreadReturn(a, x).headers && ThreadReturn(a, x).headers[s].pageNum == a.headers[s].pageNum
  {
  }

  lemma NewFirst(a: State, b: State, s: int, x: int, request: int, t: nat, pageNum: int, size: int)
    requires size > 0 && Uncut(a, s, pageNum, size) && FrontLent(a, b, s, x, request, t)
    requires s in a.holder && a.holder[s] == OfThread(t)
    ensures FirstOfNew(b, x, OfThread(t), pageNum, size)
  {
    hide BlockCount;
  }

  /** One block that was not on loan is, and it is large enough. */
  ghost predicate Lent(a: State, b: State, x: int, request: int, t: nat) {
    x !in a.live && x in b.live && b.live == a.live[x := b.live[x]] && b.live[x].size == request
      && b.live[x].thread == t &&
    b.lost == a.lost
  }

  /** The arrays of empty lists of the page cache and the central cache. */
  method MakeTables(spans: ListTable<ListId>)
    requires spans.Valid() && spans.lists == map[]
    modifies spans
    ensures spans.Valid() && forall id :: id in spans.lists ==> spans.lists[id] == [] && !id.ThreadList?
    ensures forall m :: 0 <= m < PC_SPAN_LIST_NUM ==> PageList(m) in spans.lists
    ensures forall m :: 0 <= m < CC_SPAN_LIST_NUM ==> CentralList(m) in spans.lists
  {
    hide Linked, Apart, AllLinked;
    var n := 0;
    while n < PC_SPAN_LIST_NUM
      invariant 0 <= n <= PC_SPAN_LIST_NUM && spans.Valid()
      invariant forall id :: id in spans.lists ==> spans.lists[id] == [] && !id.ThreadList?
      invariant forall m :: 0 <= m < n ==> PageList(m) in spans.lists
    {
      spans.Reset(PageList(n));
      n := n + 1;
    }
    n := 0;
    while n < CC_SPAN_LIST_NUM
      invariant 0 <= n <= CC_SPAN_LIST_NUM && spans.Valid()
      invariant forall id :: id in spans.lists ==> spans.lists[id] == [] && !id.ThreadList?
      invariant forall m :: 0 <= m < PC_SPAN_LIST_NUM ==> PageList(m) in spans.lists
      invariant forall m :: 0 <= m < n ==> CentralList(m) in spans.lists
    {
      spans.Reset(CentralList(n));
      n := n + 1;
    }
  }

  /** The constructor of a thread cache. */
  lemma AddedLists(f: map<ListId, seq<int>>, g: map<ListId, seq<int>>, t: nat)
    requires forall id :: id in f ==> id in g && g[id] == f[id]
    requires forall id :: id in g && id !in f ==> id.ThreadList? && id.thread == t && 0 <= id.slot < 1040 && g[id] == []
    requires forall id :: id in f && id.ThreadList? ==> id.thread != t
    requires forall n :: 0 <= n < 1040 ==> ThreadList(t, n) in g
    ensures g == f + map n | 0 <= n < 1040 :: ThreadList(t, n) := []
  {
  }

  method MakeThreadTable(spans: ListTable<ListId>, t: nat)
    requires spans.Valid() && forall id :: id in spans.lists && id.ThreadList? ==> id.thread != t
    modifies spans
    ensures spans.Valid()
    ensures forall id :: id in old(spans.lists) ==> id in spans.lists && spans.lists[id] == old(spans.lists)[id]
    ensures forall id :: id in spans.lists && id !in old(spans.lists) ==>
              id.ThreadList? && id.thread == t && 0 <= id.slot < TC_SPAN_LIST_NUM && spans.lists[id] == []
    ensures forall m :: 0 <= m < TC_SPAN_LIST_NUM ==> ThreadList(t, m) in spans.lists
  {
    hide Linked, Apart, AllLinked;
    var n := 0;
    while n < TC_SPAN_LIST_NUM
      invariant 0 <= n <= TC_SPAN_LIST_NUM && spans.Valid()
      invariant forall id :: id in old(spans.lists) ==> id in spans.lists && spans.lists[id] == old(spans.lists)[id]
      invariant forall id :: id in spans.lists && id !in old(spans.lists) ==>
                  id.ThreadList? && id.thread == t && 0 <= id.slot < n && spans.lists[id] == []
      invariant forall m :: 0 <= m < n ==> ThreadList(t, m) in spans.lists
    {
      spans.Reset(ThreadList(t, n));
      n := n + 1;
    }
  }

  /** The links the loop of Split has written for block j. */
  ghost predicate Threaded(next: Links<int>, prev: Links<int>, s: int, size: int, j: int) {
    var p: Ptr<int> := Chunk(BlockAt(s, size, j));
    p in next && p in prev && next[p] == Chunk(BlockAt(s, size, j + 1)) && prev[p] == Chunk(BlockAt(s, size, j - 1))
  }

  lemma ThreadMore(next: Links<int>, prev: Links<int>, next': Links<int>, prev': Links<int>, s: int, size: int, i: nat)
    requires size > 0 && forall j :: 0 <= j < i ==> Threaded(next, prev, s, size, j)
    requires next' == next[Chunk(BlockAt(s, size, i)) := Chunk(BlockAt(s, size, i + 1))]
    requires prev' == prev[Chunk(BlockAt(s, size, i)) := Chunk(BlockAt(s, size, i - 1))]
    ensures forall j :: 0 <= j <= i ==> Threaded(next', prev', s, size, j)
  {
    forall j | 0 <= j < i ensures Threaded(next', prev', s, size, j) {
      assert Threaded(next, prev, s, size, j);
      BlocksApart(s, size, j, i);
    }
  }

  lemma ChainOfBlocks(next: Links<int>, prev: Links<int>, s: int, size: int, num: nat)
    requires forall j :: 0 <= j < num ==> Threaded(next, prev, s, size, j)
    ensures Chained(next, prev, Blocks(s, size, num))
  {
    hide BlockAt;
    var c := Blocks(s, size, num);
    forall i | 0 < i < |c| ensures Step(next, prev, Chunk(c[i - 1]), Chunk(c[i])) {
      assert Threaded(next, prev, s, size, i - 1) && Threaded(next, prev, s, size, i);
    }
  }

  lemma BlockEnds(s: int, size: int, num: int)
    requires num >= 1
    ensures Blocks(s, size, num)[0] == s + SPAN_HEAD_SIZE
    ensures Blocks(s, size, num)[num - 1] == s + SPAN_HEAD_SIZE + (num - 1) * size
  {
  }

  lemma SpanIsThere(st: State, s: int)
    requires Inv(st) && s in st.headers
    ensures s in st.free && s in st.holder && HeaderOk(st.headers[s]) && s % PAGE_SIZE == 0
    ensures st.headers[s].blockSize == -1 ==> st.free[s] == []
  {
    assert SpanInv(st, s);
    if st.headers[s].blockSize == -1 {
      UnsplitIsEmpty(st, s);
    }
  }

  /** Registration is about page counts only. */
  lemma DivideRegistered(nodes: Nodes, root: int, st: State, s: int, size: int)
    requires Registered(nodes, root, st.headers) && s in st.headers && size > 0
    requires BlockCount(st.headers[s].pageNum, size) >= 0
    ensures Registered(nodes, root, Divide(st, s, size).headers)
  {
    hide Present, Entry;
  }

  lemma MergedRegistered(nodes: Nodes, root: int, headers: map<int, Header>, s: int)
    requires Registered(nodes, root, headers) && NodesApart(nodes, headers) && s in headers
    ensures Registered(nodes, root, headers[s := Header(headers[s].pageNum, -1, 0)])
    ensures NodesApart(nodes, headers[s := Header(headers[s].pageNum, -1, 0)])
  {
    hide Present, Entry;
  }

  /** The pages of a new span are no nodes. */
  lemma NewSpanPages(st: State, s: int, n: int, mapped: PageMap, nodes: Nodes)
    requires NodesMapped(nodes, st.mapped) && NodesApart(nodes, st.headers) && Mapped(st.mapped, mapped, s, n) && 0 < n
    ensures NodesMapped(nodes, mapped) && NodesApart(nodes, st.headers[s := Header(n, -1, 0)])
  {
    forall x | x in nodes ensures x != s && Owns(mapped, x, NODE_PAGES) {
      NewMappingApart(st.mapped, mapped, s, n, x, NODE_PAGES);
    }
  }

  lemma KeyInRange(st: State, s: int, i: int)
    requires Inv(st) && s in st.headers && 0 <= i < st.headers[s].pageNum
    ensures 0 <= s / PAGE_SIZE + i < KEY_LIMIT
  {
    assert SpanInv(st, s);
  }

  /** Nodes the tree has added are no spans. */
  lemma Regrow(st: State, mapped: PageMap, nodes: Nodes, nodes': Nodes)
    requires Inv(st) && Grows(st.mapped, mapped) && NewNodes(nodes, nodes', st.mapped) && NodesApart(nodes, st.headers)
    ensures NodesApart(nodes', st.headers)
    ensures forall i :: i in st.mapped ==> i in mapped && mapped[i] == st.mapped[i]
  {
    forall s | s in st.headers ensures s !in nodes' {
      assert SpanInv(st, s);
      assert s / PAGE_SIZE in st.mapped;
    }
  }

  lemma PageTable(st: State, n: int)
    requires Inv(st) && 1 <= n < PC_SPAN_LIST_NUM
    ensures PageList(n) in st.lists
  {
  }

  lemma CentralTable(st: State, n: int)
    requires Inv(st) && 0 <= n < CC_SPAN_LIST_NUM
    ensures CentralList(n) in st.lists
  {
  }

  lemma ThreadTables(st: State, t: nat, n: int)
    requires Inv(st) && t in st.threads && 0 <= n < TC_SPAN_LIST_NUM
    ensures ThreadList(t, n) in st.lists
  {
  }

  lemma NoThreadLists(st: State, t: nat)
    requires Inv(st) && t !in st.threads
    ensures forall id :: id in st.lists && id.ThreadList? ==> id.thread != t
  {
  }

  /** Unmapping a span leaves the nodes, and the other spans registered. */
  lemma DropNodes(st: State, s: int, mapped: PageMap, nodes: Nodes, root: int)
    requires Inv(st) && s in st.headers && Unmapped(st.mapped, mapped, s, st.headers[s].pageNum)
    requires NodesMapped(nodes, st.mapped) && NodesApart(nodes, st.headers) && Registered(nodes, root, st.headers)
    ensures NodesMapped(nodes, mapped) && NodesApart(nodes, st.headers - {s})
            && Registered(nodes, root, st.headers - {s})
  {
    hide Present, Entry, Owns, Unmapped;
    assert SpanInv(st, s);
    forall x | x in nodes ensures Owns(mapped, x, NODE_PAGES) {
      OthersStay(st.mapped, mapped, s, st.headers[s].pageNum, x, NODE_PAGES);
    }
  }

  lemma HandUnlisted(st: State, s: int)
    requires Inv(st) && s in st.holder && st.holder[s] == InHand
    ensures Unlisted(st.lists, s)
  {
    HandIsFree(st, s);
  }

  lemma PagesAreQuiet(st: State, s: int)
    requires QuietBut(st, s) && s in st.holder && st.holder[s] == OfPages
    ensures Quiet(st)
  {
    forall u | u in st.headers && u in st.holder && u in st.free ensures QuietSpan(st, u) {
    }
  }

  lemma QuietAll(st: State)
    requires Quiet(st)
    ensures forall x :: QuietBut(st, x)
  {
  }

  /** The front span of a thread's list serves the size of the list. */
  lemma FrontOfThread(st: State, t: nat, size: int)
    requires Inv(st) && SizeClass(size)
    requires var id := ThreadList(t, Size2Slot(size)); id in st.lists && st.lists[id] != []
    ensures var s := st.lists[ThreadList(t, Size2Slot(size))][0];
            s in st.headers && s in st.holder && s in st.free && st.holder[s] == OfThread(t)
            && st.headers[s].blockSize == size && st.free[s] != []
  {
    var id := ThreadList(t, Size2Slot(size));
    var s := st.lists[id][0];
    assert On(st, id, s);
    OnItsList(st, id, s);
    assert SpanInv(st, s);
    SlotsAreOrdered(st.headers[s].blockSize, size, 4);
  }

  lemma OnCentral(st: State, id: ListId, s: int)
    requires Inv(st) && On(st, id, s)
    ensures s in st.headers && s in st.free
  {
    OnItsList(st, id, s);
    assert SpanInv(st, s);
  }

  lemma CentralFront(st: State, slot: int, s: int, size: int)
    requires Inv(st) && SizeClass(size) && slot == Size2Slot(size) && On(st, CentralList(slot), s)
    ensures s in st.headers && s in st.holder && s in st.free && st.holder[s] == OfCentral
            && st.headers[s].blockSize == size
  {
    OnItsList(st, CentralList(slot), s);
    assert SpanInv(st, s);
    SlotsAreOrdered(st.headers[s].blockSize, size, 4);
  }

  /** Between calls every span on a list of the central cache is exhausted. */
  lemma CentralExhausted(st: State, slot: int, s: int)
    requires Inv(st) && Quiet(st) && On(st, CentralList(slot), s)
    ensures s in st.headers && s in st.free && st.free[s] == [] && st.headers[s].blockNum == 1
  {
    OnItsList(st, CentralList(slot), s);
    assert SpanInv(st, s);
    assert QuietSpan(st, s);
  }

  /** So the walk over such a list reaches its end. */
  lemma NoneFree(st: State, slot: int)
    requires Inv(st) && Quiet(st)
    ensures forall s :: On(st, CentralList(slot), s) ==> s in st.free && st.free[s] == []
  {
    forall s | On(st, CentralList(slot), s) ensures s in st.free && st.free[s] == [] {
      CentralExhausted(st, slot, s);
    }
  }

  lemma NewCentral(a: State, b: State, s: int, x: int, request: int, t: nat, pageNum: int, size: int)
    requires size > 0 && Uncut(a, s, pageNum, size) && s in a.holder && a.holder[s] == OfCentral
    requires a.free[s] != [] && x == a.free[s][0] && b == Lend(a, s, request, t)
    ensures FirstOfNew(b, x, OfCentral, pageNum, size) && LentFrom(b, x, OfCentral, size)
  {
    hide BlockCount;
  }

  lemma MappedGrows(before: PageMap, after: PageMap, p: int, k: int, nodes: Nodes)
    requires Mapped(before, after, p, k) && NodesMapped(nodes, before)
    ensures NodesMapped(nodes, after) && forall i :: i in before ==> i in after && after[i] == before[i]
  {
    forall x | x in nodes ensures Owns(after, x, NODE_PAGES) {
      assert Owns(before, x, NODE_PAGES);
    }
  }

  /** What MyMalloc passes on. */
  lemma RequestFacts(size: int)
    requires RequestTier(size) != SystemTier && CeilMemSize(size) != THREAD_CACHE_MAX_SIZE
    ensures SizeClass(CeilMemSize(size)) && size <= CeilMemSize(size) <= CENTRAL_CACHE_MAX_SIZE
    ensures if size < THREAD_CACHE_MAX_SIZE then CeilMemSize(size) < THREAD_CACHE_MAX_SIZE
            else CentralAccepts(CeilMemSize(size))
  {
    CeilIsLeastClass(size, THREAD_CACHE_MAX_SIZE);
    CeilIsLeastClass(size, CENTRAL_CACHE_MAX_SIZE);
    MultipleOf4(CeilMemSize(size));
  }
}
