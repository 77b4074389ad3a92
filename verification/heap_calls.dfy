/**
 What MyMalloc and MyFree do to the heap, from one call to the next: which span, which block, and
 where both are afterwards.
 */
module HeapCalls {
  import opened SystemPages
  import opened ChunkList
  import opened HeapSizes
  import opened HeapState
  import opened HeapSteps

  /** The blocks of a span of some pages, in address order behind 64 bytes, as many as fit. */
  ghost predicate Rows(f: seq<int>, s: int, pages: int, size: int) {
    64 + |f| * size <= 4096 * pages < 64 + (|f| + 1) * size && forall i :: 0 <= i < |f| ==> f[i] == s + 64 + i * size
  }

  /** The page cache hands out a span: the front of its list, or a new one. */
  ghost predicate Obtained(a: State, b: State, s: int, n: int) {
    var page := PageList(n);
    page in a.lists &&
    if a.lists[page] != [] then
      s == a.lists[page][0] && b == a.(lists := a.lists[page := a.lists[page][1..]], holder := a.holder[s := InHand])
    else
      s !in a.headers &&
      b == a.(mapped := b.mapped, headers := a.headers[s := Header(n, -1, 0)], free := a.free[s := []],
              holder := a.holder[s := InHand])
  }

  /** The page cache takes a span of n pages back: to the front of its list if that has fewer than 8, or unmaps it. */
  ghost predicate Returned(a: State, b: State, s: int, n: int) {
    var page := PageList(n);
    page in a.lists &&
    if |a.lists[page]| < 8 then
      b == a.(lists := a.lists[page := [s] + a.lists[page]], holder := a.holder[s := OfPages])
    else
      b == a.(mapped := b.mapped, headers := a.headers - {s}, holder := a.holder - {s})
      && Unmapped(a.mapped, b.mapped, s, n)
  }

  /** A cache gets a span of n pages for blocks of a size: last on a thread's list, first on the central cache's. */
  ghost predicate Stocked(a: State, b: State, id: ListId, n: int, size: int, s: int) {
    var page := PageList(n);
    page in a.lists && id in a.lists && s in b.free && Rows(b.free[s], s, n, size) &&
    (if a.lists[page] != [] then s == a.lists[page][0] && b.mapped == a.mapped else s !in a.headers) &&
    b == a.(mapped := b.mapped, headers := a.headers[s := Header(n, size, |b.free[s]|)], free := a.free[s := b.free[s]],
            holder := a.holder[s := if id.ThreadList? then OfThread(id.thread) else OfCentral],
            lists := a.lists[page := if a.lists[page] == [] then [] else a.lists[page][1..]]
                            [id := if id.ThreadList? then a.lists[id] + [s] else [s] + a.lists[id]])
  }

  /** The front block of the front span is lent; a span without free blocks leaves the list of a thread. */
  ghost predicate FrontTaken(a: State, b: State, id: ListId, request: int, t: nat, x: int) {
    id in a.lists && a.lists[id] != [] &&
    var s := a.lists[id][0];
    s in a.free && a.free[s] != [] && x == a.free[s][0] &&
    b == a.(free := a.free[s := a.free[s][1..]], live := a.live[x := Loan(s, request, t)],
            lists := if id.ThreadList? && |a.free[s]| == 1 then a.lists[id := a.lists[id][1..]] else a.lists)
  }

  ghost predicate StockedAndTaken(a: State, b: State, id: ListId, n: int, size: int, request: int, t: nat, x: int) {
    exists mid, s :: Stocked(a, mid, id, n, size, s) && FrontTaken(mid, b, id, request, t, x)
  }

  /** MyMalloc on a thread that has a cache. */
  ghost predicate Allocated(a: State, b: State, t: nat, request: int, x: int) {
    var size := CeilMemSize(request);
    if request < 65536 then
      var id := ThreadList(t, Size2Slot(size));
      id in a.lists &&
      if a.lists[id] != [] then FrontTaken(a, b, id, request, t, x)
      else size > 0 && StockedAndTaken(a, b, id, FetchPages(size), size, request, t, x)
    else
      StockedAndTaken(a, b, CentralList(Size2Slot(size)), CentralPages(size), size, request, t, x)
  }

  /** A thread gets a cache: 1040 empty lists. */
  ghost predicate ThreadAdded(a: State, b: State, t: nat) {
    b == a.(mapped := b.mapped, threads := a.threads + {t},
            lists := a.lists + map n | 0 <= n < 1040 :: ThreadList(t, n) := [])
  }

  /** MyFree of the block at x. */
  ghost predicate Freed(a: State, b: State, x: int) {
    x in a.live && a.live[x].span in a.headers && a.live[x].span in a.free &&
    var s := a.live[x].span;
    var h, f, live := a.headers[s], a.free[s], a.live - {x};
    var slot := Size2Slot(h.blockSize);
    var id := if h.blockSize < 65536 then ThreadList(a.live[x].thread, slot) else CentralList(slot);
    if h.blockSize == 524224 then
      b == a.(live := live, lost := a.lost[x := s])
    else if |f| + 1 != h.blockNum then
      id in a.lists &&
      b == a.(live := live, free := a.free[s := [x] + f],
              lists := if f == [] then a.lists[id := [s] + a.lists[id]] else a.lists)
    else
      id in a.lists && s in a.lists[id] &&
      Returned(a.(live := live, free := a.free[s := []], headers := a.headers[s := Header(h.pageNum, -1, 0)],
                  holder := a.holder[s := InHand], lists := a.lists[id := Without(a.lists[id], s)]), b, s, h.pageNum)
  }

  // ---------------------------------------------------------------- the steps of the caches make such calls

  lemma Overwrite<K, V>(m: map<K, V>, k: K, u: V, v: V)
    ensures m[k := u][k := v] == m[k := v]
  {
  }

  lemma BlocksAreRows(s: int, n: int, size: int)
    requires size > 0 && BlockCount(n, size) >= 0
    ensures Rows(Blocks(s, size, BlockCount(n, size)), s, n, size)
  {
    DivBounds(n * PAGE_SIZE - SPAN_HEAD_SIZE, size);
  }

  lemma WithoutFront(f: seq<int>)
    requires f != []
    ensures Without(f, f[0]) == f[1..]
  {
    assert f[..0] + f[1..] == f[1..];
  }

  /** A span from the page cache, split and put on the list of its new cache. */
  lemma StockedFrom(a: State, mid: State, b: State, who: Holder, n: int, size: int, s: int)
    requires Obtained(a, mid, s, n) && s in mid.headers && mid.headers[s].pageNum == n && size > 0
    requires BlockCount(n, size) > 0 && (who.OfThread? || who == OfCentral)
    requires var cut := Divide(mid, s, size);
             HomeList(who, cut.headers[s]) in a.lists && HomeList(who, cut.headers[s]) in cut.lists
             && b == Shelve(cut, s, who)
    ensures var id := if who.OfThread? then ThreadList(who.thread, Size2Slot(size)) else CentralList(Size2Slot(size));
            Stocked(a, b, id, n, size, s)
  {
    hide BlockCount, Blocks, Size2Slot, Rows;
    BlocksAreRows(s, n, size);
    var f := Blocks(s, size, BlockCount(n, size));
    Overwrite(a.headers, s, Header(n, -1, 0), Header(n, size, |f|));
    Overwrite(a.holder, s, InHand, who);
    Overwrite(a.free, s, [], f);
    assert a.lists[PageList(n)] == [] ==> a.lists[PageList(n) := []] == a.lists;
  }

  /** Lending from the front of a thread's list, and of the central cache's. */
  lemma ThreadFront(a: State, id: ListId, request: int, t: nat)
    requires id in a.lists && a.lists[id] != []
    requires var s := a.lists[id][0];
             s in a.free && a.free[s] != [] && s in a.headers && id == ThreadList(t, Size2Slot(a.headers[s].blockSize))
    ensures var s := a.lists[id][0]; FrontTaken(a, ThreadLend(a, s, request, t), id, request, t, a.free[s][0])
  {
    hide Size2Slot;
    WithoutFront(a.lists[id]);
  }

  lemma CentralFrontTaken(a: State, id: ListId, request: int, t: nat)
    requires id in a.lists && a.lists[id] != [] && !id.ThreadList?
    requires var s := a.lists[id][0]; s in a.free && a.free[s] != []
    ensures var s := a.lists[id][0]; FrontTaken(a, Lend(a, s, request, t), id, request, t, a.free[s][0])
  {
  }

  /** What the invariant says of the span of a block on loan. */
  lemma LoanSpan(a: State, x: int)
    requires Inv(a) && x in a.live
    ensures var s := a.live[x].span;
            s in a.headers && s in a.free && s in a.holder
            && match BlockTier(a.headers[s].blockSize)
               case ThreadTier => a.headers[s].blockNum >= 2 && 0 <= a.headers[s].blockSize < 65536
               case CentralTier =>
                 a.headers[s].blockNum == 1 && 65536 <= a.headers[s].blockSize < 524224 && a.free[s] == []
               case _ => a.headers[s].blockSize == 524224
  {
    hide HeaderOk, Accounted, Listed, ListsInv, TablesOk, DeadSpansOk;
    var s := a.live[x].span;
    assert LoanInv(a, x) && SpanInv(a, s);
    if a.headers[s].blockNum == 1 { OneFree(a, x); }
  }

  /** A span of one block has none free while it is on loan. */
  lemma OneFree(a: State, x: int)
    requires Inv(a) && x in a.live && LoanInv(a, x) && SpanInv(a, a.live[x].span)
    requires a.headers[a.live[x].span].blockNum == 1
    ensures a.free[a.live[x].span] == []
  {
    hide HeaderOk, Proper, Accounted, Listed, ListsInv, TablesOk, DeadSpansOk, SpansInv, LoansInv, IsBlock;
    var s := a.live[x].span;
    if a.free[s] != [] {
      FirstBlockOnly(s, a.headers[s], x);
      FirstBlockOnly(s, a.headers[s], a.free[s][0]);
    }
  }

  lemma FirstBlockOnly(s: int, h: Header, x: int)
    requires IsBlock(s, h, x) && h.blockNum == 1
    ensures x == BlockAt(s, h.blockSize, 0)
  {
  }

  lemma KeptByThread(a: State, x: int)
    requires ThreadOwns(a, x) && var h := a.headers[a.live[x].span];
             h.blockSize < 65536 && h.blockNum >= 2 && |a.free[a.live[x].span]| + 1 != h.blockNum
    ensures Freed(a, ThreadReturn(a, x), x)
  {
    hide Size2Slot, Without, Returned;
    var s := a.live[x].span;
    var id := ThreadList(a.live[x].thread, Size2Slot(a.headers[s].blockSize));
    if a.free[s] == [] {
      assert ThreadReturn(a, x) == PutBack(a, x).(lists := a.lists[id := [s] + a.lists[id]]);
    } else {
      assert ThreadReturn(a, x) == PutBack(a, x);
    }
  }

  lemma GoneFromThread(a: State, b: State, x: int)
    requires ThreadOwns(a, x) && var h := a.headers[a.live[x].span];
             h.blockSize < 65536 && h.blockNum >= 2 && |a.free[a.live[x].span]| + 1 == h.blockNum
    requires Returned(ThreadReturn(a, x), b, a.live[x].span, a.headers[a.live[x].span].pageNum)
    ensures Freed(a, b, x)
  {
    hide Size2Slot, Without, Returned;
    var s := a.live[x].span;
    var id := ThreadList(a.live[x].thread, Size2Slot(a.headers[s].blockSize));
    assert ThreadReturn(a, x) == Merged(PutBack(a, x), id, s);
    Overwrite(a.free, s, [x] + a.free[s], []);
    assert s in a.lists[id];
  }

  lemma GoneFromCentral(a: State, b: State, x: int)
    requires x in a.live && a.live[x].span in a.headers && a.live[x].span in a.free
    requires var h := a.headers[a.live[x].span];
             65536 <= h.blockSize < 524224 && |a.free[a.live[x].span]| + 1 == h.blockNum
    requires var s := a.live[x].span;
             var id := CentralList(Size2Slot(a.headers[s].blockSize));
             On(PutBack(a, x), id, s) && Returned(Merged(PutBack(a, x), id, s), b, s, a.headers[s].pageNum)
    ensures Freed(a, b, x)
  {
    hide Size2Slot, Without, Returned;
    var s := a.live[x].span;
    Overwrite(a.free, s, [x] + a.free[s], []);
  }

  lemma NeverTakenBack(a: State, x: int)
    requires x in a.live && a.live[x].span in a.headers && a.live[x].span in a.free
    requires a.headers[a.live[x].span].blockSize == 524224
    ensures Freed(a, Lose(a, x), x)
  {
    hide Size2Slot, Without, Returned;
  }
}
