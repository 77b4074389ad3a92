/**
 The state of the tiered heap allocator between any two of its steps, and the invariant
 every step keeps.  The caches themselves (TieredHeap) are proved against these steps.
 */
module HeapState {
  import opened SystemPages
  import opened ChunkList
  import opened HeapSizes

  /** The lists of spans: of a thread cache, the central cache and the page cache. */
  datatype ListId = ThreadList(thread: nat, slot: int) | CentralList(slot: int) | PageList(pageNum: int)

  /** The fields of a span; the block size is -1 while it is not split. */
  datatype Header = Header(pageNum: int, blockSize: int, blockNum: int)

  /** Who has a span: a cache, or the function that is just moving it. */
  datatype Holder = InHand | OfThread(thread: nat) | OfCentral | OfPages

  /** A block that was handed out: its span, the size that was asked for, and the thread that asked. */
  datatype Loan = Loan(span: int, size: int, thread: nat)

  datatype State = State(
    mapped: PageMap,
    headers: map<int, Header>,
    free: map<int, seq<int>>,
    lists: map<ListId, seq<int>>,
    threads: set<nat>,
    holder: map<int, Holder>,
    live: map<int, Loan>,
    lost: map<int, int>)

  // ---------------------------------------------------------------- blocks

  function BlockAt(s: int, size: int, i: int): int {
    s + SPAN_HEAD_SIZE + i * size
  }

  /** Address a is where a block of the span begins. */
  ghost predicate IsBlock(s: int, h: Header, a: int) {
    h.blockSize > 0 && exists i :: 0 <= i < h.blockNum && a == BlockAt(s, h.blockSize, i)
  }

  /** Blocks lie behind the header and inside the span. */
  lemma BlockInside(s: int, h: Header, a: int)
    requires IsBlock(s, h, a) && h.blockNum == BlockCount(h.pageNum, h.blockSize)
    ensures s + SPAN_HEAD_SIZE <= a && a + h.blockSize <= s + h.pageNum * PAGE_SIZE
  {
    var i :| 0 <= i < h.blockNum && a == BlockAt(s, h.blockSize, i);
    DivBounds(h.pageNum * PAGE_SIZE - SPAN_HEAD_SIZE, h.blockSize);
    MulOrder(h.blockSize, i + 1, h.blockNum);
    MulOrder(h.blockSize, 0, i);
    assert i * h.blockSize + h.blockSize == h.blockSize * (i + 1);
  }

  /** Different blocks of a span do not overlap. */
  lemma BlocksApart(s: int, size: int, i: int, j: int)
    requires size > 0 && i < j
    ensures BlockAt(s, size, i) + size <= BlockAt(s, size, j)
  {
    MulOrder(size, i + 1, j);
  }

  /** The page of an address in a span belongs to the span. */
  lemma PageInside(mapped: PageMap, s: int, pageNum: int, a: int)
    requires Owns(mapped, s, pageNum) && s <= a < s + pageNum * PAGE_SIZE
    ensures a / PAGE_SIZE in mapped && mapped[a / PAGE_SIZE] == s
    ensures s / PAGE_SIZE <= a / PAGE_SIZE < s / PAGE_SIZE + pageNum
  {
    assert s == s / PAGE_SIZE * PAGE_SIZE;
  }

  // ---------------------------------------------------------------- the invariant

  /** The list a span can be on. */
  function HomeList(holder: Holder, h: Header): ListId {
    match holder
    case OfThread(t) => ThreadList(t, Size2Slot(h.blockSize))
    case OfCentral => CentralList(Size2Slot(h.blockSize))
    case _ => PageList(h.pageNum)
  }

  /** What kind of span a cache holds. */
  predicate Proper(holder: Holder, h: Header) {
    match holder
    case InHand => true
    case OfThread(_) => SizeClass(h.blockSize) && h.blockSize < THREAD_CACHE_MAX_SIZE && h.blockNum >= 2
    case OfCentral =>
      SizeClass(h.blockSize) && THREAD_CACHE_MAX_SIZE < h.blockSize <= CENTRAL_CACHE_MAX_SIZE && h.blockNum == 1
    case OfPages => h.blockSize == -1
  }

  predicate HeaderOk(h: Header) {
    1 <= h.pageNum < PC_SPAN_LIST_NUM &&
    if h.blockSize == -1 then h.blockNum == 0
    else SizeClass(h.blockSize) && 0 < h.blockNum == BlockCount(h.pageNum, h.blockSize)
  }

  predicate On(st: State, id: ListId, s: int) {
    id in st.lists && s in st.lists[id]
  }

  /** A block of a span is free, on loan or lost. */
  predicate Accounted(st: State, s: int, a: int)
    requires s in st.free
  {
    a in st.free[s] || (a in st.live && st.live[a].span == s) || (a in st.lost && st.lost[a] == s)
  }

  ghost predicate SpanInv(st: State, s: int) {
    s in st.headers && s in st.holder && s in st.free && HeaderOk(st.headers[s]) &&
    Owns(st.mapped, s, st.headers[s].pageNum) && Proper(st.holder[s], st.headers[s]) &&
    NoDup(st.free[s]) &&
    (forall a :: a in st.free[s] ==> IsBlock(s, st.headers[s], a)) &&
    (forall a :: IsBlock(s, st.headers[s], a) ==> Accounted(st, s, a)) &&
    Listed(st, s)
  }

  /** A span is on the list of its holder; in a thread cache, exactly when it has a free block. */
  predicate Listed(st: State, s: int)
    requires s in st.headers && s in st.holder && s in st.free
  {
    match st.holder[s]
    case InHand => true
    case OfThread(t) => t in st.threads && (On(st, HomeList(st.holder[s], st.headers[s]), s) <==> st.free[s] != [])
    case _ => On(st, HomeList(st.holder[s], st.headers[s]), s)
  }

  ghost predicate LoanInv(st: State, a: int) {
    a in st.live && a !in st.lost &&
    var loan := st.live[a];
    loan.span in st.headers && loan.span in st.free && loan.span in st.holder &&
    IsBlock(loan.span, st.headers[loan.span], a) && a !in st.free[loan.span] &&
    loan.size <= st.headers[loan.span].blockSize && st.holder[loan.span] in {OfThread(loan.thread), OfCentral}
  }

  /** The one kind of block that is not taken back. */
  ghost predicate LostInv(st: State, a: int) {
    a in st.lost &&
    var s := st.lost[a];
    s in st.headers && s in st.free && s in st.holder && IsBlock(s, st.headers[s], a) && a !in st.free[s] &&
    st.holder[s] == OfCentral && st.headers[s].blockSize == CENTRAL_CACHE_MAX_SIZE
  }

  ghost predicate ListInv(st: State, id: ListId) {
    id in st.lists &&
    (id.PageList? ==> |st.lists[id]| <= SPAN_MAX_LIST_SIZE) &&
    forall s :: s in st.lists[id] ==>
      s in st.headers && s in st.holder && st.holder[s] != InHand && HomeList(st.holder[s], st.headers[s]) == id
  }

  predicate TablesOk(st: State) {
    (forall n :: 0 <= n < PC_SPAN_LIST_NUM ==> PageList(n) in st.lists) &&
    (forall n :: 0 <= n < CC_SPAN_LIST_NUM ==> CentralList(n) in st.lists) &&
    (forall t, n :: t in st.threads && 0 <= n < TC_SPAN_LIST_NUM ==> ThreadList(t, n) in st.lists) &&
    (forall id :: id in st.lists && id.ThreadList? ==> id.thread in st.threads)
  }

  ghost predicate DeadSpansOk(st: State) {
    (forall s :: s in st.headers <==> s in st.holder) &&
    (forall s :: s in st.free && s !in st.headers ==> st.free[s] == [])
  }

  ghost predicate SpansInv(st: State) {
    forall s :: s in st.headers ==> SpanInv(st, s)
  }

  ghost predicate LoansInv(st: State) {
    (forall a :: a in st.live ==> LoanInv(st, a)) && (forall a :: a in st.lost ==> LostInv(st, a))
  }

  ghost predicate ListsInv(st: State) {
    (forall id :: id in st.lists ==> ListInv(st, id)) && Apart(st.lists)
  }

  ghost predicate Inv(st: State) {
    SpansInv(st) && LoansInv(st) && ListsInv(st) && TablesOk(st) && DeadSpansOk(st)
  }

  /** Between calls no span is in hand, thread spans have a block on loan, central spans have none free. */
  ghost predicate QuietSpan(st: State, s: int)
    requires s in st.headers && s in st.holder && s in st.free
  {
    match st.holder[s]
    case InHand => false
    case OfThread(_) => |st.free[s]| < st.headers[s].blockNum
    case OfCentral => st.free[s] == []
    case OfPages => true
  }

  ghost predicate Quiet(st: State) {
    forall s :: s in st.headers && s in st.holder && s in st.free ==> QuietSpan(st, s)
  }

  /** Quiet but for one span. */
  ghost predicate QuietBut(st: State, x: int) {
    forall s :: s in st.headers && s in st.holder && s in st.free && s != x ==> QuietSpan(st, s)
  }

  /** Before the first call: tables of empty lists, and no span. */
  ghost predicate NothingMade(st: State) {
    st.headers == map[] && st.free == map[] && st.holder == map[] && st.live == map[] && st.lost == map[] &&
    st.threads == {} && Apart(st.lists) &&
    (forall id :: id in st.lists ==> st.lists[id] == [] && !id.ThreadList?) &&
    (forall m :: 0 <= m < PC_SPAN_LIST_NUM ==> PageList(m) in st.lists) &&
    (forall m :: 0 <= m < CC_SPAN_LIST_NUM ==> CentralList(m) in st.lists)
  }

  lemma NothingYet(st: State)
    requires NothingMade(st)
    ensures Inv(st) && Quiet(st)
  {
  }

  // ---------------------------------------------------------------- counting blocks

  ghost function BlockSet(s: int, size: int, n: nat): (r: set<int>)
    requires size > 0
    ensures |r| == n
    ensures forall a :: a in r <==> exists i :: 0 <= i < n && a == BlockAt(s, size, i)
  {
    if n == 0 then {}
    else
      var r := BlockSet(s, size, n - 1);
      NewBlock(s, size, n - 1);
      r + {BlockAt(s, size, n - 1)}
  }

  lemma NewBlock(s: int, size: int, n: nat)
    requires size > 0
    ensures forall i :: 0 <= i < n ==> BlockAt(s, size, i) != BlockAt(s, size, n)
  {
    forall i | 0 <= i < n ensures BlockAt(s, size, i) != BlockAt(s, size, n) {
      BlocksApart(s, size, i, n);
    }
  }

  ghost function Elements(f: seq<int>): (r: set<int>)
    requires NoDup(f)
    ensures |r| == |f| && forall a :: a in r <==> a in f
  {
    if f == [] then {}
    else
      var last := f[|f| - 1];
      assert f == f[..|f| - 1] + [last];
      assert last !in f[..|f| - 1];
      Elements(f[..|f| - 1]) + {last}
  }

  /** A list of blocks of a span is full exactly when every block is on it. */
  lemma FullList(s: int, h: Header, f: seq<int>)
    requires h.blockSize > 0 && h.blockNum >= 0 && NoDup(f) && forall a :: a in f ==> IsBlock(s, h, a)
    ensures |f| <= h.blockNum
    ensures |f| == h.blockNum <==> forall a :: IsBlock(s, h, a) ==> a in f
  {
    var blocks, elements := BlockSet(s, h.blockSize, h.blockNum), Elements(f);
    assert elements <= blocks;
    SubsetSize(elements, blocks);
  }

  lemma SubsetSize(a: set<int>, b: set<int>)
    requires a <= b
    ensures |a| <= |b| && (|a| == |b| <==> a == b)
  {
    var rest := b - a;
    assert a + rest == b && a * rest == {};
    assert |a| + |rest| == |b|;
  }

  // ---------------------------------------------------------------- what the invariant gives

  /** A block begins in one live span only. */
  lemma BlockOfOne(mapped: PageMap, s: int, g: Header, t: int, h: Header, a: int)
    requires HeaderOk(g) && HeaderOk(h) && Owns(mapped, s, g.pageNum) && Owns(mapped, t, h.pageNum)
    requires IsBlock(s, g, a) && IsBlock(t, h, a)
    ensures s == t
  {
    BlockInside(s, g, a);
    BlockInside(t, h, a);
    PageInside(mapped, s, g.pageNum, a);
    PageInside(mapped, t, h.pageNum, a);
  }

  function BlockSize(st: State, a: int): int
    requires a in st.live && st.live[a].span in st.headers
  {
    st.headers[st.live[a].span].blockSize
  }

  /** A block on loan is large enough, and lies behind the header of a live span and inside it. */
  ghost predicate LoanFits(st: State, a: int) {
    a in st.live && st.live[a].span in st.headers && st.live[a].size <= BlockSize(st, a) &&
    var s := st.live[a].span;
    s + SPAN_HEAD_SIZE <= a && a + BlockSize(st, a) <= s + st.headers[s].pageNum * PAGE_SIZE
  }

  /** Blocks on loan fit, and no two of them share a byte. */
  lemma LoansApart(st: State)
    requires Inv(st)
    ensures forall a :: a in st.live ==> LoanFits(st, a)
    ensures forall a, b :: a in st.live && b in st.live && a != b ==>
              LoanFits(st, a) && LoanFits(st, b) && (a + BlockSize(st, a) <= b || b + BlockSize(st, b) <= a)
  {
    hide Accounted, Listed, Proper, HomeList, BlockAt;
    forall a | a in st.live
      ensures LoanFits(st, a) && LoanInv(st, a) && HeaderOk(st.headers[st.live[a].span])
              && Owns(st.mapped, st.live[a].span, st.headers[st.live[a].span].pageNum)
    {
      assert LoanInv(st, a);
      assert SpanInv(st, st.live[a].span);
      BlockInside(st.live[a].span, st.headers[st.live[a].span], a);
    }
    forall a, b | a in st.live && b in st.live && a != b
      ensures a + BlockSize(st, a) <= b || b + BlockSize(st, b) <= a
    {
      assert LoanInv(st, a) && LoanInv(st, b);
      var s, t := st.live[a].span, st.live[b].span;
      var g, h := st.headers[s], st.headers[t];
      var i :| 0 <= i < g.blockNum && a == BlockAt(s, g.blockSize, i);
      var j :| 0 <= j < h.blockNum && b == BlockAt(t, h.blockSize, j);
      if s != t {
        MappingsApart(st.mapped, s, g.pageNum, t, h.pageNum);
      }
      DifferentBlocks(s, g, i, t, h, j);
    }
  }

  /** Two blocks, of one span or of two. */
  lemma DifferentBlocks(s: int, g: Header, i: int, t: int, h: Header, j: int)
    requires HeaderOk(g) && HeaderOk(h) && g.blockSize > 0 && h.blockSize > 0
    requires if s == t then g == h && i != j else s + g.pageNum * PAGE_SIZE <= t || t + h.pageNum * PAGE_SIZE <= s
    requires 0 <= i < g.blockNum && 0 <= j < h.blockNum
    ensures var a, b := BlockAt(s, g.blockSize, i), BlockAt(t, h.blockSize, j);
            a + g.blockSize <= b || b + h.blockSize <= a
  {
    hide BlockAt, BlockCount;
    var a, b := BlockAt(s, g.blockSize, i), BlockAt(t, h.blockSize, j);
    assert IsBlock(s, g, a) && IsBlock(t, h, b);
    BlockInside(s, g, a);
    BlockInside(t, h, b);
    if s == t {
      if i < j {
        BlocksApart(s, g.blockSize, i, j);
      } else {
        BlocksApart(s, g.blockSize, j, i);
      }
    }
  }

  /** The blocks of a span that are on loan, and those that are lost. */
  ghost function LoansOf(st: State, s: int): set<int> {
    set a | a in st.live && st.live[a].span == s
  }

  ghost function LostOf(st: State, s: int): set<int> {
    set a | a in st.lost && st.lost[a] == s
  }

  lemma PickOne(x: set<int>)
    requires |x| > 0
    ensures exists a :: a in x
  {
    assert (forall a :: a !in x) ==> x == {};
  }

  lemma CountParts(s: int, h: Header, f: seq<int>, loans: set<int>, lost: set<int>)
    requires h.blockSize > 0 && h.blockNum >= 0 && NoDup(f)
    requires forall a :: IsBlock(s, h, a) <==> a in f || a in loans || a in lost
    requires forall a :: a in loans ==> a !in f && a !in lost
    requires forall a :: a in lost ==> a !in f
    ensures |f| + |loans| + |lost| == h.blockNum
  {
    var blocks, elements := BlockSet(s, h.blockSize, h.blockNum), Elements(f);
    forall a ensures a in blocks <==> a in elements || a in loans || a in lost {
      assert a in blocks <==> IsBlock(s, h, a);
    }
    assert blocks == elements + (loans + lost);
    assert elements * (loans + lost) == {} && loans * lost == {};
  }

  /** The blocks of a span are its free blocks and, apart from these, those on loan and lost. */
  lemma BlocksCounted(st: State, s: int)
    requires Inv(st) && s in st.headers
    ensures s in st.free && s in st.holder
    ensures |st.free[s]| + |LoansOf(st, s)| + |LostOf(st, s)| == st.headers[s].blockNum
    ensures forall a :: a in LostOf(st, s) ==>
              st.holder[s] == OfCentral && st.headers[s].blockSize == CENTRAL_CACHE_MAX_SIZE
  {
    hide Listed, Proper, HomeList;
    assert SpanInv(st, s);
    var h, loans, lost := st.headers[s], LoansOf(st, s), LostOf(st, s);
    forall a | a in loans ensures IsBlock(s, h, a) && a !in st.free[s] && a !in lost {
      assert LoanInv(st, a);
    }
    forall a | a in lost
      ensures IsBlock(s, h, a) && a !in st.free[s] && st.holder[s] == OfCentral && h.blockSize == CENTRAL_CACHE_MAX_SIZE
    {
      assert LostInv(st, a);
    }
    if h.blockSize == -1 {
      forall a ensures a !in loans && a !in lost && a !in st.free[s] {
      }
      UnsplitIsEmpty(st, s);
      assert loans == {} && lost == {} && st.free[s] == [];
    } else {
      CountParts(s, h, st.free[s], loans, lost);
    }
  }

  /** A thread cache holds only spans it has a block of on loan. */
  lemma SpanOnLoan(st: State, s: int, t: nat) returns (a: int)
    requires Inv(st) && Quiet(st) && s in st.headers && s in st.holder && st.holder[s] == OfThread(t)
    ensures a in st.live && st.live[a].span == s && st.live[a].thread == t
  {
    hide Listed, Proper;
    assert SpanInv(st, s);
    assert QuietSpan(st, s);
    BlocksCounted(st, s);
    forall b ensures b !in LostOf(st, s) {
    }
    assert LostOf(st, s) == {};
    PickOne(LoansOf(st, s));
    a :| a in LoansOf(st, s);
    assert LoanInv(st, a);
  }

  /** Once every block a thread took has been freed, its cache holds no span and all its lists are empty. */
  lemma DrainedThread(st: State, t: nat, slot: int)
    requires Inv(st) && Quiet(st) && t in st.threads && 0 <= slot < TC_SPAN_LIST_NUM
    requires forall a :: a in st.live ==> st.live[a].thread != t
    ensures ThreadList(t, slot) in st.lists && st.lists[ThreadList(t, slot)] == []
    ensures forall s :: s in st.headers ==> s in st.holder && st.holder[s] != OfThread(t)
  {
    hide Listed, Proper;
    var id := ThreadList(t, slot);
    assert ListInv(st, id);
    forall s | s in st.headers ensures s in st.holder && st.holder[s] != OfThread(t) {
      assert SpanInv(st, s);
      if st.holder[s] == OfThread(t) {
        var a := SpanOnLoan(st, s, t);
        assert false;
      }
    }
    if st.lists[id] != [] {
      var s := FirstOf(st.lists[id]);
      assert false;
    }
  }

  lemma FirstOf(f: seq<int>) returns (x: int)
    requires f != []
    ensures x in f
  {
    x := f[0];
  }

  lemma UnsplitIsEmpty(st: State, s: int)
    requires SpanInv(st, s) && st.headers[s].blockSize == -1
    ensures st.free[s] == []
  {
    if st.free[s] != [] {
      var a := FirstOf(st.free[s]);
      assert false;
    }
  }

  /** A list of the page cache holds at most 8 spans, all unsplit and of its page count, none of them lent from. */
  lemma PageListHolds(st: State, n: int, s: int)
    requires Inv(st) && PageList(n) in st.lists && s in st.lists[PageList(n)]
    ensures |st.lists[PageList(n)]| <= SPAN_MAX_LIST_SIZE
    ensures s in st.headers && s in st.free && st.headers[s] == Header(n, -1, 0) && st.free[s] == []
    ensures forall a :: a in st.live ==> st.live[a].span != s
  {
    hide Listed, On;
    assert ListInv(st, PageList(n));
    assert SpanInv(st, s);
    UnsplitIsEmpty(st, s);
    forall a | a in st.live ensures st.live[a].span != s {
      assert LoanInv(st, a);
    }
  }

  /** Every span is with one holder, on at most one list, and on that list once. */
  lemma OneHolder(st: State, id: ListId, id': ListId, i: nat, j: nat)
    requires Inv(st) && id in st.lists && id' in st.lists && i < |st.lists[id]| && j < |st.lists[id']|
    requires st.lists[id][i] == st.lists[id'][j]
    ensures id == id' && i == j
  {
    assert st.lists[id][i] in st.lists[id] && st.lists[id'][j] in st.lists[id'];
  }
}
