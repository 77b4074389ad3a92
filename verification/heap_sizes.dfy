/**
 Size classes, tiers and span sizes of the tiered heap allocator: util.h, util.cpp and the
 arithmetic of the three caches.
 */
module HeapSizes {
  import opened SystemPages

  const SPAN_HEAD_SIZE: int := 64
  const SPAN_MAX_SIZE: int := 129
  const SPAN_MAX_LIST_SIZE: int := 8
  const TC_SPAN_LIST_NUM: int := 1024 + 15 + 1
  const CC_SPAN_LIST_NUM: int := (PAGE_SIZE * (129 - 1) - SPAN_HEAD_SIZE) / 64 + 15 + 1
  const PC_SPAN_LIST_NUM: int := 129
  const THREAD_CACHE_MAX_SIZE: int := 64 * 1024
  const CENTRAL_CACHE_MAX_SIZE: int := PAGE_SIZE * (SPAN_MAX_SIZE - 1) - SPAN_HEAD_SIZE

  // ---------------------------------------------------------------- size classes

  function CeilMemSize(memSize: int): int {
    if memSize < 16 then 16
    else if memSize < 64 then (memSize + 4 - 1) / 4 * 4
    else if memSize % 64 != 0 then (memSize / 64 + 1) * 64
    else memSize
  }

  function Size2Slot(size: int): int {
    if size < 64 then size / 4 else size / 64 + 60 / 4
  }

  /** The block sizes there are: multiples of 4 from 16 to 64, and multiples of 64. */
  predicate SizeClass(size: int) {
    if size < 64 then 16 <= size && size % 4 == 0 else size % 64 == 0
  }

  /** The size class of a slot. */
  function SlotSize(slot: int): int {
    if slot < 16 then slot * 4 else (slot - 15) * 64
  }

  lemma CeilOfLarge(memSize: int) returns (q: int)
    requires memSize >= 64
    ensures CeilMemSize(memSize) == 64 * q && 64 * (q - 1) < memSize <= 64 * q
  {
    q := if memSize % 64 == 0 then memSize / 64 else memSize / 64 + 1;
  }

  lemma CeilOfSmall(memSize: int) returns (q: int)
    requires 16 <= memSize < 64
    ensures CeilMemSize(memSize) == 4 * q && 4 * (q - 1) < memSize <= 4 * q
  {
    q := (memSize + 3) / 4;
  }

  lemma Multiples(q: int)
    ensures 4 * q % 4 == 0 && 64 * q % 64 == 0
  {
  }

  lemma FourTimes(q: int)
    ensures 4 * q % 4 == 0
  {
  }

  lemma MultipleOf4(size: int)
    requires SizeClass(size)
    ensures size % 4 == 0
  {
    if size >= 64 {
      var k := size / 64;
      assert size == 64 * k;
      FourTimes(16 * k);
    }
  }

  lemma NextMultipleOf64(memSize: int, q: int, size: int)
    requires 64 * (q - 1) < memSize <= size && size % 64 == 0
    ensures 64 * q <= size
  {
    var k := size / 64;
    assert size == 64 * k;
  }

  lemma NextMultipleOf4(memSize: int, q: int, size: int)
    requires 4 * (q - 1) < memSize <= size && size % 4 == 0
    ensures 4 * q <= size
  {
    var k := size / 4;
    assert size == 4 * k;
  }

  /** 16 bytes at least, multiples of 4 below 64, multiples of 64 from there on. */
  lemma CeilIsRounded(memSize: int)
    ensures var c := CeilMemSize(memSize);
            if memSize <= 16 then c == 16
            else if memSize <= 64 then c % 4 == 0 && memSize <= c < memSize + 4
            else c % 64 == 0 && memSize <= c < memSize + 64
  {
    hide CeilMemSize;
    if memSize >= 64 {
      var q := CeilOfLarge(memSize);
      Multiples(q);
    } else if memSize >= 16 {
      var q := CeilOfSmall(memSize);
      FourTimes(q);
    } else {
      Least(memSize);
    }
  }

  lemma Least(memSize: int)
    requires memSize < 16
    ensures CeilMemSize(memSize) == 16
  {
  }

  /** CeilMemSize is the least size class that is large enough. */
  lemma CeilIsLeastClass(memSize: int, size: int)
    ensures SizeClass(CeilMemSize(memSize)) && CeilMemSize(memSize) >= memSize
    ensures SizeClass(size) && size >= memSize ==> size >= CeilMemSize(memSize)
  {
    if memSize >= 64 {
      LeastOfLarge(memSize, size);
    } else if memSize >= 16 {
      LeastOfSmall(memSize, size);
    }
  }

  lemma LeastOfLarge(memSize: int, size: int)
    requires memSize >= 64
    ensures SizeClass(CeilMemSize(memSize)) && CeilMemSize(memSize) >= memSize
    ensures SizeClass(size) && size >= memSize ==> size >= CeilMemSize(memSize)
  {
    hide CeilMemSize;
    var q := CeilOfLarge(memSize);
    Multiples(q);
    if SizeClass(size) && size >= memSize { NextMultipleOf64(memSize, q, size); }
  }

  lemma LeastOfSmall(memSize: int, size: int)
    requires 16 <= memSize < 64
    ensures SizeClass(CeilMemSize(memSize)) && CeilMemSize(memSize) >= memSize
    ensures SizeClass(size) && size >= memSize ==> size >= CeilMemSize(memSize)
  {
    hide CeilMemSize;
    var q := CeilOfSmall(memSize);
    Multiples(q);
    if size < 64 && SizeClass(size) && size >= memSize { NextMultipleOf4(memSize, q, size); }
  }

  /** So it is idempotent and monotone. */
  lemma CeilIsClosure(a: int, b: int)
    ensures CeilMemSize(CeilMemSize(a)) == CeilMemSize(a)
    ensures a <= b ==> CeilMemSize(a) <= CeilMemSize(b)
  {
    CeilIsLeastClass(a, CeilMemSize(a));
    CeilIsLeastClass(CeilMemSize(a), CeilMemSize(a));
    CeilIsLeastClass(b, b);
    CeilIsLeastClass(a, CeilMemSize(b));
  }

  /** Size classes and slots from 4 on correspond, in order. */
  lemma SlotsAreOrdered(a: int, b: int, slot: int)
    requires SizeClass(a) && SizeClass(b)
    ensures a < b <==> Size2Slot(a) < Size2Slot(b)
    ensures SlotSize(Size2Slot(a)) == a && Size2Slot(a) >= 4
    ensures slot >= 4 ==> SizeClass(SlotSize(slot)) && Size2Slot(SlotSize(slot)) == slot
  {
    SlotOfClass(a);
    SlotOfClass(b);
  }

  lemma SlotOfClass(a: int)
    requires SizeClass(a)
    ensures if a < 64 then a == Size2Slot(a) * 4 && Size2Slot(a) < 16 else a == (Size2Slot(a) - 15) * 64
  {
  }

  // ---------------------------------------------------------------- tiers

  datatype Tier = ThreadTier | CentralTier | SystemTier | NoTier

  /** Where MyMalloc takes a request to; a negative one is huge when it is compared with a size_t. */
  function RequestTier(size: int): Tier {
    if size < 0 then SystemTier
    else if size < THREAD_CACHE_MAX_SIZE then ThreadTier
    else if size < CENTRAL_CACHE_MAX_SIZE then CentralTier
    else SystemTier
  }

  /** Where MyFree takes a block to; the block size of an unsplit span, -1, is huge in that comparison. */
  function BlockTier(blockSize: int): Tier {
    if blockSize < 0 then NoTier
    else if blockSize < THREAD_CACHE_MAX_SIZE then ThreadTier
    else if blockSize < CENTRAL_CACHE_MAX_SIZE then CentralTier
    else NoTier
  }

  /** The assertion at the start of CentralCache::DistributeMemBlock. */
  predicate CentralAccepts(size: int) {
    size % 4 == 0 && size > 64 * 1024
  }

  /** A request is served, and its block taken back by the same cache, exactly outside two size classes. */
  lemma TiersAgree(size: int)
    requires RequestTier(size) != SystemTier
    ensures RequestTier(size) == BlockTier(CeilMemSize(size)) <==>
            !(65473 <= size <= 65535) && !(524161 <= size <= 524223)
    ensures (RequestTier(size) == BlockTier(CeilMemSize(size)) &&
             (RequestTier(size) == CentralTier ==> CentralAccepts(CeilMemSize(size)))) <==>
            CeilMemSize(size) !in {THREAD_CACHE_MAX_SIZE, CENTRAL_CACHE_MAX_SIZE}
    ensures CeilMemSize(size) == THREAD_CACHE_MAX_SIZE <==> 65473 <= size <= 65536
    ensures CeilMemSize(size) == CENTRAL_CACHE_MAX_SIZE <==> 524161 <= size <= 524223
  {
    hide CeilMemSize;
    if size >= 64 {
      var q := CeilOfLarge(size);
      Multiples(q);
      MultipleOf4(CeilMemSize(size));
    } else {
      SmallStaysSmall(size);
    }
  }

  lemma SmallStaysSmall(size: int)
    requires size < 64
    ensures 16 <= CeilMemSize(size) <= 64
  {
  }

  // ---------------------------------------------------------------- span sizes

  /** The blocks a thread cache wants of a new span, for blocks of a size. */
  function MinNum(size: int): int
    requires size > 0
  {
    if 128 * PAGE_SIZE / size > 8 then 128 * PAGE_SIZE / size else 8
  }

  /** The pages it asks for. */
  function FetchPages(size: int): int
    requires size > 0
  {
    (size * MinNum(size) + 12 - 1) / PAGE_SIZE
  }

  /** ceilf of a quotient of floats; all numbers here are below 2^24, so the floats are exact. */
  function Ceil(x: real): int {
    -((-x).Floor)
  }

  /** The pages the central cache asks for. */
  function CentralPages(size: int): int {
    Ceil((size + SPAN_HEAD_SIZE) as real / PAGE_SIZE as real)
  }

  /** How many blocks a span of some pages is split into. */
  function BlockCount(pageNum: int, size: int): int
    requires size > 0
  {
    (pageNum * PAGE_SIZE - SPAN_HEAD_SIZE) / size
  }

  lemma DivBounds(a: int, b: int)
    requires b > 0
    ensures b * (a / b) <= a < b * (a / b) + b
  {
  }

  lemma AtLeast(a: int, b: int, n: int)
    requires b > 0 && a >= n * b
    ensures a / b >= n
  {
    DivBounds(a, b);
    MulOrder(b, a / b, n - 1);
  }

  lemma MulOrder(b: int, x: int, y: int)
    requires b > 0
    ensures x <= y ==> b * x <= b * y
  {
  }

  lemma Exactly(a: int, b: int)
    requires b > 0 && b <= a < 2 * b
    ensures a / b == 1
  {
  }

  /** A thread cache asks for a span that exists, and gets at least two blocks. */
  lemma ThreadSpans(size: int)
    requires SizeClass(size) && size < THREAD_CACHE_MAX_SIZE
    ensures 1 <= FetchPages(size) < PC_SPAN_LIST_NUM && BlockCount(FetchPages(size), size) >= 2
    ensures 4 <= Size2Slot(size) < TC_SPAN_LIST_NUM
  {
    var m := 128 * PAGE_SIZE / size;
    DivBounds(128 * PAGE_SIZE, size);
    AtLeast(128 * PAGE_SIZE, size, 8);
    var bytes := size * m + 11;
    DivBounds(bytes, PAGE_SIZE);
    assert FetchPages(size) == bytes / PAGE_SIZE;
    AtLeast(FetchPages(size) * PAGE_SIZE - SPAN_HEAD_SIZE, size, 2);
  }

  /** The span is as long as the blocks that 128 pages can hold, rounded down to pages after adding 11 bytes. */
  lemma FetchedSpan(size: int)
    requires SizeClass(size) && size < 65536
    ensures var m := 524288 / size; 4096 * FetchPages(size) <= size * m + 11 < 4096 * FetchPages(size) + 4096
    ensures 524288 - size - 4096 < 4096 * FetchPages(size) <= 524288
  {
    AtLeast(524288, size, 8);
    DivBounds(524288, size);
    DivBounds(size * (524288 / size) + 11, 4096);
  }

  /** The span never holds the blocks wanted: the pages are rounded down, and the header takes 64 bytes more. */
  lemma FetchFallsShort(size: int)
    requires size > 0
    ensures BlockCount(FetchPages(size), size) < MinNum(size)
    ensures size * (MinNum(size) - BlockCount(FetchPages(size), size)) < size + PAGE_SIZE + 53
  {
    hide MinNum;
    var wanted, space := size * MinNum(size), FetchPages(size) * PAGE_SIZE - SPAN_HEAD_SIZE;
    DivBounds(wanted + 11, PAGE_SIZE);
    assert wanted - PAGE_SIZE - 53 < space <= wanted - 53;
    DivBounds(space, size);
    Fewer(size, space, MinNum(size));
  }

  lemma Fewer(size: int, space: int, n: int)
    requires size > 0 && space < size * n
    ensures space / size < n
    ensures size * (n - space / size) == size * n - size * (space / size)
  {
    DivBounds(space, size);
    if space / size >= n { MulOrder(size, n, space / size); }
  }

  lemma CeilQuotient(n: int)
    ensures Ceil(n as real / PAGE_SIZE as real) == (n + PAGE_SIZE - 1) / PAGE_SIZE
  {
    var q := (n + PAGE_SIZE - 1) / PAGE_SIZE;
    var x := n as real / PAGE_SIZE as real;
    assert PAGE_SIZE * (q - 1) < n <= PAGE_SIZE * q;
    assert x <= q as real && x > (q - 1) as real;
  }

  /** A central span holds exactly one block, and is the least that holds it. */
  lemma CentralSpans(size: int)
    requires SizeClass(size) && THREAD_CACHE_MAX_SIZE < size <= CENTRAL_CACHE_MAX_SIZE
    ensures 4096 * (CentralPages(size) - 1) < size + 64 <= 4096 * CentralPages(size)
    ensures 1 <= CentralPages(size) < PC_SPAN_LIST_NUM && BlockCount(CentralPages(size), size) == 1
    ensures 4 <= Size2Slot(size) < CC_SPAN_LIST_NUM
  {
    CeilQuotient(size + SPAN_HEAD_SIZE);
    Exactly(CentralPages(size) * PAGE_SIZE - SPAN_HEAD_SIZE, size);
  }
}
