/**
 The boundary-tag allocator of heap-allocator/README.md (its malloc.c).

 Addresses and block sizes count 8-byte words: every address and size the allocator
 handles is a multiple of 8, so a header is one word, the smallest block two words and a
 2 MiB segment 262144 words.  Address 0 is NULL.
 */
module BoundaryTag {

  type Addr = int

  const SIZE_T_RANGE: nat := 0x1_0000_0000_0000_0000  // size_t arithmetic is modulo 2^64
  const THRESHOLD_FOR_MMAP: nat := 256 * 1024
  const MEM_BLOCK_MINIMUM: nat := 16
  const BLOCK_HEADER_BYTES: nat := 8

  const MINIMUM_WORDS: nat := 2
  const PAGE_WORDS: nat := 512
  const SEGMENT_WORDS: nat := 262144
  const SEGMENT_HEADER_WORDS: nat := 2
  const ADDRESS_LIMIT: nat := 0x1000_0000_0000  // 2^47 bytes of user address space, in words

  /** One word of memory: a block header with its bit fields, or anything else. */
  datatype Word =
    | Header(inUse: bool, prevInUse: bool, fromMmap: bool, size: nat)
    | Raw(value: int)

  type Memory = map<Addr, Word>

  // ---------------------------------------------------------------- request sizes (bytes)

  /** ALIGN_UP_N_BYTES on size_t: the addition wraps. */
  function AlignUp(size: nat, n: nat): int
    requires n > 0
  {
    (size + n - 1) % SIZE_T_RANGE / n * n
  }

  /** The block size in bytes that malloc asks for, header included. */
  function BlockBytes(size: nat): int {
    var aligned := AlignUp(size, 8);
    if aligned < MEM_BLOCK_MINIMUM then MEM_BLOCK_MINIMUM
    else (aligned + BLOCK_HEADER_BYTES) % SIZE_T_RANGE
  }

  /** The computed block has room for the request exactly when the request is at most 2^64 - 16. */
  lemma BlockServesRequest(size: nat)
    requires size < SIZE_T_RANGE
    ensures size + BLOCK_HEADER_BYTES <= BlockBytes(size) <==> size <= SIZE_T_RANGE - 16
    ensures BlockBytes(size) % 8 == 0
    ensures size <= SIZE_T_RANGE - 16 ==> MEM_BLOCK_MINIMUM <= BlockBytes(size) < size + 16 || BlockBytes(size) == 16
  {
    if size <= SIZE_T_RANGE - 8 {
      assert (size + 7) % SIZE_T_RANGE == size + 7;
    } else {
      assert (size + 7) % SIZE_T_RANGE == size + 7 - SIZE_T_RANGE;
    }
  }

  /** A request where it does not: 2^64 - 1 bytes are answered with a 16-byte block. */
  lemma HugeRequestGetsSmallBlock()
    ensures BlockBytes(SIZE_T_RANGE - 1) == 16
  {
    assert (SIZE_T_RANGE - 1 + 7) % SIZE_T_RANGE == 6;
  }

  // ---------------------------------------------------------------- the heap invariant

  ghost function At(mem: Memory, a: Addr): Word {
    if a in mem then mem[a] else Raw(0)
  }

  /** Is the block at `b` marked in use? */
  ghost predicate InUse(mem: Memory, b: Addr) {
    At(mem, b).Header? && At(mem, b).inUse
  }

  ghost function Size(mem: Memory, b: Addr): nat {
    if At(mem, b).Header? then At(mem, b).size else 0
  }

  /** The number of blocks between the cut points `c`. */
  ghost function Count(c: seq<Addr>): nat {
    if c == [] then 0 else |c| - 1
  }

  /** Block i of a segment cut at `c` has a header that tells the truth about itself and its neighbours. */
  ghost predicate BlockOk(mem: Memory, c: seq<Addr>, i: nat)
    requires i < Count(c)
  {
    var h := At(mem, c[i]);
    && h.Header?
    && !h.fromMmap
    && h.size == c[i + 1] - c[i]
    && h.prevInUse == (i == 0 || InUse(mem, c[i - 1]))
    && (!h.inUse ==> At(mem, c[i + 1] - 1) == Raw(h.size))
    && (!h.inUse && i > 0 ==> InUse(mem, c[i - 1]))
  }

  /** The cut points run from the end of the segment header to the end of the segment. */
  ghost predicate CutsOk(s: Addr, c: seq<Addr>) {
    && |c| >= 2
    && c[0] == s + SEGMENT_HEADER_WORDS
    && c[|c| - 1] == s + SEGMENT_WORDS
    && (forall i, j :: 0 <= i < j < |c| ==> c[i] + MINIMUM_WORDS <= c[j])
  }

  /** Segment `s` is tiled exactly by the blocks between the cut points `c`. */
  ghost predicate Tiled(mem: Memory, s: Addr, c: seq<Addr>) {
    CutsOk(s, c) && forall i :: 0 <= i < Count(c) ==> BlockOk(mem, c, i)
  }

  ghost predicate AllTiled(mem: Memory, segs: seq<Addr>, cuts: map<Addr, seq<Addr>>) {
    forall t :: t in segs ==> t in cuts && Tiled(mem, t, cuts[t])
  }

  /** mmapped ranges are mapped, non-null and pairwise disjoint. */
  ghost predicate RegionsOk(mem: Memory, regions: map<Addr, nat>) {
    && (forall r :: r in regions ==> 0 < r && 0 < regions[r] && r + regions[r] <= ADDRESS_LIMIT)
    && (forall r, a :: r in regions && r <= a < r + regions[r] ==> a in mem)
    && (forall r, q :: r in regions && q in regions && r != q ==>
          r + regions[r] <= q || q + regions[q] <= r)
  }

  /** The segments form the NULL-terminated doubly linked list that starts at `head`. */
  ghost predicate SegmentsLinked(mem: Memory, head: Addr, segs: seq<Addr>) {
    && head == (if segs == [] then 0 else segs[0])
    && (forall i :: 0 <= i < |segs| ==> LinksOk(mem, segs, i))
  }

  ghost predicate LinksOk(mem: Memory, segs: seq<Addr>, i: nat)
    requires i < |segs|
  {
    && At(mem, segs[i]) == Raw(if i == 0 then 0 else segs[i - 1])
    && At(mem, segs[i] + 1) == Raw(if i == |segs| - 1 then 0 else segs[i + 1])
  }

  ghost predicate SegmentsOk(regions: map<Addr, nat>, segs: seq<Addr>) {
    && (forall s :: s in segs ==> s in regions && regions[s] == SEGMENT_WORDS)
    && (forall i, j :: 0 <= i < j < |segs| ==> segs[i] != segs[j])
  }

  /** Is `b` one of the blocks of a segment cut at `c`? */
  ghost predicate IsBlock(c: seq<Addr>, b: Addr) {
    exists i :: 0 <= i < Count(c) && c[i] == b
  }

  /** `owner` maps exactly the blocks in use to the mmapped range that holds them. */
  ghost predicate OwnerOk(mem: Memory, regions: map<Addr, nat>, segs: seq<Addr>, cuts: map<Addr, seq<Addr>>,
                          owner: map<Addr, Addr>)
  {
    && (forall s :: s in segs ==> s in cuts)
    && (forall b :: b in owner ==> OwnedBlock(mem, regions, segs, cuts, b, owner[b]))
    && (forall s, i :: s in segs && 0 <= i < Count(cuts[s]) && InUse(mem, cuts[s][i]) ==>
          cuts[s][i] in owner && owner[cuts[s][i]] == s)
    && (forall r :: r in regions && r !in segs ==> r in owner && owner[r] == r)
  }

  ghost predicate OwnedBlock(mem: Memory, regions: map<Addr, nat>, segs: seq<Addr>, cuts: map<Addr, seq<Addr>>,
                             b: Addr, r: Addr)
  {
    if r == b then
      b in regions && b !in segs && At(mem, b) == Header(true, true, true, regions[b])
    else
      r in segs && r in cuts && IsBlock(cuts[r], b) && InUse(mem, b)
  }

  /** Some block of the segment is in use. */
  ghost predicate SomeInUse(mem: Memory, c: seq<Addr>) {
    exists i :: 0 <= i < Count(c) && InUse(mem, c[i])
  }

  ghost predicate NoFreeBlock(mem: Memory, c: seq<Addr>, n: nat, size: nat)
    requires n <= Count(c)
  {
    forall i :: 0 <= i < n ==> InUse(mem, c[i]) || c[i + 1] - c[i] < size
  }

  /** Every block of `owner` has the same size and the same contents in both memories. */
  ghost predicate Kept(mem: Memory, mem': Memory, owner: map<Addr, Addr>) {
    forall b :: b in owner ==> KeptBlock(mem, mem', b)
  }

  ghost predicate KeptBlock(mem: Memory, mem': Memory, b: Addr) {
    && Size(mem', b) == Size(mem, b)
    && forall a :: b < a < b + Size(mem, b) ==> At(mem', a) == At(mem, a)
  }

  // ---------------------------------------------------------------- what the invariant says of one block, one mapping

  lemma CutOrder(s: Addr, c: seq<Addr>, i: nat, j: nat)
    requires CutsOk(s, c) && i < j < |c|
    ensures s + SEGMENT_HEADER_WORDS <= c[i] && c[i] + MINIMUM_WORDS <= c[j] <= s + SEGMENT_WORDS
  {
    if i > 0 { assert c[0] + MINIMUM_WORDS <= c[i]; }
    if j < |c| - 1 { assert c[j] + MINIMUM_WORDS <= c[|c| - 1]; }
  }

  lemma BlockFacts(mem: Memory, s: Addr, c: seq<Addr>, i: nat)
    requires Tiled(mem, s, c) && i < Count(c)
    ensures BlockOk(mem, c, i) && Size(mem, c[i]) == c[i + 1] - c[i]
    ensures s + SEGMENT_HEADER_WORDS <= c[i] && c[i] + MINIMUM_WORDS <= c[i + 1] <= s + SEGMENT_WORDS
  {
    hide CutsOk;
    CutOrder(s, c, i, i + 1);
  }

  lemma RegionFacts(mem: Memory, regions: map<Addr, nat>, r: Addr)
    requires RegionsOk(mem, regions) && r in regions
    ensures 0 < r && 0 < regions[r] && r + regions[r] <= ADDRESS_LIMIT
    ensures forall a :: r <= a < r + regions[r] ==> a in mem
  {
  }

  lemma RegionsApart(mem: Memory, regions: map<Addr, nat>, r: Addr, q: Addr)
    requires RegionsOk(mem, regions) && r in regions && q in regions && r != q
    ensures r + regions[r] <= q || q + regions[q] <= r
  {
  }

  lemma SegmentFacts(mem: Memory, regions: map<Addr, nat>, segs: seq<Addr>, s: Addr)
    requires RegionsOk(mem, regions) && SegmentsOk(regions, segs) && s in segs
    ensures 0 < s && s in regions && regions[s] == SEGMENT_WORDS
    ensures forall a :: s <= a < s + SEGMENT_WORDS ==> a in mem
  {
    hide RegionsOk;
    RegionFacts(mem, regions, s);
  }

  /** The block of `owner` at b, if segment `s` holds it, is one of the blocks of the segment. */
  lemma OwnedIndex(mem: Memory, regions: map<Addr, nat>, segs: seq<Addr>, cuts: map<Addr, seq<Addr>>,
                   owner: map<Addr, Addr>, s: Addr, b: Addr) returns (i: nat)
    requires OwnerOk(mem, regions, segs, cuts, owner) && b in owner && owner[b] == s && s in segs
    ensures s in cuts && i < Count(cuts[s]) && cuts[s][i] == b && InUse(mem, b)
  {
    assert OwnedBlock(mem, regions, segs, cuts, b, s);
    i := IndexOf(cuts[s], b);
  }

  // ---------------------------------------------------------------- one segment changes

  /** The two memories agree outside the blocks of segment `s`. */
  ghost predicate SameOutside(mem: Memory, mem': Memory, s: Addr) {
    && mem.Keys == mem'.Keys
    && forall a :: a < s + SEGMENT_HEADER_WORDS || s + SEGMENT_WORDS <= a ==> At(mem', a) == At(mem, a)
  }

  lemma OtherSegmentsKeepTiling(mem: Memory, mem': Memory, regions: map<Addr, nat>, head: Addr, segs: seq<Addr>,
                                cuts: map<Addr, seq<Addr>>, s: Addr)
    requires RegionsOk(mem, regions) && SegmentsOk(regions, segs) && SegmentsLinked(mem, head, segs)
    requires AllTiled(mem, segs, cuts)
    requires s in segs && SameOutside(mem, mem', s)
    ensures RegionsOk(mem', regions) && SegmentsLinked(mem', head, segs)
    ensures forall t :: t in segs && t != s ==> Tiled(mem', t, cuts[t])
    ensures forall t, a :: t in segs && t != s && t <= a < t + SEGMENT_WORDS ==> At(mem', a) == At(mem, a)
  {
    hide RegionsOk, SegmentsOk, Tiled, At;
    forall t, a | t in segs && t != s && t <= a < t + SEGMENT_WORDS
      ensures At(mem', a) == At(mem, a)
    {
      OtherSegmentUnchanged(mem, mem', regions, segs, s, t, a);
    }
    forall t | t in segs && t != s
      ensures Tiled(mem', t, cuts[t])
    {
      SameWordsSameTiling(mem, mem', t, cuts[t]);
    }
    forall i | 0 <= i < |segs|
      ensures LinksOk(mem', segs, i)
    {
      LinksOutside(mem, mem', regions, segs, s, i);
    }
    SameKeysSameRegions(mem, mem', regions);
  }

  lemma SameKeysSameRegions(mem: Memory, mem': Memory, regions: map<Addr, nat>)
    requires RegionsOk(mem, regions) && mem.Keys == mem'.Keys
    ensures RegionsOk(mem', regions)
  {
    assert forall a :: a in mem <==> a in mem.Keys;
    assert forall a :: a in mem' <==> a in mem'.Keys;
  }

  lemma OtherSegmentUnchanged(mem: Memory, mem': Memory, regions: map<Addr, nat>, segs: seq<Addr>, s: Addr, t: Addr,
                              a: Addr)
    requires RegionsOk(mem, regions) && SegmentsOk(regions, segs)
    requires s in segs && t in segs && t != s && t <= a < t + SEGMENT_WORDS && SameOutside(mem, mem', s)
    ensures At(mem', a) == At(mem, a)
  {
    hide RegionsOk, SegmentsOk, At;
    SegmentFacts(mem, regions, segs, s);
    SegmentFacts(mem, regions, segs, t);
    RegionsApart(mem, regions, s, t);
  }

  lemma LinksOutside(mem: Memory, mem': Memory, regions: map<Addr, nat>, segs: seq<Addr>, s: Addr, i: nat)
    requires RegionsOk(mem, regions) && SegmentsOk(regions, segs)
    requires s in segs && i < |segs| && LinksOk(mem, segs, i) && SameOutside(mem, mem', s)
    ensures LinksOk(mem', segs, i)
  {
    hide RegionsOk, SegmentsOk, At;
    assert segs[i] in segs;
    if segs[i] != s {
      OtherSegmentUnchanged(mem, mem', regions, segs, s, segs[i], segs[i]);
      OtherSegmentUnchanged(mem, mem', regions, segs, s, segs[i], segs[i] + 1);
    }
  }

  lemma SameWordsSameTiling(mem: Memory, mem': Memory, s: Addr, c: seq<Addr>)
    requires Tiled(mem, s, c)
    requires forall a :: s <= a < s + SEGMENT_WORDS ==> At(mem', a) == At(mem, a)
    ensures Tiled(mem', s, c)
  {
    forall i | 0 <= i < Count(c)
      ensures BlockOk(mem', c, i)
    {
      hide Tiled, CutsOk, At;
      BlockFacts(mem, s, c, i);
      if i > 0 {
        BlockFacts(mem, s, c, i - 1);
      }
    }
  }

  /** The memory after block k of a segment is handed out whole. */
  ghost function TakenWhole(mem: Memory, c: seq<Addr>, k: nat): Memory
    requires k < Count(c)
  {
    var m := if k + 1 < Count(c) && At(mem, c[k + 1]).Header?
             then mem[c[k + 1] := At(mem, c[k + 1]).(prevInUse := true)] else mem;
    if At(mem, c[k]).Header? then m[c[k] := At(mem, c[k]).(inUse := true)] else m
  }

  lemma TakenWholeBlock(mem: Memory, s: Addr, c: seq<Addr>, k: nat, i: nat)
    requires Tiled(mem, s, c) && k < Count(c) && !InUse(mem, c[k]) && i < Count(c)
    ensures BlockOk(TakenWhole(mem, c, k), c, i)
    ensures InUse(TakenWhole(mem, c, k), c[i]) == (i == k || InUse(mem, c[i]))
  {
    hide CutsOk;
    BlockFacts(mem, s, c, k);
    BlockFacts(mem, s, c, i);
    if k + 1 < Count(c) { BlockFacts(mem, s, c, k + 1); }
    if i > 0 { BlockFacts(mem, s, c, i - 1); }
    if i != k { BlocksApart(mem, s, c, i, k); }
    if i != k + 1 && k + 1 < Count(c) { BlocksApart(mem, s, c, i, k + 1); }
  }

  lemma TakeWholeKeepsTiling(mem: Memory, s: Addr, c: seq<Addr>, k: nat)
    requires Tiled(mem, s, c) && k < Count(c) && !InUse(mem, c[k])
    ensures Tiled(TakenWhole(mem, c, k), s, c)
    ensures InUse(TakenWhole(mem, c, k), c[k])
    ensures forall i :: 0 <= i < Count(c) && i != k ==> InUse(TakenWhole(mem, c, k), c[i]) == InUse(mem, c[i])
  {
    hide TakenWhole, BlockOk, InUse;
    var mem' := TakenWhole(mem, c, k);
    forall i | 0 <= i < Count(c)
      ensures BlockOk(mem', c, i)
      ensures if i == k then InUse(mem', c[i]) else InUse(mem', c[i]) == InUse(mem, c[i])
    {
      TakenWholeBlock(mem, s, c, k, i);
    }
  }

  /** The memory after the first `size` words of free block k are handed out and the rest stays free. */
  ghost function Carved(mem: Memory, c: seq<Addr>, k: nat, size: nat): Memory
    requires k < Count(c) && c[k] + size <= c[k + 1]
  {
    var rest := c[k + 1] - c[k] - size;
    var m := mem[c[k] + size := Header(false, true, false, rest)][c[k + 1] - 1 := Raw(rest)];
    if At(mem, c[k]).Header? then m[c[k] := At(mem, c[k]).(inUse := true, size := size)] else m
  }

  ghost function CarvedCuts(c: seq<Addr>, k: nat, size: nat): seq<Addr>
    requires k < Count(c)
  {
    c[..k + 1] + [c[k] + size] + c[k + 1..]
  }

  lemma CarvedCutsOk(s: Addr, c: seq<Addr>, k: nat, size: nat)
    requires CutsOk(s, c) && k < Count(c)
    requires MINIMUM_WORDS <= size && c[k] + size + MINIMUM_WORDS <= c[k + 1]
    ensures CutsOk(s, CarvedCuts(c, k, size))
  {
    var d := CarvedCuts(c, k, size);
    forall i, j | 0 <= i < j < |d|
      ensures d[i] + MINIMUM_WORDS <= d[j]
    {
      if i != k + 1 && j != k + 1 {
        var i', j' := if i <= k then i else i - 1, if j <= k then j else j - 1;
        assert d[i] == c[i'] && d[j] == c[j'];
      } else if j == k + 1 {
        assert d[i] == c[i] && c[i] <= c[k];
      } else {
        assert d[j] == c[j - 1] && c[k + 1] <= c[j - 1];
      }
    }
  }

  /** Carving leaves the headers and footers of the other blocks alone. */
  lemma CarvedElsewhere(mem: Memory, s: Addr, c: seq<Addr>, k: nat, size: nat, i: nat)
    requires Tiled(mem, s, c) && k < Count(c) && i < Count(c) && i != k
    requires MINIMUM_WORDS <= size && c[k] + size + MINIMUM_WORDS <= c[k + 1]
    ensures At(Carved(mem, c, k, size), c[i]) == At(mem, c[i])
    ensures At(Carved(mem, c, k, size), c[i + 1] - 1) == At(mem, c[i + 1] - 1)
  {
    hide Tiled, CutsOk;
    BlockFacts(mem, s, c, i);
    BlocksApart(mem, s, c, i, k);
  }

  lemma BlocksApart(mem: Memory, s: Addr, c: seq<Addr>, i: nat, k: nat)
    requires Tiled(mem, s, c) && i < Count(c) && k < Count(c) && i != k
    ensures i < k ==> c[i] < c[i + 1] <= c[k]
    ensures k < i ==> c[k] < c[k + 1] <= c[i]
  {
    hide BlockOk;
    assert c[i] < c[i + 1] && c[k] < c[k + 1];
  }

  lemma CarvedLength(c: seq<Addr>, k: nat, size: nat)
    requires k < Count(c)
    ensures |CarvedCuts(c, k, size)| == |c| + 1
  {
  }

  lemma CarvedHeaders(mem: Memory, s: Addr, c: seq<Addr>, k: nat, size: nat)
    requires Tiled(mem, s, c) && k < Count(c) && !InUse(mem, c[k])
    requires MINIMUM_WORDS <= size && c[k] + size + MINIMUM_WORDS <= c[k + 1]
    ensures InUse(Carved(mem, c, k, size), c[k]) && !InUse(Carved(mem, c, k, size), c[k] + size)
  {
    hide Tiled, CutsOk;
    BlockFacts(mem, s, c, k);
  }

  lemma CarveKeepsTiling(mem: Memory, s: Addr, c: seq<Addr>, k: nat, size: nat)
    requires Tiled(mem, s, c) && k < Count(c) && !InUse(mem, c[k])
    requires MINIMUM_WORDS <= size && c[k] + size + MINIMUM_WORDS <= c[k + 1]
    ensures Tiled(Carved(mem, c, k, size), s, CarvedCuts(c, k, size))
    ensures InUse(Carved(mem, c, k, size), c[k]) && !InUse(Carved(mem, c, k, size), c[k] + size)
    ensures forall i :: 0 <= i < Count(c) && i != k ==> At(Carved(mem, c, k, size), c[i]) == At(mem, c[i])
  {
    hide BlockOk, CutsOk, CarvedCuts;
    var mem', d := Carved(mem, c, k, size), CarvedCuts(c, k, size);
    assert |d| == |c| + 1 by { CarvedLength(c, k, size); }
    CarvedHeaders(mem, s, c, k, size);
    CarvedCutsOk(s, c, k, size);
    forall i | 0 <= i < Count(c) && i != k
      ensures At(mem', c[i]) == At(mem, c[i])
    {
      CarvedElsewhere(mem, s, c, k, size, i);
    }
    forall i | 0 <= i < Count(d)
      ensures BlockOk(mem', d, i)
    {
      if i <= k {
        CarvedFront(mem, s, c, k, size, i);
      } else if i == k + 1 {
        CarvedRest(mem, s, c, k, size);
      } else {
        CarvedBack(mem, s, c, k, size, i - 1);
      }
    }
  }

  lemma CarvedFirst(mem: Memory, s: Addr, c: seq<Addr>, k: nat, size: nat)
    requires Tiled(mem, s, c) && k < Count(c) && !InUse(mem, c[k])
    requires MINIMUM_WORDS <= size && c[k] + size + MINIMUM_WORDS <= c[k + 1]
    ensures At(mem, c[k]).Header? && At(Carved(mem, c, k, size), c[k]) == At(mem, c[k]).(inUse := true, size := size)
  {
    hide CutsOk, InUse;
    BlockFacts(mem, s, c, k);
  }

  /** The block handed out and the blocks before it. */
  lemma CarvedFront(mem: Memory, s: Addr, c: seq<Addr>, k: nat, size: nat, i: nat)
    requires Tiled(mem, s, c) && k < Count(c) && !InUse(mem, c[k]) && i <= k
    requires MINIMUM_WORDS <= size && c[k] + size + MINIMUM_WORDS <= c[k + 1]
    ensures BlockOk(Carved(mem, c, k, size), CarvedCuts(c, k, size), i)
  {
    hide Tiled, CutsOk, At;
    var d := CarvedCuts(c, k, size);
    BlockFacts(mem, s, c, i);
    if i > 0 {
      CarvedElsewhere(mem, s, c, k, size, i - 1);
      assert d[i - 1] == c[i - 1];
    }
    if i < k {
      hide Carved;
      CarvedElsewhere(mem, s, c, k, size, i);
      assert d[i] == c[i] && d[i + 1] == c[i + 1];
    } else {
      assert d[i] == c[i] && d[i + 1] == c[i] + size;
      CarvedFirst(mem, s, c, k, size);
    }
  }

  /** The remainder. */
  lemma CarvedRest(mem: Memory, s: Addr, c: seq<Addr>, k: nat, size: nat)
    requires Tiled(mem, s, c) && k < Count(c) && !InUse(mem, c[k])
    requires MINIMUM_WORDS <= size && c[k] + size + MINIMUM_WORDS <= c[k + 1]
    ensures BlockOk(Carved(mem, c, k, size), CarvedCuts(c, k, size), k + 1)
  {
    hide Tiled, CutsOk;
    BlockFacts(mem, s, c, k);
    var d := CarvedCuts(c, k, size);
    assert d[k] == c[k] && d[k + 1] == c[k] + size && d[k + 2] == c[k + 1];
  }

  /** The blocks after the remainder: block j of the old segment is block j + 1 of the new one. */
  lemma CarvedBack(mem: Memory, s: Addr, c: seq<Addr>, k: nat, size: nat, j: nat)
    requires Tiled(mem, s, c) && k < j < Count(c) && !InUse(mem, c[k])
    requires MINIMUM_WORDS <= size && c[k] + size + MINIMUM_WORDS <= c[k + 1]
    ensures BlockOk(Carved(mem, c, k, size), CarvedCuts(c, k, size), j + 1)
  {
    hide Tiled, CutsOk, At, Carved;
    var d := CarvedCuts(c, k, size);
    BlockFacts(mem, s, c, j);
    CarvedElsewhere(mem, s, c, k, size, j);
    assert d[j + 1] == c[j] && d[j + 2] == c[j + 1];
    if j > k + 1 {
      CarvedElsewhere(mem, s, c, k, size, j - 1);
      assert d[j] == c[j - 1];
    } else {
      CarvedHeaders(mem, s, c, k, size);
      assert d[j] == c[k] + size;
    }
  }

  /** The memory after blocks lo..hi of a segment become one free block. */
  ghost function Coalesced(mem: Memory, c: seq<Addr>, lo: nat, hi: nat): Memory
    requires lo < hi <= Count(c) && c[lo] < c[hi]
  {
    var len := c[hi] - c[lo];
    var m := mem[c[lo] := Header(false, true, false, len)][c[hi] - 1 := Raw(len)];
    if hi < Count(c) && At(mem, c[hi]).Header? then m[c[hi] := At(mem, c[hi]).(prevInUse := false)] else m
  }

  ghost function CoalescedCuts(c: seq<Addr>, lo: nat, hi: nat): seq<Addr>
    requires lo < hi <= Count(c)
  {
    c[..lo + 1] + c[hi..]
  }

  lemma CutsAround(mem: Memory, s: Addr, c: seq<Addr>, lo: nat, hi: nat, i: nat)
    requires Tiled(mem, s, c) && lo < hi <= Count(c) && (i < lo || hi <= i < Count(c))
    ensures c[lo] + MINIMUM_WORDS <= c[hi]
    ensures i < lo ==> c[i + 1] <= c[lo]
    ensures hi < i ==> c[hi] + MINIMUM_WORDS <= c[i]
  {
    hide BlockOk;
  }

  lemma CoalescedElsewhere(mem: Memory, s: Addr, c: seq<Addr>, lo: nat, hi: nat, i: nat)
    requires Tiled(mem, s, c) && lo < hi <= Count(c) && c[lo] < c[hi]
    requires i < lo || hi <= i < Count(c)
    ensures var m := Coalesced(mem, c, lo, hi);
            && InUse(m, c[i]) == InUse(mem, c[i]) && Size(m, c[i]) == Size(mem, c[i])
            && (i != hi ==> At(m, c[i]) == At(mem, c[i]))
            && At(m, c[i + 1] - 1) == At(mem, c[i + 1] - 1)
  {
    hide Tiled, CutsOk;
    BlockFacts(mem, s, c, i);
    CutsAround(mem, s, c, lo, hi, i);
  }

  lemma CoalescedCutsOk(s: Addr, c: seq<Addr>, lo: nat, hi: nat)
    requires CutsOk(s, c) && lo < hi <= Count(c)
    ensures CutsOk(s, CoalescedCuts(c, lo, hi))
  {
    var d := CoalescedCuts(c, lo, hi);
    forall i, j | 0 <= i < j < |d|
      ensures d[i] + MINIMUM_WORDS <= d[j]
    {
      var i', j' := if i <= lo then i else i - lo - 1 + hi, if j <= lo then j else j - lo - 1 + hi;
      assert d[i] == c[i'] && d[j] == c[j'];
    }
  }

  lemma CoalescedRun(mem: Memory, s: Addr, c: seq<Addr>, lo: nat, hi: nat)
    requires Tiled(mem, s, c) && lo < hi <= Count(c) && c[lo] < c[hi]
    ensures At(Coalesced(mem, c, lo, hi), c[lo]) == Header(false, true, false, c[hi] - c[lo])
    ensures At(Coalesced(mem, c, lo, hi), c[hi] - 1) == Raw(c[hi] - c[lo])
    ensures hi < Count(c) ==>
              At(mem, c[hi]).Header? && At(Coalesced(mem, c, lo, hi), c[hi]) == At(mem, c[hi]).(prevInUse := false)
  {
    hide CutsOk;
    CutOrder(s, c, lo, hi);
    if hi < Count(c) { BlockFacts(mem, s, c, hi); }
  }

  /** The merged block itself, and the blocks before it. */
  lemma CoalescedFront(mem: Memory, s: Addr, c: seq<Addr>, lo: nat, hi: nat, i: nat)
    requires Tiled(mem, s, c) && lo < hi <= Count(c) && c[lo] < c[hi]
    requires lo > 0 ==> InUse(mem, c[lo - 1])
    requires i <= lo
    ensures BlockOk(Coalesced(mem, c, lo, hi), CoalescedCuts(c, lo, hi), i)
  {
    hide Tiled, CutsOk, At, Coalesced;
    var d := CoalescedCuts(c, lo, hi);
    BlockFacts(mem, s, c, i);
    if i > 0 {
      CoalescedElsewhere(mem, s, c, lo, hi, i - 1);
      assert d[i - 1] == c[i - 1];
    }
    if i < lo {
      CoalescedElsewhere(mem, s, c, lo, hi, i);
      assert d[i] == c[i] && d[i + 1] == c[i + 1];
    } else {
      CoalescedRun(mem, s, c, lo, hi);
      assert d[i] == c[lo] && d[i + 1] == c[hi];
    }
  }

  /** The blocks after the merged one: block j of the old segment is block i of the new one. */
  lemma CoalescedBack(mem: Memory, s: Addr, c: seq<Addr>, lo: nat, hi: nat, i: nat, j: nat)
    requires Tiled(mem, s, c) && lo < hi <= Count(c) && c[lo] < c[hi]
    requires hi <= j < Count(c) && InUse(mem, c[hi]) && i == j - hi + lo + 1
    ensures BlockOk(Coalesced(mem, c, lo, hi), CoalescedCuts(c, lo, hi), i)
  {
    hide Tiled, CutsOk, At, Coalesced;
    var d := CoalescedCuts(c, lo, hi);
    assert d[i] == c[j] && d[i + 1] == c[j + 1];
    BlockFacts(mem, s, c, j);
    CoalescedElsewhere(mem, s, c, lo, hi, j);
    if j > hi {
      CoalescedElsewhere(mem, s, c, lo, hi, j - 1);
      assert d[i - 1] == c[j - 1];
    } else {
      CoalescedRun(mem, s, c, lo, hi);
      assert d[i - 1] == c[lo];
    }
  }

  lemma CoalescedLength(c: seq<Addr>, lo: nat, hi: nat)
    requires lo < hi <= Count(c)
    ensures |CoalescedCuts(c, lo, hi)| == lo + 1 + |c| - hi
  {
  }

  lemma CoalesceKeepsTiling(mem: Memory, s: Addr, c: seq<Addr>, lo: nat, hi: nat)
    requires Tiled(mem, s, c) && lo < hi <= Count(c) && c[lo] < c[hi]
    requires lo > 0 ==> InUse(mem, c[lo - 1])
    requires hi < Count(c) ==> InUse(mem, c[hi])
    ensures Tiled(Coalesced(mem, c, lo, hi), s, CoalescedCuts(c, lo, hi))
    ensures !InUse(Coalesced(mem, c, lo, hi), c[lo])
    ensures forall i :: (0 <= i < lo || hi <= i < Count(c)) ==>
                          InUse(Coalesced(mem, c, lo, hi), c[i]) == InUse(mem, c[i])
    ensures forall i :: (0 <= i < lo || hi <= i < Count(c)) ==>
                          Size(Coalesced(mem, c, lo, hi), c[i]) == Size(mem, c[i])
  {
    hide BlockOk, CutsOk, Coalesced, CoalescedCuts, At;
    CoalescedCutsOk(s, c, lo, hi);
    CoalescedRun(mem, s, c, lo, hi);
    assert |CoalescedCuts(c, lo, hi)| == lo + 1 + |c| - hi by { CoalescedLength(c, lo, hi); }
    forall i | 0 <= i < lo || hi <= i < Count(c)
      ensures InUse(Coalesced(mem, c, lo, hi), c[i]) == InUse(mem, c[i])
      ensures Size(Coalesced(mem, c, lo, hi), c[i]) == Size(mem, c[i])
    {
      CoalescedElsewhere(mem, s, c, lo, hi, i);
    }
    forall i | 0 <= i < Count(CoalescedCuts(c, lo, hi))
      ensures BlockOk(Coalesced(mem, c, lo, hi), CoalescedCuts(c, lo, hi), i)
    {
      if i <= lo {
        CoalescedFront(mem, s, c, lo, hi, i);
      } else {
        CoalescedBack(mem, s, c, lo, hi, i, i - lo - 1 + hi);
      }
    }
  }

  // ---------------------------------------------------------------- handing out and taking back, in one segment

  /** Block k is the first free block of the segment with at least `size` words. */
  ghost predicate FirstFit(mem: Memory, c: seq<Addr>, k: nat, size: nat) {
    && k < Count(c)
    && !InUse(mem, c[k])
    && size <= c[k + 1] - c[k]
    && NoFreeBlock(mem, c, k, size)
  }

  ghost function AllocatedMemory(mem: Memory, c: seq<Addr>, k: nat, size: nat): Memory
    requires k < Count(c) && size <= c[k + 1] - c[k]
  {
    if c[k + 1] - c[k] - size < MINIMUM_WORDS then TakenWhole(mem, c, k) else Carved(mem, c, k, size)
  }

  ghost function AllocatedCuts(c: seq<Addr>, k: nat, size: nat): seq<Addr>
    requires k < Count(c)
  {
    if c[k + 1] - c[k] - size < MINIMUM_WORDS then c else CarvedCuts(c, k, size)
  }

  ghost function IndexOf(c: seq<Addr>, b: Addr): (i: nat)
    requires IsBlock(c, b)
    ensures i < Count(c) && c[i] == b
  {
    var i :| 0 <= i < Count(c) && c[i] == b;
    i
  }

  /** The first block that is merged when block i is freed. */
  ghost function MergeFrom(mem: Memory, c: seq<Addr>, i: nat): nat
    requires i < Count(c)
  {
    if i > 0 && !InUse(mem, c[i - 1]) then i - 1 else i
  }

  /** The first block after it that is not merged. */
  ghost function MergeTo(mem: Memory, c: seq<Addr>, i: nat): nat
    requires i < Count(c)
  {
    if i + 1 < Count(c) && !InUse(mem, c[i + 1]) then i + 2 else i + 1
  }

  /** A change between cut points lo and hi leaves the other blocks of the segment as they were. */
  lemma KeptInSegment(mem: Memory, mem': Memory, s: Addr, c: seq<Addr>, lo: nat, hi: nat, i: nat)
    requires Tiled(mem, s, c) && lo < hi <= Count(c) && i < Count(c) && (i < lo || hi <= i)
    requires forall a :: a < c[lo] || c[hi] < a ==> At(mem', a) == At(mem, a)
    requires hi < Count(c) ==> Size(mem', c[hi]) == Size(mem, c[hi])
    ensures KeptBlock(mem, mem', c[i])
  {
    hide Tiled, CutsOk, At;
    BlockFacts(mem, s, c, i);
    CutsAround(mem, s, c, lo, hi, i);
  }

  /** The block of `owner` at b lies in its range of memory. */
  lemma BlockInRegion(mem: Memory, regions: map<Addr, nat>, segs: seq<Addr>, cuts: map<Addr, seq<Addr>>,
                      owner: map<Addr, Addr>, b: Addr)
    requires RegionsOk(mem, regions) && SegmentsOk(regions, segs)
    requires OwnerOk(mem, regions, segs, cuts, owner) && b in owner
    requires AllTiled(mem, segs, cuts)
    ensures owner[b] in regions && owner[b] <= b < b + Size(mem, b) <= owner[b] + regions[owner[b]]
    ensures owner[b] == b ==> b in regions && b !in segs && Size(mem, b) == regions[b]
    ensures owner[b] != b ==> owner[b] in segs && owner[b] + SEGMENT_HEADER_WORDS <= b && InUse(mem, b)
  {
    hide RegionsOk, SegmentsOk, Tiled, IsBlock, BlockOk;
    assert OwnedBlock(mem, regions, segs, cuts, b, owner[b]);
    if owner[b] != b {
      hide OwnerOk;
      SegmentFacts(mem, regions, segs, owner[b]);
      var i := OwnedIndex(mem, regions, segs, cuts, owner, owner[b], b);
      BlockFacts(mem, owner[b], cuts[owner[b]], i);
    } else {
      RegionFacts(mem, regions, b);
    }
  }

  lemma CutsWithin(mem: Memory, s: Addr, c: seq<Addr>, lo: nat, hi: nat, i: nat)
    requires Tiled(mem, s, c) && lo <= i < hi <= Count(c)
    ensures c[lo] <= c[i] < c[hi]
  {
    hide BlockOk;
  }

  /** ... and leaves every block elsewhere as it was. */
  lemma KeptOutside(mem: Memory, mem': Memory, regions: map<Addr, nat>, segs: seq<Addr>, cuts: map<Addr, seq<Addr>>,
                    owner: map<Addr, Addr>, s: Addr, b: Addr)
    requires RegionsOk(mem, regions) && SegmentsOk(regions, segs) && OwnerOk(mem, regions, segs, cuts, owner)
    requires AllTiled(mem, segs, cuts)
    requires s in segs && SameOutside(mem, mem', s) && b in owner && owner[b] != s
    ensures KeptBlock(mem, mem', b)
  {
    hide RegionsOk, SegmentsOk, OwnerOk, AllTiled, InUse, At;
    BlockInRegion(mem, regions, segs, cuts, owner, b);
    SegmentFacts(mem, regions, segs, s);
    RegionsApart(mem, regions, s, owner[b]);
  }

  lemma KeptElsewhere(mem: Memory, mem': Memory, regions: map<Addr, nat>, segs: seq<Addr>, cuts: map<Addr, seq<Addr>>,
                      owner: map<Addr, Addr>, s: Addr, lo: nat, hi: nat, others: map<Addr, Addr>)
    requires RegionsOk(mem, regions) && SegmentsOk(regions, segs) && OwnerOk(mem, regions, segs, cuts, owner)
    requires AllTiled(mem, segs, cuts)
    requires s in segs && lo < hi <= Count(cuts[s]) && SameOutside(mem, mem', s)
    requires forall a :: a < cuts[s][lo] || cuts[s][hi] < a ==> At(mem', a) == At(mem, a)
    requires hi < Count(cuts[s]) ==> Size(mem', cuts[s][hi]) == Size(mem, cuts[s][hi])
    requires forall b :: b in others ==> b in owner && !(cuts[s][lo] <= b < cuts[s][hi])
    ensures Kept(mem, mem', others)
  {
    hide RegionsOk, SegmentsOk, OwnerOk, Tiled, SameOutside, KeptBlock, At, Size;
    forall b | b in others
      ensures KeptBlock(mem, mem', b)
    {
      if owner[b] == s {
        var i := OwnedIndex(mem, regions, segs, cuts, owner, s, b);
        assert i < lo || hi <= i by { if lo <= i < hi { CutsWithin(mem, s, cuts[s], lo, hi, i); } }
        KeptInSegment(mem, mem', s, cuts[s], lo, hi, i);
      } else {
        KeptOutside(mem, mem', regions, segs, cuts, owner, s, b);
      }
    }
  }

  /** A block of another mapping is not affected by a change inside segment `s`. */
  lemma OwnedElsewhere(mem: Memory, mem': Memory, regions: map<Addr, nat>, segs: seq<Addr>, cuts: map<Addr, seq<Addr>>,
                       owner: map<Addr, Addr>, s: Addr, c': seq<Addr>, b: Addr)
    requires RegionsOk(mem, regions) && SegmentsOk(regions, segs) && OwnerOk(mem, regions, segs, cuts, owner)
    requires AllTiled(mem, segs, cuts)
    requires s in segs && SameOutside(mem, mem', s) && b in owner && owner[b] != s
    ensures OwnedBlock(mem', regions, segs, cuts[s := c'], b, owner[b])
  {
    hide RegionsOk, SegmentsOk, AllTiled, At, IsBlock;
    assert OwnedBlock(mem, regions, segs, cuts, b, owner[b]);
    BlockInRegion(mem, regions, segs, cuts, owner, b);
    SegmentFacts(mem, regions, segs, s);
    RegionsApart(mem, regions, s, owner[b]);
  }

  /** A change inside segment `s` that keeps its own blocks accounted for keeps `owner` right everywhere. */
  lemma OwnerStep(mem: Memory, mem': Memory, regions: map<Addr, nat>, segs: seq<Addr>, cuts: map<Addr, seq<Addr>>,
                  owner: map<Addr, Addr>, s: Addr, c': seq<Addr>, owner': map<Addr, Addr>)
    requires RegionsOk(mem, regions) && SegmentsOk(regions, segs) && OwnerOk(mem, regions, segs, cuts, owner)
    requires AllTiled(mem, segs, cuts)
    requires s in segs && SameOutside(mem, mem', s)
    requires forall b :: b in owner' && owner'[b] == s ==> b != s && IsBlock(c', b) && InUse(mem', b)
    requires forall i :: 0 <= i < Count(c') && InUse(mem', c'[i]) ==> c'[i] in owner' && owner'[c'[i]] == s
    requires forall b :: b in owner' && owner'[b] != s ==> b in owner && owner[b] == owner'[b]
    requires forall b :: b in owner && owner[b] != s ==> b in owner' && owner'[b] == owner[b]
    ensures OwnerOk(mem', regions, segs, cuts[s := c'], owner')
  {
    hide RegionsOk, SegmentsOk, Tiled, SameOutside, At;
    var cuts' := cuts[s := c'];
    forall b | b in owner'
      ensures OwnedBlock(mem', regions, segs, cuts', b, owner'[b])
    {
      if owner'[b] != s {
        OwnedElsewhere(mem, mem', regions, segs, cuts, owner, s, c', b);
      }
    }
    forall t, i | t in segs && 0 <= i < Count(cuts'[t]) && InUse(mem', cuts'[t][i])
      ensures cuts'[t][i] in owner' && owner'[cuts'[t][i]] == t
    {
      if t != s {
        OtherBlockUnchanged(mem, mem', regions, segs, cuts, s, t, i);
        assert cuts[t][i] in owner && owner[cuts[t][i]] == t;
      }
    }
    forall r | r in regions && r !in segs
      ensures r in owner' && owner'[r] == r
    {
      assert owner[r] == r;
    }
  }

  lemma OtherBlockUnchanged(mem: Memory, mem': Memory, regions: map<Addr, nat>, segs: seq<Addr>,
                            cuts: map<Addr, seq<Addr>>, s: Addr, t: Addr, i: nat)
    requires RegionsOk(mem, regions) && SegmentsOk(regions, segs)
    requires s in segs && t in segs && s != t && t in cuts && Tiled(mem, t, cuts[t]) && SameOutside(mem, mem', s)
    requires i < Count(cuts[t])
    ensures At(mem', cuts[t][i]) == At(mem, cuts[t][i])
  {
    hide RegionsOk, SegmentsOk, Tiled, SameOutside, At;
    BlockFacts(mem, t, cuts[t], i);
    OtherSegmentUnchanged(mem, mem', regions, segs, s, t, cuts[t][i]);
  }
}
