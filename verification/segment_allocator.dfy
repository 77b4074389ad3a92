/**
 The state and the operations of the boundary-tag allocator of heap-allocator/README.md:
 malloc and free over a list of 2 MiB segments, changing headers, footers and links in place.
 */
module SegmentAllocator {
  import opened Wrappers
  import opened BoundaryTag

  ghost function RemoveAt(segs: seq<Addr>, j: nat): seq<Addr>
    requires j < |segs|
  {
    segs[..j] + segs[j + 1..]
  }

  ghost function HeadWithout(head: Addr, segs: seq<Addr>, j: nat): Addr
    requires j < |segs|
  {
    if j > 0 then head else if |segs| > 1 then segs[1] else 0
  }

  /** The memory after a fresh segment is put in front of the list. */
  ghost function Pushed(mem: Memory, head: Addr, addr: Addr): Memory {
    var m := mem[addr + 1 := Raw(head)][addr := Raw(0)];
    if head != 0 then m[head := Raw(addr)] else m
  }

  lemma PushKeepsList(mem: Memory, regions: map<Addr, nat>, head: Addr, segs: seq<Addr>, addr: Addr)
    requires RegionsOk(mem, regions) && SegmentsOk(regions, segs) && SegmentsLinked(mem, head, segs)
    requires addr in regions && regions[addr] == SEGMENT_WORDS && addr !in segs
    ensures SegmentsLinked(Pushed(mem, head, addr), addr, [addr] + segs)
    ensures SegmentsOk(regions, [addr] + segs)
  {
    hide RegionsOk;
    var mem', l := Pushed(mem, head, addr), [addr] + segs;
    forall i | 0 <= i < |l|
      ensures LinksOk(mem', l, i)
    {
      if i > 0 {
        assert LinksOk(mem, segs, i - 1);
        PushedElsewhere(mem, regions, head, segs, addr, i - 1);
      } else if segs != [] {
        PushedElsewhere(mem, regions, head, segs, addr, 0);
      }
    }
  }

  /** The link words of the segment at place i after the push. */
  lemma PushedElsewhere(mem: Memory, regions: map<Addr, nat>, head: Addr, segs: seq<Addr>, addr: Addr, i: nat)
    requires RegionsOk(mem, regions) && SegmentsOk(regions, segs) && SegmentsLinked(mem, head, segs)
    requires addr in regions && regions[addr] == SEGMENT_WORDS && addr !in segs && i < |segs|
    ensures head == segs[0] && head != 0 && head != addr && head != addr + 1
    ensures At(Pushed(mem, head, addr), segs[i]) == if i == 0 then Raw(addr) else At(mem, segs[i])
    ensures At(Pushed(mem, head, addr), segs[i] + 1) == At(mem, segs[i] + 1)
  {
    hide RegionsOk, SegmentsOk;
    assert segs[i] in segs && segs[0] in segs;
    SegmentFacts(mem, regions, segs, segs[i]);
    SegmentFacts(mem, regions, segs, segs[0]);
    RegionsApart(mem, regions, addr, segs[i]);
    RegionsApart(mem, regions, addr, segs[0]);
    if i > 0 { LinkWordsDiffer(mem, regions, segs, i, 0); }
  }

  /** The memory after segment j is unlinked. */
  ghost function Unlinked(mem: Memory, segs: seq<Addr>, j: nat): Memory
    requires j < |segs|
  {
    var m := if j == 0 then mem else mem[segs[j - 1] + 1 := Raw(if j + 1 < |segs| then segs[j + 1] else 0)];
    if j + 1 < |segs| then m[segs[j + 1] := Raw(if j == 0 then 0 else segs[j - 1])] else m
  }

  lemma WithoutMembers(segs: seq<Addr>, j: nat)
    requires j < |segs| && forall i, k :: 0 <= i < k < |segs| ==> segs[i] != segs[k]
    ensures segs[j] !in RemoveAt(segs, j)
    ensures forall s :: s in RemoveAt(segs, j) <==> s in segs && s != segs[j]
    ensures forall i, k :: 0 <= i < k < |segs| - 1 ==> RemoveAt(segs, j)[i] != RemoveAt(segs, j)[k]
  {
    var l := RemoveAt(segs, j);
    forall s | s in segs && s != segs[j]
      ensures s in l
    {
      var i :| 0 <= i < |segs| && segs[i] == s;
      assert l[if i < j then i else i - 1] == s;
    }
  }

  /** Distinct segments have distinct link words. */
  lemma LinkWordsDiffer(mem: Memory, regions: map<Addr, nat>, segs: seq<Addr>, i: nat, k: nat)
    requires RegionsOk(mem, regions) && SegmentsOk(regions, segs)
    requires i < |segs| && k < |segs| && i != k
    ensures segs[i] != segs[k] && segs[i] + 1 != segs[k] && segs[i] != segs[k] + 1
  {
    assert segs[i] in segs && segs[k] in segs && segs[i] != segs[k];
    hide RegionsOk, SegmentsOk;
    SegmentFacts(mem, regions, segs, segs[i]);
    SegmentFacts(mem, regions, segs, segs[k]);
    RegionsApart(mem, regions, segs[i], segs[k]);
  }

  /** The words of segment i after segment j is unlinked. */
  lemma UnlinkedWords(mem: Memory, regions: map<Addr, nat>, segs: seq<Addr>, j: nat, i: nat)
    requires RegionsOk(mem, regions) && SegmentsOk(regions, segs)
    requires j < |segs| && i < |segs| && i != j
    ensures At(Unlinked(mem, segs, j), segs[i]) ==
            if i == j + 1 then Raw(if j == 0 then 0 else segs[j - 1]) else At(mem, segs[i])
    ensures At(Unlinked(mem, segs, j), segs[i] + 1) ==
            if i + 1 == j then Raw(if j + 1 < |segs| then segs[j + 1] else 0) else At(mem, segs[i] + 1)
  {
    hide RegionsOk, SegmentsOk;
    if j > 0 && i != j - 1 { LinkWordsDiffer(mem, regions, segs, i, j - 1); }
    if j + 1 < |segs| && i != j + 1 { LinkWordsDiffer(mem, regions, segs, i, j + 1); }
  }

  lemma UnlinkKeepsList(mem: Memory, regions: map<Addr, nat>, head: Addr, segs: seq<Addr>, j: nat)
    requires RegionsOk(mem, regions) && SegmentsOk(regions, segs) && SegmentsLinked(mem, head, segs)
    requires j < |segs|
    ensures SegmentsLinked(Unlinked(mem, segs, j), HeadWithout(head, segs, j), RemoveAt(segs, j))
    ensures SegmentsOk(regions, RemoveAt(segs, j)) && segs[j] !in RemoveAt(segs, j)
    ensures forall s :: s in RemoveAt(segs, j) <==> s in segs && s != segs[j]
  {
    hide RegionsOk, Unlinked, At;
    var mem', l := Unlinked(mem, segs, j), RemoveAt(segs, j);
    WithoutMembers(segs, j);
    forall i | 0 <= i < |l|
      ensures LinksOk(mem', l, i)
    {
      var i' := if i < j then i else i + 1;
      assert LinksOk(mem, segs, i');
      UnlinkedWords(mem, regions, segs, j, i');
    }
  }

  /** Everything the allocator keeps true, except that a segment may have no block in use. */
  ghost predicate CoreOk(mem: Memory, regions: map<Addr, nat>, head: Addr, segs: seq<Addr>,
                         cuts: map<Addr, seq<Addr>>, owner: map<Addr, Addr>)
  {
    && RegionsOk(mem, regions)
    && SegmentsOk(regions, segs)
    && SegmentsLinked(mem, head, segs)
    && AllTiled(mem, segs, cuts)
    && OwnerOk(mem, regions, segs, cuts, owner)
  }

  lemma AllocatedOutside(mem: Memory, regions: map<Addr, nat>, s: Addr, c: seq<Addr>, k: nat, size: nat)
    requires RegionsOk(mem, regions) && s in regions && regions[s] == SEGMENT_WORDS && Tiled(mem, s, c)
    requires k < Count(c) && !InUse(mem, c[k]) && MINIMUM_WORDS <= size <= c[k + 1] - c[k]
    ensures var m := AllocatedMemory(mem, c, k, size);
            && SameOutside(mem, m, s)
            && (forall a :: a < c[k] || c[k + 1] < a ==> At(m, a) == At(mem, a))
            && (k + 1 < Count(c) ==> Size(m, c[k + 1]) == Size(mem, c[k + 1]))
  {
    hide RegionsOk, Tiled, CutsOk, BlockOk, TakenWhole, Carved;
    if c[k + 1] - c[k] - size < MINIMUM_WORDS {
      TakenWholeOutside(mem, regions, s, c, k);
    } else {
      CarvedOutside(mem, regions, s, c, k, size);
    }
  }

  lemma TakenWholeOutside(mem: Memory, regions: map<Addr, nat>, s: Addr, c: seq<Addr>, k: nat)
    requires RegionsOk(mem, regions) && s in regions && regions[s] == SEGMENT_WORDS && Tiled(mem, s, c)
    requires k < Count(c)
    ensures var m := TakenWhole(mem, c, k);
            && SameOutside(mem, m, s)
            && (forall a :: a < c[k] || c[k + 1] < a ==> At(m, a) == At(mem, a))
            && (k + 1 < Count(c) ==> Size(m, c[k + 1]) == Size(mem, c[k + 1]))
  {
    hide RegionsOk, Tiled, CutsOk;
    RegionFacts(mem, regions, s);
    BlockFacts(mem, s, c, k);
    if k + 1 < Count(c) { BlockFacts(mem, s, c, k + 1); }
  }

  lemma CarvedOutside(mem: Memory, regions: map<Addr, nat>, s: Addr, c: seq<Addr>, k: nat, size: nat)
    requires RegionsOk(mem, regions) && s in regions && regions[s] == SEGMENT_WORDS && Tiled(mem, s, c)
    requires k < Count(c) && MINIMUM_WORDS <= size && c[k] + size + MINIMUM_WORDS <= c[k + 1]
    ensures var m := Carved(mem, c, k, size);
            && SameOutside(mem, m, s)
            && (forall a :: a < c[k] || c[k + 1] <= a ==> At(m, a) == At(mem, a))
  {
    hide RegionsOk, Tiled, CutsOk;
    RegionFacts(mem, regions, s);
    BlockFacts(mem, s, c, k);
  }

  lemma AllocateKeepsBlocks(mem: Memory, regions: map<Addr, nat>, head: Addr, segs: seq<Addr>,
                            cuts: map<Addr, seq<Addr>>, owner: map<Addr, Addr>, s: Addr, k: nat, size: nat)
    requires CoreOk(mem, regions, head, segs, cuts, owner) && s in segs
    requires k < Count(cuts[s]) && !InUse(mem, cuts[s][k]) && MINIMUM_WORDS <= size <= cuts[s][k + 1] - cuts[s][k]
    ensures cuts[s][k] !in owner && Kept(mem, AllocatedMemory(mem, cuts[s], k, size), owner)
  {
    hide RegionsOk, SegmentsOk, SegmentsLinked, OwnerOk, Tiled, Kept, SameOutside, At, Size, AllocatedMemory;
    var c := cuts[s];
    SegmentFacts(mem, regions, segs, s);
    assert c[k] < c[k + 1] by { BlockFacts(mem, s, c, k); }
    AllocatedOutside(mem, regions, s, c, k, size);
    forall b | b in owner
      ensures !(c[k] <= b < c[k + 1])
    {
      NotInFreeBlock(mem, regions, segs, cuts, owner, s, k, b);
    }
    KeptElsewhere(mem, AllocatedMemory(mem, c, k, size), regions, segs, cuts, owner, s, k, k + 1, owner);
  }

  lemma InUseIsOwned(mem: Memory, regions: map<Addr, nat>, segs: seq<Addr>, cuts: map<Addr, seq<Addr>>,
                     owner: map<Addr, Addr>, s: Addr, i: nat)
    requires OwnerOk(mem, regions, segs, cuts, owner) && s in segs && i < Count(cuts[s]) && InUse(mem, cuts[s][i])
    ensures cuts[s][i] in owner && owner[cuts[s][i]] == s
  {
  }

  lemma AllocateOwners(mem: Memory, regions: map<Addr, nat>, head: Addr, segs: seq<Addr>, cuts: map<Addr, seq<Addr>>,
                       owner: map<Addr, Addr>, s: Addr, k: nat, size: nat)
    requires CoreOk(mem, regions, head, segs, cuts, owner) && s in segs
    requires k < Count(cuts[s]) && !InUse(mem, cuts[s][k]) && MINIMUM_WORDS <= size <= cuts[s][k + 1] - cuts[s][k]
    ensures OwnerOk(AllocatedMemory(mem, cuts[s], k, size), regions, segs,
                    cuts[s := AllocatedCuts(cuts[s], k, size)], owner[cuts[s][k] := s])
  {
    hide RegionsOk, SegmentsOk, SegmentsLinked, OwnerOk, Tiled, Kept, SameOutside, At, Size, AllocatedMemory,
      AllocatedCuts;
    var c, b := cuts[s], cuts[s][k];
    var mem', c' := AllocatedMemory(mem, c, k, size), AllocatedCuts(c, k, size);
    SegmentFacts(mem, regions, segs, s);
    assert s < b by { BlockFacts(mem, s, c, k); }
    AllocateKeepsBlocks(mem, regions, head, segs, cuts, owner, s, k, size);
    AllocatedOutside(mem, regions, s, c, k, size);
    AllocatedBlocks(mem, s, c, k, size);
    var owner' := owner[b := s];
    forall b' | b' in owner' && owner'[b'] == s
      ensures b' != s && IsBlock(c', b') && InUse(mem', b')
    {
      if b' != b {
        var j := OwnedIndex(mem, regions, segs, cuts, owner, s, b');
        assert s < b' by { BlockFacts(mem, s, c, j); }
        assert IsBlock(c, b');
      }
    }
    forall i | 0 <= i < Count(c') && InUse(mem', c'[i])
      ensures c'[i] in owner' && owner'[c'[i]] == s
    {
      assert IsBlock(c', c'[i]);
      if c'[i] != b {
        InUseIsOwned(mem, regions, segs, cuts, owner, s, IndexOf(c, c'[i]));
      }
    }
    OwnerStep(mem, mem', regions, segs, cuts, owner, s, c', owner');
  }

  /** Handing out the front of free block k keeps the heap well formed and leaves every other block alone. */
  lemma AllocateStep(mem: Memory, regions: map<Addr, nat>, head: Addr, segs: seq<Addr>, cuts: map<Addr, seq<Addr>>,
                     owner: map<Addr, Addr>, s: Addr, k: nat, size: nat)
    requires CoreOk(mem, regions, head, segs, cuts, owner) && s in segs
    requires k < Count(cuts[s]) && !InUse(mem, cuts[s][k]) && MINIMUM_WORDS <= size <= cuts[s][k + 1] - cuts[s][k]
    ensures var b, mem', c' := cuts[s][k], AllocatedMemory(mem, cuts[s], k, size), AllocatedCuts(cuts[s], k, size);
            && CoreOk(mem', regions, head, segs, cuts[s := c'], owner[b := s])
            && InUse(mem', b) && size <= Size(mem', b)
            && b !in owner && Kept(mem, mem', owner)
            && SomeInUse(mem', c')
            && (forall t, a :: t in segs && t != s && t <= a < t + SEGMENT_WORDS ==> At(mem', a) == At(mem, a))
  {
    hide RegionsOk, SegmentsOk, SegmentsLinked, OwnerOk, Tiled, Kept, SameOutside, At, Size, SomeInUse, TakenWhole,
      Carved, CarvedCuts;
    var c := cuts[s];
    SegmentFacts(mem, regions, segs, s);
    AllocateKeepsBlocks(mem, regions, head, segs, cuts, owner, s, k, size);
    AllocateOwners(mem, regions, head, segs, cuts, owner, s, k, size);
    AllocatedOutside(mem, regions, s, c, k, size);
    OtherSegmentsKeepTiling(mem, AllocatedMemory(mem, c, k, size), regions, head, segs, cuts, s);
    AllocatedBlocks(mem, s, c, k, size);
    if c[k + 1] - c[k] - size < MINIMUM_WORDS {
      TakeWholeKeepsTiling(mem, s, c, k);
    } else {
      CarveKeepsTiling(mem, s, c, k, size);
    }
  }

  /** A block that another mapping holds does not start in segment `s`. */
  lemma OwnedElsewhereApart(mem: Memory, regions: map<Addr, nat>, segs: seq<Addr>, cuts: map<Addr, seq<Addr>>,
                            owner: map<Addr, Addr>, s: Addr, b: Addr)
    requires RegionsOk(mem, regions) && SegmentsOk(regions, segs) && OwnerOk(mem, regions, segs, cuts, owner)
    requires AllTiled(mem, segs, cuts) && s in segs && b in owner && owner[b] != s
    ensures !(s <= b < s + SEGMENT_WORDS)
  {
    hide RegionsOk, SegmentsOk, OwnerOk, AllTiled, InUse, Size;
    BlockInRegion(mem, regions, segs, cuts, owner, b);
    SegmentFacts(mem, regions, segs, s);
    RegionsApart(mem, regions, s, owner[b]);
  }

  /** No block in use starts inside a free block. */
  lemma NotInFreeBlock(mem: Memory, regions: map<Addr, nat>, segs: seq<Addr>, cuts: map<Addr, seq<Addr>>,
                       owner: map<Addr, Addr>, s: Addr, k: nat, b: Addr)
    requires RegionsOk(mem, regions) && SegmentsOk(regions, segs) && OwnerOk(mem, regions, segs, cuts, owner)
    requires AllTiled(mem, segs, cuts)
    requires s in segs && k < Count(cuts[s]) && !InUse(mem, cuts[s][k]) && b in owner
    ensures !(cuts[s][k] <= b < cuts[s][k + 1])
  {
    hide RegionsOk, SegmentsOk, OwnerOk, Tiled, InUse, Size;
    BlockFacts(mem, s, cuts[s], k);
    if owner[b] == s {
      var i := OwnedIndex(mem, regions, segs, cuts, owner, s, b);
      BlocksApart(mem, s, cuts[s], i, k);
    } else {
      OwnedElsewhereApart(mem, regions, segs, cuts, owner, s, b);
    }
  }

  /** The blocks in use after an allocation are the old ones and block k. */
  lemma AllocatedBlocks(mem: Memory, s: Addr, c: seq<Addr>, k: nat, size: nat)
    requires Tiled(mem, s, c) && k < Count(c) && !InUse(mem, c[k])
    requires MINIMUM_WORDS <= size <= c[k + 1] - c[k]
    ensures var mem', c' := AllocatedMemory(mem, c, k, size), AllocatedCuts(c, k, size);
            && InUse(mem', c[k]) && size <= Size(mem', c[k]) && IsBlock(c', c[k]) && SomeInUse(mem', c')
            && (forall b :: IsBlock(c', b) && InUse(mem', b) ==> b == c[k] || (IsBlock(c, b) && InUse(mem, b)))
            && (forall b :: IsBlock(c, b) && InUse(mem, b) ==> IsBlock(c', b) && InUse(mem', b))
  {
    hide Tiled, AllocatedMemory, AllocatedCuts, InUse, Size;
    var mem', c' := AllocatedMemory(mem, c, k, size), AllocatedCuts(c, k, size);
    AllocatedBlock(mem, s, c, k, size);
    forall b | IsBlock(c', b) && InUse(mem', b)
      ensures b == c[k] || (IsBlock(c, b) && InUse(mem, b))
    {
      AllocatedOrigin(mem, s, c, k, size, b);
    }
    forall b | IsBlock(c, b) && InUse(mem, b)
      ensures IsBlock(c', b) && InUse(mem', b)
    {
      AllocatedSurvivor(mem, s, c, k, size, b);
    }
  }

  lemma CarvedInUse(mem: Memory, s: Addr, c: seq<Addr>, k: nat, size: nat, i: nat)
    requires Tiled(mem, s, c) && k < Count(c) && !InUse(mem, c[k]) && i < Count(c)
    requires MINIMUM_WORDS <= size && c[k] + size + MINIMUM_WORDS <= c[k + 1]
    ensures InUse(Carved(mem, c, k, size), c[i]) == (i == k || InUse(mem, c[i]))
  {
    hide Tiled, Carved;
    if i == k {
      CarvedHeaders(mem, s, c, k, size);
    } else {
      CarvedElsewhere(mem, s, c, k, size, i);
    }
  }

  /** The block handed out. */
  lemma AllocatedBlock(mem: Memory, s: Addr, c: seq<Addr>, k: nat, size: nat)
    requires Tiled(mem, s, c) && k < Count(c) && !InUse(mem, c[k])
    requires MINIMUM_WORDS <= size <= c[k + 1] - c[k]
    ensures var mem', c' := AllocatedMemory(mem, c, k, size), AllocatedCuts(c, k, size);
            k < Count(c') && c'[k] == c[k] && InUse(mem', c[k]) && size <= Size(mem', c[k])
  {
    hide Tiled, CutsOk;
    BlockFacts(mem, s, c, k);
    if k + 1 < Count(c) { BlockFacts(mem, s, c, k + 1); }
  }

  lemma AllocatedOrigin(mem: Memory, s: Addr, c: seq<Addr>, k: nat, size: nat, b: Addr)
    requires Tiled(mem, s, c) && k < Count(c) && !InUse(mem, c[k])
    requires MINIMUM_WORDS <= size <= c[k + 1] - c[k]
    requires IsBlock(AllocatedCuts(c, k, size), b) && InUse(AllocatedMemory(mem, c, k, size), b)
    ensures b == c[k] || (IsBlock(c, b) && InUse(mem, b))
  {
    hide Tiled, Carved, TakenWhole, InUse;
    var c' := AllocatedCuts(c, k, size);
    var i := IndexOf(c', b);
    if c[k + 1] - c[k] - size < MINIMUM_WORDS {
      TakeWholeKeepsTiling(mem, s, c, k);
    } else {
      CarveKeepsTiling(mem, s, c, k, size);
      if i <= k {
        assert c'[i] == c[i];
      } else {
        assert i != k + 1;
        assert c'[i] == c[i - 1];
        CarvedInUse(mem, s, c, k, size, i - 1);
      }
      CarvedInUse(mem, s, c, k, size, if i <= k then i else i - 1);
    }
  }

  lemma AllocatedSurvivor(mem: Memory, s: Addr, c: seq<Addr>, k: nat, size: nat, b: Addr)
    requires Tiled(mem, s, c) && k < Count(c) && !InUse(mem, c[k])
    requires MINIMUM_WORDS <= size <= c[k + 1] - c[k]
    requires IsBlock(c, b) && InUse(mem, b)
    ensures IsBlock(AllocatedCuts(c, k, size), b) && InUse(AllocatedMemory(mem, c, k, size), b)
  {
    hide Tiled, Carved, TakenWhole, InUse;
    var i := IndexOf(c, b);
    if c[k + 1] - c[k] - size < MINIMUM_WORDS {
      TakeWholeKeepsTiling(mem, s, c, k);
    } else {
      CarvedInUse(mem, s, c, k, size, i);
      assert AllocatedCuts(c, k, size)[if i < k then i else i + 1] == b;
    }
  }

  // ---------------------------------------------------------------- taking back

  /** Free blocks have no free neighbours. */
  lemma FreeIsBounded(mem: Memory, s: Addr, c: seq<Addr>, i: nat)
    requires Tiled(mem, s, c) && i < Count(c)
    ensures i > 1 && !InUse(mem, c[i - 1]) ==> InUse(mem, c[i - 2])
    ensures i + 2 < Count(c) && !InUse(mem, c[i + 1]) ==> InUse(mem, c[i + 2])
  {
    hide Tiled, CutsOk;
    if i > 0 { BlockFacts(mem, s, c, i - 1); }
    if i + 2 < Count(c) { BlockFacts(mem, s, c, i + 2); }
  }

  /** The merged run is bounded by blocks in use, and only block i of it was in use. */
  lemma MergeBounds(mem: Memory, s: Addr, c: seq<Addr>, i: nat)
    requires Tiled(mem, s, c) && i < Count(c) && InUse(mem, c[i])
    ensures var lo, hi := MergeFrom(mem, c, i), MergeTo(mem, c, i);
            && lo <= i < hi <= Count(c) && c[lo] < c[hi]
            && (lo > 0 ==> InUse(mem, c[lo - 1]))
            && (hi < Count(c) ==> InUse(mem, c[hi]))
            && (forall j :: lo <= j < hi && j != i ==> !InUse(mem, c[j]))
  {
    hide Tiled, CutsOk, InUse;
    var lo, hi := MergeFrom(mem, c, i), MergeTo(mem, c, i);
    FreeIsBounded(mem, s, c, i);
    assert c[lo] < c[hi] by { CutsWithin(mem, s, c, lo, hi, lo); }
  }

  ghost function FreedMemory(mem: Memory, s: Addr, c: seq<Addr>, i: nat): Memory
    requires Tiled(mem, s, c) && i < Count(c) && InUse(mem, c[i])
  {
    MergeBounds(mem, s, c, i);
    Coalesced(mem, c, MergeFrom(mem, c, i), MergeTo(mem, c, i))
  }

  ghost function FreedCuts(mem: Memory, s: Addr, c: seq<Addr>, i: nat): seq<Addr>
    requires Tiled(mem, s, c) && i < Count(c) && InUse(mem, c[i])
  {
    MergeBounds(mem, s, c, i);
    CoalescedCuts(c, MergeFrom(mem, c, i), MergeTo(mem, c, i))
  }

  /** Every other block in use survives the merge ... */
  lemma FreedSurvivor(mem: Memory, s: Addr, c: seq<Addr>, i: nat, b: Addr)
    requires Tiled(mem, s, c) && i < Count(c) && InUse(mem, c[i])
    requires IsBlock(c, b) && InUse(mem, b) && b != c[i]
    ensures IsBlock(FreedCuts(mem, s, c, i), b) && InUse(FreedMemory(mem, s, c, i), b)
  {
    hide Tiled, MergeFrom, MergeTo, Coalesced, InUse;
    var c', lo, hi := FreedCuts(mem, s, c, i), MergeFrom(mem, c, i), MergeTo(mem, c, i);
    MergeBounds(mem, s, c, i);
    CoalesceKeepsTiling(mem, s, c, lo, hi);
    var j := IndexOf(c, b);
    assert j < lo || hi <= j;
    assert c'[if j < lo then j else j + lo + 1 - hi] == b;
  }

  /** ... and no block comes into use. */
  lemma FreedOrigin(mem: Memory, s: Addr, c: seq<Addr>, i: nat, b: Addr)
    requires Tiled(mem, s, c) && i < Count(c) && InUse(mem, c[i])
    requires IsBlock(FreedCuts(mem, s, c, i), b) && InUse(FreedMemory(mem, s, c, i), b)
    ensures b != c[i] && IsBlock(c, b) && InUse(mem, b)
  {
    hide Tiled, MergeFrom, MergeTo, Coalesced, InUse;
    var c', lo, hi := FreedCuts(mem, s, c, i), MergeFrom(mem, c, i), MergeTo(mem, c, i);
    MergeBounds(mem, s, c, i);
    CoalesceKeepsTiling(mem, s, c, lo, hi);
    var j := IndexOf(c', b);
    var j' := if j <= lo then j else j - lo - 1 + hi;
    assert c'[j] == c[j'];
    assert j != lo;
    BlocksApart(mem, s, c, j', i);
  }

  lemma FreedTiling(mem: Memory, s: Addr, c: seq<Addr>, i: nat)
    requires Tiled(mem, s, c) && i < Count(c) && InUse(mem, c[i])
    ensures Tiled(FreedMemory(mem, s, c, i), s, FreedCuts(mem, s, c, i))
    ensures SomeInUse(FreedMemory(mem, s, c, i), FreedCuts(mem, s, c, i)) <==> |FreedCuts(mem, s, c, i)| > 2
  {
    hide Tiled, MergeFrom, MergeTo, Coalesced, InUse;
    var mem', c', lo, hi := FreedMemory(mem, s, c, i), FreedCuts(mem, s, c, i), MergeFrom(mem, c, i), MergeTo(mem, c, i);
    MergeBounds(mem, s, c, i);
    CoalesceKeepsTiling(mem, s, c, lo, hi);
    if lo > 0 {
      assert c'[lo - 1] == c[lo - 1] && InUse(mem', c'[lo - 1]);
    } else if hi < Count(c) {
      assert c'[lo + 1] == c[hi] && InUse(mem', c'[lo + 1]);
    }
  }

  /** The blocks in use after block i is freed are the others. */
  lemma FreedBlocks(mem: Memory, s: Addr, c: seq<Addr>, i: nat)
    requires Tiled(mem, s, c) && i < Count(c) && InUse(mem, c[i])
    ensures forall b :: IsBlock(FreedCuts(mem, s, c, i), b) && InUse(FreedMemory(mem, s, c, i), b) <==>
                        b != c[i] && IsBlock(c, b) && InUse(mem, b)
  {
    hide Tiled, FreedMemory, FreedCuts, InUse;
    var mem', c' := FreedMemory(mem, s, c, i), FreedCuts(mem, s, c, i);
    forall b | IsBlock(c', b) && InUse(mem', b)
      ensures b != c[i] && IsBlock(c, b) && InUse(mem, b)
    {
      FreedOrigin(mem, s, c, i, b);
    }
    forall b | IsBlock(c, b) && InUse(mem, b) && b != c[i]
      ensures IsBlock(c', b) && InUse(mem', b)
    {
      FreedSurvivor(mem, s, c, i, b);
    }
  }

  lemma CoalescedOutside(mem: Memory, regions: map<Addr, nat>, s: Addr, c: seq<Addr>, lo: nat, hi: nat)
    requires RegionsOk(mem, regions) && s in regions && regions[s] == SEGMENT_WORDS && Tiled(mem, s, c)
    requires lo < hi <= Count(c) && c[lo] < c[hi]
    ensures var m := Coalesced(mem, c, lo, hi);
            && SameOutside(mem, m, s)
            && (forall a :: a < c[lo] || c[hi] < a ==> At(m, a) == At(mem, a))
            && (hi < Count(c) ==> Size(m, c[hi]) == Size(mem, c[hi]))
  {
    hide RegionsOk, Tiled, CutsOk;
    RegionFacts(mem, regions, s);
    BlockFacts(mem, s, c, lo);
    RunFacts(mem, s, c, lo, hi);
    if hi < Count(c) { BlockFacts(mem, s, c, hi); }
  }

  lemma RunFacts(mem: Memory, s: Addr, c: seq<Addr>, lo: nat, hi: nat)
    requires Tiled(mem, s, c) && lo < hi <= Count(c)
    ensures s + SEGMENT_HEADER_WORDS <= c[lo] && c[lo] + MINIMUM_WORDS <= c[hi] <= s + SEGMENT_WORDS
  {
    hide CutsOk;
    CutOrder(s, c, lo, hi);
  }

  lemma FreedOutside(mem: Memory, regions: map<Addr, nat>, s: Addr, c: seq<Addr>, i: nat)
    requires RegionsOk(mem, regions) && s in regions && regions[s] == SEGMENT_WORDS && Tiled(mem, s, c)
    requires i < Count(c) && InUse(mem, c[i])
    ensures var m, lo, hi := FreedMemory(mem, s, c, i), MergeFrom(mem, c, i), MergeTo(mem, c, i);
            && SameOutside(mem, m, s)
            && lo < hi <= Count(c)
            && (forall a :: a < c[lo] || c[hi] < a ==> At(m, a) == At(mem, a))
            && (hi < Count(c) ==> Size(m, c[hi]) == Size(mem, c[hi]))
  {
    hide RegionsOk, Tiled, CutsOk, MergeFrom, MergeTo, Coalesced, SameOutside, At;
    var lo, hi := MergeFrom(mem, c, i), MergeTo(mem, c, i);
    MergeBounds(mem, s, c, i);
    CoalescedOutside(mem, regions, s, c, lo, hi);
  }

  lemma FreeKeepsBlocks(mem: Memory, regions: map<Addr, nat>, head: Addr, segs: seq<Addr>,
                        cuts: map<Addr, seq<Addr>>, owner: map<Addr, Addr>, s: Addr, i: nat)
    requires CoreOk(mem, regions, head, segs, cuts, owner) && s in segs
    requires i < Count(cuts[s]) && InUse(mem, cuts[s][i])
    ensures Kept(mem, FreedMemory(mem, s, cuts[s], i), owner - {cuts[s][i]})
  {
    hide RegionsOk, SegmentsOk, SegmentsLinked, OwnerOk, Tiled, Kept, SameOutside, At, Size, FreedMemory, MergeFrom,
      MergeTo;
    var c := cuts[s];
    var lo, hi := MergeFrom(mem, c, i), MergeTo(mem, c, i);
    SegmentFacts(mem, regions, segs, s);
    MergeBounds(mem, s, c, i);
    FreedOutside(mem, regions, s, c, i);
    forall b | b in owner - {c[i]}
      ensures !(c[lo] <= b < c[hi])
    {
      NotInMergedRun(mem, regions, segs, cuts, owner, s, i, b);
    }
    KeptElsewhere(mem, FreedMemory(mem, s, c, i), regions, segs, cuts, owner, s, lo, hi, owner - {c[i]});
  }

  /** No other block in use starts inside the merged run. */
  lemma NotInMergedRun(mem: Memory, regions: map<Addr, nat>, segs: seq<Addr>, cuts: map<Addr, seq<Addr>>,
                       owner: map<Addr, Addr>, s: Addr, i: nat, b: Addr)
    requires RegionsOk(mem, regions) && SegmentsOk(regions, segs) && OwnerOk(mem, regions, segs, cuts, owner)
    requires AllTiled(mem, segs, cuts)
    requires s in segs && i < Count(cuts[s]) && InUse(mem, cuts[s][i]) && b in owner && b != cuts[s][i]
    ensures var lo, hi := MergeFrom(mem, cuts[s], i), MergeTo(mem, cuts[s], i);
            hi <= Count(cuts[s]) && !(cuts[s][lo] <= b < cuts[s][hi])
  {
    hide RegionsOk, SegmentsOk, OwnerOk, Tiled, InUse, MergeFrom, MergeTo;
    var c := cuts[s];
    var lo, hi := MergeFrom(mem, c, i), MergeTo(mem, c, i);
    MergeBounds(mem, s, c, i);
    RunFacts(mem, s, c, lo, hi);
    if owner[b] == s {
      var j := OwnedIndex(mem, regions, segs, cuts, owner, s, b);
      assert j < lo || hi <= j;
      CutsAround(mem, s, c, lo, hi, j);
      BlockFacts(mem, s, c, j);
    } else {
      OwnedElsewhereApart(mem, regions, segs, cuts, owner, s, b);
    }
  }

  lemma FreeOwners(mem: Memory, regions: map<Addr, nat>, head: Addr, segs: seq<Addr>, cuts: map<Addr, seq<Addr>>,
                   owner: map<Addr, Addr>, s: Addr, i: nat)
    requires CoreOk(mem, regions, head, segs, cuts, owner) && s in segs
    requires i < Count(cuts[s]) && InUse(mem, cuts[s][i])
    ensures OwnerOk(FreedMemory(mem, s, cuts[s], i), regions, segs, cuts[s := FreedCuts(mem, s, cuts[s], i)],
                    owner - {cuts[s][i]})
  {
    hide RegionsOk, SegmentsOk, SegmentsLinked, OwnerOk, Tiled, SameOutside, At, InUse, FreedMemory, FreedCuts;
    var c, b := cuts[s], cuts[s][i];
    var mem', c', owner' := FreedMemory(mem, s, c, i), FreedCuts(mem, s, c, i), owner - {b};
    SegmentFacts(mem, regions, segs, s);
    InUseIsOwned(mem, regions, segs, cuts, owner, s, i);
    FreedOutside(mem, regions, s, c, i);
    FreedBlocks(mem, s, c, i);
    forall b' | b' in owner' && owner'[b'] == s
      ensures b' != s && IsBlock(c', b') && InUse(mem', b')
    {
      var j := OwnedIndex(mem, regions, segs, cuts, owner, s, b');
      assert s < b' by { BlockFacts(mem, s, c, j); }
      assert IsBlock(c, b');
    }
    forall j | 0 <= j < Count(c') && InUse(mem', c'[j])
      ensures c'[j] in owner' && owner'[c'[j]] == s
    {
      assert IsBlock(c', c'[j]);
      InUseIsOwned(mem, regions, segs, cuts, owner, s, IndexOf(c, c'[j]));
    }
    OwnerStep(mem, mem', regions, segs, cuts, owner, s, c', owner');
  }

  /** Freeing block i of segment `s` keeps the heap well formed and leaves every other block alone. */
  lemma FreeStep(mem: Memory, regions: map<Addr, nat>, head: Addr, segs: seq<Addr>, cuts: map<Addr, seq<Addr>>,
                 owner: map<Addr, Addr>, s: Addr, i: nat)
    requires CoreOk(mem, regions, head, segs, cuts, owner) && s in segs
    requires i < Count(cuts[s]) && InUse(mem, cuts[s][i])
    ensures var mem', c' := FreedMemory(mem, s, cuts[s], i), FreedCuts(mem, s, cuts[s], i);
            && CoreOk(mem', regions, head, segs, cuts[s := c'], owner - {cuts[s][i]})
            && Kept(mem, mem', owner - {cuts[s][i]})
            && (SomeInUse(mem', c') <==> |c'| > 2)
            && (forall t, a :: t in segs && t != s && t <= a < t + SEGMENT_WORDS ==> At(mem', a) == At(mem, a))
  {
    hide RegionsOk, SegmentsOk, SegmentsLinked, OwnerOk, Tiled, Kept, SameOutside, At, InUse, SomeInUse, FreedMemory,
      FreedCuts, MergeFrom, MergeTo;
    SegmentFacts(mem, regions, segs, s);
    FreeKeepsBlocks(mem, regions, head, segs, cuts, owner, s, i);
    FreeOwners(mem, regions, head, segs, cuts, owner, s, i);
    FreedOutside(mem, regions, s, cuts[s], i);
    FreedTiling(mem, s, cuts[s], i);
    OtherSegmentsKeepTiling(mem, FreedMemory(mem, s, cuts[s], i), regions, head, segs, cuts, s);
  }

  // ---------------------------------------------------------------- segments come and go

  /** `n` words from `base` are mapped and zero, as mmap delivers them. */
  ghost predicate NewlyMapped(mem: Memory, mem': Memory, base: Addr, n: nat) {
    && (forall a :: a in mem' <==> a in mem || base <= a < base + n)
    && (forall a :: a in mem && !(base <= a < base + n) ==> At(mem', a) == At(mem, a))
    && (forall a :: base <= a < base + n ==> At(mem', a) == Raw(0))
  }

  ghost predicate FreshRange(regions: map<Addr, nat>, base: Addr, n: nat) {
    && 0 < base && 0 < n && base + n <= ADDRESS_LIMIT && base % PAGE_WORDS == 0
    && forall r :: r in regions ==> r + regions[r] <= base || base + n <= r
  }

  function FirstBlock(): Word {
    Header(false, true, false, SEGMENT_WORDS - SEGMENT_HEADER_WORDS)
  }

  /** The two memories agree on every mapped word except perhaps the link words of segments. */
  ghost predicate SameBlocks(mem: Memory, mem': Memory, regions: map<Addr, nat>, segs: seq<Addr>) {
    forall r, a :: r in regions && (if r in segs then r + SEGMENT_HEADER_WORDS else r) <= a < r + regions[r] ==>
                     At(mem', a) == At(mem, a)
  }

  lemma SameBlocksSameTiling(mem: Memory, mem': Memory, s: Addr, c: seq<Addr>)
    requires Tiled(mem, s, c)
    requires forall a :: s + SEGMENT_HEADER_WORDS <= a < s + SEGMENT_WORDS ==> At(mem', a) == At(mem, a)
    ensures Tiled(mem', s, c)
    ensures forall i :: 0 <= i < Count(c) ==> At(mem', c[i]) == At(mem, c[i])
  {
    forall i | 0 <= i < Count(c)
      ensures BlockOk(mem', c, i) && At(mem', c[i]) == At(mem, c[i])
    {
      hide Tiled, CutsOk, At;
      BlockFacts(mem, s, c, i);
      if i > 0 {
        BlockFacts(mem, s, c, i - 1);
      }
    }
  }

  /** ... and then the same blocks are in use, with the same contents. */
  lemma SameBlocksSameOwners(mem: Memory, mem': Memory, regions: map<Addr, nat>, segs: seq<Addr>,
                             cuts: map<Addr, seq<Addr>>, owner: map<Addr, Addr>)
    requires RegionsOk(mem, regions) && SegmentsOk(regions, segs) && OwnerOk(mem, regions, segs, cuts, owner)
    requires AllTiled(mem, segs, cuts)
    requires SameBlocks(mem, mem', regions, segs)
    ensures AllTiled(mem', segs, cuts)
    ensures OwnerOk(mem', regions, segs, cuts, owner) && Kept(mem, mem', owner)
    ensures forall s, i :: s in segs && 0 <= i < Count(cuts[s]) ==> InUse(mem', cuts[s][i]) == InUse(mem, cuts[s][i])
  {
    hide KeptBlock, OwnedBlock, RegionsOk, SegmentsOk, OwnerOk, Tiled, At, SameBlocks;
    forall s | s in segs
      ensures Tiled(mem', s, cuts[s])
      ensures forall i :: 0 <= i < Count(cuts[s]) ==> At(mem', cuts[s][i]) == At(mem, cuts[s][i])
    {
      SameBlocksInSegment(mem, mem', regions, segs, s);
      SameBlocksSameTiling(mem, mem', s, cuts[s]);
    }
    forall b | b in owner
      ensures OwnedBlock(mem', regions, segs, cuts, b, owner[b]) && KeptBlock(mem, mem', b)
    {
      SameBlockSameOwner(mem, mem', regions, segs, cuts, owner, b);
    }
    SameInUseSameOwners(mem, mem', regions, segs, cuts, owner);
  }

  lemma SameBlocksInSegment(mem: Memory, mem': Memory, regions: map<Addr, nat>, segs: seq<Addr>, s: Addr)
    requires SegmentsOk(regions, segs) && SameBlocks(mem, mem', regions, segs) && s in segs
    ensures forall a :: s + SEGMENT_HEADER_WORDS <= a < s + SEGMENT_WORDS ==> At(mem', a) == At(mem, a)
  {
    hide At;
    assert s in regions && regions[s] == SEGMENT_WORDS;
  }

  lemma SameInUseSameOwners(mem: Memory, mem': Memory, regions: map<Addr, nat>, segs: seq<Addr>,
                            cuts: map<Addr, seq<Addr>>, owner: map<Addr, Addr>)
    requires OwnerOk(mem, regions, segs, cuts, owner)
    requires forall b :: b in owner ==> OwnedBlock(mem', regions, segs, cuts, b, owner[b])
    requires forall s, i :: s in segs && 0 <= i < Count(cuts[s]) ==> InUse(mem', cuts[s][i]) == InUse(mem, cuts[s][i])
    ensures OwnerOk(mem', regions, segs, cuts, owner)
  {
    hide OwnedBlock, InUse;
  }

  lemma SameBlockSameOwner(mem: Memory, mem': Memory, regions: map<Addr, nat>, segs: seq<Addr>,
                           cuts: map<Addr, seq<Addr>>, owner: map<Addr, Addr>, b: Addr)
    requires RegionsOk(mem, regions) && SegmentsOk(regions, segs) && OwnerOk(mem, regions, segs, cuts, owner)
    requires AllTiled(mem, segs, cuts)
    requires SameBlocks(mem, mem', regions, segs) && b in owner
    ensures OwnedBlock(mem', regions, segs, cuts, b, owner[b]) && KeptBlock(mem, mem', b)
  {
    hide RegionsOk, SegmentsOk, OwnerOk, AllTiled, IsBlock, At, SameBlocks;
    BlockInRegion(mem, regions, segs, cuts, owner, b);
    OwnerIs(mem, regions, segs, cuts, owner, b);
    SameBlockWords(mem, mem', regions, segs, cuts, owner, b);
  }

  lemma OwnerIs(mem: Memory, regions: map<Addr, nat>, segs: seq<Addr>, cuts: map<Addr, seq<Addr>>,
                owner: map<Addr, Addr>, b: Addr)
    requires OwnerOk(mem, regions, segs, cuts, owner) && b in owner
    ensures OwnedBlock(mem, regions, segs, cuts, b, owner[b])
  {
  }

  lemma SameBlockWords(mem: Memory, mem': Memory, regions: map<Addr, nat>, segs: seq<Addr>, cuts: map<Addr, seq<Addr>>,
                       owner: map<Addr, Addr>, b: Addr)
    requires RegionsOk(mem, regions) && SegmentsOk(regions, segs) && OwnerOk(mem, regions, segs, cuts, owner)
    requires AllTiled(mem, segs, cuts) && SameBlocks(mem, mem', regions, segs) && b in owner
    ensures forall a :: b <= a < b + Size(mem, b) ==> At(mem', a) == At(mem, a)
    ensures At(mem', b) == At(mem, b)
  {
    hide RegionsOk, SegmentsOk, OwnerOk, AllTiled, At;
    BlockInRegion(mem, regions, segs, cuts, owner, b);
    SizeIsPositive(mem, regions, segs, cuts, owner, b);
  }

  lemma SizeIsPositive(mem: Memory, regions: map<Addr, nat>, segs: seq<Addr>, cuts: map<Addr, seq<Addr>>,
                       owner: map<Addr, Addr>, b: Addr)
    requires RegionsOk(mem, regions) && SegmentsOk(regions, segs) && OwnerOk(mem, regions, segs, cuts, owner)
    requires AllTiled(mem, segs, cuts) && b in owner
    ensures 0 < Size(mem, b)
  {
    hide RegionsOk, SegmentsOk, OwnerOk, AllTiled, At;
    BlockInRegion(mem, regions, segs, cuts, owner, b);
  }

  /** A mapping elsewhere changes nothing for the ranges already mapped. */
  lemma MapStep(mem: Memory, mem': Memory, regions: map<Addr, nat>, head: Addr, segs: seq<Addr>,
                cuts: map<Addr, seq<Addr>>, owner: map<Addr, Addr>, base: Addr, n: nat)
    requires CoreOk(mem, regions, head, segs, cuts, owner)
    requires FreshRange(regions, base, n) && NewlyMapped(mem, mem', base, n)
    ensures CoreOk(mem', regions, head, segs, cuts, owner) && RegionsOk(mem', regions[base := n])
    ensures base !in regions && Kept(mem, mem', owner) && SameBlocks(mem, mem', regions, segs)
  {
    hide OwnerOk, AllTiled, Kept, At, SegmentsOk;
    forall r, a | r in regions && r <= a < r + regions[r]
      ensures At(mem', a) == At(mem, a)
    {
      MappedElsewhere(mem, mem', regions, base, n, r);
    }
    MappedRegions(mem, mem', regions, base, n);
    hide RegionsOk, FreshRange, NewlyMapped;
    SameBlocksSameOwners(mem, mem', regions, segs, cuts, owner);
    forall i | 0 <= i < |segs|
      ensures LinksOk(mem', segs, i)
    {
      assert LinksOk(mem, segs, i) && segs[i] in segs;
      SegmentFacts(mem, regions, segs, segs[i]);
    }
  }

  lemma MappedElsewhere(mem: Memory, mem': Memory, regions: map<Addr, nat>, base: Addr, n: nat, r: Addr)
    requires RegionsOk(mem, regions) && r in regions
    requires FreshRange(regions, base, n) && NewlyMapped(mem, mem', base, n)
    ensures forall a :: r <= a < r + regions[r] ==> At(mem', a) == At(mem, a)
  {
    hide RegionsOk, At;
    RegionFacts(mem, regions, r);
  }

  lemma MappedRegions(mem: Memory, mem': Memory, regions: map<Addr, nat>, base: Addr, n: nat)
    requires RegionsOk(mem, regions)
    requires FreshRange(regions, base, n) && NewlyMapped(mem, mem', base, n)
    ensures base !in regions && RegionsOk(mem', regions) && RegionsOk(mem', regions[base := n])
  {
    assert base !in regions;
  }

  /** The memory after a fresh mapping becomes a segment: one free block, in front of the list. */
  ghost function NewSegment(mem: Memory, head: Addr, base: Addr): Memory {
    Pushed(mem, head, base)[base + SEGMENT_HEADER_WORDS := FirstBlock()]
      [base + SEGMENT_WORDS - 1 := Raw(SEGMENT_WORDS - SEGMENT_HEADER_WORDS)]
  }

  lemma FirstBlockIs(mem: Memory, head: Addr, base: Addr)
    ensures At(NewSegment(mem, head, base), base + 2) == Header(false, true, false, 262142)
  {
    hide Pushed;
  }

  lemma NewSegmentLinks(mem: Memory, regions: map<Addr, nat>, head: Addr, segs: seq<Addr>, base: Addr)
    requires RegionsOk(mem, regions) && SegmentsOk(regions, segs) && SegmentsLinked(mem, head, segs)
    requires base !in regions && RegionsOk(mem, regions[base := SEGMENT_WORDS])
    ensures SegmentsLinked(NewSegment(mem, head, base), base, [base] + segs)
    ensures SegmentsOk(regions[base := SEGMENT_WORDS], [base] + segs)
    ensures SameBlocks(mem, NewSegment(mem, head, base), regions, segs)
  {
    hide RegionsOk, At, NewSegment, Pushed;
    var regions', m, l := regions[base := SEGMENT_WORDS], Pushed(mem, head, base), [base] + segs;
    var mem' := NewSegment(mem, head, base);
    PushKeepsList(mem, regions', head, segs, base);
    NewSegmentWords(mem, head, base);
    forall i | 0 <= i < |l|
      ensures LinksOk(mem', l, i)
    {
      assert LinksOk(m, l, i) && l[i] in l;
      SegmentFacts(mem, regions', l, l[i]);
      if i > 0 { RegionsApart(mem, regions', base, l[i]); }
    }
    forall r, a | r in regions && (if r in segs then r + SEGMENT_HEADER_WORDS else r) <= a < r + regions[r]
      ensures At(mem', a) == At(mem, a)
    {
      RegionsApart(mem, regions', base, r);
      NewSegmentElsewhere(mem, regions, head, segs, base, r, a);
    }
  }

  lemma NewSegmentWords(mem: Memory, head: Addr, base: Addr)
    ensures forall a :: a < base + SEGMENT_HEADER_WORDS || base + SEGMENT_WORDS <= a ==>
                          At(NewSegment(mem, head, base), a) == At(Pushed(mem, head, base), a)
    ensures At(NewSegment(mem, head, base), base + SEGMENT_HEADER_WORDS) == FirstBlock()
    ensures At(NewSegment(mem, head, base), base + SEGMENT_WORDS - 1) == Raw(SEGMENT_WORDS - SEGMENT_HEADER_WORDS)
  {
    hide Pushed;
  }

  lemma NewSegmentElsewhere(mem: Memory, regions: map<Addr, nat>, head: Addr, segs: seq<Addr>, base: Addr, r: Addr,
                            a: Addr)
    requires RegionsOk(mem, regions) && SegmentsOk(regions, segs) && SegmentsLinked(mem, head, segs)
    requires r in regions && (if r in segs then r + SEGMENT_HEADER_WORDS else r) <= a < r + regions[r]
    requires a < base || base + SEGMENT_WORDS <= a
    ensures At(Pushed(mem, head, base), a) == At(mem, a)
  {
    hide RegionsOk, SegmentsOk;
    if segs != [] {
      assert segs[0] in segs;
      SegmentFacts(mem, regions, segs, segs[0]);
      if r != segs[0] { RegionsApart(mem, regions, r, segs[0]); }
    }
  }

  /** A new segment without a block in use changes nobody's owner. */
  lemma AddSegmentOwners(mem: Memory, regions: map<Addr, nat>, segs: seq<Addr>, cuts: map<Addr, seq<Addr>>,
                         owner: map<Addr, Addr>, base: Addr, c: seq<Addr>)
    requires SegmentsOk(regions, segs) && OwnerOk(mem, regions, segs, cuts, owner)
    requires base !in regions && |c| == 2 && !InUse(mem, c[0])
    ensures OwnerOk(mem, regions[base := SEGMENT_WORDS], [base] + segs, cuts[base := c], owner)
  {
    hide At, InUse, IsBlock;
    var regions', segs', cuts' := regions[base := SEGMENT_WORDS], [base] + segs, cuts[base := c];
    assert forall s :: s in segs' <==> s == base || s in segs;
    forall b | b in owner
      ensures OwnedBlock(mem, regions', segs', cuts', b, owner[b])
    {
      assert OwnedBlock(mem, regions, segs, cuts, b, owner[b]);
    }
  }

  lemma NewSegmentStep(mem: Memory, regions: map<Addr, nat>, head: Addr, segs: seq<Addr>, cuts: map<Addr, seq<Addr>>,
                       owner: map<Addr, Addr>, base: Addr)
    requires CoreOk(mem, regions, head, segs, cuts, owner)
    requires base !in regions && RegionsOk(mem, regions[base := SEGMENT_WORDS])
    ensures var mem', c := NewSegment(mem, head, base), [base + SEGMENT_HEADER_WORDS, base + SEGMENT_WORDS];
            && CoreOk(mem', regions[base := SEGMENT_WORDS], base, [base] + segs, cuts[base := c], owner)
            && !InUse(mem', c[0])
            && Kept(mem, mem', owner) && SameBlocks(mem, mem', regions, segs)
  {
    hide Kept, SameBlocks, OwnerOk, SegmentsLinked, NewSegment, Pushed, At;
    var mem', c := NewSegment(mem, head, base), [base + 2, base + SEGMENT_WORDS];
    NewSegmentLinks(mem, regions, head, segs, base);
    NewSegmentMapped(mem, regions, head, segs, base);
    NewSegmentTiled(mem, head, base);
    hide RegionsOk;
    assert base !in segs;
    hide SegmentsOk, Tiled;
    SameBlocksSameOwners(mem, mem', regions, segs, cuts, owner);
    AddSegmentOwners(mem', regions, segs, cuts, owner, base, c);
  }

  lemma NewSegmentMapped(mem: Memory, regions: map<Addr, nat>, head: Addr, segs: seq<Addr>, base: Addr)
    requires RegionsOk(mem, regions[base := SEGMENT_WORDS]) && SegmentsOk(regions, segs) && SegmentsLinked(mem, head, segs)
    requires base !in regions
    ensures RegionsOk(NewSegment(mem, head, base), regions[base := SEGMENT_WORDS])
  {
    var regions' := regions[base := SEGMENT_WORDS];
    hide RegionsOk;
    RegionFacts(mem, regions', base);
    if segs != [] {
      assert segs[0] in segs && segs[0] != base;
      RegionFacts(mem, regions', segs[0]);
    }
    assert mem.Keys == NewSegment(mem, head, base).Keys;
    SameKeysSameRegions(mem, NewSegment(mem, head, base), regions');
  }

  lemma NewSegmentTiled(mem: Memory, head: Addr, base: Addr)
    ensures var mem', c := NewSegment(mem, head, base), [base + SEGMENT_HEADER_WORDS, base + SEGMENT_WORDS];
            Tiled(mem', base, c) && !InUse(mem', c[0])
  {
    hide NewSegment, At;
    NewSegmentWords(mem, head, base);
    assert BlockOk(NewSegment(mem, head, base), [base + SEGMENT_HEADER_WORDS, base + SEGMENT_WORDS], 0);
  }

  /** The words of a mapping go away. */
  function Unmapped(mem: Memory, base: Addr, n: nat): Memory {
    map a | a in mem && !(base <= a < base + n) :: mem[a]
  }

  /** Dropping a segment without a block in use changes nobody's owner. */
  lemma DropSegmentOwners(mem: Memory, regions: map<Addr, nat>, segs: seq<Addr>, cuts: map<Addr, seq<Addr>>,
                          owner: map<Addr, Addr>, j: nat)
    requires SegmentsOk(regions, segs) && OwnerOk(mem, regions, segs, cuts, owner)
    requires j < |segs| && segs[j] in cuts && !SomeInUse(mem, cuts[segs[j]])
    ensures OwnerOk(mem, regions - {segs[j]}, RemoveAt(segs, j), cuts, owner)
  {
    hide At, InUse, RemoveAt;
    var regions', segs' := regions - {segs[j]}, RemoveAt(segs, j);
    WithoutMembers(segs, j);
    forall b | b in owner
      ensures OwnedBlock(mem, regions', segs', cuts, b, owner[b])
    {
      assert OwnedBlock(mem, regions, segs, cuts, b, owner[b]);
    }
  }

  lemma UnlinkedSameBlocks(mem: Memory, regions: map<Addr, nat>, segs: seq<Addr>, j: nat)
    requires RegionsOk(mem, regions) && SegmentsOk(regions, segs) && j < |segs|
    ensures SameBlocks(mem, Unmapped(Unlinked(mem, segs, j), segs[j], SEGMENT_WORDS), regions - {segs[j]}, RemoveAt(segs, j))
    ensures RegionsOk(Unmapped(Unlinked(mem, segs, j), segs[j], SEGMENT_WORDS), regions - {segs[j]})
  {
    hide RegionsOk, At, Unlinked, RemoveAt;
    var mem', regions' := Unmapped(Unlinked(mem, segs, j), segs[j], SEGMENT_WORDS), regions - {segs[j]};
    WithoutMembers(segs, j);
    assert segs[j] in segs;
    forall r, a | r in regions' && (if r in RemoveAt(segs, j) then r + SEGMENT_HEADER_WORDS else r) <= a < r + regions'[r]
      ensures At(mem', a) == At(mem, a)
    {
      UnlinkedElsewhere(mem, regions, segs, j, r, a);
      RegionsApart(mem, regions, r, segs[j]);
      UnmappedElsewhere(Unlinked(mem, segs, j), segs[j], SEGMENT_WORDS, a);
    }
    assert RegionsOk(Unlinked(mem, segs, j), regions) by { UnlinkedRegions(mem, regions, segs, j); }
    UnmappedRegions(Unlinked(mem, segs, j), regions, segs[j]);
  }

  lemma UnmappedElsewhere(mem: Memory, base: Addr, n: nat, a: Addr)
    requires a < base || base + n <= a
    ensures At(Unmapped(mem, base, n), a) == At(mem, a)
  {
  }

  lemma UnmappedRegions(mem: Memory, regions: map<Addr, nat>, r: Addr)
    requires RegionsOk(mem, regions) && r in regions
    ensures RegionsOk(mem, regions - {r}) && RegionsOk(Unmapped(mem, r, regions[r]), regions - {r})
  {
    forall q, a | q in regions - {r} && q <= a < q + regions[q]
      ensures a in Unmapped(mem, r, regions[r])
    {
      hide RegionsOk;
      RegionFacts(mem, regions, q);
      RegionsApart(mem, regions, q, r);
    }
  }

  lemma UnlinkedRegions(mem: Memory, regions: map<Addr, nat>, segs: seq<Addr>, j: nat)
    requires RegionsOk(mem, regions) && SegmentsOk(regions, segs) && j < |segs|
    ensures RegionsOk(Unlinked(mem, segs, j), regions)
  {
    hide RegionsOk, SegmentsOk;
    if j > 0 {
      assert segs[j - 1] in segs;
      SegmentFacts(mem, regions, segs, segs[j - 1]);
    }
    if j + 1 < |segs| {
      assert segs[j + 1] in segs;
      SegmentFacts(mem, regions, segs, segs[j + 1]);
    }
    assert Unlinked(mem, segs, j).Keys == mem.Keys;
    SameKeysSameRegions(mem, Unlinked(mem, segs, j), regions);
  }

  /** Unlinking writes link words of segments only. */
  lemma UnlinkedElsewhere(mem: Memory, regions: map<Addr, nat>, segs: seq<Addr>, j: nat, r: Addr, a: Addr)
    requires RegionsOk(mem, regions) && SegmentsOk(regions, segs) && j < |segs| && r in regions && r != segs[j]
    requires (if r in RemoveAt(segs, j) then r + SEGMENT_HEADER_WORDS else r) <= a < r + regions[r]
    ensures At(Unlinked(mem, segs, j), a) == At(mem, a)
  {
    hide RegionsOk, RemoveAt;
    WithoutMembers(segs, j);
    if j > 0 {
      assert segs[j - 1] in segs && segs[j - 1] in RemoveAt(segs, j);
      NotALinkWord(mem, regions, segs, segs[j - 1], r, a);
    }
    if j + 1 < |segs| {
      assert segs[j + 1] in segs && segs[j + 1] in RemoveAt(segs, j);
      NotALinkWord(mem, regions, segs, segs[j + 1], r, a);
    }
  }

  lemma NotALinkWord(mem: Memory, regions: map<Addr, nat>, segs: seq<Addr>, s: Addr, r: Addr, a: Addr)
    requires RegionsOk(mem, regions) && SegmentsOk(regions, segs) && s in segs && r in regions
    requires (if r == s then r + SEGMENT_HEADER_WORDS else r) <= a < r + regions[r]
    ensures a != s && a != s + 1
  {
    hide RegionsOk, SegmentsOk;
    SegmentFacts(mem, regions, segs, s);
    if r != s { RegionsApart(mem, regions, r, s); }
  }

  lemma UnmappedList(mem: Memory, regions: map<Addr, nat>, head: Addr, segs: seq<Addr>, s: Addr)
    requires RegionsOk(mem, regions) && SegmentsOk(regions, segs) && SegmentsLinked(mem, head, segs)
    requires s in regions && regions[s] == SEGMENT_WORDS && s !in segs
    ensures SegmentsLinked(Unmapped(mem, s, SEGMENT_WORDS), head, segs)
  {
    forall i | 0 <= i < |segs|
      ensures LinksOk(Unmapped(mem, s, SEGMENT_WORDS), segs, i)
    {
      hide RegionsOk, SegmentsOk, At, Unmapped;
      assert LinksOk(mem, segs, i) && segs[i] in segs;
      SegmentFacts(mem, regions, segs, segs[i]);
      RegionsApart(mem, regions, s, segs[i]);
      UnmappedElsewhere(mem, s, SEGMENT_WORDS, segs[i]);
      UnmappedElsewhere(mem, s, SEGMENT_WORDS, segs[i] + 1);
    }
  }

  /** Unlinking and unmapping a segment without a block in use. */
  lemma DropSegmentStep(mem: Memory, regions: map<Addr, nat>, head: Addr, segs: seq<Addr>, cuts: map<Addr, seq<Addr>>,
                        owner: map<Addr, Addr>, j: nat)
    requires CoreOk(mem, regions, head, segs, cuts, owner)
    requires j < |segs| && segs[j] in cuts && !SomeInUse(mem, cuts[segs[j]])
    ensures var mem' := Unmapped(Unlinked(mem, segs, j), segs[j], SEGMENT_WORDS);
            && CoreOk(mem', regions - {segs[j]}, HeadWithout(head, segs, j), RemoveAt(segs, j), cuts, owner)
            && Kept(mem, mem', owner) && SameBlocks(mem, mem', regions - {segs[j]}, RemoveAt(segs, j))
  {
    hide RegionsOk, SegmentsOk, SegmentsLinked, OwnerOk, Tiled, Kept, SameBlocks, Unlinked, Unmapped, RemoveAt,
      SomeInUse;
    var regions', segs' := regions - {segs[j]}, RemoveAt(segs, j);
    var m := Unlinked(mem, segs, j);
    var mem' := Unmapped(m, segs[j], SEGMENT_WORDS);
    assert segs[j] in segs;
    SegmentFacts(mem, regions, segs, segs[j]);
    UnlinkKeepsList(mem, regions, head, segs, j);
    UnlinkedRegions(mem, regions, segs, j);
    UnmappedList(m, regions, HeadWithout(head, segs, j), segs', segs[j]);
    UnlinkedSameBlocks(mem, regions, segs, j);
    DropSegmentOwners(mem, regions, segs, cuts, owner, j);
    UnmappedRegions(mem, regions, segs[j]);
    FewerSegments(regions, segs', segs[j]);
    SameBlocksSameOwners(mem, mem', regions', segs', cuts, owner);
  }

  lemma FewerSegments(regions: map<Addr, nat>, segs: seq<Addr>, s: Addr)
    requires SegmentsOk(regions, segs) && s !in segs
    ensures SegmentsOk(regions - {s}, segs)
  {
  }

  lemma KeptTwice(mem: Memory, mem': Memory, mem'': Memory, owner: map<Addr, Addr>)
    requires Kept(mem, mem', owner) && Kept(mem', mem'', owner)
    ensures Kept(mem, mem'', owner)
  {
    forall b | b in owner
      ensures KeptBlock(mem, mem'', b)
    {
      assert KeptBlock(mem, mem', b) && KeptBlock(mem', mem'', b);
    }
  }

  lemma SomeInUsePersists(mem: Memory, mem': Memory, s: Addr, c: seq<Addr>)
    requires CutsOk(s, c) && SomeInUse(mem, c)
    requires forall a :: s + SEGMENT_HEADER_WORDS <= a < s + SEGMENT_WORDS ==> At(mem', a) == At(mem, a)
    ensures SomeInUse(mem', c)
  {
    hide CutsOk, At;
    var i :| 0 <= i < Count(c) && InUse(mem, c[i]);
    CutOrder(s, c, i, i + 1);
    assert InUse(mem', c[i]);
  }

  lemma AlignUpToPage(bytes: nat)
    requires bytes < SIZE_T_RANGE
    ensures var n := AlignUp(bytes, 4096) / 8;
            n >= 0 && (n > 0 ==> bytes <= 8 * n < bytes + 4096 && n % 512 == 0)
  {
    var x := bytes + 4095;
    assert AlignUp(bytes, 4096) == x % SIZE_T_RANGE / 4096 * 4096;
    hide AlignUp;
    WrapOnce(x);
    PageWords(x % SIZE_T_RANGE);
  }

  lemma WrapOnce(x: nat)
    requires x < 2 * SIZE_T_RANGE
    ensures x % SIZE_T_RANGE == if x < SIZE_T_RANGE then x else x - SIZE_T_RANGE
  {
  }

  /** Rounding down to a page, in words. */
  lemma PageWords(x: nat)
    ensures x / 4096 * 4096 / 8 == x / 4096 * PAGE_WORDS
    ensures x - 4096 < 8 * (x / 4096 * PAGE_WORDS) <= x
    ensures x < 4096 ==> x / 4096 == 0
  {
    var k := x / 4096;
    assert x == 4096 * k + x % 4096;
    assert k * 4096 == k * 512 * 8;
  }

  /** A block that fills a mapping of its own. */
  lemma BigBlockStep(mem: Memory, regions: map<Addr, nat>, head: Addr, segs: seq<Addr>, cuts: map<Addr, seq<Addr>>,
                     owner: map<Addr, Addr>, p: Addr, n: nat)
    requires CoreOk(mem, regions, head, segs, cuts, owner)
    requires p !in regions && RegionsOk(mem, regions[p := n])
    ensures p !in owner
    ensures CoreOk(mem[p := Header(true, true, true, n)], regions[p := n], head, segs, cuts, owner[p := p])
    ensures SameBlocks(mem, mem[p := Header(true, true, true, n)], regions, segs)
    ensures Kept(mem, mem[p := Header(true, true, true, n)], owner)
  {
    hide RegionsOk, SegmentsOk, OwnerOk, AllTiled, Kept, At, Size;
    var mem', regions' := mem[p := Header(true, true, true, n)], regions[p := n];
    forall r | r in regions
      ensures p < r || r + regions[r] <= p
    {
      RegionFacts(mem, regions', p);
      RegionsApart(mem, regions', r, p);
    }
    assert forall a :: a != p ==> At(mem', a) == At(mem, a) by { WriteElsewhere(mem, p, Header(true, true, true, n)); }
    NotOwnedOutside(mem, regions, segs, cuts, owner, p);
    SameBlocksSameOwners(mem, mem', regions, segs, cuts, owner);
    assert At(mem', p) == Header(true, true, true, n) by { WriteElsewhere(mem, p, Header(true, true, true, n)); }
    BigBlockOwners(mem', regions, segs, cuts, owner, p, n);
    WriteKeepsRegions(mem, regions', p, Header(true, true, true, n));
    forall i | 0 <= i < |segs|
      ensures LinksOk(mem', segs, i)
    {
      assert LinksOk(mem, segs, i) && segs[i] in segs;
      SegmentFacts(mem, regions, segs, segs[i]);
    }
    BigBlockSegments(regions, segs, p, n);
  }

  lemma BigBlockSegments(regions: map<Addr, nat>, segs: seq<Addr>, p: Addr, n: nat)
    requires SegmentsOk(regions, segs) && p !in regions
    ensures SegmentsOk(regions[p := n], segs)
  {
  }

  lemma WriteElsewhere(mem: Memory, p: Addr, w: Word)
    ensures At(mem[p := w], p) == w
    ensures forall a :: a != p ==> At(mem[p := w], a) == At(mem, a)
  {
  }

  lemma WriteKeepsRegions(mem: Memory, regions: map<Addr, nat>, p: Addr, w: Word)
    requires RegionsOk(mem, regions)
    ensures RegionsOk(mem[p := w], regions)
  {
  }

  lemma NotOwnedOutside(mem: Memory, regions: map<Addr, nat>, segs: seq<Addr>, cuts: map<Addr, seq<Addr>>,
                        owner: map<Addr, Addr>, p: Addr)
    requires RegionsOk(mem, regions) && SegmentsOk(regions, segs) && OwnerOk(mem, regions, segs, cuts, owner)
    requires AllTiled(mem, segs, cuts) && forall r :: r in regions ==> p < r || r + regions[r] <= p
    ensures p !in owner
  {
    hide RegionsOk, SegmentsOk, OwnerOk, AllTiled;
    if p in owner {
      BlockInRegion(mem, regions, segs, cuts, owner, p);
      SizeIsPositive(mem, regions, segs, cuts, owner, p);
      assert false;
    }
  }

  lemma BigBlockOwners(mem: Memory, regions: map<Addr, nat>, segs: seq<Addr>, cuts: map<Addr, seq<Addr>>,
                       owner: map<Addr, Addr>, p: Addr, n: nat)
    requires SegmentsOk(regions, segs) && OwnerOk(mem, regions, segs, cuts, owner)
    requires p !in regions && p !in owner && At(mem, p) == Header(true, true, true, n)
    ensures OwnerOk(mem, regions[p := n], segs, cuts, owner[p := p])
  {
    forall b | b in owner
      ensures OwnedBlock(mem, regions[p := n], segs, cuts, b, owner[b])
    {
      assert OwnedBlock(mem, regions, segs, cuts, b, owner[b]);
    }
  }

  function Zeroed(base: Addr, n: nat): (m: Memory)
    ensures forall a :: a in m <==> base <= a < base + n
    ensures forall a :: a in m ==> m[a] == Raw(0)
  {
    if n == 0 then map[] else Zeroed(base, n - 1)[base + n - 1 := Raw(0)]
  }

  /** The request is answered from block k of the segment at place j, the first block that is large enough. */
  ghost predicate Placed(mem: Memory, mem': Memory, cuts: map<Addr, seq<Addr>>, cuts': map<Addr, seq<Addr>>,
                         owner: map<Addr, Addr>, owner': map<Addr, Addr>, s: Addr, k: nat, size: nat, ptr: Addr)
  {
    && s in cuts
    && FirstFit(mem, cuts[s], k, size)
    && ptr == cuts[s][k] + 1
    && mem' == AllocatedMemory(mem, cuts[s], k, size)
    && cuts' == cuts[s := AllocatedCuts(cuts[s], k, size)]
    && owner' == owner[ptr - 1 := s]
  }

  /** None of the first n segments has a free block that is large enough. */
  ghost predicate NoFit(mem: Memory, segs: seq<Addr>, cuts: map<Addr, seq<Addr>>, n: nat, size: nat) {
    n <= |segs| && forall i :: 0 <= i < n ==> NoFitIn(mem, cuts, segs[i], size)
  }

  ghost predicate NoFitIn(mem: Memory, cuts: map<Addr, seq<Addr>>, s: Addr, size: nat) {
    s in cuts && NoFreeBlock(mem, cuts[s], Count(cuts[s]), size)
  }

  /** What the search of segment `s` leaves: its first block that is large enough is handed out, or there is none. */
  ghost predicate FoundInSegment(mem: Memory, mem': Memory, cuts: map<Addr, seq<Addr>>, cuts': map<Addr, seq<Addr>>,
                                 owner: map<Addr, Addr>, owner': map<Addr, Addr>, s: Addr, k: nat, size: nat, ptr: Addr)
  {
    if ptr == 0 then
      NoFitIn(mem, cuts, s, size) && mem' == mem && cuts' == cuts && owner' == owner
    else
      && Placed(mem, mem', cuts, cuts', owner, owner', s, k, size, ptr)
      && ptr - 1 !in owner && size <= Size(mem', ptr - 1)
      && !InUse(mem, ptr - 1) && CutFrom(mem', ptr - 1, Size(mem, ptr - 1), size)
  }

  /** What the search of the segment list leaves: the first segment that can answer has answered, or none can. */
  ghost predicate FoundInList(mem: Memory, mem': Memory, segs: seq<Addr>, cuts: map<Addr, seq<Addr>>,
                              cuts': map<Addr, seq<Addr>>, owner: map<Addr, Addr>, owner': map<Addr, Addr>, j: nat, k: nat,
                              size: nat, ptr: Addr)
  {
    if ptr == 0 then
      NoFit(mem, segs, cuts, |segs|, size) && mem' == mem && cuts' == cuts && owner' == owner
    else
      && j < |segs| && NoFit(mem, segs, cuts, j, size)
      && FoundInSegment(mem, mem', cuts, cuts', owner, owner', segs[j], k, size, ptr)
  }

  lemma NotFoundNext(mem: Memory, mem': Memory, segs: seq<Addr>, cuts: map<Addr, seq<Addr>>, cuts': map<Addr, seq<Addr>>,
                     owner: map<Addr, Addr>, owner': map<Addr, Addr>, j: nat, k: nat, size: nat)
    requires NoFit(mem, segs, cuts, j, size) && j < |segs|
    requires FoundInSegment(mem, mem', cuts, cuts', owner, owner', segs[j], k, size, 0)
    ensures mem' == mem && cuts' == cuts && owner' == owner && NoFit(mem, segs, cuts, j + 1, size)
  {
  }

  /** Segment `base` is in front of the list, and it is one free block. */
  ghost predicate SegmentAdded(mem: Memory, regions: map<Addr, nat>, segs: seq<Addr>, segs': seq<Addr>,
                               cuts: map<Addr, seq<Addr>>, cuts': map<Addr, seq<Addr>>, base: Addr)
  {
    && base !in regions && segs' == [base] + segs
    && cuts' == cuts[base := [base + SEGMENT_HEADER_WORDS, base + SEGMENT_WORDS]]
    && !InUse(mem, base + SEGMENT_HEADER_WORDS)
  }

  /** Every segment of `segs` has a block in use, `s` perhaps excepted. */
  ghost predicate AllOccupied(mem: Memory, segs: seq<Addr>, cuts: map<Addr, seq<Addr>>, s: Addr) {
    forall t :: t in segs && t != s ==> t in cuts && SomeInUse(mem, cuts[t])
  }

  lemma PlacedOccupied(mem: Memory, regions: map<Addr, nat>, head: Addr, segs: seq<Addr>, cuts: map<Addr, seq<Addr>>,
                       owner: map<Addr, Addr>, s: Addr, k: nat, size: nat)
    requires CoreOk(mem, regions, head, segs, cuts, owner) && s in segs && MINIMUM_WORDS <= size
    requires FirstFit(mem, cuts[s], k, size) && AllOccupied(mem, segs, cuts, s)
    ensures AllOccupied(AllocatedMemory(mem, cuts[s], k, size), segs, cuts[s := AllocatedCuts(cuts[s], k, size)], 0)
  {
    hide RegionsOk, SegmentsOk, SegmentsLinked, OwnerOk, Tiled, SameOutside, At, SomeInUse, InUse, AllocatedMemory,
      AllocatedCuts, NoFreeBlock;
    var mem' := AllocatedMemory(mem, cuts[s], k, size);
    SegmentFacts(mem, regions, segs, s);
    AllocatedOutside(mem, regions, s, cuts[s], k, size);
    AllocatedBlocks(mem, s, cuts[s], k, size);
    OthersOccupied(mem, mem', regions, segs, cuts, s);
  }

  lemma OccupiedButOne(mem: Memory, regions: map<Addr, nat>, segs: seq<Addr>, cuts: map<Addr, seq<Addr>>, s: Addr)
    requires RegionsOk(mem, regions) && SegmentsOk(regions, segs) && AllOccupied(mem, segs, cuts, 0)
    ensures 0 !in segs && AllOccupied(mem, segs, cuts, s)
  {
    hide SomeInUse;
  }

  /** A change inside segment `s` takes no other segment's blocks in use away. */
  lemma OthersOccupied(mem: Memory, mem': Memory, regions: map<Addr, nat>, segs: seq<Addr>, cuts: map<Addr, seq<Addr>>,
                       s: Addr)
    requires RegionsOk(mem, regions) && SegmentsOk(regions, segs) && AllTiled(mem, segs, cuts)
    requires s in segs && SameOutside(mem, mem', s) && AllOccupied(mem, segs, cuts, s)
    ensures AllOccupied(mem', segs, cuts, s)
  {
    hide RegionsOk, SegmentsOk, SameOutside, At, SomeInUse, BlockOk, CutsOk;
    forall t | t in segs && t != s
      ensures SomeInUse(mem', cuts[t])
    {
      forall a | t + SEGMENT_HEADER_WORDS <= a < t + SEGMENT_WORDS
        ensures At(mem', a) == At(mem, a)
      {
        OtherSegmentUnchanged(mem, mem', regions, segs, s, t, a);
      }
      SomeInUsePersists(mem, mem', t, cuts[t]);
    }
  }

  lemma OccupiedPersists(mem: Memory, mem': Memory, regions: map<Addr, nat>, segs: seq<Addr>, cuts: map<Addr,
                         seq<Addr>>)
    requires SegmentsOk(regions, segs) && AllTiled(mem, segs, cuts)
    requires SameBlocks(mem, mem', regions, segs) && AllOccupied(mem, segs, cuts, 0) && 0 !in regions
    ensures AllOccupied(mem', segs, cuts, 0)
  {
    hide SegmentsOk, SameBlocks, At, SomeInUse, BlockOk, CutsOk;
    forall t | t in segs
      ensures SomeInUse(mem', cuts[t])
    {
      assert t != 0 by { SegmentIsMapped(regions, segs, t); }
      SameBlocksInSegment(mem, mem', regions, segs, t);
      SomeInUsePersists(mem, mem', t, cuts[t]);
    }
  }

  lemma SegmentIsMapped(regions: map<Addr, nat>, segs: seq<Addr>, t: Addr)
    requires SegmentsOk(regions, segs) && t in segs
    ensures t in regions
  {
  }

  lemma NullIsNotMapped(mem: Memory, regions: map<Addr, nat>)
    requires RegionsOk(mem, regions)
    ensures 0 !in regions
  {
  }

  lemma OccupiedWithNew(mem: Memory, regions: map<Addr, nat>, segs: seq<Addr>, cuts: map<Addr, seq<Addr>>, base: Addr)
    requires SegmentsOk(regions, segs) && AllOccupied(mem, segs, cuts, 0) && base !in regions && 0 !in regions
    ensures AllOccupied(mem, [base] + segs, cuts[base := [base + SEGMENT_HEADER_WORDS, base + SEGMENT_WORDS]], base)
  {
    hide SomeInUse;
  }

  /** mmap, link, and one free block: the heap with one more segment. */
  lemma InsertStep(mem: Memory, mem': Memory, regions: map<Addr, nat>, head: Addr, segs: seq<Addr>,
                   cuts: map<Addr, seq<Addr>>, owner: map<Addr, Addr>, base: Addr)
    requires CoreOk(mem, regions, head, segs, cuts, owner) && AllOccupied(mem, segs, cuts, 0)
    requires FreshRange(regions, base, SEGMENT_WORDS) && NewlyMapped(mem, mem', base, SEGMENT_WORDS)
    ensures var mem'', c := NewSegment(mem', head, base), [base + SEGMENT_HEADER_WORDS, base + SEGMENT_WORDS];
            && CoreOk(mem'', regions[base := SEGMENT_WORDS], base, [base] + segs, cuts[base := c], owner)
            && AllOccupied(mem'', [base] + segs, cuts[base := c], base)
            && !InUse(mem'', base + SEGMENT_HEADER_WORDS)
            && Kept(mem, mem'', owner)
    ensures base !in regions
  {
    hide RegionsOk, SegmentsOk, SegmentsLinked, OwnerOk, Tiled, Kept, SameBlocks, NewSegment, SomeInUse, InUse,
      NewlyMapped, FreshRange;
    NullIsNotMapped(mem, regions);
    MapStep(mem, mem', regions, head, segs, cuts, owner, base, SEGMENT_WORDS);
    OccupiedPersists(mem, mem', regions, segs, cuts);
    NewSegmentStep(mem', regions, head, segs, cuts, owner, base);
    OccupiedPersists(mem', NewSegment(mem', head, base), regions, segs, cuts);
    OccupiedWithNew(NewSegment(mem', head, base), regions, segs, cuts, base);
    KeptTwice(mem, mem', NewSegment(mem', head, base), owner);
  }

  lemma KeptSame(mem: Memory, owner: map<Addr, Addr>)
    ensures Kept(mem, mem, owner)
  {
    forall b | b in owner
      ensures KeptBlock(mem, mem, b)
    {
    }
  }

  /** What the list walk reads at place j. */
  lemma ListWalk(mem: Memory, regions: map<Addr, nat>, head: Addr, segs: seq<Addr>, j: nat)
    requires RegionsOk(mem, regions) && SegmentsOk(regions, segs) && SegmentsLinked(mem, head, segs) && j < |segs|
    ensures segs[j] in segs && segs[j] != 0
    ensures segs[j] + 1 in mem && mem[segs[j] + 1] == Raw(if j + 1 < |segs| then segs[j + 1] else 0)
    ensures j + 1 < |segs| ==> segs[j + 1] != 0
  {
    hide RegionsOk, SegmentsOk;
    assert LinksOk(mem, segs, j) && segs[j] in segs;
    SegmentFacts(mem, regions, segs, segs[j]);
    if j + 1 < |segs| {
      assert segs[j + 1] in segs;
      SegmentFacts(mem, regions, segs, segs[j + 1]);
    }
  }

  /** A walk over the list stands at place j: at a segment, or at NULL after the last. */
  ghost predicate AtPlace(segs: seq<Addr>, j: nat, p: Addr) {
    if j < |segs| then p == segs[j] && p != 0 else p == 0
  }

  lemma ListStart(mem: Memory, regions: map<Addr, nat>, head: Addr, segs: seq<Addr>)
    requires RegionsOk(mem, regions) && SegmentsOk(regions, segs) && SegmentsLinked(mem, head, segs)
    ensures AtPlace(segs, 0, head)
  {
    if segs != [] { ListWalk(mem, regions, head, segs, 0); }
  }

  /** What the block walk reads at block k. */
  lemma BlockWalk(mem: Memory, s: Addr, c: seq<Addr>, k: nat)
    requires Tiled(mem, s, c) && k < Count(c)
    ensures c[k] in mem && mem[c[k]].Header? && mem[c[k]].size == c[k + 1] - c[k]
    ensures c[k] < c[k + 1] <= s + SEGMENT_WORDS
  {
    hide Tiled, CutsOk;
    BlockFacts(mem, s, c, k);
  }

  lemma NoFreeBlockNext(mem: Memory, c: seq<Addr>, k: nat, size: nat)
    requires k < Count(c) && NoFreeBlock(mem, c, k, size) && (InUse(mem, c[k]) || c[k + 1] - c[k] < size)
    ensures NoFreeBlock(mem, c, k + 1, size)
  {
  }

  /** The header of a block in use. */
  lemma BlockHeader(mem: Memory, regions: map<Addr, nat>, head: Addr, segs: seq<Addr>, cuts: map<Addr, seq<Addr>>,
                    owner: map<Addr, Addr>, b: Addr)
    requires CoreOk(mem, regions, head, segs, cuts, owner) && b in owner
    ensures b in mem && mem[b].Header?
    ensures mem[b].fromMmap ==> owner[b] == b && b in regions && b !in segs && mem[b].size == regions[b]
    ensures !mem[b].fromMmap ==> owner[b] in segs && IsBlock(cuts[owner[b]], b) && InUse(mem, b)
  {
    hide RegionsOk, SegmentsOk, SegmentsLinked, OwnerOk, Tiled, CutsOk;
    OwnerIs(mem, regions, segs, cuts, owner, b);
    if owner[b] != b {
      var i := OwnedIndex(mem, regions, segs, cuts, owner, owner[b], b);
      BlockFacts(mem, owner[b], cuts[owner[b]], i);
    }
  }

  /** Unmapping a block with a mapping of its own. */
  lemma DropBigBlockStep(mem: Memory, regions: map<Addr, nat>, head: Addr, segs: seq<Addr>, cuts: map<Addr, seq<Addr>>,
                         owner: map<Addr, Addr>, b: Addr)
    requires CoreOk(mem, regions, head, segs, cuts, owner) && AllOccupied(mem, segs, cuts, 0)
    requires b in owner && owner[b] == b && b in regions && b !in segs
    ensures var mem' := Unmapped(mem, b, regions[b]);
            && CoreOk(mem', regions - {b}, head, segs, cuts, owner - {b}) && AllOccupied(mem', segs, cuts, 0)
            && Kept(mem, mem', owner - {b})
  {
    hide RegionsOk, SegmentsOk, OwnerOk, AllTiled, Kept, At, Unmapped, SomeInUse, AllOccupied;
    var mem', regions', owner' := Unmapped(mem, b, regions[b]), regions - {b}, owner - {b};
    DropBigBlockOwners(mem, regions, head, segs, cuts, owner, b);
    UnmappedRegions(mem, regions, b);
    FewerSegments(regions, segs, b);
    forall r, a | r in regions' && r <= a < r + regions'[r]
      ensures At(mem', a) == At(mem, a)
    {
      RegionsApart(mem, regions, r, b);
      UnmappedElsewhere(mem, b, regions[b], a);
    }
    NullIsNotMapped(mem, regions);
    SameBlocksSameOwners(mem, mem', regions', segs, cuts, owner');
    OccupiedPersists(mem, mem', regions', segs, cuts);
    forall i | 0 <= i < |segs|
      ensures LinksOk(mem', segs, i)
    {
      assert LinksOk(mem, segs, i) && segs[i] in segs;
      SegmentFacts(mem, regions', segs, segs[i]);
    }
  }

  lemma DropBigBlockOwners(mem: Memory, regions: map<Addr, nat>, head: Addr, segs: seq<Addr>,
                           cuts: map<Addr, seq<Addr>>, owner: map<Addr, Addr>, b: Addr)
    requires CoreOk(mem, regions, head, segs, cuts, owner)
    requires b in owner && owner[b] == b && b in regions && b !in segs
    ensures OwnerOk(mem, regions - {b}, segs, cuts, owner - {b})
  {
    hide RegionsOk, SegmentsOk, SegmentsLinked, AllTiled, InUse, IsBlock, At;
    forall q | q in owner && q != b
      ensures OwnedBlock(mem, regions - {b}, segs, cuts, q, owner[q])
    {
      assert OwnedBlock(mem, regions, segs, cuts, q, owner[q]);
    }
    forall s, i | s in segs && 0 <= i < Count(cuts[s]) && InUse(mem, cuts[s][i])
      ensures cuts[s][i] != b
    {
      assert owner[cuts[s][i]] == s;
    }
  }

  /** Writing a word among the blocks of a segment does not touch the segment list. */
  lemma BlockWriteKeepsList(mem: Memory, regions: map<Addr, nat>, head: Addr, segs: seq<Addr>, s: Addr, a: Addr,
                            w: Word)
    requires RegionsOk(mem, regions) && SegmentsOk(regions, segs) && SegmentsLinked(mem, head, segs)
    requires s in segs && s + SEGMENT_HEADER_WORDS <= a < s + SEGMENT_WORDS
    ensures RegionsOk(mem[a := w], regions) && SegmentsLinked(mem[a := w], head, segs)
  {
    hide RegionsOk, SegmentsOk, At;
    SegmentFacts(mem, regions, segs, s);
    WriteElsewhere(mem, a, w);
    WriteKeepsRegions(mem, regions, a, w);
    var mem' := mem[a := w];
    forall i | 0 <= i < |segs|
      ensures LinksOk(mem', segs, i)
    {
      assert LinksOk(mem, segs, i) && segs[i] in segs;
      NotALinkWord(mem, regions, segs, segs[i], s, a);
    }
  }

  lemma FirstCut(s: Addr, c: seq<Addr>, i: nat)
    requires CutsOk(s, c) && i < |c|
    ensures i == 0 <==> c[i] == s + SEGMENT_HEADER_WORDS
  {
  }

  lemma LastCut(s: Addr, c: seq<Addr>)
    requires CutsOk(s, c)
    ensures Count(c) == |c| - 1 && c[Count(c)] == s + SEGMENT_WORDS
  {
  }

  /** What free reads in the headers next to block i. */
  lemma MergeNeighbours(mem: Memory, s: Addr, c: seq<Addr>, i: nat)
    requires Tiled(mem, s, c) && i < Count(c)
    ensures c[i] in mem && mem[c[i]].Header? && mem[c[i]].prevInUse == (i == 0 || InUse(mem, c[i - 1]))
    ensures i > 0 && !InUse(mem, c[i - 1]) ==> c[i] - 1 in mem && mem[c[i] - 1] == Raw(c[i] - c[i - 1])
    ensures (i + 1 == Count(c)) == (c[i + 1] == s + SEGMENT_WORDS)
    ensures i + 1 < Count(c) ==> c[i + 1] in mem && mem[c[i + 1]].Header? && mem[c[i + 1]].size == c[i + 2] - c[i + 1]
  {
    hide CutsOk;
    BlockFacts(mem, s, c, i);
    if i > 0 { BlockFacts(mem, s, c, i - 1); }
    if i + 1 < Count(c) { BlockFacts(mem, s, c, i + 1); } else { LastCut(s, c); }
  }

  /** The merged run lies inside the segment. */
  lemma MergedRun(mem: Memory, s: Addr, c: seq<Addr>, i: nat)
    requires Tiled(mem, s, c) && i < Count(c) && InUse(mem, c[i])
    ensures var lo, hi := MergeFrom(mem, c, i), MergeTo(mem, c, i);
            && hi <= Count(c)
            && s + SEGMENT_HEADER_WORDS <= c[lo] && c[lo] + MINIMUM_WORDS <= c[hi] <= s + SEGMENT_WORDS
            && (hi == Count(c)) == (c[hi] == s + SEGMENT_WORDS)
            && (hi < Count(c) ==> c[hi] in mem && mem[c[hi]].Header?)
  {
    var lo, hi := MergeFrom(mem, c, i), MergeTo(mem, c, i);
    hide CutsOk, BlockOk, InUse, MergeFrom, MergeTo;
    MergeBounds(mem, s, c, i);
    RunFacts(mem, s, c, lo, hi);
    if hi < Count(c) { BlockWalk(mem, s, c, hi); } else { LastCut(s, c); }
  }

  lemma ListNeighbours(mem: Memory, regions: map<Addr, nat>, head: Addr, segs: seq<Addr>, j: nat)
    requires RegionsOk(mem, regions) && SegmentsOk(regions, segs) && SegmentsLinked(mem, head, segs) && j < |segs|
    ensures segs[j] in mem && mem[segs[j]] == Raw(if j == 0 then 0 else segs[j - 1])
    ensures segs[j] + 1 in mem && mem[segs[j] + 1] == Raw(if j + 1 < |segs| then segs[j + 1] else 0)
    ensures (head == segs[j]) == (j == 0)
    ensures j + 1 < |segs| ==> segs[j + 1] != 0 && segs[j + 1] != segs[j]
  {
    ListWalk(mem, regions, head, segs, j);
    assert LinksOk(mem, segs, j) && segs[j] in segs;
    assert segs[0] in segs;
    hide RegionsOk;
    SegmentFacts(mem, regions, segs, segs[j]);
  }

  /** Everything about dropping a segment without a block in use. */
  lemma DropSegment(mem: Memory, regions: map<Addr, nat>, head: Addr, segs: seq<Addr>, cuts: map<Addr, seq<Addr>>,
                    owner: map<Addr, Addr>, j: nat)
    requires CoreOk(mem, regions, head, segs, cuts, owner)
    requires j < |segs| && segs[j] in cuts && !SomeInUse(mem, cuts[segs[j]]) && AllOccupied(mem, segs, cuts, segs[j])
    ensures var mem' := Unmapped(Unlinked(mem, segs, j), segs[j], SEGMENT_WORDS);
            && CoreOk(mem', regions - {segs[j]}, HeadWithout(head, segs, j), RemoveAt(segs, j), cuts, owner)
            && AllOccupied(mem', RemoveAt(segs, j), cuts, 0)
            && Kept(mem, mem', owner)
    ensures segs[j] !in RemoveAt(segs, j)
  {
    hide CoreOk, AllOccupied, Kept, SameBlocks, Unlinked, Unmapped, RemoveAt, SomeInUse;
    CoreParts(mem, regions, head, segs, cuts, owner, segs[j]);
    hide RegionsOk, SegmentsLinked;
    DropSegmentStep(mem, regions, head, segs, cuts, owner, j);
    DropSegmentOccupied(mem, regions, head, segs, cuts, owner, j);
    WithoutMembers(segs, j);
  }

  /** When the merged block is the whole segment. */
  lemma WholeSegment(mem: Memory, s: Addr, c: seq<Addr>, i: nat)
    requires Tiled(mem, s, c) && i < Count(c) && InUse(mem, c[i])
    ensures var lo, hi := MergeFrom(mem, c, i), MergeTo(mem, c, i);
            && hi <= Count(c)
            && (|FreedCuts(mem, s, c, i)| == 2 <==>
                c[hi] == s + SEGMENT_WORDS && c[hi] - c[lo] == SEGMENT_WORDS - SEGMENT_HEADER_WORDS)
  {
    var lo, hi := MergeFrom(mem, c, i), MergeTo(mem, c, i);
    hide CutsOk, BlockOk, InUse, MergeFrom, MergeTo;
    MergedRun(mem, s, c, i);
    MergeBounds(mem, s, c, i);
    FirstCut(s, c, lo);
  }

  /** FreeStep, and which segments still have a block in use. */
  lemma FreeStepOccupied(mem: Memory, regions: map<Addr, nat>, head: Addr, segs: seq<Addr>,
                         cuts: map<Addr, seq<Addr>>, owner: map<Addr, Addr>, s: Addr, i: nat)
    requires CoreOk(mem, regions, head, segs, cuts, owner) && AllOccupied(mem, segs, cuts, 0) && s in segs
    requires i < Count(cuts[s]) && InUse(mem, cuts[s][i])
    ensures var mem', c' := FreedMemory(mem, s, cuts[s], i), FreedCuts(mem, s, cuts[s], i);
            && AllOccupied(mem', segs, cuts[s := c'], s)
            && (|c'| > 2 ==> AllOccupied(mem', segs, cuts[s := c'], 0))
            && (|c'| == 2 ==> !SomeInUse(mem', c'))
            && |c'| >= 2
  {
    hide RegionsOk, SegmentsOk, SegmentsLinked, OwnerOk, Tiled, SameOutside, At, SomeInUse, InUse, FreedMemory,
      MergeFrom, MergeTo;
    var mem', c' := FreedMemory(mem, s, cuts[s], i), FreedCuts(mem, s, cuts[s], i);
    SegmentFacts(mem, regions, segs, s);
    FreedTiling(mem, s, cuts[s], i);
    FreedOutside(mem, regions, s, cuts[s], i);
    OccupiedButOne(mem, regions, segs, cuts, s);
    OthersOccupied(mem, mem', regions, segs, cuts, s);
    assert |c'| >= 2 by { AtLeastOneBlock(mem', s, c'); }
  }

  lemma AtLeastOneBlock(mem: Memory, s: Addr, c: seq<Addr>)
    requires Tiled(mem, s, c)
    ensures |c| >= 2
  {
  }

  lemma DropSegmentOccupied(mem: Memory, regions: map<Addr, nat>, head: Addr, segs: seq<Addr>,
                            cuts: map<Addr, seq<Addr>>, owner: map<Addr, Addr>, j: nat)
    requires CoreOk(mem, regions, head, segs, cuts, owner)
    requires j < |segs| && AllOccupied(mem, segs, cuts, segs[j])
    ensures AllOccupied(Unmapped(Unlinked(mem, segs, j), segs[j], SEGMENT_WORDS), RemoveAt(segs, j), cuts, 0)
  {
    hide RegionsOk, SegmentsLinked, OwnerOk, Tiled, SameBlocks, SomeInUse, Unlinked, Unmapped, RemoveAt;
    UnlinkKeepsList(mem, regions, head, segs, j);
    FewerSegments(regions, RemoveAt(segs, j), segs[j]);
    NullIsNotMapped(mem, regions);
    UnmappedRegions(mem, regions, segs[j]);
    UnlinkedSameBlocks(mem, regions, segs, j);
    OccupiedPersists(mem, Unmapped(Unlinked(mem, segs, j), segs[j], SEGMENT_WORDS), regions - {segs[j]},
                     RemoveAt(segs, j), cuts);
  }

  lemma FreshSegmentFits(mem: Memory, cuts: map<Addr, seq<Addr>>, s: Addr, size: nat)
    requires s in cuts && cuts[s] == [s + SEGMENT_HEADER_WORDS, s + SEGMENT_WORDS]
    requires !InUse(mem, s + SEGMENT_HEADER_WORDS) && size <= SEGMENT_WORDS - SEGMENT_HEADER_WORDS
    ensures !NoFitIn(mem, cuts, s, size)
    ensures forall k :: FirstFit(mem, cuts[s], k, size) ==> k == 0
  {
    var c := cuts[s];
    assert Count(c) == 1 && !InUse(mem, c[0]) && size <= c[1] - c[0];
    assert !(InUse(mem, c[0]) || c[1] - c[0] < size);
  }

  // ---------------------------------------------------------------- what the client writes

  lemma StoreKeepsTiling(mem: Memory, s: Addr, c: seq<Addr>, i: nat, a: Addr, w: Word)
    requires Tiled(mem, s, c) && i < Count(c) && InUse(mem, c[i]) && c[i] < a < c[i + 1] && a in mem
    ensures Tiled(mem[a := w], s, c)
    ensures forall j :: 0 <= j < Count(c) ==> At(mem[a := w], c[j]) == At(mem, c[j])
  {
    hide CutsOk, BlockOk;
    var mem' := mem[a := w];
    forall j | 0 <= j < Count(c)
      ensures BlockOk(mem', c, j) && At(mem', c[j]) == At(mem, c[j])
    {
      StoreKeepsBlock(mem, s, c, i, a, w, j);
    }
  }

  lemma StoreKeepsBlock(mem: Memory, s: Addr, c: seq<Addr>, i: nat, a: Addr, w: Word, j: nat)
    requires Tiled(mem, s, c) && i < Count(c) && InUse(mem, c[i]) && c[i] < a < c[i + 1] && j < Count(c)
    ensures BlockOk(mem[a := w], c, j) && At(mem[a := w], c[j]) == At(mem, c[j])
  {
    hide Tiled, CutsOk, At;
    WriteElsewhere(mem, a, w);
    BlockFacts(mem, s, c, j);
    if j != i { BlocksApart(mem, s, c, i, j); }
    if j > 0 && j - 1 != i { BlocksApart(mem, s, c, i, j - 1); }
    if j > 0 { BlockFacts(mem, s, c, j - 1); }
  }

  /** A store into a block of a segment. */
  lemma SmallStoreStep(mem: Memory, regions: map<Addr, nat>, head: Addr, segs: seq<Addr>, cuts: map<Addr, seq<Addr>>,
                       owner: map<Addr, Addr>, b: Addr, a: Addr, w: Word)
    requires CoreOk(mem, regions, head, segs, cuts, owner)
    requires b in owner && owner[b] != b && b < a < b + Size(mem, b)
    ensures CoreOk(mem[a := w], regions, head, segs, cuts, owner) && Kept(mem, mem[a := w], owner - {b})
  {
    hide RegionsOk, SegmentsOk, SegmentsLinked, OwnerOk, Tiled, CutsOk, SameOutside, Kept, At, Size;
    var mem', s := mem[a := w], owner[b];
    BlockInRegion(mem, regions, segs, cuts, owner, b);
    var i := OwnedIndex(mem, regions, segs, cuts, owner, s, b);
    BlockFacts(mem, s, cuts[s], i);
    SegmentFacts(mem, regions, segs, s);
    StoreKeepsTiling(mem, s, cuts[s], i, a, w);
    StoreOutside(mem, s, a, w);
    OtherSegmentsKeepTiling(mem, mem', regions, head, segs, cuts, s);
    SmallStoreOwners(mem, regions, segs, cuts, owner, s, i, a, w);
    WriteElsewhere(mem, a, w);
    if i + 1 < Count(cuts[s]) {
      assert Size(mem', cuts[s][i + 1]) == Size(mem, cuts[s][i + 1]) by { SameSize(mem, mem', cuts[s][i + 1]); }
    }
    StoreElsewhere(mem, regions, segs, cuts, owner, b, i);
    KeptElsewhere(mem, mem', regions, segs, cuts, owner, s, i, i + 1, owner - {b});
  }

  lemma SameSize(mem: Memory, mem': Memory, b: Addr)
    requires At(mem', b) == At(mem, b)
    ensures Size(mem', b) == Size(mem, b)
  {
  }

  lemma StoreOutside(mem: Memory, s: Addr, a: Addr, w: Word)
    requires s + SEGMENT_HEADER_WORDS <= a < s + SEGMENT_WORDS && a in mem
    ensures SameOutside(mem, mem[a := w], s)
  {
    hide At;
    WriteElsewhere(mem, a, w);
  }

  lemma SmallStoreOwners(mem: Memory, regions: map<Addr, nat>, segs: seq<Addr>, cuts: map<Addr, seq<Addr>>,
                         owner: map<Addr, Addr>, s: Addr, i: nat, a: Addr, w: Word)
    requires RegionsOk(mem, regions) && SegmentsOk(regions, segs) && OwnerOk(mem, regions, segs, cuts, owner)
    requires AllTiled(mem, segs, cuts) && s in segs && i < Count(cuts[s]) && InUse(mem, cuts[s][i])
    requires cuts[s][i] < a < cuts[s][i + 1] && a in mem && SameOutside(mem, mem[a := w], s)
    ensures OwnerOk(mem[a := w], regions, segs, cuts, owner)
  {
    hide RegionsOk, SegmentsOk, OwnerOk, Tiled, CutsOk, SameOutside, At;
    var mem', c := mem[a := w], cuts[s];
    StoreKeepsTiling(mem, s, c, i, a, w);
    forall q | q in owner && owner[q] == s
      ensures q != s && IsBlock(c, q) && InUse(mem', q)
    {
      var j := OwnedIndex(mem, regions, segs, cuts, owner, s, q);
      BlockFacts(mem, s, c, j);
    }
    forall j | 0 <= j < Count(c) && InUse(mem', c[j])
      ensures c[j] in owner && owner[c[j]] == s
    {
      InUseIsOwned(mem, regions, segs, cuts, owner, s, j);
    }
    OwnerStep(mem, mem', regions, segs, cuts, owner, s, c, owner);
    assert cuts[s := c] == cuts;
  }

  /** Block i of its segment is the only block in use between its cut points. */
  lemma StoreElsewhere(mem: Memory, regions: map<Addr, nat>, segs: seq<Addr>, cuts: map<Addr, seq<Addr>>,
                       owner: map<Addr, Addr>, b: Addr, i: nat)
    requires RegionsOk(mem, regions) && SegmentsOk(regions, segs) && OwnerOk(mem, regions, segs, cuts, owner)
    requires AllTiled(mem, segs, cuts)
    requires b in owner && owner[b] in segs && i < Count(cuts[owner[b]]) && cuts[owner[b]][i] == b
    ensures forall q :: q in owner && q != b ==> !(b <= q < cuts[owner[b]][i + 1])
  {
    hide RegionsOk, SegmentsOk, OwnerOk, Tiled, CutsOk;
    var s := owner[b];
    BlockFacts(mem, s, cuts[s], i);
    forall q | q in owner && q != b
      ensures !(b <= q < cuts[s][i + 1])
    {
      if owner[q] == s {
        var j := OwnedIndex(mem, regions, segs, cuts, owner, s, q);
        BlocksApart(mem, s, cuts[s], i, j);
      } else {
        OwnedElsewhereApart(mem, regions, segs, cuts, owner, s, q);
      }
    }
  }

  /** A store into a block with a mapping of its own. */
  lemma BigStoreStep(mem: Memory, regions: map<Addr, nat>, head: Addr, segs: seq<Addr>, cuts: map<Addr, seq<Addr>>,
                     owner: map<Addr, Addr>, b: Addr, a: Addr, w: Word)
    requires CoreOk(mem, regions, head, segs, cuts, owner)
    requires b in owner && owner[b] == b && b < a < b + Size(mem, b)
    ensures CoreOk(mem[a := w], regions, head, segs, cuts, owner) && Kept(mem, mem[a := w], owner - {b})
    ensures SameBlocks(mem, mem[a := w], regions - {b}, segs)
  {
    hide RegionsOk, SegmentsOk, OwnerOk, AllTiled, Kept, At, Size;
    var mem', regions', owner' := mem[a := w], regions - {b}, owner - {b};
    BlockInRegion(mem, regions, segs, cuts, owner, b);
    DropBigBlockOwners(mem, regions, head, segs, cuts, owner, b);
    UnmappedRegions(mem, regions, b);
    FewerSegments(regions, segs, b);
    WriteElsewhere(mem, a, w);
    forall r | r in regions'
      ensures a < r || r + regions'[r] <= a
    {
      RegionsApart(mem, regions, r, b);
    }
    SameBlocksSameOwners(mem, mem', regions', segs, cuts, owner');
    OwnerIs(mem, regions, segs, cuts, owner, b);
    BigStoreOwners(mem', regions, segs, cuts, owner, b);
    WriteKeepsRegions(mem, regions, a, w);
    forall i | 0 <= i < |segs|
      ensures LinksOk(mem', segs, i)
    {
      assert LinksOk(mem, segs, i) && segs[i] in segs;
      SegmentFacts(mem, regions', segs, segs[i]);
    }
  }

  lemma BigStoreOwners(mem: Memory, regions: map<Addr, nat>, segs: seq<Addr>, cuts: map<Addr, seq<Addr>>,
                       owner: map<Addr, Addr>, b: Addr)
    requires b in owner && OwnerOk(mem, regions - {b}, segs, cuts, owner - {b})
    requires owner[b] == b && OwnedBlock(mem, regions, segs, cuts, b, b)
    ensures OwnerOk(mem, regions, segs, cuts, owner)
  {
    hide InUse, IsBlock, At;
    forall q | q in owner && q != b
      ensures OwnedBlock(mem, regions, segs, cuts, q, owner[q])
    {
      assert OwnedBlock(mem, regions - {b}, segs, cuts, q, (owner - {b})[q]);
    }
  }

  /** Whatever a client stores in a block it holds, the heap stays well formed. */
  lemma StoreStep(mem: Memory, regions: map<Addr, nat>, head: Addr, segs: seq<Addr>, cuts: map<Addr, seq<Addr>>,
                  owner: map<Addr, Addr>, b: Addr, a: Addr, w: Word)
    requires CoreOk(mem, regions, head, segs, cuts, owner) && AllOccupied(mem, segs, cuts, 0)
    requires b in owner && b < a < b + Size(mem, b)
    ensures CoreOk(mem[a := w], regions, head, segs, cuts, owner) && AllOccupied(mem[a := w], segs, cuts, 0)
    ensures Kept(mem, mem[a := w], owner - {b})
  {
    hide CoreOk, Kept, SomeInUse, Size, SameBlocks;
    if owner[b] == b {
      BigStoreStep(mem, regions, head, segs, cuts, owner, b, a, w);
    } else {
      SmallStoreStep(mem, regions, head, segs, cuts, owner, b, a, w);
    }
    CoreParts(mem, regions, head, segs, cuts, owner, 0);
    forall t | t in segs
      ensures SomeInUse(mem[a := w], cuts[t])
    {
      CoreParts(mem, regions, head, segs, cuts, owner, t);
      hide RegionsOk, SegmentsOk, SegmentsLinked, Tiled;
      StoreOccupied(mem, regions, head, segs, cuts, owner, b, a, w, t);
    }
  }

  lemma StoreOccupied(mem: Memory, regions: map<Addr, nat>, head: Addr, segs: seq<Addr>, cuts: map<Addr, seq<Addr>>,
                      owner: map<Addr, Addr>, b: Addr, a: Addr, w: Word, t: Addr)
    requires CoreOk(mem, regions, head, segs, cuts, owner)
    requires b in owner && b < a < b + Size(mem, b) && t in segs && SomeInUse(mem, cuts[t])
    ensures SomeInUse(mem[a := w], cuts[t])
  {
    hide RegionsOk, SegmentsOk, SegmentsLinked, OwnerOk, Tiled, At, Size;
    var i :| 0 <= i < Count(cuts[t]) && InUse(mem, cuts[t][i]);
    var q := cuts[t][i];
    InUseIsOwned(mem, regions, segs, cuts, owner, t, i);
    if q == a {
      LiveBlocksDisjoint(mem, regions, head, segs, cuts, owner, b, q);
    }
    WriteElsewhere(mem, a, w);
    assert InUse(mem[a := w], cuts[t][i]);
  }

  // ---------------------------------------------------------------- what holds in every state between calls

  /** Two blocks in use never share a word, and each lies inside one mapping, clear of the segment header. */
  lemma LiveBlocksDisjoint(mem: Memory, regions: map<Addr, nat>, head: Addr, segs: seq<Addr>,
                           cuts: map<Addr, seq<Addr>>, owner: map<Addr, Addr>, b: Addr, q: Addr)
    requires CoreOk(mem, regions, head, segs, cuts, owner) && b in owner && q in owner
    ensures b != q ==> b + Size(mem, b) <= q || q + Size(mem, q) <= b
    ensures 0 < Size(mem, b) && owner[b] in regions
    ensures b + Size(mem, b) <= owner[b] + regions[owner[b]]
    ensures owner[b] + (if owner[b] in segs then SEGMENT_HEADER_WORDS else 0) <= b
  {
    hide RegionsOk, SegmentsOk, SegmentsLinked, OwnerOk, Tiled, Size;
    BlockInRegion(mem, regions, segs, cuts, owner, b);
    BlockInRegion(mem, regions, segs, cuts, owner, q);
    SizeIsPositive(mem, regions, segs, cuts, owner, b);
    if b == q {
    } else if owner[b] != owner[q] {
      RegionsApart(mem, regions, owner[b], owner[q]);
    } else if owner[b] in segs {
      var i := OwnedIndex(mem, regions, segs, cuts, owner, owner[b], b);
      var j := OwnedIndex(mem, regions, segs, cuts, owner, owner[b], q);
      BlocksDisjoint(mem, owner[b], cuts[owner[b]], i, j);
    }
  }

  lemma BlocksDisjoint(mem: Memory, s: Addr, c: seq<Addr>, i: nat, j: nat)
    requires Tiled(mem, s, c) && i < Count(c) && j < Count(c) && i != j
    ensures c[i] + Size(mem, c[i]) <= c[j] || c[j] + Size(mem, c[j]) <= c[i]
  {
    hide Tiled, CutsOk;
    BlockFacts(mem, s, c, i);
    BlockFacts(mem, s, c, j);
    BlocksApart(mem, s, c, i, j);
  }

  /** Once every block of the segments has been freed, in whatever order, every segment has been unmapped. */
  lemma NothingIsLost(mem: Memory, regions: map<Addr, nat>, head: Addr, segs: seq<Addr>, cuts: map<Addr, seq<Addr>>,
                      owner: map<Addr, Addr>)
    requires CoreOk(mem, regions, head, segs, cuts, owner) && AllOccupied(mem, segs, cuts, 0)
    ensures (forall b :: b in owner ==> owner[b] == b) <==> segs == []
    ensures segs == [] ==> head == 0 && regions.Keys == owner.Keys
    ensures forall r :: r in regions <==> HoldsBlock(owner, r)
  {
    forall r ensures r in regions <==> HoldsBlock(owner, r) {
      RegionInUse(mem, regions, head, segs, cuts, owner, r);
    }
    hide RegionsOk, SegmentsOk, OwnerOk, Tiled, InUse;
    if segs != [] {
      var s := segs[0];
      assert s in segs;
      assert s != 0 by { SegmentFacts(mem, regions, segs, s); }
      var i :| 0 <= i < Count(cuts[s]) && InUse(mem, cuts[s][i]);
      InUseIsOwned(mem, regions, segs, cuts, owner, s, i);
      BlockFacts(mem, s, cuts[s], i);
    } else {
      BigBlocksOnly(mem, regions, segs, cuts, owner);
    }
  }

  lemma BigBlocksOnly(mem: Memory, regions: map<Addr, nat>, segs: seq<Addr>, cuts: map<Addr, seq<Addr>>,
                      owner: map<Addr, Addr>)
    requires OwnerOk(mem, regions, segs, cuts, owner) && segs == []
    ensures regions.Keys == owner.Keys && forall b :: b in owner ==> owner[b] == b
  {
    forall b | b in owner
      ensures owner[b] == b && b in regions
    {
      assert OwnedBlock(mem, regions, segs, cuts, b, owner[b]);
    }
    assert forall r :: r in regions.Keys <==> r in owner.Keys;
  }

  /** What the operations need to know of a well-formed heap before they touch segment `s`. */
  /** A block in use lies in the range mapped at r. */
  ghost predicate HoldsBlock(owner: map<Addr, Addr>, r: Addr) {
    exists b :: b in owner && owner[b] == r
  }

  /** A range is mapped exactly as long as a block in it is in use. */
  lemma RegionInUse(mem: Memory, regions: map<Addr, nat>, head: Addr, segs: seq<Addr>, cuts: map<Addr, seq<Addr>>,
                    owner: map<Addr, Addr>, r: Addr)
    requires CoreOk(mem, regions, head, segs, cuts, owner) && AllOccupied(mem, segs, cuts, 0)
    ensures r in regions <==> HoldsBlock(owner, r)
  {
    hide RegionsOk, SegmentsOk, SegmentsLinked, Tiled, InUse, OwnerOk;
    if r in regions {
      if r in segs {
        assert r != 0 by { SegmentFacts(mem, regions, segs, r); }
        var i :| 0 <= i < Count(cuts[r]) && InUse(mem, cuts[r][i]);
        InUseIsOwned(mem, regions, segs, cuts, owner, r, i);
        assert owner[cuts[r][i]] == r;
      } else {
        assert r in owner && owner[r] == r by { OwnBlock(mem, regions, segs, cuts, owner, r); }
      }
    }
    if HoldsBlock(owner, r) {
      var b :| b in owner && owner[b] == r;
      BlockInRegion(mem, regions, segs, cuts, owner, b);
    }
  }

  lemma OwnBlock(mem: Memory, regions: map<Addr, nat>, segs: seq<Addr>, cuts: map<Addr, seq<Addr>>,
                 owner: map<Addr, Addr>, r: Addr)
    requires OwnerOk(mem, regions, segs, cuts, owner) && r in regions && r !in segs
    ensures r in owner && owner[r] == r
  {
  }

  lemma CoreParts(mem: Memory, regions: map<Addr, nat>, head: Addr, segs: seq<Addr>, cuts: map<Addr, seq<Addr>>,
                  owner: map<Addr, Addr>, s: Addr)
    requires CoreOk(mem, regions, head, segs, cuts, owner)
    ensures RegionsOk(mem, regions) && SegmentsOk(regions, segs) && SegmentsLinked(mem, head, segs)
    ensures s in segs ==> 0 < s && s in regions && regions[s] == SEGMENT_WORDS && s in cuts && Tiled(mem, s, cuts[s])
  {
    hide RegionsOk, SegmentsOk, Tiled;
    if s in segs { SegmentFacts(mem, regions, segs, s); }
  }

  // ---------------------------------------------------------------- the allocator

  /** The block size in terms of the aligned request. */
  lemma BlockBytesIs(size: nat)
    ensures var aligned := AlignUp(size, 8);
            BlockBytes(size) == if aligned < MEM_BLOCK_MINIMUM then MEM_BLOCK_MINIMUM
                                else (aligned + BLOCK_HEADER_BYTES) % SIZE_T_RANGE
  {
  }

  /** The block at b has been cut from a free block of n words: it has `words` words and leaves the others as a free
      block, with its footer, unless that would have less than two. */
  ghost predicate CutFrom(mem: Memory, b: Addr, n: nat, words: nat) {
    words <= n &&
    if n - words < 2 then Size(mem, b) == n
    else
      && Size(mem, b) == words
      && At(mem, b + words) == Header(false, true, false, n - words)
      && At(mem, b + n - 1) == Raw(n - words)
  }

  lemma AllocatedIsCut(mem: Memory, s: Addr, c: seq<Addr>, k: nat, size: nat)
    requires Tiled(mem, s, c) && k < Count(c) && !InUse(mem, c[k]) && MINIMUM_WORDS <= size <= c[k + 1] - c[k]
    ensures Size(mem, c[k]) == c[k + 1] - c[k] && CutFrom(AllocatedMemory(mem, c, k, size), c[k], c[k + 1] - c[k], size)
  {
    BlockFacts(mem, s, c, k);
    if k + 1 < Count(c) { BlockFacts(mem, s, c, k + 1); }
  }

  class Allocator {
    var mem: Memory
    var segmentList: Addr                  // g_pSegmentList
    ghost var regions: map<Addr, nat>      // what mmap has handed out and not taken back
    ghost var segs: seq<Addr>              // the segments, in list order
    ghost var cuts: map<Addr, seq<Addr>>   // where the blocks of each segment start and end
    ghost var owner: map<Addr, Addr>       // the blocks in use, and the mapping each lies in
    ghost var failures: nat                // how many calls of mmap have failed

    ghost predicate Core()
      reads this
    {
      CoreOk(mem, regions, segmentList, segs, cuts, owner)
    }

    /** What holds between calls: a well-formed heap in which no listed segment is empty. */
    ghost predicate Valid()
      reads this
    {
      Core() && AllOccupied(mem, segs, cuts, 0)
    }

    constructor ()
      ensures Valid() && owner == map[] && regions == map[]
    {
      mem, segmentList := map[], 0;
      regions, segs, cuts, owner, failures := map[], [], map[], map[], 0;
    }

    /** mmap fails, which is counted, or delivers some fresh, zeroed, page-aligned range. */
    method Mmap(n: nat) returns (addr: Option<Addr>)
      requires RegionsOk(mem, regions)
      modifies this`mem, this`failures
      ensures addr.None? ==> mem == old(mem)
      ensures addr.Some? ==> FreshRange(regions, addr.value, n) && NewlyMapped(old(mem), mem, addr.value, n)
      ensures failures == old(failures) + if addr.None? then 1 else 0
    {
      var base: int := *;
      if 0 < base <= ADDRESS_LIMIT - n && base % PAGE_WORDS == 0 && n > 0 && forall a :: base <= a < base + n ==> a !in mem {
        forall r | r in regions
          ensures r + regions[r] <= base || base + n <= r
        {
          var a := if r < base then base else r;
          assert a < r + regions[r] ==> a in mem;
        }
        mem := mem + Zeroed(base, n);
        return Some(base);
      }
      failures := failures + 1;
      return None;
    }

    method Malloc(size: nat) returns (ptr: Addr)
      requires Valid() && size <= SIZE_T_RANGE - 16
      modifies this
      ensures Valid()
      ensures failures == old(failures) + if ptr == 0 then 1 else 0
      ensures ptr == 0 ==> owner == old(owner)
      ensures ptr != 0 ==>
                && ptr - 1 !in old(owner) && ptr - 1 in owner
                && owner == old(owner)[ptr - 1 := owner[ptr - 1]]
                && size + BLOCK_HEADER_BYTES <= 8 * Size(mem, ptr - 1)
      ensures Kept(old(mem), mem, old(owner))
      ensures THRESHOLD_FOR_MMAP <= BlockBytes(size)
              || NoFit(old(mem), old(segs), old(cuts), |old(segs)|, BlockBytes(size) / 8)
              || (ptr != 0 && regions == old(regions))
      ensures ptr != 0 && BlockBytes(size) < 262144 ==>
                && 8 * Size(mem, ptr - 1) < BlockBytes(size) + 16
                && if regions == old(regions) then
                     !InUse(old(mem), ptr - 1) && CutFrom(mem, ptr - 1, Size(old(mem), ptr - 1), BlockBytes(size) / 8)
                   else
                     regions == old(regions)[ptr - 3 := 262144] && CutFrom(mem, ptr - 1, 262142, BlockBytes(size) / 8)
      ensures ptr != 0 && 262144 <= BlockBytes(size) ==>
                && 8 * Size(mem, ptr - 1) < BlockBytes(size) + 4096 && Size(mem, ptr - 1) % 512 == 0
                && regions == old(regions)[ptr - 1 := Size(mem, ptr - 1)] && segs == old(segs)
    {
      hide CoreOk, AllOccupied, Kept, NoFit, Size, BlockBytes;
      BlockServesRequest(size);
      BlockBytesIs(size);
      var bytes := AlignUp(size, 8);
      if bytes < MEM_BLOCK_MINIMUM {
        bytes := MEM_BLOCK_MINIMUM;
      } else {
        bytes := (bytes + BLOCK_HEADER_BYTES) % SIZE_T_RANGE;
        if bytes >= THRESHOLD_FOR_MMAP {
          ptr := MallocByMmap(bytes);
          return;
        }
      }
      ghost var fit;
      ptr, fit := MallocBySegmentList(bytes / 8);
    }

    method MallocByMmap(bytes: nat) returns (ptr: Addr)
      requires Valid() && THRESHOLD_FOR_MMAP <= bytes < SIZE_T_RANGE
      modifies this
      ensures Valid() && segs == old(segs) && cuts == old(cuts)
      ensures failures == old(failures) + if ptr == 0 then 1 else 0
      ensures ptr == 0 ==> owner == old(owner)
      ensures ptr != 0 ==>
                && ptr - 1 !in old(owner) && owner == old(owner)[ptr - 1 := ptr - 1]
                && bytes <= 8 * Size(mem, ptr - 1) < bytes + 4096 && Size(mem, ptr - 1) % 512 == 0
                && At(mem, ptr - 1) == Header(true, true, true, Size(mem, ptr - 1))
                && regions == old(regions)[ptr - 1 := Size(mem, ptr - 1)]
      ensures Kept(old(mem), mem, old(owner))
    {
      var size := AlignUp(bytes, 4096);
      AlignUpToPage(bytes);
      var addr := Mmap(size / 8);
      if addr.None? {
        KeptSame(mem, owner);
        return 0;
      }
      MapStep(old(mem), mem, regions, segmentList, segs, cuts, owner, addr.value, size / 8);
      OccupiedPersists(old(mem), mem, regions, segs, cuts);
      label mapped:
      var p := addr.value;
      mem := mem[p := Header(true, true, true, size / 8)];
      regions := regions[p := size / 8];
      BigBlockStep(old@mapped(mem), old@mapped(regions), segmentList, segs, cuts, owner, p, size / 8);
      OccupiedPersists(old@mapped(mem), mem, old(regions), segs, cuts);
      KeptTwice(old(mem), old@mapped(mem), mem, owner);
      owner := owner[p := p];
      return p + 1;
    }

    /** First fit: `fit` is the segment and the block that answer the request, if any does. */
    method MallocBySegmentList(size: nat) returns (ptr: Addr, ghost fit: Option<(nat, nat)>)
      requires Valid() && MINIMUM_WORDS <= size <= SEGMENT_WORDS - SEGMENT_HEADER_WORDS
      modifies this
      ensures Valid() && Kept(old(mem), mem, old(owner))
      ensures fit.Some? ==>
                && fit.value.0 < |old(segs)|
                && NoFit(old(mem), old(segs), old(cuts), fit.value.0, size)
                && Placed(old(mem), mem, old(cuts), cuts, old(owner), owner, old(segs)[fit.value.0], fit.value.1, size, ptr)
                && ptr != 0 && regions == old(regions) && segs == old(segs)
                && !InUse(old(mem), ptr - 1) && CutFrom(mem, ptr - 1, Size(old(mem), ptr - 1), size)
      ensures failures == old(failures) + if ptr == 0 then 1 else 0
      ensures fit.None? ==> NoFit(old(mem), old(segs), old(cuts), |old(segs)|, size)
      ensures ptr == 0 ==> fit.None? && owner == old(owner) && segs == old(segs)
      ensures fit.None? && ptr != 0 ==>
                && |segs| > 0 && segs == [segs[0]] + old(segs) && segs[0] !in old(regions)
                && ptr == segs[0] + 3 && owner == old(owner)[ptr - 1 := segs[0]]
                && regions == old(regions)[segs[0] := 262144] && CutFrom(mem, ptr - 1, 262142, size)
      ensures ptr != 0 ==>
                && ptr - 1 !in old(owner) && ptr - 1 in owner && owner == old(owner)[ptr - 1 := owner[ptr - 1]]
                && size <= Size(mem, ptr - 1)
    {
      hide CoreOk, AllOccupied, Kept, RegionsOk, SegmentsOk, SegmentsLinked, OwnerOk, Tiled;
      ghost var j, k;
      ptr, j, k := FindInSegmentList(size);
      if ptr != 0 {
        return ptr, Some((j, k));
      }
      var r := GetAndInsertSegment();
      if r == -1 {
        KeptSame(mem, owner);
        return 0, None;
      }
      label inserted:
      FreshSegmentFits(mem, cuts, segmentList, size);
      assert Size(mem, segmentList + 2) == 262142;
      ptr, k := GetFreeMemBlockFromSegment(segmentList, size);
      KeptTwice(old(mem), old@inserted(mem), mem, old(owner));
      return ptr, None;
    }

    method FindInSegmentList(size: nat) returns (ptr: Addr, ghost j: nat, ghost k: nat)
      requires Valid() && MINIMUM_WORDS <= size
      modifies this`mem, this`cuts, this`owner
      ensures Valid() && Kept(old(mem), mem, old(owner))
      ensures FoundInList(old(mem), mem, segs, old(cuts), cuts, old(owner), owner, j, k, size, ptr)
    {
      CoreParts(mem, regions, segmentList, segs, cuts, owner, 0);
      assert NoFit(mem, segs, cuts, 0, size);
      ListStart(mem, regions, segmentList, segs);
      hide CoreOk, AllOccupied, Kept, RegionsOk, SegmentsOk, SegmentsLinked, OwnerOk, Tiled, FoundInSegment, NoFit;
      var pSegment := segmentList;
      j := 0;
      k := 0;
      while pSegment != 0
        invariant mem == old(mem) && cuts == old(cuts) && owner == old(owner)
        invariant 0 <= j <= |segs| && AtPlace(segs, j, pSegment)
        invariant NoFit(mem, segs, cuts, j, size)
        decreases |segs| - j
      {
        OccupiedButOne(mem, regions, segs, cuts, pSegment);
        ptr, k := GetFreeMemBlockFromSegment(pSegment, size);
        if ptr != 0 {
          return ptr, j, k;
        }
        NotFoundNext(old(mem), mem, segs, old(cuts), cuts, old(owner), owner, j, k, size);
        pSegment := NextSegment(pSegment, j);
        j := j + 1;
      }
      KeptSame(mem, owner);
      return 0, j, k;
    }

    /** The next segment of the list, NULL after the last. */
    method NextSegment(pSegment: Addr, ghost j: nat) returns (next: Addr)
      requires RegionsOk(mem, regions) && SegmentsOk(regions, segs) && SegmentsLinked(mem, segmentList, segs)
      requires j < |segs| && pSegment == segs[j]
      ensures AtPlace(segs, j + 1, next)
    {
      ListWalk(mem, regions, segmentList, segs, j);
      next := mem[pSegment + 1].value;
    }

    method GetAndInsertSegment() returns (r: int)
      requires Valid()
      modifies this
      ensures Core() && owner == old(owner) && Kept(old(mem), mem, owner)
      ensures (r == -1 || r == 0) && failures == old(failures) + if r == -1 then 1 else 0
      ensures r == -1 ==> regions == old(regions) && segs == old(segs) && cuts == old(cuts)
                          && mem == old(mem) && segmentList == old(segmentList)
      ensures r == 0 ==>
                && SegmentAdded(mem, old(regions), old(segs), segs, old(cuts), cuts, segmentList)
                && regions == old(regions)[segmentList := 262144]
                && At(mem, segmentList + 2) == Header(false, true, false, 262142)
                && AllOccupied(mem, segs, cuts, segmentList)
    {
      CoreParts(mem, regions, segmentList, segs, cuts, owner, 0);
      hide CoreOk, AllOccupied, Kept, RegionsOk, SegmentsOk, SegmentsLinked, OwnerOk, Tiled, FreshRange, NewlyMapped,
        NewSegment, InUse, KeptBlock, SomeInUse, At;
      var addr := Mmap(SEGMENT_WORDS);
      if addr.None? {
        KeptSame(mem, owner);
        return -1;
      }
      var pSegment := addr.value;
      ghost var c := [pSegment + SEGMENT_HEADER_WORDS, pSegment + SEGMENT_WORDS];
      ghost var mem', regions' := NewSegment(mem, segmentList, pSegment), regions[pSegment := SEGMENT_WORDS];
      ghost var segs', cuts' := [pSegment] + segs, cuts[pSegment := c];
      InsertStep(old(mem), mem, regions, segmentList, segs, cuts, owner, pSegment);
      assert CoreOk(mem', regions', pSegment, segs', cuts', owner) && AllOccupied(mem', segs', cuts', pSegment);
      assert Kept(old(mem), mem', owner);
      assert SegmentAdded(mem', regions, segs, segs', cuts, cuts', pSegment);
      hide SegmentAdded;
      FirstBlockIs(mem, segmentList, pSegment);
      AppendSegment(pSegment);
      regions, segs, cuts := regions', segs', cuts';
      return 0;
    }

    /** Link the new segment in front and make it one free block. */
    method AppendSegment(pSegment: Addr)
      modifies this`mem, this`segmentList
      ensures mem == NewSegment(old(mem), old(segmentList), pSegment) && segmentList == pSegment
    {
      mem := mem[pSegment + 1 := Raw(segmentList)];
      mem := mem[pSegment := Raw(0)];
      if segmentList != 0 {
        mem := mem[segmentList := Raw(pSegment)];
      }
      segmentList := pSegment;
      var pFirstBlock := pSegment + SEGMENT_HEADER_WORDS;
      mem := mem[pFirstBlock := Header(false, true, false, SEGMENT_WORDS - SEGMENT_HEADER_WORDS)];
      mem := mem[pFirstBlock + mem[pFirstBlock].size - 1 := Raw(mem[pFirstBlock].size)];
    }

    /** The first free block of the segment that is large enough is handed out, and only as much of it as needed. */
    method GetFreeMemBlockFromSegment(pSegment: Addr, size: nat) returns (ptr: Addr, ghost k: nat)
      requires Core() && pSegment in segs && MINIMUM_WORDS <= size
      requires AllOccupied(mem, segs, cuts, pSegment)
      modifies this`mem, this`cuts, this`owner
      ensures Core() && Kept(old(mem), mem, old(owner))
      ensures FoundInSegment(old(mem), mem, old(cuts), cuts, old(owner), owner, pSegment, k, size, ptr)
      ensures ptr != 0 ==> AllOccupied(mem, segs, cuts, 0)
    {
      hide CoreOk, AllOccupied, Kept, RegionsOk, SegmentsOk, SegmentsLinked, OwnerOk, Tiled;
      CoreParts(mem, regions, segmentList, segs, cuts, owner, pSegment);
      ghost var c := cuts[pSegment];
      var pBlock;
      pBlock, k := FirstFitInSegment(pSegment, size, c);
      if pBlock == 0 {
        KeptSame(mem, owner);
        return 0, k;
      }
      AllocateStep(mem, regions, segmentList, segs, cuts, owner, pSegment, k, size);
      AllocatedIsCut(mem, pSegment, c, k, size);
      PlacedOccupied(mem, regions, segmentList, segs, cuts, owner, pSegment, k, size);
      HandOut(pBlock, pSegment + SEGMENT_WORDS, size, pSegment, c, k);
      cuts := cuts[pSegment := AllocatedCuts(c, k, size)];
      owner := owner[pBlock := pSegment];
      return pBlock + 1, k;
    }

    /** The walk over the blocks of a segment; 0 if none is free and large enough. */
    method FirstFitInSegment(pSegment: Addr, size: nat, ghost c: seq<Addr>) returns (pBlock: Addr, ghost k: nat)
      requires Tiled(mem, pSegment, c) && 0 < pSegment
      ensures pBlock == 0 ==> NoFreeBlock(mem, c, Count(c), size)
      ensures pBlock != 0 ==> FirstFit(mem, c, k, size) && 0 < pBlock == c[k]
    {
      pBlock := pSegment + SEGMENT_HEADER_WORDS;
      var pEndBlock := pSegment + SEGMENT_WORDS;
      k := 0;
      while pBlock < pEndBlock
        invariant 0 <= k <= Count(c) && 0 < pBlock == c[k]
        invariant NoFreeBlock(mem, c, k, size)
        decreases Count(c) - k
      {
        BlockWalk(mem, pSegment, c, k);
        var block := mem[pBlock];
        if !block.inUse && block.size >= size {
          return;
        }
        NoFreeBlockNext(mem, c, k, size);
        pBlock := pBlock + block.size;
        k := k + 1;
      }
      return 0, k;
    }

    /** Mark the free block at `pBlock` in use, splitting off what is not needed if that makes a block. */
    method HandOut(pBlock: Addr, pEndBlock: Addr, size: nat, ghost s: Addr, ghost c: seq<Addr>, ghost k: nat)
      requires Tiled(mem, s, c) && k < Count(c) && pBlock == c[k] && pEndBlock == s + SEGMENT_WORDS
      requires !InUse(mem, pBlock) && MINIMUM_WORDS <= size <= c[k + 1] - c[k]
      modifies this`mem
      ensures mem == AllocatedMemory(old(mem), c, k, size) && CutFrom(mem, pBlock, Size(old(mem), pBlock), size)
    {
      AllocatedIsCut(mem, s, c, k, size);
      assert BlockOk(mem, c, k);
      var block := mem[pBlock];
      if block.size - size < MINIMUM_WORDS {
        var pNextBlock := pBlock + block.size;
        if pNextBlock < pEndBlock {
          assert BlockOk(mem, c, k + 1);
          mem := mem[pNextBlock := mem[pNextBlock].(prevInUse := true)];
        }
      } else {
        var pNextBlock := pBlock + size;
        mem := mem[pNextBlock := Header(false, true, false, block.size - size)];
        mem := mem[pNextBlock + mem[pNextBlock].size - 1 := Raw(mem[pNextBlock].size)];
        mem := mem[pBlock := mem[pBlock].(size := size)];
      }
      mem := mem[pBlock := mem[pBlock].(inUse := true)];
    }

    /** Taking a block back, merging it with its free neighbours and unmapping its segment if nothing else is in use. */
    method Free(ptr: Addr)
      requires Valid() && (ptr == 0 || ptr - 1 in owner)
      modifies this
      ensures Valid()
      ensures ptr == 0 ==> mem == old(mem) && owner == old(owner) && regions == old(regions)
      ensures ptr != 0 ==> owner == old(owner) - {ptr - 1} && Kept(old(mem), mem, owner)
    {
      if ptr == 0 {
        return;
      }
      var pBlock := ptr - 1;
      BlockHeader(mem, regions, segmentList, segs, cuts, owner, pBlock);
      if mem[pBlock].fromMmap {
        DropBigBlockStep(mem, regions, segmentList, segs, cuts, owner, pBlock);
        Munmap(pBlock, mem[pBlock].size);
        owner := owner - {pBlock};
      } else {
        FreeInSegment(pBlock, owner[pBlock], IndexOf(cuts[owner[pBlock]], pBlock));
      }
    }

    method Munmap(base: Addr, n: nat)
      requires base in regions && regions[base] == n
      modifies this`mem, this`regions
      ensures mem == Unmapped(old(mem), base, n) && regions == old(regions) - {base}
    {
      mem := map a | a in mem && !(base <= a < base + n) :: mem[a];
      regions := regions - {base};
    }

    method FreeInSegment(block: Addr, ghost s: Addr, ghost i: nat)
      requires Valid() && s in segs && i < Count(cuts[s]) && cuts[s][i] == block && InUse(mem, block)
      modifies this
      ensures Valid() && owner == old(owner) - {block} && Kept(old(mem), mem, owner)
      ensures var c' := FreedCuts(old(mem), s, old(cuts)[s], i);
              if |c'| == 2 then
                s in old(segs) && s !in segs && regions == old(regions) - {s} && |segs| == |old(segs)| - 1
              else
                && mem == FreedMemory(old(mem), s, old(cuts)[s], i) && cuts == old(cuts)[s := c']
                && regions == old(regions) && segs == old(segs)
    {
      hide CoreOk, AllOccupied, Kept, RegionsOk, SegmentsOk, SegmentsLinked, OwnerOk, Tiled;
      CoreParts(mem, regions, segmentList, segs, cuts, owner, s);
      ghost var c := cuts[s];
      FreeStep(mem, regions, segmentList, segs, cuts, owner, s, i);
      FreeStepOccupied(mem, regions, segmentList, segs, cuts, owner, s, i);
      WholeSegment(mem, s, c, i);
      var pBlock, len := MergedRange(block, s, c, i);
      var bLast := MergedHeader(pBlock, len, s, c, i);
      cuts := cuts[s := FreedCuts(old(mem), s, c, i)];
      owner := owner - {block};
      if bLast && len == SEGMENT_WORDS - SEGMENT_HEADER_WORDS {
        ghost var j :| 0 <= j < |segs| && segs[j] == s;
        DropSegment(mem, regions, segmentList, segs, cuts, owner, j);
        KeptTwice(old(mem), mem, Unmapped(Unlinked(mem, segs, j), segs[j], SEGMENT_WORDS), owner);
        CoreParts(mem, regions, segmentList, segs, cuts, owner, s);
        FreeSegment(pBlock - SEGMENT_HEADER_WORDS, j);
      }
    }

    /** Is the block the last of its segment?  Walks the segment list until it finds the segment. */
    method IsTheLastBlockInSegment(pBlock: Addr, ghost s: Addr) returns (last: bool)
      requires RegionsOk(mem, regions) && SegmentsOk(regions, segs) && SegmentsLinked(mem, segmentList, segs)
      requires s in segs && s < pBlock && pBlock in mem && mem[pBlock].Header?
      requires 0 < mem[pBlock].size && pBlock + mem[pBlock].size <= s + SEGMENT_WORDS
      ensures last == (pBlock + mem[pBlock].size == s + SEGMENT_WORDS)
    {
      var pEnd := pBlock + mem[pBlock].size;
      var pSegment := segmentList;
      ghost var j := 0;
      ListWalk(mem, regions, segmentList, segs, 0);
      while pSegment != 0
        invariant 0 <= j < |segs| && pSegment == segs[j] && pSegment != 0
        invariant s in segs[j..]
        decreases |segs| - j
      {
        ListWalk(mem, regions, segmentList, segs, j);
        var pSegmentEnd := pSegment + SEGMENT_WORDS;
        assert pSegment != s ==> pSegment in regions && s in regions;
        if pBlock > pSegment && pEnd < pSegmentEnd {
          return false;
        }
        if pEnd == pSegmentEnd {
          return true;
        }
        pSegment := mem[pSegment + 1].value;
        j := j + 1;
        if j < |segs| { ListWalk(mem, regions, segmentList, segs, j); }
      }
      assert false;
      return false;
    }

    /** Where the free block that results starts, and how long it is: both neighbours are looked at. */
    method MergedRange(block: Addr, ghost s: Addr, ghost c: seq<Addr>, ghost i: nat)
      returns (pBlock: Addr, len: nat)
      requires RegionsOk(mem, regions) && SegmentsOk(regions, segs) && SegmentsLinked(mem, segmentList, segs) && s in segs
      requires Tiled(mem, s, c) && i < Count(c) && c[i] == block && InUse(mem, block)
      ensures var lo, hi := MergeFrom(mem, c, i), MergeTo(mem, c, i);
              hi <= Count(c) && pBlock == c[lo] && len == c[hi] - c[lo]
    {
      BlockWalk(mem, s, c, i);
      MergeNeighbours(mem, s, c, i);
      pBlock, len := block, mem[block].size;
      var bLast := IsTheLastBlockInSegment(pBlock, s);
      if !bLast {
        var pNextBlock := pBlock + len;
        if !mem[pNextBlock].inUse {
          len := len + mem[pNextBlock].size;
        }
      }
      if !mem[pBlock].prevInUse {
        var prevSize := mem[pBlock - 1].value;
        len := len + prevSize;
        pBlock := pBlock - prevSize;
      }
    }

    /** Write the header and the footer of the merged block and tell the block after it. */
    method MergedHeader(pBlock: Addr, len: nat, ghost s: Addr, ghost c: seq<Addr>, ghost i: nat) returns (bLast: bool)
      requires RegionsOk(mem, regions) && SegmentsOk(regions, segs) && SegmentsLinked(mem, segmentList, segs) && s in segs
      requires Tiled(mem, s, c) && i < Count(c) && InUse(mem, c[i])
      requires var lo, hi := MergeFrom(mem, c, i), MergeTo(mem, c, i);
               hi <= Count(c) && pBlock == c[lo] && len == c[hi] - c[lo]
      modifies this`mem
      ensures mem == FreedMemory(old(mem), s, c, i) && bLast == (pBlock + len == s + SEGMENT_WORDS)
    {
      MergedRun(mem, s, c, i);
      BlockWriteKeepsList(mem, regions, segmentList, segs, s, pBlock, Header(false, true, false, len));
      mem := mem[pBlock := Header(false, true, false, len)];
      bLast := IsTheLastBlockInSegment(pBlock, s);
      var pNextBlock := pBlock + mem[pBlock].size;
      mem := mem[pNextBlock - 1 := Raw(mem[pBlock].size)];
      if !bLast {
        mem := mem[pNextBlock := mem[pNextBlock].(prevInUse := false)];
      }
    }

    /** Unlink a segment and give it back. */
    method FreeSegment(pSegment: Addr, ghost j: nat)
      requires RegionsOk(mem, regions) && SegmentsOk(regions, segs) && SegmentsLinked(mem, segmentList, segs)
      requires j < |segs| && segs[j] == pSegment && pSegment in regions && regions[pSegment] == SEGMENT_WORDS
      modifies this`mem, this`regions, this`segmentList, this`segs
      ensures mem == Unmapped(Unlinked(old(mem), old(segs), j), old(segs)[j], SEGMENT_WORDS)
      ensures regions == old(regions) - {old(segs)[j]} && segs == RemoveAt(old(segs), j)
      ensures segmentList == HeadWithout(old(segmentList), old(segs), j)
    {
      Unlink(pSegment, j);
      Munmap(pSegment, SEGMENT_WORDS);
      segs := RemoveAt(segs, j);
    }

    method Unlink(pSegment: Addr, ghost j: nat)
      requires RegionsOk(mem, regions) && SegmentsOk(regions, segs) && SegmentsLinked(mem, segmentList, segs)
      requires j < |segs| && segs[j] == pSegment
      modifies this`mem, this`segmentList
      ensures mem == Unlinked(old(mem), segs, j)
      ensures segmentList == HeadWithout(old(segmentList), segs, j)
    {
      ListNeighbours(mem, regions, segmentList, segs, j);
      var pPrev, pNext := mem[pSegment].value, mem[pSegment + 1].value;
      if segmentList == pSegment {
        segmentList := pNext;
        if segmentList != 0 {
          mem := mem[segmentList := Raw(0)];
        }
      } else {
        mem := mem[pPrev + 1 := Raw(pNext)];
        if pNext != 0 {
          mem := mem[pNext := Raw(pPrev)];
        }
      }
    }

    /** The client writes a word of a block it holds. */
    method Store(ptr: Addr, offset: nat, w: Word)
      requires Valid() && ptr - 1 in owner && offset + 1 < Size(mem, ptr - 1)
      modifies this`mem
      ensures Valid() && mem == old(mem)[ptr + offset := w] && Kept(old(mem), mem, owner - {ptr - 1})
    {
      StoreStep(mem, regions, segmentList, segs, cuts, owner, ptr - 1, ptr + offset, w);
      mem := mem[ptr + offset := w];
    }
  }
}
