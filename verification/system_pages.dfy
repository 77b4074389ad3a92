/**
 The operating system as util.cpp uses it: anonymous mappings of whole pages.  A mapping may
 land on any unmapped pages of the 48-bit address space, or fail.
 */
module SystemPages {
  import opened Wrappers

  const PAGE_SIZE: int := 4096
  const PAGE_WORDS: int := 512
  const PAGE_LIMIT: int := 0x10_0000_0000

  /** Which mapping each mapped page belongs to, by the address where the mapping begins. */
  type PageMap = map<int, int>

  /** The mapping at address p is k pages long. */
  ghost predicate Owns(mapped: PageMap, p: int, k: int) {
    p % PAGE_SIZE == 0 && 0 < p && p / PAGE_SIZE + k <= PAGE_LIMIT &&
    forall i :: p / PAGE_SIZE <= i < p / PAGE_SIZE + k ==> i in mapped && mapped[i] == p
  }

  /** Mapping k pages at address p. */
  ghost predicate Mapped(before: PageMap, after: PageMap, p: int, k: int) {
    Owns(after, p, k) &&
    (forall i :: p / PAGE_SIZE <= i < p / PAGE_SIZE + k ==> i !in before) &&
    (forall i :: i in before ==> i in after && after[i] == before[i])
  }

  /** Unmapping k pages at address p: these are gone, and no others. */
  ghost predicate Unmapped(before: PageMap, after: PageMap, p: int, k: int) {
    (forall i :: i in before && !(p / PAGE_SIZE <= i < p / PAGE_SIZE + k) ==> i in after && after[i] == before[i]) &&
    (forall i :: i in after ==> i in before && !(p / PAGE_SIZE <= i < p / PAGE_SIZE + k))
  }

  /** The map without these pages. */
  function WithoutPages(before: PageMap, p: int, k: int): PageMap {
    map i | i in before && !(p / PAGE_SIZE <= i < p / PAGE_SIZE + k) :: before[i]
  }

  /** Two mappings at different addresses share no byte. */
  lemma MappingsApart(mapped: PageMap, p: int, k: int, q: int, n: int)
    requires Owns(mapped, p, k) && Owns(mapped, q, n) && p != q && 0 < k && 0 < n
    ensures p + k * PAGE_SIZE <= q || q + n * PAGE_SIZE <= p
  {
    var i, j := p / PAGE_SIZE, q / PAGE_SIZE;
    assert p == i * PAGE_SIZE && q == j * PAGE_SIZE;
    assert i in mapped && mapped[i] == p;
    assert j in mapped && mapped[j] == q;
  }

  /** A new mapping is apart from every old one. */
  lemma NewMappingApart(before: PageMap, after: PageMap, p: int, k: int, q: int, n: int)
    requires Mapped(before, after, p, k) && Owns(before, q, n) && 0 < k && 0 < n
    ensures p != q && Owns(after, q, n)
  {
    assert q / PAGE_SIZE in before;
  }

  /** Unmapping one mapping leaves the others. */
  lemma OthersStay(before: PageMap, after: PageMap, p: int, k: int, q: int, n: int)
    requires Owns(before, p, k) && Unmapped(before, after, p, k) && Owns(before, q, n) && p != q
    ensures Owns(after, q, n)
  {
    forall i | q / PAGE_SIZE <= i < q / PAGE_SIZE + n ensures i in after && after[i] == q {
      if p / PAGE_SIZE <= i < p / PAGE_SIZE + k {
        assert before[i] == p && before[i] == q;
      }
    }
  }

  class System {
    var mapped: PageMap
    ghost var failures: nat  // how many mappings have been refused

    constructor ()
      ensures mapped == map[] && failures == 0
    {
      mapped, failures := map[], 0;
    }

    /** mmap of k pages, and the words found there; None stands for MAP_FAILED and is counted. */
    method SysMallocPage(k: int) returns (r: Option<int>, words: seq<int>)
      requires 0 < k
      modifies this
      ensures failures == old(failures) + if r.None? then 1 else 0
      ensures r.None? ==> mapped == old(mapped)
      ensures r.Some? ==> Mapped(old(mapped), mapped, r.value, k) && words == seq(k * PAGE_WORDS, _ => 0)
    {
      var page: int := *;
      if 0 < page && page + k <= PAGE_LIMIT && forall i :: page <= i < page + k ==> i !in mapped {
        var n := 0;
        while n < k
          invariant 0 <= n <= k
          invariant forall i :: page <= i < page + n ==> i in mapped && mapped[i] == page * PAGE_SIZE
          invariant forall i :: i in old(mapped) ==> i in mapped && mapped[i] == old(mapped)[i]
          invariant failures == old(failures)
        {
          mapped := mapped[page + n := page * PAGE_SIZE];
          n := n + 1;
        }
        return Some(page * PAGE_SIZE), seq(k * PAGE_WORDS, _ => 0);
      }
      failures := failures + 1;
      return None, [];
    }

    /** munmap of k pages. */
    method SysFreePage(p: int, k: int)
      requires p % PAGE_SIZE == 0 && 0 <= k
      modifies this`mapped
      ensures Unmapped(old(mapped), mapped, p, k)
    {
      mapped := WithoutPages(mapped, p, k);
    }
  }
}
