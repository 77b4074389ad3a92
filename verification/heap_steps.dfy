/**
 The steps of the tiered heap allocator as functions of its state, and that each of them
 keeps the invariant.
 */
module HeapSteps {
  import opened SystemPages
  import opened ChunkList
  import opened HeapSizes
  import opened HeapState

  // ---------------------------------------------------------------- steps that touch one span

  /** Nothing is different but span s, its blocks and its place. */
  ghost predicate OnlySpan(a: State, b: State, s: int) {
    a.threads == b.threads && a.lists.Keys == b.lists.Keys &&
    (forall t :: t != s ==> SameSpan(a, b, t)) &&
    (forall t, id :: t != s ==> (On(a, id, t) <==> On(b, id, t))) &&
    (forall x :: x in b.live && b.live[x].span != s ==> x in a.live && a.live[x] == b.live[x] && x !in b.lost) &&
    (forall x :: x in a.live && a.live[x].span != s ==> x in b.live && a.live[x] == b.live[x]) &&
    (forall x :: x in b.lost && b.lost[x] != s ==> x in a.lost && a.lost[x] == b.lost[x]) &&
    (forall x :: x in a.lost && a.lost[x] != s ==> x in b.lost && a.lost[x] == b.lost[x])
  }

  ghost predicate SameSpan(a: State, b: State, t: int) {
    (t in a.headers <==> t in b.headers) && (t in a.holder <==> t in b.holder) && (t in a.free <==> t in b.free) &&
    (t in a.headers ==> a.headers[t] == b.headers[t] && Owns(b.mapped, t, a.headers[t].pageNum)) &&
    (t in a.holder ==> a.holder[t] == b.holder[t]) &&
    (t in a.free ==> a.free[t] == b.free[t])
  }

  /** What a step has to show for the span it touches. */
  ghost predicate LocalInv(b: State, s: int) {
    (s in b.headers <==> s in b.holder) &&
    (s in b.headers ==> SpanInv(b, s)) &&
    (s !in b.headers && s in b.free ==> b.free[s] == []) &&
    (forall x :: x in b.live && b.live[x].span == s ==> LoanInv(b, x)) &&
    (forall x :: x in b.lost && b.lost[x] == s ==> LostInv(b, x)) &&
    (forall id :: On(b, id, s) ==>
       s in b.headers && s in b.holder && b.holder[s] != InHand && HomeList(b.holder[s], b.headers[s]) == id)
  }

  ghost predicate ShelvesOk(b: State) {
    Apart(b.lists) && forall id :: id in b.lists && id.PageList? ==> |b.lists[id]| <= SPAN_MAX_LIST_SIZE
  }

  /** A step that touches one span keeps the invariant if it does so for that span. */
  lemma OneSpanStep(a: State, b: State, s: int)
    requires Inv(a) && OnlySpan(a, b, s) && LocalInv(b, s) && ShelvesOk(b)
    ensures Inv(b)
  {
    forall t | t in b.headers && t != s ensures SpanInv(b, t) {
      assert SameSpan(a, b, t) && SpanInv(a, t);
      OtherSpan(a, b, s, t);
    }
    OtherLoans(a, b, s);
    OtherLists(a, b, s);
    OtherDead(a, b, s);
  }

  lemma OtherSpan(a: State, b: State, s: int, t: int)
    requires SpanInv(a, t) && OnlySpan(a, b, s) && t != s
    ensures SpanInv(b, t)
  {
    hide HeaderOk, Proper, IsBlock, HomeList, On;
    assert SameSpan(a, b, t);
    forall x | IsBlock(t, b.headers[t], x) ensures Accounted(b, t, x) {
      assert Accounted(a, t, x);
    }
    assert On(a, HomeList(a.holder[t], a.headers[t]), t) <==> On(b, HomeList(a.holder[t], a.headers[t]), t);
  }

  lemma OtherLoans(a: State, b: State, s: int)
    requires LoansInv(a) && OnlySpan(a, b, s) && LocalInv(b, s)
    ensures LoansInv(b)
  {
    hide IsBlock, On, SpanInv, HomeList;
    forall x | x in b.live ensures LoanInv(b, x) {
      if b.live[x].span != s {
        assert LoanInv(a, x);
        assert SameSpan(a, b, b.live[x].span);
      }
    }
    forall x | x in b.lost ensures LostInv(b, x) {
      if b.lost[x] != s {
        assert LostInv(a, x);
        assert SameSpan(a, b, b.lost[x]);
      }
    }
  }

  lemma OtherLists(a: State, b: State, s: int)
    requires ListsInv(a) && OnlySpan(a, b, s) && LocalInv(b, s) && ShelvesOk(b)
    ensures ListsInv(b)
  {
    hide IsBlock, SpanInv, HomeList, LoanInv, LostInv, Apart;
    forall id | id in b.lists ensures ListInv(b, id) {
      forall t | t in b.lists[id]
        ensures t in b.headers && t in b.holder && b.holder[t] != InHand && HomeList(b.holder[t], b.headers[t]) == id
      {
        assert On(b, id, t);
        if t != s {
          assert On(a, id, t) && ListInv(a, id) && SameSpan(a, b, t);
        }
      }
    }
  }

  lemma OtherDead(a: State, b: State, s: int)
    requires DeadSpansOk(a) && TablesOk(a) && OnlySpan(a, b, s) && LocalInv(b, s)
    ensures DeadSpansOk(b) && TablesOk(b)
  {
    hide IsBlock, SpanInv, HomeList, LoanInv, LostInv, On;
    forall t ensures t in b.headers <==> t in b.holder {
      assert t != s ==> SameSpan(a, b, t);
    }
    forall t | t in b.free && t !in b.headers ensures b.free[t] == [] {
      assert t != s ==> SameSpan(a, b, t);
    }
    forall id ensures id in a.lists <==> id in b.lists {
      assert id in a.lists.Keys <==> id in b.lists.Keys;
    }
  }

  /** A span that did not change is as quiet as it was. */
  lemma OthersQuiet(a: State, b: State, s: int)
    requires QuietBut(a, s) && OnlySpan(a, b, s)
    ensures QuietBut(b, s)
  {
    forall t | t in b.headers && t in b.holder && t in b.free && t != s ensures QuietSpan(b, t) {
      assert SameSpan(a, b, t) && QuietSpan(a, t);
    }
  }

  // ---------------------------------------------------------------- lending and returning

  /** The front block of a span goes on loan. */
  function Lend(st: State, s: int, size: int, t: nat): State
    requires s in st.free && st.free[s] != []
  {
    st.(free := st.free[s := st.free[s][1..]], live := st.live[st.free[s][0] := Loan(s, size, t)])
  }

  /** A span leaves its list. */
  function Unlist(st: State, id: ListId, s: int): State
    requires On(st, id, s)
  {
    st.(lists := st.lists[id := Without(st.lists[id], s)])
  }

  /** ThreadCache::DistributeMem once there is a span: an exhausted span leaves the list. */
  function ThreadLend(st: State, s: int, size: int, t: nat): State
    requires s in st.free && st.free[s] != [] && s in st.headers
    requires On(st, ThreadList(t, Size2Slot(st.headers[s].blockSize)), s)
  {
    var lent := Lend(st, s, size, t);
    if |st.free[s]| == 1 then Unlist(lent, ThreadList(t, Size2Slot(st.headers[s].blockSize)), s) else lent
  }

  lemma ListsWithout(st: State, id: ListId, s: int)
    requires On(st, id, s) && Apart(st.lists)
    ensures var lists := st.lists[id := Without(st.lists[id], s)];
            Apart(lists) && Unlisted(lists, s) && lists.Keys == st.lists.Keys
            && forall t, i :: t != s ==> ((i in lists && t in lists[i]) <==> On(st, i, t))
  {
    ApartWithout(st.lists, id, s);
    WithoutKeeps(st.lists[id], s);
  }

  lemma WithoutKeeps(f: seq<int>, s: int)
    requires s in f
    ensures forall t :: t != s ==> (t in Without(f, s) <==> t in f)
  {
    var i := Index(f, s);
    assert f == f[..i] + [s] + f[i + 1..];
  }

  /** A free block is on no loan and not lost. */
  lemma FreeIsNotLent(st: State, s: int, x: int)
    requires SpansInv(st) && LoansInv(st) && s in st.headers && s in st.free && x in st.free[s]
    ensures x !in st.live && x !in st.lost
  {
    hide HomeList, On, Proper, Accounted;
    assert SpanInv(st, s);
    if x in st.live {
      var t := st.live[x].span;
      assert LoanInv(st, x) && SpanInv(st, t);
      BlockOfOne(st.mapped, s, st.headers[s], t, st.headers[t], x);
    }
    if x in st.lost {
      var t := st.lost[x];
      assert LostInv(st, x) && SpanInv(st, t);
      BlockOfOne(st.mapped, s, st.headers[s], t, st.headers[t], x);
    }
  }

  lemma TailNoDup(f: seq<int>)
    requires f != [] && NoDup(f)
    ensures NoDup(f[1..]) && f[0] !in f[1..] && forall a :: a in f <==> a == f[0] || a in f[1..]
  {
    assert f == [f[0]] + f[1..];
  }

  /** Lending keeps what a step has to show, whatever becomes of the span's place. */
  lemma LendLocal(a: State, b: State, s: int, size: int, t: nat)
    requires Inv(a) && s in a.headers && s in a.holder && s in a.free && a.free[s] != []
    requires b == Lend(a, s, size, t).(lists := b.lists)
    requires size <= a.headers[s].blockSize && a.holder[s] in {OfThread(t), OfCentral}
    requires Listed(b, s)
    requires forall id :: On(b, id, s) ==> On(a, id, s)
    ensures LocalInv(b, s)
  {
    hide HeaderOk, Proper, HomeList, On, Listed;
    assert SpanInv(a, s);
    var f := a.free[s];
    TailNoDup(f);
    FreeIsNotLent(a, s, f[0]);
    forall x | IsBlock(s, b.headers[s], x) ensures Accounted(b, s, x) {
      assert Accounted(a, s, x);
    }
    assert SpanInv(b, s);
    forall x | x in b.live && b.live[x].span == s ensures LoanInv(b, x) {
      if x != f[0] {
        assert LoanInv(a, x);
      }
    }
    forall x | x in b.lost && b.lost[x] == s ensures LostInv(b, x) {
      assert LostInv(a, x);
    }
    forall id | On(b, id, s)
      ensures s in b.headers && s in b.holder && b.holder[s] != InHand && HomeList(b.holder[s], b.headers[s]) == id
    {
      OnItsList(a, id, s);
    }
  }

  lemma OnItsList(st: State, id: ListId, s: int)
    requires ListsInv(st) && On(st, id, s)
    ensures s in st.headers && s in st.holder && st.holder[s] != InHand && HomeList(st.holder[s], st.headers[s]) == id
  {
    assert ListInv(st, id);
  }

  lemma LendOnlySpan(a: State, b: State, s: int, size: int, t: nat)
    requires Inv(a) && s in a.headers && s in a.free && a.free[s] != []
    requires b == Lend(a, s, size, t).(lists := b.lists)
    requires a.lists.Keys == b.lists.Keys && forall u, id :: u != s ==> (On(a, id, u) <==> On(b, id, u))
    ensures OnlySpan(a, b, s)
  {
    hide HeaderOk, Proper, HomeList, On, IsBlock, Accounted;
    FreeIsNotLent(a, s, a.free[s][0]);
    forall u | u != s ensures SameSpan(a, b, u) {
      if u in a.headers {
        assert SpanInv(a, u);
      }
    }
    forall x | x in b.live && b.live[x].span != s ensures x !in b.lost {
      assert LoanInv(a, x);
    }
  }

  /** A thread cache lends a block. */
  lemma ThreadLendStep(st: State, s: int, size: int, t: nat)
    requires Inv(st) && s in st.headers && s in st.holder && s in st.free
    requires st.holder[s] == OfThread(t) && st.free[s] != [] && size <= st.headers[s].blockSize
    ensures On(st, ThreadList(t, Size2Slot(st.headers[s].blockSize)), s)
    ensures var b := ThreadLend(st, s, size, t); Inv(b) && OnlySpan(st, b, s) && QuietSpan(b, s)
    ensures st.free[s][0] !in st.live
  {
    hide HeaderOk, Proper, On, LocalInv, OnlySpan;
    var id := ThreadList(t, Size2Slot(st.headers[s].blockSize));
    assert SpanInv(st, s);
    assert On(st, id, s);
    var b := ThreadLend(st, s, size, t);
    FreeIsNotLent(st, s, st.free[s][0]);
    LendPlace(st, s, size, t);
    LendLocal(st, b, s, size, t);
    LendOnlySpan(st, b, s, size, t);
    OneSpanStep(st, b, s);
    FullList(s, st.headers[s], st.free[s]);
  }

  lemma ThreadLendKeeps(st: State, s: int, size: int, t: nat)
    requires Inv(st) && QuietBut(st, s) && s in st.headers && s in st.holder && s in st.free
    requires st.holder[s] == OfThread(t) && st.free[s] != [] && size <= st.headers[s].blockSize
    ensures On(st, ThreadList(t, Size2Slot(st.headers[s].blockSize)), s)
    ensures Inv(ThreadLend(st, s, size, t)) && Quiet(ThreadLend(st, s, size, t))
    ensures st.free[s][0] !in st.live
  {
    hide Inv, On, OnlySpan, QuietSpan, ThreadLend;
    ThreadLendStep(st, s, size, t);
    OthersQuiet(st, ThreadLend(st, s, size, t), s);
  }

  lemma LendPlace(st: State, s: int, size: int, t: nat)
    requires Inv(st) && s in st.headers && s in st.holder && s in st.free && st.free[s] != []
    requires st.holder[s] == OfThread(t) && On(st, ThreadList(t, Size2Slot(st.headers[s].blockSize)), s)
    ensures var b := ThreadLend(st, s, size, t);
            Listed(b, s) && ShelvesOk(b) && st.lists.Keys == b.lists.Keys
              && b == Lend(st, s, size, t).(lists := b.lists)
            && (forall id :: On(b, id, s) ==> On(st, id, s))
            && (forall u, id :: u != s ==> (On(st, id, u) <==> On(b, id, u)))
  {
    hide HeaderOk, Proper, IsBlock, Accounted;
    assert SpanInv(st, s);
    var id := ThreadList(t, Size2Slot(st.headers[s].blockSize));
    var b := ThreadLend(st, s, size, t);
    ListsWithout(st, id, s);
    forall i | i in b.lists && i.PageList? ensures |b.lists[i]| <= SPAN_MAX_LIST_SIZE {
      assert ListInv(st, i);
    }
  }

  /** The central cache lends the one block of a span. */
  lemma CentralLendKeeps(st: State, s: int, size: int, t: nat)
    requires Inv(st) && QuietBut(st, s) && s in st.headers && s in st.holder && s in st.free
    requires st.holder[s] == OfCentral && st.free[s] != [] && size <= st.headers[s].blockSize
    ensures Inv(Lend(st, s, size, t)) && Quiet(Lend(st, s, size, t)) && st.free[s][0] !in st.live
  {
    hide Inv, OnlySpan, QuietSpan, Lend;
    CentralLendStep(st, s, size, t);
    OthersQuiet(st, Lend(st, s, size, t), s);
  }

  lemma CentralLendStep(st: State, s: int, size: int, t: nat)
    requires Inv(st) && s in st.headers && s in st.holder && s in st.free
    requires st.holder[s] == OfCentral && st.free[s] != [] && size <= st.headers[s].blockSize
    ensures var b := Lend(st, s, size, t); Inv(b) && OnlySpan(st, b, s) && QuietSpan(b, s) && st.free[s][0] !in st.live
  {
    hide HeaderOk, On, LocalInv, OnlySpan;
    assert SpanInv(st, s);
    var b := Lend(st, s, size, t);
    FreeIsNotLent(st, s, st.free[s][0]);
    SamePlace(st, b, s);
    LendLocal(st, b, s, size, t);
    LendOnlySpan(st, b, s, size, t);
    OneSpanStep(st, b, s);
    FullList(s, st.headers[s], st.free[s]);
  }

  /** Lists that did not change are as good as they were. */
  lemma SamePlace(a: State, b: State, s: int)
    requires ListsInv(a) && a.lists == b.lists
    ensures ShelvesOk(b) && forall u, id :: On(a, id, u) <==> On(b, id, u)
  {
    forall i | i in b.lists && i.PageList? ensures |b.lists[i]| <= SPAN_MAX_LIST_SIZE {
      assert ListInv(a, i);
    }
  }

  /** A block is put back in front of the free blocks of its span. */
  function PutBack(st: State, x: int): State
    requires x in st.live && st.live[x].span in st.free
  {
    var s := st.live[x].span;
    st.(free := st.free[s := [x] + st.free[s]], live := st.live - {x})
  }

  /** A span is merged and leaves its list. */
  function Merged(st: State, id: ListId, s: int): State
    requires On(st, id, s) && s in st.headers
  {
    Unlist(st, id, s).(headers := st.headers[s := Header(st.headers[s].pageNum, -1, 0)],
                       free := st.free[s := []],
                       holder := st.holder[s := InHand])
  }

  /** The block on loan is from a span of its thread's cache. */
  predicate ThreadOwns(st: State, x: int) {
    x in st.live && st.live[x].span in st.free && st.live[x].span in st.headers &&
    var s := st.live[x].span;
    var id := ThreadList(st.live[x].thread, Size2Slot(st.headers[s].blockSize));
    id in st.lists && (st.free[s] != [] <==> On(st, id, s))
  }

  /** ThreadCache::TakeBackMem up to the point where a span may go to the page cache. */
  function ThreadReturn(st: State, x: int): State
    requires ThreadOwns(st, x)
  {
    var s, back := st.live[x].span, PutBack(st, x);
    var id := ThreadList(st.live[x].thread, Size2Slot(st.headers[s].blockSize));
    if |back.free[s]| == 1 then back.(lists := st.lists[id := [s] + st.lists[id]])
    else if st.headers[s].blockNum == |back.free[s]| then Merged(back, id, s)
    else back
  }

  lemma ListsPush(st: State, id: ListId, s: int)
    requires id in st.lists && Apart(st.lists) && Unlisted(st.lists, s)
    ensures Apart(st.lists[id := [s] + st.lists[id]]) && Apart(st.lists[id := st.lists[id] + [s]])
  {
    var f := st.lists[id];
    ApartSplice(st.lists, id, 0, [s]);
    ApartSplice(st.lists, id, |f|, [s]);
    assert f[..0] + [s] + f[0..] == [s] + f;
    assert f[..|f|] + [s] + f[|f|..] == f + [s];
  }

  lemma PutBackOnlySpan(a: State, b: State, x: int)
    requires Inv(a) && x in a.live && a.live[x].span in a.headers && a.live[x].span in a.free
    requires var s, back := a.live[x].span, PutBack(a, x);
             b.live == back.live && b.lost == a.lost && b.mapped == a.mapped && b.threads == a.threads
             && (forall t :: t != s ==>
                   (t in b.headers <==> t in a.headers) && (t in b.holder <==> t in a.holder)
                   && (t in b.free <==> t in a.free))
             && (forall t :: t != s && t in a.headers ==> b.headers[t] == a.headers[t])
             && (forall t :: t != s && t in a.holder ==> b.holder[t] == a.holder[t])
             && (forall t :: t != s && t in a.free ==> b.free[t] == a.free[t])
    requires a.lists.Keys == b.lists.Keys && forall u, id :: u != a.live[x].span ==> (On(a, id, u) <==> On(b, id, u))
    ensures OnlySpan(a, b, a.live[x].span)
  {
    hide HeaderOk, Proper, HomeList, On, IsBlock, Accounted;
    var s := a.live[x].span;
    forall u | u != s ensures SameSpan(a, b, u) {
      if u in a.headers {
        assert SpanInv(a, u);
      }
    }
    forall y | y in b.live && b.live[y].span != s ensures y !in b.lost {
      assert LoanInv(a, y);
    }
  }

  /** A returned block that leaves its span where it is, or brings it back on its list. */
  lemma PutBackLocal(a: State, b: State, x: int)
    requires Inv(a) && x in a.live && LoanInv(a, x)
    requires b == PutBack(a, x).(lists := b.lists)
    requires var s := a.live[x].span;
             Listed(b, s) && forall id :: On(b, id, s) ==> a.holder[s] != InHand && HomeList(a.holder[s], a.headers[s]) == id
    ensures LocalInv(b, a.live[x].span)
  {
    hide HeaderOk, Proper, HomeList, On, Listed;
    var s := a.live[x].span;
    assert SpanInv(a, s);
    var f := a.free[s];
    assert NoDup([x] + f);
    forall y | IsBlock(s, b.headers[s], y) ensures Accounted(b, s, y) {
      assert Accounted(a, s, y);
      assert y in [x] + f <==> y == x || y in f;
    }
    assert SpanInv(b, s);
    forall y | y in b.live && b.live[y].span == s ensures LoanInv(b, y) {
      assert LoanInv(a, y);
    }
    forall y | y in b.lost && b.lost[y] == s ensures LostInv(b, y) {
      assert LostInv(a, y);
    }
  }

  /** If every block of a span but x is free, x is the only one on loan and none is lost. */
  lemma OnlyOneOut(a: State, x: int)
    requires LoansInv(a) && x in a.live && LoanInv(a, x)
    requires var s := a.live[x].span; forall y :: IsBlock(s, a.headers[s], y) ==> y in [x] + a.free[s]
    ensures forall y :: y in a.live && a.live[y].span == a.live[x].span ==> y == x
    ensures forall y :: y in a.lost ==> a.lost[y] != a.live[x].span
  {
    hide IsBlock;
    var s := a.live[x].span;
    forall y | y in a.live && a.live[y].span == s ensures y == x {
      assert LoanInv(a, y);
    }
    forall y | y in a.lost ensures a.lost[y] != s {
      assert LostInv(a, y);
    }
  }

  /** A fully free span is merged: none of its blocks is on loan or lost. */
  lemma MergedLocal(a: State, x: int, id: ListId)
    requires Inv(a) && x in a.live && LoanInv(a, x)
    requires var s := a.live[x].span; On(PutBack(a, x), id, s) && a.headers[s].blockNum == |a.free[s]| + 1
    ensures LocalInv(Merged(PutBack(a, x), id, a.live[x].span), a.live[x].span)
  {
    hide HomeList, Accounted, HeaderOk, On, Listed, ListInv, LostInv, IsBlock, TablesOk, Apart;
    var s := a.live[x].span;
    var b := Merged(PutBack(a, x), id, s);
    AllButOne(a, x);
    OnlyOneOut(a, x);
    assert forall i :: !On(b, i, s) by { MergedOffList(a, x, id); }
    MergedSpan(a, x, id);
  }

  /** If all blocks of a span but x are free, every block of the span is x or free. */
  lemma AllButOne(a: State, x: int)
    requires Inv(a) && x in a.live && LoanInv(a, x)
    requires var s := a.live[x].span; a.headers[s].blockNum == |a.free[s]| + 1
    ensures var s := a.live[x].span; forall y :: IsBlock(s, a.headers[s], y) ==> y in [x] + a.free[s]
  {
    hide HomeList, Accounted, On, Listed, ListInv, TablesOk, Apart, Owns, Proper;
    var s := a.live[x].span;
    assert SpanInv(a, s);
    var f := [x] + a.free[s];
    assert NoDup(f);
    assert IsBlock(s, a.headers[s], x);
    FullList(s, a.headers[s], f);
  }

  lemma MergedOffList(a: State, x: int, id: ListId)
    requires ListsInv(a) && x in a.live && a.live[x].span in a.free && a.live[x].span in a.headers
    requires On(PutBack(a, x), id, a.live[x].span)
    ensures forall i :: !On(Merged(PutBack(a, x), id, a.live[x].span), i, a.live[x].span)
  {
    hide ListInv;
    ListsWithout(PutBack(a, x), id, a.live[x].span);
  }

  lemma MergedSpan(a: State, x: int, id: ListId)
    requires SpansInv(a) && x in a.live && a.live[x].span in a.free && a.live[x].span in a.headers
    requires On(PutBack(a, x), id, a.live[x].span)
    ensures SpanInv(Merged(PutBack(a, x), id, a.live[x].span), a.live[x].span)
  {
    hide HomeList, Owns, On, Accounted;
    assert SpanInv(a, a.live[x].span);
  }

  /** A thread cache takes a block back. */
  lemma ThreadReturnKeeps(st: State, x: int)
    requires Inv(st) && Quiet(st) && x in st.live
    requires st.live[x].span in st.holder && st.holder[st.live[x].span] == OfThread(st.live[x].thread)
    ensures var s := st.live[x].span;
            ThreadOwns(st, x) && (st.free[s] == [] ==> Unlisted(st.lists, s))
            && Inv(ThreadReturn(st, x)) && QuietBut(ThreadReturn(st, x), s)
            && (|st.free[s]| + 1 == st.headers[s].blockNum || Quiet(ThreadReturn(st, x)))
            && 2 <= st.headers[s].blockNum
  {
    hide HeaderOk, On, OnlySpan, IsBlock, SpansInv, ListsInv, TablesOk, ThreadReturn;
    var s := st.live[x].span;
    assert LoanInv(st, x) && QuietSpan(st, s);
    ThreadReturnStep(st, x);
    OthersQuiet(st, ThreadReturn(st, x), s);
  }

  lemma ThreadReturnStep(st: State, x: int)
    requires Inv(st) && x in st.live && st.live[x].span in st.headers && st.live[x].span in st.free
    requires st.live[x].span in st.holder && st.holder[st.live[x].span] == OfThread(st.live[x].thread)
    requires QuietSpan(st, st.live[x].span)
    ensures var s := st.live[x].span;
            ThreadOwns(st, x) && (st.free[s] == [] ==> Unlisted(st.lists, s))
            && var b := ThreadReturn(st, x);
               Inv(b) && OnlySpan(st, b, s)
               && (|st.free[s]| + 1 == st.headers[s].blockNum
                   || (s in b.headers && s in b.holder && s in b.free && QuietSpan(b, s)))
               && 2 <= st.headers[s].blockNum
  {
    hide HeaderOk, On, LocalInv, OnlySpan, IsBlock, Accounted, ShelvesOk, TablesOk;
    var s := st.live[x].span;
    assert LoanInv(st, x) && SpanInv(st, s);
    ThreadTable(st, s, st.live[x].thread);
    ReturnPlace(st, x);
    var b := ThreadReturn(st, x);
    PutBackOnlySpan(st, b, x);
    if |st.free[s]| + 1 == st.headers[s].blockNum {
      MergedLocal(st, x, ThreadList(st.live[x].thread, Size2Slot(st.headers[s].blockSize)));
    } else {
      PutBackLocal(st, b, x);
    }
    OneSpanStep(st, b, s);
  }

  lemma ThreadTable(st: State, s: int, t: nat)
    requires TablesOk(st) && t in st.threads && s in st.headers && SizeClass(st.headers[s].blockSize)
    requires st.headers[s].blockSize < THREAD_CACHE_MAX_SIZE
    ensures ThreadList(t, Size2Slot(st.headers[s].blockSize)) in st.lists
  {
    ThreadSpans(st.headers[s].blockSize);
  }

  lemma ReturnPlace(st: State, x: int)
    requires Inv(st) && x in st.live && LoanInv(st, x) && st.holder[st.live[x].span] == OfThread(st.live[x].thread)
    requires ThreadList(st.live[x].thread, Size2Slot(st.headers[st.live[x].span].blockSize)) in st.lists
    requires 2 <= st.headers[st.live[x].span].blockNum
    ensures var s := st.live[x].span;
            var id := ThreadList(st.live[x].thread, Size2Slot(st.headers[s].blockSize));
            ThreadOwns(st, x) && (st.free[s] == [] ==> Unlisted(st.lists, s))
            && (On(st, id, s) <==> On(PutBack(st, x), id, s))
            && var b := ThreadReturn(st, x);
               ShelvesOk(b) && st.lists.Keys == b.lists.Keys
               && (forall u, i :: u != s ==> (On(st, i, u) <==> On(b, i, u)))
               && (|st.free[s]| + 1 == st.headers[s].blockNum || (Listed(b, s) && forall i :: On(b, i, s) ==> i == id))
  {
    hide HeaderOk, Proper, IsBlock, Accounted, TablesOk;
    var s := st.live[x].span;
    var id := ThreadList(st.live[x].thread, Size2Slot(st.headers[s].blockSize));
    assert SpanInv(st, s);
    forall i | On(st, i, s) ensures i == id {
      OnItsList(st, i, s);
    }
    SamePlace(st, st, s);
    if st.free[s] == [] {
      assert Unlisted(st.lists, s);
      ListsPush(st, id, s);
    } else {
      ListsWithout(st, id, s);
    }
  }

  // ---------------------------------------------------------------- the central cache

  /** CentralCache::TakeBackMemBlock up to the point where the span goes to the page cache. */
  lemma CentralReturnKeeps(st: State, x: int)
    requires Inv(st) && Quiet(st) && x in st.live
    requires st.live[x].span in st.holder && st.holder[st.live[x].span] == OfCentral
    ensures var s := st.live[x].span;
            s in st.headers && s in st.free && st.free[s] == [] && st.headers[s].blockNum == 1
            && On(st, CentralList(Size2Slot(st.headers[s].blockSize)), s)
            && var b := Merged(PutBack(st, x), CentralList(Size2Slot(st.headers[s].blockSize)), s);
               Inv(b) && QuietBut(b, s)
  {
    hide HeaderOk, OnlySpan, IsBlock, SpansInv, ListsInv, TablesOk;
    var s := st.live[x].span;
    assert LoanInv(st, x) && QuietSpan(st, s);
    CentralReturnStep(st, x);
    OthersQuiet(st, Merged(PutBack(st, x), CentralList(Size2Slot(st.headers[s].blockSize)), s), s);
  }

  lemma CentralReturnStep(st: State, x: int)
    requires Inv(st) && x in st.live && st.live[x].span in st.headers && st.live[x].span in st.free
    requires st.live[x].span in st.holder && st.holder[st.live[x].span] == OfCentral
    requires QuietSpan(st, st.live[x].span)
    ensures var s := st.live[x].span;
            st.free[s] == [] && st.headers[s].blockNum == 1
            && On(st, CentralList(Size2Slot(st.headers[s].blockSize)), s)
            && var b := Merged(PutBack(st, x), CentralList(Size2Slot(st.headers[s].blockSize)), s);
               Inv(b) && OnlySpan(st, b, s)
  {
    hide HeaderOk, LocalInv, OnlySpan, IsBlock, Accounted, TablesOk;
    var s := st.live[x].span;
    assert LoanInv(st, x) && SpanInv(st, s);
    var id := CentralList(Size2Slot(st.headers[s].blockSize));
    assert On(st, id, s);
    var b := Merged(PutBack(st, x), id, s);
    ListsWithout(st, id, s);
    SamePlace(st, st, s);
    assert forall u, i :: u != s ==> (On(st, i, u) <==> On(b, i, u));
    assert ShelvesOk(b);
    PutBackOnlySpan(st, b, x);
    MergedLocal(st, x, id);
    OneSpanStep(st, b, s);
  }

  /** A block of the largest size is freed, but nobody takes it back. */
  function Lose(st: State, x: int): State
    requires x in st.live
  {
    st.(live := st.live - {x}, lost := st.lost[x := st.live[x].span])
  }

  lemma LoseKeeps(st: State, x: int)
    requires Inv(st) && Quiet(st) && x in st.live && st.live[x].span in st.headers
    requires BlockTier(st.headers[st.live[x].span].blockSize) == NoTier
    ensures Inv(Lose(st, x)) && Quiet(Lose(st, x))
  {
    hide HeaderOk, OnlySpan, IsBlock, SpansInv, ListsInv, TablesOk, Lose;
    assert LoanInv(st, x) && QuietSpan(st, st.live[x].span);
    LoseStep(st, x);
    OthersQuiet(st, Lose(st, x), st.live[x].span);
  }

  lemma LoseStep(st: State, x: int)
    requires Inv(st) && x in st.live && st.live[x].span in st.headers
    requires BlockTier(st.headers[st.live[x].span].blockSize) == NoTier
    ensures var s, b := st.live[x].span, Lose(st, x);
            && Inv(b) && OnlySpan(st, b, s) && s in st.holder && s in st.free
            && s in b.headers && s in b.holder && s in b.free && (QuietSpan(st, s) ==> QuietSpan(b, s))
  {
    hide HeaderOk, HomeList, On, IsBlock;
    var s := st.live[x].span;
    var b := Lose(st, x);
    assert LoanInv(st, x) && SpanInv(st, s);
    assert st.headers[s].blockSize == CENTRAL_CACHE_MAX_SIZE && st.holder[s] == OfCentral;
    SamePlace(st, b, s);
    forall u | u != s ensures SameSpan(st, b, u) {
      if u in st.headers {
        assert SpanInv(st, u);
      }
    }
    forall y | y in b.live && b.live[y].span != s ensures y !in b.lost {
      assert LoanInv(st, y);
    }
    assert OnlySpan(st, b, s);
    LoseLocal(st, x);
    OneSpanStep(st, b, s);
  }

  lemma LoseLocal(st: State, x: int)
    requires Inv(st) && x in st.live && st.live[x].span in st.headers && st.live[x].span in st.holder
    requires st.headers[st.live[x].span].blockSize == CENTRAL_CACHE_MAX_SIZE && st.holder[st.live[x].span] == OfCentral
    ensures LocalInv(Lose(st, x), st.live[x].span)
  {
    hide HeaderOk, HomeList, IsBlock;
    var s, b := st.live[x].span, Lose(st, x);
    assert SpanInv(st, s);
    forall y | IsBlock(s, b.headers[s], y) ensures Accounted(b, s, y) {
      assert Accounted(st, s, y);
    }
    assert On(st, HomeList(st.holder[s], st.headers[s]), s) <==> On(b, HomeList(st.holder[s], st.headers[s]), s);
    assert SpanInv(b, s);
    forall y | y in b.live && b.live[y].span == s ensures LoanInv(b, y) {
      assert LoanInv(st, y);
    }
    forall y | y in b.lost && b.lost[y] == s ensures LostInv(b, y) {
      if y == x {
        assert LoanInv(st, x);
      } else {
        assert LostInv(st, y);
      }
    }
    forall id | On(b, id, s) ensures HomeList(b.holder[s], b.headers[s]) == id {
      OnItsList(st, id, s);
    }
  }

  // ---------------------------------------------------------------- spans in hand

  /** The blocks of a span in address order. */
  function Blocks(s: int, size: int, n: nat): (r: seq<int>)
    ensures |r| == n && forall i :: 0 <= i < n ==> r[i] == BlockAt(s, size, i)
  {
    if n == 0 then [] else Blocks(s, size, n - 1) + [BlockAt(s, size, n - 1)]
  }

  /** They are all the blocks there is room for, each once. */
  lemma BlocksAreMaximal(s: int, pageNum: int, size: int)
    requires size > 0 && BlockCount(pageNum, size) >= 0
    ensures var n := BlockCount(pageNum, size);
            NoDup(Blocks(s, size, n)) && BlockAt(s, size, n) <= s + pageNum * PAGE_SIZE < BlockAt(s, size, n + 1)
            && forall a :: a in Blocks(s, size, n) <==> IsBlock(s, Header(pageNum, size, n), a)
  {
    var n := BlockCount(pageNum, size);
    var f := Blocks(s, size, n);
    DivBounds(pageNum * PAGE_SIZE - SPAN_HEAD_SIZE, size);
    assert (n + 1) * size == size * n + size;
    forall i, j | 0 <= i < j < |f| ensures f[i] != f[j] {
      BlocksApart(s, size, i, j);
    }
    forall a | IsBlock(s, Header(pageNum, size, n), a) ensures a in f {
      var i :| 0 <= i < n && a == BlockAt(s, size, i);
      assert f[i] == a;
    }
  }

  /** Span::Split. */
  function Divide(st: State, s: int, size: int): State
    requires s in st.headers && size > 0 && BlockCount(st.headers[s].pageNum, size) >= 0
  {
    var n := BlockCount(st.headers[s].pageNum, size);
    st.(headers := st.headers[s := Header(st.headers[s].pageNum, size, n)], free := st.free[s := Blocks(s, size, n)])
  }

  /** A span in hand is on no list, and none of its blocks is on loan or lost. */
  lemma HandIsFree(st: State, s: int)
    requires ListsInv(st) && LoansInv(st) && s in st.holder && st.holder[s] == InHand
    ensures Unlisted(st.lists, s) && forall id :: !On(st, id, s)
    ensures forall x :: x in st.live ==> st.live[x].span != s
    ensures forall x :: x in st.lost ==> st.lost[x] != s
  {
    forall x | x in st.live ensures st.live[x].span != s {
      assert LoanInv(st, x);
    }
    forall x | x in st.lost ensures st.lost[x] != s {
      assert LostInv(st, x);
    }
    forall id | id in st.lists ensures s !in st.lists[id] {
      assert ListInv(st, id);
    }
  }

  /** A step of a span in hand that changes nothing else. */
  lemma HandOnlySpan(a: State, b: State, s: int)
    requires Inv(a) && a.threads == b.threads && a.live == b.live && a.lost == b.lost && a.lists.Keys == b.lists.Keys
    requires forall t :: t != s ==>
               (t in b.headers <==> t in a.headers) && (t in b.holder <==> t in a.holder) && (t in b.free <==> t in a.free)
    requires forall t :: t != s && t in a.headers ==> b.headers[t] == a.headers[t] && Owns(b.mapped, t, a.headers[t].pageNum)
    requires forall t :: t != s && t in a.holder ==> b.holder[t] == a.holder[t]
    requires forall t :: t != s && t in a.free ==> b.free[t] == a.free[t]
    requires forall u, id :: u != s ==> (On(a, id, u) <==> On(b, id, u))
    ensures OnlySpan(a, b, s)
  {
    hide On, HeaderOk, IsBlock, SpansInv, ListsInv, TablesOk, DeadSpansOk, Owns;
    forall u | u != s ensures SameSpan(a, b, u) {
    }
    forall y | y in b.live ensures y !in b.lost {
      assert LoanInv(a, y);
    }
  }

  lemma StillOwned(st: State)
    requires SpansInv(st)
    ensures forall t :: t in st.headers ==> Owns(st.mapped, t, st.headers[t].pageNum)
  {
    forall t | t in st.headers ensures Owns(st.mapped, t, st.headers[t].pageNum) {
      assert SpanInv(st, t);
    }
  }

  lemma DivideKeeps(st: State, s: int, size: int)
    requires Inv(st) && QuietBut(st, s) && s in st.headers && s in st.holder && st.holder[s] == InHand
    requires st.headers[s].blockSize == -1 && SizeClass(size) && BlockCount(st.headers[s].pageNum, size) >= 1
    ensures Inv(Divide(st, s, size)) && QuietBut(Divide(st, s, size), s)
  {
    hide Inv, OnlySpan, Divide;
    DivideStep(st, s, size);
    OthersQuiet(st, Divide(st, s, size), s);
  }

  lemma DivideStep(st: State, s: int, size: int)
    requires Inv(st) && s in st.headers && s in st.holder && st.holder[s] == InHand
    requires st.headers[s].blockSize == -1 && SizeClass(size) && BlockCount(st.headers[s].pageNum, size) >= 1
    ensures Inv(Divide(st, s, size)) && OnlySpan(st, Divide(st, s, size), s)
  {
    hide On, LoanInv, LostInv, ListInv, TablesOk, Owns;
    var b := Divide(st, s, size);
    assert SpanInv(st, s);
    HandIsFree(st, s);
    StillOwned(st);
    SamePlace(st, b, s);
    HandOnlySpan(st, b, s);
    BlocksAreMaximal(s, st.headers[s].pageNum, size);
    assert SpanInv(b, s) by {
      forall x | IsBlock(s, b.headers[s], x) ensures Accounted(b, s, x) {
      }
    }
    OneSpanStep(st, b, s);
  }

  /** A span in hand goes to a cache: to the back of a thread's list, to the front of the others. */
  function Shelve(st: State, s: int, who: Holder): State
    requires s in st.headers && HomeList(who, st.headers[s]) in st.lists
  {
    var id := HomeList(who, st.headers[s]);
    st.(holder := st.holder[s := who],
        lists := st.lists[id := if who.OfThread? then st.lists[id] + [s] else [s] + st.lists[id]])
  }

  /** A span that is the same but for its place. */
  lemma Moved(a: State, b: State, s: int)
    requires SpanInv(a, s) && s in b.headers && s in b.holder && s in b.free
    requires a.headers[s] == b.headers[s] && a.free[s] == b.free[s] && a.live == b.live && a.lost == b.lost
    requires Owns(b.mapped, s, b.headers[s].pageNum) && Proper(b.holder[s], b.headers[s]) && Listed(b, s)
    ensures SpanInv(b, s)
  {
    hide Owns, Proper, Listed, HeaderOk, IsBlock;
    forall x | IsBlock(s, b.headers[s], x) ensures Accounted(b, s, x) {
      assert Accounted(a, s, x);
    }
  }

  lemma ShelvePlace(st: State, s: int, who: Holder)
    requires Inv(st) && s in st.headers && s in st.free && s in st.holder && st.holder[s] == InHand
    requires who != InHand && HomeList(who, st.headers[s]) in st.lists
    requires who.OfThread? ==> who.thread in st.threads && st.free[s] != []
    requires who == OfPages ==> |st.lists[HomeList(who, st.headers[s])]| < SPAN_MAX_LIST_SIZE
    ensures var b := Shelve(st, s, who);
            ShelvesOk(b) && st.lists.Keys == b.lists.Keys && Listed(b, s)
            && (forall u, i :: u != s ==> (On(st, i, u) <==> On(b, i, u)))
            && (forall i :: On(b, i, s) ==> i == HomeList(who, st.headers[s]))
  {
    hide SpanInv, LoanInv, LostInv, TablesOk, DeadSpansOk;
    HandIsFree(st, s);
    SamePlace(st, st, s);
    ListsPush(st, HomeList(who, st.headers[s]), s);
  }

  lemma ShelveKeeps(st: State, s: int, who: Holder)
    requires Inv(st) && QuietBut(st, s) && s in st.headers && s in st.holder && s in st.free && st.holder[s] == InHand
    requires who != InHand && Proper(who, st.headers[s]) && HomeList(who, st.headers[s]) in st.lists
    requires who.OfThread? ==> who.thread in st.threads && st.free[s] != []
    requires who == OfPages ==> |st.lists[HomeList(who, st.headers[s])]| < SPAN_MAX_LIST_SIZE
    ensures Inv(Shelve(st, s, who)) && QuietBut(Shelve(st, s, who), s)
  {
    hide Inv, OnlySpan, Shelve, Proper, HomeList;
    ShelveStep(st, s, who);
    OthersQuiet(st, Shelve(st, s, who), s);
  }

  lemma ShelveStep(st: State, s: int, who: Holder)
    requires Inv(st) && s in st.headers && s in st.holder && s in st.free && st.holder[s] == InHand
    requires who != InHand && Proper(who, st.headers[s]) && HomeList(who, st.headers[s]) in st.lists
    requires who.OfThread? ==> who.thread in st.threads && st.free[s] != []
    requires who == OfPages ==> |st.lists[HomeList(who, st.headers[s])]| < SPAN_MAX_LIST_SIZE
    ensures Inv(Shelve(st, s, who)) && OnlySpan(st, Shelve(st, s, who), s)
  {
    hide SpanInv, LoanInv, LostInv, ListInv, TablesOk, Owns, On, Listed, ShelvesOk, Proper;
    var b := Shelve(st, s, who);
    HandIsFree(st, s);
    StillOwned(st);
    ShelvePlace(st, s, who);
    HandOnlySpan(st, b, s);
    assert SpanInv(st, s);
    Moved(st, b, s);
    OneSpanStep(st, b, s);
  }

  /** The page cache hands out the front span of a list. */
  function Unshelve(st: State, n: int): State
    requires PageList(n) in st.lists && st.lists[PageList(n)] != []
  {
    var f := st.lists[PageList(n)];
    st.(holder := st.holder[f[0] := InHand], lists := st.lists[PageList(n) := f[1..]])
  }

  lemma UnshelveKeeps(st: State, n: int)
    requires Inv(st) && Quiet(st) && PageList(n) in st.lists && st.lists[PageList(n)] != []
    ensures var s := st.lists[PageList(n)][0];
            s in st.headers && st.headers[s] == Header(n, -1, 0)
            && Inv(Unshelve(st, n)) && QuietBut(Unshelve(st, n), s)
  {
    hide Inv, OnlySpan, Unshelve;
    UnshelveStep(st, n);
    OthersQuiet(st, Unshelve(st, n), st.lists[PageList(n)][0]);
  }

  lemma UnshelveStep(st: State, n: int)
    requires Inv(st) && PageList(n) in st.lists && st.lists[PageList(n)] != []
    ensures var s := st.lists[PageList(n)][0];
            s in st.headers && s in st.holder && st.holder[s] == OfPages && st.headers[s] == Header(n, -1, 0)
            && Inv(Unshelve(st, n)) && OnlySpan(st, Unshelve(st, n), s)
  {
    hide TablesOk, Owns, IsBlock, Accounted, On, ShelvesOk, LoanInv, LostInv, ListInv, NoDup;
    var b, s := Unshelve(st, n), st.lists[PageList(n)][0];
    ShelvedSpan(st, n);
    StillOwned(st);
    UnshelvePlace(st, n);
    NoLoans(st, s);
    HandOnlySpan(st, b, s);
    Moved(st, b, s);
    OneSpanStep(st, b, s);
  }

  lemma ShelvedSpan(st: State, n: int)
    requires Inv(st) && PageList(n) in st.lists && st.lists[PageList(n)] != []
    ensures var s := st.lists[PageList(n)][0];
            On(st, PageList(n), s) && SpanInv(st, s) && st.holder[s] == OfPages && st.headers[s] == Header(n, -1, 0)
  {
    hide TablesOk, Owns, IsBlock, Accounted, Listed, NoDup, LoansInv;
    var s := st.lists[PageList(n)][0];
    assert s in st.lists[PageList(n)];
    OnItsList(st, PageList(n), s);
    assert SpanInv(st, s);
  }

  lemma UnshelvePlace(st: State, n: int)
    requires ListsInv(st) && PageList(n) in st.lists && st.lists[PageList(n)] != []
    ensures var b, s := Unshelve(st, n), st.lists[PageList(n)][0];
            ShelvesOk(b) && st.lists.Keys == b.lists.Keys
            && (forall u, i :: u != s ==> (On(st, i, u) <==> On(b, i, u)))
            && (forall i :: !On(b, i, s))
  {
    var f := st.lists[PageList(n)];
    assert f[1..] == Without(f, f[0]);
    ListsWithout(st, PageList(n), f[0]);
    SamePlace(st, st, f[0]);
  }

  lemma NoLoans(st: State, s: int)
    requires LoansInv(st) && s in st.holder && st.holder[s] == OfPages
    ensures forall x :: x in st.live ==> st.live[x].span != s
    ensures forall x :: x in st.lost ==> st.lost[x] != s
  {
    forall x | x in st.live ensures st.live[x].span != s {
      assert LoanInv(st, x);
    }
    forall x | x in st.lost ensures st.lost[x] != s {
      assert LostInv(st, x);
    }
  }

  /** deleteSpan: the memory of a span in hand is unmapped. */
  function Drop(st: State, s: int, mapped: PageMap): State {
    st.(mapped := mapped, headers := st.headers - {s}, holder := st.holder - {s})
  }

  lemma DropKeeps(st: State, s: int, mapped: PageMap)
    requires Inv(st) && QuietBut(st, s) && s in st.headers && s in st.holder && st.holder[s] == InHand
    requires st.headers[s].blockSize == -1 && Unmapped(st.mapped, mapped, s, st.headers[s].pageNum)
    ensures Inv(Drop(st, s, mapped)) && Quiet(Drop(st, s, mapped))
  {
    hide Inv, OnlySpan, Unmapped;
    DropStep(st, s, mapped);
    OthersQuiet(st, Drop(st, s, mapped), s);
  }

  lemma DropStep(st: State, s: int, mapped: PageMap)
    requires Inv(st) && s in st.headers && s in st.holder && st.holder[s] == InHand
    requires st.headers[s].blockSize == -1 && Unmapped(st.mapped, mapped, s, st.headers[s].pageNum)
    ensures Inv(Drop(st, s, mapped)) && OnlySpan(st, Drop(st, s, mapped), s)
  {
    hide TablesOk, Owns, Unmapped, HeaderOk, Listed, On, LoanInv, LostInv;
    var b := Drop(st, s, mapped);
    assert SpanInv(st, s);
    HandIsFree(st, s);
    StillOwned(st);
    forall t | t != s && t in st.headers ensures Owns(mapped, t, st.headers[t].pageNum) {
      OthersStay(st.mapped, mapped, s, st.headers[s].pageNum, t, st.headers[t].pageNum);
    }
    SamePlace(st, b, s);
    HandOnlySpan(st, b, s);
    assert st.free[s] == [] by {
      UnsplitIsEmpty(st, s);
    }
    OneSpanStep(st, b, s);
  }

  /** mallocSpan: a span in hand on memory just mapped. */
  function Fresh(st: State, s: int, n: int, mapped: PageMap): State {
    st.(mapped := mapped, headers := st.headers[s := Header(n, -1, 0)], free := st.free[s := []],
        holder := st.holder[s := InHand])
  }

  lemma FreshKeeps(st: State, s: int, n: int, mapped: PageMap)
    requires Inv(st) && Quiet(st) && 1 <= n < PC_SPAN_LIST_NUM && Mapped(st.mapped, mapped, s, n)
    ensures s !in st.headers && Inv(Fresh(st, s, n, mapped)) && QuietBut(Fresh(st, s, n, mapped), s)
  {
    hide Inv, OnlySpan, Mapped, Fresh;
    FreshStep(st, s, n, mapped);
    OthersQuiet(st, Fresh(st, s, n, mapped), s);
  }

  lemma FreshStep(st: State, s: int, n: int, mapped: PageMap)
    requires Inv(st) && 1 <= n < PC_SPAN_LIST_NUM && Mapped(st.mapped, mapped, s, n)
    ensures s !in st.headers && Inv(Fresh(st, s, n, mapped)) && OnlySpan(st, Fresh(st, s, n, mapped), s)
  {
    hide TablesOk, Owns, Mapped, LoanInv, LostInv, SpanInv, On, ListInv;
    var b := Fresh(st, s, n, mapped);
    StillOwned(st);
    forall t | t in st.headers ensures t != s && Owns(mapped, t, st.headers[t].pageNum) {
      PageNumOk(st, t);
      NewMappingApart(st.mapped, mapped, s, n, t, st.headers[t].pageNum);
    }
    NotThere(st, s);
    SamePlace(st, b, s);
    HandOnlySpan(st, b, s);
    MappedOwns(st.mapped, mapped, s, n);
    NewSpanInv(b, s, n);
    OneSpanStep(st, b, s);
  }

  lemma PageNumOk(st: State, s: int)
    requires SpansInv(st) && s in st.headers
    ensures st.headers[s].pageNum > 0
  {
    assert SpanInv(st, s);
  }

  lemma NewSpanInv(b: State, s: int, n: int)
    requires s in b.headers && s in b.holder && s in b.free && b.headers[s] == Header(n, -1, 0) && b.free[s] == []
    requires b.holder[s] == InHand && 1 <= n < PC_SPAN_LIST_NUM && Owns(b.mapped, s, n)
    ensures SpanInv(b, s)
  {
    hide Owns;
  }

  lemma MappedOwns(before: PageMap, after: PageMap, s: int, n: int)
    requires Mapped(before, after, s, n)
    ensures Owns(after, s, n)
  {
  }

  lemma NotThere(st: State, s: int)
    requires ListsInv(st) && LoansInv(st) && s !in st.headers
    ensures forall id :: !On(st, id, s)
    ensures forall x :: x in st.live ==> st.live[x].span != s
    ensures forall x :: x in st.lost ==> st.lost[x] != s
  {
    forall x | x in st.live ensures st.live[x].span != s {
      assert LoanInv(st, x);
    }
    forall x | x in st.lost ensures st.lost[x] != s {
      assert LostInv(st, x);
    }
    forall id ensures !On(st, id, s) {
      if id in st.lists {
        assert ListInv(st, id);
      }
    }
  }

  /** More memory is mapped, for something other than spans. */
  lemma RemapKeeps(st: State, mapped: PageMap)
    requires Inv(st) && forall i :: i in st.mapped ==> i in mapped && mapped[i] == st.mapped[i]
    ensures Inv(st.(mapped := mapped)) && forall x :: QuietBut(st, x) ==> QuietBut(st.(mapped := mapped), x)
    ensures Quiet(st) ==> Quiet(st.(mapped := mapped))
  {
    hide HeaderOk, IsBlock, Accounted, HomeList, TablesOk;
    var b := st.(mapped := mapped);
    forall s | s in b.headers ensures SpanInv(b, s) {
      assert SpanInv(st, s);
      Moved(st, b, s);
    }
    forall x | x in b.live ensures LoanInv(b, x) {
      assert LoanInv(st, x);
    }
    forall x | x in b.lost ensures LostInv(b, x) {
      assert LostInv(st, x);
    }
    forall id | id in b.lists ensures ListInv(b, id) {
      assert ListInv(st, id);
    }
    assert TablesOk(b) by {
      SameTables(st, b);
    }
    QuietSame(st, b);
  }

  lemma SameTables(a: State, b: State)
    requires TablesOk(a) && a.lists == b.lists && a.threads == b.threads
    ensures TablesOk(b)
  {
  }

  lemma QuietSame(a: State, b: State)
    requires a.headers == b.headers && a.holder == b.holder && a.free == b.free
    ensures Quiet(a) ==> Quiet(b)
    ensures forall x :: QuietBut(a, x) ==> QuietBut(b, x)
  {
    forall s | s in a.headers && s in a.holder && s in a.free ensures QuietSpan(a, s) <==> QuietSpan(b, s) {
    }
    forall x | QuietBut(a, x) ensures QuietBut(b, x) {
    }
  }

  /** newThreadCacheBySystem: a thread gets a table of empty lists. */
  lemma NewThreadKeeps(st: State, t: nat, mapped: PageMap, lists: map<ListId, seq<int>>)
    requires Inv(st) && t !in st.threads
    requires forall i :: i in st.mapped ==> i in mapped && mapped[i] == st.mapped[i]
    requires forall id :: id in st.lists ==> id in lists && lists[id] == st.lists[id]
    requires forall id :: id in lists && id !in st.lists ==> id.ThreadList? && id.thread == t && lists[id] == []
    requires forall n :: 0 <= n < TC_SPAN_LIST_NUM ==> ThreadList(t, n) in lists
    ensures var b := st.(mapped := mapped, threads := st.threads + {t}, lists := lists);
            Inv(b) && (Quiet(st) ==> Quiet(b))
  {
    hide HeaderOk, IsBlock, Accounted, Proper;
    var b := st.(mapped := mapped, threads := st.threads + {t}, lists := lists);
    forall s | s in b.headers ensures SpanInv(b, s) {
      assert SpanInv(st, s);
      OnWider(st, b, HomeList(st.holder[s], st.headers[s]), s);
      Moved(st, b, s);
    }
    forall x | x in b.live ensures LoanInv(b, x) {
      assert LoanInv(st, x);
    }
    forall x | x in b.lost ensures LostInv(b, x) {
      assert LostInv(st, x);
    }
    forall id | id in b.lists ensures ListInv(b, id) {
      if id in st.lists {
        assert ListInv(st, id);
      }
    }
    QuietSame(st, b);
  }

  lemma OnWider(a: State, b: State, id: ListId, s: int)
    requires forall i :: i in a.lists ==> i in b.lists && b.lists[i] == a.lists[i]
    requires forall i :: i in b.lists && i !in a.lists ==> b.lists[i] == []
    ensures On(a, id, s) <==> On(b, id, s)
  {
  }
}
