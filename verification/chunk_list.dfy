/**
 ChunkList of util.h: circular doubly linked lists whose links live inside the chunks.

 A table holds the link memory of all lists of one kind: one next_ and one prev_ per chunk,
 which is why a chunk can be on one list at a time, and one head and counter per list.
 */
module ChunkList {

  /** A pointer to a chunk, or to the head inside a list. */
  datatype Ptr<L> = Head(list: L) | Chunk(addr: int)

  type Links<!L(==)> = map<Ptr<L>, Ptr<L>>

  // ---------------------------------------------------------------- one list

  /** The node at position i of the circle: the head is at both ends. */
  function Node<L>(l: L, s: seq<int>, i: int): Ptr<L> {
    if 0 < i <= |s| then Chunk(s[i - 1]) else Head(l)
  }

  /** The links run through the head and the elements of s, forwards and backwards. */
  ghost predicate Linked<L>(next: Links<L>, prev: Links<L>, l: L, s: seq<int>) {
    forall i :: 0 <= i <= |s| ==> Step(next, prev, Node(l, s, i), Node(l, s, i + 1))
  }

  ghost predicate Step<L>(next: Links<L>, prev: Links<L>, a: Ptr<L>, b: Ptr<L>) {
    a in next && next[a] == b && b in prev && prev[b] == a
  }

  ghost predicate NoDup(s: seq<int>) {
    forall i, j :: 0 <= i < j < |s| ==> s[i] != s[j]
  }

  function Index(s: seq<int>, k: int): (i: nat)
    requires k in s
    ensures i < |s| && s[i] == k
  {
    if s[0] == k then 0 else 1 + Index(s[1..], k)
  }

  function Without(s: seq<int>, k: int): (r: seq<int>)
    requires k in s
    ensures |r| == |s| - 1
  {
    s[..Index(s, k)] + s[Index(s, k) + 1..]
  }

  // ---------------------------------------------------------------- the four writes of insert

  function InsertNext<L>(next: Links<L>, cur: Ptr<L>, first: Ptr<L>, last: Ptr<L>): Links<L>
    requires cur in next
  {
    next[cur := first][last := next[cur]]
  }

  function InsertPrev<L>(next: Links<L>, prev: Links<L>, cur: Ptr<L>, first: Ptr<L>, last: Ptr<L>): Links<L>
    requires cur in next
  {
    prev[next[cur] := last][first := cur]
  }

  /** A chain that is linked inside. */
  ghost predicate Chained<L(!new)>(next: Links<L>, prev: Links<L>, c: seq<int>) {
    forall i :: 0 < i < |c| ==> Step(next, prev, Chunk(c[i - 1]), Chunk(c[i]))
  }

  /** Splicing a linked chain into a list behind its first n elements. */
  lemma SpliceLinks<L(!new)>(next: Links<L>, prev: Links<L>, l: L, s: seq<int>, n: nat, c: seq<int>)
    requires n <= |s| && c != [] && Linked(next, prev, l, s) && Chained(next, prev, c) && NoDup(s + c)
    ensures var cur, first, last := Node(l, s, n), Ptr<L>.Chunk(c[0]), Ptr<L>.Chunk(c[|c| - 1]);
            cur in next
              && Linked(InsertNext(next, cur, first, last), InsertPrev(next, prev, cur, first, last), l, s[..n] + c + s[n..])
  {
    var cur, first, last := Node(l, s, n), Ptr<L>.Chunk(c[0]), Ptr<L>.Chunk(c[|c| - 1]);
    assert Step(next, prev, Node(l, s, n), Node(l, s, n + 1));
    var next', prev' := InsertNext(next, cur, first, last), InsertPrev(next, prev, cur, first, last);
    var t := s[..n] + c + s[n..];
    forall i | 0 <= i < |s| + |c| ensures (s + c)[i] == if i < |s| then s[i] else c[i - |s|] {
    }
    forall i, j | 0 <= i < |s| && 0 <= j < |c| ensures s[i] != c[j] {
      assert (s + c)[i] != (s + c)[|s| + j];
    }
    forall i, j | 0 <= i < j < |s| ensures s[i] != s[j] {
      assert (s + c)[i] != (s + c)[j];
    }
    forall i, j | 0 <= i < j < |c| ensures c[i] != c[j] {
      assert (s + c)[|s| + i] != (s + c)[|s| + j];
    }
    forall i | 0 <= i <= |t| ensures Step(next', prev', Node(l, t, i), Node(l, t, i + 1)) {
      if i < n {
        assert Step(next, prev, Node(l, s, i), Node(l, s, i + 1));
      } else if n < i < n + |c| {
        assert Step(next, prev, Chunk(c[i - n - 1]), Chunk(c[i - n]));
      } else if i > n + |c| {
        assert Step(next, prev, Node(l, s, i - |c|), Node(l, s, i - |c| + 1));
      }
    }
  }

  /** Unlinking the element at position i. */
  lemma UnlinkLinks<L(!new)>(next: Links<L>, prev: Links<L>, l: L, s: seq<int>, i: nat)
    requires i < |s| && Linked(next, prev, l, s) && NoDup(s)
    ensures var p := Ptr<L>.Chunk(s[i]);
            p in next && p in prev
            && Linked(next[prev[p] := next[p]], prev[next[p] := prev[p]], l, s[..i] + s[i + 1..])
  {
    assert Step(next, prev, Node(l, s, i), Node(l, s, i + 1));
    assert Step(next, prev, Node(l, s, i + 1), Node(l, s, i + 2));
    var p, t := Ptr<L>.Chunk(s[i]), s[..i] + s[i + 1..];
    var next', prev' := next[prev[p] := next[p]], prev[next[p] := prev[p]];
    forall j | 0 <= j <= |t| ensures Step(next', prev', Node(l, t, j), Node(l, t, j + 1)) {
      if j < i {
        assert Step(next, prev, Node(l, s, j), Node(l, s, j + 1));
      } else if j > i {
        assert Step(next, prev, Node(l, s, j + 1), Node(l, s, j + 2));
      }
    }
  }

  /** A list is not disturbed by writes to other nodes. */
  lemma FrameLinks<L(!new)>(next: Links<L>, prev: Links<L>, next': Links<L>, prev': Links<L>, l: L, s: seq<int>)
    requires Linked(next, prev, l, s)
    requires forall i :: 0 <= i <= |s| ==>
               Kept(next, next', Node(l, s, i)) && Kept(prev, prev', Node(l, s, i))
    ensures Linked(next', prev', l, s)
  {
    forall i | 0 <= i <= |s| ensures Step(next', prev', Node(l, s, i), Node(l, s, i + 1)) {
      assert Step(next, prev, Node(l, s, i), Node(l, s, i + 1));
      assert Kept(next, next', Node(l, s, i));
      if i == |s| {
        assert Node(l, s, i + 1) == Node(l, s, 0);
        assert Kept(prev, prev', Node(l, s, 0));
      } else {
        assert Kept(prev, prev', Node(l, s, i + 1));
      }
    }
  }

  ghost predicate Kept<L>(links: Links<L>, links': Links<L>, p: Ptr<L>) {
    p in links ==> p in links' && links'[p] == links[p]
  }

  // ---------------------------------------------------------------- all lists of a table

  /** No chunk is on two lists, or twice on one. */
  ghost predicate Apart<L(!new)>(lists: map<L, seq<int>>) {
    (forall l :: l in lists ==> NoDup(lists[l])) &&
    (forall l, m, k :: l in lists && m in lists && l != m && k in lists[l] ==> k !in lists[m])
  }

  ghost predicate AllLinked<L(!new)>(next: Links<L>, prev: Links<L>, lists: map<L, seq<int>>) {
    forall l :: l in lists ==> Linked(next, prev, l, lists[l])
  }

  ghost predicate Unlisted<L(!new)>(lists: map<L, seq<int>>, k: int) {
    forall l :: l in lists ==> k !in lists[l]
  }

  /** Splicing unlisted chunks into one list leaves all lists linked and apart. */
  lemma SpliceLists<L(!new)>(next: Links<L>, prev: Links<L>, lists: map<L, seq<int>>, l: L, n: nat, c: seq<int>)
    requires l in lists && n <= |lists[l]| && c != [] && NoDup(c) && Chained(next, prev, c)
    requires AllLinked(next, prev, lists) && Apart(lists)
    requires forall k :: k in c ==> Unlisted(lists, k)
    ensures var cur, first, last := Node(l, lists[l], n), Ptr<L>.Chunk(c[0]), Ptr<L>.Chunk(c[|c| - 1]);
            var lists' := lists[l := lists[l][..n] + c + lists[l][n..]];
            cur in next && Apart(lists')
            && AllLinked(InsertNext(next, cur, first, last), InsertPrev(next, prev, cur, first, last), lists')
  {
    hide Linked;
    var s := lists[l];
    assert c[0] in c && c[|c| - 1] in c;
    ApartSplice(lists, l, n, c);
    assert Linked(next, prev, l, s) && NoDup(s);
    JoinNoDup(s, c);
    SpliceLinks(next, prev, l, s, n, c);
    var cur, first, last := Node(l, s, n), Ptr<L>.Chunk(c[0]), Ptr<L>.Chunk(c[|c| - 1]);
    var next', prev' := InsertNext(next, cur, first, last), InsertPrev(next, prev, cur, first, last);
    LinkedStep(next, prev, l, s, n);
    forall m | m in lists && m != l ensures Linked(next', prev', m, lists[m]) {
      var r := lists[m];
      forall i | 0 <= i <= |r| ensures Kept(next, next', Node(m, r, i)) && Kept(prev, prev', Node(m, r, i)) {
        NotOnOther(lists, l, m, n, i);
        NotOnOther(lists, l, m, n + 1, i);
        NotInChain(lists, m, i, c[0]);
        NotInChain(lists, m, i, c[|c| - 1]);
      }
      FrameLinks(next, prev, next', prev', m, r);
    }
  }

  lemma LinkedStep<L(!new)>(next: Links<L>, prev: Links<L>, l: L, s: seq<int>, n: nat)
    requires Linked(next, prev, l, s) && n <= |s|
    ensures Step(next, prev, Node(l, s, n), Node(l, s, n + 1))
  {
  }

  /** Different lists have different nodes. */
  lemma NotOnOther<L(!new)>(lists: map<L, seq<int>>, l: L, m: L, i: nat, j: nat)
    requires l in lists && m in lists && l != m && Apart(lists)
    ensures Node(l, lists[l], i) != Node(m, lists[m], j)
  {
    if 0 < i <= |lists[l]| && 0 < j <= |lists[m]| {
      assert lists[l][i - 1] in lists[l] && lists[m][j - 1] in lists[m];
    }
  }

  lemma NotInChain<L(!new)>(lists: map<L, seq<int>>, m: L, j: nat, k: int)
    requires m in lists && Unlisted(lists, k)
    ensures Node(m, lists[m], j) != Chunk(k)
  {
    if 0 < j <= |lists[m]| {
      assert lists[m][j - 1] in lists[m];
    }
  }

  lemma JoinNoDup(s: seq<int>, c: seq<int>)
    requires NoDup(s) && NoDup(c) && forall k :: k in c ==> k !in s
    ensures NoDup(s + c)
  {
    forall i, j | 0 <= i < j < |s + c| ensures (s + c)[i] != (s + c)[j] {
      if i < |s| && j >= |s| {
        assert (s + c)[i] in s && (s + c)[j] in c;
      }
    }
  }

  lemma ApartSplice<L(!new)>(lists: map<L, seq<int>>, l: L, n: nat, c: seq<int>)
    requires l in lists && n <= |lists[l]| && Apart(lists) && NoDup(c) && forall k :: k in c ==> Unlisted(lists, k)
    ensures Apart(lists[l := lists[l][..n] + c + lists[l][n..]])
  {
    var s := lists[l];
    var t := s[..n] + c + s[n..];
    SpliceNoDup(s, c, n);
    forall k | k in t ensures k in s || k in c {
    }
    var lists' := lists[l := t];
    forall a, b, k | a in lists' && b in lists' && a != b && k in lists'[a] ensures k !in lists'[b] {
      if a == l {
        assert k in s || k in c;
      } else if b == l {
        assert k in lists[a];
      }
    }
  }

  lemma SpliceNoDup(s: seq<int>, c: seq<int>, n: nat)
    requires n <= |s| && NoDup(s) && NoDup(c) && forall k :: k in c ==> k !in s
    ensures NoDup(s[..n] + c + s[n..])
  {
    var t := s[..n] + c + s[n..];
    forall i, j | 0 <= i < |s| && 0 <= j < |c| ensures s[i] != c[j] {
      assert c[j] in c;
    }
    forall i, j | 0 <= i < j < |t| ensures t[i] != t[j] {
      var x := if i < n then s[i] else if i < n + |c| then c[i - n] else s[i - |c|];
      var y := if j < n then s[j] else if j < n + |c| then c[j - n] else s[j - |c|];
      assert t[i] == x && t[j] == y;
    }
  }

  /** Unlinking one chunk leaves all lists linked and apart, and the chunk unlisted. */
  lemma UnlinkLists<L(!new)>(next: Links<L>, prev: Links<L>, lists: map<L, seq<int>>, l: L, k: int)
    requires l in lists && k in lists[l] && AllLinked(next, prev, lists) && Apart(lists)
    ensures var p, lists' := Ptr<L>.Chunk(k), lists[l := Without(lists[l], k)];
            p in next && p in prev && Apart(lists') && Unlisted(lists', k)
            && AllLinked(next[prev[p] := next[p]], prev[next[p] := prev[p]], lists')
  {
    hide Linked;
    var s, i := lists[l], Index(lists[l], k);
    var p, t := Ptr<L>.Chunk(k), Without(lists[l], k);
    assert Linked(next, prev, l, s) && NoDup(s);
    UnlinkLinks(next, prev, l, s, i);
    LinkedStep(next, prev, l, s, i);
    LinkedStep(next, prev, l, s, i + 1);
    ApartWithout(lists, l, k);
    var next', prev' := next[prev[p] := next[p]], prev[next[p] := prev[p]];
    forall m | m in lists && m != l ensures Linked(next', prev', m, lists[m]) {
      var r := lists[m];
      forall j | 0 <= j <= |r| ensures Kept(next, next', Node(m, r, j)) && Kept(prev, prev', Node(m, r, j)) {
        NotOnOther(lists, l, m, i, j);
        NotOnOther(lists, l, m, i + 2, j);
      }
      FrameLinks(next, prev, next', prev', m, r);
    }
  }

  lemma ApartWithout<L(!new)>(lists: map<L, seq<int>>, l: L, k: int)
    requires l in lists && k in lists[l] && Apart(lists)
    ensures Apart(lists[l := Without(lists[l], k)]) && Unlisted(lists[l := Without(lists[l], k)], k)
  {
    var s, t, i := lists[l], Without(lists[l], k), Index(lists[l], k);
    forall j | 0 <= j < |t| ensures t[j] == s[if j < i then j else j + 1] && t[j] != k {
    }
    var lists' := lists[l := t];
    forall a, b, x | a in lists' && b in lists' && a != b && x in lists'[a] ensures x !in lists'[b] {
      assert x in lists[a];
    }
  }

  // ---------------------------------------------------------------- the lists in memory

  /** The lists of one kind: their link memory and counters, and, as a ghost, what they contain. */
  class ListTable<L(==, !new)> {
    var next: Links<L>
    var prev: Links<L>
    var chunkNum: map<L, int>
    ghost var lists: map<L, seq<int>>

    ghost predicate Valid()
      reads this
    {
      AllLinked(next, prev, lists) && Apart(lists) && Counted()
    }

    ghost predicate Counted()
      reads this
    {
      chunkNum.Keys == lists.Keys && forall l :: l in lists ==> chunkNum[l] == |lists[l]|
    }

    constructor ()
      ensures Valid() && lists == map[]
    {
      next, prev, chunkNum, lists := map[], map[], map[], map[];
    }

    /** The constructor of one list, and Reset: the head points to itself. */
    method Reset(l: L)
      requires Valid()
      modifies this
      ensures Valid() && lists == old(lists)[l := []]
      ensures forall k :: next.Keys >= old(next).Keys && (Chunk(k) in old(next) ==> next[Chunk(k)] == old(next)[Chunk(k)])
    {
      hide Linked;
      ghost var before, after, was := next, prev, lists;
      next := next[Head(l) := Head(l)];
      prev := prev[Head(l) := Head(l)];
      chunkNum := chunkNum[l := 0];
      lists := lists[l := []];
      ResetLinks(before, after, was, l);
    }

    /** Insert `target` behind `cur`, the node at position n of the list. */
    method Insert(l: L, target: int, cur: Ptr<L>, ghost n: nat)
      requires Valid() && l in lists && n <= |lists[l]| && cur == Node(l, lists[l], n) && Unlisted(lists, target)
      modifies this
      ensures Valid() && lists == old(lists)[l := old(lists)[l][..n] + [target] + old(lists)[l][n..]]
    {
      hide Linked;
      SpliceLists(next, prev, lists, l, n, [target]);
      LinkedStep(next, prev, l, lists[l], n);
      ghost var next0, prev0 := next, prev;
      var temp := next[cur];
      prev := prev[next[cur] := Chunk(target)];
      next := next[cur := Chunk(target)];
      next := next[Chunk(target) := temp];
      prev := prev[Chunk(target) := cur];
      chunkNum := chunkNum[l := chunkNum[l] + 1];
      lists := lists[l := lists[l][..n] + [target] + lists[l][n..]];
      assert next == InsertNext(next0, cur, Chunk(target), Chunk(target));
      assert prev == InsertPrev(next0, prev0, cur, Chunk(target), Chunk(target));
    }

    /** Insert a linked chain c of num chunks behind `cur`. */
    method MultiInsert(l: L, start: int, end: int, num: int, cur: Ptr<L>, ghost n: nat, ghost c: seq<int>)
      requires Valid() && l in lists && n <= |lists[l]| && cur == Node(l, lists[l], n)
      requires c != [] && start == c[0] && end == c[|c| - 1] && num == |c| && NoDup(c) && Chained(next, prev, c)
      requires forall k :: k in c ==> Unlisted(lists, k)
      modifies this
      ensures Valid() && lists == old(lists)[l := old(lists)[l][..n] + c + old(lists)[l][n..]]
    {
      hide Linked, Chained;
      SpliceLists(next, prev, lists, l, n, c);
      LinkedStep(next, prev, l, lists[l], n);
      ghost var next0, prev0 := next, prev;
      var temp := next[cur];
      prev := prev[next[cur] := Chunk(end)];
      next := next[cur := Chunk(start)];
      next := next[Chunk(end) := temp];
      prev := prev[Chunk(start) := cur];
      chunkNum := chunkNum[l := chunkNum[l] + num];
      lists := lists[l := lists[l][..n] + c + lists[l][n..]];
      assert next == InsertNext(next0, cur, Chunk(start), Chunk(end));
      assert prev == InsertPrev(next0, prev0, cur, Chunk(start), Chunk(end));
    }

    /** Take a chunk out; its own links stay as they are. */
    method Remove(l: L, target: int) returns (r: int)
      requires Valid() && l in lists && target in lists[l]
      modifies this
      ensures Valid() && r == target && lists == old(lists)[l := Without(old(lists)[l], target)]
      ensures Unlisted(lists, target)
    {
      hide Linked, Without;
      UnlinkLists(next, prev, lists, l, target);
      RemoveSteps(next, prev, lists, l, target);
      next := next[prev[Chunk(target)] := next[Chunk(target)]];
      prev := prev[next[Chunk(target)] := prev[Chunk(target)]];
      chunkNum := chunkNum[l := chunkNum[l] - 1];
      lists := lists[l := Without(lists[l], target)];
      r := target;
    }

    method PushFront(l: L, chunk: int)
      requires Valid() && l in lists && Unlisted(lists, chunk)
      modifies this
      ensures Valid() && lists == old(lists)[l := [chunk] + old(lists)[l]]
    {
      Insert(l, chunk, Head(l), 0);
      assert [] + [chunk] + old(lists)[l] == [chunk] + old(lists)[l];
    }

    method PushBack(l: L, chunk: int)
      requires Valid() && l in lists && Unlisted(lists, chunk)
      modifies this
      ensures Valid() && lists == old(lists)[l := old(lists)[l] + [chunk]]
    {
      ghost var s := lists[l];
      assert Linked(next, prev, l, s);
      LinkedStep(next, prev, l, s, |s|);
      Insert(l, chunk, prev[Head(l)], |s|);
      assert s[..|s|] + [chunk] + s[|s|..] == s + [chunk];
    }

    method MultiPushFront(l: L, start: int, end: int, num: int, ghost c: seq<int>)
      requires Valid() && l in lists
      requires c != [] && start == c[0] && end == c[|c| - 1] && num == |c| && NoDup(c) && Chained(next, prev, c)
      requires forall k :: k in c ==> Unlisted(lists, k)
      modifies this
      ensures Valid() && lists == old(lists)[l := c + old(lists)[l]]
    {
      MultiInsert(l, start, end, num, Head(l), 0, c);
      assert [] + c + old(lists)[l] == c + old(lists)[l];
    }

    method GetFrontChunk(l: L) returns (r: Ptr<L>)
      requires Valid() && l in lists
      ensures r == if lists[l] == [] then Head(l) else Chunk(lists[l][0])
    {
      assert Linked(next, prev, l, lists[l]);
      LinkedStep(next, prev, l, lists[l], 0);
      r := next[Head(l)];
    }

    /** The next node of a list, from the head or a chunk on it. */
    method NextOf(l: L, cur: Ptr<L>, ghost n: nat) returns (r: Ptr<L>)
      requires Valid() && l in lists && n <= |lists[l]| && cur == Node(l, lists[l], n)
      ensures r == Node(l, lists[l], n + 1)
    {
      assert Linked(next, prev, l, lists[l]);
      LinkedStep(next, prev, l, lists[l], n);
      r := next[cur];
    }

    method RemoveFrontChunk(l: L) returns (r: int)
      requires Valid() && l in lists && lists[l] != []
      modifies this
      ensures Valid() && r == old(lists)[l][0] && lists == old(lists)[l := old(lists)[l][1..]] && Unlisted(lists, r)
    {
      var front := GetFrontChunk(l);
      assert Without(lists[l], lists[l][0]) == lists[l][1..];
      r := Remove(l, front.addr);
    }

    method RemoveBackChunk(l: L) returns (r: int)
      requires Valid() && l in lists && lists[l] != []
      modifies this
      ensures Valid() && r == old(lists)[l][|old(lists)[l]| - 1]
      ensures lists == old(lists)[l := old(lists)[l][..|old(lists)[l]| - 1]] && Unlisted(lists, r)
    {
      ghost var s := lists[l];
      assert Linked(next, prev, l, s);
      LinkedStep(next, prev, l, s, |s|);
      LastWithout(s);
      r := Remove(l, prev[Head(l)].addr);
    }

    method Size(l: L) returns (n: int)
      requires Valid() && l in lists
      ensures n == |lists[l]|
    {
      n := chunkNum[l];
    }

    method IsEmpty(l: L) returns (b: bool)
      requires Valid() && l in lists
      ensures b <==> lists[l] == []
    {
      b := chunkNum[l] == 0;
    }

    /** Write the links of a chunk that is on no list. */
    method Write(chunk: int, nextChunk: int, prevChunk: int)
      requires Valid() && Unlisted(lists, chunk)
      modifies this
      ensures Valid() && lists == old(lists)
      ensures next == old(next)[Chunk(chunk) := Chunk(nextChunk)] && prev == old(prev)[Chunk(chunk) := Chunk(prevChunk)]
    {
      hide Linked;
      WriteLinks(next, prev, lists, chunk, Chunk(nextChunk), Chunk(prevChunk));
      next := next[Chunk(chunk) := Chunk(nextChunk)];
      prev := prev[Chunk(chunk) := Chunk(prevChunk)];
    }
  }

  lemma ResetLinks<L(!new)>(next: Links<L>, prev: Links<L>, lists: map<L, seq<int>>, l: L)
    requires AllLinked(next, prev, lists) && Apart(lists)
    ensures AllLinked(next[Head(l) := Head(l)], prev[Head(l) := Head(l)], lists[l := []]) && Apart(lists[l := []])
  {
    var next', prev' := next[Head(l) := Head(l)], prev[Head(l) := Head(l)];
    forall m | m in lists && m != l ensures Linked(next', prev', m, lists[m]) {
      FrameLinks(next, prev, next', prev', m, lists[m]);
    }
  }

  lemma WriteLinks<L(!new)>(next: Links<L>, prev: Links<L>, lists: map<L, seq<int>>, k: int, a: Ptr<L>, b: Ptr<L>)
    requires AllLinked(next, prev, lists) && Unlisted(lists, k)
    ensures AllLinked(next[Chunk(k) := a], prev[Chunk(k) := b], lists)
  {
    hide Linked;
    var next', prev' := next[Ptr<L>.Chunk(k) := a], prev[Ptr<L>.Chunk(k) := b];
    forall m | m in lists ensures Linked(next', prev', m, lists[m]) {
      forall i | 0 <= i <= |lists[m]|
        ensures Kept(next, next', Node(m, lists[m], i)) && Kept(prev, prev', Node(m, lists[m], i))
      {
        NotInChain(lists, m, i, k);
      }
      FrameLinks(next, prev, next', prev', m, lists[m]);
    }
  }

  /** The two writes of Remove do not get in each other's way. */
  lemma RemoveSteps<L(!new)>(next: Links<L>, prev: Links<L>, lists: map<L, seq<int>>, l: L, k: int)
    requires l in lists && k in lists[l] && AllLinked(next, prev, lists) && Apart(lists)
    ensures Ptr<L>.Chunk(k) in next && Ptr<L>.Chunk(k) in prev && prev[Ptr<L>.Chunk(k)] != Ptr<L>.Chunk(k)
  {
    var s, i := lists[l], Index(lists[l], k);
    assert Linked(next, prev, l, s) && NoDup(s);
    assert Step(next, prev, Node(l, s, i), Node(l, s, i + 1));
    assert Step(next, prev, Node(l, s, i + 1), Node(l, s, i + 2));
  }

  lemma LastWithout(s: seq<int>)
    requires s != [] && NoDup(s)
    ensures Without(s, s[|s| - 1]) == s[..|s| - 1]
  {
    assert Index(s, s[|s| - 1]) == |s| - 1;
  }
}
