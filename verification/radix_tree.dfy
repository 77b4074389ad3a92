/**
 RadixTree<3, 12> of util.h: a three-level table from page ids to spans.  Nodes are arrays
 of 4096 slots in mapped memory; 0 is the null pointer.
 */
module RadixTree {
  import opened Wrappers
  import opened SystemPages

  const SLOT_NUM: int := 4096
  const NODE_PAGES: int := (8 * SLOT_NUM + PAGE_SIZE - 1) / PAGE_SIZE
  const KEY_LIMIT: int := PAGE_LIMIT

  type Nodes = map<int, seq<int>>

  /** The slot a key uses at each level, masked from the key as the source does. */
  function Slot(key: int, level: int): (r: int)
    requires 0 <= level <= 2
    ensures 0 <= r < SLOT_NUM
  {
    if level == 0 then key / 16777216 % 4096
    else if level == 1 then key / 4096 % 4096
    else key % 4096
  }

  /** The slots of a key down to a level. */
  function Path(key: int, level: int): (r: seq<int>)
    requires 0 <= level <= 3
    ensures |r| == level
  {
    if level == 0 then [] else Path(key, level - 1) + [Slot(key, level - 1)]
  }

  /** Keys below 2^36 are told apart by their slots. */
  lemma KeysDiffer(j: int, k: int)
    requires 0 <= j < KEY_LIMIT && 0 <= k < KEY_LIMIT
    requires Slot(j, 0) == Slot(k, 0) && Slot(j, 1) == Slot(k, 1) && Slot(j, 2) == Slot(k, 2)
    ensures j == k
  {
    KeyDigits(j);
    KeyDigits(k);
  }

  lemma KeyDigits(k: int)
    requires 0 <= k < KEY_LIMIT
    ensures k == (Slot(k, 0) * 4096 + Slot(k, 1)) * 4096 + Slot(k, 2)
  {
    var q := k / 4096;
    assert q / 4096 == k / 16777216;
  }

  // ---------------------------------------------------------------- the tree as a map

  /** The node a key reaches at a level, or null. */
  function Walk(nodes: Nodes, root: int, key: int, level: int): int
    requires 0 <= level <= 2
  {
    if level == 0 then root
    else
      var node := Walk(nodes, root, key, level - 1);
      if node in nodes && |nodes[node]| == SLOT_NUM then nodes[node][Slot(key, level - 1)] else 0
  }

  /** Both interior slots of a key are there. */
  predicate Present(nodes: Nodes, root: int, key: int) {
    Walk(nodes, root, key, 2) != 0
  }

  /** What the tree maps a key to; null if nothing was inserted. */
  function Entry(nodes: Nodes, root: int, key: int): int {
    var leaf := Walk(nodes, root, key, 2);
    if leaf != 0 && leaf in nodes && |nodes[leaf]| == SLOT_NUM then nodes[leaf][Slot(key, 2)] else 0
  }

  /** Every node hangs at one place: its path tells where. */
  ghost predicate Shaped(nodes: Nodes, root: int, path: map<int, seq<int>>) {
    0 !in nodes && root in nodes && nodes.Keys == path.Keys && path[root] == [] &&
    (forall x :: x in nodes ==> |nodes[x]| == SLOT_NUM && |path[x]| <= 2) &&
    (forall x, i :: x in nodes && |path[x]| < 2 && 0 <= i < SLOT_NUM ==> ChildOk(nodes, path, x, i))
  }

  ghost predicate ChildOk(nodes: Nodes, path: map<int, seq<int>>, x: int, i: int)
    requires x in nodes && x in path && 0 <= i < |nodes[x]|
  {
    var c := nodes[x][i];
    c == 0 || (c in nodes && c in path && path[c] == path[x] + [i])
  }

  /** The node reached hangs at the key's path. */
  lemma {:induction false} WalkPath(nodes: Nodes, root: int, path: map<int, seq<int>>, key: int, level: int)
    requires 0 <= level <= 2 && Shaped(nodes, root, path)
    ensures var x := Walk(nodes, root, key, level); x != 0 ==> x in nodes && path[x] == Path(key, level)
  {
    if level > 0 {
      WalkPath(nodes, root, path, key, level - 1);
      var x := Walk(nodes, root, key, level - 1);
      if x != 0 {
        assert ChildOk(nodes, path, x, Slot(key, level - 1));
      }
    }
  }

  /** More nodes, but no walk is turned away and no entry changes. */
  ghost predicate Extended(before: Nodes, after: Nodes, root: int) {
    forall k :: ExtendedAt(before, after, root, k)
  }

  ghost predicate ExtendedAt(before: Nodes, after: Nodes, root: int, k: int) {
    Entry(after, root, k) == Entry(before, root, k) &&
    (Walk(before, root, k, 1) != 0 ==> Walk(after, root, k, 1) == Walk(before, root, k, 1)) &&
    (Walk(before, root, k, 2) != 0 ==> Walk(after, root, k, 2) == Walk(before, root, k, 2))
  }

  lemma ExtendedTwice(a: Nodes, b: Nodes, c: Nodes, root: int)
    requires Extended(a, b, root) && Extended(b, c, root)
    ensures Extended(a, c, root)
  {
    hide Walk, Entry;
    forall k ensures ExtendedAt(a, c, root, k) {
      assert ExtendedAt(a, b, root, k) && ExtendedAt(b, c, root, k);
    }
  }

  /** Hanging a new empty node into an empty slot changes no entry. */
  lemma GrowKeeps(nodes: Nodes, root: int, path: map<int, seq<int>>, x: int, i: int, c: int)
    requires Shaped(nodes, root, path) && x in nodes && |path[x]| < 2 && 0 <= i < SLOT_NUM && nodes[x][i] == 0
    requires c != 0 && c !in nodes
    ensures var nodes' := nodes[x := nodes[x][i := c]][c := seq(SLOT_NUM, _ => 0)];
            Shaped(nodes', root, path[c := path[x] + [i]]) && Extended(nodes, nodes', root)
  {
    var nodes' := nodes[x := nodes[x][i := c]][c := seq(SLOT_NUM, _ => 0)];
    var path' := path[c := path[x] + [i]];
    forall y, j | y in nodes' && |path'[y]| < 2 && 0 <= j < SLOT_NUM ensures ChildOk(nodes', path', y, j) {
      if y in nodes {
        assert ChildOk(nodes, path, y, j);
      }
    }
    forall k ensures ExtendedAt(nodes, nodes', root, k) {
      GrowEntry(nodes, root, path, x, i, c, k);
    }
  }

  lemma GrowEntry(nodes: Nodes, root: int, path: map<int, seq<int>>, x: int, i: int, c: int, k: int)
    requires Shaped(nodes, root, path) && x in nodes && |path[x]| < 2 && 0 <= i < SLOT_NUM && nodes[x][i] == 0
    requires c != 0 && c !in nodes
    ensures var nodes' := nodes[x := nodes[x][i := c]][c := seq(SLOT_NUM, _ => 0)];
            ExtendedAt(nodes, nodes', root, k)
  {
    hide Slot, Path;
    var nodes' := nodes[x := nodes[x][i := c]][c := seq(SLOT_NUM, _ => 0)];
    WalkPath(nodes, root, path, k, 1);
    WalkPath(nodes, root, path, k, 2);
    WalkUnfold(nodes, root, k);
    WalkUnfold(nodes', root, k);
    assert ChildOk(nodes, path, root, Slot(k, 0));
    if Walk(nodes, root, k, 1) != 0 {
      assert ChildOk(nodes, path, Walk(nodes, root, k, 1), Slot(k, 1));
    }
  }

  lemma WalkUnfold(nodes: Nodes, root: int, k: int)
    ensures Walk(nodes, root, k, 0) == root
    ensures Walk(nodes, root, k, 1) == if root in nodes && |nodes[root]| == SLOT_NUM then nodes[root][Slot(k, 0)] else 0
    ensures var a := Walk(nodes, root, k, 1);
            Walk(nodes, root, k, 2) == if a in nodes && |nodes[a]| == SLOT_NUM then nodes[a][Slot(k, 1)] else 0
  {
  }

  /** Writing a slot of the leaf of a key changes that key's entry and no other. */
  lemma SetEntry(nodes: Nodes, root: int, path: map<int, seq<int>>, key: int, value: int, k: int)
    requires Shaped(nodes, root, path) && Present(nodes, root, key)
    requires 0 <= key < KEY_LIMIT && 0 <= k < KEY_LIMIT
    ensures var leaf := Walk(nodes, root, key, 2);
            leaf in nodes &&
            var nodes' := nodes[leaf := nodes[leaf][Slot(key, 2) := value]];
            Shaped(nodes', root, path)
            && Entry(nodes', root, k) == (if k == key then value else Entry(nodes, root, k))
            && (Present(nodes', root, k) <==> Present(nodes, root, k))
  {
    hide Slot;
    var leaf := Walk(nodes, root, key, 2);
    WalkPath(nodes, root, path, key, 2);
    WalkPath(nodes, root, path, k, 1);
    WalkPath(nodes, root, path, k, 2);
    var nodes' := nodes[leaf := nodes[leaf][Slot(key, 2) := value]];
    forall y, j | y in nodes' && |path[y]| < 2 && 0 <= j < SLOT_NUM ensures ChildOk(nodes', path, y, j) {
      assert ChildOk(nodes, path, y, j);
    }
    WalkUnfold(nodes, root, k);
    WalkUnfold(nodes', root, k);
    PathUnfold(key);
    PathUnfold(k);
    if Walk(nodes, root, k, 2) == leaf && Slot(k, 2) == Slot(key, 2) {
      assert Path(k, 2) == Path(key, 2);
      assert [Slot(k, 0), Slot(k, 1)][0] == [Slot(key, 0), Slot(key, 1)][0];
      assert [Slot(k, 0), Slot(k, 1)][1] == [Slot(key, 0), Slot(key, 1)][1];
      KeysDiffer(k, key);
    }
  }

  lemma PathUnfold(k: int)
    ensures Path(k, 1) == [Slot(k, 0)] && Path(k, 2) == [Slot(k, 0), Slot(k, 1)]
  {
  }

  // ---------------------------------------------------------------- the tree in memory

  class Tree {
    const sys: System
    const root: int
    var nodes: Nodes
    ghost var path: map<int, seq<int>>

    ghost predicate Valid()
      reads this, sys
    {
      Shaped(nodes, root, path) && NodesMapped(nodes, sys.mapped)
    }

    /** The constructor: an array of null slots at `memory`. */
    constructor (system: System, memory: int)
      requires Owns(system.mapped, memory, NODE_PAGES)
      ensures sys == system && root == memory && Valid()
      ensures forall k :: Entry(nodes, root, k) == 0
    {
      sys := system;
      root := memory;
      nodes := map[memory := seq(SLOT_NUM, _ => 0)];
      path := map[memory := []];
      new;
      forall x, i | x in nodes && |path[x]| < 2 && 0 <= i < SLOT_NUM ensures ChildOk(nodes, path, x, i) {
      }
      forall k ensures Entry(nodes, root, k) == 0 {
        WalkUnfold(nodes, root, k);
      }
    }

    /** The value of a key; its interior slots must be there. */
    method GetValue(key: int) returns (value: int)
      requires Valid() && Present(nodes, root, key)
      ensures value == Entry(nodes, root, key)
    {
      hide Shaped, Slot, Walk, Entry, Present;
      var node := root;
      var i := 0;
      RootAt(nodes, root, path, key);
      while i < 2
        invariant 0 <= i <= 2 && node == Walk(nodes, root, key, i) && node != 0
      {
        NodeAt(nodes, root, path, key, i);
        NotNull(nodes, root, path, key, i + 1);
        node := nodes[node][Slot(key, i)];
        i := i + 1;
      }
      NodeAt(nodes, root, path, key, 2);
      value := nodes[node][Slot(key, 2)];
    }

    /** An empty node in an empty slot. */
    method NewSlot(node: int, slot: int) returns (ok: bool)
      requires Valid() && node in nodes && node in path && |nodes[node]| == SLOT_NUM && |path[node]| < 2
      requires 0 <= slot < SLOT_NUM && nodes[node][slot] == 0
      modifies this, sys
      ensures sys.failures == old(sys.failures) + if ok then 0 else 1
      ensures !ok ==> nodes == old(nodes) && path == old(path) && sys.mapped == old(sys.mapped)
      ensures ok ==> Valid() && node in nodes && |nodes[node]| == SLOT_NUM && nodes[node][slot] != 0
      ensures ok ==> Extended(old(nodes), nodes, root)
      ensures Grows(old(sys.mapped), sys.mapped) && NewNodes(old(nodes), nodes, old(sys.mapped))
    {
      hide Shaped, Extended;
      var memory, slots := sys.SysMallocPage(NODE_PAGES);
      if memory.None? {
        return false;
      }
      var c := memory.value;
      NewNodeApart(nodes, old(sys.mapped), sys.mapped, c);
      GrowKeeps(nodes, root, path, node, slot, c);
      nodes := nodes[node := nodes[node][slot := c]][c := slots];
      path := path[c := path[node] + [slot]];
      ok := true;
    }

    /** Map a key to a value, adding nodes where the path of the key has none. */
    method Insert(key: int, value: int) returns (ok: bool)
      requires Valid() && 0 <= key < KEY_LIMIT
      modifies this, sys
      ensures ok ==> Valid() && Sets(old(nodes), nodes, root, key, value)
      ensures sys.failures == old(sys.failures) + if ok then 0 else 1
      ensures Grows(old(sys.mapped), sys.mapped) && NewNodes(old(nodes), nodes, old(sys.mapped))
    {
      hide Shaped, Slot, Entry, Walk, Path, Extended, Sets;
      var node := root;
      var i := 0;
      RootAt(nodes, root, path, key);
      while i < 2
        invariant 0 <= i <= 2 && Valid() && node == Walk(nodes, root, key, i) && node != 0
        invariant Extended(old(nodes), nodes, root) && Grows(old(sys.mapped), sys.mapped)
        invariant NewNodes(old(nodes), nodes, old(sys.mapped)) && sys.failures == old(sys.failures)
      {
        NodeAt(nodes, root, path, key, i);
        ghost var before := nodes;
        var temp := nodes[node][Slot(key, i)];
        if temp == 0 {
          var grown := NewSlot(node, Slot(key, i));
          if !grown {
            return false;
          }
          ExtendedTwice(old(nodes), before, nodes, root);
          WalkStays(before, nodes, root, path, key, i);
          NodeAt(nodes, root, path, key, i);
          temp := nodes[node][Slot(key, i)];
        }
        node := temp;
        i := i + 1;
      }
      NodeAt(nodes, root, path, key, 2);
      SetKeeps(old(nodes), nodes, root, path, key, value);
      nodes := nodes[node := nodes[node][Slot(key, 2) := value]];
      ok := true;
    }
  }

  lemma RootAt(nodes: Nodes, root: int, path: map<int, seq<int>>, key: int)
    requires Shaped(nodes, root, path)
    ensures Walk(nodes, root, key, 0) == root != 0 && Extended(nodes, nodes, root)
  {
  }

  /** The node a walk has reached, and where it goes next. */
  lemma NodeAt(nodes: Nodes, root: int, path: map<int, seq<int>>, key: int, level: int)
    requires Shaped(nodes, root, path) && 0 <= level <= 2 && Walk(nodes, root, key, level) != 0
    ensures var x := Walk(nodes, root, key, level);
            x in nodes && x in path && |nodes[x]| == SLOT_NUM && |path[x]| == level
            && (level < 2 ==> Walk(nodes, root, key, level + 1) == nodes[x][Slot(key, level)])
            && (level == 2 ==> Entry(nodes, root, key) == nodes[x][Slot(key, level)] && Present(nodes, root, key))
  {
    hide Slot;
    WalkPath(nodes, root, path, key, level);
  }

  lemma NotNull(nodes: Nodes, root: int, path: map<int, seq<int>>, key: int, level: int)
    requires Shaped(nodes, root, path) && 0 <= level <= 2 && Present(nodes, root, key)
    ensures Walk(nodes, root, key, level) != 0
  {
    hide Slot;
    WalkUnfold(nodes, root, key);
  }

  lemma WalkStays(before: Nodes, after: Nodes, root: int, path: map<int, seq<int>>, key: int, level: int)
    requires Extended(before, after, root) && 0 <= level <= 1 && Walk(before, root, key, level) != 0
    ensures Walk(after, root, key, level) == Walk(before, root, key, level)
  {
    assert ExtendedAt(before, after, root, key);
  }

  /** A page range just mapped is no node. */
  lemma NewNodeApart(nodes: Nodes, before: PageMap, after: PageMap, c: int)
    requires NodesMapped(nodes, before) && Mapped(before, after, c, NODE_PAGES)
    ensures c !in nodes && c != 0 && NodesMapped(nodes, after)
  {
    forall x | x in nodes ensures x != c && Owns(after, x, NODE_PAGES) {
      NewMappingApart(before, after, c, NODE_PAGES, x, NODE_PAGES);
    }
  }

  lemma SetKeeps(before: Nodes, nodes: Nodes, root: int, path: map<int, seq<int>>, key: int, value: int)
    requires Shaped(nodes, root, path) && Present(nodes, root, key) && 0 <= key < KEY_LIMIT
    requires Extended(before, nodes, root)
    ensures var leaf := Walk(nodes, root, key, 2);
            leaf in nodes && |nodes[leaf]| == SLOT_NUM &&
            var nodes' := nodes[leaf := nodes[leaf][Slot(key, 2) := value]];
            Shaped(nodes', root, path) && Sets(before, nodes', root, key, value)
  {
    hide Slot, Walk, Entry, Shaped;
    var leaf := Walk(nodes, root, key, 2);
    NodeAt(nodes, root, path, key, 2);
    SetEntry(nodes, root, path, key, value, key);
    var nodes' := nodes[leaf := nodes[leaf][Slot(key, 2) := value]];
    forall k | 0 <= k < KEY_LIMIT && k != key
      ensures Entry(nodes', root, k) == Entry(before, root, k) && (Present(before, root, k) ==> Present(nodes', root, k))
    {
      SetEntry(nodes, root, path, key, value, k);
      assert ExtendedAt(before, nodes, root, k);
    }
  }

  /** Nodes are added on memory that was not mapped. */
  ghost predicate NewNodes(before: Nodes, after: Nodes, mapped: PageMap) {
    forall x :: x in after && x !in before ==> x / PAGE_SIZE !in mapped
  }

  ghost predicate NodesMapped(nodes: Nodes, mapped: PageMap) {
    forall x :: x in nodes ==> Owns(mapped, x, NODE_PAGES)
  }

  /** Nothing that was mapped is unmapped. */
  ghost predicate Grows(before: PageMap, after: PageMap) {
    forall i :: i in before ==> i in after && after[i] == before[i]
  }

  /** The map after an insertion: one entry is set, no other changes, and no interior slot disappears. */
  ghost predicate Sets(before: Nodes, after: Nodes, root: int, key: int, value: int) {
    Present(after, root, key) && Entry(after, root, key) == value &&
    forall k :: 0 <= k < KEY_LIMIT && k != key ==>
      Entry(after, root, k) == Entry(before, root, k) && (Present(before, root, k) ==> Present(after, root, k))
  }
}
