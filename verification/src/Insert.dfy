/** Inserting an item: apfs_search_slot with ins_len > 0, which splits nearly
    full nodes on the way down, and setup_items_for_insert at the leaf. */
module Insert {
  import opened Prelude
  import opened Keys
  import opened Trees
  import opened Search
  import opened Paths
  import opened LowKeys
  import opened Nodes
  import opened Leaves
  import opened LeafSplit

  /** The reference: one item put in its place in a sorted sequence. */
  function Inserted(o: Order, s: seq<Item>, it: Item): seq<Item> {
    if s == [] || Cmp(o, s[0].key, it.key) >= 0 then [it] + s else [s[0]] + Inserted(o, s[1..], it)
  }

  lemma {:induction false} InsertedSplit(o: Order, l: seq<Item>, r: seq<Item>, it: Item)
    requires AllBelow(o, l, it.key) && AllAbove(o, r, it.key)
    ensures Inserted(o, l + r, it) == l + [it] + r
  {
    hide Cmp;
    if l == [] {
      assert l + r == r && l + [it] + r == [it] + r;
    } else {
      var rest := l[1..];
      assert (l + r)[0] == l[0] && (l + r)[1..] == rest + r;
      InsertedSplit(o, rest, r, it);
      assert [l[0]] + rest == l;
      Assoc([l[0]], rest + [it], r);
      Assoc([l[0]], rest, [it]);
    }
  }

  lemma SortedInserted(o: Order, l: seq<Item>, r: seq<Item>, it: Item)
    requires Sorted(o, l + r) && AllBelow(o, l, it.key) && AllAbove(o, r, it.key)
    ensures Sorted(o, l + [it] + r)
  {
    var s, t := l + r, l + [it] + r;
    forall i, j | 0 <= i < j < |t| ensures Cmp(o, t[i].key, t[j].key) < 0 {
      if i == |l| {
        assert t[j] == r[j - |l| - 1];
        CmpOrder(o, it.key, r[j - |l| - 1].key, it.key);
      } else if j == |l| {
        assert t[i] == l[i];
      } else {
        assert t[i] == s[if i < |l| then i else i - 1] && t[j] == s[if j < |l| then j else j - 1];
      }
    }
  }

  /** The path's node has room for another pointer to be added below it. */
  ghost predicate ParentRoom(p: Path)
    reads p
  {
    p.fs != [] ==> Count(Last(p.fs)) <= p.g.cap - 2
  }

  ghost function PathFlat(p: Path): seq<Item>
    reads p
  {
    Before(p.fs) + Flat(p.node) + After(p.fs)
  }

  /** The contents of the tree around the pair the path points at. */
  lemma AroundSlot(p: Path, h: nat)
    requires p.NodeOk(h)
    ensures PathFlat(p) == p.LeftOf() + Flat(p.Target().child) + p.RightOf()
  {
    hide FramesOk, Shape, FlatPtrs, Before, After;
    FlatAround(p.node.ptrs, p.slot);
    NodeFlat(p.node);
    var l, m, r := FlatPtrs(p.node.ptrs[..p.slot]), Flat(p.Target().child), FlatPtrs(p.node.ptrs[p.slot+1..]);
    Trees.Regroup(Before(p.fs), l, m, r, After(p.fs));
  }

  lemma NodeFlat(t: Tree)
    requires t.Node?
    ensures Flat(t) == FlatPtrs(t.ptrs)
  {
  }

  lemma OrderOk(g: Geometry, key: Key, fs: seq<Frame>, node: Tree, h: nat)
    requires OrderInv(g, key, fs, node, h) && node.Node?
    ensures FramesOk(g, fs, h) && Shape(g, node, h) && HasLow(node) && HoleKey(fs, Low(node)) && h > 0
  {
    hide FramesOk, Cmp, Sorted, AllBelow, AllAbove, Before, After;
  }

  /** One level of the descent: with the slot chosen, split the node if it is
      nearly full, and step down. */
  method DescendInsert(p: Path, key: Key, slot: nat, ghost h: nat)
    requires OrderInv(p.g, key, p.fs, p.node, h) && p.node.Node? && p.g.cap >= 5 && ParentRoom(p)
    requires slot == ChildSlot(p.g.order, PtrKeys(p.node.ptrs), key)
    modifies p
    ensures h > 0 && OrderInv(p.g, key, p.fs, p.node, h - 1) && ParentRoom(p)
    ensures PathFlat(p) == old(PathFlat(p))
    ensures slot < |old(p.node).ptrs| && HasLow(p.node) && Low(p.node) == old(p.node).ptrs[slot].key
    ensures p.node == old(p.node).ptrs[slot].child
    ensures Before(p.fs) == old(Before(p.fs)) + FlatPtrs(old(p.node).ptrs[..slot])
  {
    hide FramesOk, FlatPtrs, Before, After, Cmp, Rank, AllBelow, AllAbove, Sorted, ChildSlot;
    hide OrderInv, Flat, Shape, Low;
    Chosen(p.g, key, p.fs, p.node, h);
    OrderOk(p.g, key, p.fs, p.node, h);
    p.slot := slot;
    AroundSlot(p, h);
    if |p.node.ptrs| >= p.g.cap - 3 {
      SplitNode(p, h);
    }
    AroundSlot(p, h);
    StepDown(p, key, h);
  }

  /** Stepping to the child at the path's slot. */
  method StepDown(p: Path, ghost key: Key, ghost h: nat)
    requires p.NodeOk(h)
    requires AllBelow(p.g.order, p.LeftOf(), key) && AllAbove(p.g.order, p.RightOf(), key)
    requires Sorted(p.g.order, Flat(p.Target().child))
    requires p.LeftOf() != [] ==> Cmp(p.g.order, p.Target().key, key) <= 0
    modifies p
    ensures OrderInv(p.g, key, p.fs, p.node, h - 1)
    ensures PathFlat(p) == old(p.LeftOf() + Flat(p.Target().child) + p.RightOf())
    ensures HasLow(p.node) && Low(p.node) == old(p.Target().key)
    ensures p.node == old(p.Target().child) && Before(p.fs) == old(p.LeftOf())
    ensures p.fs != [] && Count(Last(p.fs)) == |old(p.node).ptrs|
  {
    hide FramesOk, FlatPtrs, Before, After, Cmp, AllBelow, AllAbove, Sorted, Flat;
    Descend(p.g, p.fs, p.node, h, p.slot);
    PairBelow(p.g, p.node, h, p.slot);
    p.fs, p.node := p.fs + [Open(p.node.ptrs, p.slot)], p.node.ptrs[p.slot].child;
  }

  lemma PairBelow(g: Geometry, t: Tree, h: nat, k: nat)
    requires Shape(g, t, h) && t.Node? && k < |t.ptrs|
    ensures HasLow(t.ptrs[k].child) && Low(t.ptrs[k].child) == t.ptrs[k].key
  {
    ShapeParts(g, t, h);
    assert PtrOk(g, t.ptrs[k], h - 1);
  }

  /** What follows the item a path points at. */
  ghost function LeafRest(p: Path): seq<Item>
    reads p
    requires p.node.Leaf? && p.slot < |p.node.items|
  {
    p.node.items[p.slot+1..] + After(p.fs)
  }

  /** A path on the item with a key, between the smaller and the larger ones. */
  ghost predicate OnItem(p: Path, key: Key)
    reads p
  {
    && LeafOk(p) && p.slot < |p.node.items| && Cmp(p.g.order, p.node.items[p.slot].key, key) == 0
    && AllBelow(p.g.order, LeafLeft(p), key) && AllAbove(p.g.order, LeafRest(p), key)
  }

  lemma RestIs(p: Path)
    requires p.node.Leaf? && p.slot < |p.node.items|
    ensures LeafRight(p) == [p.node.items[p.slot]] + LeafRest(p)
    ensures LeafRight(p)[0] == p.node.items[p.slot] && LeafRight(p)[1..] == LeafRest(p)
  {
    assert p.node.items[p.slot..] == [p.node.items[p.slot]] + p.node.items[p.slot+1..];
  }

  /** A leaf position ready to receive an item: on a leaf with room, or in an
      empty tree. */
  ghost predicate Ready(p: Path, key: Key, d: nat)
    reads p
  {
    HasRoom(p, key, d) || (p.fs == [] && p.node == Leaf([]) && p.slot == 0 && d <= p.g.leafCap)
  }

  lemma AtLeaf(g: Geometry, key: Key, fs: seq<Frame>, node: Tree, h: nat)
    requires OrderInv(g, key, fs, node, h) && node.Leaf?
    ensures var r := Rank(g.order, ItemKeys(node.items), key);
            var hit := Hit(g.order, ItemKeys(node.items), key);
            && r <= |node.items| && (hit ==> r < |node.items| && Cmp(g.order, node.items[r].key, key) == 0)
            && (hit <==> HasKey(g.order, Before(fs) + Flat(node) + After(fs), key))
            && AllBelow(g.order, Before(fs) + node.items[..r], key)
            && (!hit ==> AllAbove(g.order, node.items[r..] + After(fs), key))
  {
    hide Cmp, Before, After, FramesOk, Shape, Separates, AllBelow, AllAbove, HasKey, Sorted, Rank;
    var o, items := g.order, node.items;
    LeafFlat(node);
    LeafSeparates(o, Before(fs), items, After(fs), key);
    var r, hit := Rank(o, ItemKeys(items), key), Hit(o, ItemKeys(items), key);
    SeparatesHasKey(o, Before(fs) + items + After(fs), key, |Before(fs)| + r, hit);
    SeparatesParts(o, Before(fs), items, After(fs), key, r, hit);
  }

  lemma AtLeafShape(p: Path, key: Key, h: nat)
    requires OrderInv(p.g, key, p.fs, p.node, h) && p.node.Leaf?
    ensures p.node.items != [] ==> p.Ok(0)
    ensures p.node.items == [] ==> p.fs == [] && Before(p.fs) == [] && After(p.fs) == []
  {
    hide Cmp, Before, After, AllBelow, AllAbove, Sorted;
    NoFrames();
  }

  lemma SeparatesParts(o: Order, b: seq<Item>, items: seq<Item>, a: seq<Item>, key: Key, r: nat, hit: bool)
    requires r <= |items| && Separates(o, b + items + a, key, |b| + r, hit)
    ensures AllBelow(o, b + items[..r], key)
    ensures !hit ==> AllAbove(o, items[r..] + a, key)
  {
    hide Cmp;
    var s := b + items + a;
    assert b + items[..r] == s[..|b| + r];
    assert items[r..] + a == s[|b| + r..];
  }

  lemma FoundAbove(g: Geometry, key: Key, fs: seq<Frame>, node: Tree, h: nat)
    requires OrderInv(g, key, fs, node, h) && node.Leaf? && Hit(g.order, ItemKeys(node.items), key)
    ensures var r := Rank(g.order, ItemKeys(node.items), key);
            r < |node.items| && AllAbove(g.order, node.items[r+1..] + After(fs), key)
  {
    hide Cmp, Before, After, FramesOk, Shape;
    var r := Rank(g.order, ItemKeys(node.items), key);
    SortedAbove(g.order, ItemKeys(node.items), key, r);
    AboveConcat(g.order, node.items[r+1..], After(fs), key);
  }

  lemma WholeNone(t: Tree)
    ensures Whole([], t) == t
  {
  }

  lemma OpenWhole(fs: seq<Frame>, ps: seq<Ptr>, k: nat)
    requires k < |ps|
    ensures var fs' := fs + [Open(ps, k)];
            Whole(fs', ps[k].child) == Whole(fs, Node(ps)) && Before(fs') == Before(fs) + FlatPtrs(ps[..k])
  {
    hide FlatPtrs;
    var fs' := fs + [Open(ps, k)];
    assert Up(fs') == fs && Last(fs') == Open(ps, k);
    assert Siblings(Open(ps, k), ps[k].child) == ps;
  }

  lemma NoParent(p: Path)
    requires p.fs == []
    ensures ParentRoom(p)
  {
  }

  lemma SlotTaken(g: Geometry, node: Tree, key: Key, ret: int, slot: nat)
    requires node.Node? && slot == Rank(g.order, NodeKeys(node), key)
    requires ret == if Hit(g.order, NodeKeys(node), key) then 0 else 1
    ensures ChildSlot(g.order, PtrKeys(node.ptrs), key) == if ret != 0 && slot > 0 then slot - 1 else slot
    ensures ret == 0 ==> slot < |node.ptrs| && Cmp(g.order, node.ptrs[slot].key, key) == 0
  {
  }

  /** The descent of apfs_search_slot with ins_len > 0 or search_for_split: full
      nodes are split on the way, and the path ends where the key is or would be.
      The leaf it ends at is one of the tree's, at the same place as before. */
  method DescendToLeaf(p: Path, key: Key) returns (ret: int, ghost at: seq<Frame>)
    requires OrderInv(p.g, key, p.fs, p.node, Height(p.node)) && p.fs == [] && p.g.cap >= 5
    modifies p
    ensures ret == if HasKey(p.g.order, old(PathFlat(p)), key) then 0 else 1
    ensures p.node.Leaf? && p.slot <= |p.node.items| && PathFlat(p) == old(PathFlat(p)) && ParentRoom(p)
    ensures p.node.items != [] ==> p.Ok(0)
    ensures p.node.items == [] ==> p.fs == [] && Before(p.fs) == [] && After(p.fs) == []
    ensures AllBelow(p.g.order, LeafLeft(p), key)
    ensures ret == 0 ==> OnItem(p, key)
    ensures ret != 0 ==> AllAbove(p.g.order, LeafRight(p), key)
    ensures Whole(at, p.node) == old(p.node) && Before(at) == Before(p.fs)
  {
    hide FramesOk, FlatPtrs, Before, After, Cmp, Rank, Hit, AllBelow, AllAbove, Sorted, ChildSlot, OrderInv, Shape, Low;
    hide HasKey, Flat, Whole;
    var prevCmp := -1;
    ghost var h := Height(p.node);
    ghost var flat := PathFlat(p);
    at := [];
    WholeNone(p.node);
    NoParent(p);
    var slot: nat;
    while p.node.Node?
      invariant OrderInv(p.g, key, p.fs, p.node, h) && ParentRoom(p)
      invariant PathFlat(p) == flat
      invariant prevCmp == 0 ==> HasLow(p.node) && Cmp(p.g.order, Low(p.node), key) == 0
      invariant Whole(at, p.node) == old(p.node) && Before(at) == Before(p.fs)
      decreases h
    {
      NodeKeysSorted(p.g, key, p.fs, p.node, h);
      ret, slot := SearchNode(p.g, p.node, key, prevCmp);
      prevCmp := ret;
      SlotTaken(p.g, p.node, key, ret, slot);
      if ret != 0 && slot > 0 { slot := slot - 1; }
      ghost var ptrs := p.node.ptrs;
      DescendInsert(p, key, slot, h);
      OpenWhole(at, ptrs, slot);
      at := at + [Open(ptrs, slot)];
      h := h - 1;
    }
    NodeKeysSorted(p.g, key, p.fs, p.node, h);
    ret, slot := SearchNode(p.g, p.node, key, prevCmp);
    AtLeaf(p.g, key, p.fs, p.node, h);
    AtLeafShape(p, key, h);
    if ret == 0 { FoundAbove(p.g, key, p.fs, p.node, h); }
    p.slot := slot;
  }

  lemma ItemBound(p: Path, d: nat)
    requires p.Ok(0) && p.node.Leaf? && p.slot < |p.node.items| && d >= ITEM_HEADER
    ensures Weight(p.node.items) <= p.g.leafCap
    ensures d == ITEM_HEADER || Free(p.g, p.node.items) >= d - ITEM_HEADER ==> ItemFits(p, d - ITEM_HEADER, true)
  {
    WeightSplit(p.node.items, p.slot);
    assert p.node.items[p.slot..][0] == p.node.items[p.slot];
  }

  lemma EmptyHasRoom(g: Geometry, items: seq<Item>, need: nat, found: bool)
    requires Free(g, items) < need && (found || need <= g.leafCap) && (found ==> items != [])
    ensures items != []
  {
  }

  lemma LeafFlatPath(p: Path)
    requires p.node.Leaf? && p.slot <= |p.node.items|
    ensures PathFlat(p) == LeafLeft(p) + LeafRight(p)
  {
    var b, x, y, a := Before(p.fs), p.node.items[..p.slot], p.node.items[p.slot..], After(p.fs);
    assert p.node.items == x + y;
    assert b + (x + y) + a == (b + x) + (y + a);
  }

  /** The end of the descent: split the leaf if it lacks room.  When the key
      already exists only the data counts, and the item grows. */
  method RoomAtLeaf(p: Path, key: Key, d: nat, found: int, ghost flat: seq<Item>) returns (ret: int)
    requires p.node.Leaf? && p.slot <= |p.node.items| && PathFlat(p) == flat && ParentRoom(p) && p.g.cap >= 3
    requires p.node.items != [] ==> p.Ok(0)
    requires p.node.items == [] ==> p.fs == [] && Before(p.fs) == [] && After(p.fs) == []
    requires ITEM_HEADER <= d && (found == 0 || d <= p.g.leafCap)
    requires found == if HasKey(p.g.order, flat, key) then 0 else 1
    requires found == 0 ==> OnItem(p, key)
    requires AllBelow(p.g.order, LeafLeft(p), key)
    requires found != 0 ==> AllAbove(p.g.order, LeafRight(p), key)
    modifies p
    ensures found == 0 ==> ret == 0 || ret == EOVERFLOW
    ensures found != 0 ==> ret == 1
    ensures ret == 1 ==>
              && Ready(p, key, d)
              && LeafLeft(p) + LeafRight(p) == flat
              && AllBelow(p.g.order, LeafLeft(p), key) && AllAbove(p.g.order, LeafRight(p), key)
    ensures ret != 1 ==> OnItem(p, key) && PathFlat(p) == flat
    ensures ret == EOVERFLOW ==> ItemWeight(p.node.items[p.slot]) + d - ITEM_HEADER > p.g.leafCap
    ensures ret == 0 ==> Weight(p.node.items) + d - ITEM_HEADER <= p.g.leafCap
    ensures ret == 0 ==> ItemWeight(p.node.items[p.slot]) + d - ITEM_HEADER <= p.g.leafCap
  {
    hide FramesOk, FlatPtrs, Before, After, Cmp, AllBelow, AllAbove, Shape, Low, HasKey, ItemWeight, Weight;
    ret := found;
    LeafFlatPath(p);
    if found == 0 {
      RestIs(p);
      ItemBound(p, d);
    }
    var need := if found == 0 then d - ITEM_HEADER else d;
    if need > 0 && Free(p.g, p.node.items) < need {
      EmptyHasRoom(p.g, p.node.items, need, found == 0);
      var err := SplitLeaf(p, key, need, found == 0);
      LeafFlatPath(p);
      if found == 0 { RestIs(p); }
      if err != 0 { return err; }
    }
  }

  /** apfs_search_slot with ins_len > 0, for items whose data and headers need
      `d` bytes.  Contents never change; if the key is new the path ends ready
      for them, between the smaller and the larger keys, and otherwise on its
      item, with room for it to grow by the data unless it would fit no leaf. */
  method SearchForInsert(p: Path, key: Key, d: nat) returns (ret: int)
    requires OrderInv(p.g, key, p.fs, p.node, Height(p.node)) && p.fs == [] && p.g.cap >= 5
    requires ITEM_HEADER <= d && (d <= p.g.leafCap || HasKey(p.g.order, PathFlat(p), key))
    modifies p
    ensures HasKey(p.g.order, old(PathFlat(p)), key) ==> ret == 0 || ret == EOVERFLOW
    ensures !HasKey(p.g.order, old(PathFlat(p)), key) ==> ret == 1
    ensures ret == 1 ==>
              && Ready(p, key, d)
              && LeafLeft(p) + LeafRight(p) == old(PathFlat(p))
              && AllBelow(p.g.order, LeafLeft(p), key) && AllAbove(p.g.order, LeafRight(p), key)
    ensures ret != 1 ==> OnItem(p, key) && PathFlat(p) == old(PathFlat(p))
    ensures ret == EOVERFLOW ==> ItemWeight(p.node.items[p.slot]) + d - ITEM_HEADER > p.g.leafCap
    ensures ret == 0 ==> Weight(p.node.items) + d - ITEM_HEADER <= p.g.leafCap
    ensures ret == 0 ==> ItemWeight(p.node.items[p.slot]) + d - ITEM_HEADER <= p.g.leafCap
  {
    hide FramesOk, Before, After, Cmp, AllBelow, AllAbove, OrderInv, Shape, Low, HasKey;
    hide ItemWeight, Weight, Flat, OnItem;
    hide Ready;
    ghost var flat := PathFlat(p);
    ghost var at;
    ret, at := DescendToLeaf(p, key);
    ret := RoomAtLeaf(p, key, d, ret, flat);
  }

  lemma ReadyFacts(p: Path, key: Key, d: nat)
    requires Ready(p, key, d)
    ensures FramesOk(p.g, p.fs, 0) && Weight(p.node.items) + d <= p.g.leafCap
  {
  }

  /** Replacing the key at the path's slots all the way up to the first slot that
      is not 0 keeps a path well shaped, whatever the new key. */
  lemma FixPath(p: Path, key: Key)
    requires FramesOk(p.g, p.fs, 0)
    ensures FramesOk(p.g, FixKeys(p.fs, key), 0) && HoleKey(FixKeys(p.fs, key), key)
    ensures Before(FixKeys(p.fs, key)) == Before(p.fs) && After(FixKeys(p.fs, key)) == After(p.fs)
  {
    hide FramesOk, Before, After, FixKeys, PtrsOk;
    if p.fs != [] { LastOk(p.g, p.fs, 0); }
    FixKeysOk(p.g, p.fs, key, 0);
    FixKeysFlat(p.fs, key);
  }

  lemma WithItems(g: Geometry, items: seq<Item>, slot: nat, its: seq<Item>)
    requires slot <= |items| && its != [] && Weight(items) + Weight(its) <= g.leafCap
    ensures var s := items[..slot] + its + items[slot..];
            && s != [] && Weight(s) <= g.leafCap && Shape(g, Leaf(s), 0)
            && s[0] == if slot == 0 then its[0] else items[0]
  {
    hide Weight;
    WeightConcat(items[..slot] + its, items[slot..]);
    WeightConcat(items[..slot], its);
    WeightSplit(items, slot);
  }

  /** setup_items_for_insert, at a path that is ready for the items. */
  method SetupItems(p: Path, its: seq<Item>)
    requires its != [] && Ready(p, its[0].key, Weight(its))
    modifies p
    ensures p.Ok(0)
    ensures PathFlat(p) == old(LeafLeft(p)) + its + old(LeafRight(p))
  {
    hide FramesOk, FlatPtrs, Before, After, PtrsOk, Weight;
    ghost var fs, items, slot := p.fs, p.node.items, p.slot;
    ReadyFacts(p, its[0].key, Weight(its));
    if p.slot == 0 {
      FixPath(p, its[0].key);
      FixupLowKeys(p, its[0].key);
    }
    WithItems(p.g, items, slot, its);
    p.node := Leaf(p.node.items[..p.slot] + its + p.node.items[p.slot..]);
    Trees.Regroup(Before(fs), items[..slot], its, items[slot..], After(fs));
  }
}
