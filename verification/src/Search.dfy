/** Searching the tree: binary search in one node, and the descent of
    apfs_search_slot with its shortcut below an exact match. */
module Search {
  import opened Keys
  import opened Trees

  function PtrKeys(ps: seq<Ptr>): (ks: seq<Key>)
    ensures |ks| == |ps| && forall i :: 0 <= i < |ps| ==> ks[i] == ps[i].key
  {
    seq(|ps|, i requires 0 <= i < |ps| => ps[i].key)
  }

  function ItemKeys(s: seq<Item>): (ks: seq<Key>)
    ensures |ks| == |s| && forall i :: 0 <= i < |s| ==> ks[i] == s[i].key
  {
    seq(|s|, i requires 0 <= i < |s| => s[i].key)
  }

  function NodeKeys(t: Tree): seq<Key> {
    match t
    case Leaf(items) => ItemKeys(items)
    case Node(ptrs) => PtrKeys(ptrs)
  }

  ghost predicate KeysSorted(o: Order, ks: seq<Key>) {
    forall i, j :: 0 <= i < j < |ks| ==> Cmp(o, ks[i], ks[j]) < 0
  }

  /** How many leading keys sort before `key`. */
  function Rank(o: Order, ks: seq<Key>, key: Key): nat {
    if ks == [] || Cmp(o, ks[0], key) >= 0 then 0 else 1 + Rank(o, ks[1..], key)
  }

  predicate Hit(o: Order, ks: seq<Key>, key: Key) {
    var r := Rank(o, ks, key);
    r < |ks| && Cmp(o, ks[r], key) == 0
  }

  lemma {:induction false} RankUnique(o: Order, ks: seq<Key>, key: Key, r: nat)
    requires r <= |ks|
    requires forall j :: 0 <= j < r ==> Cmp(o, ks[j], key) < 0
    requires r < |ks| ==> Cmp(o, ks[r], key) >= 0
    ensures Rank(o, ks, key) == r
  {
    if r > 0 {
      forall j | 0 <= j < r - 1 ensures Cmp(o, ks[1..][j], key) < 0 { assert ks[1..][j] == ks[j+1]; }
      RankUnique(o, ks[1..], key, r - 1);
    }
  }

  lemma {:induction false} RankSplits(o: Order, ks: seq<Key>, key: Key)
    ensures Rank(o, ks, key) <= |ks|
    ensures forall j :: 0 <= j < Rank(o, ks, key) ==> Cmp(o, ks[j], key) < 0
    ensures Rank(o, ks, key) < |ks| ==> Cmp(o, ks[Rank(o, ks, key)], key) >= 0
  {
    if !(ks == [] || Cmp(o, ks[0], key) >= 0) {
      RankSplits(o, ks[1..], key);
      forall j | 1 <= j < Rank(o, ks, key) ensures Cmp(o, ks[j], key) < 0 { assert ks[1..][j-1] == ks[j]; }
    }
  }

  lemma SortedAbove(o: Order, ks: seq<Key>, key: Key, m: nat)
    requires KeysSorted(o, ks) && m < |ks| && Cmp(o, ks[m], key) >= 0
    ensures forall j :: m < j < |ks| ==> Cmp(o, ks[j], key) > 0
  {
    forall j | m < j < |ks| ensures Cmp(o, ks[j], key) > 0 {
      CmpOrder(o, key, ks[m], ks[j]);
      CmpOrder(o, ks[j], key, ks[m]);
    }
  }

  lemma SortedBelow(o: Order, ks: seq<Key>, key: Key, m: nat)
    requires KeysSorted(o, ks) && m < |ks| && Cmp(o, ks[m], key) <= 0
    ensures forall j :: 0 <= j < m ==> Cmp(o, ks[j], key) < 0
  {
    forall j | 0 <= j < m ensures Cmp(o, ks[j], key) < 0 {
      CmpOrder(o, ks[j], ks[m], key);
    }
  }

  /** generic_bin_search: 0 and the slot of the key, or 1 and the slot where it
      would be inserted. */
  method BinSearch(o: Order, ks: seq<Key>, key: Key) returns (ret: int, slot: nat)
    requires KeysSorted(o, ks)
    ensures slot == Rank(o, ks, key)
    ensures ret == if Hit(o, ks, key) then 0 else 1
  {
    var low, high := 0, |ks|;
    while low < high
      invariant 0 <= low <= high <= |ks|
      invariant forall j :: 0 <= j < low ==> Cmp(o, ks[j], key) < 0
      invariant forall j :: high <= j < |ks| ==> Cmp(o, ks[j], key) > 0
    {
      var mid := (low + high) / 2;
      var c := Cmp(o, ks[mid], key);
      if c < 0 {
        SortedBelow(o, ks, key, mid);
        low := mid + 1;
      } else if c > 0 {
        SortedAbove(o, ks, key, mid);
        high := mid;
      } else {
        SortedBelow(o, ks, key, mid);
        RankUnique(o, ks, key, mid);
        return 0, mid;
      }
    }
    RankUnique(o, ks, key, low);
    return 1, low;
  }

  // ---- Order facts about a node's children ----

  ghost predicate AllBelow(o: Order, s: seq<Item>, key: Key) {
    forall i :: 0 <= i < |s| ==> Cmp(o, s[i].key, key) < 0
  }

  ghost predicate AllAbove(o: Order, s: seq<Item>, key: Key) {
    forall i :: 0 <= i < |s| ==> Cmp(o, s[i].key, key) > 0
  }

  lemma SortedParts(o: Order, a: seq<Item>, b: seq<Item>)
    requires Sorted(o, a + b)
    ensures Sorted(o, a) && Sorted(o, b)
    ensures forall i, j :: 0 <= i < |a| && 0 <= j < |b| ==> Cmp(o, a[i].key, b[j].key) < 0
  {
    var s := a + b;
    forall i, j | 0 <= i < j < |a| ensures Cmp(o, a[i].key, a[j].key) < 0 {
      assert s[i] == a[i] && s[j] == a[j];
    }
    forall i, j | 0 <= i < j < |b| ensures Cmp(o, b[i].key, b[j].key) < 0 {
      assert s[|a| + i] == b[i] && s[|a| + j] == b[j];
    }
    forall i, j | 0 <= i < |a| && 0 <= j < |b| ensures Cmp(o, a[i].key, b[j].key) < 0 {
      assert s[i] == a[i] && s[|a| + j] == b[j];
    }
  }

  lemma FirstOfRest(g: Geometry, ps: seq<Ptr>, h: nat, k: nat)
    requires PtrsOk(g, ps, h) && k < |ps|
    ensures FlatPtrs(ps[k..]) != [] && FlatPtrs(ps[k..])[0].key == ps[k].key
  {
    assert PtrOk(g, ps[k], h);
    LowIsFirst(g, ps[k].child, h);
  }

  /** Items left of child `k` are below its key, items from it on are not. */
  lemma ChildBounds(g: Geometry, ps: seq<Ptr>, h: nat, k: nat, key: Key)
    requires PtrsOk(g, ps, h) && k < |ps| && Sorted(g.order, FlatPtrs(ps))
    ensures Cmp(g.order, ps[k].key, key) <= 0 ==> AllBelow(g.order, FlatPtrs(ps[..k]), key)
    ensures Cmp(g.order, ps[k].key, key) > 0 ==> AllAbove(g.order, FlatPtrs(ps[k..]), key)
  {
    var o, a, b := g.order, FlatPtrs(ps[..k]), FlatPtrs(ps[k..]);
    FlatSplit(ps, k);
    FirstOfRest(g, ps, h, k);
    SortedParts(o, a, b);
    if Cmp(o, ps[k].key, key) <= 0 {
      forall i | 0 <= i < |a| ensures Cmp(o, a[i].key, key) < 0 {
        CmpOrder(o, a[i].key, b[0].key, key);
      }
    } else {
      forall i | 0 <= i < |b| ensures Cmp(o, b[i].key, key) > 0 {
        CmpOrder(o, key, b[0].key, b[i].key);
        CmpOrder(o, b[i].key, key, b[0].key);
      }
    }
  }

  lemma PtrKeysSorted(g: Geometry, ps: seq<Ptr>, h: nat)
    requires PtrsOk(g, ps, h) && Sorted(g.order, FlatPtrs(ps))
    ensures KeysSorted(g.order, PtrKeys(ps))
  {
    forall i, j | 0 <= i < j < |ps| ensures Cmp(g.order, ps[i].key, ps[j].key) < 0 {
      var a, b := FlatPtrs(ps[..j]), FlatPtrs(ps[j..]);
      FlatSplit(ps, j);
      FirstOfRest(g, ps, h, j);
      SortedParts(g.order, a, b);
      assert PtrsOk(g, ps[..j], h);
      FirstOfRest(g, ps[..j], h, i);
      FlatSplit(ps[..j], i);
      assert a[|FlatPtrs(ps[..j][..i])|].key == ps[i].key;
    }
  }

  /** The slot a descent takes: the match, else the pair before the insertion
      point, else the first pair. */
  function ChildSlot(o: Order, ks: seq<Key>, key: Key): nat {
    var r := Rank(o, ks, key);
    if Hit(o, ks, key) || r == 0 then r else r - 1
  }

  /** The child at that slot is the only one that can hold `key`. */
  lemma ChildSlotBounds(g: Geometry, ps: seq<Ptr>, h: nat, key: Key)
    requires PtrsOk(g, ps, h) && Sorted(g.order, FlatPtrs(ps)) && ps != []
    ensures var k := ChildSlot(g.order, PtrKeys(ps), key);
            && k < |ps|
            && AllBelow(g.order, FlatPtrs(ps[..k]), key)
            && AllAbove(g.order, FlatPtrs(ps[k+1..]), key)
            && (Hit(g.order, PtrKeys(ps), key) ==> Cmp(g.order, ps[k].key, key) == 0)
            && (k > 0 ==> Cmp(g.order, ps[k].key, key) <= 0)
  {
    var o, ks := g.order, PtrKeys(ps);
    var k := ChildSlot(o, ks, key);
    RankSplits(o, ks, key);
    PtrKeysSorted(g, ps, h);
    if k == 0 { assert ps[..0] == []; } else { ChildBounds(g, ps, h, k, key); }
    if k + 1 < |ps| {
      if Cmp(o, ks[k], key) >= 0 { SortedAbove(o, ks, key, k); }
      assert Cmp(o, ks[k+1], key) > 0;
      ChildBounds(g, ps, h, k + 1, key);
    } else {
      assert ps[k+1..] == [];
    }
  }

  // ---- Searching a whole tree ----

  /** The slot taken on every level, from the root down to the leaf, when every
      level is searched: the reference the shortcut is compared with. */
  function FullSearch(o: Order, t: Tree, key: Key): seq<nat>
    decreases t
  {
    match t
    case Leaf(items) => [Rank(o, ItemKeys(items), key)]
    case Node(ptrs) =>
      var k := ChildSlot(o, PtrKeys(ptrs), key);
      if k < |ptrs| then
        assert ptrs[k].child < ptrs[k];
        [k] + FullSearch(o, ptrs[k].child, key)
      else [k]
  }

  function Slots(fs: seq<Frame>): (s: seq<nat>)
    ensures |s| == |fs|
  {
    seq(|fs|, i requires 0 <= i < |fs| => |fs[i].left|)
  }

  /** A path from the root of `t` to a leaf. */
  ghost predicate PathIn(g: Geometry, t: Tree, fs: seq<Frame>, leaf: Tree) {
    && Whole(fs, leaf) == t && leaf.Leaf?
    && FramesOk(g, fs, 0)
    && (leaf.items != [] ==> Shape(g, leaf, 0) && HoleKey(fs, Low(leaf)))
    && (leaf.items == [] ==> fs == [])
  }

  ghost predicate HasKey(o: Order, s: seq<Item>, key: Key) {
    exists i :: 0 <= i < |s| && Cmp(o, s[i].key, key) == 0
  }

  /** In a sorted run only one position has a given key. */
  lemma OneIndex(o: Order, s: seq<Item>, i: nat, j: nat, key: Key)
    requires Sorted(o, s) && i < |s| && j < |s| && Cmp(o, s[i].key, key) == 0 && Cmp(o, s[j].key, key) == 0
    ensures i == j
  {
    hide Cmp;
    CmpOrder(o, s[i].key, key, s[j].key);
    CmpOrder(o, s[j].key, key, s[i].key);
    CmpOrder(o, s[i].key, s[j].key, key);
  }

  /** `pos` separates the items below `key` from the rest, and the item at it is
      the match when there is one. */
  ghost predicate Separates(o: Order, s: seq<Item>, key: Key, pos: nat, found: bool) {
    && pos <= |s|
    && (forall i :: 0 <= i < pos ==> Cmp(o, s[i].key, key) < 0)
    && (found ==> pos < |s| && Cmp(o, s[pos].key, key) == 0)
    && (forall i :: (if found then pos + 1 else pos) <= i < |s| ==> Cmp(o, s[i].key, key) > 0)
  }

  lemma SeparatesHasKey(o: Order, s: seq<Item>, key: Key, pos: nat, found: bool)
    requires Separates(o, s, key, pos, found)
    ensures found <==> HasKey(o, s, key)
  {
  }

  lemma LeafSeparates(o: Order, b: seq<Item>, items: seq<Item>, a: seq<Item>, key: Key)
    requires AllBelow(o, b, key) && AllAbove(o, a, key) && Sorted(o, items)
    ensures var r := Rank(o, ItemKeys(items), key);
            r <= |items| && Separates(o, b + items + a, key, |b| + r, Hit(o, ItemKeys(items), key))
  {
    hide Cmp;
    var ks := ItemKeys(items);
    var r, s := Rank(o, ks, key), b + items + a;
    RankSplits(o, ks, key);
    if r < |ks| { SortedAbove(o, ks, key, r); }
    forall i | 0 <= i < |s|
      ensures i < |b| + r ==> Cmp(o, s[i].key, key) < 0
      ensures i == |b| + r && i < |b| + |items| ==> Cmp(o, s[i].key, key) >= 0
      ensures i > |b| + r || i >= |b| + |items| ==> Cmp(o, s[i].key, key) > 0
    {
      if |b| <= i < |b| + |items| { assert s[i].key == ks[i - |b|]; }
    }
  }

  /** What a descent knows at each level: everything left of its node is below
      the key, everything right of it above. */
  ghost predicate OrderInv(g: Geometry, key: Key, fs: seq<Frame>, node: Tree, h: nat) {
    && FramesOk(g, fs, h)
    && (Shape(g, node, h) || (fs == [] && node == Leaf([])))
    && (HasLow(node) ==> HoleKey(fs, Low(node)))
    && Sorted(g.order, Flat(node))
    && AllBelow(g.order, Before(fs), key) && AllAbove(g.order, After(fs), key)
    && (Before(fs) != [] ==> HasLow(node) && Cmp(g.order, Low(node), key) <= 0)
  }

  ghost predicate SearchInv(g: Geometry, root: Tree, key: Key, fs: seq<Frame>, node: Tree, h: nat) {
    && OrderInv(g, key, fs, node, h) && Whole(fs, node) == root
    && FullSearch(g.order, root, key) == Slots(fs) + FullSearch(g.order, node, key)
  }

  lemma BelowConcat(o: Order, a: seq<Item>, b: seq<Item>, key: Key)
    requires AllBelow(o, a, key) && AllBelow(o, b, key)
    ensures AllBelow(o, a + b, key)
  {
  }

  lemma AboveConcat(o: Order, a: seq<Item>, b: seq<Item>, key: Key)
    requires AllAbove(o, a, key) && AllAbove(o, b, key)
    ensures AllAbove(o, a + b, key)
  {
  }

  lemma FullSearchDown(o: Order, fs: seq<Frame>, ps: seq<Ptr>, key: Key)
    requires ChildSlot(o, PtrKeys(ps), key) < |ps|
    ensures var k := ChildSlot(o, PtrKeys(ps), key);
            Slots(fs) + FullSearch(o, Node(ps), key)
            == Slots(fs + [Open(ps, k)]) + FullSearch(o, ps[k].child, key)
  {
    var k := ChildSlot(o, PtrKeys(ps), key);
    assert Slots(fs + [Open(ps, k)]) == Slots(fs) + [k];
    assert FullSearch(o, Node(ps), key) == [k] + FullSearch(o, ps[k].child, key);
    assert Slots(fs) + ([k] + FullSearch(o, ps[k].child, key))
        == Slots(fs) + [k] + FullSearch(o, ps[k].child, key);
  }

  lemma ChildSorted(o: Order, ps: seq<Ptr>, k: nat)
    requires Sorted(o, FlatPtrs(ps)) && k < |ps|
    ensures Sorted(o, Flat(ps[k].child))
  {
    FlatAround(ps, k);
    SortedParts(o, FlatPtrs(ps[..k]) + Flat(ps[k].child), FlatPtrs(ps[k+1..]));
    SortedParts(o, FlatPtrs(ps[..k]), Flat(ps[k].child));
  }

  lemma SearchStart(g: Geometry, root: Tree, key: Key)
    requires TreeOk(g, root)
    ensures SearchInv(g, root, key, [], root, Height(root))
  {
    hide Sorted, Cmp, FullSearch, Flat, Shape;
    var all := FullSearch(g.order, root, key);
    assert Slots([]) + all == all;
    assert Before([]) == [] && After([]) == [];
  }

  /** The slot a descent takes, and what lies around it. */
  lemma Chosen(g: Geometry, key: Key, fs: seq<Frame>, node: Tree, h: nat)
    requires OrderInv(g, key, fs, node, h) && node.Node?
    ensures var k := ChildSlot(g.order, PtrKeys(node.ptrs), key);
            && h > 0 && k < |node.ptrs| <= g.cap
            && AllBelow(g.order, Before(fs) + FlatPtrs(node.ptrs[..k]), key)
            && AllAbove(g.order, FlatPtrs(node.ptrs[k+1..]) + After(fs), key)
            && Sorted(g.order, Flat(node.ptrs[k].child))
            && (Before(fs) + FlatPtrs(node.ptrs[..k]) != [] ==> Cmp(g.order, node.ptrs[k].key, key) <= 0)
  {
    hide FramesOk, Cmp, Rank, Before, After, Sorted;
    var o, ps := g.order, node.ptrs;
    var k := ChildSlot(o, PtrKeys(ps), key);
    ShapeParts(g, node, h);
    ChildSlotBounds(g, ps, h - 1, key);
    ChildSorted(o, ps, k);
    BelowConcat(o, Before(fs), FlatPtrs(ps[..k]), key);
    AboveConcat(o, FlatPtrs(ps[k+1..]), After(fs), key);
    if k == 0 { assert ps[..0] == []; }
  }

  lemma SearchDown(g: Geometry, root: Tree, key: Key, fs: seq<Frame>, node: Tree, h: nat)
    requires SearchInv(g, root, key, fs, node, h) && node.Node?
    ensures var k := ChildSlot(g.order, PtrKeys(node.ptrs), key);
            && h > 0 && k < |node.ptrs|
            && SearchInv(g, root, key, fs + [Open(node.ptrs, k)], node.ptrs[k].child, h - 1)
            && HasLow(node.ptrs[k].child)
            && node.ptrs[k].key == Low(node.ptrs[k].child)
  {
    hide FramesOk, Cmp, Rank, Before, After, Sorted, AllBelow, AllAbove;
    var ps := node.ptrs;
    Chosen(g, key, fs, node, h);
    Descend(g, fs, node, h, ChildSlot(g.order, PtrKeys(ps), key));
    FullSearchDown(g.order, fs, ps, key);
    ShapeParts(g, node, h);
    assert PtrOk(g, ps[ChildSlot(g.order, PtrKeys(ps), key)], h - 1);
  }

  /** Below an exact match slot 0 is what a search would find. */
  lemma MatchIsFirst(o: Order, node: Tree, key: Key)
    requires HasLow(node) && Cmp(o, Low(node), key) == 0
    ensures Rank(o, NodeKeys(node), key) == 0 && Hit(o, NodeKeys(node), key)
  {
  }

  lemma NodeKeysSorted(g: Geometry, key: Key, fs: seq<Frame>, node: Tree, h: nat)
    requires OrderInv(g, key, fs, node, h)
    ensures KeysSorted(g.order, NodeKeys(node))
  {
    hide Cmp, Rank, FullSearch, AllBelow, AllAbove, Before, After, Whole, FramesOk;
    if node.Node? {
      ShapeParts(g, node, h);
      PtrKeysSorted(g, node.ptrs, h - 1);
    }
  }

  lemma NotBeforeFirst(o: Order, items: seq<Item>, key: Key)
    requires items != [] && Cmp(o, items[0].key, key) <= 0
    ensures Rank(o, ItemKeys(items), key) > 0 || Hit(o, ItemKeys(items), key)
  {
  }

  lemma SearchEndPath(g: Geometry, root: Tree, key: Key, fs: seq<Frame>, node: Tree, h: nat)
    requires SearchInv(g, root, key, fs, node, h) && node.Leaf?
    ensures h == 0 || node.items == []
    ensures PathIn(g, root, fs, node)
  {
    hide Cmp, AllBelow, AllAbove, Before, After, FullSearch, Sorted, Whole;
  }

  lemma SearchEnd(g: Geometry, root: Tree, key: Key, fs: seq<Frame>, node: Tree, h: nat)
    requires SearchInv(g, root, key, fs, node, h) && node.Leaf?
    ensures h == 0 || node.items == []
    ensures PathIn(g, root, fs, node)
    ensures var r := Rank(g.order, ItemKeys(node.items), key);
            && r <= |node.items| && (Hit(g.order, ItemKeys(node.items), key) ==> r < |node.items|)
            && Separates(g.order, Flat(root), key, |Before(fs)| + r, Hit(g.order, ItemKeys(node.items), key))
            && FullSearch(g.order, root, key) == Slots(fs) + [r]
            && (r == 0 && !Hit(g.order, ItemKeys(node.items), key) ==> Before(fs) == [])
  {
    hide Cmp, AllBelow, AllAbove, Separates, Before, After, Rank, PathIn, FramesOk, Shape, Whole;
    SearchEndPath(g, root, key, fs, node, h);
    FlatWhole(fs, node);
    if Before(fs) != [] { NotBeforeFirst(g.order, node.items, key); }
    LeafSeparates(g.order, Before(fs), node.items, After(fs), key);
  }

  lemma AfterExactMatch(g: Geometry, node: Tree, key: Key)
    requires node.Node? && ChildSlot(g.order, PtrKeys(node.ptrs), key) < |node.ptrs|
    requires Hit(g.order, NodeKeys(node), key)
    ensures Cmp(g.order, node.ptrs[ChildSlot(g.order, PtrKeys(node.ptrs), key)].key, key) == 0
  {
  }

  /** One level of apfs_search_slot: skip the comparison after an exact match,
      binary-search otherwise. */
  method SearchNode(g: Geometry, node: Tree, key: Key, prevCmp: int) returns (ret: int, slot: nat)
    requires KeysSorted(g.order, NodeKeys(node))
    requires prevCmp == 0 ==> HasLow(node) && Cmp(g.order, Low(node), key) == 0
    ensures slot == Rank(g.order, NodeKeys(node), key)
    ensures ret == if Hit(g.order, NodeKeys(node), key) then 0 else 1
  {
    if prevCmp == 0 {
      MatchIsFirst(g.order, node, key);
      return 0, 0;
    }
    ret, slot := BinSearch(g.order, NodeKeys(node), key);
  }

  /** apfs_search_slot without modification (ins_len == 0): one descent, which
      stops comparing once some level matched exactly. */
  method SearchSlot(g: Geometry, root: Tree, key: Key)
    returns (ret: int, fs: seq<Frame>, leaf: Tree, slot: nat)
    requires TreeOk(g, root)
    ensures PathIn(g, root, fs, leaf) && slot <= |leaf.items| && (ret == 0 ==> slot < |leaf.items|)
    ensures ret == if HasKey(g.order, Flat(root), key) then 0 else 1
    ensures Separates(g.order, Flat(root), key, |Before(fs)| + slot, ret == 0)
    ensures Slots(fs) + [slot] == FullSearch(g.order, root, key)
    ensures ret != 0 && slot == 0 ==> Before(fs) == []
  {
    hide OrderInv, Separates, PathIn, Cmp, Rank, Hit, FullSearch, Before, Whole;
    var prevCmp := -1;
    var node := root;
    fs := [];
    ghost var h := Height(root);
    SearchStart(g, root, key);
    while true
      invariant SearchInv(g, root, key, fs, node, h)
      invariant prevCmp == 0 ==> HasLow(node) && Cmp(g.order, Low(node), key) == 0
      decreases h
    {
      NodeKeysSorted(g, key, fs, node, h);
      ret, slot := SearchNode(g, node, key, prevCmp);
      prevCmp := ret;
      if node.Leaf? {
        SearchEnd(g, root, key, fs, node, h);
        SeparatesHasKey(g.order, Flat(root), key, |Before(fs)| + slot, ret == 0);
        return ret, fs, node, slot;
      }
      SearchDown(g, root, key, fs, node, h);
      if ret == 0 { AfterExactMatch(g, node, key); }
      if ret != 0 && slot > 0 { slot := slot - 1; }
      fs, node, h := fs + [Open(node.ptrs, slot)], node.ptrs[slot].child, h - 1;
    }
  }

  /** apfs_search_old_slot: the same descent with a binary search on every
      level. */
  method SearchOldSlot(g: Geometry, root: Tree, key: Key)
    returns (ret: int, fs: seq<Frame>, leaf: Tree, slot: nat)
    requires TreeOk(g, root)
    ensures PathIn(g, root, fs, leaf) && slot <= |leaf.items| && (ret == 0 ==> slot < |leaf.items|)
    ensures ret == if HasKey(g.order, Flat(root), key) then 0 else 1
    ensures Separates(g.order, Flat(root), key, |Before(fs)| + slot, ret == 0)
    ensures Slots(fs) + [slot] == FullSearch(g.order, root, key)
    ensures ret != 0 && slot == 0 ==> Before(fs) == []
  {
    hide OrderInv, Separates, PathIn, Cmp, Rank, Hit, FullSearch, Before, Whole;
    var node := root;
    fs := [];
    ghost var h := Height(root);
    SearchStart(g, root, key);
    while true
      invariant SearchInv(g, root, key, fs, node, h)
      decreases h
    {
      NodeKeysSorted(g, key, fs, node, h);
      ret, slot := BinSearch(g.order, NodeKeys(node), key);
      if node.Leaf? {
        SearchEnd(g, root, key, fs, node, h);
        SeparatesHasKey(g.order, Flat(root), key, |Before(fs)| + slot, ret == 0);
        return ret, fs, node, slot;
      }
      SearchDown(g, root, key, fs, node, h);
      if ret != 0 && slot > 0 { slot := slot - 1; }
      fs, node, h := fs + [Open(node.ptrs, slot)], node.ptrs[slot].child, h - 1;
    }
  }
}
