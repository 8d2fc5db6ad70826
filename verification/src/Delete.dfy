/** Deleting items: apfs_search_slot with ins_len < 0, which rebalances sparse
    nodes on the way down, and apfs_del_items at the leaf. */
module Delete {
  import opened Keys
  import opened Trees
  import opened Search
  import opened Paths
  import opened LowKeys
  import opened Nodes
  import opened Leaves
  import opened LeafSplit
  import opened Insert

  /** The reference: a sequence without the items that compare equal to a key. */
  function Removed(o: Order, s: seq<Item>, key: Key): seq<Item> {
    if s == [] then []
    else if Cmp(o, s[0].key, key) == 0 then Removed(o, s[1..], key)
    else [s[0]] + Removed(o, s[1..], key)
  }

  lemma {:induction false} RemovedConcat(o: Order, a: seq<Item>, b: seq<Item>, key: Key)
    ensures Removed(o, a + b, key) == Removed(o, a, key) + Removed(o, b, key)
  {
    hide Cmp;
    if a == [] {
      assert a + b == b;
    } else {
      RemovedConcat(o, a[1..], b, key);
      assert (a + b)[0] == a[0] && (a + b)[1..] == a[1..] + b;
      if Cmp(o, a[0].key, key) != 0 { Assoc([a[0]], Removed(o, a[1..], key), Removed(o, b, key)); }
    }
  }

  lemma {:induction false} RemovedNone(o: Order, s: seq<Item>, key: Key)
    requires forall i :: 0 <= i < |s| ==> Cmp(o, s[i].key, key) != 0
    ensures Removed(o, s, key) == s
  {
    hide Cmp;
    if s != [] {
      RemovedNone(o, s[1..], key);
      assert [s[0]] + s[1..] == s;
    }
  }

  lemma RemovedOne(o: Order, it: Item, key: Key)
    requires Cmp(o, it.key, key) == 0
    ensures Removed(o, [it], key) == []
  {
    hide Cmp;
    assert [it][1..] == [];
  }

  lemma RemovedSplit(o: Order, l: seq<Item>, it: Item, r: seq<Item>, key: Key)
    requires AllBelow(o, l, key) && AllAbove(o, r, key) && Cmp(o, it.key, key) == 0
    ensures Removed(o, l + [it] + r, key) == l + r
  {
    hide Cmp, Removed;
    RemovedConcat(o, l + [it], r, key);
    RemovedConcat(o, l, [it], key);
    RemovedNone(o, l, key);
    RemovedNone(o, r, key);
    RemovedOne(o, it, key);
  }

  // ---- The descent ----

  /** The parent keeps a pointer even if one is deleted from it. */
  ghost predicate ParentSpare(p: Path)
    reads p
  {
    p.fs != [] ==> Count(Last(p.fs)) >= 2
  }

  /** The only child of the root has the root's contents. */
  lemma OnlyChild(g: Geometry, key: Key, node: Tree, h: nat)
    requires OrderInv(g, key, [], node, h) && node.Node? && |node.ptrs| == 1
    ensures h > 0 && OrderInv(g, key, [], node.ptrs[0].child, h - 1) && Flat(node.ptrs[0].child) == Flat(node)
  {
    hide Cmp, Sorted;
    ShapeParts(g, node, h);
    assert PtrOk(g, node.ptrs[0], h - 1);
    assert node.ptrs == [node.ptrs[0]];
    FlatOne(node.ptrs[0]);
    NoFrames();
  }

  /** One level of the descent: with the slot chosen, rebalance the node if it is
      less than half full, and step down; or, when the root gives way to its only
      child, start again. */
  method DescendDelete(p: Path, key: Key, slot: nat, ghost h: nat) returns (again: bool)
    requires OrderInv(p.g, key, p.fs, p.node, h) && p.node.Node? && p.g.cap >= 10 && ParentSpare(p)
    requires slot == ChildSlot(p.g.order, PtrKeys(p.node.ptrs), key)
    modifies p
    ensures h > 0 && OrderInv(p.g, key, p.fs, p.node, h - 1) && ParentSpare(p)
    ensures PathFlat(p) == old(PathFlat(p))
    ensures again ==> p.fs == []
    ensures !again ==> slot < |old(p.node).ptrs| && HasLow(p.node) && Low(p.node) == old(p.node).ptrs[slot].key
  {
    hide FramesOk, FlatPtrs, Before, After, Cmp, Rank, AllBelow, AllAbove, Sorted, ChildSlot;
    hide OrderInv, Flat, Shape, Low;
    Chosen(p.g, key, p.fs, p.node, h);
    OrderOk(p.g, key, p.fs, p.node, h);
    p.slot := slot;
    AroundSlot(p, h);
    if |p.node.ptrs| < p.g.cap / 2 {
      if p.fs == [] && |p.node.ptrs| == 1 { OnlyChild(p.g, key, p.node, h); }
      var ret, promoted := BalanceLevel(p, h);
      if promoted { return true; }
      // a path's node is never left with a single pair
      assert |p.node.ptrs| != 1;
    }
    AroundSlot(p, h);
    StepDown(p, key, h);
    return false;
  }

  /** apfs_search_slot with ins_len < 0. */
  method SearchForDelete(p: Path, key: Key) returns (ret: int)
    requires OrderInv(p.g, key, p.fs, p.node, Height(p.node)) && p.fs == [] && p.g.cap >= 10
    modifies p
    ensures ret == if HasKey(p.g.order, old(PathFlat(p)), key) then 0 else 1
    ensures p.node.Leaf? && p.slot <= |p.node.items| && PathFlat(p) == old(PathFlat(p))
    ensures p.node.items != [] ==> p.Ok(0)
    ensures p.node.items == [] ==> p.fs == []
    ensures ParentSpare(p)
    ensures ret == 0 ==>
              && p.slot < |p.node.items| && Cmp(p.g.order, p.node.items[p.slot].key, key) == 0
              && AllBelow(p.g.order, LeafLeft(p), key)
              && AllAbove(p.g.order, p.node.items[p.slot+1..] + After(p.fs), key)
  {
    hide FramesOk, FlatPtrs, Before, After, Cmp, Rank, Hit, AllBelow, AllAbove, Sorted, ChildSlot, OrderInv, Shape, Low;
    hide HasKey, Flat;
    var prevCmp := -1;
    ghost var h := Height(p.node);
    ghost var flat := PathFlat(p);
    var slot: nat;
    while p.node.Node?
      invariant OrderInv(p.g, key, p.fs, p.node, h) && ParentSpare(p)
      invariant PathFlat(p) == flat
      invariant prevCmp == 0 ==> HasLow(p.node) && Cmp(p.g.order, Low(p.node), key) == 0
      decreases h
    {
      NodeKeysSorted(p.g, key, p.fs, p.node, h);
      ret, slot := SearchNode(p.g, p.node, key, prevCmp);
      prevCmp := ret;
      SlotTaken(p.g, p.node, key, ret, slot);
      if ret != 0 && slot > 0 { slot := slot - 1; }
      var again := DescendDelete(p, key, slot, h);
      if again { prevCmp := -1; }
      h := h - 1;
    }
    NodeKeysSorted(p.g, key, p.fs, p.node, h);
    ret, slot := SearchNode(p.g, p.node, key, prevCmp);
    AtLeaf(p.g, key, p.fs, p.node, h);
    AtLeafShape(p, key, h);
    if ret == 0 { FoundAbove(p.g, key, p.fs, p.node, h); }
    p.slot := slot;
  }

  // ---- apfs_del_items ----

  /** A leaf's pair in the parent, or nothing once the leaf is empty. */
  function WrapLeaf(items: seq<Item>): seq<Ptr> {
    if items == [] then [] else [Ptr(items[0].key, Leaf(items))]
  }

  lemma WrapLeafOk(g: Geometry, items: seq<Item>)
    requires Weight(items) <= g.leafCap
    ensures PtrsOk(g, WrapLeaf(items), 0) && FlatPtrs(WrapLeaf(items)) == items
  {
    hide PtrsOk, PtrOk, Weight;
    if items != [] {
      LeafPtrOk(g, items);
      OneOk(g, WrapLeaf(items)[0], 0);
      FlatOne(WrapLeaf(items)[0]);
    } else {
      NoneOk(g, 0);
    }
  }

  function LeafRun(l: seq<Item>, m: seq<Item>, r: seq<Item>): seq<Ptr> {
    WrapLeaf(l) + WrapLeaf(m) + WrapLeaf(r)
  }

  lemma LeafRunOk(g: Geometry, l: seq<Item>, m: seq<Item>, r: seq<Item>)
    requires Weight(l) <= g.leafCap && Weight(m) <= g.leafCap && Weight(r) <= g.leafCap
    ensures PtrsOk(g, LeafRun(l, m, r), 0) && FlatPtrs(LeafRun(l, m, r)) == l + m + r
  {
    hide PtrsOk, FlatPtrs, WrapLeaf, Weight;
    WrapLeafOk(g, l);
    WrapLeafOk(g, m);
    WrapLeafOk(g, r);
    ConcatOk(g, WrapLeaf(l), WrapLeaf(m), 0);
    ConcatOk(g, WrapLeaf(l) + WrapLeaf(m), WrapLeaf(r), 0);
    FlatConcat(WrapLeaf(l), WrapLeaf(m));
    FlatConcat(WrapLeaf(l) + WrapLeaf(m), WrapLeaf(r));
  }

  /** A run of a parent's leaves regrouped into up to three leaves. */
  lemma ReplaceLeafRun(g: Geometry, par: seq<Ptr>, i: nat, j: nat, l: seq<Item>, m: seq<Item>, r: seq<Item>)
    requires PtrsOk(g, par, 0) && i < j <= |par| && l + m + r == FlatPtrs(par[i..j])
    requires Weight(l) <= g.leafCap && Weight(m) <= g.leafCap && Weight(r) <= g.leafCap
    ensures var par' := Splice(par, i, j, LeafRun(l, m, r));
            && PtrsOk(g, par', 0) && par' != [] && par'[0].key == par[0].key && FlatPtrs(par') == FlatPtrs(par)
            && |par'| <= |par| - (j - i) + 3
  {
    hide PtrsOk, FlatPtrs, Weight;
    LeafChild(g, par, i);
    FirstItem(par, i, j);
    LeafRunOk(g, l, m, r);
    assert LeafRun(l, m, r)[0].key == (l + m + r)[0].key;
    SpliceOk(g, par, i, j, LeafRun(l, m, r), 0);
    FlatSplice(par, i, j, LeafRun(l, m, r));
  }

  lemma NothingFlat()
    ensures FlatPtrs([]) == []
  {
  }

  lemma FlatSlice(par: seq<Ptr>, k: nat)
    requires k <= |par|
    ensures FlatPtrs(par[k..k]) == [] && (k < |par| ==> FlatPtrs(par[k..k+1]) == Flat(par[k].child))
  {
    hide FlatPtrs, Flat;
    NothingFlat();
    assert par[k..k] == [];
    if k < |par| {
      FlatOne(par[k]);
      assert par[k..k+1] == [par[k]];
    }
  }

  /** A leaf and its existing neighbours as one run. */
  lemma FlatRun(par: seq<Ptr>, ps: nat, i: nat, j: nat, left: seq<Item>, mid: seq<Item>, right: seq<Item>)
    requires ps < |par| && mid == Flat(par[ps].child)
    requires if ps > 0 then i == ps - 1 && left == Flat(par[ps-1].child) else i == ps && left == []
    requires if ps + 1 < |par| then j == ps + 2 && right == Flat(par[ps+1].child) else j == ps + 1 && right == []
    ensures FlatPtrs(par[i..j]) == left + mid + right
  {
    hide FlatPtrs, Flat;
    ThreeSlices(par, i, ps, j);
    FlatConcat(par[i..ps] + par[ps..ps+1], par[ps+1..j]);
    FlatConcat(par[i..ps], par[ps..ps+1]);
    FlatSlice(par, i);
    FlatSlice(par, ps);
    FlatSlice(par, ps + 1);
  }

  const U32_MAX := 0xFFFF_FFFF

  /** How many items the two pushes that try to empty a sparse leaf move: into the left
      neighbour and then, if the path did not move there, into the right one. */
  ghost predicate PushCounts(g: Geometry, left: seq<Item>, mid: seq<Item>, right: seq<Item>, hasLeft: bool,
                             hasRight: bool, slot: nat, push: nat, more: nat)
  {
    && push + more <= |mid|
    && (if hasLeft && Free(g, left) >= 1
        then LeftCount(g, mid, slot, 1, true, Free(g, left), U32_MAX, push)
        else push == 0)
    && (if (push == 0 || slot >= push) && push < |mid| && hasRight && Free(g, right) >= 1
        then RightCount(g, mid[push..], slot - push, 1, true, Free(g, right), 0, more)
        else more == 0)
  }

  lemma PartsFit(g: Geometry, left: seq<Item>, mid: seq<Item>, right: seq<Item>, push: nat, more: nat)
    requires push + more <= |mid| && Weight(left) <= g.leafCap && Weight(mid) <= g.leafCap && Weight(right) <= g.leafCap
    requires push > 0 ==> Weight(mid[..push]) <= Free(g, left)
    requires more > 0 ==> Weight(mid[push..][|mid| - push - more..]) <= Free(g, right)
    ensures Weight(left + mid[..push]) <= g.leafCap && Weight(mid[push..|mid| - more]) <= g.leafCap
    ensures Weight(mid[|mid| - more..] + right) <= g.leafCap
  {
    hide Weight;
    NoWeight();
    WeightConcat(left, mid[..push]);
    WeightConcat(mid[|mid| - more..], right);
    WeightSplit(mid, push);
    WeightSplit(mid[push..], |mid| - push - more);
    assert mid[push..][|mid| - push - more..] == mid[|mid| - more..];
    assert mid[push..][..|mid| - push - more] == mid[push..|mid| - more];
    if push == 0 { assert mid[..push] == []; }
    if more == 0 { assert mid[|mid| - more..] == []; }
  }

  method PushBoth(g: Geometry, left: seq<Item>, mid: seq<Item>, right: seq<Item>, hasLeft: bool, hasRight: bool,
                  slot: nat)
    returns (push: nat, more: nat)
    requires mid != [] && Weight(left) <= g.leafCap && Weight(mid) <= g.leafCap && Weight(right) <= g.leafCap
    ensures PushCounts(g, left, mid, right, hasLeft, hasRight, slot, push, more)
    ensures Weight(left + mid[..push]) <= g.leafCap && Weight(mid[push..|mid| - more]) <= g.leafCap
    ensures Weight(mid[|mid| - more..] + right) <= g.leafCap
  {
    hide Weight, LeftCount, RightCount;
    push, more := 0, 0;
    if hasLeft && Free(g, left) >= 1 {
      push := PushLeftItems(g, mid, slot, 1, true, Free(g, left), U32_MAX);
    }
    if (push == 0 || slot >= push) && push < |mid| && hasRight && Free(g, right) >= 1 {
      more := PushRightItems(g, mid[push..], slot - push, 1, true, Free(g, right), 0);
    }
    PartsFit(g, left, mid, right, push, more);
  }

  /** The first key read from a leaf: of one that was emptied to the left, the key that
      is still in its first header. */
  function KeyRead(mid: seq<Item>, push: nat): Key
    requires push <= |mid| && mid != []
  {
    if push < |mid| then mid[push].key else mid[0].key
  }

  lemma WrapLeafIs(items: seq<Item>)
    ensures WrapLeaf(items) == if items == [] then [] else [Ptr(items[0].key, Leaf(items))]
    ensures items != [] ==> HasLow(Leaf(items)) && Low(Leaf(items)) == items[0].key
  {
  }

  lemma KeyAt(u: seq<Ptr>, p: Ptr, v: seq<Ptr>, key: Key)
    ensures SetKey(u + [p] + v, |u|, key) == u + [Ptr(key, p.child)] + v
  {
  }

  /** The writes of push_leaf_left; the neighbour keeps its key. */
  method WriteLeft(par: seq<Ptr>, ps: nat, left: seq<Item>, mid: seq<Item>, push: nat) returns (par': seq<Ptr>)
    requires 0 < ps < |par| && left != [] && mid != [] && push <= |mid|
    requires par[ps-1] == Ptr(left[0].key, Leaf(left)) && par[ps] == Ptr(mid[0].key, Leaf(mid))
    ensures par' == par[..ps-1] + WrapLeaf(left + mid[..push])
                    + ([Ptr(KeyRead(mid, push), Leaf(mid[push..]))] + par[ps+1..])
  {
    hide SetChild, SetKey, WrapLeaf;
    var l := left + mid[..push];
    WrapLeafIs(l);
    ghost var a, b := par[..ps-1], par[ps+1..];
    if push == 0 {
      assert l == left && mid[0..] == mid;
      assert par == a + [par[ps-1]] + ([par[ps]] + b);
      return par;
    }
    WriteAt(a, par[ps-1], [par[ps]] + b, Leaf(l));
    assert par == a + [par[ps-1]] + ([par[ps]] + b);
    par' := SetChild(par, ps - 1, Leaf(l));
    ghost var al := a + [Ptr(left[0].key, Leaf(l))];
    Assoc(al, [par[ps]], b);
    WriteAt(al, par[ps], b, Leaf(mid[push..]));
    par' := SetChild(par', ps, Leaf(mid[push..]));
    KeyAt(al, Ptr(mid[0].key, Leaf(mid[push..])), b, KeyRead(mid, push));
    par' := SetKey(par', ps, KeyRead(mid, push));
    Assoc(al, [Ptr(KeyRead(mid, push), Leaf(mid[push..]))], b);
  }

  /** The writes of push_leaf_right from a leaf with items `mid`, and of apfs_del_leaf if
      that leaf is then empty. */
  method WriteRight(par: seq<Ptr>, ps: nat, key: Key, mid: seq<Item>, right: seq<Item>, hasRight: bool, more: nat)
    returns (par': seq<Ptr>)
    requires ps < |par| && par[ps] == Ptr(key, Leaf(mid)) && more <= |mid| && (mid != [] ==> mid[0].key == key)
    requires if hasRight then ps + 1 < |par| && right != [] && par[ps+1] == Ptr(right[0].key, Leaf(right))
             else right == [] && more == 0
    ensures var j := if hasRight then ps + 2 else ps + 1;
            par' == par[..ps] + (WrapLeaf(mid[..|mid| - more]) + (WrapLeaf(mid[|mid| - more..] + right) + par[j..]))
  {
    hide SetChild, SetKey, DelPtr, WrapLeaf;
    var m, r := mid[..|mid| - more], mid[|mid| - more..] + right;
    WrapLeafIs(m);
    WrapLeafIs(r);
    ghost var a, b := par[..ps], par[if hasRight then ps + 2 else ps + 1..];
    ghost var rb := WrapLeaf(r) + b;
    par' := par;
    if more > 0 {
      assert par == (a + [par[ps]]) + [par[ps+1]] + b;
      WriteAt(a + [par[ps]], par[ps+1], b, Leaf(r));
      par' := SetKey(SetChild(par', ps + 1, Leaf(r)), ps + 1, r[0].key);
      Assoc(a + [par[ps]], [Ptr(r[0].key, Leaf(r))], b);
      WriteAt(a, par[ps], rb, Leaf(m));
      par' := SetChild(par', ps, Leaf(m));
    } else {
      assert m == mid && r == right;
      assert par == a + [par[ps]] + rb;
    }
    assert par' == a + [Ptr(key, Leaf(m))] + rb;
    WriteAt(a, Ptr(key, Leaf(m)), rb, Leaf(m));
    if m == [] { par' := DelPtr(par', ps); }
    Assoc(a, WrapLeaf(m), rb);
  }

  lemma RunCount(l: seq<Item>, m: seq<Item>, r: seq<Item>, hasLeft: bool, hasRight: bool)
    requires (!hasLeft ==> l == []) && (!hasRight ==> r == [])
    ensures |LeafRun(l, m, r)| <= 1 + (if hasLeft then 1 else 0) + (if hasRight then 1 else 0)
  {
  }

  lemma SpliceSize(par: seq<Ptr>, i: nat, j: nat, news: seq<Ptr>)
    requires i <= j <= |par|
    ensures |Splice(par, i, j, news)| == |par| - (j - i) + |news|
  {
  }

  /** Closing the lowest level of a path around a parent with the same items. */
  lemma AtParent(p: Path, par: seq<Ptr>)
    requires p.Ok(0) && p.fs != [] && PtrsOk(p.g, par, 0) && 0 < |par| <= p.g.cap
    requires par[0].key == FirstKey(Last(p.fs)) && FlatPtrs(par) == FlatPtrs(p.Parent())
    ensures var up, t := Up(p.fs), Node(par);
            && FramesOk(p.g, up, 1) && Shape(p.g, t, 1) && HasLow(t) && HoleKey(up, Low(t))
            && Before(up) + Flat(t) + After(up) == PathFlat(p)
  {
    hide FramesOk, Shape, FlatPtrs, Before, After, PtrsOk;
    LastOk(p.g, p.fs, 0);
    ShapeNode(p.g, par, 0);
    ParentOk(p.g, p.fs, p.node, 0);
    FlatAround(p.Parent(), p.ParentSlot());
    NodeFlat(Node(par));
    var f := Last(p.fs);
    Trees.Regroup(Before(Up(p.fs)), FlatPtrs(f.left), Flat(p.node), FlatPtrs(f.right), After(Up(p.fs)));
  }

  lemma PushCountsSum(g: Geometry, left: seq<Item>, mid: seq<Item>, right: seq<Item>, hasLeft: bool, hasRight: bool,
                      slot: nat, push: nat, more: nat)
    requires PushCounts(g, left, mid, right, hasLeft, hasRight, slot, push, more)
    ensures push + more <= |mid| && (!hasLeft ==> push == 0) && (!hasRight ==> more == 0)
  {
    hide LeftCount, RightCount;
  }

  lemma SameRun(left: seq<Item>, mid: seq<Item>, right: seq<Item>, push: nat, more: nat)
    requires push + more <= |mid|
    ensures (left + mid[..push]) + mid[push..|mid| - more] + (mid[|mid| - more..] + right) == left + mid + right
  {
    var a, b, c := mid[..push], mid[push..|mid| - more], mid[|mid| - more..];
    assert mid == a + b + c;
    Assoc(left + a + b, c, right);
    Assoc(left, a, b);
    Assoc(left, a + b, c);
  }

  lemma FrontIs(al: seq<Ptr>, x: Ptr, b: seq<Ptr>)
    ensures var s := al + ([x] + b); s[..|al|] == al && s[|al|] == x && s[|al|+1..] == b
  {
  }

  lemma RestSame(par: seq<Ptr>, par': seq<Ptr>, ps: nat)
    requires ps < |par| == |par'| && par'[ps+1..] == par[ps+1..]
    ensures ps + 1 < |par| ==> par'[ps+2..] == par[ps+2..]
  {
    if ps + 1 < |par| { assert par'[ps+1..][1..] == par[ps+1..][1..]; }
  }

  /** All writes to the parent together. */
  method WriteLeaves(par: seq<Ptr>, ps: nat, left: seq<Item>, mid: seq<Item>, right: seq<Item>, push: nat, more: nat)
    returns (par': seq<Ptr>)
    requires ps < |par| && mid != [] && par[ps] == Ptr(mid[0].key, Leaf(mid)) && push + more <= |mid|
    requires if ps > 0 then left != [] && par[ps-1] == Ptr(left[0].key, Leaf(left)) else left == [] && push == 0
    requires if ps + 1 < |par| then right != [] && par[ps+1] == Ptr(right[0].key, Leaf(right))
             else right == [] && more == 0
    ensures par' == Splice(par, if ps > 0 then ps - 1 else ps, if ps + 1 < |par| then ps + 2 else ps + 1,
                           LeafRun(left + mid[..push], mid[push..|mid| - more], mid[|mid| - more..] + right))
  {
    hide WrapLeaf;
    ghost var a, b := par[..if ps > 0 then ps - 1 else ps], par[if ps + 1 < |par| then ps + 2 else ps + 1..];
    ghost var l, m, r := left + mid[..push], mid[push..|mid| - more], mid[|mid| - more..] + right;
    var rest, key := mid[push..], KeyRead(mid, push);
    WrapLeafIs(l);
    par' := par;
    if ps > 0 {
      par' := WriteLeft(par, ps, left, mid, push);
    } else {
      assert mid[0..] == mid && l == [] && a == [];
      assert par == [par[ps]] + par[ps+1..];
    }
    ghost var al := a + WrapLeaf(l);
    assert par' == al + ([Ptr(key, Leaf(rest))] + par[ps+1..]);
    FrontIs(al, Ptr(key, Leaf(rest)), par[ps+1..]);
    assert |par'| == |par| && (ps + 1 < |par| ==> par'[ps+1] == par[ps+1]);
    RestSame(par, par', ps);
    par' := WriteRight(par', ps, key, rest, right, ps + 1 < |par|, more);
    assert rest[..|rest| - more] == m && rest[|rest| - more..] == mid[|mid| - more..];
    FourParts(a, WrapLeaf(l), WrapLeaf(m), WrapLeaf(r) + b);
    FourParts(WrapLeaf(l), WrapLeaf(m), WrapLeaf(r), b);
    Assoc(a, LeafRun(l, m, r), b);
  }

  /** The leaves of a parent once a sparse leaf has been pushed into its neighbours: its
      own pair is there exactly if something is left in it. */
  function Merged(par: seq<Ptr>, ps: nat, push: nat, more: nat): seq<Ptr>
    requires ps < |par| && par[ps].child.Leaf? && push + more <= |par[ps].child.items|
    requires ps > 0 ==> par[ps-1].child.Leaf?
    requires ps + 1 < |par| ==> par[ps+1].child.Leaf?
  {
    var mid := par[ps].child.items;
    var left := if ps > 0 then par[ps-1].child.items else [];
    var right := if ps + 1 < |par| then par[ps+1].child.items else [];
    Splice(par, if ps > 0 then ps - 1 else ps, if ps + 1 < |par| then ps + 2 else ps + 1,
           LeafRun(left + mid[..push], mid[push..|mid| - more], mid[|mid| - more..] + right))
  }

  ghost predicate MergedBy(g: Geometry, par: seq<Ptr>, ps: nat, slot: nat, par': seq<Ptr>) {
    && ps < |par| && par[ps].child.Leaf? && (ps > 0 ==> par[ps-1].child.Leaf?)
    && (ps + 1 < |par| ==> par[ps+1].child.Leaf?)
    && exists push, more ::
         PushCounts(g, if ps > 0 then par[ps-1].child.items else [], par[ps].child.items,
                    if ps + 1 < |par| then par[ps+1].child.items else [], ps > 0, ps + 1 < |par|, slot, push, more)
         && par' == Merged(par, ps, push, more)
  }

  lemma IsMerged(g: Geometry, par: seq<Ptr>, ps: nat, slot: nat, left: seq<Item>, mid: seq<Item>, right: seq<Item>,
                 push: nat, more: nat, par': seq<Ptr>)
    requires ps < |par| && par[ps].child == Leaf(mid) && push + more <= |mid|
    requires if ps > 0 then par[ps-1].child == Leaf(left) else left == []
    requires if ps + 1 < |par| then par[ps+1].child == Leaf(right) else right == []
    requires PushCounts(g, left, mid, right, ps > 0, ps + 1 < |par|, slot, push, more)
    requires par' == Splice(par, if ps > 0 then ps - 1 else ps, if ps + 1 < |par| then ps + 2 else ps + 1,
                            LeafRun(left + mid[..push], mid[push..|mid| - more], mid[|mid| - more..] + right))
    ensures MergedBy(g, par, ps, slot, par')
  {
    hide PushCounts, LeafRun, Splice;
    assert par' == Merged(par, ps, push, more);
  }

  /** Emptying a sparse leaf into its neighbours, and dropping it if that worked. */
  method MergeLeaf(p: Path)
    requires p.Ok(0) && p.node.Leaf? && p.fs != [] && ParentSpare(p)
    modifies p
    ensures p.Ok(1) && PathFlat(p) == old(PathFlat(p))
    ensures p.node.Node? && MergedBy(p.g, old(p.Parent()), old(p.ParentSlot()), old(p.slot), p.node.ptrs)
  {
    hide FramesOk, Shape, FlatPtrs, Before, After, PtrsOk, Weight, LeafRun, PushCounts;
    hide FixKeys, Splice, MergedBy, Merged;
    var par, ps := p.Parent(), p.ParentSlot();
    ParentOk(p.g, p.fs, p.node, 0);
    var hasLeft, hasRight := ps > 0, ps + 1 < |par|;
    LeafChild(p.g, par, ps);
    if hasLeft { LeafChild(p.g, par, ps - 1); }
    if hasRight { LeafChild(p.g, par, ps + 1); }
    NoWeight();
    var mid := p.node.items;
    var left := if hasLeft then par[ps-1].child.items else [];
    var right := if hasRight then par[ps+1].child.items else [];
    var push, more := PushBoth(p.g, left, mid, right, hasLeft, hasRight, p.slot);
    PushCountsSum(p.g, left, mid, right, hasLeft, hasRight, p.slot, push, more);
    ghost var l, m, r := left + mid[..push], mid[push..|mid| - more], mid[|mid| - more..] + right;
    ghost var i, j := if hasLeft then ps - 1 else ps, if hasRight then ps + 2 else ps + 1;
    SameRun(left, mid, right, push, more);
    FlatRun(par, ps, i, j, left, mid, right);
    ReplaceLeafRun(p.g, par, i, j, l, m, r);
    RunCount(l, m, r, hasLeft, hasRight);
    SpliceSize(par, i, j, LeafRun(l, m, r));
    ghost var was := par;
    par := WriteLeaves(par, ps, left, mid, right, push, more);
    AtParent(p, par);
    p.fs, p.node := Up(p.fs), Node(par);
    if push + more == |mid| && ps == 0 {
      // the leaf was the first: the next one has its key
      FixSame(p.g, p.fs, par[0].key, 1);
      FixupLowKeys(p, par[0].key);
    }
    IsMerged(p.g, was, ps, p.slot, left, mid, right, push, more, par);
  }

  /** apfs_del_leaf: the pair of an emptied leaf leaves the parent, and the keys
      above follow if it was the first. */
  method DelLeaf(p: Path)
    requires p.Ok(0) && p.node.Leaf? && p.fs != [] && ParentSpare(p)
    modifies p
    ensures p.Ok(1) && PathFlat(p) == old(Before(p.fs) + After(p.fs))
  {
    hide FramesOk, Shape, FlatPtrs, Before, After, PtrsOk, FixKeys;
    var f := Last(p.fs);
    var par := f.left + f.right;
    ghost var up := Up(p.fs);
    LastOk(p.g, p.fs, 0);
    ConcatOk(p.g, f.left, f.right, 0);
    ShapeNode(p.g, par, 0);
    FlatConcat(f.left, f.right);
    NodeFlat(Node(par));
    if up != [] { LastOk(p.g, up, 1); }
    FixKeysOk(p.g, up, par[0].key, 1);
    FixKeysFlat(up, par[0].key);
    Joined(Before(up), FlatPtrs(f.left), FlatPtrs(f.right), After(up));
    p.fs, p.node := Up(p.fs), Node(par);
    if f.left == [] { FixupLowKeys(p, par[0].key); }
  }

  lemma Joined(b: seq<Item>, l: seq<Item>, r: seq<Item>, a: seq<Item>)
    ensures b + (l + r) + a == (b + l) + (r + a)
  {
  }

  /** apfs_del_items at the path's leaf: `nr` items from `slot` on go, and the
      leaf with them if it becomes empty or its neighbours can take the rest. */
  method DelItems(p: Path, slot: nat, nr: nat) returns (ghost h: nat)
    requires p.Ok(0) && p.node.Leaf? && ParentSpare(p) && nr >= 1 && slot + nr <= |p.node.items|
    modifies p
    ensures p.Ok(h) || (p.fs == [] && p.node == Leaf([]))
    ensures PathFlat(p) == old(Before(p.fs) + (p.node.items[..slot] + p.node.items[slot+nr..]) + After(p.fs))
    ensures var rest := old(p.node.items[..slot] + p.node.items[slot+nr..]);
            && h == (if old(p.fs) != [] && (rest == [] || Weight(rest) < p.g.leafCap / 3) then 1 else 0)
            && (h == 0 ==> p.node == Leaf(rest) && |p.fs| == |old(p.fs)| && p.slot == old(p.slot))
  {
    hide FramesOk, FlatPtrs, Before, After, PtrsOk, Weight, FixKeys;
    var rest := p.node.items[..slot] + p.node.items[slot+nr..];
    h := 0;
    if rest == [] {
      NothingKept(Before(p.fs), After(p.fs));
      if p.fs == [] {
        p.node := Leaf([]);
      } else {
        DelLeaf(p);
        h := 1;
      }
    } else {
      RestOk(p.g, p.node.items, slot, nr);
      FixPath(p, rest[0].key);
      FixKeysCount(p.fs, rest[0].key);
      if slot == 0 { FixupLowKeys(p, rest[0].key); }
      p.node := Leaf(rest);
      var used := Weight(rest);
      if used < p.g.leafCap / 3 && p.fs != [] {
        MergeLeaf(p);
        h := 1;
      }
    }
  }

  lemma NothingKept(b: seq<Item>, a: seq<Item>)
    ensures b + [] + a == b + a
  {
  }

  lemma RestOk(g: Geometry, items: seq<Item>, slot: nat, nr: nat)
    requires nr >= 1 && slot + nr <= |items| && Weight(items) <= g.leafCap
    ensures Weight(items[..slot] + items[slot+nr..]) <= g.leafCap
  {
    hide Weight;
    WeightConcat(items[..slot], items[slot+nr..]);
    WeightSplit(items, slot);
    WeightSplit(items[slot..], nr);
    assert items[slot..][nr..] == items[slot+nr..];
  }
}
