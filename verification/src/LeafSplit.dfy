/** split_leaf: room for a new or a growing item at the path's position, by
    pushing into neighbours, by one split, or by two. */
module LeafSplit {
  import opened Prelude
  import opened Keys
  import opened Trees
  import opened Paths
  import opened LowKeys
  import opened Nodes
  import opened Leaves

  // ---- Where to split ----

  datatype Plan = NewLeafAfter | NewLeafBefore | SplitAt(mid: nat) | SplitTwiceAt(mid: nat) | PushFirst

  /** The decision split_leaf takes each time round. */
  function PlanSplit(g: Geometry, items: seq<Item>, slot: nat, d: nat, extend: bool, tried: bool): Plan
    requires slot <= |items|
  {
    var n := |items|;
    var mid := (n + 1) / 2;
    if mid <= slot then
      if n == 1 || Weight(items[mid..]) + d > g.leafCap then
        if slot >= n then NewLeafAfter
        else if Weight(items[slot..]) + d > g.leafCap then
          if d > 0 && !tried then PushFirst else SplitTwiceAt(slot)
        else SplitAt(slot)
      else SplitAt(mid)
    else if Weight(items[..mid]) + d > g.leafCap then
      if !extend && d > 0 && slot == 0 then NewLeafBefore
      else if slot == 0 then SplitAt(1)
      else if Weight(items[slot..]) + d > g.leafCap then
        if d > 0 && !tried then PushFirst else SplitTwiceAt(slot)
      else SplitAt(slot)
    else SplitAt(mid)
  }

  /** A leaf that cannot take the item, although the item would fit alone. */
  ghost predicate Crowded(g: Geometry, items: seq<Item>, slot: nat, d: nat, extend: bool) {
    && slot <= |items| && Weight(items) <= g.leafCap < Weight(items) + d
    && (if extend then slot < |items| && ItemWeight(items[slot]) + d <= g.leafCap else d <= g.leafCap)
  }

  /** Every plan is feasible: splits leave no leaf empty, a single split leaves
      room where the path ends up, and a second split is only ever needed when
      the path is inside the leaf and pushing has been tried. */
  lemma PlanOk(g: Geometry, items: seq<Item>, slot: nat, d: nat, extend: bool, tried: bool)
    requires Crowded(g, items, slot, d, extend)
    ensures match PlanSplit(g, items, slot, d, extend, tried)
            case NewLeafAfter => slot == |items| && !extend
            case NewLeafBefore => slot == 0 && !extend
            case SplitAt(mid) =>
              0 < mid < |items| && Weight(if mid <= slot then items[mid..] else items[..mid]) + d <= g.leafCap
            case SplitTwiceAt(mid) =>
              tried && mid == slot && 0 < slot < |items| && Weight(items[mid..]) + d > g.leafCap
            case PushFirst => !tried && 0 < slot < |items|
  {
    hide ItemWeight;
    var n := |items|;
    var mid := (n + 1) / 2;
    if n == 1 {
      assert items[..1] == items;
      assert items[1..] == [];
      assert Weight(items) == ItemWeight(items[0]) + Weight(items[1..]);
    } else if slot == 0 {
      assert items[..1][0] == items[0] && items[..1][1..] == [];
      assert Weight(items[..1]) == ItemWeight(items[0]) + Weight(items[..1][1..]);
    }
  }

  // ---- The splits ----

  /** copy_for_split: the items from `mid` on move to a new leaf right after. */
  method CopyForSplit(p: Path, mid: nat)
    requires LeafOk(p) && p.fs != [] && Count(Last(p.fs)) < p.g.cap && 0 < mid < |p.node.items|
    modifies p
    ensures LeafOk(p) && SamePosition(p) && |p.fs| == |old(p.fs)|
    ensures Count(Last(p.fs)) == Count(Last(old(p.fs))) + 1
    ensures p.node == old(Leaf(if mid <= p.slot then p.node.items[mid..] else p.node.items[..mid]))
    ensures p.slot == old(if mid <= p.slot then p.slot - mid else p.slot)
  {
    hide FramesOk, FlatPtrs, Before, After, PtrsOk, Weight, Shape;
    var items := p.node.items;
    var par, ps := p.Parent(), p.ParentSlot();
    ParentOk(p.g, p.fs, p.node, 0);
    LeafChild(p.g, par, ps);
    FlatOne(par[ps]);
    assert par[ps..ps+1] == [par[ps]] && items[..mid] + items[mid..] == items;
    WeightSplit(items, mid);
    ReplaceLeaves(p.g, par, ps, ps + 1, items[..mid], items[mid..]);
    WrittenSplit(par, ps, Leaf(items[..mid]), Leaf(items[mid..]));
    par := SetChild(par, ps, Leaf(items[..mid]));
    par := InsertPtr(par, ps + 1, items[mid].key, Leaf(items[mid..]));
    if mid <= p.slot {
      RegroupPath(p, par, ps + 1, p.slot - mid);
    } else {
      RegroupPath(p, par, ps, p.slot);
    }
  }

  /** The path stands on a new, still empty leaf, whose pair in the parent
      already carries the key to be inserted. */
  ghost predicate OnEmptyLeaf(p: Path, key: Key)
    reads p
  {
    FramesOk(p.g, p.fs, 0) && p.node == Leaf([]) && p.slot == 0 && p.fs != [] && HoleKey(p.fs, key)
  }

  /** A new empty leaf after the path's leaf, the position being its end. */
  method AddLeafAfter(p: Path, key: Key)
    requires LeafOk(p) && p.fs != [] && Count(Last(p.fs)) < p.g.cap && p.slot == |p.node.items|
    modifies p
    ensures OnEmptyLeaf(p, key) && |p.fs| == |old(p.fs)|
    ensures LeafLeft(p) == old(LeafLeft(p)) && LeafRight(p) == old(LeafRight(p))
    ensures Count(Last(p.fs)) == Count(Last(old(p.fs))) + 1
  {
    hide FramesOk, FlatPtrs, Before, After, PtrsOk, Weight, Shape;
    var f := Last(p.fs);
    var f' := Frame(f.left + [Ptr(f.key, p.node)], key, f.right);
    LastOk(p.g, p.fs, 0);
    ConcatOk(p.g, f.left, [Ptr(f.key, p.node)], 0);
    OneOk(p.g, Ptr(f.key, p.node), 0);
    Reframe(p.g, p.fs, f', 0);
    FlatConcat(f.left, [Ptr(f.key, p.node)]);
    FlatOne(Ptr(f.key, p.node));
    LeafFlat(p.node);
    Assoc(Before(Up(p.fs)), FlatPtrs(f.left), p.node.items);
    assert p.node.items[..p.slot] == p.node.items && p.node.items[p.slot..] == [];
    p.fs, p.node, p.slot := Up(p.fs) + [f'], Leaf([]), 0;
  }

  /** A new empty leaf before the path's leaf, the position being its start; the
      keys above follow if the new leaf is the first of its parent. */
  method AddLeafBefore(p: Path, key: Key)
    requires LeafOk(p) && p.fs != [] && Count(Last(p.fs)) < p.g.cap && p.slot == 0
    modifies p
    ensures OnEmptyLeaf(p, key) && |p.fs| == |old(p.fs)|
    ensures LeafLeft(p) == old(LeafLeft(p)) && LeafRight(p) == old(LeafRight(p))
    ensures Count(Last(p.fs)) == Count(Last(old(p.fs))) + 1
  {
    hide FramesOk, FlatPtrs, Before, After, PtrsOk, Weight, Shape;
    var f := Last(p.fs);
    var f' := Frame(f.left, key, [Ptr(f.key, p.node)] + f.right);
    ghost var fs' := Up(p.fs) + [f'];
    assert Up(fs') == Up(p.fs) && Last(fs') == f';
    LastOk(p.g, p.fs, 0);
    ConcatOk(p.g, [Ptr(f.key, p.node)], f.right, 0);
    OneOk(p.g, Ptr(f.key, p.node), 0);
    BeforeAfterLast(fs');
    FlatConcat([Ptr(f.key, p.node)], f.right);
    FlatOne(Ptr(f.key, p.node));
    LeafFlat(p.node);
    Assoc(p.node.items, FlatPtrs(f.right), After(Up(p.fs)));
    assert p.node.items[p.slot..] == p.node.items && p.node.items[..p.slot] == [];
    FixKeysOk(p.g, fs', key, 0);
    FixKeysFlat(fs', key);
    FixKeysCount(fs', key);
    SameWithoutFix(p.g, fs', key);
    p.fs, p.node := Up(p.fs) + [f'], Leaf([]);
    if |f'.left| == 0 { FixupLowKeys(p, key); }
  }

  lemma BeforeAfterLast(fs: seq<Frame>)
    requires fs != []
    ensures Before(fs) == Before(Up(fs)) + FlatPtrs(Last(fs).left)
    ensures After(fs) == FlatPtrs(Last(fs).right) + After(Up(fs))
  {
  }

  // ---- push_for_double_split ----

  /** Try to get the position to an end of its leaf by pushing what lies after it
      to the right and what lies before it to the left. */
  method PushForDoubleSplit(p: Path, d: nat)
    requires LeafOk(p)
    modifies p
    ensures LeafOk(p) && SamePosition(p) && |p.fs| == |old(p.fs)|
    ensures p.fs != [] ==> Count(Last(p.fs)) == Count(Last(old(p.fs)))
  {
    hide FramesOk, FlatPtrs, Before, After, PtrsOk, Weight, Shape;
    var need: int := d;
    if p.slot < |p.node.items| { need := need - Free(p.g, p.node.items); }
    var ret := PushLeafRight(p, 1, need, p.slot);
    if p.slot == 0 || p.slot == |p.node.items| { return; }
    if Free(p.g, p.node.items) >= d { return; }
    need := d - Free(p.g, p.node.items);
    ret := PushLeafLeft(p, 1, need, p.slot);
  }

  // ---- split_leaf ----

  /** What a caller of split_leaf gets: the same position, on a leaf with room
      for `d` more bytes.  The leaf may be a new, empty one. */
  ghost predicate HasRoom(p: Path, key: Key, d: nat)
    reads p
  {
    && p.node.Leaf? && p.slot <= |p.node.items|
    && Weight(p.node.items) + d <= p.g.leafCap
    && (OnEmptyLeaf(p, key) || LeafOk(p))
  }

  /** The item at the path still fits together with `d` more bytes. */
  ghost predicate ItemFits(p: Path, d: nat, extend: bool)
    reads p
    requires p.node.Leaf? && p.slot <= |p.node.items|
  {
    if extend then p.slot < |p.node.items| && ItemWeight(p.node.items[p.slot]) + d <= p.g.leafCap
    else d <= p.g.leafCap
  }

  /** The first pushes of split_leaf, right and then left. */
  method PushFirstTime(p: Path, d: nat)
    requires LeafOk(p) && Free(p.g, p.node.items) < d
    modifies p
    ensures LeafOk(p) && SamePosition(p) && |p.fs| == |old(p.fs)|
    ensures p.fs != [] ==> Count(Last(p.fs)) == Count(Last(old(p.fs)))
  {
    hide FramesOk, FlatPtrs, Before, After, PtrsOk, Weight, Shape;
    var free := Free(p.g, p.node.items);
    var need := if p.slot < |p.node.items| then d - free else d;
    var wret := PushLeafRight(p, need, need, 0);
    if wret != 0 {
      need := if p.slot > 0 then d - free else d;
      wret := PushLeafLeft(p, need, need, |p.node.items|);
    }
  }

  /** The item at the path is the first item of what follows it. */
  lemma AtPath(p: Path)
    requires p.node.Leaf? && p.slot <= |p.node.items|
    ensures p.slot < |p.node.items| ==> LeafRight(p) != [] && LeafRight(p)[0] == p.node.items[p.slot]
  {
  }

  /** split_leaf, for an item of `d` bytes (header included) to be inserted at the
      path, or for the item at the path to grow by `d`.  It fails only for an
      item that no leaf could hold; otherwise at most two leaves are added and
      the third is never asked for. */
  method SplitLeaf(p: Path, key: Key, d: nat, extend: bool) returns (ret: int)
    requires LeafOk(p) && Free(p.g, p.node.items) < d
    requires if extend then p.slot < |p.node.items| else d <= p.g.leafCap
    requires p.g.cap >= 3 && (p.fs != [] ==> Count(Last(p.fs)) <= p.g.cap - 2)
    modifies p
    ensures ret == if old(ItemFits(p, d, extend)) then 0 else EOVERFLOW
    ensures ret == EOVERFLOW ==> p.fs == old(p.fs) && p.node == old(p.node) && p.slot == old(p.slot)
    ensures ret == 0 ==> HasRoom(p, key, d)
    ensures ret == 0 ==> LeafLeft(p) == old(LeafLeft(p)) && LeafRight(p) == old(LeafRight(p))
    ensures ret == 0 && extend ==> LeafOk(p) && p.slot < |p.node.items|
    ensures ret == 0 ==>
              p.fs != [] && Count(Last(p.fs)) <= (if old(p.fs) == [] then 1 else Count(Last(old(p.fs)))) + 2
  {
    hide FramesOk, FlatPtrs, Before, After, PtrsOk, Weight, Shape, PlanSplit;
    if extend && d + ItemWeight(p.node.items[p.slot]) > p.g.leafCap { return EOVERFLOW; }
    if p.fs != [] {
      AtPath(p);
      PushFirstTime(p, d);
      AtPath(p);
      if Free(p.g, p.node.items) >= d { return 0; }
    } else {
      InsertNewRoot(p, 0);
      NoFrames();
    }
    ret := SplitCrowded(p, key, d, extend);
  }

  /** The loop at `again`. */
  method SplitCrowded(p: Path, key: Key, d: nat, extend: bool) returns (ret: int)
    requires LeafOk(p) && Free(p.g, p.node.items) < d && ItemFits(p, d, extend)
    requires p.fs != [] && Count(Last(p.fs)) <= p.g.cap - 2
    modifies p
    ensures ret == 0 && HasRoom(p, key, d)
    ensures LeafLeft(p) == old(LeafLeft(p)) && LeafRight(p) == old(LeafRight(p))
    ensures extend ==> LeafOk(p) && p.slot < |p.node.items|
    ensures p.fs != [] && Count(Last(p.fs)) <= Count(Last(old(p.fs))) + 2
  {
    hide FramesOk, FlatPtrs, Before, After, PtrsOk, Weight, Shape, PlanSplit, LeafLeft, LeafRight;
    var tried, doubles := false, 0;
    while true
      invariant LeafOk(p) && SamePosition(p) && ItemFits(p, d, extend) && Free(p.g, p.node.items) < d
      invariant p.fs != [] && Count(Last(p.fs)) == Count(Last(old(p.fs))) + doubles
      invariant 0 <= doubles <= 1 && (doubles == 1 ==> p.slot == 0)
      decreases 1 - doubles, !tried
    {
      AtPath(p);
      IsCrowded(p, d, extend);
      PlanOk(p.g, p.node.items, p.slot, d, extend, tried);
      match PlanSplit(p.g, p.node.items, p.slot, d, extend, tried) {
        case NewLeafAfter =>
          AddLeafAfter(p, key);
          NoWeight();
          return 0;
        case NewLeafBefore =>
          AddLeafBefore(p, key);
          NoWeight();
          return 0;
        case SplitAt(mid) =>
          CopyForSplit(p, mid);
          return 0;
        case SplitTwiceAt(mid) =>
          assert doubles == 0;
          CopyForSplit(p, mid);
          AtPath(p);
          doubles := 1;
        case PushFirst =>
          PushForDoubleSplit(p, d);
          AtPath(p);
          tried := true;
          if Free(p.g, p.node.items) >= d { return 0; }
      }
    }
  }

  lemma IsCrowded(p: Path, d: nat, extend: bool)
    requires LeafOk(p) && ItemFits(p, d, extend) && Free(p.g, p.node.items) < d
    ensures Crowded(p.g, p.node.items, p.slot, d, extend)
  {
  }

  lemma NoWeight()
    ensures Weight([]) == 0
  {
  }
}
