/** Making room in a leaf by pushing items into the neighbouring leaves. */
module Leaves {
  import opened Prelude
  import opened Trees
  import opened Paths
  import opened LowKeys

  function Free(g: Geometry, items: seq<Item>): int {
    g.leafCap - Weight(items)
  }

  // ---- The path at leaf level ----

  ghost predicate LeafOk(p: Path)
    reads p
  {
    p.Ok(0) && p.node.Leaf? && p.slot <= |p.node.items|
  }

  /** Contents before and from the position the path points at. */
  ghost function LeafLeft(p: Path): seq<Item>
    reads p
    requires p.node.Leaf? && p.slot <= |p.node.items|
  {
    Before(p.fs) + p.node.items[..p.slot]
  }

  ghost function LeafRight(p: Path): seq<Item>
    reads p
    requires p.node.Leaf? && p.slot <= |p.node.items|
  {
    p.node.items[p.slot..] + After(p.fs)
  }

  /** What moving items between leaves keeps: the position in key order, and an
      item at the path if there was one. */
  twostate predicate SamePosition(p: Path)
    reads p
    requires old(p.node.Leaf? && p.slot <= |p.node.items|)
    requires p.node.Leaf? && p.slot <= |p.node.items|
  {
    && LeafLeft(p) == old(LeafLeft(p)) && LeafRight(p) == old(LeafRight(p))
    && (old(p.slot < |p.node.items|) ==> p.slot < |p.node.items|)
  }

  lemma LeafChild(g: Geometry, par: seq<Ptr>, q: nat)
    requires PtrsOk(g, par, 0) && q < |par|
    ensures par[q].child.Leaf? && par[q].child.items != [] && Weight(par[q].child.items) <= g.leafCap
    ensures par[q].key == par[q].child.items[0].key && Flat(par[q].child) == par[q].child.items
  {
    assert PtrOk(g, par[q], 0);
  }

  lemma LeafPtrOk(g: Geometry, items: seq<Item>)
    requires items != [] && Weight(items) <= g.leafCap
    ensures PtrOk(g, Ptr(items[0].key, Leaf(items)), 0)
  {
  }

  /** Contents around position `s` of leaf `q`, by index into all the items. */
  lemma FlatPosition(ps: seq<Ptr>, q: nat, s: nat)
    requires q < |ps| && s <= |Flat(ps[q].child)|
    ensures var i := |FlatPtrs(ps[..q])| + s;
            && i <= |FlatPtrs(ps)|
            && FlatPtrs(ps[..q]) + Flat(ps[q].child)[..s] == FlatPtrs(ps)[..i]
            && Flat(ps[q].child)[s..] + FlatPtrs(ps[q+1..]) == FlatPtrs(ps)[i..]
  {
    hide FlatPtrs, Flat;
    FlatAround(ps, q);
  }

  lemma LeafFlat(t: Tree)
    requires t.Leaf?
    ensures Flat(t) == t.items
  {
  }

  /** Regrouping the same items leaves every position where it was. */
  lemma RegroupLeaves(g: Geometry, fs: seq<Frame>, node: Tree, s: nat, par: seq<Ptr>, q: nat, s': nat)
    requires fs != [] && FramesOk(g, fs, 0) && Shape(g, node, 0) && HasLow(node) && HoleKey(fs, Low(node))
    requires node.Leaf? && s <= |node.items|
    requires PtrsOk(g, par, 0) && q < |par| <= g.cap && par[0].key == FirstKey(Last(fs))
    requires par[q].child.Leaf? && s' <= |par[q].child.items|
    requires FlatPtrs(par) == FlatPtrs(Siblings(Last(fs), node))
    requires |FlatPtrs(Last(fs).left)| + s == |FlatPtrs(par[..q])| + s'
    ensures var fs', t := Up(fs) + [Open(par, q)], par[q].child;
            && FramesOk(g, fs', 0) && Shape(g, t, 0) && HasLow(t) && HoleKey(fs', Low(t))
            && Before(fs') + t.items[..s'] == Before(fs) + node.items[..s]
            && t.items[s'..] + After(fs') == node.items[s..] + After(fs)
  {
    hide FramesOk, Shape, FlatPtrs, Before, After, PtrsOk, Whole, HoleKey, Siblings, Flat;
    var par0, q0 := Siblings(Last(fs), node), |Last(fs).left|;
    LeafFlat(node);
    LeafFlat(par[q].child);
    ParentOk(g, fs, node, 0);
    Rebuild(g, fs, par, q, 0);
    FlatPosition(par0, q0, s);
    FlatPosition(par, q, s');
    var b, a, t := Before(Up(fs)), After(Up(fs)), par[q].child;
    Assoc(b, FlatPtrs(par0[..q0]), node.items[..s]);
    Assoc(b, FlatPtrs(par[..q]), t.items[..s']);
    Assoc(node.items[s..], FlatPtrs(par0[q0+1..]), a);
    Assoc(t.items[s'..], FlatPtrs(par[q+1..]), a);
  }

  method RegroupPath(p: Path, par: seq<Ptr>, q: nat, s: nat)
    requires LeafOk(p) && p.fs != []
    requires PtrsOk(p.g, par, 0) && q < |par| <= p.g.cap && par[0].key == FirstKey(Last(p.fs))
    requires par[q].child.Leaf? && s <= |par[q].child.items|
    requires p.slot < |p.node.items| ==> s < |par[q].child.items|
    requires FlatPtrs(par) == FlatPtrs(p.Parent())
    requires |FlatPtrs(Last(p.fs).left)| + p.slot == |FlatPtrs(par[..q])| + s
    modifies p
    ensures LeafOk(p) && SamePosition(p) && |p.fs| == |old(p.fs)|
    ensures p.node == par[q].child && p.slot == s && Count(Last(p.fs)) == |par| && p.Parent() == par
  {
    hide FramesOk, FlatPtrs, Before, After, PtrsOk;
    RegroupLeaves(p.g, p.fs, p.node, p.slot, par, q, s);
    p.SetParent(par, q, s);
    assert Siblings(Open(par, q), par[q].child) == par;
  }

  /** Leaves `i` to `j` of a parent replaced by leaves `a` and `b` with the same
      items. */
  lemma ReplaceLeaves(g: Geometry, par: seq<Ptr>, i: nat, j: nat, a: seq<Item>, b: seq<Item>)
    requires PtrsOk(g, par, 0) && i < j <= |par| && a + b == FlatPtrs(par[i..j]) && a != [] && b != []
    requires Weight(a) <= g.leafCap && Weight(b) <= g.leafCap
    ensures var par' := Splice(par, i, j, [Ptr(a[0].key, Leaf(a)), Ptr(b[0].key, Leaf(b))]);
            && PtrsOk(g, par', 0) && par'[0].key == par[0].key && FlatPtrs(par') == FlatPtrs(par)
            && |par'| == |par| - (j - i) + 2
            && |FlatPtrs(par'[..i])| == |FlatPtrs(par[..i])|
            && |FlatPtrs(par'[..i+1])| == |FlatPtrs(par[..i])| + |a|
  {
    hide FlatPtrs, PtrsOk, PtrOk, Weight;
    var x, y := Ptr(a[0].key, Leaf(a)), Ptr(b[0].key, Leaf(b));
    var par' := Splice(par, i, j, [x, y]);
    LeafPtrOk(g, a);
    LeafPtrOk(g, b);
    PairOk(g, x, y);
    SpliceOk(g, par, i, j, [x, y], 0);
    LeafChild(g, par, i);
    FirstItem(par, i, j);
    FlatTwo(x, y);
    FlatSplice(par, i, j, [x, y]);
    FlatOne(x);
    FlatConcat(par[..i], [x]);
    assert par'[..i] == par[..i] && par'[..i+1] == par[..i] + [x];
  }

  lemma PairOk(g: Geometry, a: Ptr, b: Ptr)
    requires PtrOk(g, a, 0) && PtrOk(g, b, 0)
    ensures PtrsOk(g, [a, b], 0)
  {
    hide PtrOk;
  }

  lemma FirstItem(par: seq<Ptr>, i: nat, j: nat)
    requires i < j <= |par| && Flat(par[i].child) != []
    ensures FlatPtrs(par[i..j]) != [] && FlatPtrs(par[i..j])[0] == Flat(par[i].child)[0]
  {
    assert par[i..j][0] == par[i];
  }

  lemma FlatTwo(a: Ptr, b: Ptr)
    ensures FlatPtrs([a, b]) == Flat(a.child) + Flat(b.child)
  {
    FlatOne(a);
    FlatOne(b);
    FlatConcat([a], [b]);
    assert [a] + [b] == [a, b];
  }

  lemma FlatSplice(ps: seq<Ptr>, i: nat, j: nat, news: seq<Ptr>)
    requires i <= j <= |ps| && FlatPtrs(news) == FlatPtrs(ps[i..j])
    ensures FlatPtrs(Splice(ps, i, j, news)) == FlatPtrs(ps)
  {
    hide FlatPtrs;
    FlatConcat(ps[..i] + news, ps[j..]);
    FlatConcat(ps[..i], news);
    FlatConcat(ps[..i] + ps[i..j], ps[j..]);
    FlatConcat(ps[..i], ps[i..j]);
    assert ps == ps[..i] + ps[i..j] + ps[j..];
  }

  // ---- How many items a push moves ----

  lemma WeightCons(s: seq<Item>, k: nat)
    requires k < |s|
    ensures Weight(s[k..]) == ItemWeight(s[k]) + Weight(s[k+1..])
  {
    assert s[k..][1..] == s[k+1..];
  }

  lemma WeightSnoc(s: seq<Item>, k: nat)
    requires k < |s|
    ensures Weight(s[..k+1]) == Weight(s[..k]) + ItemWeight(s[k])
  {
    WeightConcat(s[..k], [s[k]]);
    assert s[..k+1] == s[..k] + [s[k]];
    assert [s[k]][1..] == [];
  }

  /** Bytes the last k items of a leaf need elsewhere, with the data to be added if the
      path's slot is among them. */
  function RightSpace(left: seq<Item>, slot: nat, dataSize: nat, k: nat): nat
    requires k <= |left|
  {
    Weight(left[|left| - k..]) + if slot >= |left| - k then dataSize else 0
  }

  /** A push to the right stops at k items: at the lowest slot allowed, once the path's
      slot is passed or moving it too would leave the leaves less balanced, or when one
      more item does not fit. */
  predicate StopRight(g: Geometry, left: seq<Item>, slot: nat, dataSize: nat, empty: bool, free: int,
                      minSlot: nat, k: nat)
    requires k <= |left|
  {
    var i := |left| - 1 - k;
    || i < (if empty then 0 else if minSlot > 1 then minSlot else 1)
    || (!empty && k > 0 && (slot > i || (slot == i && Free(g, left) + RightSpace(left, slot, dataSize, k) * 2 > free)))
    || RightSpace(left, slot, dataSize, k + 1) > free
  }

  /** The first count at which the push stops. */
  ghost predicate RightCount(g: Geometry, left: seq<Item>, slot: nat, dataSize: nat, empty: bool, free: int,
                             minSlot: nat, push: nat)
  {
    && push <= |left| && StopRight(g, left, slot, dataSize, empty, free, minSlot, push)
    && forall k :: 0 <= k < push ==> !StopRight(g, left, slot, dataSize, empty, free, minSlot, k)
  }

  /** What such a push comes to.  The items pushed fit, with the new data if it goes with
      them; none before the path's slot goes, but for a single one; and one more item would
      not fit, or would pass the lowest slot allowed, or the path's slot. */
  lemma RightmostItems(g: Geometry, left: seq<Item>, slot: nat, dataSize: nat, empty: bool, free: int,
                       minSlot: nat, push: nat)
    requires RightCount(g, left, slot, dataSize, empty, free, minSlot, push)
    ensures push > 0 ==> Weight(left[|left| - push..]) + (if slot >= |left| - push then dataSize else 0) <= free
    ensures !empty && push > 1 ==> slot <= |left| - push
    ensures !empty && push > 0 ==> minSlot <= |left| - push && push < |left|
    ensures var i := |left| - 1 - push;
            || i < 0 || (!empty && (i == 0 || i < minSlot || (push > 0 && i <= slot)))
            || Weight(left[i..]) + (if slot >= i then dataSize else 0) > free
  {
    hide Weight;
    if push > 0 {
      assert !StopRight(g, left, slot, dataSize, empty, free, minSlot, push - 1);
    }
  }

  lemma NoRightSpace(left: seq<Item>, slot: nat, dataSize: nat)
    ensures RightSpace(left, slot, dataSize, 0) == if slot >= |left| then dataSize else 0
  {
    assert left[|left|..] == [];
  }

  /** Whether the push stops at k items, in terms of the slot and the space reached, and
      the space one item further. */
  lemma RightRound(g: Geometry, left: seq<Item>, slot: nat, dataSize: nat, empty: bool, free: int, minSlot: nat,
                   k: nat, space: nat)
    requires k <= |left| && space == RightSpace(left, slot, dataSize, k)
    ensures var i, nr := |left| - 1 - k, if empty then 0 else if minSlot > 1 then minSlot else 1;
            var stop := StopRight(g, left, slot, dataSize, empty, free, minSlot, k);
            if i < nr then stop
            else
              var next := space + ItemWeight(left[i]) + if slot == i then dataSize else 0;
              && RightSpace(left, slot, dataSize, k + 1) == next
              && (stop <==> next > free
                            || (!empty && k > 0 && (slot > i || (slot == i && Free(g, left) + space * 2 > free))))
    ensures Weight(left[|left| - k..]) <= space
  {
    hide Weight, ItemWeight;
    if k < |left| { WeightCons(left, |left| - 1 - k); }
  }

  /** The counting loop of __push_leaf_right: items from the end of `left` that
      fit into `free` bytes of its right neighbour, not below `minSlot`; unless
      the leaf is being emptied, one item stays. */
  method PushRightItems(g: Geometry, left: seq<Item>, slot: nat, dataSize: nat, empty: bool, free: int, minSlot: nat)
    returns (push: nat)
    requires left != []
    ensures push <= |left| && (!empty ==> push < |left|)
    ensures push > 0 ==> Weight(left[|left| - push..]) <= free
    ensures RightCount(g, left, slot, dataSize, empty, free, minSlot, push)
  {
    hide ItemWeight, Weight, StopRight, RightSpace;
    var nr := if empty then 0 else if minSlot > 1 then minSlot else 1;
    var space := if slot >= |left| then dataSize else 0;
    var i := |left| - 1;
    push := 0;
    NoRightSpace(left, slot, dataSize);
    while i >= nr
      invariant -1 <= i < |left| && push == |left| - 1 - i
      invariant !empty ==> push < |left|
      invariant space == RightSpace(left, slot, dataSize, push)
      invariant push > 0 ==> space <= free
      invariant forall k :: 0 <= k < push ==> !StopRight(g, left, slot, dataSize, empty, free, minSlot, k)
      decreases i
    {
      RightRound(g, left, slot, dataSize, empty, free, minSlot, push, space);
      if !empty && push > 0 {
        if slot > i { return; }
        if slot == i && Free(g, left) + space * 2 > free { return; }
      }
      if slot == i { space := space + dataSize; }
      if ItemWeight(left[i]) + space > free { return; }
      push := push + 1;
      space := space + ItemWeight(left[i]);
      i := i - 1;
    }
    RightRound(g, left, slot, dataSize, empty, free, minSlot, push, space);
  }

  function LeftSpace(right: seq<Item>, slot: nat, dataSize: nat, k: nat): nat
    requires k <= |right|
  {
    Weight(right[..k]) + if slot < k then dataSize else 0
  }

  predicate StopLeft(g: Geometry, right: seq<Item>, slot: nat, dataSize: nat, empty: bool, free: int,
                     maxSlot: nat, k: nat)
    requires k <= |right|
  {
    || k >= Min(if empty then |right| else |right| - 1, maxSlot)
    || (!empty && k > 0 && (slot < k || (slot == k && Free(g, right) + LeftSpace(right, slot, dataSize, k) * 2 > free)))
    || LeftSpace(right, slot, dataSize, k + 1) > free
  }

  ghost predicate LeftCount(g: Geometry, right: seq<Item>, slot: nat, dataSize: nat, empty: bool, free: int,
                            maxSlot: nat, push: nat)
  {
    && push <= |right| && StopLeft(g, right, slot, dataSize, empty, free, maxSlot, push)
    && forall k :: 0 <= k < push ==> !StopLeft(g, right, slot, dataSize, empty, free, maxSlot, k)
  }

  /** The same for a push to the left. */
  lemma LeftmostItems(g: Geometry, right: seq<Item>, slot: nat, dataSize: nat, empty: bool, free: int,
                      maxSlot: nat, push: nat)
    requires LeftCount(g, right, slot, dataSize, empty, free, maxSlot, push)
    ensures push > 0 ==> Weight(right[..push]) + (if slot < push then dataSize else 0) <= free
    ensures !empty && push > 1 ==> slot >= push - 1
    ensures push > 0 ==> push <= maxSlot && (empty || push < |right|)
    ensures || push >= |right| || push >= maxSlot || (!empty && (push + 1 >= |right| || (push > 0 && slot <= push)))
            || Weight(right[..push + 1]) + (if slot <= push then dataSize else 0) > free
  {
    hide Weight;
    if push > 0 {
      assert !StopLeft(g, right, slot, dataSize, empty, free, maxSlot, push - 1);
    }
  }

  lemma NoLeftSpace(right: seq<Item>, slot: nat, dataSize: nat)
    ensures LeftSpace(right, slot, dataSize, 0) == 0
  {
    assert right[..0] == [];
  }

  lemma LeftRound(g: Geometry, right: seq<Item>, slot: nat, dataSize: nat, empty: bool, free: int, maxSlot: nat,
                  k: nat, space: nat)
    requires k <= |right| && space == LeftSpace(right, slot, dataSize, k)
    ensures var nr := Min(if empty then |right| else |right| - 1, maxSlot);
            var stop := StopLeft(g, right, slot, dataSize, empty, free, maxSlot, k);
            if k >= nr then stop
            else
              var next := space + ItemWeight(right[k]) + if slot == k then dataSize else 0;
              && LeftSpace(right, slot, dataSize, k + 1) == next
              && (stop <==> next > free
                            || (!empty && k > 0 && (slot < k || (slot == k && Free(g, right) + space * 2 > free))))
    ensures Weight(right[..k]) <= space
  {
    hide Weight, ItemWeight;
    if k < |right| { WeightSnoc(right, k); }
  }

  /** The counting loop of __push_leaf_left: items from the front of `right`
      that fit into `free` bytes of its left neighbour, below `maxSlot`. */
  method PushLeftItems(g: Geometry, right: seq<Item>, slot: nat, dataSize: nat, empty: bool, free: int, maxSlot: nat)
    returns (push: nat)
    requires right != []
    ensures push <= |right| && (!empty ==> push < |right|)
    ensures push > 0 ==> Weight(right[..push]) <= free
    ensures LeftCount(g, right, slot, dataSize, empty, free, maxSlot, push)
  {
    hide ItemWeight, Weight, StopLeft, LeftSpace;
    var nr := if empty then Min(|right|, maxSlot) else Min(|right| - 1, maxSlot);
    var space := 0;
    push := 0;
    var i := 0;
    NoLeftSpace(right, slot, dataSize);
    while i < nr
      invariant 0 <= push == i && (i <= nr || i == 0)
      invariant space == LeftSpace(right, slot, dataSize, push)
      invariant push > 0 ==> space <= free
      invariant forall k :: 0 <= k < push ==> !StopLeft(g, right, slot, dataSize, empty, free, maxSlot, k)
    {
      LeftRound(g, right, slot, dataSize, empty, free, maxSlot, push, space);
      if !empty && push > 0 {
        if slot < i { return; }
        if slot == i && Free(g, right) + space * 2 > free { return; }
      }
      if slot == i { space := space + dataSize; }
      if ItemWeight(right[i]) + space > free { return; }
      push := push + 1;
      space := space + ItemWeight(right[i]);
      i := i + 1;
    }
    LeftRound(g, right, slot, dataSize, empty, free, maxSlot, push, space);
  }

  // ---- Pushing along a path, when the leaf is not to be emptied ----

  function TwoLeaves(a: seq<Item>, b: seq<Item>): seq<Ptr>
    requires a != [] && b != []
  {
    [Ptr(a[0].key, Leaf(a)), Ptr(b[0].key, Leaf(b))]
  }

  lemma MoveItems(a: seq<Item>, k: nat, b: seq<Item>)
    requires k <= |a|
    ensures a[..k] + (a[k..] + b) == a + b
  {
  }

  lemma FlatPair(par: seq<Ptr>, q: nat)
    requires q + 1 < |par|
    ensures FlatPtrs(par[q..q+2]) == Flat(par[q].child) + Flat(par[q+1].child)
    ensures |FlatPtrs(par[..q+1])| == |FlatPtrs(par[..q])| + |Flat(par[q].child)|
  {
    hide FlatPtrs;
    FlatTwo(par[q], par[q+1]);
    assert par[q..q+2] == [par[q], par[q+1]];
    FlatOne(par[q]);
    FlatConcat(par[..q], [par[q]]);
    assert par[..q+1] == par[..q] + [par[q]];
  }

  /** Nothing can go to the right: no neighbour, too little room in it, or not even one
      item may move. */
  ghost predicate RightBlocked(p: Path, minData: nat, data: int, minSlot: nat)
    reads p
    requires p.node.Leaf?
  {
    || p.fs == [] || Last(p.fs).right == [] || !Last(p.fs).right[0].child.Leaf?
    || var free := Free(p.g, Last(p.fs).right[0].child.items);
       || free < data
       || (p.slot < |p.node.items| && StopRight(p.g, p.node.items, p.slot, minData, false, free, minSlot, 0))
  }

  /** The parent's pairs once the last `k` items of the leaf are in its right neighbour. */
  function RightPushed(par: seq<Ptr>, ps: nat, k: nat): seq<Ptr>
    requires ps + 1 < |par| && par[ps].child.Leaf? && par[ps+1].child.Leaf? && k < |par[ps].child.items|
    requires par[ps+1].child.items != []
  {
    var left, right := par[ps].child.items, par[ps+1].child.items;
    Splice(par, ps, ps + 2, TwoLeaves(left[..|left| - k], left[|left| - k..] + right))
  }

  lemma IsRightPushed(par: seq<Ptr>, ps: nat, push: nat, par': seq<Ptr>)
    requires ps + 1 < |par| && par[ps].child.Leaf? && par[ps+1].child.Leaf? && push < |par[ps].child.items|
    requires par[ps+1].child.items != []
    requires var left, right := par[ps].child.items, par[ps+1].child.items; var k := |left| - push;
             par' == Splice(par, ps, ps + 2, TwoLeaves(left[..k], left[k..] + right))
    ensures par' == RightPushed(par, ps, push)
  {
  }

  ghost predicate MovedRight(par: seq<Ptr>, ps: nat, push: nat, par': seq<Ptr>) {
    && ps + 1 < |par| && par[ps].child.Leaf? && par[ps+1].child.Leaf? && push < |par[ps].child.items|
    && par[ps+1].child.items != [] && par' == RightPushed(par, ps, push)
  }

  /** The writes of __push_leaf_right. */
  method MoveRight(p: Path, push: nat)
    requires LeafOk(p) && p.slot < |p.node.items| && 0 < push < |p.node.items|
    requires p.fs != [] && Last(p.fs).right != [] && Last(p.fs).right[0].child.Leaf?
    requires Weight(p.node.items[|p.node.items| - push..]) <= Free(p.g, Last(p.fs).right[0].child.items)
    modifies p
    ensures LeafOk(p) && SamePosition(p) && |p.fs| == |old(p.fs)| && p.fs != []
    ensures Count(Last(p.fs)) == Count(Last(old(p.fs)))
    ensures MovedRight(old(p.Parent()), old(p.ParentSlot()), push, p.Parent())
  {
    hide FramesOk, FlatPtrs, Before, After, PtrsOk, Weight, Shape, RightPushed;
    var par, ps := p.Parent(), p.ParentSlot();
    ParentOk(p.g, p.fs, p.node, 0);
    LeafChild(p.g, par, ps);
    LeafChild(p.g, par, ps + 1);
    var left, right := p.node.items, par[ps+1].child.items;
    FlatPair(par, ps);
    var k := |left| - push;
    WeightSplit(left, k);
    WeightConcat(left[k..], right);
    MoveItems(left, k, right);
    ReplaceLeaves(p.g, par, ps, ps + 2, left[..k], left[k..] + right);
    ghost var par0 := par;
    WrittenTwo(par, ps, Leaf(left[..k]), Leaf(left[k..] + right));
    par := SetChild(SetChild(par, ps, Leaf(left[..k])), ps + 1, Leaf(left[k..] + right));
    par := SetKey(par, ps + 1, left[k].key);
    IsRightPushed(par0, ps, push, par);
    if p.slot >= k {
      RegroupPath(p, par, ps + 1, p.slot - k);
    } else {
      RegroupPath(p, par, ps, p.slot);
    }
  }

  /** Nothing moves exactly if the push stops at once. */
  lemma RightStops(g: Geometry, left: seq<Item>, slot: nat, dataSize: nat, free: int, minSlot: nat, push: nat)
    requires RightCount(g, left, slot, dataSize, false, free, minSlot, push)
    ensures push == 0 <==> StopRight(g, left, slot, dataSize, false, free, minSlot, 0)
  {
    hide StopRight;
  }

  /** What a push to the right leaves in the parent: everything as it was if the path
      just moved on, and otherwise the first count at which the push stops. */
  ghost predicate PushedRight(par: seq<Ptr>, ps: nat, left: seq<Item>, slot: nat, g: Geometry, minData: nat,
                              minSlot: nat, par': seq<Ptr>)
  {
    if slot == |left| then par' == par
    else
      && ps + 1 < |par| && par[ps].child.Leaf? && par[ps].child.items == left
      && par[ps+1].child.Leaf? && par[ps+1].child.items != []
      && exists push :: 0 < push < |left| && par' == RightPushed(par, ps, push)
                        && RightCount(g, left, slot, minData, false, Free(g, par[ps+1].child.items), minSlot, push)
  }

  /** push_leaf_right with `empty` unset. */
  method PushLeafRight(p: Path, minData: nat, data: int, minSlot: nat) returns (ret: int)
    requires LeafOk(p)
    modifies p
    ensures LeafOk(p) && SamePosition(p) && |p.fs| == |old(p.fs)|
    ensures p.fs != [] ==> Count(Last(p.fs)) == Count(Last(old(p.fs)))
    ensures ret == if old(RightBlocked(p, minData, data, minSlot)) then 1 else 0
    ensures ret == 1 ==> p.node == old(p.node) && p.slot == old(p.slot) && p.fs == old(p.fs)
    ensures ret == 0 ==>
              && p.fs != []
              && PushedRight(old(p.Parent()), old(p.ParentSlot()), old(p.node).items, old(p.slot), p.g, minData,
                             minSlot, p.Parent())
  {
    hide FramesOk, FlatPtrs, Before, After, PtrsOk, Weight, Shape, StopRight, RightPushed, RightCount;
    if p.fs == [] || Last(p.fs).right == [] { return 1; }
    var par, ps := p.Parent(), p.ParentSlot();
    ParentOk(p.g, p.fs, p.node, 0);
    LeafChild(p.g, par, ps);
    LeafChild(p.g, par, ps + 1);
    var left, right := p.node.items, par[ps+1].child.items;
    var free := Free(p.g, right);
    if free < data { return 1; }
    FlatPair(par, ps);
    if p.slot == |left| {
      // the new key belongs at the front of the right neighbour, which has room
      RegroupPath(p, par, ps + 1, 0);
      return 0;
    }
    var push := PushRightItems(p.g, left, p.slot, minData, false, free, minSlot);
    RightStops(p.g, left, p.slot, minData, free, minSlot, push);
    if push == 0 { return 1; }
    MoveRight(p, push);
    return 0;
  }

  ghost predicate LeftBlocked(p: Path, minData: nat, data: int, maxSlot: nat)
    reads p
    requires p.node.Leaf?
  {
    || p.fs == [] || Last(p.fs).left == [] || !Last(p.fs).left[|Last(p.fs).left|-1].child.Leaf?
    || var free := Free(p.g, Last(p.fs).left[|Last(p.fs).left|-1].child.items);
       free < data || StopLeft(p.g, p.node.items, p.slot, minData, false, free, maxSlot, 0)
  }

  /** The parent's pairs once the first `k` items of the leaf are in its left neighbour. */
  function LeftPushed(par: seq<Ptr>, ps: nat, k: nat): seq<Ptr>
    requires 0 < ps < |par| && par[ps].child.Leaf? && par[ps-1].child.Leaf? && k < |par[ps].child.items|
    requires par[ps-1].child.items != []
  {
    var left, right := par[ps-1].child.items, par[ps].child.items;
    Splice(par, ps - 1, ps + 1, TwoLeaves(left + right[..k], right[k..]))
  }

  lemma LeftStops(g: Geometry, right: seq<Item>, slot: nat, dataSize: nat, free: int, maxSlot: nat, push: nat)
    requires LeftCount(g, right, slot, dataSize, false, free, maxSlot, push)
    ensures push == 0 <==> StopLeft(g, right, slot, dataSize, false, free, maxSlot, 0)
  {
    hide StopLeft;
  }

  lemma IsLeftPushed(par: seq<Ptr>, ps: nat, push: nat, par': seq<Ptr>)
    requires 0 < ps < |par| && par[ps].child.Leaf? && par[ps-1].child.Leaf? && push < |par[ps].child.items|
    requires par[ps-1].child.items != []
    requires var left, right := par[ps-1].child.items, par[ps].child.items;
             par' == Splice(par, ps - 1, ps + 1, TwoLeaves(left + right[..push], right[push..]))
    ensures par' == LeftPushed(par, ps, push)
  {
  }

  ghost predicate PushedLeft(par: seq<Ptr>, ps: nat, right: seq<Item>, slot: nat, g: Geometry, minData: nat,
                             maxSlot: nat, par': seq<Ptr>)
  {
    && 0 < ps < |par| && par[ps].child.Leaf? && par[ps].child.items == right
    && par[ps-1].child.Leaf? && par[ps-1].child.items != []
    && exists push :: 0 < push < |right| && par' == LeftPushed(par, ps, push)
                      && LeftCount(g, right, slot, minData, false, Free(g, par[ps-1].child.items), maxSlot, push)
  }

  /** push_leaf_left with `empty` unset. */
  method PushLeafLeft(p: Path, minData: nat, data: int, maxSlot: nat) returns (ret: int)
    requires LeafOk(p)
    modifies p
    ensures LeafOk(p) && SamePosition(p) && |p.fs| == |old(p.fs)|
    ensures p.fs != [] ==> Count(Last(p.fs)) == Count(Last(old(p.fs)))
    ensures ret == if old(LeftBlocked(p, minData, data, maxSlot)) then 1 else 0
    ensures ret == 1 ==> p.node == old(p.node) && p.slot == old(p.slot) && p.fs == old(p.fs)
    ensures ret == 0 ==>
              && p.fs != []
              && PushedLeft(old(p.Parent()), old(p.ParentSlot()), old(p.node).items, old(p.slot), p.g, minData,
                            maxSlot, p.Parent())
  {
    hide FramesOk, FlatPtrs, Before, After, PtrsOk, Weight, Shape, StopLeft, LeftPushed, LeftCount;
    if p.fs == [] || Last(p.fs).left == [] { return 1; }
    var par, ps := p.Parent(), p.ParentSlot();
    ParentOk(p.g, p.fs, p.node, 0);
    LeafChild(p.g, par, ps);
    LeafChild(p.g, par, ps - 1);
    var left, right := par[ps-1].child.items, p.node.items;
    var free := Free(p.g, left);
    if free < data { return 1; }
    var push := PushLeftItems(p.g, right, p.slot, minData, false, free, maxSlot);
    LeftStops(p.g, right, p.slot, minData, free, maxSlot, push);
    if push == 0 { return 1; }
    FlatPair(par, ps - 1);
    WeightSplit(right, push);
    WeightConcat(left, right[..push]);
    assert (left + right[..push]) + right[push..] == left + right;
    ReplaceLeaves(p.g, par, ps - 1, ps + 1, left + right[..push], right[push..]);
    ghost var par0 := par;
    WrittenTwo(par, ps - 1, Leaf(left + right[..push]), Leaf(right[push..]));
    par := SetChild(SetChild(par, ps - 1, Leaf(left + right[..push])), ps, Leaf(right[push..]));
    // fixup_low_keys: the slot is not 0, so it stops there
    FixAtSlot(p.fs, right[push].key, p.node);
    par := SetKey(par, ps, right[push].key);
    IsLeftPushed(par0, ps, push, par);
    if p.slot < push {
      RegroupPath(p, par, ps - 1, p.slot + |left|);
    } else {
      RegroupPath(p, par, ps, p.slot - push);
    }
    return 0;
  }
}
