/** Walking the leaves in key order (apfs_next_leaf). */
module Walk {
  import opened Keys
  import opened Trees
  import opened Search

  // ---- Decomposing a path from the root end ----

  lemma {:induction false} WholeFront(f: Frame, fs: seq<Frame>, t: Tree)
    ensures Whole([f] + fs, t) == Node(Siblings(f, Whole(fs, t)))
    decreases |fs|
  {
    if fs == [] {
      assert [f] + fs == [f] && Up([f]) == [];
    } else {
      var t' := Node(Siblings(Last(fs), t));
      assert Up([f] + fs) == [f] + Up(fs) && Last([f] + fs) == Last(fs);
      WholeFront(f, Up(fs), t');
    }
  }

  lemma {:induction false} BeforeFront(f: Frame, fs: seq<Frame>)
    ensures Before([f] + fs) == FlatPtrs(f.left) + Before(fs)
    decreases |fs|
  {
    if fs == [] {
      assert [f] + fs == [f] && Up([f]) == [] && Before([]) == [];
      assert Before([f]) == Before(Up([f])) + FlatPtrs(Last([f]).left);
    } else {
      assert Up([f] + fs) == [f] + Up(fs) && Last([f] + fs) == Last(fs);
      BeforeFront(f, Up(fs));
      assert FlatPtrs(f.left) + Before(Up(fs)) + FlatPtrs(Last(fs).left)
          == FlatPtrs(f.left) + (Before(Up(fs)) + FlatPtrs(Last(fs).left));
    }
  }

  lemma FlatPrefixLonger(ps: seq<Ptr>, j: nat, k: nat)
    requires j < k <= |ps|
    ensures |FlatPtrs(ps[..k])| >= |FlatPtrs(ps[..j])| + |Flat(ps[j].child)|
  {
    FlatAround(ps[..k], j);
    assert ps[..k][..j] == ps[..j];
  }

  /** Only one leaf holds the item at a given position. */
  lemma {:induction false} SamePath(fs: seq<Frame>, t: Tree, fs': seq<Frame>, t': Tree, pos: nat)
    requires Whole(fs, t) == Whole(fs', t') && t.Leaf? && t'.Leaf?
    requires |Before(fs)| <= pos < |Before(fs)| + |Flat(t)|
    requires |Before(fs')| <= pos < |Before(fs')| + |Flat(t')|
    ensures fs == fs' && t == t'
    decreases |fs|
  {
    hide Before, FlatPtrs, Flat;
    if fs != [] { WholeFront(fs[0], fs[1..], t); assert fs == [fs[0]] + fs[1..]; }
    if fs' != [] { WholeFront(fs'[0], fs'[1..], t'); assert fs' == [fs'[0]] + fs'[1..]; }
    if fs != [] && fs' != [] {
      var f, f' := fs[0], fs'[0];
      var sub, sub' := Whole(fs[1..], t), Whole(fs'[1..], t');
      var ps := Siblings(f, sub);
      assert ps == Siblings(f', sub');
      BeforeFront(f, fs[1..]);
      BeforeFront(f', fs'[1..]);
      FlatWhole(fs[1..], t);
      FlatWhole(fs'[1..], t');
      var j, k := |f.left|, |f'.left|;
      assert ps[..j] == f.left && ps[j] == Ptr(f.key, sub) && ps[j+1..] == f.right;
      assert ps[..k] == f'.left && ps[k] == Ptr(f'.key, sub') && ps[k+1..] == f'.right;
      if j < k { FlatPrefixLonger(ps, j, k); assert false; }
      if k < j { FlatPrefixLonger(ps, k, j); assert false; }
      assert f == f' && sub == sub';
      SamePath(fs[1..], t, fs'[1..], t', pos - |FlatPtrs(f.left)|);
    }
  }

  // ---- apfs_next_leaf ----

  /** A path to a node of height `h` with known surroundings. */
  ghost predicate At(g: Geometry, root: Tree, fs: seq<Frame>, node: Tree, h: nat) {
    Whole(fs, node) == root && FramesOk(g, fs, h) && Shape(g, node, h) && HasLow(node) && HoleKey(fs, Low(node))
  }

  lemma ClimbOne(g: Geometry, root: Tree, fs: seq<Frame>, node: Tree, h: nat)
    requires At(g, root, fs, node, h) && fs != []
    ensures var up := Node(Siblings(Last(fs), node));
            && At(g, root, Up(fs), up, h + 1)
            && Before(Up(fs)) + Flat(up) == Before(fs) + Flat(node) + FlatPtrs(Last(fs).right)
  {
    var f := Last(fs);
    var ps := Siblings(f, node);
    SiblingsOk(g, f, node, h);
    ShapeNode(g, ps, h);
    FlatAround(ps, |f.left|);
    assert ps[..|f.left|] == f.left && ps[|f.left|+1..] == f.right;
    var b, l, m, r := Before(Up(fs)), FlatPtrs(f.left), Flat(node), FlatPtrs(f.right);
    assert b + (l + m + r) == (b + l) + m + r;
  }

  /** The path one pair to the right in the parent. */
  function StepFrame(f: Frame, node: Tree): Frame
    requires f.right != []
  {
    Frame(f.left + [Ptr(f.key, node)], f.right[0].key, f.right[1..])
  }

  lemma StepRight(g: Geometry, root: Tree, fs: seq<Frame>, node: Tree, h: nat)
    requires At(g, root, fs, node, h) && fs != [] && Last(fs).right != []
    ensures var f := Last(fs); var fs' := Up(fs) + [StepFrame(f, node)];
            At(g, root, fs', f.right[0].child, h) && Before(fs') == Before(fs) + Flat(node)
  {
    var f := Last(fs);
    var f' := StepFrame(f, node);
    assert PtrOk(g, f.right[0], h) && PtrOk(g, Ptr(f.key, node), h);
    hide Shape, Before, After, Whole, FramesOk, FlatPtrs;
    LastFrameOk(g, fs, h);
    Reframe(g, fs, f', h);
    assert Siblings(f', f.right[0].child) == Siblings(f, node);
    StepBefore(fs, node);
    WholeLast(fs, node);
  }

  lemma WholeLast(fs: seq<Frame>, t: Tree)
    requires fs != []
    ensures Whole(fs, t) == Whole(Up(fs), Node(Siblings(Last(fs), t)))
  {
  }

  lemma LastFrameOk(g: Geometry, fs: seq<Frame>, h: nat)
    requires fs != [] && FramesOk(g, fs, h)
    ensures PtrsOk(g, Last(fs).left, h) && PtrsOk(g, Last(fs).right, h) && Count(Last(fs)) <= g.cap
  {
  }

  lemma StepBefore(fs: seq<Frame>, node: Tree)
    requires fs != [] && Last(fs).right != []
    ensures Before(Up(fs)) + FlatPtrs(StepFrame(Last(fs), node).left) == Before(fs) + Flat(node)
  {
    hide FlatPtrs, Flat;
    var f := Last(fs);
    FlatConcat(f.left, [Ptr(f.key, node)]);
    FlatOne(Ptr(f.key, node));
    assert Before(Up(fs)) + FlatPtrs(f.left) + Flat(node) == Before(Up(fs)) + (FlatPtrs(f.left) + Flat(node));
  }

  lemma AtParts(g: Geometry, root: Tree, fs: seq<Frame>, node: Tree, h: nat)
    requires At(g, root, fs, node, h)
    ensures node.Leaf? <==> h == 0
    ensures Flat(root) == Before(fs) + Flat(node) + After(fs)
    ensures Flat(node) != []
    ensures h == 0 ==> PathIn(g, root, fs, node)
    ensures fs != [] && Last(fs).right != [] ==> FlatPtrs(Last(fs).right) != []
    ensures node.Node? ==>
              var fs' := fs + [Open(node.ptrs, 0)];
              At(g, root, fs', node.ptrs[0].child, h - 1) && Before(fs') == Before(fs)
  {
    FlatWhole(fs, node);
    LowIsFirst(g, node, h);
    if fs != [] && Last(fs).right != [] {
      FirstOfRest(g, Last(fs).right, h, 0);
      assert Last(fs).right[0..] == Last(fs).right;
    }
    if node.Node? {
      Descend(g, fs, node, h, 0);
      assert node.ptrs[..0] == [];
    }
  }

  /** Where an item of a leaf is among all items. */
  lemma ItemPlace(g: Geometry, root: Tree, fs: seq<Frame>, leaf: Tree, k: nat)
    requires TreeOk(g, root) && PathIn(g, root, fs, leaf) && k < |leaf.items|
    ensures leaf.Leaf? && Whole(fs, leaf) == root && Flat(leaf) == leaf.items && Sorted(g.order, Flat(root))
    ensures |Before(fs)| + k < |Flat(root)| && Flat(root)[|Before(fs)| + k] == leaf.items[k]
    ensures Cmp(g.order, leaf.items[k].key, leaf.items[k].key) == 0
  {
    hide Before, After, Shape, FramesOk, Sorted, Cmp;
    FlatWhole(fs, leaf);
    CmpOrder(g.order, leaf.items[k].key, leaf.items[k].key, leaf.items[k].key);
  }

  lemma FoundAt(o: Order, s: seq<Item>, key: Key, pos: nat)
    requires Separates(o, s, key, pos, true)
    ensures pos < |s| && Cmp(o, s[pos].key, key) == 0
  {
  }

  /** Searching for an item's own key comes back to the same path. */
  lemma SearchReturns(g: Geometry, root: Tree, fs: seq<Frame>, leaf: Tree, k: nat, fs': seq<Frame>, leaf': Tree,
                      slot: nat)
    requires TreeOk(g, root) && PathIn(g, root, fs, leaf) && k < |leaf.items|
    requires PathIn(g, root, fs', leaf') && slot < |leaf'.items|
    requires Separates(g.order, Flat(root), leaf.items[k].key, |Before(fs')| + slot, true)
    ensures fs' == fs && leaf' == leaf && slot == k
  {
    hide TreeOk, PathIn, Separates, Flat, Before, Whole, Cmp, Sorted;
    ItemPlace(g, root, fs, leaf, k);
    ItemPlace(g, root, fs', leaf', slot);
    FoundAt(g.order, Flat(root), leaf.items[k].key, |Before(fs')| + slot);
    OneIndex(g.order, Flat(root), |Before(fs)| + k, |Before(fs')| + slot, leaf.items[k].key);
    SamePath(fs, leaf, fs', leaf', |Before(fs)| + k);
  }

  lemma PathAt(g: Geometry, root: Tree, fs: seq<Frame>, leaf: Tree)
    requires PathIn(g, root, fs, leaf) && leaf.items != []
    ensures At(g, root, fs, leaf, 0)
    ensures Flat(root) == Before(fs) + leaf.items + After(fs)
  {
    FlatWhole(fs, leaf);
  }

  lemma AfterNext(root: Tree, b: seq<Item>, m: seq<Item>, a: seq<Item>, m': seq<Item>, a': seq<Item>)
    requires b + m + a == (b + m) + m' + a'
    ensures a == m' + a'
  {
    assert b + m + a == (b + m) + a && (b + m) + m' + a' == (b + m) + (m' + a');
    assert ((b + m) + a)[|b + m|..] == a;
    assert ((b + m) + (m' + a'))[|b + m|..] == m' + a';
  }

  /** apfs_next_leaf on a tree that does not change: 0 and the first slot of the
      next leaf in key order, or 1 when there is none. */
  method NextLeaf(g: Geometry, root: Tree, fs0: seq<Frame>, leaf0: Tree)
    returns (ret: int, fs: seq<Frame>, leaf: Tree, slot: nat)
    requires TreeOk(g, root) && PathIn(g, root, fs0, leaf0)
    ensures ret == if After(fs0) == [] then 1 else 0
    ensures ret == 0 ==>
              && PathIn(g, root, fs, leaf) && slot == 0 && leaf.items != []
              && Before(fs) == Before(fs0) + leaf0.items
              && After(fs0) == leaf.items + After(fs)
  {
    hide At, TreeOk, PathIn, Separates, Before, After, Whole, FlatPtrs;
    fs, leaf, slot := fs0, leaf0, 0;
    PathLeaf(g, root, fs0, leaf0);
    if |leaf0.items| == 0 {
      assert fs0 == [] && After(fs0) == [] by { NoneAfter(g, root, fs0, leaf0); }
      return 1, fs, leaf, slot;
    }
    var n := |leaf0.items|;
    ItemPresent(g, root, fs0, leaf0, n - 1);
    ret, fs, leaf, slot := SearchSlot(g, root, leaf0.items[n-1].key);
    SearchReturns(g, root, fs0, leaf0, n - 1, fs, leaf, slot);
    PathAt(g, root, fs0, leaf0);
    // climb to the lowest ancestor with a pair right of the path
    var node := leaf;
    ghost var h: nat := 0;
    assert Before(fs) + Flat(node) == Before(fs0) + leaf0.items;
    while true
      invariant At(g, root, fs, node, h)
      invariant Before(fs) + Flat(node) == Before(fs0) + leaf0.items
      decreases |fs|
    {
      AtParts(g, root, fs, node, h);
      if fs == [] {
        assert After(fs0) == [] by { AtTop(g, root, fs0, leaf0, node, h); }
        return 1, fs0, leaf0, slot;
      }
      if Last(fs).right != [] { break; }
      ClimbOne(g, root, fs, node, h);
      EmptyRight(fs);
      fs, node, h := Up(fs), Node(Siblings(Last(fs), node)), h + 1;
    }
    StepRight(g, root, fs, node, h);
    fs, node := Up(fs) + [StepFrame(Last(fs), node)], Last(fs).right[0].child;
    // and down its first slots
    while node.Node?
      invariant At(g, root, fs, node, h)
      invariant Before(fs) == Before(fs0) + leaf0.items
      decreases h
    {
      AtParts(g, root, fs, node, h);
      LevelAboveLeaf(g, root, fs, node, h);
      fs, node, h := fs + [Open(node.ptrs, 0)], node.ptrs[0].child, h - 1;
    }
    AtParts(g, root, fs, node, h);
    AfterNext(root, Before(fs0), leaf0.items, After(fs0), node.items, After(fs));
    return 0, fs, node, 0;
  }

  lemma NoneAfter(g: Geometry, root: Tree, fs: seq<Frame>, leaf: Tree)
    requires PathIn(g, root, fs, leaf) && leaf.items == []
    ensures fs == [] && After(fs) == []
  {
  }

  lemma ItemPresent(g: Geometry, root: Tree, fs: seq<Frame>, leaf: Tree, k: nat)
    requires PathIn(g, root, fs, leaf) && k < |leaf.items|
    ensures HasKey(g.order, Flat(root), leaf.items[k].key)
  {
    FlatWhole(fs, leaf);
    assert Flat(root)[|Before(fs)| + k] == leaf.items[k];
    CmpOrder(g.order, leaf.items[k].key, leaf.items[k].key, leaf.items[k].key);
  }

  lemma EmptyRight(fs: seq<Frame>)
    requires fs != [] && Last(fs).right == []
    ensures FlatPtrs(Last(fs).right) == []
  {
  }

  lemma AtTop(g: Geometry, root: Tree, fs0: seq<Frame>, leaf0: Tree, node: Tree, h: nat)
    requires PathIn(g, root, fs0, leaf0) && leaf0.items != []
    requires Before([]) + Flat(node) == Before(fs0) + leaf0.items && At(g, root, [], node, h)
    ensures After(fs0) == []
  {
    PathAt(g, root, fs0, leaf0);
    assert Before([]) + Flat(node) == Flat(node);
  }

  lemma LevelAboveLeaf(g: Geometry, root: Tree, fs: seq<Frame>, node: Tree, h: nat)
    requires At(g, root, fs, node, h) && node.Node?
    ensures h > 0 && node.ptrs != []
  {
  }

  /** The walk every directory listing makes: from the first leaf, leaf after
      leaf, until apfs_next_leaf returns 1. */
  method WalkAll(g: Geometry, root: Tree) returns (out: seq<Item>)
    requires TreeOk(g, root)
    ensures out == Flat(root) && Sorted(g.order, out)
  {
    hide At, PathIn, Before, After, Whole, FlatPtrs;
    var fs: seq<Frame>, node := [], root;
    ghost var h := Height(root);
    if root.Leaf? { return root.items; }
    StartAt(g, root);
    while node.Node?
      invariant At(g, root, fs, node, h)
      invariant Before(fs) == []
      decreases h
    {
      AtParts(g, root, fs, node, h);
      LevelAboveLeaf(g, root, fs, node, h);
      fs, node, h := fs + [Open(node.ptrs, 0)], node.ptrs[0].child, h - 1;
    }
    AtParts(g, root, fs, node, h);
    out := node.items;
    var ret := 0;
    while ret == 0
      invariant PathIn(g, root, fs, node) && node.Leaf?
      invariant out == Before(fs) + node.items && Flat(root) == out + After(fs)
      invariant ret != 0 ==> After(fs) == []
      decreases |After(fs)| + (if ret == 0 then 1 else 0)
    {
      var fs', leaf, slot;
      ret, fs', leaf, slot := NextLeaf(g, root, fs, node);
      if ret == 0 {
        PathLeaf(g, root, fs', leaf);
        assert out + (leaf.items + After(fs')) == (out + leaf.items) + After(fs');
        fs, node, out := fs', leaf, out + leaf.items;
      }
    }
  }

  lemma PathLeaf(g: Geometry, root: Tree, fs: seq<Frame>, leaf: Tree)
    requires PathIn(g, root, fs, leaf)
    ensures leaf.Leaf?
  {
  }

  lemma StartAt(g: Geometry, root: Tree)
    requires TreeOk(g, root) && root.Node?
    ensures At(g, root, [], root, Height(root)) && Before([]) == []
  {
    ShapeParts(g, root, Height(root));
  }
}
