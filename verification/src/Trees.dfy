/** The B-tree as a value, and a path into it.

    A leaf holds items, an interior node holds (key, child) pairs.  The key of a
    pair is always the lowest key below it.  A path keeps, for each interior
    level, the pairs to the left and to the right of the slot it descends
    through (`path->nodes[level]`, `path->slots[level]`), root first.
 */
module Trees {
  import opened Keys

  // sizeof(struct apfs_item)
  const ITEM_HEADER := 24

  datatype Item = Item(key: Key, data: seq<nat>)

  datatype Tree = Leaf(items: seq<Item>) | Node(ptrs: seq<Ptr>)
  datatype Ptr = Ptr(key: Key, child: Tree)

  /** `cap` is APFS_NODEPTRS_PER_BLOCK, `leafCap` is APFS_LEAF_DATA_SIZE. */
  datatype Geometry = Geometry(order: Order, cap: nat, leafCap: nat)

  function ItemWeight(it: Item): nat { |it.data| + ITEM_HEADER }

  /** Bytes a run of items occupies in a leaf. */
  function Weight(s: seq<Item>): nat {
    if s == [] then 0 else ItemWeight(s[0]) + Weight(s[1..])
  }

  lemma {:induction false} WeightConcat(a: seq<Item>, b: seq<Item>)
    ensures Weight(a + b) == Weight(a) + Weight(b)
  {
    if a == [] {
      assert a + b == b;
    } else {
      WeightConcat(a[1..], b);
      assert (a + b)[1..] == a[1..] + b;
    }
  }

  lemma WeightSplit(s: seq<Item>, k: nat)
    requires k <= |s|
    ensures Weight(s) == Weight(s[..k]) + Weight(s[k..])
  {
    hide Weight;
    WeightConcat(s[..k], s[k..]);
    assert s[..k] + s[k..] == s;
  }

  lemma Assoc<T>(x: seq<T>, y: seq<T>, z: seq<T>)
    ensures x + (y + z) == (x + y) + z
  {
  }

  // ---- Contents ----

  /** All items below a node, in order. */
  function Flat(t: Tree): seq<Item>
    decreases t
  {
    match t
    case Leaf(items) => items
    case Node(ptrs) => FlatPtrs(ptrs)
  }

  function FlatPtrs(ps: seq<Ptr>): seq<Item>
    decreases ps
  {
    if ps == [] then []
    else
      assert ps[0].child < ps[0];
      Flat(ps[0].child) + FlatPtrs(ps[1..])
  }

  lemma {:induction false} FlatConcat(a: seq<Ptr>, b: seq<Ptr>)
    ensures FlatPtrs(a + b) == FlatPtrs(a) + FlatPtrs(b)
  {
    if a == [] {
      assert a + b == b;
    } else {
      FlatConcat(a[1..], b);
      assert (a + b)[0] == a[0] && (a + b)[1..] == a[1..] + b;
      assert FlatPtrs(a + b) == Flat(a[0].child) + FlatPtrs(a[1..] + b);
      Assoc(Flat(a[0].child), FlatPtrs(a[1..]), FlatPtrs(b));
    }
  }

  lemma FlatOne(p: Ptr)
    ensures FlatPtrs([p]) == Flat(p.child)
  {
    assert [p][1..] == [];
  }

  lemma FlatSplit(ps: seq<Ptr>, k: nat)
    requires k <= |ps|
    ensures FlatPtrs(ps) == FlatPtrs(ps[..k]) + FlatPtrs(ps[k..])
  {
    hide FlatPtrs;
    FlatConcat(ps[..k], ps[k..]);
    assert ps[..k] + ps[k..] == ps;
  }

  /** The contents around one child. */
  lemma FlatAround(ps: seq<Ptr>, k: nat)
    requires k < |ps|
    ensures FlatPtrs(ps) == FlatPtrs(ps[..k]) + Flat(ps[k].child) + FlatPtrs(ps[k+1..])
  {
    FlatSplit(ps, k);
    assert ps[k..][1..] == ps[k+1..];
  }

  ghost predicate Sorted(o: Order, s: seq<Item>) {
    forall i, j :: 0 <= i < j < |s| ==> Cmp(o, s[i].key, s[j].key) < 0
  }

  // ---- Shape ----

  predicate HasLow(t: Tree) {
    match t
    case Leaf(items) => items != []
    case Node(ptrs) => ptrs != []
  }

  /** The first key stored in a node. */
  function Low(t: Tree): Key
    requires HasLow(t)
  {
    match t
    case Leaf(items) => items[0].key
    case Node(ptrs) => ptrs[0].key
  }

  /** Every leaf at the same depth, no node empty or over-full, and every
      parent key equal to its child's first key. */
  ghost predicate Shape(g: Geometry, t: Tree, h: nat)
    decreases t
  {
    match t
    case Leaf(items) => h == 0 && items != [] && Weight(items) <= g.leafCap
    case Node(ptrs) =>
      && h > 0 && 0 < |ptrs| <= g.cap
      && forall i :: 0 <= i < |ptrs| ==>
           Shape(g, ptrs[i].child, h - 1) && HasLow(ptrs[i].child) && ptrs[i].key == Low(ptrs[i].child)
  }

  ghost predicate PtrOk(g: Geometry, p: Ptr, h: nat) {
    Shape(g, p.child, h) && HasLow(p.child) && p.key == Low(p.child)
  }

  ghost predicate PtrsOk(g: Geometry, ps: seq<Ptr>, h: nat) {
    forall i :: 0 <= i < |ps| ==> PtrOk(g, ps[i], h)
  }

  lemma ShapeNode(g: Geometry, ps: seq<Ptr>, h: nat)
    ensures Shape(g, Node(ps), h + 1) <==> 0 < |ps| <= g.cap && PtrsOk(g, ps, h)
  {
    if 0 < |ps| <= g.cap && PtrsOk(g, ps, h) {
      forall i | 0 <= i < |ps|
        ensures Shape(g, ps[i].child, h) && HasLow(ps[i].child) && ps[i].key == Low(ps[i].child)
      { assert PtrOk(g, ps[i], h); }
    }
  }

  function Height(t: Tree): nat {
    match t
    case Leaf(_) => 0
    case Node(ptrs) => if ptrs == [] then 0 else 1 + Height(ptrs[0].child)
  }

  lemma {:induction false} ShapeHeight(g: Geometry, t: Tree, h: nat)
    requires Shape(g, t, h)
    ensures h == Height(t)
  {
    if t.Node? { ShapeHeight(g, t.ptrs[0].child, h - 1); }
  }

  /** A whole tree: well shaped (an empty tree is one empty leaf) and with
      strictly increasing keys. */
  ghost predicate TreeOk(g: Geometry, t: Tree) {
    (t == Leaf([]) || Shape(g, t, Height(t))) && Sorted(g.order, Flat(t))
  }

  /** The first key of a well-shaped node is the key of its first item. */
  lemma {:induction false} LowIsFirst(g: Geometry, t: Tree, h: nat)
    requires Shape(g, t, h)
    ensures HasLow(t) && Flat(t) != [] && Flat(t)[0].key == Low(t)
  {
    if t.Node? {
      LowIsFirst(g, t.ptrs[0].child, h - 1);
    }
  }

  // ---- Paths ----

  /** One interior node on a path: the pairs left of the slot, the key at the
      slot, the pairs right of it. */
  datatype Frame = Frame(left: seq<Ptr>, key: Key, right: seq<Ptr>)

  function Count(f: Frame): nat { |f.left| + 1 + |f.right| }

  function FirstKey(f: Frame): Key {
    if f.left == [] then f.key else f.left[0].key
  }

  /** The node a frame stands for once its child is put back. */
  function Siblings(f: Frame, t: Tree): seq<Ptr> {
    f.left + [Ptr(f.key, t)] + f.right
  }

  function Open(ps: seq<Ptr>, k: nat): Frame
    requires k < |ps|
  {
    Frame(ps[..k], ps[k].key, ps[k+1..])
  }

  function Last(fs: seq<Frame>): Frame
    requires fs != []
  {
    fs[|fs|-1]
  }

  function Up(fs: seq<Frame>): seq<Frame>
    requires fs != []
  {
    fs[..|fs|-1]
  }

  /** The tree a path lies in. */
  function Whole(fs: seq<Frame>, t: Tree): Tree
    decreases |fs|
  {
    if fs == [] then t else Whole(Up(fs), Node(Siblings(Last(fs), t)))
  }

  /** Everything in key order before, and after, the node a path has reached. */
  function Before(fs: seq<Frame>): seq<Item>
    decreases |fs|
  {
    if fs == [] then [] else Before(Up(fs)) + FlatPtrs(Last(fs).left)
  }

  function After(fs: seq<Frame>): seq<Item>
    decreases |fs|
  {
    if fs == [] then [] else FlatPtrs(Last(fs).right) + After(Up(fs))
  }

  /** Shape of everything on a path except the node it has reached, which is at
      height `h` and whose first key is `Last(fs).key`. */
  ghost predicate FramesOk(g: Geometry, fs: seq<Frame>, h: nat)
    decreases |fs|
  {
    fs != [] ==>
      var f := Last(fs);
      && PtrsOk(g, f.left, h) && PtrsOk(g, f.right, h) && Count(f) <= g.cap
      && (|fs| > 1 ==> Last(Up(fs)).key == FirstKey(f))
      && FramesOk(g, Up(fs), h + 1)
  }

  ghost predicate HoleKey(fs: seq<Frame>, k: Key) {
    fs != [] ==> Last(fs).key == k
  }

  lemma Regroup(b: seq<Item>, l: seq<Item>, m: seq<Item>, r: seq<Item>, a: seq<Item>)
    ensures b + (l + m + r) + a == (b + l) + m + (r + a)
  {
  }

  lemma {:induction false} FlatWhole(fs: seq<Frame>, t: Tree)
    ensures Flat(Whole(fs, t)) == Before(fs) + Flat(t) + After(fs)
    decreases |fs|
  {
    if fs == [] {
      assert Before(fs) + Flat(t) + After(fs) == Flat(t);
    } else {
      var f := Last(fs);
      var ps := Siblings(f, t);
      FlatWhole(Up(fs), Node(ps));
      FlatAround(ps, |f.left|);
      assert ps[..|f.left|] == f.left && ps[|f.left|+1..] == f.right;
      Regroup(Before(Up(fs)), FlatPtrs(f.left), Flat(t), FlatPtrs(f.right), After(Up(fs)));
    }
  }

  lemma SiblingsOk(g: Geometry, f: Frame, t: Tree, h: nat)
    requires PtrsOk(g, f.left, h) && PtrsOk(g, f.right, h)
    requires Shape(g, t, h) && HasLow(t) && f.key == Low(t)
    ensures PtrsOk(g, Siblings(f, t), h)
    ensures Siblings(f, t)[0].key == FirstKey(f)
  {
    assert PtrOk(g, Ptr(f.key, t), h);
  }

  /** Closing a well-shaped path gives a well-shaped tree. */
  lemma {:induction false} ShapeWhole(g: Geometry, fs: seq<Frame>, t: Tree, h: nat)
    requires FramesOk(g, fs, h) && Shape(g, t, h) && HasLow(t) && HoleKey(fs, Low(t))
    ensures Shape(g, Whole(fs, t), h + |fs|)
    decreases |fs|
  {
    if fs != [] {
      SiblingsOk(g, Last(fs), t, h);
      ShapeNode(g, Siblings(Last(fs), t), h);
      ShapeWhole(g, Up(fs), Node(Siblings(Last(fs), t)), h + 1);
    }
  }

  lemma ShapeParts(g: Geometry, t: Tree, h: nat)
    requires Shape(g, t, h) && t.Node?
    ensures h > 0 && PtrsOk(g, t.ptrs, h - 1) && 0 < |t.ptrs| <= g.cap
  {
    ShapeNode(g, t.ptrs, h - 1);
  }

  /** Descending one level. */
  lemma Descend(g: Geometry, fs: seq<Frame>, t: Tree, h: nat, k: nat)
    requires FramesOk(g, fs, h) && Shape(g, t, h) && t.Node? && HoleKey(fs, Low(t)) && k < |t.ptrs|
    ensures h > 0
    ensures var fs' := fs + [Open(t.ptrs, k)]; var c := t.ptrs[k].child;
            && FramesOk(g, fs', h - 1) && Shape(g, c, h - 1) && HasLow(c) && HoleKey(fs', Low(c))
            && Whole(fs', c) == Whole(fs, t)
            && Before(fs') == Before(fs) + FlatPtrs(t.ptrs[..k])
            && After(fs') == FlatPtrs(t.ptrs[k+1..]) + After(fs)
  {
    ShapeParts(g, t, h);
    var f := Open(t.ptrs, k);
    var fs' := fs + [f];
    assert Up(fs') == fs && Last(fs') == f;
    assert PtrOk(g, t.ptrs[k], h - 1);
    assert Siblings(f, t.ptrs[k].child) == t.ptrs;
  }

  /** Replacing the lowest frame of a path. */
  lemma Reframe(g: Geometry, fs: seq<Frame>, f: Frame, h: nat)
    requires fs != [] && FramesOk(g, fs, h)
    requires PtrsOk(g, f.left, h) && PtrsOk(g, f.right, h) && Count(f) <= g.cap
    requires FirstKey(f) == FirstKey(Last(fs))
    ensures var fs' := Up(fs) + [f];
            && FramesOk(g, fs', h) && Last(fs') == f && Up(fs') == Up(fs)
            && Before(fs') == Before(Up(fs)) + FlatPtrs(f.left)
            && After(fs') == FlatPtrs(f.right) + After(Up(fs))
            && forall t :: Whole(fs', t) == Whole(Up(fs), Node(Siblings(f, t)))
  {
    hide PtrsOk;
    var fs' := Up(fs) + [f];
    assert Up(fs') == Up(fs) && Last(fs') == f;
  }

  /** FramesOk one frame at a time: taking a path apart, and building one. */
  lemma LastOk(g: Geometry, fs: seq<Frame>, h: nat)
    requires fs != [] && FramesOk(g, fs, h)
    ensures PtrsOk(g, Last(fs).left, h) && PtrsOk(g, Last(fs).right, h) && Count(Last(fs)) <= g.cap
    ensures FramesOk(g, Up(fs), h + 1)
    ensures |fs| > 1 ==> Last(Up(fs)).key == FirstKey(Last(fs))
    ensures Before(fs) == Before(Up(fs)) + FlatPtrs(Last(fs).left)
    ensures After(fs) == FlatPtrs(Last(fs).right) + After(Up(fs))
  {
    hide PtrsOk;
  }

  lemma PushFrame(g: Geometry, up: seq<Frame>, f: Frame, h: nat)
    requires FramesOk(g, up, h + 1) && PtrsOk(g, f.left, h) && PtrsOk(g, f.right, h) && Count(f) <= g.cap
    requires HoleKey(up, FirstKey(f))
    ensures FramesOk(g, up + [f], h) && Last(up + [f]) == f && Up(up + [f]) == up
  {
    hide PtrsOk;
    assert Up(up + [f]) == up && Last(up + [f]) == f;
  }
}
