/** The mutable path (struct apfs_path together with the tree it lies in), and
    what rearranging a parent's children does to it. */
module Paths {
  import opened Keys
  import opened Trees

  /** `fs` are the interior nodes above the current one, root first; `node` is
      the current node and `slot` the position in it. */
  class Path {
    const g: Geometry
    var fs: seq<Frame>
    var node: Tree
    var slot: nat

    constructor (g: Geometry, root: Tree)
      ensures this.g == g && fs == [] && node == root && slot == 0
    {
      this.g, fs, node, slot := g, [], root, 0;
    }

    /** The path and its node, at height `h`, are well shaped. */
    ghost predicate Ok(h: nat)
      reads this
    {
      FramesOk(g, fs, h) && Shape(g, node, h) && HasLow(node) && HoleKey(fs, Low(node))
    }

    /** ... and the path points at a pair of an interior node. */
    ghost predicate NodeOk(h: nat)
      reads this
    {
      h > 0 && Ok(h) && node.Node? && slot < |node.ptrs|
    }

    /** Contents left of, at and right of the pair the path points at. */
    ghost function LeftOf(): seq<Item>
      reads this
      requires node.Node? && slot < |node.ptrs|
    {
      Before(fs) + FlatPtrs(node.ptrs[..slot])
    }

    ghost function Target(): Ptr
      reads this
      requires node.Node? && slot < |node.ptrs|
    {
      node.ptrs[slot]
    }

    ghost function RightOf(): seq<Item>
      reads this
      requires node.Node? && slot < |node.ptrs|
    {
      FlatPtrs(node.ptrs[slot+1..]) + After(fs)
    }

    /** The parent's pairs, with the current node put back in place. */
    function Parent(): seq<Ptr>
      reads this
      requires fs != []
    {
      Siblings(Last(fs), node)
    }

    function ParentSlot(): nat
      reads this
      requires fs != []
    {
      |Last(fs).left|
    }

    /** Replace the parent's pairs and point the path at slot `s` of child `p`. */
    method SetParent(par: seq<Ptr>, p: nat, s: nat)
      requires fs != [] && p < |par|
      modifies this
      ensures fs == old(Up(fs)) + [Open(par, p)] && node == par[p].child && slot == s
    {
      fs, node, slot := Up(fs) + [Open(par, p)], par[p].child, s;
    }
  }

  // ---- A parent's grandchildren ----

  function Kids(p: Ptr): seq<Ptr> {
    if p.child.Node? then p.child.ptrs else []
  }

  /** All pairs two levels down, in order. */
  function Grand(ps: seq<Ptr>): seq<Ptr> {
    if ps == [] then [] else Kids(ps[0]) + Grand(ps[1..])
  }

  lemma {:induction false} GrandConcat(a: seq<Ptr>, b: seq<Ptr>)
    ensures Grand(a + b) == Grand(a) + Grand(b)
  {
    if a == [] {
      assert a + b == b;
    } else {
      GrandConcat(a[1..], b);
      assert (a + b)[0] == a[0] && (a + b)[1..] == a[1..] + b;
      assert Grand(a + b) == Kids(a[0]) + Grand(a[1..] + b);
      Assoc(Kids(a[0]), Grand(a[1..]), Grand(b));
    }
  }

  lemma GrandOne(p: Ptr)
    ensures Grand([p]) == Kids(p)
  {
    assert [p][1..] == [];
  }

  lemma GrandSplit(ps: seq<Ptr>, k: nat)
    requires k <= |ps|
    ensures Grand(ps) == Grand(ps[..k]) + Grand(ps[k..])
  {
    hide Grand;
    GrandConcat(ps[..k], ps[k..]);
    assert ps == ps[..k] + ps[k..];
  }

  lemma GrandAround(ps: seq<Ptr>, k: nat)
    requires k < |ps|
    ensures Grand(ps) == Grand(ps[..k]) + Kids(ps[k]) + Grand(ps[k+1..])
  {
    GrandSplit(ps, k);
    assert ps[k..][0] == ps[k] && ps[k..][1..] == ps[k+1..];
    Assoc(Grand(ps[..k]), Kids(ps[k]), Grand(ps[k+1..]));
  }

  ghost predicate Interior(ps: seq<Ptr>) {
    forall i :: 0 <= i < |ps| ==> ps[i].child.Node?
  }

  lemma {:induction false} FlatGrand(ps: seq<Ptr>)
    requires Interior(ps)
    ensures FlatPtrs(ps) == FlatPtrs(Grand(ps))
  {
    if ps != [] {
      FlatGrand(ps[1..]);
      FlatConcat(Kids(ps[0]), Grand(ps[1..]));
    }
  }

  lemma InteriorOk(g: Geometry, ps: seq<Ptr>, h: nat)
    requires PtrsOk(g, ps, h) && h > 0
    ensures Interior(ps)
  {
    forall i | 0 <= i < |ps| ensures ps[i].child.Node? { assert PtrOk(g, ps[i], h); }
  }

  /** Contents around slot `s` of child `p`, in terms of the grandchildren. */
  lemma GrandPosition(ps: seq<Ptr>, p: nat, s: nat)
    requires Interior(ps) && p < |ps| && s < |Kids(ps[p])|
    ensures var i := |Grand(ps[..p])| + s;
            && i < |Grand(ps)| && Grand(ps)[i] == Kids(ps[p])[s]
            && FlatPtrs(ps[..p]) + FlatPtrs(Kids(ps[p])[..s]) == FlatPtrs(Grand(ps)[..i])
            && FlatPtrs(Kids(ps[p])[s+1..]) + FlatPtrs(ps[p+1..]) == FlatPtrs(Grand(ps)[i+1..])
  {
    hide Grand, FlatPtrs, Kids;
    var i, ks := |Grand(ps[..p])| + s, Kids(ps[p]);
    GrandAround(ps, p);
    FlatGrand(ps[..p]);
    FlatGrand(ps[p+1..]);
    assert Grand(ps)[..i] == Grand(ps[..p]) + ks[..s];
    assert Grand(ps)[i+1..] == ks[s+1..] + Grand(ps[p+1..]);
    FlatConcat(Grand(ps[..p]), ks[..s]);
    FlatConcat(ks[s+1..], Grand(ps[p+1..]));
  }

  /** Regrouping the same grandchildren leaves every position where it was. */
  lemma SameGrandchild(ps: seq<Ptr>, p: nat, s: nat, ps': seq<Ptr>, p': nat, s': nat)
    requires Interior(ps) && p < |ps| && s < |Kids(ps[p])|
    requires Interior(ps') && p' < |ps'| && s' < |Kids(ps'[p'])|
    requires Grand(ps) == Grand(ps') && |Grand(ps[..p])| + s == |Grand(ps'[..p'])| + s'
    ensures Kids(ps[p])[s] == Kids(ps'[p'])[s']
    ensures FlatPtrs(ps[..p]) + FlatPtrs(Kids(ps[p])[..s]) == FlatPtrs(ps'[..p']) + FlatPtrs(Kids(ps'[p'])[..s'])
    ensures FlatPtrs(Kids(ps[p])[s+1..]) + FlatPtrs(ps[p+1..])
            == FlatPtrs(Kids(ps'[p'])[s'+1..]) + FlatPtrs(ps'[p'+1..])
  {
    hide Grand, FlatPtrs, Kids, Interior;
    GrandPosition(ps, p, s);
    GrandPosition(ps', p', s');
  }

  // ---- Rebuilding a path around a new parent ----

  lemma Rebuild(g: Geometry, fs: seq<Frame>, par: seq<Ptr>, p: nat, h: nat)
    requires fs != [] && FramesOk(g, fs, h) && PtrsOk(g, par, h) && p < |par| <= g.cap
    requires par[0].key == FirstKey(Last(fs))
    ensures var fs', t := Up(fs) + [Open(par, p)], par[p].child;
            && FramesOk(g, fs', h) && Shape(g, t, h) && HasLow(t) && HoleKey(fs', Low(t))
            && Last(fs') == Open(par, p) && Up(fs') == Up(fs) && Siblings(Last(fs'), t) == par
            && Before(fs') == Before(Up(fs)) + FlatPtrs(par[..p])
            && After(fs') == FlatPtrs(par[p+1..]) + After(Up(fs))
            && Whole(fs', t) == Whole(Up(fs), Node(par))
  {
    assert PtrOk(g, par[p], h);
    hide FramesOk, FlatPtrs, Before, After, Whole, Shape;
    Reframe(g, fs, Open(par, p), h);
    assert Siblings(Open(par, p), par[p].child) == par;
  }

  lemma ParentOk(g: Geometry, fs: seq<Frame>, node: Tree, h: nat)
    requires fs != [] && FramesOk(g, fs, h) && Shape(g, node, h) && HasLow(node) && HoleKey(fs, Low(node))
    ensures var par := Siblings(Last(fs), node);
            && PtrsOk(g, par, h) && 0 < |par| == Count(Last(fs)) <= g.cap
            && par[0].key == FirstKey(Last(fs)) && par[|Last(fs).left|].child == node
            && par[..|Last(fs).left|] == Last(fs).left && par[|Last(fs).left|+1..] == Last(fs).right
            && Before(fs) == Before(Up(fs)) + FlatPtrs(par[..|Last(fs).left|])
            && After(fs) == FlatPtrs(par[|Last(fs).left|+1..]) + After(Up(fs))
            && Whole(fs, node) == Whole(Up(fs), Node(par))
  {
    hide Shape, FlatPtrs, PtrsOk;
    SiblingsOk(g, Last(fs), node, h);
    var par := Siblings(Last(fs), node);
    assert par[..|Last(fs).left|] == Last(fs).left && par[|Last(fs).left|+1..] == Last(fs).right;
  }

  /** The effect of regrouping grandchildren on the contents around the path. */
  lemma RegroupKeeps(g: Geometry, fs: seq<Frame>, node: Tree, s: nat, par': seq<Ptr>, p': nat, s': nat, h: nat)
    requires fs != [] && FramesOk(g, fs, h) && Shape(g, node, h) && HasLow(node) && HoleKey(fs, Low(node))
    requires h > 0 && node.Node? && s < |node.ptrs|
    requires PtrsOk(g, par', h) && p' < |par'| <= g.cap && par'[0].key == FirstKey(Last(fs))
    requires s' < |Kids(par'[p'])|
    requires var par := Siblings(Last(fs), node);
             Grand(par) == Grand(par') && |Grand(Last(fs).left)| + s == |Grand(par'[..p'])| + s'
    ensures var fs', t := Up(fs) + [Open(par', p')], par'[p'].child;
            && FramesOk(g, fs', h) && Shape(g, t, h) && HasLow(t) && HoleKey(fs', Low(t)) && t.Node?
            && t.ptrs[s'] == node.ptrs[s]
            && Before(fs') + FlatPtrs(t.ptrs[..s']) == Before(fs) + FlatPtrs(node.ptrs[..s])
            && FlatPtrs(t.ptrs[s'+1..]) + After(fs') == FlatPtrs(node.ptrs[s+1..]) + After(fs)
  {
    hide FramesOk, Shape, Grand, FlatPtrs, Before, After, PtrsOk, Whole, HoleKey, Siblings;
    var par, p := Siblings(Last(fs), node), |Last(fs).left|;
    ParentOk(g, fs, node, h);
    Rebuild(g, fs, par', p', h);
    InteriorOk(g, par, h);
    InteriorOk(g, par', h);
    SameGrandchild(par, p, s, par', p', s');
    var b, a := Before(Up(fs)), After(Up(fs));
    Assoc(b, FlatPtrs(par[..p]), FlatPtrs(node.ptrs[..s]));
    Assoc(b, FlatPtrs(par'[..p']), FlatPtrs(par'[p'].child.ptrs[..s']));
    Assoc(FlatPtrs(node.ptrs[s+1..]), FlatPtrs(par[p+1..]), a);
    Assoc(FlatPtrs(par'[p'].child.ptrs[s'+1..]), FlatPtrs(par'[p'+1..]), a);
  }

  function Splice(ps: seq<Ptr>, i: nat, j: nat, news: seq<Ptr>): seq<Ptr>
    requires i <= j <= |ps|
  {
    ps[..i] + news + ps[j..]
  }

  lemma SpliceOk(g: Geometry, ps: seq<Ptr>, i: nat, j: nat, news: seq<Ptr>, h: nat)
    requires i <= j <= |ps| && PtrsOk(g, ps, h) && PtrsOk(g, news, h)
    ensures PtrsOk(g, Splice(ps, i, j, news), h)
  {
    hide PtrOk;
  }

  /** Replacing a run of children by one with the same grandchildren. */
  lemma SpliceGrand(ps: seq<Ptr>, i: nat, j: nat, news: seq<Ptr>, k: nat)
    requires i <= j <= |ps| && k <= |news| && Grand(news) == Grand(ps[i..j])
    ensures var ps' := Splice(ps, i, j, news);
            Grand(ps') == Grand(ps) && Grand(ps'[..i+k]) == Grand(ps[..i]) + Grand(news[..k])
  {
    hide Grand;
    var ps' := Splice(ps, i, j, news);
    GrandConcat(ps[..i] + news, ps[j..]);
    GrandConcat(ps[..i], news);
    GrandConcat(ps[..i] + ps[i..j], ps[j..]);
    GrandConcat(ps[..i], ps[i..j]);
    assert ps == ps[..i] + ps[i..j] + ps[j..];
    assert ps'[..i+k] == ps[..i] + news[..k];
    GrandConcat(ps[..i], news[..k]);
  }

  lemma NodePtrOk(g: Geometry, ps: seq<Ptr>, key: Key, h: nat)
    requires h > 0 && PtrsOk(g, ps, h - 1) && 0 < |ps| <= g.cap && key == ps[0].key
    ensures PtrOk(g, Ptr(key, Node(ps)), h) && Kids(Ptr(key, Node(ps))) == ps
  {
    ShapeNode(g, ps, h - 1);
  }

  lemma ChildNode(g: Geometry, par: seq<Ptr>, p: nat, h: nat)
    requires PtrsOk(g, par, h) && h > 0 && p < |par|
    ensures par[p].child.Node? && PtrsOk(g, par[p].child.ptrs, h - 1) && 0 < |par[p].child.ptrs| <= g.cap
    ensures par[p].key == par[p].child.ptrs[0].key && Kids(par[p]) == par[p].child.ptrs
  {
    assert PtrOk(g, par[p], h);
    ShapeParts(g, par[p].child, h);
  }

  lemma GrandTwo(a: Ptr, b: Ptr)
    ensures Grand([a, b]) == Kids(a) + Kids(b)
  {
    hide Kids;
    GrandOne(b);
    assert [a, b][1..] == [b];
  }
}
