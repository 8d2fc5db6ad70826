/** The tree as its users see it: a sorted run of items that is searched, and edited
    by insertion, deletion and changes to single items, over whole runs. */
module BTrees {
  import opened Prelude
  import opened Keys
  import opened Trees
  import opened Search
  import opened Paths
  import opened Leaves
  import opened LeafSplit
  import opened Insert
  import opened Delete
  import opened Edits
  import LeafLayout
  import Walk

  /** The first item that compares equal to a key. */
  function Get(o: Order, s: seq<Item>, key: Key): Option<Item> {
    if s == [] then None
    else if Cmp(o, s[0].key, key) == 0 then Some(s[0])
    else Get(o, s[1..], key)
  }

  lemma {:induction false} GetHas(o: Order, s: seq<Item>, key: Key)
    ensures Get(o, s, key).Some? <==> HasKey(o, s, key)
    ensures Get(o, s, key).Some? ==> Get(o, s, key).value in s && Cmp(o, Get(o, s, key).value.key, key) == 0
  {
    hide Cmp;
    if s != [] {
      GetHas(o, s[1..], key);
      if HasKey(o, s, key) && Cmp(o, s[0].key, key) != 0 {
        var i :| 0 <= i < |s| && Cmp(o, s[i].key, key) == 0;
        assert s[1..][i-1] == s[i];
      }
    }
  }

  /** Reading back after an insertion: the new item under its key, and the old
      answer under every other key. */
  lemma {:induction false} GetInserted(o: Order, s: seq<Item>, it: Item, key: Key)
    requires !HasKey(o, s, it.key)
    ensures Get(o, Inserted(o, s, it), key) == if Cmp(o, it.key, key) == 0 then Some(it) else Get(o, s, key)
  {
    hide Cmp;
    if s == [] || Cmp(o, s[0].key, it.key) >= 0 {
      assert ([it] + s)[1..] == s;
    } else {
      assert !HasKey(o, s[1..], it.key);
      GetInserted(o, s[1..], it, key);
      assert ([s[0]] + Inserted(o, s[1..], it))[1..] == Inserted(o, s[1..], it);
      CmpOrder(o, s[0].key, it.key, key);
    }
  }

  /** Reading back after a deletion. */
  lemma {:induction false} GetRemoved(o: Order, s: seq<Item>, gone: Key, key: Key)
    ensures Get(o, Removed(o, s, gone), key) == if Cmp(o, gone, key) == 0 then None else Get(o, s, key)
  {
    hide Cmp;
    if s != [] {
      GetRemoved(o, s[1..], gone, key);
      CmpOrder(o, s[0].key, gone, key);
      CmpOrder(o, gone, s[0].key, key);
      CmpOrder(o, key, gone, s[0].key);
      assert ([s[0]] + Removed(o, s[1..], gone))[1..] == Removed(o, s[1..], gone);
    }
  }

  /** Deleting what was inserted gives back the old contents. */
  lemma {:induction false} RemovedInserted(o: Order, s: seq<Item>, it: Item)
    requires !HasKey(o, s, it.key)
    ensures Removed(o, Inserted(o, s, it), it.key) == s
  {
    hide Cmp;
    CmpOrder(o, it.key, it.key, it.key);
    if s == [] || Cmp(o, s[0].key, it.key) >= 0 {
      assert ([it] + s)[1..] == s;
      RemovedNone(o, s, it.key);
    } else {
      assert !HasKey(o, s[1..], it.key);
      RemovedInserted(o, s[1..], it);
      assert ([s[0]] + Inserted(o, s[1..], it))[1..] == Inserted(o, s[1..], it);
      assert [s[0]] + s[1..] == s;
    }
  }

  /** In a sorted run at most one item compares equal to a key. */
  lemma OnlyOne(o: Order, s: seq<Item>, a: Item, b: Item, key: Key)
    requires Sorted(o, s) && a in s && b in s && Cmp(o, a.key, key) == 0 && Cmp(o, b.key, key) == 0
    ensures a == b
  {
    hide Cmp;
    var i :| 0 <= i < |s| && s[i] == a;
    var j :| 0 <= j < |s| && s[j] == b;
    CmpOrder(o, a.key, key, b.key);
    CmpOrder(o, b.key, key, a.key);
    CmpOrder(o, a.key, b.key, key);
  }

  /** The check that siblings are in key order (check_sibling_keys) never fires:
      the last key stored in a node is below the first key of its right
      neighbour, at every level. */
  lemma SiblingKeysOrdered(g: Geometry, left: Tree, right: Tree, h: nat)
    requires Shape(g, left, h) && Shape(g, right, h) && Sorted(g.order, Flat(left) + Flat(right))
    ensures HasLow(left) && HasLow(right)
    ensures Cmp(g.order, NodeKeys(left)[|NodeKeys(left)| - 1], Low(right)) < 0
  {
    hide Cmp, Flat, Shape, Low, NodeKeys;
    LastStored(g, left, h);
    LowIsFirst(g, right, h);
    var s := Flat(left) + Flat(right);
    var i :| 0 <= i < |Flat(left)| && Flat(left)[i].key == NodeKeys(left)[|NodeKeys(left)| - 1];
    assert s[i] == Flat(left)[i] && s[|Flat(left)|] == Flat(right)[0];
  }

  /** The last key stored in a node is the key of one of the items below. */
  lemma LastStored(g: Geometry, t: Tree, h: nat)
    requires Shape(g, t, h)
    ensures HasLow(t) && NodeKeys(t) != []
    ensures exists i :: 0 <= i < |Flat(t)| && Flat(t)[i].key == NodeKeys(t)[|NodeKeys(t)| - 1]
  {
    hide FlatPtrs;
    if t.Leaf? {
      assert Flat(t)[|t.items| - 1].key == NodeKeys(t)[|t.items| - 1];
    } else {
      var n := |t.ptrs| - 1;
      LowIsFirst(g, t.ptrs[n].child, h - 1);
      FlatAround(t.ptrs, n);
      assert Flat(t)[|FlatPtrs(t.ptrs[..n])|] == Flat(t.ptrs[n].child)[0];
    }
  }

  lemma NoPath(t: Tree)
    ensures Whole([], t) == t && Before([]) + Flat(t) + After([]) == Flat(t)
  {
  }

  /** A search starts at the root. */
  lemma AtRoot(g: Geometry, root: Tree, key: Key)
    requires TreeOk(g, root)
    ensures OrderInv(g, key, [], root, Height(root)) && Sorted(g.order, Flat(root))
  {
    hide Cmp, Sorted;
  }

  lemma NotThere(o: Order, s: seq<Item>, key: Key)
    requires !HasKey(o, s, key)
    ensures Removed(o, s, key) == s
  {
    RemovedNone(o, s, key);
  }

  /** Taking out the item a path points at is removing its key. */
  lemma TakeOut(p: Path, s: seq<Item>, key: Key)
    requires p.node.Leaf? && p.slot < |p.node.items| && PathFlat(p) == s && Sorted(p.g.order, s)
    requires Cmp(p.g.order, p.node.items[p.slot].key, key) == 0
    requires AllBelow(p.g.order, LeafLeft(p), key)
    requires AllAbove(p.g.order, p.node.items[p.slot+1..] + After(p.fs), key)
    ensures var rest := Before(p.fs) + (p.node.items[..p.slot] + p.node.items[p.slot+1..]) + After(p.fs);
            rest == Removed(p.g.order, s, key) && Sorted(p.g.order, rest)
  {
    hide Cmp, Before, After, AllBelow, AllAbove, Removed;
    var l, it, r := LeafLeft(p), p.node.items[p.slot], p.node.items[p.slot+1..] + After(p.fs);
    var items := p.node.items;
    assert items == items[..p.slot] + [it] + items[p.slot+1..];
    assert s == l + [it] + r;
    RemovedSplit(p.g.order, l, it, r, key);
    Joined(Before(p.fs), items[..p.slot], items[p.slot+1..], After(p.fs));
    SortedWithoutOne(p.g.order, l, it, r);
  }

  lemma {:induction false} GetSplit(o: Order, l: seq<Item>, it: Item, r: seq<Item>, key: Key)
    requires AllBelow(o, l, key) && Cmp(o, it.key, key) == 0
    ensures Get(o, l + [it] + r, key) == Some(it)
  {
    hide Cmp;
    var s := l + [it] + r;
    if l == [] {
      assert s[0] == it;
    } else {
      GetSplit(o, l[1..], it, r, key);
      assert s[0] == l[0] && s[1..] == l[1..] + [it] + r;
    }
  }

  /** The item a path is on, and what replacing it does to the contents. */
  lemma Found(p: Path, s: seq<Item>, key: Key)
    requires OnItem(p, key) && PathFlat(p) == s
    ensures Get(p.g.order, s, key) == Some(p.node.items[p.slot])
    ensures s == LeafLeft(p) + [p.node.items[p.slot]] + LeafRest(p)
  {
    hide Cmp, Before, After, AllBelow, AllAbove, Get, FramesOk, Shape;
    LeafFlatPath(p);
    RestIs(p);
    Assoc(LeafLeft(p), [p.node.items[p.slot]], LeafRest(p));
    GetSplit(p.g.order, LeafLeft(p), p.node.items[p.slot], LeafRest(p), key);
  }

  lemma Edited(p: Path, s: seq<Item>, key: Key, news: seq<Item>)
    requires OnItem(p, key) && PathFlat(p) == s && Sorted(p.g.order, s)
    requires news != [] && Cmp(p.g.order, p.node.items[p.slot].key, news[0].key) <= 0
    ensures var t := LeafLeft(p) + news + LeafRest(p);
            && Replaced(p.g.order, s, key, news) == t
            && (Sorted(p.g.order, t) <==> StayHere(p.g.order, s, key, news))
  {
    hide Cmp, Before, After, AllBelow, AllAbove, Get, FramesOk, Shape, Sorted, Replaced, StayHere;
    Found(p, s, key);
    ReplacedSplit(p.g.order, LeafLeft(p), p.node.items[p.slot], LeafRest(p), key, news);
    ReplacedSorted(p.g.order, LeafLeft(p), p.node.items[p.slot], LeafRest(p), key, news);
  }

  /** An item that keeps its key keeps its place. */
  lemma SameKeyStays(o: Order, s: seq<Item>, key: Key, it: Item)
    requires Sorted(o, s) && Get(o, s, key).Some? && Get(o, s, key).value.key == it.key
    ensures StayHere(o, s, key, [it]) && Cmp(o, it.key, it.key) == 0
  {
    hide Cmp;
    CmpOrder(o, it.key, it.key, it.key);
    NextAbove(o, s, key);
  }

  lemma {:induction false} NextAbove(o: Order, s: seq<Item>, key: Key)
    requires Sorted(o, s) && Get(o, s, key).Some?
    ensures var n := NextAfter(o, s, key); n.Some? ==> Cmp(o, Get(o, s, key).value.key, n.value) < 0
  {
    hide Cmp;
    if Cmp(o, s[0].key, key) != 0 { NextAbove(o, s[1..], key); }
  }

  /** A single item always belongs where its key does. */
  lemma OneBelongs(o: Order, l: seq<Item>, r: seq<Item>, it: Item)
    requires AllBelow(o, l, it.key) && AllAbove(o, r, it.key)
    ensures BelongHere(o, l + r, [it]) && Placed(o, l + r, [it]) == Inserted(o, l + r, it)
  {
    hide Cmp, Rank;
    PlacedSplit(o, l, r, [it]);
    InsertedSplit(o, l, r, it);
    if r != [] {
      assert (l + r)[|l|] == r[0];
      CmpOrder(o, it.key, r[0].key, it.key);
    }
  }

  lemma PlacedSorted(o: Order, l: seq<Item>, r: seq<Item>, its: seq<Item>)
    requires its != [] && AllBelow(o, l, its[0].key) && AllAbove(o, r, its[0].key) && Sorted(o, l + r)
    ensures Sorted(o, Placed(o, l + r, its)) <==> BelongHere(o, l + r, its)
    ensures BelongHere(o, l + r, its) ==> Placed(o, l + r, its) == InsertedAll(o, l + r, its)
  {
    hide Cmp, Rank, Sorted, InsertedAll;
    PlacedSplit(o, l, r, its);
    assert r != [] ==> (l + r)[|l|] == r[0];
    SortedAround(o, l, its, r);
    if Sorted(o, l + its + r) { InsertedTogether(o, l, r, its); }
  }

  lemma HeaderFits(its: seq<Item>)
    requires its != []
    ensures Weight(its) >= ITEM_HEADER
  {
  }

  lemma WeightOne(it: Item)
    ensures Weight([it]) == ItemWeight(it)
  {
    assert [it][1..] == [];
  }

  lemma WeightTwo(a: Item, b: Item)
    ensures Weight([a, b]) == ItemWeight(a) + ItemWeight(b)
  {
    assert [a, b][1..] == [b];
    WeightOne(b);
  }

  lemma OnItemOk(p: Path, key: Key)
    requires OnItem(p, key)
    ensures LeafOk(p) && p.slot < |p.node.items|
  {
  }

  lemma OnItemKey(p: Path, key: Key)
    requires OnItem(p, key)
    ensures Cmp(p.g.order, p.node.items[p.slot].key, key) == 0
    ensures Cmp(p.g.order, p.node.items[p.slot].key, p.node.items[p.slot].key) == 0
  {
    CmpOrder(p.g.order, p.node.items[p.slot].key, p.node.items[p.slot].key, key);
  }

  /** A path still on the item it was on. */
  lemma KeptItem(p: Path, key: Key)
    requires LeafOk(p) && p.slot < |p.node.items| && Cmp(p.g.order, p.node.items[p.slot].key, key) == 0
    requires AllBelow(p.g.order, LeafLeft(p), key) && AllAbove(p.g.order, LeafRest(p), key)
    ensures OnItem(p, key)
  {
  }

  /** Two paths on the item with a key, one of them to a leaf that is in the tree of
      the other, are on the same leaf. */
  lemma SameLeaf(p: Path, q: Path, at: seq<Frame>, s: seq<Item>, key: Key)
    requires OnItem(p, key) && OnItem(q, key) && p.g == q.g && PathFlat(p) == PathFlat(q) == s && Sorted(p.g.order, s)
    requires Whole(at, q.node) == Whole(p.fs, p.node) && Before(at) == Before(q.fs)
    ensures p.node == q.node
  {
    hide Before, After, FramesOk, Shape, Cmp, Whole, Flat, AllBelow, AllAbove, Get, Sorted;
    Found(p, s, key);
    Found(q, s, key);
    OneIndex(p.g.order, s, |LeafLeft(p)|, |LeafLeft(q)|, key);
    LeafFlat(p.node);
    LeafFlat(q.node);
    Walk.SamePath(p.fs, p.node, at, q.node, |LeafLeft(p)|);
  }

  lemma LeafBound(p: Path)
    requires LeafOk(p) && p.slot < |p.node.items|
    ensures ItemWeight(p.node.items[p.slot]) <= Weight(p.node.items) <= p.g.leafCap
  {
    WeightSplit(p.node.items, p.slot);
    assert p.node.items[p.slot..][0] == p.node.items[p.slot];
  }

  lemma SameKey(o: Order, k: Key)
    ensures Cmp(o, k, k) == 0
  {
    CmpOrder(o, k, k, k);
  }

  lemma TruncatedKey(o: Order, it: Item, size: nat, fromEnd: bool, header: nat)
    requires header <= size <= |it.data|
    ensures var t := LeafLayout.Truncated(it, size, fromEnd, header);
            Cmp(o, it.key, t.key) <= 0 && |t.data| == size
  {
    SameKey(o, it.key);
    OffsetRaised(o, it.key, |it.data| - size);
  }

  /** Inserting one item is the simplest case of inserting several. */
  lemma OneAlone(o: Order, s: seq<Item>, it: Item)
    requires Sorted(o, s)
    ensures Get(o, s, it.key).None? ==> BelongHere(o, s, [it]) && Placed(o, s, [it]) == Inserted(o, s, it)
    ensures Weight([it]) == ItemWeight(it)
  {
    hide Cmp, Placed, BelongHere, Inserted, Get, Rank;
    WeightOne(it);
    GetHas(o, s, it.key);
    if Get(o, s, it.key).None? {
      var r := PlaceOf(o, s, it.key);
      OneBelongs(o, s[..r], s[r..], it);
      assert s[..r] + s[r..] == s;
    }
  }

  lemma {:induction false} PlaceOf(o: Order, s: seq<Item>, key: Key) returns (r: nat)
    requires Sorted(o, s) && !HasKey(o, s, key)
    ensures r <= |s| && AllBelow(o, s[..r], key) && AllAbove(o, s[r..], key)
  {
    hide Cmp;
    r := 0;
    while r < |s| && Cmp(o, s[r].key, key) < 0
      invariant 0 <= r <= |s| && AllBelow(o, s[..r], key)
    {
      r := r + 1;
    }
    forall i | r <= i < |s| ensures Cmp(o, s[i].key, key) > 0 {
      CmpOrder(o, key, s[r].key, s[i].key);
      CmpOrder(o, s[i].key, key, s[r].key);
    }
  }

  /** Reading finds an item whose key agrees in every component that counts, and
      nothing only when there is none. */
  lemma GetParts(o: Order, s: seq<Item>, key: Key)
    ensures match Get(o, s, key)
            case Some(it) => it in s && SameParts(o, it.key, key)
            case None => forall it :: it in s ==> !SameParts(o, it.key, key)
  {
    hide Cmp, SameParts, Get;
    GetHas(o, s, key);
    forall it: Item ensures Cmp(o, it.key, key) == 0 <==> SameParts(o, it.key, key) {
      CmpIs(o, it.key, key);
    }
  }

  // ---- Reading back after an edit ----

  lemma {:induction false} GetConcat(o: Order, a: seq<Item>, b: seq<Item>, k: Key)
    ensures Get(o, a + b, k) == if Get(o, a, k).Some? then Get(o, a, k) else Get(o, b, k)
  {
    hide Cmp;
    if a == [] {
      assert a + b == b;
    } else {
      GetConcat(o, a[1..], b, k);
      assert (a + b)[0] == a[0] && (a + b)[1..] == a[1..] + b;
    }
  }

  lemma GetOne(o: Order, it: Item, k: Key)
    ensures Get(o, [it], k) == if Cmp(o, it.key, k) == 0 then Some(it) else None
  {
    hide Cmp;
    assert [it][1..] == [];
  }

  /** Nothing below a key is found under that key or a larger one. */
  lemma {:induction false} NotBelow(o: Order, l: seq<Item>, key: Key, k: Key)
    requires AllBelow(o, l, key) && Cmp(o, key, k) <= 0
    ensures Get(o, l, k) == None
  {
    hide Cmp;
    if l != [] {
      CmpOrder(o, l[0].key, key, k);
      NotBelow(o, l[1..], key, k);
    }
  }

  /** Every key but two reads what it read before. */
  ghost predicate SameElsewhere(o: Order, s: seq<Item>, t: seq<Item>, a: Key, b: Key) {
    forall k: Key :: Cmp(o, k, a) != 0 && Cmp(o, k, b) != 0 ==> Get(o, t, k) == Get(o, s, k)
  }

  lemma GetThree(o: Order, l: seq<Item>, m: seq<Item>, r: seq<Item>, k: Key)
    ensures Get(o, l + m + r, k)
         == if Get(o, l, k).Some? then Get(o, l, k) else if Get(o, m, k).Some? then Get(o, m, k) else Get(o, r, k)
  {
    hide Get;
    GetConcat(o, l + m, r, k);
    GetConcat(o, l, m, k);
  }

  /** An item replaced by two, the first of which has its key. */
  lemma ReadsTwo(o: Order, l: seq<Item>, it: Item, r: seq<Item>, key: Key, x: Item, y: Item)
    requires AllBelow(o, l, key) && Cmp(o, it.key, key) == 0 && Cmp(o, x.key, key) == 0
    ensures var t := l + [x, y] + r;
            && Get(o, t, key) == Some(x) && (Cmp(o, key, y.key) < 0 ==> Get(o, t, y.key) == Some(y))
            && SameElsewhere(o, l + [it] + r, t, key, y.key)
  {
    hide Cmp, Get, AllBelow;
    SameKey(o, key);
    SameKey(o, y.key);
    NotBelow(o, l, key, key);
    assert [x, y] == [x] + [y];
    forall k: Key
      ensures Get(o, [x, y], k)
           == if Cmp(o, x.key, k) == 0 then Some(x) else if Cmp(o, y.key, k) == 0 then Some(y) else None
    {
      GetConcat(o, [x], [y], k);
      GetOne(o, x, k);
      GetOne(o, y, k);
    }
    GetThree(o, l, [x, y], r, key);
    GetThree(o, l, [x, y], r, y.key);
    if Cmp(o, key, y.key) < 0 {
      NotBelow(o, l, key, y.key);
      CmpOrder(o, x.key, key, y.key);
    }
    forall k: Key | Cmp(o, k, key) != 0 && Cmp(o, k, y.key) != 0
      ensures Get(o, l + [x, y] + r, k) == Get(o, l + [it] + r, k)
    {
      GetThree(o, l, [x, y], r, k);
      GetThree(o, l, [it], r, k);
      GetOne(o, it, k);
      OtherKey(o, it.key, key, k);
      OtherKey(o, x.key, key, k);
      CmpOrder(o, k, y.key, k);
    }
  }

  /** A key that differs from one of two equal ones differs from the other. */
  lemma OtherKey(o: Order, a: Key, key: Key, k: Key)
    requires Cmp(o, a, key) == 0 && Cmp(o, k, key) != 0
    ensures Cmp(o, a, k) != 0
  {
    hide Cmp;
    CmpOrder(o, a, key, a);
    CmpOrder(o, a, k, a);
    CmpOrder(o, k, a, key);
    CmpOrder(o, key, a, k);
    CmpOrder(o, k, key, k);
  }

  /** An item replaced by one with its key or a larger one. */
  lemma ReadsOne(o: Order, l: seq<Item>, it: Item, r: seq<Item>, key: Key, x: Item)
    requires AllBelow(o, l, key) && Cmp(o, it.key, key) == 0 && Cmp(o, it.key, x.key) <= 0
    ensures var t := l + [x] + r;
            && Get(o, t, x.key) == Some(x) && (Cmp(o, x.key, key) == 0 ==> Get(o, t, key) == Some(x))
            && SameElsewhere(o, l + [it] + r, t, key, x.key)
  {
    hide Cmp, Get, AllBelow;
    SameKey(o, key);
    SameKey(o, x.key);
    NotBelow(o, l, key, key);
    CmpOrder(o, it.key, key, it.key);
    CmpOrder(o, key, it.key, x.key);
    NotBelow(o, l, key, x.key);
    GetThree(o, l, [x], r, key);
    GetThree(o, l, [x], r, x.key);
    GetOne(o, x, key);
    GetOne(o, x, x.key);
    forall k: Key | Cmp(o, k, key) != 0 && Cmp(o, k, x.key) != 0
      ensures Get(o, l + [x] + r, k) == Get(o, l + [it] + r, k)
    {
      GetThree(o, l, [x], r, k);
      GetThree(o, l, [it], r, k);
      GetOne(o, it, k);
      GetOne(o, x, k);
      OtherKey(o, it.key, key, k);
      CmpOrder(o, k, x.key, k);
    }
  }

  /** The same at a path. */
  lemma PathReadsOne(p: Path, s: seq<Item>, key: Key, x: Item)
    requires OnItem(p, key) && PathFlat(p) == s && Cmp(p.g.order, p.node.items[p.slot].key, x.key) <= 0
    ensures var t := LeafLeft(p) + [x] + LeafRest(p);
            && Get(p.g.order, t, x.key) == Some(x)
            && (Cmp(p.g.order, x.key, key) == 0 ==> Get(p.g.order, t, key) == Some(x))
            && SameElsewhere(p.g.order, s, t, key, x.key)
  {
    hide Cmp, Before, After, AllBelow, AllAbove, Get, FramesOk, Shape, SameElsewhere;
    Found(p, s, key);
    ReadsOne(p.g.order, LeafLeft(p), p.node.items[p.slot], LeafRest(p), key, x);
  }

  lemma PathReadsTwo(p: Path, s: seq<Item>, key: Key, x: Item, y: Item)
    requires OnItem(p, key) && PathFlat(p) == s && x.key == p.node.items[p.slot].key
    ensures var t := LeafLeft(p) + [x, y] + LeafRest(p);
            && Get(p.g.order, t, key) == Some(x)
            && (Cmp(p.g.order, key, y.key) < 0 ==> Get(p.g.order, t, y.key) == Some(y))
            && SameElsewhere(p.g.order, s, t, key, y.key)
  {
    hide Cmp, Before, After, AllBelow, AllAbove, Get, FramesOk, Shape, SameElsewhere;
    Found(p, s, key);
    ReadsTwo(p.g.order, LeafLeft(p), p.node.items[p.slot], LeafRest(p), key, x, y);
  }

  /** A new key belongs between a stored one and the next. */
  ghost predicate Between(o: Order, s: seq<Item>, key: Key, newKey: Key) {
    Cmp(o, key, newKey) < 0 && BeforeNext(o, s, key, newKey)
  }

  ghost predicate BeforeNext(o: Order, s: seq<Item>, key: Key, newKey: Key) {
    NextAfter(o, s, key).Some? ==> Cmp(o, newKey, NextAfter(o, s, key).value) < 0
  }

  lemma StayOne(o: Order, s: seq<Item>, key: Key, x: Item)
    ensures StayHere(o, s, key, [x]) <==> BeforeNext(o, s, key, x.key)
  {
    hide Cmp, NextAfter;
  }

  lemma StayTwo(o: Order, s: seq<Item>, key: Key, x: Item, y: Item)
    requires Cmp(o, x.key, key) == 0
    ensures StayHere(o, s, key, [x, y]) <==> Between(o, s, key, y.key)
  {
    hide Cmp, NextAfter;
    CmpOrder(o, x.key, key, y.key);
    CmpOrder(o, key, x.key, y.key);
    CmpOrder(o, x.key, key, x.key);
    var two := [x, y];
    assert two[0] == x && two[1] == y;
  }

  datatype Op =
    | Insert(key: Key, data: seq<nat>)
    | InsertMany(its: seq<Item>)
    | Delete(key: Key)
    | Extend(key: Key, bytes: seq<nat>)
    | Truncate(key: Key, size: nat, fromEnd: bool, header: nat)
    | Split(key: Key, newKey: Key, at: nat)
    | Duplicate(key: Key, newKey: Key)

  /** What an edit puts in place of the item it is for, if it can be done at all:
      what is in the tree must fit a leaf. */
  function Change(g: Geometry, it: Item, op: Op): Option<seq<Item>> {
    match op
    case Extend(_, bytes) =>
      if ItemWeight(it) + |bytes| > g.leafCap then None else Some([Item(it.key, it.data + bytes)])
    case Truncate(_, size, fromEnd, header) =>
      if header <= size <= |it.data| then Some([LeafLayout.Truncated(it, size, fromEnd, header)]) else None
    case Split(_, newKey, at) =>
      if ItemWeight(it) + ITEM_HEADER > g.leafCap || at > |it.data| then None
      else Some([Item(it.key, it.data[..at]), Item(newKey, it.data[at..])])
    case Duplicate(_, newKey) =>
      if 2 * ItemWeight(it) > g.leafCap then None else Some([it, Item(newKey, it.data)])
    case _ => None
  }

  /** What one operation does to the contents. */
  function Applied(g: Geometry, s: seq<Item>, op: Op): seq<Item> {
    match op
    case Insert(key, data) => if Get(g.order, s, key).Some? then s else Inserted(g.order, s, Item(key, data))
    case InsertMany(its) =>
      if its == [] || Get(g.order, s, its[0].key).Some? then s else Placed(g.order, s, its)
    case Delete(key) => Removed(g.order, s, key)
    case _ =>
      match Get(g.order, s, op.key)
      case None => s
      case Some(it) =>
        match Change(g, it, op)
        case None => s
        case Some(news) => Replaced(g.order, s, op.key, news)
  }

  function AppliedAll(g: Geometry, s: seq<Item>, ops: seq<Op>): seq<Item> {
    if ops == [] then s else Applied(g, AppliedAll(g, s, ops[..|ops|-1]), ops[|ops|-1])
  }

  /** What callers have to see to: items that fit a leaf, sizes that are not larger
      than what there is to cut or split, and keys that keep the order. */
  ghost predicate Allowed(g: Geometry, s: seq<Item>, op: Op) {
    match op
    case Insert(_, data) => |data| + ITEM_HEADER <= g.leafCap
    case InsertMany(its) =>
      its != [] && Weight(its) <= g.leafCap && (Get(g.order, s, its[0].key).None? ==> BelongHere(g.order, s, its))
    case Delete(_) => true
    case Extend(key, _) => Get(g.order, s, key).Some?
    case _ => SizesOk(g, s, op) && Keeps(g, s, op)
  }

  ghost predicate SizesOk(g: Geometry, s: seq<Item>, op: Op)
    requires op.Truncate? || op.Split? || op.Duplicate?
  {
    match Get(g.order, s, op.key)
    case None => true
    case Some(it) =>
      && (op.Truncate? ==> op.header <= op.size <= |it.data|)
      && (op.Split? ==> op.at <= |it.data|)
  }

  /** An edit leaves the contents sorted. */
  ghost predicate Keeps(g: Geometry, s: seq<Item>, op: Op)
    requires op.Extend? || op.Truncate? || op.Split? || op.Duplicate?
  {
    match Get(g.order, s, op.key)
    case None => true
    case Some(it) =>
      match Change(g, it, op)
      case None => true
      case Some(news) => StayHere(g.order, s, op.key, news)
  }

  class BTree {
    const g: Geometry
    var root: Tree

    /** Uniform depth, bounds and parent keys. */
    ghost predicate Shaped()
      reads this
    {
      g.cap >= 10 && (root == Leaf([]) || Shape(g, root, Height(root)))
    }

    ghost predicate Valid()
      reads this
    {
      Shaped() && Sorted(g.order, Contents())
    }

    function Contents(): seq<Item>
      reads this
    {
      Flat(root)
    }

    constructor (g: Geometry)
      requires g.cap >= 10
      ensures Valid() && this.g == g && Contents() == []
    {
      this.g, root := g, Leaf([]);
    }

    /** Put a closed path back as the tree. */
    method Store(p: Path, ghost h: nat)
      requires p.g == g && g.cap >= 10 && (p.Ok(h) || (p.fs == [] && p.node == Leaf([])))
      modifies this
      ensures Shaped() && Contents() == PathFlat(p) && root == Whole(p.fs, p.node)
    {
      hide FramesOk, FlatPtrs, Before, After;
      FlatWhole(p.fs, p.node);
      if p.Ok(h) {
        ShapeWhole(g, p.fs, p.node, h);
        ShapeHeight(g, Whole(p.fs, p.node), h + |p.fs|);
      } else {
        NoPath(p.node);
      }
      root := Whole(p.fs, p.node);
    }

    /** A path at the root, ready for a search. */
    method Start(ghost key: Key) returns (p: Path)
      requires Valid()
      ensures fresh(p) && p.g == g && p.fs == [] && p.node == root && OrderInv(g, key, p.fs, p.node, Height(p.node))
      ensures PathFlat(p) == Contents()
    {
      hide Flat, Shape, Sorted, OrderInv, Before, After;
      p := new Path(g, root);
      AtRoot(g, root, key);
      NoPath(root);
    }

    /** apfs_insert_empty_items, the items being what their callers then make of them:
        they all go where the first belongs, which is right exactly if they are in
        order and belong before the next item stored. */
    method InsertItems(its: seq<Item>) returns (ret: int)
      requires Valid() && its != [] && Weight(its) <= g.leafCap
      modifies this
      ensures Shaped() && Contents() == Applied(g, old(Contents()), InsertMany(its))
      ensures Valid() <==> ret != 0 || BelongHere(g.order, old(Contents()), its)
      ensures ret == 0 && BelongHere(g.order, old(Contents()), its) ==>
                Contents() == InsertedAll(g.order, old(Contents()), its)
      ensures match Get(g.order, old(Contents()), its[0].key)
              case None => ret == 0
              case Some(it) => ret == if ItemWeight(it) + Weight(its) - ITEM_HEADER > g.leafCap then EOVERFLOW
                else EEXIST
    {
      hide FramesOk, Before, After, Sorted, HasKey, Get, Cmp, AllBelow, AllAbove, Shape;
      hide OrderInv, Low, Placed, BelongHere;
      hide Weight, Flat, Rank, OnItem, InsertedAll;
      ghost var s, o := Contents(), g.order;
      var key := its[0].key;
      GetHas(o, s, key);
      HeaderFits(its);
      var p := Start(key);
      var found := SearchForInsert(p, key, Weight(its));
      if found != 1 {
        Found(p, s, key);
        OnItemOk(p, key);
        Store(p, 0);
        return if found == 0 then EEXIST else found;
      }
      PlacedSplit(o, LeafLeft(p), LeafRight(p), its);
      PlacedSorted(o, LeafLeft(p), LeafRight(p), its);
      SetupItems(p, its);
      Store(p, 0);
      return 0;
    }

    /** apfs_insert_item. */
    method InsertItem(key: Key, data: seq<nat>) returns (ret: int)
      requires Valid() && |data| + ITEM_HEADER <= g.leafCap
      modifies this
      ensures Valid()
      ensures Contents() == Applied(g, old(Contents()), Op.Insert(key, data))
      ensures match Get(g.order, old(Contents()), key)
              case None => ret == 0
              case Some(it) => ret == if ItemWeight(it) + |data| > g.leafCap then EOVERFLOW else EEXIST
    {
      hide Sorted, Get, Cmp, Inserted, Placed, BelongHere, Shape, Flat;
      ghost var s := Contents();
      OneAlone(g.order, s, Item(key, data));
      ret := InsertItems([Item(key, data)]);
    }

    /** apfs_search_slot for deletion followed by apfs_del_items. */
    method DeleteItem(key: Key) returns (ret: int)
      requires Valid()
      modifies this
      ensures Valid()
      ensures Contents() == Applied(g, old(Contents()), Op.Delete(key))
      ensures ret == if Get(g.order, old(Contents()), key).Some? then 0 else 1
    {
      hide FramesOk, Before, After, Sorted, HasKey, Get, Cmp, AllBelow, AllAbove, Removed, Shape;
      hide OrderInv, Low, Weight, Flat;
      ghost var s := Contents();
      GetHas(g.order, s, key);
      var p := Start(key);
      ret := SearchForDelete(p, key);
      if ret != 0 {
        NotThere(g.order, s, key);
        Store(p, 0);
        return;
      }
      TakeOut(p, s, key);
      ghost var h := DelItems(p, p.slot, 1);
      Store(p, h);
    }

    /** apfs_extend_item on an existing item, after a search that made room for it, and
        the new bytes written. */
    method ExtendItem(key: Key, bytes: seq<nat>) returns (ret: int)
      requires Valid() && Get(g.order, Contents(), key).Some?
      modifies this
      ensures Valid() && Contents() == Applied(g, old(Contents()), Extend(key, bytes))
      ensures ret == if ItemWeight(Get(g.order, old(Contents()), key).value) + |bytes| > g.leafCap then EOVERFLOW else 0
      ensures ret != 0 ==> Contents() == old(Contents())
      ensures ret == 0 ==>
                var it := Get(g.order, old(Contents()), key).value;
                && Get(g.order, Contents(), key) == Some(Item(it.key, it.data + bytes))
                && SameElsewhere(g.order, old(Contents()), Contents(), key, it.key)
    {
      hide SameElsewhere;
      hide FramesOk, Before, After, Sorted, HasKey, Get, Cmp, AllBelow, AllAbove, Shape, OrderInv;
      hide Low, Flat, Replaced, OnItem;
      hide Weight, Ready, StayHere;
      ghost var s, o := Contents(), g.order;
      GetHas(o, s, key);
      var p := Start(key);
      ret := SearchForInsert(p, key, |bytes| + ITEM_HEADER);
      Found(p, s, key);
      OnItemOk(p, key);
      if ret == 0 {
        var it := p.node.items[p.slot];
        var it' := Item(it.key, it.data + bytes);
        SameKeyStays(o, s, key, it');
        OnItemKey(p, key);
        PathReadsOne(p, s, key, it');
        Edited(p, s, key, [it']);
        WeightOne(it');
        EditItem(p, [it']);
      }
      Store(p, 0);
    }

    /** A search followed by apfs_truncate_item, which also corrects the keys above: the
        contents stay sorted exactly if the item's new key is below the next one. */
    method TruncateItem(key: Key, size: nat, fromEnd: bool, header: nat) returns (ret: int)
      requires Valid() && SizesOk(g, Contents(), Truncate(key, size, fromEnd, header))
      modifies this
      ensures Shaped() && Contents() == Applied(g, old(Contents()), Truncate(key, size, fromEnd, header))
      ensures Valid() <==> Keeps(g, old(Contents()), Truncate(key, size, fromEnd, header))
      ensures ret == if Get(g.order, old(Contents()), key).Some? then 0 else 1
      ensures ret != 0 ==> Contents() == old(Contents())
      ensures ret == 0 ==>
                var it := Get(g.order, old(Contents()), key).value;
                var k := LeafLayout.CutKey(it, size, fromEnd);
                && Get(g.order, Contents(), k).Some?
                && LeafLayout.CutTo(it, Get(g.order, Contents(), k).value, size, fromEnd, header)
                && SameElsewhere(g.order, old(Contents()), Contents(), key, k)
                && (Valid() <==> BeforeNext(g.order, old(Contents()), key, k))
    {
      hide LeafLayout.CutTo, LeafLayout.CutKey, SameElsewhere;
      hide FramesOk, Before, After, Sorted, HasKey, Get, Cmp, AllBelow, AllAbove, Shape, OrderInv, Low, Flat, Replaced;
      hide Weight, StayHere, LeafLayout.Truncated;
      ghost var s, o := Contents(), g.order;
      GetHas(o, s, key);
      var p := Start(key);
      ret := SearchForDelete(p, key);
      if ret == 0 {
        Found(p, s, key);
        var it := p.node.items[p.slot];
        var it' := LeafLayout.Truncated(it, size, fromEnd, header);
        TruncatedKey(o, it, size, fromEnd, header);
        LeafLayout.TruncatedCuts(it, size, fromEnd, header);
        LeafLayout.CutToKey(it, it', size, fromEnd, header);
        PathReadsOne(p, s, key, it');
        StayOne(o, s, key, it');
        Edited(p, s, key, [it']);
        WeightOne(it');
        LeafBound(p);
        EditItem(p, [it']);
      }
      Store(p, 0);
    }

    /** setup_leaf_for_split, after the search of its callers: room for a header or,
        if the item is to be duplicated, for all of it, in the item's leaf. */
    method SetupLeafForSplit(key: Key, duplicate: bool) returns (ret: int, p: Path)
      requires Valid()
      modifies this
      ensures Valid() && Contents() == old(Contents()) == PathFlat(p) && fresh(p) && p.g == g
      ensures match Get(g.order, Contents(), key)
              case None => ret == 1
              case Some(it) =>
                var d := ITEM_HEADER + if duplicate then |it.data| else 0;
                && ret == (if ItemWeight(it) + d > g.leafCap then EOVERFLOW else 0)
                && (ret == 0 ==> OnItem(p, key) && Weight(p.node.items) + d <= g.leafCap)
    {
      hide FramesOk, Before, After, Sorted, HasKey, Get, Cmp, AllBelow, AllAbove, Shape, OrderInv, Low, Flat, Weight;
      hide Whole;
      ghost var s, o := Contents(), g.order;
      GetHas(o, s, key);
      p := Start(key);
      ret := SearchForDelete(p, key);
      Store(p, 0);
      if ret != 0 { return; }
      Found(p, s, key);
      LeafBound(p);
      var d := ITEM_HEADER + if duplicate then |p.node.items[p.slot].data| else 0;
      if Free(g, p.node.items) >= d { return; }
      // release the path and search again, splitting full nodes on the way
      ghost var was, at := p, [];
      p := Start(key);
      ret, at := DescendToLeaf(p, key);
      Found(p, s, key);
      SameLeaf(was, p, at, s, key);
      // it is the same leaf, so none of the checks for a change fires
      assert p.node == was.node;
      LeafFlatPath(p);
      RestIs(p);
      ret := SplitLeaf(p, key, d, true);
      LeafFlatPath(p);
      RestIs(p);
      KeptItem(p, key);
    }

    /** apfs_split_item: the contents stay sorted exactly if the new key is between the
        item's and the next one. */
    method SplitItem(key: Key, newKey: Key, at: nat) returns (ret: int)
      requires Valid() && SizesOk(g, Contents(), Split(key, newKey, at))
      modifies this
      ensures Shaped() && Contents() == Applied(g, old(Contents()), Split(key, newKey, at))
      ensures Valid() <==> Keeps(g, old(Contents()), Split(key, newKey, at))
      ensures match Get(g.order, old(Contents()), key)
              case None => ret == 1
              case Some(it) => ret == if ItemWeight(it) + ITEM_HEADER > g.leafCap then EOVERFLOW else 0
      ensures ret != 0 ==> Contents() == old(Contents())
      ensures ret == 0 ==>
                var s, t, it := old(Contents()), Contents(), Get(g.order, old(Contents()), key).value;
                && Get(g.order, t, key).Some? && Get(g.order, t, key).value.key == it.key
                && |Get(g.order, t, key).value.data| == at
                && (Cmp(g.order, key, newKey) < 0 ==>
                      && Get(g.order, t, newKey).Some? && Get(g.order, t, newKey).value.key == newKey
                      && Get(g.order, t, key).value.data + Get(g.order, t, newKey).value.data == it.data)
                && SameElsewhere(g.order, s, t, key, newKey) && (Valid() <==> Between(g.order, s, key, newKey))
    {
      hide SameElsewhere, Between;
      hide FramesOk, Before, After, Sorted, HasKey, Get, Cmp, AllBelow, AllAbove, Shape, Low;
      hide Flat, Replaced, Weight, StayHere;
      hide OnItem;
      ghost var s, o := Contents(), g.order;
      var p;
      ret, p := SetupLeafForSplit(key, false);
      if ret != 0 { return; }
      Found(p, s, key);
      OnItemOk(p, key);
      var it := p.node.items[p.slot];
      var news := [Item(it.key, it.data[..at]), Item(newKey, it.data[at..])];
      assert it.data[..at] + it.data[at..] == it.data;
      PathReadsTwo(p, s, key, news[0], news[1]);
      OnItemKey(p, key);
      StayTwo(o, s, key, news[0], news[1]);
      SameKey(o, it.key);
      Edited(p, s, key, news);
      WeightTwo(news[0], news[1]);
      EditItem(p, news);
      Store(p, 0);
    }

    /** apfs_duplicate_item, under the same condition. */
    method DuplicateItem(key: Key, newKey: Key) returns (ret: int)
      requires Valid()
      modifies this
      ensures Shaped() && Contents() == Applied(g, old(Contents()), Duplicate(key, newKey))
      ensures Valid() <==> Keeps(g, old(Contents()), Duplicate(key, newKey))
      ensures match Get(g.order, old(Contents()), key)
              case None => ret == 1
              case Some(it) => ret == if 2 * ItemWeight(it) > g.leafCap then EOVERFLOW else 0
      ensures ret != 0 ==> Contents() == old(Contents())
      ensures ret == 0 ==>
                var s, t, it := old(Contents()), Contents(), Get(g.order, old(Contents()), key).value;
                && Get(g.order, t, key) == Some(it)
                && (Cmp(g.order, key, newKey) < 0 ==> Get(g.order, t, newKey) == Some(Item(newKey, it.data)))
                && SameElsewhere(g.order, s, t, key, newKey) && (Valid() <==> Between(g.order, s, key, newKey))
    {
      hide SameElsewhere, Between;
      hide FramesOk, Before, After, Sorted, HasKey, Get, Cmp, AllBelow, AllAbove, Shape, Low;
      hide Flat, Replaced, Weight, StayHere;
      hide OnItem;
      ghost var s, o := Contents(), g.order;
      var p;
      ret, p := SetupLeafForSplit(key, true);
      if ret != 0 { return; }
      Found(p, s, key);
      OnItemOk(p, key);
      var it := p.node.items[p.slot];
      var news := [it, Item(newKey, it.data)];
      PathReadsTwo(p, s, key, news[0], news[1]);
      OnItemKey(p, key);
      StayTwo(o, s, key, news[0], news[1]);
      SameKey(o, it.key);
      Edited(p, s, key, news);
      WeightTwo(news[0], news[1]);
      EditItem(p, news);
      Store(p, 0);
    }

    /** apfs_search_slot without a change. */
    method Lookup(key: Key) returns (r: Option<Item>)
      requires Valid()
      ensures r == Get(g.order, Contents(), key)
      ensures match r
              case Some(it) => it in Contents() && SameParts(g.order, it.key, key)
              case None => forall it :: it in Contents() ==> !SameParts(g.order, it.key, key)
    {
      hide SameParts;
      GetParts(g.order, Contents(), key);
      hide Flat, Get, Cmp, Before, After, HasKey, FullSearch, Slots, PathIn, Shape;
      var ret, fs, leaf, slot := SearchSlot(g, root, key);
      GetHas(g.order, Flat(root), key);
      if ret != 0 { return None; }
      Walk.ItemPlace(g, root, fs, leaf, slot);
      OnlyOne(g.order, Flat(root), leaf.items[slot], Get(g.order, Flat(root), key).value, key);
      return Some(leaf.items[slot]);
    }

    /** Every run of insertions, deletions and edits, each made as its callers must make
        it, leaves the tree well formed, holding what the reference holds, and a walk
        lists exactly that. */
    method RunAll(ops: seq<Op>) returns (listing: seq<Item>)
      requires Valid()
      requires forall i :: 0 <= i < |ops| ==> Allowed(g, AppliedAll(g, Contents(), ops[..i]), ops[i])
      modifies this
      ensures Valid() && Contents() == AppliedAll(g, old(Contents()), ops)
      ensures listing == Contents()
    {
      hide Applied, Flat, Shape, Sorted, Allowed, Keeps, SizesOk;
      ghost var s := Contents();
      for i := 0 to |ops|
        invariant Valid() && Contents() == AppliedAll(g, s, ops[..i])
      {
        assert ops[..i+1][..i] == ops[..i];
        RunOne(ops[i]);
      }
      assert ops[..|ops|] == ops;
      listing := Walk.WalkAll(g, root);
    }

    method RunOne(op: Op)
      requires Valid() && Allowed(g, Contents(), op)
      modifies this
      ensures Valid() && Contents() == Applied(g, old(Contents()), op)
    {
      hide Applied, Flat, Shape, Sorted, Keeps, SizesOk, BelongHere, Get;
      var ret;
      match op {
        case Insert(key, data) => ret := InsertItem(key, data);
        case InsertMany(its) => ret := InsertItems(its);
        case Delete(key) => ret := DeleteItem(key);
        case Extend(key, bytes) => ret := ExtendItem(key, bytes);
        case Truncate(key, size, fromEnd, header) => ret := TruncateItem(key, size, fromEnd, header);
        case Split(key, newKey, at) => ret := SplitItem(key, newKey, at);
        case Duplicate(key, newKey) => ret := DuplicateItem(key, newKey);
      }
    }
  }
}
