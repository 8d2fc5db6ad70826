/** The object-map lookup: the newest mapping of an object that is not newer
    than a given transaction. */
module Omap {
  import opened Prelude
  import opened Keys
  import opened Trees
  import opened Search

  const U64_MAX := 0xFFFF_FFFF_FFFF_FFFF
  const U8_MAX := 0xFF

  /** A non-empty object map: every key has type 0 and holds (oid, xid). */
  ghost predicate OmapOk(g: Geometry, t: Tree) {
    && TreeOk(g, t) && g.order == Normal && Flat(t) != []
    && forall i :: 0 <= i < |Flat(t)| ==> Flat(t)[i].key.kind == 0
  }

  /** A mapping of `oid` that transaction `xid` may see. */
  predicate Visible(it: Item, oid: nat, xid: nat) {
    it.key.id == oid && it.key.offset <= xid
  }

  /** The visible mapping with the largest xid. */
  ghost predicate Newest(s: seq<Item>, it: Item, oid: nat, xid: nat) {
    && it in s && Visible(it, oid, xid)
    && forall other :: other in s && Visible(other, oid, xid) ==> other.key.offset <= it.key.offset
  }

  /** What the "Object Maps" chapter of the Apple File System Reference asks of
      a lookup. */
  ghost predicate Correct(s: seq<Item>, oid: nat, xid: nat, ret: int, it: Item) {
    if exists i :: 0 <= i < |s| && Visible(s[i], oid, xid)
    then ret == 0 && Newest(s, it, oid, xid)
    else ret == ENOENT
  }

  /** The maps on which the step back leaves the map at its front and comes in
      again at its end: the first key has xid 0 and a larger oid. */
  ghost predicate Wraps(s: seq<Item>, oid: nat)
    requires s != []
  {
    s[0].key.offset == 0 && oid < s[0].key.id
  }

  function SearchKey(id: nat, kind: nat, offset: nat): Key {
    Key(id, kind, offset, 0, Null)
  }

  predicate IsZero(k: Key) { k.id == 0 && k.kind == 0 && k.offset == 0 }

  /** The key apfs_prev_leaf searches for, given the first key of a leaf. */
  function KeyBefore(k: Key): Key
    requires !IsZero(k)
  {
    if k.offset > 0 then SearchKey(k.id, k.kind, k.offset - 1)
    else if k.kind > 0 then SearchKey(k.id, k.kind - 1, U64_MAX)
    else SearchKey(k.id - 1, U8_MAX, U64_MAX)
  }

  /** Where a search for `k` ends in a non-empty map. */
  ghost predicate Landed(g: Geometry, root: Tree, k: Key, fs: seq<Frame>, leaf: Tree, slot: nat) {
    && PathIn(g, root, fs, leaf) && leaf.items != [] && slot <= |leaf.items|
    && Separates(Normal, Flat(root), k, |Before(fs)| + slot, HasKey(Normal, Flat(root), k))
    && (HasKey(Normal, Flat(root), k) ==> slot < |leaf.items|)
  }

  /** apfs_prev_leaf for object-map keys, which have two members. */
  method PrevLeaf(g: Geometry, root: Tree, leaf0: Tree)
    returns (ret: int, fs: seq<Frame>, leaf: Tree, slot: nat)
    requires OmapOk(g, root) && leaf0.Leaf? && leaf0.items != []
    ensures IsZero(leaf0.items[0].key) ==> ret == 1
    ensures !IsZero(leaf0.items[0].key) ==>
              var k := KeyBefore(leaf0.items[0].key);
              && Landed(g, root, k, fs, leaf, slot)
              && ret == if Cmp(Normal, leaf.items[0].key, k) <= 0 then 0 else 1
  {
    hide TreeOk, Separates, HasKey, Before, Whole, Cmp, FramesOk, Shape, FullSearch, Flat;
    var key := leaf0.items[0].key;
    if key.offset == 0 && key.kind == 0 && key.id == 0 {
      return 1, [], Leaf([]), 0;
    }
    ret, fs, leaf, slot := SearchSlot(g, root, KeyBefore(key));
    NonEmptyLeaf(g, root, fs, leaf);
    ret := if Cmp(g.order, leaf.items[0].key, KeyBefore(key)) <= 0 then 0 else 1;
  }

  lemma NonEmptyLeaf(g: Geometry, root: Tree, fs: seq<Frame>, leaf: Tree)
    requires PathIn(g, root, fs, leaf) && Flat(root) != []
    ensures leaf.Leaf? && leaf.items != []
    ensures Flat(root) == Before(fs) + leaf.items + After(fs)
  {
    FlatWhole(fs, leaf);
  }

  /** Nothing in the map sorts before its first item. */
  lemma FirstIsLeast(g: Geometry, root: Tree, k: Key, pos: nat, found: bool)
    requires OmapOk(g, root) && Separates(Normal, Flat(root), k, pos, found)
    requires Cmp(Normal, k, Flat(root)[0].key) < 0
    ensures pos == 0 && !found
  {
    var s := Flat(root);
    CmpOrder(Normal, k, s[0].key, k);
  }

  /** Every object-map key sorts before a key of a later type. */
  lemma LaterTypeIsLast(g: Geometry, root: Tree, k: Key, pos: nat, found: bool)
    requires OmapOk(g, root) && Separates(Normal, Flat(root), k, pos, found) && k.kind > 0
    ensures pos == |Flat(root)| && !found
  {
    var s := Flat(root);
    assert forall i :: 0 <= i < |s| ==> s[i].key.kind == 0 && Cmp(Normal, s[i].key, k) < 0;
    var i := if pos < |s| then pos else 0;
    assert Cmp(Normal, s[i].key, k) < 0;
  }

  /** apfs_previous_item followed by the ENOENT mapping of apfs_find_omap_paddr:
      one step back, into the previous leaf if need be, looking for an item of
      type 0 of an object not below `oid`. */
  method StepBack(g: Geometry, root: Tree, fs0: seq<Frame>, leaf0: Tree, slot0: nat, ghost key: Key, oid: nat)
    returns (ret: int, it: Item)
    requires OmapOk(g, root) && PathIn(g, root, fs0, leaf0) && slot0 <= |leaf0.items|
    requires Separates(Normal, Flat(root), key, |Before(fs0)| + slot0, false)
    requires slot0 == 0 ==> Before(fs0) == []
    requires key == SearchKey(oid, 0, key.offset)
    ensures var s := Flat(root);
            var pos := |Before(fs0)| + slot0;
            if pos > 0 then
              if s[pos-1].key.id < oid then ret == 1 else ret == 0 && it == s[pos-1]
            else if Wraps(s, oid) then ret == 0 && it == s[|s|-1]
            else ret == 1
  {
    hide PathIn, Separates, Before, Whole, Flat, HasKey, Sorted, Shape, Cmp;
    NonEmptyLeaf(g, root, fs0, leaf0);
    var fs, leaf, slot := fs0, leaf0, slot0;
    it := leaf0.items[0];
    ghost var s, pos := Flat(root), |Before(fs0)| + slot0;
    if slot == 0 {
      FrontItem(g, root, fs0, leaf0, key);
      ret, fs, leaf, slot := PrevLeaf(g, root, leaf0);
      FrontCases(g, root, leaf0.items[0].key, key, fs, leaf, slot, ret);
      WrapLast(s, oid);
      if ret != 0 { return 1, it; }
    } else {
      slot := slot - 1;
    }
    NonEmptyLeaf(g, root, fs, leaf);
    if slot == |leaf.items| { slot := slot - 1; }
    it := leaf.items[slot];
    assert it.key.kind == 0 by { ItemAt(g, root, fs, leaf, slot); }
    ItemAt(g, root, fs, leaf, slot);
    if it.key.id < oid { return 1, it; }
    return 0, it;
  }

  lemma WrapLast(s: seq<Item>, oid: nat)
    requires s != [] && Sorted(Normal, s) && forall i :: 0 <= i < |s| ==> s[i].key.kind == 0
    ensures Wraps(s, oid) ==> s[|s|-1].key.id > oid
  {
    if |s| > 1 { assert Cmp(Normal, s[0].key, s[|s|-1].key) < 0; }
  }

  lemma FrontItem(g: Geometry, root: Tree, fs: seq<Frame>, leaf: Tree, key: Key)
    requires OmapOk(g, root) && PathIn(g, root, fs, leaf) && Before(fs) == []
    requires Separates(Normal, Flat(root), key, 0, false)
    ensures leaf.items != [] && leaf.items[0] == Flat(root)[0] && Cmp(Normal, key, Flat(root)[0].key) < 0
  {
    NonEmptyLeaf(g, root, fs, leaf);
    CmpOrder(Normal, key, Flat(root)[0].key, key);
  }

  lemma ItemAt(g: Geometry, root: Tree, fs: seq<Frame>, leaf: Tree, slot: nat)
    requires OmapOk(g, root) && PathIn(g, root, fs, leaf) && slot < |leaf.items|
    ensures |Before(fs)| + slot < |Flat(root)| && leaf.items[slot] == Flat(root)[|Before(fs)| + slot]
    ensures leaf.items[slot].key.kind == 0
  {
    FlatWhole(fs, leaf);
    assert leaf.items[slot] == Flat(root)[|Before(fs)| + slot];
  }

  /** Stepping back from the front of the map: nothing there, unless the first
      xid is 0, when the search for "the key before" ends at the last item. */
  lemma FrontCases(g: Geometry, root: Tree, first: Key, key: Key, fs: seq<Frame>, leaf: Tree, slot: nat, ret: int)
    requires OmapOk(g, root) && first == Flat(root)[0].key && key.kind == 0 && Cmp(Normal, key, first) < 0
    requires !IsZero(first) ==>
               && Landed(g, root, KeyBefore(first), fs, leaf, slot)
               && ret == if Cmp(Normal, leaf.items[0].key, KeyBefore(first)) <= 0 then 0 else 1
    ensures Landed(g, root, KeyBefore(first), fs, leaf, slot)
    ensures ret == if Wraps(Flat(root), key.id) then 0 else 1
    ensures Wraps(Flat(root), key.id) ==> slot == |leaf.items| && |Before(fs)| + slot == |Flat(root)|
  {
    hide TreeOk, PathIn, Separates, HasKey;
    var s := Flat(root);
    assert s[0].key.kind == 0;
    var k, found := KeyBefore(first), HasKey(Normal, s, KeyBefore(first));
    NonEmptyLeaf(g, root, fs, leaf);
    if first.offset > 0 {
      FirstIsLeast(g, root, k, |Before(fs)| + slot, found);
      assert s[0] == leaf.items[0];
    } else {
      LaterTypeIsLast(g, root, k, |Before(fs)| + slot, found);
      ItemAt(g, root, fs, leaf, 0);
      assert Cmp(Normal, leaf.items[0].key, k) < 0;
    }
  }

  lemma FoundIsNewest(s: seq<Item>, oid: nat, xid: nat, pos: nat)
    requires Sorted(Normal, s) && forall i :: 0 <= i < |s| ==> s[i].key.kind == 0
    requires Separates(Normal, s, SearchKey(oid, 0, xid), pos, true)
    ensures Correct(s, oid, xid, 0, s[pos])
  {
    assert Visible(s[pos], oid, xid);
  }

  lemma StepBackCorrect(s: seq<Item>, oid: nat, xid: nat, pos: nat, ret: int, it: Item)
    requires s != [] && Sorted(Normal, s) && forall i :: 0 <= i < |s| ==> s[i].key.kind == 0
    requires Separates(Normal, s, SearchKey(oid, 0, xid), pos, false)
    requires if pos > 0 then
               if s[pos-1].key.id < oid then ret == 1 else ret == 0 && it == s[pos-1]
             else if Wraps(s, oid) then ret == 0 && it == s[|s|-1]
             else ret == 1
    ensures Correct(s, oid, xid, if ret > 0 then ENOENT else ret, it) <==> !Wraps(s, oid)
  {
    forall i | 0 <= i < |s| && Visible(s[i], oid, xid) ensures i < pos && s[pos-1].key.id == oid {
      if i < pos - 1 { assert Cmp(Normal, s[i].key, s[pos-1].key) < 0; }
    }
    if pos > 0 {
      assert Cmp(Normal, s[pos-1].key, SearchKey(oid, 0, xid)) < 0;
      if s[pos-1].key.id == oid { assert Visible(s[pos-1], oid, xid); }
      assert Cmp(Normal, s[0].key, SearchKey(oid, 0, xid)) < 0;
      forall other | other in s && Visible(other, oid, xid) ensures other.key.offset <= s[pos-1].key.offset {
        var i :| 0 <= i < |s| && s[i] == other;
        if i < pos - 1 { assert Cmp(Normal, s[i].key, s[pos-1].key) < 0; }
      }
    }
  }

  /** apfs_find_omap_paddr: returns the mapping found.  It is right on exactly
      the maps and objects that do not wrap; a map whose xids are all at least
      1 never does. */
  method FindOmapPaddr(g: Geometry, root: Tree, oid: nat, xid: nat) returns (ret: int, it: Item)
    requires OmapOk(g, root)
    ensures Correct(Flat(root), oid, xid, ret, it) <==> !Wraps(Flat(root), oid)
    ensures Wraps(Flat(root), oid) ==> ret == 0 && it == Flat(root)[|Flat(root)|-1] && it.key.id != oid
  {
    hide PathIn, Separates, Before, After, Flat, HasKey, Correct, FullSearch, Sorted, Shape, Cmp;
    var key := SearchKey(oid, 0, xid);
    var fs, leaf, slot;
    ret, fs, leaf, slot := SearchSlot(g, root, key);
    NonEmptyLeaf(g, root, fs, leaf);
    if ret == 0 {
      FoundIsNewest(Flat(root), oid, xid, |Before(fs)| + slot);
      ItemAt(g, root, fs, leaf, slot);
      FoundNeverWraps(Flat(root), oid, xid, |Before(fs)| + slot);
      return 0, leaf.items[slot];
    }
    ret, it := StepBack(g, root, fs, leaf, slot, key, oid);
    StepBackCorrect(Flat(root), oid, xid, |Before(fs)| + slot, ret, it);
    WrapsPastEnd(Flat(root), oid, xid, |Before(fs)| + slot);
    if ret > 0 { ret := ENOENT; }
  }

  lemma FoundNeverWraps(s: seq<Item>, oid: nat, xid: nat, pos: nat)
    requires Sorted(Normal, s) && forall i :: 0 <= i < |s| ==> s[i].key.kind == 0
    requires Separates(Normal, s, SearchKey(oid, 0, xid), pos, true)
    ensures !Wraps(s, oid)
  {
    if pos > 0 { assert Cmp(Normal, s[0].key, s[pos].key) < 0; }
  }

  lemma WrapsPastEnd(s: seq<Item>, oid: nat, xid: nat, pos: nat)
    requires s != [] && Sorted(Normal, s) && forall i :: 0 <= i < |s| ==> s[i].key.kind == 0
    requires Separates(Normal, s, SearchKey(oid, 0, xid), pos, false)
    ensures Wraps(s, oid) ==> pos == 0 && s[|s|-1].key.id > oid
  {
    if pos > 0 { assert Cmp(Normal, s[0].key, SearchKey(oid, 0, xid)) < 0; }
    WrapLast(s, oid);
  }

  /** A map with one mapping, of object 5 at xid 0, asked for object 3. */
  lemma WrapExample()
    ensures var s := [Item(SearchKey(5, 0, 0), [])];
            && OmapOk(Geometry(Normal, 10, 100), Leaf(s)) && Flat(Leaf(s)) == s
            && Wraps(s, 3) && !Correct(s, 3, 7, 0, s[|s|-1]) && Correct(s, 3, 7, ENOENT, s[0])
  {
    var s := [Item(SearchKey(5, 0, 0), [])];
    assert !Visible(s[0], 3, 7);
  }
}
