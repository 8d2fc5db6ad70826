/** Editing the items of a tree in place: several items inserted at once, and one
    item grown, cut, split or duplicated.  What each does to the contents is a
    function of the contents, and each keeps them sorted exactly under a
    condition on the keys involved. */
module Edits {
  import opened Prelude
  import opened Keys
  import opened Trees
  import opened Search
  import opened Paths
  import opened LowKeys
  import opened Leaves
  import opened Insert

  // ---- Several items at once ----

  /** Items put in one place: before the first key that is not below the first of
      theirs. */
  function Placed(o: Order, s: seq<Item>, its: seq<Item>): seq<Item>
    requires its != []
  {
    var r := Rank(o, ItemKeys(s), its[0].key);
    if r <= |s| then s[..r] + its + s[r..] else s
  }

  /** The items are in order, and all of them belong before the next one stored. */
  ghost predicate BelongHere(o: Order, s: seq<Item>, its: seq<Item>)
    requires its != []
  {
    var r := Rank(o, ItemKeys(s), its[0].key);
    Sorted(o, its) && (r < |s| ==> Cmp(o, its[|its|-1].key, s[r].key) < 0)
  }

  lemma PlacedSplit(o: Order, l: seq<Item>, r: seq<Item>, its: seq<Item>)
    requires its != [] && AllBelow(o, l, its[0].key) && AllAbove(o, r, its[0].key)
    ensures Rank(o, ItemKeys(l + r), its[0].key) == |l| && Placed(o, l + r, its) == l + its + r
  {
    hide Cmp;
    var s := l + r;
    assert forall i :: 0 <= i < |l| ==> ItemKeys(s)[i] == l[i].key;
    assert r != [] ==> ItemKeys(s)[|l|] == r[0].key;
    RankUnique(o, ItemKeys(s), its[0].key, |l|);
    assert s[..|l|] == l && s[|l|..] == r;
  }

  lemma SortedJoin(o: Order, a: seq<Item>, b: seq<Item>)
    requires Sorted(o, a) && Sorted(o, b)
    requires a != [] && b != [] ==> Cmp(o, a[|a|-1].key, b[0].key) < 0
    ensures Sorted(o, a + b)
  {
    hide Cmp;
    var s := a + b;
    forall i, j | 0 <= i < j < |s| ensures Cmp(o, s[i].key, s[j].key) < 0 {
      if i < |a| <= j {
        var x, y, u, v := a[i].key, a[|a|-1].key, b[0].key, b[j - |a|].key;
        assert i == |a| - 1 || Cmp(o, x, y) < 0;
        assert j == |a| || Cmp(o, u, v) < 0;
        CmpOrder(o, x, y, u);
        CmpOrder(o, x, u, v);
      }
    }
  }

  /** A run put between smaller and larger items leaves everything sorted exactly if
      it is sorted itself and ends before the larger ones begin. */
  lemma SortedAround(o: Order, l: seq<Item>, m: seq<Item>, r: seq<Item>)
    requires m != [] && Sorted(o, l + r) && (l != [] ==> Cmp(o, l[|l|-1].key, m[0].key) < 0)
    ensures Sorted(o, l + m + r) <==> Sorted(o, m) && (r != [] ==> Cmp(o, m[|m|-1].key, r[0].key) < 0)
  {
    hide Cmp;
    var t := l + m + r;
    if Sorted(o, t) {
      SortedParts(o, l + m, r);
      SortedParts(o, l, m);
      assert r != [] ==> (l + m)[|l + m|-1] == m[|m|-1];
    }
    if Sorted(o, m) && (r != [] ==> Cmp(o, m[|m|-1].key, r[0].key) < 0) {
      SortedParts(o, l, r);
      SortedJoin(o, l, m);
      SortedJoin(o, l + m, r);
    }
  }

  lemma SortedWithoutOne(o: Order, l: seq<Item>, it: Item, r: seq<Item>)
    requires Sorted(o, l + [it] + r)
    ensures Sorted(o, l + r)
  {
    hide Cmp;
    var s, t := l + r, l + [it] + r;
    forall i, j | 0 <= i < j < |s| ensures Cmp(o, s[i].key, s[j].key) < 0 {
      assert s[i] == t[if i < |l| then i else i + 1] && s[j] == t[if j < |l| then j else j + 1];
    }
  }

  /** Items that belong in one place, inserted one by one. */
  function InsertedAll(o: Order, s: seq<Item>, its: seq<Item>): seq<Item> {
    if its == [] then s else Inserted(o, InsertedAll(o, s, its[..|its|-1]), its[|its|-1])
  }

  /** In a sorted run, what is before an item is below it and what is after it above. */
  lemma AroundOne(o: Order, l: seq<Item>, it: Item, r: seq<Item>)
    requires Sorted(o, l + [it] + r)
    ensures AllBelow(o, l, it.key) && AllAbove(o, r, it.key)
  {
    hide Cmp;
    var t := l + [it] + r;
    forall i | 0 <= i < |l| ensures Cmp(o, l[i].key, it.key) < 0 {
      assert t[i] == l[i] && t[|l|] == it;
    }
    forall i | 0 <= i < |r| ensures Cmp(o, r[i].key, it.key) > 0 {
      assert t[|l|] == it && t[|l| + 1 + i] == r[i];
      CmpOrder(o, it.key, r[i].key, it.key);
    }
  }

  lemma {:induction false} InsertedTogether(o: Order, l: seq<Item>, r: seq<Item>, its: seq<Item>)
    requires its != [] && Sorted(o, l + its + r)
    ensures InsertedAll(o, l + r, its) == l + its + r
    decreases |its|
  {
    hide Cmp, Sorted, AllBelow, AllAbove, Inserted;
    var n, last := |its| - 1, its[|its|-1];
    var front := its[..n];
    assert its == front + [last];
    Assoc(l, front, [last]);
    AroundOne(o, l + front, last, r);
    if front != [] {
      SortedWithoutOne(o, l + front, last, r);
      InsertedTogether(o, l, r, front);
    } else {
      assert l + front == l;
    }
    InsertedSplit(o, l + front, r, last);
  }

  // ---- One item replaced ----

  /** The first item with a key replaced by others. */
  function Replaced(o: Order, s: seq<Item>, key: Key, news: seq<Item>): seq<Item> {
    if s == [] then []
    else if Cmp(o, s[0].key, key) == 0 then news + s[1..]
    else [s[0]] + Replaced(o, s[1..], key, news)
  }

  lemma {:induction false} ReplacedSplit(o: Order, l: seq<Item>, it: Item, r: seq<Item>, key: Key, news: seq<Item>)
    requires AllBelow(o, l, key) && Cmp(o, it.key, key) == 0
    ensures Replaced(o, l + [it] + r, key, news) == l + news + r
  {
    hide Cmp;
    var s := l + [it] + r;
    if l == [] {
      assert s[0] == it && s[1..] == r;
      assert l + news + r == news + r;
    } else {
      ReplacedSplit(o, l[1..], it, r, key, news);
      assert s[0] == l[0] && s[1..] == l[1..] + [it] + r;
      assert [l[0]] + (l[1..] + news + r) == l + news + r;
    }
  }

  /** The key stored after the first item with a given key, if any. */
  function NextAfter(o: Order, s: seq<Item>, key: Key): Option<Key> {
    if s == [] then None
    else if Cmp(o, s[0].key, key) == 0 then if |s| > 1 then Some(s[1].key) else None
    else NextAfter(o, s[1..], key)
  }

  lemma {:induction false} NextSplit(o: Order, l: seq<Item>, it: Item, r: seq<Item>, key: Key)
    requires AllBelow(o, l, key) && Cmp(o, it.key, key) == 0
    ensures NextAfter(o, l + [it] + r, key) == if r == [] then None else Some(r[0].key)
  {
    hide Cmp;
    var s := l + [it] + r;
    if l == [] {
      assert s[0] == it && s[1..] == r;
    } else {
      NextSplit(o, l[1..], it, r, key);
      assert s[0] == l[0] && s[1..] == l[1..] + [it] + r;
    }
  }

  /** The new items are in order and end before the next key stored. */
  ghost predicate StayHere(o: Order, s: seq<Item>, key: Key, news: seq<Item>)
    requires news != []
  {
    Sorted(o, news) && (NextAfter(o, s, key).Some? ==> Cmp(o, news[|news|-1].key, NextAfter(o, s, key).value) < 0)
  }

  /** Replacing an item by ones that do not begin below it leaves the contents sorted
      exactly if the new items stay where the old one was. */
  lemma ReplacedSorted(o: Order, l: seq<Item>, it: Item, r: seq<Item>, key: Key, news: seq<Item>)
    requires Sorted(o, l + [it] + r) && AllBelow(o, l, key) && Cmp(o, it.key, key) == 0
    requires news != [] && Cmp(o, it.key, news[0].key) <= 0
    ensures Sorted(o, l + news + r) <==> StayHere(o, l + [it] + r, key, news)
  {
    hide Cmp;
    NextSplit(o, l, it, r, key);
    if l != [] {
      var x := l[|l|-1];
      SortedParts(o, l + [it], r);
      SortedParts(o, l, [it]);
      assert Cmp(o, x.key, [it][0].key) < 0;
      CmpOrder(o, x.key, it.key, news[0].key);
    }
    SortedWithoutOne(o, l, it, r);
    SortedAround(o, l, news, r);
  }

  lemma WeightFirst(items: seq<Item>)
    requires items != []
    ensures Weight(items) == ItemWeight(items[0]) + Weight(items[1..])
  {
  }

  lemma WithNews(g: Geometry, items: seq<Item>, slot: nat, news: seq<Item>)
    requires slot < |items| && news != []
    requires Weight(items) - ItemWeight(items[slot]) + Weight(news) <= g.leafCap
    ensures var s := items[..slot] + news + items[slot+1..];
            && s != [] && Shape(g, Leaf(s), 0) && s[0] == if slot == 0 then news[0] else items[0]
  {
    hide Weight, ItemWeight;
    WeightConcat(items[..slot] + news, items[slot+1..]);
    WeightConcat(items[..slot], news);
    WeightSplit(items, slot);
    WeightFirst(items[slot..]);
    assert items[slot..][1..] == items[slot+1..];
  }

  /** The item at the path is replaced; the keys above follow if it was the first of
      its leaf and its key has changed. */
  method EditItem(p: Path, news: seq<Item>)
    requires LeafOk(p) && p.slot < |p.node.items| && news != []
    requires Weight(p.node.items) - ItemWeight(p.node.items[p.slot]) + Weight(news) <= p.g.leafCap
    modifies p
    ensures p.Ok(0) && PathFlat(p) == old(LeafLeft(p)) + news + old(LeafRest(p))
  {
    hide FramesOk, FlatPtrs, Before, After, PtrsOk, Weight, ItemWeight;
    ghost var fs, items, slot := p.fs, p.node.items, p.slot;
    if p.slot == 0 && news[0].key != p.node.items[0].key {
      FixPath(p, news[0].key);
      FixupLowKeys(p, news[0].key);
    }
    WithNews(p.g, items, slot, news);
    p.node := Leaf(p.node.items[..p.slot] + news + p.node.items[p.slot+1..]);
    Trees.Regroup(Before(fs), items[..slot], news, items[slot+1..], After(fs));
  }

  /** Raising the offset of a key never lowers the key. */
  lemma OffsetRaised(o: Order, k: Key, d: nat)
    ensures Cmp(o, k, k.(offset := k.offset + d)) <= 0
  {
    CmpOrder(o, k, k, k);
  }
}
