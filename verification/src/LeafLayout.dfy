/** The bytes of a leaf: item headers in order from the front, item data packed
    against the end, last item lowest.  Every edit moves blocks of bytes and patches
    offsets; what it does to the items is stated and proved here. */
module LeafLayout {
  import opened Keys
  import opened Trees

  datatype Head = Head(key: Key, offset: nat, size: nat)

  /** The data area of a run of items, lowest address first. */
  function Area(items: seq<Item>): seq<nat> {
    if items == [] then [] else Area(items[1..]) + items[0].data
  }

  /** Where headers must point when the run ends at `end`. */
  function HeadsOf(items: seq<Item>, end: int): seq<Head>
    requires |Area(items)| <= end
  {
    if items == [] then []
    else
      var lo := end - |items[0].data|;
      [Head(items[0].key, lo, |items[0].data|)] + HeadsOf(items[1..], lo)
  }

  lemma {:induction false} AreaConcat(a: seq<Item>, b: seq<Item>)
    ensures Area(a + b) == Area(b) + Area(a)
  {
    if a == [] {
      assert a + b == b;
    } else {
      AreaConcat(a[1..], b);
      AreaStep(a + b);
      assert (a + b)[0] == a[0] && (a + b)[1..] == a[1..] + b;
      Assoc(Area(b), Area(a[1..]), a[0].data);
    }
  }

  lemma AreaStep(items: seq<Item>)
    requires items != []
    ensures Area(items) == Area(items[1..]) + items[0].data
  {
  }

  lemma AreaOne(it: Item)
    ensures Area([it]) == it.data
  {
    assert [it][1..] == [];
  }

  lemma {:induction false} HeadsConcat(a: seq<Item>, b: seq<Item>, end: int)
    requires |Area(a)| + |Area(b)| <= end
    ensures |Area(a + b)| == |Area(a)| + |Area(b)|
    ensures HeadsOf(a + b, end) == HeadsOf(a, end) + HeadsOf(b, end - |Area(a)|)
  {
    hide Area, HeadsOf;
    AreaConcat(a, b);
    if a == [] {
      assert a + b == b;
      NoHeads(end);
    } else {
      var lo := end - |a[0].data|;
      AreaStep(a);
      HeadsConcat(a[1..], b, lo);
      HeadsStep(a, end);
      HeadsStep(a + b, end);
      assert (a + b)[0] == a[0] && (a + b)[1..] == a[1..] + b;
      Assoc([Head(a[0].key, lo, |a[0].data|)], HeadsOf(a[1..], lo), HeadsOf(b, end - |Area(a)|));
    }
  }

  lemma HeadsStep(items: seq<Item>, end: int)
    requires items != [] && |Area(items)| <= end
    ensures |Area(items[1..])| <= end - |items[0].data|
    ensures HeadsOf(items, end) == [Head(items[0].key, end - |items[0].data|, |items[0].data|)]
                                   + HeadsOf(items[1..], end - |items[0].data|)
  {
  }

  lemma NoHeads(end: int)
    requires end >= 0
    ensures Area([]) == [] && HeadsOf([], end) == []
  {
  }

  lemma HeadsOne(it: Item, end: int)
    requires |it.data| <= end
    ensures |Area([it])| == |it.data| && HeadsOf([it], end) == [Head(it.key, end - |it.data|, |it.data|)]
  {
    assert [it][1..] == [];
  }

  lemma {:induction false} HeadsCount(items: seq<Item>, end: int)
    requires |Area(items)| <= end
    ensures |HeadsOf(items, end)| == |items|
  {
    if items != [] { HeadsCount(items[1..], end - |items[0].data|); }
  }

  /** Offsets moved by `d`. */
  ghost predicate Shifted(hs: seq<Head>, hs': seq<Head>, d: int) {
    |hs| == |hs'| && forall i :: 0 <= i < |hs| ==>
      hs'[i].key == hs[i].key && hs'[i].size == hs[i].size && hs'[i].offset == hs[i].offset + d
  }

  /** What the k-th header says. */
  lemma {:induction false} HeadAt(items: seq<Item>, end: int, k: nat)
    requires |Area(items)| <= end && k < |items|
    ensures |HeadsOf(items, end)| == |items| && |Area(items[..k+1])| <= |Area(items)|
    ensures HeadsOf(items, end)[k] == Head(items[k].key, end - |Area(items[..k+1])|, |items[k].data|)
  {
    HeadsCount(items, end);
    AreaStep(items[..k+1]);
    assert items[..k+1][1..] == items[1..][..k] && items[..k+1][0] == items[0];
    if k > 0 {
      HeadAt(items[1..], end - |items[0].data|, k - 1);
    } else {
      NoArea();
    }
  }

  lemma NoArea()
    ensures Area([]) == []
  {
  }

  lemma HeadsShifted(items: seq<Item>, end: int, end': int, hs: seq<Head>)
    requires |Area(items)| <= end && |Area(items)| <= end' && Shifted(HeadsOf(items, end), hs, end' - end)
    ensures hs == HeadsOf(items, end')
  {
    hide Area, HeadsOf, HeaderSpace;
    HeadsCount(items, end);
    HeadsCount(items, end');
    forall k | 0 <= k < |items| ensures hs[k] == HeadsOf(items, end')[k] {
      HeadAt(items, end, k);
      HeadAt(items, end', k);
    }
  }

  /** Bytes taken by n item headers. */
  function HeaderSpace(n: nat): nat { ITEM_HEADER * n }

  /** What leaf_space_used sums is what items occupy: their data and their headers. */
  lemma {:induction false} WeightIsSpace(items: seq<Item>)
    ensures Weight(items) == |Area(items)| + HeaderSpace(|items|)
  {
    if items != [] { WeightIsSpace(items[1..]); }
  }

  /** Headers `hs` and data area `d` of a leaf hold `items`. */
  ghost predicate Rep(hs: seq<Head>, d: seq<nat>, items: seq<Item>) {
    && |Area(items)| + HeaderSpace(|items|) <= |d|
    && hs == HeadsOf(items, |d|) && d[|d| - |Area(items)|..] == Area(items)
  }

  lemma AreaAround(items: seq<Item>, k: nat)
    requires k < |items|
    ensures Area(items) == Area(items[k+1..]) + items[k].data + Area(items[..k])
    ensures |Area(items[..k+1])| == |items[k].data| + |Area(items[..k])|
  {
    hide Area;
    AreaConcat(items[..k+1], items[k+1..]);
    AreaConcat(items[..k], [items[k]]);
    AreaOne(items[k]);
    assert items == items[..k+1] + items[k+1..] && items[..k+1] == items[..k] + [items[k]];
  }

  /** The data of each item is where its header says, and items lie next to each other
      from the end of the leaf down: no gap, no overlap. */
  lemma ReadBack(hs: seq<Head>, d: seq<nat>, items: seq<Item>, k: nat)
    requires Rep(hs, d, items) && k < |items|
    ensures |hs| == |items| && hs[k].key == items[k].key
    ensures hs[k].offset + hs[k].size == (if k == 0 then |d| else hs[k-1].offset) <= |d|
    ensures d[hs[k].offset..hs[k].offset + hs[k].size] == items[k].data
  {
    hide Area, HeadsOf, HeaderSpace;
    HeadAt(items, |d|, k);
    AreaAround(items, k);
    if k > 0 { HeadAt(items, |d|, k - 1); } else { NoArea(); }
    var lo, n := |d| - |Area(items)|, |Area(items[k+1..])|;
    assert d[lo..][n..n + |items[k].data|] == items[k].data;
  }

  // ---- Moving bytes ----

  /** Bytes written into a buffer. */
  function Wrote(d: seq<nat>, at: nat, w: seq<nat>): (t: seq<nat>)
    requires at + |w| <= |d|
    ensures |t| == |d|
  {
    d[..at] + w + d[at + |w|..]
  }

  /** memmove within a buffer. */
  function Moved(d: seq<nat>, dst: nat, src: nat, n: nat): seq<nat>
    requires dst + n <= |d| && src + n <= |d|
  {
    Wrote(d, dst, d[src..src + n])
  }

  lemma SubSlice<T>(d: seq<T>, i: nat, j: nat, p: nat, q: nat)
    requires i <= j <= |d| && p <= q <= j - i
    ensures d[i..j][p..q] == d[i + p..i + q]
  {
    var e := d[i..j];
    forall t | 0 <= t < q - p ensures e[p..q][t] == d[i + p..i + q][t] {
      assert e[p..q][t] == e[p + t] == d[i + p + t];
    }
  }

  /** Bytes written at a place, and those around it. */
  lemma Written(d: seq<nat>, at: nat, w: seq<nat>, x: nat, y: nat)
    requires at + |w| <= |d| && x <= y <= |d|
    ensures var t := Wrote(d, at, w); t[at..at + |w|] == w && (y <= at || at + |w| <= x ==> t[x..y] == d[x..y])
  {
    var t, n := Wrote(d, at, w), |w|;
    assert forall i :: 0 <= i < |d| ==> t[i] == if i < at then d[i] else if i < at + n then w[i - at] else d[i];
  }

  /** Bytes inside the block moved, and above the place it moved to. */
  lemma MovedAt(d: seq<nat>, dst: nat, src: nat, n: nat, x: nat, y: nat)
    requires dst + n <= |d| && src + n <= |d| && src <= x <= y <= src + n
    ensures |Moved(d, dst, src, n)| == |d| && Moved(d, dst, src, n)[dst + (x - src)..dst + (y - src)] == d[x..y]
  {
    hide Wrote;
    var block := d[src..src + n];
    Written(d, dst, block, 0, 0);
    SubSlice(Moved(d, dst, src, n), dst, dst + n, x - src, y - src);
    SubSlice(d, src, src + n, x - src, y - src);
  }

  lemma MovedBelow(d: seq<nat>, dst: nat, src: nat, n: nat, x: nat, y: nat)
    requires x <= y <= dst && dst + n <= |d| && src + n <= |d|
    ensures |Moved(d, dst, src, n)| == |d| && Moved(d, dst, src, n)[x..y] == d[x..y]
  {
    Written(d, dst, d[src..src + n], x, y);
  }

  lemma MovedAbove(d: seq<nat>, dst: nat, src: nat, n: nat, x: nat, y: nat)
    requires dst + n <= x <= y <= |d| && src + n <= |d|
    ensures |Moved(d, dst, src, n)| == |d| && Moved(d, dst, src, n)[x..y] == d[x..y]
  {
    Written(d, dst, d[src..src + n], x, y);
  }

  method Memmove(a: array<nat>, dst: nat, src: nat, n: nat)
    requires dst + n <= a.Length && src + n <= a.Length
    modifies a
    ensures a[..] == Moved(old(a[..]), dst, src, n)
  {
    var buf := a[src..src + n];
    CopyIn(a, dst, buf);
  }

  /** write_extent_buffer. */
  method CopyIn(a: array<nat>, dst: nat, buf: seq<nat>)
    requires dst + |buf| <= a.Length
    modifies a
    ensures a[..] == Wrote(old(a[..]), dst, buf)
  {
    ghost var was := a[..];
    for i := 0 to |buf|
      invariant a[..] == was[..dst] + buf[..i] + was[dst + i..]
    {
      a[dst + i] := buf[i];
    }
    assert buf[..|buf|] == buf;
  }

  // ---- Edits, on values ----

  /** Exactly the data of `items` lies from `lo` up to `end`. */
  ghost predicate Run(d: seq<nat>, lo: nat, end: nat, items: seq<Item>) {
    lo <= end <= |d| && |Area(items)| == end - lo && d[lo..end] == Area(items)
  }

  /** The converse: two runs next to each other ... */
  lemma Join(d: seq<nat>, lo: nat, mid: nat, end: nat, l: seq<Item>, r: seq<Item>)
    requires Run(d, mid, end, l) && Run(d, lo, mid, r)
    ensures Run(d, lo, end, l + r) && HeadsOf(l + r, end) == HeadsOf(l, end) + HeadsOf(r, mid)
  {
    hide Area, HeadsOf;
    HeadsConcat(l, r, end);
    AreaConcat(l, r);
    assert d[lo..end] == d[lo..mid] + d[mid..end];
  }

  /** ... and three that end where the leaf does. */
  lemma Build(hs: seq<Head>, d: seq<nat>, l: seq<Item>, m: seq<Item>, r: seq<Item>, a: nat, b: nat, c: nat)
    requires Run(d, a, |d|, l) && Run(d, b, a, m) && Run(d, c, b, r) && HeaderSpace(|l + m + r|) <= c
    requires hs == HeadsOf(l, |d|) + HeadsOf(m, a) + HeadsOf(r, b)
    ensures Rep(hs, d, l + m + r)
  {
    hide Area, HeadsOf, HeaderSpace;
    Join(d, b, a, |d|, l, m);
    Join(d, c, b, |d|, l + m, r);
    assert d[c..|d|] == d[c..];
  }

  /** A leaf taken apart around a slot: the items before it end the leaf, the others
      lie below them. */
  lemma Parts(hs: seq<Head>, d: seq<nat>, items: seq<Item>, slot: nat, a: nat, c: nat)
    requires Rep(hs, d, items) && slot <= |items|
    requires a == |d| - |Area(items[..slot])| && c == |d| - |Area(items)|
    ensures |hs| == |items| && c <= a && Run(d, a, |d|, items[..slot]) && Run(d, c, a, items[slot..])
    ensures hs[..slot] == HeadsOf(items[..slot], |d|) && hs[slot..] == HeadsOf(items[slot..], a)
    ensures HeaderSpace(|items|) <= c
  {
    hide Area, HeadsOf, HeaderSpace;
    var l, r := items[..slot], items[slot..];
    assert items == l + r;
    AreaConcat(l, r);
    HeadsConcat(l, r, |d|);
    HeadsCount(l, |d|);
    HeadsCount(r, |d| - |Area(l)|);
    HeadsCount(items, |d|);
    assert d[c..][..|Area(r)|] == Area(r) && d[c..][|Area(r)|..] == Area(l);
    assert d[c..a] == Area(r) && d[a..|d|] == Area(l);
  }

  lemma AreaPrefix(items: seq<Item>, slot: nat)
    requires slot <= |items|
    ensures |Area(items[..slot])| <= |Area(items)|
  {
    hide Area;
    AreaConcat(items[..slot], items[slot..]);
    assert items == items[..slot] + items[slot..];
  }

  /** A block slides by `k`, down or up; what lies above it is untouched. */
  lemma Slide(d: seq<nat>, lo: nat, end: nat, lo': nat, items: seq<Item>)
    requires Run(d, lo, end, items) && lo' + (end - lo) <= |d|
    ensures Run(Moved(d, lo', lo, end - lo), lo', lo' + (end - lo), items)
  {
    hide Area, Moved;
    MovedAt(d, lo', lo, end - lo, lo, end);
  }

  lemma Above(d: seq<nat>, dst: nat, src: nat, n: nat, lo: nat, end: nat, items: seq<Item>)
    requires dst + n <= |d| && src + n <= |d| && dst + n <= lo && Run(d, lo, end, items)
    ensures Run(Moved(d, dst, src, n), lo, end, items)
  {
    hide Area, Moved;
    MovedAbove(d, dst, src, n, lo, end);
  }

  lemma RunSplit(d: seq<nat>, lo: nat, end: nat, l: seq<Item>, r: seq<Item>, mid: nat)
    requires Run(d, lo, end, l + r) && mid == end - |Area(l)|
    ensures lo <= mid && Run(d, mid, end, l) && Run(d, lo, mid, r)
    ensures HeadsOf(l + r, end) == HeadsOf(l, end) + HeadsOf(r, mid)
  {
    hide Area, HeadsOf;
    AreaConcat(l, r);
    HeadsConcat(l, r, end);
    assert d[lo..end][..|Area(r)|] == Area(r) && d[lo..end][|Area(r)|..] == Area(l);
    assert d[lo..mid] == Area(r) && d[mid..end] == Area(l);
  }

  lemma RunOne(d: seq<nat>, lo: nat, end: nat, it: Item)
    ensures Run(d, lo, end, [it]) <==> lo <= end <= |d| && |it.data| == end - lo && d[lo..end] == it.data
  {
    AreaOne(it);
  }

  lemma RunNone(d: seq<nat>, x: nat)
    requires x <= |d|
    ensures Run(d, x, x, []) && HeadsOf([], x) == []
  {
    NoArea();
  }

  function SizeSum(hs: seq<Head>): nat {
    if hs == [] then 0 else SizeSum(hs[..|hs|-1]) + hs[|hs|-1].size
  }

  lemma {:induction false} SizeSumIs(items: seq<Item>, end: int)
    requires |Area(items)| <= end
    ensures SizeSum(HeadsOf(items, end)) == |Area(items)|
  {
    hide Area, HeadsOf;
    var n := |items|;
    HeadsCount(items, end);
    if n == 0 {
      NoArea();
    } else {
      HeadAt(items, end, n - 1);
      AreaAround(items, n - 1);
      NoArea();
      assert items[..n] == items && items[n..] == [];
      var front, last := items[..n-1], items[n-1];
      AreaOne(last);
      HeadsConcat(front, [last], end);
      HeadsCount(front, end);
      HeadsOne(last, end - |Area(front)|);
      assert items == front + [last];
      assert HeadsOf(items, end)[..n-1] == HeadsOf(front, end);
      SizeSumIs(front, end);
    }
  }

  /** A leaf taken apart at two slots. */
  lemma Three(hs: seq<Head>, d: seq<nat>, items: seq<Item>, i: nat, j: nat) returns (a: nat, b: nat, c: nat)
    requires Rep(hs, d, items) && i <= j <= |items|
    ensures |hs| == |items| && c == |d| - |Area(items)| && HeaderSpace(|items|) <= c <= b <= a <= |d|
    ensures Run(d, a, |d|, items[..i]) && Run(d, b, a, items[i..j]) && Run(d, c, b, items[j..])
    ensures hs[..i] == HeadsOf(items[..i], |d|) && hs[i..j] == HeadsOf(items[i..j], a)
            && hs[j..] == HeadsOf(items[j..], b)
    ensures SizeSum(hs[i..j]) == a - b
    ensures (j > 0 ==> hs[j-1].offset == b) && (i < |items| ==>
              hs[i].offset + hs[i].size == a && hs[i].key == items[i].key)
    ensures j < |items| ==> hs[j].offset + hs[j].size == b
  {
    hide Area, HeadsOf, HeaderSpace, SizeSum, Rep, Run;
    AreaFits(hs, d, items);
    AreaPrefix(items, i);
    AreaPrefix(items, j);
    a, b, c := |d| - |Area(items[..i])|, |d| - |Area(items[..j])|, |d| - |Area(items)|;
    Parts(hs, d, items, i, a, c);
    Parts(hs, d, items, j, b, c);
    assert items[i..] == items[i..j] + items[j..];
    assert items[..j] == items[..i] + items[i..j];
    AreaConcat(items[..i], items[i..j]);
    RunSplit(d, c, a, items[i..j], items[j..], b);
    HeadsCount(items[i..j], a);
    assert hs[i..][..j-i] == hs[i..j];
    SizeSumIs(items[i..j], a);
    if j > 0 { StartsAt(hs, d, items, j - 1); }
    if i < |items| { EndsAt(hs, d, items, i); }
    if j < |items| { EndsAt(hs, d, items, j); }
  }

  lemma EndsAt(hs: seq<Head>, d: seq<nat>, items: seq<Item>, k: nat)
    requires Rep(hs, d, items) && k < |items|
    ensures |hs| == |items| && hs[k].offset + hs[k].size == |d| - |Area(items[..k])| && hs[k].key == items[k].key
  {
    hide Area, HeadsOf, HeaderSpace;
    HeadAt(items, |d|, k);
    AreaAround(items, k);
  }

  lemma StartsAt(hs: seq<Head>, d: seq<nat>, items: seq<Item>, k: nat)
    requires Rep(hs, d, items) && k < |items|
    ensures |hs| == |items| && hs[k].offset == |d| - |Area(items[..k+1])|
  {
    hide Area, HeadsOf, HeaderSpace;
    HeadAt(items, |d|, k);
  }

  lemma AreaFits(hs: seq<Head>, d: seq<nat>, items: seq<Item>)
    requires Rep(hs, d, items)
    ensures |Area(items)| <= |d|
  {
    hide Area, HeadsOf, HeaderSpace;
  }

  // ---- New items ----

  function Total(sizes: seq<nat>): nat {
    if sizes == [] then 0 else Total(sizes[..|sizes|-1]) + sizes[|sizes|-1]
  }

  method AddUp(sizes: seq<nat>) returns (total: nat)
    ensures total == Total(sizes)
  {
    total := 0;
    for i := 0 to |sizes|
      invariant total == Total(sizes[..i])
    {
      assert sizes[..i + 1][..i] == sizes[..i];
      total := total + sizes[i];
    }
    assert sizes[..|sizes|] == sizes;
  }

  /** Items with given keys and sizes, with the bytes found below `end`. */
  ghost function Slices(keys: seq<Key>, sizes: seq<nat>, d: seq<nat>, end: nat): seq<Item>
    requires |keys| == |sizes| && Total(sizes) <= end <= |d|
  {
    if keys == [] then []
    else
      var n := |keys| - 1;
      Slices(keys[..n], sizes[..n], d, end) + [Item(keys[n], d[end - Total(sizes)..end - Total(sizes[..n])])]
  }

  lemma {:induction false} SlicesOk(keys: seq<Key>, sizes: seq<nat>, d: seq<nat>, end: nat)
    requires |keys| == |sizes| && Total(sizes) <= end <= |d|
    ensures var m := Slices(keys, sizes, d, end);
            && |m| == |keys| && Run(d, end - Total(sizes), end, m)
            && (forall i :: 0 <= i < |keys| ==> m[i].key == keys[i] && |m[i].data| == sizes[i])
            && (keys != [] ==>
                  var n := |keys| - 1;
                  var front := Slices(keys[..n], sizes[..n], d, end);
                  && Run(d, end - Total(sizes[..n]), end, front)
                  && HeadsOf(m, end) == HeadsOf(front, end) + [Head(keys[n], end - Total(sizes), sizes[n])])
  {
    hide Area, HeadsOf;
    if keys == [] {
      RunNone(d, end);
    } else {
      var n := |keys| - 1;
      var lo, mid := end - Total(sizes), end - Total(sizes[..n]);
      var front, it := Slices(keys[..n], sizes[..n], d, end), Item(keys[n], d[lo..mid]);
      SlicesOk(keys[..n], sizes[..n], d, end);
      RunOne(d, lo, mid, it);
      HeadsOne(it, mid);
      Join(d, lo, mid, end, front, [it]);
    }
  }

  lemma OffsetsAbove(hs: seq<Head>, d: seq<nat>, items: seq<Item>)
    requires Rep(hs, d, items)
    ensures |hs| == |items| && forall k :: 0 <= k < |hs| ==> hs[k].offset >= |d| - |Area(items)|
  {
    hide Area, HeadsOf, HeaderSpace, Rep;
    var a, b, c := Three(hs, d, items, 0, 0);
    forall k | 0 <= k < |hs| ensures hs[k].offset >= |d| - |Area(items)| {
      StartsAt(hs, d, items, k);
      AreaPrefix(items, k + 1);
    }
  }

  /** Inserting: the items below the slot slide down, as far as the new ones need. */
  lemma SlideDown(d: seq<nat>, l: seq<Item>, r: seq<Item>, a: nat, c: nat, n: nat)
    requires n <= c <= a <= |d| && Run(d, a, |d|, l) && Run(d, c, a, r)
    ensures var d' := Moved(d, c - n, c, a - c); |d'| == |d| && Run(d', a, |d|, l) && Run(d', c - n, a - n, r)
  {
    hide Area;
    Slide(d, c, a, c - n, r);
    Above(d, c - n, c, a - c, a, |d|, l);
  }

  // ---- Growing, cutting and splitting an item ----

  /** An item with `n` more bytes at its end, the new ones being what was there. */
  ghost function Grown(it: Item, d: seq<nat>, a: nat, n: nat): Item
    requires n <= a <= |d|
  {
    it.(data := it.data + d[a - n..a])
  }

  lemma GrownRun(d: seq<nat>, it: Item, a: nat, b: nat, n: nat)
    requires n <= b <= a <= |d| && d[b - n..a - n] == it.data
    ensures Run(d, b - n, a, [Grown(it, d, a, n)])
  {
    hide Area, Run;
    assert d[b - n..a] == d[b - n..a - n] + d[a - n..a];
    RunOne(d, b - n, a, Grown(it, d, a, n));
  }

  lemma Extended(d: seq<nat>, l: seq<Item>, it: Item, r: seq<Item>, a: nat, b: nat, c: nat, n: nat)
    requires n <= c <= b <= a <= |d| && Run(d, a, |d|, l) && Run(d, b, a, [it]) && Run(d, c, b, r)
    ensures var d' := Moved(d, c - n, c, a - c);
            && |d'| == |d| && Run(d', a, |d|, l) && Run(d', c - n, b - n, r)
            && Run(d', b - n, a, [Grown(it, d', a, n)])
  {
    hide Area, Moved;
    var d' := Moved(d, c - n, c, a - c);
    Above(d, c - n, c, a - c, a, |d|, l);
    RunOne(d, b, a, it);
    MovedAt(d, c - n, c, a - c, b, a);
    MovedAt(d, c - n, c, a - c, c, b);
    GrownRun(d', it, a, b, n);
  }

  /** An item with bytes cut off its end ... */
  lemma CutEnd(d: seq<nat>, l: seq<Item>, it: Item, r: seq<Item>, a: nat, b: nat, c: nat, size: nat)
    requires c <= b <= a <= |d| && Run(d, a, |d|, l) && Run(d, b, a, [it]) && Run(d, c, b, r) && size <= |it.data|
    ensures var k := |it.data| - size;
            && b + size <= a && c + k + (b + size - c) <= |d|
            && var d' := Moved(d, c + k, c, b + size - c);
            && |d'| == |d| && Run(d', a, |d|, l) && Run(d', c + k, b + k, r)
            && Run(d', b + k, a, [it.(data := it.data[..size])])
  {
    hide Area, Moved;
    RunOne(d, b, a, it);
    var k := |it.data| - size;
    var d' := Moved(d, c + k, c, b + size - c);
    Above(d, c + k, c, b + size - c, a, |d|, l);
    RunOne(d', b + k, a, it.(data := it.data[..size]));
    MovedAt(d, c + k, c, b + size - c, b, b + size);
    MovedAt(d, c + k, c, b + size - c, c, b);
    assert d[b..b + size] == d[b..a][..size];
  }

  /** ... or off its front. */
  lemma CutFront(d: seq<nat>, l: seq<Item>, it: Item, r: seq<Item>, a: nat, b: nat, c: nat, size: nat)
    requires c <= b <= a <= |d| && Run(d, a, |d|, l) && Run(d, b, a, [it]) && Run(d, c, b, r) && size <= |it.data|
    ensures var k := |it.data| - size;
            && c + k + (b - c) <= |d|
            && var d' := Moved(d, c + k, c, b - c);
            && |d'| == |d| && Run(d', a, |d|, l) && Run(d', c + k, b + k, r)
            && d'[b + k..a] == it.data[k..]
  {
    hide Area, Moved;
    RunOne(d, b, a, it);
    var k := |it.data| - size;
    Above(d, c + k, c, b - c, a, |d|, l);
    MovedAbove(d, c + k, c, b - c, b + k, a);
    MovedAt(d, c + k, c, b - c, c, b);
    assert d[b + k..a] == d[b..a][k..];
  }

  // ---- The leaf ----

  lemma SetAt<T>(s: seq<T>, k: nat, x: T)
    requires k < |s|
    ensures s[k := x] == s[..k] + [x] + s[k + 1..] && s == s[..k] + [s[k]] + s[k + 1..]
  {
  }

  class Leaf {
    var heads: seq<Head>
    const data: array<nat>
    ghost var items: seq<Item>

    ghost predicate Valid()
      reads this, data
    {
      Rep(heads, data[..], items)
    }

    constructor (size: nat)
      ensures Valid() && fresh(data) && data.Length == size && items == []
    {
      data := new nat[size](_ => 0);
      heads, items := [], [];
    }

    /** leaf_data_end. */
    function DataEnd(): nat
      reads this
    {
      if heads == [] then data.Length else heads[|heads|-1].offset
    }

    lemma DataEndIs()
      requires Valid()
      ensures |heads| == |items| && DataEnd() == data.Length - |Area(items)|
    {
      hide Area, HeadsOf, HeaderSpace;
      HeadsCount(items, data.Length);
      if items == [] {
        NoArea();
      } else {
        HeadAt(items, data.Length, |items| - 1);
        assert items[..|items|] == items;
      }
    }

    /** The loops that correct the data pointers from a slot on. */
    method ShiftOffsets(slot: nat, d: int)
      requires slot <= |heads| && forall i :: slot <= i < |heads| ==> heads[i].offset + d >= 0
      modifies this`heads
      ensures |heads| == |old(heads)| && heads[..slot] == old(heads)[..slot]
      ensures Shifted(old(heads)[slot..], heads[slot..], d)
    {
      var i := slot;
      while i < |heads|
        invariant slot <= i <= |heads| == |old(heads)|
        invariant forall k :: 0 <= k < slot ==> heads[k] == old(heads)[k]
        invariant forall k :: slot <= k < i ==> heads[k] == old(heads)[k].(offset := old(heads)[k].offset + d)
        invariant forall k :: i <= k < |heads| ==> heads[k] == old(heads)[k]
      {
        heads := heads[i := heads[i].(offset := heads[i].offset + d)];
        i := i + 1;
      }
    }

    /** Data bytes of `nr` items from a slot on. */
    method SumSizes(slot: nat, nr: nat) returns (total: nat)
      requires slot + nr <= |heads|
      ensures total == SizeSum(heads[slot..slot + nr])
    {
      total := 0;
      for i := 0 to nr
        invariant total == SizeSum(heads[slot..slot + i])
      {
        assert heads[slot..slot + i + 1][..i] == heads[slot..slot + i];
        total := total + heads[slot + i].size;
      }
    }

    /** apfs_del_items at the leaf: `nr` items go, the others stay as they are. */
    method DelItems(slot: nat, nr: nat)
      requires Valid() && nr > 0 && slot + nr <= |items|
      modifies this, data
      ensures Valid() && items == old(items)[..slot] + old(items)[slot + nr..]
    {
      hide Area, HeadsOf, HeaderSpace, Rep, Moved, Run, Shifted, SizeSum;
      DataEndIs();
      ghost var l, r, d0 := items[..slot], items[slot + nr..], data[..];
      ghost var a, b, c := Three(heads, d0, items, slot, slot + nr);
      var lastOff := heads[slot + nr - 1].offset;
      var dsize := SumSizes(slot, nr);
      if slot + nr != |heads| {
        var dataEnd := DataEnd();
        Memmove(data, dataEnd + dsize, dataEnd, lastOff - dataEnd);
        ShiftOffsets(slot + nr, dsize);
        SlideUp(d0, l, r, a, b, c);
        HeadsMoved(r, b, a, d0, c, heads[slot + nr..]);
      } else {
        Ends(d0, r, c, b, a);
      }
      heads := heads[..slot] + heads[slot + nr..];
      items := l + r;
      Joined(heads, data[..], l, r, a, c + (a - b), |old(items)|);
    }

    /** setup_items_for_insert: room for new items, whose bytes are what was there. */
    method SetupItems(slot: nat, keys: seq<Key>, sizes: seq<nat>)
      requires Valid() && slot <= |items| && |keys| == |sizes|
      requires |Area(items)| + Total(sizes) + HeaderSpace(|items| + |keys|) <= data.Length
      modifies this, data
      ensures Valid() && |items| == |old(items)| + |keys|
      ensures items[..slot] == old(items)[..slot] && items[slot + |keys|..] == old(items)[slot..]
      ensures forall i :: 0 <= i < |keys| ==> items[slot + i].key == keys[i] && |items[slot + i].data| == sizes[i]
    {
      hide Area, HeadsOf, HeaderSpace, Rep, Run, SizeSum, Total, Slices;
      DataEndIs();
      ghost var l, r := items[..slot], items[slot..];
      ghost var a, b, c := Three(heads, data[..], items, slot, slot);
      EmptyMiddle(data[..], items, slot, a, b);
      MiddleSize(data[..], l, a, data.Length);
      var total := AddUp(sizes);
      var dataEnd := MakeRoom(slot, total, l, r, a, c);
      ghost var d1 := data[..];
      var news := NewHeads(keys, sizes, dataEnd, d1);
      SlicesOk(keys, sizes, d1, a);
      ghost var m := Slices(keys, sizes, d1, a);
      heads := heads[..slot] + news + heads[slot..];
      items := l + m + r;
      assert items[slot + |keys|..] == r;
      Build(heads, d1, l, m, r, a, a - total, c - total);
    }

    /** The items from a slot on move down by `total` bytes. */
    method MakeRoom(slot: nat, total: nat, ghost l: seq<Item>, ghost r: seq<Item>, ghost a: nat, ghost c: nat)
      returns (dataEnd: nat)
      requires Valid() && slot <= |items| && l == items[..slot] && r == items[slot..] && total <= c
      requires a == data.Length - |Area(l)| && c == data.Length - |Area(items)|
      modifies this`heads, data
      ensures dataEnd == a && total <= c <= a <= data.Length && slot <= |heads|
      ensures Run(data[..], a, data.Length, l) && Run(data[..], c - total, a - total, r)
      ensures heads[..slot] == HeadsOf(l, data.Length) && heads[slot..] == HeadsOf(r, a - total)
    {
      hide Area, HeadsOf, HeaderSpace, Rep, Moved, Run, Shifted, SizeSum;
      DataEndIs();
      ghost var d0 := data[..];
      ghost var a', b, c' := Three(heads, d0, items, slot, slot);
      EmptyMiddle(d0, items, slot, a', b);
      MiddleSize(d0, l, a', data.Length);
      dataEnd := DataEnd();
      SlideDown(d0, l, r, a, c, total);
      MiddleSize(d0, r, c, a);
      if slot != |heads| {
        var oldData := heads[slot].offset + heads[slot].size;
        OffsetsAbove(heads, d0, items);
        var shift: int := total;
        ShiftOffsets(slot, -shift);
        HeadsMoved(r, a, a - total, d0, c, heads[slot..]);
        Memmove(data, dataEnd - total, dataEnd, oldData - dataEnd);
        dataEnd := oldData;
      } else {
        Ends(d0, r, c, a, a);
        NotMoved(d0, r, c, a, total);
      }
    }

    /** apfs_insert_item at the leaf: the item is read back as it was written, and no
        other item changes. */
    method InsertItem(slot: nat, key: Key, bytes: seq<nat>)
      requires Valid() && slot <= |items|
      requires |Area(items)| + |bytes| + HeaderSpace(|items| + 1) <= data.Length
      modifies this, data
      ensures Valid() && items == old(items)[..slot] + [Item(key, bytes)] + old(items)[slot..]
    {
      hide Area, HeadsOf, HeaderSpace, Rep;
      assert [|bytes|][..0] == [];
      SetupItems(slot, [key], [|bytes|]);
      WriteItem(slot, bytes);
    }

    /** write_extent_buffer on a whole item. */
    method WriteItem(slot: nat, bytes: seq<nat>)
      requires Valid() && slot < |items| && |bytes| == |items[slot].data|
      modifies this`items, data
      ensures Valid() && items == old(items)[slot := Item(old(items)[slot].key, bytes)]
    {
      hide Wrote, Area, HeadsOf, HeaderSpace, Rep, Run, SizeSum;
      ghost var l, it, r, d0 := items[..slot], items[slot], items[slot + 1..], data[..];
      ghost var a, b, c := Three(heads, d0, items, slot, slot + 1);
      DataEndIs();
      ghost var it' := Item(it.key, bytes);
      Middle(d0, items, slot, a, b);
      CopyIn(data, heads[slot].offset, bytes);
      Rewritten(d0, data[..], l, it, it', r, a, b, c);
      items := items[slot := it'];
      assert items == l + [it'] + r && heads == heads[..slot] + heads[slot..slot + 1] + heads[slot + 1..];
      Build(heads, data[..], l, [it'], r, a, b, c);
    }

    /** apfs_extend_item: the old bytes stay as a prefix. */
    method ExtendItem(slot: nat, n: nat)
      requires Valid() && slot < |items| && |Area(items)| + n + HeaderSpace(|items|) <= data.Length
      modifies this, data
      ensures Valid() && |items| == |old(items)| && items == old(items)[slot := items[slot]]
      ensures items[slot].key == old(items)[slot].key && |items[slot].data| == |old(items)[slot].data| + n
      ensures old(items)[slot].data <= items[slot].data
    {
      hide Area, HeadsOf, HeaderSpace, Rep, Moved, Run, Shifted, SizeSum;
      DataEndIs();
      ghost var l, it, r, d0 := items[..slot], items[slot], items[slot + 1..], data[..];
      ghost var a, b, c := Three(heads, d0, items, slot, slot + 1);
      Middle(d0, items, slot, a, b);
      var dataEnd := DataEnd();
      var oldData := heads[slot].offset + heads[slot].size;
      OffsetsAbove(heads, d0, items);
      ShiftOffsets(slot, 0 - n);
      ShiftedParts(old(heads), heads, slot, 0 - n);
      HeadsMoved(r, b, b - n, d0, c, heads[slot + 1..]);
      Memmove(data, dataEnd - n, dataEnd, oldData - dataEnd);
      Extended(d0, l, it, r, a, b, c, n);
      ghost var it' := Grown(it, data[..], a, n);
      heads := heads[slot := heads[slot].(size := heads[slot].size + n)];
      SetAt(items, slot, it');
      SetAt(heads, slot, heads[slot]);
      items := items[slot := it'];
      OneHead(data[..], b - n, a, it', heads[slot]);
      Build(heads, data[..], l, [it'], r, a, b - n, c - n);
    }

    /** apfs_truncate_item.  Cutting bytes off the end keeps a prefix; cutting them off
        the front keeps the right end and moves the key's offset along, except that an
        inline extent keeps its first `header` bytes. */
    method TruncateItem(slot: nat, newSize: nat, fromEnd: bool, inlineHeader: nat)
      requires Valid() && slot < |items| && inlineHeader <= newSize <= |items[slot].data|
      modifies this, data
      ensures Valid() && items == old(items)[slot := Truncated(old(items)[slot], newSize, fromEnd, inlineHeader)]
      ensures CutTo(old(items)[slot], items[slot], newSize, fromEnd, inlineHeader)
    {
      hide Area, HeadsOf, HeaderSpace, Rep, Moved, Run, Shifted, SizeSum, Truncated, CutTo, CutKey;
      DataEndIs();
      ghost var l, it, r, d0 := items[..slot], items[slot], items[slot + 1..], data[..];
      ghost var a, b, c := Three(heads, d0, items, slot, slot + 1);
      Middle(d0, items, slot, a, b);
      var oldSize := heads[slot].size;
      if oldSize == newSize {
        NotTruncated(it, fromEnd, inlineHeader);
        TruncatedCuts(it, newSize, fromEnd, inlineHeader);
        assert items == items[slot := it];
        return;
      }
      var dataEnd, oldStart, diff := DataEnd(), heads[slot].offset, oldSize - newSize;
      ShiftOffsets(slot, diff);
      ShiftedParts(old(heads), heads, slot, diff);
      HeadsMoved(r, b, b + diff, d0, c, heads[slot + 1..]);
      ghost var it' := Truncated(it, newSize, fromEnd, inlineHeader);
      TruncatedIs(it, newSize, inlineHeader);
      CutData(dataEnd, oldStart, newSize, diff, fromEnd, inlineHeader, l, it, r, a);
      var key := heads[slot].key;
      if !fromEnd { key := key.(offset := key.offset + diff); }
      heads := heads[slot := Head(key, heads[slot].offset, newSize)];
      SetAt(items, slot, it');
      SetAt(heads, slot, heads[slot]);
      items := items[slot := it'];
      OneHead(data[..], b + diff, a, it', heads[slot]);
      Build(heads, data[..], l, [it'], r, a, b + diff, c + diff);
      TruncatedCuts(it, newSize, fromEnd, inlineHeader);
    }

    /** The moves of apfs_truncate_item. */
    method CutData(dataEnd: nat, oldStart: nat, newSize: nat, diff: nat, fromEnd: bool, header: nat,
                   ghost l: seq<Item>, ghost it: Item, ghost r: seq<Item>, ghost a: nat)
      requires dataEnd <= oldStart <= a <= data.Length && a - oldStart == |it.data| == newSize + diff
      requires header <= newSize && diff > 0
      requires Run(data[..], a, data.Length, l) && Run(data[..], oldStart, a, [it])
               && Run(data[..], dataEnd, oldStart, r)
      modifies data
      ensures Run(data[..], a, data.Length, l) && Run(data[..], dataEnd + diff, oldStart + diff, r)
      ensures Run(data[..], oldStart + diff, a, [Truncated(it, newSize, fromEnd, header)])
    {
      hide Area, Moved, Run, Truncated;
      ghost var d0 := data[..];
      TruncatedIs(it, newSize, header);
      if fromEnd {
        CutEnd(d0, l, it, r, a, oldStart, dataEnd, newSize);
        Memmove(data, dataEnd + diff, dataEnd, oldStart + newSize - dataEnd);
      } else {
        ghost var it1 := HeaderMoved(d0, l, it, r, a, oldStart, dataEnd, newSize, header);
        Memmove(data, oldStart + diff, oldStart, header);
        CutFront(data[..], l, it1, r, a, oldStart, dataEnd, newSize);
        Memmove(data, dataEnd + diff, dataEnd, oldStart - dataEnd);
        RunOne(data[..], oldStart + diff, a, Truncated(it, newSize, fromEnd, header));
      }
    }

    /** split_item: the two halves together are the old item. */
    method SplitItem(slot: nat, newKey: Key, k: nat)
      requires Valid() && slot < |items| && k <= |items[slot].data|
      requires |Area(items)| + HeaderSpace(|items| + 1) <= data.Length
      modifies this, data
      ensures Valid()
      ensures var it := old(items)[slot];
              items == old(items)[..slot] + [Item(it.key, it.data[..k]), Item(newKey, it.data[k..])]
                + old(items)[slot + 1..]
    {
      hide Area, HeadsOf, HeaderSpace, Rep, Run, SizeSum, Halves;
      DataEndIs();
      ghost var l, it, r, d0 := items[..slot], items[slot], items[slot + 1..], data[..];
      ghost var a, b, c := Three(heads, d0, items, slot, slot + 1);
      Middle(d0, items, slot, a, b);
      var h := heads[slot];
      var first := Head(h.key, h.offset + h.size - k, k);
      var second := Head(newKey, h.offset, h.size - k);
      WriteHalves(data, h.offset, h.offset + h.size, k);
      ghost var x, y := Item(it.key, it.data[..k]), Item(newKey, it.data[k..]);
      HalvesWritten(d0, l, it, x, y, r, a, b, c, k);
      heads := heads[..slot] + [first, second] + heads[slot + 1..];
      items := l + [x, y] + r;
      Build(heads, data[..], l, [x, y], r, a, b, c);
    }

    /** The loops that recompute every offset from the sizes. */
    method Repack()
      requires SizeSum(heads) <= data.Length
      modifies this`heads
      ensures SameSizes(old(heads), heads) && PackedFrom(heads, data.Length)
    {
      var end, i := data.Length, 0;
      ghost var was := heads;
      while i < |heads|
        invariant 0 <= i <= |heads| == |was| && SameSizes(was, heads)
        invariant SizeSum(was[..i]) <= data.Length && end == data.Length - SizeSum(was[..i])
        invariant forall k :: 0 <= k < i ==> heads[k].offset == data.Length - SizeSum(was[..k + 1])
      {
        SizeSumPrefix(was, i);
        end := end - heads[i].size;
        heads := heads[i := heads[i].(offset := end)];
        i := i + 1;
      }
      forall k | 0 <= k < |heads| ensures heads[k].offset == data.Length - SizeSum(heads[..k + 1]) {
        SameSum(was[..k + 1], heads[..k + 1]);
      }
    }
  }

  // ---- Two leaves ----

  /** copy_for_split: the items from `mid` on move to a new leaf. */
  method CopyForSplit(left: Leaf, right: Leaf, mid: nat)
    requires left.Valid() && mid < |left.items|
    requires left != right && left.data != right.data && left.data.Length == right.data.Length
    modifies left, right, right.data
    ensures left.Valid() && right.Valid()
    ensures left.items == old(left.items)[..mid] && right.items == old(left.items)[mid..]
  {
    hide Wrote, Area, HeadsOf, HeaderSpace, Rep, Run, SizeSum, Shifted;
    left.DataEndIs();
    ghost var l, r, d0, n := left.items[..mid], left.items[mid..], left.data[..], left.data.Length;
    ghost var a, b, c := Three(left.heads, d0, left.items, mid, mid);
    EmptyMiddle(d0, left.items, mid, a, b);
    var size, end := left.data.Length, left.DataEnd();
    var itemEnd := left.heads[mid].offset + left.heads[mid].size;
    CopyIn(right.data, size - (itemEnd - end), left.data[end..itemEnd]);
    CopiedOver(d0, old(right.data[..]), r, c, a, n);
    right.heads := left.heads[mid..];
    assert right.heads[0..] == right.heads;
    right.ShiftOffsets(0, size - itemEnd);
    assert right.heads[0..] == right.heads;
    HeadsMoved(r, a, n, d0, c, right.heads);
    left.heads := left.heads[..mid];
    left.items, right.items := l, r;
    Alone(left.heads, d0, l, a, |old(left.items)|, c);
    Alone(right.heads, right.data[..], r, n - (a - c), |old(left.items)|, c);
  }

  /** __push_leaf_right: the last `n` items of a leaf move to the front of the next. */
  method PushRight(left: Leaf, right: Leaf, n: nat)
    requires left.Valid() && right.Valid() && 0 < n <= |left.items|
    requires left != right && left.data != right.data && left.data.Length == right.data.Length
    requires var m := left.items[|left.items| - n..];
             |Area(m)| + |Area(right.items)| + HeaderSpace(n + |right.items|) <= right.data.Length
    modifies left, right, right.data
    ensures left.Valid() && right.Valid() && left.items == old(left.items)[..|old(left.items)| - n]
    ensures right.items == old(left.items)[|old(left.items)| - n..] + old(right.items)
  {
    hide Wrote, Area, HeadsOf, HeaderSpace, Rep, Run, SizeSum, Moved, SameSizes, PackedFrom;
    left.DataEndIs();
    right.DataEndIs();
    ghost var k := |left.items| - n;
    ghost var l, m, r, d0, e0 := left.items[..k], left.items[k..], right.items, left.data[..], right.data[..];
    ghost var a, b, c := Three(left.heads, d0, left.items, k, k);
    EmptyMiddle(d0, left.items, k, a, b);
    ghost var x, y, z := Three(right.heads, e0, r, 0, 0);
    WholeLeaf(right.heads, e0, r, x, y, z);
    var size, first := left.data.Length, |left.heads| - n;
    var pushSpace := left.heads[first].offset + left.heads[first].size - left.DataEnd();
    var dataEnd := right.DataEnd();
    MiddleSize(d0, m, c, a);
    Slide(e0, z, size, z - pushSpace, r);
    Memmove(right.data, dataEnd - pushSpace, dataEnd, size - dataEnd);
    ghost var e1 := right.data[..];
    CopyIn(right.data, size - pushSpace, left.data[left.DataEnd()..left.DataEnd() + pushSpace]);
    PushedOver(d0, e1, right.data[..], m, r, c, a, size - pushSpace, z - pushSpace);
    right.heads := left.heads[first..] + right.heads;
    SizesOf(m, a, r, size, right.heads);
    MiddleSize(right.data[..], m + r, z - pushSpace, size);
    MatchSum(right.heads, m + r);
    ghost var mixed := right.heads;
    right.Repack();
    left.heads := left.heads[..first];
    left.items, right.items := l, m + r;
    Alone(left.heads, d0, l, a, |old(left.items)|, c);
    RepackedIs(mixed, right.heads, m + r, size);
    Alone(right.heads, right.data[..], m + r, z - pushSpace, n + |r|, z - pushSpace);
  }

  /** __push_leaf_left: the first `n` items of a leaf move to the end of the one
      before. */
  method PushLeft(left: Leaf, right: Leaf, n: nat)
    requires left.Valid() && right.Valid() && 0 < n <= |right.items| && left.items != []
    requires left != right && left.data != right.data && left.data.Length == right.data.Length
    requires |Area(left.items)| + |Area(right.items[..n])| + HeaderSpace(|left.items| + n) <= left.data.Length
    modifies left, right, left.data, right.data
    ensures left.Valid() && right.Valid() && left.items == old(left.items) + old(right.items)[..n]
    ensures right.items == old(right.items)[n..]
  {
    hide Area, HeadsOf, HeaderSpace, Rep;
    AppendFrom(left, right, n);
    DropFirst(right, n);
  }

  /** The left leaf takes over items. */
  method AppendFrom(left: Leaf, right: Leaf, n: nat)
    requires left.Valid() && right.Valid() && 0 < n <= |right.items| && left.items != []
    requires left != right && left.data != right.data && left.data.Length == right.data.Length
    requires |Area(left.items)| + |Area(right.items[..n])| + HeaderSpace(|left.items| + n) <= left.data.Length
    modifies left, left.data
    ensures left.Valid() && left.items == old(left.items) + right.items[..n]
  {
    hide Wrote, Area, HeadsOf, HeaderSpace, Rep, Run, SizeSum, Shifted;
    left.DataEndIs();
    right.DataEndIs();
    ghost var l, m, d0, e0 := left.items, right.items[..n], left.data[..], right.data[..];
    ghost var x, y, z := Three(left.heads, d0, l, 0, 0);
    WholeLeaf(left.heads, d0, l, x, y, z);
    ghost var a, b, c := Three(right.heads, e0, right.items, n, n);
    var size, oldLeft, oldEnd := left.data.Length, |left.heads|, left.DataEnd();
    var pushSpace := size - right.heads[n - 1].offset;
    EmptyMiddle(e0, right.items, n, a, b);
    MiddleSize(e0, m, a, size);
    CopyIn(left.data, oldEnd - pushSpace, right.data[right.heads[n - 1].offset..size]);
    PulledOver(e0, d0, left.data[..], m, l, a, z);
    TopOffsets(right.heads, e0, right.items, n);
    left.heads := left.heads + right.heads[..n];
    Appended(left.heads, old(left.heads), right.heads[..n], size - pushSpace);
    var back: int := size - oldEnd;
    ghost var joined := left.heads;
    left.ShiftOffsets(oldLeft, -back);
    HeadsMoved(m, size, oldEnd, e0, a, left.heads[oldLeft..]);
    left.items := l + m;
    Alone2(left.heads, left.data[..], l, m, z, z - pushSpace, oldLeft + n);
  }

  lemma Appended(hs: seq<Head>, l: seq<Head>, m: seq<Head>, lo: int)
    requires hs == l + m && forall i :: 0 <= i < |m| ==> m[i].offset >= lo
    ensures hs[..|l|] == l && hs[|l|..] == m && forall i :: |l| <= i < |hs| ==> hs[i].offset >= lo
  {
  }

  /** The right leaf closes the gap at its top. */
  method DropFirst(right: Leaf, n: nat)
    requires right.Valid() && 0 < n <= |right.items|
    modifies right, right.data
    ensures right.Valid() && right.items == old(right.items)[n..]
  {
    hide Area, HeadsOf, HeaderSpace, Rep, Run, SizeSum, Moved, SameSizes, PackedFrom;
    right.DataEndIs();
    ghost var r, e0 := right.items[n..], right.data[..];
    ghost var a, b, c := Three(right.heads, e0, right.items, n, n);
    EmptyMiddle(e0, right.items, n, a, b);
    MiddleSize(e0, r, c, a);
    var size := right.data.Length;
    if n < |right.heads| {
      var rest := right.heads[n - 1].offset - right.DataEnd();
      Slide(e0, c, a, size - rest, r);
      Memmove(right.data, size - rest, right.DataEnd(), rest);
    } else {
      NothingLeft(e0, r, c, a, size);
    }
    right.heads := right.heads[n..];
    SizesOf1(r, a, right.heads);
    MatchSum(right.heads, r);
    ghost var kept := right.heads;
    right.Repack();
    right.items := r;
    RepackedIs(kept, right.heads, r, size);
    Alone(right.heads, right.data[..], r, size - (a - c), |old(right.items)|, c);
  }

  ghost predicate SameSizes(hs: seq<Head>, hs': seq<Head>) {
    |hs| == |hs'| && forall i :: 0 <= i < |hs| ==> hs'[i].key == hs[i].key && hs'[i].size == hs[i].size
  }

  ghost predicate PackedFrom(hs: seq<Head>, end: nat) {
    forall k :: 0 <= k < |hs| ==> hs[k].offset == end - SizeSum(hs[..k + 1])
  }

  lemma {:induction false} SizeSumPrefix(hs: seq<Head>, i: nat)
    requires i < |hs|
    ensures SizeSum(hs[..i + 1]) == SizeSum(hs[..i]) + hs[i].size && SizeSum(hs[..i + 1]) <= SizeSum(hs)
    decreases |hs|
  {
    assert hs[..i + 1][..i] == hs[..i];
    if i + 1 < |hs| {
      SizeSumPrefix(hs[..|hs|-1], i);
      assert hs[..|hs|-1][..i + 1] == hs[..i + 1];
    } else {
      assert hs[..i + 1] == hs;
    }
  }

  lemma {:induction false} SameSum(hs: seq<Head>, hs': seq<Head>)
    requires SameSizes(hs, hs')
    ensures SizeSum(hs) == SizeSum(hs')
  {
    if hs != [] { SameSum(hs[..|hs|-1], hs'[..|hs|-1]); }
  }

  /** One run that makes up a leaf. */
  lemma Alone(hs: seq<Head>, d: seq<nat>, items: seq<Item>, lo: nat, n: nat, c: nat)
    requires Run(d, lo, |d|, items) && hs == HeadsOf(items, |d|) && HeaderSpace(n) <= c <= lo && |items| <= n
    ensures Rep(hs, d, items)
  {
    hide Area, HeadsOf;
    assert d[lo..|d|] == d[lo..];
  }

  lemma Alone2(hs: seq<Head>, d: seq<nat>, l: seq<Item>, r: seq<Item>, mid: nat, lo: nat, n: nat)
    requires Run(d, mid, |d|, l) && Run(d, lo, mid, r) && HeaderSpace(n) <= lo && |l + r| <= n
    requires |hs| >= |l| && hs[..|l|] == HeadsOf(l, |d|) && hs[|l|..] == HeadsOf(r, mid)
    ensures Rep(hs, d, l + r)
  {
    hide Area, HeadsOf, Rep;
    assert hs == hs[..|l|] + hs[|l|..];
    Joined(hs, d, l, r, mid, lo, n);
  }

  /** Bytes copied from one leaf to the end of another. */
  lemma CopiedOver(d: seq<nat>, e: seq<nat>, r: seq<Item>, c: nat, a: nat, n: nat)
    requires Run(d, c, a, r) && |e| == n && a <= n
    ensures Run(Wrote(e, n - (a - c), d[c..a]), n - (a - c), n, r)
  {
    hide Wrote, Area;
    Written(e, n - (a - c), d[c..a], 0, 0);
  }

  lemma MiddleSize(d: seq<nat>, m: seq<Item>, c: nat, a: nat)
    requires Run(d, c, a, m)
    ensures |Area(m)| == a - c
  {
  }

  lemma WholeLeaf(hs: seq<Head>, d: seq<nat>, items: seq<Item>, x: nat, y: nat, z: nat)
    requires Rep(hs, d, items) && z == |d| - |Area(items)| && z <= y <= x <= |d|
    ensures Run(d, z, |d|, items) && hs == HeadsOf(items, |d|)
  {
    hide Area, HeadsOf;
    assert d[z..|d|] == d[z..];
  }

  /** After the right leaf's data has moved down, the pushed data goes above it. */
  lemma PushedOver(d: seq<nat>, e1: seq<nat>, e2: seq<nat>, m: seq<Item>, r: seq<Item>, c: nat, a: nat, mid: nat,
                   lo: nat)
    requires Run(d, c, a, m) && lo <= mid <= |e1| && mid + (a - c) == |e1| && Run(e1, lo, mid, r)
    requires e2 == Wrote(e1, mid, d[c..a])
    ensures |e2| == |e1| && Run(e2, lo, |e2|, m + r)
  {
    hide Wrote, Area, HeadsOf;
    Written(e1, mid, d[c..a], lo, mid);
    assert Run(e2, mid, |e2|, m) && Run(e2, lo, mid, r);
    Join(e2, lo, mid, |e2|, m, r);
  }

  lemma PulledOver(e: seq<nat>, d: seq<nat>, d': seq<nat>, m: seq<Item>, l: seq<Item>, a: nat, z: nat)
    requires Run(e, a, |e|, m) && |d| == |e| && Run(d, z, |d|, l) && |e| - a <= z
    requires d' == Wrote(d, z - (|e| - a), e[a..|e|])
    ensures |d'| == |d| && Run(d', z, |d'|, l) && Run(d', z - (|e| - a), z, m)
  {
    hide Wrote, Area;
    Written(d, z - (|e| - a), e[a..|e|], z, |d|);
  }

  lemma SizesOf(m: seq<Item>, a: int, r: seq<Item>, end: int, hs: seq<Head>)
    requires |Area(m)| <= a && |Area(r)| <= end && hs == HeadsOf(m, a) + HeadsOf(r, end)
    ensures Matches(hs, m + r)
  {
    hide Area, HeadsOf;
    HeadsCount(m, a);
    HeadsCount(r, end);
    forall k | 0 <= k < |hs| ensures hs[k].key == (m + r)[k].key && hs[k].size == |(m + r)[k].data| {
      if k < |m| { HeadAt(m, a, k); } else { HeadAt(r, end, k - |m|); }
    }
  }

  lemma SizesOf1(r: seq<Item>, a: int, hs: seq<Head>)
    requires |Area(r)| <= a && hs == HeadsOf(r, a)
    ensures Matches(hs, r)
  {
    hide Area, HeadsOf;
    HeadsCount(r, a);
    forall k | 0 <= k < |hs| ensures hs[k].key == r[k].key && hs[k].size == |r[k].data| { HeadAt(r, a, k); }
  }

  ghost predicate Matches(hs: seq<Head>, items: seq<Item>) {
    |hs| == |items| && forall k :: 0 <= k < |hs| ==> hs[k].key == items[k].key && hs[k].size == |items[k].data|
  }

  lemma {:induction false} MatchSum(hs: seq<Head>, items: seq<Item>)
    requires Matches(hs, items)
    ensures SizeSum(hs) == |Area(items)|
  {
    hide Area;
    var n := |hs|;
    if n == 0 {
      NoArea();
    } else {
      MatchSum(hs[..n-1], items[..n-1]);
      AreaAround(items, n - 1);
      assert items[..n] == items;
    }
  }

  lemma RepackedIs(hs: seq<Head>, hs': seq<Head>, items: seq<Item>, end: nat)
    requires Matches(hs, items) && SameSizes(hs, hs') && PackedFrom(hs', end) && |Area(items)| <= end
    ensures hs' == HeadsOf(items, end)
  {
    hide Area, HeadsOf;
    HeadsCount(items, end);
    forall k | 0 <= k < |hs'| ensures hs'[k] == HeadsOf(items, end)[k] {
      HeadAt(items, end, k);
      MatchSum(hs'[..k + 1], items[..k + 1]);
    }
  }

  /** The first `n` items lie at the top, so their offsets leave room below. */
  lemma TopOffsets(hs: seq<Head>, d: seq<nat>, items: seq<Item>, n: nat)
    requires Rep(hs, d, items) && n <= |items|
    ensures |hs| == |items| && forall i :: 0 <= i < n ==> hs[i].offset >= |d| - |Area(items[..n])|
  {
    hide Area, HeadsOf, HeaderSpace, Rep;
    OffsetsAbove(hs, d, items);
    forall i | 0 <= i < n ensures hs[i].offset >= |d| - |Area(items[..n])| {
      StartsAt(hs, d, items, i);
      AreaPrefix(items[..n], i + 1);
      assert items[..n][..i + 1] == items[..i + 1];
    }
  }

  lemma NothingLeft(d: seq<nat>, r: seq<Item>, c: nat, a: nat, end: nat)
    requires Run(d, c, a, r) && r == [] && end == |d|
    ensures c == a && Run(d, end, end, r)
  {
    NoArea();
  }

  /** What is left of an item. */
  function Truncated(it: Item, size: nat, fromEnd: bool, header: nat): Item
    requires header <= size <= |it.data|
  {
    var k := |it.data| - size;
    if k == 0 then it
    else if fromEnd then it.(data := it.data[..size])
    else Item(it.key.(offset := it.key.offset + k), it.data[..header] + it.data[k + header..])
  }

  function CutKey(it: Item, size: nat, fromEnd: bool): Key
    requires size <= |it.data|
  {
    if fromEnd then it.key else it.key.(offset := it.key.offset + (|it.data| - size))
  }

  /** What is left of an item that was cut to `size`: a prefix under the same key, or the
      first `header` bytes and then the right end, under a key whose offset has moved
      by the cut. */
  ghost predicate CutTo(it: Item, r: Item, size: nat, fromEnd: bool, header: nat)
    requires header <= size <= |it.data|
  {
    && |r.data| == size && r.key == CutKey(it, size, fromEnd)
    && if fromEnd then r.data <= it.data
       else r.data[..header] == it.data[..header] && r.data[header..] == it.data[|it.data| - (size - header)..]
  }

  lemma TruncatedCuts(it: Item, size: nat, fromEnd: bool, header: nat)
    requires header <= size <= |it.data|
    ensures CutTo(it, Truncated(it, size, fromEnd, header), size, fromEnd, header)
  {
    var r, k := Truncated(it, size, fromEnd, header), |it.data| - size;
    if k == 0 {
      assert it.key.(offset := it.key.offset + 0) == it.key;
    } else if !fromEnd {
      assert r.data[..header] == it.data[..header] && r.data[header..] == it.data[k + header..];
    }
  }

  lemma CutToKey(it: Item, r: Item, size: nat, fromEnd: bool, header: nat)
    requires header <= size <= |it.data| && CutTo(it, r, size, fromEnd, header)
    ensures r.key == CutKey(it, size, fromEnd)
  {
  }

  lemma NotTruncated(it: Item, fromEnd: bool, header: nat)
    requires header <= |it.data|
    ensures Truncated(it, |it.data|, fromEnd, header) == it
  {
  }

  lemma TruncatedIs(it: Item, size: nat, header: nat)
    requires header <= size < |it.data|
    ensures Truncated(it, size, true, header) == it.(data := it.data[..size])
    ensures var k := |it.data| - size;
            Truncated(it, size, false, header)
            == Item(it.key.(offset := it.key.offset + k), it.data[..header] + it.data[k + header..])
  {
  }

  lemma CutFrontIs(it: Item, size: nat)
    requires size <= |it.data|
    ensures var k := |it.data| - size;
            Truncated(it, size, false, 0) == Item(it.key.(offset := it.key.offset + k), it.data[k..])
  {
    var k := |it.data| - size;
    assert it.data[..0] + it.data[k + 0..] == it.data[k..];
    if k == 0 { assert it.data[0..] == it.data; }
  }

  lemma CutEndIs(it: Item, size: nat)
    requires size <= |it.data|
    ensures Truncated(it, size, true, 0) == it.(data := it.data[..size])
  {
    assert it.data[..|it.data|] == it.data;
  }

  /** The two ways of cutting complement each other. */
  lemma CutsComplement(it: Item, size: nat)
    requires size <= |it.data|
    ensures Truncated(it, size, true, 0).data + Truncated(it, |it.data| - size, false, 0).data == it.data
  {
    hide Truncated;
    CutEndIs(it, size);
    CutFrontIs(it, |it.data| - size);
    assert it.data[..size] + it.data[size..] == it.data;
  }

  /** Cutting in steps is cutting at once, the key included, unless there is a header to
      keep. */
  lemma CutInSteps(it: Item, size: nat, less: nat, fromEnd: bool)
    requires less <= size <= |it.data|
    ensures Truncated(Truncated(it, size, fromEnd, 0), less, fromEnd, 0) == Truncated(it, less, fromEnd, 0)
  {
    hide Truncated;
    if fromEnd {
      CutEndIs(it, size);
      CutEndIs(it, less);
      CutEndIs(it.(data := it.data[..size]), less);
      SubSlice(it.data, 0, size, 0, less);
    } else {
      CutFrontIs(it, size);
      CutFrontIs(it, less);
      CutFrontIs(Truncated(it, size, false, 0), less);
      SubSlice(it.data, |it.data| - size, |it.data|, size - less, size);
    }
  }

  /** Keeping a header longer than the new size would copy its end over the first
      bytes of the item stored next; that item is spared exactly if it holds the
      same bytes there. */
  lemma HeaderSpills(d: seq<nat>, a: nat, b: nat, size: nat, h: nat)
    requires b + size <= a && size < h && a - size + h <= |d|
    ensures Moved(d, a - size, b, h)[a..] == d[a..] <==> d[b + size..b + h] == d[a..a + h - size]
  {
    var d' := Moved(d, a - size, b, h);
    assert d'[a..a + h - size] == d[b + size..b + h];
    assert d'[a..] == d'[a..a + h - size] + d[a + h - size..];
    assert d[a..] == d[a..a + h - size] + d[a + h - size..];
  }

  /** Copying the header of an inline extent to its new place. */
  lemma HeaderMoved(d: seq<nat>, l: seq<Item>, it: Item, r: seq<Item>, a: nat, b: nat, c: nat, size: nat, h: nat)
    returns (it1: Item)
    requires c <= b <= a <= |d| && Run(d, a, |d|, l) && Run(d, b, a, [it]) && Run(d, c, b, r) && h <= size <= |it.data|
    ensures var k := |it.data| - size;
            && b + k + h <= |d|
            && var d' := Moved(d, b + k, b, h);
            && |d'| == |d| && Run(d', a, |d|, l) && Run(d', b, a, [it1]) && Run(d', c, b, r)
            && |it1.data| == |it.data| && it1.data[k..] == it.data[..h] + it.data[k + h..]
  {
    hide Area, Moved;
    RunOne(d, b, a, it);
    var k := |it.data| - size;
    var d' := Moved(d, b + k, b, h);
    Above(d, b + k, b, h, a, |d|, l);
    MovedBelow(d, b + k, b, h, c, b);
    MovedAt(d, b + k, b, h, b, b + h);
    MovedAbove(d, b + k, b, h, b + k + h, a);
    it1 := it.(data := d'[b..a]);
    RunOne(d', b, a, it1);
    KeptParts(d, d', b, a, k, h);
  }

  /** The bytes from `b + k` on, once the first `h` of `b` have been copied there. */
  lemma KeptParts(d: seq<nat>, d': seq<nat>, b: nat, a: nat, k: nat, h: nat)
    requires b + k + h <= a <= |d| == |d'|
    requires d'[b + k..b + k + h] == d[b..b + h] && d'[b + k + h..a] == d[b + k + h..a]
    ensures d'[b..a][k..] == d[b..a][..h] + d[b..a][k + h..]
  {
    var x := d'[b..a];
    assert x[k..] == d'[b + k..b + k + h] + d'[b + k + h..a];
    assert d[b..a][..h] == d[b..b + h];
    assert d[b..a][k + h..] == d[b + k + h..a];
  }

  /** The bytes after the two writes of split_item: the front half goes last. */
  function Halves(d: seq<nat>, lo: nat, end: nat, k: nat): seq<nat>
    requires lo <= end <= |d| && k <= end - lo
  {
    var buf := d[lo..end];
    Wrote(Wrote(d, end - k, buf[..k]), lo, buf[k..])
  }

  method WriteHalves(a: array<nat>, lo: nat, end: nat, k: nat)
    requires lo <= end <= a.Length && k <= end - lo
    modifies a
    ensures a[..] == Halves(old(a[..]), lo, end, k)
  {
    hide Wrote;
    var buf := a[lo..end];
    CopyIn(a, end - k, buf[..k]);
    CopyIn(a, lo, buf[k..]);
  }

  lemma HalvesAt(d: seq<nat>, lo: nat, end: nat, k: nat, x: nat, y: nat)
    requires lo <= end <= |d| && k <= end - lo && x <= y <= |d|
    ensures var t := Halves(d, lo, end, k);
            && |t| == |d| && t[end - k..end] == d[lo..end][..k] && t[lo..end - k] == d[lo..end][k..]
            && (y <= lo || end <= x ==> t[x..y] == d[x..y])
  {
    hide Wrote;
    var buf := d[lo..end];
    var d1 := Wrote(d, end - k, buf[..k]);
    Written(d, end - k, buf[..k], x, y);
    Written(d1, lo, buf[k..], x, y);
    Written(d1, lo, buf[k..], end - k, end);
  }

  lemma HalvesWritten(d: seq<nat>, l: seq<Item>, it: Item, x: Item, y: Item, r: seq<Item>, a: nat, b: nat, c: nat,
                      k: nat)
    requires c <= b <= a <= |d| && Run(d, a, |d|, l) && Run(d, c, b, r) && d[b..a] == it.data && k <= |it.data|
    requires x.data == it.data[..k] && y.data == it.data[k..]
    ensures var d' := Halves(d, b, a, k);
            |d'| == |d| && Run(d', a, |d|, l) && Run(d', b, a, [x, y]) && Run(d', c, b, r)
    ensures |Area([x, y])| <= a && HeadsOf([x, y], a) == [Head(x.key, a - k, k), Head(y.key, b, a - b - k)]
  {
    hide Area, HeadsOf, Halves;
    var d' := Halves(d, b, a, k);
    HalvesAt(d, b, a, k, a, |d|);
    HalvesAt(d, b, a, k, c, b);
    RunOne(d', a - k, a, x);
    RunOne(d', b, a - k, y);
    HeadsOne(x, a);
    HeadsOne(y, a - k);
    Join(d', b, a - k, a, [x], [y]);
    assert [x] + [y] == [x, y];
  }

  lemma EmptyMiddle(d: seq<nat>, items: seq<Item>, slot: nat, a: nat, b: nat)
    requires slot <= |items| && Run(d, b, a, items[slot..slot])
    ensures a == b
  {
    NoArea();
  }

  /** With nothing below the slot there is nothing to move. */
  lemma NotMoved(d: seq<nat>, r: seq<Item>, c: nat, a: nat, n: nat)
    requires r == [] && n <= c == a <= |d|
    ensures Moved(d, c - n, c, a - c) == d && HeadsOf(r, a - n) == []
  {
    NoArea();
  }

  /** The headers of new items, from `end` down. */
  method NewHeads(keys: seq<Key>, sizes: seq<nat>, end: nat, ghost d: seq<nat>) returns (news: seq<Head>)
    requires |keys| == |sizes| && Total(sizes) <= end <= |d|
    ensures |Area(Slices(keys, sizes, d, end))| <= end && news == HeadsOf(Slices(keys, sizes, d, end), end)
  {
    hide Area, HeadsOf, Slices;
    news := [];
    var dataEnd := end;
    assert keys[..0] == [] && sizes[..0] == [];
    SlicesOk(keys[..0], sizes[..0], d, end);
    FirstSlice(d, end);
    for i := 0 to |keys|
      invariant dataEnd == end - Total(sizes[..i]) && Total(sizes[..i]) <= end
      invariant |Area(Slices(keys[..i], sizes[..i], d, end))| <= end
      invariant news == HeadsOf(Slices(keys[..i], sizes[..i], d, end), end)
    {
      TotalPrefix(sizes, i);
      assert keys[..i + 1][..i] == keys[..i] && sizes[..i + 1][..i] == sizes[..i];
      SlicesOk(keys[..i + 1], sizes[..i + 1], d, end);
      dataEnd := dataEnd - sizes[i];
      news := news + [Head(keys[i], dataEnd, sizes[i])];
    }
    assert keys[..|keys|] == keys && sizes[..|sizes|] == sizes;
  }

  lemma FirstSlice(d: seq<nat>, end: nat)
    requires end <= |d|
    ensures Slices([], [], d, end) == [] && Area([]) == [] && HeadsOf([], end) == []
  {
  }

  lemma {:induction false} TotalPrefix(sizes: seq<nat>, i: nat)
    requires i < |sizes|
    ensures Total(sizes[..i + 1]) == Total(sizes[..i]) + sizes[i] && Total(sizes[..i + 1]) <= Total(sizes)
    decreases |sizes|
  {
    assert sizes[..i + 1][..i] == sizes[..i];
    if i + 1 < |sizes| {
      TotalPrefix(sizes[..|sizes|-1], i);
      assert sizes[..|sizes|-1][..i + 1] == sizes[..i + 1];
    } else {
      assert sizes[..i + 1] == sizes;
    }
  }

  lemma Middle(d: seq<nat>, items: seq<Item>, slot: nat, a: nat, b: nat)
    requires slot < |items| && Run(d, b, a, items[slot..slot + 1])
    ensures items[slot..slot + 1] == [items[slot]] && b <= a <= |d|
    ensures a - b == |items[slot].data| && d[b..a] == items[slot].data
  {
    assert items[slot..slot + 1] == [items[slot]];
    RunOne(d, b, a, items[slot]);
  }

  lemma Rewritten(d: seq<nat>, d': seq<nat>, l: seq<Item>, it: Item, it': Item, r: seq<Item>, a: nat, b: nat, c: nat)
    requires c <= b <= a <= |d| && Run(d, a, |d|, l) && Run(d, c, b, r)
    requires |it'.data| == |it.data| == a - b && it'.key == it.key && d' == Wrote(d, b, it'.data)
    ensures |d'| == |d| && Run(d', a, |d'|, l) && Run(d', b, a, [it']) && Run(d', c, b, r)
    ensures HeadsOf([it'], a) == HeadsOf([it], a)
  {
    hide Wrote, Area;
    RunOne(d', b, a, it');
    Written(d, b, it'.data, a, |d|);
    Written(d, b, it'.data, c, b);
    HeadsOne(it, a);
    HeadsOne(it', a);
  }

  lemma ShiftedParts(hs: seq<Head>, hs': seq<Head>, slot: nat, d: int)
    requires slot < |hs| == |hs'| && Shifted(hs[slot..], hs'[slot..], d)
    ensures Shifted(hs[slot + 1..], hs'[slot + 1..], d)
    ensures hs'[slot].key == hs[slot].key && hs'[slot].size == hs[slot].size && hs'[slot].offset == hs[slot].offset + d
  {
    assert forall i :: 0 <= i < |hs| - slot ==> hs[slot..][i] == hs[slot + i] && hs'[slot..][i] == hs'[slot + i];
  }

  lemma OneHead(d: seq<nat>, lo: nat, end: nat, it: Item, h: Head)
    requires Run(d, lo, end, [it]) && h == Head(it.key, lo, end - lo)
    ensures |Area([it])| <= end && HeadsOf([it], end) == [h]
  {
    RunOne(d, lo, end, it);
    HeadsOne(it, end);
  }

  /** Deleting: the items below the gap slide up over it. */
  lemma SlideUp(d: seq<nat>, l: seq<Item>, r: seq<Item>, a: nat, b: nat, c: nat)
    requires c <= b <= a <= |d| && Run(d, a, |d|, l) && Run(d, c, b, r)
    ensures var d' := Moved(d, c + (a - b), c, b - c); |d'| == |d| && Run(d', a, |d|, l) && Run(d', c + (a - b), a, r)
  {
    hide Area;
    Slide(d, c, b, c + (a - b), r);
    Above(d, c + (a - b), c, b - c, a, |d|, l);
  }

  lemma HeadsMoved(r: seq<Item>, end: nat, end': nat, d: seq<nat>, c: nat, hs: seq<Head>)
    requires Run(d, c, end, r) && end - c <= end' && Shifted(HeadsOf(r, end), hs, end' - end)
    ensures |Area(r)| == end - c && hs == HeadsOf(r, end')
  {
    hide Area, HeadsOf;
    HeadsShifted(r, end, end', hs);
  }

  /** Nothing lies below the gap. */
  lemma Ends(d: seq<nat>, r: seq<Item>, c: nat, b: nat, a: nat)
    requires Run(d, c, b, r) && r == [] && b <= a <= |d|
    ensures c == b && Run(d, a, a, r) && HeadsOf(r, a) == []
  {
  }

  /** Two runs that make up a leaf. */
  lemma Joined(hs: seq<Head>, d: seq<nat>, l: seq<Item>, r: seq<Item>, a: nat, c: nat, n: nat)
    requires Run(d, a, |d|, l) && Run(d, c, a, r) && HeaderSpace(n) <= c && |l + r| <= n
    requires hs == HeadsOf(l, |d|) + HeadsOf(r, a)
    ensures Rep(hs, d, l + r)
  {
    hide Area, HeadsOf, Rep;
    RunNone(d, a);
    assert l + [] + r == l + r && HeadsOf(l, |d|) + [] + HeadsOf(r, a) == hs;
    Build(hs, d, l, [], r, a, a, c);
  }
}
