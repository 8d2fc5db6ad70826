/** Delayed-allocation reservations of an inode (delalloc-space.c): what is reserved
    for a write covers what the write adds to the inode's target, whatever the inode
    already holds, because every count involved is a ceiling. */
module Delalloc {
  import opened Prelude

  const MAX_EXTENT_SIZE := 0x800_0000
  const MAX_LEVEL := 16

  /** Sector size, checksums per leaf and node size of a file system. */
  datatype Geometry = Geometry(sector: Pos, csumsPerLeaf: Pos, nodesize: nat)

  /** Sectors divide the largest extent. */
  predicate GeometryOk(g: Geometry) { MAX_EXTENT_SIZE % g.sector == 0 }

  /** DIV_ROUND_UP. */
  function CeilDiv(n: nat, d: Pos): nat { (n + d - 1) / d }

  /** ALIGN to whole sectors. */
  function Align(n: nat, sector: Pos): nat { CeilDiv(n, sector) * sector }

  function CountMaxExtents(n: nat): nat { CeilDiv(n, MAX_EXTENT_SIZE) }

  function CsumLeaves(g: Geometry, bytes: nat): nat { CeilDiv(bytes / g.sector, g.csumsPerLeaf) }

  function InsertSize(g: Geometry, items: nat): nat { g.nodesize * MAX_LEVEL * 2 * items }

  function UpdateSize(g: Geometry, items: nat): nat { g.nodesize * MAX_LEVEL * items }

  /** apfs_calculate_inode_block_rsv_size. */
  function Target(g: Geometry, extents: nat, csumBytes: nat): nat {
    (if extents > 0 then InsertSize(g, extents) + UpdateSize(g, 1) else 0) + InsertSize(g, CsumLeaves(g, csumBytes))
  }

  /** calc_inode_reservations. */
  function MetaReserve(g: Geometry, n: nat): nat {
    InsertSize(g, CountMaxExtents(n) + CsumLeaves(g, n)) + UpdateSize(g, 1)
  }

  // ---- Ceilings ----

  /** A ceiling is the least multiple that is large enough. */
  lemma CeilBounds(n: nat, d: Pos)
    ensures n <= CeilDiv(n, d) * d < n + d
  {
    var q, r := (n + d - 1) / d, (n + d - 1) % d;
    assert n + d - 1 == q * d + r;
  }

  lemma MulMonotone(a: nat, b: nat, d: Pos)
    requires a <= b
    ensures a * d <= b * d
  {
    assert b * d == a * d + (b - a) * d;
  }

  lemma CeilLeast(n: nat, d: Pos, k: nat)
    ensures n <= k * d <==> CeilDiv(n, d) <= k
  {
    CeilBounds(n, d);
    hide CeilDiv;
    var c := CeilDiv(n, d);
    if c <= k {
      MulMonotone(c, k, d);
    } else {
      MulMonotone(k + 1, c, d);
      assert (k + 1) * d == k * d + d;
    }
  }

  lemma CeilSubadditive(a: nat, b: nat, d: Pos)
    ensures CeilDiv(a + b, d) <= CeilDiv(a, d) + CeilDiv(b, d)
  {
    CeilBounds(a, d);
    CeilBounds(b, d);
    CeilLeast(a + b, d, CeilDiv(a, d) + CeilDiv(b, d));
  }

  lemma CeilMonotone(a: nat, b: nat, d: Pos)
    requires a <= b
    ensures CeilDiv(a, d) <= CeilDiv(b, d)
  {
    CeilBounds(b, d);
    CeilLeast(a, d, CeilDiv(b, d));
  }

  lemma AlignedSum(a: nat, b: nat, s: Pos)
    ensures (a * s + b * s) / s == a + b
  {
    assert a * s + b * s == (a + b) * s;
    MulDiv(a + b, s);
  }

  lemma MulDiv(k: nat, s: Pos)
    ensures k * s / s == k
  {
    var q := k * s / s;
    assert k * s == q * s + k * s % s;
    assert q < k ==> (q + 1) * s <= k * s;
    assert q > k ==> (k + 1) * s <= q * s;
  }

  lemma MulMod(k: nat, s: Pos)
    ensures k * s % s == 0
  {
    MulDiv(k, s);
  }

  lemma AlignedBytes(n: nat, s: Pos)
    ensures Align(n, s) % s == 0
  {
    MulMod(CeilDiv(n, s), s);
  }

  /** Rounding a length up to whole sectors does not change how many extents it
      needs, so the two release paths agree although only one of them aligns. */
  lemma AlignedExtents(g: Geometry, n: nat)
    requires GeometryOk(g)
    ensures CountMaxExtents(Align(n, g.sector)) == CountMaxExtents(n)
  {
    hide CeilDiv;
    var m, s := MAX_EXTENT_SIZE, g.sector;
    var c, k := CountMaxExtents(n), CeilDiv(n, s);
    CeilBounds(n, m);
    CeilBounds(n, s);
    var t := m / s;
    assert m == t * s;
    // c extents are a whole number of sectors that holds n
    CeilLeast(n, s, c * t);
    assert (c * t) * s == c * (t * s);
    assert k <= c * t ==> k * s <= (c * t) * s;
    CeilLeast(k * s, m, c);
    CeilMonotone(n, k * s, m);
  }

  // ---- The bound ----

  lemma Spread(u: nat, a: nat, b: nat)
    ensures u * (a + b) == u * a + u * b
    ensures a <= b ==> u * a <= u * b
  {
    assert a <= b ==> u * b == u * a + u * (b - a);
  }

  /** Checksum leaves of two aligned lengths together. */
  lemma LeavesSubadditive(g: Geometry, a: nat, b: nat)
    requires a % g.sector == 0 && b % g.sector == 0
    ensures CsumLeaves(g, a + b) <= CsumLeaves(g, a) + CsumLeaves(g, b)
    ensures (a + b) % g.sector == 0
  {
    hide CeilDiv;
    var s := g.sector;
    var x, y := a / s, b / s;
    assert a == x * s && b == y * s;
    AlignedSum(x, y, s);
    CeilSubadditive(x, y, g.csumsPerLeaf);
    assert a + b == (x + y) * s;
    MulMod(x + y, s);
  }

  /** What is reserved for an aligned write covers the rise of the target, whatever
      the inode already has outstanding. */
  lemma ReserveCovers(g: Geometry, extents: nat, csumBytes: nat, n: nat)
    requires csumBytes % g.sector == 0 && n % g.sector == 0
    ensures Target(g, extents + CountMaxExtents(n), csumBytes + n) <= Target(g, extents, csumBytes) + MetaReserve(g, n)
  {
    hide CeilDiv, CsumLeaves, CountMaxExtents;
    LeavesSubadditive(g, csumBytes, n);
    var e, c, d := CountMaxExtents(n), CsumLeaves(g, csumBytes), CsumLeaves(g, n);
    var u := g.nodesize * MAX_LEVEL * 2;
    Spread(u, extents, e);
    Spread(u, e, d);
    Spread(u, c, d);
    Spread(u, CsumLeaves(g, csumBytes + n), c + d);
  }

  lemma DivMonotone(a: nat, b: nat, d: Pos)
    requires a <= b
    ensures a / d <= b / d
  {
    var x, y := a / d, b / d;
    assert a == x * d + a % d && b == y * d + b % d;
    assert x > y ==> x * d >= (y + 1) * d;
  }

  /** Less outstanding never needs more. */
  lemma TargetMonotone(g: Geometry, e: nat, c: nat, e': nat, c': nat)
    requires e' <= e && c' <= c
    ensures Target(g, e', c') <= Target(g, e, c)
  {
    hide CeilDiv;
    DivMonotone(c', c, g.sector);
    CeilMonotone(c' / g.sector, c / g.sector, g.csumsPerLeaf);
    var u := g.nodesize * MAX_LEVEL * 2;
    Spread(u, e', e);
    Spread(u, CsumLeaves(g, c'), CsumLeaves(g, c));
  }

  // ---- What the target is ----

  /** So many leaves have room for a checksum of every sector. */
  predicate Holds(g: Geometry, leaves: nat, bytes: nat) { bytes <= leaves * g.csumsPerLeaf * g.sector }

  /** Two nodes on each of 16 levels for every extent and every leaf, and one for the
      inode if there is an extent. */
  function Cost(g: Geometry, extents: nat, leaves: nat): nat {
    g.nodesize * 16 * (2 * extents + 2 * leaves + if extents > 0 then 1 else 0)
  }

  /** Enough for the extents and for some number of leaves that holds the checksums. */
  ghost predicate Covers(g: Geometry, extents: nat, csumBytes: nat, size: nat) {
    exists leaves: nat :: Holds(g, leaves, csumBytes) && Cost(g, extents, leaves) <= size
  }

  /** ... and nothing less is. */
  ghost predicate JustCovers(g: Geometry, extents: nat, csumBytes: nat, size: nat) {
    Covers(g, extents, csumBytes, size) && forall m: nat :: Covers(g, extents, csumBytes, m) ==> size <= m
  }

  /** The number of checksum leaves is the least that holds the checksums, and so is the
      number of extents for a length. */
  lemma LeavesLeast(g: Geometry, bytes: nat, k: nat)
    requires bytes % g.sector == 0
    ensures Holds(g, k, bytes) <==> CsumLeaves(g, bytes) <= k
  {
    hide CeilDiv;
    var x, y := bytes / g.sector, k * g.csumsPerLeaf;
    CeilLeast(x, g.csumsPerLeaf, k);
    assert bytes == x * g.sector;
    if x <= y {
      MulMonotone(x, y, g.sector);
    } else {
      MulMonotone(y + 1, x, g.sector);
      assert (y + 1) * g.sector == y * g.sector + g.sector;
    }
  }

  lemma ExtentsLeast(n: nat, k: nat)
    ensures n <= k * 0x800_0000 <==> CountMaxExtents(n) <= k
  {
    CeilLeast(n, MAX_EXTENT_SIZE, k);
  }

  lemma CostIs(g: Geometry, extents: nat, leaves: nat)
    ensures Cost(g, extents, leaves)
         == (if extents > 0 then InsertSize(g, extents) + UpdateSize(g, 1) else 0) + InsertSize(g, leaves)
    ensures forall k: nat :: leaves <= k ==> Cost(g, extents, leaves) <= Cost(g, extents, k)
  {
    var v, f := g.nodesize * 16, if extents > 0 then 1 else 0;
    Spread(v, 2 * extents + 2 * leaves, f);
    Spread(v, 2 * extents, 2 * leaves);
    assert v * (2 * extents) == v * 2 * extents && v * (2 * leaves) == v * 2 * leaves;
    forall k: nat | leaves <= k ensures Cost(g, extents, leaves) <= Cost(g, extents, k) {
      Spread(v, 2 * extents + 2 * leaves + f, 2 * extents + 2 * k + f);
    }
  }

  /** The target is exactly what covers the counts. */
  lemma TargetIs(g: Geometry, extents: nat, csumBytes: nat)
    requires csumBytes % g.sector == 0
    ensures JustCovers(g, extents, csumBytes, Target(g, extents, csumBytes))
  {
    hide CeilDiv, CsumLeaves, Holds, Cost, InsertSize, UpdateSize;
    var l := CsumLeaves(g, csumBytes);
    LeavesLeast(g, csumBytes, l);
    CostIs(g, extents, l);
    assert Holds(g, l, csumBytes) && Cost(g, extents, l) <= Target(g, extents, csumBytes);
    forall m: nat | Covers(g, extents, csumBytes, m) ensures Target(g, extents, csumBytes) <= m {
      var k: nat :| Holds(g, k, csumBytes) && Cost(g, extents, k) <= m;
      LeavesLeast(g, csumBytes, k);
    }
  }

  lemma MoreCovers(g: Geometry, extents: nat, csumBytes: nat, size: nat, more: nat)
    requires Covers(g, extents, csumBytes, size) && size <= more
    ensures Covers(g, extents, csumBytes, more)
  {
    hide Holds, Cost;
    var k: nat :| Holds(g, k, csumBytes) && Cost(g, extents, k) <= size;
    assert Holds(g, k, csumBytes) && Cost(g, extents, k) <= more;
  }

  /** What is reserved for the first write of an inode is exactly what covers it. */
  lemma FirstWrite(g: Geometry, n: nat)
    requires n > 0 && n % g.sector == 0
    ensures JustCovers(g, CountMaxExtents(n), n, MetaReserve(g, n))
  {
    hide CeilDiv, CsumLeaves, JustCovers;
    ExtentsLeast(n, 0);
    TargetIs(g, CountMaxExtents(n), n);
    Spread(g.nodesize * MAX_LEVEL * 2, CountMaxExtents(n), CsumLeaves(g, n));
  }

  /** What is reserved for any write covers it, on top of whatever covers the writes
      outstanding. */
  lemma WriteCovered(g: Geometry, extents: nat, csumBytes: nat, n: nat, size: nat)
    requires csumBytes % g.sector == 0 && n % g.sector == 0 && Covers(g, extents, csumBytes, size)
    ensures Covers(g, extents + CountMaxExtents(n), csumBytes + n, size + MetaReserve(g, n))
  {
    hide CeilDiv, CsumLeaves, CountMaxExtents, Target, MetaReserve, Covers;
    var e, c := extents + CountMaxExtents(n), csumBytes + n;
    LeavesSubadditive(g, csumBytes, n);
    TargetIs(g, extents, csumBytes);
    ReserveCovers(g, extents, csumBytes, n);
    TargetIs(g, e, c);
    MoreCovers(g, e, c, Target(g, e, c), size + MetaReserve(g, n));
  }

  lemma NoTarget(g: Geometry)
    ensures Target(g, 0, 0) == 0
  {
    CeilLeast(0, g.csumsPerLeaf, 0);
    MulDiv(0, g.sector);
  }

  /** Why the counts are raised before the bytes are added: were they added first, a
      release in between would cut the reserve of a new inode back to its target
      of 0, and the write would then be counted without its bytes. */
  lemma OtherOrderFails(g: Geometry, n: nat)
    requires n > 0 && g.nodesize > 0
    ensures Min(MetaReserve(g, Align(n, g.sector)), Target(g, 0, 0))
          < Target(g, CountMaxExtents(n), Align(n, g.sector))
  {
    hide CeilDiv, CsumLeaves, Align;
    CeilLeast(n, MAX_EXTENT_SIZE, 0);
    NoTarget(g);
    Spread(g.nodesize * MAX_LEVEL * 2, 0, CountMaxExtents(n));
    Spread(g.nodesize * MAX_LEVEL * 2, 0, CsumLeaves(g, Align(n, g.sector)));
  }

  // ---- The inode ----

  /** Extents, aligned bytes and reservations of a list of writes. */
  function Extents(ws: seq<nat>): nat {
    if ws == [] then 0 else CountMaxExtents(ws[0]) + Extents(ws[1..])
  }

  function Bytes(ws: seq<nat>, sector: Pos): nat {
    if ws == [] then 0 else Align(ws[0], sector) + Bytes(ws[1..], sector)
  }

  function Reserves(g: Geometry, ws: seq<nat>): nat {
    if ws == [] then 0 else MetaReserve(g, Align(ws[0], g.sector)) + Reserves(g, ws[1..])
  }

  function Sum(bs: seq<nat>): nat {
    if bs == [] then 0 else bs[0] + Sum(bs[1..])
  }

  function Remove(ws: seq<nat>, k: nat): seq<nat>
    requires k < |ws|
  {
    ws[..k] + ws[k+1..]
  }

  /** Taking one write out of a list. */
  lemma {:induction false} RemoveOne(g: Geometry, ws: seq<nat>, k: nat)
    requires k < |ws|
    ensures Extents(ws) == Extents(Remove(ws, k)) + CountMaxExtents(ws[k])
    ensures Bytes(ws, g.sector) == Bytes(Remove(ws, k), g.sector) + Align(ws[k], g.sector)
    ensures Reserves(g, ws) == Reserves(g, Remove(ws, k)) + MetaReserve(g, Align(ws[k], g.sector))
  {
    hide CountMaxExtents, Align, MetaReserve;
    if k == 0 {
      assert Remove(ws, 0) == ws[1..];
    } else {
      RemoveOne(g, ws[1..], k - 1);
      assert Remove(ws, k)[0] == ws[0] && Remove(ws, k)[1..] == Remove(ws[1..], k - 1);
    }
  }

  lemma {:induction false} SumUpdate(bs: seq<nat>, k: nat, b: nat)
    requires k < |bs|
    ensures Sum(bs[k := b]) == Sum(bs) - bs[k] + b
  {
    if k == 0 {
      assert bs[k := b][1..] == bs[1..];
    } else {
      SumUpdate(bs[1..], k - 1, b);
      assert bs[k := b][1..] == bs[1..][k - 1 := b];
    }
  }

  ghost predicate AllAligned(bs: seq<nat>, sector: Pos) {
    forall i :: 0 <= i < |bs| ==> bs[i] % sector == 0
  }

  lemma SumMod(a: nat, b: nat, s: Pos)
    requires a % s == 0 && b % s == 0
    ensures (a + b) % s == 0
  {
    var x, y := a / s, b / s;
    assert a == x * s && b == y * s;
    assert a + b == (x + y) * s;
    MulMod(x + y, s);
  }

  lemma DifferenceMod(a: nat, b: nat, s: Pos)
    requires a % s == 0 && b % s == 0 && b <= a
    ensures (a - b) % s == 0
  {
    var x, y := a / s, b / s;
    DivMonotone(b, a, s);
    assert a == x * s && b == y * s;
    assert a - b == (x - y) * s;
    MulMod(x - y, s);
  }

  lemma {:induction false} BytesAligned(ws: seq<nat>, sector: Pos)
    ensures Bytes(ws, sector) % sector == 0
  {
    hide Align;
    if ws != [] {
      BytesAligned(ws[1..], sector);
      AlignedBytes(ws[0], sector);
      SumMod(Align(ws[0], sector), Bytes(ws[1..], sector), sector);
    }
  }

  lemma {:induction false} SumAligned(bs: seq<nat>, sector: Pos)
    requires AllAligned(bs, sector)
    ensures Sum(bs) % sector == 0
  {
    if bs != [] {
      SumAligned(bs[1..], sector);
      SumMod(bs[0], Sum(bs[1..]), sector);
    }
  }

  lemma NothingHeld(g: Geometry)
    ensures Target(g, 0, 0) == 0 && Extents([]) == 0 && Bytes([], g.sector) == 0
  {
    NoTarget(g);
  }

  /** An inode and the threads at work on it.  A reservation raises the counts under
      the inode's lock and adds its bytes to the reserve later; a release lowers a
      count under that lock and hands back the excess later.  Anything can come
      between the two steps. */
  class Inode {
    const g: Geometry
    var outstandingExtents: nat
    var csumBytes: nat
    // the inode's block_rsv
    var size: nat
    var reserved: nat
    // bytes handed back so far
    var released: nat
    // writes counted whose bytes have not been added yet
    var pending: seq<nat>
    // bytes whose metadata, and writes whose extents, their callers have to release
    var heldMeta: seq<nat>
    var heldExtents: seq<nat>
    // releases that have not handed back the excess yet
    var releasing: nat
    ghost var granted: nat

    /** Nobody is at work on the inode and nothing is held. */
    predicate Idle()
      reads this
    {
      pending == [] && Sum(heldMeta) == 0 && heldExtents == [] && releasing == 0
    }

    /** The reserve, with what is still to be added, covers the target; the target is
        that of the writes counted; and bytes granted are in the reserve, on their
        way to it or handed back. */
    ghost predicate Valid()
      reads this
    {
      && GeometryOk(g)
      && outstandingExtents == Extents(pending) + Extents(heldExtents)
      && csumBytes == Bytes(pending, g.sector) + Sum(heldMeta) && AllAligned(heldMeta, g.sector)
      && size == Target(g, outstandingExtents, csumBytes) && reserved + Reserves(g, pending) >= size
      && reserved + Reserves(g, pending) + released == granted
      && (Idle() ==> reserved == size)
    }

    constructor (g: Geometry)
      requires GeometryOk(g)
      ensures Valid() && this.g == g && Idle() && reserved == 0
    {
      this.g := g;
      outstandingExtents, csumBytes, size, reserved, released := 0, 0, 0, 0, 0;
      pending, heldMeta, heldExtents, releasing, granted := [], [], [], 0, 0;
      new;
      NothingHeld(g);
    }

    lemma CsumAligned()
      requires Valid()
      ensures csumBytes % g.sector == 0
    {
      hide Bytes, Sum, Extents, Target, Reserves;
      BytesAligned(pending, g.sector);
      SumAligned(heldMeta, g.sector);
      SumMod(Bytes(pending, g.sector), Sum(heldMeta), g.sector);
    }

    /** The size is exactly what covers the counts, and the reserve with what is on its
        way covers them. */
    lemma Covered()
      requires Valid()
      ensures JustCovers(g, outstandingExtents, csumBytes, size)
      ensures Covers(g, outstandingExtents, csumBytes, reserved + Reserves(g, pending))
    {
      hide Bytes, Sum, Extents, Target, Reserves, Covers;
      CsumAligned();
      TargetIs(g, outstandingExtents, csumBytes);
      MoreCovers(g, outstandingExtents, csumBytes, size, reserved + Reserves(g, pending));
    }

    /** The locked step of apfs_delalloc_reserve_metadata, once the space has been
        granted: the write counts, its bytes are on their way. */
    method RaiseCounts(n: nat)
      requires Valid()
      modifies this
      ensures Valid() && pending == [n] + old(pending) && reserved == old(reserved)
      ensures heldMeta == old(heldMeta) && heldExtents == old(heldExtents) && releasing == old(releasing)
      ensures outstandingExtents == old(outstandingExtents) + CountMaxExtents(n)
      ensures csumBytes == old(csumBytes) + Align(n, g.sector) && released == old(released)
      ensures JustCovers(g, outstandingExtents, csumBytes, size)
    {
      hide CeilDiv, CountMaxExtents, CsumLeaves, Align, Target, MetaReserve, Sum;
      var bytes := Align(n, g.sector);
      CsumAligned();
      AlignedBytes(n, g.sector);
      AlignedExtents(g, n);
      ReserveCovers(g, outstandingExtents, csumBytes, bytes);
      outstandingExtents := outstandingExtents + CountMaxExtents(bytes);
      csumBytes := csumBytes + bytes;
      size := Target(g, outstandingExtents, csumBytes);
      pending, granted := [n] + pending, granted + MetaReserve(g, bytes);
      Covered();
    }

    /** The last step of apfs_delalloc_reserve_metadata, for the k-th write under way. */
    method AddBytes(k: nat)
      requires Valid() && k < |pending|
      modifies this
      ensures Valid() && pending == Remove(old(pending), k) && released == old(released)
      ensures heldMeta == [Align(old(pending)[k], g.sector)] + old(heldMeta)
      ensures heldExtents == [old(pending)[k]] + old(heldExtents) && releasing == old(releasing)
      ensures reserved == old(reserved) + MetaReserve(g, Align(old(pending)[k], g.sector))
      ensures outstandingExtents == old(outstandingExtents) && csumBytes == old(csumBytes) && size == old(size)
    {
      hide CeilDiv, CountMaxExtents, CsumLeaves, Align, Target, MetaReserve, Reserves, Bytes;
      var n := pending[k];
      var bytes := Align(n, g.sector);
      RemoveOne(g, pending, k);
      AlignedBytes(n, g.sector);
      pending := Remove(pending, k);
      heldMeta, heldExtents := [bytes] + heldMeta, [n] + heldExtents;
      reserved := reserved + MetaReserve(g, bytes);
    }

    /** The locked step of apfs_delalloc_release_metadata, for some of the k-th length
        held. */
    method LowerCsum(n: nat, k: nat)
      requires Valid() && k < |heldMeta| && Align(n, g.sector) <= heldMeta[k]
      modifies this
      ensures Valid() && heldMeta == old(heldMeta)[k := old(heldMeta)[k] - Align(n, g.sector)]
      ensures pending == old(pending) && heldExtents == old(heldExtents) && releasing == old(releasing) + 1
      ensures csumBytes == old(csumBytes) - Align(n, g.sector) && outstandingExtents == old(outstandingExtents)
      ensures reserved == old(reserved) && released == old(released)
      ensures JustCovers(g, outstandingExtents, csumBytes, size)
    {
      hide CeilDiv, CountMaxExtents, CsumLeaves, Align, Target, MetaReserve, Reserves, Bytes, Sum;
      var bytes := Align(n, g.sector);
      AlignedBytes(n, g.sector);
      DifferenceMod(heldMeta[k], bytes, g.sector);
      SumUpdate(heldMeta, k, heldMeta[k] - bytes);
      TargetMonotone(g, outstandingExtents, csumBytes, outstandingExtents, csumBytes - bytes);
      heldMeta := heldMeta[k := heldMeta[k] - bytes];
      csumBytes := csumBytes - bytes;
      size := Target(g, outstandingExtents, csumBytes);
      releasing := releasing + 1;
      Covered();
    }

    /** The locked step of apfs_delalloc_release_extents, for the k-th write held. */
    method LowerExtents(n: nat, k: nat)
      requires Valid() && k < |heldExtents| && heldExtents[k] == n
      modifies this
      ensures Valid() && heldExtents == Remove(old(heldExtents), k)
      ensures pending == old(pending) && heldMeta == old(heldMeta) && releasing == old(releasing) + 1
      ensures outstandingExtents == old(outstandingExtents) - CountMaxExtents(n) && csumBytes == old(csumBytes)
      ensures reserved == old(reserved) && released == old(released)
      ensures JustCovers(g, outstandingExtents, csumBytes, size)
    {
      hide CeilDiv, CountMaxExtents, CsumLeaves, Align, Target, MetaReserve, Reserves, Bytes, Sum, Extents;
      var extents := CountMaxExtents(n);
      RemoveOne(g, heldExtents, k);
      TargetMonotone(g, outstandingExtents, csumBytes, outstandingExtents - extents, csumBytes);
      heldExtents := Remove(heldExtents, k);
      outstandingExtents := outstandingExtents - extents;
      size := Target(g, outstandingExtents, csumBytes);
      releasing := releasing + 1;
      Covered();
    }

    /** apfs_inode_rsv_release: what the reserve then holds above its target goes back.
        It never takes what a reservation under way has counted on. */
    method RsvRelease()
      requires Valid() && releasing > 0
      modifies this`reserved, this`released, this`releasing
      ensures Valid() && releasing == old(releasing) - 1
      ensures reserved == Min(old(reserved), size) && released == old(released) + (old(reserved) - reserved)
      ensures pending == [] ==> reserved == size
      ensures JustCovers(g, outstandingExtents, csumBytes, size)
      ensures Covers(g, outstandingExtents, csumBytes, reserved + Reserves(g, pending))
    {
      hide Extents, Bytes, Sum, Target;
      if reserved >= size {
        released := released + (reserved - size);
        reserved := size;
      }
      releasing := releasing - 1;
      Covered();
    }

    /** apfs_delalloc_reserve_metadata by itself; `ok` is whether the space could be
        reserved. */
    method ReserveMetadata(n: nat, ok: bool) returns (ret: int)
      requires Valid()
      modifies this
      ensures Valid() && ret == (if ok then 0 else ENOSPC) && pending == old(pending)
      ensures heldMeta == (if ok then [Align(n, g.sector)] else []) + old(heldMeta)
      ensures heldExtents == (if ok then [n] else []) + old(heldExtents) && releasing == old(releasing)
      ensures outstandingExtents == old(outstandingExtents) + if ok then CountMaxExtents(n) else 0
      ensures csumBytes == old(csumBytes) + if ok then Align(n, g.sector) else 0
      ensures reserved == old(reserved) + if ok then MetaReserve(g, Align(n, g.sector)) else 0
    {
      hide CeilDiv, CountMaxExtents, CsumLeaves, Align, Target, MetaReserve, Sum;
      if !ok { return ENOSPC; }
      RaiseCounts(n);
      AddBytes(0);
      assert Remove([n] + old(pending), 0) == old(pending);
      return 0;
    }

    /** apfs_delalloc_release_metadata by itself. */
    method ReleaseMetadata(n: nat, k: nat)
      requires Valid() && k < |heldMeta| && Align(n, g.sector) <= heldMeta[k]
      modifies this
      ensures Valid() && heldMeta == old(heldMeta)[k := old(heldMeta)[k] - Align(n, g.sector)]
      ensures pending == old(pending) && heldExtents == old(heldExtents) && releasing == old(releasing)
      ensures csumBytes == old(csumBytes) - Align(n, g.sector) && outstandingExtents == old(outstandingExtents)
      ensures reserved == Min(old(reserved), size) && (pending == [] ==> reserved == size)
    {
      hide CeilDiv, CountMaxExtents, CsumLeaves, Align, Target, MetaReserve, Sum;
      LowerCsum(n, k);
      RsvRelease();
    }

    /** apfs_delalloc_release_extents by itself. */
    method ReleaseExtents(n: nat, k: nat)
      requires Valid() && k < |heldExtents| && heldExtents[k] == n
      modifies this
      ensures Valid() && heldExtents == Remove(old(heldExtents), k)
      ensures pending == old(pending) && heldMeta == old(heldMeta) && releasing == old(releasing)
      ensures outstandingExtents == old(outstandingExtents) - CountMaxExtents(n) && csumBytes == old(csumBytes)
      ensures reserved == Min(old(reserved), size) && (pending == [] ==> reserved == size)
    {
      hide CeilDiv, CountMaxExtents, CsumLeaves, Align, Target, MetaReserve, Sum;
      LowerExtents(n, k);
      RsvRelease();
    }

    /** A write that is reserved and then released leaves the counts as they were and,
        if no other is under way, the reserve exactly at its target. */
    method ReserveAndRelease(n: nat)
      requires Valid()
      modifies this
      ensures Valid() && outstandingExtents == old(outstandingExtents) && csumBytes == old(csumBytes)
      ensures heldExtents == old(heldExtents) && Sum(heldMeta) == old(Sum(heldMeta)) && pending == old(pending)
      ensures size == old(size) && (pending == [] ==> reserved == size)
    {
      hide CeilDiv, CountMaxExtents, CsumLeaves, Align, Target, MetaReserve;
      var ret := ReserveMetadata(n, true);
      ReleaseMetadata(n, 0);
      ReleaseExtents(n, 0);
      assert Remove([n] + old(heldExtents), 0) == old(heldExtents);
    }

    /** However the steps of any number of reservations and releases interleave: the
        reserve with what is on its way covers its target throughout, no count ever
        wraps, and once nobody is at work and everything has been released, all that
        was granted has been handed back. */
    method RunAll(ops: seq<Op>)
      requires Valid()
      modifies this
      ensures Valid() && JustCovers(g, outstandingExtents, csumBytes, size)
      ensures Covers(g, outstandingExtents, csumBytes, reserved + Reserves(g, pending))
      ensures Idle() ==> outstandingExtents == 0 && csumBytes == 0 && size == 0 && released == granted
    {
      hide CeilDiv, CountMaxExtents, CsumLeaves, Align, Target, MetaReserve;
      for i := 0 to |ops|
        invariant Valid()
      {
        match ops[i] {
          case RaiseCounts(n) => RaiseCounts(n);
          case AddBytes(k) => if k < |pending| { AddBytes(k); }
          case LowerCsum(n, k) => if k < |heldMeta| && Align(n, g.sector) <= heldMeta[k] { LowerCsum(n, k); }
          case LowerExtents(k) => if k < |heldExtents| { LowerExtents(heldExtents[k], k); }
          case RsvRelease => if releasing > 0 { RsvRelease(); }
        }
      }
      Covered();
      NothingHeld(g);
    }
  }

  /** A step names the write it is for by its position. */
  datatype Op = RaiseCounts(n: nat) | AddBytes(k: nat) | LowerCsum(n: nat, k: nat) | LowerExtents(k: nat) | RsvRelease
}
