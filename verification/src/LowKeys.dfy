/** How the keys of a parent are kept: the writes to a parent's pairs, and
    fixup_low_keys, which carries the first key of a node up the path. */
module LowKeys {
  import opened Keys
  import opened Trees
  import opened Paths

  // ---- Writes to a parent's pairs ----

  /** A child's contents change; its key in the parent is another write. */
  function SetChild(par: seq<Ptr>, q: nat, t: Tree): seq<Ptr>
    requires q < |par|
  {
    par[q := Ptr(par[q].key, t)]
  }

  /** apfs_set_node_key. */
  function SetKey(par: seq<Ptr>, q: nat, key: Key): seq<Ptr>
    requires q < |par|
  {
    par[q := Ptr(key, par[q].child)]
  }

  /** insert_ptr. */
  function InsertPtr(par: seq<Ptr>, q: nat, key: Key, t: Tree): seq<Ptr>
    requires q <= |par|
  {
    par[..q] + [Ptr(key, t)] + par[q..]
  }

  /** del_ptr, apart from what it does to the keys above. */
  function DelPtr(par: seq<Ptr>, q: nat): seq<Ptr>
    requires q < |par|
  {
    par[..q] + par[q+1..]
  }

  /** What the writes do to one pair among others. */
  lemma WriteAt(u: seq<Ptr>, p: Ptr, v: seq<Ptr>, t: Tree)
    ensures SetChild(u + [p] + v, |u|, t) == u + [Ptr(p.key, t)] + v
    ensures HasLow(t) ==> SetKey(SetChild(u + [p] + v, |u|, t), |u|, Low(t)) == u + [Ptr(Low(t), t)] + v
    ensures DelPtr(u + [p] + v, |u|) == u + v
  {
  }

  /** Writing two neighbours and the key of the second gives both pairs, if the first
      key of the first has not changed. */
  lemma WrittenTwo(par: seq<Ptr>, q: nat, a: Tree, b: Tree)
    requires q + 1 < |par| && HasLow(a) && HasLow(b) && par[q].key == Low(a)
    ensures SetKey(SetChild(SetChild(par, q, a), q + 1, b), q + 1, Low(b))
         == Splice(par, q, q + 2, [Ptr(Low(a), a), Ptr(Low(b), b)])
  {
  }

  /** So does writing a child's lower half and inserting a pair for the upper. */
  lemma WrittenSplit(par: seq<Ptr>, q: nat, a: Tree, b: Tree)
    requires q < |par| && HasLow(a) && HasLow(b) && par[q].key == Low(a)
    ensures InsertPtr(SetChild(par, q, a), q + 1, Low(b), b)
         == Splice(par, q, q + 1, [Ptr(Low(a), a), Ptr(Low(b), b)])
  {
  }

  // ---- fixup_low_keys ----

  /** The frames with the key at the slot replaced, from the lowest frame up to
      and including the first one whose slot is not 0. */
  function FixKeys(fs: seq<Frame>, key: Key): (r: seq<Frame>)
    ensures |r| == |fs|
    decreases |fs|
  {
    if fs == [] then []
    else if Last(fs).left != [] then Up(fs) + [Last(fs).(key := key)]
    else FixKeys(Up(fs), key) + [Last(fs).(key := key)]
  }

  lemma FixNone(key: Key)
    ensures FixKeys([], key) == []
  {
  }

  lemma FixKeysStep(fs: seq<Frame>, key: Key)
    requires fs != []
    ensures FixKeys(fs, key) == (if Last(fs).left != [] then Up(fs) else FixKeys(Up(fs), key)) + [Last(fs).(key := key)]
  {
  }

  /** One round of the loop, with levels from `i + 1` down already fixed. */
  lemma FixOne(fs: seq<Frame>, cur: seq<Frame>, i: nat, key: Key)
    requires i < |fs| == |cur| && cur[..i+1] == fs[..i+1]
    requires FixKeys(fs, key) == FixKeys(fs[..i+1], key) + cur[i+1..]
    ensures var next := cur[i := cur[i].(key := key)];
            && next[..i] == fs[..i] && next[i].left == fs[i].left
            && FixKeys(fs, key) == if fs[i].left != [] then next else FixKeys(fs[..i], key) + next[i..]
  {
    hide FixKeys;
    var was, rest, f := fs[..i+1], cur[i+1..], fs[i].(key := key);
    assert cur[i] == cur[..i+1][i] == fs[i];
    assert Up(was) == fs[..i] && Last(was) == fs[i];
    FixKeysStep(was, key);
    var next := cur[i := f];
    assert next[..i] == cur[..i+1][..i] && next[i..] == [f] + rest;
    Assoc(if fs[i].left != [] then fs[..i] else FixKeys(fs[..i], key), [f], rest);
    assert next == next[..i] + next[i..];
  }

  method FixupLowKeys(p: Path, key: Key)
    modifies p
    ensures p.fs == FixKeys(old(p.fs), key) && p.node == old(p.node) && p.slot == old(p.slot)
  {
    hide FixKeys;
    var i := |p.fs|;
    ghost var fs := p.fs;
    assert fs[..i] == fs && p.fs[i..] == [];
    while i > 0
      invariant 0 <= i <= |p.fs| == |fs|
      invariant p.fs[..i] == fs[..i]
      invariant FixKeys(fs, key) == FixKeys(fs[..i], key) + p.fs[i..]
      invariant p.node == old(p.node) && p.slot == old(p.slot)
    {
      i := i - 1;
      FixOne(fs, p.fs, i, key);
      p.fs := p.fs[i := p.fs[i].(key := key)];
      if p.fs[i].left != [] { return; }
    }
    FixNone(key);
    assert fs[..0] == [] && p.fs[0..] == p.fs;
  }

  /** A path whose lowest frame may have a new first key: fixing the keys makes
      it well shaped again, and moves nothing. */
  lemma {:induction false} FixKeysOk(g: Geometry, fs: seq<Frame>, key: Key, h: nat)
    requires fs != [] ==>
               && PtrsOk(g, Last(fs).left, h) && PtrsOk(g, Last(fs).right, h) && Count(Last(fs)) <= g.cap
               && FramesOk(g, Up(fs), h + 1)
               && (|fs| > 1 && Last(fs).left != [] ==> Last(Up(fs)).key == Last(fs).left[0].key)
    ensures FramesOk(g, FixKeys(fs, key), h) && HoleKey(FixKeys(fs, key), key)
    decreases |fs|
  {
    if fs != [] {
      hide PtrsOk, FramesOk, FixKeys;
      var up := Up(fs);
      if up != [] { LastOk(g, up, h + 1); }
      FixKeysOk(g, up, key, h + 1);
      FixKeysStep(fs, key);
      PushFrame(g, if Last(fs).left != [] then up else FixKeys(up, key), Last(fs).(key := key), h);
    }
  }

  lemma {:induction false} FixKeysFlat(fs: seq<Frame>, key: Key)
    ensures Before(FixKeys(fs, key)) == Before(fs) && After(FixKeys(fs, key)) == After(fs)
    decreases |fs|
  {
    hide FlatPtrs;
    if fs != [] {
      FixKeysFlat(Up(fs), key);
      var r, f := FixKeys(fs, key), Last(fs).(key := key);
      assert Last(r) == f;
      assert Up(r) == if Last(fs).left != [] then Up(fs) else FixKeys(Up(fs), key);
    }
  }

  lemma FixKeysCount(fs: seq<Frame>, key: Key)
    ensures fs != [] ==> Count(Last(FixKeys(fs, key))) == Count(Last(fs))
  {
  }

  /** When the lowest slot is not 0 and already carries the key there is nothing
      to fix. */
  lemma SameWithoutFix(g: Geometry, fs: seq<Frame>, key: Key)
    requires fs != [] && Last(fs).key == key
    ensures Last(fs).left != [] ==> FixKeys(fs, key) == fs
  {
    if Last(fs).left != [] {
      assert Last(fs).(key := key) == Last(fs);
      assert FixKeys(fs, key) == Up(fs) + [Last(fs)] == fs;
    }
  }

  /** At a slot that is not 0 only the key there changes. */
  lemma FixAtSlot(fs: seq<Frame>, key: Key, t: Tree)
    requires fs != [] && Last(fs).left != []
    ensures Up(FixKeys(fs, key)) == Up(fs)
    ensures Siblings(Last(FixKeys(fs, key)), t) == SetKey(Siblings(Last(fs), t), |Last(fs).left|, key)
  {
  }

  /** Keys that are right already stay as they are. */
  lemma {:induction false} FixSame(g: Geometry, fs: seq<Frame>, key: Key, h: nat)
    requires FramesOk(g, fs, h) && HoleKey(fs, key)
    ensures FixKeys(fs, key) == fs
    decreases |fs|
  {
    if fs != [] {
      hide PtrsOk, FramesOk, FixKeys;
      LastOk(g, fs, h);
      FixKeysStep(fs, key);
      if Last(fs).left == [] { FixSame(g, Up(fs), key, h + 1); }
      assert Last(fs).(key := key) == Last(fs);
      assert Up(fs) + [Last(fs)] == fs;
    }
  }
}
