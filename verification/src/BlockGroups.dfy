/** Space counters of block-group.c: what a space_info says is the sum of what its
    block groups hold, whatever is reserved, allocated, freed, unpinned, made
    read-only and writable again, or removed. */
module BlockGroups {
  import opened Prelude

  /** `ro` and `swap` count the holders of a read-only mark and of swap extents. */
  datatype Group = Group(space: nat, start: nat, length: nat, used: nat, reserved: nat, pinned: nat, super: nat,
                         ro: nat, swap: nat)

  /** The counters of a space_info that groups contribute to. */
  datatype Info = Info(total: int, used: int, reserved: int, pinned: int, readonly: int)

  const NONE := Info(0, 0, 0, 0, 0)

  function Plus(a: Info, b: Info): Info {
    Info(a.total + b.total, a.used + b.used, a.reserved + b.reserved, a.pinned + b.pinned, a.readonly + b.readonly)
  }

  function Minus(a: Info, b: Info): Info {
    Info(a.total - b.total, a.used - b.used, a.reserved - b.reserved, a.pinned - b.pinned, a.readonly - b.readonly)
  }

  function Free(g: Group): int { g.length - g.reserved - g.pinned - g.super - g.used }

  /** What one group contributes: its super bytes count as read-only, and so does the
      free space of a read-only group. */
  function Share(g: Group): Info {
    Info(g.length, g.used, g.reserved, g.pinned, g.super + if g.ro > 0 then Free(g) else 0)
  }

  function Part(g: Group, sp: nat): Info { if g.space == sp then Share(g) else NONE }

  function Totals(gs: seq<Group>, sp: nat): Info {
    if gs == [] then NONE else Plus(Part(gs[0], sp), Totals(gs[1..], sp))
  }

  lemma PlusLaws(a: Info, b: Info, c: Info)
    ensures Plus(a, Plus(b, c)) == Plus(Plus(a, b), c) && Plus(NONE, a) == a && Plus(a, NONE) == a
  {
  }

  lemma {:induction false} TotalsConcat(a: seq<Group>, b: seq<Group>, sp: nat)
    ensures Totals(a + b, sp) == Plus(Totals(a, sp), Totals(b, sp))
  {
    hide Plus, Part;
    if a == [] {
      assert a + b == b;
      PlusLaws(Totals(b, sp), NONE, NONE);
    } else {
      TotalsConcat(a[1..], b, sp);
      assert (a + b)[0] == a[0] && (a + b)[1..] == a[1..] + b;
      PlusLaws(Part(a[0], sp), Totals(a[1..], sp), Totals(b, sp));
    }
  }

  lemma TotalsOne(g: Group, sp: nat)
    ensures Totals([g], sp) == Part(g, sp)
  {
    hide Plus, Part;
    assert [g][1..] == [];
    PlusLaws(Part(g, sp), NONE, NONE);
  }

  /** Adding, changing and removing one group. */
  lemma TotalsAround(gs: seq<Group>, i: nat, g: Group, sp: nat)
    requires i <= |gs|
    ensures Totals(gs[..i] + [g] + gs[i..], sp) == Plus(Totals(gs, sp), if g.space == sp then Share(g) else NONE)
    ensures i < |gs| && gs[i].space == g.space ==>
              Totals(gs[i := g], sp) == Plus(Totals(gs, sp), if g.space == sp then Minus(Share(g), Share(gs[i]))
                else NONE)
    ensures i < |gs| ==>
              Totals(gs[..i] + gs[i+1..], sp) == Minus(Totals(gs, sp), if gs[i].space == sp then Share(gs[i]) else NONE)
  {
    hide Totals, Share;
    TotalsConcat(gs[..i] + [g], gs[i..], sp);
    TotalsConcat(gs[..i], [g], sp);
    TotalsConcat(gs[..i], gs[i..], sp);
    TotalsOne(g, sp);
    assert gs == gs[..i] + gs[i..];
    if i < |gs| {
      TotalsConcat([gs[i]], gs[i+1..], sp);
      TotalsOne(gs[i], sp);
      assert gs[i..] == [gs[i]] + gs[i+1..];
      TotalsConcat(gs[..i] + [g], gs[i+1..], sp);
      TotalsConcat(gs[..i], gs[i+1..], sp);
      assert gs[i := g] == gs[..i] + [g] + gs[i+1..];
    }
  }

  // ---- The sums, counter by counter ----

  datatype Bytes = All | InUse | Reserved | Pinned | Super | Unused

  function Of(g: Group, f: Bytes): int {
    match f
    case All => g.length
    case InUse => g.used
    case Reserved => g.reserved
    case Pinned => g.pinned
    case Super => g.super
    case Unused => g.length - (g.used + g.reserved + g.pinned + g.super)
  }

  /** Bytes of one kind in the groups of a space, or only in those that are read-only
      or those that can be written. */
  function Sum(gs: seq<Group>, sp: nat, f: Bytes, ro: Option<bool>): int {
    if gs == [] then 0
    else
      var counts := gs[0].space == sp && (ro.None? || ro.value == (gs[0].ro > 0));
      (if counts then Of(gs[0], f) else 0) + Sum(gs[1..], sp, f, ro)
  }

  /** Each counter of a space is the sum of one kind of bytes over its groups, read-only
      bytes are the super bytes and what is unused in read-only groups, and every byte in
      no counter is unused in a group that can be written. */
  ghost predicate Counted(gs: seq<Group>, sp: nat, info: Info) {
    && info.total == Sum(gs, sp, All, None) && info.used == Sum(gs, sp, InUse, None)
    && info.reserved == Sum(gs, sp, Reserved, None) && info.pinned == Sum(gs, sp, Pinned, None)
    && info.readonly == Sum(gs, sp, Super, None) + Sum(gs, sp, Unused, Some(true))
    && info.total - (info.used + info.reserved + info.pinned + info.readonly) == Sum(gs, sp, Unused, Some(false))
  }

  lemma {:induction false} TotalsCounted(gs: seq<Group>, sp: nat)
    ensures Counted(gs, sp, Totals(gs, sp))
  {
    if gs != [] {
      TotalsCounted(gs[1..], sp);
    }
  }

  /** Nothing is counted twice, and swap extents and the read-only mark exclude each
      other. */
  ghost predicate GroupOk(g: Group) {
    Free(g) >= 0 && !(g.ro > 0 && g.swap > 0)
  }

  predicate Contains(g: Group, b: nat) { g.start <= b < g.start + g.length }

  /** Groups do not overlap. */
  ghost predicate Disjoint(gs: seq<Group>) {
    forall i, j :: 0 <= i < j < |gs| ==> gs[i].start + gs[i].length <= gs[j].start
  }

  /** How much of a range lies in a group. */
  function Overlap(g: Group, b: nat, n: nat): nat {
    var lo := if b > g.start then b else g.start;
    var hi := if b + n < g.start + g.length then b + n else g.start + g.length;
    if lo < hi then hi - lo else 0
  }

  /** What inc_block_group_ro asks before the first mark: space enough elsewhere. */
  predicate MayBeReadOnly(g: Group, info: Info, mayUse: int, force: bool, overcommit: Option<bool>) {
    || g.ro > 0 || force || overcommit == Some(true)
    || (overcommit.None? && info.used + info.reserved + info.pinned + info.readonly + mayUse + Free(g) <= info.total)
  }

  class Space {
    // in address order
    var groups: seq<Group>
    var infos: map<nat, Info>
    var mayUse: map<nat, int>
    // super_copy's bytes_used
    var superUsed: int

    ghost predicate Valid()
      reads this
    {
      && Disjoint(groups)
      && (forall i :: 0 <= i < |groups| ==> GroupOk(groups[i]) && groups[i].space in infos && groups[i].space in mayUse)
      && forall sp :: sp in infos ==> infos[sp] == Totals(groups, sp)
    }

    /** A group and its space's counters change together. */
    method Change(i: nat, g: Group, info: Info)
      requires Valid() && i < |groups| && GroupOk(g)
      requires g.space == groups[i].space && g.start == groups[i].start && g.length == groups[i].length
      requires info == Plus(infos[g.space], Minus(Share(g), Share(groups[i])))
      modifies this`groups, this`infos
      ensures Valid() && groups == old(groups)[i := g] && infos == old(infos)[g.space := info]
    {
      hide Totals, Share, GroupOk, Free;
      forall sp | sp in infos
        ensures (if sp == g.space then info else infos[sp]) == Totals(groups[i := g], sp)
      {
        TotalsAround(groups, i, g, sp);
      }
      groups, infos := groups[i := g], infos[g.space := info];
    }

    /** inc_block_group_ro; `overcommit` is the answer of apfs_can_overcommit, and None
        for data, which never overcommits. */
    method IncRo(i: nat, force: bool, overcommit: Option<bool>) returns (ret: int)
      requires Valid() && i < |groups|
      modifies this`groups, this`infos
      ensures Valid() && |groups| == |old(groups)|
      ensures var g := old(groups)[i];
              ret == if g.swap > 0 then ETXTBSY
                     else if MayBeReadOnly(g, old(infos)[g.space], old(mayUse)[g.space], force, overcommit) then 0
                     else ENOSPC
      ensures ret == 0 ==> groups == old(groups)[i := old(groups)[i].(ro := old(groups)[i].ro + 1)]
      ensures ret != 0 ==> groups == old(groups)
    {
      hide Totals;
      var g := groups[i];
      var info := infos[g.space];
      ret := ENOSPC;
      if g.swap > 0 { return ETXTBSY; }
      if g.ro > 0 {
        Change(i, g.(ro := g.ro + 1), info);
        return 0;
      }
      var n := g.length - g.reserved - g.pinned - g.super - g.used;
      if force {
        ret := 0;
      } else if overcommit.None? {
        var inUse := info.used + info.reserved + info.pinned + info.readonly + mayUse[g.space];
        if inUse + n <= info.total { ret := 0; }
      } else if overcommit.value {
        ret := 0;
      }
      if ret == 0 { Change(i, g.(ro := g.ro + 1), info.(readonly := info.readonly + n)); }
    }

    /** apfs_dec_block_group_ro. */
    method DecRo(i: nat)
      requires Valid() && i < |groups| && groups[i].ro > 0
      modifies this`groups, this`infos
      ensures Valid() && groups == old(groups)[i := old(groups)[i].(ro := old(groups)[i].ro - 1)]
    {
      hide Totals;
      var g := groups[i].(ro := groups[i].ro - 1);
      var info := infos[g.space];
      if g.ro == 0 {
        var n := g.length - g.reserved - g.pinned - g.super - g.used;
        info := info.(readonly := info.readonly - n);
      }
      Change(i, g, info);
    }

    /** apfs_add_reserved_bytes, for space the allocator found free in the group. */
    method AddReserved(i: nat, ramBytes: nat, n: nat) returns (ret: int)
      requires Valid() && i < |groups| && n <= Free(groups[i])
      modifies this`groups, this`infos, this`mayUse
      ensures Valid() && |groups| == |old(groups)|
      ensures old(groups)[i].ro > 0 <==> ret == EAGAIN
      ensures ret != 0 ==> groups == old(groups) && infos == old(infos) && mayUse == old(mayUse)
      ensures ret == 0 ==>
                && groups == old(groups)[i := old(groups)[i].(reserved := old(groups)[i].reserved + n)]
                && mayUse == old(mayUse)[groups[i].space := old(mayUse)[groups[i].space] - ramBytes]
    {
      hide Totals;
      var g := groups[i];
      if g.ro > 0 { return EAGAIN; }
      var info := infos[g.space];
      Change(i, g.(reserved := g.reserved + n), info.(reserved := info.reserved + n));
      mayUse := mayUse[g.space := mayUse[g.space] - ramBytes];
      return 0;
    }

    /** apfs_free_reserved_bytes. */
    method FreeReserved(i: nat, n: nat)
      requires Valid() && i < |groups| && n <= groups[i].reserved
      modifies this`groups, this`infos
      ensures Valid() && groups == old(groups)[i := old(groups)[i].(reserved := old(groups)[i].reserved - n)]
    {
      hide Totals;
      var g := groups[i];
      var info := infos[g.space];
      if g.ro > 0 { info := info.(readonly := info.readonly + n); }
      Change(i, g.(reserved := g.reserved - n), info.(reserved := info.reserved - n));
    }

    /** The counters of unpin_extent_range, for a range in one group. */
    method Unpin(i: nat, n: nat)
      requires Valid() && i < |groups| && n <= groups[i].pinned
      modifies this`groups, this`infos
      ensures Valid() && groups == old(groups)[i := old(groups)[i].(pinned := old(groups)[i].pinned - n)]
    {
      hide Totals;
      var g := groups[i];
      var info := infos[g.space].(pinned := infos[g.space].pinned - n);
      if g.ro > 0 { info := info.(readonly := info.readonly + n); }
      Change(i, g.(pinned := g.pinned - n), info);
    }

    /** Before an unused read-only group is removed its pinned bytes count as
        read-only. */
    method ResetPinned(i: nat)
      requires Valid() && i < |groups| && groups[i].ro > 0
      modifies this`groups, this`infos
      ensures Valid() && groups == old(groups)[i := old(groups)[i].(pinned := 0)]
    {
      hide Totals;
      var g := groups[i];
      var info := infos[g.space];
      Change(i, g.(pinned := 0), info.(pinned := info.pinned - g.pinned, readonly := info.readonly + g.pinned));
    }

    /** apfs_inc_block_group_swap_extents. */
    method IncSwap(i: nat) returns (ok: bool)
      requires Valid() && i < |groups|
      modifies this`groups, this`infos
      ensures Valid() && ok == (old(groups)[i].ro == 0)
      ensures groups == if ok then old(groups)[i := old(groups)[i].(swap := old(groups)[i].swap + 1)] else old(groups)
    {
      hide Totals;
      if groups[i].ro > 0 { return false; }
      Change(i, groups[i].(swap := groups[i].swap + 1), infos[groups[i].space]);
      return true;
    }

    /** apfs_dec_block_group_swap_extents. */
    method DecSwap(i: nat, amount: nat)
      requires Valid() && i < |groups| && groups[i].swap >= amount
      modifies this`groups, this`infos
      ensures Valid() && groups == old(groups)[i := old(groups)[i].(swap := old(groups)[i].swap - amount)]
    {
      hide Totals;
      Change(i, groups[i].(swap := groups[i].swap - amount), infos[groups[i].space]);
    }

    /** The counter updates of apfs_remove_block_group: an empty read-only group takes
        exactly its share away. */
    method Remove(i: nat)
      requires Valid() && i < |groups| && groups[i].ro > 0
      requires groups[i].used == 0 && groups[i].reserved == 0 && groups[i].pinned == 0
      modifies this`groups, this`infos
      ensures Valid() && groups == old(groups[..i] + groups[i+1..])
      ensures var sp := old(groups)[i].space; infos == old(infos)[sp := Minus(old(infos)[sp], Share(old(groups)[i]))]
    {
      hide Totals;
      var g := groups[i];
      var info := infos[g.space];
      forall sp | sp in infos
        ensures Totals(groups[..i] + groups[i+1..], sp) == if sp == g.space then Minus(infos[sp], Share(g))
                else infos[sp]
      {
        TotalsAround(groups, i, g, sp);
      }
      infos := infos[g.space := info.(total := info.total - g.length, readonly := info.readonly - g.length)];
      groups := groups[..i] + groups[i+1..];
    }

    /** A group nobody uses yet, at its place in address order. */
    predicate Addable(i: nat, g: Group)
      reads this
    {
      && i <= |groups| && g.reserved == 0 && g.pinned == 0 && g.ro == 0 && g.swap == 0 && Free(g) >= 0
      && g.space in infos && g.space in mayUse
      && (forall j :: 0 <= j < i ==> groups[j].start + groups[j].length <= g.start)
      && (forall j :: i <= j < |groups| ==> g.start + g.length <= groups[j].start)
    }

    /** A new group, added with its used and super bytes by apfs_update_space_info. */
    method AddGroup(i: nat, g: Group)
      requires Valid() && Addable(i, g)
      modifies this`groups, this`infos
      ensures Valid() && groups == old(groups[..i] + [g] + groups[i..])
    {
      hide Totals;
      var info := infos[g.space];
      forall sp | sp in infos
        ensures Totals(groups[..i] + [g] + groups[i..], sp) == if sp == g.space then Plus(infos[sp], Share(g))
                else infos[sp]
      {
        TotalsAround(groups, i, g, sp);
      }
      info := info.(total := info.total + g.length, used := info.used + g.used, readonly := info.readonly + g.super);
      infos := infos[g.space := info];
      groups := groups[..i] + [g] + groups[i..];
    }

    /** apfs_lookup_block_group. */
    method Lookup(b: nat) returns (r: Option<nat>)
      ensures r.Some? ==> r.value < |groups| && Contains(groups[r.value], b)
      ensures r.None? ==> forall j :: 0 <= j < |groups| ==> !Contains(groups[j], b)
    {
      for i := 0 to |groups|
        invariant forall j :: 0 <= j < i ==> !Contains(groups[j], b)
      {
        if Contains(groups[i], b) { return Some(i); }
      }
      return None;
    }

    /** One round of apfs_update_block_group: `n` bytes of a group turn from reserved to
        used, or from used to pinned. */
    method UpdateOne(i: nat, n: nat, alloc: bool)
      requires Valid() && i < |groups| && n <= (if alloc then groups[i].reserved else groups[i].used)
      modifies this`groups, this`infos
      ensures Valid() && |groups| == |old(groups)| && groups == old(groups)[i := groups[i]]
      ensures Moved(old(groups)[i], groups[i], n, alloc)
    {
      hide Totals;
      var g := groups[i];
      var info := infos[g.space];
      if alloc {
        g := g.(used := g.used + n, reserved := g.reserved - n);
        info := info.(reserved := info.reserved - n, used := info.used + n);
      } else {
        g := g.(used := g.used - n, pinned := g.pinned + n);
        info := info.(pinned := info.pinned + n, used := info.used - n);
      }
      Change(i, g, info);
    }

    /** apfs_update_block_group: a range is allocated or freed, group by group.  It fails
        exactly if some byte of the range is in no group; otherwise every group changes by
        its part of the range, and the super block's count keeps step with the groups. */
    method UpdateRange(b: nat, n: nat, alloc: bool) returns (ret: int)
      requires Valid()
      requires forall i :: 0 <= i < |groups| ==>
                 Overlap(groups[i], b, n) <= (if alloc then groups[i].reserved else groups[i].used)
      modifies this
      ensures Valid() && (ret == 0 || ret == ENOENT)
      ensures ret == 0 <==> Covered(old(groups), b, n)
      ensures ret == 0 ==> RangeMoved(old(groups), groups, b, n, alloc)
      ensures ret == 0 ==> superUsed - Used(groups) == old(superUsed - Used(groups))
      ensures superUsed == old(superUsed) + (if alloc then 1 else -1) * n && mayUse == old(mayUse)
    {
      hide Totals, Used, GroupOk, Covered, RangeMoved, Overlap, Contains;
      superUsed := if alloc then superUsed + n else superUsed - n;
      var at, total := b, n;
      ghost var was := groups;
      NothingMoved(was, b, alloc);
      while total > 0
        invariant b <= at <= b + n && at + total == b + n && Valid() && |groups| == |was|
        invariant Covered(was, b, at - b) && RangeMoved(was, groups, b, at - b, alloc)
        invariant Used(groups) == Used(was) + (if alloc then 1 else -1) * (at - b)
        invariant superUsed == old(superUsed) + (if alloc then 1 else -1) * n && mayUse == old(mayUse)
      {
        var r := Lookup(at);
        if r.None? {
          Uncovered(was, groups, b, n, at, alloc);
          return ENOENT;
        }
        var i := r.value;
        InGroup(groups[i], at);
        var byteInGroup := at - groups[i].start;
        var part := if total < groups[i].length - byteInGroup then total else groups[i].length - byteInGroup;
        ghost var before := groups;
        EnoughLeft(was, groups, b, n, at, part, i, alloc);
        UpdateOne(i, part, alloc);
        NextPart(was, before, groups, b, at, part, i, alloc);
        UsedUpdate(before, i, groups[i]);
        total := total - part;
        at := at + part;
      }
      return 0;
    }

    /** Over every run of these steps, each made as its callers must make it, all
        counters are exact sums and no group is both read-only and holding swap extents. */
    method RunAll(ops: seq<Op>)
      requires Valid()
      modifies this
      ensures Valid()
      ensures forall sp :: sp in infos ==> Counted(groups, sp, infos[sp])
      ensures forall i :: 0 <= i < |groups| ==> groups[i].ro == 0 || groups[i].swap == 0
    {
      for k := 0 to |ops|
        invariant Valid()
      {
        RunOne(ops[k]);
      }
      hide Counted, Totals;
      forall sp | sp in infos ensures Counted(groups, sp, infos[sp]) {
        TotalsCounted(groups, sp);
      }
    }

    method RunOne(op: Op)
      requires Valid()
      modifies this
      ensures Valid()
    {
      hide Totals, GroupOk, Disjoint;
      if op.Update? {
        if forall i :: 0 <= i < |groups| ==>
             Overlap(groups[i], op.b, op.n) <= (if op.alloc then groups[i].reserved else groups[i].used) {
          var ret := UpdateRange(op.b, op.n, op.alloc);
        }
        return;
      }
      if op.AddGroup? {
        if Addable(op.i, op.g) { AddGroup(op.i, op.g); }
        return;
      }
      if op.i >= |groups| { return; }
      var g := groups[op.i];
      match op {
        case AddReserved(i, ram, n) => if n <= Free(g) { var ret := AddReserved(i, ram, n); }
        case FreeReserved(i, n) => if n <= g.reserved { FreeReserved(i, n); }
        case Unpin(i, n) => if n <= g.pinned { Unpin(i, n); }
        case IncRo(i, force, overcommit) => var ret := IncRo(i, force, overcommit);
        case DecRo(i) => if g.ro > 0 { DecRo(i); }
        case IncSwap(i) => var ok := IncSwap(i);
        case DecSwap(i, amount) => if g.swap >= amount { DecSwap(i, amount); }
        case RemoveUnused(i) =>
          if g.ro > 0 && g.used == 0 && g.reserved == 0 {
            ResetPinned(i);
            Remove(i);
          }
      }
    }
  }

  datatype Op =
    | Update(b: nat, n: nat, alloc: bool)
    | AddReserved(i: nat, ram: nat, n: nat)
    | FreeReserved(i: nat, n: nat)
    | Unpin(i: nat, n: nat)
    | IncRo(i: nat, force: bool, overcommit: Option<bool>)
    | DecRo(i: nat)
    | IncSwap(i: nat)
    | DecSwap(i: nat, amount: nat)
    | RemoveUnused(i: nat)
    | AddGroup(i: nat, g: Group)

  /** `h` is `g` after some of its bytes were allocated, or freed. */
  ghost predicate Moved(g: Group, h: Group, n: nat, alloc: bool) {
    if alloc then h == g.(used := h.used, reserved := h.reserved) && h.used == g.used + n
      && h.reserved == g.reserved - n
    else h == g.(used := h.used, pinned := h.pinned) && h.used == g.used - n && h.pinned == g.pinned + n
  }

  /** Every group changed by its part of a range. */
  ghost predicate RangeMoved(gs: seq<Group>, hs: seq<Group>, b: nat, n: nat, alloc: bool) {
    |gs| == |hs| && forall i :: 0 <= i < |gs| ==> Moved(gs[i], hs[i], Overlap(gs[i], b, n), alloc)
  }

  function Used(gs: seq<Group>): int { if gs == [] then 0 else gs[0].used + Used(gs[1..]) }

  lemma {:induction false} UsedUpdate(gs: seq<Group>, i: nat, g: Group)
    requires i < |gs|
    ensures Used(gs[i := g]) == Used(gs) - gs[i].used + g.used
  {
    if i == 0 {
      assert gs[i := g][1..] == gs[1..];
    } else {
      UsedUpdate(gs[1..], i - 1, g);
      assert gs[i := g][1..] == gs[1..][i - 1 := g];
    }
  }

  function BytesIn(g: Group, b: nat, n: nat): set<nat> {
    set x: nat | b <= x < b + n && Contains(g, x)
  }

  /** The part of a range in a group is the number of its bytes there. */
  lemma {:induction false} OverlapIs(g: Group, b: nat, n: nat)
    ensures Overlap(g, b, n) == |BytesIn(g, b, n)|
  {
    if n == 0 {
      assert BytesIn(g, b, n) == {};
    } else {
      OverlapIs(g, b, n - 1);
      var x := b + n - 1;
      assert BytesIn(g, b, n) == BytesIn(g, b, n - 1) + if Contains(g, x) then {x} else {};
    }
  }

  /** Every byte of a range is in a group. */
  ghost predicate Covered(gs: seq<Group>, b: nat, n: nat) {
    forall x :: b <= x < b + n ==> Has(gs, x)
  }

  ghost predicate Has(gs: seq<Group>, x: nat) {
    exists j :: 0 <= j < |gs| && Contains(gs[j], x)
  }

  lemma NothingMoved(gs: seq<Group>, b: nat, alloc: bool)
    ensures RangeMoved(gs, gs, b, 0, alloc) && Covered(gs, b, 0)
  {
  }

  lemma InGroup(g: Group, x: nat)
    requires Contains(g, x)
    ensures g.start <= x < g.start + g.length
  {
  }

  lemma Uncovered(was: seq<Group>, now: seq<Group>, b: nat, n: nat, at: nat, alloc: bool)
    requires b <= at < b + n && RangeMoved(was, now, b, at - b, alloc)
    requires forall j :: 0 <= j < |now| ==> !Contains(now[j], at)
    ensures !Covered(was, b, n)
  {
    hide Overlap;
    assert forall j :: 0 <= j < |was| ==> Moved(was[j], now[j], Overlap(was[j], b, at - b), alloc);
    assert !Has(was, at);
  }

  /** The part of a range before some point, and a group that begins before it ends. */
  lemma OverlapNext(g: Group, b: nat, at: nat, part: nat)
    requires b <= at && Contains(g, at) && at + part <= g.start + g.length
    ensures Overlap(g, b, at + part - b) == Overlap(g, b, at - b) + part
  {
  }

  lemma OverlapSame(g: Group, h: Group, b: nat, at: nat, part: nat)
    requires b <= at && Contains(h, at) && at + part <= h.start + h.length
    requires g.start + g.length <= h.start || h.start + h.length <= g.start
    ensures Overlap(g, b, at + part - b) == Overlap(g, b, at - b)
  {
  }

  lemma OverlapGrows(g: Group, b: nat, n: nat, m: nat)
    requires n <= m
    ensures Overlap(g, b, n) <= Overlap(g, b, m)
  {
  }

  /** A group still has enough of what is to be taken from it. */
  lemma EnoughLeft(was: seq<Group>, now: seq<Group>, b: nat, n: nat, at: nat, part: nat, i: nat, alloc: bool)
    requires b <= at && at + part <= b + n && RangeMoved(was, now, b, at - b, alloc)
    requires i < |now| && Contains(now[i], at) && at + part <= now[i].start + now[i].length
    requires Overlap(was[i], b, n) <= (if alloc then was[i].reserved else was[i].used)
    ensures part <= if alloc then now[i].reserved else now[i].used
  {
    hide Overlap;
    assert Moved(was[i], now[i], Overlap(was[i], b, at - b), alloc);
    OverlapNext(was[i], b, at, part);
    OverlapGrows(was[i], b, at + part - b, n);
  }

  lemma NextPart(was: seq<Group>, before: seq<Group>, now: seq<Group>, b: nat, at: nat, part: nat, i: nat, alloc: bool)
    requires b <= at && RangeMoved(was, before, b, at - b, alloc) && Covered(was, b, at - b) && Disjoint(before)
    requires i < |before| == |now| && now == before[i := now[i]] && Moved(before[i], now[i], part, alloc)
    requires Contains(before[i], at) && at + part <= before[i].start + before[i].length
    ensures RangeMoved(was, now, b, at + part - b, alloc) && Covered(was, b, at + part - b)
  {
    hide Overlap;
    forall j | 0 <= j < |was| ensures Moved(was[j], now[j], Overlap(was[j], b, at + part - b), alloc) {
      assert Moved(was[j], before[j], Overlap(was[j], b, at - b), alloc);
      if j == i {
        OverlapNext(was[i], b, at, part);
      } else {
        OverlapSame(was[j], before[i], b, at, part);
      }
    }
    assert Moved(was[i], before[i], Overlap(was[i], b, at - b), alloc);
    forall x | b <= x < at + part ensures Has(was, x) {
      assert x >= at ==> Contains(was[i], x);
    }
  }
}
