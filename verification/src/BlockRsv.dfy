/** Metadata reserves of block-rsv.c and the delayed-refs reserve of delayed-ref.c.
    Bytes are only moved: whatever a reserve holds, and whatever was taken out of
    one to be used, is accounted for in its space's bytes_may_use. */
module BlockRsv {
  import opened Prelude

  const SZ_512M := 0x2000_0000

  /** Positions of fs_info->global_block_rsv and fs_info->delayed_refs_rsv. */
  const GLOBAL := 0
  const DELAYED := 1

  /** `space` is the space_info a reserve belongs to; `failfast` and the fields do as
      in struct apfs_block_rsv.  Sizes are unsigned, so no subtraction may wrap. */
  datatype Rsv = Rsv(size: nat, reserved: nat, full: bool, space: nat, failfast: bool)

  /** div_factor: so many tenths, rounded down. */
  function DivFactor(n: nat, factor: nat): (r: nat)
    ensures 10 * r <= n * factor < 10 * r + 10
  {
    if factor == 10 then n else n * factor / 10
  }

  /** Bytes held by the reserves of one space. */
  function Held(rs: seq<Rsv>, sp: nat): nat {
    if rs == [] then 0 else (if rs[0].space == sp then rs[0].reserved else 0) + Held(rs[1..], sp)
  }

  lemma {:induction false} HeldUpdate(rs: seq<Rsv>, i: nat, r: Rsv, sp: nat)
    requires i < |rs| && r.space == rs[i].space
    ensures Held(rs[i := r], sp) == Held(rs, sp) + if r.space == sp then r.reserved - rs[i].reserved else 0
  {
    if i == 0 {
      assert rs[i := r][1..] == rs[1..];
    } else {
      HeldUpdate(rs[1..], i - 1, r, sp);
      assert rs[i := r][1..] == rs[1..][i - 1 := r];
    }
  }

  /** A reserve that is not marked full has room. */
  predicate RoomIfNotFull(r: Rsv) { !r.full ==> r.reserved <= r.size }

  /** A reserve that is marked full holds its size. */
  predicate FilledIfFull(r: Rsv) { r.full ==> r.reserved >= r.size }

  // ---- What calls do to one reserve ----

  /** Bytes added, with the size or up to it. */
  function Given(r: Rsv, n: nat, updateSize: bool): Rsv {
    if updateSize then r.(reserved := r.reserved + n, size := r.size + n)
    else r.(reserved := r.reserved + n, full := r.full || r.reserved + n >= r.size)
  }

  /** Bytes taken out. */
  function Taken(r: Rsv, n: nat): Rsv
    requires n <= r.reserved
  {
    r.(reserved := r.reserved - n, full := r.full && r.reserved - n >= r.size)
  }

  /** The size cut, and the reserve with it; None stands for (u64)-1. */
  function Shrunk(r: Rsv, num: Option<nat>): Rsv
    requires num.Some? ==> num.value <= r.size
  {
    var size := if num.None? then 0 else r.size - num.value;
    r.(size := size, reserved := Min(r.reserved, size), full := r.full || r.reserved >= size)
  }

  /** As many bytes taken in as there is room for. */
  function Accepted(r: Rsv, n: nat): Rsv
    requires RoomIfNotFull(r)
  {
    if r.full then r else r.(reserved := Min(r.reserved + n, r.size), full := r.reserved + n >= r.size)
  }

  /** Bytes taken in up to the size. */
  function FilledUp(r: Rsv, n: nat): Rsv
    requires r.reserved <= r.size
  {
    r.(reserved := Min(r.reserved + n, r.size), full := r.full || r.reserved + n >= r.size)
  }

  /** What apfs_update_delayed_refs_rsv does to the reserve. */
  function Enlarged(r: Rsv, n: nat): Rsv { r.(size := r.size + n, full := false) }

  /** Filling the delayed-refs reserve without its size and then enlarging it leaves
      room in it, as the subtraction in block_rsv_release_bytes needs, exactly if
      the larger size covers what it holds; whether it was marked full or not. */
  lemma FilledThenEnlarged(r: Rsv, m: nat, n: nat)
    ensures RoomIfNotFull(Enlarged(Given(r, m, false), n)) <==> r.reserved + m <= r.size + n
  {
  }

  /** An empty reserve filled with 4096 bytes and enlarged by 1. */
  lemma OverfullExample()
    ensures var r := Given(Rsv(0, 0, true, 0, false), 4096, false);
            RoomIfNotFull(r) && !RoomIfNotFull(Enlarged(r, 1))
  {
  }

  /** Where a reserve's excess goes first. */
  function TargetOf(rs: seq<Rsv>, i: nat): (t: Option<nat>)
    requires i < |rs| && |rs| >= 2
    ensures t.Some? ==> t.value in {GLOBAL, DELAYED} && t.value != i && rs[t.value].space == rs[i].space
  {
    var t := if i == DELAYED then Some(GLOBAL) else if i != GLOBAL && !rs[DELAYED].full then Some(DELAYED) else None;
    if t.Some? && rs[i].space != rs[t.value].space then None else t
  }

  function ReleasedTo(rs: seq<Rsv>, i: nat, t: Option<nat>, num: Option<nat>): seq<Rsv>
    requires i < |rs| && (num.Some? ==> num.value <= rs[i].size)
    requires t.Some? ==> t.value < |rs| && t.value != i && RoomIfNotFull(rs[t.value])
  {
    var r := Shrunk(rs[i], num);
    var n := rs[i].reserved - r.reserved;
    if t.Some? && n > 0 then rs[i := r][t.value := Accepted(rs[t.value], n)] else rs[i := r]
  }

  /** Bytes of one space freed: its bytes_may_use falls by them and no other does. */
  ghost predicate Freed(m: map<nat, int>, m': map<nat, int>, sp: nat, n: int) {
    m'.Keys == m.Keys && forall s :: s in m ==> m'[s] == m[s] - if s == sp then n else 0
  }

  lemma NoneFreed(m: map<nat, int>, sp: nat)
    ensures Freed(m, m, sp, 0)
  {
  }

  lemma OneFreed(m: map<nat, int>, sp: nat, n: int)
    requires sp in m
    ensures Freed(m, m[sp := m[sp] - n], sp, n)
  {
  }

  /** `n` bytes that reserve `i` gave up went to reserve `t`, up to its size, and only what
      that could not take was freed. */
  ghost predicate WentTo(was: seq<Rsv>, now: seq<Rsv>, i: nat, t: nat, n: nat, m: map<nat, int>, m': map<nat, int>)
    requires i < |was| && t < |was|
  {
    && |now| == |was| && (forall j :: 0 <= j < |was| && j != i && j != t ==> now[j] == was[j])
    && now[t].reserved == Min(was[t].reserved + n, was[t].size) && now[t].size == was[t].size
    && Freed(m, m', was[i].space, n - (now[t].reserved - was[t].reserved))
  }

  /** They were freed and no other reserve changed. */
  ghost predicate WentBack(was: seq<Rsv>, now: seq<Rsv>, i: nat, n: nat, m: map<nat, int>, m': map<nat, int>)
    requires i < |was|
  {
    |now| == |was| && (forall j :: 0 <= j < |was| && j != i ==> now[j] == was[j]) && Freed(m, m', was[i].space, n)
  }

  /** Where the excess of a reserve goes: that of the delayed-refs reserve fills the
      global one, that of any other but the global one fills the delayed-refs reserve,
      within one space and unless that is marked full. */
  ghost predicate ExcessWent(was: seq<Rsv>, now: seq<Rsv>, i: nat, n: nat, m: map<nat, int>, m': map<nat, int>)
    requires i < |was| && |was| >= 2
  {
    if i == DELAYED && was[GLOBAL].space == was[i].space && !was[GLOBAL].full then
      WentTo(was, now, i, GLOBAL, n, m, m')
    else if i != DELAYED && i != GLOBAL && was[DELAYED].space == was[i].space && !was[DELAYED].full then
      WentTo(was, now, i, DELAYED, n, m, m')
    else WentBack(was, now, i, n, m, m')
  }

  lemma ReleasedWent(was: seq<Rsv>, now: seq<Rsv>, i: nat, num: Option<nat>, m: map<nat, int>, m': map<nat, int>)
    requires i < |was| && |was| >= 2 && (num.Some? ==> num.value <= was[i].size)
    requires var t := TargetOf(was, i);
             && (t.Some? ==> RoomIfNotFull(was[t.value])) && now == ReleasedTo(was, i, t, num)
             && Freed(m, m', was[i].space,
                      was[i].reserved - now[i].reserved
                      - if t.Some? then now[t.value].reserved - was[t.value].reserved else 0)
    ensures now[i].size == (if num.None? then 0 else was[i].size - num.value)
    ensures now[i].reserved == Min(was[i].reserved, now[i].size) && now[i].space == was[i].space
    ensures ExcessWent(was, now, i, was[i].reserved - now[i].reserved, m, m')
  {
    hide Freed;
  }

  /** What a reserve was given before counts as excess too. */
  lemma GivenWent(was: seq<Rsv>, r: Rsv, now: seq<Rsv>, i: nat, n: nat, m: map<nat, int>, m': map<nat, int>)
    requires i < |was| && |was| >= 2 && r.space == was[i].space
    requires ExcessWent(was[i := r], now, i, n, m, m')
    ensures ExcessWent(was, now, i, n, m, m')
  {
    hide Freed;
    forall j | 0 <= j < |was| && j != i ensures was[i := r][j] == was[j] { }
  }

  /** Outcome of __reserve_bytes and the fallback of apfs_reserve_metadata_bytes. */
  datatype Grant = Granted | TryGlobal | Refused

  predicate Reservable(rs: seq<Rsv>, i: nat, n: nat, grant: Grant)
    requires |rs| >= 2
  {
    grant.Granted? || (grant.TryGlobal? && i != GLOBAL && rs[GLOBAL].reserved >= n)
  }

  /** The fallback takes the bytes out of the global reserve. */
  function AfterReserve(rs: seq<Rsv>, i: nat, n: nat, grant: Grant): seq<Rsv>
    requires |rs| >= 2
  {
    if grant.TryGlobal? && Reservable(rs, i, n, grant) then rs[GLOBAL := Taken(rs[GLOBAL], n)] else rs
  }

  /** A global reserve of the wanted size, up to 512M, holding all of it. */
  function Refreshed(r: Rsv, want: nat): Rsv {
    var size := Min(want, SZ_512M);
    r.(size := size, reserved := size, full := true)
  }

  /** Short of bytes for a block, the global reserve is refreshed. */
  function SecondChance(rs: seq<Rsv>, i: nat, n: nat, want: nat): seq<Rsv>
    requires i < |rs| && |rs| >= 2
  {
    if i == GLOBAL && rs[i].size > 0 && rs[i].reserved < n && !rs[i].failfast
    then rs[GLOBAL := Refreshed(rs[GLOBAL], want)]
    else rs
  }

  class Reserves {
    var rsvs: seq<Rsv>
    var mayUse: map<nat, int>
    // taken out of a reserve for a block, not yet turned into an allocation
    var used: map<nat, int>

    ghost predicate Shape()
      reads this
    {
      && |rsvs| >= 2 && mayUse.Keys == used.Keys
      && (forall i :: 0 <= i < |rsvs| ==> rsvs[i].space in mayUse && FilledIfFull(rsvs[i]))
    }

    /** The global reserve has room unless marked full, and the delayed-refs reserve
        never holds more than its size; reserve `i` may be an exception for now. */
    ghost predicate GuardedBut(i: int)
      reads this
    {
      && |rsvs| >= 2
      && (i == GLOBAL || RoomIfNotFull(rsvs[GLOBAL]))
      && (i == DELAYED || rsvs[DELAYED].reserved <= rsvs[DELAYED].size)
    }

    /** bytes_may_use is what the reserves hold plus what is in use, apart from `d`
        bytes of space `t` that are on their way. */
    ghost predicate Balanced(t: nat, d: int)
      reads this
    {
      Shape() && forall sp :: sp in mayUse ==> mayUse[sp] == Held(rsvs, sp) + used[sp] + if sp == t then d else 0
    }

    ghost predicate Valid()
      reads this
    {
      Balanced(0, 0) && GuardedBut(-1)
    }

    /** One reserve replaced. */
    lemma Put(i: nat, r: Rsv, t: nat, d: int)
      requires Balanced(t, d) && i < |rsvs| && r.space == rsvs[i].space && (d != 0 ==> t == r.space)
      ensures forall sp :: sp in mayUse ==>
                mayUse[sp] == Held(rsvs[i := r], sp) + used[sp]
                              + if sp == r.space then d + rsvs[i].reserved - r.reserved else 0
    {
      hide Held;
      forall sp | sp in mayUse
        ensures mayUse[sp] == Held(rsvs[i := r], sp) + used[sp]
                              + if sp == r.space then d + rsvs[i].reserved - r.reserved else 0
      {
        HeldUpdate(rsvs, i, r, sp);
      }
    }

    /** apfs_block_rsv_add_bytes: bytes on their way arrive in a reserve. */
    method AddBytes(i: nat, n: nat, updateSize: bool)
      requires i < |rsvs| && Balanced(rsvs[i].space, n) && GuardedBut(-1)
      modifies this`rsvs
      ensures Balanced(0, 0) && GuardedBut(i)
      ensures Valid() <==> i != DELAYED || updateSize || old(rsvs)[i].reserved + n <= old(rsvs)[i].size
      ensures rsvs == old(rsvs)[i := Given(old(rsvs)[i], n, updateSize)]
      ensures rsvs[i].reserved == old(rsvs)[i].reserved + n
      ensures rsvs[i].size == old(rsvs)[i].size + if updateSize then n else 0
    {
      hide Held;
      var r := rsvs[i].(reserved := rsvs[i].reserved + n);
      if updateSize {
        r := r.(size := r.size + n);
      } else if r.reserved >= r.size {
        r := r.(full := true);
      }
      Put(i, r, r.space, n);
      rsvs := rsvs[i := r];
    }

    /** apfs_block_rsv_use_bytes: bytes leave a reserve, if it has them. */
    method UseBytes(i: nat, n: nat) returns (ret: int)
      requires i < |rsvs| && Valid()
      modifies this`rsvs
      ensures ret == if old(rsvs)[i].reserved >= n then 0 else ENOSPC
      ensures ret == 0 ==>
                && rsvs == old(rsvs)[i := Taken(old(rsvs)[i], n)]
                && rsvs[i].reserved == old(rsvs)[i].reserved - n && rsvs[i].size == old(rsvs)[i].size
                && Balanced(rsvs[i].space, n) && GuardedBut(-1)
      ensures ret != 0 ==> rsvs == old(rsvs)
    {
      hide Held;
      if rsvs[i].reserved < n { return ENOSPC; }
      var r := rsvs[i].(reserved := rsvs[i].reserved - n);
      if r.reserved < r.size { r := r.(full := false); }
      Put(i, r, 0, 0);
      rsvs := rsvs[i := r];
      return 0;
    }

    /** The first half of block_rsv_release_bytes: a reserve shrinks, and what it then
        holds too much is on its way.  `num` is None for (u64)-1. */
    method Shrink(i: nat, num: Option<nat>) returns (n: nat)
      requires Balanced(0, 0) && GuardedBut(i) && i < |rsvs| && (num.Some? ==> num.value <= rsvs[i].size)
      modifies this`rsvs
      ensures rsvs == old(rsvs)[i := Shrunk(old(rsvs)[i], num)] && n == old(rsvs)[i].reserved - rsvs[i].reserved
      ensures Balanced(rsvs[i].space, n) && GuardedBut(-1)
    {
      hide Held;
      n := if num.None? then rsvs[i].size else num.value;
      var r := rsvs[i].(size := rsvs[i].size - n);
      if r.reserved >= r.size {
        n := r.reserved - r.size;
        r := r.(reserved := r.size, full := true);
      } else {
        n := 0;
      }
      Put(i, r, 0, 0);
      rsvs := rsvs[i := r];
    }

    /** Bytes on their way are offered to the global or the delayed-refs reserve, which
        takes as many as it has room for. */
    method Offer(dest: nat, n: nat) returns (rest: nat)
      requires dest in {GLOBAL, DELAYED} && GuardedBut(-1) && Balanced(rsvs[dest].space, n)
      modifies this`rsvs
      ensures rsvs == old(rsvs)[dest := Accepted(old(rsvs)[dest], n)]
      ensures rest == n - (rsvs[dest].reserved - old(rsvs)[dest].reserved)
      ensures Balanced(rsvs[dest].space, rest) && GuardedBut(-1)
    {
      hide Held;
      rest := n;
      var d := rsvs[dest];
      if !d.full {
        // the reserve is not full, so this cannot wrap
        var add := Min(n, d.size - d.reserved);
        d := d.(reserved := d.reserved + add);
        if d.reserved >= d.size { d := d.(full := true); }
        Put(dest, d, d.space, n);
        rsvs := rsvs[dest := d];
        rest := n - add;
      }
    }

    lemma InSpace(i: nat, t: nat, d: int)
      requires Balanced(t, d) && i < |rsvs|
      ensures rsvs[i].space in mayUse
    {
    }

    lemma NothingOnWay(t: nat)
      requires Balanced(t, 0)
      ensures Balanced(0, 0)
    {
      hide Held;
    }

    /** apfs_space_info_free_bytes_may_use: bytes on their way go back to the space. */
    method FreeMayUse(sp: nat, n: nat)
      requires Balanced(sp, n) && GuardedBut(-1) && sp in mayUse
      modifies this`mayUse
      ensures Valid() && mayUse == old(mayUse)[sp := old(mayUse)[sp] - n]
    {
      mayUse := mayUse[sp := mayUse[sp] - n];
    }

    /** block_rsv_release_bytes: what a reserve holds too much after shrinking goes to
        `dest` as far as that has room, and the rest back to the space. */
    method ReleaseBytes(i: nat, dest: Option<nat>, num: Option<nat>) returns (released: nat)
      requires Balanced(0, 0) && GuardedBut(i) && i < |rsvs| && (num.Some? ==> num.value <= rsvs[i].size)
      requires dest.Some? ==> dest.value in {GLOBAL, DELAYED} && dest.value != i
      requires dest.Some? ==> rsvs[dest.value].space == rsvs[i].space
      modifies this`rsvs, this`mayUse
      ensures Valid() && rsvs == ReleasedTo(old(rsvs), i, dest, num)
      ensures released == old(rsvs)[i].reserved - rsvs[i].reserved
      ensures Freed(old(mayUse), mayUse, old(rsvs)[i].space,
                    released - if dest.Some? then rsvs[dest.value].reserved - old(rsvs)[dest.value].reserved else 0)
    {
      hide Held, Balanced, Freed;
      NoneFreed(mayUse, rsvs[i].space);
      InSpace(i, 0, 0);
      var n := Shrink(i, num);
      released := n;
      if n > 0 {
        if dest.Some? { n := Offer(dest.value, n); }
        if n > 0 {
          OneFreed(mayUse, rsvs[i].space, n);
          FreeMayUse(rsvs[i].space, n);
          return;
        }
      }
      NothingOnWay(rsvs[i].space);
    }

    /** apfs_block_rsv_release. */
    method Release(i: nat, num: Option<nat>) returns (released: nat)
      requires Balanced(0, 0) && GuardedBut(i) && i < |rsvs| && (num.Some? ==> num.value <= rsvs[i].size)
      modifies this`rsvs, this`mayUse
      ensures Valid() && rsvs == ReleasedTo(old(rsvs), i, TargetOf(old(rsvs), i), num)
      ensures released == old(rsvs)[i].reserved - rsvs[i].reserved
      ensures rsvs[i].size == (if num.None? then 0 else old(rsvs)[i].size - num.value)
      ensures rsvs[i].reserved == Min(old(rsvs)[i].reserved, rsvs[i].size)
      ensures ExcessWent(old(rsvs), rsvs, i, released, old(mayUse), mayUse)
    {
      hide Held, Balanced, ReleasedTo, ExcessWent, Freed;
      var target: Option<nat> := None;
      if i == DELAYED {
        target := Some(GLOBAL);
      } else if i != GLOBAL && !rsvs[DELAYED].full {
        target := Some(DELAYED);
      }
      if target.Some? && rsvs[i].space != rsvs[target.value].space { target := None; }
      released := ReleaseBytes(i, target, num);
      ReleasedWent(old(rsvs), rsvs, i, num, old(mayUse), mayUse);
    }

    /** apfs_unuse_block_rsv: a block taken for use is given back. */
    method Unuse(i: nat, blocksize: nat)
      requires Valid() && i < |rsvs| && used[rsvs[i].space] >= blocksize
      modifies this
      ensures Valid()
      ensures var rs := old(rsvs)[i := Given(old(rsvs)[i], blocksize, false)];
              rsvs == ReleasedTo(rs, i, TargetOf(rs, i), Some(0))
      ensures var r := old(rsvs)[i];
              && rsvs[i].size == r.size && rsvs[i].reserved == Min(r.reserved + blocksize, r.size)
              && ExcessWent(old(rsvs), rsvs, i, r.reserved + blocksize - rsvs[i].reserved, old(mayUse), mayUse)
      ensures used == old(used)[old(rsvs)[i].space := old(used)[old(rsvs)[i].space] - blocksize]
    {
      hide Held, ReleasedTo, ExcessWent, TargetOf;
      var sp := rsvs[i].space;
      used := used[sp := used[sp] - blocksize];
      AddBytes(i, blocksize, false);
      ghost var given := rsvs;
      var released := Release(i, Some(0));
      GivenWent(old(rsvs), given[i], rsvs, i, released, old(mayUse), mayUse);
    }

    /** apfs_block_rsv_migrate. */
    method Migrate(src: nat, dst: nat, n: nat, updateSize: bool) returns (ret: int)
      requires Valid() && src < |rsvs| && dst < |rsvs| && rsvs[src].space == rsvs[dst].space
      modifies this`rsvs
      ensures Balanced(0, 0) && GuardedBut(dst) && ret == if old(rsvs)[src].reserved >= n then 0 else ENOSPC
      ensures Valid() <==> dst != DELAYED || src == DELAYED || updateSize || ret != 0
                           || old(rsvs)[dst].reserved + n <= old(rsvs)[dst].size
      ensures ret == 0 ==>
                var rs := old(rsvs)[src := Taken(old(rsvs)[src], n)];
                rsvs == rs[dst := Given(rs[dst], n, updateSize)]
      ensures ret != 0 ==> rsvs == old(rsvs)
    {
      hide Held, Balanced;
      ret := UseBytes(src, n);
      if ret != 0 { return; }
      AddBytes(dst, n, updateSize);
    }

    /** apfs_reserve_metadata_bytes, for a reserve of the metadata space when it falls
        back on the global one. */
    method ReserveMetadata(i: nat, n: nat, grant: Grant) returns (ret: int)
      requires Valid() && i < |rsvs| && (grant.TryGlobal? ==> rsvs[i].space == rsvs[GLOBAL].space)
      modifies this
      ensures used == old(used) && ret == if Reservable(old(rsvs), i, n, grant) then 0 else ENOSPC
      ensures rsvs == AfterReserve(old(rsvs), i, n, grant)
      ensures ret == 0 ==> Balanced(rsvs[i].space, n) && GuardedBut(-1)
      ensures ret != 0 ==> Valid() && mayUse == old(mayUse)
    {
      hide Held;
      match grant {
        case Granted =>
          mayUse := mayUse[rsvs[i].space := mayUse[rsvs[i].space] + n];
          return 0;
        case TryGlobal =>
          if i != GLOBAL { ret := UseBytes(GLOBAL, n); } else { ret := ENOSPC; }
        case Refused =>
          return ENOSPC;
      }
    }

    /** apfs_block_rsv_add. */
    method Add(i: nat, n: nat, grant: Grant) returns (ret: int)
      requires Valid() && i < |rsvs| && (grant.TryGlobal? ==> rsvs[i].space == rsvs[GLOBAL].space)
      modifies this
      ensures Valid() && used == old(used)
      ensures ret == if n == 0 || Reservable(old(rsvs), i, n, grant) then 0 else ENOSPC
      ensures var rs := AfterReserve(old(rsvs), i, n, grant);
              rsvs == if n == 0 || ret != 0 then old(rsvs) else rs[i := Given(rs[i], n, true)]
    {
      hide Held, Balanced;
      if n == 0 { return 0; }
      ret := ReserveMetadata(i, n, grant);
      if ret == 0 { AddBytes(i, n, true); }
    }

    /** apfs_block_rsv_refill.  The delayed-refs reserve has its own, since this one can
        fill it above its size. */
    method Refill(i: nat, minReserved: nat, grant: Grant) returns (ret: int)
      requires Valid() && i < |rsvs| && (grant.TryGlobal? ==> rsvs[i].space == rsvs[GLOBAL].space)
      modifies this
      ensures Balanced(0, 0) && GuardedBut(i) && used == old(used)
      ensures Valid() <==> i != DELAYED || minReserved <= old(rsvs)[i].size || ret != 0
      ensures old(rsvs)[i].reserved >= minReserved ==> ret == 0 && rsvs == old(rsvs)
      ensures old(rsvs)[i].reserved < minReserved ==>
                var n := minReserved - old(rsvs)[i].reserved;
                var rs := AfterReserve(old(rsvs), i, n, grant);
                && ret == (if Reservable(old(rsvs), i, n, grant) then 0 else ENOSPC)
                && rsvs == (if ret == 0 then rs[i := Given(rs[i], n, false)] else old(rsvs))
    {
      hide Held, Balanced;
      var n := minReserved;
      if rsvs[i].reserved >= n { return 0; }
      n := n - rsvs[i].reserved;
      ret := ReserveMetadata(i, n, grant);
      if ret == 0 { AddBytes(i, n, false); }
    }

    /** apfs_cond_migrate_bytes. */
    method CondMigrate(dest: nat, n: nat, minFactor: nat) returns (ret: int)
      requires Valid() && dest < |rsvs|
      modifies this`rsvs
      ensures Valid()
      ensures var g := old(rsvs)[GLOBAL];
              ret == if g.space == old(rsvs)[dest].space
                && g.reserved >= DivFactor(g.size, minFactor) + n then 0 else ENOSPC
      ensures ret == 0 ==>
                var rs := old(rsvs)[GLOBAL := Taken(old(rsvs)[GLOBAL], n)];
                rsvs == rs[dest := Given(rs[dest], n, true)]
      ensures ret != 0 ==> rsvs == old(rsvs)
    {
      hide Held;
      if rsvs[GLOBAL].space != rsvs[dest].space { return ENOSPC; }
      var g := rsvs[GLOBAL];
      var minBytes := DivFactor(g.size, minFactor);
      if g.reserved < minBytes + n { return ENOSPC; }
      g := g.(reserved := g.reserved - n);
      if g.reserved < g.size { g := g.(full := false); }
      Put(GLOBAL, g, 0, 0);
      rsvs := rsvs[GLOBAL := g];
      AddBytes(dest, n, true);
      return 0;
    }

    /** apfs_update_global_block_rsv; `want` is the larger of what the three roots use and
        the minimum for thirteen items. */
    method UpdateGlobal(want: nat)
      requires Valid()
      modifies this`rsvs, this`mayUse
      ensures Valid() && rsvs == old(rsvs)[GLOBAL := Refreshed(old(rsvs)[GLOBAL], want)]
      ensures rsvs[GLOBAL].reserved == rsvs[GLOBAL].size == Min(want, 512 * 1024 * 1024) && rsvs[GLOBAL].full
      ensures Freed(old(mayUse), mayUse, rsvs[GLOBAL].space, old(rsvs)[GLOBAL].reserved - rsvs[GLOBAL].reserved)
    {
      hide Held;
      var r := rsvs[GLOBAL].(size := Min(want, SZ_512M));
      var sp, m := r.space, mayUse[r.space];
      if r.reserved < r.size {
        m := m + (r.size - r.reserved);
        r := r.(reserved := r.size);
      } else if r.reserved > r.size {
        m := m - (r.reserved - r.size);
        r := r.(reserved := r.size);
      }
      r := r.(full := r.reserved == r.size);
      Put(GLOBAL, r, 0, 0);
      rsvs, mayUse := rsvs[GLOBAL := r], mayUse[sp := m];
    }

    /** Space unpinned in the global reserve's space fills that reserve first. */
    method Unpinned(n: nat)
      requires Valid()
      modifies this`rsvs, this`mayUse
      ensures Valid() && rsvs == old(rsvs)[GLOBAL := Accepted(old(rsvs)[GLOBAL], n)]
      ensures var r := old(rsvs)[GLOBAL];
              && rsvs[GLOBAL].size == r.size
              && rsvs[GLOBAL].reserved == (if r.full then r.reserved else Min(r.reserved + n, r.size))
              && Freed(old(mayUse), mayUse, r.space, r.reserved - rsvs[GLOBAL].reserved)
    {
      hide Held;
      var r := rsvs[GLOBAL];
      if r.full { return; }
      var add := Min(n, r.size - r.reserved);
      r := r.(reserved := r.reserved + add);
      if r.reserved >= r.size { r := r.(full := true); }
      Put(GLOBAL, r, 0, 0);
      rsvs, mayUse := rsvs[GLOBAL := r], mayUse[r.space := mayUse[r.space] + add];
    }

    /** apfs_update_delayed_refs_rsv. */
    method GrowDelayed(n: nat)
      requires Valid()
      modifies this`rsvs
      ensures Valid()
      ensures rsvs == old(rsvs)[DELAYED := Enlarged(old(rsvs)[DELAYED], n)]
      ensures rsvs[DELAYED].size == old(rsvs)[DELAYED].size + n && !rsvs[DELAYED].full
      ensures rsvs[DELAYED].reserved == old(rsvs)[DELAYED].reserved
    {
      hide Held;
      var r := rsvs[DELAYED].(size := rsvs[DELAYED].size + n, full := false);
      Put(DELAYED, r, 0, 0);
      rsvs := rsvs[DELAYED := r];
    }

    /** apfs_migrate_to_delayed_refs_rsv. */
    method MigrateToDelayed(src: nat, n: nat)
      requires Valid() && src < |rsvs| && src != DELAYED && rsvs[src].space == rsvs[DELAYED].space
      requires n <= rsvs[src].reserved && n <= rsvs[src].size
      modifies this`rsvs, this`mayUse
      ensures Valid()
      ensures var r, d := old(rsvs)[src], old(rsvs)[DELAYED];
              && rsvs == old(rsvs)[src := r.(reserved := r.reserved - n, size := r.size - n)][DELAYED := FilledUp(d, n)]
              && rsvs[DELAYED].reserved == Min(d.reserved + n, d.size) && rsvs[DELAYED].size == d.size
              && Freed(old(mayUse), mayUse, d.space, n - (rsvs[DELAYED].reserved - d.reserved))
    {
      hide Held;
      var r := rsvs[src].(reserved := rsvs[src].reserved - n, size := rsvs[src].size - n);
      Put(src, r, 0, 0);
      rsvs := rsvs[src := r];
      var toFree := FillDelayed(n);
      if toFree > 0 { FreeMayUse(rsvs[DELAYED].space, toFree); }
    }

    method FillDelayed(n: nat) returns (toFree: nat)
      requires GuardedBut(-1) && Balanced(rsvs[DELAYED].space, n)
      modifies this`rsvs
      ensures rsvs == old(rsvs)[DELAYED := FilledUp(old(rsvs)[DELAYED], n)]
      ensures toFree == n - (rsvs[DELAYED].reserved - old(rsvs)[DELAYED].reserved)
      ensures Balanced(rsvs[DELAYED].space, toFree) && GuardedBut(-1)
    {
      hide Held;
      var d := rsvs[DELAYED];
      var m := n;
      toFree := 0;
      if d.size > d.reserved {
        var delta := d.size - d.reserved;
        if m > delta { toFree, m := m - delta, delta; }
      } else {
        toFree, m := m, 0;
      }
      if m > 0 { d := d.(reserved := d.reserved + m); }
      if d.reserved >= d.size { d := d.(full := true); }
      Put(DELAYED, d, d.space, n);
      rsvs := rsvs[DELAYED := d];
    }

    /** apfs_delayed_refs_rsv_refill, `limit` being the size of one item. */
    method RefillDelayed(limit: nat, grant: Grant) returns (ret: int)
      requires Valid() && (grant.TryGlobal? ==> rsvs[DELAYED].space == rsvs[GLOBAL].space)
      modifies this
      ensures Valid() && used == old(used)
      ensures var d := old(rsvs)[DELAYED];
              var n := Min(d.size - d.reserved, limit);
              var rs := AfterReserve(old(rsvs), DELAYED, n, grant);
              && ret == (if n == 0 || Reservable(old(rsvs), DELAYED, n, grant) then 0 else ENOSPC)
              && rsvs == if n == 0 || ret != 0 then old(rsvs) else rs[DELAYED := Given(d, n, false)]
    {
      hide Held;
      var n := 0;
      if rsvs[DELAYED].reserved < rsvs[DELAYED].size {
        n := Min(rsvs[DELAYED].size - rsvs[DELAYED].reserved, limit);
      }
      if n == 0 { return 0; }
      ret := ReserveMetadata(DELAYED, n, grant);
      if ret != 0 { return; }
      AddBytes(DELAYED, n, false);
    }

    /** apfs_use_block_rsv: take a block's bytes from a reserve, or from the space, or
        from the global reserve. */
    method UseBlock(i: nat, blocksize: nat, want: nat, grant: Grant) returns (ret: int, from: nat)
      requires Valid() && i < |rsvs| && (grant.TryGlobal? ==> rsvs[i].space == rsvs[GLOBAL].space)
      modifies this
      ensures Valid()
      ensures var r := old(rsvs)[i];
              var rs := SecondChance(old(rsvs), i, blocksize, want);
              if r.size > 0 && rs[i].reserved >= blocksize then
                ret == 0 && from == i && rsvs == rs[i := Taken(rs[i], blocksize)]
              else if r.size > 0 && r.failfast then
                ret == ENOSPC && rsvs == rs
              else if Reservable(rs, i, blocksize, grant) then
                ret == 0 && from == i && rsvs == AfterReserve(rs, i, blocksize, grant)
              else if i != GLOBAL && r.space == rs[GLOBAL].space && rs[GLOBAL].reserved >= blocksize then
                ret == 0 && from == GLOBAL && rsvs == rs[GLOBAL := Taken(rs[GLOBAL], blocksize)]
              else
                ret == ENOSPC && rsvs == rs
      ensures var sp := old(rsvs)[i].space;
              used == if ret == 0 then old(used)[sp := old(used)[sp] + blocksize] else old(used)
    {
      hide Held, Balanced;
      Parts();
      var sp := rsvs[i].space;
      from := i;
      if rsvs[i].size != 0 {
        ret := UseBytes(i, blocksize);
        if ret == 0 {
          TakeUse(sp, blocksize);
          return;
        }
        if rsvs[i].failfast { return; }
        if i == GLOBAL {
          UpdateGlobal(want);
          ret := UseBytes(i, blocksize);
          if ret == 0 {
            TakeUse(sp, blocksize);
            return;
          }
          if rsvs[i].failfast { return; }
        }
      }
      ret := ReserveMetadata(i, blocksize, grant);
      if ret == 0 {
        TakeUse(sp, blocksize);
        return;
      }
      if i != GLOBAL && rsvs[i].space == rsvs[GLOBAL].space {
        ret := UseBytes(GLOBAL, blocksize);
        if ret == 0 {
          TakeUse(sp, blocksize);
          from := GLOBAL;
        }
      }
    }

    /** Bytes on their way count as in use. */
    method TakeUse(sp: nat, n: nat)
      requires Balanced(sp, n) && GuardedBut(-1) && sp in used
      modifies this`used
      ensures Valid() && used == old(used)[sp := old(used)[sp] + n]
    {
      used := used[sp := used[sp] + n];
    }

    /** The part of apfs_add_reserved_bytes that turns bytes in use into an allocation. */
    method Convert(sp: nat, n: nat)
      requires Valid() && sp in used && used[sp] >= n
      modifies this`used, this`mayUse
      ensures Valid() && used == old(used)[sp := old(used)[sp] - n]
    {
      used, mayUse := used[sp := used[sp] - n], mayUse[sp := mayUse[sp] - n];
    }

    /** Over every run of these calls, each made as its callers must make it, the
        books balance and the guards hold. */
    method RunAll(ops: seq<Op>)
      requires Valid()
      modifies this
      ensures Valid()
      ensures forall sp :: sp in mayUse ==> mayUse[sp] == Held(rsvs, sp) + used[sp]
      ensures RoomIfNotFull(rsvs[GLOBAL]) && RoomIfNotFull(rsvs[DELAYED])
      ensures forall i :: 0 <= i < |rsvs| ==> FilledIfFull(rsvs[i])
    {
      for k := 0 to |ops|
        invariant Valid()
      {
        RunOne(ops[k]);
      }
    }

    method RunOne(op: Op)
      requires Valid()
      modifies this
      ensures Valid()
    {
      hide Balanced;
      Parts();
      var ret;
      if op.i >= |rsvs| { return; }
      var here := rsvs[op.i].space == rsvs[GLOBAL].space;
      match op {
        case Add(i, n, grant) => if here || !grant.TryGlobal? { ret := Add(i, n, grant); }
        case Refill(i, n, grant) =>
          if (here || !grant.TryGlobal?) && (i != DELAYED || n <= rsvs[i].size) { ret := Refill(i, n, grant); }
        case Release(i, num) => if num.None? || num.value <= rsvs[i].size { ret := Release(i, num); }
        case Use(i, blocksize, want, grant) =>
          if here || !grant.TryGlobal? {
            var from;
            ret, from := UseBlock(i, blocksize, want, grant);
          }
        case Unuse(i, blocksize) => if used[rsvs[i].space] >= blocksize { Unuse(i, blocksize); }
        case Convert(i, n) => if used[rsvs[i].space] >= n { Convert(rsvs[i].space, n); }
        case Migrate(i, dst, n, updateSize) =>
          if dst < |rsvs| && rsvs[dst].space == rsvs[i].space
             && (dst != DELAYED || updateSize || rsvs[dst].reserved + n <= rsvs[dst].size) {
            ret := Migrate(i, dst, n, updateSize);
          }
        case CondMigrate(i, n, minFactor) => ret := CondMigrate(i, n, minFactor);
        case UpdateGlobal(i, want) => UpdateGlobal(want);
        case Unpinned(i, n) => Unpinned(n);
        case GrowDelayed(i, n) => GrowDelayed(n);
        case MigrateToDelayed(i, n) =>
          if i != DELAYED && rsvs[i].space == rsvs[DELAYED].space && n <= rsvs[i].reserved && n <= rsvs[i].size {
            MigrateToDelayed(i, n);
          }
        case RefillDelayed(i, limit, grant) =>
          if rsvs[DELAYED].space == rsvs[GLOBAL].space || !grant.TryGlobal? { ret := RefillDelayed(limit, grant); }
      }
    }

    lemma Parts()
      requires Valid()
      ensures |rsvs| >= 2 && mayUse.Keys == used.Keys && forall i :: 0 <= i < |rsvs| ==> rsvs[i].space in used
    {
      hide Held;
    }
  }

  /** The calls, with the reserve they are made for. */
  datatype Op =
    | Add(i: nat, n: nat, grant: Grant)
    | Refill(i: nat, n: nat, grant: Grant)
    | Release(i: nat, num: Option<nat>)
    | Use(i: nat, blocksize: nat, want: nat, grant: Grant)
    | Unuse(i: nat, blocksize: nat)
    | Convert(i: nat, n: nat)
    | Migrate(i: nat, dst: nat, n: nat, updateSize: bool)
    | CondMigrate(i: nat, n: nat, minFactor: nat)
    | UpdateGlobal(i: nat, want: nat)
    | Unpinned(i: nat, n: nat)
    | GrowDelayed(i: nat, n: nat)
    | MigrateToDelayed(i: nat, n: nat)
    | RefillDelayed(i: nat, limit: nat, grant: Grant)
}
