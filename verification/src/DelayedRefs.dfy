/** The delayed-reference queue of delayed-ref.c: heads in address order, each with
    a sorted tree of references, and the counters kept beside them. */
module DelayedRefs {
  import opened Prelude
  import opened Refs

  datatype RefKey = RefKey(id: Ident, seqno: nat)

  /** `refs` is ref_tree in order, `adds` is ref_add_list. */
  datatype Head = Head(bytenr: nat, numBytes: nat, isData: bool, mustInsert: bool, processing: bool,
                       refMod: int, refs: seq<Ref>, adds: seq<RefKey>)

  function KeyOf(r: Ref): RefKey { RefKey(r.id, r.seqno) }

  // ---- The list of additions ----

  ghost function AddKeys(s: seq<Ref>): set<RefKey> {
    set i | 0 <= i < |s| && s[i].action.Add? :: KeyOf(s[i])
  }

  /** The list holds exactly the entries that add. */
  ghost predicate AddsOk(s: seq<Ref>, adds: seq<RefKey>) {
    NoDup(adds) && Elems(adds) == AddKeys(s)
  }

  lemma AddKeysConcat(a: seq<Ref>, b: seq<Ref>)
    ensures AddKeys(a + b) == AddKeys(a) + AddKeys(b)
  {
    var s := a + b;
    forall k ensures k in AddKeys(s) <==> k in AddKeys(a) || k in AddKeys(b) {
      if k in AddKeys(a) {
        var i :| 0 <= i < |a| && a[i].action.Add? && KeyOf(a[i]) == k;
        assert s[i] == a[i];
      }
      if k in AddKeys(b) {
        var i :| 0 <= i < |b| && b[i].action.Add? && KeyOf(b[i]) == k;
        assert s[|a| + i] == b[i];
      }
    }
  }

  lemma AddKeysOne(r: Ref)
    ensures AddKeys([r]) == if r.action.Add? then {KeyOf(r)} else {}
  {
    if r.action.Add? { assert KeyOf([r][0]) in AddKeys([r]); }
  }

  /** A run of entries replaced: the keys it added go, the keys its replacement adds
      come; nobody else has any of them. */
  lemma AddKeysSplice(a: seq<Ref>, m: seq<Ref>, m': seq<Ref>, c: seq<Ref>)
    ensures AddKeys(a + m + c) == AddKeys(a) + AddKeys(m) + AddKeys(c)
    ensures AddKeys(a + m' + c) == AddKeys(a) + AddKeys(m') + AddKeys(c)
  {
    hide AddKeys;
    AddKeysConcat(a + m, c);
    AddKeysConcat(a, m);
    AddKeysConcat(a + m', c);
    AddKeysConcat(a, m');
  }

  lemma KeysApart(s: seq<Ref>, j: nat, k: RefKey)
    requires Sorted(s) && j < |s| && k == KeyOf(s[j])
    ensures k !in AddKeys(s[..j]) && k !in AddKeys(s[j+1..])
  {
    hide CompRefs;
    forall i | 0 <= i < |s| && i != j ensures KeyOf(s[i]) != k {
      RefOrder(s[i], s[j], s[i]);
    }
  }

  // ---- One head ----

  /** `off` is what the tree still lacks of a reference being added. */
  ghost predicate HeadOk(h: Head, off: int) {
    Sorted(h.refs) && Positive(h.refs) && AddsOk(h.refs, h.adds) && h.refMod == Total(h.refs) + off
  }

  /** drop_delayed_ref, without the counter. */
  function DropAt(h: Head, j: nat): Head
    requires j < |h.refs|
  {
    h.(refs := h.refs[..j] + h.refs[j+1..], adds := Without(h.adds, KeyOf(h.refs[j])))
  }

  function SetMod(h: Head, j: nat, m: int): Head
    requires j < |h.refs|
  {
    h.(refs := h.refs[j := h.refs[j].(mod := m)])
  }

  lemma DropAdds(h: Head, j: nat)
    requires j < |h.refs| && Sorted(h.refs) && AddsOk(h.refs, h.adds)
    ensures AddsOk(DropAt(h, j).refs, DropAt(h, j).adds) && Sorted(DropAt(h, j).refs)
  {
    hide CompRefs, AddKeys, Elems, NoDup, Without;
    var a, r, c := h.refs[..j], h.refs[j], h.refs[j+1..];
    assert h.refs == a + [r] + c;
    assert a + [] + c == a + c;
    AddKeysSplice(a, [r], [], c);
    AddKeysOne(r);
    NoAddKeys();
    KeysApart(h.refs, j, KeyOf(r));
    WithoutElems(h.adds, KeyOf(r));
  }

  lemma NoAddKeys()
    ensures AddKeys([]) == {}
  {
  }

  lemma SetModAdds(h: Head, j: nat, m: int)
    requires j < |h.refs|
    ensures AddKeys(SetMod(h, j, m).refs) == AddKeys(h.refs)
    ensures Sorted(h.refs) ==> Sorted(SetMod(h, j, m).refs)
  {
    hide CompRefs, AddKeys;
    var a, r, c := h.refs[..j], h.refs[j], h.refs[j+1..];
    assert h.refs == a + [r] + c && SetMod(h, j, m).refs == a + [r.(mod := m)] + c;
    AddKeysSplice(a, [r], [r.(mod := m)], c);
    AddKeysOne(r);
    AddKeysOne(r.(mod := m));
    if Sorted(h.refs) {
      var s, t := h.refs, SetMod(h, j, m).refs;
      forall x, y | 0 <= x < y < |s| ensures CompRefs(t[x], t[y], true) < 0 {
        SameComp(t[x], s[x], t[y], s[y]);
      }
    }
  }

  // ---- Merging, one head ----

  /** One round of merge_ref at entry k: the next entry has the same identity. */
  function MergeNext(h: Head, k: nat): (r: (Head, nat, bool))
    requires k + 1 < |h.refs|
  {
    var a, b := h.refs[k], h.refs[k+1];
    if a.action == b.action then (SetMod(DropAt(h, k + 1), k, a.mod + b.mod), 1, false)
    else if a.mod < b.mod then (SetMod(DropAt(h, k), k, b.mod - a.mod), 1, true)
    else
      var h' := SetMod(DropAt(h, k + 1), k, a.mod - b.mod);
      if a.mod - b.mod == 0 then (DropAt(h', k), 2, true) else (h', 1, false)
  }

  lemma MergeNextIs(h: Head, k: nat)
    requires k + 1 < |h.refs|
    ensures var (h', n, done) := MergeNext(h, k);
            && h'.refs == Merged(h.refs, k) && h' == h.(refs := h'.refs, adds := h'.adds)
            && |h'.refs| == |h.refs| - n && n >= 1 && (!done ==> k < |h'.refs| && KeyOf(h'.refs[k]) == KeyOf(h.refs[k]))
  {
    var a, b := h.refs[k], h.refs[k+1];
    OneStays(h, k, k + 1, a.mod + b.mod);
    OneStays(h, k, k + 1, a.mod - b.mod);
    OneStays(h, k, k, b.mod - a.mod);
    NoneStays(SetMod(DropAt(h, k + 1), k, a.mod - b.mod), h.refs[..k], h.refs[k+2..]);
    hide Without, SetMod, DropAt;
  }

  /** One of two neighbours is dropped and the other takes its place. */
  lemma OneStays(h: Head, k: nat, j: nat, m: int)
    requires k <= j <= k + 1 < |h.refs|
    ensures var g := SetMod(DropAt(h, j), k, m);
            && g.refs == h.refs[..k] + [h.refs[2 * k + 1 - j].(mod := m)] + h.refs[k+2..]
            && g == h.(refs := g.refs, adds := g.adds)
  {
    hide Without;
    var s, r := h.refs, h.refs[2 * k + 1 - j].(mod := m);
    assert (s[..j] + s[j+1..])[k := r] == s[..k] + [r] + s[k+2..];
  }

  lemma NoneStays(h: Head, a: seq<Ref>, c: seq<Ref>)
    requires |h.refs| == |a| + 1 + |c| && h.refs[..|a|] == a && h.refs[|a|+1..] == c
    ensures var g := DropAt(h, |a|); g.refs == a + [] + c && g == h.(refs := g.refs, adds := g.adds)
  {
    hide Without;
  }

  lemma MergeNextAdds(h: Head, k: nat)
    requires k + 1 < |h.refs| && Sorted(h.refs) && AddsOk(h.refs, h.adds)
    ensures var h' := MergeNext(h, k).0; AddsOk(h'.refs, h'.adds)
  {
    hide AddKeys, Elems, NoDup, Without, Sorted;
    var a, b := h.refs[k], h.refs[k+1];
    var j := if a.action != b.action && a.mod < b.mod then k else k + 1;
    DropAdds(h, j);
    var h1 := DropAt(h, j);
    var m := if a.action == b.action then a.mod + b.mod else if a.mod < b.mod then b.mod - a.mod else a.mod - b.mod;
    SetModAdds(h1, k, m);
    var h2 := SetMod(h1, k, m);
    if a.action != b.action && a.mod == b.mod { DropAdds(h2, k); }
  }

  lemma MergeNextOk(h: Head, k: nat, bound: nat, off: int)
    requires k + 1 < |h.refs| && HeadOk(h, off) && h.refs[k].id == h.refs[k+1].id
    requires !IsHeld(h.refs[k], bound) && !IsHeld(h.refs[k+1], bound)
    ensures var h' := MergeNext(h, k).0; HeadOk(h', off) && SameCounts(h.refs, h'.refs, bound)
  {
    hide Sorted, Positive, AddsOk, Total, Count, Held, MergeNext, Merged;
    MergeNextIs(h, k);
    MergeNextAdds(h, k);
    MergedSorted(h.refs, k);
    MergedKeeps(h.refs, k, bound);
  }

  lemma SameCountsTrans(a: seq<Ref>, b: seq<Ref>, c: seq<Ref>, bound: nat)
    requires SameCounts(a, b, bound) && SameCounts(b, c, bound)
    ensures SameCounts(a, c, bound)
  {
    hide Count, Total, Held;
  }

  // ---- Sums over heads ----

  function Sum(hs: seq<Head>, f: Head -> int): int {
    if hs == [] then 0 else f(hs[0]) + Sum(hs[1..], f)
  }

  lemma {:induction false} SumConcat(a: seq<Head>, b: seq<Head>, f: Head -> int)
    ensures Sum(a + b, f) == Sum(a, f) + Sum(b, f)
  {
    if a == [] {
      assert a + b == b;
    } else {
      SumConcat(a[1..], b, f);
      assert (a + b)[0] == a[0] && (a + b)[1..] == a[1..] + b;
    }
  }

  lemma SumOne(h: Head, f: Head -> int)
    ensures Sum([h], f) == f(h)
  {
    assert [h][1..] == [];
  }

  /** Inserting, changing and removing one head. */
  lemma SumAround(hs: seq<Head>, i: nat, h: Head, f: Head -> int)
    requires i <= |hs|
    ensures Sum(hs[..i] + [h] + hs[i..], f) == Sum(hs, f) + f(h)
    ensures i < |hs| ==> Sum(hs[i := h], f) == Sum(hs, f) - f(hs[i]) + f(h)
    ensures i < |hs| ==> Sum(hs[..i] + hs[i+1..], f) == Sum(hs, f) - f(hs[i])
  {
    hide Sum;
    SumConcat(hs[..i] + [h], hs[i..], f);
    SumConcat(hs[..i], [h], f);
    SumConcat(hs[..i], hs[i..], f);
    SumOne(h, f);
    assert hs == hs[..i] + hs[i..];
    if i < |hs| {
      SumConcat([hs[i]], hs[i+1..], f);
      SumOne(hs[i], f);
      assert hs[i..] == [hs[i]] + hs[i+1..];
      SumConcat(hs[..i] + [h], hs[i+1..], f);
      SumConcat(hs[..i], hs[i+1..], f);
      assert hs[i := h] == hs[..i] + [h] + hs[i+1..];
    }
  }

  function Entries(h: Head): int { 1 + |h.refs| }

  function Ready(h: Head): int { if h.processing then 0 else 1 }

  /** The signed count queued for identity `id` of the extent at `b`, at sequence numbers
      `w`. */
  function NetOf(h: Head, b: nat, id: Ident, w: Seqs): int { if h.bytenr == b then Count(h.refs, id, w) else 0 }

  function NetFn(b: nat, id: Ident, w: Seqs): Head -> int { h => NetOf(h, b, id, w) }

  function Net(hs: seq<Head>, b: nat, id: Ident, w: Seqs): int { Sum(hs, NetFn(b, id, w)) }

  // ---- Inserting a reference, one head ----

  /** insert_delayed_ref, where `pos` is the entry with the same key if `found`, and
      otherwise the place of the new one; also whether an entry was gained or lost. */
  function Put(h: Head, pos: nat, found: bool, ref: Ref): Head
    requires if found then pos < |h.refs| else pos <= |h.refs|
  {
    if !found then
      h.(refs := h.refs[..pos] + [ref] + h.refs[pos..], adds := if ref.action.Add? then h.adds + [KeyOf(ref)]
        else h.adds)
    else
      var e := h.refs[pos];
      if e.action == ref.action then SetMod(h, pos, e.mod + ref.mod)
      else if e.mod < ref.mod then
        h.(refs := h.refs[pos := e.(action := ref.action, mod := ref.mod - e.mod)],
           adds := if ref.action.Add? then h.adds + [KeyOf(e)] else Without(h.adds, KeyOf(e)))
      else
        var h' := SetMod(h, pos, e.mod - ref.mod);
        if e.mod - ref.mod == 0 then DropAt(h', pos) else h'
  }

  /** Where a reference belongs in a tree. */
  ghost predicate Place(s: seq<Ref>, ref: Ref, pos: nat, found: bool) {
    && pos <= |s|
    && (forall i :: 0 <= i < pos ==> CompRefs(s[i], ref, true) < 0)
    && (found ==> pos < |s| && KeyOf(s[pos]) == KeyOf(ref))
    && (forall i :: (if found then pos + 1 else pos) <= i < |s| ==> CompRefs(ref, s[i], true) < 0)
  }

  /** A reference put at its place in head `i`; 1 if it met an entry with its key. */
  ghost predicate PutIn(h: Head, ref: Ref, hs: seq<Head>, before: seq<Head>, i: nat, ret: int) {
    i < |before| && exists pos, found ::
      Place(h.refs, ref, pos, found) && hs == before[i := Put(h, pos, found, ref)] && ret == (if found then 1 else 0)
  }

  /** What the entry at the place turns into. */
  function PutEntry(h: Head, pos: nat, found: bool, ref: Ref): seq<Ref>
    requires if found then pos < |h.refs| else pos <= |h.refs|
  {
    if !found then [ref]
    else
      var e := h.refs[pos];
      if e.action == ref.action then [e.(mod := e.mod + ref.mod)]
      else if e.mod < ref.mod then [e.(action := ref.action, mod := ref.mod - e.mod)]
      else if e.mod == ref.mod then []
      else [e.(mod := e.mod - ref.mod)]
  }

  function After(pos: nat, found: bool): nat { if found then pos + 1 else pos }

  lemma PutIs(h: Head, pos: nat, found: bool, ref: Ref)
    requires if found then pos < |h.refs| else pos <= |h.refs|
    ensures var h' := Put(h, pos, found, ref);
            && h'.refs == h.refs[..pos] + PutEntry(h, pos, found, ref) + h.refs[After(pos, found)..]
            && h' == h.(refs := h'.refs, adds := h'.adds)
  {
    hide Without;
    if found {
      var s := h.refs;
      assert forall r :: s[pos := r] == s[..pos] + [r] + s[pos+1..];
      var t := s[pos := s[pos].(mod := s[pos].mod - ref.mod)];
      assert t[..pos] == s[..pos] && t[pos+1..] == s[pos+1..];
      assert s[..pos] + [] + s[pos+1..] == s[..pos] + s[pos+1..];
    }
  }

  /** What a reference adds to a count. */
  function Adds(ref: Ref, id: Ident, w: Seqs): int {
    if id == ref.id && InSeqs(ref.seqno, w) then Signed(ref) else 0
  }

  lemma PutCounts(h: Head, pos: nat, found: bool, ref: Ref, id: Ident, w: Seqs)
    requires Place(h.refs, ref, pos, found)
    ensures Count(Put(h, pos, found, ref).refs, id, w) == Count(h.refs, id, w) + Adds(ref, id, w)
    ensures Total(Put(h, pos, found, ref).refs) == Total(h.refs) + Signed(ref)
  {
    hide Count, Total, Put, PutEntry, Place, Signed, Adds;
    PutFits(h, pos, found, ref);
    PutIs(h, pos, found, ref);
    var a, m, c := h.refs[..pos], h.refs[pos..After(pos, found)], h.refs[After(pos, found)..];
    var m' := PutEntry(h, pos, found, ref);
    assert h.refs == a + m + c;
    CountConcat(a + m, c, id, w);
    CountConcat(a, m, id, w);
    CountConcat(a + m', c, id, w);
    CountConcat(a, m', id, w);
    TotalConcat(a + m, c);
    TotalConcat(a, m);
    TotalConcat(a + m', c);
    TotalConcat(a, m');
    EntryCounts(h, pos, found, ref, id, w);
  }

  lemma PutFits(h: Head, pos: nat, found: bool, ref: Ref)
    requires Place(h.refs, ref, pos, found)
    ensures if found then pos < |h.refs| else pos <= |h.refs|
    ensures found ==> KeyOf(h.refs[pos]) == KeyOf(ref)
  {
  }

  lemma EntryCounts(h: Head, pos: nat, found: bool, ref: Ref, id: Ident, w: Seqs)
    requires if found then pos < |h.refs| && KeyOf(h.refs[pos]) == KeyOf(ref) else pos <= |h.refs|
    ensures var m, m' := h.refs[pos..After(pos, found)], PutEntry(h, pos, found, ref);
            && Count(m', id, w) == Count(m, id, w) + Adds(ref, id, w)
            && Total(m') == Total(m) + Signed(ref)
  {
    hide Count, Total;
    var m' := PutEntry(h, pos, found, ref);
    CountNone(id, w);
    if found {
      assert h.refs[pos..pos+1] == [h.refs[pos]];
      CountOne(h.refs[pos], id, w);
    } else {
      assert h.refs[pos..pos] == [];
    }
    if m' != [] {
      assert m' == [m'[0]];
      CountOne(m'[0], id, w);
    }
  }

  lemma PutSorted(h: Head, pos: nat, found: bool, ref: Ref)
    requires Sorted(h.refs) && Positive(h.refs) && ref.mod > 0 && Place(h.refs, ref, pos, found)
    ensures var s := Put(h, pos, found, ref).refs; Sorted(s) && Positive(s)
  {
    hide CompRefs, Put;
    PutIs(h, pos, found, ref);
    var s, m := h.refs, PutEntry(h, pos, found, ref);
    var t, q := s[..pos] + m + s[After(pos, found)..], After(pos, found);
    forall x, y | 0 <= x < y < |t| ensures CompRefs(t[x], t[y], true) < 0 {
      if x < pos <= y < pos + |m| {
        SameComp(t[x], t[x], t[y], ref);
      } else if x == pos && |m| == 1 {
        assert t[y] == s[y - |m| - pos + q];
        SameComp(t[x], ref, t[y], t[y]);
      }
    }
  }

  lemma PutAdds(h: Head, pos: nat, found: bool, ref: Ref)
    requires Sorted(h.refs) && AddsOk(h.refs, h.adds) && Place(h.refs, ref, pos, found)
    ensures var h' := Put(h, pos, found, ref); AddsOk(h'.refs, h'.adds)
  {
    hide CompRefs, AddKeys, Elems, NoDup, Without;
    if !found {
      var a, c := h.refs[..pos], h.refs[pos..];
      assert h.refs == a + [] + c;
      AddKeysSplice(a, [], [ref], c);
      AddKeysOne(ref);
      NoAddKeys();
      NewKey(h.refs, ref, pos);
      if ref.action.Add? { Snoc(h.adds, KeyOf(ref)); }
    } else {
      var e := h.refs[pos];
      SetModAdds(h, pos, e.mod + ref.mod);
      SetModAdds(h, pos, e.mod - ref.mod);
      if e.action != ref.action && e.mod == ref.mod { DropAdds(SetMod(h, pos, 0), pos); }
      FlipAdds(h, pos, ref);
    }
  }

  lemma NewKey(s: seq<Ref>, ref: Ref, pos: nat)
    requires Place(s, ref, pos, false)
    ensures KeyOf(ref) !in AddKeys(s)
  {
    hide CompRefs;
    forall i | 0 <= i < |s| ensures KeyOf(s[i]) != KeyOf(ref) { RefOrder(s[i], ref, s[i]); }
  }

  lemma FlipAdds(h: Head, pos: nat, ref: Ref)
    requires Sorted(h.refs) && AddsOk(h.refs, h.adds) && pos < |h.refs|
    requires var e := h.refs[pos]; KeyOf(e) == KeyOf(ref)
    ensures var e := h.refs[pos];
            e.action != ref.action && e.mod < ref.mod ==>
              var h' := Put(h, pos, true, ref); AddsOk(h'.refs, h'.adds)
  {
    hide CompRefs, AddKeys, Elems, NoDup, Without, Sorted;
    var a, e, c := h.refs[..pos], h.refs[pos], h.refs[pos+1..];
    if e.action != ref.action && e.mod < ref.mod {
      var e' := e.(action := ref.action, mod := ref.mod - e.mod);
      assert h.refs == a + [e] + c && h.refs[pos := e'] == a + [e'] + c;
      AddKeysSplice(a, [e], [e'], c);
      AddKeysOne(e);
      AddKeysOne(e');
      KeysApart(h.refs, pos, KeyOf(e));
      if ref.action.Add? { Snoc(h.adds, KeyOf(e)); } else { WithoutElems(h.adds, KeyOf(e)); }
    }
  }

  // ---- The root ----

  ghost predicate Ordered(hs: seq<Head>) {
    forall i, j :: 0 <= i < j < |hs| ==> hs[i].bytenr < hs[j].bytenr
  }

  /** Every head is well formed, head `i` up to a reference still to be put in. */
  ghost predicate HeadsOk(hs: seq<Head>, i: int, off: int) {
    Ordered(hs) && forall j :: 0 <= j < |hs| ==> HeadOk(hs[j], if j == i then off else 0)
  }

  /** Replacing a head by one at the same address. */
  lemma Replaced(hs: seq<Head>, i: nat, h: Head, off: int, off': int)
    requires HeadsOk(hs, i, off) && i < |hs| && h.bytenr == hs[i].bytenr && HeadOk(h, off')
    ensures HeadsOk(hs[i := h], i, off')
  {
    hide HeadOk;
  }

  lemma Settle(hs: seq<Head>, i: int, j: int)
    requires HeadsOk(hs, i, 0)
    ensures HeadsOk(hs, j, 0)
  {
    hide HeadOk;
    forall k | 0 <= k < |hs| ensures HeadOk(hs[k], 0) { assert HeadOk(hs[k], if k == i then 0 else 0); }
  }

  lemma NetReplaced(hs: seq<Head>, i: nat, h: Head, b: nat, id: Ident, w: Seqs)
    requires i < |hs| && h.bytenr == hs[i].bytenr
    ensures Net(hs[i := h], b, id, w) == Net(hs, b, id, w)
                                         + if b == h.bytenr then Count(h.refs, id, w) - Count(hs[i].refs, id, w) else 0
  {
    SumAround(hs, i, h, NetFn(b, id, w));
  }

  /** init_delayed_ref_head. */
  function NewHead(bytenr: nat, numBytes: nat, isData: bool, mustInsert: bool, countMod: int): Head {
    Head(bytenr, numBytes, isData, mustInsert, false, countMod, [], [])
  }

  /** update_existing_head_ref. */
  function Updated(h: Head, numBytes: nat, mustInsert: bool, countMod: int): Head {
    var h' := if mustInsert then h.(mustInsert := true, numBytes := numBytes) else h;
    h'.(refMod := h.refMod + countMod)
  }

  // ---- What heads say about their extents ----

  /** There is a head for the extent, with this length and must_insert_reserved flag. */
  ghost predicate HeadIs(hs: seq<Head>, b: nat, numBytes: nat, mustInsert: bool) {
    exists i :: 0 <= i < |hs| && hs[i].bytenr == b && hs[i].numBytes == numBytes && hs[i].mustInsert == mustInsert
  }

  ghost predicate NoHead(hs: seq<Head>, b: nat) { forall i :: 0 <= i < |hs| ==> hs[i].bytenr != b }

  /** The head for an extent is a new one made as asked, or the old one, which takes over
      length and flag if the flag is asked for; all others say what they said. */
  ghost predicate Relabelled(hs: seq<Head>, hs': seq<Head>, b: nat, numBytes: nat, mustInsert: bool) {
    && (NoHead(hs, b) ==> HeadIs(hs', b, numBytes, mustInsert))
    && (forall n, m :: HeadIs(hs, b, n, m) ==> HeadIs(hs', b, if mustInsert then numBytes else n, m || mustInsert))
    && (forall b', n, m :: b' != b ==> (HeadIs(hs', b', n, m) <==> HeadIs(hs, b', n, m)))
  }

  ghost predicate SameLabels(hs: seq<Head>, hs': seq<Head>) {
    |hs| == |hs'| && forall i :: 0 <= i < |hs| ==> SameLabel(hs[i], hs'[i])
  }

  predicate SameLabel(h: Head, h': Head) {
    h'.bytenr == h.bytenr && h'.numBytes == h.numBytes && h'.isData == h.isData && h'.mustInsert == h.mustInsert
    && h'.processing == h.processing
  }

  lemma LabelsKept(hs: seq<Head>, hs': seq<Head>, hs'': seq<Head>, b: nat, numBytes: nat, mustInsert: bool)
    requires Relabelled(hs, hs', b, numBytes, mustInsert) && SameLabels(hs', hs'')
    ensures Relabelled(hs, hs'', b, numBytes, mustInsert)
  {
    hide HeadIs, Relabelled;
    forall b', n, m ensures HeadIs(hs'', b', n, m) <==> HeadIs(hs', b', n, m) { SameHead(hs', hs'', b', n, m); }
    Relabel(hs, hs', hs'', b, numBytes, mustInsert);
  }

  lemma SameHead(hs: seq<Head>, hs': seq<Head>, b: nat, n: nat, m: bool)
    requires SameLabels(hs, hs')
    ensures HeadIs(hs', b, n, m) <==> HeadIs(hs, b, n, m)
  {
    if HeadIs(hs, b, n, m) {
      var i :| 0 <= i < |hs| && hs[i].bytenr == b && hs[i].numBytes == n && hs[i].mustInsert == m;
      assert SameLabel(hs[i], hs'[i]);
    }
    if HeadIs(hs', b, n, m) {
      var i :| 0 <= i < |hs'| && hs'[i].bytenr == b && hs'[i].numBytes == n && hs'[i].mustInsert == m;
      assert SameLabel(hs[i], hs'[i]);
    }
  }

  lemma Relabel(hs: seq<Head>, hs': seq<Head>, hs'': seq<Head>, b: nat, numBytes: nat, mustInsert: bool)
    requires Relabelled(hs, hs', b, numBytes, mustInsert)
    requires forall b', n, m :: HeadIs(hs'', b', n, m) <==> HeadIs(hs', b', n, m)
    ensures Relabelled(hs, hs'', b, numBytes, mustInsert)
  {
    hide HeadIs, NoHead;
  }

  /** Replacing a head, and adding one. */
  lemma HeadReplaced(hs: seq<Head>, i: nat, h: Head, numBytes: nat, mustInsert: bool)
    requires i < |hs| && Ordered(hs) && h.bytenr == hs[i].bytenr
    requires h.numBytes == if mustInsert then numBytes else hs[i].numBytes
    requires h.mustInsert == (hs[i].mustInsert || mustInsert)
    ensures Relabelled(hs, hs[i := h], h.bytenr, numBytes, mustInsert)
  {
    var t, b := hs[i := h], h.bytenr;
    assert t[i] == h && !NoHead(hs, b);
    forall n, m | HeadIs(hs, b, n, m) ensures HeadIs(t, b, if mustInsert then numBytes else n, m || mustInsert) {
      var j :| 0 <= j < |hs| && hs[j].bytenr == b && hs[j].numBytes == n && hs[j].mustInsert == m;
      assert j == i;
    }
    forall b', n, m | b' != b ensures HeadIs(t, b', n, m) <==> HeadIs(hs, b', n, m) {
      if HeadIs(t, b', n, m) {
        var j :| 0 <= j < |t| && t[j].bytenr == b' && t[j].numBytes == n && t[j].mustInsert == m;
        assert hs[j] == t[j];
      }
      if HeadIs(hs, b', n, m) {
        var j :| 0 <= j < |hs| && hs[j].bytenr == b' && hs[j].numBytes == n && hs[j].mustInsert == m;
        assert hs[j] == t[j];
      }
    }
  }

  lemma HeadAdded(hs: seq<Head>, i: nat, h: Head)
    requires i <= |hs| && NoHead(hs, h.bytenr)
    ensures Relabelled(hs, hs[..i] + [h] + hs[i..], h.bytenr, h.numBytes, h.mustInsert)
  {
    var t, b := hs[..i] + [h] + hs[i..], h.bytenr;
    assert t[i] == h;
    assert HeadIs(t, b, h.numBytes, h.mustInsert);
    forall b', n, m | b' != b ensures HeadIs(t, b', n, m) <==> HeadIs(hs, b', n, m) {
      if HeadIs(t, b', n, m) {
        var j :| 0 <= j < |t| && t[j].bytenr == b' && t[j].numBytes == n && t[j].mustInsert == m;
        assert t[j] == hs[if j < i then j else j - 1];
      }
      if HeadIs(hs, b', n, m) {
        var j :| 0 <= j < |hs| && hs[j].bytenr == b' && hs[j].numBytes == n && hs[j].mustInsert == m;
        assert hs[j] == t[if j < i then j else j + 1];
      }
    }
  }

  class DelayedRefRoot {
    var heads: seq<Head>
    var numEntries: int
    var numHeads: int
    var numHeadsReady: int
    var runDelayedStart: nat

    ghost predicate Counters()
      reads this
    {
      numHeads == |heads| && numEntries == Sum(heads, Entries) && numHeadsReady == Sum(heads, Ready)
    }

    ghost predicate Pending(i: int, off: int)
      reads this
    {
      HeadsOk(heads, i, off) && Counters()
    }

    /** Each head's ref_mod is the signed sum of its tree, its list of additions is
        exactly its ADD entries, and all counters are exact. */
    ghost predicate Valid()
      reads this
    {
      Pending(-1, 0)
    }

    constructor ()
      ensures Valid() && heads == []
    {
      heads, numEntries, numHeads, numHeadsReady, runDelayedStart := [], 0, 0, 0, 0;
    }

    /** find_ref_head and the descent of htree_insert. */
    method FindHead(bytenr: nat) returns (k: nat, found: bool)
      requires Ordered(heads)
      ensures k <= |heads| && (forall i :: 0 <= i < k ==> heads[i].bytenr < bytenr)
      ensures forall i :: (if found then k + 1 else k) <= i < |heads| ==> heads[i].bytenr > bytenr
      ensures found <==> k < |heads| && heads[k].bytenr == bytenr
    {
      k := 0;
      while k < |heads| && heads[k].bytenr < bytenr
        invariant k <= |heads| && forall i :: 0 <= i < k ==> heads[i].bytenr < bytenr
      {
        k := k + 1;
      }
      found := k < |heads| && heads[k].bytenr == bytenr;
    }

    /** add_delayed_ref_head: find or create the head for an extent; `countMod` is the
        change of its reference count. */
    method AddHead(bytenr: nat, numBytes: nat, isData: bool, mustInsert: bool, countMod: int) returns (i: nat)
      requires Valid()
      requires forall j :: 0 <= j < |heads| && heads[j].bytenr == bytenr ==> heads[j].isData == isData
      modifies this
      ensures i < |heads| && heads[i].bytenr == bytenr && heads[i].isData == isData && Pending(i, countMod)
      ensures if |heads| == |old(heads)|
              then heads == old(heads)[i := Updated(old(heads)[i], numBytes, mustInsert, countMod)]
              else
                && i <= |old(heads)|
                && heads == old(heads)[..i] + [NewHead(bytenr, numBytes, isData, mustInsert, countMod)]
                  + old(heads)[i..]
      ensures forall b, id, w :: Net(heads, b, id, w) == Net(old(heads), b, id, w)
      ensures runDelayedStart == old(runDelayedStart) && Kinds(heads) == Kinds(old(heads)) + {(bytenr, isData)}
      ensures Relabelled(old(heads), heads, bytenr, numBytes, mustInsert)
    {
      hide HeadOk, Net, Sum, Count, Kinds, Relabelled;
      var found;
      i, found := FindHead(bytenr);
      if found {
        // update_existing_head_ref
        var h := heads[i];
        if mustInsert { h := h.(mustInsert := true, numBytes := numBytes); }
        h := h.(refMod := h.refMod + countMod);
        HeadAt(heads, -1, 0, i);
        Settle(heads, -1, i);
        MoreMod(heads[i], h, countMod);
        Replaced(heads, i, h, 0, countMod);
        SumAround(heads, i, h, Entries);
        SumAround(heads, i, h, Ready);
        forall b, id, w ensures Net(heads[i := h], b, id, w) == Net(heads, b, id, w) {
          NetReplaced(heads, i, h, b, id, w);
        }
        KindsReplaced(heads, i, h);
        HeadReplaced(heads, i, h, numBytes, mustInsert);
        heads := heads[i := h];
      } else {
        var h := NewHead(bytenr, numBytes, isData, mustInsert, countMod);
        NewHeadOk(heads, i, h, countMod);
        SumAround(heads, i, h, Entries);
        SumAround(heads, i, h, Ready);
        forall b, id, w ensures Net(heads[..i] + [h] + heads[i..], b, id, w) == Net(heads, b, id, w) {
          NetNew(heads, i, h, b, id, w);
        }
        KindsInserted(heads, i, h);
        HeadAdded(heads, i, h);
        heads := heads[..i] + [h] + heads[i..];
        numHeads, numHeadsReady, numEntries := numHeads + 1, numHeadsReady + 1, numEntries + 1;
      }
    }

    /** The descent of tree_insert. */
    method FindRef(i: nat, ref: Ref) returns (pos: nat, found: bool)
      requires i < |heads| && Sorted(heads[i].refs)
      ensures Place(heads[i].refs, ref, pos, found)
    {
      hide CompRefs;
      var s := heads[i].refs;
      pos := 0;
      while pos < |s| && CompRefs(ref, s[pos], true) > 0
        invariant pos <= |s| && forall k :: 0 <= k < pos ==> CompRefs(s[k], ref, true) < 0
      {
        RefOrder(ref, s[pos], ref);
        pos := pos + 1;
      }
      found := pos < |s| && CompRefs(ref, s[pos], true) == 0;
      if pos < |s| { Beyond(s, ref, pos); }
    }

    /** insert_delayed_ref. */
    method InsertRef(i: nat, ref: Ref) returns (ret: int)
      requires i < |heads| && Pending(i, Signed(ref)) && ref.mod > 0
      modifies this
      ensures Valid() && Kinds(heads) == Kinds(old(heads)) && runDelayedStart == old(runDelayedStart)
      ensures PutIn(old(heads)[i], ref, heads, old(heads), i, ret)
      ensures forall b, id, w :: Net(heads, b, id, w) == Net(old(heads), b, id, w)
                                   + if b == old(heads[i].bytenr) then Adds(ref, id, w) else 0
      ensures SameLabels(old(heads), heads)
    {
      hide HeadOk, Net, Sum, Count, Put, Place, Signed, Kinds, Adds;
      HeadAt(heads, i, Signed(ref), i);
      var pos, found := FindRef(i, ref);
      ghost var h := heads[i];
      PutFits(h, pos, found, ref);
      PutOk(h, pos, found, ref);
      var h', n;
      ret, h', n := InsertOrMerge(heads[i], pos, found, ref);
      Replaced(heads, i, h', Signed(ref), 0);
      Settle(heads[i := h'], i, -1);
      SumAround(heads, i, h', Entries);
      SumAround(heads, i, h', Ready);
      forall b, id, w ensures Net(heads[i := h'], b, id, w) == Net(heads, b, id, w)
                                + if b == h.bytenr then Adds(ref, id, w) else 0
      {
        PutCounts(h, pos, found, ref, id, w);
        NetReplaced(heads, i, h', b, id, w);
      }
      KindsReplaced(heads, i, h');
      heads := heads[i := h'];
      numEntries := numEntries + n;
    }

    /** One round of the loop of merge_ref, on neighbours of one identity. */
    method MergeNeighbour(i: nat, k: nat, ghost bound: nat) returns (done: bool)
      requires i < |heads| && Valid() && k + 1 < |heads[i].refs| && heads[i].refs[k].id == heads[i].refs[k+1].id
      requires !IsHeld(heads[i].refs[k], bound) && !IsHeld(heads[i].refs[k+1], bound)
      modifies this
      ensures Valid() && Kept(i, bound) && |heads[i].refs| < |old(heads)[i].refs|
      ensures heads[i].refs == Merged(old(heads)[i].refs, k)
      ensures !done ==> k < |heads[i].refs| && KeyOf(heads[i].refs[k]) == KeyOf(old(heads)[i].refs[k])
    {
      hide HeadOk, Net, Sum, Count, MergeNext, Merged, Held, Total, SameCounts;
      ghost var h := heads[i];
      HeadAt(heads, -1, 0, i);
      MergeNextOk(h, k, bound, 0);
      MergeNextIs(h, k);
      var h', n;
      h', n, done := MergeTwo(heads[i], k);
      Settle(heads, -1, i);
      Replaced(heads, i, h', 0, 0);
      Settle(heads[i := h'], i, -1);
      SumAround(heads, i, h', Entries);
      SumAround(heads, i, h', Ready);
      SameNet(heads, i, h', bound);
      heads := heads[i := h'];
      numEntries := numEntries - n;
    }

    /** What merging in head `i` leaves alone: the other heads, the counts of every
        identity, and the entries held back. */
    twostate predicate Kept(i: nat, bound: nat)
      reads this
    {
      && i < |old(heads)| == |heads| && heads == old(heads)[i := heads[i]]
      && heads[i] == old(heads)[i].(refs := heads[i].refs, adds := heads[i].adds)
      && SameCounts(old(heads)[i].refs, heads[i].refs, bound)
      && (forall b, id, w :: b != heads[i].bytenr || Fixed(w, bound) ==>
            Net(heads, b, id, w) == Net(old(heads), b, id, w))
      && runDelayedStart == old(runDelayedStart)
    }

    /** merge_ref. */
    method MergeRef(i: nat, k: nat, bound: nat) returns (done: bool)
      requires i < |heads| && Valid() && k < |heads[i].refs| && !IsHeld(heads[i].refs[k], bound)
      modifies this
      ensures Valid() && Kept(i, bound)
      ensures done ==> |heads[i].refs| < |old(heads)[i].refs|
      ensures !done ==> k < |heads[i].refs| <= |old(heads)[i].refs| && Settled(heads[i].refs, k, bound)
      ensures !done ==> heads[i].refs[..k] == old(heads)[i].refs[..k]
      ensures !done ==> KeyOf(heads[i].refs[k]) == KeyOf(old(heads)[i].refs[k])
    {
      hide HeadOk, Net, Sum, Count, Held, Total, SameCounts, HeadsOk, Ordered, CompIds;
      done := false;
      SameCountsRefl(heads[i].refs, bound);
      while !done && k + 1 < |heads[i].refs|
        invariant i < |heads| && Valid() && Kept(i, bound) && |heads[i].refs| <= |old(heads)[i].refs|
        invariant done ==> |heads[i].refs| < |old(heads)[i].refs|
        invariant !done ==> k < |heads[i].refs| && KeyOf(heads[i].refs[k]) == KeyOf(old(heads)[i].refs[k])
        invariant !done ==> heads[i].refs[..k] == old(heads)[i].refs[..k]
        decreases |heads[i].refs|
      {
        var ref, next := heads[i].refs[k], heads[i].refs[k+1];
        if bound != 0 && next.seqno >= bound { break; }
        IdOrder(ref.id, next.id, ref.id);
        if CompRefs(ref, next, false) != 0 { break; }
        ghost var before := heads;
        done := MergeNeighbour(i, k, bound);
        SameCountsTrans(old(heads)[i].refs, before[i].refs, heads[i].refs, bound);
        assert !done ==> heads[i].refs[..k] == before[i].refs[..k];
      }
    }

    /** apfs_merge_delayed_refs, `bound` being the lowest sequence number held. */
    method MergeDelayedRefs(i: nat, bound: nat)
      requires i < |heads| && Valid()
      modifies this
      ensures Valid() && Kept(i, bound)
      ensures !heads[i].isData ==> Unique(heads[i].refs, bound)
      ensures heads[i].isData ==> heads == old(heads)
    {
      hide HeadOk, Net, Sum, Count, Held, Total, SameCounts, HeadsOk, Ordered, CompIds;
      SameCountsRefl(heads[i].refs, bound);
      if heads[i].refs == [] || heads[i].isData { return; }
      var k := 0;
      while k < |heads[i].refs|
        invariant i < |heads| && Valid() && Kept(i, bound) && 0 <= k <= |heads[i].refs|
        invariant forall j :: 0 <= j < k ==> Settled(heads[i].refs, j, bound)
        decreases |heads[i].refs|, |heads[i].refs| - k
      {
        ghost var before := heads;
        if bound != 0 && heads[i].refs[k].seqno >= bound {
          k := k + 1;
          continue;
        }
        var again := MergeRef(i, k, bound);
        SameCountsTrans(old(heads)[i].refs, before[i].refs, heads[i].refs, bound);
        if again {
          k := 0;
        } else {
          StillSettled(before[i].refs, heads[i].refs, k, bound);
          k := k + 1;
        }
      }
      HeadAt(heads, -1, 0, i);
      AllSettled(heads[i].refs, bound);
    }

    /** apfs_add_delayed_tree_ref and apfs_add_delayed_data_ref: one reference more or
        less for an extent. */
    method AddDelayedRef(bytenr: nat, numBytes: nat, isData: bool, mustInsert: bool, id: Ident, seqno: nat,
                         action: Action)
      requires Valid()
      requires forall j :: 0 <= j < |heads| && heads[j].bytenr == bytenr ==> heads[j].isData == isData
      modifies this
      ensures Valid() && Kinds(heads) == Kinds(old(heads)) + {(bytenr, isData)}
      ensures forall b, x, w :: Net(heads, b, x, w) == Net(old(heads), b, x, w)
                                  + if b == bytenr && x == id && InSeqs(seqno, w) then (if action.Add? then 1 else -1)
                                    else 0
      ensures Relabelled(old(heads), heads, bytenr, numBytes, mustInsert)
    {
      hide HeadsOk, Net, Sum, Kinds, Relabelled, SameLabels;
      var ref := Ref(id, seqno, action, 1);
      var i := AddHead(bytenr, numBytes, isData, mustInsert, if action.Add? then 1 else -1);
      ghost var added := heads;
      var ret := InsertRef(i, ref);
      LabelsKept(old(heads), added, heads, bytenr, numBytes, mustInsert);
    }

    /** apfs_add_delayed_extent_op: a head without a change of its count. */
    method AddExtentOp(bytenr: nat, numBytes: nat, isData: bool)
      requires Valid()
      requires forall j :: 0 <= j < |heads| && heads[j].bytenr == bytenr ==> heads[j].isData == isData
      modifies this
      ensures Valid() && forall b, x, w :: Net(heads, b, x, w) == Net(old(heads), b, x, w)
      ensures Kinds(heads) == Kinds(old(heads)) + {(bytenr, isData)}
      ensures Relabelled(old(heads), heads, bytenr, numBytes, false)
    {
      hide HeadsOk, Net, Sum, Kinds, Relabelled;
      var i := AddHead(bytenr, numBytes, isData, false, 0);
      Settle(heads, i, -1);
    }

    /** apfs_select_ref_head: the next head in cyclic address order, from
        run_delayed_start on, that nobody is processing; none exactly if every head is
        being processed. */
    method SelectRefHead() returns (r: Option<nat>)
      requires Valid()
      modifies this
      ensures Valid()
      ensures r.None? <==> forall j :: 0 <= j < |old(heads)| ==> old(heads)[j].processing
      ensures r.None? ==> heads == old(heads) && runDelayedStart == 0 && numHeadsReady == old(numHeadsReady)
      ensures r.Some? ==>
                && r.value < |old(heads)| && NextReady(old(heads), old(runDelayedStart), r.value)
                && heads == old(heads)[r.value := old(heads)[r.value].(processing := true)]
                && runDelayedStart == heads[r.value].bytenr + heads[r.value].numBytes
                && numHeadsReady == old(numHeadsReady) - 1
      ensures forall b, x, w :: Net(heads, b, x, w) == Net(old(heads), b, x, w)
    {
      hide HeadOk, Net, Sum, Count, NextReady;
      OrderedOf(heads);
      r := FindReady();
      if r.None? { return; }
      var k := r.value;
      var h := heads[k].(processing := true);
      HeadAt(heads, -1, 0, k);
      MoreMod(heads[k], h, 0);
      Settle(heads, -1, k);
      Replaced(heads, k, h, 0, 0);
      Settle(heads[k := h], k, -1);
      SumAround(heads, k, h, Entries);
      SumAround(heads, k, h, Ready);
      forall b, x, w ensures Net(heads[k := h], b, x, w) == Net(heads, b, x, w) {
        NetReplaced(heads, k, h, b, x, w);
      }
      heads := heads[k := h];
      numHeadsReady := numHeadsReady - 1;
      runDelayedStart := h.bytenr + h.numBytes;
    }

    /** The search of apfs_select_ref_head, which may start over once from address 0. */
    method FindReady() returns (r: Option<nat>)
      requires Ordered(heads)
      modifies this`runDelayedStart
      ensures r.None? <==> forall j :: 0 <= j < |heads| ==> heads[j].processing
      ensures r.None? ==> runDelayedStart == 0
      ensures r.Some? ==> r.value < |heads| && !heads[r.value].processing
      ensures r.Some? ==> NextReady(heads, old(runDelayedStart), r.value)
    {
      var k, found := FindHead(runDelayedStart);
      ghost var start := runDelayedStart;
      var wrapped := false;
      if k == |heads| && runDelayedStart != 0 {
        runDelayedStart, k, wrapped := 0, 0, true;
      }
      if k == |heads| { return None; }
      while heads[k].processing
        invariant 0 <= k < |heads|
        invariant wrapped ==> runDelayedStart == 0
        invariant !wrapped ==> runDelayedStart == start
        invariant !wrapped ==> forall j :: 0 <= j < |heads| ==> (heads[j].bytenr < start ==> j < k)
        invariant forall j :: 0 <= j < k && (wrapped || heads[j].bytenr >= start) ==> heads[j].processing
        invariant wrapped ==> forall j :: 0 <= j < |heads| && heads[j].bytenr >= start ==> heads[j].processing
        invariant !wrapped ==> heads[k].bytenr >= start
        decreases !wrapped, |heads| - k
      {
        if k + 1 == |heads| {
          if runDelayedStart == 0 { return None; }
          runDelayedStart, k, wrapped := 0, 0, true;
        } else {
          k := k + 1;
        }
      }
      return Some(k);
    }

    /** apfs_delete_ref_head, for a head without references. */
    method DeleteRefHead(i: nat)
      requires Valid() && i < |heads| && heads[i].refs == []
      modifies this
      ensures Valid() && heads == old(heads[..i] + heads[i+1..])
      ensures numHeads == old(numHeads) - 1 && numEntries == old(numEntries) - 1
      ensures numHeadsReady == old(numHeadsReady) - if old(heads)[i].processing then 0 else 1
      ensures forall b, x, w :: Net(heads, b, x, w) == Net(old(heads), b, x, w)
    {
      hide HeadOk, Net, Sum, Count;
      SumAround(heads, i, heads[i], Entries);
      SumAround(heads, i, heads[i], Ready);
      forall b, x, w ensures Net(heads[..i] + heads[i+1..], b, x, w) == Net(heads, b, x, w) {
        NetGone(heads, i, b, x, w);
      }
      GoneOk(heads, i);
      numEntries, numHeads := numEntries - 1, numHeads - 1;
      if !heads[i].processing { numHeadsReady := numHeadsReady - 1; }
      heads := heads[..i] + heads[i+1..];
    }

    /** Over every run of additions, extent operations, merges, selections and
        deletions, everything stays exact, and what is queued for an identity of an
        extent is the sum of what was added for it: at all sequence numbers together,
        and at each that no merge of the extent has reached, and below any such. */
    method RunAll(ops: seq<Op>)
      requires Valid() && heads == []
      requires SameKinds(ops)
      modifies this
      ensures Valid() && forall b, x, w :: Unmerged(ops, b, w) ==> Net(heads, b, x, w) == Asked(ops, b, x, w)
      ensures forall b, x :: Net(heads, b, x, Any) == Asked(ops, b, x, Any)
    {
      hide HeadsOk, Net, Sum, Asked;
      NoNet();
      assert ops[..0] == [];
      for n := 0 to |ops|
        invariant Valid()
        invariant forall b, x, w :: Unmerged(ops[..n], b, w) ==> Net(heads, b, x, w) == Asked(ops[..n], b, x, w)
        invariant KindsOk(Kinds(heads), ops)
      {
        AskedNext(ops, n);
        RunOne(ops, n);
      }
      assert ops[..|ops|] == ops;
      assert forall b :: Unmerged(ops, b, Any);
    }

    method RunOne(ops: seq<Op>, n: nat)
      requires Valid() && n < |ops| && KindsOk(Kinds(heads), ops)
      requires SameKinds(ops)
      modifies this
      ensures Valid() && KindsOk(Kinds(heads), ops)
      ensures forall b, x, w :: !Reaches(ops[n], b, w) ==>
                Net(heads, b, x, w) == Net(old(heads), b, x, w) + Change(ops[n], b, x, w)
    {
      hide HeadsOk, Net, Sum, Kinds, Ordered;
      OrderedOf(heads);
      forall j | 0 <= j < |heads| ensures (heads[j].bytenr, heads[j].isData) in Kinds(heads) { KindAt(heads, j); }
      match ops[n] {
        case AddRef(bytenr, numBytes, isData, mustInsert, id, seqno, action) =>
          AddDelayedRef(bytenr, numBytes, isData, mustInsert, id, seqno, action);
        case ExtentOp(bytenr, numBytes, isData) =>
          AddExtentOp(bytenr, numBytes, isData);
        case Merge(bytenr, bound) =>
          var i, found := FindHead(bytenr);
          if found {
            MergeDelayedRefs(i, bound);
            KindsReplaced(old(heads), i, heads[i]);
          }
        case Select =>
          var r := SelectRefHead();
          if r.Some? { KindsReplaced(old(heads), r.value, heads[r.value]); }
        case Delete(bytenr) =>
          var i, found := FindHead(bytenr);
          if found && heads[i].refs == [] {
            KindsRemoved(heads, i);
            DeleteRefHead(i);
          }
      }
    }
  }

  datatype Op =
    | AddRef(bytenr: nat, numBytes: nat, isData: bool, mustInsert: bool, id: Ident, seqno: nat, action: Action)
    | ExtentOp(bytenr: nat, numBytes: nat, isData: bool)
    | Merge(bytenr: nat, bound: nat)
    | Select
    | Delete(bytenr: nat)

  /** What an operation asks for. */
  function Change(op: Op, b: nat, x: Ident, w: Seqs): int {
    if op.AddRef? && op.bytenr == b && op.id == x && InSeqs(op.seqno, w) then (if op.action.Add? then 1 else -1) else 0
  }

  function Asked(ops: seq<Op>, b: nat, x: Ident, w: Seqs): int {
    if ops == [] then 0 else Asked(ops[..|ops|-1], b, x, w) + Change(ops[|ops|-1], b, x, w)
  }

  /** A merge that can move counts of these sequence numbers. */
  predicate Reaches(op: Op, b: nat, w: Seqs) { op.Merge? && op.bytenr == b && !Fixed(w, op.bound) }

  ghost predicate Unmerged(ops: seq<Op>, b: nat, w: Seqs) {
    forall i :: 0 <= i < |ops| ==> !Reaches(ops[i], b, w)
  }

  lemma AskedNext(ops: seq<Op>, n: nat)
    requires n < |ops|
    ensures forall b, x, w :: Asked(ops[..n+1], b, x, w) == Asked(ops[..n], b, x, w) + Change(ops[n], b, x, w)
    ensures forall b, w :: Unmerged(ops[..n+1], b, w) <==> Unmerged(ops[..n], b, w) && !Reaches(ops[n], b, w)
  {
    assert ops[..n+1][..n] == ops[..n];
    var pre, all := ops[..n], ops[..n+1];
    assert forall i :: 0 <= i < n ==> pre[i] == all[i];
    forall b, w ensures Unmerged(all, b, w) <==> Unmerged(pre, b, w) && !Reaches(ops[n], b, w) {
      if Unmerged(all, b, w) { assert !Reaches(all[n], b, w); }
    }
  }

  /** Both say whether the same extent holds data. */
  predicate SameExtent(a: Op, b: Op) {
    (a.AddRef? || a.ExtentOp?) && (b.AddRef? || b.ExtentOp?) && a.bytenr == b.bytenr
  }

  /** No extent is both data and metadata. */
  ghost predicate SameKinds(ops: seq<Op>) {
    forall i, j :: 0 <= i < |ops| && 0 <= j < |ops| && SameExtent(ops[i], ops[j]) ==> ops[i].isData == ops[j].isData
  }

  /** Where the heads are and which of them are for data. */
  function Kinds(hs: seq<Head>): set<(nat, bool)> { set h | h in hs :: (h.bytenr, h.isData) }

  /** The heads agree with the operations on what holds data. */
  ghost predicate KindsOk(ks: set<(nat, bool)>, ops: seq<Op>) {
    forall k, j :: k in ks && 0 <= j < |ops| && (ops[j].AddRef? || ops[j].ExtentOp?) && ops[j].bytenr == k.0 ==>
      ops[j].isData == k.1
  }

  lemma KindsReplaced(hs: seq<Head>, i: nat, h: Head)
    requires i < |hs| && h.bytenr == hs[i].bytenr && h.isData == hs[i].isData
    ensures Kinds(hs[i := h]) == Kinds(hs) && (h.bytenr, h.isData) in Kinds(hs)
  {
    var t := hs[i := h];
    assert hs[i] in hs && t[i] in t;
    forall k ensures k in Kinds(t) <==> k in Kinds(hs) {
      if k in Kinds(t) {
        var j :| 0 <= j < |t| && (t[j].bytenr, t[j].isData) == k;
        assert hs[j] in hs;
      }
      if k in Kinds(hs) {
        var j :| 0 <= j < |hs| && (hs[j].bytenr, hs[j].isData) == k;
        assert t[j] in t;
      }
    }
  }

  lemma KindsInserted(hs: seq<Head>, i: nat, h: Head)
    requires i <= |hs|
    ensures Kinds(hs[..i] + [h] + hs[i..]) == Kinds(hs) + {(h.bytenr, h.isData)}
  {
    var t := hs[..i] + [h] + hs[i..];
    assert t[i] in t && hs == hs[..i] + hs[i..];
    assert forall x :: x in t <==> x in hs || x == h;
  }

  lemma KindsRemoved(hs: seq<Head>, i: nat)
    requires i < |hs|
    ensures Kinds(hs[..i] + hs[i+1..]) <= Kinds(hs)
  {
    assert forall x :: x in hs[..i] + hs[i+1..] ==> x in hs;
  }

  lemma KindAt(hs: seq<Head>, j: nat)
    requires j < |hs|
    ensures (hs[j].bytenr, hs[j].isData) in Kinds(hs)
  {
    assert hs[j] in hs;
  }

  lemma OrderedOf(hs: seq<Head>)
    requires HeadsOk(hs, -1, 0)
    ensures Ordered(hs)
  {
  }

  lemma NoNet()
    ensures forall b, x, w :: Net([], b, x, w) == 0 && Asked([], b, x, w) == 0
  {
  }

  /** Nothing ready comes before head `k`, starting from an address and wrapping. */
  ghost predicate NextReady(hs: seq<Head>, start: nat, k: nat)
    requires k < |hs|
  {
    !hs[k].processing && forall j :: 0 <= j < |hs| && !hs[j].processing ==> CyclicLe(hs[k].bytenr, hs[j].bytenr, start)
  }

  predicate CyclicLe(a: nat, b: nat, start: nat) {
    if a >= start then b < start || a <= b else b < start && a <= b
  }

  lemma NetGone(hs: seq<Head>, i: nat, b: nat, x: Ident, w: Seqs)
    requires i < |hs| && hs[i].refs == []
    ensures Net(hs[..i] + hs[i+1..], b, x, w) == Net(hs, b, x, w)
  {
    SumAround(hs, i, hs[i], NetFn(b, x, w));
  }

  lemma GoneOk(hs: seq<Head>, i: nat)
    requires HeadsOk(hs, -1, 0) && i < |hs|
    ensures HeadsOk(hs[..i] + hs[i+1..], -1, 0)
  {
    hide HeadOk;
    var t := hs[..i] + hs[i+1..];
    forall j | 0 <= j < |t| ensures HeadOk(t[j], 0) {
      assert t[j] == hs[if j < i then j else j + 1];
    }
  }

  lemma HeadAt(hs: seq<Head>, i: int, off: int, j: nat)
    requires HeadsOk(hs, i, off) && j < |hs|
    ensures HeadOk(hs[j], if j == i then off else 0) && Sorted(hs[j].refs)
  {
  }

  lemma MoreMod(h: Head, h': Head, d: int)
    requires HeadOk(h, 0) && h'.refs == h.refs && h'.adds == h.adds && h'.refMod == h.refMod + d
    ensures HeadOk(h', d)
  {
  }

  lemma NewHeadOk(hs: seq<Head>, i: nat, h: Head, d: int)
    requires HeadsOk(hs, -1, 0) && i <= |hs| && h.refs == [] && h.adds == [] && h.refMod == d
    requires forall j :: 0 <= j < i ==> hs[j].bytenr < h.bytenr
    requires forall j :: i <= j < |hs| ==> hs[j].bytenr > h.bytenr
    ensures HeadsOk(hs[..i] + [h] + hs[i..], i, d)
  {
    NoAddKeys();
    var t := hs[..i] + [h] + hs[i..];
    assert HeadOk(h, d);
    hide HeadOk;
    forall j | 0 <= j < |t| ensures HeadOk(t[j], if j == i then d else 0) {
      assert j < i ==> t[j] == hs[j];
      assert j > i ==> t[j] == hs[j-1];
    }
  }

  lemma NetNew(hs: seq<Head>, i: nat, h: Head, b: nat, id: Ident, w: Seqs)
    requires i <= |hs| && h.refs == []
    ensures Net(hs[..i] + [h] + hs[i..], b, id, w) == Net(hs, b, id, w)
  {
    SumAround(hs, i, h, NetFn(b, id, w));
  }

  lemma Beyond(s: seq<Ref>, ref: Ref, pos: nat)
    requires Sorted(s) && pos < |s| && CompRefs(ref, s[pos], true) <= 0
    ensures CompRefs(ref, s[pos], true) == 0 <==> KeyOf(s[pos]) == KeyOf(ref)
    ensures forall i :: pos < i < |s| ==> CompRefs(ref, s[i], true) < 0
  {
    hide CompRefs;
    RefOrder(ref, s[pos], ref);
    forall i | pos < i < |s| ensures CompRefs(ref, s[i], true) < 0 {
      RefOrder(ref, s[pos], s[i]);
      if CompRefs(ref, s[pos], true) == 0 { SameComp(ref, s[pos], s[i], s[i]); }
    }
  }

  lemma PutOk(h: Head, pos: nat, found: bool, ref: Ref)
    requires HeadOk(h, Signed(ref)) && Place(h.refs, ref, pos, found) && ref.mod > 0
    ensures var h' := Put(h, pos, found, ref); HeadOk(h', 0) && h' == h.(refs := h'.refs, adds := h'.adds)
  {
    hide Put, Place, Sorted, Positive, AddsOk, Total, Signed;
    PutFits(h, pos, found, ref);
    PutIs(h, pos, found, ref);
    PutSorted(h, pos, found, ref);
    PutAdds(h, pos, found, ref);
    PutCounts(h, pos, found, ref, ref.id, Any);
  }

  /** Entries settled before a merge further on stay settled. */
  lemma StillSettled(s: seq<Ref>, t: seq<Ref>, k: nat, bound: nat)
    requires k < |s| && k < |t| && t[..k] == s[..k] && KeyOf(t[k]) == KeyOf(s[k])
    requires forall j :: 0 <= j < k ==> Settled(s, j, bound)
    ensures forall j :: 0 <= j < k ==> Settled(t, j, bound)
  {
    forall j | 0 <= j < k ensures Settled(t, j, bound) {
      assert Settled(s, j, bound);
      assert t[j] == t[..k][j] == s[..k][j] == s[j];
      assert j + 1 < k ==> t[j+1] == t[..k][j+1] == s[..k][j+1] == s[j+1];
    }
  }

  lemma SameCountsRefl(s: seq<Ref>, bound: nat)
    ensures SameCounts(s, s, bound)
  {
  }

  lemma SameNet(hs: seq<Head>, i: nat, h: Head, bound: nat)
    requires i < |hs| && h.bytenr == hs[i].bytenr && SameCounts(hs[i].refs, h.refs, bound)
    ensures forall b, id, w :: b != h.bytenr || Fixed(w, bound) ==> Net(hs[i := h], b, id, w) == Net(hs, b, id, w)
  {
    hide Net, Count, Total, Held, Fixed;
    forall b, id, w | b != h.bytenr || Fixed(w, bound) ensures Net(hs[i := h], b, id, w) == Net(hs, b, id, w) {
      NetReplaced(hs, i, h, b, id, w);
    }
  }

  /** The body of insert_delayed_ref; `n` is the change of num_entries. */
  method InsertOrMerge(head: Head, pos: nat, found: bool, ref: Ref) returns (ret: int, h: Head, n: int)
    requires Positive(head.refs) && ref.mod > 0 && (if found then pos < |head.refs| else pos <= |head.refs|)
    ensures h == Put(head, pos, found, ref) && n == |h.refs| - |head.refs| && ret == if found then 1 else 0
  {
    hide Without;
    h := head;
    if !found {
      h := h.(refs := h.refs[..pos] + [ref] + h.refs[pos..]);
      if ref.action.Add? { h := h.(adds := h.adds + [KeyOf(ref)]); }
      return 0, h, 1;
    }
    var exist := h.refs[pos];
    var mod;
    if exist.action == ref.action {
      mod := ref.mod;
    } else if exist.mod < ref.mod {
      // need to change action
      mod := -exist.mod;
      h := h.(refs := h.refs[pos := exist.(action := ref.action, mod := ref.mod)]);
      h := h.(adds := if ref.action.Add? then h.adds + [KeyOf(exist)] else Without(h.adds, KeyOf(exist)));
    } else {
      mod := -ref.mod;
    }
    h := SetMod(h, pos, h.refs[pos].mod + mod);
    n := 0;
    if h.refs[pos].mod == 0 {
      h := DropAt(h, pos);
      n := -1;
    }
    return 1, h, n;
  }

  /** The body of merge_ref's loop; `n` entries are dropped. */
  method MergeTwo(head: Head, k: nat) returns (h: Head, n: nat, done: bool)
    requires Positive(head.refs) && k + 1 < |head.refs|
    ensures (h, n, done) == MergeNext(head, k)
  {
    hide Without;
    h := head;
    done := false;
    var ref, next := k, k + 1;
    var mod;
    if h.refs[ref].action == h.refs[next].action {
      mod := h.refs[next].mod;
    } else {
      if h.refs[ref].mod < h.refs[next].mod {
        ref, next := next, ref;
        done := true;
      }
      mod := -h.refs[next].mod;
    }
    // the entry that stays is at k once the other one is gone
    h := DropAt(h, next);
    h := SetMod(h, k, h.refs[k].mod + mod);
    n := 1;
    if h.refs[k].mod == 0 {
      h := DropAt(h, k);
      n, done := 2, true;
    }
  }
}
