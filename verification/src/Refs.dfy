/** Delayed references of delayed-ref.c: their order, and what merging two of them
    does to the signed counts. */
module Refs {
  import opened Prelude

  /** What comp_refs compares besides the sequence number. */
  datatype Ident =
    | TreeBlock(root: nat)
    | ExtentData(root: nat, objectid: nat, offset: nat)
    | SharedBlock(parent: nat)
    | SharedData(parent: nat)

  datatype Action = Add | Drop

  datatype Ref = Ref(id: Ident, seqno: nat, action: Action, mod: int)

  /** APFS_TREE_BLOCK_REF_KEY and the others. */
  function TypeOf(id: Ident): nat {
    match id
    case TreeBlock(_) => 176
    case ExtentData(_, _, _) => 178
    case SharedBlock(_) => 182
    case SharedData(_) => 184
  }

  function CompTreeRefs(a: Ident, b: Ident): int
    requires TypeOf(a) == TypeOf(b) && (a.TreeBlock? || a.SharedBlock?)
  {
    if a.TreeBlock? then Sign(a.root, b.root) else Sign(a.parent, b.parent)
  }

  function CompDataRefs(a: Ident, b: Ident): int
    requires TypeOf(a) == TypeOf(b) && (a.ExtentData? || a.SharedData?)
  {
    if a.ExtentData? then
      if a.root != b.root then Sign(a.root, b.root)
      else if a.objectid != b.objectid then Sign(a.objectid, b.objectid)
      else Sign(a.offset, b.offset)
    else Sign(a.parent, b.parent)
  }

  /** comp_refs without the sequence number. */
  function CompIds(a: Ident, b: Ident): int {
    if TypeOf(a) != TypeOf(b) then Sign(TypeOf(a), TypeOf(b))
    else if a.TreeBlock? || a.SharedBlock? then CompTreeRefs(a, b)
    else CompDataRefs(a, b)
  }

  /** comp_refs. */
  function CompRefs(a: Ref, b: Ref, checkSeq: bool): int {
    if CompIds(a.id, b.id) != 0 then CompIds(a.id, b.id)
    else if checkSeq then Sign(a.seqno, b.seqno) else 0
  }

  /** A total order on identities ... */
  lemma IdOrder(a: Ident, b: Ident, c: Ident)
    ensures CompIds(a, b) == 0 <==> a == b
    ensures CompIds(a, b) == -CompIds(b, a)
    ensures CompIds(a, b) <= 0 && CompIds(b, c) <= 0 ==> CompIds(a, c) <= 0
    ensures CompIds(a, b) <= 0 && CompIds(b, c) <= 0 && CompIds(a, c) == 0 ==> a == b == c
  {
  }

  /** What comes first: the smaller type, and within a type the smaller of the first
      component that differs. */
  ghost predicate IdBefore(a: Ident, b: Ident) {
    match (a, b)
    case (TreeBlock(r), TreeBlock(r')) => r < r'
    case (ExtentData(r, o, f), ExtentData(r', o', f')) => r < r' || (r == r' && (o < o' || (o == o' && f < f')))
    case (SharedBlock(q), SharedBlock(q')) => q < q'
    case (SharedData(q), SharedData(q')) => q < q'
    case (TreeBlock(_), _) => true
    case (ExtentData(_, _, _), _) => b.SharedBlock? || b.SharedData?
    case (SharedBlock(_), _) => b.SharedData?
    case (SharedData(_), _) => false
  }

  lemma CompRefsLess(a: Ref, b: Ref)
    ensures CompIds(a.id, b.id) < 0 <==> IdBefore(a.id, b.id)
    ensures CompRefs(a, b, true) < 0 <==> IdBefore(a.id, b.id) || (a.id == b.id && a.seqno < b.seqno)
  {
    IdOrder(a.id, b.id, a.id);
  }

  /** ... and, with sequence numbers, on references. */
  lemma RefOrder(a: Ref, b: Ref, c: Ref)
    ensures CompRefs(a, b, true) == 0 <==> a.id == b.id && a.seqno == b.seqno
    ensures CompRefs(a, b, true) == -CompRefs(b, a, true)
    ensures CompRefs(a, b, true) < 0 && CompRefs(b, c, true) < 0 ==> CompRefs(a, c, true) < 0
    ensures CompRefs(a, b, false) == 0 <==> a.id == b.id
  {
    hide CompIds;
    IdOrder(a.id, b.id, c.id);
    IdOrder(b.id, c.id, a.id);
    IdOrder(a.id, c.id, b.id);
    IdOrder(b.id, a.id, a.id);
  }

  // ---- Trees as sorted sequences ----

  ghost predicate Sorted(s: seq<Ref>) {
    forall i, j :: 0 <= i < j < |s| ==> CompRefs(s[i], s[j], true) < 0
  }

  ghost predicate Positive(s: seq<Ref>) {
    forall i :: 0 <= i < |s| ==> s[i].mod > 0
  }

  function Signed(r: Ref): int { if r.action.Add? then r.mod else -r.mod }

  /** Which sequence numbers a count is about. */
  datatype Seqs = Any | At(q: nat) | Below(q: nat)

  predicate InSeqs(seqno: nat, w: Seqs) {
    match w
    case Any => true
    case At(q) => seqno == q
    case Below(q) => seqno < q
  }

  /** The signed count of one identity. */
  function Count(s: seq<Ref>, id: Ident, w: Seqs): int {
    if s == [] then 0
    else (if s[0].id == id && InSeqs(s[0].seqno, w) then Signed(s[0]) else 0) + Count(s[1..], id, w)
  }

  /** The signed sum of all entries. */
  function Total(s: seq<Ref>): int {
    if s == [] then 0 else Signed(s[0]) + Total(s[1..])
  }

  lemma {:induction false} CountConcat(a: seq<Ref>, b: seq<Ref>, id: Ident, w: Seqs)
    ensures Count(a + b, id, w) == Count(a, id, w) + Count(b, id, w)
  {
    if a == [] {
      assert a + b == b;
    } else {
      CountConcat(a[1..], b, id, w);
      assert (a + b)[0] == a[0] && (a + b)[1..] == a[1..] + b;
    }
  }

  lemma {:induction false} TotalConcat(a: seq<Ref>, b: seq<Ref>)
    ensures Total(a + b) == Total(a) + Total(b)
  {
    if a == [] {
      assert a + b == b;
    } else {
      TotalConcat(a[1..], b);
      assert (a + b)[0] == a[0] && (a + b)[1..] == a[1..] + b;
    }
  }

  lemma CountOne(r: Ref, id: Ident, w: Seqs)
    ensures Count([r], id, w) == (if r.id == id && InSeqs(r.seqno, w) then Signed(r) else 0) && Total([r]) == Signed(r)
  {
    assert [r][1..] == [];
  }

  lemma CountNone(id: Ident, w: Seqs)
    ensures Count([], id, w) == 0 && Total([]) == 0
  {
  }

  /** Entries held back by the lowest sequence number still in use, 0 for none. */
  predicate IsHeld(r: Ref, bound: nat) { bound != 0 && r.seqno >= bound }

  function Held(s: seq<Ref>, bound: nat): seq<Ref> {
    if s == [] then [] else (if IsHeld(s[0], bound) then [s[0]] else []) + Held(s[1..], bound)
  }

  lemma Joined(x: seq<Ref>, y: seq<Ref>, z: seq<Ref>)
    ensures x + (y + z) == (x + y) + z
  {
  }

  lemma {:induction false} HeldConcat(a: seq<Ref>, b: seq<Ref>, bound: nat)
    ensures Held(a + b, bound) == Held(a, bound) + Held(b, bound)
  {
    hide IsHeld;
    if a == [] {
      assert a + b == b;
    } else {
      HeldConcat(a[1..], b, bound);
      assert (a + b)[0] == a[0] && (a + b)[1..] == a[1..] + b;
      Joined(if IsHeld(a[0], bound) then [a[0]] else [], Held(a[1..], bound), Held(b, bound));
    }
  }

  // ---- Merging two neighbours ----

  /** What becomes of two entries of one identity: one entry, or none. */
  function MergePair(a: Ref, b: Ref): seq<Ref> {
    if a.action == b.action then [a.(mod := a.mod + b.mod)]
    else if a.mod < b.mod then [b.(mod := b.mod - a.mod)]
    else if a.mod == b.mod then []
    else [a.(mod := a.mod - b.mod)]
  }

  function Merged(s: seq<Ref>, k: nat): seq<Ref>
    requires k + 1 < |s|
  {
    s[..k] + MergePair(s[k], s[k+1]) + s[k+2..]
  }

  /** Counts that merging below a bound cannot change: of all sequence numbers together,
      of all below some number that is not under the bound, and of each held back. */
  predicate Fixed(w: Seqs, bound: nat) {
    match w
    case Any => true
    case At(q) => bound != 0 && q >= bound
    case Below(q) => bound != 0 && q >= bound
  }

  /** Everything merging must keep. */
  ghost predicate SameCounts(s: seq<Ref>, s': seq<Ref>, bound: nat) {
    && (forall id, w :: Fixed(w, bound) ==> Count(s', id, w) == Count(s, id, w)) && Total(s') == Total(s)
    && Held(s', bound) == Held(s, bound)
  }

  lemma PairCounts(a: Ref, b: Ref, id: Ident, w: Seqs, bound: nat)
    requires a.id == b.id && !IsHeld(a, bound) && !IsHeld(b, bound)
    ensures Fixed(w, bound) ==> Count(MergePair(a, b), id, w) == Count([a, b], id, w)
    ensures Total(MergePair(a, b)) == Total([a, b])
  {
    hide Count, Total;
    CountOne(a, id, w);
    CountOne(b, id, w);
    CountConcat([a], [b], id, w);
    TotalConcat([a], [b]);
    assert [a] + [b] == [a, b];
    CountNone(id, w);
    if MergePair(a, b) != [] { CountOne(MergePair(a, b)[0], id, w); }
  }

  lemma PairHeld(a: Ref, b: Ref, bound: nat)
    requires !IsHeld(a, bound) && !IsHeld(b, bound)
    ensures Held(MergePair(a, b), bound) == Held([a, b], bound)
  {
    assert [a, b][1..] == [b] && [b][1..] == [];
  }

  lemma MergedKeeps(s: seq<Ref>, k: nat, bound: nat)
    requires k + 1 < |s| && s[k].id == s[k+1].id && !IsHeld(s[k], bound) && !IsHeld(s[k+1], bound)
    ensures SameCounts(s, Merged(s, k), bound)
  {
    hide Count, Total, Held, MergePair;
    var a, m, m', c := s[..k], [s[k], s[k+1]], MergePair(s[k], s[k+1]), s[k+2..];
    assert s == a + m + c;
    forall id, w | Fixed(w, bound) ensures Count(Merged(s, k), id, w) == Count(s, id, w) {
      PairCounts(s[k], s[k+1], id, w, bound);
      CountConcat(a + m, c, id, w);
      CountConcat(a, m, id, w);
      CountConcat(a + m', c, id, w);
      CountConcat(a, m', id, w);
    }
    PairCounts(s[k], s[k+1], s[k].id, Any, bound);
    PairHeld(s[k], s[k+1], bound);
    TotalConcat(a + m, c);
    TotalConcat(a, m);
    TotalConcat(a + m', c);
    TotalConcat(a, m');
    HeldConcat(a + m, c, bound);
    HeldConcat(a, m, bound);
    HeldConcat(a + m', c, bound);
    HeldConcat(a, m', bound);
  }

  lemma MergedSorted(s: seq<Ref>, k: nat)
    requires k + 1 < |s| && Sorted(s) && Positive(s)
    ensures Sorted(Merged(s, k)) && Positive(Merged(s, k))
  {
    hide CompRefs;
    var t := Merged(s, k);
    var n := |MergePair(s[k], s[k+1])|;
    forall i | 0 <= i < |t|
      ensures SameKey(t[i], s[Origin(s, k, i)]) && t[i].mod > 0
    {
      OriginOk(s, k, i);
    }
    forall i, j | 0 <= i < j < |t| ensures CompRefs(t[i], t[j], true) < 0 {
      SameComp(t[i], s[Origin(s, k, i)], t[j], s[Origin(s, k, j)]);
    }
  }

  ghost predicate SameKey(a: Ref, b: Ref) { a.id == b.id && a.seqno == b.seqno }

  /** Which entry an entry of the merged sequence descends from. */
  ghost function Origin(s: seq<Ref>, k: nat, i: nat): (j: nat)
    requires k + 1 < |s| && i < |Merged(s, k)|
    ensures j < |s|
  {
    if i < k then i
    else if i == k && MergePair(s[k], s[k+1]) != [] then
      (if s[k].action != s[k+1].action && s[k].mod < s[k+1].mod then k + 1 else k)
    else i + 2 - |MergePair(s[k], s[k+1])|
  }

  lemma OriginOk(s: seq<Ref>, k: nat, i: nat)
    requires k + 1 < |s| && Positive(s) && i < |Merged(s, k)|
    ensures SameKey(Merged(s, k)[i], s[Origin(s, k, i)]) && Merged(s, k)[i].mod > 0
  {
  }

  lemma SameComp(a: Ref, b: Ref, c: Ref, d: Ref)
    requires SameKey(a, b) && SameKey(c, d)
    ensures CompRefs(a, c, true) == CompRefs(b, d, true)
  {
  }

  // ---- When nothing is left to merge ----

  /** Below the bound, no identity has two entries. */
  ghost predicate Unique(s: seq<Ref>, bound: nat) {
    forall i, j :: 0 <= i < j < |s| && !IsHeld(s[i], bound) && !IsHeld(s[j], bound) ==> s[i].id != s[j].id
  }

  /** Nothing can be merged into entry k. */
  predicate Settled(s: seq<Ref>, k: nat, bound: nat)
    requires k < |s|
  {
    IsHeld(s[k], bound) || k + 1 == |s| || IsHeld(s[k+1], bound) || s[k+1].id != s[k].id
  }

  lemma AllSettled(s: seq<Ref>, bound: nat)
    requires Sorted(s) && forall k :: 0 <= k < |s| ==> Settled(s, k, bound)
    ensures Unique(s, bound)
  {
    hide CompIds;
    forall i, j | 0 <= i < j < |s| && !IsHeld(s[i], bound) && !IsHeld(s[j], bound) ensures s[i].id != s[j].id {
      assert Settled(s, i, bound);
      assert CompRefs(s[i], s[j], true) < 0;
      assert CompRefs(s[i], s[i+1], true) < 0;
      assert j > i + 1 ==> CompRefs(s[i+1], s[j], true) < 0;
      IdOrder(s[i].id, s[i+1].id, s[j].id);
      IdOrder(s[i+1].id, s[j].id, s[i].id);
      IdOrder(s[i].id, s[j].id, s[i].id);
    }
  }
}
