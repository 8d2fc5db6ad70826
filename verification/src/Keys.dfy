/** B-tree keys and the two comparators of ctree.c.

    A tree uses one comparator throughout: file-system trees compare object id,
    type and then a type-dependent tail (a name, a hash and a name, or an
    offset); every other tree, the object map among them, compares type, id and
    offset.  Both are total preorders, which is all the tree code relies on.
 */
module Keys {
  import opened Prelude

  // Record types with a name in the key.
  const TYPE_XATTR := 4
  const TYPE_DIR_REC := 9
  const TYPE_SNAP_NAME := 11

  /** `name` is a C string pointer: possibly NULL. */
  datatype Name = Null | Chars(chars: seq<nat>)

  datatype Key = Key(id: nat, kind: nat, offset: nat, hash: nat, name: Name)

  /** Which comparator a tree uses; `hashed` is the volume's
      normalization-insensitive flag. */
  datatype Order = Normal | FileSystem(hashed: bool)

  /** C's strcmp on the bytes before the terminator. */
  function StrCmp(a: seq<nat>, b: seq<nat>): int {
    if a == [] then (if b == [] then 0 else -1)
    else if b == [] then 1
    else if a[0] != b[0] then Sign(a[0], b[0])
    else StrCmp(a[1..], b[1..])
  }

  function CompName(a: Name, b: Name): int {
    match (a, b)
    case (Null, Null) => 0
    case (Null, Chars(_)) => -1
    case (Chars(_), Null) => 1
    case (Chars(s), Chars(t)) => StrCmp(s, t)
  }

  function CompFsKeys(a: Key, b: Key, hashed: bool): int {
    if a.id != b.id then Sign(a.id, b.id)
    else if a.kind != b.kind then Sign(a.kind, b.kind)
    else if a.kind == TYPE_DIR_REC then
      if hashed && a.hash != b.hash then Sign(a.hash, b.hash)
      else CompName(a.name, b.name)
    else if a.kind == TYPE_SNAP_NAME || a.kind == TYPE_XATTR then CompName(a.name, b.name)
    else Sign(a.offset, b.offset)
  }

  function CompNormalKeys(a: Key, b: Key): int {
    if a.kind != b.kind then Sign(a.kind, b.kind)
    else if a.id != b.id then Sign(a.id, b.id)
    else Sign(a.offset, b.offset)
  }

  /** Negative, zero or positive as `a` sorts before, with or after `b`. */
  function Cmp(o: Order, a: Key, b: Key): int {
    match o
    case Normal => CompNormalKeys(a, b)
    case FileSystem(hashed) => CompFsKeys(a, b, hashed)
  }

  lemma {:induction false} StrCmpOrder(a: seq<nat>, b: seq<nat>, c: seq<nat>)
    ensures StrCmp(a, b) == -StrCmp(b, a)
    ensures StrCmp(a, b) <= 0 && StrCmp(b, c) <= 0 ==> StrCmp(a, c) <= 0
    ensures StrCmp(a, b) <= 0 && StrCmp(b, c) <= 0 && StrCmp(a, c) == 0
            ==> StrCmp(a, b) == 0 && StrCmp(b, c) == 0
  {
    if a != [] && b != [] {
      StrCmpOrder(a[1..], b[1..], if c == [] then [] else c[1..]);
    }
  }

  lemma CompNameOrder(a: Name, b: Name, c: Name)
    ensures CompName(a, b) == -CompName(b, a)
    ensures CompName(a, b) <= 0 && CompName(b, c) <= 0 ==> CompName(a, c) <= 0
    ensures CompName(a, b) <= 0 && CompName(b, c) <= 0 && CompName(a, c) == 0
            ==> CompName(a, b) == 0 && CompName(b, c) == 0
  {
    if a.Chars? && b.Chars? {
      StrCmpOrder(a.chars, b.chars, if c.Chars? then c.chars else []);
    }
  }

  /** Both comparators are total preorders: reversing the arguments negates the
      answer, order is transitive, and it is strict as soon as one step is. */
  lemma CmpOrder(o: Order, a: Key, b: Key, c: Key)
    ensures Cmp(o, a, b) == -Cmp(o, b, a)
    ensures Cmp(o, a, b) <= 0 && Cmp(o, b, c) <= 0 ==> Cmp(o, a, c) <= 0
    ensures Cmp(o, a, b) <= 0 && Cmp(o, b, c) <= 0 && Cmp(o, a, c) == 0
            ==> Cmp(o, a, b) == 0 && Cmp(o, b, c) == 0
  {
    CompNameOrder(a.name, b.name, c.name);
  }

  // ---- What the comparators compute ----

  /** Two strings agree up to `i`, and there the first is the smaller or has ended. */
  ghost predicate SmallerAt(a: seq<nat>, b: seq<nat>, i: nat) {
    && i <= |a| && i < |b| && a[..i] == b[..i]
    && (i == |a| || a[i] < b[i])
  }

  ghost predicate StrBefore(a: seq<nat>, b: seq<nat>) { exists i :: SmallerAt(a, b, i) }

  lemma StrBeforeRest(a: seq<nat>, b: seq<nat>)
    requires a != [] && b != [] && a[0] == b[0]
    ensures StrBefore(a, b) <==> StrBefore(a[1..], b[1..])
  {
    if StrBefore(a, b) {
      var i: nat :| SmallerAt(a, b, i);
      assert i > 0;
      assert a[1..][..i-1] == a[..i][1..] && b[1..][..i-1] == b[..i][1..];
      assert SmallerAt(a[1..], b[1..], i - 1);
    }
    if StrBefore(a[1..], b[1..]) {
      var i: nat :| SmallerAt(a[1..], b[1..], i);
      assert a[..i+1] == [a[0]] + a[1..][..i] && b[..i+1] == [b[0]] + b[1..][..i];
      assert SmallerAt(a, b, i + 1);
    }
  }

  lemma {:induction false} StrCmpIs(a: seq<nat>, b: seq<nat>)
    ensures StrCmp(a, b) == 0 <==> a == b
    ensures StrCmp(a, b) < 0 <==> StrBefore(a, b)
  {
    if b == [] {
    } else if a == [] {
      assert SmallerAt(a, b, 0);
    } else if a[0] != b[0] {
      if a[0] < b[0] { assert SmallerAt(a, b, 0); }
      forall i: nat | SmallerAt(a, b, i) ensures a[0] < b[0] {
        if i > 0 { assert a[..i][0] == b[..i][0]; }
      }
    } else {
      StrCmpIs(a[1..], b[1..]);
      assert a == [a[0]] + a[1..] && b == [b[0]] + b[1..];
      StrBeforeRest(a, b);
    }
  }

  /** A missing name comes before every other. */
  ghost predicate NameBefore(a: Name, b: Name) {
    b.Chars? && (a.Null? || StrBefore(a.chars, b.chars))
  }

  /** The components of two keys that count are equal. */
  ghost predicate SameParts(o: Order, a: Key, b: Key) {
    && a.id == b.id && a.kind == b.kind
    && match o
       case Normal => a.offset == b.offset
       case FileSystem(hashed) =>
         && (a.kind == 9 ==> a.name == b.name && (hashed ==> a.hash == b.hash))
         && (a.kind == 4 || a.kind == 11 ==> a.name == b.name)
         && (a.kind != 4 && a.kind != 9 && a.kind != 11 ==> a.offset == b.offset)
  }

  /** The first of them that differs is the smaller in `a`: object and type in a
      file-system tree, and then the hash and the name of a directory record (9), the
      name of an extended attribute (4) or of a snapshot (11), or the offset; type,
      object and offset in any other tree. */
  ghost predicate Precedes(o: Order, a: Key, b: Key) {
    match o
    case Normal =>
      || a.kind < b.kind
      || (a.kind == b.kind && a.id < b.id)
      || (a.kind == b.kind && a.id == b.id && a.offset < b.offset)
    case FileSystem(hashed) =>
      || a.id < b.id
      || (a.id == b.id && a.kind < b.kind)
      || (a.id == b.id && a.kind == b.kind && TailBefore(hashed, a, b))
  }

  ghost predicate TailBefore(hashed: bool, a: Key, b: Key) {
    if a.kind == 9 then (hashed && a.hash < b.hash) || ((!hashed || a.hash == b.hash) && NameBefore(a.name, b.name))
    else if a.kind == 4 || a.kind == 11 then NameBefore(a.name, b.name)
    else a.offset < b.offset
  }

  lemma CompNameIs(a: Name, b: Name)
    ensures CompName(a, b) == 0 <==> a == b
    ensures CompName(a, b) < 0 <==> NameBefore(a, b)
  {
    hide StrCmp, StrBefore;
    if a.Chars? && b.Chars? { StrCmpIs(a.chars, b.chars); }
  }

  /** What comparing two keys says about them. */
  lemma CmpIs(o: Order, a: Key, b: Key)
    ensures Cmp(o, a, b) == 0 <==> SameParts(o, a, b)
    ensures Cmp(o, a, b) < 0 <==> Precedes(o, a, b)
    ensures Cmp(o, a, b) > 0 <==> Precedes(o, b, a)
  {
    hide StrCmp, StrBefore;
    CompNameIs(a.name, b.name);
    CompNameIs(b.name, a.name);
    CompNameOrder(a.name, b.name, a.name);
  }
}
