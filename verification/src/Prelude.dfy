/** Small things several parts of the model share. */
module Prelude {

  datatype Option<T> = None | Some(value: T)

  type Pos = x: int | x > 0 witness 1

  const ENOENT := -2
  const EAGAIN := -11
  const EEXIST := -17
  const ETXTBSY := -26
  const ENOSPC := -28
  const EROFS := -30
  const EOVERFLOW := -75

  function Min(a: int, b: int): int { if a < b then a else b }

  /** A three-way comparison. */
  function Sign(a: nat, b: nat): int { if a < b then -1 else if a > b then 1 else 0 }

  // ---- Linked lists, as sequences ----

  /** list_del: the list without an entry. */
  function Without<T(==)>(s: seq<T>, x: T): seq<T> {
    if s == [] then [] else if s[0] == x then s[1..] else [s[0]] + Without(s[1..], x)
  }

  function Elems<T>(s: seq<T>): set<T> { set x | x in s }

  ghost predicate NoDup<T(!new)>(s: seq<T>) {
    forall i, j :: 0 <= i < j < |s| ==> s[i] != s[j]
  }

  lemma {:induction false} WithoutIn<T(!new)>(s: seq<T>, x: T)
    requires NoDup(s)
    ensures NoDup(Without(s, x)) && forall y :: y in Without(s, x) <==> y in s && y != x
  {
    if s != [] {
      assert s == [s[0]] + s[1..];
      WithoutIn(s[1..], x);
      if s[0] != x { NoDupCons(s[0], Without(s[1..], x)); }
    }
  }

  lemma WithoutElems<T(!new)>(s: seq<T>, x: T)
    requires NoDup(s)
    ensures NoDup(Without(s, x)) && Elems(Without(s, x)) == Elems(s) - {x}
  {
    WithoutIn(s, x);
  }

  lemma NoDupCons<T(!new)>(x: T, s: seq<T>)
    requires NoDup(s) && x !in s
    ensures NoDup([x] + s)
  {
  }

  /** list_add_tail: an entry added at the end. */
  lemma Snoc<T(!new)>(s: seq<T>, x: T)
    ensures Elems(s + [x]) == Elems(s) + {x}
    ensures NoDup(s) && x !in Elems(s) ==> NoDup(s + [x])
  {
    assert forall i :: 0 <= i < |s| ==> s[i] in Elems(s);
  }
}
