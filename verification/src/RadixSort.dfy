/** radix_sort of compression.c: descending order of 32-bit counts, four bits at a
    time, two passes per round between an array and a buffer of the same size. */
module RadixSort {
  import opened Prelude

  function Pow2(n: nat): Pos { if n == 0 then 1 else 2 * Pow2(n - 1) }

  /** The kernel's ilog2, -1 for 0. */
  function Log2(n: nat): (l: int)
    ensures l >= -1
  {
    if n == 0 then -1 else 1 + Log2(n / 2)
  }

  /** ALIGN(x, 8). */
  function Align8(x: int): int { (x + 7) / 8 * 8 }

  /** What numbers are compared by: the four bits from place value `q` up, or the
      low bits below place value `m`. */
  datatype Field = Digit(q: Pos) | Low(m: Pos)

  function Key(f: Field, x: nat): nat {
    match f
    case Digit(q) => x / q % 16
    case Low(m) => x % m
  }

  /** The numbers of a sequence with a given key, in their order. */
  function Group(s: seq<nat>, f: Field, k: nat): seq<nat> {
    if s == [] then []
    else (if Key(f, s[0]) == k then [s[0]] else []) + Group(s[1..], f, k)
  }

  /** Bucket `e` of a counting sort on one digit: the highest digit comes first. */
  function Bucket(s: seq<nat>, q: Pos, e: nat): seq<nat>
    requires e < 16
  {
    Group(s, Digit(q), 15 - e)
  }

  /** The first `n` buckets. */
  function Join(s: seq<nat>, q: Pos, n: nat): seq<nat>
    requires n <= 16
  {
    if n == 0 then [] else Join(s, q, n - 1) + Bucket(s, q, n - 1)
  }

  /** The reference: one stable pass after the other, from the lowest digit up. */
  function Passes(s: seq<nat>, n: nat): seq<nat> {
    if n == 0 then s else Join(Passes(s, n - 1), Pow2(4 * (n - 1)), 16)
  }

  // ---- Arithmetic ----

  lemma DivUnique(x: nat, q: nat, a: nat, b: nat)
    requires q > 0 && x == a * q + b && b < q
    ensures x / q == a && x % q == b
  {
    var c := x / q;
    assert x == c * q + x % q;
    assert c < a ==> (c + 1) * q <= a * q;
    assert c > a ==> (a + 1) * q <= c * q;
  }

  /** A number's low bits are its top digit and the bits below. */
  lemma NextDigit(x: nat, q: Pos)
    ensures Key(Low(16 * q), x) == Key(Digit(q), x) * q + Key(Low(q), x)
    ensures Key(Digit(q), x) < 16 && Key(Low(q), x) < q
  {
    var t, d, r := x / q / 16, x / q % 16, x % q;
    assert x / q == 16 * t + d;
    Expand(t, d, q);
    assert x == t * (16 * q) + (d * q + r);
    DigitBound(d, r, q);
    DivUnique(x, 16 * q, t, d * q + r);
  }

  lemma Expand(t: nat, d: nat, q: nat)
    ensures (16 * t + d) * q == t * (16 * q) + d * q
  {
  }

  lemma DigitBound(d: nat, r: nat, q: nat)
    requires d < 16 && r < q
    ensures d * q + r < 16 * q
  {
    assert d * q <= 15 * q;
  }

  /** Order by the low bits is order by the top digit, then by the bits below. */
  lemma LowOrder(x: nat, y: nat, q: Pos)
    ensures Key(Digit(q), x) == Key(Digit(q), y) && Key(Low(q), x) >= Key(Low(q), y)
            ==> Key(Low(16 * q), x) >= Key(Low(16 * q), y)
    ensures Key(Digit(q), x) > Key(Digit(q), y) ==> Key(Low(16 * q), x) > Key(Low(16 * q), y)
    ensures Key(Digit(q), x) == Key(Digit(q), y) && Key(Low(q), x) == Key(Low(q), y)
            <==> Key(Low(16 * q), x) == Key(Low(16 * q), y)
  {
    hide Key;
    NextDigit(x, q);
    NextDigit(y, q);
    Apart(Key(Digit(q), x), Key(Digit(q), y), q);
    Apart(Key(Digit(q), y), Key(Digit(q), x), q);
  }

  lemma Apart(a: nat, b: nat, q: nat)
    ensures a > b ==> a * q >= b * q + q
  {
    assert a > b ==> a * q >= (b + 1) * q;
  }

  lemma KeySelf(k: nat, m: Pos)
    requires k < m
    ensures Key(Low(m), k) == k
  {
    DivUnique(k, m, 0, k);
  }

  lemma {:induction false} Pow2Add(a: nat, b: nat)
    ensures Pow2(a + b) == Pow2(a) * Pow2(b)
  {
    if a > 0 {
      Pow2Add(a - 1, b);
      assert 2 * (Pow2(a - 1) * Pow2(b)) == (2 * Pow2(a - 1)) * Pow2(b);
    }
  }

  lemma Pow2Next(n: nat)
    ensures Pow2(4 * (n + 1)) == 16 * Pow2(4 * n)
  {
    Pow2Add(4, 4 * n);
    assert Pow2(4) == 16;
  }

  lemma {:induction false} Log2Bound(n: nat)
    requires n > 0
    ensures Log2(n) >= 0 && Pow2(Log2(n)) <= n < 2 * Pow2(Log2(n))
  {
    if n > 1 { Log2Bound(n / 2); }
  }

  // ---- Groups ----

  lemma {:induction false} GroupConcat(a: seq<nat>, b: seq<nat>, f: Field, k: nat)
    ensures Group(a + b, f, k) == Group(a, f, k) + Group(b, f, k)
  {
    hide Key;
    if a == [] {
      assert a + b == b;
    } else {
      assert (a + b)[0] == a[0] && (a + b)[1..] == a[1..] + b;
      GroupConcat(a[1..], b, f, k);
    }
  }

  lemma GroupOne(x: nat, f: Field, k: nat)
    ensures Group([x], f, k) == if Key(f, x) == k then [x] else []
  {
    assert [x][1..] == [];
  }

  lemma GroupStep(s: seq<nat>, f: Field, k: nat)
    requires s != []
    ensures Group(s, f, k) == (if Key(f, s[0]) == k then [s[0]] else []) + Group(s[1..], f, k)
  {
  }

  lemma {:induction false} GroupIn(s: seq<nat>, f: Field, k: nat, x: nat)
    ensures x in Group(s, f, k) <==> x in s && Key(f, x) == k
  {
    hide Key;
    if s != [] {
      GroupIn(s[1..], f, k, x);
      assert s == [s[0]] + s[1..];
    }
  }

  /** Grouping twice is grouping once when the second key decides the first. */
  lemma {:induction false} GroupGroup(s: seq<nat>, f: Field, d: nat, fine: Field, k: nat)
    requires forall x: nat :: Key(fine, x) == k ==> Key(f, x) == d
    ensures Group(Group(s, f, d), fine, k) == Group(s, fine, k)
  {
    hide Key, Group;
    if s == [] {
      GroupNone(f, d);
      GroupNone(fine, k);
    } else {
      GroupGroup(s[1..], f, d, fine, k);
      GroupStep(s, f, d);
      GroupStep(s, fine, k);
      GroupConcat([s[0]], Group(s[1..], f, d), fine, k);
      GroupOne(s[0], fine, k);
      assert [] + Group(s[1..], f, d) == Group(s[1..], f, d);
    }
  }

  lemma {:induction false} GroupApart(s: seq<nat>, f: Field, d: nat, fine: Field, k: nat)
    requires forall x: nat :: Key(fine, x) == k ==> Key(f, x) != d
    ensures Group(Group(s, f, d), fine, k) == []
  {
    hide Key, Group;
    if s == [] {
      GroupNone(f, d);
      GroupNone(fine, k);
    } else {
      GroupApart(s[1..], f, d, fine, k);
      GroupStep(s, f, d);
      GroupConcat([s[0]], Group(s[1..], f, d), fine, k);
      GroupOne(s[0], fine, k);
      assert [] + Group(s[1..], f, d) == Group(s[1..], f, d);
    }
  }

  lemma GroupNone(f: Field, k: nat)
    ensures Group([], f, k) == []
  {
  }

  /** Non-increasing by a key. */
  ghost predicate Falling(s: seq<nat>, f: Field) {
    forall i, j :: 0 <= i < j < |s| ==> Key(f, s[i]) >= Key(f, s[j])
  }

  lemma FallingConcat(a: seq<nat>, b: seq<nat>, f: Field)
    requires Falling(a, f) && Falling(b, f)
    requires forall x, y :: x in a && y in b ==> Key(f, x) >= Key(f, y)
    ensures Falling(a + b, f)
  {
    hide Key;
    var s := a + b;
    forall i, j | 0 <= i < j < |s| ensures Key(f, s[i]) >= Key(f, s[j]) {
      if i < |a| <= j { assert s[i] in a && s[j] in b; }
    }
  }

  lemma {:induction false} GroupFalling(s: seq<nat>, q: Pos, d: nat)
    requires Falling(s, Low(q))
    ensures Falling(Group(s, Digit(q), d), Low(16 * q))
  {
    hide Key;
    if s != [] {
      GroupFalling(s[1..], q, d);
      var rest := Group(s[1..], Digit(q), d);
      forall y | y in rest && Key(Digit(q), s[0]) == d ensures Key(Low(16 * q), s[0]) >= Key(Low(16 * q), y) {
        GroupIn(s[1..], Digit(q), d, y);
        LowOrder(s[0], y, q);
        var j :| 0 <= j < |s[1..]| && s[1..][j] == y;
        assert s[j + 1] == y;
      }
      if Key(Digit(q), s[0]) == d { FallingConcat([s[0]], rest, Low(16 * q)); }
    }
  }

  // ---- One pass ----

  lemma {:induction false} JoinIn(s: seq<nat>, q: Pos, n: nat, x: nat)
    requires n <= 16
    ensures x in Join(s, q, n) <==> x in s && Key(Digit(q), x) >= 16 - n
  {
    hide Key;
    if n == 0 {
      NextDigit(x, q);
    } else {
      JoinIn(s, q, n - 1, x);
      GroupIn(s, Digit(q), 16 - n, x);
    }
  }

  /** A pass on the next digit orders by one digit more ... */
  lemma {:induction false} JoinFalling(s: seq<nat>, q: Pos, n: nat)
    requires n <= 16 && Falling(s, Low(q))
    ensures Falling(Join(s, q, n), Low(16 * q))
  {
    hide Key;
    if n > 0 {
      JoinFalling(s, q, n - 1);
      GroupFalling(s, q, 16 - n);
      var a, b := Join(s, q, n - 1), Group(s, Digit(q), 16 - n);
      forall x, y | x in a && y in b ensures Key(Low(16 * q), x) >= Key(Low(16 * q), y) {
        JoinIn(s, q, n - 1, x);
        GroupIn(s, Digit(q), 16 - n, y);
        LowOrder(x, y, q);
      }
      FallingConcat(a, b, Low(16 * q));
    }
  }

  /** ... and is stable: numbers with the same low bits keep their order. */
  lemma {:induction false} JoinStable(s: seq<nat>, q: Pos, n: nat, k: nat)
    requires n <= 16 && k < 16 * q
    ensures Group(Join(s, q, n), Low(16 * q), k)
         == if Key(Digit(q), k) >= 16 - n then Group(s, Low(16 * q), k) else []
  {
    hide Key, Group;
    NextDigit(k, q);
    if n == 0 {
      GroupNone(Low(16 * q), k);
    } else {
      JoinStable(s, q, n - 1, k);
      Decides(q, k);
      if Key(Digit(q), k) == 16 - n {
        GroupGroup(s, Digit(q), 16 - n, Low(16 * q), k);
      } else {
        GroupApart(s, Digit(q), 16 - n, Low(16 * q), k);
      }
      GroupConcat(Join(s, q, n - 1), Group(s, Digit(q), 16 - n), Low(16 * q), k);
    }
  }

  /** The low bits decide the top digit and the bits below it. */
  lemma Decides(q: Pos, k: nat)
    requires k < 16 * q
    ensures forall x: nat :: Key(Low(16 * q), x) == k ==> Key(Digit(q), x) == Key(Digit(q), k)
    ensures forall x: nat :: Key(Low(16 * q), x) == k ==> Key(Low(q), x) == Key(Low(q), k)
  {
    hide Key;
    KeySelf(k, 16 * q);
    forall x: nat | Key(Low(16 * q), x) == k
      ensures Key(Digit(q), x) == Key(Digit(q), k) && Key(Low(q), x) == Key(Low(q), k)
    {
      LowOrder(x, k, q);
    }
  }

  /** Every number lands in one bucket. */
  lemma {:induction false} JoinCount(s: seq<nat>, q: Pos, n: nat, x: nat)
    requires n <= 16
    ensures multiset(Join(s, q, n))[x] == if Key(Digit(q), x) >= 16 - n then multiset(s)[x] else 0
  {
    hide Key;
    if n == 0 {
      NextDigit(x, q);
    } else {
      JoinCount(s, q, n - 1, x);
      GroupCount(s, Digit(q), 16 - n, x);
    }
  }

  lemma {:induction false} GroupCount(s: seq<nat>, f: Field, d: nat, x: nat)
    ensures multiset(Group(s, f, d))[x] == if Key(f, x) == d then multiset(s)[x] else 0
  {
    hide Key;
    if s != [] {
      GroupCount(s[1..], f, d, x);
      assert s == [s[0]] + s[1..];
    }
  }

  lemma JoinPermutes(s: seq<nat>, q: Pos)
    ensures multiset(Join(s, q, 16)) == multiset(s) && |Join(s, q, 16)| == |s|
  {
    hide Join, Key;
    var m: multiset<nat>, m': multiset<nat> := multiset(s), multiset(Join(s, q, 16));
    forall x: nat ensures m'[x] == m[x] {
      JoinCount(s, q, 16, x);
    }
    assert m' == m;
    assert |m| == |s| && |m'| == |Join(s, q, 16)|;
  }

  // ---- All passes ----

  /** Numbers with the same low bits are in the same order in both sequences. */
  ghost predicate Stable(r: seq<nat>, s: seq<nat>, m: Pos) {
    forall k: nat :: k < m ==> Group(r, Low(m), k) == Group(s, Low(m), k)
  }

  lemma PassStable(t: seq<nat>, s: seq<nat>, q: Pos)
    requires Stable(t, s, q)
    ensures Stable(Join(t, q, 16), s, 16 * q)
  {
    hide Join, Group, Key;
    forall k: nat | k < 16 * q ensures Group(Join(t, q, 16), Low(16 * q), k) == Group(s, Low(16 * q), k) {
      JoinStable(t, q, 16, k);
      NextDigit(k, q);
      Decides(q, k);
      GroupGroup(t, Low(q), Key(Low(q), k), Low(16 * q), k);
      GroupGroup(s, Low(q), Key(Low(q), k), Low(16 * q), k);
    }
  }

  /** After `n` passes the numbers are a permutation of the input, in falling order
      of their low 4n bits, and those with the same low bits in input order. */
  lemma {:induction false} PassesSort(s: seq<nat>, n: nat)
    ensures var r, p := Passes(s, n), Pow2(4 * n);
            multiset(r) == multiset(s) && |r| == |s| && Falling(r, Low(p)) && Stable(r, s, p)
  {
    hide Join, Pow2, Falling, Stable;
    if n == 0 {
      NoPass(s);
    } else {
      PassesSort(s, n - 1);
      var t, q := Passes(s, n - 1), Pow2(4 * (n - 1));
      Pow2Next(n - 1);
      JoinPermutes(t, q);
      JoinFalling(t, q, 16);
      PassStable(t, s, q);
    }
  }

  lemma NoPass(s: seq<nat>)
    ensures Pow2(0) == 1 && Falling(s, Low(1)) && Stable(s, s, 1)
  {
  }

  // ---- When the result is sorted ----

  ghost predicate Descending(s: seq<nat>) {
    forall i, j :: 0 <= i < j < |s| ==> s[i] >= s[j]
  }

  /** The number of bits radix_sort looks at. */
  function BitLen(max: nat): nat { Align8(Log2(max)) }

  function Max(s: seq<nat>): nat {
    if s == [] then 0 else var m := Max(s[1..]); if s[0] > m then s[0] else m
  }

  lemma {:induction false} MaxBound(s: seq<nat>, x: nat)
    requires x in s
    ensures x <= Max(s)
  {
    if x != s[0] { MaxBound(s[1..], x); }
  }

  function Sorted(s: seq<nat>): seq<nat> { Passes(s, BitLen(Max(s)) / 4) }

  /** Numbers that reach the first bit radix_sort does not look at come before the
      others: by their low bits or, where those agree, in the input. */
  ghost predicate HighFirst(s: seq<nat>, p: Pos) {
    forall i, j :: 0 <= i < |s| && 0 <= j < |s| && s[i] >= p > s[j] ==>
      Key(Low(p), s[i]) > s[j] || (Key(Low(p), s[i]) == s[j] && i < j)
  }

  /** At most one bit is not looked at, and none unless the largest number's highest
      bit is bit 0, 8, 16 or 24. */
  lemma EnoughBits(max: nat)
    ensures max < 2 * Pow2(BitLen(max)) && BitLen(max) % 8 == 0
    ensures max < Pow2(BitLen(max)) <==> max == 0 || Log2(max) % 8 != 0
  {
    if max > 0 {
      hide Pow2, Log2, Align8;
      Log2Bound(max);
      Aligned(Log2(max));
      Pow2Grows(Log2(max), BitLen(max));
    }
  }

  lemma Aligned(l: nat)
    ensures Align8(l) >= l && Align8(l) % 8 == 0 && (Align8(l) == l <==> l % 8 == 0)
  {
  }

  lemma {:induction false} Pow2Grows(a: nat, b: nat)
    requires a <= b
    ensures if a == b then Pow2(a) == Pow2(b) else 2 * Pow2(a) <= Pow2(b)
  {
    if a < b { Pow2Grows(a, b - 1); }
  }

  /** Of two numbers with key `k`, the earlier is never the smaller. */
  ghost predicate PairsDown(s: seq<nat>, f: Field, k: nat) {
    forall i, j :: 0 <= i < j < |s| && Key(f, s[i]) == k && Key(f, s[j]) == k ==> s[i] >= s[j]
  }

  lemma PairsStep(s: seq<nat>, f: Field, k: nat)
    requires s != []
    ensures PairsDown(s, f, k) <==>
            PairsDown(s[1..], f, k) && (Key(f, s[0]) == k ==> forall x :: x in s[1..] && Key(f, x) == k ==> s[0] >= x)
  {
    hide Key;
    var t := s[1..];
    if PairsDown(s, f, k) {
      forall i, j | 0 <= i < j < |t| && Key(f, t[i]) == k && Key(f, t[j]) == k ensures t[i] >= t[j] {
        assert t[i] == s[i + 1] && t[j] == s[j + 1];
      }
      forall x | x in t && Key(f, x) == k && Key(f, s[0]) == k ensures s[0] >= x {
        var j :| 0 <= j < |t| && t[j] == x;
        assert s[j + 1] == x;
      }
    }
    if PairsDown(t, f, k) && (Key(f, s[0]) == k ==> forall x :: x in t && Key(f, x) == k ==> s[0] >= x) {
      forall i, j | 0 <= i < j < |s| && Key(f, s[i]) == k && Key(f, s[j]) == k ensures s[i] >= s[j] {
        assert s[j] == t[j - 1] && t[j - 1] in t;
      }
    }
  }

  lemma DescendingCons(x: nat, s: seq<nat>)
    ensures Descending([x] + s) <==> Descending(s) && forall y :: y in s ==> x >= y
  {
    var t := [x] + s;
    if Descending(t) {
      forall i, j | 0 <= i < j < |s| ensures s[i] >= s[j] {
        assert t[i + 1] == s[i] && t[j + 1] == s[j];
      }
      forall y | y in s ensures x >= y {
        var j :| 0 <= j < |s| && s[j] == y;
        assert t[0] == x && t[j + 1] == y;
      }
    }
    if Descending(s) && forall y :: y in s ==> x >= y {
      forall i, j | 0 <= i < j < |t| ensures t[i] >= t[j] {
        assert t[j] == s[j - 1] && s[j - 1] in s;
      }
    }
  }

  /** The numbers of a group are in order in it as they are in the sequence. */
  lemma {:induction false} GroupDescending(s: seq<nat>, f: Field, k: nat)
    ensures Descending(Group(s, f, k)) <==> PairsDown(s, f, k)
  {
    hide Key, PairsDown, Descending;
    if s == [] {
      NoPairs(f, k);
    } else {
      var t, g := s[1..], Group(s[1..], f, k);
      GroupDescending(t, f, k);
      PairsStep(s, f, k);
      DescendingCons(s[0], g);
      forall x: nat ensures x in g <==> x in t && Key(f, x) == k { GroupIn(t, f, k, x); }
      assert [] + g == g;
    }
  }

  lemma NoPairs(f: Field, k: nat)
    ensures PairsDown([], f, k) && Descending([])
  {
  }

  /** A sequence in falling order of its low bits is descending exactly if high
      numbers come first, when it is a stable rearrangement of `s`. */
  lemma DescendingIff(r: seq<nat>, s: seq<nat>, p: Pos)
    requires multiset(r) == multiset(s) && Falling(r, Low(p)) && Stable(r, s, p)
    requires forall i :: 0 <= i < |s| ==> s[i] < 2 * p
    ensures Descending(r) <==> HighFirst(s, p)
  {
    hide Group, Key;
    forall k: nat | k < p ensures PairsDown(r, Low(p), k) <==> PairsDown(s, Low(p), k) {
      GroupDescending(r, Low(p), k);
      GroupDescending(s, Low(p), k);
    }
    if HighFirst(s, p) {
      forall i, j | 0 <= i < j < |r| ensures r[i] >= r[j] { InOrder(r, s, p, i, j); }
    }
    if Descending(r) {
      forall i, j | 0 <= i < |s| && 0 <= j < |s| && s[i] >= p > s[j]
        ensures Key(Low(p), s[i]) > s[j] || (Key(Low(p), s[i]) == s[j] && i < j)
      {
        Needed(r, s, p, i, j);
      }
    }
  }

  lemma LowKey(x: nat, p: Pos)
    requires x < 2 * p
    ensures Key(Low(p), x) == (if x < p then x else x - p) && Key(Low(p), x) < p
  {
  }

  lemma SameElements(r: seq<nat>, s: seq<nat>, x: nat)
    requires multiset(r) == multiset(s)
    ensures x in r <==> x in s
  {
    assert x in multiset(r) <==> x in multiset(s);
  }

  lemma InOrder(r: seq<nat>, s: seq<nat>, p: Pos, i: nat, j: nat)
    requires multiset(r) == multiset(s) && Falling(r, Low(p)) && HighFirst(s, p) && i < j < |r|
    requires forall i :: 0 <= i < |s| ==> s[i] < 2 * p
    requires forall k: nat :: k < p && PairsDown(s, Low(p), k) ==> PairsDown(r, Low(p), k)
    ensures r[i] >= r[j]
  {
    hide Key;
    SameElements(r, s, r[i]);
    SameElements(r, s, r[j]);
    LowKey(r[i], p);
    LowKey(r[j], p);
    var a :| 0 <= a < |s| && s[a] == r[i];
    var b :| 0 <= b < |s| && s[b] == r[j];
    var k := Key(Low(p), r[i]);
    if Key(Low(p), r[j]) == k {
      forall x, y | 0 <= x < y < |s| && Key(Low(p), s[x]) == k && Key(Low(p), s[y]) == k ensures s[x] >= s[y] {
        LowKey(s[x], p);
        LowKey(s[y], p);
      }
      assert PairsDown(s, Low(p), k);
    }
  }

  lemma Needed(r: seq<nat>, s: seq<nat>, p: Pos, i: nat, j: nat)
    requires multiset(r) == multiset(s) && Falling(r, Low(p)) && Descending(r)
    requires i < |s| && j < |s| && s[i] >= p > s[j] && s[i] < 2 * p
    requires forall k: nat :: k < p && PairsDown(r, Low(p), k) ==> PairsDown(s, Low(p), k)
    ensures Key(Low(p), s[i]) > s[j] || (Key(Low(p), s[i]) == s[j] && i < j)
  {
    hide Key;
    LowKey(s[i], p);
    LowKey(s[j], p);
    SameElements(r, s, s[i]);
    SameElements(r, s, s[j]);
    var a :| 0 <= a < |r| && r[a] == s[i];
    var b :| 0 <= b < |r| && r[b] == s[j];
    assert a < b;
    assert PairsDown(r, Low(p), s[j]);
  }

  /** radix_sort leaves the counts descending exactly when high counts come first;
      always, if the largest count's highest bit is looked at. */
  lemma SortedIff(s: seq<nat>)
    ensures multiset(Sorted(s)) == multiset(s) && Falling(Sorted(s), Low(Pow2(BitLen(Max(s)))))
    ensures Descending(Sorted(s)) <==> HighFirst(s, Pow2(BitLen(Max(s))))
    ensures Max(s) < Pow2(BitLen(Max(s))) ==> Descending(Sorted(s))
    ensures Max(s) < Pow2(BitLen(Max(s))) <==> Max(s) == 0 || Log2(Max(s)) % 8 != 0
  {
    hide Falling, Stable, Key, Passes, Max, BitLen, Pow2;
    EnoughBits(Max(s));
    var b := BitLen(Max(s));
    PassesSort(s, b / 4);
    assert 4 * (b / 4) == b;
    forall i | 0 <= i < |s| ensures s[i] <= Max(s) { MaxBound(s, s[i]); }
    assert Max(s) < Pow2(b) ==> HighFirst(s, Pow2(b));
    DescendingIff(Sorted(s), s, Pow2(b));
  }

  /** Zeros and then 256: with 255 zeros, the counts of a sample in which one byte
      value occurs 256 times and no other does. */
  function ZerosThen256(n: nat): (s: seq<nat>)
    ensures |s| == n + 1 && s[n] == 256 && forall i :: 0 <= i < n ==> s[i] == 0
  {
    if n == 0 then [256] else [0] + ZerosThen256(n - 1)
  }

  lemma {:induction false} Max256(n: nat)
    ensures Max(ZerosThen256(n)) == 256
  {
    if n == 0 {
      assert [256][1..] == [];
    } else {
      Max256(n - 1);
      assert ZerosThen256(n)[1..] == ZerosThen256(n - 1);
    }
  }

  /** 256 has its highest bit at 8, so only eight bits are looked at and 256 sorts
      with 0: after any number of zeros, it is still last when the sort is done. */
  lemma NotAlwaysSorted(n: nat)
    requires n > 0
    ensures var s := ZerosThen256(n); BitLen(Max(s)) == 8 && !HighFirst(s, Pow2(8)) && !Descending(Sorted(s))
  {
    hide Passes, Falling, Descending, Sorted, Max, ZerosThen256;
    var s := ZerosThen256(n);
    Max256(n);
    assert BitLen(256) == 8 && Pow2(8) == 256;
    assert s[n] >= 256 > s[0] && Key(Low(256), 256) == 0;
    SortedIff(s);
  }

  // ---- The program ----

  /** get4bits: the digit at a shift, reversed so that low addresses are high
      digits. */
  function Get4Bits(num: nat, shift: nat): (r: nat)
    ensures r == 15 - Key(Digit(Pow2(shift)), num) && r < 16
  {
    15 - num / Pow2(shift) % 16
  }

  lemma QuotientLarger(x: nat, y: nat, q: Pos, a: nat, b: nat)
    requires a == x / q && b == y / q && a > b
    ensures x > y
  {
    assert x == a * q + x % q && y == b * q + y % q;
    var d := a - b - 1;
    assert a * q == b * q + q + d * q;
    assert d * q >= 0;
  }

  /** Of two numbers that agree above a digit, the one sent to the lower address is
      the larger. */
  lemma LowAddressIsLarger(x: nat, y: nat, shift: nat)
    requires x / Pow2(shift) / 16 == y / Pow2(shift) / 16 && Get4Bits(x, shift) < Get4Bits(y, shift)
    ensures x > y
  {
    hide Pow2;
    var q := Pow2(shift);
    var a, b := x / q, y / q;
    assert a == a / 16 * 16 + a % 16 && b == b / 16 * 16 + b % 16;
    QuotientLarger(x, y, q, a, b);
  }

  lemma {:induction false} JoinGrows(s: seq<nat>, q: Pos, a: nat, b: nat)
    requires a <= b <= 16
    ensures |Join(s, q, a)| <= |Join(s, q, b)|
  {
    if a < b { JoinGrows(s, q, a, b - 1); }
  }

  lemma BucketSnoc(s: seq<nat>, i: nat, shift: nat, e: nat)
    requires i < |s| && e < 16
    ensures Bucket(s[..i + 1], Pow2(shift), e)
         == Bucket(s[..i], Pow2(shift), e) + (if Get4Bits(s[i], shift) == e then [s[i]] else [])
  {
    hide Key, Group;
    var f := Digit(Pow2(shift));
    GroupConcat(s[..i], [s[i]], f, 15 - e);
    GroupOne(s[i], f, 15 - e);
    assert s[..i + 1] == s[..i] + [s[i]];
  }

  lemma BucketCons(s: seq<nat>, i: nat, shift: nat, e: nat)
    requires i < |s| && e < 16
    ensures Bucket(s[i..], Pow2(shift), e)
         == (if Get4Bits(s[i], shift) == e then [s[i]] else []) + Bucket(s[i + 1..], Pow2(shift), e)
  {
    hide Key;
    assert s[i..][1..] == s[i + 1..];
  }

  lemma NoBucket(q: Pos)
    ensures forall e :: 0 <= e < 16 ==> Bucket([], q, e) == []
  {
  }

  /** Counting the numbers per bucket and turning the counts into bucket ends. */
  method CountDigits(src: array<nat>, shift: nat) returns (counters: array<nat>)
    ensures fresh(counters) && counters.Length == 16
    ensures forall e :: 0 <= e < 16 ==> counters[e] == |Join(src[..], Pow2(shift), e + 1)|
  {
    hide Bucket, Get4Bits;
    ghost var s, q := src[..], Pow2(shift);
    counters := new nat[16](_ => 0);
    NoBucket(q);
    assert s[..0] == [];
    for i := 0 to src.Length
      invariant src[..] == s
      invariant forall e :: 0 <= e < 16 ==> counters[e] == |Bucket(s[..i], q, e)|
    {
      var addr := Get4Bits(src[i], shift);
      forall e | 0 <= e < 16
        ensures |Bucket(s[..i + 1], q, e)| == |Bucket(s[..i], q, e)| + if e == addr then 1 else 0
      {
        BucketSnoc(s, i, shift, e);
      }
      counters[addr] := counters[addr] + 1;
    }
    assert s[..src.Length] == s;
    for i := 1 to 16
      invariant src[..] == s
      invariant forall e :: 0 <= e < i ==> counters[e] == |Join(s, q, e + 1)|
      invariant forall e :: i <= e < 16 ==> counters[e] == |Bucket(s, q, e)|
    {
      counters[i] := counters[i] + counters[i - 1];
    }
  }

  /** `d` holds, at the end of every bucket's range, the numbers from `i` on that
      belong there; `c` says where each bucket's filled part begins. */
  ghost predicate Filled(d: seq<nat>, c: seq<nat>, s: seq<nat>, q: Pos, i: nat)
    requires i <= |s|
  {
    && |d| == |s| && |c| == 16
    && forall e :: 0 <= e < 16 ==> FilledOne(d, c[e], s, q, i, e)
  }

  ghost predicate FilledOne(d: seq<nat>, c: nat, s: seq<nat>, q: Pos, i: nat, e: nat)
    requires i <= |s| && e < 16
  {
    && c == |Join(s, q, e)| + |Bucket(s[..i], q, e)|
    && c <= |Join(s, q, e + 1)| <= |d| && d[c..|Join(s, q, e + 1)|] == Bucket(s[i..], q, e)
  }

  lemma FillNone(d: seq<nat>, c: seq<nat>, s: seq<nat>, q: Pos)
    requires |d| == |s| && |c| == 16 && forall e :: 0 <= e < 16 ==> c[e] == |Join(s, q, e + 1)|
    ensures Filled(d, c, s, q, |s|)
  {
    hide Bucket;
    NoBucket(q);
    JoinPermutes(s, q);
    assert s[..|s|] == s && s[|s|..] == [];
    forall e | 0 <= e < 16 ensures FilledOne(d, c[e], s, q, |s|, e) {
      JoinGrows(s, q, e + 1, 16);
      assert Join(s, q, e + 1) == Join(s, q, e) + Bucket(s, q, e);
    }
  }

  /** Putting the next number, from the back, into its bucket. */
  lemma FillOne(d: seq<nat>, c: seq<nat>, s: seq<nat>, shift: nat, i: nat)
    requires i < |s| && Filled(d, c, s, Pow2(shift), i + 1)
    ensures var a := Get4Bits(s[i], shift);
            && 0 < c[a] <= |d| && Filled(d[c[a] - 1 := s[i]], c[a := c[a] - 1], s, Pow2(shift), i)
  {
    hide Bucket, Join, Get4Bits, Filled;
    var q, a := Pow2(shift), Get4Bits(s[i], shift);
    FillPlace(d, c, s, shift, i);
    var d', c' := d[c[a] - 1 := s[i]], c[a := c[a] - 1];
    forall e | 0 <= e < 16 ensures FilledOne(d', c'[e], s, q, i, e) {
      FilledAt(d, c, s, q, i + 1, e);
      BucketSnoc(s, i, shift, e);
      BucketCons(s, i, shift, e);
      FilledAt(d, c, s, q, i + 1, a);
      BucketSnoc(s, i, shift, a);
      if e != a { Disjoint(s, q, e, a); }
      assert e == a ==> d'[c'[e]..|Join(s, q, e + 1)|] == [s[i]] + d[c[a]..|Join(s, q, e + 1)|];
      assert e != a ==> d'[c'[e]..|Join(s, q, e + 1)|] == d[c[e]..|Join(s, q, e + 1)|];
    }
    FilledAll(d', c', s, q, i);
  }

  lemma FilledAt(d: seq<nat>, c: seq<nat>, s: seq<nat>, q: Pos, i: nat, e: nat)
    requires i <= |s| && Filled(d, c, s, q, i) && e < 16
    ensures |d| == |s| && |c| == 16 && FilledOne(d, c[e], s, q, i, e)
  {
  }

  lemma FilledAll(d: seq<nat>, c: seq<nat>, s: seq<nat>, q: Pos, i: nat)
    requires i <= |s| && |d| == |s| && |c| == 16 && forall e :: 0 <= e < 16 ==> FilledOne(d, c[e], s, q, i, e)
    ensures Filled(d, c, s, q, i)
  {
  }

  lemma FillPlace(d: seq<nat>, c: seq<nat>, s: seq<nat>, shift: nat, i: nat)
    requires i < |s| && Filled(d, c, s, Pow2(shift), i + 1)
    ensures |d| == |s| && |c| == 16 && var a := Get4Bits(s[i], shift); |Join(s, Pow2(shift), a)| < c[a] <= |d|
  {
    hide Bucket, Join, Get4Bits, Filled;
    FilledAt(d, c, s, Pow2(shift), i + 1, Get4Bits(s[i], shift));
    BucketSnoc(s, i, shift, Get4Bits(s[i], shift));
  }

  lemma Disjoint(s: seq<nat>, q: Pos, e: nat, a: nat)
    requires e < 16 && a < 16 && e != a
    ensures |Join(s, q, e + 1)| <= |Join(s, q, a)| || |Join(s, q, a + 1)| <= |Join(s, q, e)|
  {
    if e < a { JoinGrows(s, q, e + 1, a); } else { JoinGrows(s, q, a + 1, e); }
  }

  lemma {:induction false} FilledPrefix(d: seq<nat>, c: seq<nat>, s: seq<nat>, q: Pos, n: nat)
    requires Filled(d, c, s, q, 0) && n <= 16
    ensures |Join(s, q, n)| <= |d| && d[..|Join(s, q, n)|] == Join(s, q, n)
  {
    hide Bucket;
    if n > 0 {
      FilledPrefix(d, c, s, q, n - 1);
      assert FilledOne(d, c[n - 1], s, q, 0, n - 1);
      NoBucket(q);
      assert s[..0] == [] && s[0..] == s;
      var x, y := |Join(s, q, n - 1)|, |Join(s, q, n)|;
      assert d[..y] == d[..x] + d[x..y];
    }
  }

  /** One pass: the numbers of `src` into `dst`, by one digit. */
  method DigitPass(src: array<nat>, dst: array<nat>, shift: nat)
    requires src != dst && src.Length == dst.Length
    modifies dst
    ensures dst[..] == Join(src[..], Pow2(shift), 16)
  {
    hide Filled, Join, Get4Bits;
    ghost var s, q := src[..], Pow2(shift);
    var counters := CountDigits(src, shift);
    FillNone(dst[..], counters[..], s, q);
    var i := src.Length;
    while i > 0
      invariant 0 <= i <= src.Length && src[..] == s && counters.Length == 16
      invariant Filled(dst[..], counters[..], s, q, i)
    {
      i := i - 1;
      FillOne(dst[..], counters[..], s, shift, i);
      var addr := Get4Bits(src[i], shift);
      ghost var d, c := dst[..], counters[..];
      counters[addr] := counters[addr] - 1;
      dst[counters[addr]] := src[i];
      assert counters[..] == c[addr := c[addr] - 1];
      assert dst[..] == d[c[addr] - 1 := s[i]];
    }
    FilledPrefix(dst[..], counters[..], s, q, 16);
    JoinPermutes(s, q);
  }

  /** radix_sort. */
  method Sort(a: array<nat>, buf: array<nat>)
    requires a != buf && a.Length == buf.Length > 0
    modifies a, buf
    ensures a[..] == Sorted(old(a[..]))
    ensures multiset(a[..]) == multiset(old(a[..]))
    ensures Descending(a[..]) <==> HighFirst(old(a[..]), Pow2(BitLen(Max(old(a[..])))))
  {
    hide Passes, Descending, HighFirst, Align8, Log2, Max, Pow2;
    ghost var s := a[..];
    SortedIff(s);
    EnoughBits(Max(s));
    var max := FindMax(a);
    var bitlen := Align8(Log2(max));
    var shift := 0;
    ghost var rounds := bitlen / 8;
    NoPasses(s);
    ghost var r: nat := 0;
    while shift < bitlen
      invariant r <= rounds && shift == 8 * r && bitlen == 8 * rounds
      invariant a[..] == Passes(s, 2 * r)
    {
      TwoPasses(a, buf, shift, s, 2 * r);
      shift := shift + 8;
      r := r + 1;
    }
    assert bitlen / 4 == 2 * rounds;
  }

  lemma NoPasses(s: seq<nat>)
    ensures Passes(s, 0) == s
  {
  }

  /** One round: into the buffer by one digit and back by the next. */
  method TwoPasses(a: array<nat>, buf: array<nat>, shift: nat, ghost s: seq<nat>, ghost n: nat)
    requires a != buf && a.Length == buf.Length && shift == 4 * n && a[..] == Passes(s, n)
    modifies a, buf
    ensures a[..] == Passes(s, n + 2)
  {
    hide Join, Pow2;
    DigitPass(a, buf, shift);
    assert buf[..] == Passes(s, n + 1);
    DigitPass(buf, a, shift + 4);
    assert shift + 4 == 4 * (n + 1);
  }

  method FindMax(a: array<nat>) returns (max: nat)
    requires a.Length > 0
    ensures max == Max(a[..])
  {
    max := a[0];
    assert a[..1] == [a[0]];
    for i := 1 to a.Length
      invariant max == Max(a[..i])
    {
      MaxSnoc(a[..i], a[i]);
      assert a[..i + 1] == a[..i] + [a[i]];
      if a[i] > max { max := a[i]; }
    }
    assert a[..a.Length] == a[..];
  }

  lemma {:induction false} MaxSnoc(s: seq<nat>, x: nat)
    ensures Max(s + [x]) == if x > Max(s) then x else Max(s)
  {
    if s == [] {
      assert s + [x] == [x] && [x][1..] == [];
    } else {
      MaxSnoc(s[1..], x);
      assert (s + [x])[0] == s[0] && (s + [x])[1..] == s[1..] + [x];
    }
  }
}
