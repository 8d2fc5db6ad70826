/** Rebalancing interior nodes while a search descends: pushing pairs between
    siblings, splitting a nearly full node, merging a nearly empty one. */
module Nodes {
  import opened Prelude
  import opened Trees
  import opened Paths
  import opened LowKeys

  // ---- Moving pairs between two sibling nodes ----

  /** How many pairs push_node_left moves from a node of `s` pairs to its left
      sibling of `d`; 0 when it declines. */
  function PushLeftCount(cap: nat, d: nat, s: nat, empty: bool): (n: nat)
    ensures n <= s && (d <= cap ==> d + n <= cap)
    // 8 pairs or more stay, unless the node may be emptied and all of it fits
    ensures 0 < n < s ==> s - n >= 8
    ensures 0 < n == s ==> empty
    ensures empty && d + s <= cap ==> n == s
    // all but at most 8 of the pairs there are and there is room for go
    ensures empty && d <= cap ==> n + 8 >= Min(s, cap - d)
    ensures !empty && d <= cap && s >= 8 ==> n == s - 8 || d + n == cap
  {
    var room := cap - d;
    if (!empty && s <= 8) || room <= 0 then 0
    else if !empty then Min(s - 8, room)
    else if room >= s then s
    else if s - room >= 8 then room
    else if room <= 8 then 0
    else room - 8
  }

  method PushNodeLeft(cap: nat, dst: seq<Ptr>, src: seq<Ptr>, empty: bool)
    returns (ret: int, dst': seq<Ptr>, src': seq<Ptr>)
    requires src != []
    ensures var n := PushLeftCount(cap, |dst|, |src|, empty);
            && dst' == dst + src[..n] && src' == src[n..]
            && ret == if n == 0 then 1 else 0
  {
    var push := cap - |dst|;
    dst', src' := dst, src;
    if !empty && |src| <= 8 { return 1, dst', src'; }
    if push <= 0 { return 1, dst', src'; }
    if empty {
      push := Min(|src|, push);
      if push < |src| {
        // leave at least 8 pairs unless the node is emptied
        if |src| - push < 8 {
          if push <= 8 { return 1, dst', src'; }
          push := push - 8;
        }
      }
    } else {
      push := Min(|src| - 8, push);
    }
    return 0, dst + src[..push], src[push..];
  }

  /** How many pairs balance_node_right moves from a node of `s` pairs to its
      right sibling of `d`: at most half, never all. */
  function PushRightCount(cap: nat, d: nat, s: nat): (n: nat)
    ensures n < s || n == 0
    ensures d <= cap ==> d + n <= cap
    ensures n > 0 <==> d < cap && s >= 4
    // what stays and what goes differ by two at most, unless the sibling is full
    ensures n > 0 ==> d + n == cap || 1 <= n - (s - n) <= 2
    ensures n - (s - n) <= 2
  {
    if d >= cap || s < 4 then 0 else Min(s / 2 + 1, cap - d)
  }

  method BalanceNodeRight(cap: nat, dst: seq<Ptr>, src: seq<Ptr>)
    returns (ret: int, dst': seq<Ptr>, src': seq<Ptr>)
    ensures var n := PushRightCount(cap, |dst|, |src|);
            && dst' == src[|src| - n..] + dst && src' == src[..|src| - n]
            && ret == if n == 0 then 1 else 0
  {
    var push := cap - |dst|;
    dst', src' := dst, src;
    if push <= 0 || |src| < 4 { return 1, dst', src'; }
    var maxPush := |src| / 2 + 1;
    if maxPush >= |src| { return 1, dst', src'; }
    if maxPush < push { push := maxPush; }
    return 0, src[|src| - push..] + dst, src[..|src| - push];
  }

  lemma MoveLeft(a: seq<Ptr>, b: seq<Ptr>, n: nat, c: seq<Ptr>)
    requires n <= |b|
    ensures (a + b[..n]) + b[n..] + c == a + b + c
    ensures c + (a + b[..n]) + b[n..] == c + a + b
  {
    assert b[..n] + b[n..] == b;
  }

  lemma MoveRight(a: seq<Ptr>, n: nat, b: seq<Ptr>, c: seq<Ptr>)
    requires n <= |a|
    ensures a[..n] + (a[n..] + b) + c == a + b + c
  {
    assert a[..n] + a[n..] == a;
  }

  /** The arithmetic of balance_level: with `a`, `b`, `c` pairs in the left
      sibling, the node and the right sibling, a node left with one pair has a
      left sibling that can either lend it some or take its last one. */
  lemma BalanceCounts(cap: nat, a: nat, b: nat, c: nat, hasLeft: bool, hasRight: bool)
    requires cap >= 10 && 1 <= b <= cap / 4 && (hasLeft || hasRight)
    requires if hasLeft then 1 <= a <= cap else a == 0
    requires if hasRight then 1 <= c <= cap else c == 0
    ensures var n1 := if hasLeft then PushLeftCount(cap, a, b, true) else 0;
            var n2 := if hasRight then PushLeftCount(cap, b - n1, c, true) else 0;
            && b - n1 + n2 <= cap && (!hasLeft ==> b - n1 + n2 != 1)
            && (b - n1 + n2 == 1 && PushRightCount(cap, 1, a + n1) == 0 ==> PushLeftCount(cap, a + n1, 1, true) == 1)
  {
  }

  /** The pushes of balance_level on the node and whichever siblings exist; an
      absent sibling is empty.  The node never keeps exactly one pair, so
      neither the error for a missing left sibling nor the check for a failed
      push is reached. */
  method BalanceThree(cap: nat, left: seq<Ptr>, mid: seq<Ptr>, right: seq<Ptr>, hasLeft: bool, hasRight: bool)
    returns (ret: int, l: seq<Ptr>, m: seq<Ptr>, r: seq<Ptr>)
    requires cap >= 10 && 1 <= |mid| <= cap / 4 && (hasLeft || hasRight)
    requires if hasLeft then 1 <= |left| <= cap else left == []
    requires if hasRight then 1 <= |right| <= cap else right == []
    ensures ret == 0
    ensures l + m + r == left + mid + right
    ensures |l| <= cap && |m| <= cap && |r| <= |right|
    ensures |m| != 1 && (hasLeft ==> |l| >= 1) && (!hasLeft ==> l == [] && m != [])
  {
    hide PushLeftCount, PushRightCount;
    BalanceCounts(cap, |left|, |mid|, |right|, hasLeft, hasRight);
    var wret := 0;
    l, m, r := left, mid, right;
    if hasLeft {
      MoveLeft(l, m, PushLeftCount(cap, |l|, |m|, true), r);
      wret, l, m := PushNodeLeft(cap, l, m, true);
    }
    if hasRight {
      MoveLeft(m, r, PushLeftCount(cap, |m|, |r|, true), l);
      wret, m, r := PushNodeLeft(cap, m, r, true);
    }
    if |m| == 1 {
      if !hasLeft {
        // it would have pulled pairs from the right sibling
        return EROFS, l, m, r;
      }
      l, m := LastPair(cap, l, m, r);
    }
    return 0, l, m, r;
  }

  /** A node down to one pair borrows from the left sibling or gives it up. */
  method LastPair(cap: nat, left: seq<Ptr>, mid: seq<Ptr>, ghost right: seq<Ptr>) returns (l: seq<Ptr>, m: seq<Ptr>)
    requires |mid| == 1 && 1 <= |left| <= cap && cap >= 2
    requires PushRightCount(cap, 1, |left|) == 0 ==> PushLeftCount(cap, |left|, 1, true) == 1
    ensures l + m + right == left + mid + right
    ensures 1 <= |l| <= cap && |m| <= cap && |m| != 1
  {
    hide PushLeftCount, PushRightCount;
    var wret;
    MoveRight(left, |left| - PushRightCount(cap, 1, |left|), mid, right);
    wret, m, l := BalanceNodeRight(cap, mid, left);
    if wret == 1 {
      MoveLeft(l, m, PushLeftCount(cap, |l|, |m|, true), right);
      wret, l, m := PushNodeLeft(cap, l, m, true);
    }
    assert wret != 1;
  }

  // ---- The same on a path ----

  /** insert_new_root: a new root holding only the old one. */
  method InsertNewRoot(p: Path, ghost h: nat)
    requires p.fs == [] && p.Ok(h) && p.g.cap >= 1
    modifies p
    ensures p.Ok(h) && p.node == old(p.node) && p.slot == old(p.slot)
    ensures p.fs == [Frame([], Low(p.node), [])]
    ensures Before(p.fs) == [] && After(p.fs) == []
  {
    p.fs := [Frame([], Low(p.node), [])];
    assert Up(p.fs) == [];
  }

  /** The pair for a node, or nothing if the node is empty and deleted. */
  function Wrap(ps: seq<Ptr>): seq<Ptr> {
    if ps == [] then [] else [Ptr(ps[0].key, Node(ps))]
  }

  lemma WrapOk(g: Geometry, ps: seq<Ptr>, h: nat)
    requires h > 0 && PtrsOk(g, ps, h - 1) && |ps| <= g.cap
    ensures PtrsOk(g, Wrap(ps), h) && Grand(Wrap(ps)) == ps
  {
    hide PtrsOk, PtrOk;
    if ps != [] {
      NodePtrOk(g, ps, ps[0].key, h);
      GrandOne(Wrap(ps)[0]);
      OneOk(g, Wrap(ps)[0], h);
    } else {
      NoneOk(g, h);
    }
  }

  lemma OneOk(g: Geometry, a: Ptr, h: nat)
    requires PtrOk(g, a, h)
    ensures PtrsOk(g, [a], h)
  {
    hide PtrOk;
  }

  lemma NoneOk(g: Geometry, h: nat)
    ensures PtrsOk(g, [], h) && Grand([]) == []
  {
  }

  lemma ConcatOk(g: Geometry, a: seq<Ptr>, b: seq<Ptr>, h: nat)
    ensures PtrsOk(g, a + b, h) <==> PtrsOk(g, a, h) && PtrsOk(g, b, h)
  {
    hide PtrOk;
    var s := a + b;
    if PtrsOk(g, s, h) {
      assert forall i :: 0 <= i < |a| ==> a[i] == s[i];
      assert forall i :: 0 <= i < |b| ==> b[i] == s[|a| + i];
    }
  }

  lemma {:induction false} GrandOk(g: Geometry, ps: seq<Ptr>, h: nat)
    requires h > 0 && PtrsOk(g, ps, h)
    ensures PtrsOk(g, Grand(ps), h - 1)
    ensures ps != [] ==> Grand(ps) != [] && Grand(ps)[0].key == ps[0].key
  {
    hide PtrOk;
    if ps != [] {
      ChildNode(g, ps, 0, h);
      GrandOk(g, ps[1..], h);
      ConcatOk(g, Kids(ps[0]), Grand(ps[1..]), h - 1);
    }
  }

  function Run(l: seq<Ptr>, m: seq<Ptr>, r: seq<Ptr>): seq<Ptr> {
    Wrap(l) + Wrap(m) + Wrap(r)
  }

  lemma RunOk(g: Geometry, l: seq<Ptr>, m: seq<Ptr>, r: seq<Ptr>, h: nat)
    requires h > 0 && PtrsOk(g, l + m + r, h - 1) && |l| <= g.cap && |m| <= g.cap && |r| <= g.cap
    ensures PtrsOk(g, Run(l, m, r), h)
    ensures Grand(Run(l, m, r)) == l + m + r
    ensures Grand(Run(l, m, r)[..|Wrap(l)|]) == l
  {
    hide PtrsOk, Grand, Wrap;
    ConcatOk(g, l + m, r, h - 1);
    ConcatOk(g, l, m, h - 1);
    WrapOk(g, l, h);
    WrapOk(g, m, h);
    WrapOk(g, r, h);
    ConcatOk(g, Wrap(l), Wrap(m), h);
    ConcatOk(g, Wrap(l) + Wrap(m), Wrap(r), h);
    GrandConcat(Wrap(l), Wrap(m));
    GrandConcat(Wrap(l) + Wrap(m), Wrap(r));
    assert Run(l, m, r)[..|Wrap(l)|] == Wrap(l);
  }

  /** A run of a parent's children regrouped into up to three nodes. */
  lemma ReplaceRun(g: Geometry, par: seq<Ptr>, i: nat, j: nat, l: seq<Ptr>, m: seq<Ptr>, r: seq<Ptr>, h: nat)
    requires h > 0 && PtrsOk(g, par, h) && i < j <= |par|
    requires l + m + r == Grand(par[i..j]) && (l != [] || m != [])
    requires |l| <= g.cap && |m| <= g.cap && |r| <= g.cap
    ensures var par' := Splice(par, i, j, Run(l, m, r));
            && PtrsOk(g, par', h) && par'[0].key == par[0].key && Grand(par') == Grand(par)
            && |par'| == |par| - (j - i) + |Run(l, m, r)|
            && |Grand(par'[..i])| == |Grand(par[..i])|
            && |Grand(par'[..i+|Wrap(l)|])| == |Grand(par[..i])| + |l|
  {
    hide PtrsOk, Grand;
    SliceOk(g, par, i, j, h);
    GrandOk(g, par[i..j], h);
    RunOk(g, l, m, r, h);
    assert Run(l, m, r)[0].key == par[i].key;
    SpliceOk(g, par, i, j, Run(l, m, r), h);
    SpliceGrand(par, i, j, Run(l, m, r), 0);
    SpliceGrand(par, i, j, Run(l, m, r), |Wrap(l)|);
    assert Run(l, m, r)[..0] == [];
    NoneOk(g, h);
  }

  /** Where the nodes of a run end up in the parent. */
  lemma RunPlace(par: seq<Ptr>, i: nat, j: nat, l: seq<Ptr>, m: seq<Ptr>, r: seq<Ptr>)
    requires i <= j <= |par|
    ensures var par' := Splice(par, i, j, Run(l, m, r));
            var w := if l == [] then 0 else 1;
            && |Wrap(l)| == w && |Run(l, m, r)| == w + (if m == [] then 0 else 1) + (if r == [] then 0 else 1)
            && |par'| == |par| - (j - i) + |Run(l, m, r)|
            && (l != [] ==> Kids(par'[i]) == l) && (m != [] ==> Kids(par'[i+w]) == m)
  {
  }

  lemma GrandPair(par: seq<Ptr>, q: nat)
    requires q + 1 < |par|
    ensures Grand(par[q..q+2]) == Kids(par[q]) + Kids(par[q+1])
    ensures |Grand(par[..q+1])| == |Grand(par[..q])| + |Kids(par[q])|
  {
    hide Grand, Kids;
    GrandTwo(par[q], par[q+1]);
    assert par[q..q+2] == [par[q], par[q+1]];
    GrandNext(par, q);
  }

  lemma GrandNext(par: seq<Ptr>, q: nat)
    requires q < |par|
    ensures |Grand(par[..q+1])| == |Grand(par[..q])| + |Kids(par[q])|
  {
    hide Grand, Kids;
    GrandOne(par[q]);
    GrandConcat(par[..q], [par[q]]);
    assert par[..q+1] == par[..q] + [par[q]];
  }

  lemma SliceOk(g: Geometry, ps: seq<Ptr>, i: nat, j: nat, h: nat)
    requires i <= j <= |ps| && PtrsOk(g, ps, h)
    ensures PtrsOk(g, ps[i..j], h)
  {
    hide PtrOk;
  }

  lemma RunOfTwo(l: seq<Ptr>, m: seq<Ptr>)
    requires l != [] && m != []
    ensures Run(l, m, []) == [Ptr(l[0].key, Node(l)), Ptr(m[0].key, Node(m))]
  {
  }

  /** The writes of a push between two nodes whose first pair stays the first. */
  lemma WroteTwo(par: seq<Ptr>, q: nat, l: seq<Ptr>, m: seq<Ptr>)
    requires q + 1 < |par| && l != [] && m != [] && par[q].key == l[0].key
    ensures SetKey(SetChild(SetChild(par, q, Node(l)), q + 1, Node(m)), q + 1, m[0].key)
         == Splice(par, q, q + 2, Run(l, m, []))
  {
    RunOfTwo(l, m);
    WrittenTwo(par, q, Node(l), Node(m));
  }

  lemma WroteSplit(par: seq<Ptr>, q: nat, l: seq<Ptr>, m: seq<Ptr>)
    requires q < |par| && l != [] && m != [] && par[q].key == l[0].key
    ensures InsertPtr(SetChild(par, q, Node(l)), q + 1, m[0].key, Node(m)) == Splice(par, q, q + 1, Run(l, m, []))
  {
    RunOfTwo(l, m);
    WrittenSplit(par, q, Node(l), Node(m));
  }

  lemma WrapIs(ps: seq<Ptr>)
    ensures Wrap(ps) == if ps == [] then [] else [Ptr(ps[0].key, Node(ps))]
    ensures ps != [] ==> HasLow(Node(ps)) && Low(Node(ps)) == ps[0].key
  {
  }

  lemma FourParts(a: seq<Ptr>, b: seq<Ptr>, c: seq<Ptr>, d: seq<Ptr>)
    ensures a + (b + c + d) == a + b + c + d == (a + b) + (c + d) == a + (b + (c + d))
  {
  }

  /** A node that kept its first pair is written; its key stays. */
  method PutLeft(par: seq<Ptr>, q: nat, l: seq<Ptr>, ghost rest: seq<Ptr>) returns (par': seq<Ptr>)
    requires q < |par| && l != [] && par[q].key == l[0].key && rest == par[q+1..]
    ensures par' == par[..q] + Wrap(l) + rest
  {
    hide SetChild;
    WriteAt(par[..q], par[q], rest, Node(l));
    WrapIs(l);
    assert par == par[..q] + [par[q]] + rest;
    par' := SetChild(par, q, Node(l));
  }

  /** A node is written and gets its new first key, or loses its pair if it is empty. */
  method PutNode(par: seq<Ptr>, q: nat, m: seq<Ptr>, ghost front: seq<Ptr>, ghost rest: seq<Ptr>)
    returns (par': seq<Ptr>)
    requires q < |par| && front == par[..q] && rest == par[q+1..]
    ensures par' == front + Wrap(m) + rest
  {
    hide SetChild, SetKey, DelPtr;
    WriteAt(front, par[q], rest, Node(m));
    WrapIs(m);
    assert par == front + [par[q]] + rest;
    if m == [] {
      assert front + [] == front;
      par' := DelPtr(par, q);
    } else {
      par' := SetKey(SetChild(par, q, Node(m)), q, m[0].key);
    }
  }

  /** The node after the middle one, if there is one. */
  method PutRight(par: seq<Ptr>, ps: nat, r: seq<Ptr>) returns (par': seq<Ptr>)
    requires ps < |par| && (ps + 1 == |par| ==> r == [])
    ensures var j := if ps + 1 < |par| then ps + 2 else ps + 1;
            par' == par[..ps+1] + (Wrap(r) + par[j..])
  {
    hide Wrap;
    WrapIs(r);
    par' := par;
    if ps + 1 < |par| {
      par' := PutNode(par, ps + 1, r, par[..ps+1], par[ps+2..]);
      Assoc(par[..ps+1], Wrap(r), par[ps+2..]);
    } else {
      assert par[..ps+1] == par && par[ps+1..] == [];
    }
  }

  lemma WithFirst(a: seq<Ptr>, x: Ptr, b: seq<Ptr>)
    ensures var s := (a + [x]) + b; s[..|a|] == a && s[|a|] == x && s[|a|+1..] == b && s[|a|..] == [x] + b
  {
  }

  /** A run spliced in at its place, and the first key after it. */
  lemma IsSplice(par: seq<Ptr>, ps: nat, l: seq<Ptr>, m: seq<Ptr>, r: seq<Ptr>)
    requires ps < |par|
    requires if ps > 0 then l != [] && par[ps-1].key == l[0].key else l == [] && m != [] && par[0].key == m[0].key
    ensures Run(l, m, r) == Wrap(l) + Wrap(m) + Wrap(r)
    ensures var i := if ps > 0 then ps - 1 else ps;
            var j := if ps + 1 < |par| then ps + 2 else ps + 1;
            var s := Splice(par, i, j, Run(l, m, r));
            s == par[..i] + Run(l, m, r) + par[j..] && s != [] && s[0].key == par[0].key
  {
    hide Wrap;
    WrapIs(l);
    WrapIs(m);
    assert Run(l, m, r)[0].key == if ps > 0 then l[0].key else m[0].key;
  }

  /** The writes of balance_level to the parent: the right node loses its pair or gets
      its new first key, and so does the middle one; the left one keeps its key.  No
      pair at slot 0 is deleted and no key there changes, so nothing above has to. */
  method WriteBack(par: seq<Ptr>, ps: nat, l: seq<Ptr>, m: seq<Ptr>, r: seq<Ptr>) returns (par': seq<Ptr>)
    requires ps < |par|
    requires if ps > 0 then l != [] && par[ps-1].key == l[0].key else l == [] && m != [] && par[0].key == m[0].key
    requires ps + 1 == |par| ==> r == []
    ensures var i := if ps > 0 then ps - 1 else ps;
            var j := if ps + 1 < |par| then ps + 2 else ps + 1;
            par' == Splice(par, i, j, Run(l, m, r))
    ensures par' != [] && par'[0].key == par[0].key
  {
    hide Wrap, Run, Splice;
    WrapIs(l);
    ghost var rest := par[if ps + 1 < |par| then ps + 2 else ps + 1..];
    ghost var b := Wrap(r) + rest;
    par' := PutRight(par, ps, r);
    assert par[..ps+1] == par[..ps] + [par[ps]];
    WithFirst(par[..ps], par[ps], b);
    ghost var a := par[..if ps > 0 then ps - 1 else ps];
    if ps > 0 {
      assert par'[..ps-1] == par[..ps][..ps-1] == a && par'[ps-1] == par[..ps][ps-1];
      par' := PutLeft(par', ps - 1, l, [par[ps]] + b);
    }
    Assoc(a + Wrap(l), [par[ps]], b);
    WithFirst(a + Wrap(l), par[ps], b);
    par' := PutNode(par', ps, m, a + Wrap(l), b);
    FourParts(a, Wrap(l), Wrap(m), b);
    FourParts(Wrap(l), Wrap(m), Wrap(r), rest);
    Assoc(a, Run(l, m, r), rest);
    IsSplice(par, ps, l, m, r);
  }

  /** The first pair of a run stays first. */
  lemma SameFirst(left: seq<Ptr>, mid: seq<Ptr>, right: seq<Ptr>, l: seq<Ptr>, m: seq<Ptr>, r: seq<Ptr>)
    requires l + m + r == left + mid + right && mid != []
    ensures left != [] && l != [] ==> l[0] == left[0]
    ensures left == [] && l == [] && m != [] ==> m[0] == mid[0]
  {
    assert (l + m + r)[0] == (left + mid + right)[0];
  }

  /** What every rearrangement keeps: the pair the path points at and the
      contents on either side of it. */
  twostate predicate SamePlace(p: Path)
    reads p
    requires old(p.node.Node? && p.slot < |p.node.ptrs|)
    requires p.node.Node? && p.slot < |p.node.ptrs|
  {
    p.Target() == old(p.Target()) && p.LeftOf() == old(p.LeftOf()) && p.RightOf() == old(p.RightOf())
  }

  /** Store a regrouped parent and follow the pair the path points at. */
  method Regroup(p: Path, par: seq<Ptr>, q: nat, s: nat, ghost h: nat)
    requires p.NodeOk(h) && p.fs != []
    requires PtrsOk(p.g, par, h) && q < |par| <= p.g.cap && par[0].key == FirstKey(Last(p.fs))
    requires s < |Kids(par[q])|
    requires Grand(p.Parent()) == Grand(par) && |Grand(Last(p.fs).left)| + p.slot == |Grand(par[..q])| + s
    modifies p
    ensures p.NodeOk(h) && SamePlace(p) && |p.fs| == |old(p.fs)| && p.node == par[q].child
    ensures p.node.ptrs == Kids(par[q]) && p.slot == s
    ensures Count(Last(p.fs)) == |par|
  {
    hide FramesOk, Shape, Grand, FlatPtrs, Before, After, PtrsOk;
    RegroupKeeps(p.g, p.fs, p.node, p.slot, par, q, s, h);
    p.SetParent(par, q, s);
  }

  /** A sibling with room for more than one pair, and a node with pairs to spare. */
  predicate LeftTakes(cap: nat, left: seq<Ptr>, n: nat) {
    left != [] && left[|left|-1].child.Node?
    && var d := |left[|left|-1].child.ptrs|; d < cap - 1 && PushLeftCount(cap, d, n, false) > 0
  }

  predicate RightTakes(cap: nat, right: seq<Ptr>, n: nat) {
    right != [] && right[0].child.Node?
    && var d := |right[0].child.ptrs|; d < cap - 1 && PushRightCount(cap, d, n) > 0
  }

  /** The left half of push_nodes_for_insert. */
  method PushIntoLeft(p: Path, ghost h: nat) returns (ret: int)
    requires p.NodeOk(h) && p.fs != [] && Last(p.fs).left != []
    modifies p
    ensures p.NodeOk(h) && SamePlace(p) && |p.fs| == |old(p.fs)|
    ensures Count(Last(p.fs)) == Count(Last(old(p.fs)))
    ensures ret == if old(LeftTakes(p.g.cap, Last(p.fs).left, |p.node.ptrs|)) then 0 else 1
    ensures ret == 1 ==> p.node == old(p.node) && p.fs == old(p.fs) && p.slot == old(p.slot)
  {
    hide FramesOk, Shape, Grand, FlatPtrs, Before, After, PtrsOk, PushLeftCount, Wrap, Run, Splice, Kids;
    var par, ps := p.Parent(), p.ParentSlot();
    ParentOk(p.g, p.fs, p.node, h);
    ChildNode(p.g, par, ps, h);
    ChildNode(p.g, par, ps - 1, h);
    var left, mid := par[ps-1].child.ptrs, p.node.ptrs;
    if |left| >= p.g.cap - 1 { return 1; }
    var wret, l, m := PushNodeLeft(p.g.cap, left, mid, false);
    if wret != 0 { return 1; }
    LeavesEight(p.g.cap, |left|, |mid|);
    MoveLeft(left, mid, PushLeftCount(p.g.cap, |left|, |mid|, false), []);
    GrandPair(par, ps - 1);
    ReplaceRun(p.g, par, ps - 1, ps + 1, l, m, [], h);
    RunPlace(par, ps - 1, ps + 1, l, m, []);
    WroteTwo(par, ps - 1, l, m);
    par := SetChild(SetChild(par, ps - 1, Node(l)), ps, Node(m));
    par := SetKey(par, ps, m[0].key);
    var orig := p.slot + |left|;
    if |l| > orig {
      Regroup(p, par, ps - 1, orig, h);
    } else {
      Regroup(p, par, ps, orig - |l|, h);
    }
    return 0;
  }

  /** The right half of push_nodes_for_insert. */
  method PushIntoRight(p: Path, ghost h: nat) returns (ret: int)
    requires p.NodeOk(h) && p.fs != [] && Last(p.fs).right != []
    modifies p
    ensures p.NodeOk(h) && SamePlace(p) && |p.fs| == |old(p.fs)|
    ensures Count(Last(p.fs)) == Count(Last(old(p.fs)))
    ensures ret == if old(RightTakes(p.g.cap, Last(p.fs).right, |p.node.ptrs|)) then 0 else 1
    ensures ret == 1 ==> p.node == old(p.node) && p.fs == old(p.fs) && p.slot == old(p.slot)
  {
    hide FramesOk, Shape, Grand, FlatPtrs, Before, After, PtrsOk, PushRightCount, Wrap, Run, Splice, Kids;
    var par, ps := p.Parent(), p.ParentSlot();
    ParentOk(p.g, p.fs, p.node, h);
    ChildNode(p.g, par, ps, h);
    ChildNode(p.g, par, ps + 1, h);
    var right, mid := par[ps+1].child.ptrs, p.node.ptrs;
    if |right| >= p.g.cap - 1 { return 1; }
    var wret, r, m := BalanceNodeRight(p.g.cap, right, mid);
    if wret != 0 { return 1; }
    MoveRight(mid, |mid| - PushRightCount(p.g.cap, |right|, |mid|), right, []);
    GrandPair(par, ps);
    ReplaceRun(p.g, par, ps, ps + 2, m, r, [], h);
    RunPlace(par, ps, ps + 2, m, r, []);
    WroteTwo(par, ps, m, r);
    par := SetChild(SetChild(par, ps, Node(m)), ps + 1, Node(r));
    par := SetKey(par, ps + 1, r[0].key);
    var orig := p.slot;
    if |m| <= orig {
      Regroup(p, par, ps + 1, orig - |m|, h);
    } else {
      Regroup(p, par, ps, orig, h);
    }
    return 0;
  }

  /** push_nodes_for_insert: make room in a nearly full node by pushing into a
      sibling.  0 if a push happened, 1 if nothing changed. */
  method PushNodesForInsert(p: Path, ghost h: nat) returns (ret: int)
    requires p.NodeOk(h)
    modifies p
    ensures p.NodeOk(h) && SamePlace(p) && |p.fs| == |old(p.fs)|
    ensures p.fs != [] ==> Count(Last(p.fs)) == Count(Last(old(p.fs)))
    ensures ret == if old(p.fs != [] && (LeftTakes(p.g.cap, Last(p.fs).left, |p.node.ptrs|)
                                         || RightTakes(p.g.cap, Last(p.fs).right, |p.node.ptrs|))) then 0 else 1
    ensures ret == 1 ==> p.node == old(p.node)
  {
    hide FramesOk, Shape, Grand, FlatPtrs, Before, After, PtrsOk, PushLeftCount, PushRightCount;
    if p.fs == [] { return 1; }
    if Last(p.fs).left != [] {
      ret := PushIntoLeft(p, h);
      if ret == 0 { return; }
    }
    if Last(p.fs).right != [] {
      ret := PushIntoRight(p, h);
      return;
    }
    return 1;
  }

  lemma LeavesEight(cap: nat, d: nat, s: nat)
    ensures s - PushLeftCount(cap, d, s, false) >= Min(s, 8)
  {
  }

  lemma NoFrames()
    ensures Before([]) == [] && After([]) == []
  {
  }

  /** The split itself: the upper half of the pairs moves to a new node, whose
      pair insert_ptr puts next in the parent. */
  method HalveNode(p: Path, ghost h: nat)
    requires p.NodeOk(h) && p.fs != [] && |p.node.ptrs| >= 2 && Count(Last(p.fs)) < p.g.cap
    modifies p
    ensures p.NodeOk(h) && SamePlace(p) && |p.fs| == |old(p.fs)|
    ensures Count(Last(p.fs)) == Count(Last(old(p.fs))) + 1
    ensures var c, mid := old(p.node).ptrs, (|old(p.node).ptrs| + 1) / 2;
            && p.node.ptrs == (if mid <= old(p.slot) then c[mid..] else c[..mid])
            && p.slot == old(p.slot) - (if mid <= old(p.slot) then mid else 0)
  {
    hide FramesOk, Shape, Grand, FlatPtrs, Before, After, PtrsOk, Wrap, Run, Splice, Kids;
    var c := p.node.ptrs;
    var mid := (|c| + 1) / 2;
    var par, ps := p.Parent(), p.ParentSlot();
    ParentOk(p.g, p.fs, p.node, h);
    ChildNode(p.g, par, ps, h);
    GrandOne(par[ps]);
    assert par[ps..ps+1] == [par[ps]] && c[..mid] + c[mid..] + [] == c;
    ReplaceRun(p.g, par, ps, ps + 1, c[..mid], c[mid..], [], h);
    RunPlace(par, ps, ps + 1, c[..mid], c[mid..], []);
    WroteSplit(par, ps, c[..mid], c[mid..]);
    par := SetChild(par, ps, Node(c[..mid]));
    par := InsertPtr(par, ps + 1, c[mid..][0].key, Node(c[mid..]));
    if p.slot >= mid {
      Regroup(p, par, ps + 1, p.slot - mid, h);
    } else {
      Regroup(p, par, ps, p.slot, h);
    }
  }

  /** split_node: give a nearly full node room, by pushing into a sibling or by
      splitting it in two and inserting the new half in the parent, which has
      room for it. */
  method SplitNode(p: Path, ghost h: nat)
    requires p.NodeOk(h) && |p.node.ptrs| >= p.g.cap - 3 && p.g.cap >= 5
    requires p.fs != [] ==> Count(Last(p.fs)) < p.g.cap
    modifies p
    ensures p.NodeOk(h) && SamePlace(p) && |p.node.ptrs| <= p.g.cap - 2
    ensures |p.fs| == if old(p.fs) == [] then 1 else |old(p.fs)|
  {
    hide FramesOk, Shape, Grand, FlatPtrs, Before, After, PtrsOk;
    NodeAtMost(p, h);
    if p.fs == [] {
      InsertNewRoot(p, h);
      NoFrames();
    } else {
      var ret := PushNodesForInsert(p, h);
      if ret == 0 && |p.node.ptrs| < p.g.cap - 3 { return; }
      NodeAtMost(p, h);
    }
    HalveNode(p, h);
  }

  lemma NodeAtMost(p: Path, h: nat)
    requires p.NodeOk(h)
    ensures |p.node.ptrs| <= p.g.cap
  {
    ShapeParts(p.g, p.node, h);
  }

  lemma NothingGrand()
    ensures Grand([]) == []
  {
  }

  lemma ThreeSlices(par: seq<Ptr>, i: nat, k: nat, j: nat)
    requires i <= k < j <= |par|
    ensures par[i..j] == par[i..k] + par[k..k+1] + par[k+1..j]
  {
  }

  lemma GrandSlice(par: seq<Ptr>, k: nat)
    requires k <= |par|
    ensures Grand(par[k..k]) == [] && (k < |par| ==> Grand(par[k..k+1]) == Kids(par[k]))
  {
    hide Grand, Kids;
    NothingGrand();
    assert par[k..k] == [];
    if k < |par| {
      GrandOne(par[k]);
      assert par[k..k+1] == [par[k]];
    }
  }

  /** A node and its existing neighbours as one run. */
  lemma GrandRun(par: seq<Ptr>, ps: nat, i: nat, j: nat, left: seq<Ptr>, mid: seq<Ptr>, right: seq<Ptr>)
    requires ps < |par| && mid == Kids(par[ps])
    requires if ps > 0 then i == ps - 1 && left == Kids(par[ps-1]) else i == ps && left == []
    requires if ps + 1 < |par| then j == ps + 2 && right == Kids(par[ps+1]) else j == ps + 1 && right == []
    ensures Grand(par[i..j]) == left + mid + right
    ensures |Grand(par[..ps])| == |Grand(par[..i])| + |left|
  {
    hide Grand, Kids;
    ThreeSlices(par, i, ps, j);
    GrandConcat(par[i..ps] + par[ps..ps+1], par[ps+1..j]);
    GrandConcat(par[i..ps], par[ps..ps+1]);
    GrandSlice(par, i);
    GrandSlice(par, ps);
    GrandSlice(par, ps + 1);
    if ps > 0 { GrandNext(par, ps - 1); }
  }

  /** balance_level: top-down rebalancing before a deletion.  The root gives way
      to its only child (`promoted`); any other node that is at most a quarter
      full is merged with, or refilled from, its siblings. */
  method BalanceLevel(p: Path, ghost h: nat) returns (ret: int, promoted: bool)
    requires p.NodeOk(h) && p.g.cap >= 10
    requires p.fs != [] ==> Count(Last(p.fs)) >= 2
    modifies p
    ensures ret == 0
    ensures promoted <==> old(p.fs) == [] && |old(p.node).ptrs| == 1
    ensures promoted ==> p.fs == [] && p.node == old(p.node).ptrs[0].child
    ensures !promoted && (old(p.fs) == [] || |old(p.node).ptrs| > p.g.cap / 4) ==>
              p.fs == old(p.fs) && p.node == old(p.node)
    ensures !promoted ==> p.NodeOk(h) && SamePlace(p) && |p.node.ptrs| >= 2 && |p.fs| == |old(p.fs)|
  {
    hide FramesOk, Shape, Grand, FlatPtrs, Before, After, PtrsOk, Wrap, Run, Splice, Kids;
    if p.fs == [] {
      if |p.node.ptrs| != 1 { return 0, false; }
      p.node := p.node.ptrs[0].child;
      return 0, true;
    }
    if |p.node.ptrs| > p.g.cap / 4 { return 0, false; }
    var par, ps := p.Parent(), p.ParentSlot();
    ParentOk(p.g, p.fs, p.node, h);
    ChildNode(p.g, par, ps, h);
    var hasLeft, hasRight := ps > 0, ps + 1 < |par|;
    if hasLeft { ChildNode(p.g, par, ps - 1, h); }
    if hasRight { ChildNode(p.g, par, ps + 1, h); }
    var left := if hasLeft then par[ps-1].child.ptrs else [];
    var right := if hasRight then par[ps+1].child.ptrs else [];
    var l, m, r;
    ret, l, m, r := BalanceThree(p.g.cap, left, p.node.ptrs, right, hasLeft, hasRight);
    var i := if hasLeft then ps - 1 else ps;
    var j := if hasRight then ps + 2 else ps + 1;
    GrandRun(par, ps, i, j, left, p.node.ptrs, right);
    ReplaceRun(p.g, par, i, j, l, m, r, h);
    RunPlace(par, i, j, l, m, r);
    SameFirst(left, p.node.ptrs, right, l, m, r);
    par := WriteBack(par, ps, l, m, r);
    var orig := p.slot + |left|;
    if hasLeft && |l| > orig {
      Regroup(p, par, ps - 1, orig, h);
    } else {
      Regroup(p, par, ps, orig - |l|, h);
    }
    return 0, false;
  }
}
