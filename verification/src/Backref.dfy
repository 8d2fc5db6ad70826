/** The backref cache of backref.c: nodes on adjacent levels joined by edges, and
    its release, which works upwards from the nodes without children. */
module Backref {
  import opened Prelude

  /** `upper` and `lower` are the lists of edges to parents and to children. */
  datatype Node = Node(level: nat, upper: seq<nat>, lower: seq<nat>, lowest: bool, detached: bool)

  datatype Edge = Edge(lower: nat, upper: nat)

  /** Nodes and edges by address, and the two lists nodes can be on.  (A childless
      node is on `leaves` through its otherwise unused list of children.) */
  datatype Graph = Graph(nodes: map<nat, Node>, edges: map<nat, Edge>, leaves: seq<nat>, detached: seq<nat>)

  // ---- Well-formed caches ----

  ghost predicate EdgeOk(g: Graph, e: nat)
    requires e in g.edges
  {
    var lo, up := g.edges[e].lower, g.edges[e].upper;
    && lo in g.nodes && up in g.nodes && g.nodes[up].level == g.nodes[lo].level + 1
    && e in g.nodes[lo].upper && e in g.nodes[up].lower
  }

  ghost predicate NodeOk(g: Graph, n: nat)
    requires n in g.nodes
  {
    var x := g.nodes[n];
    && NoDup(x.upper) && (forall e :: e in x.upper ==> e in g.edges && g.edges[e].lower == n)
    && NoDup(x.lower) && (forall e :: e in x.lower ==> e in g.edges && g.edges[e].upper == n)
    && (x.detached ==> x.upper == [] && x.lower == [])
    && (x.lowest <==> n in g.leaves) && (n in g.leaves <==> x.lower == [] && !x.detached)
    && (x.detached <==> n in g.detached)
  }

  /** Edges join adjacent levels and are on the lists of both ends, childless nodes
      are on `leaves`, and detached nodes have no edges. */
  ghost predicate Ok(g: Graph) {
    && (forall e :: e in g.edges ==> EdgeOk(g, e))
    && (forall n :: n in g.nodes ==> NodeOk(g, n))
    && NoDup(g.leaves) && (forall n :: n in g.leaves ==> n in g.nodes)
    && NoDup(g.detached) && (forall n :: n in g.detached ==> n in g.nodes)
  }

  lemma EdgeAt(g: Graph, e: nat)
    requires Ok(g) && e in g.edges
    ensures EdgeOk(g, e)
  {
  }

  lemma NodeAt(g: Graph, n: nat)
    requires Ok(g) && n in g.nodes
    ensures NodeOk(g, n)
  {
  }

  lemma Childless(g: Graph, n: nat)
    requires Ok(g) && n in g.nodes && (g.nodes[n].lowest || g.nodes[n].detached)
    ensures g.nodes[n].lower == []
  {
    assert NodeOk(g, n);
  }

  lemma NoDupTail(s: seq<nat>)
    requires NoDup(s) && s != []
    ensures NoDup(s[1..]) && forall x :: x in s[1..] <==> x in s && x != s[0]
  {
    assert s == [s[0]] + s[1..];
  }

  lemma Nothing()
    ensures NoDup<nat>([]) && Elems<nat>([]) == {}
  {
  }

  lemma One(n: nat)
    ensures NoDup([n]) && Elems([n]) == {n}
  {
  }

  lemma JoinNoDup(a: seq<nat>, b: seq<nat>)
    ensures Elems(a + b) == Elems(a) + Elems(b)
    ensures NoDup(a) && NoDup(b) && Elems(a) !! Elems(b) ==> NoDup(a + b)
  {
    if NoDup(a) && NoDup(b) && Elems(a) !! Elems(b) {
      forall i, j | 0 <= i < j < |a + b| ensures (a + b)[i] != (a + b)[j] {
        if i < |a| <= j { assert a[i] in Elems(a) && b[j - |a|] in Elems(b); }
      }
    }
  }

  lemma Assoc(a: seq<nat>, b: seq<nat>, c: seq<nat>)
    ensures a + (b + c) == (a + b) + c
  {
  }

  lemma SizeWithout<V>(m: map<nat, V>, k: nat)
    requires k in m
    ensures |m - {k}| == |m| - 1
  {
    assert (m - {k}).Keys == m.Keys - {k};
    assert |(m - {k}).Keys| == |m - {k}| && |m.Keys| == |m|;
  }

  lemma SameSize<V>(m: map<nat, V>, m': map<nat, V>)
    requires m.Keys == m'.Keys
    ensures |m| == |m'|
  {
    assert |m| == |m.Keys| && |m'| == |m'.Keys|;
  }

  lemma LeavesNoDup(g: Graph)
    requires Ok(g)
    ensures NoDup(g.leaves)
  {
  }

  // ---- Removing an edge, and a node ----

  /** One round of apfs_backref_cleanup_node: the first edge to a parent goes, and a
      parent left without children joins the leaves. */
  function Unlink(g: Graph, n: nat): Graph
    requires n in g.nodes && g.nodes[n].upper != [] && g.nodes[n].upper[0] in g.edges
    requires g.edges[g.nodes[n].upper[0]].upper in g.nodes
  {
    var e := g.nodes[n].upper[0];
    var u := g.edges[e].upper;
    var nodes := g.nodes[n := g.nodes[n].(upper := g.nodes[n].upper[1..])];
    var rest := Without(nodes[u].lower, e);
    if rest == [] then
      Graph(nodes[u := nodes[u].(lower := rest, lowest := true)], g.edges - {e}, g.leaves + [u], g.detached)
    else
      Graph(nodes[u := nodes[u].(lower := rest)], g.edges - {e}, g.leaves, g.detached)
  }

  ghost predicate Unlinked(g: Graph, n: nat, g': Graph) {
    && n in g.nodes && g.nodes[n].upper != [] && g.nodes[n].upper[0] in g.edges
    && g.edges[g.nodes[n].upper[0]].upper in g.nodes && g' == Unlink(g, n)
  }

  /** apfs_backref_drop_node. */
  function Drop(g: Graph, n: nat): Graph {
    Graph(g.nodes - {n}, g.edges, Without(g.leaves, n), Without(g.detached, n))
  }

  lemma UnlinkReady(g: Graph, n: nat)
    requires Ok(g) && n in g.nodes && g.nodes[n].upper != []
    ensures var e := g.nodes[n].upper[0];
            && e in g.edges && g.edges[e].lower == n && g.edges[e].upper in g.nodes && g.edges[e].upper != n
            && e in g.nodes[g.edges[e].upper].lower && !g.nodes[g.edges[e].upper].detached
            && g.edges[e].upper !in g.leaves
  {
    var e := g.nodes[n].upper[0];
    assert NodeOk(g, n);
    assert e in g.nodes[n].upper;
    assert EdgeOk(g, e);
    assert NodeOk(g, g.edges[e].upper);
  }

  lemma UnlinkEdge(g: Graph, n: nat, x: nat)
    requires Ok(g) && n in g.nodes && g.nodes[n].upper != []
    requires g.nodes[n].upper[0] in g.edges && g.edges[g.nodes[n].upper[0]].upper in g.nodes
    requires x in Unlink(g, n).edges
    ensures EdgeOk(Unlink(g, n), x)
  {
    hide Ok, NoDup;
    UnlinkReady(g, n);
    var e := g.nodes[n].upper[0];
    var u := g.edges[e].upper;
    EdgeAt(g, x);
    NodeAt(g, u);
    WithoutIn(g.nodes[u].lower, e);
    assert g.nodes[n].upper == [e] + g.nodes[n].upper[1..];
  }

  lemma UnlinkNode(g: Graph, n: nat, m: nat)
    requires Ok(g) && n in g.nodes && g.nodes[n].upper != []
    requires g.nodes[n].upper[0] in g.edges && g.edges[g.nodes[n].upper[0]].upper in g.nodes
    requires m in Unlink(g, n).nodes
    ensures NodeOk(Unlink(g, n), m)
  {
    hide Ok, NoDup;
    UnlinkReady(g, n);
    var e := g.nodes[n].upper[0];
    var u := g.edges[e].upper;
    NodeAt(g, m);
    if m == u {
      WithoutIn(g.nodes[u].lower, e);
    } else if m == n {
      NoDupTail(g.nodes[n].upper);
    } else {
      assert Unlink(g, n).nodes[m] == g.nodes[m];
    }
  }

  lemma UnlinkOk(g: Graph, n: nat)
    requires Ok(g) && n in g.nodes && g.nodes[n].upper != []
    requires g.nodes[n].upper[0] in g.edges && g.edges[g.nodes[n].upper[0]].upper in g.nodes
    ensures Ok(Unlink(g, n))
  {
    UnlinkReady(g, n);
    var e := g.nodes[n].upper[0];
    var u, g' := g.edges[e].upper, Unlink(g, n);
    assert NodeOk(g, n) && NodeOk(g, u);
    WithoutIn(g.nodes[u].lower, e);
    Snoc(g.leaves, u);
    forall x | x in g'.edges ensures EdgeOk(g', x) { UnlinkEdge(g, n, x); }
    forall m | m in g'.nodes ensures NodeOk(g', m) { UnlinkNode(g, n, m); }
  }

  lemma DropOk(g: Graph, n: nat)
    requires Ok(g) && n in g.nodes && g.nodes[n].upper == [] && g.nodes[n].lower == []
    ensures Ok(Drop(g, n))
  {
    var g' := Drop(g, n);
    WithoutIn(g.leaves, n);
    WithoutIn(g.detached, n);
    forall e | e in g'.edges ensures EdgeOk(g', e) { assert EdgeOk(g, e); }
    forall m | m in g'.nodes ensures NodeOk(g', m) { assert NodeOk(g, m); }
  }

  // ---- Nothing can be left over ----

  /** Going down from any node ends at a leaf or a detached node. */
  lemma {:induction false} SomeLeaf(g: Graph, n: nat)
    requires Ok(g) && n in g.nodes
    ensures g.leaves != [] || g.detached != []
    decreases g.nodes[n].level
  {
    assert NodeOk(g, n);
    var x := g.nodes[n];
    if x.lower != [] {
      var e := x.lower[0];
      assert e in x.lower;
      assert EdgeOk(g, e);
      SomeLeaf(g, g.edges[e].lower);
    }
  }

  lemma EdgesNeedNodes(g: Graph)
    requires Ok(g)
    ensures g.edges != map[] ==> g.nodes != map[]
  {
    if g.edges != map[] {
      var e :| e in g.edges;
      assert EdgeOk(g, e);
    }
  }

  /** A cache with neither leaves nor detached nodes is empty. */
  lemma Exhausted(g: Graph)
    requires Ok(g) && g.leaves == [] && g.detached == []
    ensures g.nodes == map[] && g.edges == map[]
  {
    EdgesNeedNodes(g);
    if g.nodes != map[] {
      var n :| n in g.nodes;
      SomeLeaf(g, n);
    }
  }

  // ---- Adding nodes and edges, and the books of the release ----

  lemma NewNodeOk(g: Graph, n: nat, level: nat)
    requires Ok(g) && n !in g.nodes
    ensures Ok(Graph(g.nodes[n := Node(level, [], [], true, false)], g.edges, g.leaves + [n], g.detached))
  {
    hide NoDup;
    var g' := Graph(g.nodes[n := Node(level, [], [], true, false)], g.edges, g.leaves + [n], g.detached);
    Snoc(g.leaves, n);
    Nothing();
    forall e | e in g.edges ensures EdgeOk(g', e) { assert EdgeOk(g, e); }
    forall m | m in g'.nodes ensures NodeOk(g', m) { assert m != n ==> NodeOk(g, m); }
  }

  /** Nodes keep their level and whether they are detached. */
  ghost predicate SameLevels(a: map<nat, Node>, b: map<nat, Node>) {
    forall m :: m in b ==> m in a && b[m].level == a[m].level && b[m].detached == a[m].detached
  }

  lemma LevelsTrans(a: map<nat, Node>, b: map<nat, Node>, c: map<nat, Node>)
    ensures SameLevels(a, a) && (SameLevels(a, b) && SameLevels(b, c) ==> SameLevels(a, c))
  {
  }

  lemma UnlinkLevels(g: Graph, n: nat)
    requires n in g.nodes && g.nodes[n].upper != [] && g.nodes[n].upper[0] in g.edges
    requires g.edges[g.nodes[n].upper[0]].upper in g.nodes
    ensures SameLevels(g.nodes, Unlink(g, n).nodes)
  {
  }

  lemma LevelsWithout(a: map<nat, Node>, b: map<nat, Node>, n: nat)
    requires SameLevels(a, b)
    ensures SameLevels(a, b - {n})
  {
  }

  lemma Freed(edges: map<nat, Edge>, freed: seq<nat>, up: seq<nat>, k: nat)
    requires k < |up|
    ensures edges - Elems(up[..k]) - {up[k]} == edges - Elems(up[..k+1])
    ensures freed + up[..k] + [up[k]] == freed + up[..k+1] && up[k..][1..] == up[k+1..]
  {
    hide Elems;
    assert up[..k+1] == up[..k] + [up[k]];
    JoinNoDup(up[..k], [up[k]]);
    One(up[k]);
  }

  lemma BalanceStep(f: seq<nat>, more: seq<nat>, left: set<nat>, all: set<nat>)
    requires NoDup(f) && Elems(f) !! left && Elems(f) + left == all && NoDup(more) && Elems(more) <= left
    ensures NoDup(f + more) && Elems(f + more) !! (left - Elems(more)) && Elems(f + more) + (left - Elems(more)) == all
  {
    hide NoDup, Elems;
    JoinNoDup(f, more);
  }

  lemma UpperEdges(g: Graph, n: nat)
    requires n in g.nodes && NodeOk(g, n)
    ensures NoDup(g.nodes[n].upper) && Elems(g.nodes[n].upper) <= g.edges.Keys
  {
  }

  lemma OnLists(g: Graph)
    requires Ok(g)
    ensures g.detached != [] ==> g.detached[0] in g.nodes && g.nodes[g.detached[0]].detached
    ensures g.leaves != [] ==> g.leaves[0] in g.nodes && g.nodes[g.leaves[0]].lowest
  {
    if g.detached != [] {
      assert g.detached[0] in g.detached;
      assert NodeOk(g, g.detached[0]);
    }
    if g.leaves != [] {
      assert g.leaves[0] in g.leaves;
      assert NodeOk(g, g.leaves[0]);
    }
  }

  lemma LinkNode(g: Graph, g': Graph, e: nat, lo: nat, up: nat, m: nat)
    requires Ok(g) && e !in g.edges && lo in g.nodes && up in g.nodes
    requires g.nodes[up].level == g.nodes[lo].level + 1 && !g.nodes[lo].detached && !g.nodes[up].detached
    requires g'.edges == g.edges[e := Edge(lo, up)] && g'.detached == g.detached
    requires g'.leaves == if g.nodes[up].lowest then Without(g.leaves, up) else g.leaves
    requires g'.nodes == g.nodes[lo := g.nodes[lo].(upper := g.nodes[lo].upper + [e])]
                                [up := g.nodes[up].(lower := g.nodes[up].lower + [e], lowest := false)]
    requires m in g'.nodes
    ensures NodeOk(g', m)
  {
    hide Ok, NoDup;
    NodeAt(g, m);
    NodeAt(g, up);
    LeavesNoDup(g);
    WithoutIn(g.leaves, up);
    JoinNoDup(g.nodes[m].upper, [e]);
    JoinNoDup(g.nodes[m].lower, [e]);
    One(e);
    assert e !in g.nodes[m].upper && e !in g.nodes[m].lower;
  }

  lemma LinkLists(g: Graph, g': Graph, up: nat)
    requires Ok(g) && g'.detached == g.detached && g.nodes.Keys == g'.nodes.Keys
    requires g'.leaves == if g.nodes.Keys != {} && g'.leaves != g.leaves then Without(g.leaves, up) else g.leaves
    requires forall m :: m in g'.nodes ==> NodeOk(g', m)
    requires forall x :: x in g'.edges ==> EdgeOk(g', x)
    ensures Ok(g')
  {
    WithoutIn(g.leaves, up);
  }

  lemma LinkOk(g: Graph, g': Graph, e: nat, lo: nat, up: nat)
    requires Ok(g) && e !in g.edges && lo in g.nodes && up in g.nodes
    requires g.nodes[up].level == g.nodes[lo].level + 1 && !g.nodes[lo].detached && !g.nodes[up].detached
    requires g'.edges == g.edges[e := Edge(lo, up)] && g'.detached == g.detached
    requires g'.leaves == if g.nodes[up].lowest then Without(g.leaves, up) else g.leaves
    requires g'.nodes == g.nodes[lo := g.nodes[lo].(upper := g.nodes[lo].upper + [e])]
                                [up := g.nodes[up].(lower := g.nodes[up].lower + [e], lowest := false)]
    ensures Ok(g')
  {
    hide Ok;
    forall m | m in g'.nodes ensures NodeOk(g', m) { LinkNode(g, g', e, lo, up, m); }
    forall x | x in g'.edges ensures EdgeOk(g', x) { if x != e { EdgeAt(g, x); } }
    LinkLists(g, g', up);
  }

  // ---- The cache ----

  class Cache {
    var nodes: map<nat, Node>
    var edges: map<nat, Edge>
    var leaves: seq<nat>
    var detached: seq<nat>
    var nrNodes: int
    var nrEdges: int
    // what has been freed, in order
    ghost var freedNodes: seq<nat>
    ghost var freedEdges: seq<nat>

    ghost function G(): Graph
      reads this
    {
      Graph(nodes, edges, leaves, detached)
    }

    ghost predicate Valid()
      reads this
    {
      Ok(G()) && nrNodes == |nodes| && nrEdges == |edges|
    }

    constructor ()
      ensures Valid() && nodes == map[] && edges == map[] && freedNodes == [] && freedEdges == []
    {
      nodes, edges, leaves, detached := map[], map[], [], [];
      nrNodes, nrEdges, freedNodes, freedEdges := 0, 0, [], [];
    }

    /** apfs_backref_alloc_node at an unused address, put on the leaves as a start
        node is. */
    method AddNode(n: nat, level: nat)
      requires Valid() && n !in nodes
      modifies this
      ensures Valid() && nodes == old(nodes)[n := Node(level, [], [], true, false)] && edges == old(edges)
      ensures freedNodes == old(freedNodes) && freedEdges == old(freedEdges)
    {
      hide Ok;
      NewNodeOk(G(), n, level);
      nodes := nodes[n := Node(level, [], [], true, false)];
      nrNodes := nrNodes + 1;
      leaves := leaves + [n];
    }

    /** apfs_backref_alloc_edge and both halves of apfs_backref_link_edge, to a parent
        already in the cache: the parent stops being a leaf. */
    method LinkEdge(e: nat, lower: nat, upper: nat)
      requires Valid() && e !in edges && lower in nodes && upper in nodes
      requires nodes[upper].level == nodes[lower].level + 1 && !nodes[lower].detached && !nodes[upper].detached
      modifies this
      ensures Valid() && edges == old(edges)[e := Edge(lower, upper)] && nodes.Keys == old(nodes.Keys)
      ensures nodes[lower].upper == old(nodes)[lower].upper + [e] && nodes[upper].lower == old(nodes)[upper].lower + [e]
      ensures freedNodes == old(freedNodes) && freedEdges == old(freedEdges)
    {
      hide Ok;
      ghost var g := G();
      nrEdges := nrEdges + 1;
      edges := edges[e := Edge(lower, upper)];
      nodes := nodes[lower := nodes[lower].(upper := nodes[lower].upper + [e])];
      if nodes[upper].lowest {
        leaves := Without(leaves, upper);
        nodes := nodes[upper := nodes[upper].(lowest := false)];
      }
      nodes := nodes[upper := nodes[upper].(lower := nodes[upper].lower + [e])];
      LinkOk(g, G(), e, lower, upper);
    }

    /** One round of the loop of apfs_backref_cleanup_node. */
    method UnlinkFirst(n: nat)
      requires Valid() && n in nodes && nodes[n].upper != []
      modifies this
      ensures Valid() && nodes.Keys == old(nodes.Keys) && edges == old(edges) - {old(nodes)[n].upper[0]}
      ensures nodes[n] == old(nodes)[n].(upper := old(nodes)[n].upper[1..]) && detached == old(detached)
      ensures Unlinked(old(G()), n, G()) && SameLevels(old(nodes), nodes)
      ensures freedNodes == old(freedNodes) && freedEdges == old(freedEdges) + [old(nodes)[n].upper[0]]
    {
      hide Ok, SameLevels, Without, NoDup;
      UnlinkReady(G(), n);
      UnlinkOk(G(), n);
      UnlinkLevels(G(), n);
      var e := nodes[n].upper[0];
      var upper := edges[e].upper;
      nodes := nodes[n := nodes[n].(upper := nodes[n].upper[1..])];
      nodes := nodes[upper := nodes[upper].(lower := Without(nodes[upper].lower, e))];
      // apfs_backref_free_edge
      SizeWithout(edges, e);
      nrEdges := nrEdges - 1;
      edges := edges - {e};
      freedEdges := freedEdges + [e];
      if nodes[upper].lower == [] {
        leaves := leaves + [upper];
        nodes := nodes[upper := nodes[upper].(lowest := true)];
      }
      assert G() == old(Unlink(G(), n));
    }

    /** apfs_backref_drop_node: a node must have no parents, and to be freed no
        children. */
    method DropNode(n: nat)
      requires Valid() && n in nodes && nodes[n].upper == [] && nodes[n].lower == []
      modifies this
      ensures Valid() && nodes == old(nodes) - {n} && edges == old(edges)
      ensures leaves == Without(old(leaves), n) && detached == Without(old(detached), n)
      ensures freedNodes == old(freedNodes) + [n] && freedEdges == old(freedEdges)
    {
      hide Ok, Without, NoDup;
      DropOk(G(), n);
      SizeWithout(nodes, n);
      leaves, detached := Without(leaves, n), Without(detached, n);
      nrNodes := nrNodes - 1;
      nodes := nodes - {n};
      freedNodes := freedNodes + [n];
    }

    /** apfs_backref_cleanup_node: exactly the node and its edges to parents are
        freed. */
    method CleanupNode(n: nat)
      requires Valid() && n in nodes && (nodes[n].lowest || nodes[n].detached)
      modifies this
      ensures Valid() && nodes.Keys == old(nodes.Keys) - {n}
      ensures edges == old(edges) - Elems(old(nodes)[n].upper)
      ensures detached == Without(old(detached), n)
      ensures SameLevels(old(nodes), nodes)
      ensures freedNodes == old(freedNodes) + [n] && freedEdges == old(freedEdges) + old(nodes)[n].upper
    {
      hide Ok, Elems, Without, NoDup, Unlinked, SameLevels;
      Childless(G(), n);
      LevelsTrans(nodes, nodes, nodes);
      ghost var up, k: nat := nodes[n].upper, 0;
      Nothing();
      assert up[..0] == [] && up[0..] == up;
      while nodes[n].upper != []
        invariant Valid() && nodes.Keys == old(nodes.Keys) && n in nodes && 0 <= k <= |up|
        invariant nodes[n] == old(nodes)[n].(upper := up[k..])
        invariant edges == old(edges) - Elems(up[..k]) && freedEdges == old(freedEdges) + up[..k]
        invariant freedNodes == old(freedNodes) && detached == old(detached)
        invariant SameLevels(old(nodes), nodes)
        decreases |nodes[n].upper|
      {
        ghost var before := nodes;
        UnlinkFirst(n);
        LevelsTrans(old(nodes), before, nodes);
        Freed(old(edges), old(freedEdges), up, k);
        k := k + 1;
      }
      assert up[..k] == up;
      LevelsWithout(old(nodes), nodes, n);
      DropNode(n);
    }

    /** apfs_backref_release_cache: it ends, every node and edge has been freed
        exactly once, and both counters are back at zero. */
    method ReleaseCache()
      requires Valid()
      modifies this
      ensures Valid() && nodes == map[] && edges == map[] && leaves == [] && detached == []
      ensures nrNodes == 0 && nrEdges == 0
      ensures old(freedNodes) <= freedNodes && old(freedEdges) <= freedEdges
      ensures var fn, fe := freedNodes[|old(freedNodes)|..], freedEdges[|old(freedEdges)|..];
              && NoDup(fn) && Elems(fn) == old(nodes.Keys) && NoDup(fe) && Elems(fe) == old(edges.Keys)
    {
      hide Ok, NoDup, Elems;
      ghost var ns, es := nodes.Keys, edges.Keys;
      ghost var fn, fe := [], [];
      Nothing();
      while detached != []
        invariant Valid() && Balance(fn, fe, ns, es)
        invariant freedNodes == old(freedNodes) + fn && freedEdges == old(freedEdges) + fe
        decreases |nodes|
      {
        OnLists(G());
        fn, fe := Cleanup(detached[0], fn, fe, ns, es, old(freedNodes), old(freedEdges));
      }
      while leaves != []
        invariant Valid() && Balance(fn, fe, ns, es) && detached == []
        invariant freedNodes == old(freedNodes) + fn && freedEdges == old(freedEdges) + fe
        decreases |nodes|
      {
        OnLists(G());
        fn, fe := Cleanup(leaves[0], fn, fe, ns, es, old(freedNodes), old(freedEdges));
      }
      Exhausted(G());
    }

    /** What has been freed so far and what is left make up what there was. */
    ghost predicate Balance(fn: seq<nat>, fe: seq<nat>, ns: set<nat>, es: set<nat>)
      reads this
    {
      && NoDup(fn) && Elems(fn) !! nodes.Keys && Elems(fn) + nodes.Keys == ns
      && NoDup(fe) && Elems(fe) !! edges.Keys && Elems(fe) + edges.Keys == es
    }

    /** One round of either loop of apfs_backref_release_cache. */
    method Cleanup(n: nat, ghost fn: seq<nat>, ghost fe: seq<nat>, ghost ns: set<nat>, ghost es: set<nat>,
                   ghost n0: seq<nat>, ghost e0: seq<nat>)
      returns (ghost fn': seq<nat>, ghost fe': seq<nat>)
      requires Valid() && Balance(fn, fe, ns, es) && n in nodes && (nodes[n].lowest || nodes[n].detached)
      requires freedNodes == n0 + fn && freedEdges == e0 + fe
      modifies this
      ensures Valid() && Balance(fn', fe', ns, es) && freedNodes == n0 + fn' && freedEdges == e0 + fe'
      ensures |nodes| < |old(nodes)| && detached == Without(old(detached), n)
    {
      hide Ok, NoDup, Elems, Without;
      NodeAt(G(), n);
      UpperEdges(G(), n);
      fn', fe' := fn + [n], fe + nodes[n].upper;
      One(n);
      BalanceStep(fn, [n], nodes.Keys, ns);
      BalanceStep(fe, nodes[n].upper, edges.Keys, es);
      SizeWithout(nodes, n);
      Assoc(n0, fn, [n]);
      Assoc(e0, fe, nodes[n].upper);
      CleanupNode(n);
      SameSize(nodes, old(nodes) - {n});
    }
  }
}
