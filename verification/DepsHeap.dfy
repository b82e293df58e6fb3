/** Adjacency maps whose node sets are objects edited in place, as deps/deps.go holds them. */
module DepsHeap {
  import opened Deps

  /** A node set: a Go map, shared by whoever holds it. */
  class Nodeset {
    var elems: set<Node>

    constructor (elems: set<Node>)
      ensures this.elems == elems
    {
      this.elems := elems;
    }
  }

  type Adjacency = map<Node, Nodeset>

  /** No two nodes share a set. */
  ghost predicate Injective(m: Adjacency) {
    forall a, b :: a in m && b in m && a != b ==> m[a] != m[b]
  }

  /** The edges an adjacency map holds at the moment. */
  ghost function Edges(m: Adjacency): Depmap
    reads m.Values
  {
    map a | a in m :: m[a].elems
  }

  /** The same sets, some of them let go. */
  ghost predicate PartOf(r: Adjacency, m: Adjacency) {
    forall a :: a in r ==> a in m && r[a] == m[a]
  }

  // ---- on values ---------------------------------------------------------------------------------

  /** removeFromDepmap: an entry of one element is dropped whole. */
  function RemoveFrom(m: Depmap, key: Node, node: Node): (r: Depmap)
    requires Edge(m, key, node)
    ensures forall a, b :: Edge(r, a, b) <==> Edge(m, a, b) && !(a == key && b == node)
    ensures (forall a :: a in m ==> m[a] != {}) ==> forall a :: a in r ==> r[a] != {}
  {
    if |m[key]| == 1 then
      OnlyElement(m[key], node);
      m - {key}
    else
      MoreThanOne(m[key], node);
      m[key := m[key] - {node}]
  }

  lemma MoreThanOne(s: set<Node>, x: Node)
    requires x in s && |s| != 1
    ensures s - {x} != {}
  {
    assert |s - {x}| == |s| - 1;
  }

  lemma OnlyElement(s: set<Node>, x: Node)
    requires |s| == 1 && x in s
    ensures s == {x}
  {
    assert |s - {x}| == 0;
  }

  // ---- in place ----------------------------------------------------------------------------------

  /** removeFromDepmap: the set of the key loses the node, or the key loses its set. */
  method RemoveNode(m: Adjacency, key: Node, node: Node) returns (r: Adjacency)
    requires Injective(m) && Edge(Edges(m), key, node)
    modifies m[key]
    ensures PartOf(r, m) && Edges(r) == RemoveFrom(old(Edges(m)), key, node)
  {
    if |m[key].elems| == 1 {
      r := m - {key};
    } else {
      m[key].elems := m[key].elems - {node};
      r := m;
    }
  }

  /** Removes one node from the sets of the listed keys. */
  method DropEdges(m: Adjacency, keys: set<Node>, node: Node) returns (r: Adjacency)
    requires Injective(m) && forall k :: k in keys ==> Edge(Edges(m), k, node)
    requires forall a :: a in Edges(m) ==> Edges(m)[a] != {}
    modifies m.Values
    ensures PartOf(r, m)
    ensures forall a, b :: Edge(Edges(r), a, b) <==> Edge(old(Edges(m)), a, b) && !(b == node && a in keys)
    ensures forall a :: a in Edges(r) ==> Edges(r)[a] != {}
  {
    hide Edges, RemoveFrom;
    r := m;
    var todo := keys;
    while todo != {}
      invariant todo <= keys && PartOf(r, m)
      invariant forall a, b :: Edge(Edges(r), a, b) <==> Edge(old(Edges(m)), a, b) && !(b == node && a in keys - todo)
      invariant forall a :: a in Edges(r) ==> Edges(r)[a] != {}
    {
      var k :| k in todo;
      assert Edge(Edges(r), k, node);
      KeysOf(r);
      r := RemoveNode(r, k, node);
      todo := todo - {k};
    }
  }

  /** No set serves in both maps. */
  ghost predicate Apart(m: Adjacency, n: Adjacency) {
    forall a, b :: a in m && b in n ==> m[a] != n[b]
  }

  ghost predicate NoneEmpty(m: Depmap) {
    forall a :: a in m ==> m[a] != {}
  }

  /** The three parts of a graph share no set. */
  ghost predicate Disjoint(n: Nodeset, d: Adjacency, r: Adjacency) {
    Injective(d) && Injective(r) && Apart(d, r) && n !in d.Values && n !in r.Values
  }

  /** The sets of a graph. */
  ghost function Sets(n: Nodeset, d: Adjacency, r: Adjacency): set<Nodeset> {
    {n} + d.Values + r.Values
  }

  lemma DisjointMeans(n: Nodeset, d: Adjacency, r: Adjacency)
    requires Disjoint(n, d, r)
    ensures Injective(d) && Injective(r) && Apart(d, r) && Apart(r, d)
    ensures d.Values !! r.Values && n !in d.Values && n !in r.Values
    ensures Sets(n, d, r) - {n} == d.Values + r.Values && Disjoint(n, r, d) && Sets(n, d, r) == Sets(n, r, d)
  {
  }

  lemma PartStaysDisjoint(n: Nodeset, d: Adjacency, r: Adjacency, d': Adjacency, r': Adjacency)
    requires Disjoint(n, d, r) && PartOf(d', d) && PartOf(r', r)
    ensures Disjoint(n, d', r') && Sets(n, d', r') <= Sets(n, d, r)
  {
  }

  /** One key has changed its set, or got one that was nowhere in use. */
  lemma MoreStaysDisjoint(n: Nodeset, d: Adjacency, r: Adjacency, d': Adjacency, key: Node)
    requires Disjoint(n, d, r) && Injective(d') && PartOf(d, d') && d'.Keys == d.Keys + {key}
    requires key !in d ==> d'[key] !in Sets(n, d, r)
    ensures Disjoint(n, d', r) && Sets(n, d', r) <= Sets(n, d, r) + {d'[key]}
  {
  }

  /** One half of remove: the edges to a node, found through the reverse map, and its own entry there. */
  method DropNode(m: Adjacency, reverse: Adjacency, node: Node) returns (m': Adjacency, reverse': Adjacency)
    requires Injective(m) && Apart(m, reverse) && NoneEmpty(Edges(m)) && NoneEmpty(Edges(reverse))
    requires forall a :: Edge(Edges(reverse), node, a) ==> Edge(Edges(m), a, node)
    requires forall a :: Edge(Edges(m), a, node) ==> Edge(Edges(reverse), node, a)
    modifies m.Values
    ensures PartOf(m', m) && PartOf(reverse', reverse) && NoneEmpty(Edges(m')) && NoneEmpty(Edges(reverse'))
    ensures Injective(m') && Apart(m', reverse')
    ensures forall a, b :: Edge(Edges(m'), a, b) <==> Edge(old(Edges(m)), a, b) && b != node
    ensures forall a, b :: Edge(Edges(reverse'), a, b) <==> Edge(old(Edges(reverse)), a, b) && a != node
  {
    var keys := if node in reverse then reverse[node].elems else {};
    forall a ensures a in keys <==> Edge(Edges(reverse), node, a) {}
    m' := DropEdges(m, keys, node);
    reverse' := reverse - {node};
    assert Edges(reverse) == old(Edges(reverse));
    assert Edges(reverse') == Edges(reverse) - {node};
  }

  lemma KeysOf(m: Adjacency)
    ensures forall a :: a in Edges(m) <==> a in m
  {
  }

  /** addNodeToNodeset: the set of the key gains the node; a key without a set gets one. */
  method AddNode(m: Adjacency, key: Node, node: Node) returns (r: Adjacency)
    requires Injective(m)
    modifies if key in m then {m[key]} else {}
    ensures Injective(r) && r.Keys == m.Keys + {key} && (key !in m ==> fresh(r[key])) && PartOf(m, r)
    ensures Edges(r) == AddEdge(old(Edges(m)), key, node)
  {
    if key in m {
      m[key].elems := m[key].elems + {node};
      r := m;
    } else {
      var nodes := new Nodeset({node});
      r := m[key := nodes];
      assert {} + {node} == {node};
      assert Edges(r) == old(Edges(m))[key := {node}];
    }
  }

  /** copyDepmap: every set is copied too. */
  method CopyMap(m: Adjacency) returns (r: Adjacency)
    ensures (forall a :: a in r ==> fresh(r[a])) && Injective(r) && Edges(r) == Edges(m)
  {
    r := map[];
    var todo := m.Keys;
    while todo != {}
      invariant todo <= m.Keys && r.Keys == m.Keys - todo
      invariant (forall a :: a in r ==> fresh(r[a])) && Injective(r)
      invariant forall a :: a in r ==> r[a].elems == m[a].elems
    {
      var k :| k in todo;
      var copy := new Nodeset(m[k].elems);
      r, todo := r[k := copy], todo - {k};
    }
  }

  /** clone: a copy of every set. */
  method CopyAll(n: Nodeset, d: Adjacency, r: Adjacency) returns (n': Nodeset, d': Adjacency, r': Adjacency)
    ensures fresh(Sets(n', d', r')) && Disjoint(n', d', r')
    ensures n'.elems == n.elems && Edges(d') == Edges(d) && Edges(r') == Edges(r)
  {
    hide Edges, Injective;
    d' := CopyMap(d);
    label L:
    r' := CopyMap(r);
    assert Edges(d') == old@L(Edges(d'));
    n' := new Nodeset(n.elems);
  }
}
