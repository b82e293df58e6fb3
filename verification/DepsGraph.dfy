/** The dependency graph object: two mirrored adjacency maps changed together (deps/deps.go). */
module DepsGraph {
  import opened Values
  import opened Deps
  import opened DepsHeap
  import opened DepsLayers

  datatype Outcome = Added | SelfReference | Circular

  /** The two maps are exact inverses over the nodes, with no empty entries. */
  ghost predicate Mirrored(nodes: set<Node>, deps: Depmap, rdeps: Depmap) {
    && (forall a, b :: Edge(deps, a, b) <==> Edge(rdeps, b, a))
    && (forall a, b :: Edge(deps, a, b) ==> a in nodes && b in nodes)
    && NoneEmpty(deps) && NoneEmpty(rdeps)
  }

  /** A node outside the graph reaches nothing. */
  lemma UnknownReachesNothing(m: Depmap, nodes: set<Node>, a: Node, b: Node)
    requires (forall x, y :: Edge(m, x, y) ==> x in nodes) && a !in nodes
    ensures !Reaches(m, a, b)
  {
    forall p | |p| >= 2 && p[0] == a ensures !IsPath(m, p) {
      assert !Edge(m, p[0], p[1]);
    }
  }

  lemma SmallerSet(a: set<Node>, b: set<Node>, x: Node)
    requires a <= b && x in b && x !in a
    ensures |a| < |b|
  {
    assert a <= b - {x};
    SubsetSize(a, b - {x});
  }

  /** Reaching along the reversed edges is reaching backwards. */
  lemma MirrorReaches(nodes: set<Node>, deps: Depmap, rdeps: Depmap, a: Node, b: Node)
    requires Mirrored(nodes, deps, rdeps)
    ensures Reaches(deps, a, b) <==> Reaches(rdeps, b, a)
  {
    if p :| IsPath(deps, p) && p[0] == a && p[|p| - 1] == b { ReversePath(deps, rdeps, p); }
    if p :| IsPath(rdeps, p) && p[0] == b && p[|p| - 1] == a { ReversePath(rdeps, deps, p); }
  }

  lemma ReversePath(m: Depmap, r: Depmap, p: seq<Node>)
    requires IsPath(m, p) && forall a, b :: Edge(m, a, b) ==> Edge(r, b, a)
    ensures Reaches(r, p[|p| - 1], p[0])
  {
    var q := seq(|p|, i requires 0 <= i < |p| => p[|p| - 1 - i]);
    forall i | 0 <= i < |q| - 1 ensures Edge(r, q[i], q[i + 1]) {
      assert Edge(m, p[|p| - 2 - i], p[|p| - 1 - i]);
    }
    assert IsPath(r, q) && q[0] == p[|p| - 1] && q[|q| - 1] == p[0];
  }

  /** The neighbours of one node that were not seen before are added and listed. */
  method Discover(next: Adjacency, from: Node, out: set<Node>, discovered: seq<Node>)
    returns (seen: set<Node>, found: seq<Node>)
    ensures seen == out + Neighbours(Edges(next), from)
    ensures forall x :: x in found <==> x in discovered || (x in seen && x !in out)
  {
    seen, found := out, discovered;
    var todo := if from in next then next[from].elems else {};
    ghost var all := todo;
    assert all == Neighbours(Edges(next), from);
    while todo != {}
      invariant todo <= all && seen == out + (all - todo)
      invariant forall x :: x in found <==> x in discovered || (x in seen && x !in out)
    {
      var y :| y in todo;
      todo := todo - {y};
      if y !in seen { found := found + [y]; }
      seen := seen + {y};
    }
  }

  /** One layer of the search. */
  method DiscoverLayer(next: Adjacency, search: seq<Node>, out: set<Node>)
    returns (seen: set<Node>, discovered: seq<Node>)
    ensures out <= seen
    ensures forall y :: y in seen ==> y in out || exists x :: x in search && Edge(Edges(next), x, y)
    ensures forall x, y :: x in search && Edge(Edges(next), x, y) ==> y in seen
    ensures forall x :: x in discovered <==> x in seen && x !in out
  {
    seen, discovered := out, [];
    ghost var edges := Edges(next);
    for i := 0 to |search|
      invariant out <= seen
      invariant forall y :: y in seen ==> y in out || exists x :: x in search && Edge(edges, x, y)
      invariant forall j, y :: 0 <= j < i && Edge(edges, search[j], y) ==> y in seen
      invariant forall x :: x in discovered <==> x in seen && x !in out
    {
      seen, discovered := Discover(next, search[i], seen, discovered);
      assert forall y :: y in Neighbours(edges, search[i]) <==> Edge(edges, search[i], y);
    }
  }

  lemma MirrorEdges(nodes: set<Node>, deps: Depmap, rdeps: Depmap)
    requires Mirrored(nodes, deps, rdeps)
    ensures forall a, b :: Edge(deps, a, b) <==> Edge(rdeps, b, a)
  {
  }

  lemma MirrorEntries(nodes: set<Node>, deps: Depmap, rdeps: Depmap)
    requires Mirrored(nodes, deps, rdeps)
    ensures NoneEmpty(deps) && NoneEmpty(rdeps)
  {
  }

  lemma RemovedMirrored(nodes: set<Node>, deps: Depmap, rdeps: Depmap, node: Node, deps': Depmap, rdeps': Depmap)
    requires Mirrored(nodes, deps, rdeps)
    requires forall a, b :: Edge(deps', a, b) <==> Edge(deps, a, b) && a != node && b != node
    requires forall a, b :: Edge(rdeps', a, b) <==> Edge(rdeps, a, b) && a != node && b != node
    requires NoneEmpty(deps') && NoneEmpty(rdeps')
    ensures Mirrored(nodes - {node}, deps', rdeps')
  {
    hide Edge;
  }

  lemma NoEdgesNoCycle()
    ensures Acyclic(map[])
  {
    forall p | |p| >= 2 ensures !IsPath(map[], p) { assert !Edge(map[], p[0], p[1]); }
  }

  lemma ConnectedMirrored(nodes: set<Node>, deps: Depmap, rdeps: Depmap, child: Node, parent: Node)
    requires Mirrored(nodes, deps, rdeps)
    ensures Mirrored(nodes + {parent, child}, AddEdge(deps, child, parent), AddEdge(rdeps, parent, child))
  {
    hide Edge, AddEdge;
  }

  class Graph {
    var nodes: Nodeset
    var dependencies: Adjacency
    var dependents: Adjacency

    /** The sets the graph edits. */
    ghost function Repr(): set<Nodeset>
      reads this
    {
      Sets(nodes, dependencies, dependents)
    }

    /** No set serves twice. */
    ghost predicate Separate()
      reads this
    {
      Disjoint(nodes, dependencies, dependents)
    }

    ghost function Deps(): Depmap
      reads this, Repr()
    {
      Edges(dependencies)
    }

    ghost function Rdeps(): Depmap
      reads this, Repr()
    {
      Edges(dependents)
    }

    ghost predicate Consistent()
      reads this, Repr()
    {
      Separate() && Mirrored(nodes.elems, Deps(), Rdeps())
    }

    ghost predicate Valid()
      reads this, Repr()
    {
      Consistent() && Acyclic(Deps())
    }

    constructor ()
      ensures Valid() && nodes.elems == {} && Deps() == map[] && fresh(Repr())
    {
      nodes := new Nodeset({});
      dependencies, dependents := map[], map[];
      new;
      NoEdgesNoCycle();
    }

    /** clone: a graph of its own with the same edges, which shares no set with the original. */
    constructor Clone(g: Graph)
      ensures fresh(Repr()) && Separate()
      ensures nodes.elems == g.nodes.elems && Deps() == g.Deps() && Rdeps() == g.Rdeps()
    {
      hide Disjoint, Sets, Edges;
      var all, there, back := CopyAll(g.nodes, g.dependencies, g.dependents);
      nodes, dependencies, dependents := all, there, back;
    }

    /** buildTransitive: exactly the nodes reached from root by one or more edges; nothing for an unknown root. */
    method BuildTransitive(root: Node, next: Adjacency) returns (out: set<Node>)
      requires forall a, b :: Edge(Edges(next), a, b) ==> b in nodes.elems
      ensures root in nodes.elems ==> forall n :: n in out <==> Reaches(Edges(next), root, n)
      ensures root !in nodes.elems ==> out == {}
    {
      out := {};
      if root !in nodes.elems { return; }
      ghost var edges, all := Edges(next), nodes.elems;
      hide Reaches, IsPath, Edge;
      var search := [root];
      while search != []
        invariant out <= all
        invariant forall x :: x in search ==> x == root || x in out
        invariant forall x :: x in out ==> Reaches(edges, root, x)
        invariant forall x, y :: (x == root || x in out) && Edge(edges, x, y) ==> y in out || x in search
        decreases |all - out|, |search|
      {
        var seen, discovered := DiscoverLayer(next, search, out);
        forall y | y in seen && y !in out ensures y in all && Reaches(edges, root, y) {
          var x :| x in search && Edge(edges, x, y);
          EdgeReaches(edges, x, y);
          if x != root { ReachesTransitive(edges, root, x, y); }
        }
        if discovered != [] { SmallerSet(all - seen, all - out, discovered[0]); }
        else { assert seen == out; }
        out, search := seen, discovered;
      }
      forall n | Reaches(edges, root, n) ensures n in out { ClosedContains(edges, out, root, n); }
    }

    /** Whether child depends on parent, directly or not. */
    method DependsOn(child: Node, parent: Node) returns (r: bool)
      requires Consistent()
      ensures r <==> Reaches(Deps(), child, parent)
    {
      var deps := BuildTransitive(child, dependencies);
      r := parent in deps;
      if child !in nodes.elems { UnknownReachesNothing(Deps(), nodes.elems, child, parent); }
    }

    /** The same question asked of the reversed edges. */
    method HasDependent(parent: Node, child: Node) returns (r: bool)
      requires Consistent()
      ensures r <==> Reaches(Deps(), child, parent)
    {
      var deps := BuildTransitive(parent, dependents);
      r := child in deps;
      MirrorReaches(nodes.elems, Deps(), Rdeps(), child, parent);
      if parent !in nodes.elems { UnknownReachesNothing(Rdeps(), nodes.elems, parent, child); }
    }

    /** DependOn: the edge is refused exactly when it would close a cycle, and a refusal changes nothing. */
    method DependOn(child: Node, parent: Node) returns (r: Outcome)
      requires Valid()
      modifies this, Repr()
      ensures Valid() && forall o :: o in Repr() ==> o in old(Repr()) || fresh(o)
      ensures r == Added <==> Acyclic(AddEdge(old(Deps()), child, parent))
      ensures r == SelfReference <==> child == parent
      ensures r == Added ==> nodes.elems == old(nodes.elems) + {child, parent} &&
                             Deps() == AddEdge(old(Deps()), child, parent)
      ensures r != Added ==> unchanged(this) && unchanged(old(Repr()))
    {
      hide Acyclic, Reaches, Mirrored;
      CycleIff(Deps(), child, parent);
      if child == parent { return SelfReference; }
      var circular := DependsOn(parent, child);
      if circular { return Circular; }
      Connect(child, parent);
      r := Added;
    }

    /** Both ends become nodes, and the edge goes into both maps. */
    method Connect(child: Node, parent: Node)
      requires Consistent()
      modifies this, Repr()
      ensures Consistent() && forall o :: o in Repr() ==> o in old(Repr()) || fresh(o)
      ensures nodes.elems == old(nodes.elems) + {child, parent} && Deps() == AddEdge(old(Deps()), child, parent)
    {
      hide Mirrored, Edges, AddEdge, Separate;
      ConnectedMirrored(nodes.elems, Deps(), Rdeps(), child, parent);
      AddNodes(child, parent);
      LinkBack(child, parent);
      Link(child, parent);
    }

    method AddNodes(child: Node, parent: Node)
      requires Separate()
      modifies nodes
      ensures Separate() && nodes.elems == old(nodes.elems) + {parent, child}
      ensures Deps() == old(Deps()) && Rdeps() == old(Rdeps()) && Repr() == old(Repr())
    {
      nodes.elems := nodes.elems + {parent, child};
    }

    method LinkBack(child: Node, parent: Node)
      requires Separate()
      modifies this`dependents, Repr() - {nodes}
      ensures Separate() && nodes.elems == old(nodes.elems) && Deps() == old(Deps())
      ensures Rdeps() == AddEdge(old(Rdeps()), parent, child)
      ensures forall o :: o in Repr() ==> o in old(Repr()) || fresh(o)
    {
      hide AddEdge, Disjoint, Edges, Injective, PartOf;
      DisjointMeans(nodes, dependencies, dependents);
      label L:
      var more := AddNode(dependents, parent, child);
      assert parent !in dependents ==> more[parent] !in Sets(nodes, dependents, dependencies);
      MoreStaysDisjoint(nodes, dependents, dependencies, more, parent);
      DisjointMeans(nodes, more, dependencies);
      assert Edges(dependencies) == old@L(Edges(dependencies));
      dependents := more;
    }

    method Link(child: Node, parent: Node)
      requires Separate()
      modifies this`dependencies, Repr() - {nodes}
      ensures Separate() && nodes.elems == old(nodes.elems) && Rdeps() == old(Rdeps())
      ensures Deps() == AddEdge(old(Deps()), child, parent)
      ensures forall o :: o in Repr() ==> o in old(Repr()) || fresh(o)
    {
      hide AddEdge, Disjoint, Edges, Injective, PartOf;
      DisjointMeans(nodes, dependencies, dependents);
      label L:
      var more := AddNode(dependencies, child, parent);
      assert child !in dependencies ==> more[child] !in Sets(nodes, dependencies, dependents);
      MoreStaysDisjoint(nodes, dependencies, dependents, more, child);
      assert Edges(dependents) == old@L(Edges(dependents));
      dependencies := more;
    }

    /** Leaves: the nodes that depend on nothing, each once, in no particular order. */
    method Leaves() returns (leaves: seq<Node>)
      ensures forall n :: n in leaves <==> n in nodes.elems && n !in Deps()
      ensures forall a, b :: 0 <= a < b < |leaves| ==> leaves[a] != leaves[b]
    {
      leaves := [];
      var todo := nodes.elems;
      while todo != {}
        invariant todo <= nodes.elems
        invariant forall n :: n in leaves <==> n in nodes.elems - todo && n !in dependencies
        invariant forall a, b :: 0 <= a < b < |leaves| ==> leaves[a] != leaves[b]
      {
        var n :| n in todo;
        todo := todo - {n};
        if n !in dependencies { leaves := leaves + [n]; }
      }
    }

    /** remove: the node and every edge at it, in the graph's own sets. */
    method Remove(node: Node)
      requires Consistent()
      modifies this, Repr()
      ensures Consistent() && Repr() <= old(Repr()) && nodes.elems == old(nodes.elems) - {node}
      ensures forall a, b :: Edge(Deps(), a, b) <==> Edge(old(Deps()), a, b) && a != node && b != node
    {
      hide Mirrored, Edges, Separate;
      ghost var deps, rdeps := Deps(), Rdeps();
      MirrorEdges(nodes.elems, deps, rdeps);
      MirrorEntries(nodes.elems, deps, rdeps);
      DropIncoming(node);
      DropOutgoing(node);
      RemovedMirrored(nodes.elems, deps, rdeps, node, Deps(), Rdeps());
      DropItself(node);
    }

    /** The edges from what depends on the node. */
    method DropIncoming(node: Node)
      requires Separate() && NoneEmpty(Deps()) && NoneEmpty(Rdeps())
      requires forall a :: Edge(Deps(), a, node) <==> Edge(Rdeps(), node, a)
      modifies this`dependencies, this`dependents, Repr() - {nodes}
      ensures Separate() && Repr() <= old(Repr()) && nodes.elems == old(nodes.elems)
      ensures NoneEmpty(Deps()) && NoneEmpty(Rdeps())
      ensures forall a, b :: Edge(Deps(), a, b) <==> Edge(old(Deps()), a, b) && b != node
      ensures forall a, b :: Edge(Rdeps(), a, b) <==> Edge(old(Rdeps()), a, b) && a != node
    {
      hide Disjoint, Sets, Edges, Injective, Apart, PartOf, NoneEmpty, Edge;
      DisjointMeans(nodes, dependencies, dependents);
      var there, back := DropNode(dependencies, dependents, node);
      PartStaysDisjoint(nodes, dependencies, dependents, there, back);
      dependencies, dependents := there, back;
    }

    /** The edges to what the node depends on. */
    method DropOutgoing(node: Node)
      requires Separate() && NoneEmpty(Deps()) && NoneEmpty(Rdeps())
      requires forall a :: Edge(Rdeps(), a, node) <==> Edge(Deps(), node, a)
      modifies this`dependencies, this`dependents, Repr() - {nodes}
      ensures Separate() && Repr() <= old(Repr()) && nodes.elems == old(nodes.elems)
      ensures NoneEmpty(Deps()) && NoneEmpty(Rdeps())
      ensures forall a, b :: Edge(Rdeps(), a, b) <==> Edge(old(Rdeps()), a, b) && b != node
      ensures forall a, b :: Edge(Deps(), a, b) <==> Edge(old(Deps()), a, b) && a != node
    {
      hide Disjoint, Sets, Edges, Injective, Apart, PartOf, NoneEmpty, Edge;
      DisjointMeans(nodes, dependencies, dependents);
      var back, there := DropNode(dependents, dependencies, node);
      PartStaysDisjoint(nodes, dependencies, dependents, there, back);
      dependencies, dependents := there, back;
    }

    method DropItself(node: Node)
      requires Separate()
      modifies nodes
      ensures Separate() && nodes.elems == old(nodes.elems) - {node}
      ensures Deps() == old(Deps()) && Rdeps() == old(Rdeps()) && Repr() == old(Repr())
    {
      nodes.elems := nodes.elems - {node};
    }

    method RemoveAll(gone: seq<Node>)
      requires Consistent()
      modifies this, Repr()
      ensures Consistent() && Repr() <= old(Repr()) && nodes.elems == old(nodes.elems) - set n | n in gone
      ensures forall a, b :: Edge(Deps(), a, b) <==> Edge(old(Deps()), a, b) && a !in gone && b !in gone
    {
      hide Mirrored, Edges, Separate;
      ghost var all, edges := nodes.elems, Deps();
      for i := 0 to |gone|
        invariant Consistent() && Repr() <= old(Repr()) && nodes.elems == all - set n | n in gone[..i]
        invariant forall a, b :: Edge(Deps(), a, b) <==> Edge(edges, a, b) && a !in gone[..i] && b !in gone[..i]
      {
        assert gone[..i + 1] == gone[..i] + [gone[i]];
        Remove(gone[i]);
      }
      assert gone[..|gone|] == gone;
    }

    /** One turn of the loop: the leaves of what is left are the next layer, and are removed. */
    method Peel(ghost all: set<Node>, ghost edges: Depmap, ghost layers: seq<seq<Node>>) returns (leaves: seq<Node>)
      requires Consistent() && Acyclic(edges) && forall a, b :: Edge(edges, a, b) ==> b in all
      requires IsRest(all, edges, nodes.elems, Deps(), |layers|) && LayersSoFar(edges, all, nodes.elems, layers)
      modifies this, Repr()
      ensures Consistent() && Repr() <= old(Repr())
      ensures leaves == [] ==> AreLayers(edges, all, layers)
      ensures leaves != [] ==>
                && IsRest(all, edges, nodes.elems, Deps(), |layers| + 1)
                && LayersSoFar(edges, all, nodes.elems, layers + [leaves]) && |nodes.elems| < |old(nodes.elems)|
    {
      hide HasChain, Reaches, Height, Mirrored, Edges, Separate;
      ghost var rest, i := nodes.elems, |layers|;
      leaves := Leaves();
      MirrorEntries(rest, Deps(), Rdeps());
      LeavesAreLayer(all, edges, rest, Deps(), leaves, i);
      if leaves == [] {
        NoLeavesNoRest(all, edges, rest, leaves, i);
        return;
      }
      RemoveAll(leaves);
      SmallerSet(nodes.elems, rest, leaves[0]);
      RestShrinks(all, edges, rest, nodes.elems, Deps(), leaves, i);
      OneMoreLayer(edges, all, rest, nodes.elems, layers, leaves);
    }

    /** TopoSortedLayers: each node in the layer of its longest dependency chain; the graph itself is left alone. */
    method TopoSortedLayers() returns (layers: seq<seq<Node>>)
      requires Valid()
      ensures AreLayers(Deps(), nodes.elems, layers)
      ensures unchanged(this) && unchanged(Repr())
    {
      hide Acyclic, Mirrored, Edges, Separate, IsRest, LayersSoFar, AreLayers;
      MirrorNodes(nodes.elems, Deps(), Rdeps());
      StartIsRest(nodes.elems, Deps());
      var shrinking := new Graph.Clone(this);
      layers := shrinking.PeelAll(nodes.elems, Deps());
    }

    /** The loop: layer after layer, until nothing is left. */
    method PeelAll(ghost all: set<Node>, ghost edges: Depmap) returns (layers: seq<seq<Node>>)
      requires Consistent() && Acyclic(edges) && forall a, b :: Edge(edges, a, b) ==> b in all
      requires IsRest(all, edges, nodes.elems, Deps(), 0) && LayersSoFar(edges, all, nodes.elems, [])
      modifies this, Repr()
      ensures AreLayers(edges, all, layers)
    {
      hide Acyclic, Mirrored, Edges, Separate, IsRest, LayersSoFar, AreLayers, Sets;
      layers := [];
      while true
        invariant Consistent() && Repr() <= old(Repr())
        invariant IsRest(all, edges, nodes.elems, Deps(), |layers|) && LayersSoFar(edges, all, nodes.elems, layers)
        decreases |nodes.elems|
      {
        var leaves := Peel(all, edges, layers);
        if leaves == [] { break; }
        layers := layers + [leaves];
      }
    }

    /** TopoSorted: every node exactly once, every dependency before its dependents. */
    method TopoSorted() returns (all: seq<Node>)
      requires Valid()
      ensures multiset(all) == multiset(nodes.elems)
      ensures DependenciesFirst(Deps(), all)
      ensures unchanged(this) && unchanged(Repr())
    {
      var layers := TopoSortedLayers();
      all := [];
      for i := 0 to |layers|
        invariant all == Flatten(layers[..i])
      {
        for j := 0 to |layers[i]|
          invariant all == Flatten(layers[..i]) + layers[i][..j]
        {
          all := all + [layers[i][j]];
        }
        assert layers[..i + 1][..i] == layers[..i];
      }
      assert layers[..|layers|] == layers;
      LayersAreOrder(Deps(), nodes.elems, layers);
    }
  }

  /** The edges kept from a sequence of DependOn calls (child, parent): those that close no cycle. */
  ghost function Kept(calls: seq<(Node, Node)>): Depmap {
    if calls == [] then map[]
    else
      var before, last := Kept(calls[..|calls| - 1]), calls[|calls| - 1];
      if Acyclic(AddEdge(before, last.0, last.1)) then AddEdge(before, last.0, last.1) else before
  }

  /** After every sequence of calls the graph holds exactly the kept edges, mirrored and acyclic. */
  method Load(calls: seq<(Node, Node)>) returns (g: Graph)
    ensures fresh(g) && fresh(g.Repr()) && g.Valid() && g.Deps() == Kept(calls)
  {
    hide Reaches, Acyclic, Mirrored, Edges, AddEdge;
    g := new Graph();
    for i := 0 to |calls|
      invariant fresh(g) && fresh(g.Repr()) && g.Valid() && g.Deps() == Kept(calls[..i])
    {
      assert calls[..i + 1][..i] == calls[..i];
      var outcome := g.DependOn(calls[i].0, calls[i].1);
    }
    assert calls[..|calls|] == calls;
  }

  lemma MirrorNodes(nodes: set<Node>, deps: Depmap, rdeps: Depmap)
    requires Mirrored(nodes, deps, rdeps)
    ensures forall a, b :: Edge(deps, a, b) ==> a in nodes && b in nodes
  {
  }

  lemma StartIsRest(nodes: set<Node>, deps: Depmap)
    requires forall a, b :: Edge(deps, a, b) ==> a in nodes && b in nodes
    ensures IsRest(nodes, deps, nodes, deps, 0) && LayersSoFar(deps, nodes, nodes, [])
  {
    ChainZero(deps);
  }

  /** What is left of a graph after i layers: the nodes with a chain of i edges, and the edges among them. */
  ghost predicate IsRest(nodes: set<Node>, deps: Depmap, rest: set<Node>, restDeps: Depmap, i: nat) {
    && (forall n :: n in rest <==> n in nodes && HasChain(deps, n, i))
    && (forall a, b :: Edge(restDeps, a, b) <==> Edge(deps, a, b) && a in rest && b in rest)
  }

  /** The layers found so far are right, and hold every node not left. */
  ghost predicate LayersSoFar(deps: Depmap, nodes: set<Node>, rest: set<Node>, layers: seq<seq<Node>>) {
    && (forall i :: 0 <= i < |layers| ==> layers[i] != [] && IsLayer(deps, nodes, layers[i], i))
    && (forall n :: n in nodes && n !in rest ==> exists i :: 0 <= i < |layers| && n in layers[i])
  }

  lemma OneMoreLayer(deps: Depmap, nodes: set<Node>, rest: set<Node>, left: set<Node>, layers: seq<seq<Node>>,
                     leaves: seq<Node>)
    requires LayersSoFar(deps, nodes, rest, layers) && leaves != [] && IsLayer(deps, nodes, leaves, |layers|)
    requires left == rest - set n | n in leaves
    ensures LayersSoFar(deps, nodes, left, layers + [leaves])
  {
    hide IsLayer;
    var more := layers + [leaves];
    forall n | n in nodes && n !in left ensures exists i :: 0 <= i < |more| && n in more[i] {
      if n !in rest {
        var i :| 0 <= i < |layers| && n in layers[i];
        assert n in more[i];
      } else {
        assert n in more[|layers|];
      }
    }
  }

  lemma NoLeavesNoRest(nodes: set<Node>, deps: Depmap, rest: set<Node>, leaves: seq<Node>, i: nat)
    requires Acyclic(deps) && forall a, b :: Edge(deps, a, b) ==> b in nodes
    requires forall n :: n in rest <==> n in nodes && HasChain(deps, n, i)
    requires leaves == [] && IsLayer(deps, nodes, leaves, i)
    ensures rest == {}
  {
    if n :| n in rest { SomeoneIsLast(deps, nodes, n, i); }
  }

  lemma ChainZero(deps: Depmap)
    ensures forall n :: HasChain(deps, n, 0)
  {
  }

  /** The leaves of what is left are the nodes whose longest chain ends there. */
  lemma LeavesAreLayer(nodes: set<Node>, deps: Depmap, rest: set<Node>, restDeps: Depmap, leaves: seq<Node>, i: nat)
    requires IsRest(nodes, deps, rest, restDeps, i) && forall a, b :: Edge(deps, a, b) ==> b in nodes
    requires NoneEmpty(restDeps)
    requires forall n :: n in leaves <==> n in rest && n !in restDeps
    requires forall a, b :: 0 <= a < b < |leaves| ==> leaves[a] != leaves[b]
    ensures IsLayer(deps, nodes, leaves, i)
  {
    forall n | n in rest ensures n in restDeps <==> HasChain(deps, n, i + 1) {
      if n in restDeps {
        var b :| b in restDeps[n];
        assert Edge(restDeps, n, b);
        ChainExtend(deps, n, b, i);
      }
      if HasChain(deps, n, i + 1) {
        var b :| Edge(deps, n, b) && HasChain(deps, b, i);
        assert Edge(restDeps, n, b);
      }
    }
  }

  lemma RestShrinks(nodes: set<Node>, deps: Depmap, rest: set<Node>, left: set<Node>, leftDeps: Depmap,
                    leaves: seq<Node>, i: nat)
    requires forall n :: n in rest <==> n in nodes && HasChain(deps, n, i)
    requires IsLayer(deps, nodes, leaves, i) && left == rest - set n | n in leaves
    requires forall a, b :: Edge(leftDeps, a, b) <==> Edge(deps, a, b) && a in left && b in left
    ensures IsRest(nodes, deps, left, leftDeps, i + 1)
  {
    forall n | n in nodes ensures n in left <==> HasChain(deps, n, i + 1) {
      if HasChain(deps, n, i + 1) { ChainShorter(deps, n, i); }
    }
  }
}
