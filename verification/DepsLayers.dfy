/** Longest dependency chains, and the layers they define. */
module DepsLayers {
  import opened Values
  import opened Deps

  /** A chain of k edges starts at n. */
  ghost predicate HasChain(m: Depmap, n: Node, k: nat)
    decreases k
  {
    k == 0 || exists b :: Edge(m, n, b) && HasChain(m, b, k - 1)
  }

  /** The longest dependency chain from n has k edges. */
  ghost predicate Height(m: Depmap, n: Node, k: nat) {
    HasChain(m, n, k) && !HasChain(m, n, k + 1)
  }

  lemma {:induction false} ChainShorter(m: Depmap, n: Node, k: nat)
    requires HasChain(m, n, k + 1)
    ensures HasChain(m, n, k)
    decreases k
  {
    if k > 0 {
      var b :| Edge(m, n, b) && HasChain(m, b, k);
      ChainShorter(m, b, k - 1);
    }
  }

  /** Heights are unique. */
  lemma {:induction false} ChainMonotone(m: Depmap, n: Node, j: nat, k: nat)
    requires j <= k && HasChain(m, n, k)
    ensures HasChain(m, n, j)
    decreases k
  {
    if j < k {
      ChainShorter(m, n, k - 1);
      ChainMonotone(m, n, j, k - 1);
    }
  }

  /** A chain is a path with its nodes written out. */
  lemma {:induction false} ChainPath(m: Depmap, n: Node, k: nat) returns (p: seq<Node>)
    requires HasChain(m, n, k)
    ensures |p| == k + 1 && p[0] == n && forall i :: 0 <= i < k ==> Edge(m, p[i], p[i + 1])
    decreases k
  {
    if k == 0 {
      p := [n];
    } else {
      var b :| Edge(m, n, b) && HasChain(m, b, k - 1);
      var q := ChainPath(m, b, k - 1);
      p := [n] + q;
      forall i | 0 <= i < k ensures Edge(m, p[i], p[i + 1]) {
        if i > 0 { assert p[i] == q[i - 1] && p[i + 1] == q[i]; }
      }
    }
  }

  lemma {:induction false} DistinctFit(p: seq<Node>, s: set<Node>)
    requires forall i :: 0 <= i < |p| ==> p[i] in s
    requires forall i, j :: 0 <= i < j < |p| ==> p[i] != p[j]
    ensures |p| <= |s|
  {
    if p != [] {
      var rest := s - {p[0]};
      forall i | 0 <= i < |p[1..]| ensures p[1..][i] in rest { assert p[1..][i] == p[i + 1] != p[0]; }
      DistinctFit(p[1..], rest);
    }
  }

  /** In an acyclic graph no chain has as many edges as there are nodes. */
  lemma ChainBound(m: Depmap, nodes: set<Node>, n: Node)
    requires Acyclic(m) && n in nodes && forall a, b :: Edge(m, a, b) ==> b in nodes
    ensures !HasChain(m, n, |nodes|)
  {
    if HasChain(m, n, |nodes|) {
      var p := ChainPath(m, n, |nodes|);
      forall i | 0 <= i < |p| ensures p[i] in nodes { if i > 0 { assert Edge(m, p[i - 1], p[i]); } }
      forall i, j | 0 <= i < j < |p| ensures p[i] != p[j] {
        var q := p[i..j + 1];
        assert IsPath(m, q) by {
          forall l | 0 <= l < |q| - 1
              ensures Edge(m, q[l], q[l + 1]) { assert q[l] == p[i + l] && q[l + 1] == p[i + l + 1]; }
        }
        assert Reaches(m, p[i], p[j]) by { assert q[0] == p[i] && q[|q| - 1] == p[j]; }
      }
      DistinctFit(p, nodes);
      assert false;
    }
  }

  /** Every chain of i edges goes on. */
  ghost predicate Persist(m: Depmap, nodes: set<Node>, i: nat) {
    forall x :: x in nodes && HasChain(m, x, i) ==> HasChain(m, x, i + 1)
  }

  lemma ChainStep(m: Depmap, nodes: set<Node>, n: Node, i: nat) returns (b: Node)
    requires Persist(m, nodes, i) && n in nodes && HasChain(m, n, i)
    ensures Edge(m, n, b) && HasChain(m, b, i)
  {
    assert HasChain(m, n, i + 1);
    b :| Edge(m, n, b) && HasChain(m, b, i);
  }

  lemma ChainExtend(m: Depmap, n: Node, b: Node, k: nat)
    requires Edge(m, n, b) && HasChain(m, b, k)
    ensures HasChain(m, n, k + 1)
  {
  }

  lemma {:induction false} ChainsGrow(m: Depmap, nodes: set<Node>, n: Node, i: nat, k: nat)
    requires i <= k && n in nodes && HasChain(m, n, i) && Persist(m, nodes, i)
    requires forall a, b :: Edge(m, a, b) ==> b in nodes
    ensures HasChain(m, n, k)
    decreases k
  {
    hide HasChain, Persist;
    if k > i {
      var b := ChainStep(m, nodes, n, i);
      ChainsGrow(m, nodes, b, i, k - 1);
      ChainExtend(m, n, b, k - 1);
    }
  }

  /** An acyclic graph with a chain of i edges has a node whose longest chain is exactly that. */
  lemma SomeoneIsLast(m: Depmap, nodes: set<Node>, n: Node, i: nat)
    requires Acyclic(m) && n in nodes && forall a, b :: Edge(m, a, b) ==> b in nodes
    requires HasChain(m, n, i)
    ensures exists x :: x in nodes && Height(m, x, i)
  {
    ChainBound(m, nodes, n);
    if i >= |nodes| {
      ChainMonotone(m, n, |nodes|, i);
    } else if forall x :: x in nodes ==> !Height(m, x, i) {
      assert Persist(m, nodes, i) by {
        forall x | x in nodes && HasChain(m, x, i) ensures HasChain(m, x, i + 1) { assert !Height(m, x, i); }
      }
      ChainsGrow(m, nodes, n, i, |nodes|);
    }
  }

  // ---- orders ------------------------------------------------------------------------------------

  /** Layer i holds, once each, the nodes whose longest chain has i edges. */
  ghost predicate IsLayer(m: Depmap, nodes: set<Node>, layer: seq<Node>, i: nat) {
    && (forall n :: n in layer <==> n in nodes && Height(m, n, i))
    && (forall a, b :: 0 <= a < b < |layer| ==> layer[a] != layer[b])
  }

  ghost predicate AreLayers(m: Depmap, nodes: set<Node>, layers: seq<seq<Node>>) {
    && (forall i :: 0 <= i < |layers| ==> layers[i] != [] && IsLayer(m, nodes, layers[i], i))
    && (forall n :: n in nodes ==> exists i :: 0 <= i < |layers| && n in layers[i])
  }

  function Flatten(layers: seq<seq<Node>>): seq<Node> {
    if layers == [] then [] else Flatten(layers[..|layers| - 1]) + layers[|layers| - 1]
  }

  /** Every dependency of a listed node is listed before it. */
  ghost predicate DependenciesFirst(m: Depmap, s: seq<Node>) {
    forall i, d :: 0 <= i < |s| && Edge(m, s[i], d) ==> d in s[..i]
  }

  lemma {:induction false} FlattenMembers(layers: seq<seq<Node>>, n: Node)
    ensures n in Flatten(layers) <==> exists i :: 0 <= i < |layers| && n in layers[i]
  {
    if layers != [] {
      var rest := layers[..|layers| - 1];
      FlattenMembers(rest, n);
      if i :| 0 <= i < |layers| && n in layers[i] { assert i == |rest| || (i < |rest| && rest[i] == layers[i]); }
      if i :| 0 <= i < |rest| && n in rest[i] { assert layers[i] == rest[i]; }
    }
  }

  /** A dependency has a shorter longest chain. */
  lemma DependencyIsLower(m: Depmap, n: Node, d: Node, i: nat, j: nat)
    requires Edge(m, n, d) && Height(m, n, i) && Height(m, d, j)
    ensures j < i
  {
    if j >= i {
      ChainMonotone(m, d, i, j);
      ChainExtend(m, n, d, i);
    }
  }

  lemma HeightUnique(m: Depmap, n: Node, i: nat, j: nat)
    requires Height(m, n, i) && Height(m, n, j)
    ensures i == j
  {
    if i < j { ChainMonotone(m, n, i + 1, j); } else if j < i { ChainMonotone(m, n, j + 1, i); }
  }

  /** Listing the layers in turn lists every node exactly once, dependencies first. */
  lemma LayersAreOrder(m: Depmap, nodes: set<Node>, layers: seq<seq<Node>>)
    requires AreLayers(m, nodes, layers) && forall a, b :: Edge(m, a, b) ==> b in nodes
    ensures multiset(Flatten(layers)) == multiset(nodes)
    ensures DependenciesFirst(m, Flatten(layers))
  {
    assert layers[..|layers|] == layers;
    PrefixOrder(m, nodes, layers, |layers|);
    PrefixCounts(m, nodes, layers, |layers|);
    forall n ensures n in Flatten(layers) <==> n in nodes { FlattenMembers(layers, n); }
    var s := Flatten(layers);
    forall n ensures multiset(s)[n] == multiset(nodes)[n] {
      if n in nodes { assert n in multiset(s); } else { assert n !in multiset(s); }
    }
  }

  lemma {:induction false} PrefixOrder(m: Depmap, nodes: set<Node>, layers: seq<seq<Node>>, k: nat)
    requires AreLayers(m, nodes, layers) && k <= |layers| && forall a, b :: Edge(m, a, b) ==> b in nodes
    ensures DependenciesFirst(m, Flatten(layers[..k]))
    decreases k
  {
    hide Height, AreLayers;
    if k > 0 {
      var before := layers[..k - 1];
      assert layers[..k][..k - 1] == before;
      PrefixOrder(m, nodes, layers, k - 1);
      var s, t := Flatten(before), Flatten(layers[..k]);
      assert t == s + layers[k - 1];
      forall i, d | 0 <= i < |t| && Edge(m, t[i], d) ensures d in t[..i] {
        if i < |s| {
          assert t[..i] == s[..i];
        } else {
          assert t[i] == layers[k - 1][i - |s|];
          EarlierLayer(m, nodes, layers, k - 1, t[i], d);
          assert t[..i] == s + t[|s|..i];
        }
      }
    }
  }

  lemma EarlierLayer(m: Depmap, nodes: set<Node>, layers: seq<seq<Node>>, k: nat, n: Node, d: Node)
    requires AreLayers(m, nodes, layers) && k < |layers| && n in layers[k] && d in nodes && Edge(m, n, d)
    ensures d in Flatten(layers[..k])
  {
    assert IsLayer(m, nodes, layers[k], k);
    var j :| 0 <= j < |layers| && d in layers[j];
    assert IsLayer(m, nodes, layers[j], j);
    DependencyIsLower(m, n, d, k, j);
    assert layers[..k][j] == layers[j];
    FlattenMembers(layers[..k], d);
  }

  lemma {:induction false} PrefixCounts(m: Depmap, nodes: set<Node>, layers: seq<seq<Node>>, k: nat)
    requires AreLayers(m, nodes, layers) && k <= |layers|
    ensures forall n :: multiset(Flatten(layers[..k]))[n] <= 1
    decreases k
  {
    if k > 0 {
      var before := layers[..k - 1];
      assert layers[..k][..k - 1] == before;
      PrefixCounts(m, nodes, layers, k - 1);
      forall n ensures multiset(Flatten(layers[..k]))[n] <= 1 {
        AtMostOnce(layers[k - 1], n);
        FlattenMembers(before, n);
        if n in Flatten(before) && n in layers[k - 1] {
          var i :| 0 <= i < |before| && n in before[i];
          assert before[i] == layers[i];
          HeightUnique(m, n, i, k - 1);
        }
      }
    }
  }
}
