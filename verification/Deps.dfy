/** Dependency graphs as values: edges, paths, closure, cycles and layers (deps/deps.go). */
module Deps {

  type Node = string

  /** A map from a node to its neighbours; a node without neighbours has no entry. */
  type Depmap = map<Node, set<Node>>

  predicate Edge(m: Depmap, a: Node, b: Node) {
    a in m && b in m[a]
  }

  /** A path of one or more edges. */
  predicate IsPath(m: Depmap, p: seq<Node>) {
    |p| >= 2 && forall i :: 0 <= i < |p| - 1 ==> Edge(m, p[i], p[i + 1])
  }

  /** b can be reached from a by one or more edges. */
  ghost predicate Reaches(m: Depmap, a: Node, b: Node) {
    exists p :: IsPath(m, p) && p[0] == a && p[|p| - 1] == b
  }

  ghost predicate Acyclic(m: Depmap) {
    forall a :: !Reaches(m, a, a)
  }

  lemma EdgeReaches(m: Depmap, a: Node, b: Node)
    requires Edge(m, a, b)
    ensures Reaches(m, a, b)
  {
    assert IsPath(m, [a, b]);
  }

  lemma ReachesTransitive(m: Depmap, a: Node, b: Node, c: Node)
    requires Reaches(m, a, b) && Reaches(m, b, c)
    ensures Reaches(m, a, c)
  {
    var p :| IsPath(m, p) && p[0] == a && p[|p| - 1] == b;
    var q :| IsPath(m, q) && q[0] == b && q[|q| - 1] == c;
    JoinPaths(m, p, q);
  }

  lemma JoinPaths(m: Depmap, p: seq<Node>, q: seq<Node>)
    requires IsPath(m, p) && IsPath(m, q) && p[|p| - 1] == q[0]
    ensures IsPath(m, p + q[1..])
  {
    var r := p + q[1..];
    forall i | 0 <= i < |r| - 1
      ensures Edge(m, r[i], r[i + 1])
    {
      if i >= |p| - 1 { assert r[i] == q[i - (|p| - 1)] && r[i + 1] == q[i - (|p| - 1) + 1]; }
    }
  }

  /** A set closed under edges that holds the neighbours of a holds all that a reaches. */
  lemma ClosedContains(m: Depmap, s: set<Node>, a: Node, c: Node)
    requires forall b :: Edge(m, a, b) ==> b in s
    requires forall x, y :: x in s && Edge(m, x, y) ==> y in s
    requires Reaches(m, a, c)
    ensures c in s
  {
    var p :| IsPath(m, p) && p[0] == a && p[|p| - 1] == c;
    var i := 1;
    assert Edge(m, p[0], p[1]);
    while i < |p| - 1
      invariant 1 <= i < |p| && p[i] in s
    {
      assert Edge(m, p[i], p[i + 1]);
      i := i + 1;
    }
  }

  // ---- adding an edge ----------------------------------------------------------------------------

  function Neighbours(m: Depmap, a: Node): set<Node> {
    if a in m then m[a] else {}
  }

  function AddEdge(m: Depmap, a: Node, b: Node): (r: Depmap)
    ensures forall x, y :: Edge(r, x, y) <==> Edge(m, x, y) || (x == a && y == b)
    ensures (forall x :: x in m ==> m[x] != {}) ==> forall x :: x in r ==> r[x] != {}
  {
    m[a := Neighbours(m, a) + {b}]
  }

  /** More edges reach at least as much. */
  lemma ReachesMonotone(m: Depmap, r: Depmap, a: Node, b: Node)
    requires forall x, y :: Edge(m, x, y) ==> Edge(r, x, y)
    requires Reaches(m, a, b)
    ensures Reaches(r, a, b)
  {
    var p :| IsPath(m, p) && p[0] == a && p[|p| - 1] == b;
    assert IsPath(r, p);
  }

  /** A path over the enlarged graph either avoids the new edge or splits at it. */
  lemma {:induction false} NewPath(m: Depmap, a: Node, b: Node, p: seq<Node>)
    requires IsPath(AddEdge(m, a, b), p)
    ensures var x, y := p[0], p[|p| - 1];
            Reaches(m, x, y) || ((x == a || Reaches(m, x, a)) && (y == b || Reaches(m, b, y)))
  {
    var r := AddEdge(m, a, b);
    var x, y := p[0], p[|p| - 1];
    assert Edge(r, p[0], p[1]);
    if |p| == 2 {
      if Edge(m, x, y) { EdgeReaches(m, x, y); }
    } else {
      var q := p[1..];
      assert IsPath(r, q);
      NewPath(m, a, b, q);
      if Edge(m, x, p[1]) {
        EdgeReaches(m, x, p[1]);
        if Reaches(m, p[1], y) { ReachesTransitive(m, x, p[1], y); }
        else if Reaches(m, p[1], a) { ReachesTransitive(m, x, p[1], a); }
      }
    }
  }

  /** The new edge closes a cycle exactly when it is a loop or its target already reached its source. */
  lemma CycleIff(m: Depmap, a: Node, b: Node)
    requires Acyclic(m)
    ensures Acyclic(AddEdge(m, a, b)) <==> a != b && !Reaches(m, b, a)
  {
    var r := AddEdge(m, a, b);
    EdgeReaches(r, a, b);
    if Reaches(m, b, a) {
      ReachesMonotone(m, r, b, a);
      ReachesTransitive(r, a, b, a);
    }
    if a != b && !Reaches(m, b, a) {
      forall x ensures !Reaches(r, x, x) {
        if Reaches(r, x, x) {
          var p :| IsPath(r, p) && p[0] == x && p[|p| - 1] == x;
          NewPath(m, a, b, p);
          if x != a && x != b { ReachesTransitive(m, b, x, a); }
          assert false;
        }
      }
    }
  }
}
