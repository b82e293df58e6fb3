/** Reading and writing values deep inside nested maps and arrays (maps/maps.go). */
module MapAccess {
  import opened Values
  import opened Decimal
  import opened Trees
  import opened MapPaths

  // ---- one step ----

  /** What a field selects in a container; a missing key selects nil, a bad index nothing. */
  function Child(t: Tree, field: string): (c: Option<Tree>) {
    match t
    case Leaf(_) => None
    case Dict(fields) => Some(if field in fields then fields[field] else NIL)
    case List(items) =>
      var i := Atoi(field);
      if i.None? || i.value < 0 || i.value >= |items| then None else Some(items[i.value])
  }

  /** The container with that selection replaced. */
  function Put(t: Tree, field: string, v: Tree): (r: Tree)
    requires Child(t, field).Some?
    ensures Child(r, field) == Some(v)
  {
    match t
    case Dict(fields) => Dict(fields[field := v])
    case List(items) => List(items[Atoi(field).value := v])
  }

  // ---- whole walks ----

  function Walk(t: Tree, fields: seq<string>): (r: Option<Tree>)
    decreases |fields|
  {
    if fields == [] then Some(t)
    else if Child(t, fields[0]).None? then None
    else Walk(Child(t, fields[0]).value, fields[1..])
  }

  /** SetNestedValue: a scalar met one field early is itself replaced. */
  function Set(t: Tree, fields: seq<string>, v: Tree): (r: Option<Tree>)
    decreases |fields|
  {
    if fields == [] || Child(t, fields[0]).None? then None
    else
      var child := Child(t, fields[0]).value;
      if |fields| == 1 || (|fields| == 2 && child.Leaf?) then Some(Put(t, fields[0], v))
      else
        var s := Set(child, fields[1..], v);
        if s.None? then None else Some(Put(t, fields[0], s.value))
  }

  method NestedValue(obj: map<string, Tree>, fields: seq<string>) returns (r: Option<Tree>)
    ensures r == Walk(Dict(obj), fields)
  {
    var current := Dict(obj);
    for i := 0 to |fields|
      invariant Walk(Dict(obj), fields) == Walk(current, fields[i..])
    {
      var field := fields[i];
      assert fields[i..][1..] == fields[i + 1..];
      match current {
        case Dict(m) => current := if field in m then m[field] else NIL;
        case List(items) =>
          var index := Atoi(field);
          if index.None? || index.value < 0 || index.value >= |items| { return None; }
          current := items[index.value];
        case Leaf(_) => return None;
      }
    }
    r := Some(current);
  }

  lemma LeafStops(t: Tree, fields: seq<string>, v: Tree)
    requires t.Leaf?
    ensures Set(t, fields, v).None?
  {
  }

  // ---- what a write does ----

  /**
   * A write succeeds exactly when the way to the last field exists and that field can be selected, or is one scalar
   * too long.
   */
  lemma {:induction false} SetSucceedsIff(t: Tree, fields: seq<string>, v: Tree)
    requires fields != []
    ensures var last := |fields| - 1;
            var parent := Walk(t, fields[..last]);
            Set(t, fields, v).Some? <==>
            parent.Some? && (Child(parent.value, fields[last]).Some? || (parent.value.Leaf? && last > 0))
    decreases |fields|
  {
    hide Put;
    var last := |fields| - 1;
    if last > 0 && Child(t, fields[0]).Some? {
      var child := Child(t, fields[0]).value;
      WalkFront(t, fields, child);
      SetSucceedsIff(child, fields[1..], v);
      if child.Leaf? { LeafStops(child, fields[1..], v); }
    }
  }

  lemma WalkFront(t: Tree, fields: seq<string>, child: Tree)
    requires |fields| > 1 && Child(t, fields[0]) == Some(child)
    ensures Walk(t, fields[..|fields| - 1]) == Walk(child, fields[1..][..|fields| - 2])
    ensures fields[1..][|fields| - 2] == fields[|fields| - 1]
  {
    assert fields[..|fields| - 1][1..] == fields[1..][..|fields| - 2];
  }

  lemma WalkOne(t: Tree, fields: seq<string>)
    requires |fields| == 1
    ensures Walk(t, fields) == Child(t, fields[0])
  {
    assert fields[1..] == [];
  }

  lemma NotItsOwnChild(t: Tree, field: string)
    ensures Child(t, field) != Some(t)
  {
  }

  /** Reading where one has just written gives the value, exactly when the last field was looked for in a container. */
  lemma {:induction false} SetThenWalkIff(t: Tree, fields: seq<string>, v: Tree)
    requires Set(t, fields, v).Some?
    ensures Walk(t, fields[..|fields| - 1]).Some?
    ensures Walk(Set(t, fields, v).value, fields) == Some(v) <==> !Walk(t, fields[..|fields| - 1]).value.Leaf?
    decreases |fields|
  {
    hide Put;
    SetSucceedsIff(t, fields, v);
    var child := Child(t, fields[0]).value;
    if |fields| == 1 {
      assert fields[1..] == [];
    } else {
      WalkFront(t, fields, child);
      if |fields| == 2 && child.Leaf? {
        NotItsOwnChild(v, fields[1]);
        WalkOne(v, fields[1..]);
        WalkOne(t, fields[..1]);
      } else {
        SetThenWalkIff(child, fields[1..], v);
      }
    }
  }

  // ---- leaves ----

  /** The node at the end of a route. */
  function At(t: Tree, r: Route): Option<Tree>
    decreases |r|
  {
    if r == [] then Some(t)
    else match t
      case Leaf(_) => None
      case Dict(fields) => if r[0].Key? && r[0].k in fields then At(fields[r[0].k], r[1..]) else None
      case List(items) => if r[0].Index? && r[0].i < |items| then At(items[r[0].i], r[1..]) else None
  }

  /** The tree with the node at the end of a route replaced. */
  function PutAt(t: Tree, r: Route, v: Tree): Tree
    requires At(t, r).Some?
    decreases |r|
  {
    if r == [] then v
    else match t
      case Dict(fields) => Dict(fields[r[0].k := PutAt(fields[r[0].k], r[1..], v)])
      case List(items) => List(items[r[0].i := PutAt(items[r[0].i], r[1..], v)])
  }

  /** The field printed for a step selects what the step leads to. */
  lemma ChildAt(t: Tree, r: Route)
    requires r != [] && At(t, r).Some?
    ensures Child(t, Field(r[0])) == Some(if t.Dict? then t.fields[r[0].k] else t.items[r[0].i])
    ensures Fields(r)[0] == Field(r[0]) && Fields(r)[1..] == Fields(r[1..])
  {
    if r[0].Index? { AtoiReadsBack(r[0].i); }
  }

  /** Walking the fields of a route ends where the route does. */
  lemma {:induction false} WalkRoute(t: Tree, r: Route)
    requires At(t, r).Some?
    ensures Walk(t, Fields(r)) == At(t, r)
    decreases |r|
  {
    if r != [] {
      ChildAt(t, r);
      WalkRoute(Child(t, Field(r[0])).value, r[1..]);
    }
  }

  /** Writing along a route replaces the node at its end. */
  lemma {:induction false} SetRoute(t: Tree, r: Route, v: Tree)
    requires r != [] && At(t, r).Some?
    ensures Set(t, Fields(r), v) == Some(PutAt(t, r, v))
    decreases |r|
  {
    ChildAt(t, r);
    var child := Child(t, Field(r[0])).value;
    if |r| == 1 {
      if r[0].Index? { AtoiReadsBack(r[0].i); }
    } else {
      if r[0].Index? { AtoiReadsBack(r[0].i); }
      SetRoute(child, r[1..], v);
    }
  }

  lemma {:induction false} PutThenAt(t: Tree, r: Route, v: Tree)
    requires At(t, r).Some?
    ensures At(PutAt(t, r, v), r) == Some(v)
    decreases |r|
  {
    if r != [] { PutThenAt(if t.Dict? then t.fields[r[0].k] else t.items[r[0].i], r[1..], v); }
  }

  /** The routes part company somewhere. */
  predicate Diverge(r: Route, q: Route) {
    r != [] && q != [] && (r[0] != q[0] || Diverge(r[1..], q[1..]))
  }

  lemma {:induction false} PutElsewhere(t: Tree, r: Route, q: Route, v: Tree)
    requires At(t, r).Some? && Diverge(r, q)
    ensures At(PutAt(t, r, v), q) == At(t, q)
    decreases |r|
  {
    if r[0] == q[0] {
      PutElsewhere(if t.Dict? then t.fields[r[0].k] else t.items[r[0].i], r[1..], q[1..], v);
    }
  }

  lemma {:induction false} LeafIsThere(t: Tree, r: Route)
    requires LeafUnder(t, r)
    ensures At(t, r).Some?
    decreases |r|
  {
    if r != [] {
      var below := if t.Dict? then t.fields[r[0].k] else t.items[r[0].i];
      if r[1..] != [] { LeafIsThere(below, r[1..]); }
    }
  }

  lemma {:induction false} LeavesDiverge(t: Tree, r: Route, q: Route)
    requires LeafUnder(t, r) && LeafUnder(t, q) && r != q
    ensures Diverge(r, q)
    decreases |r|
  {
    if r != [] && q != [] && r[0] == q[0] {
      var below := if t.Dict? then t.fields[r[0].k] else t.items[r[0].i];
      assert r == [r[0]] + r[1..] && q == [q[0]] + q[1..];
      LeavesDiverge(below, r[1..], q[1..]);
    }
  }

  /** Replacing a leaf by a scalar moves no leaf. */
  lemma {:induction false} PutKeepsLeaves(t: Tree, r: Route, q: Route, v: Tree)
    requires LeafUnder(t, r) && At(t, r).Some? && v.Leaf?
    ensures LeafUnder(PutAt(t, r, v), q) <==> LeafUnder(t, q)
    decreases |r|
  {
    if r != [] && q != [] && r[0] == q[0] {
      var below := if t.Dict? then t.fields[r[0].k] else t.items[r[0].i];
      if LeafUnder(below, r[1..]) { PutKeepsLeaves(below, r[1..], q[1..], v); }
    }
  }

  /** The printed path of a leaf leads back to that leaf. */
  lemma LeafPathReads(m: map<string, Tree>, r: Route)
    requires CleanTree(Dict(m)) && LeafAt(m, r)
    ensures At(Dict(m), r).Some? && Walk(Dict(m), Parsed(Render("", r))) == At(Dict(m), r)
  {
    LeafRouteClean(Dict(m), r);
    LeafIsThere(Dict(m), r);
    ParsesBack(r);
    WalkRoute(Dict(m), r);
  }

  /** Writing to the printed path of a leaf changes that leaf and no other. */
  lemma LeafPathWrites(m: map<string, Tree>, r: Route, v: Tree)
    requires CleanTree(Dict(m)) && LeafAt(m, r)
    ensures At(Dict(m), r).Some? && Set(Dict(m), Parsed(Render("", r)), v) == Some(PutAt(Dict(m), r, v))
    ensures At(PutAt(Dict(m), r, v), r) == Some(v)
    ensures forall q :: LeafAt(m, q) && q != r ==> At(PutAt(Dict(m), r, v), q) == At(Dict(m), q)
    ensures v.Leaf? ==> forall q :: LeafUnder(PutAt(Dict(m), r, v), q) <==> LeafAt(m, q)
  {
    LeafRouteClean(Dict(m), r);
    LeafIsThere(Dict(m), r);
    ParsesBack(r);
    SetRoute(Dict(m), r, v);
    PutThenAt(Dict(m), r, v);
    forall q | LeafAt(m, q) && q != r ensures At(PutAt(Dict(m), r, v), q) == At(Dict(m), q) {
      LeavesDiverge(Dict(m), r, q);
      PutElsewhere(Dict(m), r, q, v);
    }
    if v.Leaf? {
      forall q ensures LeafUnder(PutAt(Dict(m), r, v), q) <==> LeafAt(m, q) { PutKeepsLeaves(Dict(m), r, q, v); }
    }
  }
}
