/**
 * Nested maps and arrays as Go holds them: containers on the heap, copied afresh or written in place (maps/maps.go,
 * maps/deepcopy.go).
 */
module MapHeap {
  import opened Trees

  class DictObj {
    var fields: map<string, Value>

    constructor (fields: map<string, Value>)
      ensures this.fields == fields
    {
      this.fields := fields;
    }
  }

  /** A value: a scalar, a map or a slice. */
  datatype Value = Plain(x: Scalar) | Ref(d: DictObj) | Slice(a: array<Value>)

  /** Which containers make up a value, and how they nest. */
  datatype Shape =
    | Flat(x: Scalar)
    | AtDict(d: DictObj, fields: map<string, Shape>)
    | AtList(a: array<Value>, items: seq<Shape>)

  function ValueOf(s: Shape): Value {
    match s
    case Flat(x) => Plain(x)
    case AtDict(d, _) => Ref(d)
    case AtList(a, _) => Slice(a)
  }

  /** What the value means. */
  ghost function TreeOf(s: Shape): Tree {
    match s
    case Flat(x) => Leaf(x)
    case AtDict(_, fields) => Dict(map k | k in fields :: TreeOf(fields[k]))
    case AtList(_, items) => List(seq(|items|, i requires 0 <= i < |items| => TreeOf(items[i])))
  }

  ghost function Union(feet: set<set<object>>): set<object> {
    if feet == {} then {} else var x :| x in feet; x + Union(feet - {x})
  }

  lemma {:induction false} UnionMeans(feet: set<set<object>>, o: object)
    ensures o in Union(feet) <==> exists x :: x in feet && o in x
  {
    if feet != {} {
      var x :| x in feet && Union(feet) == x + Union(feet - {x});
      UnionMeans(feet - {x}, o);
      if y :| y in feet && o in y { assert y == x || y in feet - {x}; }
    }
  }

  /** Its containers. */
  ghost function Foot(s: Shape): set<object> {
    match s
    case Flat(_) => {}
    case AtDict(d, fields) => {d} + Union(set k | k in fields :: Foot(fields[k]))
    case AtList(a, items) => {a} + Union(set i | 0 <= i < |items| :: Foot(items[i]))
  }

  lemma FootOf(s: Shape)
    ensures s.AtDict? ==> s.d in Foot(s) && forall k :: k in s.fields ==> Foot(s.fields[k]) <= Foot(s)
    ensures s.AtList? ==> s.a in Foot(s) && forall i :: 0 <= i < |s.items| ==> Foot(s.items[i]) <= Foot(s)
  {
    if s.AtDict? {
      forall k, o | k in s.fields && o in Foot(s.fields[k]) ensures o in Foot(s) {
        UnionMeans(set j | j in s.fields :: Foot(s.fields[j]), o);
      }
    }
    if s.AtList? {
      forall i, o | 0 <= i < |s.items| && o in Foot(s.items[i]) ensures o in Foot(s) {
        UnionMeans(set j | 0 <= j < |s.items| :: Foot(s.items[j]), o);
      }
    }
  }

  /** A container is the outermost one or one of a part. */
  lemma InFoot(s: Shape, o: object)
    requires o in Foot(s)
    ensures s.AtDict? ==> o == s.d || exists k :: k in s.fields && o in Foot(s.fields[k])
    ensures s.AtList? ==> o == s.a || exists i :: 0 <= i < |s.items| && o in Foot(s.items[i])
  {
    if s.AtDict? { UnionMeans(set j | j in s.fields :: Foot(s.fields[j]), o); }
    if s.AtList? { UnionMeans(set j | 0 <= j < |s.items| :: Foot(s.items[j]), o); }
  }

  /** The containers of a value at hand exist. */
  lemma {:induction false} FootExists(s: Shape)
    ensures forall o :: o in Foot(s) ==> allocated(o)
    decreases s
  {
    forall o | o in Foot(s) ensures allocated(o) {
      InFoot(s, o);
      if s.AtDict? && o != s.d {
        var k :| k in s.fields && o in Foot(s.fields[k]);
        FootExists(s.fields[k]);
      } else if s.AtList? && o != s.a {
        var i :| 0 <= i < |s.items| && o in Foot(s.items[i]);
        FootExists(s.items[i]);
      }
    }
  }

  /** The heap holds the value at the moment. */
  ghost predicate Shows(s: Shape)
    reads Foot(s)
    decreases s
  {
    FootOf(s);
    match s
    case Flat(_) => true
    case AtDict(d, fields) =>
      && d.fields.Keys == fields.Keys
      && forall k :: k in fields ==> d.fields[k] == ValueOf(fields[k]) && Shows(fields[k])
    case AtList(a, items) =>
      && a.Length == |items|
      && forall i :: 0 <= i < |items| ==> a[i] == ValueOf(items[i]) && Shows(items[i])
  }

  /** No container occurs twice. */
  ghost predicate Tidy(s: Shape) {
    match s
    case Flat(_) => true
    case AtDict(d, fields) =>
      && (forall k :: k in fields ==> Tidy(fields[k]) && d !in Foot(fields[k]))
      && (forall j, k :: j in fields && k in fields && j != k ==> Foot(fields[j]) !! Foot(fields[k]))
    case AtList(a, items) =>
      && (forall i :: 0 <= i < |items| ==> Tidy(items[i]) && a !in Foot(items[i]))
      && (forall i, j :: 0 <= i < j < |items| ==> Foot(items[i]) !! Foot(items[j]))
  }

  /** Shown without sharing, and meaning the widened tree. */
  ghost predicate Copies(c: Shape, t: Tree)
    reads Foot(c)
  {
    Shows(c) && Tidy(c) && TreeOf(c) == Copied(t)
  }

  lemma ShownField(s: Shape, k: string)
    requires Shows(s) && s.AtDict?
    ensures s.d.fields.Keys == s.fields.Keys
    ensures k in s.fields ==> s.d.fields[k] == ValueOf(s.fields[k]) && Shows(s.fields[k])
  {
  }

  lemma ShownItem(s: Shape, i: nat)
    requires Shows(s) && s.AtList?
    ensures s.a.Length == |s.items|
    ensures i < |s.items| ==> s.a[i] == ValueOf(s.items[i]) && Shows(s.items[i])
  {
  }

  lemma DictCopies(c: Shape, s: Shape)
    requires c.AtDict? && s.AtDict? && c.fields.Keys == s.fields.Keys == c.d.fields.Keys
    requires forall k :: k in c.fields ==>
               && c.d.fields[k] == ValueOf(c.fields[k])
               && Copies(c.fields[k], TreeOf(s.fields[k]))
               && c.d !in Foot(c.fields[k])
    requires forall j, k :: j in c.fields && k in c.fields && j != k ==> Foot(c.fields[j]) !! Foot(c.fields[k])
    ensures Copies(c, TreeOf(s))
  {
    assert TreeOf(c).fields == Copied(TreeOf(s)).fields;
  }

  lemma ListCopies(c: Shape, s: Shape)
    requires c.AtList? && s.AtList? && |c.items| == |s.items| == c.a.Length
    requires forall i :: 0 <= i < |c.items| ==>
               c.a[i] == ValueOf(c.items[i]) && Copies(c.items[i], TreeOf(s.items[i])) && c.a !in Foot(c.items[i])
    requires forall i, j :: 0 <= i < j < |c.items| ==> Foot(c.items[i]) !! Foot(c.items[j])
    ensures Copies(c, TreeOf(s))
  {
    assert TreeOf(c).items == Copied(TreeOf(s)).items;
  }

  /** deepCopyJSONValue: the clone shares no container with the input, whatever the input shares with itself. */
  method DeepCopy(v: Value, ghost s: Shape) returns (clone: Value, ghost c: Shape)
    requires v == ValueOf(s) && Shows(s)
    ensures clone == ValueOf(c) && Copies(c, TreeOf(s)) && fresh(Foot(c))
    decreases s
  {
    match v {
      case Plain(x) => clone, c := Plain(CopiedScalar(x)), Flat(CopiedScalar(x));
      case Ref(d) => clone, c := CopyDict(d, s);
      case Slice(a) => clone, c := CopyList(a, s);
    }
  }

  method CopyList(a: array<Value>, ghost s: Shape) returns (clone: Value, ghost c: Shape)
    requires s.AtList? && s.a == a && Shows(s)
    ensures clone == ValueOf(c) && Copies(c, TreeOf(s)) && fresh(Foot(c))
    decreases s, 0
  {
    hide Shows, Copies, TreeOf, ValueOf, Foot;
    ShownItem(s, 0);
    FootExists(s);
    var all := new Value[a.Length](_ => Plain(Nil));
    ghost var items: seq<Shape> := [];
    ghost var used: set<object> := {};
    assert all !in Foot(s);
    for i := 0 to a.Length
      invariant |items| == i && Shows(s)
      invariant forall j :: 0 <= j < i ==>
                  all[j] == ValueOf(items[j]) && Copies(items[j], TreeOf(s.items[j])) && Foot(items[j]) <= used
      invariant fresh(used) && all !in used
      invariant forall j, k :: 0 <= j < k < i ==> Foot(items[j]) !! Foot(items[k])
    {
      ShownItem(s, i);
      var item, shape := DeepCopy(a[i], s.items[i]);
      assert Foot(shape) !! used + {all};
      all[i] := item;
      items, used := items + [shape], used + Foot(shape);
    }
    clone, c := Slice(all), AtList(all, items);
    ListCopies(c, s);
    forall o | o in Foot(c) ensures fresh(o) { InFoot(c, o); }
    assert clone == ValueOf(c) by { SliceOf(all, items); }
  }

  lemma SliceOf(a: array<Value>, items: seq<Shape>)
    ensures ValueOf(AtList(a, items)) == Slice(a)
  {
  }

  lemma RefOf(d: DictObj, fields: map<string, Shape>)
    ensures ValueOf(AtDict(d, fields)) == Ref(d)
  {
  }

  method CopyDict(d: DictObj, ghost s: Shape) returns (clone: Value, ghost c: Shape)
    requires s.AtDict? && s.d == d && Shows(s)
    ensures clone == ValueOf(c) && Copies(c, TreeOf(s)) && fresh(Foot(c))
    decreases s, 0
  {
    hide Shows, Copies, TreeOf, ValueOf, Foot;
    ShownField(s, "");
    FootExists(s);
    var all := new DictObj(map[]);
    ghost var fields: map<string, Shape> := map[];
    ghost var used: set<object> := {};
    var todo := d.fields.Keys;
    assert all !in Foot(s);
    while todo != {}
      invariant Shows(s) && todo <= d.fields.Keys && all.fields.Keys == fields.Keys == d.fields.Keys - todo
      invariant forall k :: k in fields ==>
                  && all.fields[k] == ValueOf(fields[k]) && Copies(fields[k], TreeOf(s.fields[k]))
                  && Foot(fields[k]) <= used
      invariant fresh(used) && all !in used
      invariant forall j, k :: j in fields && k in fields && j != k ==> Foot(fields[j]) !! Foot(fields[k])
    {
      var k :| k in todo;
      ShownField(s, k);
      var v, shape := DeepCopy(d.fields[k], s.fields[k]);
      assert Foot(shape) !! used + {all};
      all.fields := all.fields[k := v];
      fields, used, todo := fields[k := shape], used + Foot(shape), todo - {k};
    }
    clone, c := Ref(all), AtDict(all, fields);
    DictCopies(c, s);
    forall o | o in Foot(c) ensures fresh(o) { InFoot(c, o); }
    RefOf(all, fields);
  }
}
