/** Decoded JSON as Go holds it, and its deep copy (maps/deepcopy.go). */
module Trees {

  datatype Width = Int64 | Int32 | Native

  datatype Scalar =
    | Nil
    | Bool(b: bool)
    | Text(s: string)
    | Number(literal: string)
    | Int(width: Width, n: int)
    | Float(single: bool, x: real)

  datatype Tree =
    | Leaf(value: Scalar)
    | List(items: seq<Tree>)
    | Dict(fields: map<string, Tree>)

  const NIL := Leaf(Nil)

  /** Integers and floats are widened on the way. */
  function CopiedScalar(x: Scalar): Scalar {
    match x
    case Int(_, n) => Int(Int64, n)
    case Float(_, f) => Float(false, f)
    case _ => x
  }

  function Copied(t: Tree): Tree {
    match t
    case Leaf(x) => Leaf(CopiedScalar(x))
    case List(items) => List(seq(|items|, i requires 0 <= i < |items| => Copied(items[i])))
    case Dict(fields) => Dict(map k | k in fields :: Copied(fields[k]))
  }

  function CopiedFields(fields: map<string, Tree>): map<string, Tree> {
    Copied(Dict(fields)).fields
  }

  /** A copy of a copy is the copy. */
  lemma {:induction false} CopyIdempotent(t: Tree)
    ensures Copied(Copied(t)) == Copied(t)
  {
    match t {
      case Leaf(_) =>
      case List(items) =>
        forall i | 0 <= i < |items| ensures Copied(Copied(items[i])) == Copied(items[i]) { CopyIdempotent(items[i]); }
      case Dict(fields) =>
        forall k | k in fields ensures Copied(Copied(fields[k])) == Copied(fields[k]) { CopyIdempotent(fields[k]); }
        assert CopiedFields(CopiedFields(fields)) == CopiedFields(fields);
    }
  }

  /** Two scalars of one kind with one value; the width of a number does not count. */
  predicate SameValue(x: Scalar, y: Scalar) {
    match (x, y)
    case (Nil, Nil) => true
    case (Bool(a), Bool(b)) => a == b
    case (Text(a), Text(b)) => a == b
    case (Number(a), Number(b)) => a == b
    case (Int(_, m), Int(_, n)) => m == n
    case (Float(_, a), Float(_, b)) => a == b
    case _ => false
  }

  /** The same containers, keys and positions, and the same value at every leaf. */
  predicate SameTree(a: Tree, b: Tree) {
    match (a, b)
    case (Leaf(x), Leaf(y)) => SameValue(x, y)
    case (List(s), List(t)) => |s| == |t| && forall i :: 0 <= i < |s| ==> SameTree(s[i], t[i])
    case (Dict(m), Dict(n)) => m.Keys == n.Keys && forall k <- m :: SameTree(m[k], n[k])
    case _ => false
  }

  /** Every number is as wide as it can be. */
  predicate Wide(t: Tree) {
    match t
    case Leaf(x) => (x.Int? ==> x.width == Int64) && (x.Float? ==> !x.single)
    case List(items) => forall i :: 0 <= i < |items| ==> Wide(items[i])
    case Dict(fields) => forall k <- fields :: Wide(fields[k])
  }

  /** A copy has the value of the original at every leaf, in the widest form. */
  lemma {:induction false} CopyKeepsValues(t: Tree)
    ensures SameTree(t, Copied(t)) && Wide(Copied(t))
  {
    match t {
      case Leaf(_) =>
      case List(items) =>
        forall i | 0 <= i < |items| ensures SameTree(items[i], Copied(items[i])) && Wide(Copied(items[i])) {
          CopyKeepsValues(items[i]);
        }
      case Dict(fields) =>
        forall k | k in fields ensures SameTree(fields[k], Copied(fields[k])) && Wide(Copied(fields[k])) {
          CopyKeepsValues(fields[k]);
        }
    }
  }

  /** And there is one such tree: it is the copy. */
  lemma {:induction false} CopyIsUnique(t: Tree, u: Tree)
    requires SameTree(t, u) && Wide(u)
    ensures u == Copied(t)
    decreases t
  {
    match t {
      case Leaf(_) =>
      case List(items) =>
        forall i | 0 <= i < |items| ensures u.items[i] == Copied(items[i]) { CopyIsUnique(items[i], u.items[i]); }
        assert u.items == Copied(t).items;
      case Dict(fields) =>
        forall k | k in fields ensures u.fields[k] == Copied(fields[k]) { CopyIsUnique(fields[k], u.fields[k]); }
        assert u.fields == Copied(t).fields;
    }
  }
}
