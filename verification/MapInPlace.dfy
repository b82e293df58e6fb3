/** SetNestedValue as it runs: one container of the value is written in place (maps/maps.go). */
module MapInPlace {
  import opened Values
  import opened Decimal
  import opened Trees
  import opened MapAccess
  import opened MapHeap

  // ---- where a write goes ----

  function Nth(s: Shape, field: string): (i: Option<nat>)
    requires s.AtList?
    ensures i.Some? ==> i.value < |s.items|
  {
    var i := Atoi(field);
    if i.None? || i.value < 0 || i.value >= |s.items| then None else Some(i.value)
  }

  /** What a field selects; a missing key selects nil. */
  function Part(s: Shape, field: string): Option<Shape> {
    match s
    case Flat(_) => None
    case AtDict(_, fields) => Some(if field in fields then fields[field] else Flat(Nil))
    case AtList(_, items) => if Nth(s, field).None? then None else Some(items[Nth(s, field).value])
  }

  function WithPart(s: Shape, field: string, n: Shape): Shape
    requires Part(s, field).Some?
  {
    match s
    case AtDict(d, fields) => AtDict(d, fields[field := n])
    case AtList(a, items) => AtList(a, items[Nth(s, field).value := n])
  }

  /** The write ends here: the last field, or one field before the end with a scalar in the way. */
  predicate EndsHere(s: Shape, fields: seq<string>)
    requires fields != [] && Part(s, fields[0]).Some?
  {
    |fields| == 1 || (|fields| == 2 && Part(s, fields[0]).value.Flat?)
  }

  /** The way down exists. */
  predicate Goes(s: Shape, fields: seq<string>)
    decreases |fields|
  {
    fields != [] && Part(s, fields[0]).Some? && (EndsHere(s, fields) || Goes(Part(s, fields[0]).value, fields[1..]))
  }

  /** The container that is written. */
  function Spot(s: Shape, fields: seq<string>): Shape
    requires Goes(s, fields)
    decreases |fields|
  {
    if EndsHere(s, fields) then s else Spot(Part(s, fields[0]).value, fields[1..])
  }

  /** The field that is written. */
  function SpotField(s: Shape, fields: seq<string>): string
    requires Goes(s, fields)
    decreases |fields|
  {
    if EndsHere(s, fields) then fields[0] else SpotField(Part(s, fields[0]).value, fields[1..])
  }

  /** The value after the write. */
  function After(s: Shape, fields: seq<string>, n: Shape): Shape
    requires Goes(s, fields)
    decreases |fields|
  {
    if EndsHere(s, fields) then WithPart(s, fields[0], n)
    else WithPart(s, fields[0], After(Part(s, fields[0]).value, fields[1..], n))
  }

  // ---- what it means ----

  lemma PartTree(s: Shape, field: string)
    ensures Child(TreeOf(s), field) == if Part(s, field).None? then None else Some(TreeOf(Part(s, field).value))
    ensures TreeOf(s).Leaf? <==> s.Flat?
  {
  }

  lemma WithPartTree(s: Shape, field: string, n: Shape)
    requires Part(s, field).Some?
    ensures Child(TreeOf(s), field).Some? && TreeOf(WithPart(s, field, n)) == Put(TreeOf(s), field, TreeOf(n))
  {
    PartTree(s, field);
    if s.AtDict? {
      assert TreeOf(WithPart(s, field, n)).fields == TreeOf(s).fields[field := TreeOf(n)];
    } else {
      assert TreeOf(WithPart(s, field, n)).items == TreeOf(s).items[Nth(s, field).value := TreeOf(n)];
    }
  }

  /** The shape after the write means what the specified write makes of the tree. */
  lemma {:induction false} AfterMeans(s: Shape, fields: seq<string>, n: Shape)
    ensures Set(TreeOf(s), fields, TreeOf(n)) == if Goes(s, fields) then Some(TreeOf(After(s, fields, n))) else None
    decreases |fields|
  {
    hide TreeOf, Child, Put, Part, WithPart;
    if fields != [] {
      PartTree(s, fields[0]);
      if Part(s, fields[0]).Some? {
        var part := Part(s, fields[0]).value;
        PartTree(part, "");
        if EndsHere(s, fields) {
          WithPartTree(s, fields[0], n);
        } else {
          AfterMeans(part, fields[1..], n);
          if Goes(part, fields[1..]) { WithPartTree(s, fields[0], After(part, fields[1..], n)); }
        }
      }
    }
  }

  // ---- in place ----

  ghost function Obj(s: Shape): object
    requires !s.Flat?
  {
    if s.AtDict? then s.d else s.a
  }

  /** A part that the way goes on through is one of the value's own. */
  lemma PartInside(s: Shape, field: string)
    requires Part(s, field).Some? && !Part(s, field).value.Flat?
    ensures Foot(Part(s, field).value) <= Foot(s)
    ensures s.AtDict? ==> field in s.fields
  {
    FootOf(s);
  }

  lemma {:induction false} SpotInside(s: Shape, fields: seq<string>)
    requires Goes(s, fields)
    ensures !Spot(s, fields).Flat? && Obj(Spot(s, fields)) in Foot(s)
    ensures !EndsHere(s, fields) ==> !Part(s, fields[0]).value.Flat?
    ensures !EndsHere(s, fields) ==> Obj(Spot(s, fields)) in Foot(Part(s, fields[0]).value)
    decreases |fields|
  {
    hide Foot;
    FootOf(s);
    if !EndsHere(s, fields) {
      SpotInside(Part(s, fields[0]).value, fields[1..]);
      PartInside(s, fields[0]);
    }
  }

  /** A write of n into s along the fields; `kept` are containers that stay as they are. */
  datatype Write = Write(s: Shape, fields: seq<string>, n: Shape, kept: set<object>)

  twostate predicate Kept(foot: set<object>)
    reads foot
  {
    unchanged(foot)
  }

  /** The container that the write goes to has its new entry, and everything kept is as it was. */
  twostate predicate Wrote(w: Write)
    requires Goes(w.s, w.fields) && !Spot(w.s, w.fields).Flat?
    reads w.kept, {Obj(Spot(w.s, w.fields))}
  {
    var c, field := Spot(w.s, w.fields), SpotField(w.s, w.fields);
    && Kept(w.kept)
    && (c.AtDict? ==> c.d.fields == old(c.d.fields)[field := ValueOf(w.n)])
    && (c.AtList? ==>
          && c.a.Length == |c.items| && Nth(c, field).Some?
          && c.a[..] == old(c.a[..])[Nth(c, field).value := ValueOf(w.n)])
  }

  twostate lemma StillShown(w: Write)
    requires old(Shows(w.s)) && Foot(w.s) <= w.kept && Kept(w.kept)
    ensures Shows(w.s)
  {
  }

  /** The parts of a value that are kept are shown as before. */
  twostate lemma FieldsStillShown(w: Write)
    requires old(Shows(w.s)) && w.s.AtDict? && Kept(w.kept)
    ensures forall k :: k in w.s.fields && Foot(w.s.fields[k]) <= w.kept ==> Shows(w.s.fields[k])
  {
    forall k | k in w.s.fields && Foot(w.s.fields[k]) <= w.kept ensures Shows(w.s.fields[k]) {
      StillShown(w.(s := w.s.fields[k]));
    }
  }

  twostate lemma ItemsStillShown(w: Write)
    requires old(Shows(w.s)) && w.s.AtList? && Kept(w.kept)
    ensures forall i :: 0 <= i < |w.s.items| && Foot(w.s.items[i]) <= w.kept ==> Shows(w.s.items[i])
  {
    forall i | 0 <= i < |w.s.items| && Foot(w.s.items[i]) <= w.kept ensures Shows(w.s.items[i]) {
      StillShown(w.(s := w.s.items[i]));
    }
  }

  /** The write at the outermost container. */
  twostate lemma ShownHere(w: Write)
    requires old(Shows(w.s)) && Tidy(w.s) && Goes(w.s, w.fields) && EndsHere(w.s, w.fields) && Shows(w.n)
    requires !w.s.Flat? && Foot(w.s) - {Obj(w.s)} <= w.kept && Wrote(w)
    ensures Shows(WithPart(w.s, w.fields[0], w.n))
  {
    hide Foot;
    FootOf(w.s);
    if w.s.AtDict? { FieldsStillShown(w); } else { ItemsStillShown(w); }
  }

  /** A write inside one part, the part shown again. */
  twostate lemma ShownAround(w: Write)
    requires old(Shows(w.s)) && Tidy(w.s) && w.fields != [] && Part(w.s, w.fields[0]).Some?
    requires !Part(w.s, w.fields[0]).value.Flat? && Shows(w.n) && Kept(w.kept)
    requires ValueOf(w.n) == ValueOf(Part(w.s, w.fields[0]).value)
    requires Foot(w.s) - Foot(Part(w.s, w.fields[0]).value) <= w.kept
    ensures Shows(WithPart(w.s, w.fields[0], w.n))
  {
    hide Foot;
    FootOf(w.s);
    PartInside(w.s, w.fields[0]);
    if w.s.AtDict? {
      FieldsStillShown(w);
    } else {
      var j := Nth(w.s, w.fields[0]).value;
      assert forall i :: 0 <= i < |w.s.items| && i != j ==> Foot(w.s.items[i]) !! Foot(w.s.items[j]);
      ItemsStillShown(w);
    }
  }

  twostate lemma PartShown(w: Write)
    requires old(Shows(w.s)) && Tidy(w.s) && w.fields != [] && Part(w.s, w.fields[0]).Some?
    ensures old(Shows(Part(w.s, w.fields[0]).value)) && Tidy(Part(w.s, w.fields[0]).value)
  {
  }

  /** Wherever the write went, the value is shown again, changed there and nowhere else. */
  twostate lemma {:induction false} ShownAfter(w: Write)
    requires old(Shows(w.s)) && Tidy(w.s) && Goes(w.s, w.fields) && Shows(w.n) && !Spot(w.s, w.fields).Flat?
    requires Foot(w.s) - {Obj(Spot(w.s, w.fields))} <= w.kept && Wrote(w)
    ensures Shows(After(w.s, w.fields, w.n)) && ValueOf(After(w.s, w.fields, w.n)) == ValueOf(w.s)
    decreases |w.fields|
  {
    hide Foot, Shows, Tidy;
    if EndsHere(w.s, w.fields) {
      ShownHere(w);
    } else {
      var part := Part(w.s, w.fields[0]).value;
      SpotInside(w.s, w.fields);
      PartInside(w.s, w.fields[0]);
      PartShown(w);
      ShownAfter(Write(part, w.fields[1..], w.n, w.kept));
      ShownAround(w.(n := After(part, w.fields[1..], w.n)));
    }
  }

  /** What a value holds at the moment under a field. */
  method Select(current: Value, field: string, ghost cur: Shape) returns (r: Option<Value>)
    requires current == ValueOf(cur) && Shows(cur)
    ensures r == if Part(cur, field).None? then None else Some(ValueOf(Part(cur, field).value))
    ensures r.Some? ==> Shows(Part(cur, field).value)
  {
    match current {
      case Plain(_) => r := None;
      case Ref(d) => r := Some(if field in d.fields then d.fields[field] else Plain(Nil));
      case Slice(a) =>
        var index := Atoi(field);
        if index.None? || index.value < 0 || index.value >= a.Length { return None; }
        r := Some(a[index.value]);
    }
  }

  /** The write itself: one entry of one container. */
  method Store(container: Value, field: string, v: Value, ghost c: Shape, ghost n: Shape)
    requires container == ValueOf(c) && Shows(c) && Part(c, field).Some? && v == ValueOf(n)
    modifies Obj(c)
    ensures c.AtDict? ==> c.d.fields == old(c.d.fields)[field := v]
    ensures c.AtList? ==>
              c.a.Length == |c.items| && Nth(c, field).Some? && c.a[..] == old(c.a[..])[Nth(c, field).value := v]
  {
    match container {
      case Ref(d) => d.fields := d.fields[field := v];
      case Slice(a) => a[Atoi(field).value] := v;
    }
  }

  /** The walk has come to a shape: what the write does from there on is what it does altogether. */
  ghost predicate Onward(s: Shape, fields: seq<string>, at: Shape, rest: seq<string>) {
    && (Goes(s, fields) <==> Goes(at, rest))
    && (Goes(s, fields) ==>
          Spot(s, fields) == Spot(at, rest) && SpotField(s, fields) == SpotField(at, rest))
  }

  lemma OnwardStep(s: Shape, fields: seq<string>, at: Shape, rest: seq<string>)
    requires Onward(s, fields, at, rest) && rest != [] && Part(at, rest[0]).Some? && !EndsHere(at, rest)
    ensures Onward(s, fields, Part(at, rest[0]).value, rest[1..])
  {
  }

  /** A scalar stops the way, one field before the end or earlier. */
  lemma ScalarStops(at: Shape, rest: seq<string>)
    requires |rest| >= 2 && Part(at, rest[0]).Some? && Part(at, rest[0]).value.Flat?
    ensures Goes(at, rest) <==> |rest| == 2
    ensures |rest| == 2 ==> Spot(at, rest) == at && SpotField(at, rest) == rest[0]
  {
  }

  /** The write meets a value without sharing, in itself or with the new part. */
  ghost predicate Unshared(w: Write) {
    Tidy(w.s) && Foot(w.n) !! Foot(w.s)
  }

  /** Writes at the end of the way; a value without sharing is then shown again. */
  method Finish(container: Value, field: string, v: Value, ghost w: Write)
    requires Shows(w.s) && Goes(w.s, w.fields)
    requires v == ValueOf(w.n) && container == ValueOf(Spot(w.s, w.fields)) && field == SpotField(w.s, w.fields)
    requires Shows(Spot(w.s, w.fields)) && Part(Spot(w.s, w.fields), field).Some? && w.kept == Foot(w.s)
    modifies w.kept
    ensures !Spot(w.s, w.fields).Flat? && Wrote(w.(kept := w.kept - {Obj(Spot(w.s, w.fields))}))
    ensures old(Shows(w.n)) && Unshared(w) ==>
              Shows(After(w.s, w.fields, w.n)) && ValueOf(After(w.s, w.fields, w.n)) == ValueOf(w.s)
  {
    hide Foot, Shows, Tidy;
    SpotInside(w.s, w.fields);
    ghost var c := Spot(w.s, w.fields);
    FootExists(w.n);
    Store(container, field, v, c, w.n);
    if old(Shows(w.n)) && Unshared(w) { ShownAfter(w.(kept := w.kept - {Obj(c)})); }
  }

  /** The walk down, the parent kept at hand: the container and the field to write, or failure. */
  method FindSpot(obj: DictObj, fields: seq<string>, ghost s: Shape)
    returns (ok: bool, container: Value, field: string)
    requires s.AtDict? && s.d == obj && Shows(s)
    ensures ok <==> Goes(s, fields)
    ensures ok ==> container == ValueOf(Spot(s, fields)) && field == SpotField(s, fields)
    ensures ok ==> Shows(Spot(s, fields)) && Part(Spot(s, fields), field).Some?
  {
    hide Foot, Shows, Goes, Spot, SpotField, Part;
    var current, parent, parentKey := Ref(obj), Ref(obj), "";
    ghost var cur, par := s, s;
    assert fields[0..] == fields && Onward(s, fields, s, fields);
    for i := 0 to |fields|
      invariant current == ValueOf(cur) && Shows(cur) && (cur.Flat? ==> i > 0)
      invariant !cur.Flat? ==> Onward(s, fields, cur, fields[i..])
      invariant cur.Flat? ==>
                  && parent == ValueOf(par) && Shows(par) && parentKey == fields[i - 1]
                  && Part(par, parentKey) == Some(cur) && Onward(s, fields, par, fields[i - 1..])
      invariant fields != [] ==> i < |fields|
    {
      if current.Plain? {
        assert fields[i - 1..][0] == parentKey && |fields[i - 1..]| == |fields| - i + 1;
        ScalarStops(par, fields[i - 1..]);
        if i == |fields| - 1 { return true, parent, parentKey; }
        return false, parent, parentKey;
      }
      FootExists(cur);
      var next := Select(current, fields[i], cur);
      assert fields[i..][0] == fields[i] && fields[i..][1..] == fields[i + 1..];
      if next.None? {
        NoWay(cur, fields[i..]);
        return false, current, fields[i];
      }
      if i == |fields| - 1 {
        LastField(cur, fields[i..]);
        return true, current, fields[i];
      }
      if !next.value.Plain? { OnwardStep(s, fields, cur, fields[i..]); }
      parent, parentKey, par := current, fields[i], cur;
      current, cur := next.value, Part(cur, fields[i]).value;
    }
    NothingToSet(s, fields);
    ok, container, field := false, current, "";
  }

  /**
   * SetNestedValue: it succeeds exactly when the specified write does, and then one entry of one container has changed;
   * none has if it fails. Without sharing, the value in place is then what the specified write makes of it.
   */
  method SetNestedValue(obj: DictObj, fields: seq<string>, newValue: Value, ghost s: Shape, ghost n: Shape,
                        ghost foot: set<object>)
    returns (ok: bool)
    requires s.AtDict? && s.d == obj && Shows(s) && foot == Foot(s) && newValue == ValueOf(n)
    modifies foot
    ensures ok <==> Goes(s, fields)
    ensures Set(TreeOf(s), fields, TreeOf(n)) == if ok then Some(TreeOf(After(s, fields, n))) else None
    ensures ok ==> !Spot(s, fields).Flat? && Wrote(Write(s, fields, n, foot - {Obj(Spot(s, fields))}))
    ensures ok && old(Shows(n)) && Unshared(Write(s, fields, n, foot)) ==>
              Shows(After(s, fields, n)) && ValueOf(After(s, fields, n)) == Ref(obj)
    ensures !ok ==> Kept(foot)
  {
    hide Foot, Shows, Tidy, TreeOf, Set, Goes, Spot, SpotField, After, Part;
    AfterMeans(s, fields, n);
    var container, field;
    FootExists(s);
    FootExists(n);
    ok, container, field := FindSpot(obj, fields, s);
    if ok {
      SpotInside(s, fields);
      Finish(container, field, newValue, Write(s, fields, n, foot));
    }
  }

  lemma NoWay(at: Shape, rest: seq<string>)
    requires rest != [] && Part(at, rest[0]).None?
    ensures !Goes(at, rest)
  {
  }

  lemma LastField(at: Shape, rest: seq<string>)
    requires |rest| == 1 && Part(at, rest[0]).Some?
    ensures Goes(at, rest) && Spot(at, rest) == at && SpotField(at, rest) == rest[0]
  {
  }

  lemma NothingToSet(s: Shape, fields: seq<string>)
    ensures fields == [] ==> !Goes(s, fields)
  {
  }
}
