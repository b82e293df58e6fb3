/** Reorder as it runs: a new value, built in place out of copied parts of the input (maps/reorder.go, maps/maps.go). */
module MapRebuild {
  import opened Values
  import opened Trees
  import opened MapPaths
  import opened MapReorder
  import opened MapHeap
  import opened MapInPlace

  // ---- reading ----

  datatype Reply = Got(v: Value) | Absent | Blocked

  lemma TreeParts(s: Shape, k: string)
    ensures TreeOf(s).Dict? <==> s.AtDict?
    ensures TreeOf(s) == NIL <==> s == Flat(Nil)
    ensures s.AtDict? ==> TreeOf(s).fields.Keys == s.fields.Keys
    ensures s.AtDict? && k in s.fields ==> TreeOf(s).fields[k] == TreeOf(s.fields[k])
  {
  }

  /** nestedFieldNoCopy: the value itself, not a copy. */
  method NestedField(obj: DictObj, f: Names, ghost s: Shape) returns (r: Reply, ghost at: Shape)
    requires s.AtDict? && s.d == obj && Shows(s)
    ensures match Find(TreeOf(s), f)
            case Found(t) => r == Got(ValueOf(at)) && Shows(at) && TreeOf(at) == t
            case Missing => r == Absent
            case Failed => r == Blocked
  {
    hide TreeOf, Shows, Foot;
    var val := Ref(obj);
    at := s;
    for i := 0 to |f|
      invariant val == ValueOf(at) && Shows(at)
      invariant Find(TreeOf(s), f) == Find(TreeOf(at), f[i..])
    {
      assert f[i..][1..] == f[i + 1..];
      TreeParts(at, f[i]);
      match val {
        case Plain(x) => return if x.Nil? then Absent else Blocked, at;
        case Slice(_) => return Blocked, at;
        case Ref(d) =>
          ShownField(at, f[i]);
          if f[i] !in d.fields { return Absent, at; }
          val, at := d.fields[f[i]], at.fields[f[i]];
      }
    }
    r := Got(val);
  }

  // ---- writing ----

  /** A way down through maps only. */
  ghost predicate DictPath(s: Shape, g: Names)
    decreases |g|
  {
    s.AtDict? && (g == [] || (g[0] in s.fields && DictPath(s.fields[g[0]], g[1..])))
  }

  ghost function End(s: Shape, g: Names): (r: Shape)
    requires DictPath(s, g)
    ensures r.AtDict?
    decreases |g|
  {
    if g == [] then s else End(s.fields[g[0]], g[1..])
  }

  ghost predicate Front(s: Shape, g: Names) {
    g != [] && DictPath(s, g[..|g| - 1])
  }

  lemma FrontStep(s: Shape, g: Names)
    requires Front(s, g) && |g| > 1
    ensures s.AtDict? && g[0] in s.fields && Front(s.fields[g[0]], g[1..])
    ensures End(s, g[..|g| - 1]) == End(s.fields[g[0]], g[1..][..|g| - 2])
  {
    assert g[..|g| - 1][1..] == g[1..][..|g| - 2];
  }

  /** A write after such a way goes to its last map. */
  lemma {:induction false} FrontGoes(s: Shape, g: Names)
    requires Front(s, g)
    ensures Goes(s, g) && Spot(s, g) == End(s, g[..|g| - 1]) && SpotField(s, g) == g[|g| - 1]
    ensures Part(Spot(s, g), g[|g| - 1]).Some?
    decreases |g|
  {
    if |g| > 1 {
      FrontStep(s, g);
      FrontGoes(s.fields[g[0]], g[1..]);
      assert s.fields[g[0]].AtDict?;
    }
  }

  ghost function PutAt(s: Shape, g: Names, n: Shape): (r: Shape)
    requires Front(s, g)
    ensures r.AtDict? && r.d == s.d
    decreases |g|
  {
    if |g| == 1 then AtDict(s.d, s.fields[g[0] := n])
    else
      FrontStep(s, g);
      AtDict(s.d, s.fields[g[0] := PutAt(s.fields[g[0]], g[1..], n)])
  }

  lemma {:induction false} AfterIsPut(s: Shape, g: Names, n: Shape)
    requires Front(s, g)
    ensures Goes(s, g) && After(s, g, n) == PutAt(s, g, n)
    decreases |g|
  {
    FrontGoes(s, g);
    if |g| > 1 {
      FrontStep(s, g);
      AfterIsPut(s.fields[g[0]], g[1..], n);
      assert s.fields[g[0]].AtDict?;
    }
  }

  lemma {:induction false} PutIsEnd(s: Shape, g: Names, n: Shape)
    requires Front(s, g) && n.AtDict?
    ensures DictPath(PutAt(s, g, n), g) && End(PutAt(s, g, n), g) == n
    decreases |g|
  {
    if |g| > 1 {
      FrontStep(s, g);
      PutIsEnd(s.fields[g[0]], g[1..], n);
    } else {
      assert g[1..] == [];
    }
  }

  lemma PutTree(s: Shape, g: Names, n: Shape)
    requires Front(s, g)
    ensures |g| > 1 ==> g[0] in s.fields && Front(s.fields[g[0]], g[1..])
    ensures TreeOf(PutAt(s, g, n)).Dict? && TreeOf(s).Dict?
    ensures TreeOf(PutAt(s, g, n)).fields
            == TreeOf(s).fields[g[0] := TreeOf(if |g| == 1 then n else PutAt(s.fields[g[0]], g[1..], n))]
  {
    if |g| > 1 { FrontStep(s, g); }
  }

  lemma {:induction false} PutIsSet(s: Shape, g: Names, n: Shape)
    requires Front(s, g)
    ensures TreeOf(s).Dict? && TreeOf(PutAt(s, g, n)).Dict?
    ensures SetField(TreeOf(s).fields, g, TreeOf(n)) == Some(TreeOf(PutAt(s, g, n)).fields)
    decreases |g|
  {
    hide TreeOf;
    PutTree(s, g, n);
    if |g| > 1 {
      FrontStep(s, g);
      TreeParts(s, g[0]);
      PutIsSet(s.fields[g[0]], g[1..], n);
      TreeParts(PutAt(s.fields[g[0]], g[1..], n), "");
    }
  }

  /** Making a map that is missing on the way does not change what the whole write makes. */
  lemma {:induction false} MadeOnTheWay(s: Shape, g: Names, h: Names, n: Shape, v: Tree)
    requires Front(s, g) && g[|g| - 1] !in End(s, g[..|g| - 1]).fields && h != [] && n.AtDict? && n.fields == map[]
    ensures TreeOf(s).Dict? && TreeOf(PutAt(s, g, n)).Dict?
    ensures SetField(TreeOf(PutAt(s, g, n)).fields, g + h, v) == SetField(TreeOf(s).fields, g + h, v)
    decreases |g|
  {
    PutTree(s, g, n);
    TreeParts(s, g[0]);
    TreeParts(n, "");
    hide TreeOf;
    assert (g + h)[0] == g[0] && (g + h)[1..] == g[1..] + h;
    var m, m' := TreeOf(s).fields, TreeOf(PutAt(s, g, n)).fields;
    if |g| > 1 {
      FrontStep(s, g);
      MadeOnTheWay(s.fields[g[0]], g[1..], h, n, v);
    }
    SetThrough(m, m', g + h, v);
  }

  /** What a write makes of a map depends on the entries it does not take and on what the rest of it makes. */
  lemma SetThrough(m: map<string, Tree>, m': map<string, Tree>, f: Names, v: Tree)
    requires |f| > 1 && f[0] in m' && m' == m[f[0] := m'[f[0]]] && m'[f[0]].Dict?
    requires f[0] in m ==> m[f[0]].Dict?
    requires SetField(m'[f[0]].fields, f[1..], v)
             == SetField(if f[0] in m then m[f[0]].fields else map[], f[1..], v)
    ensures SetField(m', f, v) == SetField(m, f, v)
  {
    var sub := SetField(m'[f[0]].fields, f[1..], v);
    if sub.Some? { assert m'[f[0] := Dict(sub.value)] == m[f[0] := Dict(sub.value)]; }
  }

  lemma {:induction false} BlockedOnTheWay(s: Shape, g: Names, h: Names, v: Tree)
    requires Front(s, g) && h != []
    requires var end, k := End(s, g[..|g| - 1]), g[|g| - 1]; k in end.fields && !end.fields[k].AtDict?
    ensures TreeOf(s).Dict? && SetField(TreeOf(s).fields, g + h, v).None?
    decreases |g|
  {
    assert (g + h)[0] == g[0] && (g + h)[1..] == g[1..] + h;
    TreeParts(s, g[0]);
    hide TreeOf;
    if |g| > 1 {
      FrontStep(s, g);
      BlockedOnTheWay(s.fields[g[0]], g[1..], h, v);
    } else {
      TreeParts(s.fields[g[0]], "");
    }
  }

  /** A part that shares nothing leaves the value without sharing. */
  lemma {:induction false} PutIsTidy(s: Shape, g: Names, n: Shape)
    requires Front(s, g) && Tidy(s) && Tidy(n) && Foot(n) !! Foot(s)
    ensures Tidy(PutAt(s, g, n)) && Foot(PutAt(s, g, n)) <= Foot(s) + Foot(n)
    decreases |g|
  {
    hide Foot, Tidy;
    TidyMeans(s, g[0]);
    if |g| > 1 {
      FrontStep(s, g);
      PutIsTidy(s.fields[g[0]], g[1..], n);
    }
    FieldIsTidy(s, g[0], if |g| == 1 then n else PutAt(s.fields[g[0]], g[1..], n));
  }

  lemma TidyMeans(s: Shape, k: string)
    requires s.AtDict? && Tidy(s)
    ensures s.d in Foot(s) && (k in s.fields ==> Tidy(s.fields[k]) && Foot(s.fields[k]) <= Foot(s) - {s.d})
    ensures forall j :: j in s.fields && j != k ==> Foot(s.fields[j]) <= Foot(s) - {s.d}
    ensures k in s.fields ==> forall j :: j in s.fields && j != k ==> Foot(s.fields[j]) !! Foot(s.fields[k])
  {
    FootOf(s);
  }

  lemma FieldIsTidy(s: Shape, k: string, n: Shape)
    requires s.AtDict? && Tidy(s) && Tidy(n) && s.d !in Foot(n)
    requires forall j :: j in s.fields && j != k ==> Foot(s.fields[j]) !! Foot(n)
    ensures var r := AtDict(s.d, s.fields[k := n]); Tidy(r) && Foot(r) <= Foot(s) + Foot(n)
  {
    hide Foot;
    var r := AtDict(s.d, s.fields[k := n]);
    FootOf(s);
    forall o | o in Foot(r) ensures o in Foot(s) + Foot(n) { InFoot(r, o); }
  }

  /** One entry of the map at the end of a way is written, and the whole value is shown again. */
  method WriteField(m: DictObj, k: string, v: Value, ghost s: Shape, ghost g: Names, ghost n: Shape)
    requires Front(s, g) && k == g[|g| - 1] && m == End(s, g[..|g| - 1]).d
    requires Shows(s) && Tidy(s) && v == ValueOf(n) && Shows(n) && Tidy(n) && Foot(n) !! Foot(s)
    modifies Foot(s)
    ensures var r := PutAt(s, g, n); Shows(r) && Tidy(r) && Foot(r) <= Foot(s) + Foot(n)
  {
    hide Foot, Shows, Tidy;
    FrontGoes(s, g);
    AfterIsPut(s, g, n);
    PutIsTidy(s, g, n);
    SpotShown(s, g);
    Finish(Ref(m), k, v, Write(s, g, n, Foot(s)));
  }

  lemma {:induction false} SpotShown(s: Shape, g: Names)
    requires Front(s, g) && Shows(s)
    ensures Shows(End(s, g[..|g| - 1]))
    decreases |g|
  {
    hide Foot;
    if |g| > 1 {
      FrontStep(s, g);
      ShownField(s, g[0]);
      SpotShown(s.fields[g[0]], g[1..]);
    }
  }

  /**
   * SetNestedField: a copy of the value is put in place along the way down, and missing maps are made. Anything else in
   * the way is an error, found before anything is written.
   */
  method SetNestedField(obj: DictObj, value: Value, f: Names, ghost s: Shape, ghost vs: Shape)
    returns (ok: bool, ghost r: Shape)
    requires s.AtDict? && s.d == obj && Shows(s) && Tidy(s) && f != [] && value == ValueOf(vs) && Shows(vs)
    modifies Foot(s)
    ensures r.AtDict? && r.d == obj && Shows(r) && Tidy(r) && forall o :: o in Foot(r) ==> o in Foot(s) || fresh(o)
    ensures TreeOf(s).Dict? && TreeOf(r).Dict?
    ensures var set_ := SetField(TreeOf(s).fields, f, Copied(TreeOf(vs)));
            ok == set_.Some? && TreeOf(r).fields == if ok then set_.value else TreeOf(s).fields
    ensures !ok ==> r == s && Kept(Foot(s))
  {
    hide Foot, Shows, Tidy, TreeOf, SetField, Copied, End, DictPath, PutAt;
    ghost var foot := Foot(s);
    FootExists(s);
    TreeParts(s, "");
    var copy, n := DeepCopy(value, vs);
    FootExists(n);
    ghost var tree := Copied(TreeOf(vs));
    var m := obj;
    ghost var made := false;
    r := s;
    EmptyPath(s);
    for i := 0 to |f| - 1
      invariant Shows(r) && Tidy(r) && r.AtDict? && r.d == obj && forall o :: o in Foot(r) ==> o in foot || fresh(o)
      invariant Shows(n) && fresh(Foot(n)) && Foot(n) !! Foot(r)
      invariant DictPath(r, f[..i]) && End(r, f[..i]).d == m
      invariant if made then End(r, f[..i]).fields == map[] else r == s && Kept(foot)
      invariant TreeOf(r).Dict? && SetField(TreeOf(r).fields, f, tree) == SetField(TreeOf(s).fields, f, tree)
    {
      ghost var g, h := f[..i + 1], f[i + 1..];
      assert g + h == f && g[..|g| - 1] == f[..i] && Front(r, g);
      ghost var end := End(r, f[..i]);
      SpotShown(r, g);
      ShownField(end, f[i]);
      if f[i] in m.fields {
        match m.fields[f[i]] {
          case Ref(d) =>
            PathMore(r, g);
            m := d;
          case _ =>
            BlockedOnTheWay(r, g, h, tree);
            return false, r;
        }
      } else {
        FootExists(r);
        FootExists(n);
        var d := new DictObj(map[]);
        ghost var e := AtDict(d, map[]);
        NewDict(d);
        MadeOnTheWay(r, g, h, e, tree);
        PutIsEnd(r, g, e);
        WriteField(m, f[i], Ref(d), r, g, e);
        m, made, r := d, true, PutAt(r, g, e);
      }
    }
    assert Front(r, f) && f[..|f|] == f;
    PutIsSet(r, f, n);
    WriteField(m, f[|f| - 1], copy, r, f, n);
    PutIsDict(r, f, n);
    ok, r := true, PutAt(r, f, n);
  }

  lemma EmptyPath(s: Shape)
    requires s.AtDict?
    ensures DictPath(s, []) && End(s, []) == s
  {
  }

  lemma NewDict(d: DictObj)
    ensures var e := AtDict(d, map[]); Foot(e) == {d} && Tidy(e) && (d.fields == map[] ==> Shows(e))
  {
  }

  lemma PutIsDict(s: Shape, g: Names, n: Shape)
    requires Front(s, g)
    ensures PutAt(s, g, n).AtDict? && PutAt(s, g, n).d == s.d
  {
  }

  lemma {:induction false} PathMore(s: Shape, g: Names)
    requires Front(s, g)
    requires var end, k := End(s, g[..|g| - 1]), g[|g| - 1]; k in end.fields && end.fields[k].AtDict?
    ensures DictPath(s, g) && End(s, g) == End(s, g[..|g| - 1]).fields[g[|g| - 1]]
    decreases |g|
  {
    if |g| > 1 {
      FrontStep(s, g);
      PathMore(s.fields[g[0]], g[1..]);
    } else {
      assert g[1..] == [];
    }
  }

  // ---- the run ----

  /** The value as it stands, for listing its leaves. */
  method ReadTree(v: Value, ghost s: Shape) returns (t: Tree)
    requires v == ValueOf(s) && Shows(s)
    ensures t == TreeOf(s)
    decreases s
  {
    match v {
      case Plain(x) => t := Leaf(x);
      case Ref(d) => t := ReadDict(d, s);
      case Slice(a) => t := ReadList(a, s);
    }
  }

  method ReadDict(d: DictObj, ghost s: Shape) returns (t: Tree)
    requires s.AtDict? && s.d == d && Shows(s)
    ensures t == TreeOf(s)
    decreases s, 0
  {
    FootExists(s);
    var fields: map<string, Tree> := map[];
    var todo := d.fields.Keys;
    while todo != {}
      invariant Shows(s) && todo <= d.fields.Keys && fields.Keys == d.fields.Keys - todo
      invariant forall k :: k in fields ==> fields[k] == TreeOf(s.fields[k])
    {
      var k :| k in todo;
      var part := ReadTree(d.fields[k], s.fields[k]);
      fields, todo := fields[k := part], todo - {k};
    }
    t := Dict(fields);
  }

  method ReadList(a: array<Value>, ghost s: Shape) returns (t: Tree)
    requires s.AtList? && s.a == a && Shows(s)
    ensures t == TreeOf(s)
    decreases s, 0
  {
    FootExists(s);
    var items: seq<Tree> := [];
    for i := 0 to a.Length
      invariant Shows(s) && |items| == i && forall j :: 0 <= j < i ==> items[j] == TreeOf(s.items[j])
    {
      var part := ReadTree(a[i], s.items[i]);
      items := items + [part];
    }
    t := List(items);
  }

  /** The output so far: a value of its own that holds what has been built. */
  ghost predicate Built(s: Shape, o: Shape, places: iset<Names>)
    reads Foot(o)
  {
    && s.AtDict? && o.AtDict? && Shows(o) && Tidy(o) && Foot(o) !! Foot(s)
    && TreeOf(s).Dict? && AllFound(TreeOf(s).fields, places) && TreeOf(o) == Dict(Build(TreeOf(s).fields, places))
  }

  /** Copies the value at one parsed path from the input to the output, if the input has it. */
  method Carry(input: DictObj, output: DictObj, parsed: Names, ghost s: Shape, ghost o: Shape,
               ghost places: iset<Names>)
    returns (found: bool, ghost r: Shape)
    requires s.AtDict? && s.d == input && Shows(s) && Built(s, o, places) && o.d == output && parsed != []
    modifies Foot(o)
    ensures Shows(s) && found == Find(TreeOf(s), parsed).Found?
    ensures Built(s, r, if found then places + iset{parsed} else places) && r.d == output
    ensures forall x :: x in Foot(r) ==> x in Foot(o) || fresh(x)
  {
    hide Foot, Shows, Tidy, TreeOf, Build, Find, SetField, AllFound, Copied;
    FootExists(s);
    FootExists(o);
    var reply, at := NestedField(input, parsed, s);
    if !reply.Got? { return false, o; }
    var val, vs := DeepCopy(reply.v, at);
    CopyIdempotent(TreeOf(at));
    TreeParts(s, "");
    SetBuild(TreeOf(s).fields, places, parsed);
    var ok;
    ok, r := SetNestedField(output, val, parsed, o, vs);
    TreeParts(r, "");
    assert AllFound(TreeOf(s).fields, places + iset{parsed}) by { OneMoreFound(TreeOf(s).fields, places, parsed); }
    found := true;
  }

  lemma OneMoreFound(m: map<string, Tree>, s: iset<Names>, g: Names)
    requires AllFound(m, s) && g != [] && Find(Dict(m), g).Found?
    ensures AllFound(m, s + iset{g})
  {
    hide Find;
  }

  /**
   * Reorder: the output is a value of its own, all of its containers new, and holds the copied parts of the input on or
   * under the listed and leaf places, whatever order the leaves are listed in. The input is left alone.
   */
  method Reorder(input: DictObj, paths: seq<string>, ghost s: Shape) returns (output: DictObj, ghost o: Shape)
    requires s.AtDict? && s.d == input && Shows(s) && TreeOf(s).Dict?
    requires forall j :: 0 <= j < |paths| ==> Parsed(paths[j]) != []
    requires forall r :: LeafAt(TreeOf(s).fields, r) ==> Parsed(Render("", r)) != []
    ensures o.AtDict? && o.d == output && Shows(o) && Tidy(o) && fresh(Foot(o))
    ensures var m := TreeOf(s).fields;
            TreeOf(o) == Dict(Build(m, Listed(m, paths) + LeafPlaces(m)))
  {
    hide Build, Parsed, Find, Listed, AllFound, LeafAt, Render, Lists, LeafPlaces, Shows, Foot, Tidy, TreeOf;
    ghost var m := TreeOf(s).fields;
    FootExists(s);
    output := new DictObj(map[]);
    o := AtDict(output, map[]);
    NothingBuilt(s, output, m, paths);
    var included: set<string> := {};
    for i := 0 to |paths|
      invariant Shows(s) && Built(s, o, Listed(m, paths[..i])) && o.d == output && fresh(Foot(o))
      invariant forall p :: p in included ==> Parsed(p) in Listed(m, paths[..i])
    {
      ListedMore(m, paths, i);
      FootExists(o);
      var parsed := ParsePath(paths[i]);
      var found;
      ghost var places := Listed(m, paths[..i]);
      found, o := Carry(input, output, parsed, s, o, places);
      assert Listed(m, paths[..i + 1]) == if found then places + iset{parsed} else places;
      if found { included := included + {paths[i]}; }
    }
    assert paths[..|paths|] == paths;
    o := CarryLeaves(input, output, included, s, o, paths);
  }

  /** Step 2: every leaf not yet there. */
  method CarryLeaves(input: DictObj, output: DictObj, included: set<string>, ghost s: Shape, ghost o: Shape,
                     ghost paths: seq<string>)
    returns (ghost r: Shape)
    requires s.AtDict? && s.d == input && Shows(s) && TreeOf(s).Dict?
    requires Built(s, o, Listed(TreeOf(s).fields, paths)) && o.d == output
    requires forall p :: p in included ==> Parsed(p) in Listed(TreeOf(s).fields, paths)
    requires forall r :: LeafAt(TreeOf(s).fields, r) ==> Parsed(Render("", r)) != []
    modifies Foot(o)
    ensures Built(s, r, Listed(TreeOf(s).fields, paths) + LeafPlaces(TreeOf(s).fields)) && r.d == output
    ensures forall x :: x in Foot(r) ==> x in Foot(o) || fresh(x)
  {
    hide Build, Parsed, Find, Listed, AllFound, LeafAt, Render, Lists, LeafPlaces, Shows, Foot, Tidy, TreeOf;
    ghost var m := TreeOf(s).fields;
    ghost var listed := Listed(m, paths);
    FootExists(s);
    FootExists(o);
    var tree := ReadTree(Ref(input), s);
    var all, routes := LeafPaths(tree.fields, "");
    LeavesParse(m, all, routes);
    NoneListedYet(m, all);
    r := o;
    for j := 0 to |all|
      invariant Shows(s) && Built(s, r, listed + Listed(m, all[..j])) && r.d == output
      invariant forall x :: x in Foot(r) ==> x in Foot(o) || fresh(x)
    {
      ListedMore(m, all, j);
      ghost var places := listed + Listed(m, all[..j]);
      if all[j] in included {
        assert listed + Listed(m, all[..j + 1]) == places;
        continue;
      }
      FootExists(r);
      var parsed := ParsePath(all[j]);
      var found;
      found, r := Carry(input, output, parsed, s, r, places);
      assert listed + Listed(m, all[..j + 1]) == if found then places + iset{parsed} else places;
    }
    assert all[..|all|] == all;
    LeavesListed(m, all, routes);
  }

  lemma NothingBuilt(s: Shape, d: DictObj, m: map<string, Tree>, paths: seq<string>)
    requires s.AtDict? && d !in Foot(s) && d.fields == map[] && TreeOf(s) == Dict(m)
    ensures Built(s, AtDict(d, map[]), Listed(m, paths[..0])) && Foot(AtDict(d, map[])) == {d}
  {
    NewDict(d);
    NoneListedYet(m, paths);
    NoneFound(m);
    hide Build, Listed, AllFound;
    assert TreeOf(AtDict(d, map[])) == Dict(map[]);
  }
}
