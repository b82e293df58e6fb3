/** Paths to the leaves of nested maps: printing them and parsing them back (maps/paths.go). */
module MapPaths {
  import opened Values
  import opened Decimal
  import opened Trees

  datatype Step = Key(k: string) | Index(i: nat)

  type Route = seq<Step>

  // ---- leaves ----

  /**
   * A route leads from a map to one of its leaves. An array inside an array is a leaf; empty maps and arrays have
   * none.
   */
  ghost predicate LeafAt(m: map<string, Tree>, r: Route)
    decreases |r|, 0
  {
    r != [] && r[0].Key? && r[0].k in m && LeafUnder(m[r[0].k], r[1..])
  }

  ghost predicate LeafUnder(t: Tree, r: Route)
    decreases |r|, 1
  {
    match t
    case Leaf(_) => r == []
    case Dict(fields) => LeafAt(fields, r)
    case List(items) => r != [] && r[0].Index? && r[0].i < |items| && LeafOfItem(items[r[0].i], r[1..])
  }

  ghost predicate LeafOfItem(t: Tree, r: Route)
    decreases |r|, 1
  {
    if t.Dict? then LeafAt(t.fields, r) else r == []
  }

  // ---- printing ----

  function Extend(prefix: string, step: Step): string {
    match step
    case Key(k) => if prefix == "" then k else prefix + "." + k
    case Index(i) => prefix + "[" + Digits(i) + "]"
  }

  function Render(prefix: string, r: Route): string
    decreases |r|
  {
    if r == [] then prefix else Render(Extend(prefix, r[0]), r[1..])
  }

  // ---- parsing ----

  /** Opening brackets become dots and closing ones vanish. */
  function Translate(s: string): string {
    if s == [] then []
    else TranslateChar(s[0]) + Translate(s[1..])
  }

  function TranslateChar(c: char): string {
    if c == '[' then "." else if c == ']' then "" else [c]
  }

  function Split(s: string): (parts: seq<string>)
    ensures parts != []
  {
    if s == [] then [[]]
    else
      if s[0] == '.' then [[]] + Split(s[1..]) else Glue(s[0], Split(s[1..]))
  }

  /** A character in front of the first part. */
  function Glue(c: char, parts: seq<string>): (r: seq<string>)
    requires parts != []
    ensures r != []
  {
    [[c] + parts[0]] + parts[1..]
  }

  function NonEmpty(parts: seq<string>): seq<string> {
    if parts == [] then []
    else NonEmpty(parts[..|parts| - 1]) + (if parts[|parts| - 1] == "" then [] else [parts[|parts| - 1]])
  }

  function Parsed(path: string): seq<string> {
    NonEmpty(Split(Translate(path)))
  }

  method ParsePath(path: string) returns (all: seq<string>)
    ensures all == Parsed(path)
  {
    var parts := Split(Translate(path));
    all := [];
    for j := 0 to |parts|
      invariant all == NonEmpty(parts[..j])
    {
      assert parts[..j + 1][..j] == parts[..j];
      if parts[j] != "" { all := all + [parts[j]]; }
    }
    assert parts[..|parts|] == parts;
  }

  // ---- printing, then parsing ----

  /** A name a path can carry: not empty, no dot, no bracket. */
  predicate CleanName(k: string) {
    k != "" && forall i :: 0 <= i < |k| ==> k[i] != '.' && k[i] != '[' && k[i] != ']'
  }

  predicate CleanRoute(r: Route) {
    forall i :: 0 <= i < |r| && r[i].Key? ==> CleanName(r[i].k)
  }

  function Field(step: Step): string {
    match step
    case Key(k) => k
    case Index(i) => Digits(i)
  }

  function Fields(r: Route): (f: seq<string>)
    ensures |f| == |r|
  {
    seq(|r|, i requires 0 <= i < |r| => Field(r[i]))
  }

  lemma TranslateHead(s: string)
    ensures Translate([]) == []
    ensures s != [] ==> Translate(s) == TranslateChar(s[0]) + Translate(s[1..])
  {
  }

  lemma {:induction false} TranslateJoin(a: string, b: string)
    ensures Translate(a + b) == Translate(a) + Translate(b)
  {
    hide Translate;
    TranslateHead(a);
    if a == [] {
      assert a + b == b;
    } else {
      TranslateHead(a + b);
      TranslateJoin(a[1..], b);
      assert (a + b)[1..] == a[1..] + b;
    }
  }

  lemma {:induction false} TranslateClean(k: string)
    requires forall i :: 0 <= i < |k| ==> k[i] != '[' && k[i] != ']'
    ensures Translate(k) == k
  {
    if k != [] { TranslateClean(k[1..]); }
  }

  lemma {:induction false} SplitJoin(a: string, b: string)
    ensures Split(a + "." + b) == Split(a) + Split(b)
  {
    if a == [] {
      assert a + "." + b == "." + b && ("." + b)[1..] == b;
    } else {
      SplitJoin(a[1..], b);
      assert (a + "." + b)[1..] == a[1..] + "." + b;
      GlueJoin(a[0], Split(a[1..]), Split(b));
    }
  }

  lemma GlueJoin(c: char, a: seq<string>, b: seq<string>)
    requires a != []
    ensures Glue(c, a + b) == Glue(c, a) + b
    ensures ([[]] + a) + b == [[]] + (a + b)
  {
    assert (a + b)[1..] == a[1..] + b;
  }

  lemma {:induction false} SplitClean(k: string)
    requires forall i :: 0 <= i < |k| ==> k[i] != '.'
    ensures Split(k) == [k]
  {
    if k != [] {
      SplitClean(k[1..]);
      assert [k[0]] + k[1..] == k;
    }
  }

  lemma {:induction false} NonEmptyJoin(a: seq<string>, b: seq<string>)
    ensures NonEmpty(a + b) == NonEmpty(a) + NonEmpty(b)
  {
    if b == [] {
      assert a + b == a;
    } else {
      NonEmptyJoin(a, b[..|b| - 1]);
      assert (a + b)[..|a + b| - 1] == a + b[..|b| - 1];
    }
  }

  /** One more name behind a dot is one more part. */
  lemma ParsedJoin(a: string, k: string)
    requires CleanName(k)
    ensures Parsed(a + "." + k) == Parsed(a) + [k]
  {
    TranslateJoin(a + ".", k);
    TranslateJoin(a, ".");
    TranslateClean(k);
    assert Translate(".") == ".";
    SplitJoin(Translate(a), k);
    SplitClean(k);
    NonEmptyJoin(Split(Translate(a)), [k]);
    assert NonEmpty([k]) == [k];
  }

  lemma DigitsAreClean(i: nat)
    ensures CleanName(Digits(i))
  {
    forall j | 0 <= j < |Digits(i)| ensures IsDigit(Digits(i)[j]) { assert Digits(i)[j] in Digits(i); }
  }

  lemma ParsedExtend(prefix: string, step: Step)
    requires step.Key? ==> CleanName(step.k)
    ensures Parsed(Extend(prefix, step)) == Parsed(prefix) + [Field(step)] && Extend(prefix, step) != ""
  {
    match step {
      case Key(k) =>
        if prefix == "" {
          TranslateClean(k);
          SplitClean(k);
          assert NonEmpty([k]) == [k];
        } else {
          ParsedJoin(prefix, k);
        }
      case Index(i) =>
        var d := Digits(i);
        DigitsAreClean(i);
        BracketsAreDots(prefix, d);
        ParsedJoin(prefix, d);
    }
  }

  lemma BracketsAreDots(prefix: string, d: string)
    ensures Translate(prefix + "[" + d + "]") == Translate(prefix + "." + d)
  {
    TranslateJoin(prefix + "[" + d, "]");
    TranslateJoin(prefix + "[", d);
    TranslateJoin(prefix, "[");
    TranslateJoin(prefix + ".", d);
    TranslateJoin(prefix, ".");
    assert Translate("[") == "." == Translate(".") && Translate("]") == "";
  }

  /** A printed route parses back to its fields. */
  lemma {:induction false} ParsedRender(prefix: string, r: Route)
    requires CleanRoute(r)
    ensures Parsed(Render(prefix, r)) == Parsed(prefix) + Fields(r)
    decreases |r|
  {
    hide Parsed, CleanName, Extend, Field;
    if r == [] {
      assert Parsed(prefix) + Fields(r) == Parsed(prefix);
    } else {
      var next := Extend(prefix, r[0]);
      ParsedExtend(prefix, r[0]);
      ParsedRender(next, r[1..]);
      assert Fields(r) == [Field(r[0])] + Fields(r[1..]);
      assert Parsed(prefix) + Fields(r) == Parsed(prefix) + [Field(r[0])] + Fields(r[1..]);
    }
  }

  lemma ParsesBack(r: Route)
    requires CleanRoute(r)
    ensures Parsed(Render("", r)) == Fields(r)
  {
    ParsedRender("", r);
  }

  // ---- listing ----

  /** Each path prints the route at its position. */
  ghost predicate Lists(paths: seq<string>, routes: seq<Route>, prefix: string) {
    |paths| == |routes| && NoDuplicates(routes) && forall j :: 0 <= j < |routes| ==>
        paths[j] == Render(prefix, routes[j])
  }

  ghost function Behind(step: Step, subs: seq<Route>): (r: seq<Route>)
    ensures |r| == |subs|
  {
    seq(|subs|, j requires 0 <= j < |subs| => [step] + subs[j])
  }

  lemma InBranch(step: Step, subs: seq<Route>, r: Route)
    ensures r in Behind(step, subs) <==> r != [] && r[0] == step && r[1..] in subs
  {
    var branch := Behind(step, subs);
    if r != [] && r[0] == step && r[1..] in subs {
      var j :| 0 <= j < |subs| && subs[j] == r[1..];
      assert r == [step] + r[1..] == branch[j];
    }
    if r in branch {
      var j :| 0 <= j < |branch| && branch[j] == r;
      assert r[1..] == subs[j];
    }
  }

  lemma BranchDistinct(routes: seq<Route>, step: Step, subs: seq<Route>)
    requires NoDuplicates(routes) && NoDuplicates(subs)
    requires forall r :: r in routes ==> r != [] && r[0] != step
    ensures NoDuplicates(routes + Behind(step, subs))
  {
    var branch := Behind(step, subs);
    var all := routes + branch;
    forall i, j | 0 <= i < j < |all| ensures all[i] != all[j] {
      if |routes| <= i {
        assert all[i][1..] == subs[i - |routes|] && all[j][1..] == subs[j - |routes|];
      } else if |routes| <= j {
        assert all[i] in routes && all[j][0] == step;
      }
    }
  }

  lemma BranchRendered(prefix: string, step: Step, subs: seq<Route>, j: nat)
    requires j < |subs|
    ensures Render(prefix, Behind(step, subs)[j]) == Render(Extend(prefix, step), subs[j])
  {
    assert Behind(step, subs)[j][1..] == subs[j];
  }

  /** The listing of one more branch joins the others. */
  lemma JoinBranch(prefix: string, step: Step, paths: seq<string>, routes: seq<Route>, more: seq<string>,
                   subs: seq<Route>)
    requires Lists(paths, routes, prefix) && Lists(more, subs, Extend(prefix, step))
    requires forall r :: r in routes ==> r != [] && r[0] != step
    ensures Lists(paths + more, routes + Behind(step, subs), prefix)
    ensures forall r: Route :: r in routes + Behind(step, subs) <==>
            r in routes || (r != [] && r[0] == step && r[1..] in subs)
  {
    hide Render, Extend, Behind, NoDuplicates;
    BranchDistinct(routes, step, subs);
    forall j: nat | j < |subs|
        ensures Render(prefix, Behind(step, subs)[j]) == more[j] { BranchRendered(prefix, step, subs, j); }
    forall r: Route ensures r in Behind(step, subs) <==>
        r != [] && r[0] == step && r[1..] in subs { InBranch(step, subs, r); }
  }

  /** Some leaf has this path. */
  ghost predicate IsLeafPath(m: map<string, Tree>, prefix: string, p: string) {
    exists r: Route :: LeafAt(m, r) && Render(prefix, r) == p
  }

  /** LeafPaths: one path a leaf, whatever order the map is ranged over. */
  method LeafPaths(m: map<string, Tree>, prefix: string) returns (paths: seq<string>, ghost routes: seq<Route>)
    ensures Lists(paths, routes, prefix)
    ensures forall r :: r in routes <==> LeafAt(m, r)
    ensures forall p :: p in paths <==> IsLeafPath(m, prefix, p)
    decreases Dict(m), 0
  {
    hide Lists, LeafUnder;
    paths, routes := [], [];
    var todo := m.Keys;
    assert Lists([], [], prefix) by { NoneListed(prefix); }
    while todo != {}
      invariant todo <= m.Keys && Lists(paths, routes, prefix)
      invariant forall r: Route :: r in routes <==> LeafAt(m, r) && r[0].k !in todo
    {
      var key :| key in todo;
      var value := m[key];
      var more, subs := PathsUnder(value, Extend(prefix, Key(key)));
      JoinBranch(prefix, Key(key), paths, routes, more, subs);
      paths, routes, todo := paths + more, routes + Behind(Key(key), subs), todo - {key};
    }
    ListsExactly(m, paths, routes, prefix);
  }

  lemma ListsExactly(m: map<string, Tree>, paths: seq<string>, routes: seq<Route>, prefix: string)
    requires Lists(paths, routes, prefix) && forall r :: r in routes <==> LeafAt(m, r)
    ensures forall p :: p in paths <==> IsLeafPath(m, prefix, p)
  {
    hide LeafAt, Render;
    forall p | p in paths ensures IsLeafPath(m, prefix, p) {
      var j :| 0 <= j < |paths| && paths[j] == p;
      assert routes[j] in routes && Render(prefix, routes[j]) == p;
    }
    forall p | IsLeafPath(m, prefix, p) ensures p in paths {
      var r: Route :| LeafAt(m, r) && Render(prefix, r) == p;
      var j :| 0 <= j < |routes| && routes[j] == r;
      assert paths[j] == p;
    }
  }

  lemma NoneListed(prefix: string)
    ensures Lists([], [], prefix)
  {
  }

  lemma OneListed(path: string)
    ensures Lists([path], [[]], path)
  {
  }

  /** The paths of one value of a map. */
  method PathsUnder(t: Tree, path: string) returns (paths: seq<string>, ghost routes: seq<Route>)
    ensures Lists(paths, routes, path)
    ensures forall r :: r in routes <==> LeafUnder(t, r)
    decreases t, 1
  {
    hide Lists, LeafOfItem;
    match t {
      case Dict(fields) => paths, routes := LeafPaths(fields, path);
      case List(items) =>
        paths, routes := [], [];
        NoneListed(path);
        for i := 0 to |items|
          invariant Lists(paths, routes, path)
          invariant forall r: Route :: r in routes <==> LeafUnder(t, r) && r[0].i < i
        {
          var more, subs := PathsOfItem(items[i], Extend(path, Index(i)));
          JoinBranch(path, Index(i), paths, routes, more, subs);
          paths, routes := paths + more, routes + Behind(Index(i), subs);
        }
      case Leaf(_) =>
        OneListed(path);
        paths, routes := [path], [[]];
    }
  }

  /** The paths of one element of an array: only a map is looked into. */
  method PathsOfItem(t: Tree, path: string) returns (paths: seq<string>, ghost routes: seq<Route>)
    ensures Lists(paths, routes, path)
    ensures forall r :: r in routes <==> LeafOfItem(t, r)
    decreases t, 1
  {
    hide Lists;
    if t.Dict? {
      paths, routes := LeafPaths(t.fields, path);
    } else {
      OneListed(path);
      paths, routes := [path], [[]];
    }
  }

  // ---- leaf paths tell leaves apart ----

  /** Every name in the tree is one a path can carry. */
  predicate CleanTree(t: Tree) {
    match t
    case Leaf(_) => true
    case Dict(fields) => forall k :: k in fields ==> CleanName(k) && CleanTree(fields[k])
    case List(items) => forall i :: 0 <= i < |items| ==> CleanTree(items[i])
  }

  lemma {:induction false} LeafRouteClean(t: Tree, r: Route)
    requires CleanTree(t) && LeafUnder(t, r)
    ensures CleanRoute(r)
    decreases |r|
  {
    hide CleanName;
    if r != [] {
      var below := if t.Dict? then t.fields[r[0].k] else t.items[r[0].i];
      if LeafUnder(below, r[1..]) { LeafRouteClean(below, r[1..]); }
      assert r == [r[0]] + r[1..];
      assert CleanRoute(r[1..]);
      CleanFront(r);
    }
  }

  lemma CleanFront(r: Route)
    requires r != [] && CleanRoute(r[1..]) && (r[0].Key? ==> CleanName(r[0].k))
    ensures CleanRoute(r)
  {
    hide CleanName;
    forall i | 0 <= i < |r| && r[i].Key? ensures CleanName(r[i].k) {
      if i > 0 { assert r[1..][i - 1] == r[i]; }
    }
  }

  /** The kind of each node on the way decides how a field is read, so fields tell leaf routes apart. */
  lemma {:induction false} FieldsTellApart(t: Tree, r: Route, q: Route)
    requires LeafUnder(t, r) && LeafUnder(t, q) && Fields(r) == Fields(q)
    ensures r == q
    decreases |r|
  {
    assert |r| == |Fields(r)| == |Fields(q)| == |q|;
    if r != [] {
      assert Fields(r)[0] == Field(r[0]) && Fields(q)[0] == Field(q[0]);
      if r[0].Index? { DigitsInjective(r[0].i, q[0].i); }
      assert r[0] == q[0];
      assert Fields(r)[1..] == Fields(r[1..]) && Fields(q)[1..] == Fields(q[1..]);
      var below := if t.Dict? then t.fields[r[0].k] else t.items[r[0].i];
      if r[1..] != [] { FieldsTellApart(below, r[1..], q[1..]); }
      assert r == [r[0]] + r[1..] && q == [q[0]] + q[1..];
    }
  }

  /** In a tree of clean names no two leaves have the same path. */
  lemma PathsTellApart(m: map<string, Tree>, r: Route, q: Route)
    requires CleanTree(Dict(m)) && LeafAt(m, r) && LeafAt(m, q) && Render("", r) == Render("", q)
    ensures r == q
  {
    LeafRouteClean(Dict(m), r);
    LeafRouteClean(Dict(m), q);
    ParsesBack(r);
    ParsesBack(q);
    FieldsTellApart(Dict(m), r, q);
  }

  /** The listing of a clean tree repeats nothing. */
  lemma LeafPathsDistinct(m: map<string, Tree>, paths: seq<string>, routes: seq<Route>)
    requires CleanTree(Dict(m)) && Lists(paths, routes, "") && forall r :: r in routes ==> LeafAt(m, r)
    ensures NoDuplicates(paths)
  {
    hide CleanTree, LeafAt, Render;
    forall i, j | 0 <= i < j < |paths| ensures paths[i] != paths[j] {
      assert routes[i] in routes && routes[j] in routes;
      if paths[i] == paths[j] { PathsTellApart(m, routes[i], routes[j]); }
    }
  }

  /** How paths are spelled: names joined by dots, positions in brackets. */
  lemma PathsSpelled(prefix: string, k: string, i: nat, r: Route)
    ensures Render("", [Key(k)]) == k
    ensures prefix != "" ==> Render(prefix, [Key(k)]) == prefix + "." + k
    ensures Render(prefix, [Index(i)]) == prefix + "[" + Digits(i) + "]"
    ensures r != [] ==> Render(prefix, r) == Render(Render(prefix, [r[0]]), r[1..])
  {
  }
}
