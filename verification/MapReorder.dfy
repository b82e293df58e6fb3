/**
 * What Reorder builds: the listed paths first, then every leaf (maps/reorder.go, with the map-only accessors of
 * maps/maps.go). MapRebuild runs it.
 */
module MapReorder {
  import opened Values
  import opened Trees
  import opened MapPaths

  type Names = seq<string>

  // ---- reading and writing through maps only ----

  datatype Lookup = Found(value: Tree) | Missing | Failed

  function Find(t: Tree, f: Names): (r: Lookup)
    decreases |f|
  {
    if f == [] then Found(t)
    else match t
      case Dict(fields) => if f[0] in fields then Find(fields[f[0]], f[1..]) else Missing
      case Leaf(x) => if x.Nil? then Missing else Failed
      case List(_) => Failed
  }

  /** What setNestedFieldNoCopy makes of a map: missing maps are made on the way, anything else there is an error. */
  function SetField(m: map<string, Tree>, f: Names, v: Tree): (r: Option<map<string, Tree>>)
    requires f != []
    decreases |f|
  {
    if |f| == 1 then Some(m[f[0] := v])
    else if f[0] in m && !m[f[0]].Dict? then None
    else
      var sub := SetField(if f[0] in m then m[f[0]].fields else map[], f[1..], v);
      if sub.None? then None else Some(m[f[0] := Dict(sub.value)])
  }

  // ---- what a run of writes builds ----

  ghost function Sub(s: iset<Names>, k: string): iset<Names> {
    iset g: Names | [k] + g in s
  }

  /** The part of a tree that lies on or under the given places, copied. */
  ghost function Build(m: map<string, Tree>, s: iset<Names>): map<string, Tree>
    decreases Dict(m)
  {
    map k | k in m && Sub(s, k) != iset{} ::
      if [] in Sub(s, k) || !m[k].Dict? then Copied(m[k]) else Dict(Build(m[k].fields, Sub(s, k)))
  }

  ghost predicate AllFound(m: map<string, Tree>, s: iset<Names>) {
    forall g :: g in s ==> g != [] && Find(Dict(m), g).Found?
  }

  lemma SubFound(m: map<string, Tree>, s: iset<Names>, k: string)
    requires AllFound(m, s) && Sub(s, k) != iset{}
    ensures k in m
    ensures [] !in Sub(s, k) ==> m[k].Dict? && AllFound(m[k].fields, Sub(s, k))
  {
    forall g | g in Sub(s, k) ensures k in m && Find(m[k], g).Found? {
      assert ([k] + g)[1..] == g;
    }
    var g :| g in Sub(s, k);
    if [] !in Sub(s, k) {
      assert g != [] && Find(m[k], g).Found?;
    }
  }

  lemma SubMore(s: iset<Names>, g: Names, k: string)
    requires g != []
    ensures Sub(s + iset{g}, k) == if k == g[0] then Sub(s, k) + iset{g[1..]} else Sub(s, k)
  {
    forall h: Names ensures [k] + h == g <==> k == g[0] && h == g[1..] {
      assert ([k] + h)[1..] == h;
      if k == g[0] && h == g[1..] { assert g == [k] + h; }
    }
  }

  /** Writing back a copy of what is there changes nothing. */
  lemma {:induction false} SetCopied(m: map<string, Tree>, g: Names)
    requires g != [] && Find(Dict(m), g).Found?
    ensures SetField(CopiedFields(m), g, Copied(Find(Dict(m), g).value)) == Some(CopiedFields(m))
    decreases |g|
  {
    var k := g[0];
    if |g| == 1 {
      assert g[1..] == [];
      assert CopiedFields(m)[k := Copied(m[k])] == CopiedFields(m);
    } else {
      SetCopied(m[k].fields, g[1..]);
      assert CopiedFields(m)[k] == Dict(CopiedFields(m[k].fields));
      assert CopiedFields(m)[k := Dict(CopiedFields(m[k].fields))] == CopiedFields(m);
    }
  }

  /** One level of a deeper write. */
  lemma SetDeeper(out: map<string, Tree>, g: Names, v: Tree, below: map<string, Tree>, sub: map<string, Tree>)
    requires |g| > 1 && (if g[0] in out then out[g[0]] == Dict(below) else below == map[])
    requires SetField(below, g[1..], v) == Some(sub)
    ensures SetField(out, g, v) == Some(out[g[0] := Dict(sub)])
  {
  }

  /** What is built at one name. */
  lemma BuildAt(m: map<string, Tree>, s: iset<Names>, k: string)
    ensures k in Build(m, s) <==> k in m && Sub(s, k) != iset{}
    ensures k in Build(m, s) ==>
              Build(m, s)[k] ==
              if [] in Sub(s, k) || !m[k].Dict? then Copied(m[k]) else Dict(Build(m[k].fields, Sub(s, k)))
  {
  }

  lemma BuildNothing(m: map<string, Tree>)
    ensures Build(m, iset{}) == map[]
  {
    hide Sub;
    forall k ensures k !in Build(m, iset{}) { NoSub(k); }
  }

  lemma NoSub(k: string)
    ensures Sub(iset{}, k) == iset{}
  {
  }

  lemma BuildChange(m: map<string, Tree>, s: iset<Names>, more: iset<Names>, k: string)
    requires k in m && Sub(more, k) != iset{} && forall j :: j != k ==> Sub(more, j) == Sub(s, j)
    ensures k in Build(m, more) && Build(m, more) == Build(m, s)[k := Build(m, more)[k]]
  {
    hide Sub;
  }

  lemma FindDeeper(m: map<string, Tree>, g: Names)
    requires g != [] && Find(Dict(m), g).Found?
    ensures g[0] in m && Find(m[g[0]], g[1..]) == Find(Dict(m), g)
    ensures |g| > 1 ==> m[g[0]].Dict?
    ensures |g| == 1 ==> Find(Dict(m), g) == Found(m[g[0]])
  {
  }

  /** One write adds one place. */
  lemma {:induction false} SetBuild(m: map<string, Tree>, s: iset<Names>, g: Names)
    requires AllFound(m, s) && g != [] && Find(Dict(m), g).Found?
    ensures SetField(Build(m, s), g, Copied(Find(Dict(m), g).value)) == Some(Build(m, s + iset{g}))
    decreases |g|
  {
    hide Build, Find, SetField, Sub, AllFound, Copied;
    var k, v, more := g[0], Copied(Find(Dict(m), g).value), s + iset{g};
    FindDeeper(m, g);
    forall j ensures Sub(more, j) == if j == k then Sub(s, j) + iset{g[1..]} else Sub(s, j) { SubMore(s, g, j); }
    assert g[1..] in Sub(more, k);
    BuildChange(m, s, more, k);
    BuildAt(m, s, k);
    BuildAt(m, more, k);
    if |g| == 1 {
      SetHere(Build(m, s), g, v);
    } else {
      SetBelow(m, s, g);
      if Sub(s, k) == iset{} {
        BuildNothing(m[k].fields);
        NoneFound(m[k].fields);
        SetBuild(m[k].fields, iset{}, g[1..]);
        assert iset{} + iset{g[1..]} == Sub(more, k);
        SetDeeper(Build(m, s), g, v, map[], Build(m[k].fields, Sub(more, k)));
      } else if [] !in Sub(s, k) {
        SubFound(m, s, k);
        SetBuild(m[k].fields, Sub(s, k), g[1..]);
        SetDeeper(Build(m, s), g, v, Build(m[k].fields, Sub(s, k)), Build(m[k].fields, Sub(more, k)));
      } else {
        assert Build(m, more)[k] == Build(m, s)[k];
        assert Build(m, s)[k := Build(m, s)[k]] == Build(m, s);
      }
    }
  }

  lemma SetHere(out: map<string, Tree>, g: Names, v: Tree)
    requires |g| == 1
    ensures SetField(out, g, v) == Some(out[g[0] := v])
    ensures g[1..] == []
  {
  }

  lemma NoneFound(m: map<string, Tree>)
    ensures AllFound(m, iset{})
  {
  }

  /** Under a place already copied whole, a write changes nothing. */
  lemma SetBelow(m: map<string, Tree>, s: iset<Names>, g: Names)
    requires AllFound(m, s) && |g| > 1 && Find(Dict(m), g).Found?
    ensures [] in Sub(s, g[0]) ==> SetField(Build(m, s), g, Copied(Find(Dict(m), g).value)) == Some(Build(m, s))
  {
    hide Build, SetField, Sub, AllFound;
    var k := g[0];
    FindDeeper(m, g);
    if [] in Sub(s, k) {
      BuildAt(m, s, k);
      SetCopied(m[k].fields, g[1..]);
      assert Build(m, s)[k] == Dict(CopiedFields(m[k].fields));
      SetDeeper(Build(m, s), g, Copied(Find(Dict(m), g).value), CopiedFields(m[k].fields), CopiedFields(m[k].fields));
      assert Build(m, s)[k := Dict(CopiedFields(m[k].fields))] == Build(m, s);
    }
  }

  // ---- the run ----

  /** The places that some of the paths name and the input has. */
  ghost function Listed(m: map<string, Tree>, paths: seq<string>): iset<Names> {
    iset g: Names | Find(Dict(m), g).Found? && exists j :: 0 <= j < |paths| && Parsed(paths[j]) == g
  }

  /** The places that the printed paths of the leaves name and the input has. */
  ghost function LeafPlaces(m: map<string, Tree>): iset<Names> {
    iset g: Names | Find(Dict(m), g).Found? && exists r: Route :: LeafAt(m, r) && Parsed(Render("", r)) == g
  }

  lemma ListedMore(m: map<string, Tree>, paths: seq<string>, i: nat)
    requires i < |paths|
    ensures var g := Parsed(paths[i]);
            Listed(m, paths[..i + 1]) == Listed(m, paths[..i]) + (if Find(Dict(m), g).Found? then iset{g} else iset{})
  {
    hide Parsed, Find;
    var g := Parsed(paths[i]);
    forall h ensures h in Listed(m, paths[..i + 1]) <==>
        h in Listed(m, paths[..i]) || (h == g && Find(Dict(m), g).Found?) {
      if h in Listed(m, paths[..i]) {
        var j :| 0 <= j < i && Parsed(paths[..i][j]) == h;
        assert Parsed(paths[..i + 1][j]) == h;
      }
      if h == g { assert Parsed(paths[..i + 1][i]) == h; }
      if h in Listed(m, paths[..i + 1]) {
        var j :| 0 <= j < i + 1 && Parsed(paths[..i + 1][j]) == h;
        if j < i { assert Parsed(paths[..i][j]) == h; }
      }
    }
  }

  lemma ListedFound(m: map<string, Tree>, paths: seq<string>)
    requires forall j :: 0 <= j < |paths| ==> Parsed(paths[j]) != []
    ensures AllFound(m, Listed(m, paths))
  {
    hide Parsed, Find;
  }

  lemma NoneListedYet(m: map<string, Tree>, paths: seq<string>)
    ensures Listed(m, paths[..0]) == iset{} && Build(m, iset{}) == map[]
    ensures forall s: iset<Names> :: s + Listed(m, paths[..0]) == s
  {
    BuildNothing(m);
  }

  lemma LeavesParse(m: map<string, Tree>, all: seq<string>, routes: seq<Route>)
    requires Lists(all, routes, "") && forall r :: r in routes <==> LeafAt(m, r)
    requires forall r :: LeafAt(m, r) ==> Parsed(Render("", r)) != []
    ensures forall j :: 0 <= j < |all| ==> Parsed(all[j]) != []
  {
    hide Parsed, LeafAt, Render;
    forall j | 0 <= j < |all| ensures Parsed(all[j]) != [] { assert routes[j] in routes; }
  }

  lemma LeavesListed(m: map<string, Tree>, all: seq<string>, routes: seq<Route>)
    requires Lists(all, routes, "") && forall r :: r in routes <==> LeafAt(m, r)
    ensures Listed(m, all) == LeafPlaces(m)
  {
    hide Parsed, Find, LeafAt, Render;
    forall g ensures g in Listed(m, all) <==> g in LeafPlaces(m) {
      if g in Listed(m, all) {
        var j :| 0 <= j < |all| && Parsed(all[j]) == g;
        assert routes[j] in routes && Parsed(Render("", routes[j])) == g;
      }
      if g in LeafPlaces(m) {
        var r: Route :| LeafAt(m, r) && Parsed(Render("", r)) == g;
        var j :| 0 <= j < |routes| && routes[j] == r;
        assert Parsed(all[j]) == g;
      }
    }
  }

  // ---- when the result is a full copy ----

  /** A leaf reached through maps only. */
  ghost predicate LeafName(m: map<string, Tree>, g: Names)
    decreases |g|
  {
    g != [] && g[0] in m && if |g| == 1 then m[g[0]].Leaf? else m[g[0]].Dict? && LeafName(m[g[0]].fields, g[1..])
  }

  ghost function LeafNames(m: map<string, Tree>): iset<Names> {
    iset g: Names | LeafName(m, g)
  }

  /** Every array and every empty map lies at or under a listed place. */
  ghost predicate Covered(m: map<string, Tree>, listed: iset<Names>)
    decreases Dict(m)
  {
    forall k :: k in m ==>
      || [] in Sub(listed, k)
      || m[k].Leaf?
      || (m[k].Dict? && m[k].fields != map[] && Covered(m[k].fields, Sub(listed, k)))
  }

  lemma LeafNamesBelow(m: map<string, Tree>, k: string)
    requires k in m
    ensures Sub(LeafNames(m), k)
            == if m[k].Leaf? then iset{[]} else if m[k].Dict? then LeafNames(m[k].fields) else iset{}
  {
    forall g: Names ensures [k] + g in LeafNames(m) <==>
        (if g == [] then m[k].Leaf? else m[k].Dict? && LeafName(m[k].fields, g)) {
      assert ([k] + g)[1..] == g;
    }
  }

  lemma SubBoth(s: iset<Names>, u: iset<Names>, k: string)
    ensures Sub(s + u, k) == Sub(s, k) + Sub(u, k)
  {
  }

  lemma NamesInside(m: map<string, Tree>, s: iset<Names>)
    requires AllFound(m, s) && s + LeafNames(m) != iset{}
    ensures m != map[]
  {
    var g :| g in s + LeafNames(m);
    if g in s { assert g[0] in m; }
  }

  /** At one name: the copy is whole exactly when the condition holds there. */
  lemma {:induction false} CopyAtIff(m: map<string, Tree>, listed: iset<Names>, k: string)
    requires AllFound(m, listed) && k in m
    requires m[k].Dict? && AllFound(m[k].fields, Sub(listed, k)) ==>
               (Build(m[k].fields, Sub(listed, k) + LeafNames(m[k].fields)) == CopiedFields(m[k].fields)
                <==> Covered(m[k].fields, Sub(listed, k)))
    ensures var b := Build(m, listed + LeafNames(m));
            (k in b && b[k] == Copied(m[k])) <==>
            || [] in Sub(listed, k)
            || m[k].Leaf?
            || (m[k].Dict? && m[k].fields != map[] && Covered(m[k].fields, Sub(listed, k)))
  {
    hide Build, Sub, LeafNames, AllFound, Covered;
    var s := listed + LeafNames(m);
    LeafNamesBelow(m, k);
    SubBoth(listed, LeafNames(m), k);
    BuildAt(m, s, k);
    if [] !in Sub(listed, k) && !m[k].Leaf? {
      if Sub(listed, k) != iset{} { SubFound(m, listed, k); }
      if m[k].Dict? {
        var below := m[k].fields;
        if Sub(listed, k) == iset{} { NoneFound(below); }
        assert Sub(s, k) == Sub(listed, k) + LeafNames(below);
        NoEmptyName(below);
        if Sub(s, k) == iset{} {
          BuildNothing(below);
        } else {
          NamesInside(below, Sub(listed, k));
        }
      }
    }
  }

  lemma NoEmptyName(m: map<string, Tree>)
    ensures [] !in LeafNames(m)
  {
  }

  lemma {:induction false} CopyIff(m: map<string, Tree>, listed: iset<Names>)
    requires AllFound(m, listed)
    ensures Build(m, listed + LeafNames(m)) == CopiedFields(m) <==> Covered(m, listed)
    decreases Dict(m)
  {
    hide Sub, LeafNames, AllFound;
    var b := Build(m, listed + LeafNames(m));
    forall k | k in m
      ensures (k in b && b[k] == Copied(m[k])) <==>
              || [] in Sub(listed, k)
              || m[k].Leaf?
              || (m[k].Dict? && m[k].fields != map[] && Covered(m[k].fields, Sub(listed, k)))
    {
      if m[k].Dict? && AllFound(m[k].fields, Sub(listed, k)) { CopyIff(m[k].fields, Sub(listed, k)); }
      CopyAtIff(m, listed, k);
    }
    assert CopiedFields(m).Keys == m.Keys && forall k :: k in m ==> CopiedFields(m)[k] == Copied(m[k]);
    assert forall k :: k in b ==> k in m;
  }

  lemma {:induction false} FoundLeafIsNamed(m: map<string, Tree>, r: Route)
    requires LeafAt(m, r) && Find(Dict(m), Fields(r)).Found?
    ensures LeafName(m, Fields(r))
    decreases |r|
  {
    var t := m[r[0].k];
    assert Fields(r)[0] == r[0].k && Fields(r)[1..] == Fields(r[1..]);
    if t.Dict? { FoundLeafIsNamed(t.fields, r[1..]); }
  }

  /** A name list as a route. */
  function AsRoute(g: Names): (r: Route)
    ensures Fields(r) == g
  {
    seq(|g|, i requires 0 <= i < |g| => Key(g[i]))
  }

  lemma {:induction false} NamedIsLeaf(m: map<string, Tree>, g: Names)
    requires LeafName(m, g)
    ensures LeafAt(m, AsRoute(g)) && Find(Dict(m), g).Found?
    decreases |g|
  {
    assert AsRoute(g)[1..] == AsRoute(g[1..]);
    if |g| > 1 { NamedIsLeaf(m[g[0]].fields, g[1..]); }
  }

  /** In a clean tree the places named by leaf paths are the leaves reached through maps only. */
  lemma LeafPlacesAreNames(m: map<string, Tree>)
    requires CleanTree(Dict(m))
    ensures LeafPlaces(m) == LeafNames(m)
  {
    hide Find, CleanTree, Parsed, Render, LeafAt;
    forall g ensures g in LeafPlaces(m) <==> LeafName(m, g) {
      if g in LeafPlaces(m) {
        var r: Route :| LeafAt(m, r) && Parsed(Render("", r)) == g;
        CleanLeafParses(m, r);
        FoundLeafIsNamed(m, r);
      }
      if LeafName(m, g) {
        NamedIsLeaf(m, g);
        CleanLeafParses(m, AsRoute(g));
      }
    }
  }

  lemma CleanLeafParses(m: map<string, Tree>, r: Route)
    requires CleanTree(Dict(m)) && LeafAt(m, r)
    ensures Parsed(Render("", r)) == Fields(r) && Fields(r) != []
  {
    LeafRouteClean(Dict(m), r);
    ParsesBack(r);
  }

  /** Reordering a clean tree copies all of it exactly when every array and empty map is at or under a listed place. */
  lemma ReorderCopiesIff(input: map<string, Tree>, paths: seq<string>)
    requires CleanTree(Dict(input)) && forall j :: 0 <= j < |paths| ==> Parsed(paths[j]) != []
    ensures Build(input, Listed(input, paths) + LeafPlaces(input)) == CopiedFields(input) <==>
            Covered(input, Listed(input, paths))
  {
    hide Build, Parsed, Listed, LeafPlaces, LeafNames, CleanTree, Covered, AllFound;
    ListedFound(input, paths);
    LeafPlacesAreNames(input);
    CopyIff(input, Listed(input, paths));
  }

  /** No arrays and no empty submaps anywhere. */
  predicate MapsOnly(t: Tree) {
    t.Leaf? || (t.Dict? && forall k :: k in t.fields ==> MapsOnly(t.fields[k]) && t.fields[k] != Dict(map[]))
  }

  /** Without arrays and empty submaps the result is a full copy, whatever is listed. */
  lemma {:induction false} MapsOnlyCovered(m: map<string, Tree>, listed: iset<Names>)
    requires MapsOnly(Dict(m))
    ensures Covered(m, listed)
    decreases Dict(m)
  {
    forall k | k in m && m[k].Dict? ensures Covered(m[k].fields, Sub(listed, k)) && m[k].fields != map[] {
      MapsOnlyCovered(m[k].fields, Sub(listed, k));
    }
  }

  lemma MapsOnlyCopied(input: map<string, Tree>, paths: seq<string>)
    requires CleanTree(Dict(input)) && MapsOnly(Dict(input)) && forall j :: 0 <= j < |paths| ==> Parsed(paths[j]) != []
    ensures Build(input, Listed(input, paths) + LeafPlaces(input)) == CopiedFields(input)
  {
    ReorderCopiesIff(input, paths);
    MapsOnlyCovered(input, Listed(input, paths));
  }

  /** An array nobody lists is dropped. */
  lemma UnlistedArrayDropped()
    ensures var input: map<string, Tree> := map["a" := List([NIL])];
            Build(input, Listed(input, []) + LeafPlaces(input)) == map[] != CopiedFields(input)
  {
    var input: map<string, Tree> := map["a" := List([NIL])];
    assert CleanName("a") && CleanTree(NIL) && CleanTree(List([NIL]));
    LeafPlacesAreNames(input);
    LeafNamesBelow(input, "a");
    var s := Listed(input, []) + LeafPlaces(input);
    SubBoth(Listed(input, []), LeafPlaces(input), "a");
    NoneListedYet(input, []);
    NoSub("a");
    BuildAt(input, s, "a");
    assert "a" in CopiedFields(input);
  }

  // ---- why a lookup finds nothing ----

  /** A lookup fails exactly when its way meets something that is neither a map nor nil. */
  lemma {:induction false} FailsIff(t: Tree, f: Names)
    ensures Find(t, f).Failed? <==>
            exists i :: 0 <= i < |f| && Find(t, f[..i]).Found? && Blocks(Find(t, f[..i]).value)
    decreases |f|
  {
    if f != [] {
      assert f[..0] == [];
      if t.Dict? && f[0] in t.fields {
        var sub, rest := t.fields[f[0]], f[1..];
        FailsIff(sub, rest);
        forall i | 0 <= i < |rest| ensures Find(t, f[..i + 1]) == Find(sub, rest[..i]) {
          assert f[..i + 1][1..] == rest[..i];
        }
        if i :| 0 <= i < |f| && Find(t, f[..i]).Found? && Blocks(Find(t, f[..i]).value) {
          assert i > 0 && Find(sub, rest[..i - 1]) == Find(t, f[..i]);
        }
        if i :| 0 <= i < |rest| && Find(sub, rest[..i]).Found? && Blocks(Find(sub, rest[..i]).value) {
          assert Find(t, f[..i + 1]) == Find(sub, rest[..i]);
        }
      } else {
        forall i | 0 < i < |f| ensures !Find(t, f[..i]).Found? { assert f[..i][0] == f[0]; }
        if Blocks(t) { assert Find(t, f[..0]) == Found(t); }
      }
    }
  }

  predicate Blocks(t: Tree) {
    t.List? || (t.Leaf? && t != NIL)
  }
}
