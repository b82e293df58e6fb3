/** Where the output is looser than the schema (crdgen/transpile.go). */
module CrdLoss {
  import opened Values
  import opened Ordering
  import opened CrdSchema
  import opened CrdOutput
  import opened CrdTranspile
  import opened CrdWidening
  import opened CrdNodes
  import opened CrdPruning
  import opened CrdTight

  // ---- required names ----------------------------------------------------------------------------

  const NOTHING := Obj(map[])

  /** An open object takes anything that is an object. */
  lemma OpenTakesAll(env: Env, refs: Refs, n: Schema, stack: set<string>)
    requires Simple(n) && OutKind(n) == Object && n.constant == Null && !RequiredKept(n)
    ensures OutAccepts(env, Trans(refs, Some(n), stack), NOTHING)
  {
    SimpleIs(refs, n, stack);
    PlainParts(refs, n, stack);
    var s := ShapeOf(refs, n, stack);
    if s.Some? {
      FinishedKeeps(n, s.value);
      assert s.value == OpenShape(Start(n), n.additional.None? || AllowsExtra(n));
      EmptyPassesRules(n, s.value);
    }
  }

  lemma EmptyPassesRules(n: Schema, p: Props)
    requires PlainKeywords(n) && p.typ == Object && p.rules == []
    ensures RulesAllow(Finished(n, p).rules, NOTHING)
  {
    var q := Enumerated(n, p);
    forall r | r in KeywordRules(n, q) ensures Eval(r, NOTHING) == True {
      EmptyHolds(n, q, Sorted(n.dependentRequired.Keys), r);
    }
  }

  lemma {:induction false} EmptyHolds(n: Schema, p: Props, keys: seq<string>, r: Cel)
    requires (forall k <- keys :: k in n.dependentRequired) && r in DependentRules(p, n.dependentRequired, keys)
    ensures Eval(r, NOTHING) == True
  {
    var deps := n.dependentRequired[keys[0]];
    if r in DependentRule(p, keys[0], deps) {
      DependentRuleMeans(p, keys[0], deps, NOTHING);
    } else {
      EmptyHolds(n, p, keys[1..], r);
    }
  }

  /**
   * An object node enforces its required names exactly when it has some properties or a value schema, or requires
   * nothing: otherwise the names are dropped and the empty object passes.
   */
  lemma RequiredKeptIff(env: Env, refs: Refs, n: Schema, stack: set<string>)
    requires Simple(n) && OutKind(n) == Object && Shaped(n) && n.constant == Null
    ensures RequiredKept(n) <==>
            forall v: Json :: v.Obj? && OutAccepts(env, Trans(refs, Some(n), stack), v) ==>
              forall r <- n.required :: r in v.fields
  {
    hide Trans, OutAccepts;
    if RequiredKept(n) {
      forall v: Json | v.Obj? && OutAccepts(env, Trans(refs, Some(n), stack), v)
        ensures forall r <- n.required :: r in v.fields
      {
        KeptIsEnforced(env, refs, n, stack, v);
      }
    } else {
      OpenTakesAll(env, refs, n, stack);
      assert n.required[0] in n.required;
    }
  }

  lemma KeptIsEnforced(env: Env, refs: Refs, n: Schema, stack: set<string>, v: Json)
    requires Simple(n) && OutKind(n) == Object && Shaped(n) && RequiredKept(n) && v.Obj?
    requires OutAccepts(env, Trans(refs, Some(n), stack), v)
    ensures forall r <- n.required :: r in v.fields
  {
    SimpleIs(refs, n, stack);
    PlainParts(refs, n, stack);
    hide ShapeWith, Trans, TransPlain, Finished;
    ObjectTight(n, ChildrenOf(refs, n, stack), ExtraOf(refs, n, stack), Trans(refs, n.items, stack), v);
  }

  // ---- distinct elements -------------------------------------------------------------------------

  /** Distinctness is dropped from an unbounded array of objects or arrays: it may repeat whatever it may hold. */
  lemma UniqueLost(env: Env, refs: Refs, n: Schema, stack: set<string>, u: Json)
    requires Simple(n) && OutKind(n) == Array && n.uniqueItems && n.maxItems <= 0 && n.minItems <= 2
    requires n.enum == [] && n.constant == Null && !IsScalar(Trans(refs, n.items, stack).typ)
    requires OutAccepts(env, Trans(refs, n.items, stack), u)
    ensures OutAccepts(env, Trans(refs, Some(n), stack), Arr([u, u])) && !Accepts(env, refs, Some(n), Arr([u, u]))
  {
    var v := Arr([u, u]);
    SimpleIs(refs, n, stack);
    PlainParts(refs, n, stack);
    hide Trans, TransPlain, Accepts, Finished;
    ArrayOutput(refs, n, stack);
    RepeatPasses(env, n, Trans(refs, n.items, stack), u);
    assert v.items[0] == v.items[1];
    if Accepts(env, refs, Some(n), v) { AcceptsLocal(env, refs, n, v); }
  }

  lemma ArrayOutput(refs: Refs, n: Schema, stack: set<string>)
    requires PlainKeywords(n) && OutKind(n) == Array
    ensures Shaped(n)
    ensures ShapeOf(refs, n, stack)
            == Some(ArrayShape(Start(n), n.minItems, n.maxItems, n.uniqueItems, Trans(refs, n.items, stack)))
  {
    hide Trans, SortStrings, TypeOf;
  }

  lemma RepeatPasses(env: Env, n: Schema, items: Props, u: Json)
    requires PlainKeywords(n) && n.uniqueItems && n.maxItems <= 0 && n.minItems <= 2
    requires n.enum == [] && n.constant == Null && !IsScalar(items.typ) && OutAccepts(env, items, u)
    ensures OutAccepts(env, Finished(n, ArrayShape(Start(n), n.minItems, n.maxItems, true, items)), Arr([u, u]))
  {
    var shape := ArrayShape(Start(n), n.minItems, n.maxItems, true, items);
    FinishedKeeps(n, shape);
    NoRulesOnArrays(n, Enumerated(n, shape));
    hide Finished, KeywordRules;
    var p := Finished(n, shape);
    assert p.rules == [] && OutLocalAllow(env, p, Arr([u, u]));
    assert ItemsAllow(env, p.items, Arr([u, u]));
  }

  lemma NoRulesOnArrays(n: Schema, p: Props)
    requires PlainKeywords(n) && p.typ == Array
    ensures KeywordRules(n, p) == []
  {
  }

  // ---- parts of an allOf -------------------------------------------------------------------------

  /** A property several parts name is held to the last of them alone. */
  lemma LastPartWins(subs: seq<Props>, i: nat, k: string)
    requires i < |subs| && subs[i].typ == Object && k in subs[i].properties
    requires forall j :: i < j < |subs| ==> !Names(subs[j], k)
    ensures k in MergeAllOf(subs).properties && MergeAllOf(subs).properties[k] == subs[i].properties[k]
  {
    AbsorbWins(subs, i, k);
    hide AbsorbAll;
  }

  lemma {:induction false} AbsorbWins(subs: seq<Props>, i: nat, k: string)
    requires i < |subs| && subs[i].typ == Object && k in subs[i].properties
    requires forall j :: i < j < |subs| ==> !Names(subs[j], k)
    ensures var merged := AbsorbAll(subs).0;
            k in merged.properties && merged.properties[k] == subs[i].properties[k]
    decreases |subs|
  {
    hide Absorb, Names;
    var last := |subs| - 1;
    var front := subs[..last];
    AbsorbOne(AbsorbAll(front).0, AbsorbAll(front).1, subs[last], k);
    if i < last {
      assert forall j :: 0 <= j < last ==> front[j] == subs[j];
      AbsorbWins(front, i, k);
    }
  }

  const LOW := EMPTY.(types := [Number])
  const HIGH := LOW.(checks := NO_CHECKS.(minimum := Some(5.0)))

  /** The first part asks for at least five, the second for any number. */
  const SHARED := EMPTY.(allOf := [Some(OPEN.(properties := map["a" := Some(HIGH)])),
                                   Some(OPEN.(properties := map["a" := Some(LOW)]))])
  const ZERO := Obj(map["a" := Num(0.0)])

  lemma SharedParts()
    ensures RefOf(SHARED) == "" && Trans(map[], SHARED.allOf[1], {}).typ == Object
    ensures Trans(map[], SHARED.allOf[1], {}).properties == map["a" := Trans(map[], Some(LOW), {})]
    ensures Trans(map[], Some(LOW), {}) == BARE.(typ := Number)
  {
    LowIs();
    var part := OPEN.(properties := map["a" := Some(LOW)]);
    assert RefOf(part) == "" && SHARED.allOf[1] == Some(part) && RefOf(SHARED) == "";
    SimpleIs(map[], part, {});
    hide Trans, TransPlain;
    PartIs(part);
  }

  lemma LowIs()
    ensures Trans(map[], Some(LOW), {}) == BARE.(typ := Number)
  {
    assert RefOf(LOW) == "" && PrimaryType(LOW.types) == Number;
    SimpleIs(map[], LOW, {});
  }

  lemma PartIs(part: Schema)
    requires part == OPEN.(properties := part.properties) && part.properties.Keys == {"a"}
    ensures TransPlain(map[], part, {}).typ == Object
    ensures TransPlain(map[], part, {}).properties == map["a" := Trans(map[], part.properties["a"], {})]
  {
    PlainParts(map[], part, {});
    hide Trans, TransPlain, Finished, ShapeWith, Start;
    FinishedKeeps(part, ShapeOf(map[], part, {}).value);
    assert "a" in part.properties;
    NamedShape(part, ChildrenOf(map[], part, {}), ExtraOf(map[], part, {}), Trans(map[], part.items, {}));
    assert ChildrenOf(map[], part, {}) == map["a" := Trans(map[], part.properties["a"], {})];
  }

  lemma NamedShape(n: Schema, children: map<string, Props>, extra: Props, items: Props)
    requires n.properties != map[] && children != map[]
    ensures var s := ShapeWith(n, children, extra, items);
            s.Some? && s.value.typ == Object && s.value.properties == children
  {
    hide SortStrings;
  }

  lemma FirstRefuses(env: Env)
    ensures !Accepts(env, map[], Some(SHARED), ZERO)
  {
    assert RefOf(SHARED) == "";
    var part := OPEN.(properties := map["a" := Some(HIGH)]);
    assert RefOf(part) == "" && RefOf(HIGH) == "" && SHARED.allOf[0] == Some(part);
    if Accepts(env, map[], Some(SHARED), ZERO) {
      AcceptsConjunct(env, map[], SHARED, ZERO, 0);
      AcceptsProperty(env, map[], part, ZERO, "a");
      AcceptsLocal(env, map[], HIGH, Num(0.0));
    }
  }

  lemma {:induction false} NothingRequired(subs: seq<Props>)
    requires forall i :: 0 <= i < |subs| ==> subs[i].required == []
    ensures var merged := AbsorbAll(subs).0;
            && AbsorbAll(subs).1 == {}
            && merged == BARE.(typ := Object, properties := merged.properties, preserve := merged.preserve)
  {
    if subs != [] { NothingRequired(subs[..|subs| - 1]); }
  }

  lemma PlainFieldsPass(env: Env, p: Props, v: Json)
    requires p == BARE.(typ := Object, properties := p.properties, preserve := p.preserve) && v.Obj?
    requires forall k <- v.fields :: k in p.properties ==> OutAccepts(env, p.properties[k], v.fields[k])
    ensures OutAccepts(env, p, v)
  {
  }

  lemma NumberPasses(env: Env, x: real)
    ensures OutAccepts(env, BARE.(typ := Number), Num(x))
  {
  }

  lemma SharedRequires()
    ensures TransPlain(map[], SHARED, {}) == OPEN_OBJECT
    ensures forall i :: 0 <= i < |SHARED.allOf| ==>
              SHARED.allOf[i].Some? && Trans(map[], SHARED.allOf[i], {}).required == []
  {
    PlainIs(map[], SHARED, {});
    hide Trans, TransPlain;
    PartRequires(SHARED.allOf[0].value);
    PartRequires(SHARED.allOf[1].value);
  }

  lemma PartRequires(part: Schema)
    requires part == OPEN.(properties := part.properties) && "a" in part.properties
    ensures Trans(map[], Some(part), {}).required == []
  {
    hide TransPlain;
    assert RefOf(part) == "";
    SimpleIs(map[], part, {});
    NamingNode(map[], part, {});
  }

  /** So a bound of an earlier part is lost. */
  lemma SharedPropertyLost(env: Env)
    ensures OutAccepts(env, Trans(map[], Some(SHARED), {}), ZERO) && !Accepts(env, map[], Some(SHARED), ZERO)
  {
    FirstRefuses(env);
    SharedParts();
    SharedRequires();
    hide Trans, TransPlain, Accepts, OutAccepts, MergeAllOf;
    AllOfWhole(map[], SHARED, {});
    var subs := [TransPlain(map[], SHARED, {})] + TransAll(map[], SHARED.allOf, {});
    LastPartWins(subs, 2, "a");
    MergedForm(subs);
    NumberPasses(env, 0.0);
    PlainFieldsPass(env, MergeAllOf(subs), ZERO);
  }

  lemma MergedForm(subs: seq<Props>)
    requires forall i :: 0 <= i < |subs| ==> subs[i].required == []
    ensures var p := MergeAllOf(subs); p == BARE.(typ := Object, properties := p.properties, preserve := p.preserve)
  {
    NothingRequired(subs);
  }

  // ---- references --------------------------------------------------------------------------------

  /**
   * A reference stands for its target alone, and whatever stands beside it is dropped; $ref comes before $dynamicRef,
   * and that before $recursiveRef.
   */
  lemma SiblingsDropped(refs: Refs, n: Schema, stack: set<string>)
    ensures n.ref != "" ==> Trans(refs, Some(n), stack) == Trans(refs, Some(EMPTY.(ref := n.ref)), stack)
    ensures n.ref == "" && n.dynamicRef != "" ==>
              Trans(refs, Some(n), stack) == Trans(refs, Some(EMPTY.(ref := n.dynamicRef)), stack)
    ensures n.ref == n.dynamicRef == "" && n.recursiveRef != "" ==>
              Trans(refs, Some(n), stack) == Trans(refs, Some(EMPTY.(ref := n.recursiveRef)), stack)
  {
    hide TransPlain, MergeAllOf, Normalize;
  }

  // ---- list types --------------------------------------------------------------------------------

  /** A list type given by the author stays, whatever uniqueItems would have made of it. */
  lemma ListTypeStays(refs: Refs, n: Schema, stack: set<string>)
    requires RefOf(n) == "" && n.allOf == [] && !n.intOrString && Shaped(n) && n.listType.Some?
    ensures Trans(refs, Some(n), stack).listType == n.listType
  {
    hide KeywordRules, SortStrings, TypeOf, ChildrenOf, ExtraOf;
    assert Trans(refs, Some(n), stack) == TransPlain(refs, n, stack) by { hide TransPlain, MergeAllOf; }
    hide Trans;
    assert Shape(refs, n, stack).Some?;
  }
}
