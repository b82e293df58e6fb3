/**
 * Transpilation only widens: on the supported schemas every JSON value the source accepts is accepted by
 * the output, broken reference cycles included. Outside them it can narrow; CrdNodes and CrdLimits say exactly when.
 */
module CrdWidening {
  import opened Values
  import opened Ordering
  import opened CrdSchema
  import opened CrdOutput
  import opened CrdTranspile

  /** The node itself, not a reference, admits objects only. */
  predicate ObjectsOnly(n: Schema) {
    RefOf(n) == "" && n.types == [Object] && !n.nullable
  }

  /** The node admits objects only, directly or through one reference. */
  predicate DeclaresObject(refs: Refs, node: Option<Schema>) {
    node.Some? &&
    if RefOf(node.value) == "" then ObjectsOnly(node.value)
    else Normalize(RefOf(node.value)) in refs && ObjectsOnly(refs[Normalize(RefOf(node.value))])
  }

  /** Keywords whose translation is not covered by the theorem. */
  predicate PlainKeywords(n: Schema) {
    && !n.intOrString && n.anyOf == [] && n.oneOf == [] && n.not.None? && n.condition.None? && n.listType.None?
  }

  /** One declared type, optionally with "null". */
  predicate DeclaresOneType(n: Schema) {
    n.types == [PrimaryType(n.types)] || n.types == [PrimaryType(n.types), NullType]
        || n.types == [NullType, PrimaryType(n.types)]
  }

  /** A typed node uses the keywords of its own type; a map of values has no pattern keys; an array is not a tuple. */
  predicate KeywordsMatchType(n: Schema) {
    && ((n.properties == map[] && !HasExtraSchema(n)) || TypeOf(n) == Object)
    && (n.properties == map[] && HasExtraSchema(n) ==> n.patternProperties == map[])
    && (TypeOf(n) == Array ==> n.items.Some? && n.prefixItems == [])
    && (TypeOf(n) == Object || TypeOf(n) == Array || IsScalar(TypeOf(n)))
  }

  /** The untyped base of an allOf: object keywords only. */
  predicate UntypedObjectPart(n: Schema) {
    n.types == [] && n.enum == [] && n.constant == Null && n.items.None? && n.prefixItems == []
    && (n.properties == map[] && HasExtraSchema(n) ==> n.patternProperties == map[])
  }

  /**
   * The schemas the theorem covers, decided by the same walk as the transpiler: every reference resolves,
   * and one that is cut because it closes a cycle points to a definition admitting objects only.
   */
  predicate Supported(refs: Refs, node: Option<Schema>, stack: set<string>)
    decreases refs.Keys - stack, node, 1
  {
    node.Some? &&
    var n := node.value;
    if RefOf(n) != "" then
      var key := Normalize(RefOf(n));
      key in refs && if key in stack then ObjectsOnly(refs[key]) else Supported(refs, Some(refs[key]), stack + {key})
    else if n.allOf != [] then
      && (DeclaresObject(refs, node) || exists i :: 0 <= i < |n.allOf| && DeclaresObject(refs, n.allOf[i]))
      && (UntypedObjectPart(n) || (DeclaresOneType(n) && KeywordsMatchType(n)))
      && SupportedChildren(refs, n, stack)
      && (forall i :: 0 <= i < |n.allOf| ==> Supported(refs, n.allOf[i], stack))
    else
      DeclaresOneType(n) && KeywordsMatchType(n) && SupportedChildren(refs, n, stack)
  }

  predicate SupportedChildren(refs: Refs, n: Schema, stack: set<string>)
    decreases refs.Keys - stack, n, 0
  {
    && PlainKeywords(n)
    && (forall k <- n.properties :: Supported(refs, n.properties[k], stack))
    && (n.items.Some? ==> Supported(refs, n.items, stack))
    && (n.properties == map[] && HasExtraSchema(n) ==> Supported(refs, n.additional.value.schema, stack))
  }

  // ---- the theorem -------------------------------------------------------------------------------

  /** Every value a supported schema accepts is accepted by what it is transpiled to. */
  lemma {:induction false} Widening(env: Env, refs: Refs, node: Option<Schema>, stack: set<string>, v: Json)
    requires Supported(refs, node, stack)
    requires Accepts(env, refs, node, v)
    ensures OutAccepts(env, Trans(refs, node, stack), v)
    decreases refs.Keys - stack, node, 2
  {
    var n := node.value;
    if RefOf(n) != "" {
      var key := Normalize(RefOf(n));
      AcceptsTarget(env, refs, n, v);
      if key in stack {
        ObjectsOnlyAccepts(env, refs, refs[key], v);
      } else {
        Widening(env, refs, Some(refs[key]), stack + {key}, v);
      }
    } else if n.allOf != [] {
      AcceptsObject(env, refs, n, v);
      AllOfWidens(env, refs, n, stack, v);
    } else {
      PlainWidens(env, refs, n, stack, v);
    }
  }

  /** An object accepted by an allOf node is accepted by its merge. */
  lemma {:induction false} AllOfWidens(env: Env, refs: Refs, n: Schema, stack: set<string>, v: Json)
    requires RefOf(n) == "" && n.allOf != [] && v.Obj?
    requires UntypedObjectPart(n) || (DeclaresOneType(n) && KeywordsMatchType(n))
    requires SupportedChildren(refs, n, stack)
    requires forall i :: 0 <= i < |n.allOf| ==> Supported(refs, n.allOf[i], stack)
    requires Accepts(env, refs, Some(n), v)
    ensures OutAccepts(env, Trans(refs, Some(n), stack), v)
    decreases refs.Keys - stack, n, 4
  {
    hide MergeAllOf, TransPlain, SupportedChildren, PlainKeywords, OutAccepts, Accepts, Trans;
    PlainWidens(env, refs, n, stack, v);
    var members := TransAll(refs, n.allOf, stack);
    forall i | 0 <= i < |n.allOf| ensures n.allOf[i].Some? { SupportedIsThere(refs, n.allOf[i], stack); }
    forall i | 0 <= i < |n.allOf|
      ensures OutAccepts(env, members[i], v)
    {
      AcceptsConjunct(env, refs, n, v, i);
      Widening(env, refs, n.allOf[i], stack, v);
    }
    AllOfWhole(refs, n, stack);
    MergeWidens(env, [TransPlain(refs, n, stack)] + members, v);
  }

  lemma SupportedIsThere(refs: Refs, node: Option<Schema>, stack: set<string>)
    requires Supported(refs, node, stack)
    ensures node.Some?
  {
  }

  lemma ObjectsOnlyAccepts(env: Env, refs: Refs, n: Schema, v: Json)
    requires ObjectsOnly(n) && Accepts(env, refs, Some(n), v)
    ensures v.Obj?
  {
    AcceptsLocal(env, refs, n, v);
  }

  /** A node that declares objects only, itself or through a conjunct, accepts objects only. */
  lemma AcceptsObject(env: Env, refs: Refs, n: Schema, v: Json)
    requires RefOf(n) == "" && Accepts(env, refs, Some(n), v)
    requires DeclaresObject(refs, Some(n)) || exists i :: 0 <= i < |n.allOf| && DeclaresObject(refs, n.allOf[i])
    ensures v.Obj?
  {
    hide Accepts, ObjectsOnly, Normalize;
    if DeclaresObject(refs, Some(n)) {
      ObjectsOnlyAccepts(env, refs, n, v);
    } else {
      var i :| 0 <= i < |n.allOf| && DeclaresObject(refs, n.allOf[i]);
      var m := n.allOf[i].value;
      AcceptsConjunct(env, refs, n, v, i);
      if RefOf(m) != "" {
        AcceptsTarget(env, refs, m, v);
        ObjectsOnlyAccepts(env, refs, refs[Normalize(RefOf(m))], v);
      } else {
        ObjectsOnlyAccepts(env, refs, m, v);
      }
    }
  }

  /** The node with its allOf set aside. */
  lemma {:induction false} PlainWidens(env: Env, refs: Refs, n: Schema, stack: set<string>, v: Json)
    requires RefOf(n) == "" && Accepts(env, refs, Some(n), v)
    requires SupportedChildren(refs, n, stack)
    requires Typed(n, v)
    ensures OutAccepts(env, TransPlain(refs, n, stack), v)
    decreases refs.Keys - stack, n, 3
  {
    AcceptsLocal(env, refs, n, v);
    ShapeWidens(env, refs, n, stack, v);
    PlainIs(refs, n, stack);
    var shape := Shape(refs, n, stack);
    if shape.Some? {
      EnumWidens(env, n, shape.value, v);
      KeywordsWiden(env, n, Enumerated(n, shape.value), v);
    } else {
      UnionFreeAccepts(env, OPEN_OBJECT, v);
    }
  }

  lemma PlainIs(refs: Refs, n: Schema, stack: set<string>)
    requires PlainKeywords(n)
    ensures TransPlain(refs, n, stack) ==
            match Shape(refs, n, stack)
            case None => OPEN_OBJECT
            case Some(p) => Keywords(n, Enumerated(n, p))
  {
  }

  /** Whether a node stands by its own type, or is the untyped base of an allOf given an object. */
  predicate Typed(n: Schema, v: Json) {
    (DeclaresOneType(n) && KeywordsMatchType(n)) || (UntypedObjectPart(n) && v.Obj?)
  }

  /** An accepted value is a null the output also admits, or a value of the node's type. */
  lemma TypeFacts(n: Schema, v: Json)
    requires TypesAllow(n, v) && Typed(n, v)
    ensures (v.Null? && Start(n).nullable) || HasType(v, TypeOf(n)) || (v.Obj? && UntypedObjectPart(n))
    ensures v.Null? ==> Start(n).nullable
  {
    if DeclaresOneType(n) {
      if |n.types| == 2 { assert n.types[0] in n.types && n.types[1] in n.types; }
    }
  }

  lemma {:induction false} ShapeWidens(env: Env, refs: Refs, n: Schema, stack: set<string>, v: Json)
    requires RefOf(n) == "" && Accepts(env, refs, Some(n), v) && LocalAllow(env, n, v)
    requires SupportedChildren(refs, n, stack) && PlainKeywords(n) && Typed(n, v)
    ensures Shape(refs, n, stack).None? ==> v.Obj?
    ensures Shape(refs, n, stack).Some? ==> OutAccepts(env, Shape(refs, n, stack).value, v)
    decreases refs.Keys - stack, n, 2
  {
    hide Accepts, Trans, TransPlain, OutAccepts, SupportedChildren, FillObject, ArrayShape, ScalarShape, OpenShape,
        ChecksAllow;
    TypeFacts(n, v);
    if n.properties != map[] || HasExtraSchema(n) {
      ObjectWidens(env, refs, n, stack, v);
    } else if TypeOf(n) == Object {
      OpenLocal(env, n, v);
    } else if TypeOf(n) == Array {
      ArrayWidens(env, refs, n, stack, v);
    } else if IsScalar(TypeOf(n)) {
      ScalarLocal(env, n, v);
    }
  }

  lemma {:induction false} ObjectWidens(env: Env, refs: Refs, n: Schema, stack: set<string>, v: Json)
    requires RefOf(n) == "" && Accepts(env, refs, Some(n), v) && LocalAllow(env, n, v)
    requires SupportedChildren(refs, n, stack)
    requires n.properties == map[] && HasExtraSchema(n) ==> n.patternProperties == map[]
    requires n.properties != map[] || HasExtraSchema(n)
    requires v.Obj? || (v.Null? && Start(n).nullable)
    ensures OutAccepts(env, Shape(refs, n, stack).value, v)
    decreases refs.Keys - stack, n, 1
  {
    hide Accepts, Trans, TransPlain, OutAccepts, FieldsAllow, OutLocalAllow, LocalAllow, SupportedChildren, SortStrings;
    var children, extra := ChildrenOf(refs, n, stack), ExtraOf(refs, n, stack);
    FieldsWiden(env, refs, n, stack, v);
    ObjectLocal(env, n, children, extra, v);
    UnionFreeAccepts(env, Filled(n, children, extra), v);
  }

  lemma {:induction false} ArrayWidens(env: Env, refs: Refs, n: Schema, stack: set<string>, v: Json)
    requires RefOf(n) == "" && Accepts(env, refs, Some(n), v) && LocalAllow(env, n, v)
    requires SupportedChildren(refs, n, stack) && n.items.Some? && n.prefixItems == []
    requires n.properties == map[] && !HasExtraSchema(n) && TypeOf(n) == Array
    requires v.Arr? || (v.Null? && Start(n).nullable)
    ensures OutAccepts(env, Shape(refs, n, stack).value, v)
    decreases refs.Keys - stack, n, 1
  {
    hide Accepts, Trans, TransPlain, OutAccepts, ItemsAllow, OutLocalAllow, LocalAllow, SupportedChildren;
    ItemsWiden(env, refs, n, stack, v);
    ArrayLocal(env, n, Trans(refs, n.items, stack), v);
    UnionFreeAccepts(env, Shape(refs, n, stack).value, v);
  }

  lemma UnionFreeAccepts(env: Env, p: Props, v: Json)
    requires OutLocalAllow(env, p, v) && ItemsAllow(env, p.items, v) && FieldsAllow(env, p.properties, p.additional, v)
    requires p.anyOf == [] && p.oneOf == []
    ensures OutAccepts(env, p, v)
  {
  }

  lemma OpenLocal(env: Env, n: Schema, v: Json)
    requires LocalAllow(env, n, v) && (v.Obj? || (v.Null? && Start(n).nullable))
    ensures OutAccepts(env, OpenShape(Start(n), n.additional.None? || AllowsExtra(n)), v)
  {
  }

  lemma ScalarLocal(env: Env, n: Schema, v: Json)
    requires LocalAllow(env, n, v) && IsScalar(TypeOf(n))
    requires HasType(v, TypeOf(n)) || (v.Null? && Start(n).nullable)
    ensures OutAccepts(env, ScalarShape(Start(n), TypeOf(n), n.checks), v)
  {
  }

  function Filled(n: Schema, children: map<string, Props>, extra: Props): Props {
    FillObject(Start(n), n.required, HasExtraSchema(n), AllowsExtra(n), children, extra)
  }

  lemma {:induction false} FieldsWiden(env: Env, refs: Refs, n: Schema, stack: set<string>, v: Json)
    requires RefOf(n) == "" && Accepts(env, refs, Some(n), v)
    requires SupportedChildren(refs, n, stack)
    requires n.properties == map[] && HasExtraSchema(n) ==> n.patternProperties == map[]
    ensures var children, extra := ChildrenOf(refs, n, stack), ExtraOf(refs, n, stack);
            FieldsAllow(env, children, Filled(n, children, extra).additional, v)
    decreases refs.Keys - stack, n, 0
  {
    hide Trans, TransPlain, SortStrings;
    var children, extra := ChildrenOf(refs, n, stack), ExtraOf(refs, n, stack);
    if v.Obj? {
      forall k | k in v.fields
        ensures if k in children then OutAccepts(env, children[k], v.fields[k])
                else Filled(n, children, extra).additional.Some? ==> OutAccepts(env, extra, v.fields[k])
      {
        if k in children {
          AcceptsProperty(env, refs, n, v, k);
          Widening(env, refs, n.properties[k], stack, v.fields[k]);
        } else if HasExtraSchema(n) && children == map[] {
          assert n.properties == map[] by { assert n.properties.Keys == children.Keys; }
          AcceptsExtra(env, refs, n, v, k);
          Widening(env, refs, n.additional.value.schema, stack, v.fields[k]);
        }
      }
    }
  }

  lemma ObjectLocal(env: Env, n: Schema, children: map<string, Props>, extra: Props, v: Json)
    requires LocalAllow(env, n, v) && (v.Obj? || (v.Null? && Start(n).nullable))
    ensures OutLocalAllow(env, Filled(n, children, extra), v)
  {
    var required := SortStrings(n.required);
    forall r | r in required && v.Obj?
      ensures r in v.fields
    {
      assert r in multiset(required);
    }
  }

  lemma {:induction false} ItemsWiden(env: Env, refs: Refs, n: Schema, stack: set<string>, v: Json)
    requires RefOf(n) == "" && Accepts(env, refs, Some(n), v)
    requires SupportedChildren(refs, n, stack) && n.items.Some? && n.prefixItems == []
    ensures ItemsAllow(env, Some(Trans(refs, n.items, stack)), v)
    decreases refs.Keys - stack, n, 0
  {
    if v.Arr? {
      forall i | 0 <= i < |v.items|
        ensures OutAccepts(env, Trans(refs, n.items, stack), v.items[i])
      {
        AcceptsItem(env, refs, n, v, i);
        Widening(env, refs, n.items, stack, v.items[i]);
      }
    }
  }

  lemma ArrayLocal(env: Env, n: Schema, items: Props, v: Json)
    requires LocalAllow(env, n, v) && (v.Arr? || (v.Null? && Start(n).nullable))
    ensures var unique := n.uniqueItems && n.listType.None?;
            OutLocalAllow(env, ArrayShape(Start(n), n.minItems, n.maxItems, unique, items), v)
  {
  }

  lemma EnumWidens(env: Env, n: Schema, p: Props, v: Json)
    requires LocalAllow(env, n, v) && OutAccepts(env, p, v) && p.enum == [] && n.listType.None?
    ensures OutAccepts(env, Enumerated(n, p), v)
  {
  }

  /** With no not/if, the remaining keywords add only dependentRequired rules, all of which hold. */
  lemma KeywordsWiden(env: Env, n: Schema, p: Props, v: Json)
    requires PlainKeywords(n) && LocalAllow(env, n, v) && OutAccepts(env, p, v)
    requires p.typ == Array ==> p.items.Some?
    ensures OutAccepts(env, Keywords(n, p), v)
  {
    var keys := Sorted(n.dependentRequired.Keys);
    forall r | r in KeywordRules(n, p) && !v.Null?
      ensures Eval(r, v) == True
    {
      DependentRulesHold(n, p, keys, v, r);
    }
  }

  lemma {:induction false} DependentRulesHold(n: Schema, p: Props, keys: seq<string>, v: Json, r: Cel)
    requires v.Obj? && DependentRequiredAllow(n, v)
    requires forall k <- keys :: k in n.dependentRequired
    requires r in DependentRules(p, n.dependentRequired, keys)
    ensures Eval(r, v) == True
  {
    var deps := n.dependentRequired[keys[0]];
    if r in DependentRule(p, keys[0], deps) {
      DependentRuleMeans(p, keys[0], deps, v);
    } else {
      DependentRulesHold(n, p, keys[1..], v, r);
    }
  }

  /** An emitted dependentRequired rule never errs, and says exactly what the keyword says. */
  lemma DependentRuleMeans(p: Props, trigger: string, deps: seq<string>, v: Json)
    requires v.Obj? && DependentRule(p, trigger, deps) != []
    ensures Eval(DependentRule(p, trigger, deps)[0], v) ==
            Of(trigger in v.fields ==> forall d <- deps :: d in v.fields)
  {
    var has := HasAll(deps);
    assert forall i :: 0 <= i < |deps| ==> Eval(has[i], v) == Of(deps[i] in v.fields);
    EvalConjunction(has, v);
    assert Eval(And(has), v) == Of(forall i :: 0 <= i < |deps| ==> deps[i] in v.fields);
    assert Eval(Has(trigger), v) == Of(trigger in v.fields);
  }

  /** Merging keeps only properties and required names that some member already enforces. */
  lemma MergeWidens(env: Env, subs: seq<Props>, v: Json)
    requires v.Obj? && forall i :: 0 <= i < |subs| ==> OutAccepts(env, subs[i], v)
    ensures OutAccepts(env, MergeAllOf(subs), v)
  {
    AbsorbWidens(env, subs, v);
  }

  lemma {:induction false} AbsorbWidens(env: Env, subs: seq<Props>, v: Json)
    requires v.Obj? && forall i :: 0 <= i < |subs| ==> OutAccepts(env, subs[i], v)
    ensures var (merged, required) := AbsorbAll(subs);
            && FieldsAllow(env, merged.properties, None, v) && required <= v.fields.Keys
            && merged == BARE.(typ := Object, properties := merged.properties, preserve := merged.preserve)
  {
    if subs != [] {
      AbsorbWidens(env, subs[..|subs| - 1], v);
      var sub := subs[|subs| - 1];
      assert OutAccepts(env, sub, v);
      assert OutLocalAllow(env, sub, v) && FieldsAllow(env, sub.properties, sub.additional, v);
      FieldsUnion(env, AbsorbAll(subs[..|subs| - 1]).0.properties, sub.properties, sub.additional, v);
    }
  }

  lemma FieldsUnion(env: Env, a: map<string, Props>, b: map<string, Props>, additional: Option<Props>, v: Json)
    requires FieldsAllow(env, a, None, v) && FieldsAllow(env, b, additional, v)
    ensures FieldsAllow(env, a + b, None, v)
  {
  }
}
