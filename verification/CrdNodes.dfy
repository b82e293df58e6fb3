/** When one node widens: the exact condition on its types, its positions and its keys, over children that widen. */
module CrdNodes {
  import opened Values
  import opened Ordering
  import opened CrdSchema
  import opened CrdOutput
  import opened CrdTranspile
  import opened CrdWidening

  ghost predicate Widens(env: Env, refs: Refs, node: Option<Schema>, stack: set<string>) {
    forall v :: Accepts(env, refs, node, v) ==> OutAccepts(env, Trans(refs, node, stack), v)
  }

  /** A node that is no reference and no allOf, without unions, negation and conditionals. */
  predicate Simple(n: Schema) {
    RefOf(n) == "" && n.allOf == [] && PlainKeywords(n)
  }

  // ---- types -------------------------------------------------------------------------------------

  predicate Allows(n: Schema, t: Kind) {
    n.types == [] || t in n.types
  }

  /** Some type was found for the node; otherwise it becomes an open object. */
  predicate Shaped(n: Schema) {
    n.properties != map[] || HasExtraSchema(n) || TypeOf(n) == Object || TypeOf(n) == Array || IsScalar(TypeOf(n))
  }

  /** The one type the output has. */
  function OutKind(n: Schema): Kind {
    if n.properties != map[] || HasExtraSchema(n) then Object
    else if TypeOf(n) == Array || IsScalar(TypeOf(n)) then TypeOf(n)
    else Object
  }

  predicate OutNull(n: Schema) {
    Shaped(n) && Start(n).nullable
  }

  predicate TypeFits(n: Schema, t: Kind) {
    match t
    case NullType => OutNull(n)
    case Untyped => true
    case Unknown(_) => true
    case _ => t == OutKind(n) || (t == Integer && OutKind(n) == Number)
  }

  /** Every declared type is the output's, and null is kept where it is allowed; without types nothing is promised. */
  predicate TypesFit(n: Schema) {
    && n.types != []
    && (forall i :: 0 <= i < |n.types| ==> TypeFits(n, n.types[i]))
    && (n.nullable ==> OutNull(n))
  }

  /** The value passes the type keyword of the output. */
  predicate ValueFits(n: Schema, v: Json) {
    if v.Null? then OutNull(n) else HasType(v, OutKind(n))
  }

  lemma FittingTypes(n: Schema, v: Json)
    requires TypesFit(n) && TypesAllow(n, v)
    ensures ValueFits(n, v)
  {
    if !(n.nullable && v.Null?) {
      var i :| 0 <= i < |n.types| && HasType(v, n.types[i]);
      assert TypeFits(n, n.types[i]);
    }
  }

  // ---- what a simple node becomes ----------------------------------------------------------------

  /** A value has the type that is inferred from it. */
  lemma KindFits(v: Json)
    ensures v != Null ==> HasType(v, JsonKind(v)) && JsonKind(v) != Integer
  {
  }

  /**
   * The type of a node that declares none: that of its constant, else of its first listed value, else an object if it
   * has a keyword of objects, else an array if it has one of arrays.
   */
  lemma InferredType(n: Schema)
    requires n.types == []
    ensures n.constant != Null ==> TypeOf(n) == JsonKind(n.constant)
    ensures n.constant == Null && n.enum != [] ==> TypeOf(n) == JsonKind(n.enum[0])
    ensures n.constant == Null && n.enum == [] ==>
              && (n.properties != map[] || n.additional.Some? || n.patternProperties != map[] ==> TypeOf(n) == Object)
              && (n.properties == map[] && n.additional.None? && n.patternProperties == map[] ==>
                    && (n.items.Some? || n.prefixItems != [] ==> TypeOf(n) == Array)
                    && (n.items.None? && n.prefixItems == [] ==>
                          (TypeOf(n) == Object <==>
                           || n.dependentRequired != map[] || n.condition.Some? || n.dependentSchemas != map[]
                           || n.unevaluated.Some?)))
  {
  }

  lemma SimpleIs(refs: Refs, n: Schema, stack: set<string>)
    requires Simple(n)
    ensures Trans(refs, Some(n), stack) == TransPlain(refs, n, stack)
  {
    hide TransPlain, MergeAllOf;
  }

  lemma OutputType(refs: Refs, n: Schema, stack: set<string>)
    requires Simple(n)
    ensures var p := Trans(refs, Some(n), stack);
            p.typ == OutKind(n) && p.nullable == OutNull(n)
  {
    hide Trans, FillObject, TransPlain, KeywordRules, TypeOf;
    SimpleIs(refs, n, stack);
    PlainIs(refs, n, stack);
    ShapeType(n, ChildrenOf(refs, n, stack), ExtraOf(refs, n, stack), Trans(refs, n.items, stack));
  }

  lemma ShapeType(n: Schema, children: map<string, Props>, extra: Props, items: Props)
    requires n.anyOf == [] && n.oneOf == []
    ensures var s := ShapeWith(n, children, extra, items);
            && (s.Some? <==> Shaped(n))
            && (s.Some? ==> s.value.typ == OutKind(n) && s.value.nullable == Start(n).nullable)
  {
    hide SortStrings, TypeOf;
  }

  lemma Misfit(env: Env, refs: Refs, n: Schema, stack: set<string>, v: Json)
    requires Simple(n) && !ValueFits(n, v)
    ensures !OutAccepts(env, Trans(refs, Some(n), stack), v)
  {
    hide Trans, OutKind, OutNull;
    OutputType(refs, n, stack);
    KindIsReal(n);
  }

  lemma KindIsReal(n: Schema)
    ensures OutKind(n) != Untyped
  {
    hide TypeOf;
  }

  // ---- positions and keys ------------------------------------------------------------------------

  /** The schema a position of an array is held to. */
  function ItemAt(n: Schema, i: nat): Option<Schema> {
    if i < |n.prefixItems| then n.prefixItems[i] else n.items
  }

  ghost predicate Inhabited(env: Env, refs: Refs, node: Option<Schema>) {
    exists v :: Accepts(env, refs, node, v)
  }

  /** Some array has the value at that position, as far as positions and the upper bound go. */
  ghost predicate Placed(env: Env, refs: Refs, n: Schema, i: nat, u: Json) {
    && (n.maxItems > 0 ==> i < n.maxItems)
    && (forall j: nat :: j < i ==> Inhabited(env, refs, ItemAt(n, j)))
    && Accepts(env, refs, ItemAt(n, i), u)
  }

  /** Whatever can stand at a position passes the one schema the output has for all of them. */
  ghost predicate ItemsFit(env: Env, refs: Refs, n: Schema, stack: set<string>) {
    OutKind(n) == Array && Allows(n, Array) ==>
      forall i: nat, u :: Placed(env, refs, n, i, u) ==> OutAccepts(env, Trans(refs, n.items, stack), u)
  }

  predicate IsMap(n: Schema) {
    n.properties == map[] && HasExtraSchema(n)
  }

  /** A key that matches a pattern may hold the value. */
  ghost predicate PatternMember(env: Env, refs: Refs, n: Schema, k: string, u: Json) {
    && MatchesSomePattern(env, n, k)
    && forall p <- n.patternProperties :: env.matches(p, k) ==> Accepts(env, refs, n.patternProperties[p], u)
  }

  /** Whatever a key that matches a pattern may hold passes the value schema of the map. */
  ghost predicate MembersFit(env: Env, refs: Refs, n: Schema, stack: set<string>) {
    IsMap(n) && Allows(n, Object) ==>
      forall k, u :: PatternMember(env, refs, n, k, u) ==>
        OutAccepts(env, Trans(refs, n.additional.value.schema, stack), u)
  }

  /** The children the output keeps are themselves covered. */
  predicate ChildrenSupported(refs: Refs, n: Schema, stack: set<string>) {
    && (forall k <- n.properties :: Supported(refs, n.properties[k], stack))
    && (IsMap(n) ==> Supported(refs, n.additional.value.schema, stack))
  }

  // ---- the conditions are enough -----------------------------------------------------------------

  lemma AcceptsAt(env: Env, refs: Refs, n: Schema, v: Json, i: nat)
    requires RefOf(n) == "" && v.Arr? && i < |v.items| && Accepts(env, refs, Some(n), v)
    ensures Accepts(env, refs, ItemAt(n, i), v.items[i])
  {
    forall fuel: nat ensures AcceptsWithin(env, refs, ItemAt(n, i), v.items[i], fuel) {
      assert AcceptsWithin(env, refs, Some(n), v, fuel + 1);
    }
  }

  /** A member of a map meets the patterns its key matches, and the value schema if it matches none. */
  lemma AcceptsMember(env: Env, refs: Refs, n: Schema, v: Json, k: string)
    requires RefOf(n) == "" && IsMap(n) && v.Obj? && k in v.fields && Accepts(env, refs, Some(n), v)
    ensures if MatchesSomePattern(env, n, k) then PatternMember(env, refs, n, k, v.fields[k])
            else Accepts(env, refs, n.additional.value.schema, v.fields[k])
  {
    hide LocalAllow;
    forall fuel: nat ensures MemberWithin(env, refs, n, k, v.fields[k], fuel) {
      assert AcceptsWithin(env, refs, Some(n), v, fuel + 1);
    }
    if MatchesSomePattern(env, n, k) {
      forall p | p in n.patternProperties && env.matches(p, k)
        ensures Accepts(env, refs, n.patternProperties[p], v.fields[k])
      {
        forall fuel: nat ensures AcceptsWithin(env, refs, n.patternProperties[p], v.fields[k], fuel) {
          assert MemberWithin(env, refs, n, k, v.fields[k], fuel);
        }
      }
    } else {
      forall fuel: nat ensures AcceptsWithin(env, refs, n.additional.value.schema, v.fields[k], fuel) {
        assert MemberWithin(env, refs, n, k, v.fields[k], fuel);
      }
    }
  }

  lemma KindAllowed(n: Schema, v: Json)
    requires TypesAllow(n, v)
    ensures (v.Obj? ==> Allows(n, Object)) && (v.Arr? ==> Allows(n, Array))
  {
  }

  lemma ItemsPass(env: Env, refs: Refs, n: Schema, stack: set<string>, v: Json)
    requires RefOf(n) == "" && Accepts(env, refs, Some(n), v) && LocalAllow(env, n, v)
    requires OutKind(n) == Array && ItemsFit(env, refs, n, stack)
    ensures ItemsAllow(env, Some(Trans(refs, n.items, stack)), v)
  {
    hide Trans, OutAccepts, Accepts, OutKind;
    if v.Arr? {
      KindAllowed(n, v);
      forall i: nat | i < |v.items| ensures OutAccepts(env, Trans(refs, n.items, stack), v.items[i]) {
        forall j: nat | j < i ensures Inhabited(env, refs, ItemAt(n, j)) { AcceptsAt(env, refs, n, v, j); }
        AcceptsAt(env, refs, n, v, i);
        assert Placed(env, refs, n, i, v.items[i]);
      }
    }
  }

  lemma FieldsPass(env: Env, refs: Refs, n: Schema, stack: set<string>, v: Json)
    requires RefOf(n) == "" && Accepts(env, refs, Some(n), v) && LocalAllow(env, n, v)
    requires ChildrenSupported(refs, n, stack) && MembersFit(env, refs, n, stack)
    ensures var children, extra := ChildrenOf(refs, n, stack), ExtraOf(refs, n, stack);
            FieldsAllow(env, children, Filled(n, children, extra).additional, v)
  {
    hide Trans, TransPlain, SortStrings, OutAccepts, Accepts, Supported, MatchesSomePattern;
    var children, extra := ChildrenOf(refs, n, stack), ExtraOf(refs, n, stack);
    if v.Obj? {
      KindAllowed(n, v);
      forall k | k in v.fields
        ensures if k in children then OutAccepts(env, children[k], v.fields[k])
                else Filled(n, children, extra).additional.Some? ==> OutAccepts(env, extra, v.fields[k])
      {
        if k in children {
          AcceptsProperty(env, refs, n, v, k);
          Widening(env, refs, n.properties[k], stack, v.fields[k]);
        } else if HasExtraSchema(n) && children == map[] {
          assert n.properties == map[] by { assert n.properties.Keys == children.Keys; }
          AcceptsMember(env, refs, n, v, k);
          if !MatchesSomePattern(env, n, k) { Widening(env, refs, n.additional.value.schema, stack, v.fields[k]); }
        }
      }
    }
  }

  lemma ShapePasses(env: Env, refs: Refs, n: Schema, stack: set<string>, v: Json)
    requires Simple(n) && Accepts(env, refs, Some(n), v) && LocalAllow(env, n, v) && ValueFits(n, v)
    requires ChildrenSupported(refs, n, stack) && ItemsFit(env, refs, n, stack) && MembersFit(env, refs, n, stack)
    ensures Shape(refs, n, stack).None? ==> v.Obj?
    ensures Shape(refs, n, stack).Some? ==> OutAccepts(env, Shape(refs, n, stack).value, v)
  {
    hide Accepts, Trans, TransPlain, OutAccepts, ArrayShape, ScalarShape, OpenShape, LocalAllow, TypeOf, Start,
         ItemsFit, MembersFit, FillObject, FieldsAllow, ItemsAllow, ChildrenSupported, RefOf;
    if n.properties != map[] || HasExtraSchema(n) {
      var children, extra := ChildrenOf(refs, n, stack), ExtraOf(refs, n, stack);
      FieldsPass(env, refs, n, stack, v);
      ObjectPasses(env, n, children, extra, v);
    } else if TypeOf(n) == Object {
      OpenLocal(env, n, v);
    } else if TypeOf(n) == Array {
      ItemsPass(env, refs, n, stack, v);
      ArrayPasses(env, n, Trans(refs, n.items, stack), v);
    } else if IsScalar(TypeOf(n)) {
      ScalarLocal(env, n, v);
    }
  }

  lemma ObjectPasses(env: Env, n: Schema, children: map<string, Props>, extra: Props, v: Json)
    requires LocalAllow(env, n, v) && (v.Obj? || (v.Null? && Start(n).nullable))
    requires FieldsAllow(env, children, Filled(n, children, extra).additional, v)
    ensures OutAccepts(env, Filled(n, children, extra), v)
  {
    hide OutAccepts, OutLocalAllow, FieldsAllow, SortStrings, LocalAllow;
    ObjectLocal(env, n, children, extra, v);
    UnionFreeAccepts(env, Filled(n, children, extra), v);
  }

  lemma ArrayPasses(env: Env, n: Schema, items: Props, v: Json)
    requires LocalAllow(env, n, v) && (v.Arr? || (v.Null? && Start(n).nullable)) && ItemsAllow(env, Some(items), v)
    ensures OutAccepts(env, ArrayShape(Start(n), n.minItems, n.maxItems, n.uniqueItems && n.listType.None?, items), v)
  {
    hide OutAccepts, OutLocalAllow, ItemsAllow, LocalAllow;
    ArrayLocal(env, n, items, v);
    UnionFreeAccepts(env, ArrayShape(Start(n), n.minItems, n.maxItems, n.uniqueItems && n.listType.None?, items), v);
  }

  /** A simple node over covered children widens where its types, positions and keys fit. */
  lemma NodeWidens(env: Env, refs: Refs, n: Schema, stack: set<string>)
    requires Simple(n) && ChildrenSupported(refs, n, stack)
    requires TypesFit(n) && ItemsFit(env, refs, n, stack) && MembersFit(env, refs, n, stack)
    ensures Widens(env, refs, Some(n), stack)
  {
    hide Accepts, Trans, TransPlain, OutAccepts, LocalAllow, TypesFit, ItemsFit, MembersFit, ChildrenSupported, Shape,
         PlainKeywords, Keywords;
    forall v | Accepts(env, refs, Some(n), v) ensures OutAccepts(env, Trans(refs, Some(n), stack), v) {
      AcceptsLocal(env, refs, n, v);
      assert TypesAllow(n, v) by { LocalTypes(env, n, v); }
      FittingTypes(n, v);
      ShapePasses(env, refs, n, stack, v);
      SimpleIs(refs, n, stack);
      PlainIs(refs, n, stack);
      FinishPasses(env, n, Shape(refs, n, stack), v);
    }
  }

  lemma LocalTypes(env: Env, n: Schema, v: Json)
    requires LocalAllow(env, n, v)
    ensures TypesAllow(n, v)
  {
  }

  lemma FinishPasses(env: Env, n: Schema, shape: Option<Props>, v: Json)
    requires PlainKeywords(n) && LocalAllow(env, n, v) && (shape.None? ==> v.Obj?)
    requires shape.Some? ==> OutAccepts(env, shape.value, v) && shape.value.enum == []
    requires shape.Some? && shape.value.typ == Array ==> shape.value.items.Some?
    ensures OutAccepts(env, match shape case None => OPEN_OBJECT case Some(p) => Keywords(n, Enumerated(n, p)), v)
  {
    hide OutAccepts, LocalAllow, Keywords;
    if shape.Some? {
      EnumWidens(env, n, shape.value, v);
      KeywordsWiden(env, n, Enumerated(n, shape.value), v);
    } else {
      UnionFreeAccepts(env, OPEN_OBJECT, v);
    }
  }

  // ---- the conditions are needed -----------------------------------------------------------------

  /** No enumeration, constant or format: the types and the keywords of each type decide alone. */
  predicate Free(n: Schema) {
    n.enum == [] && n.constant == Null && n.checks.format == ""
  }

  /** Nothing rules out the simplest value of a type. */
  predicate Unconstrained(n: Schema, t: Kind) {
    match t
    case String => n.checks.pattern == "" && n.checks.minLength <= 0
    case Number => n.checks.minimum.None? && n.checks.maximum.None? && n.checks.multipleOf.None?
    case Integer => n.checks.minimum.None? && n.checks.maximum.None? && n.checks.multipleOf.None?
    case Array => n.minItems <= 0
    case Object => n.required == []
    case _ => true
  }

  /** Each type the node allows beside the given one has its simplest value. */
  ghost predicate Witnessed(n: Schema, fit: Kind) {
    Free(n) && forall t :: Allows(n, t) && t != fit && !(t == Integer && fit == Number) ==> Unconstrained(n, t)
  }

  function Sample(t: Kind): Json {
    match t
    case Boolean => Bool(true)
    case String => Str("")
    case Integer => Num(0.0)
    case Number => Num(0.5)
    case Array => Arr([])
    case Object => Obj(map[])
    case _ => Null
  }

  predicate IsReal(t: Kind) {
    t == Boolean || t == String || t == Integer || t == Number || t == Array || t == Object
  }

  lemma SampleTypes(t: Kind, fit: Kind)
    requires IsReal(t)
    ensures HasType(Sample(t), t) && !Sample(t).Null?
    ensures t != fit && !(t == Integer && fit == Number) ==> !HasType(Sample(t), fit)
  {
    assert (0.5).Floor == 0 && (0.0).Floor == 0;
  }

  lemma EmptyAccepted(env: Env, refs: Refs, n: Schema, v: Json)
    requires RefOf(n) == "" && n.allOf == [] && LocalAllow(env, n, v)
    requires (v.Arr? ==> v.items == []) && (v.Obj? ==> v.fields == map[])
    ensures Accepts(env, refs, Some(n), v)
  {
  }

  lemma SampleAccepted(env: Env, refs: Refs, n: Schema, t: Kind)
    requires RefOf(n) == "" && n.allOf == [] && Free(n) && IsReal(t) && Allows(n, t) && Unconstrained(n, t)
    ensures Accepts(env, refs, Some(n), Sample(t))
  {
    hide Accepts;
    SampleTypes(t, t);
    if n.types != [] { var i :| 0 <= i < |n.types| && n.types[i] == t; assert HasType(Sample(t), n.types[i]); }
    EmptyAccepted(env, refs, n, Sample(t));
  }

  lemma NullIsAccepted(env: Env, refs: Refs, n: Schema)
    requires RefOf(n) == "" && n.allOf == [] && Free(n) && (n.types == [] || n.nullable || NullType in n.types)
    ensures Accepts(env, refs, Some(n), Null)
  {
    hide Accepts;
    if NullType in n.types { var i :| 0 <= i < |n.types| && n.types[i] == NullType; assert HasType(Null, n.types[i]); }
    EmptyAccepted(env, refs, n, Null);
  }

  /** An accepted value that does not fit shows that the node narrows. */
  lemma MisfitNarrows(env: Env, refs: Refs, n: Schema, stack: set<string>, v: Json)
    requires Simple(n) && Accepts(env, refs, Some(n), v) && !ValueFits(n, v)
    ensures !Widens(env, refs, Some(n), stack)
  {
    hide Accepts, OutAccepts, Trans, ValueFits;
    Misfit(env, refs, n, stack, v);
  }

  lemma TypesMustFit(env: Env, refs: Refs, n: Schema, stack: set<string>)
    requires Simple(n) && Witnessed(n, OutKind(n)) && !TypesFit(n)
    ensures !Widens(env, refs, Some(n), stack)
  {
    hide Accepts, OutAccepts, Trans, OutKind, OutNull, Widens;
    if n.types == [] {
      var t := if OutKind(n) != Boolean then Boolean else String;
      SampleTypes(t, OutKind(n));
      SampleAccepted(env, refs, n, t);
      MisfitNarrows(env, refs, n, stack, Sample(t));
    } else if n.nullable && !OutNull(n) {
      NullIsAccepted(env, refs, n);
      MisfitNarrows(env, refs, n, stack, Null);
    } else {
      var i :| 0 <= i < |n.types| && !TypeFits(n, n.types[i]);
      var t := n.types[i];
      assert t in n.types;
      if t == NullType {
        NullIsAccepted(env, refs, n);
        MisfitNarrows(env, refs, n, stack, Null);
      } else {
        SampleTypes(t, OutKind(n));
        SampleAccepted(env, refs, n, t);
        MisfitNarrows(env, refs, n, stack, Sample(t));
      }
    }
  }

  // ---- positions ---------------------------------------------------------------------------------

  lemma {:induction false} Front(env: Env, refs: Refs, n: Schema, i: nat) returns (s: seq<Json>)
    requires forall j: nat :: j < i ==> Inhabited(env, refs, ItemAt(n, j))
    ensures |s| == i && forall j: nat :: j < i ==> Accepts(env, refs, ItemAt(n, j), s[j])
  {
    hide Accepts;
    if i == 0 { return []; }
    s := Front(env, refs, n, i - 1);
    var last :| Accepts(env, refs, ItemAt(n, i - 1), last);
    s := s + [last];
  }

  lemma ArrayAccepted(env: Env, refs: Refs, n: Schema, s: seq<Json>)
    requires RefOf(n) == "" && n.allOf == [] && LocalAllow(env, n, Arr(s))
    requires forall i: nat :: i < |s| ==> Accepts(env, refs, ItemAt(n, i), s[i])
    ensures Accepts(env, refs, Some(n), Arr(s))
  {
    hide LocalAllow;
    forall fuel: nat ensures AcceptsWithin(env, refs, Some(n), Arr(s), fuel) {
      if fuel > 0 {
        forall i: nat | i < |s| ensures AcceptsWithin(env, refs, ItemAt(n, i), s[i], fuel - 1) {}
      }
    }
  }

  lemma PositionMustFit(env: Env, refs: Refs, n: Schema, stack: set<string>, i: nat, u: Json)
    requires Simple(n) && Free(n) && OutKind(n) == Array && Allows(n, Array) && n.minItems <= 0 && !n.uniqueItems
    requires Placed(env, refs, n, i, u) && !OutAccepts(env, Trans(refs, n.items, stack), u)
    ensures !Widens(env, refs, Some(n), stack)
  {
    hide Accepts, OutAccepts, Trans, TypeOf;
    var front := Front(env, refs, n, i);
    var s := front + [u];
    ArrayLocallyAllowed(env, n, s);
    ArrayAccepted(env, refs, n, s);
    ItemRefused(env, refs, n, stack, s, i);
  }

  lemma ArrayLocallyAllowed(env: Env, n: Schema, s: seq<Json>)
    requires Free(n) && Allows(n, Array) && n.minItems <= 0 && !n.uniqueItems && (n.maxItems > 0 ==> |s| <= n.maxItems)
    ensures LocalAllow(env, n, Arr(s))
  {
    if n.types != [] { var i :| 0 <= i < |n.types| && n.types[i] == Array; assert HasType(Arr(s), n.types[i]); }
  }

  lemma OutputItems(refs: Refs, n: Schema, stack: set<string>)
    requires Simple(n) && OutKind(n) == Array
    ensures Trans(refs, Some(n), stack).items == Some(Trans(refs, n.items, stack))
  {
    hide Trans, TransPlain, KeywordRules, TypeOf;
    SimpleIs(refs, n, stack);
    PlainIs(refs, n, stack);
  }

  lemma ItemRefused(env: Env, refs: Refs, n: Schema, stack: set<string>, s: seq<Json>, i: nat)
    requires Simple(n) && OutKind(n) == Array && i < |s| && !OutAccepts(env, Trans(refs, n.items, stack), s[i])
    ensures !OutAccepts(env, Trans(refs, Some(n), stack), Arr(s))
  {
    hide Trans, OutLocalAllow, FieldsAllow, AnyAllows, OneAllows, OutKind;
    OutputItems(refs, n, stack);
    assert Arr(s).items[i] == s[i];
  }

  // ---- keys --------------------------------------------------------------------------------------

  lemma MemberAccepted(env: Env, refs: Refs, n: Schema, k: string, u: Json)
    requires Simple(n) && Free(n) && IsMap(n) && Allows(n, Object) && n.required == [] && n.dependentRequired == map[]
    requires k !in n.dependentSchemas && PatternMember(env, refs, n, k, u)
    ensures Accepts(env, refs, Some(n), Obj(map[k := u]))
  {
    var v := Obj(map[k := u]);
    assert LocalAllow(env, n, v) by {
      if n.types != [] { var i :| 0 <= i < |n.types| && n.types[i] == Object; assert HasType(v, n.types[i]); }
    }
    hide LocalAllow;
    forall fuel: nat ensures AcceptsWithin(env, refs, Some(n), v, fuel) {
      if fuel > 0 { assert MemberWithin(env, refs, n, k, u, fuel - 1); }
    }
  }

  lemma OutputMap(refs: Refs, n: Schema, stack: set<string>)
    requires Simple(n) && IsMap(n)
    ensures var p := Trans(refs, Some(n), stack);
            p.properties == map[] && p.additional == Some(Trans(refs, n.additional.value.schema, stack))
  {
    hide Trans, TransPlain, KeywordRules, TypeOf, SortStrings;
    SimpleIs(refs, n, stack);
    PlainIs(refs, n, stack);
    assert ChildrenOf(refs, n, stack) == map[];
  }

  lemma KeyMustFit(env: Env, refs: Refs, n: Schema, stack: set<string>, k: string, u: Json)
    requires Simple(n) && Free(n) && IsMap(n) && Allows(n, Object) && n.required == [] && n.dependentRequired == map[]
    requires k !in n.dependentSchemas && PatternMember(env, refs, n, k, u)
    requires !OutAccepts(env, Trans(refs, n.additional.value.schema, stack), u)
    ensures !Widens(env, refs, Some(n), stack)
  {
    hide Accepts, Trans, OutLocalAllow, ItemsAllow, AnyAllows, OneAllows, PatternMember;
    MemberAccepted(env, refs, n, k, u);
    OutputMap(refs, n, stack);
    var v := Obj(map[k := u]);
    assert v.fields[k] == u;
    assert !FieldsAllow(env, Trans(refs, Some(n), stack).properties, Trans(refs, Some(n), stack).additional, v);
  }

  // ---- the theorem -------------------------------------------------------------------------------

  /** What is assumed of a node so that every condition has a value to show it is needed. */
  ghost predicate Decidable(n: Schema) {
    && Simple(n) && Witnessed(n, OutKind(n))
    && (OutKind(n) == Array ==> n.minItems <= 0 && !n.uniqueItems)
    && (IsMap(n) ==> n.required == [] && n.dependentRequired == map[] && n.dependentSchemas == map[])
  }

  /** A node over covered children widens exactly when its types, its positions and its keys fit. */
  lemma NodeWidensIff(env: Env, refs: Refs, n: Schema, stack: set<string>)
    requires Decidable(n) && ChildrenSupported(refs, n, stack)
    ensures Widens(env, refs, Some(n), stack) <==>
            TypesFit(n) && ItemsFit(env, refs, n, stack) && MembersFit(env, refs, n, stack)
  {
    hide Widens, OutKind, Accepts, Trans, OutAccepts, TypesFit, Placed, PatternMember, ChildrenSupported;
    if !TypesFit(n) {
      TypesMustFit(env, refs, n, stack);
    } else if !ItemsFit(env, refs, n, stack) {
      var i: nat, u :| Placed(env, refs, n, i, u) && !OutAccepts(env, Trans(refs, n.items, stack), u);
      PositionMustFit(env, refs, n, stack, i, u);
    } else if !MembersFit(env, refs, n, stack) {
      var k, u :| PatternMember(env, refs, n, k, u)
                  && !OutAccepts(env, Trans(refs, n.additional.value.schema, stack), u);
      KeyMustFit(env, refs, n, stack, k, u);
    } else {
      NodeWidens(env, refs, n, stack);
    }
  }

  /** An untyped node narrows: whatever type is inferred for it, other values were accepted too. */
  lemma UntypedNarrows(env: Env, refs: Refs, n: Schema, stack: set<string>)
    requires Simple(n) && Witnessed(n, OutKind(n)) && n.types == []
    ensures !Widens(env, refs, Some(n), stack)
  {
    TypesMustFit(env, refs, n, stack);
  }

  /** An array without an items schema narrows: its elements become objects. */
  lemma WithoutItemsNarrows(env: Env, refs: Refs, n: Schema, stack: set<string>)
    requires Decidable(n) && OutKind(n) == Array && Allows(n, Array) && n.items.None? && n.prefixItems == []
    ensures !Widens(env, refs, Some(n), stack)
  {
    hide Widens, OutKind;
    OpenObjectAccepts(env, Str(""));
    assert Placed(env, refs, n, 0, Str(""));
    PositionMustFit(env, refs, n, stack, 0, Str(""));
  }

  lemma OpenObjectAccepts(env: Env, v: Json)
    ensures OutAccepts(env, OPEN_OBJECT, v) <==> v.Obj?
  {
    if v.Obj? { UnionFreeAccepts(env, OPEN_OBJECT, v); }
  }
}
