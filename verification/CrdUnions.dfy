/** What unions and negations become (crdgen/transpile.go, crdgen/transpile_keywords.go). */
module CrdUnions {
  import opened Values
  import opened Ordering
  import opened CrdSchema
  import opened CrdOutput
  import opened CrdTranspile
  import opened CrdNodes
  import opened CrdCel
  import opened CrdTight

  // ---- unions ------------------------------------------------------------------------------------

  function WithoutUnions(n: Schema): Schema {
    n.(anyOf := [], oneOf := [])
  }

  /** The members of a union as the output judges them. */
  ghost predicate UnionAllows(env: Env, refs: Refs, n: Schema, stack: set<string>, v: Json) {
    if n.anyOf != [] then
      exists i :: 0 <= i < |n.anyOf| && OutAccepts(env, Trans(refs, n.anyOf[i], stack), v)
    else n.oneOf != [] ==>
      exists i :: 0 <= i < |n.oneOf| && OutAccepts(env, Trans(refs, n.oneOf[i], stack), v)
        && forall j :: 0 <= j < |n.oneOf| && OutAccepts(env, Trans(refs, n.oneOf[j], stack), v) ==> j == i
  }

  lemma SameType(n: Schema)
    ensures TypeOf(WithoutUnions(n)) == TypeOf(n) && Start(WithoutUnions(n)) == Start(n)
  {
  }

  lemma SameShape(n: Schema, children: map<string, Props>, extra: Props, items: Props)
    requires Shaped(n)
    ensures var s := ShapeWith(n, children, extra, items);
            && s.Some? && s == ShapeWith(WithoutUnions(n), children, extra, items)
            && s.value.anyOf == [] && s.value.oneOf == []
  {
    SameType(n);
    hide SortStrings, TypeOf;
  }

  lemma UnionShape(refs: Refs, n: Schema, stack: set<string>)
    requires Shaped(n)
    ensures Shape(refs, n, stack) == Shape(refs, WithoutUnions(n), stack) && Shape(refs, n, stack).Some?
    ensures Shape(refs, n, stack).value.anyOf == [] && Shape(refs, n, stack).value.oneOf == []
  {
    hide Trans, ShapeWith;
    assert ChildrenOf(refs, n, stack) == ChildrenOf(refs, WithoutUnions(n), stack);
    SameShape(n, ChildrenOf(refs, n, stack), ExtraOf(refs, n, stack), Trans(refs, n.items, stack));
  }

  // The rules of a node look at its fields, not at its union.

  predicate SameFields(p: Props, q: Props) {
    p.typ == q.typ && p.preserve == q.preserve && p.properties == q.properties && p.additional == q.additional
  }

  lemma {:induction false} DependentSame(p: Props, q: Props, m: map<string, seq<string>>, keys: seq<string>)
    requires SameFields(p, q) && forall k <- keys :: k in m
    ensures DependentRules(p, m, keys) == DependentRules(q, m, keys)
  {
    if keys != [] { DependentSame(p, q, m, keys[1..]); }
  }

  lemma {:induction false} CondsSame(p: Props, q: Props, s: Schema, keys: seq<string>)
    requires SameFields(p, q) && forall k <- keys :: k in s.properties
    ensures PropertyConds(p, s, keys) == PropertyConds(q, s, keys)
  {
    if keys != [] { CondsSame(p, q, s, keys[1..]); }
  }

  lemma CondSame(p: Props, q: Props, node: Option<Schema>)
    requires SameFields(p, q)
    ensures CelCond(p, node) == CelCond(q, node)
  {
    hide PropertyConds, SortStrings, Sorted;
    if node.Some? { CondsSame(p, q, node.value, Sorted(node.value.properties.Keys)); }
  }

  lemma RulesSame(n: Schema, p: Props, q: Props)
    requires SameFields(p, q)
    ensures KeywordRules(n, p) == KeywordRules(WithoutUnions(n), q)
  {
    hide DependentRules, CelCond, Sorted, EmitNot;
    DependentSame(p, q, n.dependentRequired, Sorted(n.dependentRequired.Keys));
    CondSame(p, q, n.condition);
    CondSame(p, q, n.consequent);
    CondSame(p, q, n.alternative);
  }

  lemma Attached(n: Schema, p: Props, members: seq<Props>)
    requires KeepsUnion(n) && p.anyOf == [] && p.oneOf == []
    ensures var q := Keywords(WithoutUnions(n), Enumerated(WithoutUnions(n), p));
            && q.anyOf == [] && q.oneOf == []
            && Keywords(n, AttachUnion(n, Enumerated(n, p), members))
               == (if n.anyOf != [] then q.(anyOf := members) else if n.oneOf != [] then q.(oneOf := members) else q)
  {
    hide KeywordRules;
    var q := Enumerated(n, p);
    assert Enumerated(WithoutUnions(n), p) == q;
    RulesSame(n, AttachUnion(n, q, members), q);
  }

  /** Keeping a union leaves the rest of the node as it was. */
  lemma UnionOutput(refs: Refs, n: Schema, stack: set<string>)
    requires Shaped(n) && !n.intOrString && KeepsUnion(n)
    ensures var p, q := TransPlain(refs, WithoutUnions(n), stack), TransPlain(refs, n, stack);
            && p.anyOf == [] && p.oneOf == []
            && q == (if n.anyOf != [] then p.(anyOf := TransAll(refs, n.anyOf, stack))
                     else if n.oneOf != [] then p.(oneOf := TransAll(refs, n.oneOf, stack)) else p)
  {
    UnionShape(refs, n, stack);
    hide Trans, Shape, Keywords, Enumerated, AttachUnion;
    var m, s := WithoutUnions(n), Shape(refs, n, stack).value;
    Attached(n, s, TransAll(refs, UnionMembers(n), stack));
    UnionFree(m, s);
  }

  lemma UnionFree(m: Schema, s: Props)
    requires m.anyOf == [] && m.oneOf == []
    ensures KeepsUnion(m) && AttachUnion(m, Enumerated(m, s), []) == Enumerated(m, s) && UnionMembers(m) == []
  {
  }

  /**
   * A union that is kept: the output accepts what the node without it accepts, and of that exactly what some member of
   * anyOf, or exactly one member of oneOf, accepts in translation; anyOf is looked at first.
   */
  lemma KeptUnionMeans(env: Env, refs: Refs, n: Schema, stack: set<string>, v: Json)
    requires RefOf(n) == "" && n.allOf == [] && Shaped(n) && !n.intOrString && KeepsUnion(n)
    ensures OutAccepts(env, Trans(refs, Some(n), stack), v) <==>
            OutAccepts(env, Trans(refs, Some(WithoutUnions(n)), stack), v) && UnionAllows(env, refs, n, stack, v)
  {
    hide TransPlain, OutAccepts, MergeAllOf;
    var m := WithoutUnions(n);
    PlainOutput(refs, n, stack);
    PlainOutput(refs, m, stack);
    hide Trans;
    UnionOutput(refs, n, stack);
    UnionDecides(env, TransPlain(refs, m, stack), TransPlain(refs, n, stack), v);
    UnionIs(env, refs, n, stack, v);
  }

  lemma PlainOutput(refs: Refs, n: Schema, stack: set<string>)
    requires RefOf(n) == "" && n.allOf == []
    ensures Trans(refs, Some(n), stack) == TransPlain(refs, n, stack)
  {
    hide TransPlain, MergeAllOf;
  }

  lemma UnionIs(env: Env, refs: Refs, n: Schema, stack: set<string>, v: Json)
    ensures n.anyOf != [] ==>
              (AnyAllows(env, TransAll(refs, n.anyOf, stack), v) <==> UnionAllows(env, refs, n, stack, v))
    ensures n.anyOf == [] ==>
              (OneAllows(env, TransAll(refs, n.oneOf, stack), v) <==> UnionAllows(env, refs, n, stack, v))
    ensures AnyAllows(env, [], v) && OneAllows(env, [], v)
  {
    AnyIs(env, TransAll(refs, n.anyOf, stack), v);
    OneIs(env, TransAll(refs, n.oneOf, stack), v);
    NoUnions(env, v);
    hide Trans, OutAccepts, AnyAllows, OneAllows;
  }

  lemma AnyIs(env: Env, members: seq<Props>, v: Json)
    ensures AnyAllows(env, members, v) <==>
            members == [] || exists i :: 0 <= i < |members| && OutAccepts(env, members[i], v)
  {
    hide OutAccepts;
  }

  lemma OneIs(env: Env, members: seq<Props>, v: Json)
    ensures OneAllows(env, members, v) <==>
            members == [] || exists i :: 0 <= i < |members| && OutAccepts(env, members[i], v)
                               && forall j :: 0 <= j < |members| && OutAccepts(env, members[j], v) ==> j == i
  {
    hide OutAccepts;
  }

  lemma UnionDecides(env: Env, p: Props, q: Props, v: Json)
    requires p.anyOf == [] && p.oneOf == [] && q == p.(anyOf := q.anyOf, oneOf := q.oneOf)
    ensures OutAccepts(env, q, v) <==> OutAccepts(env, p, v) && AnyAllows(env, q.anyOf, v) && OneAllows(env, q.oneOf, v)
  {
    hide ItemsAllow, FieldsAllow, AnyAllows, OneAllows;
    SameLocal(env, p, q, v);
    NoUnions(env, v);
  }

  lemma SameLocal(env: Env, p: Props, q: Props, v: Json)
    requires q == p.(anyOf := q.anyOf, oneOf := q.oneOf)
    ensures OutLocalAllow(env, p, v) <==> OutLocalAllow(env, q, v)
  {
  }

  lemma NoUnions(env: Env, v: Json)
    ensures AnyAllows(env, [], v) && OneAllows(env, [], v)
  {
  }

  /** The member has a shape of its own: a type, properties, items, a reference, a union, or extra properties. */
  predicate Shapes(m: Schema) {
    || m.types != [] || m.properties != map[] || m.items.Some? || m.ref != "" || m.additional.Some?
    || m.allOf != [] || m.anyOf != [] || m.oneOf != []
  }

  /** A union is kept exactly when no member of it has a shape of its own; anyOf is looked at first. */
  lemma KeptIff(n: Schema)
    ensures KeepsUnion(n) <==>
            forall m: Schema :: Some(m) in (if n.anyOf != [] then n.anyOf else n.oneOf) ==> !Shapes(m)
  {
    forall m: Schema ensures ConstraintOnly(Some(m)) <==> !Shapes(m) {}
    if forall m: Schema :: Some(m) in UnionMembers(n) ==> !Shapes(m) {
      forall x | x in UnionMembers(n) ensures ConstraintOnly(x) {
        if x.Some? { assert Some(x.value) in UnionMembers(n); }
      }
    }
  }

  /** A union that is not kept leaves no trace but that an object keeps every field. */
  lemma DegradedUnion(refs: Refs, n: Schema, stack: set<string>)
    requires RefOf(n) == "" && n.allOf == [] && Shaped(n) && !n.intOrString && !KeepsUnion(n)
    ensures var p := Trans(refs, Some(n), stack);
            && p.anyOf == [] && p.oneOf == [] && p.typ == OutKind(n) && (p.typ == Object ==> p.preserve)
  {
    PlainOutput(refs, n, stack);
    UnionShape(refs, n, stack);
    hide Trans, KeywordRules, SortStrings;
    ShapeKind(n, ChildrenOf(refs, n, stack), ExtraOf(refs, n, stack), Trans(refs, n.items, stack));
    assert UnionMembers(n) != [];
  }

  lemma ShapeKind(n: Schema, children: map<string, Props>, extra: Props, items: Props)
    requires Shaped(n)
    ensures ShapeWith(n, children, extra, items).Some? && ShapeWith(n, children, extra, items).value.typ == OutKind(n)
  {
    hide SortStrings, TypeOf;
  }

  /** A member with no keyword that implies a type, such as one that only requires names, becomes an open object. */
  lemma MemberOpens(refs: Refs, m: Schema, stack: set<string>)
    requires Simple(m) && !Shaped(m)
    ensures Trans(refs, Some(m), stack) == OPEN_OBJECT
  {
    SimpleIs(refs, m, stack);
    PlainParts(refs, m, stack);
  }

  /** Two such members of a oneOf accept every object, so that no value is left that exactly one accepts. */
  lemma OneOfRefusesAll(env: Env, refs: Refs, n: Schema, stack: set<string>, i: nat, j: nat, v: Json)
    requires RefOf(n) == "" && n.allOf == [] && Shaped(n) && OutKind(n) == Object && !n.intOrString && KeepsUnion(n)
    requires n.anyOf == [] && i < j < |n.oneOf| && n.oneOf[i].Some? && n.oneOf[j].Some? && v.Obj?
    requires Simple(n.oneOf[i].value) && !Shaped(n.oneOf[i].value)
    requires Simple(n.oneOf[j].value) && !Shaped(n.oneOf[j].value)
    ensures !OutAccepts(env, Trans(refs, Some(n), stack), v)
  {
    hide Trans, OutAccepts;
    KeptUnionMeans(env, refs, n, stack, v);
    MemberOpens(refs, n.oneOf[i].value, stack);
    MemberOpens(refs, n.oneOf[j].value, stack);
    OpenObjectAccepts(env, v);
  }

  /** One name or the other, but not both: the usual way to write it. */
  const EITHER := OPEN.(oneOf := [Some(EMPTY.(required := ["a"])), Some(EMPTY.(required := ["b"]))])

  /** What it becomes refuses every object, those with exactly one of the names included. */
  lemma EitherRefused(env: Env, v: Json)
    requires v.Obj?
    ensures !OutAccepts(env, Trans(map[], Some(EITHER), {}), v)
  {
    hide Trans, OutAccepts;
    EitherFacts();
    OneOfRefusesAll(env, map[], EITHER, {}, 0, 1, v);
  }

  lemma EitherFacts()
    ensures RefOf(EITHER) == "" && Shaped(EITHER) && OutKind(EITHER) == Object && KeepsUnion(EITHER)
    ensures forall i :: 0 <= i < 2 ==>
              EITHER.oneOf[i].Some? && Simple(EITHER.oneOf[i].value) && !Shaped(EITHER.oneOf[i].value)
  {
    assert PrimaryType(EITHER.types) == Object;
    forall i | 0 <= i < 2 ensures RefOf(EITHER.oneOf[i].value) == "" {}
  }

  // ---- negation ----------------------------------------------------------------------------------

  /** The rule of a negation forbids the constant, or the listed values, and nothing else. */
  lemma NotRuleMeans(t: Kind, x: Schema, v: Json)
    requires IsScalar(t) && IsScalarOnly(x) && !v.Null?
    requires if x.constant != Null then IsLiteral(x.constant) else x.enum != [] && AreLiterals(x.enum)
    ensures RulesAllow(EmitNot(t, Some(x)), v) <==> !Pins(x, v)
  {
    var rule := if x.constant != Null then Ne(Self, x.constant) else Not(In(Self, x.enum));
    assert EmitNot(t, Some(x)) == [rule] && rule in [rule];
    assert TermValue(Self, v) == Some(v);
    if x.constant == Null { assert Eval(In(Self, x.enum), v) == Of(v in x.enum); }
  }

  /** A negated constant or enumeration of literals is translated exactly. */
  lemma NotExact(env: Env, refs: Refs, t: Kind, x: Schema, v: Json)
    requires IsScalar(t) && PinnedProperty(Some(x)) && !v.Null?
    requires if x.constant != Null then IsLiteral(x.constant) else AreLiterals(x.enum)
    ensures RulesAllow(EmitNot(t, Some(x)), v) <==> !Accepts(env, refs, Some(x), v)
  {
    NotRuleMeans(t, x, v);
    PinMeans(env, refs, Some(x), v);
  }

  const LONG_A := EMPTY.(constant := Str("a"), checks := NO_CHECKS.(minLength := 2))

  /** A further keyword beside the constant is forgotten, so that the negation forbids what it should allow. */
  lemma NotNarrows(env: Env, refs: Refs)
    ensures !Accepts(env, refs, Some(LONG_A), Str("a")) && !RulesAllow(EmitNot(String, Some(LONG_A)), Str("a"))
  {
    NotRuleMeans(String, LONG_A, Str("a"));
    assert RefOf(LONG_A) == "";
    if Accepts(env, refs, Some(LONG_A), Str("a")) { AcceptsLocal(env, refs, LONG_A, Str("a")); }
  }
}
