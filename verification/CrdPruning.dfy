/**
 * What the API server makes of a value before it validates it: fields a node does not know are pruned
 * (crdgen/transpile.go promises that none is lost silently, and crdgen/transpile_test.go runs the server's pruner).
 */
module CrdPruning {
  import opened Values
  import opened Ordering
  import opened CrdSchema
  import opened CrdOutput
  import opened CrdTranspile
  import opened CrdWidening
  import opened CrdNodes

  /** The schema of a field, if its node has one for it. */
  function FieldProps(p: Props, k: string): Option<Props> {
    if k in p.properties then Some(p.properties[k]) else p.additional
  }

  function ElementProps(p: Props): Props {
    if p.items.Some? then p.items.value else BARE
  }

  /**
   * A field stays if it is declared, has a map-value schema, or stands in a node that preserves unknown fields; in the
   * last case its content stays as it is. Elements without a schema keep no field; an array node never preserves.
   */
  function Prune(p: Props, v: Json): (r: Json)
    ensures r.Obj? == v.Obj? && r.Arr? == v.Arr? && (v.Arr? ==> |r.items| == |v.items|)
    ensures !v.Obj? && !v.Arr? ==> r == v
    decreases v, 0
  {
    match v
    case Obj(fields) => Obj(map k | k in fields && FieldAllowed(p, k) :: PruneWith(FieldProps(p, k), fields[k]))
    case Arr(items) => Arr(seq(|items|, i requires 0 <= i < |items| => Prune(ElementProps(p), items[i])))
    case _ => v
  }

  function PruneWith(p: Option<Props>, v: Json): Json
    decreases v, 1
  {
    if p.Some? then Prune(p.value, v) else v
  }

  // ---- what is lost ------------------------------------------------------------------------------

  /** Every field, at every depth, is one its node knows. */
  predicate Known(p: Props, v: Json)
    decreases v
  {
    match v
    case Obj(fields) =>
      forall k <- fields :: FieldAllowed(p, k) && (FieldProps(p, k).Some? ==> Known(FieldProps(p, k).value, fields[k]))
    case Arr(items) => forall i :: 0 <= i < |items| ==> Known(ElementProps(p), items[i])
    case _ => true
  }

  /** Pruning leaves a value alone exactly when its nodes know every field. */
  lemma {:induction false} UnprunedIff(p: Props, v: Json)
    ensures Prune(p, v) == v <==> Known(p, v)
    decreases v
  {
    match v
    case Obj(fields) =>
      var kept := Prune(p, v).fields;
      forall k | k in kept
        ensures kept[k] == fields[k] <==> (FieldProps(p, k).Some? ==> Known(FieldProps(p, k).value, fields[k]))
      {
        assert kept[k] == PruneWith(FieldProps(p, k), fields[k]);
        if FieldProps(p, k).Some? { UnprunedIff(FieldProps(p, k).value, fields[k]); }
      }
      if kept == fields {
        forall k | k in fields ensures FieldAllowed(p, k) { assert k in kept; }
      }
      if Known(p, v) { assert kept.Keys == fields.Keys; }
    case Arr(items) =>
      var kept := Prune(p, v).items;
      forall i | 0 <= i < |items| ensures kept[i] == items[i] <==> Known(ElementProps(p), items[i]) {
        UnprunedIff(ElementProps(p), items[i]);
      }
      if Known(p, v) { assert kept == items; }
    case _ =>
  }

  // ---- what is still accepted --------------------------------------------------------------------

  /** A rule that only asks for the presence of fields the node knows. */
  predicate AsksOnly(p: Props, r: Cel) {
    match r
    case Has(f) => FieldAllowed(p, f)
    case Not(a) => AsksOnly(p, a)
    case And(es) => forall i :: 0 <= i < |es| ==> AsksOnly(p, es[i])
    case Or(a, b) => AsksOnly(p, a) && AsksOnly(p, b)
    case _ => false
  }

  /** No unions, formats on scalars only, and rules that ask for nothing the node does not know. */
  predicate Regular(p: Props) {
    && p.anyOf == [] && p.oneOf == []
    && (p.checks.format != "" ==> IsScalar(p.typ))
    && (forall r <- p.rules :: r == ItemsUnique || AsksOnly(p, r))
    && (forall k <- p.properties :: Regular(p.properties[k]))
    && (p.additional.Some? ==> Regular(p.additional.value))
    && (p.items.Some? ==> Regular(p.items.value))
  }

  predicate WantsDistinct(p: Props) {
    p.listType == Some(SetList) || ItemsUnique in p.rules
  }

  /** Every required field is known, elements that must differ still do, and listed values are listed. */
  predicate Survives(p: Props, v: Json)
    decreases v
  {
    (p.enum != [] ==> Prune(p, v) in p.enum) &&
    match v
    case Obj(fields) =>
      && (forall r <- p.required :: FieldAllowed(p, r))
      && (forall k <- fields :: FieldProps(p, k).Some? ==> Survives(FieldProps(p, k).value, fields[k]))
    case Arr(items) =>
      && (WantsDistinct(p) ==> NoDuplicates(Prune(p, v).items))
      && (p.items.Some? ==> forall i :: 0 <= i < |items| ==> Survives(p.items.value, items[i]))
    case _ => true
  }

  lemma {:induction false} AsksSame(p: Props, r: Cel, v: Json)
    requires AsksOnly(p, r)
    ensures Eval(r, v) == Eval(r, Prune(p, v))
    decreases r
  {
    match r
    case Has(f) =>
    case Not(a) => AsksSame(p, a, v);
    case And(es) =>
      forall i | 0 <= i < |es| ensures Eval(es[i], v) == Eval(es[i], Prune(p, v)) { AsksSame(p, es[i], v); }
    case Or(a, b) => AsksSame(p, a, v); AsksSame(p, b, v);
  }

  lemma RulesSame(p: Props, v: Json)
    requires Regular(p) && RulesAllow(p.rules, v)
    ensures RulesAllow(p.rules, Prune(p, v)) <==>
            (v.Arr? && ItemsUnique in p.rules ==> NoDuplicates(Prune(p, v).items))
  {
    hide Prune;
    forall r | r in p.rules && r != ItemsUnique ensures Eval(r, v) == Eval(r, Prune(p, v)) { AsksSame(p, r, v); }
    if !v.Null? && ItemsUnique in p.rules { assert Eval(ItemsUnique, v) == True; }
  }

  /** The keywords that look at the value alone, before and after. */
  lemma LocalSame(env: Env, p: Props, v: Json)
    requires Regular(p) && OutLocalAllow(env, p, v)
    ensures OutLocalAllow(env, p, Prune(p, v)) <==>
            && (v.Arr? && WantsDistinct(p) ==> NoDuplicates(Prune(p, v).items))
            && (v.Obj? ==> forall r <- p.required :: FieldAllowed(p, r))
            && (p.enum != [] ==> Prune(p, v) in p.enum)
  {
    RulesSame(p, v);
    hide RulesAllow, Eval, NoDuplicates, AsksOnly;
    if v.Obj? {
      assert forall r <- p.required :: r in Prune(p, v).fields <==> FieldAllowed(p, r);
    }
  }

  /** A value is still accepted after pruning exactly when what it needs survives. */
  lemma {:induction false} AcceptedAfterIff(env: Env, p: Props, v: Json)
    requires Regular(p) && OutAccepts(env, p, v)
    ensures OutAccepts(env, p, Prune(p, v)) <==> Survives(p, v)
    decreases v
  {
    LocalSame(env, p, v);
    match v
    case Obj(fields) =>
      var kept := Prune(p, v).fields;
      forall k | k in fields && FieldProps(p, k).Some?
        ensures k in kept
        ensures OutAccepts(env, FieldProps(p, k).value, kept[k]) <==> Survives(FieldProps(p, k).value, fields[k])
      {
        assert kept[k] == PruneWith(FieldProps(p, k), fields[k]);
        AcceptedAfterIff(env, FieldProps(p, k).value, fields[k]);
      }
    case Arr(items) =>
      var kept := Prune(p, v).items;
      if p.items.Some? {
        forall i | 0 <= i < |items|
          ensures OutAccepts(env, p.items.value, kept[i]) <==> Survives(p.items.value, items[i])
        {
          AcceptedAfterIff(env, p.items.value, items[i]);
        }
      }
    case _ =>
  }

  // ---- for supported schemas ---------------------------------------------------------------------

  /** A node that knows more asks for nothing unknown either. */
  lemma {:induction false} AsksMore(p: Props, q: Props, r: Cel)
    requires AsksOnly(p, r) && forall f :: FieldAllowed(p, f) ==> FieldAllowed(q, f)
    ensures AsksOnly(q, r)
    decreases r
  {
    match r
    case Has(f) =>
    case Not(a) => AsksMore(p, q, a);
    case And(es) => forall i | 0 <= i < |es| ensures AsksOnly(q, es[i]) { AsksMore(p, q, es[i]); }
    case Or(a, b) => AsksMore(p, q, a); AsksMore(p, q, b);
  }

  lemma {:induction false} DependentAsks(p: Props, m: map<string, seq<string>>, keys: seq<string>)
    requires forall k <- keys :: k in m
    ensures forall r <- DependentRules(p, m, keys) :: AsksOnly(p, r)
  {
    if keys != [] {
      DependentAsks(p, m, keys[1..]);
      DependentRuleAsks(p, keys[0], m[keys[0]]);
    }
  }

  lemma DependentRuleAsks(p: Props, trigger: string, deps: seq<string>)
    ensures forall r <- DependentRule(p, trigger, deps) :: AsksOnly(p, r)
  {
    if DependentRule(p, trigger, deps) != [] {
      HasAllAsks(p, deps);
      assert AsksOnly(p, Not(Has(trigger)));
    }
  }

  lemma HasAllAsks(p: Props, fs: seq<string>)
    requires forall f <- fs :: FieldAllowed(p, f)
    ensures AsksOnly(p, And(HasAll(fs)))
  {
    forall i | 0 <= i < |fs| ensures AsksOnly(p, HasAll(fs)[i]) { assert fs[i] in fs; }
  }

  /** The rules of a supported node: those of its arrays and of dependentRequired. */
  lemma KeywordsRegular(n: Schema, p: Props)
    requires PlainKeywords(n) && Regular(p)
    ensures Regular(Keywords(n, p))
  {
    hide EmitDependentRequired;
    var q := Keywords(n, p);
    DependentAsks(p, n.dependentRequired, Sorted(n.dependentRequired.Keys));
    forall r | r in q.rules && r != ItemsUnique ensures AsksOnly(q, r) {
      assert AsksOnly(p, r) by { EmittedAsks(p, n.dependentRequired, r); }
      AsksMore(p, q, r);
    }
  }

  lemma EmittedAsks(p: Props, m: map<string, seq<string>>, r: Cel)
    requires r in EmitDependentRequired(p, m) || AsksOnly(p, r)
    ensures AsksOnly(p, r)
  {
    DependentAsks(p, m, Sorted(m.Keys));
  }

  lemma {:induction false} MergeRegular(subs: seq<Props>)
    requires forall i :: 0 <= i < |subs| ==> Regular(subs[i])
    ensures Regular(AbsorbAll(subs).0) && AbsorbAll(subs).0.rules == [] && Regular(MergeAllOf(subs))
  {
    hide Regular;
    if subs == [] {
      assert Regular(BARE.(typ := Object)) by { BareRegular(); }
    } else {
      MergeRegular(subs[..|subs| - 1]);
      AbsorbRegular(AbsorbAll(subs[..|subs| - 1]).0, AbsorbAll(subs[..|subs| - 1]).1, subs[|subs| - 1]);
    }
    MergedRegular(subs);
  }

  lemma BareRegular()
    ensures Regular(BARE.(typ := Object))
  {
  }

  lemma AbsorbRegular(merged: Props, required: set<string>, sub: Props)
    requires Regular(merged) && Regular(sub) && merged.rules == []
    ensures Regular(Absorb(merged, required, sub).0) && Absorb(merged, required, sub).0.rules == []
  {
  }

  lemma MergedRegular(subs: seq<Props>)
    requires Regular(AbsorbAll(subs).0) && AbsorbAll(subs).0.rules == []
    ensures Regular(MergeAllOf(subs))
  {
    hide AbsorbAll;
  }

  /** What a supported schema becomes has no unions and no rule about unknown fields. */
  lemma {:induction false} TransRegular(refs: Refs, node: Option<Schema>, stack: set<string>)
    requires Supported(refs, node, stack)
    ensures Regular(Trans(refs, node, stack))
    decreases refs.Keys - stack, node, 2
  {
    hide MergeAllOf, TransPlain, Regular, SupportedChildren, KeywordsMatchType, UntypedObjectPart, DeclaresObject;
    var n := node.value;
    if RefOf(n) != "" {
      var key := Normalize(RefOf(n));
      if key !in stack { TransRegular(refs, Some(refs[key]), stack + {key}); } else { OpenRegular(); }
    } else {
      PlainRegular(refs, n, stack);
      if n.allOf != [] { AllOfRegular(refs, n, stack); }
    }
  }

  lemma OpenRegular()
    ensures Regular(OPEN_OBJECT)
  {
  }

  lemma {:induction false} AllOfRegular(refs: Refs, n: Schema, stack: set<string>)
    requires RefOf(n) == "" && n.allOf != [] && Regular(TransPlain(refs, n, stack))
    requires forall i :: 0 <= i < |n.allOf| ==> Supported(refs, n.allOf[i], stack)
    ensures Regular(Trans(refs, Some(n), stack))
    decreases refs.Keys - stack, n, 4
  {
    hide MergeAllOf, TransPlain, Regular, Supported, Trans;
    var members := TransAll(refs, n.allOf, stack);
    forall i | 0 <= i < |n.allOf| ensures n.allOf[i].Some? && Regular(members[i]) {
      SupportedIsThere(refs, n.allOf[i], stack);
      TransRegular(refs, n.allOf[i], stack);
    }
    AllOfWhole(refs, n, stack);
    MergeRegular([TransPlain(refs, n, stack)] + members);
  }

  lemma {:induction false} PlainRegular(refs: Refs, n: Schema, stack: set<string>)
    requires SupportedChildren(refs, n, stack)
    ensures Regular(TransPlain(refs, n, stack))
    decreases refs.Keys - stack, n, 1
  {
    var children, extra, items := ChildrenOf(refs, n, stack), ExtraOf(refs, n, stack), Trans(refs, n.items, stack);
    forall k | k in n.properties ensures Regular(children[k]) { TransRegular(refs, n.properties[k], stack); }
    if n.items.Some? { TransRegular(refs, n.items, stack); }
    if n.properties == map[] && HasExtraSchema(n) { TransRegular(refs, n.additional.value.schema, stack); }
    hide Regular, ShapeWith, Keywords, Enumerated;
    ShapeRegular(n, children, extra, items);
    OpenRegular();
    var shape := ShapeWith(n, children, extra, items);
    assert shape == Shape(refs, n, stack) && UnionMembers(n) == [];
    if shape.Some? { KeywordsRegular(n, Enumerated(n, shape.value)); }
  }

  lemma ShapeRegular(n: Schema, children: map<string, Props>, extra: Props, items: Props)
    requires PlainKeywords(n) && (forall k <- children :: Regular(children[k])) && Regular(items)
    requires children == map[] && HasExtraSchema(n) ==> Regular(extra)
    ensures var s := ShapeWith(n, children, extra, items);
            s.Some? ==> Regular(Enumerated(n, s.value))
  {
    hide Regular, FillObject, ArrayShape, ScalarShape, TypeOf, Enumerated;
    FillRegular(n, children, extra);
    ArrayRegular(n, items);
    if IsScalar(TypeOf(n)) { ScalarRegular(n, TypeOf(n)); }
    OpenShapeRegular(n);
  }

  lemma FillRegular(n: Schema, children: map<string, Props>, extra: Props)
    requires (forall k <- children :: Regular(children[k]))
    requires children == map[] && HasExtraSchema(n) ==> Regular(extra)
    ensures Regular(Enumerated(n, FillObject(Start(n), n.required, HasExtraSchema(n), AllowsExtra(n), children, extra)))
  {
  }

  lemma ArrayRegular(n: Schema, items: Props)
    requires Regular(items)
    ensures var unique := n.uniqueItems && n.listType.None?;
            Regular(Enumerated(n, ArrayShape(Start(n), n.minItems, n.maxItems, unique, items)))
  {
  }

  lemma ScalarRegular(n: Schema, t: Kind)
    requires IsScalar(t)
    ensures Regular(Enumerated(n, ScalarShape(Start(n), t, n.checks)))
  {
  }

  lemma OpenShapeRegular(n: Schema)
    ensures forall b :: Regular(Enumerated(n, OpenShape(Start(n), b)))
  {
  }

  /**
   * What a supported schema accepts is accepted once pruned exactly when it survives: at every object the required
   * fields are declared, have a value schema, or stand in a node that preserves; distinct elements stay distinct; and
   * listed values stay listed.
   */
  lemma PrunedWideningIff(env: Env, refs: Refs, node: Option<Schema>, stack: set<string>, v: Json)
    requires Supported(refs, node, stack) && Accepts(env, refs, node, v)
    ensures var p := Trans(refs, node, stack);
            OutAccepts(env, p, Prune(p, v)) <==> Survives(p, v)
  {
    Widening(env, refs, node, stack, v);
    TransRegular(refs, node, stack);
    AcceptedAfterIff(env, Trans(refs, node, stack), v);
  }

  /** A schema under which everything survives, to be read off the output. */
  predicate Firm(p: Props) {
    && p.enum == [] && (forall r <- p.required :: FieldAllowed(p, r))
    && (WantsDistinct(p) ==> HasScalarItems(p))
    && (forall k <- p.properties :: IsScalar(p.properties[k].typ) || Firm(p.properties[k]))
    && (p.additional.Some? ==> IsScalar(p.additional.value.typ) || Firm(p.additional.value))
    && (p.items.Some? ==> IsScalar(p.items.value.typ) || Firm(p.items.value))
  }

  lemma ScalarStays(env: Env, p: Props, v: Json)
    requires IsScalar(p.typ) && OutAccepts(env, p, v)
    ensures Prune(p, v) == v && Survives(p, v)
  {
  }

  lemma {:induction false} FirmSurvives(env: Env, p: Props, v: Json)
    requires (IsScalar(p.typ) || Firm(p)) && OutAccepts(env, p, v)
    ensures Survives(p, v)
    decreases v
  {
    if IsScalar(p.typ) {
      ScalarStays(env, p, v);
    } else {
      match v
      case Obj(fields) =>
        forall k | k in fields && FieldProps(p, k).Some? ensures Survives(FieldProps(p, k).value, fields[k]) {
          FirmSurvives(env, FieldProps(p, k).value, fields[k]);
        }
      case Arr(items) =>
        if p.items.Some? {
          forall i | 0 <= i < |items| ensures Survives(p.items.value, items[i]) {
            FirmSurvives(env, p.items.value, items[i]);
          }
        }
        if WantsDistinct(p) { DistinctStays(env, p, v); }
      case _ =>
    }
  }

  /** Scalars that differ differ after pruning. */
  lemma DistinctStays(env: Env, p: Props, v: Json)
    requires v.Arr? && OutAccepts(env, p, v) && WantsDistinct(p) && HasScalarItems(p)
    ensures NoDuplicates(Prune(p, v).items)
  {
    forall i | 0 <= i < |v.items| ensures Prune(p, v).items[i] == v.items[i] {
      ScalarStays(env, p.items.value, v.items[i]);
    }
    assert Prune(p, v).items == v.items;
    if ItemsUnique in p.rules { assert Eval(ItemsUnique, v) == True; }
  }

  /** Under such an output, all that a supported schema accepts is accepted by the server, pruning included. */
  lemma FirmWidening(env: Env, refs: Refs, node: Option<Schema>, stack: set<string>, v: Json)
    requires Supported(refs, node, stack) && Accepts(env, refs, node, v) && Firm(Trans(refs, node, stack))
    ensures var p := Trans(refs, node, stack);
            OutAccepts(env, p, Prune(p, v))
  {
    PrunedWideningIff(env, refs, node, stack, v);
    Widening(env, refs, node, stack, v);
    FirmSurvives(env, Trans(refs, node, stack), v);
  }

  // ---- which fields a schema keeps ---------------------------------------------------------------

  /** The schema says something about fields it does not name. */
  predicate SpeaksOfOthers(n: Schema) {
    || HasExtraSchema(n) || AllowsExtra(n) || n.patternProperties != map[]
    || (n.unevaluated.Some? && (!n.unevaluated.value.isBool || n.unevaluated.value.allow))
  }

  /** An object node keeps a field it names; any field if it speaks of others, or names none and closes none. */
  predicate KeepsField(n: Schema, k: string) {
    || k in n.properties || SpeaksOfOthers(n) || !Shaped(n)
    || (n.properties == map[] && n.additional.None?)
  }

  lemma KeepsFieldIff(refs: Refs, n: Schema, stack: set<string>, k: string)
    requires Simple(n) && OutKind(n) == Object
    ensures FieldAllowed(Trans(refs, Some(n), stack), k) <==> KeepsField(n, k)
  {
    SimpleIs(refs, n, stack);
    hide KeywordRules, Trans, TypeOf;
    assert UnionMembers(n) == [];
    var shape := ShapeWith(n, ChildrenOf(refs, n, stack), ExtraOf(refs, n, stack), Trans(refs, n.items, stack));
    assert shape == Shape(refs, n, stack);
    if shape.Some? {
      assert Trans(refs, Some(n), stack) == Keywords(n, Enumerated(n, shape.value));
    }
  }

  /** What the merge of an allOf takes over: the names of its object parts, and the preserving of any part. */
  lemma {:induction false} AbsorbedKeeps(subs: seq<Props>, k: string)
    ensures k in AbsorbAll(subs).0.properties <==> exists i :: 0 <= i < |subs| && Names(subs[i], k)
    ensures AbsorbAll(subs).0.preserve <==> exists i :: 0 <= i < |subs| && Opens(subs[i])
    ensures AbsorbAll(subs).0.additional.None?
  {
    hide Absorb, Names, Opens;
    if subs != [] {
      var last := |subs| - 1;
      var front := subs[..last];
      AbsorbedKeeps(front, k);
      AbsorbKeeps(AbsorbAll(front).0, AbsorbAll(front).1, subs[last], k);
      assert forall i :: 0 <= i < last ==> front[i] == subs[i];
    }
  }

  lemma AbsorbKeeps(merged: Props, required: set<string>, sub: Props, k: string)
    ensures var r := Absorb(merged, required, sub).0;
            && (k in r.properties <==> k in merged.properties || Names(sub, k))
            && (r.preserve <==> merged.preserve || Opens(sub))
            && r.additional == merged.additional
  {
  }

  predicate Merges(p: Props) {
    p.typ == Untyped || p.typ == Object
  }

  predicate Names(p: Props, k: string) {
    Merges(p) && k in p.properties
  }

  predicate Opens(p: Props) {
    Merges(p) ==> p.preserve
  }

  /** The map-value schema of a part plays no role: where another part names a field, the keys of the map are lost. */
  lemma MergeKeepsFieldIff(subs: seq<Props>, k: string)
    ensures FieldAllowed(MergeAllOf(subs), k) <==>
            || (exists i :: 0 <= i < |subs| && Names(subs[i], k)) || (exists i :: 0 <= i < |subs| && Opens(subs[i]))
            || (forall i, j :: 0 <= i < |subs| ==> !Names(subs[i], j))
  {
    AbsorbedKeeps(subs, k);
    forall j ensures j in AbsorbAll(subs).0.properties <==> exists i :: 0 <= i < |subs| && Names(subs[i], j) {
      AbsorbedKeeps(subs, j);
    }
    hide AbsorbAll, Names, Opens;
    var merged := AbsorbAll(subs).0;
    var out := MergeAllOf(subs);
    assert out.additional.None? && out.properties == merged.properties;
    assert out.preserve <==> merged.preserve || merged.properties == map[];
    if merged.properties != map[] {
      var j :| j in merged.properties;
      var i :| 0 <= i < |subs| && Names(subs[i], j);
    } else {
      forall i, j | 0 <= i < |subs| ensures !Names(subs[i], j) { assert j !in merged.properties; }
    }
  }

  const WORD := EMPTY.(types := [String])
  const NAMED := OPEN.(properties := map["a" := Some(WORD)])

  /** Requires a field it does not declare. */
  const WANTING := NAMED.(required := ["x"])
  const WANTED := Obj(map["x" := Str("")])

  lemma WantedAccepted(env: Env)
    ensures Supported(map[], Some(WANTING), {}) && Accepts(env, map[], Some(WANTING), WANTED)
  {
    assert RefOf(WORD) == "" && RefOf(WANTING) == "";
    assert PrimaryType(WORD.types) == String && PrimaryType(WANTING.types) == Object;
    assert Supported(map[], Some(WORD), {});
    assert LocalAllow(env, WANTING, WANTED) by { assert HasType(WANTED, WANTING.types[0]); }
    forall fuel: nat ensures AcceptsWithin(env, map[], Some(WANTING), WANTED, fuel) {
      if fuel > 0 { assert MemberWithin(env, map[], WANTING, "x", Str(""), fuel - 1); }
    }
  }

  /** What a node with named properties becomes. */
  lemma NamingNode(refs: Refs, n: Schema, stack: set<string>)
    requires PlainKeywords(n) && n.properties != map[]
    ensures var p := TransPlain(refs, n, stack);
            && p.typ == Object && p.properties.Keys == n.properties.Keys && p.required == SortStrings(n.required)
            && (p.preserve <==> SpeaksOfOthers(n))
  {
    hide KeywordRules, SortStrings, Trans;
    var shape := Shape(refs, n, stack);
    assert shape.Some? && UnionMembers(n) == [];
    assert TransPlain(refs, n, stack) == Keywords(n, Enumerated(n, shape.value));
  }

  lemma WantingFacts()
    ensures Simple(WANTING) && OutKind(WANTING) == Object && !KeepsField(WANTING, "x")
    ensures "x" in Trans(map[], Some(WANTING), {}).required
  {
    hide TransPlain;
    assert RefOf(WANTING) == "" && "a" in WANTING.properties;
    SimpleIs(map[], WANTING, {});
    NamingNode(map[], WANTING, {});
    SortedMembers(WANTING.required);
  }

  /** The field a schema requires and does not declare is pruned, and the value then refused for lack of it. */
  lemma RequiredFieldPruned(env: Env)
    ensures var p := Trans(map[], Some(WANTING), {});
            OutAccepts(env, p, WANTED) && !OutAccepts(env, p, Prune(p, WANTED))
  {
    WantedAccepted(env);
    WantingFacts();
    hide Trans, OutAccepts, Accepts, Supported, Simple, OutKind, KeepsField, FieldAllowed, Prune;
    Widening(env, map[], Some(WANTING), {}, WANTED);
    PrunedWideningIff(env, map[], Some(WANTING), {}, WANTED);
    KeepsFieldIff(map[], WANTING, {}, "x");
  }

  const DICTIONARY := OPEN.(additional := Some(Extra(false, false, Some(WORD))))

  /** Names a field, and is a map of values through an allOf. */
  const BOTH_WAYS := NAMED.(allOf := [Some(DICTIONARY)])
  const ENTRY := Obj(map["b" := Str("")])

  lemma DictionaryAccepts(env: Env, fuel: nat)
    ensures AcceptsWithin(env, map[], Some(DICTIONARY), ENTRY, fuel)
  {
    assert RefOf(WORD) == "" && RefOf(DICTIONARY) == "";
    assert LocalAllow(env, DICTIONARY, ENTRY) by { assert HasType(ENTRY, OPEN.types[0]); }
    assert LocalAllow(env, WORD, Str("")) by { assert HasType(Str(""), WORD.types[0]); }
    if fuel > 0 { assert MemberWithin(env, map[], DICTIONARY, "b", Str(""), fuel - 1); }
  }

  lemma EntryAccepted(env: Env)
    ensures Accepts(env, map[], Some(BOTH_WAYS), ENTRY)
  {
    assert RefOf(BOTH_WAYS) == "";
    assert LocalAllow(env, BOTH_WAYS, ENTRY) by { assert HasType(ENTRY, OPEN.types[0]); }
    hide LocalAllow;
    forall fuel: nat ensures AcceptsWithin(env, map[], Some(BOTH_WAYS), ENTRY, fuel) {
      if fuel > 0 {
        DictionaryAccepts(env, fuel - 1);
        assert MemberWithin(env, map[], BOTH_WAYS, "b", Str(""), fuel - 1);
      }
    }
  }

  /** An entry of the map is accepted by the schema, and silently lost. */
  lemma MapEntryPruned(env: Env)
    ensures Accepts(env, map[], Some(BOTH_WAYS), ENTRY)
    ensures Prune(Trans(map[], Some(BOTH_WAYS), {}), ENTRY) == Obj(map[])
  {
    EntryAccepted(env);
    var base, part := TransPlain(map[], BOTH_WAYS, {}), Trans(map[], Some(DICTIONARY), {});
    BothWaysParts();
    hide Trans, TransPlain, Accepts, MergeAllOf;
    AllOfWhole(map[], BOTH_WAYS, {});
    var subs := [base] + [part];
    assert TransAll(map[], BOTH_WAYS.allOf, {}) == [part];
    assert subs[0] == base && subs[1] == part && Names(subs[0], "a");
    MergeKeepsFieldIff(subs, "b");
    assert !FieldAllowed(MergeAllOf(subs), "b");
  }

  lemma BothWaysParts()
    ensures RefOf(BOTH_WAYS) == ""
    ensures var base := TransPlain(map[], BOTH_WAYS, {});
            base.typ == Object && !base.preserve && base.properties.Keys == {"a"}
    ensures var part := Trans(map[], Some(DICTIONARY), {});
            part.typ == Object && !part.preserve && part.properties == map[]
  {
    assert RefOf(BOTH_WAYS) == "" && RefOf(DICTIONARY) == "" && "a" in BOTH_WAYS.properties;
    SimpleIs(map[], DICTIONARY, {});
    hide Trans, TransPlain;
    NamingNode(map[], BOTH_WAYS, {});
    DictionaryPart();
  }

  lemma DictionaryPart()
    ensures var part := TransPlain(map[], DICTIONARY, {});
            part.typ == Object && !part.preserve && part.properties == map[]
  {
    hide KeywordRules, SortStrings, Trans;
    assert HasExtraSchema(DICTIONARY) && UnionMembers(DICTIONARY) == [];
  }
}
