/**
 * The other direction: what the output refuses. On the schemas that lose nothing in translation, every value the output
 * accepts is accepted by the source, and so is every value the API server stores.
 */
module CrdTight {
  import opened Values
  import opened Ordering
  import opened CrdSchema
  import opened CrdOutput
  import opened CrdTranspile
  import opened CrdWidening
  import opened CrdNodes
  import opened CrdCel
  import opened CrdPruning

  // ---- what a node must not lose -----------------------------------------------------------------

  /** The type the output has is one the source allows. */
  predicate TypesKept(n: Schema) {
    n.types == [] || (Shaped(n) && OutKind(n) in n.types)
  }

  /** The output has one list of values: the constant, or the enumeration of a node that is no object. */
  predicate EnumKept(n: Schema) {
    n.enum != [] ==> if n.constant != Null then n.constant in n.enum else OutKind(n) != Object
  }

  /** Formats are copied to scalars only. */
  predicate FormatKept(n: Schema) {
    n.checks.format == "" || IsScalar(OutKind(n))
  }

  /** An object node without properties or value schema drops its required names. */
  predicate RequiredKept(n: Schema) {
    n.required == [] || OutKind(n) != Object || n.properties != map[] || HasExtraSchema(n)
  }

  /** Distinct elements are asked for where they are scalars or their number is bounded. */
  ghost predicate UniqueKept(refs: Refs, n: Schema, stack: set<string>) {
    n.uniqueItems && OutKind(n) == Array ==> n.maxItems > 0 || IsScalar(Trans(refs, n.items, stack).typ)
  }

  /** A rule on the node can name the field. */
  predicate CanName(n: Schema, f: string) {
    IsIdent(f) &&
    (f in n.properties || HasExtraSchema(n) || AllowsExtra(n) || (n.properties == map[] && n.additional.None?))
  }

  predicate DependenciesKept(n: Schema) {
    OutKind(n) == Object ==>
      forall t <- n.dependentRequired :: n.dependentRequired[t] != [] ==>
        CanName(n, t) && forall d <- n.dependentRequired[t] :: CanName(n, d)
  }

  /** The keywords that look at the value alone are all kept. */
  ghost predicate LocalKept(refs: Refs, n: Schema, stack: set<string>) {
    && PlainKeywords(n) && n.unevaluated.None?
    && TypesKept(n) && EnumKept(n) && FormatKept(n) && RequiredKept(n) && UniqueKept(refs, n, stack)
    && DependenciesKept(n)
  }

  // ---- the node itself ---------------------------------------------------------------------------

  ghost function ShapeOf(refs: Refs, n: Schema, stack: set<string>): Option<Props> {
    ShapeWith(n, ChildrenOf(refs, n, stack), ExtraOf(refs, n, stack), Trans(refs, n.items, stack))
  }

  ghost function Finished(n: Schema, p: Props): Props {
    Keywords(n, Enumerated(n, p))
  }

  /** What the output of a plain node is made of. */
  lemma PlainParts(refs: Refs, n: Schema, stack: set<string>)
    requires PlainKeywords(n)
    ensures var s := ShapeOf(refs, n, stack);
            && TransPlain(refs, n, stack) == (if s.None? then OPEN_OBJECT else Finished(n, s.value))
            && (s.Some? <==> Shaped(n))
            && (s.Some? ==> s.value.typ == OutKind(n) && s.value.nullable == Start(n).nullable)
  {
    hide ShapeWith, Keywords, Enumerated;
    PlainIs(refs, n, stack);
    assert ShapeOf(refs, n, stack) == Shape(refs, n, stack);
    ShapeType(n, ChildrenOf(refs, n, stack), ExtraOf(refs, n, stack), Trans(refs, n.items, stack));
  }

  lemma FinishedKeeps(n: Schema, p: Props)
    requires n.listType.None?
    ensures var q := Finished(n, p);
            && q.typ == p.typ && q.nullable == p.nullable && q.intOrString == p.intOrString && q.checks == p.checks
            && q.enum == EnumOf(n.enum, n.constant, p.typ) && q.required == p.required
            && q.properties == p.properties && q.additional == p.additional && q.items == p.items
            && q.minItems == p.minItems && q.maxItems == p.maxItems && q.listType == p.listType
            && q.anyOf == p.anyOf && q.oneOf == p.oneOf
            && q.rules == p.rules + KeywordRules(n, Enumerated(n, p))
  {
    hide KeywordRules;
  }

  /** A node without a usable type has nothing local to lose. */
  lemma UnshapedLocal(n: Schema)
    requires !Shaped(n) && TypesKept(n) && EnumKept(n)
    ensures n.types == [] && n.enum == [] && n.constant == Null && n.dependentRequired == map[] && OutKind(n) == Object
  {
  }

  lemma TypesTight(n: Schema, v: Json)
    requires TypesKept(n) && (if v.Null? then Start(n).nullable else HasType(v, OutKind(n)))
    ensures TypesAllow(n, v)
  {
    if v.Null? && NullType in n.types {
      var i :| 0 <= i < |n.types| && n.types[i] == NullType;
      assert HasType(v, n.types[i]);
    }
    if !v.Null? && n.types != [] {
      var i :| 0 <= i < |n.types| && n.types[i] == OutKind(n);
      assert HasType(v, n.types[i]);
    }
  }

  /** Scalar bounds are copied without loss. */
  lemma ChecksSame(env: Env, c: Checks, v: Json)
    ensures OutChecksAllow(env, CopyChecks(c), v) <==> ChecksAllow(env, c, v)
  {
  }

  lemma ChecksTight(env: Env, n: Schema, checks: OutChecks, v: Json)
    requires FormatKept(n) && OutChecksAllow(env, checks, v) && (v.Null? || HasType(v, OutKind(n)))
    requires IsScalar(OutKind(n)) ==> checks == CopyChecks(n.checks)
    ensures ChecksAllow(env, n.checks, v)
  {
    ChecksSame(env, n.checks, v);
    if !IsScalar(OutKind(n)) { KindsOfShapes(n); }
  }

  lemma KindsOfShapes(n: Schema)
    ensures OutKind(n) == Object || OutKind(n) == Array || IsScalar(OutKind(n))
  {
  }

  lemma EnumTight(n: Schema, v: Json)
    requires EnumKept(n)
    requires EnumOf(n.enum, n.constant, OutKind(n)) != [] ==> v in EnumOf(n.enum, n.constant, OutKind(n))
    ensures (n.enum != [] ==> v in n.enum) && (n.constant != Null ==> v == n.constant)
  {
    KindIsReal(n);
  }

  lemma ArrayTight(env: Env, n: Schema, items: Props, v: Json)
    requires n.listType.None? && v.Arr? && (n.uniqueItems ==> n.maxItems > 0 || IsScalar(items.typ))
    requires OutLocalAllow(env, Finished(n, ArrayShape(Start(n), n.minItems, n.maxItems, n.uniqueItems, items)), v)
    ensures n.minItems > 0 ==> |v.items| >= n.minItems
    ensures n.maxItems > 0 ==> |v.items| <= n.maxItems
    ensures n.uniqueItems ==> NoDuplicates(v.items)
  {
    hide KeywordRules;
    var shape := ArrayShape(Start(n), n.minItems, n.maxItems, n.uniqueItems, items);
    FinishedKeeps(n, shape);
    if n.uniqueItems && !IsScalar(items.typ) {
      assert ItemsUnique in shape.rules && ItemsUnique in Finished(n, shape).rules;
      assert Eval(ItemsUnique, v) == True;
    }
  }

  /** The fields rules can name are those the node will keep. */
  lemma NamedIsUsable(n: Schema, children: map<string, Props>, extra: Props, items: Props, f: string)
    requires PlainKeywords(n) && Shaped(n) && OutKind(n) == Object && CanName(n, f)
    requires children.Keys == n.properties.Keys
    ensures Usable(Enumerated(n, ShapeWith(n, children, extra, items).value), f)
  {
    hide SortStrings, TypeOf, IsIdent;
  }

  lemma RulesTight(refs: Refs, n: Schema, stack: set<string>, p: Props, v: Json)
    requires PlainKeywords(n) && Shaped(n) && OutKind(n) == Object && DependenciesKept(n) && v.Obj?
    requires ShapeOf(refs, n, stack) == Some(p) && p.typ == Object && RulesAllow(Finished(n, p).rules, v)
    ensures DependentRequiredAllow(n, v)
  {
    hide ShapeWith, Enumerated, Usable, Trans;
    var q := Enumerated(n, p);
    assert UsableDependencies(q, n) by {
      forall t | t in n.dependentRequired && n.dependentRequired[t] != []
        ensures Usable(q, t) && forall d <- n.dependentRequired[t] :: Usable(q, d)
      {
        forall f | CanName(n, f) ensures Usable(q, f) {
          NamedIsUsable(n, ChildrenOf(refs, n, stack), ExtraOf(refs, n, stack), Trans(refs, n.items, stack), f);
        }
      }
    }
    EnumeratedType(n, p);
    FinishedRules(n, p, v);
    DependentExact(q, n, v);
  }

  lemma EnumeratedType(n: Schema, p: Props)
    ensures Enumerated(n, p).typ == p.typ
  {
  }

  lemma FinishedRules(n: Schema, p: Props, v: Json)
    requires PlainKeywords(n) && RulesAllow(Finished(n, p).rules, v)
    ensures RulesAllow(EmitDependentRequired(Enumerated(n, p), n.dependentRequired), v)
  {
    hide EmitDependentRequired;
    var q := Enumerated(n, p);
    var rules := EmitDependentRequired(q, n.dependentRequired);
    assert forall r :: r in rules ==> r in Finished(n, p).rules;
  }

  lemma ObjectTight(n: Schema, children: map<string, Props>, extra: Props, items: Props, v: Json)
    requires PlainKeywords(n) && Shaped(n) && OutKind(n) == Object && RequiredKept(n) && v.Obj?
    requires forall r <- Finished(n, ShapeWith(n, children, extra, items).value).required :: r in v.fields
    ensures forall r <- n.required :: r in v.fields
  {
    hide KeywordRules, TypeOf;
    if n.required != [] { SortedMembers(n.required); }
  }

  /** Every keyword of the node that looks at the value alone is enforced by the output. */
  lemma LocalTight(env: Env, refs: Refs, n: Schema, stack: set<string>, v: Json)
    requires LocalKept(refs, n, stack) && OutAccepts(env, TransPlain(refs, n, stack), v)
    ensures LocalAllow(env, n, v)
  {
    var s, p := ShapeOf(refs, n, stack), TransPlain(refs, n, stack);
    PlainParts(refs, n, stack);
    hide ShapeWith, Finished, Keywords, Trans, TransPlain, OutChecksAllow, ChecksAllow, EnumKept, FormatKept, OutKind;
    assert OutLocalAllow(env, p, v);
    KindIsReal(n);
    if s.None? {
      UnshapedLocal(n);
      UnshapedTight(env, n, v);
    } else {
      FinishedKeeps(n, s.value);
      TypesTight(n, v);
      EnumTight(n, v);
      ShapeChecks(refs, n, stack);
      ChecksTight(env, n, p.checks, v);
      if v.Arr? { ArrayLocalTight(env, refs, n, stack, v); }
      if v.Obj? { ObjectLocalTight(env, refs, n, stack, v); }
    }
  }

  lemma UnshapedTight(env: Env, n: Schema, v: Json)
    requires n.types == [] && n.enum == [] && n.constant == Null && n.dependentRequired == map[] && OutKind(n) == Object
    requires FormatKept(n) && RequiredKept(n) && !Shaped(n) && OutAccepts(env, OPEN_OBJECT, v)
    ensures LocalAllow(env, n, v)
  {
  }

  lemma ShapeChecks(refs: Refs, n: Schema, stack: set<string>)
    requires PlainKeywords(n) && Shaped(n) && ShapeOf(refs, n, stack).Some?
    ensures var s := ShapeOf(refs, n, stack).value;
            && !s.intOrString && s.typ == OutKind(n)
            && (IsScalar(OutKind(n)) ==> s.checks == CopyChecks(n.checks))
  {
    hide SortStrings, Trans;
  }

  lemma ArrayLocalTight(env: Env, refs: Refs, n: Schema, stack: set<string>, v: Json)
    requires PlainKeywords(n) && Shaped(n) && OutKind(n) == Array && UniqueKept(refs, n, stack) && v.Arr?
    requires ShapeOf(refs, n, stack).Some? && OutLocalAllow(env, Finished(n, ShapeOf(refs, n, stack).value), v)
    ensures n.minItems > 0 ==> |v.items| >= n.minItems
    ensures n.maxItems > 0 ==> |v.items| <= n.maxItems
    ensures n.uniqueItems ==> NoDuplicates(v.items)
  {
    hide SortStrings, Trans, Finished, OutLocalAllow;
    ArrayTight(env, n, Trans(refs, n.items, stack), v);
  }

  lemma ObjectLocalTight(env: Env, refs: Refs, n: Schema, stack: set<string>, v: Json)
    requires PlainKeywords(n) && Shaped(n) && OutKind(n) == Object && RequiredKept(n) && DependenciesKept(n) && v.Obj?
    requires ShapeOf(refs, n, stack).Some? && ShapeOf(refs, n, stack).value.typ == Object
    requires OutLocalAllow(env, Finished(n, ShapeOf(refs, n, stack).value), v)
    ensures (forall r <- n.required :: r in v.fields) && DependentRequiredAllow(n, v)
  {
    hide ShapeWith, Finished, Trans, DependentRequiredAllow;
    RulesTight(refs, n, stack, ShapeOf(refs, n, stack).value, v);
    ObjectTight(n, ChildrenOf(refs, n, stack), ExtraOf(refs, n, stack), Trans(refs, n.items, stack), v);
  }

  // ---- a whole schema ----------------------------------------------------------------------------

  predicate Closed(n: Schema) {
    n.additional.Some? && n.additional.value.isBool && !n.additional.value.allow
  }

  /** The outputs of the parts of an allOf can be merged without loss. */
  ghost predicate MergesWell(subs: seq<Props>) {
    && (forall i :: 0 <= i < |subs| ==> Mergeable(subs[i]))
    && (forall i, j, k :: 0 <= i < |subs| && 0 <= j < |subs| && k in subs[i].properties && k in subs[j].properties ==>
          subs[i].properties[k] == subs[j].properties[k])
  }

  /** An object whose fields are all it speaks of: its properties and the names it requires. */
  predicate Mergeable(p: Props) {
    && p.typ == Object && !p.intOrString && p.enum == [] && p.checks.format == "" && p.additional.None?
    && p.rules == [] && p.anyOf == [] && p.oneOf == []
  }

  ghost function Subs(refs: Refs, n: Schema, stack: set<string>): seq<Props> {
    [TransPlain(refs, n, stack)] + Present(n.allOf, TransAll(refs, n.allOf, stack))
  }

  /**
   * The schemas that lose nothing, decided by the same walk as the transpiler: no reference is cut, and every keyword
   * of every node is kept. Closed objects are among them if the values in question have been pruned.
   */
  ghost predicate Tight(refs: Refs, node: Option<Schema>, stack: set<string>, pruned: bool)
    decreases refs.Keys - stack, node, 1
  {
    node.None? ||
    var n := node.value;
    if RefOf(n) != "" then
      var key := Normalize(RefOf(n));
      key in refs ==> key !in stack && Tight(refs, Some(refs[key]), stack + {key}, pruned)
    else if n.allOf != [] then
      && TightPart(refs, n, stack, false) && MergesWell(Subs(refs, n, stack))
      && (forall i :: 0 <= i < |n.allOf| ==> Tight(refs, n.allOf[i], stack, false))
    else TightPart(refs, n, stack, pruned)
  }

  ghost predicate TightPart(refs: Refs, n: Schema, stack: set<string>, pruned: bool)
    decreases refs.Keys - stack, n, 0
  {
    && LocalKept(refs, n, stack)
    && n.patternProperties == map[] && n.prefixItems == [] && n.dependentSchemas == map[]
    && (Closed(n) ==> pruned && !HasExtraSchema(n)) && (n.properties != map[] ==> !HasExtraSchema(n))
    && (forall k <- n.properties :: Tight(refs, n.properties[k], stack, pruned))
    && (OutKind(n) == Array ==> Tight(refs, n.items, stack, pruned))
    && (HasExtraSchema(n) ==> Tight(refs, n.additional.value.schema, stack, pruned))
  }

  /** How the fields and elements of a plain node are held to their schemas. */
  lemma PlainChildren(env: Env, refs: Refs, n: Schema, stack: set<string>, v: Json)
    requires PlainKeywords(n) && (n.properties != map[] ==> !HasExtraSchema(n))
    requires OutAccepts(env, TransPlain(refs, n, stack), v)
    ensures var p := TransPlain(refs, n, stack);
            && (v.Obj? ==> OutKind(n) == Object) && (v.Arr? ==> OutKind(n) == Array)
            && (v.Arr? ==> p.items == Some(Trans(refs, n.items, stack)))
            && (v.Obj? ==> forall k <- n.properties ::
                  k in p.properties && p.properties[k] == Trans(refs, n.properties[k], stack))
            && (v.Obj? && HasExtraSchema(n) ==>
                  p.properties == map[] && p.additional == Some(Trans(refs, n.additional.value.schema, stack)))
  {
    PlainParts(refs, n, stack);
    hide Trans, TransPlain, KeywordRules, SortStrings, TypeOf;
    var s := ShapeOf(refs, n, stack);
    KindIsReal(n);
    if s.Some? { FinishedKeeps(n, s.value); }
    hide Finished;
  }

  /** A closed node knows the fields it names, and no other. */
  lemma ClosedKnows(refs: Refs, n: Schema, stack: set<string>, k: string)
    requires Simple(n) && Closed(n) && !HasExtraSchema(n) && OutKind(n) == Object && TypesKept(n) && EnumKept(n)
    requires n.patternProperties == map[] && n.unevaluated.None?
    ensures FieldAllowed(Trans(refs, Some(n), stack), k) <==> k in n.properties
  {
    KeepsFieldIff(refs, n, stack, k);
  }

  lemma KnownParts(p: Props, v: Json)
    requires Known(p, v)
    ensures v.Obj? ==> forall k <- v.fields ::
              FieldAllowed(p, k) && (FieldProps(p, k).Some? ==> Known(FieldProps(p, k).value, v.fields[k]))
    ensures v.Arr? && p.items.Some? ==> forall i :: 0 <= i < |v.items| ==> Known(p.items.value, v.items[i])
  {
  }

  lemma AcceptedParts(env: Env, p: Props, v: Json)
    requires OutAccepts(env, p, v)
    ensures v.Obj? ==> forall k <- v.fields ::
              FieldProps(p, k).Some? ==> OutAccepts(env, FieldProps(p, k).value, v.fields[k])
    ensures v.Arr? && p.items.Some? ==> forall i :: 0 <= i < |v.items| ==> OutAccepts(env, p.items.value, v.items[i])
  {
  }

  /** The part of acceptance that a node's own keywords make up, its allOf set aside. */
  ghost predicate PartWithin(env: Env, refs: Refs, n: Schema, v: Json, fuel: nat) {
    && LocalAllow(env, n, v)
    && (v.Arr? ==> forall i :: 0 <= i < |v.items| ==>
          AcceptsWithin(env, refs, if i < |n.prefixItems| then n.prefixItems[i] else n.items, v.items[i], fuel))
    && (v.Obj? ==> forall k <- v.fields :: MemberWithin(env, refs, n, k, v.fields[k], fuel))
    && (v.Obj? ==> forall k <- n.dependentSchemas :: k in v.fields ==>
          AcceptsWithin(env, refs, n.dependentSchemas[k], v, fuel))
  }

  lemma PartsMake(env: Env, refs: Refs, n: Schema, v: Json, fuel: nat)
    requires RefOf(n) == "" && PartWithin(env, refs, n, v, fuel)
    requires forall i :: 0 <= i < |n.allOf| ==> AcceptsWithin(env, refs, n.allOf[i], v, fuel)
    ensures AcceptsWithin(env, refs, Some(n), v, fuel + 1)
  {
  }

  lemma {:induction false} MemberTight(env: Env, refs: Refs, n: Schema, stack: set<string>, v: Json, pruned: bool,
                                       k: string, fuel: nat)
    requires TightPart(refs, n, stack, pruned) && RefOf(n) == "" && v.Obj? && k in v.fields
    requires OutAccepts(env, TransPlain(refs, n, stack), v)
    requires pruned ==> n.allOf == [] && Known(TransPlain(refs, n, stack), v)
    ensures MemberWithin(env, refs, n, k, v.fields[k], fuel)
    decreases fuel, 1
  {
    hide OutAccepts, Known, LocalKept, TransPlain, Trans;
    var p := TransPlain(refs, n, stack);
    assert PlainKeywords(n) && n.unevaluated.None? && TypesKept(n) && EnumKept(n) by { KeptFacts(refs, n, stack); }
    PlainChildren(env, refs, n, stack, v);
    AcceptedParts(env, p, v);
    if pruned { KnownParts(p, v); }
    if k in n.properties {
      TightWithin(env, refs, n.properties[k], stack, v.fields[k], pruned, fuel);
    } else if HasExtraSchema(n) {
      TightWithin(env, refs, n.additional.value.schema, stack, v.fields[k], pruned, fuel);
    } else if Closed(n) {
      SimpleIs(refs, n, stack);
      ClosedKnows(refs, n, stack, k);
    }
  }

  lemma KeptFacts(refs: Refs, n: Schema, stack: set<string>)
    requires LocalKept(refs, n, stack)
    ensures PlainKeywords(n) && n.unevaluated.None? && TypesKept(n) && EnumKept(n)
  {
  }

  lemma {:induction false} PartTight(env: Env, refs: Refs, n: Schema, stack: set<string>, v: Json, pruned: bool,
                                     fuel: nat)
    requires TightPart(refs, n, stack, pruned) && RefOf(n) == ""
    requires OutAccepts(env, TransPlain(refs, n, stack), v)
    requires pruned ==> n.allOf == [] && Known(TransPlain(refs, n, stack), v)
    ensures PartWithin(env, refs, n, v, fuel)
    decreases fuel, 2
  {
    hide OutAccepts, Known, LocalKept, TransPlain, Trans, LocalAllow, MemberWithin;
    var p := TransPlain(refs, n, stack);
    KeptFacts(refs, n, stack);
    LocalTight(env, refs, n, stack, v);
    PlainChildren(env, refs, n, stack, v);
    AcceptedParts(env, p, v);
    if v.Arr? {
      if pruned { KnownParts(p, v); }
      forall i | 0 <= i < |v.items| ensures AcceptsWithin(env, refs, n.items, v.items[i], fuel) {
        TightWithin(env, refs, n.items, stack, v.items[i], pruned, fuel);
      }
    }
    if v.Obj? {
      forall k | k in v.fields ensures MemberWithin(env, refs, n, k, v.fields[k], fuel) {
        MemberTight(env, refs, n, stack, v, pruned, k, fuel);
      }
    }
  }

  /** Whatever the output accepts, no depth of looking finds a fault with. */
  lemma {:induction false} TightWithin(env: Env, refs: Refs, node: Option<Schema>, stack: set<string>, v: Json,
                                       pruned: bool, fuel: nat)
    requires Tight(refs, node, stack, pruned) && OutAccepts(env, Trans(refs, node, stack), v)
    requires pruned ==> Known(Trans(refs, node, stack), v)
    ensures AcceptsWithin(env, refs, node, v, fuel)
    decreases fuel, 0
  {
    hide OutAccepts, Known, TightPart, TransPlain, MergeAllOf, MergesWell;
    if fuel > 0 && node.Some? {
      var n := node.value;
      if RefOf(n) != "" {
        var key := Normalize(RefOf(n));
        if key in refs { TightWithin(env, refs, Some(refs[key]), stack + {key}, v, pruned, fuel - 1); }
      } else if n.allOf != [] {
        AllOfTight(env, refs, n, stack, v, fuel - 1);
      } else {
        PartTight(env, refs, n, stack, v, pruned, fuel - 1);
        PartsMake(env, refs, n, v, fuel - 1);
      }
    }
  }

  lemma {:induction false} AllOfTight(env: Env, refs: Refs, n: Schema, stack: set<string>, v: Json, fuel: nat)
    requires RefOf(n) == "" && n.allOf != [] && Tight(refs, Some(n), stack, false)
    requires OutAccepts(env, Trans(refs, Some(n), stack), v)
    ensures AcceptsWithin(env, refs, Some(n), v, fuel + 1)
    decreases fuel, 3
  {
    hide OutAccepts, Known, TightPart, TransPlain, MergeAllOf, MergesWell, Trans, AcceptsWithin, PartWithin;
    var subs := Subs(refs, n, stack);
    AllOfIs(refs, n, stack);
    assert OutAccepts(env, subs[0], v) by { MergeTightens(env, subs, v, 0); }
    PartTight(env, refs, n, stack, v, false, fuel);
    forall i | 0 <= i < |n.allOf| ensures AcceptsWithin(env, refs, n.allOf[i], v, fuel) {
      if n.allOf[i].Some? {
        var j := PresentAt(n.allOf, TransAll(refs, n.allOf, stack), i);
        assert subs[j + 1] == Trans(refs, n.allOf[i], stack);
        MergeTightens(env, subs, v, j + 1);
        TightWithin(env, refs, n.allOf[i], stack, v, false, fuel);
      } else {
        NothingRefused(env, refs, v, fuel);
      }
    }
    PartsMake(env, refs, n, v, fuel);
  }

  lemma NothingRefused(env: Env, refs: Refs, v: Json, fuel: nat)
    ensures AcceptsWithin(env, refs, None, v, fuel)
  {
  }

  lemma {:induction false} PresentAt(ms: seq<Option<Schema>>, ps: seq<Props>, i: nat) returns (j: nat)
    requires |ms| == |ps| && i < |ms| && ms[i].Some?
    ensures j < |Present(ms, ps)| && Present(ms, ps)[j] == ps[i]
    decreases |ms|
  {
    var last := |ms| - 1;
    if i == last {
      j := |Present(ms[..last], ps[..last])|;
    } else {
      j := PresentAt(ms[..last], ps[..last], i);
    }
  }

  // ---- merging -----------------------------------------------------------------------------------

  lemma {:induction false} AbsorbKeepsAll(subs: seq<Props>, i: nat)
    requires MergesWell(subs) && i < |subs|
    ensures var (merged, required) := AbsorbAll(subs);
            && (forall k <- subs[i].properties ::
                  k in merged.properties && merged.properties[k] == subs[i].properties[k])
            && (forall r <- subs[i].required :: r in required)
    decreases |subs|
  {
    hide Absorb;
    var last := |subs| - 1;
    var front := subs[..last];
    assert forall j :: 0 <= j < last ==> front[j] == subs[j];
    if i < last { AbsorbKeepsAll(front, i); }
    forall k | k in subs[i].properties
      ensures var merged := AbsorbAll(subs).0; k in merged.properties && merged.properties[k] == subs[i].properties[k]
    {
      AbsorbOne(AbsorbAll(front).0, AbsorbAll(front).1, subs[last], k);
      if k in subs[last].properties { assert subs[i].properties[k] == subs[last].properties[k]; }
    }
    AbsorbRequires(AbsorbAll(front).0, AbsorbAll(front).1, subs[last]);
  }

  lemma AbsorbRequires(merged: Props, required: set<string>, sub: Props)
    requires sub.typ == Object
    ensures var r := Absorb(merged, required, sub).1; required <= r && forall x <- sub.required :: x in r
  {
  }

  lemma AbsorbOne(merged: Props, required: set<string>, sub: Props, k: string)
    ensures var r := Absorb(merged, required, sub).0;
            && (sub.typ == Object && k in sub.properties ==> k in r.properties && r.properties[k] == sub.properties[k])
            && (!Names(sub, k) && k in merged.properties ==>
                  k in r.properties && r.properties[k] == merged.properties[k])
  {
  }

  /** A merge of parts that speak of fields only, and agree on those they share, enforces every one of them. */
  lemma MergeTightens(env: Env, subs: seq<Props>, v: Json, i: nat)
    requires MergesWell(subs) && i < |subs| && OutAccepts(env, MergeAllOf(subs), v)
    ensures OutAccepts(env, subs[i], v)
  {
    var merged := MergeAllOf(subs);
    AbsorbKeepsAll(subs, i);
    MergedIs(subs);
    hide MergeAllOf, AbsorbAll, Absorb;
    assert v.Obj? by { assert OutLocalAllow(env, merged, v); }
    AcceptedParts(env, merged, v);
    MergeablePasses(env, subs[i], v);
  }

  lemma {:induction false} MergedIs(subs: seq<Props>)
    ensures var (merged, required) := AbsorbAll(subs);
            && merged.typ == Object && !merged.nullable && !merged.intOrString
            && MergeAllOf(subs).properties == merged.properties
            && MergeAllOf(subs).typ == Object && !MergeAllOf(subs).nullable
            && (forall r <- required :: r in MergeAllOf(subs).required)
  {
    if subs != [] { MergedIs(subs[..|subs| - 1]); }
  }

  lemma MergeablePasses(env: Env, p: Props, v: Json)
    requires Mergeable(p) && v.Obj? && (forall r <- p.required :: r in v.fields)
    requires forall k <- v.fields :: k in p.properties ==> OutAccepts(env, p.properties[k], v.fields[k])
    ensures OutAccepts(env, p, v)
  {
  }

  // ---- the theorems ------------------------------------------------------------------------------

  /** Every value the output of a tight schema accepts is accepted by the schema. */
  lemma TightAccepts(env: Env, refs: Refs, node: Option<Schema>, stack: set<string>, v: Json)
    requires Tight(refs, node, stack, false) && OutAccepts(env, Trans(refs, node, stack), v)
    ensures Accepts(env, refs, node, v)
  {
    forall fuel: nat ensures AcceptsWithin(env, refs, node, v, fuel) {
      TightWithin(env, refs, node, stack, v, false, fuel);
    }
  }

  /** Schema and output accept the same values where nothing is narrowed and nothing is lost. */
  lemma ExactIff(env: Env, refs: Refs, node: Option<Schema>, stack: set<string>, v: Json)
    requires Supported(refs, node, stack) && Tight(refs, node, stack, false)
    ensures OutAccepts(env, Trans(refs, node, stack), v) <==> Accepts(env, refs, node, v)
  {
    hide Supported, Tight, OutAccepts, Accepts, Trans;
    if OutAccepts(env, Trans(refs, node, stack), v) { TightAccepts(env, refs, node, stack, v); }
    if Accepts(env, refs, node, v) { Widening(env, refs, node, stack, v); }
  }

  /** What is pruned is known. */
  lemma {:induction false} PrunedIsKnown(p: Props, v: Json)
    ensures Known(p, Prune(p, v))
    decreases v
  {
    match v
    case Obj(fields) =>
      var kept := Prune(p, v).fields;
      forall k | k in kept && FieldProps(p, k).Some? ensures Known(FieldProps(p, k).value, kept[k]) {
        assert kept[k] == PruneWith(FieldProps(p, k), fields[k]);
        PrunedIsKnown(FieldProps(p, k).value, fields[k]);
      }
    case Arr(items) =>
      forall i | 0 <= i < |items| ensures Known(ElementProps(p), Prune(p, v).items[i]) {
        PrunedIsKnown(ElementProps(p), items[i]);
      }
    case _ =>
  }

  /** Whatever the API server stores, having pruned what it was sent, the schema accepts; closed objects included. */
  lemma StoredIsAccepted(env: Env, refs: Refs, node: Option<Schema>, stack: set<string>, v: Json)
    requires Tight(refs, node, stack, true)
    requires var p := Trans(refs, node, stack); OutAccepts(env, p, Prune(p, v))
    ensures Accepts(env, refs, node, Prune(Trans(refs, node, stack), v))
  {
    hide Tight, OutAccepts, Trans, Prune, Known;
    var p := Trans(refs, node, stack);
    PrunedIsKnown(p, v);
    forall fuel: nat ensures AcceptsWithin(env, refs, node, Prune(p, v), fuel) {
      TightWithin(env, refs, node, stack, Prune(p, v), true, fuel);
    }
  }
}
