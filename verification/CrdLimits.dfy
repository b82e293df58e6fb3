/**
 * Where transpilation narrows instead of widening: the exact condition at each place, and small inputs that show it.
 */
module CrdLimits {
  import opened Values
  import opened CrdSchema
  import opened CrdOutput
  import opened CrdTranspile
  import opened CrdWidening
  import opened CrdNodes

  // ---- where a reference leads -------------------------------------------------------------------

  /** The definition at the end of a chain of references; None when the chain breaks off or comes round again. */
  function Target(refs: Refs, n: Schema, seen: set<string>): Option<Schema>
    decreases refs.Keys - seen
  {
    if RefOf(n) == "" then Some(n)
    else
      var key := Normalize(RefOf(n));
      if key !in refs || key in seen then None else Target(refs, refs[key], seen + {key})
  }

  lemma StepIff(env: Env, refs: Refs, n: Schema, v: Json)
    requires RefOf(n) != "" && Normalize(RefOf(n)) in refs
    ensures Accepts(env, refs, Some(n), v) <==> Accepts(env, refs, Some(refs[Normalize(RefOf(n))]), v)
  {
    var t := refs[Normalize(RefOf(n))];
    if Accepts(env, refs, Some(n), v) { AcceptsTarget(env, refs, n, v); }
    if Accepts(env, refs, Some(t), v) {
      forall fuel: nat ensures AcceptsWithin(env, refs, Some(n), v, fuel) {
        if fuel > 0 { assert AcceptsWithin(env, refs, Some(t), v, fuel - 1); }
      }
    }
  }

  lemma {:induction false} TargetDecides(env: Env, refs: Refs, n: Schema, seen: set<string>, v: Json)
    requires Target(refs, n, seen).Some?
    ensures RefOf(Target(refs, n, seen).value) == ""
    ensures Accepts(env, refs, Some(n), v) <==> Accepts(env, refs, Target(refs, n, seen), v)
    decreases refs.Keys - seen
  {
    hide Accepts, Normalize;
    if RefOf(n) != "" {
      var key := Normalize(RefOf(n));
      StepIff(env, refs, n, v);
      TargetDecides(env, refs, refs[key], seen + {key}, v);
    }
  }

  /** A chain that leads nowhere refuses nothing: at no depth is there anything to find fault with. */
  lemma {:induction false} NowhereAccepts(env: Env, refs: Refs, n: Schema, seen: set<string>, v: Json, fuel: nat)
    requires Target(refs, n, seen).None? && seen <= refs.Keys
    requires forall k, f: nat :: k in seen && f < fuel ==> AcceptsWithin(env, refs, Some(refs[k]), v, f)
    ensures AcceptsWithin(env, refs, Some(n), v, fuel)
    decreases fuel
  {
    hide Normalize, LocalAllow, MemberWithin;
    var key := Normalize(RefOf(n));
    if fuel > 0 && key in refs && key !in seen {
      for f := 0 to fuel
        invariant forall g: nat :: g < f ==> AcceptsWithin(env, refs, Some(refs[key]), v, g)
      {
        NowhereAccepts(env, refs, refs[key], seen + {key}, v, f);
      }
    }
  }

  // ---- cut references ----------------------------------------------------------------------------

  /** Objects are the only values the types admit. */
  predicate ObjectKinds(t: Schema) {
    && t.types != [] && !t.nullable
    && forall i :: 0 <= i < |t.types| ==> t.types[i] == Object || t.types[i] == Untyped || t.types[i].Unknown?
  }

  /** A reference that cannot be followed, because it is cut or unresolved, becomes an open object. */
  predicate IsCut(refs: Refs, n: Schema, stack: set<string>) {
    RefOf(n) != "" && (Normalize(RefOf(n)) !in refs || Normalize(RefOf(n)) in stack)
  }

  lemma CutWidensWhenObjects(env: Env, refs: Refs, n: Schema, stack: set<string>)
    requires IsCut(refs, n, stack)
    ensures Widens(env, refs, Some(n), stack) <==> forall v :: Accepts(env, refs, Some(n), v) ==> v.Obj?
  {
    hide Accepts, OutAccepts, Normalize;
    forall v ensures OutAccepts(env, Trans(refs, Some(n), stack), v) <==> v.Obj? { OpenObjectAccepts(env, v); }
  }

  /**
   * A cut reference widens exactly when it leads to a definition whose types admit objects only. Each other type the
   * definition allows must have its simplest value; a chain of references is followed to its end.
   */
  lemma CutWidensIff(env: Env, refs: Refs, n: Schema, stack: set<string>)
    requires IsCut(refs, n, stack)
    requires var t := Target(refs, n, {}); t.Some? ==> t.value.allOf == [] && Witnessed(t.value, Object)
    ensures Widens(env, refs, Some(n), stack) <==> Target(refs, n, {}).Some? && ObjectKinds(Target(refs, n, {}).value)
  {
    hide Accepts, Widens, Normalize, Target;
    CutWidensWhenObjects(env, refs, n, stack);
    if Target(refs, n, {}).None? {
      NowhereAcceptsAll(env, refs, n, Null);
    } else {
      var t := Target(refs, n, {}).value;
      TargetDecides(env, refs, n, {}, Null);
      forall v ensures RefOf(t) == "" && (Accepts(env, refs, Some(n), v) <==> Accepts(env, refs, Some(t), v)) {
        TargetDecides(env, refs, n, {}, v);
      }
      if ObjectKinds(t) {
        forall v | Accepts(env, refs, Some(t), v) ensures v.Obj? { AcceptsLocal(env, refs, t, v); }
      } else {
        var v := OtherValue(env, refs, t);
      }
    }
  }

  lemma NowhereAcceptsAll(env: Env, refs: Refs, n: Schema, v: Json)
    requires Target(refs, n, {}).None?
    ensures Accepts(env, refs, Some(n), v)
  {
    forall fuel: nat ensures AcceptsWithin(env, refs, Some(n), v, fuel) { NowhereAccepts(env, refs, n, {}, v, fuel); }
  }

  /** A definition that allows another type accepts a value that is no object. */
  lemma OtherValue(env: Env, refs: Refs, t: Schema) returns (v: Json)
    requires RefOf(t) == "" && t.allOf == [] && Witnessed(t, Object) && !ObjectKinds(t)
    ensures Accepts(env, refs, Some(t), v) && !v.Obj?
  {
    hide Accepts;
    if t.types == [] || t.nullable || NullType in t.types {
      NullIsAccepted(env, refs, t);
      v := Null;
    } else {
      var i :| 0 <= i < |t.types| && t.types[i] != Object && t.types[i] != Untyped && !t.types[i].Unknown?;
      assert t.types[i] in t.types;
      SampleTypes(t.types[i], Object);
      SampleAccepted(env, refs, t, t.types[i]);
      v := Sample(t.types[i]);
    }
  }

  // ---- null --------------------------------------------------------------------------------------

  /** The keywords of one node let null pass. */
  predicate NullAllowed(env: Env, n: Schema) {
    && (n.types == [] || n.nullable || NullType in n.types)
    && (n.enum != [] ==> Null in n.enum) && n.constant == Null
    && (n.checks.format != "" ==> env.formatOk(n.checks.format, Null))
  }

  /** Null is accepted, found out by a walk over references and conjuncts that visits no reference twice. */
  predicate AdmitsNull(env: Env, refs: Refs, node: Option<Schema>, seen: set<string>)
    decreases refs.Keys - seen, node
  {
    node.None? ||
    var n := node.value;
    if RefOf(n) != "" then
      var key := Normalize(RefOf(n));
      key !in refs || key in seen || AdmitsNull(env, refs, Some(refs[key]), seen + {key})
    else NullAllowed(env, n) && forall i :: 0 <= i < |n.allOf| ==> AdmitsNull(env, refs, n.allOf[i], seen)
  }

  lemma NullLocal(env: Env, n: Schema)
    ensures LocalAllow(env, n, Null) <==> NullAllowed(env, n)
  {
    if NullType in n.types { var i :| 0 <= i < |n.types| && n.types[i] == NullType; assert HasType(Null, n.types[i]); }
  }

  lemma {:induction false} AcceptedNull(env: Env, refs: Refs, node: Option<Schema>, seen: set<string>)
    requires Accepts(env, refs, node, Null)
    ensures AdmitsNull(env, refs, node, seen)
    decreases refs.Keys - seen, node
  {
    hide Accepts, NullAllowed, Normalize;
    if node.Some? {
      var n := node.value;
      if RefOf(n) != "" {
        var key := Normalize(RefOf(n));
        if key in refs && key !in seen {
          StepIff(env, refs, n, Null);
          AcceptedNull(env, refs, Some(refs[key]), seen + {key});
        }
      } else {
        AcceptsLocal(env, refs, n, Null);
        NullLocal(env, n);
        forall i | 0 <= i < |n.allOf| ensures AdmitsNull(env, refs, n.allOf[i], seen) {
          AcceptsConjunct(env, refs, n, Null, i);
          AcceptedNull(env, refs, n.allOf[i], seen);
        }
      }
    }
  }

  lemma {:induction false} AdmittedNull(env: Env, refs: Refs, node: Option<Schema>, seen: set<string>, fuel: nat)
    requires AdmitsNull(env, refs, node, seen) && seen <= refs.Keys
    requires forall k, f: nat :: k in seen && f < fuel ==> AcceptsWithin(env, refs, Some(refs[k]), Null, f)
    ensures AcceptsWithin(env, refs, node, Null, fuel)
    decreases fuel
  {
    hide Normalize, LocalAllow, MemberWithin, NullAllowed;
    if fuel > 0 && node.Some? {
      var n := node.value;
      if RefOf(n) != "" {
        var key := Normalize(RefOf(n));
        if key in refs && key !in seen {
          for f := 0 to fuel
            invariant forall g: nat :: g < f ==> AcceptsWithin(env, refs, Some(refs[key]), Null, g)
          {
            AdmittedNull(env, refs, Some(refs[key]), seen + {key}, f);
          }
        }
      } else {
        NullLocal(env, n);
        forall i | 0 <= i < |n.allOf| ensures AcceptsWithin(env, refs, n.allOf[i], Null, fuel - 1) {
          AdmittedNull(env, refs, n.allOf[i], seen, fuel - 1);
        }
      }
    }
  }

  /** The walk decides acceptance of null, cyclic references included. */
  lemma NullDecided(env: Env, refs: Refs, node: Option<Schema>)
    ensures Accepts(env, refs, node, Null) <==> AdmitsNull(env, refs, node, {})
  {
    hide AdmitsNull;
    if Accepts(env, refs, node, Null) { AcceptedNull(env, refs, node, {}); }
    if AdmitsNull(env, refs, node, {}) {
      forall fuel: nat ensures AcceptsWithin(env, refs, node, Null, fuel) { AdmittedNull(env, refs, node, {}, fuel); }
    }
  }

  /** Objects and null are the only values the types at the end of the chain admit. */
  predicate ObjectOrNull(refs: Refs, node: Option<Schema>) {
    node.Some? &&
    var t := Target(refs, node.value, {});
    t.Some? && t.value.types != [] && forall i :: 0 <= i < |t.value.types| ==>
      t.value.types[i] == Object || t.value.types[i] == NullType || t.value.types[i] == Untyped
          || t.value.types[i].Unknown?
  }

  lemma ObjectOrNullAccepts(env: Env, refs: Refs, node: Option<Schema>, v: Json)
    requires ObjectOrNull(refs, node) && Accepts(env, refs, node, v)
    ensures v.Obj? || v.Null?
  {
    hide Accepts, Target;
    TargetDecides(env, refs, node.value, {}, v);
    AcceptsLocal(env, refs, Target(refs, node.value, {}).value, v);
  }

  /** Whatever else the definition says, a cut reference to objects or null widens exactly when null is refused. */
  lemma CutNullIff(env: Env, refs: Refs, n: Schema, stack: set<string>)
    requires IsCut(refs, n, stack) && ObjectOrNull(refs, Some(n))
    ensures Widens(env, refs, Some(n), stack) <==> !AdmitsNull(env, refs, Some(n), {})
  {
    hide Accepts, Widens, AdmitsNull, Normalize, ObjectOrNull;
    CutWidensWhenObjects(env, refs, n, stack);
    NullDecided(env, refs, Some(n));
    forall v | Accepts(env, refs, Some(n), v) ensures v.Obj? || v.Null? { ObjectOrNullAccepts(env, refs, Some(n), v); }
  }

  /** What allOf becomes accepts objects only. */
  lemma MergeIsObject(env: Env, subs: seq<Props>, v: Json)
    requires OutAccepts(env, MergeAllOf(subs), v)
    ensures v.Obj?
  {
    AbsorbType(subs);
  }

  lemma {:induction false} AbsorbType(subs: seq<Props>)
    ensures AbsorbAll(subs).0.typ == Object && !AbsorbAll(subs).0.nullable
  {
    if subs != [] { AbsorbType(subs[..|subs| - 1]); }
  }

  /** An allOf over supported parts widens exactly when its conjuncts leave only objects. */
  lemma AllOfWidensIff(env: Env, refs: Refs, n: Schema, stack: set<string>)
    requires RefOf(n) == "" && n.allOf != []
    requires UntypedObjectPart(n) || (DeclaresOneType(n) && KeywordsMatchType(n))
    requires SupportedChildren(refs, n, stack)
    requires forall i :: 0 <= i < |n.allOf| ==> Supported(refs, n.allOf[i], stack)
    ensures Widens(env, refs, Some(n), stack) <==> (forall v :: Accepts(env, refs, Some(n), v) ==> v.Obj?)
  {
    var subs := [TransPlain(refs, n, stack)] + TransAll(refs, n.allOf, stack);
    forall i | 0 <= i < |n.allOf| ensures n.allOf[i].Some? { SupportedIsThere(refs, n.allOf[i], stack); }
    AllOfWhole(refs, n, stack);
    forall v | Accepts(env, refs, Some(n), v)
      ensures v.Obj? <==> OutAccepts(env, Trans(refs, Some(n), stack), v)
    {
      if v.Obj? {
        AllOfWidens(env, refs, n, stack, v);
      } else if OutAccepts(env, MergeAllOf(subs), v) {
        MergeIsObject(env, subs, v);
      }
    }
  }

  /** Where some part admits objects and null only, an allOf widens exactly when some part refuses null. */
  lemma AllOfNullIff(env: Env, refs: Refs, n: Schema, stack: set<string>)
    requires RefOf(n) == "" && n.allOf != []
    requires UntypedObjectPart(n) || (DeclaresOneType(n) && KeywordsMatchType(n))
    requires SupportedChildren(refs, n, stack)
    requires forall i :: 0 <= i < |n.allOf| ==> Supported(refs, n.allOf[i], stack)
    requires ObjectOrNull(refs, Some(n)) || exists i :: 0 <= i < |n.allOf| && ObjectOrNull(refs, n.allOf[i])
    ensures Widens(env, refs, Some(n), stack) <==> !AdmitsNull(env, refs, Some(n), {})
  {
    hide Accepts, Widens, AdmitsNull, ObjectOrNull, Supported, SupportedChildren, KeywordsMatchType;
    AllOfWidensIff(env, refs, n, stack);
    NullDecided(env, refs, Some(n));
    forall v | Accepts(env, refs, Some(n), v) ensures v.Obj? || v.Null? {
      if ObjectOrNull(refs, Some(n)) {
        ObjectOrNullAccepts(env, refs, Some(n), v);
      } else {
        var i :| 0 <= i < |n.allOf| && ObjectOrNull(refs, n.allOf[i]);
        AcceptsConjunct(env, refs, n, v, i);
        ObjectOrNullAccepts(env, refs, n.allOf[i], v);
      }
    }
  }

  // ---- small inputs ------------------------------------------------------------------------------

  const MAYBE := EMPTY.(types := [Object, NullType])
  const BOTH := EMPTY.(allOf := [Some(MAYBE), Some(MAYBE)])

  /** Two nullable members: null satisfies both and is refused by their merge. */
  lemma NullableMembersNarrow(env: Env)
    ensures Accepts(env, map[], Some(BOTH), Null) && !OutAccepts(env, Trans(map[], Some(BOTH), {}), Null)
  {
    BothAdmit(env);
    NullDecided(env, map[], Some(BOTH));
    hide Accepts, OutAccepts, Trans, TransPlain, MergeAllOf, AdmitsNull;
    AllOfWhole(map[], BOTH, {});
    var subs := [TransPlain(map[], BOTH, {})] + TransAll(map[], BOTH.allOf, {});
    if OutAccepts(env, MergeAllOf(subs), Null) { MergeIsObject(env, subs, Null); }
  }

  lemma BothAdmit(env: Env)
    ensures RefOf(BOTH) == "" && AdmitsNull(env, map[], Some(BOTH), {})
  {
    assert RefOf(MAYBE) == "" && RefOf(BOTH) == "";
    assert NullType in MAYBE.types by { assert MAYBE.types[1] == NullType; }
  }

  const LINK := EMPTY.(ref := "#N")
  const CHAIN := EMPTY.(types := [Object], properties := map["n" := Some(LINK)])
  const CHAIN_TABLE: Refs := map["#N" := CHAIN]

  /** A recursive definition that is not nullable is within the theorem, though its cycle is cut. */
  lemma CycleSupported()
    ensures Supported(CHAIN_TABLE, Some(LINK), {})
  {
    LinkFacts();
    assert {} + {"#N"} == {"#N"};
    assert Supported(CHAIN_TABLE, Some(LINK), {"#N"});
  }

  const LIST := EMPTY.(types := [Object, NullType], properties := map["n" := Some(LINK)])
  const LIST_TABLE: Refs := map["#N" := LIST]
  const LIST_VALUE := Obj(map["n" := Null])

  lemma LinkFacts()
    ensures RefOf(LINK) == "#N" && Normalize("#N") == "#N" && RefOf(LIST) == ""
  {
    assert Normalize("N") == "N";
  }

  lemma ListAccepted(env: Env)
    ensures Accepts(env, LIST_TABLE, Some(LINK), LIST_VALUE)
  {
    LinkFacts();
    assert NullType in LIST.types by { assert LIST.types[1] == NullType; }
    NullDecided(env, LIST_TABLE, Some(LINK));
    assert AdmitsNull(env, LIST_TABLE, Some(LIST), {"#N"});
    assert {} + {"#N"} == {"#N"};
    forall fuel: nat
      ensures AcceptsWithin(env, LIST_TABLE, Some(LINK), LIST_VALUE, fuel)
    {
      if fuel > 1 {
        assert MemberWithin(env, LIST_TABLE, LIST, "n", Null, fuel - 2) by {
          assert AcceptsWithin(env, LIST_TABLE, Some(LINK), Null, fuel - 2);
        }
        assert LocalAllow(env, LIST, LIST_VALUE) by { assert HasType(LIST_VALUE, LIST.types[0]); }
      }
    }
  }

  lemma ListShape()
    ensures Trans(LIST_TABLE, Some(LINK), {}).properties == map["n" := OPEN_OBJECT]
  {
    LinkFacts();
    assert {} + {"#N"} == {"#N"};
    var children := ChildrenOf(LIST_TABLE, LIST, {"#N"});
    assert children == map["n" := OPEN_OBJECT] by {
      assert Trans(LIST_TABLE, Some(LINK), {"#N"}) == OPEN_OBJECT;
    }
    assert "n" in LIST.properties;
    assert Shape(LIST_TABLE, LIST, {"#N"}) == Some(Filled(LIST, children, OPEN_OBJECT));
    PlainIs(LIST_TABLE, LIST, {"#N"});
  }

  /** A nullable list: `{"n": null}` ends it in the source, and is refused by the output. */
  lemma NullableCycleNarrows(env: Env)
    ensures !Widens(env, LIST_TABLE, Some(LINK), {})
  {
    ListAccepted(env);
    ListShape();
    OpenObjectAccepts(env, LIST_VALUE.fields["n"]);
    var p := Trans(LIST_TABLE, Some(LINK), {});
    assert !FieldsAllow(env, p.properties, p.additional, LIST_VALUE);
  }

  const TEXT := EMPTY.(types := [String])
  const COUNT := EMPTY.(types := [Number])
  const ONE := Num(1.0)

  lemma CountAccepts(env: Env)
    ensures Accepts(env, map[], Some(COUNT), ONE)
  {
    assert LocalAllow(env, COUNT, ONE) by { assert HasType(ONE, COUNT.types[0]); }
    assert RefOf(COUNT) == "";
  }

  lemma TextRefuses(env: Env)
    ensures !OutAccepts(env, Trans(map[], Some(TEXT), {}), ONE)
  {
    hide Trans, OutAccepts, Accepts;
    assert Simple(TEXT) && OutKind(TEXT) == String by { assert RefOf(TEXT) == "" && PrimaryType(TEXT.types) == String; }
    Misfit(env, map[], TEXT, {}, ONE);
  }

  const KEYED := EMPTY.(types := [Object], patternProperties := map["x" := Some(COUNT)],
                        additional := Some(Extra(false, false, Some(TEXT))))
  const KEYED_VALUE := Obj(map["x" := ONE])

  lemma KeyedAccepted(env: Env)
    requires env.matches("x", "x")
    ensures Accepts(env, map[], Some(KEYED), KEYED_VALUE)
  {
    assert RefOf(KEYED) == "";
    CountAccepts(env);
    assert LocalAllow(env, KEYED, KEYED_VALUE) by { assert HasType(KEYED_VALUE, KEYED.types[0]); }
    assert MatchesSomePattern(env, KEYED, "x") by { assert "x" in KEYED.patternProperties; }
    forall fuel: nat
      ensures AcceptsWithin(env, map[], Some(KEYED), KEYED_VALUE, fuel)
    {
      if fuel > 0 { assert MemberWithin(env, map[], KEYED, "x", ONE, fuel - 1); }
    }
  }

  /** patternProperties beside a map-value schema: the value schema is imposed on the matching keys too. */
  lemma PatternKeysNarrow(env: Env)
    requires env.matches("x", "x")
    ensures !Widens(env, map[], Some(KEYED), {})
  {
    KeyedAccepted(env);
    TextRefuses(env);
    assert RefOf(KEYED) == "";
    PlainIs(map[], KEYED, {});
    var p := Trans(map[], Some(KEYED), {});
    assert p.properties == map[] && p.additional == Some(Trans(map[], Some(TEXT), {}));
    assert KEYED_VALUE.fields["x"] == ONE;
    assert !FieldsAllow(env, p.properties, p.additional, KEYED_VALUE);
  }

  const TUPLE := EMPTY.(types := [Array], prefixItems := [Some(COUNT)], items := Some(TEXT))
  const TUPLE_VALUE := Arr([ONE])

  lemma TupleAccepted(env: Env)
    ensures Accepts(env, map[], Some(TUPLE), TUPLE_VALUE)
  {
    assert RefOf(TUPLE) == "";
    CountAccepts(env);
    assert LocalAllow(env, TUPLE, TUPLE_VALUE) by { assert HasType(TUPLE_VALUE, TUPLE.types[0]); }
    forall fuel: nat
      ensures AcceptsWithin(env, map[], Some(TUPLE), TUPLE_VALUE, fuel)
    {
      if fuel > 0 { assert AcceptsWithin(env, map[], Some(COUNT), ONE, fuel - 1); }
    }
  }

  /** prefixItems beside items: the items schema is imposed on the leading positions too. */
  lemma TupleNarrows(env: Env)
    ensures !Widens(env, map[], Some(TUPLE), {})
  {
    TupleAccepted(env);
    TextRefuses(env);
    assert RefOf(TUPLE) == "";
    PlainIs(map[], TUPLE, {});
    var p := Trans(map[], Some(TUPLE), {});
    assert p.items == Some(Trans(map[], Some(TEXT), {}));
    assert TUPLE_VALUE.items[0] == ONE;
    assert !ItemsAllow(env, p.items, TUPLE_VALUE);
  }

  const BARE_LIST := EMPTY.(types := [Array])
  const TWO_TYPES := EMPTY.(types := [String, Number])

  lemma ThreeFacts()
    ensures Simple(EMPTY) && OutKind(EMPTY) == Object && Witnessed(EMPTY, Object)
    ensures Decidable(BARE_LIST) && OutKind(BARE_LIST) == Array && Allows(BARE_LIST, Array)
    ensures Simple(TWO_TYPES) && OutKind(TWO_TYPES) == String && Witnessed(TWO_TYPES, String)
    ensures !TypeFits(TWO_TYPES, Number) && TWO_TYPES.types[1] == Number
  {
    assert RefOf(EMPTY) == "" && RefOf(BARE_LIST) == "" && RefOf(TWO_TYPES) == "";
    assert PrimaryType(BARE_LIST.types) == Array && PrimaryType(TWO_TYPES.types) == String;
  }

  /** The schema that allows everything, an array of anything, and a choice of two types. */
  lemma OpenSchemasNarrow(env: Env)
    ensures !Widens(env, map[], Some(EMPTY), {})
    ensures !Widens(env, map[], Some(BARE_LIST), {})
    ensures !Widens(env, map[], Some(TWO_TYPES), {})
  {
    hide Widens, Simple, OutKind, Witnessed, Decidable, TypeFits;
    ThreeFacts();
    UntypedNarrows(env, map[], EMPTY, {});
    WithoutItemsNarrows(env, map[], BARE_LIST, {});
    TypesMustFit(env, map[], TWO_TYPES, {});
  }
}
