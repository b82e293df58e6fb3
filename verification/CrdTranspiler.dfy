/** The transpiler as it runs: one walk that mutates its output, and a stack it must leave as it found it. */
module CrdTranspiler {
  import opened Values
  import opened Ordering
  import opened CrdSchema
  import opened CrdOutput
  import opened CrdTranspile

  method ChooseType(types: seq<Kind>) returns (primary: Kind, nullable: bool)
    ensures primary == PrimaryType(types) && nullable == (NullType in types)
  {
    primary, nullable := Untyped, false;
    for i := 0 to |types|
      invariant nullable == (NullType in types[..i])
      invariant PrimaryType(types) == if primary != Untyped then primary else PrimaryType(types[i..])
    {
      if types[i] == NullType {
        nullable := true;
      } else if primary == Untyped {
        primary := types[i];
      }
      assert types[i..][1..] == types[i + 1..];
    }
    assert types[..|types|] == types;
  }

  /** The rule for one trigger: dropped as soon as one of its fields cannot be named. */
  method DependencyRule(p: Props, trigger: string, deps: seq<string>) returns (rules: seq<Cel>)
    ensures rules == DependentRule(p, trigger, deps)
  {
    if deps == [] || !IsIdent(trigger) || !FieldAllowed(p, trigger) { return []; }
    var conds: seq<Cel> := [];
    for j := 0 to |deps|
      invariant conds == HasAll(deps[..j]) && forall d <- deps[..j] :: Usable(p, d)
    {
      if !IsIdent(deps[j]) || !FieldAllowed(p, deps[j]) {
        assert deps[j] in deps && !Usable(p, deps[j]);
        return [];
      }
      conds := conds + [Has(deps[j])];
      assert deps[..j + 1] == deps[..j] + [deps[j]];
    }
    assert deps[..|deps|] == deps;
    return [Or(Not(Has(trigger)), And(conds))];
  }

  method EmitDependent(p: Props, m: map<string, seq<string>>) returns (rules: seq<Cel>)
    ensures rules == EmitDependentRequired(p, m)
  {
    hide DependentRule, DependentRules, Sorted;
    rules := [];
    if p.typ != Object { return; }
    var keys := SortedKeys(m.Keys);
    FirstRules(p, m, keys);
    for i := 0 to |keys|
      invariant rules + DependentRules(p, m, keys[i..]) == DependentRules(p, m, keys)
    {
      var more := DependencyRule(p, keys[i], m[keys[i]]);
      MoreRules(p, m, keys, i, rules);
      rules := rules + more;
    }
  }

  lemma FirstRules(p: Props, m: map<string, seq<string>>, keys: seq<string>)
    requires forall k <- keys :: k in m
    ensures [] + DependentRules(p, m, keys[0..]) == DependentRules(p, m, keys)
    ensures forall rules: seq<Cel> :: rules + DependentRules(p, m, keys[|keys|..]) == rules
  {
    assert keys[0..] == keys;
  }

  lemma MoreRules(p: Props, m: map<string, seq<string>>, keys: seq<string>, i: nat, rules: seq<Cel>)
    requires (forall k <- keys :: k in m) && i < |keys|
    ensures rules + DependentRules(p, m, keys[i..])
            == (rules + DependentRule(p, keys[i], m[keys[i]])) + DependentRules(p, m, keys[i + 1..])
  {
    hide DependentRule;
    assert keys[i..][1..] == keys[i + 1..];
  }

  /** The presence conjuncts for a condition's required names. */
  method RequiredConds(p: Props, required: seq<string>) returns (r: Option<seq<Cel>>)
    ensures r == if forall f <- required :: Usable(p, f) then Some(HasAll(SortStrings(required))) else None
  {
    var names := SortStrings(required);
    SortedMembers(required);
    var conj: seq<Cel> := [];
    for i := 0 to |names|
      invariant conj == HasAll(names[..i]) && forall f <- names[..i] :: Usable(p, f)
    {
      if !Usable(p, names[i]) {
        assert names[i] in required;
        return None;
      }
      conj := conj + [Has(names[i])];
      assert names[..i + 1] == names[..i] + [names[i]];
    }
    assert names[..|names|] == names;
    r := Some(conj);
  }

  function Prepend(a: seq<Cel>, tail: Option<seq<Cel>>): Option<seq<Cel>> {
    match tail
    case None => None
    case Some(b) => Some(a + b)
  }

  lemma PrependNothing(tail: Option<seq<Cel>>)
    ensures Prepend([], tail) == tail
  {
    if tail.Some? { assert [] + tail.value == tail.value; }
  }

  lemma PrependTwice(a: seq<Cel>, b: seq<Cel>, tail: Option<seq<Cel>>)
    ensures Prepend(a, Prepend(b, tail)) == Prepend(a + b, tail)
  {
    if tail.Some? { assert a + (b + tail.value) == a + b + tail.value; }
  }

  /** The conjuncts for a condition's properties, in key order. */
  method PropertiesConds(p: Props, s: Schema) returns (r: Option<seq<Cel>>)
    ensures r == PropertyConds(p, s, Sorted(s.properties.Keys))
  {
    hide PropertyCond, Usable, PropertyConds, Prepend, Sorted;
    var keys := SortedKeys(s.properties.Keys);
    var conj: seq<Cel> := [];
    assert keys[0..] == keys;
    PrependNothing(PropertyConds(p, s, keys));
    for i := 0 to |keys|
      invariant PropertyConds(p, s, keys) == Prepend(conj, PropertyConds(p, s, keys[i..]))
    {
      PropertyStep(p, s, keys, i, conj);
      if !Usable(p, keys[i]) || s.properties[keys[i]].None? { return None; }
      var more := PropertyCond(keys[i], s.properties[keys[i]].value);
      if more.None? { return None; }
      conj := conj + more.value;
    }
    NoMoreProperties(p, s, keys, conj);
    r := Some(conj);
  }

  lemma PropertyStep(p: Props, s: Schema, keys: seq<string>, i: nat, conj: seq<Cel>)
    requires (forall k <- keys :: k in s.properties) && i < |keys|
    ensures Prepend(conj, PropertyConds(p, s, keys[i..])) ==
            if !Usable(p, keys[i]) || s.properties[keys[i]].None? then None
            else
              var more := PropertyCond(keys[i], s.properties[keys[i]].value);
              if more.None? then None else Prepend(conj + more.value, PropertyConds(p, s, keys[i + 1..]))
  {
    hide PropertyCond, Usable;
    assert keys[i..][1..] == keys[i + 1..];
    if s.properties[keys[i]].Some? {
      var more := PropertyCond(keys[i], s.properties[keys[i]].value);
      if more.Some? { PrependTwice(conj, more.value, PropertyConds(p, s, keys[i + 1..])); }
    }
  }

  lemma NoMoreProperties(p: Props, s: Schema, keys: seq<string>, conj: seq<Cel>)
    requires forall k <- keys :: k in s.properties
    ensures Prepend(conj, PropertyConds(p, s, keys[|keys|..])) == Some(conj)
  {
    assert keys[|keys|..] == [] && conj + [] == conj;
  }

  method Condition(p: Props, node: Option<Schema>) returns (r: Option<Cel>)
    ensures r == CelCond(p, node)
  {
    if node.None? || !CondShapeOk(node.value) { return None; }
    var s := node.value;
    if s.constant != Null && !IsLiteral(s.constant) { return None; }
    var conj := SelfConst(s);
    var names := RequiredConds(p, s.required);
    if names.None? { return None; }
    conj := conj + names.value;
    var properties := PropertiesConds(p, s);
    if properties.None? { return None; }
    conj := conj + properties.value;
    if conj == [] { return None; }
    r := Some(And(conj));
  }

  method EmitIfThenElse(p: Props, n: Schema) returns (rules: seq<Cel>)
    ensures rules == EmitConditional(p, n.condition, n.consequent, n.alternative)
  {
    hide CelCond;
    rules := [];
    if n.condition.None? || p.typ != Object { return; }
    var cond := Condition(p, n.condition);
    if cond.None? { return; }
    var thens := Condition(p, n.consequent);
    if thens.Some? { rules := rules + [Or(Not(cond.value), thens.value)]; }
    var elses := Condition(p, n.alternative);
    if elses.Some? { rules := rules + [Or(cond.value, elses.value)]; }
  }

  lemma TakeOneMore(s: seq<string>, i: nat)
    requires i < |s|
    ensures forall k :: k in s[..i + 1] <==> k in s[..i] || k == s[i]
  {
    assert s[..i + 1] == s[..i] + [s[i]];
  }

  lemma TakeAll(s: seq<string>)
    ensures s[..|s|] == s
  {
  }

  lemma AbsorbMore(subs: seq<Props>, sub: Props)
    ensures AbsorbAll(subs + [sub]) == Absorb(AbsorbAll(subs).0, AbsorbAll(subs).1, sub)
  {
    hide Absorb;
    assert (subs + [sub])[..|subs|] == subs;
  }

  lemma FirstAbsorbed(n: Schema, base: Props, members: seq<Props>)
    requires |members| == |n.allOf|
    ensures AbsorbAll([base] + Present(n.allOf[..0], members[..0])) == Absorb(BARE.(typ := Object), {}, base)
  {
    hide Absorb;
    assert [base] + Present(n.allOf[..0], members[..0]) == [] + [base];
    AbsorbMore([], base);
  }

  class Transpiler {
    /** The definitions, by canonical pointer. */
    const refs: Refs
    /** The references being resolved. */
    var stack: set<string>

    constructor (refs: Refs)
      ensures this.refs == refs && stack == {}
    {
      this.refs := refs;
      stack := {};
    }

    /** transpile: terminates on every schema and table, and returns the stack exactly as it received it. */
    method Transpile(node: Option<Schema>) returns (out: Props)
      modifies this`stack
      ensures stack == old(stack)
      ensures out == Trans(refs, node, stack)
      decreases refs.Keys - stack, node, 4
    {
      if node.None? { return OPEN_OBJECT; }
      var n := node.value;
      var ref := RefOf(n);
      if ref != "" {
        var key := Normalize(ref);
        if key !in refs { return OPEN_OBJECT; }
        if key in stack { return OPEN_OBJECT; }
        stack := stack + {key};
        out := Transpile(Some(refs[key]));
        stack := stack - {key};
      } else if n.allOf != [] {
        out := TranspileAllOf(n);
      } else {
        out := TranspilePlain(n);
      }
    }

    /** transpileAllOf: absorb the base node, then each member. */
    method TranspileAllOf(n: Schema) returns (out: Props)
      requires RefOf(n) == "" && n.allOf != []
      modifies this`stack
      ensures stack == old(stack)
      ensures out == Trans(refs, Some(n), stack)
      decreases refs.Keys - stack, n, 4
    {
      hide Trans, TransPlain, Absorb, AbsorbAll, Present;
      ghost var base, members := TransPlain(refs, n, stack), TransAll(refs, n.allOf, stack);
      var sub := TranspilePlain(n);
      var acc := Absorb(BARE.(typ := Object), {}, sub);
      FirstAbsorbed(n, base, members);
      for i := 0 to |n.allOf|
        invariant stack == old(stack)
        invariant acc == AbsorbAll([base] + Present(n.allOf[..i], members[..i]))
      {
        PresentStep(n.allOf, members, i);
        ghost var sofar := Present(n.allOf[..i], members[..i]);
        if n.allOf[i].None? {
          assert sofar + [] == sofar;
          continue;
        }
        sub := Transpile(n.allOf[i]);
        AbsorbMore([base] + sofar, sub);
        assert [base] + sofar + [sub] == [base] + (sofar + [sub]);
        acc := Absorb(acc.0, acc.1, sub);
      }
      assert n.allOf[..|n.allOf|] == n.allOf && members[..|n.allOf|] == members;
      AllOfIs(refs, n, stack);
      var required := SortedKeys(acc.1);
      out := acc.0;
      if out.properties == map[] { out := out.(preserve := true); }
      out := out.(required := required);
    }

    /** The node itself: its type, its values, then its keywords, each written into the output in turn. */
    method TranspilePlain(n: Schema) returns (out: Props)
      modifies this`stack
      ensures stack == old(stack)
      ensures out == TransPlain(refs, n, stack)
      decreases refs.Keys - stack, n, 3
    {
      if n.intOrString { return BARE.(intOrString := true); }
      var shape := TypedPart(n);
      if shape.None? { return OPEN_OBJECT; }
      out := Enumerated(n, shape.value);
      out := UnionPart(n, out);
      out := KeywordPart(n, out);
    }

    method TypedPart(n: Schema) returns (shape: Option<Props>)
      modifies this`stack
      ensures stack == old(stack)
      ensures shape == Shape(refs, n, stack)
      decreases refs.Keys - stack, n, 2
    {
      hide FillObject, ArrayShape, TransPlain;
      assert n.items.None? ==> Trans(refs, n.items, stack) == OPEN_OBJECT;
      var typ, nullable := ChooseType(n.types);
      var start := BARE;
      if nullable || n.nullable { start := start.(nullable := true); }
      if typ == Untyped { typ := InferType(n); }
      assert typ == TypeOf(n) && start == Start(n);
      if n.properties != map[] || HasExtraSchema(n) {
        var p := ObjectPart(n, start);
        shape := Some(p);
      } else if typ == Object {
        shape := Some(start.(typ := Object, preserve := n.additional.None? || AllowsExtra(n)));
      } else if typ == Array {
        var items := OPEN_OBJECT;
        if n.items.Some? { items := Transpile(n.items); }
        shape := Some(ArrayShape(start, n.minItems, n.maxItems, n.uniqueItems && n.listType.None?, items));
      } else if IsScalar(typ) {
        shape := Some(start.(typ := typ, checks := CopyChecks(n.checks)));
      } else if (n.oneOf != [] || n.anyOf != []) && !KeepsUnion(n) {
        shape := Some(start.(typ := Object, preserve := true));
      } else {
        shape := None;
      }
    }

    method Children(n: Schema) returns (children: map<string, Props>)
      modifies this`stack
      ensures stack == old(stack)
      ensures children == ChildrenOf(refs, n, stack)
      decreases refs.Keys - stack, n, 0
    {
      hide Trans, TransPlain, Sorted, Less;
      children := map[];
      var keys := SortedKeys(n.properties.Keys);
      for i := 0 to |keys|
        invariant stack == old(stack)
        invariant forall k :: k in children <==> k in keys[..i]
        invariant forall k <- children :: children[k] == Trans(refs, n.properties[k], stack)
      {
        TakeOneMore(keys, i);
        var child := Transpile(n.properties[keys[i]]);
        children := children[keys[i] := child];
      }
      TakeAll(keys);
    }

    /** fillObject: children in key order, then required names, then the map-value schema. */
    method ObjectPart(n: Schema, start: Props) returns (out: Props)
      modifies this`stack
      ensures stack == old(stack)
      ensures out == FillObject(start, n.required, HasExtraSchema(n), AllowsExtra(n),
                                ChildrenOf(refs, n, stack), ExtraOf(refs, n, stack))
      decreases refs.Keys - stack, n, 1
    {
      hide Trans, TransPlain, SortStrings;
      var children := Children(n);
      out := start.(typ := Object, properties := children, required := SortStrings(n.required));
      if HasExtraSchema(n) {
        if children != map[] {
          out := out.(preserve := true);
        } else {
          var extra := Transpile(n.additional.value.schema);
          out := out.(additional := Some(extra));
        }
      } else {
        out := out.(preserve := AllowsExtra(n));
      }
    }

    /** attachUnion on a typed node. */
    method UnionPart(n: Schema, p: Props) returns (out: Props)
      modifies this`stack
      ensures stack == old(stack)
      ensures out == AttachUnion(n, p, if KeepsUnion(n) then TransAll(refs, UnionMembers(n), stack) else [])
      decreases refs.Keys - stack, n, 1
    {
      out := p;
      var members := UnionMembers(n);
      if members == [] { return; }
      if !KeepsUnion(n) {
        if p.typ == Object { out := out.(preserve := true); }
        return;
      }
      var kept: seq<Props> := [];
      for i := 0 to |members|
        invariant stack == old(stack)
        invariant kept == TransAll(refs, members, stack)[..i]
      {
        var sub := Transpile(members[i]);
        kept := kept + [sub];
      }
      if n.anyOf != [] { out := out.(anyOf := kept); } else { out := out.(oneOf := kept); }
    }

    /** The conditional and dependency keywords as rules, then the keywords that only widen. */
    method KeywordPart(n: Schema, p: Props) returns (out: Props)
      ensures out == Keywords(n, p)
    {
      var depends := EmitDependent(p, n.dependentRequired);
      var conditional := EmitIfThenElse(p, n);
      out := p.(rules := p.rules + (depends + EmitNot(p.typ, n.not) + conditional));
      if Unsupported(n.patternProperties, n.unevaluated) && out.typ == Object && out.additional.None? {
        out := out.(preserve := true);
      }
    }
  }
}
