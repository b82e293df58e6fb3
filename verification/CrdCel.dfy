/** The emitted CEL rules accept exactly what dependentRequired and if/then/else accept. */
module CrdCel {
  import opened Values
  import opened Ordering
  import opened CrdSchema
  import opened CrdOutput
  import opened CrdTranspile
  import opened CrdWidening

  /** A property constrained by a const or an enum and nothing else. */
  predicate PinnedProperty(q: Option<Schema>) {
    q.Some? && q.value == EMPTY.(constant := q.value.constant, enum := q.value.enum)
    && (q.value.constant != Null || q.value.enum != [])
    && (q.value.constant == Null || q.value.enum == [])
  }

  /** A branch built from required names and pinned properties. */
  predicate SimpleBranch(s: Schema) {
    && s == EMPTY.(types := s.types, required := s.required, properties := s.properties)
    && forall k <- s.properties :: PinnedProperty(s.properties[k])
  }

  /** Every pinned property is also required. */
  predicate Covered(s: Schema) {
    forall k <- s.properties :: k in s.required
  }

  /** The value is the constant, or one of the listed values; without either, any value will do. */
  predicate Pins(q: Schema, v: Json) {
    if q.constant != Null then v == q.constant else q.enum != [] ==> v in q.enum
  }

  /** What a simple branch means for an object. */
  lemma BranchMeans(env: Env, refs: Refs, s: Schema, v: Json)
    requires SimpleBranch(s) && CondShapeOk(s) && v.Obj?
    ensures Accepts(env, refs, Some(s), v) <==>
            && (forall r <- s.required :: r in v.fields)
            && (forall k <- s.properties :: k in v.fields ==> Pins(s.properties[k].value, v.fields[k]))
  {
    assert RefOf(s) == "";
    TypesAdmitObject(s, v);
    if Accepts(env, refs, Some(s), v) {
      AcceptsLocal(env, refs, s, v);
      forall k | k in s.properties && k in v.fields
        ensures Pins(s.properties[k].value, v.fields[k])
      {
        AcceptsProperty(env, refs, s, v, k);
        PinMeans(env, refs, s.properties[k], v.fields[k]);
      }
    }
    if && (forall r <- s.required :: r in v.fields)
       && (forall k <- s.properties :: k in v.fields ==> Pins(s.properties[k].value, v.fields[k])) {
      forall fuel: nat
        ensures AcceptsWithin(env, refs, Some(s), v, fuel)
      {
        if fuel > 0 {
          forall k | k in v.fields
            ensures MemberWithin(env, refs, s, k, v.fields[k], fuel - 1)
          {
            if k in s.properties { PinMeans(env, refs, s.properties[k], v.fields[k]); }
          }
        }
      }
    }
  }

  lemma TypesAdmitObject(s: Schema, v: Json)
    requires (s.types == [] || s.types == [Object]) && v.Obj?
    ensures TypesAllow(s, v)
  {
    if s.types != [] { assert HasType(v, s.types[0]); }
  }

  lemma PinMeans(env: Env, refs: Refs, q: Option<Schema>, v: Json)
    requires PinnedProperty(q)
    ensures Accepts(env, refs, q, v) <==> Pins(q.value, v)
  {
    assert RefOf(q.value) == "";
    if Accepts(env, refs, q, v) { AcceptsLocal(env, refs, q.value, v); }
    if Pins(q.value, v) {
      assert LocalAllow(env, q.value, v);
      forall fuel: nat
        ensures AcceptsWithin(env, refs, q, v, fuel)
      {
        if fuel > 0 && v.Obj? {
          assert forall k <- v.fields :: MemberWithin(env, refs, q.value, k, v.fields[k], fuel - 1);
        }
      }
    }
  }

  /**
   * The emitted condition of any schema, and not of simple branches only: it never errs on an object, and holds exactly
   * when every listed field is present, and every property is present and one of the values pinned for it.
   */
  lemma CondMeans(p: Props, s: Schema, c: Cel, v: Json)
    requires v.Obj? && CelCond(p, Some(s)) == Some(c)
    ensures Eval(c, v) ==
            Of(&& (s.constant != Null ==> v == s.constant)
               && (forall r <- s.required :: r in v.fields)
               && (forall k <- s.properties ::
                     k in v.fields && s.properties[k].Some? && Pins(s.properties[k].value, v.fields[k])))
  {
    var keys := Sorted(s.properties.Keys);
    var names := SortStrings(s.required);
    CondIs(p, s, c);
    var tail := PropertyConds(p, s, keys).value;
    PropertyCondsMean(p, s, keys, v);
    HasAllMeans(names, v);
    SelfMeans(s, v);
    EvalAppend(SelfConst(s), HasAll(names), v);
    EvalAppend(SelfConst(s) + HasAll(names), tail, v);
    SortedMembers(s.required);
  }

  lemma SelfMeans(s: Schema, v: Json)
    ensures Eval(And(SelfConst(s)), v) == Of(s.constant != Null ==> v == s.constant)
  {
    if s.constant != Null {
      var e := Eq(Self, s.constant);
      assert Eval(e, v) == Of(v == s.constant);
      EvalConjunction([e], v);
      assert [e][0] == e && SelfConst(s) == [e];
      assert (forall i :: 0 <= i < |[e]| ==> Eval([e][i], v) == True) <==> Eval(e, v) == True;
    }
  }

  lemma CondIs(p: Props, s: Schema, c: Cel)
    requires CelCond(p, Some(s)) == Some(c)
    ensures var tail := PropertyConds(p, s, Sorted(s.properties.Keys));
            tail.Some? && c == And(SelfConst(s) + HasAll(SortStrings(s.required)) + tail.value)
  {
    hide PropertyConds, SortStrings, Sorted, Usable;
  }

  lemma HasAllMeans(names: seq<string>, v: Json)
    requires v.Obj?
    ensures Eval(And(HasAll(names)), v) == Of(forall r <- names :: r in v.fields)
  {
    var has := HasAll(names);
    assert forall i :: 0 <= i < |has| ==> Eval(has[i], v) == Of(names[i] in v.fields);
    EvalConjunction(has, v);
  }

  /** CEL's conjunction distributes over concatenation; a false part hides an error in the other. */
  lemma EvalAppend(a: seq<Cel>, b: seq<Cel>, v: Json)
    requires Eval(And(a), v) != Error && Eval(And(b), v) != Error
    ensures Eval(And(a + b), v) == (if Eval(And(a), v) == False || Eval(And(b), v) == False then False else True)
  {
    var ab := a + b;
    if Eval(And(a), v) == False {
      var i :| 0 <= i < |a| && Eval(a[i], v) == False;
      assert ab[i] == a[i];
    } else if Eval(And(b), v) == False {
      var i :| 0 <= i < |b| && Eval(b[i], v) == False;
      assert ab[|a| + i] == b[i];
    } else {
      assert forall i :: 0 <= i < |ab| ==> ab[i] == if i < |a| then a[i] else b[i - |a|];
    }
  }

  lemma PropertyCondMeans(k: string, q: Schema, v: Json)
    requires PropertyCond(k, q).Some? && v.Obj?
    ensures Eval(And(PropertyCond(k, q).value), v) == Of(k in v.fields && Pins(q, v.fields[k]))
  {
    var es := PropertyCond(k, q).value;
    assert Eval(es[0], v) == Of(k in v.fields);
    if k in v.fields {
      if |es| > 1 { assert Eval(es[1], v) == Of(Pins(q, v.fields[k])); }
      EvalConjunction(es, v);
    }
  }

  lemma {:induction false} PropertyCondsMean(p: Props, s: Schema, keys: seq<string>, v: Json)
    requires v.Obj? && (forall k <- keys :: k in s.properties) && PropertyConds(p, s, keys).Some?
    ensures Eval(And(PropertyConds(p, s, keys).value), v) ==
            Of(forall k <- keys :: k in v.fields && s.properties[k].Some? && Pins(s.properties[k].value, v.fields[k]))
  {
    if keys != [] {
      var q := s.properties[keys[0]];
      PropertyCondMeans(keys[0], q.value, v);
      PropertyCondsMean(p, s, keys[1..], v);
      EvalAppend(PropertyCond(keys[0], q.value).value, PropertyConds(p, s, keys[1..]).value, v);
      assert forall k :: k in keys <==> k == keys[0] || k in keys[1..];
    }
  }

  /**
   * A branch and its CEL condition agree on every object exactly when every pinned property is required.
   * Otherwise an object without that property satisfies the branch and fails the condition.
   */
  lemma CondExactIff(env: Env, refs: Refs, p: Props, s: Schema, c: Cel)
    requires SimpleBranch(s) && CelCond(p, Some(s)) == Some(c)
    ensures Covered(s) <==>
            forall v: Json :: v.Obj? ==> Eval(c, v) == Of(Accepts(env, refs, Some(s), v))
  {
    if Covered(s) {
      forall v: Json | v.Obj?
        ensures Eval(c, v) == Of(Accepts(env, refs, Some(s), v))
      {
        CondExact(env, refs, p, s, c, v);
      }
    } else {
      var k :| k in s.properties && k !in s.required;
      var v := Obj(map r | r in s.required :: Witness(s, r));
      CondMeans(p, s, c, v);
      BranchMeans(env, refs, s, v);
      assert Eval(c, v) != Of(Accepts(env, refs, Some(s), v));
    }
  }

  lemma CondExact(env: Env, refs: Refs, p: Props, s: Schema, c: Cel, v: Json)
    requires SimpleBranch(s) && Covered(s) && CelCond(p, Some(s)) == Some(c) && v.Obj?
    ensures Eval(c, v) == Of(Accepts(env, refs, Some(s), v))
  {
    CondMeans(p, s, c, v);
    BranchMeans(env, refs, s, v);
  }

  /** A value that satisfies whatever the branch pins under this name. */
  function Witness(s: Schema, r: string): (v: Json)
    requires SimpleBranch(s)
    ensures r in s.properties ==> Pins(s.properties[r].value, v)
  {
    if r !in s.properties then Null
    else if s.properties[r].value.constant != Null then s.properties[r].value.constant
    else s.properties[r].value.enum[0]
  }

  // ---- a whole node ------------------------------------------------------------------------------

  /** if/then/else: the consequent binds when the condition holds, the alternative when it does not. */
  ghost predicate ConditionalAllows(env: Env, refs: Refs, n: Schema, v: Json) {
    n.condition.Some? ==>
      if Accepts(env, refs, n.condition, v) then Accepts(env, refs, n.consequent, v)
      else Accepts(env, refs, n.alternative, v)
  }

  /** A branch that is absent, or simple, covered and expressible on the node. */
  ghost predicate FaithfulBranch(p: Props, s: Option<Schema>) {
    s.Some? ==> SimpleBranch(s.value) && Covered(s.value) && CelCond(p, s).Some?
  }

  ghost predicate UsableDependencies(p: Props, n: Schema) {
    forall t <- n.dependentRequired :: n.dependentRequired[t] != [] ==>
      Usable(p, t) && forall d <- n.dependentRequired[t] :: Usable(p, d)
  }

  lemma {:induction false} DependentRulesExact(p: Props, m: map<string, seq<string>>, keys: seq<string>, v: Json)
    requires v.Obj? && (forall k <- keys :: k in m)
    requires forall k <- keys :: m[k] != [] ==> Usable(p, k) && forall d <- m[k] :: Usable(p, d)
    ensures RulesAllow(DependentRules(p, m, keys), v) <==>
            forall k <- keys :: k in v.fields ==> forall d <- m[k] :: d in v.fields
  {
    if keys != [] {
      var first, rest := DependentRule(p, keys[0], m[keys[0]]), DependentRules(p, m, keys[1..]);
      DependentRulesExact(p, m, keys[1..], v);
      RulesAppend(first, rest, v);
      assert forall k :: k in keys <==> k == keys[0] || k in keys[1..];
      if m[keys[0]] != [] { DependentRuleMeans(p, keys[0], m[keys[0]], v); }
    }
  }

  lemma RulesAppend(a: seq<Cel>, b: seq<Cel>, v: Json)
    ensures RulesAllow(a + b, v) <==> RulesAllow(a, v) && RulesAllow(b, v)
  {
    assert forall r :: r in a + b <==> r in a || r in b;
  }

  lemma ConditionalExact(env: Env, refs: Refs, p: Props, n: Schema, v: Json)
    requires p.typ == Object && v.Obj?
    requires FaithfulBranch(p, n.condition) && FaithfulBranch(p, n.consequent) && FaithfulBranch(p, n.alternative)
    ensures RulesAllow(EmitConditional(p, n.condition, n.consequent, n.alternative), v) <==>
            ConditionalAllows(env, refs, n, v)
  {
    if n.condition.Some? {
      var c := CelCond(p, n.condition).value;
      CondExact(env, refs, p, n.condition.value, c, v);
      BothBranches(env, refs, p, n.consequent, n.alternative, c, v);
    }
  }

  lemma BothBranches(env: Env, refs: Refs, p: Props, t: Option<Schema>, e: Option<Schema>, c: Cel, v: Json)
    requires v.Obj? && Eval(c, v) != Error && FaithfulBranch(p, t) && FaithfulBranch(p, e)
    ensures RulesAllow(BranchRule(Not(c), CelCond(p, t)) + BranchRule(c, CelCond(p, e)), v) <==>
            if Eval(c, v) == True then Accepts(env, refs, t, v) else Accepts(env, refs, e, v)
  {
    hide CelCond, Accepts, RulesAllow, FaithfulBranch;
    RulesAppend(BranchRule(Not(c), CelCond(p, t)), BranchRule(c, CelCond(p, e)), v);
    BranchRuleExact(env, refs, p, t, Not(c), v);
    BranchRuleExact(env, refs, p, e, c, v);
  }

  /** A rule `escape || branch` binds the branch exactly when the escape is false. */
  lemma BranchRuleExact(env: Env, refs: Refs, p: Props, s: Option<Schema>, escape: Cel, v: Json)
    requires v.Obj? && FaithfulBranch(p, s) && Eval(escape, v) != Error
    ensures RulesAllow(BranchRule(escape, CelCond(p, s)), v) <==>
            Eval(escape, v) == True || Accepts(env, refs, s, v)
  {
    if s.Some? {
      var x := CelCond(p, s).value;
      CondExact(env, refs, p, s.value, x, v);
      EscapeRule(escape, x, v);
    }
  }

  lemma EscapeRule(escape: Cel, x: Cel, v: Json)
    requires !v.Null? && Eval(escape, v) != Error && Eval(x, v) != Error
    ensures RulesAllow(BranchRule(escape, Some(x)), v) <==> Eval(escape, v) == True || Eval(x, v) == True
  {
    var rule := Or(escape, x);
    assert Eval(rule, v) == True <==> Eval(escape, v) == True || Eval(x, v) == True;
    assert BranchRule(escape, Some(x)) == [rule] && rule in [rule];
  }

  /** The rules added to an object node accept exactly the objects its dependentRequired and if/then/else accept. */
  lemma RulesExact(env: Env, refs: Refs, n: Schema, p: Props, v: Json)
    requires p.typ == Object && v.Obj? && UsableDependencies(p, n)
    requires FaithfulBranch(p, n.condition) && FaithfulBranch(p, n.consequent) && FaithfulBranch(p, n.alternative)
    ensures RulesAllow(Keywords(n, p).rules, v) <==>
            RulesAllow(p.rules, v) && DependentRequiredAllow(n, v) && ConditionalAllows(env, refs, n, v)
  {
    ConditionalExact(env, refs, p, n, v);
    DependentExact(p, n, v);
    ThreeParts(p.rules, EmitDependentRequired(p, n.dependentRequired),
               EmitConditional(p, n.condition, n.consequent, n.alternative), v);
  }

  lemma DependentExact(p: Props, n: Schema, v: Json)
    requires p.typ == Object && v.Obj? && UsableDependencies(p, n)
    ensures RulesAllow(EmitDependentRequired(p, n.dependentRequired), v) <==> DependentRequiredAllow(n, v)
  {
    DependentRulesExact(p, n.dependentRequired, Sorted(n.dependentRequired.Keys), v);
  }

  lemma ThreeParts(a: seq<Cel>, b: seq<Cel>, c: seq<Cel>, v: Json)
    ensures RulesAllow(a + (b + [] + c), v) <==> RulesAllow(a, v) && RulesAllow(b, v) && RulesAllow(c, v)
  {
    assert b + [] + c == b + c;
    RulesAppend(b, c, v);
    RulesAppend(a, b + c, v);
  }

  // ---- rules that compile ------------------------------------------------------------------------

  /** The fields a rule names. */
  function FieldsOf(c: Cel): set<string> {
    match c
    case Has(f) => {f}
    case Eq(t, _) => TermFields(t)
    case Ne(t, _) => TermFields(t)
    case In(t, _) => TermFields(t)
    case Not(a) => FieldsOf(a)
    case And(es) => set i, f | 0 <= i < |es| && f in FieldsOf(es[i]) :: f
    case Or(a, b) => FieldsOf(a) + FieldsOf(b)
    case ItemsUnique => {}
  }

  function TermFields(t: Term): set<string> {
    if t.Select? then {t.field} else {}
  }

  predicate Alphabetic(c: char) {
    65 <= c as int <= 90 || 97 <= c as int <= 122 || c as int == 95
  }

  /** A CEL identifier: letters, digits and underscores, not starting with a digit. */
  predicate Nameable(f: string) {
    && f != "" && Alphabetic(f[0])
    && forall c :: c in f ==> Alphabetic(c) || 48 <= c as int <= 57
  }

  ghost predicate Compiles(p: Props, c: Cel) {
    forall f :: f in FieldsOf(c) ==> Nameable(f) && (p.preserve || p.additional.Some? || f in p.properties)
  }

  lemma UsableCompiles(p: Props, f: string)
    requires Usable(p, f)
    ensures Compiles(p, Has(f)) && Nameable(f)
  {
    forall c | c in f ensures Alphabetic(c) || 48 <= c as int <= 57 { var i :| 0 <= i < |f| && f[i] == c; }
  }

  lemma AndCompiles(p: Props, es: seq<Cel>)
    requires forall i :: 0 <= i < |es| ==> Compiles(p, es[i])
    ensures Compiles(p, And(es))
  {
  }

  lemma HasAllCompiles(p: Props, fs: seq<string>)
    requires forall f <- fs :: Usable(p, f)
    ensures forall i :: 0 <= i < |HasAll(fs)| ==> Compiles(p, HasAll(fs)[i])
  {
    forall i | 0 <= i < |fs| ensures Compiles(p, HasAll(fs)[i]) { UsableCompiles(p, fs[i]); }
  }

  lemma {:induction false} PropertyCondsCompile(p: Props, s: Schema, keys: seq<string>)
    requires (forall k <- keys :: k in s.properties) && PropertyConds(p, s, keys).Some?
    ensures var es := PropertyConds(p, s, keys).value; forall i :: 0 <= i < |es| ==> Compiles(p, es[i])
  {
    if keys != [] {
      UsableCompiles(p, keys[0]);
      PropertyCondsCompile(p, s, keys[1..]);
      var a, b := PropertyCond(keys[0], s.properties[keys[0]].value).value, PropertyConds(p, s, keys[1..]).value;
      forall i | 0 <= i < |a + b| ensures Compiles(p, (a + b)[i]) {
        if i < |a| { assert FieldsOf(a[i]) == {keys[0]}; }
      }
    }
  }

  lemma CondCompiles(p: Props, node: Option<Schema>)
    requires CelCond(p, node).Some?
    ensures Compiles(p, CelCond(p, node).value)
  {
    var s := node.value;
    var keys, names := Sorted(s.properties.Keys), SortStrings(s.required);
    hide PropertyConds, SortStrings, Sorted, Compiles;
    SortedMembers(s.required);
    HasAllCompiles(p, names);
    PropertyCondsCompile(p, s, keys);
    var self, tail := SelfConst(s), PropertyConds(p, s, keys).value;
    var es := self + HasAll(names) + tail;
    forall i | 0 <= i < |es| ensures Compiles(p, es[i]) {
      if i < |self| { SelfCompiles(p, s); }
    }
    AndCompiles(p, es);
  }

  lemma SelfCompiles(p: Props, s: Schema)
    ensures forall i :: 0 <= i < |SelfConst(s)| ==> Compiles(p, SelfConst(s)[i])
  {
  }

  lemma {:induction false} DependentCompiles(p: Props, m: map<string, seq<string>>, keys: seq<string>, r: Cel)
    requires (forall k <- keys :: k in m) && r in DependentRules(p, m, keys)
    ensures Compiles(p, r)
  {
    hide Compiles;
    if r in DependentRule(p, keys[0], m[keys[0]]) {
      UsableCompiles(p, keys[0]);
      HasAllCompiles(p, m[keys[0]]);
      AndCompiles(p, HasAll(m[keys[0]]));
      OrCompiles(p, Not(Has(keys[0])), And(HasAll(m[keys[0]])));
      NotCompiles(p, Has(keys[0]));
    } else {
      DependentCompiles(p, m, keys[1..], r);
    }
  }

  lemma NotCompiles(p: Props, a: Cel)
    ensures Compiles(p, Not(a)) <==> Compiles(p, a)
  {
  }

  lemma OrCompiles(p: Props, a: Cel, b: Cel)
    ensures Compiles(p, Or(a, b)) <==> Compiles(p, a) && Compiles(p, b)
  {
  }

  /** Every rule added to a node names identifiers only, and only fields the node declares or lets through. */
  lemma RulesCompile(n: Schema, p: Props, r: Cel)
    requires r in KeywordRules(n, p)
    ensures Compiles(p, r)
  {
    hide Compiles, CelCond, DependentRules, Sorted;
    if r in EmitDependentRequired(p, n.dependentRequired) {
      DependentCompiles(p, n.dependentRequired, Sorted(n.dependentRequired.Keys), r);
    } else if r in EmitNot(p.typ, n.not) {
      NegationCompiles(p, n.not, r);
    } else {
      var c := CelCond(p, n.condition).value;
      CondCompiles(p, n.condition);
      NotCompiles(p, c);
      if CelCond(p, n.consequent).Some? {
        CondCompiles(p, n.consequent);
        OrCompiles(p, Not(c), CelCond(p, n.consequent).value);
      }
      if CelCond(p, n.alternative).Some? {
        CondCompiles(p, n.alternative);
        OrCompiles(p, c, CelCond(p, n.alternative).value);
      }
    }
  }

  lemma NegationCompiles(p: Props, not: Option<Schema>, r: Cel)
    requires r in EmitNot(p.typ, not)
    ensures Compiles(p, r)
  {
    assert FieldsOf(r) == {};
  }

  /**
   * When no condition is emitted: the schema uses a keyword the condition cannot state, pins a value that is no
   * literal, names a field that cannot be named, or says nothing.
   */
  lemma CondRefusedIff(p: Props, s: Schema)
    ensures CelCond(p, Some(s)).None? <==>
            || Unstatable(s) || s.constant.Arr? || s.constant.Obj?
            || (exists r :: r in s.required && !Usable(p, r))
            || (exists k :: k in s.properties && !Stated(p, s, k))
            || (s.constant == Null && s.required == [] && s.properties == map[])
  {
    var keys, names := Sorted(s.properties.Keys), SortStrings(s.required);
    StatedAll(p, s, keys);
    SameLength(s.required);
    StatableIff(s);
    hide PropertyConds, Sorted, SortStrings, Usable, Stated, CelCond, CondShapeOk, Unstatable;
    CondNone(p, s);
    if keys == [] { assert s.properties == map[] by { assert s.properties.Keys == {}; } }
    assert (forall k <- keys :: Stated(p, s, k)) <==> !exists k :: k in s.properties && !Stated(p, s, k);
    if PropertyConds(p, s, keys).Some? { NothingToSay(s, names, keys, PropertyConds(p, s, keys).value); }
  }

  lemma NothingToSay(s: Schema, names: seq<string>, keys: seq<string>, tail: seq<Cel>)
    requires |names| == |s.required| && (keys == [] ==> tail == []) && (keys != [] ==> tail != [])
    ensures SelfConst(s) + HasAll(names) + tail == [] <==> s.constant == Null && s.required == [] && keys == []
  {
  }

  /** A keyword a condition cannot state: a type other than object, items, a union, a reference and the like. */
  predicate Unstatable(s: Schema) {
    || s.types !in {[], [Object]} || s.items.Some? || s.allOf != [] || s.anyOf != [] || s.oneOf != []
    || s.ref != "" || s.additional.Some? || s.not.Some? || s.condition.Some?
  }

  lemma StatableIff(s: Schema)
    ensures CondShapeOk(s) <==> !Unstatable(s)
  {
  }

  lemma CondNone(p: Props, s: Schema)
    ensures var tail := PropertyConds(p, s, Sorted(s.properties.Keys));
            CelCond(p, Some(s)).None? <==>
              || !CondShapeOk(s) || (s.constant != Null && !IsLiteral(s.constant))
              || !(forall r <- s.required :: Usable(p, r)) || tail.None?
              || SelfConst(s) + HasAll(SortStrings(s.required)) + tail.value == []
  {
    hide PropertyConds, Sorted, SortStrings, Usable, CondShapeOk;
  }

  lemma SameLength(s: seq<string>)
    ensures |SortStrings(s)| == |s|
  {
    assert |multiset(SortStrings(s))| == |multiset(s)|;
  }

  /** The field can be named, and the values pinned for it can be written. */
  predicate Stated(p: Props, s: Schema, k: string)
    requires k in s.properties
  {
    && Usable(p, k) && s.properties[k].Some?
    && !s.properties[k].value.constant.Arr? && !s.properties[k].value.constant.Obj?
    && (s.properties[k].value.constant == Null ==> forall x <- s.properties[k].value.enum :: !x.Arr? && !x.Obj?)
  }

  lemma {:induction false} StatedAll(p: Props, s: Schema, keys: seq<string>)
    requires forall k <- keys :: k in s.properties
    ensures PropertyConds(p, s, keys).Some? <==> forall k <- keys :: Stated(p, s, k)
    ensures PropertyConds(p, s, keys).Some? ==> (keys == [] <==> PropertyConds(p, s, keys).value == [])
  {
    hide Usable;
    if keys != [] {
      StatedAll(p, s, keys[1..]);
      if s.properties[keys[0]].Some? { PropertyStated(keys[0], s.properties[keys[0]].value); }
      hide PropertyCond;
      assert forall k :: k in keys <==> k == keys[0] || k in keys[1..];
      assert (forall k <- keys :: Stated(p, s, k)) <==>
             Stated(p, s, keys[0]) && forall k <- keys[1..] :: Stated(p, s, k);
    }
  }

  lemma PropertyStated(k: string, q: Schema)
    ensures PropertyCond(k, q).Some? <==>
            && !q.constant.Arr? && !q.constant.Obj?
            && (q.constant == Null ==> forall x <- q.enum :: !x.Arr? && !x.Obj?)
    ensures PropertyCond(k, q).Some? ==> PropertyCond(k, q).value != []
  {
  }
}
