/** The structural OpenAPI v3 schema the transpiler emits, its CEL rules, and which JSON values it accepts. */
module CrdOutput {
  import opened Values
  import opened CrdSchema

  /** The operands the emitted rules compare: `self` and `self.<field>`. */
  datatype Term = Self | Select(field: string)

  /** The CEL fragment the transpiler emits. `And` is the flat `a && b && c` the printer joins. */
  datatype Cel =
    | Has(field: string)
    | Eq(term: Term, literal: Json)
    | Ne(term: Term, literal: Json)
    | In(term: Term, literals: seq<Json>)
    | Not(arg: Cel)
    | And(args: seq<Cel>)
    | Or(left: Cel, right: Cel)
    | ItemsUnique

  /** A rule evaluates to true, to false, or to an error (a missing field, a wrong operand). */
  datatype Truth = True | False | Error

  function Of(b: bool): Truth { if b then True else False }

  function TermValue(t: Term, self: Json): Option<Json> {
    match t
    case Self => Some(self)
    case Select(f) => if self.Obj? && f in self.fields then Some(self.fields[f]) else None
  }

  /** CEL's logical operators absorb an error when the other operand already decides the result. */
  function Eval(e: Cel, self: Json): Truth {
    match e
    case Has(f) => if self.Obj? then Of(f in self.fields) else Error
    case Eq(t, l) => (match TermValue(t, self) case None => Error case Some(x) => Of(x == l))
    case Ne(t, l) => (match TermValue(t, self) case None => Error case Some(x) => Of(x != l))
    case In(t, ls) => (match TermValue(t, self) case None => Error case Some(x) => Of(x in ls))
    case Not(a) =>
      (match Eval(a, self) case True => False case False => True case Error => Error)
    case And(es) =>
      if exists i :: 0 <= i < |es| && Eval(es[i], self) == False then False
      else if exists i :: 0 <= i < |es| && Eval(es[i], self) == Error then Error
      else True
    case Or(a, b) =>
      var x, y := Eval(a, self), Eval(b, self);
      if x == True || y == True then True else if x == Error || y == Error then Error else False
    case ItemsUnique => if self.Arr? then Of(NoDuplicates(self.items)) else Error
  }

  /** Without errors, a conjunction is true exactly when every conjunct is. */
  lemma EvalConjunction(es: seq<Cel>, self: Json)
    requires forall i :: 0 <= i < |es| ==> Eval(es[i], self) != Error
    ensures Eval(And(es), self) == Of(forall i :: 0 <= i < |es| ==> Eval(es[i], self) == True)
  {
    if forall i :: 0 <= i < |es| ==> Eval(es[i], self) == True {
    } else {
      var i :| 0 <= i < |es| && Eval(es[i], self) != True;
      assert Eval(es[i], self) == False;
    }
  }

  /** Scalar validation keywords as emitted: unset lengths are absent. */
  datatype OutChecks = OutChecks(
    format: string, pattern: string,
    minimum: Option<real>, maximum: Option<real>, multipleOf: Option<real>,
    minLength: Option<int>, maxLength: Option<int>)

  const NO_OUT_CHECKS := OutChecks("", "", None, None, None, None, None)

  /** apiextensions' JSONSchemaProps. `additional` is a map-value schema; `preserve` keeps unknown fields. */
  datatype Props = Props(
    typ: Kind, nullable: bool, intOrString: bool, preserve: bool,
    enum: seq<Json>, checks: OutChecks,
    properties: map<string, Props>, additional: Option<Props>, required: seq<string>,
    items: Option<Props>, minItems: Option<int>, maxItems: Option<int>, listType: Option<ListType>,
    anyOf: seq<Props>, oneOf: seq<Props>,
    rules: seq<Cel>)

  const BARE := Props(Untyped, false, false, false, [], NO_OUT_CHECKS, map[], None, [], None, None, None, None, [],
                      [], [])

  /** An object that accepts any content. */
  const OPEN_OBJECT := BARE.(typ := Object, preserve := true)

  ghost predicate OutChecksAllow(env: Env, c: OutChecks, v: Json) {
    && (c.format != "" ==> env.formatOk(c.format, v))
    && (v.Str? ==>
          && (c.pattern != "" ==> env.matches(c.pattern, v.s))
          && (c.minLength.Some? ==> |v.s| >= c.minLength.value)
          && (c.maxLength.Some? ==> |v.s| <= c.maxLength.value))
    && (v.Num? ==>
          && (c.minimum.Some? ==> v.n >= c.minimum.value)
          && (c.maximum.Some? ==> v.n <= c.maximum.value)
          && (c.multipleOf.Some? ==> IsMultiple(v.n, c.multipleOf.value)))
  }

  /** The type keyword; a null passes only a nullable node, and an untyped node passes anything. */
  predicate OutTypeAllow(p: Props, v: Json) {
    if v.Null? then p.nullable
    else
      && (p.intOrString ==> v.Str? || HasType(v, Integer))
      && (p.typ != Untyped ==> HasType(v, p.typ))
  }

  /** Every rule holds; rules are not run on null. */
  predicate RulesAllow(rules: seq<Cel>, v: Json) {
    v.Null? || forall r <- rules :: Eval(r, v) == True
  }

  ghost predicate OutLocalAllow(env: Env, p: Props, v: Json) {
    && OutTypeAllow(p, v)
    && (p.enum != [] ==> v in p.enum)
    && OutChecksAllow(env, p.checks, v)
    && (v.Arr? ==>
          && (p.minItems.Some? ==> |v.items| >= p.minItems.value)
          && (p.maxItems.Some? ==> |v.items| <= p.maxItems.value)
          && (p.listType == Some(SetList) ==> NoDuplicates(v.items)))
    && (v.Obj? ==> forall r <- p.required :: r in v.fields)
    && RulesAllow(p.rules, v)
  }

  /** The API server's validation accepts the value. Unknown fields are not its concern; CrdPruning is about those. */
  ghost predicate OutAccepts(env: Env, p: Props, v: Json)
    decreases v, p
  {
    && OutLocalAllow(env, p, v)
    && ItemsAllow(env, p.items, v)
    && FieldsAllow(env, p.properties, p.additional, v)
    && AnyAllows(env, p.anyOf, v)
    && OneAllows(env, p.oneOf, v)
  }

  ghost predicate ItemsAllow(env: Env, items: Option<Props>, v: Json)
    decreases v, items
  {
    v.Arr? && items.Some? ==> forall i :: 0 <= i < |v.items| ==> OutAccepts(env, items.value, v.items[i])
  }

  ghost predicate FieldsAllow(env: Env, properties: map<string, Props>, additional: Option<Props>, v: Json)
    decreases v, additional
  {
    v.Obj? ==>
      forall k <- v.fields ::
        if k in properties then OutAccepts(env, properties[k], v.fields[k])
        else additional.Some? ==> OutAccepts(env, additional.value, v.fields[k])
  }

  ghost predicate AnyAllows(env: Env, members: seq<Props>, v: Json)
    decreases v, members
  {
    members != [] ==> exists i :: 0 <= i < |members| && OutAccepts(env, members[i], v)
  }

  ghost predicate OneAllows(env: Env, members: seq<Props>, v: Json)
    decreases v, members
  {
    members != [] ==>
      exists i :: 0 <= i < |members| && OutAccepts(env, members[i], v)
                  && (forall j :: 0 <= j < |members| && OutAccepts(env, members[j], v) ==> j == i)
  }
}
