/** The parsed JSON Schema (crdgen/schemas/model.go) and which JSON values it accepts. */
module CrdSchema {
  import opened Values

  /** A type name; the empty string is `Untyped`, an unrecognised one is `Unknown`. */
  datatype Kind = Untyped | NullType | Boolean | Integer | Number | String | Array | Object | Unknown(name: string)

  /** The x-kubernetes-list-type extension; only "set" bears on which values are valid. */
  datatype ListType = SetList | OtherList(name: string)

  /** A boolean-or-schema keyword: additionalProperties, unevaluatedProperties. */
  datatype Extra = Extra(isBool: bool, allow: bool, schema: Option<Schema>)

  /** Keywords that constrain one scalar. An empty pattern or format, or a length of 0 or less, is unset. */
  datatype Checks = Checks(
    format: string, pattern: string,
    minimum: Option<real>, maximum: Option<real>, multipleOf: Option<real>,
    minLength: int, maxLength: int)

  /** One schema node. `None` children are Go nil pointers; a `Null` constant is an absent const. */
  datatype Schema = Schema(
    ref: string, dynamicRef: string, recursiveRef: string,
    anchor: string, dynamicAnchor: string, defs: map<string, Option<Schema>>,
    types: seq<Kind>, nullable: bool, intOrString: bool,
    enum: seq<Json>, constant: Json, checks: Checks,
    properties: map<string, Option<Schema>>,
    patternProperties: map<string, Option<Schema>>,
    additional: Option<Extra>,
    required: seq<string>,
    items: Option<Schema>, prefixItems: seq<Option<Schema>>, additionalItems: Option<Schema>,
    minItems: int, maxItems: int, uniqueItems: bool, listType: Option<ListType>,
    allOf: seq<Option<Schema>>, anyOf: seq<Option<Schema>>, oneOf: seq<Option<Schema>>,
    not: Option<Schema>,
    dependentRequired: map<string, seq<string>>,
    dependentSchemas: map<string, Option<Schema>>,
    condition: Option<Schema>, consequent: Option<Schema>, alternative: Option<Schema>,
    unevaluated: Option<Extra>)

  const NO_CHECKS := Checks("", "", None, None, None, 0, 0)

  /** The schema `{}`. */
  const EMPTY := Schema("", "", "", "", "", map[], [], false, false, [], Null, NO_CHECKS, map[], map[], None, [],
                        None, [], None, 0, 0, false, None, [], [], [], None, map[], map[], None, None, None, None)

  /** The schema `{"type": "object"}`. */
  const OPEN := EMPTY.(types := [Object])

  /** The table from canonical JSON pointer to definition. */
  type Refs = map<string, Schema>

  /** The keyword that makes the node a reference, in the order the transpiler looks. */
  function RefOf(n: Schema): string {
    if n.ref != "" then n.ref else if n.dynamicRef != "" then n.dynamicRef else n.recursiveRef
  }

  /** Replaces every `/definitions/` by `/$defs/`, left to right without overlap. */
  function Normalize(ref: string): string {
    if ref == "" then ""
    else if "/definitions/" <= ref then "/$defs/" + Normalize(ref[13..])
    else [ref[0]] + Normalize(ref[1..])
  }

  /** Regular expressions and named formats are left to the caller: any fixed interpretation will do. */
  datatype Env = Env(matches: (string, string) -> bool, formatOk: (string, Json) -> bool)

  predicate HasType(v: Json, t: Kind) {
    match t
    case NullType => v.Null?
    case Boolean => v.Bool?
    case String => v.Str?
    case Number => v.Num?
    case Integer => v.Num? && v.n == v.n.Floor as real
    case Array => v.Arr?
    case Object => v.Obj?
    case Untyped => false
    case Unknown(_) => false
  }

  predicate TypesAllow(n: Schema, v: Json) {
    n.types == [] || (n.nullable && v.Null?) || exists i :: 0 <= i < |n.types| && HasType(v, n.types[i])
  }

  function Times(m: real, k: int): real {
    m * (k as real)
  }

  ghost predicate IsMultiple(x: real, m: real) {
    exists k: int :: x == Times(m, k)
  }

  ghost predicate ChecksAllow(env: Env, c: Checks, v: Json) {
    && (c.format != "" ==> env.formatOk(c.format, v))
    && (v.Str? ==>
          && (c.pattern != "" ==> env.matches(c.pattern, v.s))
          && (c.minLength > 0 ==> |v.s| >= c.minLength)
          && (c.maxLength > 0 ==> |v.s| <= c.maxLength))
    && (v.Num? ==>
          && (c.minimum.Some? ==> v.n >= c.minimum.value)
          && (c.maximum.Some? ==> v.n <= c.maximum.value)
          && (c.multipleOf.Some? ==> IsMultiple(v.n, c.multipleOf.value)))
  }

  /** The keywords of a node that look at the value alone, not at its children. */
  ghost predicate LocalAllow(env: Env, n: Schema, v: Json) {
    && TypesAllow(n, v)
    && (n.enum != [] ==> v in n.enum)
    && (n.constant != Null ==> v == n.constant)
    && ChecksAllow(env, n.checks, v)
    && (v.Arr? ==>
          && (n.minItems > 0 ==> |v.items| >= n.minItems)
          && (n.maxItems > 0 ==> |v.items| <= n.maxItems)
          && (n.uniqueItems ==> NoDuplicates(v.items)))
    && (v.Obj? ==>
          && (forall r <- n.required :: r in v.fields)
          && DependentRequiredAllow(n, v))
  }

  /** dependentRequired: a present trigger demands every field it lists. */
  ghost predicate DependentRequiredAllow(n: Schema, v: Json) {
    v.Obj? ==>
      forall p <- n.dependentRequired :: p in v.fields ==> forall d <- n.dependentRequired[p] :: d in v.fields
  }

  ghost predicate MatchesSomePattern(env: Env, n: Schema, key: string) {
    exists p :: p in n.patternProperties && env.matches(p, key)
  }

  /**
   * The node accepts the value, looking at most `fuel` schema edges deep. References may be cyclic, so
   * acceptance is the limit over every depth (`Accepts`). A reference stands for its target alone;
   * oneOf, anyOf, not and if are not part of this semantics and the theorems that use it exclude them.
   */
  ghost predicate AcceptsWithin(env: Env, refs: Refs, node: Option<Schema>, v: Json, fuel: nat)
    decreases fuel, 0
  {
    fuel == 0 || node.None? ||
    var n := node.value;
    if RefOf(n) != "" then
      Normalize(RefOf(n)) in refs ==>
        AcceptsWithin(env, refs, Some(refs[Normalize(RefOf(n))]), v, fuel - 1)
    else
      && LocalAllow(env, n, v)
      && (forall i :: 0 <= i < |n.allOf| ==> AcceptsWithin(env, refs, n.allOf[i], v, fuel - 1))
      && (v.Arr? ==> forall i :: 0 <= i < |v.items| ==>
            AcceptsWithin(env, refs, if i < |n.prefixItems| then n.prefixItems[i] else n.items, v.items[i], fuel - 1))
      && (v.Obj? ==> forall k <- v.fields :: MemberWithin(env, refs, n, k, v.fields[k], fuel - 1))
      && (v.Obj? ==> forall k <- n.dependentSchemas :: k in v.fields ==>
            AcceptsWithin(env, refs, n.dependentSchemas[k], v, fuel - 1))
  }

  /** What an object node demands of the member stored under one key. */
  ghost predicate MemberWithin(env: Env, refs: Refs, n: Schema, key: string, v: Json, fuel: nat)
    decreases fuel, 1
  {
    && (key in n.properties ==> AcceptsWithin(env, refs, n.properties[key], v, fuel))
    && (forall p <- n.patternProperties :: env.matches(p, key) ==>
          AcceptsWithin(env, refs, n.patternProperties[p], v, fuel))
    && (key !in n.properties && !MatchesSomePattern(env, n, key) && n.additional.Some? ==>
          && (n.additional.value.isBool ==> n.additional.value.allow)
          && AcceptsWithin(env, refs, n.additional.value.schema, v, fuel))
  }

  /** The node accepts the value: no depth of looking finds a fault. */
  ghost predicate Accepts(env: Env, refs: Refs, node: Option<Schema>, v: Json) {
    forall fuel: nat :: AcceptsWithin(env, refs, node, v, fuel)
  }

  // Acceptance by a node gives acceptance by the parts it delegates to.

  lemma AcceptsTarget(env: Env, refs: Refs, n: Schema, v: Json)
    requires RefOf(n) != "" && Normalize(RefOf(n)) in refs
    requires Accepts(env, refs, Some(n), v)
    ensures Accepts(env, refs, Some(refs[Normalize(RefOf(n))]), v)
  {
    forall fuel: nat
      ensures AcceptsWithin(env, refs, Some(refs[Normalize(RefOf(n))]), v, fuel)
    {
      assert AcceptsWithin(env, refs, Some(n), v, fuel + 1);
    }
  }

  lemma AcceptsLocal(env: Env, refs: Refs, n: Schema, v: Json)
    requires RefOf(n) == "" && Accepts(env, refs, Some(n), v)
    ensures LocalAllow(env, n, v)
  {
    assert AcceptsWithin(env, refs, Some(n), v, 1);
  }

  lemma AcceptsConjunct(env: Env, refs: Refs, n: Schema, v: Json, i: nat)
    requires RefOf(n) == "" && i < |n.allOf| && Accepts(env, refs, Some(n), v)
    ensures Accepts(env, refs, n.allOf[i], v)
  {
    forall fuel: nat
      ensures AcceptsWithin(env, refs, n.allOf[i], v, fuel)
    {
      assert AcceptsWithin(env, refs, Some(n), v, fuel + 1);
    }
  }

  lemma AcceptsItem(env: Env, refs: Refs, n: Schema, v: Json, i: nat)
    requires RefOf(n) == "" && v.Arr? && i < |v.items| && n.prefixItems == []
    requires Accepts(env, refs, Some(n), v)
    ensures Accepts(env, refs, n.items, v.items[i])
  {
    forall fuel: nat
      ensures AcceptsWithin(env, refs, n.items, v.items[i], fuel)
    {
      assert AcceptsWithin(env, refs, Some(n), v, fuel + 1);
    }
  }

  lemma AcceptsProperty(env: Env, refs: Refs, n: Schema, v: Json, key: string)
    requires RefOf(n) == "" && v.Obj? && key in v.fields && key in n.properties
    requires Accepts(env, refs, Some(n), v)
    ensures Accepts(env, refs, n.properties[key], v.fields[key])
  {
    forall fuel: nat
      ensures AcceptsWithin(env, refs, n.properties[key], v.fields[key], fuel)
    {
      assert AcceptsWithin(env, refs, Some(n), v, fuel + 1);
      assert MemberWithin(env, refs, n, key, v.fields[key], fuel);
    }
  }

  lemma AcceptsExtra(env: Env, refs: Refs, n: Schema, v: Json, key: string)
    requires RefOf(n) == "" && v.Obj? && key in v.fields
    requires n.properties == map[] && n.patternProperties == map[] && n.additional.Some?
    requires Accepts(env, refs, Some(n), v)
    ensures Accepts(env, refs, n.additional.value.schema, v.fields[key])
  {
    forall fuel: nat
      ensures AcceptsWithin(env, refs, n.additional.value.schema, v.fields[key], fuel)
    {
      assert AcceptsWithin(env, refs, Some(n), v, fuel + 1);
      assert MemberWithin(env, refs, n, key, v.fields[key], fuel);
    }
  }
}
