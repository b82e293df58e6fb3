/** The transpiler as functions: what each node becomes (crdgen/transpile.go, transpile_keywords.go). */
module CrdTranspile {
  import opened Values
  import opened Ordering
  import opened CrdSchema
  import opened CrdOutput

  // ---- type choice -------------------------------------------------------------------------------

  /** The first declared type other than "null". */
  function PrimaryType(types: seq<Kind>): Kind {
    if types == [] then Untyped
    else if types[0] != NullType && types[0] != Untyped then types[0]
    else PrimaryType(types[1..])
  }

  function JsonKind(v: Json): Kind {
    match v
    case Str(_) => String
    case Bool(_) => Boolean
    case Num(_) => Number
    case Obj(_) => Object
    case Arr(_) => Array
    case Null => Untyped
  }

  function InferType(n: Schema): Kind {
    if n.constant != Null then JsonKind(n.constant)
    else if n.enum != [] then JsonKind(n.enum[0])
    else if n.properties != map[] || n.additional.Some? || n.patternProperties != map[] then Object
    else if n.items.Some? || n.prefixItems != [] then Array
    else if n.dependentRequired != map[] || n.condition.Some? || n.dependentSchemas != map[] || n.unevaluated.Some?
    then Object
    else Untyped
  }

  function TypeOf(n: Schema): Kind {
    if PrimaryType(n.types) != Untyped then PrimaryType(n.types) else InferType(n)
  }

  predicate IsScalar(t: Kind) {
    t == String || t == Integer || t == Number || t == Boolean
  }

  predicate HasExtraSchema(n: Schema) {
    n.additional.Some? && n.additional.value.schema.Some?
  }

  predicate AllowsExtra(n: Schema) {
    n.additional.Some? && n.additional.value.isBool && n.additional.value.allow
  }

  // ---- validation keywords -----------------------------------------------------------------------

  function Positive(n: int): Option<int> {
    if n > 0 then Some(n) else None
  }

  function CopyChecks(c: Checks): OutChecks {
    OutChecks(c.format, c.pattern, c.minimum, c.maximum, c.multipleOf, Positive(c.minLength), Positive(c.maxLength))
  }

  predicate HasScalarItems(p: Props) {
    p.items.Some? && IsScalar(p.items.value.typ)
  }

  /** uniqueItems is forbidden in a structural schema: a set for scalars, a rule for bounded arrays, else dropped. */
  function ApplyUniqueItems(unique: bool, p: Props): Props {
    if !unique then p
    else if HasScalarItems(p) then p.(listType := Some(SetList))
    else if p.maxItems.Some? then p.(rules := p.rules + [ItemsUnique])
    else p
  }

  /** copyEnum then copyConst: a const replaces the enum, and an object keeps no enum of its own. */
  function EnumOf(enum: seq<Json>, constant: Json, typ: Kind): seq<Json> {
    if constant != Null then [constant] else if typ == Untyped || typ == Object then [] else enum
  }

  /** An authored list type replaces a generated one. */
  function ListTypeOf(authored: Option<ListType>, generated: Option<ListType>): Option<ListType> {
    if authored.Some? then authored else generated
  }

  // ---- CEL ---------------------------------------------------------------------------------------

  predicate IsLetter(c: char) {
    'a' <= c <= 'z' || 'A' <= c <= 'Z' || c == '_'
  }

  /** The regular expression ^[a-zA-Z_][a-zA-Z0-9_]*$. */
  predicate IsIdent(f: string) {
    f != "" && IsLetter(f[0]) && forall i :: 0 <= i < |f| ==> IsLetter(f[i]) || '0' <= f[i] <= '9'
  }

  predicate FieldAllowed(p: Props, f: string) {
    p.preserve || p.additional.Some? || f in p.properties
  }

  predicate Usable(p: Props, f: string) {
    IsIdent(f) && FieldAllowed(p, f)
  }

  predicate IsLiteral(v: Json) {
    !v.Arr? && !v.Obj?
  }

  predicate AreLiterals(vs: seq<Json>) {
    forall v <- vs :: IsLiteral(v)
  }

  function HasAll(fs: seq<string>): (r: seq<Cel>)
    ensures |r| == |fs| && forall i :: 0 <= i < |fs| ==> r[i] == Has(fs[i])
  {
    seq(|fs|, i requires 0 <= i < |fs| => Has(fs[i]))
  }

  /** The rule for one dependentRequired entry, if it is expressible. */
  function DependentRule(p: Props, trigger: string, deps: seq<string>): seq<Cel> {
    if deps != [] && Usable(p, trigger) && (forall d <- deps :: Usable(p, d))
    then [Or(Not(Has(trigger)), And(HasAll(deps)))]
    else []
  }

  function DependentRules(p: Props, m: map<string, seq<string>>, keys: seq<string>): seq<Cel>
    requires forall k <- keys :: k in m
  {
    if keys == [] then [] else DependentRule(p, keys[0], m[keys[0]]) + DependentRules(p, m, keys[1..])
  }

  ghost function EmitDependentRequired(p: Props, m: map<string, seq<string>>): seq<Cel> {
    if p.typ != Object then [] else DependentRules(p, m, Sorted(m.Keys))
  }

  predicate IsScalarOnly(n: Schema) {
    && n.properties == map[] && n.items.None? && n.allOf == [] && n.anyOf == [] && n.oneOf == []
    && n.ref == "" && n.additional.None? && n.condition.None? && n.not.None?
  }

  function EmitNot(typ: Kind, not: Option<Schema>): seq<Cel> {
    if not.None? || typ == Untyped || typ == Object || typ == Array || !IsScalarOnly(not.value) then []
    else
      var x := not.value;
      if x.constant != Null && IsLiteral(x.constant) then [Ne(Self, x.constant)]
      else if x.enum != [] && AreLiterals(x.enum) then [Not(In(Self, x.enum))]
      else []
  }

  /** What celCond refuses before looking at any field. */
  predicate CondShapeOk(s: Schema) {
    && (s.types == [] || s.types == [Object])
    && s.items.None? && s.allOf == [] && s.anyOf == [] && s.oneOf == []
    && s.ref == "" && s.additional.None? && s.not.None? && s.condition.None?
  }

  /** The conjuncts for one property of a condition; None when its literal cannot be written. */
  function PropertyCond(k: string, q: Schema): Option<seq<Cel>> {
    if q.constant != Null then
      if IsLiteral(q.constant) then Some([Has(k), Eq(Select(k), q.constant)]) else None
    else if q.enum != [] then
      if AreLiterals(q.enum) then Some([Has(k), In(Select(k), q.enum)]) else None
    else Some([Has(k)])
  }

  function PropertyConds(p: Props, s: Schema, keys: seq<string>): Option<seq<Cel>>
    requires forall k <- keys :: k in s.properties
  {
    if keys == [] then Some([])
    else if !Usable(p, keys[0]) || s.properties[keys[0]].None? then None
    else
      match (PropertyCond(keys[0], s.properties[keys[0]].value), PropertyConds(p, s, keys[1..]))
      case (Some(a), Some(b)) => Some(a + b)
      case _ => None
  }

  /** celCond: the conjunction a simple object schema becomes, or None. */
  ghost function CelCond(p: Props, node: Option<Schema>): Option<Cel> {
    if node.None? || !CondShapeOk(node.value) then None
    else
      var s := node.value;
      if s.constant != Null && !IsLiteral(s.constant) then None
      else if !(forall r <- s.required :: Usable(p, r)) then None
      else
        match PropertyConds(p, s, Sorted(s.properties.Keys))
        case None => None
        case Some(tail) =>
          var conj := SelfConst(s) + HasAll(SortStrings(s.required)) + tail;
          if conj == [] then None else Some(And(conj))
  }

  function SelfConst(s: Schema): seq<Cel> {
    if s.constant != Null then [Eq(Self, s.constant)] else []
  }

  ghost function EmitConditional(p: Props, i: Option<Schema>, t: Option<Schema>, e: Option<Schema>): seq<Cel> {
    if i.None? || p.typ != Object then []
    else
      match CelCond(p, i)
      case None => []
      case Some(c) => BranchRule(Not(c), CelCond(p, t)) + BranchRule(c, CelCond(p, e))
  }

  function BranchRule(escape: Cel, branch: Option<Cel>): seq<Cel> {
    match branch
    case None => []
    case Some(x) => [Or(escape, x)]
  }

  /** The keywords that widen an object: pattern keys, and unevaluatedProperties other than `false`. */
  predicate Unsupported(patterns: map<string, Option<Schema>>, unevaluated: Option<Extra>) {
    patterns != map[] || (unevaluated.Some? && !(unevaluated.value.isBool && !unevaluated.value.allow))
  }

  // ---- unions ------------------------------------------------------------------------------------

  /** anyOf wins over oneOf when both are present. */
  function UnionMembers(n: Schema): seq<Option<Schema>> {
    if n.anyOf != [] then n.anyOf else n.oneOf
  }

  predicate ConstraintOnly(m: Option<Schema>) {
    m.Some? ==>
      && m.value.types == [] && m.value.properties == map[] && m.value.items.None? && m.value.ref == ""
      && m.value.allOf == [] && m.value.anyOf == [] && m.value.oneOf == [] && m.value.additional.None?
  }

  predicate KeepsUnion(n: Schema) {
    forall m <- UnionMembers(n) :: ConstraintOnly(m)
  }

  /** attachUnion on a node that already has a type; `members` are the transpiled members when they are kept. */
  function AttachUnion(n: Schema, p: Props, members: seq<Props>): Props {
    if UnionMembers(n) == [] then p
    else if KeepsUnion(n) then if n.anyOf != [] then p.(anyOf := members) else p.(oneOf := members)
    else p.(preserve := p.preserve || p.typ == Object)
  }

  // ---- the walk ----------------------------------------------------------------------------------

  /** transpile: follow a reference, merge allOf, or transpile the node itself. */
  ghost function Trans(refs: Refs, node: Option<Schema>, stack: set<string>): Props
    decreases refs.Keys - stack, node, 3
  {
    if node.None? then OPEN_OBJECT
    else
      var n := node.value;
      if RefOf(n) != "" then
        var key := Normalize(RefOf(n));
        if key !in refs || key in stack then OPEN_OBJECT
        else Trans(refs, Some(refs[key]), stack + {key})
      else if n.allOf != [] then
        MergeAllOf([TransPlain(refs, n, stack)] + Present(n.allOf, TransAll(refs, n.allOf, stack)))
      else TransPlain(refs, n, stack)
  }

  ghost function TransAll(refs: Refs, ns: seq<Option<Schema>>, stack: set<string>): (r: seq<Props>)
    ensures |r| == |ns|
    ensures forall i :: 0 <= i < |ns| ==> r[i] == Trans(refs, ns[i], stack)
    decreases refs.Keys - stack, ns, 0
  {
    seq(|ns|, i requires 0 <= i < |ns| => Trans(refs, ns[i], stack))
  }

  /** The results of the members that are not nil. */
  function Present(ms: seq<Option<Schema>>, ps: seq<Props>): (r: seq<Props>)
    requires |ms| == |ps|
    ensures forall p :: p in r ==> p in ps
  {
    if ms == [] then []
    else
      var last := |ms| - 1;
      Present(ms[..last], ps[..last]) + (if ms[last].Some? then [ps[last]] else [])
  }

  lemma {:induction false} AllPresent(ms: seq<Option<Schema>>, ps: seq<Props>)
    requires |ms| == |ps| && forall i :: 0 <= i < |ms| ==> ms[i].Some?
    ensures Present(ms, ps) == ps
  {
    if ms != [] { AllPresent(ms[..|ms| - 1], ps[..|ms| - 1]); }
  }

  lemma {:induction false} PresentAlike(ms: seq<Option<Schema>>, ns: seq<Option<Schema>>, ps: seq<Props>)
    requires |ms| == |ns| == |ps| && forall i :: 0 <= i < |ms| ==> ms[i].Some? == ns[i].Some?
    ensures Present(ms, ps) == Present(ns, ps)
  {
    if ms != [] { PresentAlike(ms[..|ms| - 1], ns[..|ms| - 1], ps[..|ms| - 1]); }
  }

  lemma PresentStep(ms: seq<Option<Schema>>, ps: seq<Props>, i: nat)
    requires |ms| == |ps| && i < |ms|
    ensures Present(ms[..i + 1], ps[..i + 1]) == Present(ms[..i], ps[..i]) + (if ms[i].Some? then [ps[i]] else [])
  {
    assert ms[..i + 1][..i] == ms[..i] && ps[..i + 1][..i] == ps[..i];
  }

  lemma AllOfIs(refs: Refs, n: Schema, stack: set<string>)
    requires RefOf(n) == "" && n.allOf != []
    ensures Trans(refs, Some(n), stack)
            == MergeAllOf([TransPlain(refs, n, stack)] + Present(n.allOf, TransAll(refs, n.allOf, stack)))
  {
    hide MergeAllOf, TransPlain, Present;
  }

  lemma AllOfWhole(refs: Refs, n: Schema, stack: set<string>)
    requires RefOf(n) == "" && n.allOf != [] && forall i :: 0 <= i < |n.allOf| ==> n.allOf[i].Some?
    ensures Trans(refs, Some(n), stack) == MergeAllOf([TransPlain(refs, n, stack)] + TransAll(refs, n.allOf, stack))
  {
    hide Trans, MergeAllOf, TransPlain, Present;
    AllOfIs(refs, n, stack);
    AllPresent(n.allOf, TransAll(refs, n.allOf, stack));
  }

  /** A node with its references resolved and its allOf set aside. */
  ghost function TransPlain(refs: Refs, n: Schema, stack: set<string>): Props
    decreases refs.Keys - stack, n, 2
  {
    if n.intOrString then BARE.(intOrString := true)
    else
      match Shape(refs, n, stack)
      case None => OPEN_OBJECT
      case Some(p) =>
        var members := if KeepsUnion(n) then TransAll(refs, UnionMembers(n), stack) else [];
        Keywords(n, AttachUnion(n, Enumerated(n, p), members))
  }

  function Enumerated(n: Schema, p: Props): Props {
    p.(enum := EnumOf(n.enum, n.constant, p.typ), listType := ListTypeOf(n.listType, p.listType))
  }

  /** The rules of dependentRequired, not and if/then/else, then what cannot be expressed. */
  ghost function Keywords(n: Schema, p: Props): Props {
    p.(rules := p.rules + KeywordRules(n, p),
       preserve := p.preserve || (p.typ == Object && p.additional.None?
           && Unsupported(n.patternProperties, n.unevaluated)))
  }

  ghost function KeywordRules(n: Schema, p: Props): seq<Cel> {
    EmitDependentRequired(p, n.dependentRequired) + EmitNot(p.typ, n.not)
    + EmitConditional(p, n.condition, n.consequent, n.alternative)
  }

  function Start(n: Schema): Props {
    BARE.(nullable := NullType in n.types || n.nullable)
  }

  /** The typed part of a node; None when no type can be used and the node becomes an open object. */
  ghost function Shape(refs: Refs, n: Schema, stack: set<string>): (s: Option<Props>)
    ensures s.Some? ==> s.value.enum == [] && (s.value.typ == Array ==> s.value.items.Some?)
    decreases refs.Keys - stack, n, 1
  {
    ShapeWith(n, ChildrenOf(refs, n, stack), ExtraOf(refs, n, stack), Trans(refs, n.items, stack))
  }

  ghost function ChildrenOf(refs: Refs, n: Schema, stack: set<string>): (m: map<string, Props>)
    ensures m.Keys == n.properties.Keys
    ensures forall k <- n.properties :: m[k] == Trans(refs, n.properties[k], stack)
    decreases refs.Keys - stack, n, 0
  {
    map k | k in n.properties :: Trans(refs, n.properties[k], stack)
  }

  ghost function ExtraOf(refs: Refs, n: Schema, stack: set<string>): Props
    decreases refs.Keys - stack, n, 0
  {
    if HasExtraSchema(n) then Trans(refs, n.additional.value.schema, stack) else OPEN_OBJECT
  }

  /** The same, given what the children become. */
  function ShapeWith(n: Schema, children: map<string, Props>, extra: Props, items: Props): (s: Option<Props>)
    ensures s.Some? ==> s.value.enum == [] && (s.value.typ == Array ==> s.value.items.Some?)
  {
    if n.properties != map[] || HasExtraSchema(n) then
      Some(FillObject(Start(n), n.required, HasExtraSchema(n), AllowsExtra(n), children, extra))
    else if TypeOf(n) == Object then
      Some(OpenShape(Start(n), n.additional.None? || AllowsExtra(n)))
    else if TypeOf(n) == Array then
      Some(ArrayShape(Start(n), n.minItems, n.maxItems, n.uniqueItems && n.listType.None?, items))
    else if IsScalar(TypeOf(n)) then
      Some(ScalarShape(Start(n), TypeOf(n), n.checks))
    else if UnionMembers(n) != [] && !KeepsUnion(n) then
      Some(OpenShape(Start(n), true))
    else None
  }

  function OpenShape(start: Props, preserve: bool): Props {
    start.(typ := Object, preserve := preserve)
  }

  function ScalarShape(start: Props, typ: Kind, checks: Checks): Props {
    start.(typ := typ, checks := CopyChecks(checks))
  }

  function ArrayShape(start: Props, minItems: int, maxItems: int, unique: bool, items: Props): Props {
    ApplyUniqueItems(unique, start.(typ := Array, items := Some(items),
                                    minItems := Positive(minItems), maxItems := Positive(maxItems)))
  }

  /** fillObject: named properties win over a map-value schema, which then only widens the node. */
  function FillObject(start: Props, required: seq<string>, hasExtra: bool, allowsExtra: bool,
                      children: map<string, Props>, extra: Props): Props {
    var p := start.(typ := Object, properties := children, required := SortStrings(required));
    if hasExtra then
      if children != map[] then p.(preserve := true) else p.(additional := Some(extra))
    else p.(preserve := allowsExtra)
  }

  /** absorb: what one more member adds to the merge. */
  function Absorb(merged: Props, required: set<string>, sub: Props): (Props, set<string>) {
    if sub.typ != Untyped && sub.typ != Object then (merged.(preserve := true), required)
    else
      (merged.(properties := merged.properties + sub.properties, preserve := merged.preserve || sub.preserve),
       required + set r | r in sub.required)
  }

  function AbsorbAll(subs: seq<Props>): (r: (Props, set<string>)) {
    if subs == [] then (BARE.(typ := Object), {})
    else
      var (merged, required) := AbsorbAll(subs[..|subs| - 1]);
      Absorb(merged, required, subs[|subs| - 1])
  }

  /** transpileAllOf: merge the transpiled base and members into one object. */
  ghost function MergeAllOf(subs: seq<Props>): Props {
    var (merged, required) := AbsorbAll(subs);
    merged.(preserve := merged.preserve || merged.properties == map[], required := Sorted(required))
  }
}
