/** Every output is structural, and transpiling through references equals transpiling the inlined tree. */
module CrdStructure {
  import opened Values
  import opened Ordering
  import opened CrdSchema
  import opened CrdOutput
  import opened CrdTranspile

  /**
   * The shape the API server demands of every node reached through properties, items and map values: a
   * type or int-or-string, items on every array, and never properties beside a map-value schema.
   */
  predicate Structural(p: Props) {
    && (p.intOrString || p.typ == Object || p.typ == Array || IsScalar(p.typ))
    && (p.typ == Array ==> p.items.Some?)
    && (p.properties == map[] || p.additional.None?)
    && (forall k <- p.properties :: Structural(p.properties[k]))
    && (p.items.Some? ==> Structural(p.items.value))
    && (p.additional.Some? ==> Structural(p.additional.value))
  }

  /** The transpiler's output is structural for every schema, table and stack. */
  lemma {:induction false} TransStructural(refs: Refs, node: Option<Schema>, stack: set<string>)
    ensures Structural(Trans(refs, node, stack))
    decreases refs.Keys - stack, node, 2
  {
    hide MergeAllOf, TransPlain;
    if node.Some? {
      var n := node.value;
      if RefOf(n) != "" {
        var key := Normalize(RefOf(n));
        if key in refs && key !in stack { TransStructural(refs, Some(refs[key]), stack + {key}); }
      } else {
        PlainStructural(refs, n, stack);
        if n.allOf != [] {
          var members := TransAll(refs, n.allOf, stack);
          forall i | 0 <= i < |n.allOf|
            ensures Structural(members[i])
          {
            TransStructural(refs, n.allOf[i], stack);
          }
          AllOfIs(refs, n, stack);
          var kept := Present(n.allOf, members);
          forall i | 0 <= i < |kept| ensures Structural(kept[i]) {
            assert kept[i] in kept;
            var j :| 0 <= j < |members| && members[j] == kept[i];
          }
          MergeStructural([TransPlain(refs, n, stack)] + kept);
        }
      }
    }
  }

  lemma {:induction false} PlainStructural(refs: Refs, n: Schema, stack: set<string>)
    ensures Structural(TransPlain(refs, n, stack))
    decreases refs.Keys - stack, n, 1
  {
    var shape := Shape(refs, n, stack);
    if !n.intOrString && shape.Some? {
      ShapeStructural(refs, n, stack);
      var members := if KeepsUnion(n) then TransAll(refs, UnionMembers(n), stack) else [];
      FinishFrame(n, shape.value, members);
      FrameDecides(shape.value, Keywords(n, AttachUnion(n, Enumerated(n, shape.value), members)));
    }
  }

  /** Enum, rules, list type, unions and widening leave these fields alone. */
  predicate SameFrame(p: Props, q: Props) {
    && q.typ == p.typ && q.intOrString == p.intOrString && q.items == p.items
    && q.properties == p.properties && q.additional == p.additional
  }

  lemma FinishFrame(n: Schema, p: Props, members: seq<Props>)
    ensures SameFrame(p, Keywords(n, AttachUnion(n, Enumerated(n, p), members)))
  {
  }

  lemma FrameDecides(p: Props, q: Props)
    requires Structural(p) && SameFrame(p, q)
    ensures Structural(q)
  {
  }

  lemma {:induction false} ShapeStructural(refs: Refs, n: Schema, stack: set<string>)
    ensures Shape(refs, n, stack).Some? ==> Structural(Shape(refs, n, stack).value)
    decreases refs.Keys - stack, n, 0
  {
    forall k | k in n.properties
      ensures Structural(Trans(refs, n.properties[k], stack))
    {
      TransStructural(refs, n.properties[k], stack);
    }
    if HasExtraSchema(n) { TransStructural(refs, n.additional.value.schema, stack); }
    TransStructural(refs, n.items, stack);
    ShapeOfStructural(n, ChildrenOf(refs, n, stack), ExtraOf(refs, n, stack), Trans(refs, n.items, stack));
  }

  lemma ShapeOfStructural(n: Schema, children: map<string, Props>, extra: Props, items: Props)
    requires (forall k <- children :: Structural(children[k])) && Structural(extra) && Structural(items)
    ensures ShapeWith(n, children, extra, items).Some? ==> Structural(ShapeWith(n, children, extra, items).value)
  {
    hide FillObject, ArrayShape, OpenShape, ScalarShape, TypeOf, Start, SortStrings;
    assert Start(n).properties == map[] && Start(n).additional.None? && Start(n).items.None? by { StartIsBare(n); }
    FilledStructural(Start(n), n.required, HasExtraSchema(n), AllowsExtra(n), children, extra);
    OtherShapesStructural(n, items);
  }

  lemma StartIsBare(n: Schema)
    ensures Start(n).properties == map[] && Start(n).additional.None? && Start(n).items.None?
  {
  }

  lemma FilledStructural(start: Props, required: seq<string>, hasExtra: bool, allowsExtra: bool,
                         children: map<string, Props>, extra: Props)
    requires (forall k <- children :: Structural(children[k])) && Structural(extra)
    requires start.properties == map[] && start.additional.None? && start.items.None?
    ensures Structural(FillObject(start, required, hasExtra, allowsExtra, children, extra))
  {
    hide SortStrings;
  }

  lemma OtherShapesStructural(n: Schema, items: Props)
    requires Structural(items)
    ensures forall preserve :: Structural(OpenShape(Start(n), preserve))
    ensures Structural(ArrayShape(Start(n), n.minItems, n.maxItems, n.uniqueItems && n.listType.None?, items))
    ensures IsScalar(TypeOf(n)) ==> Structural(ScalarShape(Start(n), TypeOf(n), n.checks))
  {
    hide TypeOf;
  }

  lemma {:induction false} MergeStructural(subs: seq<Props>)
    requires forall i :: 0 <= i < |subs| ==> Structural(subs[i])
    ensures Structural(MergeAllOf(subs))
  {
    AbsorbStructural(subs);
  }

  lemma {:induction false} AbsorbStructural(subs: seq<Props>)
    requires forall i :: 0 <= i < |subs| ==> Structural(subs[i])
    ensures var m := AbsorbAll(subs).0;
            m.typ == Object && m.items.None? && m.additional.None?
                && forall k <- m.properties :: Structural(m.properties[k])
  {
    if subs != [] {
      AbsorbStructural(subs[..|subs| - 1]);
      assert Structural(subs[|subs| - 1]);
    }
  }

  // ---- inlining ----------------------------------------------------------------------------------

  /** No union is met on the walk. */
  predicate UnionFree(refs: Refs, node: Option<Schema>, stack: set<string>)
    decreases refs.Keys - stack, node
  {
    node.None? ||
    var n := node.value;
    if RefOf(n) != "" then
      var key := Normalize(RefOf(n));
      key !in refs || key in stack || UnionFree(refs, Some(refs[key]), stack + {key})
    else
      && n.anyOf == [] && n.oneOf == []
      && (forall i :: 0 <= i < |n.allOf| ==> UnionFree(refs, n.allOf[i], stack))
      && (forall k <- n.properties :: UnionFree(refs, n.properties[k], stack))
      && UnionFree(refs, n.items, stack)
      && (n.additional.Some? ==> UnionFree(refs, n.additional.value.schema, stack))
  }

  /** The tree with every reference replaced by its definition, and by `{"type": "object"}` where none can be. */
  function Inline(refs: Refs, node: Option<Schema>, stack: set<string>): Option<Schema>
    decreases refs.Keys - stack, node
  {
    if node.None? then None
    else
      var n := node.value;
      if RefOf(n) != "" then
        var key := Normalize(RefOf(n));
        if key !in refs || key in stack then Some(OPEN) else Inline(refs, Some(refs[key]), stack + {key})
      else
        Some(n.(properties := map k | k in n.properties :: Inline(refs, n.properties[k], stack),
                items := Inline(refs, n.items, stack),
                additional := if n.additional.None? then None
                              else Some(n.additional.value.(schema := Inline(refs, n.additional.value.schema, stack))),
                allOf := seq(|n.allOf|, i requires 0 <= i < |n.allOf| => Inline(refs, n.allOf[i], stack))))
  }

  /** No reference is left where the transpiler would look. */
  predicate ReferenceFree(node: Option<Schema>) {
    node.None? ||
    var n := node.value;
    && RefOf(n) == ""
    && (forall i :: 0 <= i < |n.allOf| ==> ReferenceFree(n.allOf[i]))
    && (forall k <- n.properties :: ReferenceFree(n.properties[k]))
    && ReferenceFree(n.items)
    && (n.additional.Some? ==> ReferenceFree(n.additional.value.schema))
  }

  lemma {:induction false} InlineIsReferenceFree(refs: Refs, node: Option<Schema>, stack: set<string>)
    ensures ReferenceFree(Inline(refs, node, stack))
    decreases refs.Keys - stack, node
  {
    if node.Some? {
      var n := node.value;
      if RefOf(n) != "" {
        var key := Normalize(RefOf(n));
        if key in refs && key !in stack { InlineIsReferenceFree(refs, Some(refs[key]), stack + {key}); }
      } else {
        forall i | 0 <= i < |n.allOf| ensures ReferenceFree(Inline(refs, n.allOf[i], stack)) {
          InlineIsReferenceFree(refs, n.allOf[i], stack);
        }
        forall k | k in n.properties ensures ReferenceFree(Inline(refs, n.properties[k], stack)) {
          InlineIsReferenceFree(refs, n.properties[k], stack);
        }
        InlineIsReferenceFree(refs, n.items, stack);
        if n.additional.Some? { InlineIsReferenceFree(refs, n.additional.value.schema, stack); }
      }
    }
  }

  /** Resolving references on the way equals inlining first and transpiling the tree, cycles included. */
  lemma {:induction false} InlineCorrect(refs: Refs, node: Option<Schema>, stack: set<string>)
    requires UnionFree(refs, node, stack)
    ensures Trans(refs, node, stack) == Trans(map[], Inline(refs, node, stack), {})
    decreases refs.Keys - stack, node, 1
  {
    if node.Some? {
      var n := node.value;
      if RefOf(n) != "" {
        var key := Normalize(RefOf(n));
        if key in refs && key !in stack {
          InlineCorrect(refs, Some(refs[key]), stack + {key});
        } else {
          OpenNode();
        }
      } else {
        var m := Inline(refs, node, stack).value;
        InlinePlain(refs, n, m, stack);
        forall i | 0 <= i < |n.allOf|
          ensures Trans(refs, n.allOf[i], stack) == Trans(map[], m.allOf[i], {}) && n.allOf[i].Some? == m.allOf[i].Some?
        {
          InlineKeepsPresence(refs, n.allOf[i], stack);
          InlineCorrect(refs, n.allOf[i], stack);
        }
        InlineMerge(refs, n, m, stack);
      }
    }
  }

  /** With the base and every member alike, the merge is alike. */
  lemma InlineMerge(refs: Refs, n: Schema, m: Schema, stack: set<string>)
    requires RefOf(n) == "" && RefOf(m) == "" && |n.allOf| == |m.allOf|
    requires TransPlain(refs, n, stack) == TransPlain(map[], m, {})
    requires forall i :: 0 <= i < |n.allOf| ==> n.allOf[i].Some? == m.allOf[i].Some?
    requires forall i :: 0 <= i < |n.allOf| ==> Trans(refs, n.allOf[i], stack) == Trans(map[], m.allOf[i], {})
    ensures Trans(refs, Some(n), stack) == Trans(map[], Some(m), {})
  {
    hide MergeAllOf, TransPlain, Present;
    if n.allOf != [] {
      AllOfIs(refs, n, stack);
      AllOfIs(map[], m, {});
      assert TransAll(refs, n.allOf, stack) == TransAll(map[], m.allOf, {});
      PresentAlike(n.allOf, m.allOf, TransAll(refs, n.allOf, stack));
    }
  }

  lemma OpenNode()
    ensures Trans(map[], Some(OPEN), {}) == OPEN_OBJECT
  {
    assert RefOf(OPEN) == "" && TypeOf(OPEN) == Object;
    assert Sorted({}) == [];
  }

  lemma {:induction false} InlinePlain(refs: Refs, n: Schema, m: Schema, stack: set<string>)
    requires RefOf(n) == "" && UnionFree(refs, Some(n), stack) && Some(m) == Inline(refs, Some(n), stack)
    ensures TransPlain(refs, n, stack) == TransPlain(map[], m, {})
    decreases refs.Keys - stack, n, 2
  {
    InlineShape(refs, n, m, stack);
    PlainWithoutUnion(refs, n, stack);
    PlainWithoutUnion(map[], m, {});
    if Shape(refs, n, stack).Some? { KeywordsAgree(n, m, Shape(refs, n, stack).value); }
  }

  lemma PlainWithoutUnion(refs: Refs, n: Schema, stack: set<string>)
    requires n.anyOf == [] && n.oneOf == []
    ensures TransPlain(refs, n, stack) ==
            if n.intOrString then BARE.(intOrString := true)
            else match Shape(refs, n, stack)
              case None => OPEN_OBJECT
              case Some(p) => Keywords(n, Enumerated(n, p))
  {
  }

  /** The keywords of a node do not depend on the parts inlining replaces. */
  lemma KeywordsAgree(n: Schema, m: Schema, p: Props)
    requires m == n.(properties := m.properties, items := m.items, additional := m.additional, allOf := m.allOf)
    ensures Keywords(n, Enumerated(n, p)) == Keywords(m, Enumerated(m, p))
  {
  }

  lemma {:induction false} InlineShape(refs: Refs, n: Schema, m: Schema, stack: set<string>)
    requires RefOf(n) == "" && UnionFree(refs, Some(n), stack) && Some(m) == Inline(refs, Some(n), stack)
    ensures Shape(refs, n, stack) == Shape(map[], m, {})
    decreases refs.Keys - stack, n, 1
  {
    hide Trans, TransPlain, ShapeWith, Inline, UnionFree;
    InlineChildren(refs, n, m, stack);
    ShapesAgree(n, m, ChildrenOf(refs, n, stack), ExtraOf(refs, n, stack), Trans(refs, n.items, stack));
  }

  /** The same node but for what its children are. */
  predicate SameButChildren(n: Schema, m: Schema) {
    && m == n.(properties := m.properties, items := m.items, additional := m.additional, allOf := m.allOf)
    && m.properties.Keys == n.properties.Keys && m.items.Some? == n.items.Some?
    && m.additional.Some? == n.additional.Some?
    && (n.additional.Some? ==>
          m.additional.value == n.additional.value.(schema := m.additional.value.schema)
          && m.additional.value.schema.Some? == n.additional.value.schema.Some?)
  }

  lemma TypesAgree(n: Schema, m: Schema)
    requires SameButChildren(n, m)
    ensures TypeOf(n) == TypeOf(m) && Start(n) == Start(m)
    ensures UnionMembers(n) == UnionMembers(m) && KeepsUnion(n) == KeepsUnion(m)
    ensures n.properties == map[] <==> m.properties == map[]
    ensures HasExtraSchema(n) == HasExtraSchema(m) && AllowsExtra(n) == AllowsExtra(m)
  {
    assert n.properties == map[] <==> n.properties.Keys == {};
    assert m.properties == map[] <==> m.properties.Keys == {};
  }

  lemma ShapesAgree(n: Schema, m: Schema, children: map<string, Props>, extra: Props, items: Props)
    requires SameButChildren(n, m)
    ensures ShapeWith(n, children, extra, items) == ShapeWith(m, children, extra, items)
  {
    hide HasExtraSchema, AllowsExtra, FillObject, ArrayShape, ScalarShape, OpenShape, TypeOf, Start, KeepsUnion,
        UnionMembers;
    TypesAgree(n, m);
  }

  lemma {:induction false} InlineChildren(refs: Refs, n: Schema, m: Schema, stack: set<string>)
    requires RefOf(n) == "" && UnionFree(refs, Some(n), stack) && Some(m) == Inline(refs, Some(n), stack)
    ensures SameButChildren(n, m)
    ensures ChildrenOf(refs, n, stack) == ChildrenOf(map[], m, {})
    ensures ExtraOf(refs, n, stack) == ExtraOf(map[], m, {})
    ensures Trans(refs, n.items, stack) == Trans(map[], m.items, {})
    decreases refs.Keys - stack, n, 0
  {
    hide Trans, TransPlain;
    assert m.properties.Keys == n.properties.Keys;
    forall k | k in n.properties
      ensures Trans(refs, n.properties[k], stack) == Trans(map[], m.properties[k], {})
    {
      InlineCorrect(refs, n.properties[k], stack);
    }
    InlineCorrect(refs, n.items, stack);
    InlineKeepsPresence(refs, n.items, stack);
    if n.additional.Some? {
      InlineCorrect(refs, n.additional.value.schema, stack);
      InlineKeepsPresence(refs, n.additional.value.schema, stack);
    }
  }

  lemma {:induction false} InlineKeepsPresence(refs: Refs, node: Option<Schema>, stack: set<string>)
    ensures Inline(refs, node, stack).Some? <==> node.Some?
    decreases refs.Keys - stack
  {
    if node.Some? && RefOf(node.value) != "" {
      var key := Normalize(RefOf(node.value));
      if key in refs && key !in stack { InlineKeepsPresence(refs, Some(refs[key]), stack + {key}); }
    }
  }
}
