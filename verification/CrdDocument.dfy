/** A whole document: its table of references is built, and its root transpiled with it (crdgen/transpile.go). */
module CrdDocument {
  import opened Values
  import opened CrdSchema
  import opened CrdOutput
  import opened CrdTranspile
  import opened CrdTranspiler
  import opened CrdRefs
  import opened CrdIndexer
  import opened CrdWidening
  import opened CrdStructure
  import opened CrdTight

  /** A node carries a name as its anchor or dynamic anchor. */
  predicate Anchored(n: Schema, a: string) {
    a != "" && (n.anchor == a || n.dynamicAnchor == a)
  }

  /** No two different nodes carry the same anchor. */
  ghost predicate AnchorsAgree(root: Schema) {
    forall p, q, a ::
      At(root, p).Some? && At(root, q).Some? && Anchored(At(root, p).value, a) && Anchored(At(root, q).value, a) ==>
        At(root, p) == At(root, q)
  }

  /** Whatever one table of a document holds, another holds too. */
  lemma TableHolds(root: Schema, refs: Refs, other: Refs, key: string)
    requires Tame(root) && AnchorsAgree(root) && Sound(root, refs) && Sound(root, other) && Complete(root, other)
    requires key in refs
    ensures key in other && other[key] == refs[key]
  {
    hide At, Pointer, Plain;
    var place :| IsEntry(root, key, refs[key], place);
    if !(EndsInDef(place) && key == Pointer(place)) {
      var n := refs[key];
      var a := if n.anchor != "" && key == "#" + n.anchor then n.anchor else n.dynamicAnchor;
      assert key == "#" + a && key in other;
      var q :| IsEntry(root, key, other[key], q);
      AnchorEntry(root, key, other[key], q, a);
      assert Anchored(refs[key], a) && Anchored(other[key], a);
      assert At(root, place) == At(root, q);
    }
  }

  /** An entry under a plain name is a node with that anchor. */
  lemma AnchorEntry(root: Schema, key: string, n: Schema, place: Place, a: string)
    requires Tame(root) && IsEntry(root, key, n, place) && key == "#" + a && a != "" && a[0] != '/'
    ensures Anchored(n, a)
  {
    hide At, Plain;
    if EndsInDef(place) && key == Pointer(place) { DefIsPointer(place); }
    assert forall b: string :: "#" + b == key ==> b == a by {
      forall b: string | "#" + b == key ensures b == a { assert ("#" + b)[1..] == b && ("#" + a)[1..] == a; }
    }
  }

  /** The order in which maps are ranged over leaves no trace: a document without clashing anchors has one table. */
  lemma TableUnique(root: Schema, refs: Refs, other: Refs)
    requires Tame(root) && AnchorsAgree(root)
    requires Sound(root, refs) && Complete(root, refs) && Sound(root, other) && Complete(root, other)
    ensures refs == other
  {
    hide Tame, AnchorsAgree, Sound, Complete;
    forall key | key in refs ensures key in other && other[key] == refs[key] { TableHolds(root, refs, other, key); }
    forall key | key in other ensures key in refs { TableHolds(root, other, refs, key); }
  }

  /**
   * generateDirect, up to the envelope: collect the references, then transpile the root. The output is structural, and
   * accepts every value the document accepts, references resolved through the document's own table; where nothing is
   * lost it accepts no other.
   */
  method TranspileDocument(defs: map<string, Option<Schema>>, typed: Option<Schema>)
    returns (out: Props, ghost refs: Refs)
    requires typed.Some? ==> typed.value.defs == map[]
    ensures Sound(Document(defs, typed), refs)
    ensures Tame(Document(defs, typed)) ==> Complete(Document(defs, typed), refs)
    ensures out == Trans(refs, typed, {}) && Structural(out)
    ensures Supported(refs, typed, {}) ==>
              forall env, v :: Accepts(env, refs, typed, v) ==> OutAccepts(env, out, v)
    ensures Tight(refs, typed, {}, false) ==>
              forall env, v :: OutAccepts(env, out, v) ==> Accepts(env, refs, typed, v)
  {
    hide Sound, Complete, Tame, Structural, Supported, Accepts, OutAccepts, Trans, Tight;
    var table := CollectRefs(defs, typed);
    refs := table;
    var transpiler := new Transpiler(table);
    out := transpiler.Transpile(typed);
    TransStructural(refs, typed, {});
    if Supported(refs, typed, {}) {
      forall env, v | Accepts(env, refs, typed, v)
          ensures OutAccepts(env, out, v) { Widening(env, refs, typed, {}, v); }
    }
    if Tight(refs, typed, {}, false) {
      forall env, v | OutAccepts(env, out, v)
          ensures Accepts(env, refs, typed, v) { TightAccepts(env, refs, typed, {}, v); }
    }
  }
}
