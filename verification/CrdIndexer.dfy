/** The walk that fills the table of definitions and anchors (crdgen/transpile.go). */
module CrdIndexer {
  import opened Values
  import opened CrdRefs
  import opened CrdSchema

  predicate EndsInDef(place: Place) {
    place != [] && place[|place| - 1].Named? && place[|place| - 1].word.Defs?
  }

  /** An entry names a definition by its pointer, or a node by its anchor. */
  ghost predicate IsEntry(root: Schema, p: string, n: Schema, place: Place) {
    && At(root, place) == Some(n)
    && (|| (EndsInDef(place) && p == Pointer(place))
        || (n.anchor != "" && p == "#" + n.anchor)
        || (n.dynamicAnchor != "" && p == "#" + n.dynamicAnchor))
  }

  ghost predicate Sound(root: Schema, refs: Refs) {
    forall p :: p in refs ==> exists place :: IsEntry(root, p, refs[p], place)
  }

  /** First come, first kept. */
  ghost predicate Grown(before: Refs, after: Refs) {
    forall p :: p in before ==> p in after && after[p] == before[p]
  }

  predicate TameAnchor(a: string) {
    a == "" || a[0] != '/'
  }

  /** No name holds a slash and no anchor starts with one. */
  ghost predicate Tame(root: Schema) {
    forall place :: At(root, place).Some? ==>
      Plain(place) && TameAnchor(At(root, place).value.anchor) && TameAnchor(At(root, place).value.dynamicAnchor)
  }

  predicate IsPointer(p: string) {
    |p| > 1 && p[1] == '/'
  }

  /** The pointers in the table are those of the given definitions, each with its own. */
  ghost predicate Exact(root: Schema, refs: Refs, done: iset<Place>) {
    && (forall q :: q in done ==>
          EndsInDef(q) && At(root, q).Some? && Pointer(q) in refs && refs[Pointer(q)] == At(root, q).value)
    && (forall p :: p in refs && IsPointer(p) ==> exists q :: q in done && Pointer(q) == p)
  }

  ghost predicate HasAnchors(refs: Refs, n: Schema) {
    && (n.anchor != "" ==> "#" + n.anchor in refs)
    && (n.dynamicAnchor != "" ==> "#" + n.dynamicAnchor in refs)
  }

  /** A place strictly below another, and the hop it starts with. */
  predicate Below(path: Place, q: Place) {
    |path| < |q| && q[..|path|] == path
  }

  /** The definitions below a place whose way starts with one of the hops. */
  ghost function Through(root: Schema, path: Place, hops: iset<Hop>): iset<Place> {
    iset q: Place | Below(path, q) && q[|path|] in hops && EndsInDef(q) && At(root, q).Some?
  }

  ghost predicate AnchoredThrough(root: Schema, refs: Refs, path: Place, hops: iset<Hop>) {
    forall q :: Below(path, q) && q[|path|] in hops && At(root, q).Some? ==> HasAnchors(refs, At(root, q).value)
  }

  ghost const EVERY: iset<Hop> := iset h: Hop | true

  // ---- places ----

  lemma {:induction false} AtMore(n: Schema, place: Place, more: Place)
    ensures At(n, place + more) == if At(n, place).None? then None else At(At(n, place).value, more)
    decreases |place|
  {
    if place == [] {
      assert place + more == more;
    } else {
      assert (place + more)[0] == place[0] && (place + more)[1..] == place[1..] + more;
      var child := Step(n, place[0]);
      if child.Some? { AtMore(child.value, place[1..], more); }
    }
  }

  lemma AtStep(n: Schema, place: Place, h: Hop)
    requires At(n, place).Some?
    ensures At(n, place + [h]) == Step(At(n, place).value, h)
  {
    AtMore(n, place, [h]);
    var m := At(n, place).value;
    assert [h][1..] == [];
    assert At(m, [h]) == Step(m, h);
  }

  /** A real place below another goes through a real child. */
  lemma FirstHop(n: Schema, path: Place, q: Place)
    requires Below(path, q) && At(n, q).Some?
    ensures At(n, path).Some? && Step(At(n, path).value, q[|path|]).Some?
  {
    var rest := q[|path|..];
    assert q == path + rest && rest[0] == q[|path|];
    AtMore(n, path, rest);
  }

  lemma BelowMore(path: Place, h: Hop, q: Place)
    ensures Below(path, q) && q[|path|] == h <==> q == path + [h] || Below(path + [h], q)
  {
    var next := path + [h];
    if Below(path, q) && q[|path|] == h {
      assert q[..|path| + 1] == next;
      if |q| == |path| + 1 { assert q == q[..|path| + 1]; }
    }
    if Below(next, q) { assert q[..|path|] == q[..|path| + 1][..|path|] == path; assert q[|path|]
        == q[..|path| + 1][|path|]; }
  }

  /** What lies through one more hop: the child itself, if it is a definition, and what lies below it. */
  lemma ThroughMore(root: Schema, path: Place, hops: iset<Hop>, h: Hop)
    ensures var next := path + [h];
            Through(root, path, hops + iset{h})
            == Through(root, path, hops) + (if EndsInDef(next) && At(root, next).Some? then iset{next} else iset{})
               + Through(root, next, EVERY)
  {
    hide EndsInDef, At, Below;
    BelowLonger();
    forall q ensures Below(path, q) && q[|path|] == h <==>
        q == path + [h] || Below(path + [h], q) { BelowMore(path, h, q); }
  }

  lemma BelowLonger()
    ensures forall path, q :: Below(path, q) ==> |path| < |q|
  {
  }

  /** What is still to come through a new hop has not been done. */
  lemma NextHop(root: Schema, path: Place, hops: iset<Hop>, h: Hop, done: iset<Place>)
    requires h !in hops && Through(root, path, EVERY) !! done
    ensures var next := path + [h];
            var sofar := done + Through(root, path, hops);
            && Through(root, next, EVERY) !! sofar && next !in Through(root, next, EVERY)
            && (EndsInDef(next) && At(root, next).Some? ==> next !in sofar)
  {
    hide EndsInDef, At, Below;
    BelowLonger();
    forall q ensures Below(path, q) && q[|path|] == h <==>
        q == path + [h] || Below(path + [h], q) { BelowMore(path, h, q); }
    var next := path + [h];
    forall q | q in Through(root, next, EVERY)
        ensures q in Through(root, path, EVERY) && q !in Through(root, path, hops) {}
    if EndsInDef(next) && At(root, next).Some? {
      assert next in Through(root, path, EVERY) && next !in Through(root, path, hops);
    }
  }

  // ---- the table ----

  lemma PointerStarts(place: Place)
    requires place != []
    ensures IsPointer(Pointer(place))
  {
    assert AllSegments(place) != [];
  }

  /** The pointer of a definition not yet done is free. */
  lemma PointerFree(root: Schema, refs: Refs, done: iset<Place>, place: Place)
    requires Tame(root) && Exact(root, refs, done) && EndsInDef(place) && At(root, place).Some?
    ensures Pointer(place) in refs ==> place in done
  {
    hide At, Pointer, Plain;
    PointerStarts(place);
    if Pointer(place) in refs {
      var q :| q in done && Pointer(q) == Pointer(place);
      PointersTellApart(root, q, place);
    }
  }

  lemma AddDef(root: Schema, refs: Refs, done: iset<Place>, place: Place)
    requires Tame(root) && Exact(root, refs, done) && EndsInDef(place) && At(root, place).Some? && place !in done
    ensures Pointer(place) !in refs && Exact(root, refs[Pointer(place) := At(root, place).value], done + iset{place})
  {
    hide At, Pointer, Tame, EndsInDef, IsPointer;
    PointerFree(root, refs, done, place);
  }

  lemma AddAnchor(root: Schema, refs: Refs, done: iset<Place>, a: string, n: Schema)
    requires Exact(root, refs, done) && a != "" && TameAnchor(a)
    ensures Exact(root, refs["#" + a := n], done)
  {
    hide At, Pointer, EndsInDef;
    assert !IsPointer("#" + a);
    forall q | q in done ensures Pointer(q) != "#" + a { DefIsPointer(q); }
  }

  lemma DefIsPointer(q: Place)
    ensures EndsInDef(q) ==> IsPointer(Pointer(q))
  {
    hide Pointer;
    if q != [] { PointerStarts(q); }
  }

  lemma AddSound(root: Schema, refs: Refs, p: string, n: Schema, place: Place)
    requires Sound(root, refs) && IsEntry(root, p, n, place)
    ensures Sound(root, refs[p := n])
  {
    hide IsEntry;
  }

  // ---- progress ----

  ghost predicate Ready(root: Schema, path: Place, start: Refs, done: iset<Place>) {
    Tame(root) && Exact(root, start, done) && Through(root, path, EVERY) !! done
  }

  /** The walk below a place has gone through some of its hops. */
  ghost predicate Partly(root: Schema, path: Place, hops: iset<Hop>, start: Refs, done: iset<Place>, refs: Refs) {
    && Grown(start, refs) && Sound(root, refs)
    && (Ready(root, path, start, done) ==>
          Exact(root, refs, done + Through(root, path, hops)) && AnchoredThrough(root, refs, path, hops))
  }

  /** The walk of a place is over. */
  ghost predicate Walked(root: Schema, path: Place, start: Refs, done: iset<Place>, refs: Refs) {
    && At(root, path).Some? && Grown(start, refs) && Sound(root, refs)
    && (Ready(root, path, start, done) ==>
          && Exact(root, refs, done + Through(root, path, EVERY))
          && AnchoredThrough(root, refs, path, EVERY) && HasAnchors(refs, At(root, path).value))
  }

  lemma AnchorsMore(root: Schema, path: Place, hops: iset<Hop>, h: Hop, mid: Refs, refs: Refs)
    requires Grown(mid, refs) && AnchoredThrough(root, mid, path, hops)
    requires AnchoredThrough(root, refs, path + [h], EVERY)
    requires At(root, path + [h]).Some? ==> HasAnchors(refs, At(root, path + [h]).value)
    ensures AnchoredThrough(root, refs, path, hops + iset{h})
  {
    hide At, Below;
    BelowLonger();
    forall q | Below(path, q) && q[|path|] in hops + iset{h} && At(root, q).Some?
        ensures HasAnchors(refs, At(root, q).value) {
      BelowMore(path, h, q);
      if q[|path|] in hops { assert HasAnchors(mid, At(root, q).value); }
    }
  }

  /** A child that is no definition has been walked. */
  lemma JoinChild(root: Schema, path: Place, hops: iset<Hop>, h: Hop, start: Refs, done: iset<Place>, mid: Refs,
                  refs: Refs)
    requires Partly(root, path, hops, start, done, mid) && h !in hops && !EndsInDef(path + [h])
    requires Walked(root, path + [h], mid, done + Through(root, path, hops), refs)
    ensures Partly(root, path, hops + iset{h}, start, done, refs)
  {
    hide At, EndsInDef, Tame, Exact, Through, AnchoredThrough, HasAnchors, Sound;
    if Ready(root, path, start, done) {
      NextHop(root, path, hops, h, done);
      AnchorsMore(root, path, hops, h, mid, refs);
      ThroughMore(root, path, hops, h);
      assert done + Through(root, path, hops + iset{h})
             == done + Through(root, path, hops) + Through(root, path + [h], EVERY);
    }
  }

  /** A definition has been entered under its pointer, and walked. */
  lemma JoinDef(root: Schema, path: Place, hops: iset<Hop>, h: Hop, start: Refs, done: iset<Place>, mid: Refs,
                refs: Refs)
    requires Partly(root, path, hops, start, done, mid) && h !in hops
    requires EndsInDef(path + [h]) && At(root, path + [h]).Some? && Pointer(path + [h]) !in mid
    requires var next := path + [h];
             Walked(root, next, mid[Pointer(next) := At(root, next).value],
                    done + Through(root, path, hops) + iset{next}, refs)
    ensures Partly(root, path, hops + iset{h}, start, done, refs)
  {
    hide At, EndsInDef, Tame, Exact, Through, AnchoredThrough, HasAnchors, Sound, Pointer;
    var next := path + [h];
    assert Grown(mid, refs);
    if Ready(root, path, start, done) {
      var sofar := done + Through(root, path, hops);
      NextHop(root, path, hops, h, done);
      AddDef(root, mid, sofar, next);
      assert Through(root, next, EVERY) !! sofar + iset{next};
      AnchorsMore(root, path, hops, h, mid, refs);
      ThroughMore(root, path, hops, h);
      assert done + Through(root, path, hops + iset{h}) == sofar + iset{next} + Through(root, next, EVERY);
    }
  }

  /** A pointer taken by another entry happens only where names or anchors are not tame. */
  lemma JoinSeen(root: Schema, path: Place, hops: iset<Hop>, h: Hop, start: Refs, done: iset<Place>, mid: Refs)
    requires Partly(root, path, hops, start, done, mid) && h !in hops
    requires EndsInDef(path + [h]) && At(root, path + [h]).Some? && Pointer(path + [h]) in mid
    ensures !Ready(root, path, start, done) && Partly(root, path, hops + iset{h}, start, done, mid)
  {
    hide At, EndsInDef, Tame, Exact, Through, AnchoredThrough, HasAnchors, Sound, Pointer;
    if Ready(root, path, start, done) {
      NextHop(root, path, hops, h, done);
      PointerFree(root, mid, done + Through(root, path, hops), path + [h]);
    }
  }

  /** Hops that lead nowhere may be taken as gone through. */
  lemma JoinNone(root: Schema, path: Place, hops: iset<Hop>, more: iset<Hop>, start: Refs, done: iset<Place>,
                 refs: Refs)
    requires Partly(root, path, hops, start, done, refs) && At(root, path).Some?
    requires forall h :: h in more && Step(At(root, path).value, h).Some? ==> h in hops
    requires hops <= more
    ensures Partly(root, path, more, start, done, refs)
  {
    hide At, EndsInDef, Tame, Exact, HasAnchors, Sound, Step, Below;
    BelowLonger();
    forall q | Below(path, q) && At(root, q).Some?
        ensures q[|path|] in hops <==> q[|path|] in more { FirstHop(root, path, q); }
    assert Through(root, path, more) == Through(root, path, hops);
  }

  lemma Begin(root: Schema, path: Place, start: Refs, done: iset<Place>)
    requires Sound(root, start)
    ensures Partly(root, path, iset{}, start, done, start)
  {
    hide At, EndsInDef, Tame, HasAnchors, Sound;
    assert done + Through(root, path, iset{}) == done;
  }

  // ---- the walk ----

  lemma ChildSmaller(n: Schema, h: Hop)
    ensures Step(n, h).Some? ==> Step(n, h).value < n
  {
  }

  /** Every hop under the given keywords. */
  ghost function Under(words: set<Keyword>): iset<Hop> {
    iset h: Hop | h.word in words
  }

  ghost function NamedHops(w: Keyword, names: set<string>): iset<Hop> {
    iset h: Hop | h.Named? && h.word == w && h.name in names
  }

  ghost function FirstHops(w: Keyword, n: nat): iset<Hop> {
    iset h: Hop | h.Nth? && h.word == w && h.i < n
  }

  const NAMED: set<Keyword> := {Defs, Properties, Patterns}
  const SINGLE: set<Keyword> := {Items, AdditionalItems, Additional}

  lemma EveryWord()
    ensures {Defs} + {Properties} == {Defs, Properties} && {Defs, Properties} + {Patterns} == NAMED
    ensures NAMED + {Items} + {AdditionalItems} == NAMED + {Items, AdditionalItems}
    ensures NAMED + {Items, AdditionalItems} + {Additional} == NAMED + SINGLE
    ensures NAMED + SINGLE + {AllOf} + {AnyOf} == NAMED + SINGLE + {AllOf, AnyOf}
    ensures NAMED + SINGLE + {AllOf, AnyOf} + {OneOf} == NAMED + SINGLE + {AllOf, AnyOf, OneOf}
    ensures Under(NAMED + SINGLE + {AllOf, AnyOf, OneOf} + {Not}) == EVERY
  {
    forall w: Keyword ensures w in NAMED + SINGLE + {AllOf, AnyOf, OneOf} + {Not} {
      match w {
        case Defs => case Properties => case Patterns =>
        case Items => case AdditionalItems => case Additional => case Not =>
        case AllOf => case AnyOf => case OneOf =>
      }
    }
  }

  class Indexer {
    var refs: Refs

    constructor ()
      ensures refs == map[]
    {
      refs := map[];
    }

    /** Anchors are entered as a plain-name fragment, unless the name is taken. */
    method PutAnchor(ghost root: Schema, ghost path: Place, a: string, n: Schema, ghost done: iset<Place>)
      requires Sound(root, refs) && At(root, path) == Some(n) && (a == n.anchor || a == n.dynamicAnchor)
      modifies this
      ensures Sound(root, refs) && Grown(old(refs), refs) && (a != "" ==> "#" + a in refs)
      ensures Tame(root) && Exact(root, old(refs), done) ==> Exact(root, refs, done)
    {
      hide At, Exact, Sound, EndsInDef, Pointer;
      if a != "" && "#" + a !in refs {
        AddSound(root, refs, "#" + a, n, path);
        if Tame(root) && Exact(root, refs, done) { AddAnchor(root, refs, done, a, n); }
        refs := refs["#" + a := n];
      }
    }

    /** indexRefs: the anchors of a node, then everything below it. */
    method IndexRefs(ghost root: Schema, ghost path: Place, node: Schema, base: string, ghost done: iset<Place>)
      requires Sound(root, refs) && At(root, path) == Some(node) && base == Pointer(path)
      modifies this
      ensures Walked(root, path, old(refs), done, refs)
      decreases node, 3
    {
      hide At, Exact, Sound, Pointer, Tame, Through, AnchoredThrough, Partly, Under, Walked;
      PutAnchor(root, path, node.anchor, node, done);
      PutAnchor(root, path, node.dynamicAnchor, node, done);
      ghost var start := refs;
      Begin(root, path, start, done);
      IndexDefs(root, path, node, base, done, start);
      IndexChildren(root, path, node, base, done, start);
      Finish(root, path, old(refs), start, done, refs);
    }

    /** The children of a node, its definitions aside. */
    method IndexChildren(ghost root: Schema, ghost path: Place, node: Schema, base: string, ghost done: iset<Place>,
                         ghost start: Refs)
      requires At(root, path) == Some(node) && base == Pointer(path)
      requires Partly(root, path, Under({Defs}), start, done, refs)
      modifies this
      ensures Partly(root, path, EVERY, start, done, refs) && Grown(old(refs), refs)
      decreases node, 2, 1
    {
      hide At, Pointer, Partly, Under;
      EveryWord();
      IndexNamed(root, path, node, Properties, base, done, start, {Defs});
      IndexNamed(root, path, node, Patterns, base, done, start, {Defs, Properties});
      IndexSingle(root, path, node, Items, base, done, start, NAMED);
      IndexSingle(root, path, node, AdditionalItems, base, done, start, NAMED + {Items});
      IndexSingle(root, path, node, Additional, base, done, start, NAMED + {Items, AdditionalItems});
      IndexSequence(root, path, node, AllOf, base, done, start, NAMED + SINGLE);
      IndexSequence(root, path, node, AnyOf, base, done, start, NAMED + SINGLE + {AllOf});
      IndexSequence(root, path, node, OneOf, base, done, start, NAMED + SINGLE + {AllOf, AnyOf});
      IndexSingle(root, path, node, Not, base, done, start, NAMED + SINGLE + {AllOf, AnyOf, OneOf});
    }

    /** A keyword with one child. */
    method IndexSingle(ghost root: Schema, ghost path: Place, node: Schema, w: Keyword, base: string,
                       ghost done: iset<Place>, ghost start: Refs, ghost words: set<Keyword>)
      requires At(root, path) == Some(node) && base == Pointer(path) && w !in words
      requires w.Items? || w.AdditionalItems? || w.Additional? || w.Not?
      requires Partly(root, path, Under(words), start, done, refs)
      modifies this
      ensures Partly(root, path, Under(words + {w}), start, done, refs) && Grown(old(refs), refs)
      decreases node, 2, 0
    {
      hide At, Pointer, Partly;
      IndexChild(root, path, node, Only(w), base, done, start, Under(words));
      JoinNone(root, path, Under(words) + iset{Only(w)}, Under(words + {w}), start, done, refs);
    }

    /** A child that is not a definition; an absent one is passed over. */
    method IndexChild(ghost root: Schema, ghost path: Place, node: Schema, h: Hop, base: string,
                      ghost done: iset<Place>, ghost start: Refs, ghost hops: iset<Hop>)
      requires At(root, path) == Some(node) && base == Pointer(path) && !h.word.Defs? && h !in hops
      requires Partly(root, path, hops, start, done, refs)
      modifies this
      ensures Partly(root, path, hops + iset{h}, start, done, refs) && Grown(old(refs), refs)
      decreases node, 1
    {
      hide At, Pointer, Partly, Step, Walked;
      AtStep(root, path, h);
      var child := Step(node, h);
      if child.None? {
        JoinNone(root, path, hops, hops + iset{h}, start, done, refs);
        return;
      }
      ChildSmaller(node, h);
      PointerMore(path, h);
      PartlySound(root, path, hops, start, done, refs);
      ghost var mid := refs;
      IndexRefs(root, path + [h], child.value, base + Join(Segments(h)), done + Through(root, path, hops));
      WalkedGrows(root, path + [h], mid, done + Through(root, path, hops), refs);
      JoinChild(root, path, hops, h, start, done, mid, refs);
    }

    /** A map of children, in whatever order it is ranged over. */
    method IndexNamed(ghost root: Schema, ghost path: Place, node: Schema, w: Keyword, base: string,
                      ghost done: iset<Place>, ghost start: Refs, ghost words: set<Keyword>)
      requires At(root, path) == Some(node) && base == Pointer(path) && (w.Properties? || w.Patterns?) && w !in words
      requires Partly(root, path, Under(words), start, done, refs)
      modifies this
      ensures Partly(root, path, Under(words + {w}), start, done, refs) && Grown(old(refs), refs)
      decreases node, 2, 0
    {
      hide At, Pointer, Partly;
      var kids := Names(node, w);
      var todo := kids.Keys;
      ghost var seen: iset<Hop> := Under(words);
      while todo != {}
        invariant todo <= kids.Keys && seen == Under(words) + NamedHops(w, kids.Keys - todo)
        invariant Partly(root, path, seen, start, done, refs) && Grown(old(refs), refs)
      {
        var name :| name in todo;
        IndexChild(root, path, node, Named(w, name), base, done, start, seen);
        seen, todo := seen + iset{Named(w, name)}, todo - {name};
      }
      JoinNone(root, path, seen, Under(words + {w}), start, done, refs);
    }

    method IndexSequence(ghost root: Schema, ghost path: Place, node: Schema, w: Keyword, base: string,
                         ghost done: iset<Place>, ghost start: Refs, ghost words: set<Keyword>)
      requires At(root, path) == Some(node) && base == Pointer(path) && (w.AllOf? || w.AnyOf? || w.OneOf?)
               && w !in words
      requires Partly(root, path, Under(words), start, done, refs)
      modifies this
      ensures Partly(root, path, Under(words + {w}), start, done, refs) && Grown(old(refs), refs)
      decreases node, 2, 0
    {
      hide At, Pointer, Partly;
      ghost var seen: iset<Hop> := Under(words);
      for i := 0 to |Sequence(node, w)|
        invariant seen == Under(words) + FirstHops(w, i)
        invariant Partly(root, path, seen, start, done, refs) && Grown(old(refs), refs)
      {
        IndexChild(root, path, node, Nth(w, i), base, done, start, seen);
        seen := seen + iset{Nth(w, i)};
      }
      JoinNone(root, path, seen, Under(words + {w}), start, done, refs);
    }

    /** indexDefs: each definition under its pointer, unless that is taken, and then what is inside it. */
    method IndexDefs(ghost root: Schema, ghost path: Place, node: Schema, base: string, ghost done: iset<Place>,
                     ghost start: Refs)
      requires At(root, path) == Some(node) && base == Pointer(path)
      requires Partly(root, path, iset{}, start, done, refs)
      modifies this
      ensures Partly(root, path, Under({Defs}), start, done, refs) && Grown(old(refs), refs)
      decreases node, 2, 0
    {
      hide At, Pointer, Partly, Walked;
      var todo := node.defs.Keys;
      ghost var seen: iset<Hop> := iset{};
      while todo != {}
        invariant todo <= node.defs.Keys && seen == NamedHops(Defs, node.defs.Keys - todo)
        invariant Partly(root, path, seen, start, done, refs) && Grown(old(refs), refs)
      {
        var name :| name in todo;
        IndexDef(root, path, node, name, base, done, start, seen);
        seen, todo := seen + iset{Named(Defs, name)}, todo - {name};
      }
      JoinNone(root, path, seen, Under({Defs}), start, done, refs);
    }

    method IndexDef(ghost root: Schema, ghost path: Place, node: Schema, name: string, base: string,
                    ghost done: iset<Place>, ghost start: Refs, ghost hops: iset<Hop>)
      requires At(root, path) == Some(node) && base == Pointer(path) && name in node.defs && Named(Defs, name) !in hops
      requires Partly(root, path, hops, start, done, refs)
      modifies this
      ensures Partly(root, path, hops + iset{Named(Defs, name)}, start, done, refs) && Grown(old(refs), refs)
      decreases node, 1
    {
      hide At, Pointer, Partly, Walked;
      ghost var h := Named(Defs, name);
      AtStep(root, path, h);
      var def := node.defs[name];
      if def.None? {
        JoinNone(root, path, hops, hops + iset{h}, start, done, refs);
        return;
      }
      DefPointer(path, name);
      var ptr := base + "/$defs/" + name;
      if ptr in refs {
        JoinSeen(root, path, hops, h, start, done, refs);
        return;
      }
      PartlySound(root, path, hops, start, done, refs);
      AddSound(root, refs, ptr, def.value, path + [h]);
      ghost var mid := refs;
      refs := refs[ptr := def.value];
      IndexRefs(root, path + [h], def.value, ptr, done + Through(root, path, hops) + iset{path + [h]});
      WalkedGrows(root, path + [h], mid[ptr := def.value], done + Through(root, path, hops) + iset{path + [h]}, refs);
      JoinDef(root, path, hops, h, start, done, mid, refs);
    }
  }

  lemma DefPointer(path: Place, name: string)
    ensures Pointer(path + [Named(Defs, name)]) == Pointer(path) + "/$defs/" + name
  {
    hide Pointer, Join;
    PointerMore(path, Named(Defs, name));
    JoinTwo("$defs", name);
    Associate(Pointer(path), "/$defs/", name);
  }

  lemma WalkedGrows(root: Schema, path: Place, start: Refs, done: iset<Place>, refs: Refs)
    requires Walked(root, path, start, done, refs)
    ensures Grown(start, refs)
  {
  }

  lemma PartlySound(root: Schema, path: Place, hops: iset<Hop>, start: Refs, done: iset<Place>, refs: Refs)
    requires Partly(root, path, hops, start, done, refs)
    ensures Sound(root, refs)
  {
  }

  lemma Finish(root: Schema, path: Place, first: Refs, start: Refs, done: iset<Place>, refs: Refs)
    requires At(root, path).Some? && Grown(first, start) && HasAnchors(start, At(root, path).value)
    requires Tame(root) && Exact(root, first, done) ==> Exact(root, start, done)
    requires Partly(root, path, EVERY, start, done, refs)
    ensures Walked(root, path, first, done, refs)
  {
    hide At, Exact, Sound, Tame, Through, AnchoredThrough;
  }

  // ---- the whole document ----

  /** Every definition is found under its pointer and every anchor under its name. */
  ghost predicate Complete(root: Schema, refs: Refs) {
    && (forall q :: EndsInDef(q) && At(root, q).Some? ==> Pointer(q) in refs && refs[Pointer(q)] == At(root, q).value)
    && (forall q :: At(root, q).Some? ==> HasAnchors(refs, At(root, q).value))
  }

  /** The document as one node: decoding leaves the definitions on the wrapper and none on the root node. */
  function Document(defs: map<string, Option<Schema>>, typed: Option<Schema>): Schema {
    if typed.Some? then typed.value.(defs := defs)
    else EMPTY.(defs := defs)
  }

  /** collectRefs: the wrapper's definitions first, then the root node. */
  method CollectRefs(defs: map<string, Option<Schema>>, typed: Option<Schema>) returns (refs: Refs)
    requires typed.Some? ==> typed.value.defs == map[]
    ensures Sound(Document(defs, typed), refs)
    ensures Tame(Document(defs, typed)) ==> Complete(Document(defs, typed), refs)
  {
    hide At, Sound, Exact, Partly, Complete, Tame, Through, AnchoredThrough;
    var root := Document(defs, typed);
    var indexer := new Indexer();
    AtRoot(root);
    EmptyTable(root);
    Begin(root, [], map[], iset{});
    indexer.IndexDefs(root, [], root, "#", iset{}, map[]);
    ghost var done := iset{} + Through(root, [], Under({Defs}));
    ghost var mid := indexer.refs;
    PartlySound(root, [], Under({Defs}), map[], iset{}, mid);
    indexer.PutAnchor(root, [], root.anchor, root, done);
    indexer.PutAnchor(root, [], root.dynamicAnchor, root, done);
    PartlyGrows(root, [], Under({Defs}), map[], iset{}, mid, indexer.refs);
    indexer.IndexChildren(root, [], root, "#", iset{}, map[]);
    refs := indexer.refs;
    PartlySound(root, [], EVERY, map[], iset{}, refs);
    if Tame(root) { WholeDocument(root, refs); }
  }

  lemma AtRoot(root: Schema)
    ensures At(root, []) == Some(root) && Pointer([]) == "#"
  {
  }

  lemma EmptyTable(root: Schema)
    ensures Sound(root, map[]) && Exact(root, map[], iset{})
    ensures Through(root, [], EVERY) !! iset{}
  {
  }

  lemma PartlyGrows(root: Schema, path: Place, hops: iset<Hop>, start: Refs, done: iset<Place>, mid: Refs, refs: Refs)
    requires Partly(root, path, hops, start, done, mid) && Grown(mid, refs) && Sound(root, refs)
    requires Tame(root) && Exact(root, mid, done + Through(root, path, hops)) ==>
             Exact(root, refs, done + Through(root, path, hops))
    ensures Partly(root, path, hops, start, done, refs)
  {
    hide At, Exact, Sound, Through, Below, Tame;
    BelowLonger();
    if Ready(root, path, start, done) {
      forall q | Below(path, q) && q[|path|] in hops && At(root, q).Some? ensures HasAnchors(refs, At(root, q).value) {
        assert HasAnchors(mid, At(root, q).value);
      }
    }
  }

  lemma WholeDocument(root: Schema, refs: Refs)
    requires Tame(root) && Partly(root, [], EVERY, map[], iset{}, refs) && HasAnchors(refs, root)
    ensures Complete(root, refs)
  {
    hide Sound, Tame, Pointer, HasAnchors;
    EmptyTable(root);
    AtRoot(root);
    var done := iset{} + Through(root, [], EVERY);
    forall q | EndsInDef(q) && At(root, q).Some? ensures Pointer(q) in refs && refs[Pointer(q)] == At(root, q).value {
      assert Below([], q) && q in done;
    }
    forall q | At(root, q).Some? ensures HasAnchors(refs, At(root, q).value) {
      assert q == [] || Below([], q);
    }
  }

  // ---- looking a reference up ----

  /** A reference to a definition finds it, unless its way crosses a name that reads like the legacy keyword. */
  lemma ReferenceResolves(root: Schema, refs: Refs, place: Place)
    requires Tame(root) && Complete(root, refs) && EndsInDef(place) && At(root, place).Some? && !Crosses(place)
    ensures var key := Normalize(Pointer(place));
            key in refs && refs[key] == At(root, place).value
  {
    hide At, Pointer, Plain, Crosses, HasAnchors;
    LookedUpAsWrittenIff(place);
  }

  /**
   * A reference spelled with the escapes of RFC 6901 is looked up without undoing them: it finds what stands at the
   * place whose names are the escaped ones, and nothing if the document has no such place. That is the place meant
   * exactly when no name on the way holds a tilde.
   */
  lemma EscapedResolvesIff(root: Schema, refs: Refs, place: Place)
    requires Tame(root) && Sound(root, refs) && Complete(root, refs)
    requires EndsInDef(place) && At(root, place).Some? && !Crosses(place)
    ensures var key := Normalize(Pointer(EscapedPlace(place)));
            && (key in refs <==> At(root, EscapedPlace(place)).Some?)
            && (key in refs ==> refs[key] == At(root, EscapedPlace(place)).value)
    ensures EscapedPlace(place) == place <==> Untouched(place)
  {
    hide At, Pointer, Plain, Crosses, HasAnchors, AllFit, Normalize;
    var e := EscapedPlace(place);
    RealPlacesFit(root, place);
    EscapedPlaceMeans(place);
    LookedUpAsWrittenIff(e);
    var key := Pointer(e);
    PointerStarts(e);
    if key in refs {
      var q :| IsEntry(root, key, refs[key], q);
      assert !IsPointer("#" + refs[key].anchor) && !IsPointer("#" + refs[key].dynamicAnchor);
      RealPlacesFit(root, q);
      PointersInjective(q, e);
    }
  }

  /**
   * In any document, names with slashes included, a reference that has an escape is found only as the raw spelling of
   * some definition or anchor that itself holds a tilde. Where there is none, it is lost.
   */
  lemma EscapedReferenceLost(root: Schema, refs: Refs, place: Place)
    requires Sound(root, refs) && !Untouched(place)
    ensures var key := Normalize(Pointer(EscapedPlace(place)));
            key in refs ==> exists q :: IsEntry(root, key, refs[key], q) && HoldsTilde(refs[key], q)
  {
    hide At, Pointer, Normalize, Untouched, EscapedPlace;
    var key := Normalize(Pointer(EscapedPlace(place)));
    EscapesShow(place);
    if key in refs {
      var q :| IsEntry(root, key, refs[key], q);
      PointerTilde(q);
      assert HoldsTilde(refs[key], q);
    }
  }

  /** A tilde on the way to a node or in one of its anchors. */
  predicate HoldsTilde(n: Schema, place: Place) {
    Tilded(place) || '~' in n.anchor || '~' in n.dynamicAnchor
  }

  /** A reference in the legacy spelling finds the definition it names, however deep. */
  lemma LegacyResolves(root: Schema, refs: Refs, names: seq<string>)
    requires Tame(root) && Complete(root, refs) && names != [] && At(root, DefPlace(names)).Some?
    ensures var key := Normalize("#" + LegacyPath(names));
            key in refs && refs[key] == At(root, DefPlace(names)).value
  {
    hide At, Pointer, HasAnchors;
    var place := DefPlace(names);
    assert Plain(place);
    forall i | 0 <= i < |names| ensures SlashFree(names[i]) { assert place[i].Named? && place[i].name == names[i]; }
    LegacyLookedUp(names);
  }

  lemma BlankEnds(q: Place)
    ensures At(EMPTY, q).Some? ==> q == []
  {
  }

  /** A definition under a property called "definitions" is in the table, but no reference to it ever finds it. */
  lemma CrossingReferenceLost(refs: Refs)
    requires var inner := EMPTY.(defs := map["X" := Some(EMPTY)]);
             Sound(EMPTY.(properties := map[LEGACY := Some(inner)]), refs)
    ensures Normalize(Pointer([Named(Properties, LEGACY), Named(Defs, "X")])) !in refs
  {
    hide Pointer;
    var inner := EMPTY.(defs := map["X" := Some(EMPTY)]);
    var root := EMPTY.(properties := map[LEGACY := Some(inner)]);
    var place := [Named(Properties, LEGACY), Named(Defs, "X")];
    assert place[0].name == LEGACY && Crosses(place);
    LookedUpAsWrittenIff(place);
    var key := Normalize(Pointer(place));
    if key in refs {
      var q :| IsEntry(root, key, refs[key], q);
      OnlyPlace(root, inner, q);
    }
  }

  lemma OnlyPlace(root: Schema, inner: Schema, q: Place)
    requires inner == EMPTY.(defs := map["X" := Some(EMPTY)])
             && root == EMPTY.(properties := map[LEGACY := Some(inner)])
    requires At(root, q).Some?
    ensures EndsInDef(q) ==> q == [Named(Properties, LEGACY), Named(Defs, "X")]
    ensures At(root, q).value.anchor == "" && At(root, q).value.dynamicAnchor == ""
  {
    if q != [] {
      assert q[0] == Named(Properties, LEGACY);
      var r := q[1..];
      assert At(inner, r).Some?;
      if r == [] {
        assert q == [q[0]];
      } else {
        assert r[0] == Named(Defs, "X");
        BlankEnds(r[1..]);
        assert r == [r[0]] && q == [q[0]] + r;
      }
    }
  }

  /** A definition with a slash in its name is in the table, but the pointer RFC 6901 gives it is not. */
  lemma SlashReferenceLost(refs: Refs, name: string)
    requires '/' in name && Sound(EMPTY.(defs := map[name := Some(EMPTY)]), refs)
    ensures Normalize(Pointer(EscapedPlace([Named(Defs, name)]))) !in refs
  {
    hide Pointer;
    var place := [Named(Defs, name)];
    var e := EscapedPlace(place);
    EscapeMeans(name);
    assert e == [Named(Defs, Escape(name))] && AllFit(place);
    EscapedPlaceMeans(place);
    LookedUpAsWrittenIff(e);
    OneDefPointer(name);
    OneDefPointer(Escape(name));
    assert ("#/$defs/" + name)[8..] == name && ("#/$defs/" + Escape(name))[8..] == Escape(name);
    var key := Pointer(e);
    assert !Crosses(place) && Normalize(key) == key && key != Pointer(place);
    if key in refs {
      var q :| IsEntry(EMPTY.(defs := map[name := Some(EMPTY)]), key, refs[key], q);
      OnlyDef(name, q);
    }
  }

  lemma OneDefPointer(name: string)
    ensures Pointer([Named(Defs, name)]) == "#/$defs/" + name
  {
    hide Pointer;
    assert [] + [Named(Defs, name)] == [Named(Defs, name)];
    DefPointer([], name);
    AtRoot(EMPTY);
  }

  lemma OnlyDef(name: string, q: Place)
    requires At(EMPTY.(defs := map[name := Some(EMPTY)]), q).Some?
    ensures EndsInDef(q) ==> q == [Named(Defs, name)]
    ensures var n := At(EMPTY.(defs := map[name := Some(EMPTY)]), q).value; n.anchor == "" && n.dynamicAnchor == ""
  {
    if q != [] {
      assert q[0] == Named(Defs, name);
      BlankEnds(q[1..]);
      assert q == [q[0]];
    }
  }
}
