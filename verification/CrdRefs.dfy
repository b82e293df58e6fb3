/**
 * Places in a schema document, the pointers that name them, and the spelling a reference is looked up under
 * (crdgen/transpile.go).
 */
module CrdRefs {
  import opened Values
  import opened Decimal
  import opened CrdSchema

  /** The keyword a child hangs under. */
  datatype Keyword = Defs | Properties | Patterns | Items | AdditionalItems | Additional | AllOf | AnyOf | OneOf | Not

  /** One step down: under a keyword, by name, by position, or directly. */
  datatype Hop = Named(word: Keyword, name: string) | Nth(word: Keyword, i: nat) | Only(word: Keyword)

  type Place = seq<Hop>

  function Names(n: Schema, w: Keyword): map<string, Option<Schema>> {
    match w
    case Defs => n.defs
    case Properties => n.properties
    case Patterns => n.patternProperties
    case _ => map[]
  }

  function Sequence(n: Schema, w: Keyword): seq<Option<Schema>> {
    match w
    case AllOf => n.allOf
    case AnyOf => n.anyOf
    case OneOf => n.oneOf
    case _ => []
  }

  function Single(n: Schema, w: Keyword): Option<Schema> {
    match w
    case Items => n.items
    case AdditionalItems => n.additionalItems
    case Additional => if n.additional.Some? then n.additional.value.schema else None
    case Not => n.not
    case _ => None
  }

  function Step(n: Schema, h: Hop): Option<Schema> {
    match h
    case Named(w, name) => if name in Names(n, w) then Names(n, w)[name] else None
    case Nth(w, i) => if i < |Sequence(n, w)| then Sequence(n, w)[i] else None
    case Only(w) => Single(n, w)
  }

  function At(n: Schema, place: Place): Option<Schema>
    decreases |place|
  {
    if place == [] then Some(n)
    else
      var child := Step(n, place[0]);
      if child.None? then None else At(child.value, place[1..])
  }

  // ---- pointers ----

  function Word(w: Keyword): string {
    match w
    case Defs => "$defs"
    case Properties => "properties"
    case Patterns => "patternProperties"
    case Items => "items"
    case AdditionalItems => "additionalItems"
    case Additional => "additionalProperties"
    case AllOf => "allOf"
    case AnyOf => "anyOf"
    case OneOf => "oneOf"
    case Not => "not"
  }

  /** The segments a hop adds to a pointer. */
  function Segments(h: Hop): (s: seq<string>)
    ensures s != []
  {
    match h
    case Named(w, name) => [Word(w), name]
    case Nth(w, i) => [Word(w), Digits(i)]
    case Only(w) => [Word(w)]
  }

  function AllSegments(place: Place): seq<string> {
    if place == [] then [] else Segments(place[0]) + AllSegments(place[1..])
  }

  function Join(segments: seq<string>): string {
    if segments == [] then [] else "/" + segments[0] + Join(segments[1..])
  }

  function Pointer(place: Place): string {
    "#" + Join(AllSegments(place))
  }

  predicate SlashFree(s: string) {
    forall i :: 0 <= i < |s| ==> s[i] != '/'
  }

  predicate AllSlashFree(segments: seq<string>) {
    forall i :: 0 <= i < |segments| ==> SlashFree(segments[i])
  }

  /** Every name on the way is free of slashes, which pointers do not escape. */
  predicate Plain(place: Place) {
    forall i :: 0 <= i < |place| && place[i].Named? ==> SlashFree(place[i].name)
  }

  lemma {:induction false} JoinMore(a: seq<string>, b: seq<string>)
    ensures Join(a + b) == Join(a) + Join(b)
  {
    hide Join;
    JoinHead(a);
    if a == [] {
      assert a + b == b;
    } else {
      JoinHead(a + b);
      JoinMore(a[1..], b);
      assert (a + b)[1..] == a[1..] + b;
      Associate("/" + a[0], Join(a[1..]), Join(b));
    }
  }

  lemma JoinHead(a: seq<string>)
    ensures Join(a) == if a == [] then [] else "/" + a[0] + Join(a[1..])
  {
  }

  lemma {:induction false} SegmentsMore(place: Place, h: Hop)
    ensures AllSegments(place + [h]) == AllSegments(place) + Segments(h)
  {
    hide Segments;
    if place == [] {
      assert place + [h] == [h] && [h][1..] == [];
      assert AllSegments([]) == [] && AllSegments([h]) == Segments(h) + [];
    } else {
      SegmentsMore(place[1..], h);
      assert (place + [h])[1..] == place[1..] + [h];
      assert AllSegments(place + [h]) == Segments(place[0]) + (AllSegments(place[1..]) + Segments(h));
    }
  }

  lemma Associate(a: string, b: string, c: string)
    ensures a + (b + c) == a + b + c
  {
  }

  /** A step down extends the pointer by the step's own segments. */
  lemma PointerMore(place: Place, h: Hop)
    ensures Pointer(place + [h]) == Pointer(place) + Join(Segments(h))
  {
    hide Join, AllSegments, Segments;
    SegmentsMore(place, h);
    JoinMore(AllSegments(place), Segments(h));
    Associate("#", Join(AllSegments(place)), Join(Segments(h)));
  }

  // ---- pointers tell places apart ----

  function ToSlash(s: string): nat {
    if s == [] || s[0] == '/' then 0 else 1 + ToSlash(s[1..])
  }

  lemma {:induction false} SegmentEnds(x: string, r: string)
    requires SlashFree(x) && (r == [] || r[0] == '/')
    ensures ToSlash(x + r) == |x|
  {
    if x == [] {
      assert x + r == r;
    } else {
      SegmentEnds(x[1..], r);
      assert (x + r)[1..] == x[1..] + r;
    }
  }

  lemma SplitFront(x: string, r: string, y: string, t: string)
    requires SlashFree(x) && SlashFree(y) && x + r == y + t
    requires (r == [] || r[0] == '/') && (t == [] || t[0] == '/')
    ensures x == y && r == t
  {
    SegmentEnds(x, r);
    SegmentEnds(y, t);
    assert x == (x + r)[..|x|] == y && r == (x + r)[|x|..] == t;
  }

  lemma {:induction false} JoinInjective(a: seq<string>, b: seq<string>)
    requires AllSlashFree(a) && AllSlashFree(b) && Join(a) == Join(b)
    ensures a == b
  {
    if a != [] && b != [] {
      assert Join(a)[1..] == a[0] + Join(a[1..]) && Join(b)[1..] == b[0] + Join(b[1..]);
      SplitFront(a[0], Join(a[1..]), b[0], Join(b[1..]));
      JoinInjective(a[1..], b[1..]);
      assert a == [a[0]] + a[1..] && b == [b[0]] + b[1..];
    }
  }

  /** Which kind of step a keyword allows. */
  predicate Fits(h: Hop) {
    match h
    case Named(w, _) => w.Defs? || w.Properties? || w.Patterns?
    case Nth(w, _) => w.AllOf? || w.AnyOf? || w.OneOf?
    case Only(w) => w.Items? || w.AdditionalItems? || w.Additional? || w.Not?
  }

  predicate AllFit(place: Place) {
    forall i :: 0 <= i < |place| ==> Fits(place[i])
  }

  lemma {:induction false} RealPlacesFit(n: Schema, place: Place)
    requires At(n, place).Some?
    ensures AllFit(place)
    decreases |place|
  {
    if place != [] {
      RealPlacesFit(Step(n, place[0]).value, place[1..]);
      assert place == [place[0]] + place[1..];
    }
  }

  lemma WordsDiffer(a: Keyword, b: Keyword)
    requires Word(a) == Word(b)
    ensures a == b
  {
    assert |Word(a)| == |Word(b)| && Word(a)[0] == Word(b)[0] && Word(a)[1] == Word(b)[1];
  }

  lemma {:induction false} SegmentsInjective(p: Place, q: Place)
    requires AllFit(p) && AllFit(q) && AllSegments(p) == AllSegments(q)
    ensures p == q
    decreases |p|
  {
    hide Word;
    if p != [] && q != [] {
      var (a, b) := (Segments(p[0]), Segments(q[0]));
      assert AllSegments(p)[0] == a[0] == Word(p[0].word) && AllSegments(q)[0] == b[0] == Word(q[0].word);
      WordsDiffer(p[0].word, q[0].word);
      assert Fits(p[0]) && Fits(q[0]) && |a| == |b|;
      assert AllSegments(p)[..|a|] == a && AllSegments(q)[..|b|] == b;
      if p[0].Nth? { assert a[1] == b[1]; DigitsInjective(p[0].i, q[0].i); }
      if p[0].Named? { assert a[1] == b[1]; }
      assert AllSegments(p)[|a|..] == AllSegments(p[1..]) && AllSegments(q)[|b|..] == AllSegments(q[1..]);
      SegmentsInjective(p[1..], q[1..]);
      assert p == [p[0]] + p[1..] && q == [q[0]] + q[1..];
    }
  }

  lemma {:induction false} SegmentsSlashFree(place: Place)
    requires Plain(place)
    ensures AllSlashFree(AllSegments(place))
    decreases |place|
  {
    if place != [] {
      SegmentsSlashFree(place[1..]);
      HopSlashFree(place[0]);
    }
  }

  lemma WordSlashFree(w: Keyword)
    ensures SlashFree(Word(w))
  {
  }

  lemma HopSlashFree(h: Hop)
    requires h.Named? ==> SlashFree(h.name)
    ensures AllSlashFree(Segments(h))
  {
    hide Word;
    WordSlashFree(h.word);
    if h.Nth? {
      forall j | 0 <= j < |Digits(h.i)| ensures Digits(h.i)[j] != '/' { assert Digits(h.i)[j] in Digits(h.i); }
    }
  }

  lemma PointersInjective(p: Place, q: Place)
    requires AllFit(p) && AllFit(q) && Plain(p) && Plain(q) && Pointer(p) == Pointer(q)
    ensures p == q
  {
    SegmentsSlashFree(p);
    SegmentsSlashFree(q);
    assert Pointer(p)[1..] == Join(AllSegments(p)) && Pointer(q)[1..] == Join(AllSegments(q));
    JoinInjective(AllSegments(p), AllSegments(q));
    SegmentsInjective(p, q);
  }

  /** No two places of a document whose names are free of slashes have the same pointer. */
  lemma PointersTellApart(n: Schema, p: Place, q: Place)
    requires At(n, p).Some? && At(n, q).Some? && Plain(p) && Plain(q) && Pointer(p) == Pointer(q)
    ensures p == q
  {
    RealPlacesFit(n, p);
    RealPlacesFit(n, q);
    PointersInjective(p, q);
  }

  // ---- the spelling a reference is looked up under ----

  const LEGACY: string := "definitions"

  /** The legacy keyword stands between two slashes somewhere. */
  predicate Mentions(s: string) {
    s != [] && ("/definitions/" <= s || Mentions(s[1..]))
  }

  /** Normalizing shortens whatever it changes. */
  lemma {:induction false} NormalizeIff(s: string)
    ensures |Normalize(s)| <= |s|
    ensures Mentions(s) ==> |Normalize(s)| < |s|
    ensures !Mentions(s) ==> Normalize(s) == s
    decreases |s|
  {
    if s != [] {
      if "/definitions/" <= s { NormalizeIff(s[13..]); } else { NormalizeIff(s[1..]); }
    }
  }

  lemma {:induction false} SkipPlain(x: string, r: string)
    requires SlashFree(x)
    ensures Mentions(x + r) <==> Mentions(r)
    ensures Normalize(x + r) == x + Normalize(r)
  {
    if x == [] {
      assert x + r == r && x + Normalize(r) == Normalize(r);
    } else {
      SkipPlain(x[1..], r);
      assert (x + r)[1..] == x[1..] + r && (x + r)[0] == x[0] != '/';
      assert x == [x[0]] + x[1..];
    }
  }

  /** A legacy keyword at the front is a segment of that name with something behind it. */
  lemma MentionedFirst(x: string, r: string)
    requires SlashFree(x) && (r == [] || r[0] == '/')
    ensures "/definitions/" <= "/" + x + r <==> x == LEGACY && r != []
  {
    var s := "/" + x + r;
    assert s[1..] == x + r;
    if "/definitions/" <= s {
      assert s[..13] == "/definitions/" && s == "/definitions/" + s[13..];
      assert x + r == LEGACY + ("/" + s[13..]);
      assert SlashFree(LEGACY);
      SplitFront(x, r, LEGACY, "/" + s[13..]);
    }
    if x == LEGACY && r != [] { assert s[..13] == "/definitions/"; }
  }

  lemma JoinStarts(segments: seq<string>)
    ensures if segments == [] then Join(segments) == [] else Join(segments) != [] && Join(segments)[0] == '/'
  {
  }

  lemma JoinFirst(segments: seq<string>)
    requires segments != []
    ensures Join(segments) == "/" + segments[0] + Join(segments[1..])
    ensures Join(segments)[1..] == segments[0] + Join(segments[1..])
  {
  }

  lemma MentionsStep(s: string)
    requires s != []
    ensures Mentions(s) <==> "/definitions/" <= s || Mentions(s[1..])
  {
  }

  lemma NothingMentioned(segments: seq<string>)
    requires segments == []
    ensures Join(segments) == [] && !Mentions([])
  {
  }

  lemma {:induction false} MentionedIff(segments: seq<string>)
    requires segments != [] && AllSlashFree(segments)
    ensures Mentions(Join(segments)) <==> LEGACY in segments[..|segments| - 1]
  {
    hide SlashFree;
    var x, rest := segments[0], segments[1..];
    JoinStarts(rest);
    MentionedFirst(x, Join(rest));
    JoinFirst(segments);
    MentionsStep(Join(segments));
    hide Mentions, Join;
    SkipPlain(x, Join(rest));
    if rest == [] {
      assert Join(rest) == [] && !Mentions([]) by { NothingMentioned(rest); }
    } else {
      MentionedIff(rest);
      assert segments[..|segments| - 1] == [x] + rest[..|rest| - 1];
    }
  }

  /** A name on the way, the last step aside, that reads like the legacy keyword. */
  predicate Crosses(place: Place) {
    exists i :: 0 <= i < |place| - 1 && place[i].Named? && place[i].name == LEGACY
  }

  lemma WordsAreCurrent(h: Hop)
    ensures LEGACY in Segments(h) <==> h.Named? && h.name == LEGACY
    ensures LEGACY !in Segments(h)[..|Segments(h)| - 1]
  {
    assert |Word(h.word)| != |LEGACY|;
    if h.Nth? { assert Digits(h.i)[0] != LEGACY[0]; }
  }

  lemma {:induction false} CrossesIff(place: Place)
    requires place != []
    ensures AllSegments(place) != []
    ensures Crosses(place) <==> LEGACY in AllSegments(place)[..|AllSegments(place)| - 1]
    decreases |place|
  {
    hide Segments;
    var h, rest := place[0], place[1..];
    WordsAreCurrent(h);
    if rest == [] {
      assert AllSegments(place) == Segments(h);
    } else {
      CrossesIff(rest);
      var n := |AllSegments(rest)|;
      assert AllSegments(place)[..|AllSegments(place)| - 1] == Segments(h) + AllSegments(rest)[..n - 1];
      if Crosses(rest) {
        var i :| 0 <= i < |rest| - 1 && rest[i].Named? && rest[i].name == LEGACY;
        assert place[i + 1] == rest[i];
      }
      if Crosses(place) && !(h.Named? && h.name == LEGACY) {
        var i :| 0 <= i < |place| - 1 && place[i].Named? && place[i].name == LEGACY;
        assert rest[i - 1] == place[i];
      }
    }
  }

  /** A pointer is looked up as it is written exactly when no name on its way is the legacy keyword. */
  lemma LookedUpAsWrittenIff(place: Place)
    requires Plain(place)
    ensures Normalize(Pointer(place)) == Pointer(place) <==> !Crosses(place)
  {
    var s := Join(AllSegments(place));
    NormalizeIff(Pointer(place));
    SkipPlain("#", s);
    if place != [] {
      SegmentsSlashFree(place);
      CrossesIff(place);
      MentionedIff(AllSegments(place));
    }
  }

  /** Nested definitions spelled with the legacy keyword. */
  function LegacyPath(names: seq<string>): string {
    if names == [] then [] else "/definitions/" + names[0] + LegacyPath(names[1..])
  }

  function DefPlace(names: seq<string>): Place {
    seq(|names|, i requires 0 <= i < |names| => Named(Defs, names[i]))
  }

  lemma DefJoin(names: seq<string>)
    requires names != []
    ensures Join(AllSegments(DefPlace(names))) == "/$defs/" + names[0] + Join(AllSegments(DefPlace(names[1..])))
  {
    hide Join;
    var place := DefPlace(names);
    var below := AllSegments(DefPlace(names[1..]));
    assert place[1..] == DefPlace(names[1..]) && place[0] == Named(Defs, names[0]);
    assert AllSegments(place) == Segments(place[0]) + below;
    JoinMore(Segments(place[0]), below);
    JoinTwo("$defs", names[0]);
  }

  lemma JoinTwo(a: string, b: string)
    ensures Join([a, b]) == "/" + a + "/" + b
  {
    assert [a, b][1..] == [b] && [b][1..] == [];
    assert Join([b]) == "/" + b;
  }

  lemma NormalizeFront(t: string)
    ensures Normalize("/definitions/" + t) == "/$defs/" + Normalize(t)
  {
    assert ("/definitions/" + t)[13..] == t;
  }

  lemma {:induction false} LegacyNormalizes(names: seq<string>)
    requires AllSlashFree(names)
    ensures Normalize(LegacyPath(names)) == Join(AllSegments(DefPlace(names)))
  {
    if names != [] {
      hide Normalize, Join, DefPlace, AllSegments;
      var rest := LegacyPath(names[1..]);
      LegacyNormalizes(names[1..]);
      NormalizeFront(names[0] + rest);
      assert LegacyPath(names) == "/definitions/" + (names[0] + rest);
      SkipPlain(names[0], rest);
      DefJoin(names);
    }
  }

  /** A legacy reference to a definition is looked up under the definition's pointer, however deep it is nested. */
  lemma LegacyLookedUp(names: seq<string>)
    requires AllSlashFree(names)
    ensures Normalize("#" + LegacyPath(names)) == Pointer(DefPlace(names))
  {
    SkipPlain("#", LegacyPath(names));
    LegacyNormalizes(names);
  }

  // ---- the escapes of section 3 of RFC 6901 ----

  /** A name as a JSON pointer spells it: `~` as `~0`, `/` as `~1`. */
  function Escape(name: string): string {
    if name == [] then []
    else (if name[0] == '~' then "~0" else if name[0] == '/' then "~1" else [name[0]]) + Escape(name[1..])
  }

  function EscapeHop(h: Hop): Hop {
    if h.Named? then Named(h.word, Escape(h.name)) else h
  }

  /** The place whose raw pointer is the escaped pointer of the given one. */
  function EscapedPlace(place: Place): (r: Place)
    ensures |r| == |place|
  {
    seq(|place|, i requires 0 <= i < |place| => EscapeHop(place[i]))
  }

  /** Escaping leaves no slash, and changes exactly the names that hold a tilde or a slash. */
  lemma {:induction false} EscapeMeans(name: string)
    ensures SlashFree(Escape(name)) && |Escape(name)| >= |name|
    ensures Escape(name) == name <==> '~' !in name && '/' !in name
  {
    if name != [] {
      EscapeMeans(name[1..]);
      assert name == [name[0]] + name[1..];
      if name[0] == '~' || name[0] == '/' {
        assert |Escape(name)| > |name|;
      }
    }
  }

  predicate Untouched(place: Place) {
    forall i :: 0 <= i < |place| && place[i].Named? ==> '~' !in place[i].name && '/' !in place[i].name
  }

  lemma HopEscapes(h: Hop)
    requires Fits(h)
    ensures var e := EscapeHop(h);
            && Fits(e) && (e.Named? ==> SlashFree(e.name))
            && (e == h <==> (h.Named? ==> '~' !in h.name && '/' !in h.name))
            && (e.Named? && e.name == LEGACY ==> h.Named? && h.name == LEGACY)
  {
    hide Escape, SlashFree;
    if h.Named? {
      EscapeMeans(h.name);
      EscapeBack(h.name);
    }
  }

  lemma EscapedPlaceMeans(place: Place)
    requires AllFit(place)
    ensures AllFit(EscapedPlace(place)) && Plain(EscapedPlace(place))
    ensures EscapedPlace(place) == place <==> Untouched(place)
    ensures Crosses(EscapedPlace(place)) ==> Crosses(place)
  {
    hide EscapeHop, SlashFree, Fits;
    var e := EscapedPlace(place);
    forall i | 0 <= i < |place|
      ensures Fits(e[i]) && (e[i].Named? ==> SlashFree(e[i].name))
      ensures e[i] == place[i] <==> (place[i].Named? ==> '~' !in place[i].name && '/' !in place[i].name)
      ensures e[i].Named? && e[i].name == LEGACY ==> place[i].Named? && place[i].name == LEGACY
    {
      assert Fits(place[i]) && e[i] == EscapeHop(place[i]);
      HopEscapes(place[i]);
    }
    if e == place {
      forall i | 0 <= i < |place| && place[i].Named? ensures '~' !in place[i].name && '/' !in place[i].name {
        assert e[i] == place[i];
      }
    }
    if Crosses(e) {
      var i :| 0 <= i < |e| - 1 && e[i].Named? && e[i].name == LEGACY;
      assert place[i].Named? && place[i].name == LEGACY;
    }
  }

  /** Only the legacy keyword itself escapes to it. */
  lemma EscapeBack(name: string)
    ensures Escape(name) == LEGACY ==> name == LEGACY
  {
    if Escape(name) == LEGACY {
      TildeStays(name);
      assert '~' !in LEGACY;
      EscapeMeans(name);
    }
  }

  lemma {:induction false} TildeStays(name: string)
    ensures '~' in name || '/' in name ==> '~' in Escape(name)
  {
    if name != [] {
      TildeStays(name[1..]);
      assert name == [name[0]] + name[1..];
    }
  }

  // ---- tildes ----

  predicate Tilded(place: Place) {
    exists i :: 0 <= i < |place| && place[i].Named? && '~' in place[i].name
  }

  lemma WordHasNoTilde(w: Keyword)
    ensures '~' !in Word(w)
  {
  }

  lemma {:induction false} SegmentsTilde(place: Place)
    ensures '~' in Join(AllSegments(place)) <==> Tilded(place)
  {
    if place != [] {
      hide Word, Digits;
      var h, rest := place[0], place[1..];
      SegmentsTilde(rest);
      WordHasNoTilde(h.word);
      JoinMore(Segments(h), AllSegments(rest));
      HopTilde(h);
      if Tilded(rest) {
        var i :| 0 <= i < |rest| && rest[i].Named? && '~' in rest[i].name;
        assert place[i + 1] == rest[i];
      }
      if Tilded(place) && !(h.Named? && '~' in h.name) {
        var i :| 0 <= i < |place| && place[i].Named? && '~' in place[i].name;
        assert rest[i - 1] == place[i];
      }
    }
  }

  lemma HopTilde(h: Hop)
    ensures '~' in Join(Segments(h)) <==> h.Named? && '~' in h.name
  {
    hide Word, Digits;
    WordHasNoTilde(h.word);
    match h {
      case Named(w, name) => JoinTwo(Word(w), name);
      case Nth(w, i) =>
        JoinTwo(Word(w), Digits(i));
        assert forall c :: c in Digits(i) ==> IsDigit(c);
      case Only(w) => assert Join([Word(w)]) == "/" + Word(w) + [];
    }
  }

  /** A raw pointer holds a tilde exactly when a name on the way does. */
  lemma PointerTilde(place: Place)
    ensures '~' in Pointer(place) <==> Tilded(place)
  {
    SegmentsTilde(place);
  }

  lemma {:induction false} NormalizeTilde(s: string)
    ensures '~' in s ==> '~' in Normalize(s)
  {
    if s != "" {
      if "/definitions/" <= s {
        NormalizeTilde(s[13..]);
        assert s == "/definitions/" + s[13..];
      } else {
        NormalizeTilde(s[1..]);
        assert s == [s[0]] + s[1..];
      }
    }
  }

  /** A place with something to escape is spelled with a tilde, and looked up with it. */
  lemma EscapesShow(place: Place)
    requires !Untouched(place)
    ensures '~' in Normalize(Pointer(EscapedPlace(place)))
  {
    hide Pointer, Normalize;
    var e := EscapedPlace(place);
    var i :| 0 <= i < |place| && place[i].Named? && ('~' in place[i].name || '/' in place[i].name);
    TildeStays(place[i].name);
    assert e[i].Named? && '~' in e[i].name;
    PointerTilde(e);
    NormalizeTilde(Pointer(e));
  }

  // ---- spelling ----

  lemma OneHop(h: Hop)
    ensures Pointer([h]) == "#" + Join(Segments(h))
  {
    hide Segments;
    assert [h][1..] == [] && AllSegments([]) == [] && AllSegments([h]) == Segments(h) + AllSegments([]);
    assert Segments(h) + [] == Segments(h);
  }

  lemma NamedSpelled(w: Keyword, x: string)
    ensures Pointer([Named(w, x)]) == "#/" + Word(w) + "/" + x
  {
    hide Word;
    OneHop(Named(w, x));
    JoinTwo(Word(w), x);
  }

  lemma NthSpelled(w: Keyword, i: nat)
    ensures Pointer([Nth(w, i)]) == "#/" + Word(w) + "/" + Digits(i)
  {
    hide Word, Digits;
    OneHop(Nth(w, i));
    JoinTwo(Word(w), Digits(i));
  }

  lemma OnlySpelled(w: Keyword)
    ensures Pointer([Only(w)]) == "#/" + Word(w)
  {
    hide Word;
    OneHop(Only(w));
    assert [Word(w)][1..] == [];
  }

  /** The pointers of places one step down, as they are written. */
  lemma PointersSpelled(name: string, i: nat)
    ensures Pointer([Named(Defs, name)]) == "#/" + "$defs" + "/" + name
    ensures Pointer([Named(Properties, name)]) == "#/" + "properties" + "/" + name
    ensures Pointer([Named(Patterns, name)]) == "#/" + "patternProperties" + "/" + name
    ensures Pointer([Only(Items)]) == "#/" + "items" && Pointer([Only(AdditionalItems)]) == "#/" + "additionalItems"
    ensures Pointer([Only(Additional)]) == "#/" + "additionalProperties" && Pointer([Only(Not)]) == "#/" + "not"
    ensures Pointer([Nth(AllOf, i)]) == "#/" + "allOf" + "/" + Digits(i)
    ensures Pointer([Nth(AnyOf, i)]) == "#/" + "anyOf" + "/" + Digits(i)
    ensures Pointer([Nth(OneOf, i)]) == "#/" + "oneOf" + "/" + Digits(i)
  {
    hide Pointer, Digits;
    NamedSpelled(Defs, name);
    NamedSpelled(Properties, name);
    NamedSpelled(Patterns, name);
    OnlySpelled(Items);
    OnlySpelled(AdditionalItems);
    OnlySpelled(Additional);
    OnlySpelled(Not);
    NthSpelled(AllOf, i);
    NthSpelled(AnyOf, i);
    NthSpelled(OneOf, i);
  }

  /** And of places further down: each step adds its own spelling. */
  lemma PointerGoesOn(place: Place, h: Hop)
    ensures Pointer(place + [h]) == Pointer(place) + Pointer([h])[1..]
  {
    PointerMore(place, h);
    assert [] + [h] == [h];
    PointerMore([], h);
  }
}
