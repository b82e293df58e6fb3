/** How the encoder's text looks: what is escaped and what is not, and what a layout adds (jqutil/encoder.go). */
module JsonLayout {
  import opened Ordering
  import opened Decimal
  import opened Utf8
  import opened JsonString
  import opened JsonText

  // ---- escapes ----

  /** A printable ASCII character that is neither a quote nor a backslash. */
  predicate Printable(c: char) {
    0x20 <= c as int < 0x7F && c as int != 0x22 && c as int != 0x5C
  }

  const SHORT := {'"', '\\', '\U{8}', '\U{C}', '\n', '\r', '\t'}

  /** The characters with a short escape are written with it, and no other is. */
  lemma ShortEscapes(c: char)
    requires c as int < 0x80
    ensures |Escape(c)| == 2 <==> c in SHORT
    ensures c !in SHORT ==> |Escape(c)| == 6 && Escape(c)[..4] == "\\u00"
    ensures forall x :: x in Escape(c) ==> Printable(x) || x in {'"', '\\'}
  {
  }

  /** What is written for the front of a string: itself, or something longer. */
  lemma WriteOneIs(s: string)
    requires s != []
    ensures var (w, n) := WriteOne(s);
            && |w| >= n
            && (w == s[..n] <==> RuneLen(s) == n && (s[0] as int < 0x80 ==> Printable(s[0])))
            && (w != s[..n] ==> |w| > n)
  {
    if s[0] as int < 0x80 {
      ShortEscapes(s[0]);
      assert s[..1] == [s[0]];
    }
  }

  /** Every byte of a code point of more than one byte is above the ASCII range. */
  lemma LongRune(s: string, i: nat)
    requires RuneLen(s) > 1 && i < RuneLen(s)
    ensures s[i] as int >= 0x80
  {
  }

  predicate AllPrintable(s: string) {
    forall c :: c in s && c as int < 0x80 ==> Printable(c)
  }

  lemma {:induction false} NeverShorter(s: string)
    ensures |Escaped(s)| >= |s|
    decreases |s|
  {
    if s != [] {
      WriteOneIs(s);
      NeverShorter(s[WriteOne(s).1..]);
    }
  }

  /** A string is written as itself exactly when it is valid UTF-8 and its ASCII characters are printable. */
  lemma {:induction false} WrittenAsItselfIff(s: string)
    ensures Escaped(s) == s <==> Valid(s) && AllPrintable(s)
    decreases |s|
  {
    hide WriteOne, RuneLen;
    if s != [] {
      var (w, n) := WriteOne(s);
      WriteOneIs(s);
      WrittenAsItselfIff(s[n..]);
      NeverShorter(s[n..]);
      assert s == s[..n] + s[n..];
      if w == s[..n] {
        FrontPrintable(s, n);
      } else {
        NotPrintable(s, n);
      }
    }
  }

  lemma FrontPrintable(s: string, n: nat)
    requires s != [] && n == RuneLen(s) > 0 && (s[0] as int < 0x80 ==> Printable(s[0]))
    ensures AllPrintable(s) <==> AllPrintable(s[n..])
    ensures Valid(s) <==> Valid(s[n..])
  {
    if n > 1 {
      forall i: nat | i < n ensures s[i] as int >= 0x80 { LongRune(s, i); }
    }
    assert s == s[..n] + s[n..];
  }

  lemma NotPrintable(s: string, n: nat)
    requires s != [] && n == WriteOne(s).1 && !(RuneLen(s) == n && (s[0] as int < 0x80 ==> Printable(s[0])))
    ensures !(Valid(s) && AllPrintable(s))
  {
    assert s[0] in s;
  }

  // ---- layouts ----

  /** A line break is followed by as many tabs, or as many spaces, as the depth says; a compact layout has none. */
  lemma IndentIs(tab: bool, indent: int, depth: nat)
    ensures indent != 0 ==> |Gap(Layout(tab, indent), depth)| == depth + 1
    ensures indent != 0 ==> Gap(Layout(tab, indent), depth)[0] as int == 10
    ensures indent != 0 ==> forall i :: 1 <= i <= depth ==>
              Gap(Layout(tab, indent), depth)[i] as int == if tab then 9 else 32
    ensures indent == 0 ==> Gap(Layout(tab, indent), depth) == []
  {
  }

  /** The text without its blanks. */
  function Dense(s: string): string {
    if s == [] then [] else (if Space(s[0]) then [] else [s[0]]) + Dense(s[1..])
  }

  lemma {:induction false} DenseJoin(a: string, b: string)
    ensures Dense(a + b) == Dense(a) + Dense(b)
    decreases |a|
  {
    if a == [] {
      assert a + b == b;
    } else {
      assert (a + b)[1..] == a[1..] + b;
      DenseJoin(a[1..], b);
    }
  }

  lemma {:induction false} NothingBlank(s: string)
    requires forall c :: c in s ==> !Space(c)
    ensures Dense(s) == s
  {
    if s != [] { NothingBlank(s[1..]); }
  }

  lemma {:induction false} AllBlank(s: string)
    requires forall c :: c in s ==> Space(c)
    ensures Dense(s) == []
  {
    if s != [] { AllBlank(s[1..]); }
  }

  predicate NoBlank(s: string) {
    ' ' !in s
  }

  /** No string and no name has a space in it; other blanks are escaped. */
  predicate Spaceless(v: Value) {
    match v
    case Str(s) => NoBlank(s)
    case Arr(items) => forall i :: 0 <= i < |items| ==> Spaceless(items[i])
    case Obj(fields) => forall k <- fields :: NoBlank(k) && Spaceless(fields[k])
    case _ => true
  }

  lemma WriteOneBlanks(s: string)
    requires s != [] && NoBlank(s)
    ensures forall c :: c in WriteOne(s).0 ==> !Space(c)
  {
    var n := WriteOne(s).1;
    if s[0] as int < 0x80 {
      ShortEscapes(s[0]);
      assert s[0] in s;
    } else if RuneLen(s) > 1 {
      forall c | c in s[..n] ensures !Space(c) {
        var i: nat :| i < n && s[i] == c;
        LongRune(s, i);
      }
    }
  }

  lemma {:induction false} EscapedBlanks(s: string)
    requires NoBlank(s)
    ensures forall c :: c in Escaped(s) ==> !Space(c)
    decreases |s|
  {
    hide WriteOne;
    if s != [] {
      WriteOneBlanks(s);
      EscapedBlanks(s[WriteOne(s).1..]);
    }
  }

  lemma QuotedDense(s: string)
    requires NoBlank(s)
    ensures Dense(Quoted(s)) == Quoted(s)
  {
    EscapedBlanks(s);
    NothingBlank(Quoted(s));
  }

  lemma GapDense(l: Layout, depth: int)
    ensures Dense(Gap(l, depth)) == [] && Dense(Colon(l)) == ":"
  {
    AllBlank(Gap(l, depth));
    if l.indent == 0 { NothingBlank(":"); } else { DenseJoin(":", " "); AllBlank(" "); NothingBlank(":"); }
  }

  /** The compact layout. */
  const COMPACT := Layout(false, 0)

  lemma Dense3(a: string, b: string, c: string)
    ensures Dense(a + b + c) == Dense(a) + Dense(b) + Dense(c)
  {
    DenseJoin(a + b, c);
    DenseJoin(a, b);
  }

  lemma CommaDense(i: nat)
    ensures Dense(Comma(i)) == Comma(i)
  {
    NothingBlank(Comma(i));
  }

  lemma {:induction false} ElementsDense(v: Value, l: Layout, depth: int, d: int, i: nat)
    requires v.Arr? && i <= |v.items| && Spaceless(v)
    ensures Dense(Elements(v, l, depth, i)) == Elements(v, COMPACT, d, i)
    decreases v, |v.items| - i
  {
    hide Encoding, Gap, Colon, Comma;
    if i < |v.items| {
      var text, rest := Encoding(v.items[i], l, depth), Elements(v, l, depth, i + 1);
      EncodingDense(v.items[i], l, depth, d);
      ElementsDense(v, l, depth, d, i + 1);
      GapDense(l, depth);
      CommaDense(i);
      DenseJoin(Comma(i), Gap(l, depth) + text + rest);
      Dense3(Gap(l, depth), text, rest);
      NoGap(d);
    }
  }

  lemma NoGap(depth: int)
    ensures Gap(COMPACT, depth) == [] && Colon(COMPACT) == ":"
  {
  }

  lemma {:induction false} MembersDense(v: Value, keys: seq<string>, l: Layout, depth: int, d: int, i: nat)
    requires v.Obj? && i <= |keys| && (forall k :: k in keys ==> k in v.fields) && Spaceless(v)
    ensures Dense(Members(v, keys, l, depth, i)) == Members(v, keys, COMPACT, d, i)
    decreases v, |keys| - i
  {
    hide Encoding, Gap, Colon, Comma, Quoted;
    if i < |keys| {
      var k := keys[i];
      var text, rest := Encoding(v.fields[k], l, depth), Members(v, keys, l, depth, i + 1);
      EncodingDense(v.fields[k], l, depth, d);
      MembersDense(v, keys, l, depth, d, i + 1);
      GapDense(l, depth);
      CommaDense(i);
      QuotedDense(k);
      DenseJoin(Comma(i), Gap(l, depth) + Quoted(k) + Colon(l) + text + rest);
      Dense3(Gap(l, depth) + Quoted(k) + Colon(l), text, rest);
      Dense3(Gap(l, depth), Quoted(k), Colon(l));
      NoGap(d);
    }
  }

  /** A layout adds blanks and nothing else: without them every encoding is the compact one. */
  lemma {:induction false} EncodingDense(v: Value, l: Layout, depth: int, d: int)
    requires Spaceless(v)
    ensures Dense(Encoding(v, l, depth)) == Encoding(v, COMPACT, d)
    decreases v
  {
    hide Elements, Members, Gap, Dense, Quoted, Numeral;
    match v {
      case Null => NothingBlank("null");
      case Bool(b) => NothingBlank(if b then "true" else "false");
      case Int(n) => NumeralDense(n);
      case Str(s) => QuotedDense(s);
      case Arr(items) =>
        ElementsDense(v, l, depth + l.indent, d, 0);
        ArrayDense(v, l, depth, d);
      case Obj(fields) =>
        MembersDense(v, Sorted(fields.Keys), l, depth + l.indent, d, 0);
        ObjectDense(v, l, depth, d);
    }
  }

  lemma ArrayDense(v: Value, l: Layout, depth: int, d: int)
    requires v.Arr? && Dense(Elements(v, l, depth + l.indent, 0)) == Elements(v, COMPACT, d, 0)
    ensures Dense(Encoding(v, l, depth)) == Encoding(v, COMPACT, d)
  {
    hide Encoding, Elements, Gap, Dense;
    ArrayForm(v, l, depth);
    ArrayForm(v, COMPACT, d);
    BracketDense("[", Elements(v, l, depth + l.indent, 0), l, depth, v.items == [], "]");
    NoGap(d);
  }

  lemma ObjectDense(v: Value, l: Layout, depth: int, d: int)
    requires v.Obj?
    requires var keys := Sorted(v.fields.Keys);
             Dense(Members(v, keys, l, depth + l.indent, 0)) == Members(v, keys, COMPACT, d, 0)
    ensures Dense(Encoding(v, l, depth)) == Encoding(v, COMPACT, d)
  {
    hide Encoding, Members, Gap, Dense, Sorted;
    ObjectForm(v, l, depth);
    ObjectForm(v, COMPACT, d);
    BracketDense("{", Members(v, Sorted(v.fields.Keys), l, depth + l.indent, 0), l, depth, v.fields == map[], "}");
    NoGap(d);
  }

  lemma NumeralDense(n: int)
    ensures Dense(Numeral(n)) == Numeral(n)
  {
    NothingBlank(Numeral(n));
  }

  lemma BracketDense(open: string, inner: string, l: Layout, depth: int, empty: bool, close: string)
    requires open in {"[", "{"} && close in {"]", "}"}
    ensures Dense(open + inner + (if empty then [] else Gap(l, depth)) + close) == open + Dense(inner) + close
  {
    var gap := if empty then [] else Gap(l, depth);
    GapDense(l, depth);
    NothingBlank(open);
    NothingBlank(close);
    Dense3(open + inner, gap, close);
    DenseJoin(open, inner);
  }
}
