/** Reading what the encoder writes gives the value back, in every layout, exactly when its strings are UTF-8. */
module JsonRoundTrip {
  import opened Values
  import opened Ordering
  import opened Decimal
  import opened JsonString
  import opened JsonText
  import Utf8

  /** Every string and every member name is valid UTF-8. */
  predicate Clean(v: Value) {
    match v
    case Str(s) => Utf8.Valid(s)
    case Arr(items) => forall i :: 0 <= i < |items| ==> Clean(items[i])
    case Obj(fields) => forall k :: k in fields ==> Utf8.Valid(k) && Clean(fields[k])
    case _ => true
  }

  // ---- space and numbers ----

  lemma {:induction false} SkipRepeat(c: char, n: nat, rest: string)
    requires Space(c)
    ensures Skip(Repeat(c, n) + rest) == Skip(rest)
  {
    if n == 0 {
      assert Repeat(c, 0) + rest == rest;
    } else {
      SkipRepeat(c, n - 1, rest);
      assert (Repeat(c, n) + rest)[1..] == Repeat(c, n - 1) + rest;
    }
  }

  lemma SkipGap(l: Layout, depth: int, rest: string)
    ensures Skip(Gap(l, depth) + rest) == Skip(rest)
  {
    if l.indent == 0 {
      assert Gap(l, depth) + rest == rest;
    } else {
      var n := if depth > 0 then depth else 0;
      SkipRepeat(Unit(l), n, rest);
      assert (Gap(l, depth) + rest)[1..] == Repeat(Unit(l), n) + rest;
    }
  }

  lemma ReadSkips(s: string, t: string)
    requires Skip(s) == Skip(t)
    ensures Read(s) == Read(t)
  {
  }

  lemma DigitsReadBack(n: nat, rest: string)
    requires Stops(rest)
    ensures var t := Digits(n) + rest;
            && ReadDigits(t[1..], DigitValue(t[0])) == (n, rest)
            && (t[0] == '0' ==> t[1..] == rest)
  {
    var t := Digits(n) + rest;
    ReadsBack(n, rest);
    assert t[0] == Digits(n)[0];
    assert ReadDigits(t, 0) == ReadDigits(t[1..], DigitValue(t[0]));
  }

  lemma IntReadsBack(n: int, rest: string)
    requires Stops(rest)
    ensures ReadInt(Numeral(n) + rest) == Some((Int(n), rest))
  {
    hide Digits, ReadDigits, DigitValue;
    var m: nat := if n < 0 then -n else n;
    var t := Digits(m) + rest;
    DigitsReadBack(m, rest);
    assert t[0] == Digits(m)[0];
    if n < 0 { assert (Numeral(n) + rest)[1..] == t; }
  }

  /** No value starts with space, a closing bracket or a comma. */
  lemma EncodingStarts(v: Value, l: Layout, depth: int)
    ensures var s := Encoding(v, l, depth);
            s != [] && !Space(s[0]) && s[0] != ']' && s[0] != '}'
  {
  }

  // ---- arrays ----

  /** Reading one value and then the text after it, at any position of an array. */
  lemma {:induction false} ElementsReadBack(v: Value, l: Layout, depth: int, i: nat, end: string, rest: string)
    requires v.Arr? && Clean(v) && i < |v.items| && Stops(end) && Skip(end) == "]" + rest
    ensures ReadElements(Gap(l, depth) + Encoding(v.items[i], l, depth) + Elements(v, l, depth, i + 1) + end)
            == Some((v.items[i..], rest))
    decreases v, |v.items| - i
  {
    hide Read, Encoding, Skip, Gap;
    var text := Encoding(v.items[i], l, depth);
    var tail := Elements(v, l, depth, i + 1) + end;
    var s := Gap(l, depth) + text + Elements(v, l, depth, i + 1) + end;
    assert s == Gap(l, depth) + (text + tail);
    SkipGap(l, depth, text + tail);
    ReadSkips(s, text + tail);
    if i + 1 == |v.items| {
      assert tail == end;
      ValueReadsBack(v.items[i], l, depth, tail);
      assert ("]" + rest)[1..] == rest;
      assert v.items[i..] == [v.items[i]];
    } else {
      var more := Gap(l, depth) + Encoding(v.items[i + 1], l, depth) + Elements(v, l, depth, i + 2) + end;
      assert tail == "," + more;
      CommaStands(more);
      ValueReadsBack(v.items[i], l, depth, tail);
      ElementsReadBack(v, l, depth, i + 1, end, rest);
      assert v.items[i..] == [v.items[i]] + v.items[i + 1..];
    }
  }

  lemma CommaStands(more: string)
    ensures Stops("," + more) && Skip("," + more) == "," + more && ("," + more)[1..] == more
  {
  }

  /** A closing bracket behind a gap. */
  lemma CloseStands(l: Layout, depth: int, bracket: char, rest: string)
    requires bracket == ']' || bracket == '}'
    ensures var end := Gap(l, depth) + [bracket] + rest; Stops(end) && Skip(end) == [bracket] + rest
  {
    SkipGap(l, depth, [bracket] + rest);
    assert Gap(l, depth) + [bracket] + rest == Gap(l, depth) + ([bracket] + rest);
  }

  lemma {:induction false} ArrayReadsBack(v: Value, l: Layout, depth: int, rest: string)
    requires v.Arr? && Clean(v)
    ensures Read(Encoding(v, l, depth) + rest) == Some((v, rest))
    decreases v, |v.items| + 1
  {
    hide Clean, Stops, Read, ReadElements, Skip, Elements, Gap;
    if v.items == [] {
      EmptyReadsBack(rest);
      assert Encoding(v, l, depth) + rest == "[" + ("]" + rest) by { NoElements(v, l, depth + l.indent); }
    } else {
      var inside, end := depth + l.indent, Gap(l, depth) + "]" + rest;
      var tail := Elements(v, l, inside, 1) + end;
      var inner := Gap(l, inside) + Encoding(v.items[0], l, inside) + Elements(v, l, inside, 1) + end;
      CloseStands(l, depth, ']', rest);
      ElementsReadBack(v, l, inside, 0, end, rest);
      assert inner == Gap(l, inside) + Encoding(v.items[0], l, inside) + tail;
      ArrayOpens(v, l, inside, tail, inner);
      assert v.items[0..] == v.items;
      ReadArray(inner, v.items, rest);
      ArrayText(v, l, depth, inner, rest);
    }
  }

  lemma ArrayText(v: Value, l: Layout, depth: int, inner: string, rest: string)
    requires v.Arr? && v.items != []
    requires var inside := depth + l.indent;
             inner == Gap(l, inside) + Encoding(v.items[0], l, inside) + Elements(v, l, inside, 1) + (Gap(l, depth)
                 + "]" + rest)
    ensures Encoding(v, l, depth) + rest == "[" + inner
  {
    hide Gap, Encoding, Elements;
    var inside := depth + l.indent;
    ArrayForm(v, l, depth);
    ElementsForm(v, l, inside);
    Regroup("[", Gap(l, inside) + Encoding(v.items[0], l, inside)
        + Elements(v, l, inside, 1), Gap(l, depth), "]", rest);
  }

  lemma Regroup(open: string, inner: string, gap: string, close: string, rest: string)
    ensures open + inner + gap + close + rest == open + (inner + (gap + close + rest))
  {
  }

  lemma ElementsForm(v: Value, l: Layout, depth: int)
    requires v.Arr? && v.items != []
    ensures Elements(v, l, depth, 0) == Gap(l, depth) + Encoding(v.items[0], l, depth) + Elements(v, l, depth, 1)
  {
    hide Encoding, Gap;
  }

  lemma NoElements(v: Value, l: Layout, depth: int)
    requires v.Arr? && v.items == []
    ensures Elements(v, l, depth, 0) == []
  {
  }

  lemma EmptyReadsBack(rest: string)
    ensures Read("[" + ("]" + rest)) == Some((Value.Arr([]), rest))
    ensures Read("{" + ("}" + rest)) == Some((Value.Obj(map[]), rest))
  {
    hide ReadElements, ReadMembers;
    assert ("[" + ("]" + rest))[1..] == "]" + rest && ("]" + rest)[1..] == rest;
    assert ("{" + ("}" + rest))[1..] == "}" + rest && ("}" + rest)[1..] == rest;
  }

  lemma ReadArray(inner: string, items: seq<Value>, rest: string)
    requires Skip(inner) != [] && Skip(inner)[0] != ']' && ReadElements(inner) == Some((items, rest))
    ensures Read("[" + inner) == Some((Value.Arr(items), rest))
  {
    hide ReadElements, ReadMembers;
    assert ("[" + inner)[1..] == inner;
  }

  lemma ArrayOpens(v: Value, l: Layout, depth: int, tail: string, inner: string)
    requires v.Arr? && v.items != [] && inner == Gap(l, depth) + Encoding(v.items[0], l, depth) + tail
    ensures Skip(inner) != [] && Skip(inner)[0] != ']'
  {
    var text := Encoding(v.items[0], l, depth) + tail;
    EncodingStarts(v.items[0], l, depth);
    assert inner == Gap(l, depth) + text;
    SkipGap(l, depth, text);
  }

  // ---- objects ----

  /** The members with the given names. */
  ghost function Part(fields: map<string, Value>, keys: seq<string>): map<string, Value> {
    map k | k in keys && k in fields :: fields[k]
  }

  lemma PartFirst(fields: map<string, Value>, keys: seq<string>, i: nat)
    requires Increasing(keys) && i < |keys| && keys[i] in fields
    ensures keys[i] !in Part(fields, keys[i + 1..])
    ensures Part(fields, keys[i..]) == Part(fields, keys[i + 1..])[keys[i] := fields[keys[i]]]
  {
    forall j | i < j < |keys| ensures keys[j] != keys[i] { LessTrichotomy(keys[i], keys[j]); }
    assert keys[i..] == [keys[i]] + keys[i + 1..];
  }

  /** The space after a colon. */
  function Pad(l: Layout): (s: string) {
    if l.indent == 0 then "" else " "
  }

  lemma NameReadsBack(k: string, l: Layout, depth: int, tail: string)
    requires Utf8.Valid(k)
    ensures ReadName(Gap(l, depth) + Quoted(k) + Colon(l) + tail) == Some((k, Pad(l) + tail))
    ensures Read(Pad(l) + tail) == Read(tail)
  {
    hide Gap, Escaped, ReadString, Read;
    var more := ":" + (Pad(l) + tail);
    var s := Escaped(k) + ['"'] + more;
    assert Gap(l, depth) + Quoted(k) + Colon(l) + tail == Gap(l, depth) + (['"'] + s);
    SkipGap(l, depth, ['"'] + s);
    assert (['"'] + s)[1..] == s;
    StringReadsBack(k, more);
    Utf8.SanitizeIff(k);
    assert more[1..] == Pad(l) + tail;
    PadSkips(l, tail);
  }

  lemma PadSkips(l: Layout, tail: string)
    ensures Read(Pad(l) + tail) == Read(tail)
  {
    assert if l.indent == 0 then Pad(l) + tail == tail else (Pad(l) + tail)[1..] == tail;
    ReadSkips(Pad(l) + tail, tail);
  }

  /** One more member, and then whatever the reader makes of the rest. */
  lemma MemberReadsBack(k: string, v: Value, l: Layout, depth: int, tail: string)
    requires Utf8.Valid(k) && Read(Encoding(v, l, depth) + tail) == Some((v, tail))
    ensures var s := Gap(l, depth) + Quoted(k) + Colon(l) + Encoding(v, l, depth) + tail;
            && ReadName(s).Some? && ReadName(s).value.0 == k
            && Read(ReadName(s).value.1) == Some((v, tail))
  {
    hide Read, ReadName, Gap, Quoted, Colon, Encoding;
    var text := Encoding(v, l, depth);
    NameReadsBack(k, l, depth, text + tail);
    assert Gap(l, depth) + Quoted(k) + Colon(l) + text + tail == Gap(l, depth) + Quoted(k) + Colon(l) + (text + tail);
  }

  lemma {:induction false} MembersReadBack(v: Value, keys: seq<string>, l: Layout, depth: int, i: nat, end: string,
                                        rest: string)
    requires v.Obj? && Clean(v) && Increasing(keys) && (forall k :: k in keys ==> k in v.fields) && i < |keys|
    requires Stops(end) && Skip(end) == "}" + rest
    ensures ReadMembers(Gap(l, depth) + Quoted(keys[i]) + Colon(l) + Encoding(v.fields[keys[i]], l, depth)
            + Members(v, keys, l, depth, i + 1) + end)
            == Some((Part(v.fields, keys[i..]), rest))
    decreases v, |keys| - i
  {
    hide Read, ReadName, Encoding, Skip, Gap, Quoted, Colon, Increasing, Part;
    var k := keys[i];
    var head := Gap(l, depth) + Quoted(k) + Colon(l) + Encoding(v.fields[k], l, depth);
    var tail := Members(v, keys, l, depth, i + 1) + end;
    assert head + Members(v, keys, l, depth, i + 1) + end == head + tail;
    PartFirst(v.fields, keys, i);
    if i + 1 == |keys| {
      assert tail == end;
      ValueReadsBack(v.fields[k], l, depth, tail);
      MemberReadsBack(k, v.fields[k], l, depth, tail);
      assert ("}" + rest)[1..] == rest;
      assert Part(v.fields, keys[i + 1..]) == map[] by { NoPart(v.fields, keys[i + 1..]); }
    } else {
      var next := keys[i + 1];
      var more := Gap(l, depth) + Quoted(next) + Colon(l) + Encoding(v.fields[next], l, depth)
          + Members(v, keys, l, depth, i + 2) + end;
      assert tail == "," + more;
      CommaStands(more);
      ValueReadsBack(v.fields[k], l, depth, tail);
      MemberReadsBack(k, v.fields[k], l, depth, tail);
      MembersReadBack(v, keys, l, depth, i + 1, end, rest);
    }
  }

  lemma NoPart(fields: map<string, Value>, keys: seq<string>)
    requires keys == []
    ensures Part(fields, keys) == map[]
  {
  }

  lemma {:induction false} ObjectReadsBack(v: Value, l: Layout, depth: int, rest: string)
    requires v.Obj? && Clean(v)
    ensures Read(Encoding(v, l, depth) + rest) == Some((v, rest))
    decreases v, |Sorted(v.fields.Keys)| + 1
  {
    hide Clean, Stops, Read, ReadMembers, Skip, Members, Gap, Quoted, Colon, Increasing, Part, Encoding;
    var keys := Sorted(v.fields.Keys);
    if v.fields == map[] {
      EmptyReadsBack(rest);
      EmptyObject(v, l, depth);
      assert "{}" + rest == "{" + ("}" + rest);
    } else {
      SomeKey(v.fields);
      var inside, end := depth + l.indent, Gap(l, depth) + "}" + rest;
      var first := v.fields[keys[0]];
      var inner := Gap(l, inside) + Quoted(keys[0]) + Colon(l) + Encoding(first, l, inside)
          + Members(v, keys, l, inside, 1) + end;
      CloseStands(l, depth, '}', rest);
      MembersReadBack(v, keys, l, inside, 0, end, rest);
      ObjectOpens(keys[0], l, inside, Encoding(first, l, inside) + Members(v, keys, l, inside, 1) + end, inner);
      AllPart(v.fields, keys);
      ReadObject(inner, v.fields, rest);
      ObjectText(v, keys, l, depth, inner, rest);
    }
  }

  lemma SomeKey(fields: map<string, Value>)
    requires fields != map[]
    ensures Sorted(fields.Keys) != []
  {
    var k :| k in fields;
    assert k in Sorted(fields.Keys);
  }

  lemma ObjectOpens(k: string, l: Layout, depth: int, tail: string, inner: string)
    requires inner == Gap(l, depth) + Quoted(k) + Colon(l) + tail
    ensures Skip(inner) != [] && Skip(inner)[0] == '"'
  {
    var text := Quoted(k) + Colon(l) + tail;
    assert inner == Gap(l, depth) + text;
    SkipGap(l, depth, text);
  }

  lemma ReadObject(inner: string, fields: map<string, Value>, rest: string)
    requires Skip(inner) != [] && Skip(inner)[0] != '}' && ReadMembers(inner) == Some((fields, rest))
    ensures Read("{" + inner) == Some((Value.Obj(fields), rest))
  {
    hide ReadElements, ReadMembers;
    assert ("{" + inner)[1..] == inner;
  }

  lemma ObjectText(v: Value, keys: seq<string>, l: Layout, depth: int, inner: string, rest: string)
    requires v.Obj? && v.fields != map[] && keys == Sorted(v.fields.Keys) && keys != []
    requires var inside := depth + l.indent;
             inner == Gap(l, inside) + Quoted(keys[0]) + Colon(l) + Encoding(v.fields[keys[0]], l, inside)
                 + Members(v, keys, l, inside, 1)
                      + (Gap(l, depth) + "}" + rest)
    ensures Encoding(v, l, depth) + rest == "{" + inner
  {
    hide Gap, Encoding, Members, Quoted, Colon, Sorted;
    var inside := depth + l.indent;
    ObjectForm(v, l, depth);
    MembersForm(v, keys, l, inside);
    Regroup("{", Members(v, keys, l, inside, 0), Gap(l, depth), "}", rest);
  }

  lemma MembersForm(v: Value, keys: seq<string>, l: Layout, depth: int)
    requires v.Obj? && keys != [] && forall k :: k in keys ==> k in v.fields
    ensures Members(v, keys, l, depth, 0)
            == Gap(l, depth) + Quoted(keys[0]) + Colon(l) + Encoding(v.fields[keys[0]], l, depth)
                + Members(v, keys, l, depth, 1)
  {
    hide Encoding, Gap, Quoted, Colon;
  }

  lemma EmptyObject(v: Value, l: Layout, depth: int)
    requires v.Obj? && v.fields == map[]
    ensures Encoding(v, l, depth) == "{}"
  {
    assert v.fields.Keys == {};
  }

  lemma AllPart(fields: map<string, Value>, keys: seq<string>)
    requires forall k :: k in keys <==> k in fields
    ensures Part(fields, keys[0..]) == fields
  {
  }

  // ---- the whole ----

  lemma ScalarReadsBack(v: Value, l: Layout, depth: int, rest: string)
    requires Clean(v) && Stops(rest) && !v.Arr? && !v.Obj?
    ensures Read(Encoding(v, l, depth) + rest) == Some((v, rest))
  {
    hide ReadInt, ReadString, Escaped, ReadElements, ReadMembers;
    var s := Encoding(v, l, depth) + rest;
    EncodingStarts(v, l, depth);
    match v {
      case Str(str) =>
        assert s[1..] == Escaped(str) + ['"'] + rest;
        StringReadsBack(str, rest);
        Utf8.SanitizeIff(str);
      case Int(n) => IntReadsBack(n, rest);
      case Null => assert s[4..] == rest;
      case Bool(b) => assert s[if b then 4 else 5..] == rest;
    }
  }

  /** Every value is read back, and the reader stops exactly where it ends. */
  lemma {:induction false} ValueReadsBack(v: Value, l: Layout, depth: int, rest: string)
    requires Clean(v) && Stops(rest)
    ensures Read(Encoding(v, l, depth) + rest) == Some((v, rest))
    decreases v, if v.Arr? then |v.items| + 2 else if v.Obj? then |Sorted(v.fields.Keys)| + 2 else 0
  {
    hide Clean, Read, Encoding;
    if v.Arr? {
      ArrayReadsBack(v, l, depth, rest);
    } else if v.Obj? {
      ObjectReadsBack(v, l, depth, rest);
    } else {
      ScalarReadsBack(v, l, depth, rest);
    }
  }

  /** Whatever is read is clean: the reader takes nothing but UTF-8. */
  lemma {:induction false} ReadIsClean(s: string)
    ensures Read(s).Some? ==> Clean(Read(s).value.0)
    decreases |s|, 0
  {
    hide Skip, ReadString, ReadInt, ReadElements, ReadMembers;
    var t := Skip(s);
    if t != [] {
      ReadStringValid(t[1..]);
      ElementsAreClean(t[1..]);
      MembersAreClean(t[1..]);
      IntIsClean(t);
    }
  }

  lemma IntIsClean(s: string)
    ensures ReadInt(s).Some? ==> ReadInt(s).value.0.Int?
  {
    hide ReadDigits;
  }

  lemma {:induction false} ElementsAreClean(s: string)
    ensures ReadElements(s).Some? ==> forall i :: 0 <= i < |ReadElements(s).value.0| ==>
            Clean(ReadElements(s).value.0[i])
    decreases |s|, 1
  {
    hide Skip, Read, Clean;
    ReadIsClean(s);
    if Read(s).Some? {
      var t := Skip(Read(s).value.1);
      if t != [] { ElementsAreClean(t[1..]); }
    }
  }

  lemma NameIsValid(s: string)
    ensures ReadName(s).Some? ==> Utf8.Valid(ReadName(s).value.0)
  {
    hide Skip, ReadString;
    if Skip(s) != [] { ReadStringValid(Skip(s)[1..]); }
  }

  lemma {:induction false} MembersAreClean(s: string)
    ensures ReadMembers(s).Some? ==>
              forall k :: k in ReadMembers(s).value.0 ==> Utf8.Valid(k) && Clean(ReadMembers(s).value.0[k])
    decreases |s|, 1
  {
    hide Skip, Read, ReadName, Clean, Utf8.Valid;
    NameIsValid(s);
    var name := ReadName(s);
    if name.Some? {
      ReadIsClean(name.value.1);
      var first := Read(name.value.1);
      if first.Some? {
        var t := Skip(first.value.1);
        if t != [] { MembersAreClean(t[1..]); }
      }
    }
  }

  /** Encoding then parsing gives the value back in every layout, exactly when the value holds nothing but UTF-8. */
  lemma RoundTrip(v: Value, l: Layout)
    ensures Parse(Encoding(v, l, 0)) == Some(v) <==> Clean(v)
  {
    hide Encoding, Read, Clean;
    var s := Encoding(v, l, 0);
    ReadIsClean(s);
    assert s + [] == s;
    if Clean(v) { ValueReadsBack(v, l, 0, []); }
  }

  /** Two clean values never encode alike. */
  lemma EncodingInjective(v: Value, w: Value, l: Layout)
    requires Clean(v) && Clean(w) && Encoding(v, l, 0) == Encoding(w, l, 0)
    ensures v == w
  {
    hide Encoding, Parse, Clean;
    RoundTrip(v, l);
    RoundTrip(w, l);
  }
}
