/** The encoder as it runs: a buffer, a depth, and a writer the buffer is flushed to in chunks (jqutil/encoder.go). */
module JsonEncoder {
  import opened Values
  import opened Ordering
  import opened Decimal
  import opened JsonString
  import opened JsonText
  import opened Utf8

  /** The destination. Each call is accepted whole, or fails after taking some bytes. */
  class Writer {
    var written: string
    var calls: nat
    const failure: nat -> Option<nat>

    constructor (failure: nat -> Option<nat>)
      ensures written == [] && calls == 0
    {
      written, calls, this.failure := [], 0, failure;
    }

    method Write(p: string) returns (ok: bool)
      modifies this
      ensures ok <==> failure(old(calls)).None?
      ensures if ok then written == old(written) + p else old(written) <= written <= old(written) + p
    {
      var taken := failure(calls);
      calls := calls + 1;
      ok := taken.None?;
      written := written + if ok then p else p[..if taken.value < |p| then taken.value else |p|];
    }
  }

  const CHUNK: nat := 8 * 1024

  class Encoder {
    const out: Writer?
    const layout: Layout
    var w: string
    var depth: int

    constructor (out: Writer?, layout: Layout)
      ensures this.out == out && this.layout == layout && w == [] && depth == 0
    {
      this.out, this.layout, w, depth := out, layout, [], 0;
    }

    /** Everything produced so far: what the writer has, then what waits in the buffer. */
    ghost function Emitted(): string
      reads this`w, out
    {
      (if out == null then [] else out.written) + w
    }

    method Put(s: string)
      modifies this`w
      ensures w == old(w) + s && Emitted() == old(Emitted()) + s
    {
      w := w + s;
    }

    /** flush: the buffer is emptied only once the writer has taken all of it. */
    method Flush() returns (ok: bool)
      modifies this`w, out
      ensures out == null ==> ok && w == old(w)
      ensures ok ==> Emitted() == old(Emitted()) && (out != null ==> w == [])
      ensures !ok ==> out != null && out.written <= old(Emitted())
    {
      if out == null { return true; }
      ok := out.Write(w);
      if ok { w := []; }
    }

    /** encodeString: stretches that need no escaping are copied in one go. */
    method EncodeString(s: string)
      modifies this`w
      ensures w == old(w) + Quoted(s) && Emitted() == old(Emitted()) + Quoted(s)
    {
      hide Escaped, Escape, RuneLen, Plain;
      ghost var all := old(w) + ['"'] + Escaped(s);
      w := w + ['"'];
      var start, i := 0, 0;
      assert s[0..] == s;
      while i < |s|
        invariant 0 <= start <= i <= |s|
        invariant w + s[start..i] + Escaped(s[i..]) == all
      {
        EscapedStep(s, i);
        ghost var (piece, n) := WriteOne(s[i..]);
        TakePiece(w, s[start..i], piece, Escaped(s[i + n..]), all);
        var b := s[i];
        if b as int < 0x80 {
          if Plain(b) {
            assert s[start..i] + [b] == s[start..i + 1];
            i := i + 1;
            continue;
          }
          CopyTo(s, start, i);
          w := w + Escape(b);
          i := i + 1;
          start := i;
          continue;
        }
        var size := RuneLen(s[i..]);
        if size == 0 {
          CopyTo(s, start, i);
          w := w + "\\ufffd";
          i := i + 1;
          start := i;
          continue;
        }
        assert s[start..i] + s[i..][..size] == s[start..i + size];
        i := i + size;
      }
      EscapedEnd(s);
      CopyTo(s, start, |s|);
      assert w == all;
      w := w + ['"'];
      assert w == old(w) + Quoted(s);
    }

    /** Writes the stretch waiting to be copied, if there is one. */
    method CopyTo(s: string, start: nat, i: nat)
      requires start <= i <= |s|
      modifies this`w
      ensures w == old(w) + s[start..i]
    {
      if start < i { w := w + s[start..i]; }
    }

    /**
     * writeIndentInternal: after one copy of the unit string, the buffer's own tail is doubled until enough is
     * written.
     */
    method WriteIndentInternal(n: nat, ghost unit: char, spaces: string)
      requires |spaces| > 0 && spaces == Repeat(unit, |spaces|)
      modifies this`w
      ensures w == old(w) + Repeat(unit, n)
    {
      var left, l := n, |spaces|;
      if left <= l {
        w := w + spaces[..left];
        return;
      }
      w := w + spaces;
      left := left - l;
      ghost var done := l;
      while left > 0
        invariant left >= 0 && done + left == n
        invariant left > 0 ==> 0 < l <= done
        invariant w == old(w) + Repeat(unit, done)
      {
        if left < l { l := left; }
        ghost var tail := w[|w| - l..];
        assert |w| - l >= |old(w)| && tail == Repeat(unit, l);
        w := w + w[|w| - l..];
        done := done + l;
        left, l := left - l, 2 * l;
      }
    }

    /** writeIndent: a line break, then the depth in tabs or spaces. */
    method WriteIndent()
      requires layout.indent != 0
      modifies this`w
      ensures w == old(w) + Gap(layout, depth) && Emitted() == old(Emitted()) + Gap(layout, depth)
    {
      w := w + ['\n'];
      if depth > 0 {
        if layout.tab {
          WriteIndentInternal(depth, '\t', "\t\t\t\t\t\t\t\t\t\t\t\t\t\t\t\t");
        } else {
          WriteIndentInternal(depth, ' ', "                                ");
        }
      }
      assert w == old(w) + Gap(layout, depth);
    }

    /** encode: one value, and a flush once the buffer has outgrown a chunk. */
    method Encode(v: Value) returns (ok: bool)
      modifies this, out
      ensures out == null ==> ok
      ensures ok ==> Emitted() == old(Emitted()) + Encoding(v, layout, old(depth)) && depth == old(depth)
      ensures ok && out != null ==> |w| <= CHUNK
      ensures !ok ==> out != null && out.written <= old(Emitted()) + Encoding(v, layout, old(depth))
      decreases v
    {
      hide Elements, Members, Gap, Quoted;
      match v {
        case Null => Put("null");
        case Bool(b) => if b { Put("true"); } else { Put("false"); }
        case Int(n) => Put(Numeral(n));
        case Str(s) => EncodeString(s);
        case Arr(_) =>
          ok := EncodeArray(v);
          if !ok { return; }
        case Obj(_) =>
          ok := EncodeObject(v);
          if !ok { return; }
      }
      if |w| > CHUNK {
        ok := Flush();
        return;
      }
      ok := true;
    }

    /** What separates an element or a member from the one before it. */
    method Separate(i: nat)
      modifies this`w
      ensures Emitted() == old(Emitted()) + Separator(layout, depth, i)
    {
      hide Gap, Emitted;
      NoGap(layout, depth);
      if i > 0 { Put(","); }
      if layout.indent != 0 { WriteIndent(); }
    }

    /** What follows the last element or member. */
    method Close(v: Value)
      requires v.Arr? || v.Obj?
      modifies this`w
      ensures Emitted() == old(Emitted()) + Closing(v, layout, depth)
    {
      hide Gap, Emitted;
      NoGap(layout, depth);
      if layout.indent != 0 && (if v.Arr? then |v.items| > 0 else |v.fields| > 0) { WriteIndent(); }
      Put(if v.Arr? then "]" else "}");
    }

    method EncodeArray(v: Value) returns (ok: bool)
      requires v.Arr?
      modifies this, out
      ensures out == null ==> ok
      ensures ok ==> Emitted() == old(Emitted()) + Encoding(v, layout, old(depth)) && depth == old(depth)
      ensures !ok ==> out != null && out.written <= old(Emitted()) + Encoding(v, layout, old(depth))
      decreases v, 0
    {
      hide Elements, Encoding, Emitted, Separator, Closing;
      ghost var inside, before := depth + layout.indent, Emitted();
      ghost var all, close := before + "[" + Elements(v, layout, inside, 0), Closing(v, layout, depth);
      ArrayAfter(v, layout, depth, before);
      Put("[");
      depth := depth + layout.indent;
      for i := 0 to |v.items|
        invariant depth == inside
        invariant Emitted() + Elements(v, layout, inside, i) == all
      {
        ElementsStep(v, layout, inside, i, Emitted(), all, close);
        Separate(i);
        ok := Encode(v.items[i]);
        if !ok { return; }
      }
      depth := depth - layout.indent;
      Close(v);
      ok := true;
    }

    method EncodeObject(v: Value) returns (ok: bool)
      requires v.Obj?
      modifies this, out
      ensures out == null ==> ok
      ensures ok ==> Emitted() == old(Emitted()) + Encoding(v, layout, old(depth)) && depth == old(depth)
      ensures !ok ==> out != null && out.written <= old(Emitted()) + Encoding(v, layout, old(depth))
      decreases v, 0
    {
      hide Members, Encoding, Emitted, Separator, Name, Closing, Sorted;
      ghost var inside, before := depth + layout.indent, Emitted();
      Put("{");
      depth := depth + layout.indent;
      var keys := SortedKeys(v.fields.Keys);
      ghost var all, close := before + "{" + Members(v, keys, layout, inside, 0), Closing(v, layout, old(depth));
      ObjectAfter(v, keys, layout, old(depth), before);
      for i := 0 to |keys|
        invariant depth == inside
        invariant Emitted() + Members(v, keys, layout, inside, i) == all
      {
        MembersStep(v, keys, layout, inside, i, Emitted(), all, close);
        Separate(i);
        EncodeName(keys[i]);
        ok := Encode(v.fields[keys[i]]);
        if !ok { return; }
      }
      depth := depth - layout.indent;
      Close(v);
      ok := true;
    }

    /** The name of a member and the colon behind it. */
    method EncodeName(key: string)
      modifies this`w
      ensures Emitted() == old(Emitted()) + Name(layout, key)
    {
      hide Emitted, Quoted;
      EncodeString(key);
      Put(":");
      if layout.indent != 0 { Put(" "); }
    }
  }

  lemma EscapedStep(s: string, i: nat)
    requires i < |s|
    ensures var (one, n) := WriteOne(s[i..]);
            Escaped(s[i..]) == one + Escaped(s[i + n..])
  {
    assert s[i..][WriteOne(s[i..]).1..] == s[i + WriteOne(s[i..]).1..];
  }

  lemma TakePiece(w: string, waiting: string, piece: string, rest: string, all: string)
    requires w + waiting + (piece + rest) == all
    ensures w + (waiting + piece) + rest == all
    ensures (w + waiting + piece) + [] + rest == all
  {
  }

  lemma EscapedEnd(s: string)
    ensures Escaped(s[|s|..]) == []
  {
  }

  /** What comes after the last element or member. */
  ghost function Closing(v: Value, l: Layout, depth: int): (s: string)
    requires v.Arr? || v.Obj?
  {
    var empty := if v.Arr? then v.items == [] else v.fields == map[];
    (if empty then [] else Gap(l, depth)) + (if v.Arr? then "]" else "}")
  }

  lemma ArrayAfter(v: Value, l: Layout, depth: int, before: string)
    requires v.Arr?
    ensures before + Encoding(v, l, depth) == before + "[" + Elements(v, l, depth + l.indent, 0) + Closing(v, l, depth)
    ensures Elements(v, l, depth + l.indent, |v.items|) == []
    ensures l.indent == 0 ==> Gap(l, depth) == []
  {
    hide Encoding, Elements, Gap;
    ArrayForm(v, l, depth);
    NoMoreElements(v, l, depth + l.indent);
    NoGap(l, depth);
    Bracket(before, "[", Elements(v, l, depth + l.indent, 0), if v.items == [] then [] else Gap(l, depth), "]");
  }

  lemma NoMoreElements(v: Value, l: Layout, depth: int)
    requires v.Arr?
    ensures Elements(v, l, depth, |v.items|) == []
  {
  }

  function Separator(l: Layout, depth: int, i: nat): (s: string) {
    Comma(i) + Gap(l, depth)
  }

  function Name(l: Layout, key: string): (s: string) {
    Quoted(key) + Colon(l)
  }

  /** One more element brings the text one element closer to the whole, and never past it. */
  lemma ElementsStep(v: Value, l: Layout, depth: int, i: nat, sofar: string, all: string, close: string)
    requires v.Arr? && i < |v.items| && sofar + Elements(v, l, depth, i) == all
    ensures var next := sofar + Separator(l, depth, i) + Encoding(v.items[i], l, depth);
            next + Elements(v, l, depth, i + 1) == all && next <= all + close
  {
    hide Encoding, Gap, Comma;
    Extend(sofar, Comma(i), Gap(l, depth), Encoding(v.items[i], l, depth), Elements(v, l, depth, i + 1), close);
  }

  lemma Extend(sofar: string, comma: string, gap: string, text: string, rest: string, close: string)
    ensures var all, next := sofar + (comma + (gap + text + rest)), sofar + (comma + gap) + text;
            next + rest == all && next <= all + close
  {
  }

  lemma ObjectAfter(v: Value, keys: seq<string>, l: Layout, depth: int, before: string)
    requires v.Obj? && keys == Sorted(v.fields.Keys)
    ensures before + Encoding(v, l, depth)
            == before + "{" + Members(v, keys, l, depth + l.indent, 0) + Closing(v, l, depth)
    ensures Members(v, keys, l, depth + l.indent, |keys|) == []
    ensures l.indent == 0 ==> Gap(l, depth) == []
  {
    hide Encoding, Members, Gap, Sorted;
    ObjectForm(v, l, depth);
    NoMoreMembers(v, keys, l, depth + l.indent);
    NoGap(l, depth);
    var gap := if v.fields == map[] then [] else Gap(l, depth);
    Bracket(before, "{", Members(v, keys, l, depth + l.indent, 0), gap, "}");
  }

  lemma NoGap(l: Layout, depth: int)
    ensures l.indent == 0 ==> Gap(l, depth) == []
  {
  }

  lemma Bracket(before: string, open: string, inner: string, gap: string, close: string)
    ensures before + (open + inner + gap + close) == before + open + inner + (gap + close)
  {
  }

  lemma NoMoreMembers(v: Value, keys: seq<string>, l: Layout, depth: int)
    requires v.Obj? && forall k :: k in keys ==> k in v.fields
    ensures Members(v, keys, l, depth, |keys|) == []
  {
  }

  /** One more member brings the text one member closer to the whole, and never past it. */
  lemma MembersStep(v: Value, keys: seq<string>, l: Layout, depth: int, i: nat, sofar: string, all: string,
                    close: string)
    requires v.Obj? && (forall k :: k in keys ==> k in v.fields)
    requires i < |keys| && sofar + Members(v, keys, l, depth, i) == all
    ensures var next := sofar + Separator(l, depth, i) + Name(l, keys[i]) + Encoding(v.fields[keys[i]], l, depth);
            next + Members(v, keys, l, depth, i + 1) == all && next <= all + close
  {
    hide Encoding, Gap, Comma, Quoted, Colon;
    var text, rest := Encoding(v.fields[keys[i]], l, depth), Members(v, keys, l, depth, i + 1);
    Extend(sofar, Comma(i), Gap(l, depth), Name(l, keys[i]) + text, rest, close);
    Group(Gap(l, depth), Quoted(keys[i]), Colon(l), text, rest);
    assert sofar + Separator(l, depth, i) + Name(l, keys[i]) + text
           == sofar + Separator(l, depth, i) + (Name(l, keys[i]) + text);
  }

  lemma Group(gap: string, name: string, colon: string, text: string, rest: string)
    ensures gap + name + colon + text + rest == gap + ((name + colon) + text) + rest
  {
  }
}
