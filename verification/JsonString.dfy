/** String literals: what the encoder writes (jqutil/encoder.go), and a reader for section 7 of RFC 8259 to undo it. */
module JsonString {
  import opened Values
  import opened Utf8

  // ---- writing ----

  predicate Plain(b: char) {
    ' ' <= b <= '~' && b != '"' && b != '\\'
  }

  function HexDigit(d: nat): (c: char)
    requires d < 16
    ensures HexValue(c) == Some(d)
  {
    if d < 10 then ('0' as int + d) as char else ('a' as int + (d - 10)) as char
  }

  /** An ASCII byte that cannot stand for itself. */
  function Escape(b: char): (s: string)
    requires b as int < 0x80
  {
    if b == '"' then "\\\""
    else if b == '\\' then "\\\\"
    else if b == '\U{8}' then "\\b"
    else if b == '\U{C}' then "\\f"
    else if b == '\n' then "\\n"
    else if b == '\r' then "\\r"
    else if b == '\t' then "\\t"
    else ['\\', 'u', '0', '0', HexDigit(b as int / 16), HexDigit(b as int % 16)]
  }

  /** What the code point, or the invalid byte, at the front is written as, and how many bytes it takes. */
  function WriteOne(s: string): (r: (string, nat))
    requires s != []
    ensures 0 < r.1 <= |s|
  {
    if s[0] as int < 0x80 then (if Plain(s[0]) then [s[0]] else Escape(s[0]), 1)
    else if RuneLen(s) == 0 then ("\\ufffd", 1)
    else (s[..RuneLen(s)], RuneLen(s))
  }

  function Escaped(s: string): (r: string)
    decreases |s|
  {
    if s == [] then [] else WriteOne(s).0 + Escaped(s[WriteOne(s).1..])
  }

  function Quoted(s: string): (r: string) {
    ['"'] + Escaped(s) + ['"']
  }

  // ---- reading ----

  function HexValue(c: char): (d: Option<nat>)
    ensures d.Some? ==> d.value < 16
  {
    if '0' <= c <= '9' then Some(c as int - '0' as int)
    else if 'a' <= c <= 'f' then Some(c as int - 'a' as int + 10)
    else if 'A' <= c <= 'F' then Some(c as int - 'A' as int + 10)
    else None
  }

  /** Four hexadecimal digits. */
  function Hex4(s: string): (r: Option<nat>)
    ensures r.Some? ==> |s| >= 4 && r.value < 0x10000
  {
    if |s| < 4 then None
    else
      var a, b, c, d := HexValue(s[0]), HexValue(s[1]), HexValue(s[2]), HexValue(s[3]);
      if a.None? || b.None? || c.None? || d.None? then None
      else Some(a.value * 4096 + b.value * 256 + c.value * 16 + d.value)
  }

  /** The code point after \u: one unit, or a surrogate pair; half a pair is refused. */
  function ReadUnicode(s: string): (r: Option<(string, string)>)
    ensures r.Some? ==> RuneLen(r.value.0) == |r.value.0| > 0 && |r.value.1| < |s|
  {
    var unit := Hex4(s);
    if unit.None? then None
    else if !(0xD800 <= unit.value < 0xE000) then Some((EncodeRune(unit.value), s[4..]))
    else if unit.value >= 0xDC00 || |s| < 10 || s[4] != '\\' || s[5] != 'u' then None
    else
      var low := Hex4(s[6..]);
      if low.None? || !(0xDC00 <= low.value < 0xE000) then None
      else Some((EncodeRune(0x10000 + (unit.value - 0xD800) * 1024 + (low.value - 0xDC00)), s[10..]))
  }

  /** What follows a backslash. */
  function ReadEscape(s: string): (r: Option<(string, string)>)
    ensures r.Some? ==> RuneLen(r.value.0) == |r.value.0| > 0 && |r.value.1| < |s|
  {
    if s == [] then None
    else
      var c := s[0];
      if c == '"' || c == '\\' || c == '/' then Some(([c], s[1..]))
      else if c == 'b' then Some((['\U{8}'], s[1..]))
      else if c == 'f' then Some((['\U{C}'], s[1..]))
      else if c == 'n' then Some((['\n'], s[1..]))
      else if c == 'r' then Some((['\r'], s[1..]))
      else if c == 't' then Some((['\t'], s[1..]))
      else if c == 'u' then ReadUnicode(s[1..])
      else None
  }

  /** One code point of a literal. Control characters, quotes and bytes that are not UTF-8 are refused. */
  function ReadOne(s: string): (r: Option<(string, string)>)
    ensures r.Some? ==> RuneLen(r.value.0) == |r.value.0| > 0 && |r.value.1| < |s|
  {
    if s == [] || s[0] < ' ' || s[0] == '"' || RuneLen(s) == 0 then None
    else if s[0] == '\\' then ReadEscape(s[1..])
    else
      RuneStands(s, []);
      assert s[..RuneLen(s)] + [] == s[..RuneLen(s)];
      Some((s[..RuneLen(s)], s[RuneLen(s)..]))
  }

  /** The contents up to the closing quote, and what follows it. */
  function ReadString(s: string): (r: Option<(string, string)>)
    ensures r.Some? ==> |r.value.1| < |s|
    decreases |s|
  {
    if s == [] then None
    else if s[0] == '"' then Some(([], s[1..]))
    else
      var one := ReadOne(s);
      if one.None? then None
      else
        var more := ReadString(one.value.1);
        if more.None? then None else Some((one.value.0 + more.value.0, more.value.1))
  }

  // ---- the round trip ----

  /** The bytes a written piece stands for. */
  function Meant(s: string): (r: string)
    requires s != []
  {
    if RuneLen(s) == 0 then EncodeRune(0xFFFD) else s[..RuneLen(s)]
  }

  lemma {:induction false} EscapeReadsBack(b: char, rest: string)
    requires b as int < 0x80 && !Plain(b)
    ensures Escape(b) + rest != [] && ReadOne(Escape(b) + rest) == Some(([b], rest))
  {
    var t := Escape(b) + rest;
    if |Escape(b)| == 2 {
      assert t[1..][1..] == rest;
    } else {
      assert t[1..][1..] == ['0', '0', HexDigit(b as int / 16), HexDigit(b as int % 16)] + rest;
      assert t[1..][1..][4..] == rest;
      assert Hex4(t[1..][1..]) == Some(b as nat);
    }
  }

  lemma ReplacementReadsBack(rest: string)
    ensures ReadOne("\\ufffd" + rest) == Some((EncodeRune(0xFFFD), rest))
  {
    var t := "\\ufffd" + rest;
    assert t[1..][1..] == "fffd" + rest && t[1..][1..][4..] == rest;
    assert Hex4(t[1..][1..]) == Some(0xFFFD);
  }

  lemma RuneReadsBack(s: string, rest: string)
    requires s != [] && RuneLen(s) > 0 && (Plain(s[0]) || s[0] as int >= 0x80)
    ensures ReadOne(s[..RuneLen(s)] + rest) == Some((s[..RuneLen(s)], rest))
  {
    var n := RuneLen(s);
    var t := s[..n] + rest;
    RuneStands(s, rest);
    assert t[..n] == s[..n] && t[n..] == rest && t[0] == s[0];
  }

  /** One step of the writer is undone by one step of the reader. */
  lemma OneReadsBack(s: string, rest: string)
    requires s != []
    ensures WriteOne(s).0 + rest != [] && (WriteOne(s).0 + rest)[0] != '"'
    ensures ReadOne(WriteOne(s).0 + rest) == Some((Meant(s), rest))
    ensures WriteOne(s).1 == if RuneLen(s) == 0 then 1 else RuneLen(s)
  {
    if s[0] as int < 0x80 && !Plain(s[0]) {
      EscapeReadsBack(s[0], rest);
      assert s[..1] == [s[0]];
    } else if RuneLen(s) == 0 {
      ReplacementReadsBack(rest);
    } else {
      RuneReadsBack(s, rest);
      assert s[..1] == [s[0]];
    }
  }

  /** Reading a written literal gives the string back, its invalid bytes replaced. */
  lemma {:induction false} StringReadsBack(s: string, rest: string)
    ensures ReadString(Escaped(s) + ['"'] + rest) == Some((Sanitize(s), rest))
    decreases |s|
  {
    if s == [] {
      assert Escaped(s) + ['"'] + rest == ['"'] + rest;
      assert (['"'] + rest)[1..] == rest;
    } else {
      var (one, n) := WriteOne(s);
      var tail := Escaped(s[n..]) + ['"'] + rest;
      OneReadsBack(s, tail);
      StringReadsBack(s[n..], rest);
      assert Escaped(s) + ['"'] + rest == one + tail;
    }
  }

  /** A literal that can be read at all holds valid UTF-8. */
  lemma {:induction false} ReadStringValid(s: string)
    ensures ReadString(s).Some? ==> Utf8.Valid(ReadString(s).value.0)
    decreases |s|
  {
    if ReadString(s).Some? && s[0] != '"' {
      var one := ReadOne(s).value;
      ReadStringValid(one.1);
      ValidFront(one.0, ReadString(one.1).value.0);
    }
  }
}
