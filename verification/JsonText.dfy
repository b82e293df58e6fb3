/**
 * What the encoder is meant to write for a value (jqutil/encoder.go), and a reader for the JSON grammar of RFC 8259.
 */
module JsonText {
  import opened Values
  import opened Ordering
  import opened Decimal
  import opened JsonString

  datatype Value =
    | Null
    | Bool(b: bool)
    | Int(n: int)
    | Str(s: string)
    | Arr(items: seq<Value>)
    | Obj(fields: map<string, Value>)

  /** The layout settings of an encoder. */
  datatype Layout = Layout(tab: bool, indent: int)

  // ---- writing ----

  function Repeat(c: char, n: nat): (s: string)
    ensures |s| == n
  {
    seq(n, _ => c)
  }

  function Unit(l: Layout): char {
    if l.tab then '\t' else ' '
  }

  /** A line break and as much indentation as the depth asks for; nothing in a compact layout. */
  function Gap(l: Layout, depth: int): (s: string) {
    if l.indent == 0 then [] else ['\n'] + Repeat(Unit(l), if depth > 0 then depth else 0)
  }

  function Colon(l: Layout): (s: string) {
    if l.indent == 0 then ":" else ": "
  }

  ghost function Encoding(v: Value, l: Layout, depth: int): (s: string)
    decreases v
  {
    match v
    case Null => "null"
    case Bool(b) => if b then "true" else "false"
    case Int(n) => Numeral(n)
    case Str(s) => Quoted(s)
    case Arr(items) =>
      "[" + Elements(v, l, depth + l.indent, 0) + (if items == [] then [] else Gap(l, depth)) + "]"
    case Obj(fields) =>
      "{" + Members(v, Sorted(fields.Keys), l, depth + l.indent, 0)
      + (if fields == map[] then [] else Gap(l, depth)) + "}"
  }

  lemma ArrayForm(v: Value, l: Layout, depth: int)
    requires v.Arr?
    ensures Encoding(v, l, depth)
            == "[" + Elements(v, l, depth + l.indent, 0) + (if v.items == [] then [] else Gap(l, depth)) + "]"
  {
    hide Elements, Gap;
  }

  lemma ObjectForm(v: Value, l: Layout, depth: int)
    requires v.Obj?
    ensures Encoding(v, l, depth)
            == "{" + Members(v, Sorted(v.fields.Keys), l, depth + l.indent, 0)
               + (if v.fields == map[] then [] else Gap(l, depth)) + "}"
  {
    hide Members, Gap;
  }

  function Comma(i: nat): string {
    if i > 0 then "," else ""
  }

  /** The elements of an array from one position on. */
  ghost function Elements(v: Value, l: Layout, depth: int, i: nat): (s: string)
    requires v.Arr? && i <= |v.items|
    decreases v, |v.items| - i
  {
    if i == |v.items| then []
    else Comma(i) + (Gap(l, depth) + Encoding(v.items[i], l, depth) + Elements(v, l, depth, i + 1))
  }

  /** The members of an object from one key on. */
  ghost function Members(v: Value, keys: seq<string>, l: Layout, depth: int, i: nat): (s: string)
    requires v.Obj? && i <= |keys| && forall k :: k in keys ==> k in v.fields
    decreases v, |keys| - i
  {
    if i == |keys| then []
    else
      Comma(i) + (Gap(l, depth) + Quoted(keys[i]) + Colon(l) + Encoding(v.fields[keys[i]], l, depth)
          + Members(v, keys, l, depth, i + 1))
  }

  // ---- reading ----

  predicate Space(c: char) {
    c == ' ' || c == '\t' || c == '\n' || c == '\r'
  }

  function Skip(s: string): (r: string)
    ensures |r| <= |s|
    ensures r == [] || !Space(r[0])
  {
    if s != [] && Space(s[0]) then Skip(s[1..]) else s
  }

  /** An integer: no leading zero, no fraction, no exponent. */
  function ReadInt(s: string): (r: Option<(Value, string)>)
    ensures r.Some? ==> |r.value.1| < |s|
  {
    if s == [] then None
    else
      var t := if s[0] == '-' then s[1..] else s;
      if t == [] || !IsDigit(t[0]) then None
      else
        var (n, rest) := ReadDigits(t[1..], DigitValue(t[0]));
        var value: int := n;
        if (t[0] == '0' && rest != t[1..]) || !Stops(rest) then None
        else Some((Int(if s[0] == '-' then -value else value), rest))
  }

  /** A number ends here. */
  predicate Stops(s: string) {
    s == [] || !(IsDigit(s[0]) || s[0] == '.' || s[0] == 'e' || s[0] == 'E')
  }

  function ReadWord(s: string, word: string, v: Value): (r: Option<(Value, string)>)
    requires word != []
    ensures r.Some? ==> |r.value.1| < |s|
  {
    if word <= s then Some((v, s[|word|..])) else None
  }

  /** One value and the text after it. */
  function Read(s: string): (r: Option<(Value, string)>)
    ensures r.Some? ==> |r.value.1| < |s|
    decreases |s|, 0
  {
    var t := Skip(s);
    if t == [] then None
    else if t[0] == '"' then
      var str := ReadString(t[1..]);
      if str.None? then None else Some((Value.Str(str.value.0), str.value.1))
    else if t[0] == '[' then
      var u := Skip(t[1..]);
      if u != [] && u[0] == ']' then Some((Value.Arr([]), u[1..]))
      else
        var items := ReadElements(t[1..]);
        if items.None? then None else Some((Value.Arr(items.value.0), items.value.1))
    else if t[0] == '{' then
      var u := Skip(t[1..]);
      if u != [] && u[0] == '}' then Some((Value.Obj(map[]), u[1..]))
      else
        var fields := ReadMembers(t[1..]);
        if fields.None? then None else Some((Value.Obj(fields.value.0), fields.value.1))
    else if t[0] == 'n' then ReadWord(t, "null", Value.Null)
    else if t[0] == 't' then ReadWord(t, "true", Value.Bool(true))
    else if t[0] == 'f' then ReadWord(t, "false", Value.Bool(false))
    else ReadInt(t)
  }

  /** One or more elements up to the closing bracket. */
  function ReadElements(s: string): (r: Option<(seq<Value>, string)>)
    ensures r.Some? ==> |r.value.1| < |s|
    decreases |s|, 1
  {
    var first := Read(s);
    if first.None? then None
    else
      var t := Skip(first.value.1);
      if t == [] then None
      else if t[0] == ']' then Some(([first.value.0], t[1..]))
      else if t[0] != ',' then None
      else
        var more := ReadElements(t[1..]);
        if more.None? then None else Some(([first.value.0] + more.value.0, more.value.1))
  }

  /** A member name and its colon. */
  function ReadName(s: string): (r: Option<(string, string)>)
    ensures r.Some? ==> |r.value.1| < |s|
  {
    var t := Skip(s);
    if t == [] || t[0] != '"' then None
    else
      var name := ReadString(t[1..]);
      if name.None? then None
      else
        var u := Skip(name.value.1);
        if u == [] || u[0] != ':' then None else Some((name.value.0, u[1..]))
  }

  /** One or more members up to the closing brace; a name given twice is refused. */
  function ReadMembers(s: string): (r: Option<(map<string, Value>, string)>)
    ensures r.Some? ==> |r.value.1| < |s|
    decreases |s|, 1
  {
    var name := ReadName(s);
    if name.None? then None
    else
      var first := Read(name.value.1);
      if first.None? then None
      else
        var t := Skip(first.value.1);
        if t == [] then None
        else if t[0] == '}' then Some((map[name.value.0 := first.value.0], t[1..]))
        else if t[0] != ',' then None
        else
          var more := ReadMembers(t[1..]);
          if more.None? || name.value.0 in more.value.0 then None
          else Some((more.value.0[name.value.0 := first.value.0], more.value.1))
  }

  /** A whole document: one value with nothing but space after it. */
  function Parse(s: string): (r: Option<Value>) {
    var v := Read(s);
    if v.None? || Skip(v.value.1) != [] then None else Some(v.value.0)
  }
}
