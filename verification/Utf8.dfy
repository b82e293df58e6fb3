/**
 * UTF-8 over strings whose characters stand for bytes, as Go's unicode/utf8 reads them. A character above 255, which no
 * Go string holds, counts as an invalid byte.
 */
module Utf8 {

  predicate Between(c: char, low: int, high: int) {
    low <= c as int <= high
  }

  predicate Continues(c: char) {
    Between(c, 0x80, 0xBF)
  }

  /** How many bytes the code point at the front takes; 0 if no valid one starts there. */
  function RuneLen(s: string): (n: nat)
    ensures n <= |s| && n <= 4
  {
    if s == [] then 0
    else
      var b := s[0] as int;
      if b < 0x80 then 1
      else if 0xC2 <= b <= 0xDF then
        if |s| >= 2 && Continues(s[1]) then 2 else 0
      else if 0xE0 <= b <= 0xEF then
        if |s| >= 3 && Between(s[1], if b == 0xE0 then 0xA0 else 0x80, if b == 0xED then 0x9F else 0xBF)
            && Continues(s[2])
        then 3 else 0
      else if 0xF0 <= b <= 0xF4 then
        if |s| >= 4 && Between(s[1], if b == 0xF0 then 0x90 else 0x80, if b == 0xF4 then 0x8F else 0xBF)
           && Continues(s[2]) && Continues(s[3])
        then 4 else 0
      else 0
  }

  /** A code point ends where it ends, whatever follows. */
  lemma RuneStands(s: string, t: string)
    requires RuneLen(s) > 0
    ensures RuneLen(s[..RuneLen(s)] + t) == RuneLen(s)
  {
  }

  predicate Valid(s: string)
    decreases |s|
  {
    s == [] || (RuneLen(s) > 0 && Valid(s[RuneLen(s)..]))
  }

  /** The bytes of a code point that is not half of a surrogate pair. */
  function EncodeRune(c: nat): (s: string)
    requires c < 0x110000 && !(0xD800 <= c < 0xE000)
    ensures RuneLen(s) == |s| > 0
  {
    if c < 0x80 then [c as char]
    else if c < 0x800 then [(0xC0 + c / 64) as char, (0x80 + c % 64) as char]
    else if c < 0x10000 then [(0xE0 + c / 4096) as char, (0x80 + c / 64 % 64) as char, (0x80 + c % 64) as char]
    else
      [(0xF0 + c / 262144) as char, (0x80 + c / 4096 % 64) as char,
       (0x80 + c / 64 % 64) as char, (0x80 + c % 64) as char]
  }

  /** A code point in front of valid text leaves it valid. */
  lemma ValidFront(rune: string, s: string)
    requires RuneLen(rune) == |rune| > 0 && Valid(s)
    ensures Valid(rune + s)
  {
    assert rune[..|rune|] == rune;
    RuneStands(rune, s);
    assert (rune + s)[|rune|..] == s;
  }

  /** Every byte that starts no valid code point becomes U+FFFD. */
  function Sanitize(s: string): (r: string)
    decreases |s|
  {
    if s == [] then []
    else if RuneLen(s) == 0 then EncodeRune(0xFFFD) + Sanitize(s[1..])
    else s[..RuneLen(s)] + Sanitize(s[RuneLen(s)..])
  }

  lemma {:induction false} SanitizeValid(s: string)
    ensures Valid(Sanitize(s))
    decreases |s|
  {
    if s != [] {
      var n := RuneLen(s);
      if n == 0 {
        SanitizeValid(s[1..]);
        ValidFront(EncodeRune(0xFFFD), Sanitize(s[1..]));
      } else {
        SanitizeValid(s[n..]);
        RuneStands(s, []);
        assert s[..n] + [] == s[..n];
        ValidFront(s[..n], Sanitize(s[n..]));
      }
    }
  }

  /** Sanitizing changes nothing exactly when there is nothing to change. */
  lemma {:induction false} SanitizeIff(s: string)
    ensures Sanitize(s) == s <==> Valid(s)
  {
    SanitizeValid(s);
    if Valid(s) { ValidKept(s); }
  }

  lemma {:induction false} ValidKept(s: string)
    requires Valid(s)
    ensures Sanitize(s) == s
    decreases |s|
  {
    if s != [] {
      ValidKept(s[RuneLen(s)..]);
    }
  }
}
