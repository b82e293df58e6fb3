/** Decimal numerals, as strconv prints and reads them. */
module Decimal {
  import opened Values

  predicate IsDigit(c: char) {
    '0' <= c <= '9'
  }

  function DigitValue(c: char): (d: nat)
    requires IsDigit(c)
    ensures d < 10
  {
    c as int - '0' as int
  }

  function DigitChar(d: nat): (c: char)
    requires d < 10
    ensures IsDigit(c) && DigitValue(c) == d
  {
    ('0' as int + d) as char
  }

  /** The digits of a number, without leading zeros. */
  function Digits(n: nat): (s: string)
    ensures s != [] && IsDigit(s[0]) && (forall c :: c in s ==> IsDigit(c)) && (s[0] == '0' <==> n == 0)
  {
    if n < 10 then [DigitChar(n)] else Digits(n / 10) + [DigitChar(n % 10)]
  }

  function Numeral(n: int): (s: string)
    ensures s != [] && (s[0] == '-' || IsDigit(s[0]))
  {
    if n < 0 then "-" + Digits(-n) else Digits(n)
  }

  /** Reads the digits at the front of a text onto a number already read. */
  function ReadDigits(s: string, read: nat): (r: (nat, string))
    ensures |r.1| <= |s|
    ensures r.1 == [] || !IsDigit(r.1[0])
  {
    if s == [] || !IsDigit(s[0]) then (read, s) else ReadDigits(s[1..], 10 * read + DigitValue(s[0]))
  }

  /** Reading what was printed gives the number back. */
  lemma {:induction false} ReadsBack(n: nat, rest: string)
    ensures ReadDigits(Digits(n) + rest, 0) == ReadDigits(rest, n)
  {
    if n < 10 {
      assert ([DigitChar(n)] + rest)[1..] == rest;
    } else {
      var last := [DigitChar(n % 10)];
      ReadsBack(n / 10, last + rest);
      assert Digits(n) + rest == Digits(n / 10) + (last + rest);
      assert (last + rest)[1..] == rest;
    }
  }

  /** strconv.Atoi, without the overflow of its machine integer. */
  function Atoi(s: string): (r: Option<int>) {
    if s == [] then None
    else if s[0] == '-' || s[0] == '+' then
      var (n, rest) := ReadDigits(s[1..], 0);
      var value: int := n;
      if |s| == 1 || rest != [] then None else Some(if s[0] == '-' then -value else value)
    else
      var (n, rest) := ReadDigits(s, 0);
      if rest != [] then None else Some(n)
  }

  lemma AtoiReadsBack(n: nat)
    ensures Atoi(Digits(n)) == Some(n)
  {
    assert Digits(n) + [] == Digits(n);
    ReadsBack(n, []);
    assert IsDigit(Digits(n)[0]);
  }

  /** Two numbers never print alike. */
  lemma DigitsInjective(m: nat, n: nat)
    requires Digits(m) == Digits(n)
    ensures m == n
  {
    AtoiReadsBack(m);
    AtoiReadsBack(n);
  }
}
