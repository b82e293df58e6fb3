/** Short unique ids (shortid/shortid.go): the alphabet, the encoding, and its inverse for every random choice. */
module ShortId {
  import opened Values

  const ALPHABET_SIZE := 64
  const UINT64 := 0x1_0000_0000_0000_0000

  datatype Result<T> = Ok(value: T) | Err(reason: string)

  function Pow2(k: nat): (p: nat)
    ensures p >= 1
  {
    if k == 0 then 1 else 2 * Pow2(k - 1)
  }

  lemma {:induction false} Pow2Add(a: nat, b: nat)
    ensures Pow2(a + b) == Pow2(a) * Pow2(b)
  {
    if a > 0 {
      Pow2Add(a - 1, b);
      assert Pow2(a + b) == 2 * (Pow2(a - 1) * Pow2(b)) == Pow2(a) * Pow2(b);
    }
  }

  lemma Pow2Monotone(a: nat, b: nat)
    requires a <= b
    ensures Pow2(a) <= Pow2(b)
  {
    Pow2Add(a, b - a);
    assert Pow2(a) * Pow2(b - a) >= Pow2(a) * 1;
  }

  /** The integer part of the base-2 logarithm. */
  function Log2(v: nat): nat
    requires v >= 1
  {
    if v == 1 then 0 else 1 + Log2(v / 2)
  }

  lemma {:induction false} Log2Bounds(v: nat)
    requires v >= 1
    ensures Pow2(Log2(v)) <= v < Pow2(Log2(v) + 1)
  {
    if v > 1 { Log2Bounds(v / 2); }
  }

  // ---- digits ------------------------------------------------------------------------------------

  /** The symbols a value needs. */
  function SizeOf(v: nat, digits: nat): (n: nat)
    requires digits > 0
    ensures n >= 1
  {
    if v >= 1 then Log2(v) / digits + 1 else 1
  }

  lemma WholeDigits(l: nat, digits: nat)
    requires 4 <= digits <= 6
    ensures digits * (l / digits) <= l < digits * (l / digits + 1)
  {
    if digits == 4 {
    } else if digits == 5 {
    } else {
    }
  }

  lemma MulStep(a: nat, b: nat)
    ensures a * (b + 1) == a + a * b
  {
  }

  /** SizeOf symbols are enough, and one fewer would not be. */
  lemma SizeIsExact(v: nat, digits: nat)
    requires 4 <= digits <= 6
    ensures v < Pow2(digits * SizeOf(v, digits))
    ensures SizeOf(v, digits) > 1 ==> Pow2(digits * (SizeOf(v, digits) - 1)) <= v
  {
    hide Pow2, Log2;
    assert digits * 1 == digits;
    Pow2Positive(digits);
    if v >= 1 {
      var l := Log2(v);
      Log2Bounds(v);
      WholeDigits(l, digits);
      BetweenPowers(v, l, digits * (l / digits), digits * (l / digits + 1));
    }
  }

  lemma Pow2Positive(k: nat)
    ensures 0 < Pow2(k)
  {
  }

  lemma BetweenPowers(v: nat, l: nat, lo: nat, hi: nat)
    requires Pow2(l) <= v < Pow2(l + 1) && lo <= l < hi
    ensures Pow2(lo) <= v < Pow2(hi)
  {
    hide Pow2;
    Pow2Monotone(l + 1, hi);
    Pow2Monotone(lo, l);
  }

  /** v >> k */
  function Shr(v: nat, k: nat): nat {
    if k == 0 then v else Shr(v / 2, k - 1)
  }

  /** v & (1<<k - 1) */
  function Mask(v: nat, k: nat): (r: nat)
    ensures r < Pow2(k)
  {
    if k == 0 then 0 else v % 2 + 2 * Mask(v / 2, k - 1)
  }

  lemma {:induction false} ShrAdd(v: nat, a: nat, b: nat)
    ensures Shr(v, a + b) == Shr(Shr(v, a), b)
  {
    if a > 0 { ShrAdd(v / 2, a - 1, b); }
  }

  /** A value is what its mask keeps and what its shift keeps. */
  lemma {:induction false} MaskShr(v: nat, k: nat)
    ensures v == Mask(v, k) + Pow2(k) * Shr(v, k)
  {
    if k > 0 {
      MaskShr(v / 2, k - 1);
      DoublePower(k, Shr(v / 2, k - 1));
    }
  }

  lemma DoublePower(k: nat, s: nat)
    requires k > 0
    ensures Pow2(k) * s == 2 * (Pow2(k - 1) * s)
  {
    var p := Pow2(k - 1);
    assert (2 * p) * s == 2 * (p * s);
  }

  lemma {:induction false} ShrFits(v: nat, a: nat, b: nat)
    requires v < Pow2(a + b)
    ensures Shr(v, a) < Pow2(b)
  {
    if a > 0 { ShrFits(v / 2, a - 1, b); }
  }

  /** The digit at a position: the value shifted right, under the mask. */
  function Digit(v: nat, digits: nat, i: nat): (d: nat)
    ensures d < Pow2(digits)
  {
    Mask(Shr(v, digits * i), digits)
  }

  /** The number a sequence of digits stands for, least significant first. */
  function Number(ds: seq<nat>, digits: nat): nat {
    if ds == [] then 0 else ds[0] + Pow2(digits) * Number(ds[1..], digits)
  }

  function DigitsOf(v: nat, digits: nat, n: nat): (ds: seq<nat>)
    ensures |ds| == n && forall i :: 0 <= i < n ==> ds[i] == Digit(v, digits, i)
  {
    seq(n, i requires 0 <= i < n => Digit(v, digits, i))
  }

  /** Shifting a value by one digit shifts its digits. */
  lemma DigitShift(v: nat, digits: nat, i: nat)
    ensures Digit(v, digits, i + 1) == Digit(Shr(v, digits), digits, i)
  {
    hide Shr, Mask;
    MulStep(digits, i);
    ShrAdd(v, digits, digits * i);
  }

  /** The digits of a value that fits give the value back. */
  lemma {:induction false} NumberOfDigits(v: nat, digits: nat, n: nat)
    requires v < Pow2(digits * n)
    ensures Number(DigitsOf(v, digits, n), digits) == v
    decreases n
  {
    if n > 0 {
      var rest := Shr(v, digits);
      MulStep(digits, n - 1);
      ShrFits(v, digits, digits * (n - 1));
      NumberOfDigits(rest, digits, n - 1);
      forall i | 0 <= i < n - 1
        ensures DigitsOf(v, digits, n)[1..][i] == DigitsOf(rest, digits, n - 1)[i]
      {
        DigitShift(v, digits, i);
      }
      assert DigitsOf(v, digits, n)[1..] == DigitsOf(rest, digits, n - 1);
      assert digits * 0 == 0;
      assert Digit(v, digits, 0) == Mask(v, digits);
      MaskShr(v, digits);
    }
  }

  // ---- symbols -----------------------------------------------------------------------------------

  /** a | b */
  function BitOr(a: nat, b: nat): nat {
    if a == 0 && b == 0 then 0
    else (if a % 2 == 1 || b % 2 == 1 then 1 else 0) + 2 * BitOr(a / 2, b / 2)
  }

  /** a & b */
  function BitAnd(a: nat, b: nat): nat {
    if a == 0 || b == 0 then 0
    else (if a % 2 == 1 && b % 2 == 1 then 1 else 0) + 2 * BitAnd(a / 2, b / 2)
  }

  lemma {:induction false} MaskOr(a: nat, b: nat, k: nat)
    ensures Mask(BitOr(a, b), k) == BitOr(Mask(a, k), Mask(b, k))
    decreases k
  {
    hide BitOr;
    OrZero(0);
    if k > 0 {
      MaskOr(a / 2, b / 2, k - 1);
      BitOrStep(a, b);
      BitOrStep(Mask(a, k), Mask(b, k));
    }
  }

  lemma BitOrStep(a: nat, b: nat)
    ensures BitOr(a, b) % 2 == (if a % 2 == 1 || b % 2 == 1 then 1 else 0)
    ensures BitOr(a, b) / 2 == BitOr(a / 2, b / 2)
  {
  }

  /** Masking keeps nothing of a word and-ed with one that has no low bits. */
  lemma {:induction false} MaskAnd(a: nat, b: nat, k: nat)
    requires Mask(b, k) == 0
    ensures Mask(BitAnd(a, b), k) == 0
    decreases k
  {
    hide BitAnd;
    if k > 0 {
      MaskAnd(a / 2, b / 2, k - 1);
      BitAndStep(a, b);
    }
  }

  lemma BitAndStep(a: nat, b: nat)
    ensures BitAnd(a, b) % 2 == (if a % 2 == 1 && b % 2 == 1 then 1 else 0)
    ensures BitAnd(a, b) / 2 == BitAnd(a / 2, b / 2)
  {
  }

  lemma {:induction false} OrZero(a: nat)
    ensures BitOr(a, 0) == a
  {
    if a > 0 { OrZero(a / 2); }
  }

  lemma {:induction false} MaskSmall(v: nat, k: nat)
    requires v < Pow2(k)
    ensures Mask(v, k) == v
  {
    if k > 0 { MaskSmall(v / 2, k - 1); }
  }

  lemma {:induction false} OrSmall(a: nat, b: nat, k: nat)
    requires a < Pow2(k) && b < Pow2(k)
    ensures BitOr(a, b) < Pow2(k)
    decreases k
  {
    if k > 0 { OrSmall(a / 2, b / 2, k - 1); }
  }

  lemma {:induction false} AndSmall(a: nat, b: nat)
    ensures BitAnd(a, b) <= b
    decreases a
  {
    if a > 0 && b > 0 { AndSmall(a / 2, b / 2); }
  }

  lemma SmallPowers()
    ensures Pow2(4) == 16 && Pow2(5) == 32 && Pow2(6) == 64
  {
    assert Pow2(2) == 4;
  }

  /** 0x3f - mask: the bits that random bytes may fill. */
  function Spare(digits: nat): nat
    requires 4 <= digits <= 6
  {
    if digits == 4 then 48 else if digits == 5 then 32 else 0
  }

  lemma SpareIsHigh(digits: nat)
    requires 4 <= digits <= 6
    ensures Mask(Spare(digits), digits) == 0 && Spare(digits) == 63 - (Pow2(digits) - 1)
  {
    SmallPowers();
    assert Mask(12, 2) == 0 && Mask(48, 4) == 0;
    assert Mask(4, 2) == 0 && Mask(16, 4) == 0 && Mask(32, 5) == 0;
    assert Mask(0, 2) == 0 && Mask(0, 4) == 0 && Mask(0, 6) == 0;
  }

  /** The alphabet index for a digit and a random byte: the digit, with noise above the mask. */
  function Index(d: nat, digits: nat, random: nat): nat
    requires 4 <= digits <= 6
  {
    BitOr(d, BitAnd(random, Spare(digits)))
  }

  /** The index is in the alphabet, and masking it gives the digit back whatever the noise. */
  lemma IndexMeans(d: nat, digits: nat, random: nat)
    requires 4 <= digits <= 6 && d < Pow2(digits)
    ensures Index(d, digits, random) < ALPHABET_SIZE && Mask(Index(d, digits, random), digits) == d
  {
    hide BitOr, BitAnd, Mask;
    var noise := BitAnd(random, Spare(digits));
    SmallPowers();
    SpareIsHigh(digits);
    AndSmall(random, Spare(digits));
    OrSmall(d, noise, 6);
    MaskAnd(random, Spare(digits), digits);
    MaskOr(d, noise, digits);
    MaskSmall(d, digits);
    OrZero(d);
  }

  predicate IsAlphabet(abc: string) {
    |abc| == ALPHABET_SIZE && NoDuplicates(abc)
  }

  function IndexOf(abc: string, c: char): (i: nat)
    ensures i <= |abc|
    ensures i < |abc| ==> abc[i] == c
  {
    if abc == [] || abc[0] == c then 0 else 1 + IndexOf(abc[1..], c)
  }

  lemma {:induction false} IndexOfSymbol(abc: string, i: nat)
    requires NoDuplicates(abc) && i < |abc|
    ensures IndexOf(abc, abc[i]) == i
  {
    if i > 0 {
      assert abc[0] != abc[i];
      IndexOfSymbol(abc[1..], i - 1);
    }
  }

  /** Symbols back to digits: the position in the alphabet, under the mask. */
  function SymbolDigits(abc: string, symbols: string, digits: nat): (ds: seq<nat>)
    ensures |ds| == |symbols|
  {
    seq(|symbols|, i requires 0 <= i < |symbols| => Mask(IndexOf(abc, symbols[i]), digits))
  }

  /** The inverse of Encode. */
  function Decode(abc: string, symbols: string, digits: nat): nat {
    Number(SymbolDigits(abc, symbols, digits), digits)
  }

  predicate EncodeFits(v: nat, nsymbols: nat, digits: nat) {
    4 <= digits <= 6 && (nsymbols == 0 || SizeOf(v, digits) <= nsymbols)
  }

  /** What Encode produces for one choice of random bytes. */
  ghost predicate Encodes(abc: string, v: nat, nsymbols: nat, digits: nat, symbols: string)
    requires IsAlphabet(abc)
  {
    && EncodeFits(v, nsymbols, digits)
    && |symbols| == (if nsymbols == 0 then SizeOf(v, digits) else nsymbols)
    && forall i :: 0 <= i < |symbols| ==> IsSymbol(abc, Digit(v, digits, i), digits, symbols[i])
  }

  /** One of the symbols that stand for a digit. */
  ghost predicate IsSymbol(abc: string, d: nat, digits: nat, c: char)
    requires IsAlphabet(abc) && 4 <= digits <= 6 && d < Pow2(digits)
  {
    exists random: nat :: random < 256 && Index(d, digits, random) < |abc| && c == abc[Index(d, digits, random)]
  }

  /** Encode: fails exactly when the digit width is wrong or the value needs more symbols than it is given. */
  method Encode(abc: string, v: nat, nsymbols: nat, digits: nat, random: nat -> nat) returns (r: Result<string>)
    requires IsAlphabet(abc) && forall i :: random(i) < 256
    ensures r.Ok? <==> EncodeFits(v, nsymbols, digits)
    ensures r.Ok? ==> Encodes(abc, v, nsymbols, digits, r.value)
  {
    if digits < 4 || 6 < digits { return Err("allowed digits range [4,6]"); }
    var size, n := SizeOf(v, digits), nsymbols;
    if n == 0 {
      n := size;
    } else if n < size {
      return Err("cannot accommodate data");
    }
    var res := new char[n];
    for i := 0 to n
      invariant forall j :: 0 <= j < i ==> IsSymbol(abc, Digit(v, digits, j), digits, res[j])
    {
      IndexMeans(Digit(v, digits, i), digits, random(i));
      res[i] := abc[Index(Digit(v, digits, i), digits, random(i))];
    }
    r := Ok(res[..]);
  }

  /** Decoding gives the value back whatever the random bytes were. */
  lemma DecodeEncoded(abc: string, v: nat, nsymbols: nat, digits: nat, symbols: string)
    requires IsAlphabet(abc) && Encodes(abc, v, nsymbols, digits, symbols)
    ensures Decode(abc, symbols, digits) == v
  {
    var n := |symbols|;
    forall i | 0 <= i < n
      ensures SymbolDigits(abc, symbols, digits)[i] == Digit(v, digits, i)
    {
      assert IsSymbol(abc, Digit(v, digits, i), digits, symbols[i]);
      var random: nat :| Index(Digit(v, digits, i), digits, random) < |abc|
                         && symbols[i] == abc[Index(Digit(v, digits, i), digits, random)];
      IndexMeans(Digit(v, digits, i), digits, random);
      IndexOfSymbol(abc, Index(Digit(v, digits, i), digits, random));
    }
    assert SymbolDigits(abc, symbols, digits) == DigitsOf(v, digits, n);
    SizeIsExact(v, digits);
    assert digits * SizeOf(v, digits) <= digits * n;
    Pow2Monotone(digits * SizeOf(v, digits), digits * n);
    NumberOfDigits(v, digits, n);
  }
}
