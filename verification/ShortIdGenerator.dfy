/** The id generator over whole runs: no two ids alike, for any clock that does not go back and any randomness. */
module ShortIdGenerator {
  import opened Values
  import opened ShortId

  // ---- the alphabet ------------------------------------------------------------------------------

  /** nonUnique: whether a character occurs twice. */
  method NonUnique(runes: string) returns (r: bool)
    ensures r <==> !NoDuplicates(runes)
  {
    hide NoDuplicates;
    assert NoDuplicates(runes[..0]) by { NoneRepeated(runes[..0]); }
    var found: set<char> := {};
    for i := 0 to |runes|
      invariant found == set c | c in runes[..i]
      invariant |found| <= i
      invariant |found| == i <==> NoDuplicates(runes[..i])
    {
      assert runes[..i + 1] == runes[..i] + [runes[i]];
      OneMore(runes[..i], runes[i]);
      if runes[i] !in found {
        found := found + {runes[i]};
      }
    }
    assert runes[..|runes|] == runes;
    r := |found| < |runes|;
  }

  lemma NoneRepeated(s: string)
    requires s == []
    ensures NoDuplicates(s)
  {
  }

  lemma OneMore(s: string, c: char)
    ensures NoDuplicates(s + [c]) <==> NoDuplicates(s) && c !in s
  {
    var t := s + [c];
    if NoDuplicates(t) {
      assert forall i :: 0 <= i < |s| ==> t[i] == s[i] && t[i] != t[|s|];
    }
  }

  /** One turn of the linear congruential generator; the product wraps at 64 bits. */
  function NextSeed(seed: nat): (s: nat)
    ensures s < 233280
  {
    ((seed * 9301 + 49297) % UINT64) % 233280
  }

  /** The seed after some turns. */
  function SeedAfter(seed: nat, turns: nat): nat {
    if turns == 0 then seed else NextSeed(SeedAfter(seed, turns - 1))
  }

  function Power(turns: nat): nat {
    if turns == 0 then 1 else 9301 * Power(turns - 1)
  }

  /** 1 + 9301 + ... : as many terms as turns. */
  function Sum(turns: nat): nat {
    if turns == 0 then 0 else 9301 * Sum(turns - 1) + 1
  }

  lemma Congruent(a: nat, b: nat)
    requires a % 233280 == b % 233280
    ensures (a * 9301 + 49297) % 233280 == (b * 9301 + 49297) % 233280
  {
    Turned(a / 233280, a % 233280);
    Turned(b / 233280, b % 233280);
  }

  lemma Turned(q: nat, r: nat)
    ensures ((233280 * q + r) * 9301 + 49297) % 233280 == (r * 9301 + 49297) % 233280
  {
    ModuloMore(9301 * q, r * 9301 + 49297);
  }

  lemma {:induction false} ModuloMore(q: nat, x: nat)
    ensures (233280 * q + x) % 233280 == x % 233280
  {
    if q > 0 { ModuloMore(q - 1, x); }
  }

  function Closed(seed: nat, turns: nat): nat {
    Power(turns) * seed + 49297 * Sum(turns)
  }

  lemma ClosedStep(seed: nat, turns: nat)
    ensures Closed(seed, turns + 1) == Closed(seed, turns) * 9301 + 49297
  {
    var p := Power(turns);
    assert (9301 * p) * seed == 9301 * (p * seed);
  }

  lemma SmallSeed(seed: nat)
    requires seed * 9301 + 49297 < UINT64
    ensures NextSeed(seed) == (seed * 9301 + 49297) % 233280
  {
  }

  /** The seeds in closed form: the first product wraps at 64 bits if it has to, and none after it does. */
  lemma {:induction false} SeedIs(seed: nat, turns: nat)
    requires turns > 0
    ensures var first := (seed * 9301 + 49297) % 0x1_0000_0000_0000_0000;
            SeedAfter(seed, turns) == (Power(turns - 1) * first + 49297 * Sum(turns - 1)) % 233280
  {
    hide Power, Sum;
    var first := (seed * 9301 + 49297) % UINT64;
    ClosedIs(first, turns - 1);
    hide Closed, NextSeed;
    if turns == 1 {
      FirstSeed(seed);
    } else {
      SeedIs(seed, turns - 1);
      ClosedIs(first, turns - 2);
      SeedStep(first, SeedAfter(seed, turns - 1), turns - 2);
    }
  }

  lemma FirstSeed(seed: nat)
    ensures SeedAfter(seed, 1) == Closed((seed * 9301 + 49297) % UINT64, 0) % 233280
  {
    hide Closed;
    assert SeedAfter(seed, 1) == NextSeed(seed) by { hide NextSeed; }
    hide SeedAfter;
    var first := (seed * 9301 + 49297) % UINT64;
    ClosedStart(first);
    assert NextSeed(seed) == first % 233280;
  }

  lemma SeedStep(first: nat, seed: nat, turns: nat)
    requires seed < 233280 && seed == Closed(first, turns) % 233280
    ensures NextSeed(seed) == Closed(first, turns + 1) % 233280
  {
    hide Closed;
    SmallSeed(seed);
    hide NextSeed;
    Congruent(seed, Closed(first, turns));
    ClosedStep(first, turns);
  }

  lemma ClosedIs(seed: nat, turns: nat)
    ensures Power(turns) * seed + 49297 * Sum(turns) == Closed(seed, turns)
  {
  }

  lemma ClosedStart(seed: nat)
    ensures Closed(seed, 0) == seed
  {
  }

  /** The position drawn from what is left is always in bounds. */
  lemma PickInBounds(seed: nat, n: nat)
    requires seed < 233280 && 0 < n
    ensures seed * n / 233280 < n
  {
    assert seed * n <= 233279 * n;
  }

  /** The position a seed draws from n that are left. */
  function Pick(seed: nat, n: nat): (i: nat)
    requires seed < 233280 && 0 < n
    ensures i < n
  {
    PickInBounds(seed, n);
    seed * n / 233280
  }

  /** The position is the part of n that the seed is of its range, rounded down. */
  lemma PickMeans(seed: nat, n: nat)
    requires seed < 233280 && 0 < n
    ensures Pick(seed, n) * 233280 <= seed * n < (Pick(seed, n) + 1) * 233280
  {
    var x := seed * n;
  }

  function Except(s: string, i: nat): (r: string)
    requires i < |s|
    ensures |r| == |s| - 1
  {
    s[..i] + s[i + 1..]
  }

  /** The draws as the generator makes them: the seed decides the order, and nothing else does. */
  function Drawn(source: string, seed: nat): (drawn: string)
    requires source != []
    ensures |drawn| == |source|
    decreases |source|
  {
    if |source| == 1 then source
    else
      var s := NextSeed(seed);
      var i := Pick(s, |source|);
      [source[i]] + Drawn(Except(source, i), s)
  }

  /** The characters still to draw from after some draws. */
  function Left(source: string, seed: nat, draws: nat): (left: string)
    requires draws < |source|
    ensures |left| == |source| - draws
  {
    if draws == 0 then source
    else
      var before := Left(source, seed, draws - 1);
      Except(before, Pick(SeedAfter(seed, draws), |before|))
  }

  lemma {:induction false} SeedShift(seed: nat, turns: nat)
    ensures SeedAfter(NextSeed(seed), turns) == SeedAfter(seed, turns + 1)
  {
    hide NextSeed;
    if turns > 0 { SeedShift(seed, turns - 1); }
  }

  lemma {:induction false} LeftShift(source: string, seed: nat, draws: nat)
    requires draws + 1 < |source|
    ensures Left(source, seed, draws + 1)
            == Left(Except(source, Pick(NextSeed(seed), |source|)), NextSeed(seed), draws)
  {
    hide NextSeed, Pick, Except;
    SeedShift(seed, draws);
    if draws > 0 { LeftShift(source, seed, draws - 1); }
  }

  /** The character a seed picks among those left; the last is what remains. */
  function Choice(left: string, seed: nat): char
    requires left != [] && seed < 233280
  {
    if |left| == 1 then left[0] else left[Pick(seed, |left|)]
  }

  /** Each character drawn is the one its own seed picks among those left. */
  lemma {:induction false} DrawnAt(source: string, seed: nat, draws: nat)
    requires draws < |source|
    ensures Drawn(source, seed)[draws] == Choice(Left(source, seed, draws), SeedAfter(seed, draws + 1))
    decreases |source|
  {
    hide NextSeed, Pick, Except;
    if draws == 0 {
      assert SeedAfter(seed, 1) == NextSeed(SeedAfter(seed, 0));
    } else {
      var s := NextSeed(seed);
      var rest := Except(source, Pick(s, |source|));
      assert Drawn(source, seed)[draws] == Drawn(rest, s)[draws - 1] by { hide Left, SeedAfter; }
      hide Drawn, Left, SeedAfter, Choice;
      DrawnAt(rest, s, draws - 1);
      LeftShift(source, seed, draws - 1);
      SeedShift(seed, draws);
    }
  }

  /** The result is a permutation, even when the product wraps. */
  lemma {:induction false} DrawnIsPermutation(source: string, seed: nat)
    requires source != []
    ensures multiset(Drawn(source, seed)) == multiset(source)
    decreases |source|
  {
    hide NextSeed, Pick;
    if |source| > 1 {
      var s := NextSeed(seed);
      var i := Pick(s, |source|);
      DrawnIsPermutation(source[..i] + source[i + 1..], s);
      assert source == source[..i] + [source[i]] + source[i + 1..];
    }
  }

  /** shuffle: draws the characters one by one. */
  method Shuffle(alphabet: string, seed: nat) returns (shuffled: string)
    requires alphabet != []
    ensures shuffled == Drawn(alphabet, seed) && multiset(shuffled) == multiset(alphabet)
  {
    hide NextSeed, Pick;
    var source := alphabet;
    var s: nat := seed;
    shuffled := [];
    while |source| > 1
      invariant |source| >= 1
      invariant shuffled + Drawn(source, s) == Drawn(alphabet, seed)
    {
      var i := Pick(NextSeed(s), |source|);
      shuffled, source, s := shuffled + [source[i]], source[..i] + source[i + 1..], NextSeed(s);
    }
    shuffled := shuffled + [source[0]];
    DrawnIsPermutation(alphabet, seed);
  }

  lemma PermutationKeepsDistinct(a: string, b: string)
    requires multiset(a) == multiset(b) && NoDuplicates(a)
    ensures NoDuplicates(b) && |a| == |b|
  {
    assert |a| == |multiset(a)| == |multiset(b)| == |b|;
    forall i, j | 0 <= i < j < |b|
      ensures b[i] != b[j]
    {
      var before, after := b[..j], b[j..];
      assert b == before + after;
      assert before[i] == b[i] && after[0] == b[j];
      assert multiset(b)[b[j]] == multiset(before)[b[j]] + multiset(after)[b[j]];
      AtMostOnce(a, b[j]);
    }
  }

  /** NewAbc: accepts exactly 64 distinct characters, and returns them in another order. */
  method NewAbc(alphabet: string, seed: nat) returns (r: Result<string>)
    ensures r.Ok? <==> IsAlphabet(alphabet)
    ensures r.Ok? ==> IsAlphabet(r.value) && multiset(r.value) == multiset(alphabet) && r.value == Drawn(alphabet, seed)
  {
    if |alphabet| != ALPHABET_SIZE { return Err("alphabet must contain 64 unique characters"); }
    var repeated := NonUnique(alphabet);
    if repeated { return Err("alphabet must contain unique characters only"); }
    var shuffled := Shuffle(alphabet, seed);
    PermutationKeepsDistinct(alphabet, shuffled);
    r := Ok(shuffled);
  }

  // ---- ids ---------------------------------------------------------------------------------------

  /** The id for a millisecond, a worker and a counter, for some choice of random bytes. */
  ghost predicate IsId(abc: string, ms: nat, worker: nat, count: nat, id: string)
    requires IsAlphabet(abc)
  {
    && |id| >= 9
    && Encodes(abc, ms, 8, 5, id[..8])
    && Encodes(abc, worker, 1, 5, id[8..9])
    && (if count == 0 then |id| == 9 else Encodes(abc, count, 0, 6, id[9..]))
  }

  /** What an id says about where it came from. */
  function Origin(abc: string, id: string): (nat, nat, nat)
    requires IsAlphabet(abc) && |id| >= 9
  {
    (Decode(abc, id[..8], 5), Decode(abc, id[8..9], 5), if |id| == 9 then 0 else Decode(abc, id[9..], 6))
  }

  /** Every id decodes to its millisecond, worker and counter, whatever the random bytes were. */
  lemma OriginOfId(abc: string, ms: nat, worker: nat, count: nat, id: string)
    requires IsAlphabet(abc) && IsId(abc, ms, worker, count, id)
    ensures Origin(abc, id) == (ms, worker, count)
  {
    DecodeEncoded(abc, ms, 8, 5, id[..8]);
    DecodeEncoded(abc, worker, 1, 5, id[8..9]);
    if count > 0 { DecodeEncoded(abc, count, 0, 6, id[9..]); }
  }

  /** The worker always fits one symbol; the milliseconds fit eight exactly below 2^40. */
  lemma WhatFits(ms: nat, worker: nat, count: nat)
    requires worker <= 31
    ensures EncodeFits(worker, 1, 5) && EncodeFits(count, 0, 6)
    ensures EncodeFits(ms, 8, 5) <==> ms < Pow2(40)
  {
    SizeIsExact(worker, 5);
    SizeIsExact(ms, 5);
    SmallPowers();
    if SizeOf(worker, 5) > 1 { Pow2Monotone(5, 5 * (SizeOf(worker, 5) - 1)); }
    if SizeOf(ms, 5) <= 8 {
      Pow2Monotone(5 * SizeOf(ms, 5), 40);
    } else {
      Pow2Monotone(40, 5 * (SizeOf(ms, 5) - 1));
    }
  }

  // ---- the clock ---------------------------------------------------------------------------------

  /** Nanoseconds since the epoch fit a time.Duration. */
  predicate IsReading(ns: int) {
    -0x8000_0000_0000_0000 <= ns < 0x8000_0000_0000_0000
  }

  /** Integer division that truncates toward zero. */
  function Millis(ns: int): (ms: int)
    ensures ns >= 0 ==> ms * 1_000_000 <= ns < (ms + 1) * 1_000_000
    ensures ns <= 0 ==> (ms - 1) * 1_000_000 < ns <= ms * 1_000_000
  {
    if ns >= 0 then ns / 1_000_000 else -((-ns) / 1_000_000)
  }

  /** Conversion to uint wraps a reading before the epoch. */
  function MsOf(ns: int): (ms: nat)
    ensures ms < UINT64
  {
    Millis(ns) % UINT64
  }

  /** getMsAndCounter: the counter runs within one millisecond and restarts with the next. */
  function Tick(ms: nat, count: nat, ns: int): (nat, nat) {
    if MsOf(ns) == ms then (ms, (count + 1) % UINT64) else (MsOf(ns), 0)
  }

  /** The generator's state after each reading. */
  function Stamps(ms: nat, count: nat, readings: seq<int>): (s: seq<(nat, nat)>)
    ensures |s| == |readings|
    decreases |readings|
  {
    if readings == [] then []
    else
      var next := Tick(ms, count, readings[0]);
      [next] + Stamps(next.0, next.1, readings[1..])
  }

  ghost predicate Clock(readings: seq<int>) {
    && (forall i :: 0 <= i < |readings| ==> IsReading(readings[i]))
    && (forall i, j :: 0 <= i < j < |readings| ==> readings[i] <= readings[j])
  }

  lemma MillisMonotone(a: int, b: int)
    requires a <= b
    ensures Millis(a) <= Millis(b)
  {
  }

  lemma MillisRange(a: int)
    requires IsReading(a)
    ensures -0x8000_0000_0000_0000 <= Millis(a) < 0x8000_0000_0000_0000
  {
  }

  /** The wrapped milliseconds of two readings agree only when the milliseconds do. */
  lemma MsInjective(a: int, b: int)
    requires IsReading(a) && IsReading(b) && MsOf(a) == MsOf(b)
    ensures Millis(a) == Millis(b)
  {
    MillisRange(a);
    MillisRange(b);
  }

  /** So do those of every reading between them. */
  lemma SameMillis(a: int, b: int, c: int)
    requires IsReading(a) && IsReading(b) && IsReading(c) && a <= b <= c && MsOf(a) == MsOf(c)
    ensures MsOf(b) == MsOf(c)
  {
    MsInjective(a, c);
    hide MsOf;
    MillisMonotone(a, b);
    MillisMonotone(b, c);
    hide Millis;
    MsDecided(b, c);
  }

  lemma MsDecided(a: int, b: int)
    requires Millis(a) == Millis(b)
    ensures MsOf(a) == MsOf(b)
  {
  }

  /** Each stamp is the tick of the one before. */
  lemma {:induction false} StampStep(ms: nat, count: nat, readings: seq<int>, i: nat)
    requires i < |readings|
    ensures var s := Stamps(ms, count, readings);
            s[i] == if i == 0 then Tick(ms, count, readings[0]) else Tick(s[i - 1].0, s[i - 1].1, readings[i])
    decreases i
  {
    if i > 0 {
      var t := Tick(ms, count, readings[0]);
      StampStep(t.0, t.1, readings[1..], i - 1);
    }
  }

  lemma {:induction false} StampIsReading(ms: nat, count: nat, readings: seq<int>, i: nat)
    requires i < |readings|
    ensures Stamps(ms, count, readings)[i].0 == MsOf(readings[i])
    decreases i
  {
    StampStep(ms, count, readings, i);
    if i > 0 { StampIsReading(ms, count, readings, i - 1); }
  }

  /** Fewer calls than a uint can count leave the counter short of wrapping. */
  lemma {:induction false} CountBound(ms: nat, readings: seq<int>, i: nat)
    requires i < |readings| < UINT64
    ensures Stamps(ms, 0, readings)[i].1 <= i + 1
    decreases i
  {
    StampStep(ms, 0, readings, i);
    if i > 0 { CountBound(ms, readings, i - 1); }
  }

  /** Within one millisecond the counter counts the calls. */
  lemma {:induction false} CountRuns(ms: nat, readings: seq<int>, i: nat, j: nat)
    requires i < j < |readings| < UINT64 && Clock(readings)
    requires MsOf(readings[i]) == MsOf(readings[j])
    ensures Stamps(ms, 0, readings)[j].1 == Stamps(ms, 0, readings)[i].1 + (j - i)
    decreases j
  {
    hide MsOf, Stamps;
    SameMillis(readings[i], readings[j - 1], readings[j]);
    StampStep(ms, 0, readings, j);
    StampIsReading(ms, 0, readings, j - 1);
    CountBound(ms, readings, j - 1);
    if i < j - 1 { CountRuns(ms, readings, i, j - 1); }
  }

  /** No two calls get the same millisecond and counter. */
  lemma StampsDistinct(ms: nat, readings: seq<int>, i: nat, j: nat)
    requires i < j < |readings| < UINT64 && Clock(readings)
    ensures Stamps(ms, 0, readings)[i] != Stamps(ms, 0, readings)[j]
  {
    StampIsReading(ms, 0, readings, i);
    StampIsReading(ms, 0, readings, j);
    if MsOf(readings[i]) == MsOf(readings[j]) { CountRuns(ms, readings, i, j); }
  }

  // ---- runs --------------------------------------------------------------------------------------

  /** The results a generator gives for a run of readings, for some choice of random bytes at every call. */
  ghost predicate IsRun(abc: string, worker: nat, readings: seq<int>, results: seq<Result<string>>)
    requires IsAlphabet(abc)
  {
    && |results| == |readings|
    && forall i :: 0 <= i < |results| && results[i].Ok? ==>
         IsId(abc, Stamps(0, 0, readings)[i].0, worker, Stamps(0, 0, readings)[i].1, results[i].value)
  }

  /** Over every run of a fresh generator, all ids are distinct. */
  lemma IdsDistinct(abc: string, worker: nat, readings: seq<int>, results: seq<Result<string>>, i: nat, j: nat)
    requires IsAlphabet(abc) && IsRun(abc, worker, readings, results)
    requires Clock(readings) && |readings| < UINT64
    requires i < j < |results| && results[i].Ok? && results[j].Ok?
    ensures results[i].value != results[j].value
  {
    var s := Stamps(0, 0, readings);
    StampsDistinct(0, readings, i, j);
    OriginOfId(abc, s[i].0, worker, s[i].1, results[i].value);
    OriginOfId(abc, s[j].0, worker, s[j].1, results[j].value);
  }

  /** Generators with different workers and one alphabet never collide, whatever their clocks. */
  lemma WorkersNeverCollide(abc: string, w1: nat, w2: nat, r1: seq<int>, r2: seq<int>,
                            ids1: seq<Result<string>>, ids2: seq<Result<string>>, i: nat, j: nat)
    requires IsAlphabet(abc) && w1 != w2 && IsRun(abc, w1, r1, ids1) && IsRun(abc, w2, r2, ids2)
    requires i < |ids1| && j < |ids2| && ids1[i].Ok? && ids2[j].Ok?
    ensures ids1[i].value != ids2[j].value
  {
    var s1, s2 := Stamps(0, 0, r1), Stamps(0, 0, r2);
    OriginOfId(abc, s1[i].0, w1, s1[i].1, ids1[i].value);
    OriginOfId(abc, s2[j].0, w2, s2[j].1, ids2[j].value);
  }

  /** A source of random bytes, three streams a call. */
  datatype Random = Random(ms: nat -> nat, worker: nat -> nat, count: nat -> nat) {
    ghost predicate Bytes() {
      forall i :: ms(i) < 256 && worker(i) < 256 && count(i) < 256
    }
  }

  class Shortid {
    const abc: string
    const worker: nat
    var ms: nat
    var count: nat

    ghost predicate Valid() {
      IsAlphabet(abc) && worker <= 31
    }

    constructor (abc: string, worker: nat)
      requires IsAlphabet(abc) && worker <= 31
      ensures Valid() && this.abc == abc && this.worker == worker && ms == 0 && count == 0
    {
      this.abc, this.worker, ms, count := abc, worker, 0, 0;
    }

    /** GenerateInternal: fails exactly when the milliseconds no longer fit eight symbols. */
    method Generate(ns: int, random: Random) returns (r: Result<string>)
      requires Valid() && random.Bytes()
      modifies this
      ensures (ms, count) == Tick(old(ms), old(count), ns)
      ensures r.Ok? <==> MsOf(ns) < Pow2(40)
      ensures r.Ok? ==> IsId(abc, ms, worker, count, r.value)
    {
      var now := MsOf(ns);
      if now == ms {
        count := (count + 1) % UINT64;
      } else {
        count, ms := 0, now;
      }
      WhatFits(ms, worker, count);
      var head := Encode(abc, ms, 8, 5, random.ms);
      if head.Err? { return head; }
      var who := Encode(abc, worker, 1, 5, random.worker);
      if who.Err? { return who; }
      var id := head.value + who.value;
      assert id[..8] == head.value && id[8..9] == who.value;
      if count > 0 {
        var tail := Encode(abc, count, 0, 6, random.count);
        if tail.Err? { return tail; }
        ghost var short := id;
        id := id + tail.value;
        assert id[..8] == short[..8] && id[8..9] == short[8..9] && id[9..] == tail.value;
      }
      r := Ok(id);
    }
  }

  /** New: refuses a worker above 31 and anything but 64 distinct characters. */
  method New(worker: nat, alphabet: string, seed: nat) returns (r: Result<Shortid>)
    ensures r.Ok? <==> worker <= 31 && IsAlphabet(alphabet)
    ensures r.Ok? ==> r.value.Valid() && r.value.worker == worker && r.value.abc == Drawn(alphabet, seed)
    ensures r.Ok? ==> multiset(r.value.abc) == multiset(alphabet)
  {
    if worker > 31 { return Err("expected worker in the range [0,31]"); }
    var abc := NewAbc(alphabet, seed);
    if abc.Err? { return Err(abc.reason); }
    var g := new Shortid(abc.value, worker);
    r := Ok(g);
  }

  /** A whole run of a fresh generator. */
  method GenerateAll(abc: string, worker: nat, readings: seq<int>, random: nat -> Random)
    returns (results: seq<Result<string>>)
    requires IsAlphabet(abc) && worker <= 31 && forall i :: random(i).Bytes()
    ensures IsRun(abc, worker, readings, results)
    ensures forall i :: 0 <= i < |results| ==> (results[i].Ok? <==> MsOf(readings[i]) < Pow2(40))
  {
    hide IsId, Stamps, Pow2, NoDuplicates;
    var g := new Shortid(abc, worker);
    results := [];
    for i := 0 to |readings|
      invariant g.Valid() && g.abc == abc && g.worker == worker && |results| == i
      invariant (g.ms, g.count) == if i == 0 then (0, 0) else Stamps(0, 0, readings)[i - 1]
      invariant forall j :: 0 <= j < i && results[j].Ok? ==>
                  IsId(abc, Stamps(0, 0, readings)[j].0, worker, Stamps(0, 0, readings)[j].1, results[j].value)
      invariant forall j :: 0 <= j < i ==> (results[j].Ok? <==> MsOf(readings[j]) < Pow2(40))
    {
      StampStep(0, 0, readings, i);
      var r := g.Generate(readings[i], random(i));
      results := results + [r];
    }
  }
}
