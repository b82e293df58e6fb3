/** Code-point string order (Go's byte order agrees with it) and the sorted listing of a finite set. */
module Ordering {

  /** Strict lexicographic order; Go's `<` on strings. */
  predicate Less(a: string, b: string) {
    if b == [] then false
    else if a == [] then true
    else a[0] < b[0] || (a[0] == b[0] && Less(a[1..], b[1..]))
  }

  lemma {:induction false} LessTrichotomy(a: string, b: string)
    ensures a != b ==> Less(a, b) || Less(b, a)
    ensures Less(a, b) ==> !Less(b, a) && a != b
  {
    if a != [] && b != [] {
      LessTrichotomy(a[1..], b[1..]);
      assert a == [a[0]] + a[1..] && b == [b[0]] + b[1..];
    }
  }

  lemma {:induction false} LessTransitive(a: string, b: string, c: string)
    requires Less(a, b) && Less(b, c)
    ensures Less(a, c)
  {
    if a != [] && a[0] == b[0] == c[0] {
      LessTransitive(a[1..], b[1..], c[1..]);
    }
  }

  /** Strictly increasing, hence free of duplicates. */
  predicate Increasing(s: seq<string>) {
    forall i, j :: 0 <= i < j < |s| ==> Less(s[i], s[j])
  }

  predicate IsLeast(keys: set<string>, m: string) {
    m in keys && forall k <- keys :: k == m || Less(m, k)
  }

  lemma {:induction false} LeastExists(keys: set<string>) returns (m: string)
    requires keys != {}
    ensures IsLeast(keys, m)
    decreases |keys|
  {
    var x :| x in keys;
    m := x;
    var rest := keys - {x};
    if rest != {} {
      var r := LeastExists(rest);
      LessTrichotomy(x, r);
      m := if Less(x, r) then x else r;
      forall k | k in keys
        ensures k == m || Less(m, k)
      {
        assert k == x || k in rest;
        if k != x && k != r && Less(x, r) { LessTransitive(x, r, k); }
      }
    }
  }

  lemma LeastFirst(keys: set<string>, m: string, rest: seq<string>)
    requires IsLeast(keys, m) && Increasing(rest) && |rest| == |keys - {m}|
    requires forall k :: k in rest <==> k in keys - {m}
    ensures Increasing([m] + rest) && |[m] + rest| == |keys|
    ensures forall k :: k in [m] + rest <==> k in keys
  {
    hide Less;
    assert keys == (keys - {m}) + {m};
    forall i | 0 <= i < |rest|
      ensures Less(m, rest[i])
    {
      assert rest[i] in rest;
    }
  }

  /** The members of a set in increasing order. */
  ghost function Sorted(keys: set<string>): (s: seq<string>)
    ensures Increasing(s)
    ensures forall k :: k in s <==> k in keys
    ensures |s| == |keys|
    decreases |keys|
  {
    if keys == {} then []
    else
      assert exists m :: IsLeast(keys, m) by { var m := LeastExists(keys); }
      var m :| IsLeast(keys, m);
      var rest := Sorted(keys - {m});
      LeastFirst(keys, m, rest);
      [m] + rest
  }

  /** There is only one increasing listing of a set: any sort, from any starting order, produces it. */
  lemma {:induction false} IncreasingIsUnique(s: seq<string>, t: seq<string>)
    requires Increasing(s) && Increasing(t) && |s| == |t|
    requires forall k :: k in s <==> k in t
    ensures s == t
  {
    if s != [] {
      assert s[0] in t && t != [] && t[0] in s;
      var i :| 0 <= i < |t| && t[i] == s[0];
      var j :| 0 <= j < |s| && s[j] == t[0];
      LessTrichotomy(t[0], s[0]);
      forall k
        ensures k in s[1..] <==> k in t[1..]
      {
        TailMembers(s, k);
        TailMembers(t, k);
      }
      IncreasingIsUnique(s[1..], t[1..]);
      assert s == [s[0]] + s[1..] && t == [t[0]] + t[1..];
    }
  }

  lemma TailMembers(s: seq<string>, k: string)
    requires s != [] && Increasing(s)
    ensures k in s[1..] <==> k in s && k != s[0]
  {
    LessTrichotomy(s[0], k);
    if k in s && k != s[0] {
      var i :| 0 <= i < |s| && s[i] == k;
      assert s[1..][i - 1] == k;
    }
    if k in s[1..] {
      var i :| 0 <= i < |s[1..]| && s[1..][i] == k;
      assert Less(s[0], s[i + 1]);
    }
  }

  predicate NonDecreasing(s: seq<string>) {
    forall i, j :: 0 <= i < j < |s| ==> !Less(s[j], s[i])
  }

  function Insert(x: string, s: seq<string>): (r: seq<string>)
    requires NonDecreasing(s)
    ensures NonDecreasing(r)
    ensures multiset(r) == multiset(s) + multiset{x}
  {
    if s == [] then [x]
    else if !Less(s[0], x) then
      InsertFront(x, s);
      [x] + s
    else
      var rest := Insert(x, s[1..]);
      assert s == [s[0]] + s[1..];
      InsertBehind(s[0], x, s[1..], rest);
      [s[0]] + rest
  }

  lemma InsertFront(x: string, s: seq<string>)
    requires NonDecreasing(s) && s != [] && !Less(s[0], x)
    ensures NonDecreasing([x] + s)
  {
    forall i | 0 <= i < |s|
      ensures !Less(s[i], x)
    {
      if Less(s[i], x) {
        LessTrichotomy(s[0], s[i]);
        if s[0] != s[i] { LessTransitive(s[0], s[i], x); }
      }
    }
  }

  lemma InsertBehind(first: string, x: string, s: seq<string>, r: seq<string>)
    requires NonDecreasing([first] + s) && Less(first, x)
    requires NonDecreasing(r) && multiset(r) == multiset(s) + multiset{x}
    ensures NonDecreasing([first] + r)
  {
    LessTrichotomy(first, x);
    forall i | 0 <= i < |r|
      ensures !Less(r[i], first)
    {
      assert r[i] in multiset(r);
      if r[i] != x {
        assert r[i] in multiset(s);
        var j :| 0 <= j < |s| && s[j] == r[i];
        var all := [first] + s;
        assert all[j + 1] == r[i] && all[0] == first;
      }
    }
  }

  /** Go's sort.Strings: the same strings, counted with repetition, in nondecreasing order. */
  function SortStrings(s: seq<string>): (r: seq<string>)
    ensures NonDecreasing(r)
    ensures multiset(r) == multiset(s)
  {
    if s == [] then []
    else
      assert s == [s[0]] + s[1..];
      Insert(s[0], SortStrings(s[1..]))
  }

  lemma SortedMembers(s: seq<string>)
    ensures forall x :: x in SortStrings(s) <==> x in s
  {
    forall x
      ensures x in SortStrings(s) <==> x in s
    {
      assert x in SortStrings(s) <==> x in multiset(SortStrings(s));
      assert x in s <==> x in multiset(s);
    }
  }

  lemma EnumerationIsDistinct(r: seq<string>, keys: set<string>, i: nat, j: nat)
    requires multiset(r) == multiset(keys) && i < j < |r|
    ensures r[i] != r[j]
  {
    var before, after := r[..j], r[j..];
    assert r == before + after;
    assert multiset(r)[r[j]] == multiset(before)[r[j]] + multiset(after)[r[j]];
    assert before[i] == r[i] && after[0] == r[j];
    assert r[i] in multiset(before) && r[j] in multiset(after);
  }

  /** Sorting any enumeration of a set gives the one increasing listing, whatever order it started in. */
  lemma SortForgetsOrder(s: seq<string>, keys: set<string>)
    requires multiset(s) == multiset(keys)
    ensures SortStrings(s) == Sorted(keys)
  {
    var r := SortStrings(s);
    forall i, j | 0 <= i < j < |r|
      ensures Less(r[i], r[j])
    {
      EnumerationIsDistinct(r, keys, i, j);
      LessTrichotomy(r[i], r[j]);
    }
    forall k
      ensures k in r <==> k in keys
    {
      assert k in r <==> k in multiset(r);
    }
    assert |r| == |multiset(r)| == |keys|;
    IncreasingIsUnique(r, Sorted(keys));
  }

  /** Ranging over a Go map lists its keys in no particular order. */
  method RangeKeys(keys: set<string>) returns (r: seq<string>)
    ensures multiset(r) == multiset(keys)
  {
    r := [];
    var todo := keys;
    while todo != {}
      invariant todo <= keys && multiset(r) == multiset(keys - todo)
    {
      var k :| k in todo;
      assert keys - (todo - {k}) == (keys - todo) + {k};
      r, todo := r + [k], todo - {k};
    }
    assert keys - {} == keys;
  }

  method SortedKeys(keys: set<string>) returns (r: seq<string>)
    ensures r == Sorted(keys)
  {
    r := RangeKeys(keys);
    SortForgetsOrder(r, keys);
    r := SortStrings(r);
  }
}
