/** When a call goes to the network, and how old its answer can be, by the clock of the calls (jwtutil/jwks.go). */
module JwksAge {
  import opened Values
  import opened Jwks

  /** The last of the first n calls that went to the network. */
  function LastTry(s: Source, calls: seq<Call>, n: nat): (r: Option<nat>)
    requires n <= |calls|
    ensures r.Some? ==> r.value < n
  {
    if n == 0 then None else if Attempts(s, calls, n - 1) then Some(n - 1) else LastTry(s, calls, n - 1)
  }

  /** The last of the first n calls that went there and brought a key set. */
  function LastGood(s: Source, calls: seq<Call>, n: nat): (r: Option<nat>)
    requires n <= |calls|
    ensures r.Some? ==> r.value < n && calls[r.value].fetch.Some?
  {
    if n == 0 then None
    else if Attempts(s, calls, n - 1) && calls[n - 1].fetch.Some? then Some(n - 1) else LastGood(s, calls, n - 1)
  }

  /** They are such calls, and there is no later one. */
  lemma {:induction false} LastMeans(s: Source, calls: seq<Call>, n: nat)
    requires n <= |calls|
    ensures var r := LastTry(s, calls, n);
            && (r.Some? ==> Attempts(s, calls, r.value))
            && forall j :: (if r.Some? then r.value + 1 else 0) <= j < n ==> !Attempts(s, calls, j)
    ensures var r := LastGood(s, calls, n);
            && (r.Some? ==> Attempts(s, calls, r.value) && calls[r.value].fetch.Some?)
            && forall j :: (if r.Some? then r.value + 1 else 0) <= j < n ==>
                 !(Attempts(s, calls, j) && calls[j].fetch.Some?)
  {
    hide Attempts;
    if n > 0 { LastMeans(s, calls, n - 1); }
  }

  /** A call that goes to the network refreshes, and any other changes nothing. */
  lemma StepRefreshes(s: Source, c: Call)
    ensures Step(s, c).0 == if Fetches(s, c) then Refreshed(s, c) else s
  {
  }

  /** What the source remembers: the last attempt, and the last set it got with the reading taken after it. */
  lemma {:induction false} Remembers(s: Source, calls: seq<Call>, n: nat)
    requires Configured(s) && n <= |calls|
    ensures var a, try, good := After(s, calls, n), LastTry(s, calls, n), LastGood(s, calls, n);
            && a.lastAttempt == (if try.Some? then Some(calls[try.value].t2) else None)
            && a.fetchedAt == (if good.Some? then Some(calls[good.value].t3) else None)
            && a.keys == (if good.Some? then calls[good.value].fetch.value else map[])
  {
    hide Step, Fetches;
    if n > 0 {
      Remembers(s, calls, n - 1);
      StepRefreshes(After(s, calls, n - 1), calls[n - 1]);
    }
  }

  /** The set of an earlier fetch answers a call: it has the key, and was got less than the lifetime ago. */
  predicate Serves(s: Source, fetched: Call, c: Call) {
    fetched.fetch.Some? && Lookup(fetched.fetch.value, c.kid).Some? && c.t0 - fetched.t3 < s.ttl
  }

  /**
   * Exactly when a call goes to the network: there is a URL, the last set fetched does not serve it, and the last
   * attempt, if any, was at least the minimum interval ago.
   */
  lemma AttemptsIff(s: Source, calls: seq<Call>, i: nat)
    requires Configured(s) && i < |calls|
    ensures var try, good := LastTry(s, calls, i), LastGood(s, calls, i);
            Attempts(s, calls, i) <==>
              && s.url != ""
              && (good.None? || !Serves(s, calls[good.value], calls[i]))
              && (try.None? || calls[i].t1 - calls[try.value].t2 >= s.minRefresh)
  {
    hide After;
    Remembers(s, calls, i);
    KeepsSettings(s, calls, i);
  }

  /** A set past its lifetime is fetched anew, unless the last attempt is too recent. */
  lemma StaleIsRefetched(s: Source, calls: seq<Call>, i: nat)
    requires Configured(s) && i < |calls| && s.url != "" && LastGood(s, calls, i).Some?
    requires calls[i].t0 - calls[LastGood(s, calls, i).value].t3 >= s.ttl
    ensures var try := LastTry(s, calls, i);
            Attempts(s, calls, i) || (try.Some? && calls[i].t1 - calls[try.value].t2 < s.minRefresh)
  {
    AttemptsIff(s, calls, i);
  }

  /** A kid held in a set within its lifetime is answered from it, and causes no attempt. */
  lemma YoungSetServes(s: Source, calls: seq<Call>, i: nat)
    requires Configured(s) && i < |calls| && s.url != "" && LastGood(s, calls, i).Some?
    requires var c := calls[LastGood(s, calls, i).value];
             calls[i].kid != "" && calls[i].kid in c.fetch.value && calls[i].t0 - c.t3 < s.ttl
    ensures !Attempts(s, calls, i)
    ensures AnswerOf(s, calls, i) == Key(calls[LastGood(s, calls, i).value].fetch.value[calls[i].kid])
  {
    AttemptsIff(s, calls, i);
    Remembers(s, calls, i);
    KeepsSettings(s, calls, i);
    StepRefreshes(After(s, calls, i), calls[i]);
    AnswerIsLookup(After(s, calls, i), calls[i]);
  }

  /**
   * How an answer can be older than the lifetime: the call tried to fetch and failed, or it was not allowed to try.
   */
  lemma AgedAnswer(s: Source, calls: seq<Call>, i: nat)
    requires Configured(s) && i < |calls| && AnswerOf(s, calls, i).Key?
    ensures LastGood(s, calls, i + 1).Some?
    ensures var f, try := LastGood(s, calls, i + 1).value, LastTry(s, calls, i);
            f < i && calls[i].t0 - calls[f].t3 >= s.ttl ==>
              || (Attempts(s, calls, i) && calls[i].fetch.None?)
              || (try.Some? && calls[i].t1 - calls[try.value].t2 < s.minRefresh)
  {
    KeepsSettings(s, calls, i);
    Remembers(s, calls, i + 1);
    AnswerIsLookup(After(s, calls, i), calls[i]);
    if LastGood(s, calls, i + 1).Some? && LastGood(s, calls, i + 1).value < i {
      assert LastGood(s, calls, i) == LastGood(s, calls, i + 1);
      if calls[i].t0 - calls[LastGood(s, calls, i).value].t3 >= s.ttl { StaleIsRefetched(s, calls, i); }
    }
  }

  /**
   * With the endpoint up, every answer comes from a set fetched by the call itself, or less than the lifetime or the
   * minimum interval ago: a key that was withdrawn is gone by then.
   */
  lemma AgeBound(s: Source, calls: seq<Call>, i: nat)
    requires Configured(s) && i < |calls| && AnswerOf(s, calls, i).Key?
    requires forall j :: 0 <= j <= i && Attempts(s, calls, j) ==> calls[j].fetch.Some?
    ensures LastGood(s, calls, i + 1).Some?
    ensures var f := LastGood(s, calls, i + 1).value;
            f == i || calls[i].t0 - calls[f].t3 < s.ttl || calls[i].t1 - calls[f].t2 < s.minRefresh
    ensures calls[i].kid != "" ==>
              Find(calls[LastGood(s, calls, i + 1).value].fetch.value, calls[i].kid) == Some(AnswerOf(s, calls, i).key)
  {
    hide After, Attempts, AnswerOf;
    AgedAnswer(s, calls, i);
    TriesAreGood(s, calls, i);
    if calls[i].kid != "" { AnswerFound(s, calls, i); }
  }

  lemma AnswerFound(s: Source, calls: seq<Call>, i: nat)
    requires Configured(s) && i < |calls| && AnswerOf(s, calls, i).Key? && calls[i].kid != ""
    ensures LastGood(s, calls, i + 1).Some?
    ensures Find(calls[LastGood(s, calls, i + 1).value].fetch.value, calls[i].kid) == Some(AnswerOf(s, calls, i).key)
  {
    Remembers(s, calls, i + 1);
    KeepsSettings(s, calls, i);
    AnswerIsLookup(After(s, calls, i), calls[i]);
  }

  lemma {:induction false} TriesAreGood(s: Source, calls: seq<Call>, n: nat)
    requires n <= |calls| && forall j :: 0 <= j < n && Attempts(s, calls, j) ==> calls[j].fetch.Some?
    ensures LastTry(s, calls, n) == LastGood(s, calls, n)
  {
    hide Attempts;
    if n > 0 { TriesAreGood(s, calls, n - 1); }
  }

  /** An empty kid resolves exactly when the set has one key, to that key. */
  lemma EmptyKidIff(keys: KeySet, key: RsaKey)
    ensures Lookup(keys, "") == Some(key) <==> exists kid :: keys == map[kid := key]
  {
    if |keys| == 1 {
      OneKey(keys);
      var k :| k in keys;
      assert keys == map[k := keys[k]];
    }
    if kid :| keys == map[kid := key] { assert keys.Keys == {kid} && kid in keys; }
  }

  // ---- the decoded numbers -----------------------------------------------------------------------

  /** The bytes of a number, most significant first. */
  function Bytes(n: nat): (b: seq<nat>)
    ensures forall i :: 0 <= i < |b| ==> b[i] < 256
  {
    if n == 0 then [] else Bytes(n / 256) + [n % 256]
  }

  lemma {:induction false} BytesReadBack(n: nat)
    ensures BigEndian(Bytes(n)) == n
  {
    if n > 0 {
      BytesReadBack(n / 256);
      assert Bytes(n)[..|Bytes(n)| - 1] == Bytes(n / 256);
    }
  }

  /** Leading zeros do not count. */
  lemma {:induction false} ZerosDoNotCount(b: seq<nat>)
    ensures BigEndian([0] + b) == BigEndian(b)
    decreases |b|
  {
    var z := [0] + b;
    if b == [] {
      assert z[..|z| - 1] == [];
    } else {
      assert z[..|z| - 1] == [0] + b[..|b| - 1];
      ZerosDoNotCount(b[..|b| - 1]);
    }
  }

  const SIGNING := {"", "sig"}
  const RS256 := {"", "RS256"}

  /** A key published for signing, with or without a leading zero, is usable as the key it is. */
  lemma PublishedIsUsable(n: nat, e: nat, use: string, alg: string, kid: string)
    requires n > 0 && 0 < e < 0x8000_0000 && use in SIGNING && alg in RS256
    ensures UsableKey(Jwk("RSA", use, alg, kid, Some(Bytes(n)), Some(Bytes(e)))) == Some(RsaKey(n, e))
    ensures UsableKey(Jwk("RSA", use, alg, kid, Some([0] + Bytes(n)), Some([0] + Bytes(e)))) == Some(RsaKey(n, e))
  {
    BytesReadBack(n);
    BytesReadBack(e);
    ZerosDoNotCount(Bytes(n));
    ZerosDoNotCount(Bytes(e));
  }

  function WithoutZeros(b: seq<nat>): seq<nat> {
    if b != [] && b[0] == 0 then WithoutZeros(b[1..]) else b
  }

  lemma {:induction false} ZerosMore(b: seq<nat>, x: nat)
    ensures WithoutZeros(b + [x]) == if WithoutZeros(b) == [] then WithoutZeros([x]) else WithoutZeros(b) + [x]
    decreases |b|
  {
    if b == [] {
      assert b + [x] == [x];
    } else if b[0] == 0 {
      assert (b + [x])[1..] == b[1..] + [x];
      ZerosMore(b[1..], x);
    }
  }

  /** Bytes are those of the number they stand for, after any zeros in front. */
  lemma {:induction false} NumberReadsBack(b: seq<nat>)
    requires forall i :: 0 <= i < |b| ==> b[i] < 256
    ensures Bytes(BigEndian(b)) == WithoutZeros(b)
    decreases |b|
  {
    if b != [] {
      var front, last := b[..|b| - 1], b[|b| - 1];
      NumberReadsBack(front);
      ZerosMore(front, last);
      assert b == front + [last];
      var n := BigEndian(front);
      assert BigEndian(b) == n * 256 + last && (n * 256 + last) / 256 == n && (n * 256 + last) % 256 == last;
      assert last == 0 ==> [last][1..] == [];
      BytesReadBack(n);
    }
  }

  /** And nothing else is usable: an entry that gives a key is that key, published for signing. */
  lemma UsableIsPublished(k: Jwk, key: RsaKey)
    requires UsableKey(k) == Some(key)
    requires forall i :: 0 <= i < |k.n.value| ==> k.n.value[i] < 256
    requires forall i :: 0 <= i < |k.e.value| ==> k.e.value[i] < 256
    ensures k.kty == "RSA" && k.use in SIGNING && k.alg in RS256 && 0 < key.e < 0x8000_0000
    ensures WithoutZeros(k.n.value) == Bytes(key.n) && WithoutZeros(k.e.value) == Bytes(key.e)
  {
    NumberReadsBack(k.n.value);
    NumberReadsBack(k.e.value);
  }
}
