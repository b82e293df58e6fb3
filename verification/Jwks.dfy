/** The JWKS key source: a cached key set, a refresh throttle, and stale serving (jwtutil/jwks.go). */
module Jwks {
  import opened Values

  // ---- the key set -------------------------------------------------------------------------------

  /** An RSA public key. */
  datatype RsaKey = RsaKey(n: nat, e: nat)

  /** A JWK entry; `n` and `e` are the decoded bytes, or None when base64 decoding fails. */
  datatype Jwk = Jwk(kty: string, use: string, alg: string, kid: string, n: Option<seq<nat>>, e: Option<seq<nat>>)

  type KeySet = map<string, RsaKey>

  /** Big-endian bytes as a number. */
  function BigEndian(bytes: seq<nat>): nat {
    if bytes == [] then 0 else BigEndian(bytes[..|bytes| - 1]) * 256 + bytes[|bytes| - 1]
  }

  /** rsaPublicKey: None for a key that cannot verify an RS256 signature. */
  function UsableKey(k: Jwk): Option<RsaKey> {
    if k.kty != "RSA" || (k.use != "" && k.use != "sig") || (k.alg != "" && k.alg != "RS256") then None
    else if k.n.None? || k.n.value == [] || k.e.None? || k.e.value == [] then None
    else if BigEndian(k.e.value) == 0 || BigEndian(k.e.value) > 0x7fff_ffff then None
    else Some(RsaKey(BigEndian(k.n.value), BigEndian(k.e.value)))
  }

  /** The last usable entry of a document for a kid. */
  function LastUsable(doc: seq<Jwk>, kid: string): Option<RsaKey> {
    if doc == [] then None
    else
      var last := doc[|doc| - 1];
      if last.kid == kid && UsableKey(last).Some? then UsableKey(last) else LastUsable(doc[..|doc| - 1], kid)
  }

  function Find(keys: KeySet, kid: string): Option<RsaKey> {
    if kid in keys then Some(keys[kid]) else None
  }

  /**
   * The key-set part of fetch: for each kid its last usable entry and nothing else; a set without keys is a failure.
   */
  method BuildKeySet(doc: seq<Jwk>) returns (r: Option<KeySet>)
    ensures r.Some? ==> r.value != map[] && forall kid :: Find(r.value, kid) == LastUsable(doc, kid)
    ensures r.None? <==> forall i :: 0 <= i < |doc| ==> UsableKey(doc[i]).None?
  {
    hide UsableKey;
    var keys: KeySet := map[];
    for i := 0 to |doc|
      invariant forall kid :: Find(keys, kid) == LastUsable(doc[..i], kid)
      invariant keys == map[] <==> forall j :: 0 <= j < i ==> UsableKey(doc[j]).None?
    {
      assert doc[..i + 1][..i] == doc[..i];
      var key := UsableKey(doc[i]);
      if key.None? { continue; }
      keys := keys[doc[i].kid := key.value];
      assert doc[i].kid in keys;
    }
    assert doc[..|doc|] == doc;
    r := if keys == map[] then None else Some(keys);
  }

  // ---- one call ----------------------------------------------------------------------------------

  const DEFAULT_TTL := 300
  const DEFAULT_MIN_REFRESH := 30

  /** Times are whole seconds; None is Go's zero time. */
  datatype Source = Source(url: string, ttl: int, minRefresh: int, keys: KeySet, fetchedAt: Option<int>,
                           lastAttempt: Option<int>)

  /** One call: the kid asked for, the four clock readings it may take in turn, and what a fetch would return. */
  datatype Call = Call(kid: string, t0: int, t1: int, t2: int, t3: int, fetch: Option<KeySet>)

  datatype Answer = Key(key: RsaKey) | Unavailable

  /** lookupLocked: an empty kid names the only key of a set of one. */
  function Lookup(keys: KeySet, kid: string): Option<RsaKey> {
    if kid != "" then (if kid in keys then Some(keys[kid]) else None)
    else if |keys| == 1 then OnlyKey(keys) else None
  }

  function OnlyKey(keys: KeySet): Option<RsaKey>
    requires |keys| == 1
  {
    OneKey(keys);
    var k :| k in keys;
    Some(keys[k])
  }

  lemma OneKey(keys: KeySet)
    requires |keys| == 1
    ensures exists k :: k in keys
    ensures forall a, b :: a in keys && b in keys ==> a == b
  {
    var k :| k in keys.Keys;
    assert |keys.Keys - {k}| == 0;
    assert forall a :: a in keys ==> a == k;
  }

  /** The cached set can still be trusted. */
  predicate IsFresh(s: Source, now: int) {
    s.fetchedAt.Some? && now - s.fetchedAt.value < s.ttl
  }

  /** The refresh floor has passed. */
  predicate MayFetch(s: Source, now: int) {
    s.lastAttempt.None? || now - s.lastAttempt.value >= s.minRefresh
  }

  /** refreshLocked: the attempt is recorded first; a failure leaves the set alone. */
  function Refreshed(s: Source, c: Call): Source {
    var tried := s.(lastAttempt := Some(c.t2));
    if c.fetch.None? then tried else tried.(keys := c.fetch.value, fetchedAt := Some(c.t3))
  }

  /** Whether the call goes to the network. */
  predicate Fetches(s: Source, c: Call) {
    s.url != "" && !(Lookup(s.keys, c.kid).Some? && IsFresh(s, c.t0)) && MayFetch(s, c.t1)
  }

  function Answered(r: Option<RsaKey>): Answer {
    if r.Some? then Key(r.value) else Unavailable
  }

  /** PublicKey, case by case as the code runs. */
  function Step(s: Source, c: Call): (Source, Answer) {
    var cached := Lookup(s.keys, c.kid);
    if s.url == "" then (s, Unavailable)
    else if cached.Some? && IsFresh(s, c.t0) then (s, Key(cached.value))
    else if MayFetch(s, c.t1) then
      var s' := Refreshed(s, c);
      if c.fetch.None? then (s', Answered(cached)) else (s', Answered(Lookup(s'.keys, c.kid)))
    else (s, Answered(cached))
  }

  // ---- whole runs --------------------------------------------------------------------------------

  ghost predicate Configured(s: Source) {
    s.ttl > 0 && s.minRefresh > 0 && s.keys == map[] && s.fetchedAt.None? && s.lastAttempt.None?
  }

  /** The clock does not go back, within a call or between calls; a successful fetch has a key. */
  ghost predicate Calls(now: int, calls: seq<Call>) {
    && (forall i :: 0 <= i < |calls| ==>
          && now <= calls[i].t0 <= calls[i].t1 <= calls[i].t2 <= calls[i].t3
          && (calls[i].fetch.Some? ==> calls[i].fetch.value != map[]))
    && (forall i, j :: 0 <= i < j < |calls| ==> calls[i].t3 <= calls[j].t0)
  }

  /** The source after the first n calls. */
  function After(s: Source, calls: seq<Call>, n: nat): Source
    requires n <= |calls|
  {
    if n == 0 then s else Step(After(s, calls, n - 1), calls[n - 1]).0
  }

  /** What call i answers. */
  function AnswerOf(s: Source, calls: seq<Call>, i: nat): Answer
    requires i < |calls|
  {
    Step(After(s, calls, i), calls[i]).1
  }

  /** Every answer is what the key set left by the call says: no answer is newer or older than the cache. */
  lemma AnswerIsLookup(s: Source, c: Call)
    requires s.url != ""
    ensures Step(s, c).1 == Answered(Lookup(Step(s, c).0.keys, c.kid))
  {
  }

  /** The set held is the one the latest successful fetch brought; None before the first. */
  function LatestFetch(s: Source, calls: seq<Call>, n: nat): Option<KeySet>
    requires n <= |calls|
  {
    if n == 0 then None
    else if Fetches(After(s, calls, n - 1), calls[n - 1]) && calls[n - 1].fetch.Some? then calls[n - 1].fetch
    else LatestFetch(s, calls, n - 1)
  }

  lemma {:induction false} HoldsLatest(s: Source, calls: seq<Call>, n: nat)
    requires Configured(s) && n <= |calls|
    ensures After(s, calls, n).keys == (if LatestFetch(s, calls, n).Some? then LatestFetch(s, calls, n).value
            else map[])
  {
    if n > 0 { HoldsLatest(s, calls, n - 1); }
  }

  lemma {:induction false} KeepsSettings(s: Source, calls: seq<Call>, n: nat)
    requires n <= |calls|
    ensures var a := After(s, calls, n); a.url == s.url && a.ttl == s.ttl && a.minRefresh == s.minRefresh
  {
    if n > 0 { KeepsSettings(s, calls, n - 1); }
  }

  /** A key answered for a non-empty kid is the one the latest successful fetch names. */
  lemma AnswerFromLatest(s: Source, calls: seq<Call>, i: nat)
    requires Configured(s) && i < |calls| && calls[i].kid != "" && AnswerOf(s, calls, i).Key?
    ensures LatestFetch(s, calls, i + 1).Some?
    ensures Find(LatestFetch(s, calls, i + 1).value, calls[i].kid) == Some(AnswerOf(s, calls, i).key)
  {
    KeepsSettings(s, calls, i);
    HoldsLatest(s, calls, i + 1);
    AnswerIsLookup(After(s, calls, i), calls[i]);
  }

  /** A kid once held keeps resolving, through any outage, until a successful fetch drops it. */
  lemma {:induction false} KnownKidResolves(s: Source, calls: seq<Call>, m: nat, i: nat)
    requires s.url != "" && m <= i < |calls| && calls[i].kid != "" && calls[i].kid in After(s, calls, m).keys
    requires forall j :: m <= j <= i && Attempts(s, calls, j) && calls[j].fetch.Some? ==>
               calls[i].kid in calls[j].fetch.value
    ensures AnswerOf(s, calls, i).Key?
  {
    KidStays(s, calls, m, i + 1, calls[i].kid);
    KeepsSettings(s, calls, i);
    AnswerIsLookup(After(s, calls, i), calls[i]);
  }

  lemma {:induction false} KidStays(s: Source, calls: seq<Call>, m: nat, n: nat, kid: string)
    requires m <= n <= |calls| && kid in After(s, calls, m).keys
    requires forall j :: m <= j < n && Attempts(s, calls, j) && calls[j].fetch.Some? ==> kid in calls[j].fetch.value
    ensures kid in After(s, calls, n).keys
    decreases n
  {
    hide Lookup;
    if m < n {
      KidStays(s, calls, m, n - 1, kid);
      assert Attempts(s, calls, n - 1) <==> Fetches(After(s, calls, n - 1), calls[n - 1]);
    }
  }

  // ---- the throttle ------------------------------------------------------------------------------

  /** Call i goes to the network. */
  predicate Attempts(s: Source, calls: seq<Call>, i: nat)
    requires i < |calls|
  {
    Fetches(After(s, calls, i), calls[i])
  }

  /** After an attempt the throttle remembers it until the next. */
  lemma {:induction false} RemembersAttempt(s: Source, calls: seq<Call>, i: nat, n: nat)
    requires i < n <= |calls| && Attempts(s, calls, i)
    requires forall j :: i < j < n ==> !Attempts(s, calls, j)
    ensures After(s, calls, n).lastAttempt == Some(calls[i].t2)
    decreases n
  {
    if i < n - 1 {
      RemembersAttempt(s, calls, i, n - 1);
      assert !Attempts(s, calls, n - 1);
    }
  }

  /** Attempts in a row are at least the floor apart. */
  lemma AttemptsApart(s: Source, calls: seq<Call>, now: int, i: nat, j: nat)
    requires Calls(now, calls) && i < j < |calls| && Attempts(s, calls, i) && Attempts(s, calls, j)
    requires forall k :: i < k < j ==> !Attempts(s, calls, k)
    ensures calls[j].t2 - calls[i].t2 >= s.minRefresh
  {
    RemembersAttempt(s, calls, i, j);
    KeepsSettings(s, calls, j);
  }

  /** The attempts among calls i to j, counted. */
  function AttemptCount(s: Source, calls: seq<Call>, i: nat, j: nat): nat
    requires i <= j <= |calls|
    decreases j
  {
    if i == j then 0 else AttemptCount(s, calls, i, j - 1) + (if Attempts(s, calls, j - 1) then 1 else 0)
  }

  /** From one attempt to a later one, the time is at least the floor for every attempt in between. */
  lemma {:induction false} AttemptsSpread(s: Source, calls: seq<Call>, now: int, i: nat, j: nat)
    requires Calls(now, calls) && s.minRefresh > 0 && i <= j < |calls| && Attempts(s, calls, i) && Attempts(s, calls, j)
    ensures calls[j].t2 - calls[i].t2 >= s.minRefresh * AttemptCount(s, calls, i, j)
    decreases j
  {
    hide Attempts, After;
    if i < j {
      var k := PreviousAttempt(s, calls, i, j);
      AttemptsSpread(s, calls, now, i, k);
      AttemptsApart(s, calls, now, k, j);
      MulSucc(s.minRefresh, AttemptCount(s, calls, i, k));
    }
  }

  lemma {:induction false} PreviousAttempt(s: Source, calls: seq<Call>, i: nat, j: nat) returns (k: nat)
    requires i < j <= |calls| && Attempts(s, calls, i)
    ensures i <= k < j && Attempts(s, calls, k) && forall x :: k < x < j ==> !Attempts(s, calls, x)
    ensures AttemptCount(s, calls, i, j) == AttemptCount(s, calls, i, k) + 1
    decreases j
  {
    hide Attempts;
    if Attempts(s, calls, j - 1) {
      k := j - 1;
    } else {
      k := PreviousAttempt(s, calls, i, j - 1);
    }
  }

  /** Any window of length w holds at most w / floor + 1 attempts. */
  lemma WindowBound(s: Source, calls: seq<Call>, now: int, i: nat, j: nat, w: nat)
    requires Calls(now, calls) && s.minRefresh > 0 && i <= j < |calls| && Attempts(s, calls, i) && Attempts(s, calls, j)
    requires calls[j].t2 - calls[i].t2 <= w
    ensures AttemptCount(s, calls, i, j + 1) <= w / s.minRefresh + 1
  {
    AttemptsSpread(s, calls, now, i, j);
    DivBound(w, s.minRefresh, AttemptCount(s, calls, i, j));
  }

  lemma DivBound(w: nat, d: int, n: nat)
    requires d > 0 && d * n <= w
    ensures n <= w / d
  {
    var q := w / d;
    assert w < d * q + d == d * (q + 1);
    MulLess(d, n, q + 1);
  }

  lemma MulSucc(d: int, n: nat)
    ensures d * (n + 1) == d * n + d
  {
  }

  lemma MulLess(d: int, a: int, b: int)
    requires d > 0 && d * a < d * b
    ensures a < b
  {
  }

  // ---- the object --------------------------------------------------------------------------------

  class JWKSKeySource {
    const url: string
    const ttl: int
    const minRefresh: int
    var keys: KeySet
    var fetchedAt: Option<int>
    var lastAttempt: Option<int>

    function State(): Source
      reads this
    {
      Source(url, ttl, minRefresh, keys, fetchedAt, lastAttempt)
    }

    /** Non-positive options are ignored in favour of five minutes and thirty seconds. */
    constructor (url: string, ttl: int, minRefresh: int)
      ensures Configured(State()) && this.url == url
      ensures this.ttl == (if ttl > 0 then ttl else DEFAULT_TTL)
      ensures this.minRefresh == (if minRefresh > 0 then minRefresh else DEFAULT_MIN_REFRESH)
    {
      this.url, keys, fetchedAt, lastAttempt := url, map[], None, None;
      this.ttl := if ttl > 0 then ttl else DEFAULT_TTL;
      this.minRefresh := if minRefresh > 0 then minRefresh else DEFAULT_MIN_REFRESH;
    }

    method Refresh(c: Call) returns (ok: bool)
      modifies this
      ensures State() == Refreshed(old(State()), c) && ok == c.fetch.Some?
    {
      lastAttempt := Some(c.t2);
      if c.fetch.None? { return false; }
      keys := c.fetch.value;
      fetchedAt := Some(c.t3);
      ok := true;
    }

    method PublicKey(c: Call) returns (r: Answer)
      modifies this
      ensures (State(), r) == Step(old(State()), c)
    {
      if url == "" { return Unavailable; }
      var cached := Lookup(keys, c.kid);
      if cached.Some? && fetchedAt.Some? && c.t0 - fetchedAt.value < ttl { return Key(cached.value); }
      if lastAttempt.None? || c.t1 - lastAttempt.value >= minRefresh {
        var ok := Refresh(c);
        if !ok {
          if cached.Some? { return Key(cached.value); }
          return Unavailable;
        }
        var key := Lookup(keys, c.kid);
        if key.Some? { return Key(key.value); }
      } else if cached.Some? {
        return Key(cached.value);
      }
      r := Unavailable;
    }
  }
}
