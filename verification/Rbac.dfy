/**
 * The batch authorizer: cached answers, one rules review a namespace, access reviews for the rest
 * (kubeutil/rbac/rbac.go).
 */
module Rbac {
  import opened Values
  import opened Cache
  import opened CacheObject
  import opened RbacRules

  type Endpoint = string

  /** newUserCanCacheKey */
  datatype CacheKey = CacheKey(endpoint: Endpoint, target: Target)

  datatype RulesReview = RulesReview(rules: seq<Rule>, incomplete: bool)

  /** A target waiting for an answer. */
  datatype Pending = Pending(index: nat, key: CacheKey)

  /** What the API server would answer during one call; None is a failed request. */
  datatype Reviews = Reviews(rules: string -> Option<RulesReview>, access: nat -> Option<bool>)

  type Policy = (Endpoint, Target) -> bool

  /**
   * The server answers by one fixed policy: the rules it lists grant nothing the policy does not, and a list it calls
   * complete grants all the policy does.
   */
  ghost predicate Honest(policy: Policy, ep: Endpoint, targets: seq<Target>, reviews: Reviews) {
    && (forall t: Target :: reviews.rules(t.namespace).Some? ==>
          var review := reviews.rules(t.namespace).value;
          && (RulesAllow(review.rules, t) ==> policy(ep, t))
          && (policy(ep, t) && !review.incomplete ==> RulesAllow(review.rules, t)))
    && (forall i :: 0 <= i < |targets| && reviews.access(i).Some? ==> reviews.access(i).value == policy(ep, targets[i]))
  }

  /** A rules review settles a target: it allows it, or it is complete. */
  ghost predicate RulesSettle(review: RulesReview, t: Target) {
    RulesAllow(review.rules, t) || !review.incomplete
  }

  /** The reviews of one call settle a target. */
  ghost predicate Reviewed(targets: seq<Target>, reviews: Reviews, i: nat)
    requires i < |targets|
  {
    || (reviews.rules(targets[i].namespace).Some? && RulesSettle(reviews.rules(targets[i].namespace).value, targets[i]))
    || reviews.access(i).Some?
  }

  /** Every cached answer is the policy's. */
  ghost predicate Agrees(policy: Policy, items: map<CacheKey, Item<bool>>) {
    forall k :: k in items ==> items[k].value == policy(k.endpoint, k.target)
  }

  /** The pending entries a list asks about are distinct and carry their own keys. */
  ghost predicate Wellformed(targets: seq<Target>, ep: Endpoint, ns: string, items: seq<Pending>) {
    && (forall k :: 0 <= k < |items| ==>
          items[k].index < |targets| && items[k].key == CacheKey(ep, targets[items[k].index])
              && targets[items[k].index].namespace == ns)
    && (forall a, b :: 0 <= a < b < |items| ==> items[a].index < items[b].index)
  }

  /** The entries a rules review does not settle, in order. */
  ghost function Unsettled(targets: seq<Target>, review: RulesReview, items: seq<Pending>): seq<Pending>
    requires forall k :: 0 <= k < |items| ==> items[k].index < |targets|
  {
    if items == [] then []
    else
      var last := items[|items| - 1];
      var rest := Unsettled(targets, review, items[..|items| - 1]);
      if RulesSettle(review, targets[last.index]) then rest else rest + [last]
  }

  class Authorizer {
    const cache: TTLCache?<CacheKey, bool>
    var cacheTTL: int

    ghost predicate Valid(policy: Policy)
      reads this, cache
    {
      cache != null ==> cache.Consistent() && Agrees(policy, cache.items)
    }

    constructor (cache: TTLCache?<CacheKey, bool>, ttl: int)
      ensures this.cache == cache && cacheTTL == ttl
    {
      this.cache, cacheTTL := cache, ttl;
    }

    /** storeCache: nothing is stored without a positive lifetime. */
    method StoreCache(ghost policy: Policy, key: CacheKey, allowed: bool, ttl: int, now: int)
      requires Valid(policy) && allowed == policy(key.endpoint, key.target)
      modifies cache
      ensures Valid(policy)
      ensures if ttl <= 0 || cache == null then Stored() == old(Stored())
              else key in Stored() && Stored()[key] == Item(allowed, now + ttl)
    {
      hide Step, SetEntry, Agrees, Cache.Valid;
      if ttl <= 0 || cache == null { return; }
      StoreAgrees(policy, cache.Now(), cache.maxEntries, key, allowed, ttl, now);
      cache.Put(key, allowed, ttl, now);
    }

    /** resolvePendingWithAccessReviews: one precise review a target; a failed one leaves it as it was. */
    method ResolveWithAccess(ghost policy: Policy, ghost ep: Endpoint, targets: seq<Target>, reviews: Reviews,
                             allowed: array<bool>,
                             ghost ns: string, pending: seq<Pending>, ttl: int, now: nat -> int)
      requires Valid(policy) && Honest(policy, ep, targets, reviews) && Wellformed(targets, ep, ns, pending)
      requires allowed.Length == |targets|
      modifies allowed, cache
      ensures Valid(policy)
      ensures forall i :: 0 <= i < |targets| ==>
                allowed[i] == if reviews.access(i).Some? && Awaiting(pending, i)
                              then policy(ep, targets[i]) else old(allowed[i])
    {
      for k := 0 to |pending|
        invariant Valid(policy)
        invariant forall i :: 0 <= i < |targets| ==>
                    allowed[i] == if reviews.access(i).Some? && Awaiting(pending[..k], i)
                                  then policy(ep, targets[i]) else old(allowed[i])
      {
        AwaitingStep(pending, k);
        var item := pending[k];
        var answer := reviews.access(item.index);
        if answer.None? { continue; }
        allowed[item.index] := answer.value;
        StoreCache(policy, item.key, answer.value, ttl, now(item.index));
      }
      assert pending[..|pending|] == pending;
    }

    /** One pending entry against the rules review of its namespace: settled, or left open. */
    method Settle(ghost policy: Policy, ghost ep: Endpoint, targets: seq<Target>, ghost reviews: Reviews,
                  allowed: array<bool>,
                  item: Pending, review: RulesReview, ttl: int, now: int)
      returns (settled: bool)
      requires Valid(policy) && Honest(policy, ep, targets, reviews) && allowed.Length == |targets|
      requires item.index < |targets| && item.key == CacheKey(ep, targets[item.index]) && !allowed[item.index]
      requires reviews.rules(targets[item.index].namespace) == Some(review)
      modifies allowed, cache
      ensures Valid(policy) && (settled <==> RulesSettle(review, targets[item.index]))
      ensures forall i :: 0 <= i < |targets| ==>
                allowed[i] == if settled && i == item.index then policy(ep, targets[i]) else old(allowed[i])
      ensures settled && ttl > 0 && cache != null ==>
                item.key in Stored() && Stored()[item.key] == Item(policy(ep, targets[item.index]), now + ttl)
    {
      hide Honest, RulesAllow, Valid;
      var target := targets[item.index];
      ReviewIsHonest(policy, ep, targets, reviews, target, review);
      var allow := RulesAllowTarget(review.rules, target);
      if allow {
        allowed[item.index] := true;
        StoreCache(policy, item.key, true, ttl, now);
        return true;
      }
      if !review.incomplete {
        StoreCache(policy, item.key, false, ttl, now);
        return true;
      }
      settled := false;
    }

    /**
     * The rules review of one namespace over its pending entries. The entries it does not settle are kept by
     * writing them back over the front of the same array, which never overtakes the reading position.
     */
    method ApplyRules(ghost policy: Policy, ghost ep: Endpoint, targets: seq<Target>, ghost reviews: Reviews,
                      allowed: array<bool>,
                      ghost ns: string, items: array<Pending>, review: RulesReview, ttl: int, now: nat -> int)
      returns (kept: nat)
      requires Valid(policy) && Honest(policy, ep, targets, reviews) && reviews.rules(ns) == Some(review)
      requires Wellformed(targets, ep, ns, items[..]) && allowed.Length == |targets|
      requires forall k :: 0 <= k < items.Length ==> !allowed[items[k].index]
      modifies allowed, items, cache
      ensures Valid(policy) && kept <= items.Length
      ensures items[..kept] == Unsettled(targets, review, old(items[..]))
      ensures forall i :: 0 <= i < |targets| ==>
                allowed[i] == if RulesSettle(review, targets[i]) && Awaiting(old(items[..]), i)
                              then policy(ep, targets[i]) else old(allowed[i])
    {
      hide Honest, RulesSettle, Awaiting, Valid, Unsettled;
      ghost var before := items[..];
      NoneAwaiting();
      assert before[..0] == [] && items[..0] == [] && Unsettled(targets, review, []) == [] by {
        NoneUnsettled(targets, review);
      }
      kept := 0;
      for k := 0 to items.Length
        invariant Valid(policy) && kept <= k
        invariant forall j :: k <= j < items.Length ==> items[j] == before[j]
        invariant forall j :: k <= j < items.Length ==> !allowed[items[j].index]
        invariant items[..kept] == Unsettled(targets, review, before[..k])
        invariant forall i :: 0 <= i < |targets| ==>
                    allowed[i] == if RulesSettle(review, targets[i]) && Awaiting(before[..k], i)
                                  then policy(ep, targets[i]) else old(allowed[i])
      {
        var item := items[k];
        AwaitingStep(before, k);
        UnsettledStep(targets, review, before, k);
        var settled := Settle(policy, ep, targets, reviews, allowed, item, review, ttl, now(item.index));
        if settled { continue; }
        items[kept] := item;
        kept := kept + 1;
      }
      assert before[..items.Length] == before;
    }

    /** One namespace: its rules review, then access reviews for what it leaves open. */
    method ResolveNamespace(ghost policy: Policy, ghost ep: Endpoint, targets: seq<Target>, reviews: Reviews,
                            allowed: array<bool>,
                            ns: string, pending: seq<Pending>, ttl: int, now: nat -> int)
      requires Valid(policy) && Honest(policy, ep, targets, reviews) && Wellformed(targets, ep, ns, pending)
      requires allowed.Length == |targets| && forall i :: 0 <= i < |targets| && Awaiting(pending, i) ==> !allowed[i]
      modifies allowed, cache
      ensures Valid(policy)
      ensures forall i :: 0 <= i < |targets| ==>
                allowed[i] == if Awaiting(pending, i) && Reviewed(targets, reviews, i)
                              then policy(ep, targets[i]) else old(allowed[i])
    {
      hide Honest, RulesSettle, Unsettled;
      var review := reviews.rules(ns);
      forall i | 0 <= i < |targets| && Awaiting(pending, i) ensures targets[i].namespace == ns {}
      if review.None? {
        ResolveWithAccess(policy, ep, targets, reviews, allowed, ns, pending, ttl, now);
        return;
      }
      var items := new Pending[|pending|](i requires 0 <= i < |pending| => pending[i]);
      assert items[..] == pending;
      forall k | 0 <= k < items.Length
          ensures !allowed[items[k].index] { assert pending[k] == items[k] && Awaiting(pending, pending[k].index); }
      UnsettledWellformed(targets, ep, ns, review.value, pending);
      UnsettledAwaiting(targets, review.value, pending);
      var kept := ApplyRules(policy, ep, targets, reviews, allowed, ns, items, review.value, ttl, now);
      if kept > 0 {
        ResolveWithAccess(policy, ep, targets, reviews, allowed, ns, items[..kept], ttl, now);
      } else {
        assert forall i: nat :: !Awaiting(items[..kept], i);
      }
    }

    /** A cached answer good at the instant a target is looked at. */
    ghost predicate CachedAt(items: map<CacheKey, Item<bool>>, ep: Endpoint, targets: seq<Target>, ttl: int,
                             now: nat -> int, i: nat)
      requires i < |targets|
    {
      var key := CacheKey(ep, targets[i]);
      ttl > 0 && cache != null && key in items && !IsExpired(items[key], now(i))
    }

    /** A cached answer, if it is still good; looking drops it if it is not. */
    method Cached(ghost policy: Policy, ghost before: map<CacheKey, Item<bool>>, key: CacheKey, ttl: int, now: int,
                  ghost later: int)
      returns (r: Option<bool>)
      requires Valid(policy) && Faded(Stored(), before, now) && now <= later
      modifies cache
      ensures Valid(policy) && Faded(Stored(), before, later)
      ensures r.Some? <==> ttl > 0 && cache != null && key in before && !IsExpired(before[key], now)
      ensures r.Some? ==> r.value == policy(key.endpoint, key.target)
    {
      if ttl > 0 && cache != null {
        GetFades(cache.Now(), cache.maxEntries, before, key, now, later, policy);
        var found := cache.Get(key, now);
        return if found.Hit? then Some(found.value) else None;
      }
      r := None;
    }

    /** The first pass: answer from the cache, group the rest by namespace in the order they were asked. */
    method Triage(ghost policy: Policy, ep: Endpoint, targets: seq<Target>, allowed: array<bool>, ttl: int,
                  now: nat -> int)
      returns (grouped: map<string, seq<Pending>>)
      requires Valid(policy) && allowed.Length == |targets| && forall i :: 0 <= i < |targets| ==> !allowed[i]
      requires forall i, j :: 0 <= i < j ==> now(i) <= now(j)
      modifies allowed, cache
      ensures Valid(policy)
      ensures GroupsOk(targets, ep, grouped, |targets|)
      ensures forall i :: 0 <= i < |targets| ==>
                var hit := old(CachedAt(Stored(), ep, targets, ttl, now, i));
                allowed[i] == (hit && policy(ep, targets[i])) && (InGroup(targets, grouped, i) <==> !hit)
    {
      hide Wellformed, Awaiting, GroupsOk, InGroup, WithPending, Valid, Faded;
      ghost var before := Stored();
      grouped := map[];
      NoGroups(targets, ep);
      NothingFaded(before, now(0));
      for i := 0 to |targets|
        invariant Valid(policy)
        invariant Faded(Stored(), before, now(i))
        invariant GroupsOk(targets, ep, grouped, i)
        invariant forall j :: 0 <= j < i ==>
                    && allowed[j] == (CachedAt(before, ep, targets, ttl, now, j) && policy(ep, targets[j]))
                    && (InGroup(targets, grouped, j) <==> !CachedAt(before, ep, targets, ttl, now, j))
        invariant forall j :: i <= j < |targets| ==> !allowed[j]
      {
        var key := CacheKey(ep, targets[i]);
        NotYet(targets, ep, grouped, i);
        var answer := Cached(policy, before, key, ttl, now(i), now(i + 1));
        if answer.Some? {
          allowed[i] := answer.value;
          MoreGroups(targets, ep, grouped, i);
          continue;
        }
        AddGroup(targets, ep, grouped, i);
        grouped := WithPending(grouped, targets[i].namespace, Pending(i, key));
      }
    }

    /**
     * UserCan: the answers to a batch. Whatever reviews fail, a target is granted only if the policy grants it, and a
     * target somebody answered for (the cache, or a review of this call) gets exactly the policy's answer. A target
     * asked twice gets the answer of its last occurrence.
     */
    method UserCan(ghost policy: Policy, endpoint: Option<Endpoint>, targets: seq<Target>, reachable: bool,
                   reviews: Reviews,
                   now: nat -> int, later: nat -> int)
      returns (result: map<Target, bool>)
      requires Valid(policy) && (endpoint.Some? ==> Honest(policy, endpoint.value, targets, reviews))
      requires forall i, j :: 0 <= i < j ==> now(i) <= now(j)
      modifies cache
      ensures Valid(policy)
      ensures endpoint.None? ==> result == map[]
      ensures endpoint.Some? ==> forall t :: t in result <==> t in targets
      ensures endpoint.Some? ==> forall i: nat :: IsLast(targets, i) ==>
                result[targets[i]] == (policy(endpoint.value, targets[i])
                                       && (|| old(CachedAt(Stored(), endpoint.value, targets, cacheTTL, now, i))
                                           || (reachable && Reviewed(targets, reviews, i))))
    {
      hide Honest, Wellformed, Awaiting, Reviewed, CachedAt;
      if |targets| == 0 || endpoint.None? { return map[]; }
      var ep, ttl := endpoint.value, cacheTTL;
      var allowed := new bool[|targets|](_ => false);
      ghost var before := Stored();
      var grouped := Triage(policy, ep, targets, allowed, ttl, now);
      ghost var hit := seq(|targets|, i requires 0 <= i < |targets| => CachedAt(before, ep, targets, ttl, now, i));
      if grouped != map[] && reachable {
        Review(policy, ep, targets, reviews, allowed, hit, grouped, ttl, later);
      } else {
        assert grouped == map[] ==> forall i :: 0 <= i < |targets| ==> hit[i];
      }
      result := BuildResult(targets, allowed);
      assert forall i :: 0 <= i < |targets| ==>
             allowed[i] == (policy(ep, targets[i]) && (hit[i] || (reachable && Reviewed(targets, reviews, i))));
    }

    /** The namespaces are resolved one by one, in whatever order the map is ranged over. */
    method Review(ghost policy: Policy, ghost ep: Endpoint, targets: seq<Target>, reviews: Reviews,
                  allowed: array<bool>,
                  ghost hit: seq<bool>, grouped: map<string, seq<Pending>>, ttl: int, now: nat -> int)
      requires Valid(policy) && Honest(policy, ep, targets, reviews) && allowed.Length == |targets| == |hit|
      requires forall ns :: ns in grouped ==> Wellformed(targets, ep, ns, grouped[ns])
      requires forall i :: 0 <= i < |targets| ==>
                 allowed[i] == (hit[i] && policy(ep, targets[i])) && (InGroup(targets, grouped, i) <==> !hit[i])
      modifies allowed, cache
      ensures Valid(policy)
      ensures forall i :: 0 <= i < |targets| ==>
              allowed[i] == (policy(ep, targets[i]) && (hit[i] || Reviewed(targets, reviews, i)))
    {
      hide Honest, Wellformed, Awaiting, Reviewed;
      var remaining := grouped.Keys;
      while remaining != {}
        invariant Valid(policy) && remaining <= grouped.Keys
        invariant forall i :: 0 <= i < |targets| ==>
                    allowed[i] == (policy(ep, targets[i])
                                   && (hit[i] || (targets[i].namespace !in remaining && Reviewed(targets, reviews, i))))
        decreases remaining
      {
        var ns :| ns in remaining;
        forall i: nat | i < |targets| ensures Awaiting(grouped[ns], i) <==> targets[i].namespace == ns && !hit[i] {
          if Awaiting(grouped[ns], i) { AwaitedHere(targets, ep, ns, grouped[ns], i); }
        }
        ResolveNamespace(policy, ep, targets, reviews, allowed, ns, grouped[ns], ttl, now);
        remaining := remaining - {ns};
      }
    }

    /** SetCacheTTL: switching the cache off forgets every answer. */
    method SetCacheTTL(ghost policy: Policy, ttl: int)
      requires Valid(policy)
      modifies this, cache
      ensures Valid(policy) && cacheTTL == ttl && Stored() == if ttl <= 0 then map[] else old(Stored())
    {
      cacheTTL := ttl;
      if ttl <= 0 && cache != null { cache.Reset(); }
    }

    /** What the cache holds, if there is a cache. */
    ghost function Stored(): map<CacheKey, Item<bool>>
      reads this, cache
    {
      if cache == null then map[] else cache.items
    }
  }

  /** No later target is the same. */
  ghost predicate IsLast(targets: seq<Target>, i: nat) {
    i < |targets| && forall j :: i < j < |targets| ==> targets[j] != targets[i]
  }

  /** buildUserCanResult: a target asked twice keeps the later answer. */
  method BuildResult(targets: seq<Target>, allowed: array<bool>) returns (result: map<Target, bool>)
    requires allowed.Length == |targets|
    ensures forall t :: t in result <==> t in targets
    ensures forall i: nat :: IsLast(targets, i) ==> result[targets[i]] == allowed[i]
  {
    result := map[];
    for i := 0 to |targets|
      invariant forall t :: t in result <==> t in targets[..i]
      invariant forall k :: 0 <= k < i && (forall j :: k < j < i ==> targets[j] != targets[k]) ==>
                result[targets[k]] == allowed[k]
    {
      result := result[targets[i] := allowed[i]];
    }
    assert targets[..|targets|] == targets;
  }

  lemma AwaitedHere(targets: seq<Target>, ep: Endpoint, ns: string, items: seq<Pending>, i: nat)
    requires Wellformed(targets, ep, ns, items) && Awaiting(items, i)
    ensures i < |targets| && targets[i].namespace == ns
  {
  }

  function WithPending(grouped: map<string, seq<Pending>>, ns: string, p: Pending): map<string, seq<Pending>> {
    grouped[ns := (if ns in grouped then grouped[ns] else []) + [p]]
  }

  /** Every group is well formed and speaks of targets seen so far. */
  ghost predicate GroupsOk(targets: seq<Target>, ep: Endpoint, grouped: map<string, seq<Pending>>, n: nat) {
    forall ns :: ns in grouped ==> Wellformed(targets, ep, ns, grouped[ns]) && AllBelow(grouped[ns], n)
  }

  ghost predicate AllBelow(items: seq<Pending>, n: nat) {
    forall k :: 0 <= k < |items| ==> items[k].index < n
  }

  ghost predicate InGroup(targets: seq<Target>, grouped: map<string, seq<Pending>>, i: nat)
    requires i < |targets|
  {
    targets[i].namespace in grouped && Awaiting(grouped[targets[i].namespace], i)
  }

  lemma NoGroups(targets: seq<Target>, ep: Endpoint)
    ensures GroupsOk(targets, ep, map[], 0)
  {
  }

  lemma NotYet(targets: seq<Target>, ep: Endpoint, grouped: map<string, seq<Pending>>, i: nat)
    requires GroupsOk(targets, ep, grouped, i) && i < |targets|
    ensures !InGroup(targets, grouped, i)
  {
  }

  lemma MoreGroups(targets: seq<Target>, ep: Endpoint, grouped: map<string, seq<Pending>>, i: nat)
    requires GroupsOk(targets, ep, grouped, i)
    ensures GroupsOk(targets, ep, grouped, i + 1)
  {
    hide Wellformed, AllBelow;
    forall ns | ns in grouped ensures AllBelow(grouped[ns], i + 1) { OneMore(grouped[ns], i); }
  }

  lemma OneMore(items: seq<Pending>, n: nat)
    requires AllBelow(items, n)
    ensures AllBelow(items, n + 1)
  {
  }

  /** One more pending entry joins the group of its namespace and no other. */
  lemma AddGroup(targets: seq<Target>, ep: Endpoint, grouped: map<string, seq<Pending>>, i: nat)
    requires GroupsOk(targets, ep, grouped, i) && i < |targets|
    ensures var more := WithPending(grouped, targets[i].namespace, Pending(i, CacheKey(ep, targets[i])));
            && GroupsOk(targets, ep, more, i + 1)
            && InGroup(targets, more, i)
            && forall j: nat :: j < i ==> (InGroup(targets, more, j) <==> InGroup(targets, grouped, j))
  {
    hide Wellformed, AllBelow, Awaiting;
    var ns, p := targets[i].namespace, Pending(i, CacheKey(ep, targets[i]));
    MoreGroups(targets, ep, grouped, i);
    if ns in grouped {
      GrowGroup(targets, ep, ns, grouped[ns], p);
      AwaitingAppend(grouped[ns], p);
    } else {
      GrowGroup(targets, ep, ns, [], p);
      AwaitingAppend([], p);
      NoneAwaiting();
    }
  }

  lemma GrowGroup(targets: seq<Target>, ep: Endpoint, ns: string, items: seq<Pending>, p: Pending)
    requires items == [] || (Wellformed(targets, ep, ns, items) && AllBelow(items, p.index))
    requires p.index < |targets| && p.key == CacheKey(ep, targets[p.index]) && targets[p.index].namespace == ns
    ensures Wellformed(targets, ep, ns, items + [p]) && AllBelow(items + [p], p.index + 1)
  {
    WellformedAppend(targets, ep, ns, items, p);
  }

  /** Only expired entries are gone. */
  ghost predicate Faded(items: map<CacheKey, Item<bool>>, before: map<CacheKey, Item<bool>>, now: int) {
    && (forall k :: k in items ==> k in before && items[k] == before[k])
    && (forall k :: k in before && k !in items ==> IsExpired(before[k], now))
  }

  lemma NothingFaded(items: map<CacheKey, Item<bool>>, now: int)
    ensures Faded(items, items, now)
  {
  }

  /** Looking a key up answers as the cache stood at first, and drops only what has expired. */
  lemma GetFades(s: State<CacheKey, bool>, max: nat, before: map<CacheKey, Item<bool>>, key: CacheKey, now: int,
                 later: int, policy: Policy)
    requires Faded(s.items, before, now) && now <= later && Agrees(policy, s.items)
    ensures var (s', r) := Step(s, max, now, Op.Get(key));
            && Faded(s'.items, before, later) && Agrees(policy, s'.items)
            && (r.Hit? <==> key in before && !IsExpired(before[key], now))
            && (r.Hit? ==> r.value == policy(key.endpoint, key.target))
            && (r.Hit? || r.Miss?)
  {
  }

  /** An index is among the pending entries. */
  ghost predicate Awaiting(items: seq<Pending>, i: nat) {
    exists k :: 0 <= k < |items| && items[k].index == i
  }

  lemma AwaitingStep(items: seq<Pending>, k: nat)
    requires k < |items|
    ensures forall i: nat :: Awaiting(items[..k + 1], i) <==> Awaiting(items[..k], i) || items[k].index == i
  {
    forall i: nat ensures Awaiting(items[..k + 1], i) <==> Awaiting(items[..k], i) || items[k].index == i {
      if Awaiting(items[..k], i) {
        var j :| 0 <= j < k && items[..k][j].index == i;
        assert items[..k + 1][j].index == i;
      }
      if items[k].index == i { assert items[..k + 1][k].index == i; }
      if Awaiting(items[..k + 1], i) {
        var j :| 0 <= j < k + 1 && items[..k + 1][j].index == i;
        if j < k { assert items[..k][j].index == i; }
      }
    }
  }

  lemma NoneUnsettled(targets: seq<Target>, review: RulesReview)
    ensures Unsettled(targets, review, []) == []
  {
  }

  lemma UnsettledStep(targets: seq<Target>, review: RulesReview, items: seq<Pending>, k: nat)
    requires k < |items| && forall j :: 0 <= j < |items| ==> items[j].index < |targets|
    ensures Unsettled(targets, review, items[..k + 1]) ==
            Unsettled(targets, review, items[..k])
            + (if RulesSettle(review, targets[items[k].index]) then [] else [items[k]])
  {
    hide RulesSettle;
    assert items[..k + 1][..k] == items[..k];
  }

  /** Dropping settled entries keeps the list well formed. */
  lemma {:induction false} UnsettledWellformed(targets: seq<Target>, ep: Endpoint, ns: string, review: RulesReview,
                                        items: seq<Pending>)
    requires Wellformed(targets, ep, ns, items)
    ensures Wellformed(targets, ep, ns, Unsettled(targets, review, items))
    ensures forall x :: x in Unsettled(targets, review, items) ==> x in items
  {
    hide RulesSettle;
    if items != [] {
      var n := |items| - 1;
      var front, last := items[..n], items[n];
      UnsettledWellformed(targets, ep, ns, review, front);
      var rest := Unsettled(targets, review, front);
      forall k | 0 <= k < |rest| ensures rest[k].index < last.index {
        assert rest[k] in front;
      }
      WellformedAppend(targets, ep, ns, rest, last);
    }
  }

  /** What is left is awaiting and not settled. */
  lemma {:induction false} UnsettledAwaiting(targets: seq<Target>, review: RulesReview, items: seq<Pending>)
    requires forall k :: 0 <= k < |items| ==> items[k].index < |targets|
    ensures forall i: nat :: i < |targets| ==>
              (Awaiting(Unsettled(targets, review, items), i) <==>
                  Awaiting(items, i) && !RulesSettle(review, targets[i]))
  {
    hide RulesSettle, Awaiting;
    if items != [] {
      var n := |items| - 1;
      var front, last := items[..n], items[n];
      UnsettledAwaiting(targets, review, front);
      AwaitingAppend(front, last);
      AwaitingAppend(Unsettled(targets, review, front), last);
      assert items == front + [last];
    } else {
      NoneAwaiting();
    }
  }

  lemma NoneAwaiting()
    ensures forall i: nat :: !Awaiting([], i)
  {
  }

  lemma AwaitingAppend(items: seq<Pending>, last: Pending)
    ensures forall i: nat :: Awaiting(items + [last], i) <==> Awaiting(items, i) || last.index == i
  {
    var more := items + [last];
    assert more[..|items|] == items && more[..|items| + 1] == more;
    AwaitingStep(more, |items|);
  }

  lemma WellformedAppend(targets: seq<Target>, ep: Endpoint, ns: string, items: seq<Pending>, last: Pending)
    requires Wellformed(targets, ep, ns, items) && forall k :: 0 <= k < |items| ==> items[k].index < last.index
    requires last.index < |targets| && last.key == CacheKey(ep, targets[last.index])
             && targets[last.index].namespace == ns
    ensures Wellformed(targets, ep, ns, items + [last])
  {
  }

  lemma ReviewIsHonest(policy: Policy, ep: Endpoint, targets: seq<Target>, reviews: Reviews, t: Target,
                       review: RulesReview)
    requires Honest(policy, ep, targets, reviews) && reviews.rules(t.namespace) == Some(review)
    ensures RulesAllow(review.rules, t) ==> policy(ep, t)
    ensures policy(ep, t) && !review.incomplete ==> RulesAllow(review.rules, t)
  {
  }

  lemma StoreAgrees(policy: Policy, s: State<CacheKey, bool>, max: nat, key: CacheKey, allowed: bool, ttl: int,
                    now: int)
    requires Cache.Valid(s, max) && Agrees(policy, s.items) && allowed == policy(key.endpoint, key.target)
    ensures Agrees(policy, Step(s, max, now, Set(key, allowed, ttl)).0.items)
  {
  }

  /** What no rule of a complete review lists, the policy refuses, and so does UserCan. */
  lemma UnlistedIsDenied(policy: Policy, ep: Endpoint, targets: seq<Target>, reviews: Reviews, t: Target)
    requires Honest(policy, ep, targets, reviews) && reviews.rules(t.namespace).Some?
    requires !reviews.rules(t.namespace).value.incomplete
    requires var rules := reviews.rules(t.namespace).value.rules;
             || (forall r :: r in rules ==> t.verb !in r.verbs && "*" !in r.verbs)
             || (forall r :: r in rules ==> t.group !in r.groups && "*" !in r.groups)
             || (forall r :: r in rules ==> t.resource !in r.resources && "*" !in r.resources)
    ensures !policy(ep, t)
  {
    UnlistedIsRefused(reviews.rules(t.namespace).value.rules, t);
    ReviewIsHonest(policy, ep, targets, reviews, t, reviews.rules(t.namespace).value);
  }

  /** A server that keeps one list of rules a namespace, and answers everything by it, is such a server. */
  lemma RulesMakeAPolicy(ep: Endpoint, targets: seq<Target>, rules: string -> seq<Rule>)
    ensures exists policy: Policy, reviews: Reviews ::
              && Honest(policy, ep, targets, reviews)
              && (forall ns :: reviews.rules(ns) == Some(RulesReview(rules(ns), false)))
              && (forall t: Target :: policy(ep, t) <==> RulesAllow(rules(t.namespace), t))
              && (forall i :: 0 <= i < |targets| ==> reviews.access(i) == Some(policy(ep, targets[i])))
  {
    var policy: Policy := (_, t: Target) => RulesAllow(rules(t.namespace), t);
    var reviews := Reviews(ns => Some(RulesReview(rules(ns), false)),
                           (i: nat) => if i < |targets| then Some(policy(ep, targets[i])) else None);
    hide RulesAllow;
    assert Honest(policy, ep, targets, reviews);
  }
}
