/** The plain LRU the cache refines, step by step and over whole runs. */
module CacheTheorems {
  import opened Values
  import opened Cache

  /** An operation and the instant it happens at. */
  datatype Event<K, V> = At(now: int, op: Op<K, V>)

  function Run<K(==), V>(s: State<K, V>, max: nat, events: seq<Event<K, V>>): (State<K, V>, seq<Out<K, V>>)
    decreases |events|
  {
    if events == [] then (s, [])
    else
      var (s1, o) := Step(s, max, events[0].now, events[0].op);
      var (s2, os) := Run(s1, max, events[1..]);
      (s2, [o] + os)
  }

  // ---- the plain LRU -----------------------------------------------------------------------------

  /** Entries stamped with the number of the operation that last Set or successfully Got them. */
  datatype Lru<K, V> = Lru(items: map<K, Item<V>>, used: map<K, nat>)

  ghost predicate IsOldest<K(!new)>(used: map<K, nat>, k: K) {
    k in used && forall x :: x in used ==> used[k] <= used[x]
  }

  function LruRemove<K(==), V>(l: Lru<K, V>, gone: set<K>): Lru<K, V> {
    Lru(l.items - gone, l.used - gone)
  }

  /** Over the bound, the entry used longest ago goes. */
  ghost function LruSet<K(!new), V>(l: Lru<K, V>, max: nat, n: nat, k: K, i: Item<V>): Lru<K, V> {
    var l' := Lru(l.items[k := i], l.used[k := n]);
    if k !in l.items && max > 0 && |l'.items| > max then LruEvict(l') else l'
  }

  ghost function LruEvict<K(!new), V>(l: Lru<K, V>): Lru<K, V> {
    if exists x :: IsOldest(l.used, x) then
      var x :| IsOldest(l.used, x);
      LruRemove(l, {x})
    else l
  }

  /** The reference step: no list, only stamps. */
  ghost function LruStep<K(!new), V>(l: Lru<K, V>, max: nat, n: nat, now: int, op: Op<K, V>): (Lru<K, V>, Out<K, V>) {
    var expired := l.items.Keys - LiveKeys(l.items, now);
    match op
    case Set(k, v, ttl) => (LruSet(l, max, n, k, Item(v, now + ttl)), Unit)
    case Get(k) =>
      if k !in l.items then (l, Miss(None))
      else if IsExpired(l.items[k], now) then (LruRemove(l, {k}), Miss(Some(l.items[k].value)))
      else (l.(used := l.used[k := n]), Hit(l.items[k].value))
    case Remove(k) => (LruRemove(l, {k}), Unit)
    case Pop(k) =>
      if k !in l.items then (l, Miss(None))
      else (LruRemove(l, {k}),
            if IsExpired(l.items[k], now) then Miss(Some(l.items[k].value)) else Hit(l.items[k].value))
    case Keys => (LruRemove(l, expired), Listed(LiveKeys(l.items, now)))
    case Clear => (Lru(map[], map[]), Unit)
    case Tick => (LruRemove(l, expired), Unit)
  }

  ghost function LruRun<K(!new), V>(l: Lru<K, V>, max: nat, n: nat, events: seq<Event<K, V>>)
    : (Lru<K, V>, seq<Out<K, V>>)
    decreases |events|
  {
    if events == [] then (l, [])
    else
      var (l1, o) := LruStep(l, max, n, events[0].now, events[0].op);
      var (l2, os) := LruRun(l1, max, n + 1, events[1..]);
      (l2, [o] + os)
  }

  /** Keys listed from the newest stamp to the oldest. */
  ghost predicate Descending<K>(order: seq<K>, used: map<K, nat>) {
    && (forall i :: 0 <= i < |order| ==> order[i] in used)
    && (forall i, j :: 0 <= i < j < |order| ==> used[order[i]] > used[order[j]])
  }

  /** The recency list is the stamps in descending order. */
  ghost predicate Refines<K(!new), V>(s: State<K, V>, l: Lru<K, V>, max: nat, n: nat) {
    && Valid(s, max) && s.items == l.items && l.used.Keys == l.items.Keys
    && Descending(s.order, l.used)
    && (forall k :: k in l.used ==> l.used[k] < n)
  }

  lemma {:induction false} DescendingWithout<K(!new)>(order: seq<K>, used: map<K, nat>, used': map<K, nat>, k: K)
    requires Descending(order, used) && NoDuplicates(order)
    requires forall x :: x in order && x != k ==> x in used' && used'[x] == used[x]
    ensures Descending(Without(order, k), used')
  {
    if order != [] {
      var rest := order[1..];
      assert Descending(rest, used);
      DescendingWithout(rest, used, used', k);
      WithoutMeans(rest, k);
      if order[0] != k {
        var w := Without(rest, k);
        forall i | 0 <= i < |w| ensures w[i] in used' && used'[order[0]] > used'[w[i]] {
          assert w[i] in rest;
          var j :| 0 <= j < |rest| && rest[j] == w[i];
          assert order[j + 1] == w[i];
        }
      }
    }
  }

  lemma {:induction false} DescendingFilter<K(!new)>(order: seq<K>, used: map<K, nat>, used': map<K, nat>, keep: set<K>)
    requires Descending(order, used) && NoDuplicates(order)
    requires forall x :: x in order && x in keep ==> x in used' && used'[x] == used[x]
    ensures Descending(Filter(order, keep), used')
  {
    if order != [] {
      var rest := order[1..];
      assert Descending(rest, used);
      DescendingFilter(rest, used, used', keep);
      FilterMeans(rest, keep);
      if order[0] in keep {
        var w := Filter(rest, keep);
        forall i | 0 <= i < |w| ensures w[i] in used' && used'[order[0]] > used'[w[i]] {
          assert w[i] in rest;
          var j :| 0 <= j < |rest| && rest[j] == w[i];
          assert order[j + 1] == w[i];
        }
      }
    }
  }

  lemma RemoveRefines<K(!new), V>(s: State<K, V>, l: Lru<K, V>, max: nat, n: nat, k: K)
    requires Refines(s, l, max, n)
    ensures Refines(RemoveEntry(s, k), LruRemove(l, {k}), max, n)
  {
    RemoveKeeps(s, max, k);
    DescendingWithout(s.order, l.used, l.used - {k}, k);
  }

  lemma TouchRefines<K(!new), V>(s: State<K, V>, l: Lru<K, V>, max: nat, n: nat, k: K)
    requires Refines(s, l, max, n) && k in s.items
    ensures Refines(Touch(s, k), l.(used := l.used[k := n]), max, n + 1)
  {
    TouchKeeps(s, max, k);
    TouchDescends(s.order, l.used, k, n);
  }

  lemma TouchDescends<K(!new)>(order: seq<K>, used: map<K, nat>, k: K, n: nat)
    requires Descending(order, used) && NoDuplicates(order) && forall x :: x in used ==> used[x] < n
    ensures Descending([k] + Without(order, k), used[k := n])
  {
    DescendingWithout(order, used, used[k := n], k);
    WithoutMeans(order, k);
    var w := Without(order, k);
    forall i | 0 <= i < |w| ensures used[k := n][w[i]] < n { assert w[i] in w; }
  }

  lemma SweepRefines<K(!new), V>(s: State<K, V>, l: Lru<K, V>, max: nat, n: nat, now: int)
    requires Refines(s, l, max, n)
    ensures Refines(Swept(s, now), LruRemove(l, l.items.Keys - LiveKeys(l.items, now)), max, n)
  {
    var live := LiveKeys(l.items, now);
    var gone := l.items.Keys - live;
    SweepKeeps(s, max, now);
    DescendingFilter(s.order, l.used, l.used - gone, live);
    assert Swept(s, now).items == l.items - gone;
  }

  /** The last of the list is the key with the oldest stamp, and the only one. */
  lemma LastIsOldest<K(!new)>(order: seq<K>, used: map<K, nat>, x: K)
    requires Descending(order, used) && order != [] && forall k :: k in order <==> k in used
    ensures IsOldest(used, x) <==> x == order[|order| - 1]
  {
    var last := order[|order| - 1];
    forall k | k in used ensures used[last] <= used[k] && (k != last ==> used[last] < used[k]) {
      var i :| 0 <= i < |order| && order[i] == k;
    }
    assert last in order;
  }

  lemma SetRefines<K(!new), V>(s: State<K, V>, l: Lru<K, V>, max: nat, n: nat, k: K, i: Item<V>)
    requires Refines(s, l, max, n)
    ensures Refines(SetEntry(s, max, k, i), LruSet(l, max, n, k, i), max, n + 1)
  {
    hide Refines, Valid, EvictOldest, LruRemove, Touch, LruEvict, IsOldest;
    RefinesItems(s, l, max, n);
    var s' := Touch(s.(items := s.items[k := i]), k);
    var l' := Lru(l.items[k := i], l.used[k := n]);
    RefinesValid(s, l, max, n);
    PutRefines(s, l, max, n, k, i);
    SetKeeps(s, max, k, i);
    RefinesItems(s', l', 0, n + 1);
    if k !in s.items && max > 0 && |s'.items| > max {
      NotEmpty(s', l', n + 1);
      EvictRefines(s', l', n + 1);
      LruEvicts(l', s'.order[|s'.order| - 1]);
    }
    WithBound(SetEntry(s, max, k, i), LruSet(l, max, n, k, i), max, n + 1);
  }

  lemma RefinesValid<K(!new), V>(s: State<K, V>, l: Lru<K, V>, max: nat, n: nat)
    requires Refines(s, l, max, n)
    ensures Valid(s, max)
  {
  }

  lemma NotEmpty<K(!new), V>(s: State<K, V>, l: Lru<K, V>, n: nat)
    requires Refines(s, l, 0, n) && |s.items| > 0
    ensures s.order != []
  {
    var k :| k in s.items;
    assert k in s.order;
  }

  lemma WithBound<K(!new), V>(s: State<K, V>, l: Lru<K, V>, max: nat, n: nat)
    requires Refines(s, l, 0, n) && Valid(s, max)
    ensures Refines(s, l, max, n)
  {
  }

  lemma LruEvicts<K(!new), V>(l: Lru<K, V>, last: K)
    requires forall x :: IsOldest(l.used, x) <==> x == last
    ensures LruEvict(l) == LruRemove(l, {last})
  {
    assert IsOldest(l.used, last);
  }

  lemma PutRefines<K(!new), V>(s: State<K, V>, l: Lru<K, V>, max: nat, n: nat, k: K, i: Item<V>)
    requires Refines(s, l, max, n)
    ensures Refines(Touch(s.(items := s.items[k := i]), k), Lru(l.items[k := i], l.used[k := n]), 0, n + 1)
  {
    TouchDescends(s.order, l.used, k, n);
    WithoutMeans(s.order, k);
  }

  lemma EvictRefines<K(!new), V>(s: State<K, V>, l: Lru<K, V>, n: nat)
    requires Refines(s, l, 0, n) && s.order != []
    ensures var last := s.order[|s.order| - 1];
            && (forall x :: IsOldest(l.used, x) <==> x == last)
            && EvictOldest(s) == RemoveEntry(s, last)
            && Refines(EvictOldest(s), LruRemove(l, {last}), 0, n)
  {
    var last := s.order[|s.order| - 1];
    assert last in s.order;
    forall x ensures IsOldest(l.used, x) <==> x == last { LastIsOldest(s.order, l.used, x); }
    RemoveRefines(s, l, 0, n, last);
  }

  /** Each step of the cache is a step of the plain LRU, with the same answer. */
  lemma StepRefines<K(!new), V>(s: State<K, V>, l: Lru<K, V>, max: nat, n: nat, now: int, op: Op<K, V>)
    requires Refines(s, l, max, n)
    ensures Refines(Step(s, max, now, op).0, LruStep(l, max, n, now, op).0, max, n + 1)
    ensures Step(s, max, now, op).1 == LruStep(l, max, n, now, op).1
  {
    hide Refines, RemoveEntry, Touch, SetEntry, LruSet, Swept, LruRemove;
    RefinesItems(s, l, max, n);
    match op
    case Set(k, v, ttl) => SetRefines(s, l, max, n, k, Item(v, now + ttl));
    case Get(k) =>
      RemoveRefines(s, l, max, n, k);
      Later(RemoveEntry(s, k), LruRemove(l, {k}), max, n);
      Later(s, l, max, n);
      if k in s.items { TouchRefines(s, l, max, n, k); }
    case Remove(k) =>
      RemoveRefines(s, l, max, n, k);
      Later(RemoveEntry(s, k), LruRemove(l, {k}), max, n);
      Later(s, l, max, n);
      if k !in s.items { RemoveAbsent(l, k); }
    case Pop(k) =>
      RemoveRefines(s, l, max, n, k);
      Later(RemoveEntry(s, k), LruRemove(l, {k}), max, n);
      Later(s, l, max, n);
    case Keys =>
      SweepRefines(s, l, max, n, now);
      Later(Swept(s, now), LruRemove(l, l.items.Keys - LiveKeys(l.items, now)), max, n);
    case Clear => EmptyRefines<K, V>(max, n + 1);
    case Tick =>
      SweepRefines(s, l, max, n, now);
      Later(Swept(s, now), LruRemove(l, l.items.Keys - LiveKeys(l.items, now)), max, n);
  }

  lemma RefinesItems<K(!new), V>(s: State<K, V>, l: Lru<K, V>, max: nat, n: nat)
    requires Refines(s, l, max, n)
    ensures s.items == l.items && l.used.Keys == l.items.Keys
  {
  }

  lemma Later<K(!new), V>(s: State<K, V>, l: Lru<K, V>, max: nat, n: nat)
    requires Refines(s, l, max, n)
    ensures Refines(s, l, max, n + 1)
  {
  }

  lemma RemoveAbsent<K(!new), V>(l: Lru<K, V>, k: K)
    requires k !in l.items && l.used.Keys == l.items.Keys
    ensures LruRemove(l, {k}) == l
  {
    assert l.items - {k} == l.items && l.used - {k} == l.used;
  }

  lemma EmptyRefines<K(!new), V>(max: nat, n: nat)
    ensures var empty: State<K, V> := State(map[], []); Refines(empty, Lru(map[], map[]), max, n)
  {
  }

  /** Every run: the same answers, the same contents, the map and the list in step and within the bound throughout. */
  lemma {:induction false} RunRefines<K(!new), V>(s: State<K, V>, l: Lru<K, V>, max: nat, n: nat,
                                        events: seq<Event<K, V>>)
    requires Refines(s, l, max, n)
    ensures Run(s, max, events).1 == LruRun(l, max, n, events).1
    ensures Refines(Run(s, max, events).0, LruRun(l, max, n, events).0, max, n + |events|)
    decreases |events|
  {
    hide Refines, Step, LruStep;
    if events != [] {
      StepRefines(s, l, max, n, events[0].now, events[0].op);
      RunRefines(Step(s, max, events[0].now, events[0].op).0, LruStep(l, max, n, events[0].now, events[0].op).0,
                 max, n + 1, events[1..]);
    }
  }
}
