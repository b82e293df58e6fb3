/** How long an entry lives, by the clock: from its Set until the instant its lifetime ends, that instant included. */
module CacheLifetime {
  import opened Values
  import opened Cache
  import opened CacheTheorems

  /** The cache before event n. */
  function Before<K(==), V>(s: State<K, V>, max: nat, events: seq<Event<K, V>>, n: nat): State<K, V>
    requires n <= |events|
  {
    if n == 0 then s else Step(Before(s, max, events, n - 1), max, events[n - 1].now, events[n - 1].op).0
  }

  /** What event n answers. */
  function OutAt<K(==), V>(s: State<K, V>, max: nat, events: seq<Event<K, V>>, n: nat): Out<K, V>
    requires n < |events|
  {
    Step(Before(s, max, events, n), max, events[n].now, events[n].op).1
  }

  lemma {:induction false} BeforeTail<K(!new), V>(s: State<K, V>, max: nat, events: seq<Event<K, V>>, n: nat)
    requires 0 < n <= |events|
    ensures Before(s, max, events, n)
            == Before(Step(s, max, events[0].now, events[0].op).0, max, events[1..], n - 1)
  {
    hide Step;
    if n > 1 { BeforeTail(s, max, events, n - 1); }
  }

  /** These are the answers of a run. */
  lemma {:induction false} OutIsRun<K(!new), V>(s: State<K, V>, max: nat, events: seq<Event<K, V>>, n: nat)
    requires n < |events|
    ensures |Run(s, max, events).1| == |events| && Run(s, max, events).1[n] == OutAt(s, max, events, n)
    decreases |events|
  {
    hide Step;
    var s1 := Step(s, max, events[0].now, events[0].op).0;
    if n > 0 {
      BeforeTail(s, max, events, n);
      OutIsRun(s1, max, events[1..], n - 1);
    } else if |events| > 1 {
      OutIsRun(s1, max, events[1..], 0);
    }
  }

  /** The clock does not go back. */
  ghost predicate Clocked<K, V>(events: seq<Event<K, V>>) {
    forall i, j :: 0 <= i < j < |events| ==> events[i].now <= events[j].now
  }

  /** The operation gives the key a new entry or takes its entry away, whatever the time. */
  predicate Replaces<K(==), V>(op: Op<K, V>, k: K) {
    op.Clear? || ((op.Set? || op.Remove? || op.Pop?) && op.key == k)
  }

  /** The operation pushes the key out to make room for another. */
  predicate Evicts<K(==), V>(s: State<K, V>, max: nat, op: Op<K, V>, k: K) {
    op.Set? && op.key !in s.items && 0 < max <= |s.items| && s.order != [] && s.order[|s.order| - 1] == k
  }

  /** From event m up to event n, nobody replaces the entry of the key and nobody pushes it out. */
  ghost predicate LeftAlone<K(!new), V>(s: State<K, V>, max: nat, events: seq<Event<K, V>>, m: nat, n: nat, k: K)
    requires n <= |events|
  {
    forall i :: m <= i < n ==> !Replaces(events[i].op, k) && !Evicts(Before(s, max, events, i), max, events[i].op, k)
  }

  lemma {:induction false} ValidBefore<K(!new), V>(s: State<K, V>, max: nat, events: seq<Event<K, V>>, n: nat)
    requires Valid(s, max) && n <= |events|
    ensures Valid(Before(s, max, events, n), max)
  {
    hide Step, Valid;
    if n > 0 {
      ValidBefore(s, max, events, n - 1);
      StepKeeps(Before(s, max, events, n - 1), max, events[n - 1].now, events[n - 1].op);
    }
  }

  /** One step over an entry that is left alone: it stays, or it goes because its time is over. */
  lemma EntryStep<K(!new), V>(s: State<K, V>, max: nat, now: int, op: Op<K, V>, k: K, v: V, end: int)
    requires Valid(s, max) && !Replaces(op, k) && !Evicts(s, max, op, k)
    requires k in s.items ==> s.items[k] == Item(v, end)
    ensures var items := Step(s, max, now, op).0.items;
            && (k in items ==> items[k] == Item(v, end))
            && (k in s.items && k !in items ==> now > end)
            && (k !in s.items ==> k !in items)
  {
    if op.Set? {
      PutKeeps(s, max, op.key, Item(op.value, now + op.ttl));
      EvictedIsLast(s, max, op.key, Item(op.value, now + op.ttl));
    }
  }

  /** A Set drops at most the last of the list, and only when the cache is full. */
  lemma EvictedIsLast<K(!new), V>(s: State<K, V>, max: nat, k: K, i: Item<V>)
    requires Valid(s, max)
    ensures var items := SetEntry(s, max, k, i).items;
            && (forall x :: x in items && x != k ==> x in s.items && items[x] == s.items[x])
            && (forall x :: x in s.items && x !in items ==>
                  k !in s.items && 0 < max <= |s.items| && s.order != [] && x == s.order[|s.order| - 1])
  {
    hide Valid, EvictOldest;
    var s' := Touch(s.(items := s.items[k := i]), k);
    PutKeeps(s, max, k, i);
    if k !in s.items && max > 0 && |s'.items| > max { EvictingSet(s, max, k, i); }
  }

  /** The entries after a Set of a new key into a full cache. */
  lemma EvictingSet<K(!new), V>(s: State<K, V>, max: nat, k: K, i: Item<V>)
    requires Valid(s, max) && k !in s.items && 0 < max <= |s.items|
    ensures s.order != [] && s.order[|s.order| - 1] != k
    ensures var s', last := Touch(s.(items := s.items[k := i]), k), s.order[|s.order| - 1];
            EvictOldest(s').items == s.items[k := i] - {last} && EvictOldest(s').order == Without([k] + s.order, last)
  {
    hide RemoveEntry;
    var s' := Touch(s.(items := s.items[k := i]), k);
    DistinctCount(s.order, s.items.Keys);
    PutKeeps(s, max, k, i);
    NothingToDrop(s.order, k);
    assert s'.order == [k] + s.order && s'.order[|s'.order| - 1] == s.order[|s.order| - 1];
    EvictKeeps(s', k);
    Removed(s', s.order[|s.order| - 1]);
  }

  lemma Removed<K(!new), V>(s: State<K, V>, k: K)
    ensures RemoveEntry(s, k).items == s.items - {k} && RemoveEntry(s, k).order == Without(s.order, k)
  {
  }

  /** After a Set, until its entry is replaced or pushed out: the entry is there, or the clock has passed its end. */
  lemma {:induction false} EntryLasts<K(!new), V>(s: State<K, V>, max: nat, events: seq<Event<K, V>>, m: nat, n: nat)
    requires Valid(s, max) && Clocked(events) && m < n <= |events| && events[m].op.Set?
    requires LeftAlone(s, max, events, m + 1, n, events[m].op.key)
    ensures var op, items := events[m].op, Before(s, max, events, n).items;
            && (op.key in items ==> items[op.key] == Item(op.value, events[m].now + op.ttl))
            && (op.key !in items ==> events[n - 1].now > events[m].now + op.ttl)
    decreases n
  {
    hide Step, Valid;
    var op := events[m].op;
    ValidBefore(s, max, events, n - 1);
    if n == m + 1 {
      SetIsThere(Before(s, max, events, m), max, events[m].now, op);
    } else {
      EntryLasts(s, max, events, m, n - 1);
      EntryStep(Before(s, max, events, n - 1), max, events[n - 1].now, events[n - 1].op, op.key, op.value,
                events[m].now + op.ttl);
    }
  }

  lemma SetIsThere<K(!new), V>(s: State<K, V>, max: nat, now: int, op: Op<K, V>)
    requires Valid(s, max) && op.Set?
    ensures var items := Step(s, max, now, op).0.items;
            op.key in items && items[op.key] == Item(op.value, now + op.ttl)
  {
    SetKeeps(s, max, op.key, Item(op.value, now + op.ttl));
  }

  /**
   * The lifetime of an entry. It is Set at one event, and left alone until a later one. There, a Get or a Pop of the
   * key hits, with the value that was Set, exactly when the clock has not passed the instant of the Set plus its
   * lifetime, and misses otherwise; the keys listed include it exactly then.
   */
  lemma Lifetime<K(!new), V>(s: State<K, V>, max: nat, events: seq<Event<K, V>>, m: nat, n: nat)
    requires Valid(s, max) && Clocked(events) && m < n < |events| && events[m].op.Set?
    requires LeftAlone(s, max, events, m + 1, n, events[m].op.key)
    ensures var set_, end := events[m].op, events[m].now + events[m].op.ttl;
            var op, out := events[n].op, OutAt(s, max, events, n);
            && ((op.Get? || op.Pop?) && op.key == set_.key ==>
                  if events[n].now <= end then out == Hit(set_.value) else out.Miss?)
            && (op.Keys? ==> out.Listed? && (set_.key in out.keys <==> events[n].now <= end))
  {
    EntryLasts(s, max, events, m, n);
  }

  /** A key without an entry gets one by a Set only. */
  lemma AbsentStep<K(!new), V>(s: State<K, V>, max: nat, now: int, op: Op<K, V>, k: K)
    requires Valid(s, max) && k !in s.items && !(op.Set? && op.key == k)
    ensures k !in Step(s, max, now, op).0.items
  {
    if op.Set? { EvictedIsLast(s, max, op.key, Item(op.value, now + op.ttl)); }
  }

  lemma {:induction false} AbsentLasts<K(!new), V>(
    s: State<K, V>, max: nat, events: seq<Event<K, V>>, m: nat, n: nat, k: K)
    requires Valid(s, max) && m <= n <= |events| && k !in Before(s, max, events, m).items
    requires forall i :: m <= i < n ==> !(events[i].op.Set? && events[i].op.key == k)
    ensures k !in Before(s, max, events, n).items
    decreases n
  {
    hide Step, Valid;
    if m < n {
      AbsentLasts(s, max, events, m, n - 1, k);
      ValidBefore(s, max, events, n - 1);
      AbsentStep(Before(s, max, events, n - 1), max, events[n - 1].now, events[n - 1].op, k);
    }
  }

  /** After a Remove, a Pop or a Clear, and until the next Set, a key is a miss and is not listed. */
  lemma GoneUntilSet<K(!new), V>(s: State<K, V>, max: nat, events: seq<Event<K, V>>, m: nat, n: nat, k: K)
    requires Valid(s, max) && m < n < |events| && Replaces(events[m].op, k) && !events[m].op.Set?
    requires forall i :: m < i < n ==> !(events[i].op.Set? && events[i].op.key == k)
    ensures var op, out := events[n].op, OutAt(s, max, events, n);
            && ((op.Get? || op.Pop?) && op.key == k ==> out == Miss(None))
            && (op.Keys? ==> out.Listed? && k !in out.keys)
  {
    assert k !in Before(s, max, events, m + 1).items;
    AbsentLasts(s, max, events, m + 1, n, k);
  }

  // ---- who is not pushed out ---------------------------------------------------------------------

  /** The other keys that were Set or asked for between two events. */
  ghost function Used<K(!new), V>(events: seq<Event<K, V>>, m: nat, n: nat, k: K): set<K>
    requires n <= |events|
  {
    set i | m < i < n && (events[i].op.Set? || events[i].op.Get?) && events[i].op.key != k :: events[i].op.key
  }

  /** The keys more recent than one. */
  function Ahead<K(==)>(order: seq<K>, k: K): set<K> {
    if order == [] || order[0] == k then {} else {order[0]} + Ahead(order[1..], k)
  }

  lemma {:induction false} AheadWithout<K(!new)>(order: seq<K>, k: K, x: K)
    requires x != k
    ensures Ahead(Without(order, x), k) <= Ahead(order, k)
  {
    if order != [] { AheadWithout(order[1..], k, x); }
  }

  lemma {:induction false} AheadFilter<K(!new)>(order: seq<K>, k: K, keep: set<K>)
    requires k in keep
    ensures Ahead(Filter(order, keep), k) <= Ahead(order, k)
  {
    if order != [] { AheadFilter(order[1..], k, keep); }
  }

  /** Ahead of the last of the list is everybody else. */
  lemma {:induction false} AheadOfLast<K(!new)>(order: seq<K>)
    requires order != [] && NoDuplicates(order)
    ensures forall x :: x in Ahead(order, order[|order| - 1]) <==> x in order && x != order[|order| - 1]
  {
    if |order| > 1 {
      AheadOfLast(order[1..]);
      assert forall x :: x in order <==> x == order[0] || x in order[1..];
    }
  }

  /** One step puts at most the key it Sets or finds ahead of another. */
  lemma AheadStep<K(!new), V>(s: State<K, V>, max: nat, now: int, op: Op<K, V>, k: K)
    requires Valid(s, max) && k in s.items && k in Step(s, max, now, op).0.items && !Replaces(op, k)
    ensures Ahead(Step(s, max, now, op).0.order, k)
            <= Ahead(s.order, k) + (if (op.Set? || op.Get?) && op.key != k then {op.key} else {})
  {
    hide Valid, SetEntry, Ahead, Without, Filter;
    match op
    case Set(x, v, ttl) => AheadSet(s, max, x, Item(v, now + ttl), k);
    case Get(x) => AheadTouch(s.order, k, x); if x != k { AheadWithout(s.order, k, x); }
    case Remove(x) => AheadWithout(s.order, k, x);
    case Pop(x) => AheadWithout(s.order, k, x);
    case Keys => AheadFilter(s.order, k, LiveKeys(s.items, now));
    case Clear =>
    case Tick => AheadFilter(s.order, k, LiveKeys(s.items, now));
  }

  lemma AheadTouch<K(!new)>(order: seq<K>, k: K, x: K)
    ensures Ahead([x] + Without(order, x), k) <= Ahead(order, k) + (if x != k then {x} else {})
  {
    if x != k {
      AheadWithout(order, k, x);
      assert ([x] + Without(order, x))[1..] == Without(order, x);
    }
  }

  lemma AheadSet<K(!new), V>(s: State<K, V>, max: nat, x: K, i: Item<V>, k: K)
    requires Valid(s, max) && k != x && k in SetEntry(s, max, x, i).items
    ensures Ahead(SetEntry(s, max, x, i).order, k) <= Ahead(s.order, k) + {x}
  {
    var s' := Touch(s.(items := s.items[x := i]), x);
    AheadTouch(s.order, k, x);
    if x !in s.items && max > 0 && |s'.items| > max {
      PutKeeps(s, max, x, i);
      EvictKeeps(s', x);
      AheadWithout(s'.order, k, s'.order[|s'.order| - 1]);
    }
  }

  lemma {:induction false} AheadIsUsed<K(!new), V>(s: State<K, V>, max: nat, events: seq<Event<K, V>>, m: nat, n: nat)
    requires Valid(s, max) && m < n <= |events| && events[m].op.Set?
    requires LeftAlone(s, max, events, m + 1, n, events[m].op.key)
    requires events[m].op.key in Before(s, max, events, n).items
    ensures Ahead(Before(s, max, events, n).order, events[m].op.key) <= Used(events, m, n, events[m].op.key)
    decreases n
  {
    hide Step, Valid;
    var k := events[m].op.key;
    ValidBefore(s, max, events, n - 1);
    var before, e := Before(s, max, events, n - 1), events[n - 1];
    if n == m + 1 {
      SetIsFirst(before, max, e.now, e.op);
    } else {
      if k !in before.items { AbsentStep(before, max, e.now, e.op, k); }
      AheadIsUsed(s, max, events, m, n - 1);
      AheadStep(before, max, e.now, e.op, k);
      assert Used(events, m, n - 1, k) <= Used(events, m, n, k);
    }
  }

  lemma SetIsFirst<K(!new), V>(s: State<K, V>, max: nat, now: int, op: Op<K, V>)
    requires Valid(s, max) && op.Set?
    ensures Ahead(Step(s, max, now, op).0.order, op.key) == {}
  {
    hide Valid, EvictOldest, Without;
    var k, i := op.key, Item(op.value, now + op.ttl);
    var s' := Touch(s.(items := s.items[k := i]), k);
    PutKeeps(s, max, k, i);
    if k !in s.items && max > 0 && |s'.items| > max {
      EvictingSet(s, max, k, i);
      FirstStays(k, s.order, s.order[|s.order| - 1]);
    }
  }

  lemma FirstStays<K(!new)>(k: K, rest: seq<K>, x: K)
    requires x != k
    ensures Without([k] + rest, x) != [] && Without([k] + rest, x)[0] == k
  {
  }

  /** To be pushed out, as many other keys as the cache holds must have been used since. */
  lemma EvictionTakes<K(!new), V>(s: State<K, V>, max: nat, events: seq<Event<K, V>>, m: nat, n: nat)
    requires Valid(s, max) && m < n < |events| && events[m].op.Set?
    requires LeftAlone(s, max, events, m + 1, n, events[m].op.key)
    requires Evicts(Before(s, max, events, n), max, events[n].op, events[m].op.key)
    ensures |Used(events, m, n + 1, events[m].op.key)| >= max
  {
    hide Step, Before, LeftAlone;
    var k, b := events[m].op.key, Before(s, max, events, n);
    ValidBefore(s, max, events, n);
    AheadOfLast(b.order);
    assert k in b.order && k in b.items;
    AheadIsUsed(s, max, events, m, n);
    var others := b.items.Keys - {k} + {events[n].op.key};
    assert |others| == |b.items|;
    assert others <= Used(events, m, n + 1, k);
    SubsetSize(others, Used(events, m, n + 1, k));
  }

  /**
   * A caller can tell from its own calls: without a bound, or with fewer other keys used since the Set than the bound,
   * an entry that is not replaced is not pushed out either.
   */
  lemma {:induction false} NotPushedOut<K(!new), V>(s: State<K, V>, max: nat, events: seq<Event<K, V>>, m: nat, n: nat)
    requires Valid(s, max) && m < n <= |events| && events[m].op.Set?
    requires forall i :: m < i < n ==> !Replaces(events[i].op, events[m].op.key)
    requires max == 0 || |Used(events, m, n, events[m].op.key)| < max
    ensures LeftAlone(s, max, events, m + 1, n, events[m].op.key)
    decreases n
  {
    hide Before;
    if n > m + 1 {
      var k := events[m].op.key;
      assert Used(events, m, n - 1, k) <= Used(events, m, n, k);
      SubsetSize(Used(events, m, n - 1, k), Used(events, m, n, k));
      NotPushedOut(s, max, events, m, n - 1);
      if Evicts(Before(s, max, events, n - 1), max, events[n - 1].op, k) { EvictionTakes(s, max, events, m, n - 1); }
    }
  }

  /** The same law over a run from an empty cache, in terms of the calls, the clock and the answers alone. */
  lemma LifetimeOfRun<K(!new), V>(max: nat, events: seq<Event<K, V>>, m: nat, n: nat)
    requires Clocked(events) && m < n < |events| && events[m].op.Set?
    requires forall i :: m < i < n ==> !Replaces(events[i].op, events[m].op.key)
    requires max == 0 || |Used(events, m, n, events[m].op.key)| < max
    ensures |Run(State(map[], []), max, events).1| == |events|
    ensures var set_, end := events[m].op, events[m].now + events[m].op.ttl;
            var op, out := events[n].op, Run(State(map[], []), max, events).1[n];
            && ((op.Get? || op.Pop?) && op.key == set_.key ==>
                  if events[n].now <= end then out == Hit(set_.value) else out.Miss?)
            && (op.Keys? ==> out.Listed? && (set_.key in out.keys <==> events[n].now <= end))
  {
    hide Run, LeftAlone, Used;
    var empty: State<K, V> := State(map[], []);
    EmptyValid<K, V>(max);
    NotPushedOut(empty, max, events, m, n);
    Lifetime(empty, max, events, m, n);
    OutIsRun(empty, max, events, n);
  }
}
