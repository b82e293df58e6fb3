/** Reconcile as it runs: read, neutralise, adopt, merge, compare, and upgrade only on a real change. */
module ReconcileClient {
  import opened Values
  import opened Reconcile

  /** normalizeSecretStringData: each stringData entry is encoded over its data entry and removed. */
  method FoldInPlace(api: Api, k: Key, d: Fields) returns (r: Fields)
    ensures r == Fold(api, IsSecret(k), d)
  {
    r := d;
    if !IsSecret(k) { return; }
    var keys := set p | p in d && p.StringData? :: p.key;
    var todo := keys;
    while todo != {}
      invariant todo <= keys
      invariant forall p :: Get(r, p) ==
                  if p.StringData? then (if p.key in todo then Get(d, p) else None)
                  else if p.Data? && p.key in keys - todo then Some(api.encode(d[StringData(p.key)]))
                  else Get(d, p)
    {
      var x :| x in todo;
      var encoded := api.encode(r[StringData(x)]);
      r := r[Data(x) := encoded] - {StringData(x)};
      todo := todo - {x};
    }
    var folded := Fold(api, true, d);
    forall p
      ensures Get(r, p) == Get(folded, p)
    {
      if p.StringData? && p in d { assert p.key in keys; }
    }
    SameFields(r, folded);
  }

  lemma SameFields(a: Fields, b: Fields)
    requires forall p :: Get(a, p) == Get(b, p)
    ensures a == b
  {
    forall p
      ensures p in a <==> p in b
      ensures p in a ==> a[p] == b[p]
    {
      assert Get(a, p) == Get(b, p);
    }
  }

  /** The objects read are the readable live targets. */
  ghost predicate ReadOk(w: World, inp: Inputs, read: map<Key, Fields>) {
    && (forall k :: k in read <==> k in inp.target && Seen(w, inp, k))
    && (forall k :: k in read ==> read[k] == w.live[k])
  }

  ghost predicate TracesOk(read: map<Key, Fields>, traces: map<Key, string>) {
    && (forall k :: k in traces <==> k in read && Traceparent in read[k] && read[k][Traceparent] != "")
    && (forall k :: k in traces ==> traces[k] == read[k][Traceparent])
  }

  ghost predicate PreparedOk(api: Api, w: World, inp: Inputs, target: map<Key, Fields>) {
    target.Keys == inp.target.Keys && forall k :: k in target ==> target[k] == Prepared(api, w, inp, k)
  }

  ghost predicate OriginalsOk(api: Api, w: World, inp: Inputs, current: Manifest, originals: map<Key, Fields>) {
    forall k :: k in inp.target ==>
      Original(api, w, inp, current, k) == if k in originals then Some(originals[k]) else None
  }

  lemma OriginalsDecide(api: Api, w: World, inp: Inputs, current: Manifest, originals: map<Key, Fields>)
    requires OriginalsOk(api, w, inp, current, originals)
    ensures MergeFails(api, w, inp, current) <==> exists k :: k in inp.target && k in w.live && k !in originals
  {
    hide Original;
    if k :| k in inp.target && k in w.live && k !in originals { assert Refused(api, w, inp, current, k); }
  }

  lemma RefusedIff(api: Api, w: World, inp: Inputs, current: Manifest, originals: map<Key, Fields>, k: Key)
    requires OriginalsOk(api, w, inp, current, originals) && k in inp.target
    ensures Refused(api, w, inp, current, k) <==> k in w.live && k !in originals
  {
    hide Original;
  }

  /** Writing every target gives the merged cluster, writing those reached the one a refused merge leaves. */
  lemma WrittenLive(api: Api, w: World, inp: Inputs, current: Manifest, reached: set<Key>, written: map<Key, Fields>)
    requires forall k :: k in reached ==> k in inp.target && !Refused(api, w, inp, current, k)
    requires written.Keys == reached && forall k :: k in written ==> written[k] == Merged(api, w, inp, current, k)
    ensures !MergeFails(api, w, inp, current) && reached == inp.target.Keys ==>
              w.live - Orphans(w.live, current, inp.target) + written == MergedLive(api, w, inp, current)
    ensures (forall k :: k in reached <==> k in inp.target && k in inp.reached && !Refused(api, w, inp, current, k)) ==>
              w.live + written == PartLive(api, w, inp, current)
  {
    hide Refused, Merged, Orphans, MergeFails;
  }

  class Client {
    var live: map<Key, Fields>
    var stored: Option<Manifest>
    var revision: nat

    constructor (w: World)
      ensures Snapshot() == w
    {
      live, stored, revision := w.live, w.stored, w.revision;
    }

    function Snapshot(): World
      reads this
    {
      World(live, stored, revision)
    }

    /** Step 4: the objects that can be read, and the traceparents among them. */
    method ReadLive(inp: Inputs) returns (read: map<Key, Fields>, traces: map<Key, string>)
      ensures ReadOk(Snapshot(), inp, read) && TracesOk(read, traces)
    {
      read, traces := map[], map[];
      var todo := inp.target.Keys;
      while todo != {}
        invariant todo <= inp.target.Keys
        invariant forall k :: k in read <==> k in inp.target && k !in todo && Seen(Snapshot(), inp, k)
        invariant forall k :: k in read ==> read[k] == live[k]
        invariant forall k :: k in traces <==> k in read && Traceparent in read[k] && read[k][Traceparent] != ""
        invariant forall k :: k in traces ==> traces[k] == read[k][Traceparent]
      {
        var k :| k in todo;
        todo := todo - {k};
        if k !in live || k in inp.unreadable { continue; }
        read := read[k := live[k]];
        if Traceparent in live[k] && live[k][Traceparent] != "" { traces := traces[k := live[k][Traceparent]]; }
      }
    }

    /** Steps 4.5 and 4.6: keep the live traceparents, fold the Secrets. */
    method Prepare(api: Api, inp: Inputs, read: map<Key, Fields>, traces: map<Key, string>)
      returns (target: map<Key, Fields>)
      requires ReadOk(Snapshot(), inp, read) && TracesOk(read, traces)
      ensures PreparedOk(api, Snapshot(), inp, target)
    {
      target := map[];
      var todo := inp.target.Keys;
      while todo != {}
        invariant todo <= inp.target.Keys && target.Keys == inp.target.Keys - todo
        invariant forall k :: k in target ==> target[k] == Prepared(api, Snapshot(), inp, k)
      {
        var k :| k in todo;
        var d := inp.target[k].fields;
        if k in traces { d := d[Traceparent := traces[k]]; }
        d := FoldInPlace(api, k, d);
        target, todo := target[k := d], todo - {k};
      }
    }

    /** Step 4.7: adopt what is live and rendered but missing from the release. */
    method Adopt(api: Api, inp: Inputs, current: Manifest, read: map<Key, Fields>, target: map<Key, Fields>)
      returns (originals: map<Key, Fields>)
      requires ReadOk(Snapshot(), inp, read) && PreparedOk(api, Snapshot(), inp, target)
      ensures OriginalsOk(api, Snapshot(), inp, current, originals)
    {
      originals := map k | k in current :: current[k].fields;
      var todo := inp.target.Keys;
      while todo != {}
        invariant todo <= inp.target.Keys
        invariant forall k :: k in originals <==> k in current || (k in read && k !in todo)
        invariant forall k :: k in originals ==> originals[k] == if k in current then current[k].fields else target[k]
      {
        var k :| k in todo;
        todo := todo - {k};
        if k in read && k !in originals { originals := originals[k := target[k]]; }
      }
    }

    /** Step 5: create, patch, then delete; refused when a live target has no last-applied document. */
    method Merge(api: Api, inp: Inputs, current: Manifest, target: map<Key, Fields>, originals: map<Key, Fields>)
      returns (ok: bool)
      requires PreparedOk(api, Snapshot(), inp, target) && OriginalsOk(api, Snapshot(), inp, current, originals)
      modifies this`live
      ensures ok == !MergeFails(api, old(Snapshot()), inp, current)
      ensures live == if ok then MergedLive(api, old(Snapshot()), inp, current)
                      else PartLive(api, old(Snapshot()), inp, current)
    {
      hide Prepared, Original, Merged, MergeFails, Orphans, Refused, MergedLive, PartLive;
      ghost var w := Snapshot();
      ok := forall k | k in target :: k in live ==> k in originals;
      assert ok == !MergeFails(api, w, inp, current) by { OriginalsDecide(api, w, inp, current, originals); }
      forall k | k in inp.target ensures Refused(api, w, inp, current, k) <==> k in live && k !in originals {
        RefusedIff(api, w, inp, current, originals, k);
      }
      var reached := set k | k in target && (ok || k in inp.reached) && !(k in live && k !in originals);
      assert ok ==> reached == inp.target.Keys;
      var written := Write(api, inp, current, target, originals, reached);
      WrittenLive(api, w, inp, current, reached, written);
      live := if ok then live - Orphans(live, current, inp.target) + written else live + written;
    }

    /** The objects helm gets to, each created or patched. */
    method Write(api: Api, inp: Inputs, current: Manifest, target: map<Key, Fields>, originals: map<Key, Fields>,
                 reached: set<Key>)
      returns (written: map<Key, Fields>)
      requires PreparedOk(api, Snapshot(), inp, target) && OriginalsOk(api, Snapshot(), inp, current, originals)
      requires forall k :: k in reached ==> k in inp.target && !Refused(api, Snapshot(), inp, current, k)
      ensures written.Keys == reached
      ensures forall k :: k in written ==> written[k] == Merged(api, Snapshot(), inp, current, k)
    {
      hide Prepared, Original, Patch;
      written := map[];
      var todo := reached;
      while todo != {}
        invariant todo <= reached && written.Keys == reached - todo
        invariant forall k :: k in written ==> written[k] == Merged(api, Snapshot(), inp, current, k)
      {
        var k :| k in todo;
        var d: Fields;
        assert k in live ==> Original(api, Snapshot(), inp, current, k).Some?;
        if k in live {
          d := Patch(api, k, originals[k], target[k], live[k]);
        } else {
          d := api.write(k, None, target[k]);
        }
        written, todo := written[k := d], todo - {k};
      }
    }

    /** Step 6: count what was created, deleted and patched. */
    method Report(inp: Inputs, current: Manifest, ghost w: World, read: map<Key, Fields>, before: set<Key>,
                  deleted: set<Key>)
      returns (r: Result)
      requires inp.target.Keys <= live.Keys && before == w.live.Keys
      requires ReadOk(w, inp, read)
      requires deleted == Orphans(w.live, current, inp.target)
      ensures r == Compare(w, inp, current, live)
    {
      hide Stripped, Orphans;
      var patched: set<Key> := {};
      var todo := inp.target.Keys;
      while todo != {}
        invariant todo <= inp.target.Keys
        invariant forall k :: k in patched <==> k in Patched(w, inp, live) && k !in todo
      {
        var k :| k in todo;
        todo := todo - {k};
        if k in read && Stripped(read[k]) != Stripped(live[k]) { patched := patched + {k}; }
      }
      assert patched == Patched(w, inp, live);
      var created := inp.target.Keys - before;
      r := Result(created != {} || deleted != {} || patched != {}, |created|, |deleted|, |patched|);
    }

    /** Step 7: the real upgrade, or what it leaves when it fails. */
    method RunUpgrade(api: Api, inp: Inputs) returns (failed: bool)
      modifies this
      ensures failed == (inp.fails == Some(Upgrading))
      ensures Snapshot() == if failed then inp.left else Upgrade(api, old(Snapshot()), inp.upgrade)
    {
      failed := inp.fails == Some(Upgrading);
      var w := if failed then inp.left else Upgrade(api, Snapshot(), inp.upgrade);
      live, stored, revision := w.live, w.stored, w.revision;
    }

    method Reconcile(api: Api, inp: Inputs) returns (outcome: Outcome)
      modifies this
      ensures (Snapshot(), outcome) == Run(api, old(Snapshot()), inp)
    {
      hide ReadOk, TracesOk, PreparedOk, OriginalsOk, MergeFails, MergedLive, Compare, Upgrade, Orphans, PartLive;
      ghost var w := Snapshot();
      if inp.fails == Some(Loading) { return Failed(Loading); }
      if stored.None? {
        var failed := RunUpgrade(api, inp);
        return if failed then Failed(Upgrading) else Done(Result(true, 0, 0, 0));
      }
      var current := Current(stored.value, inp.served);
      if inp.fails == Some(Rendering) {
        stored := Some(current);
        return Failed(Rendering);
      }
      var read, traces := ReadLive(inp);
      var target := Prepare(api, inp, read, traces);
      var originals := Adopt(api, inp, current, read, target);
      var before, deleted := live.Keys, Orphans(live, current, inp.target);
      var ok := Merge(api, inp, current, target, originals);
      stored := Some(current);
      if !ok { return MergeFailed; }
      var result := Report(inp, current, w, read, before, deleted);
      if result.changed {
        var failed := RunUpgrade(api, inp);
        if failed { return UpgradeFailed(result); }
      }
      outcome := Done(result);
    }
  }
}
