/** What a run counts, and which objects it leaves alone or removes, read off the cluster before and after. */
module ReconcileReport {
  import opened Values
  import opened Reconcile
  import opened ReconcileTheorems

  // ---- the counts --------------------------------------------------------------------------------

  /** The objects read before that are live before and after, with other content. */
  ghost function ReadAndChanged(inp: Inputs, before: map<Key, Fields>, after: map<Key, Fields>): set<Key> {
    set k | k in before && k in after && k in inp.target && k !in inp.unreadable && !Agree(before[k], after[k])
  }

  /** The numbers a result has to give for a change of the cluster. */
  ghost predicate Counts(inp: Inputs, before: map<Key, Fields>, after: map<Key, Fields>, r: Result) {
    && r.created == |after.Keys - before.Keys|
    && r.deleted == |before.Keys - after.Keys|
    && r.patched == |ReadAndChanged(inp, before, after)|
  }

  /** The report counts the objects that appeared, those that went, and those read that changed. */
  lemma CompareCounts(api: Api, w: World, inp: Inputs, current: Manifest)
    requires !MergeFails(api, w, inp, current)
    ensures var live := MergedLive(api, w, inp, current);
            Counts(inp, w.live, live, Compare(w, inp, current, live))
  {
    var live := MergedLive(api, w, inp, current);
    hide MergedLive, Merged, MergeFails, Agree, Stripped;
    assert live.Keys - w.live.Keys == Created(w, inp);
    assert w.live.Keys - live.Keys == Orphans(w.live, current, inp.target);
    forall k ensures k in ReadAndChanged(inp, w.live, live) <==> k in Patched(w, inp, live) {
      if k in w.live && k in live { AgreeMeans(w.live[k], live[k]); }
    }
    assert ReadAndChanged(inp, w.live, live) == Patched(w, inp, live);
  }

  /**
   * The result of a run over a release, failed upgrades included: its numbers are those of the change from the cluster
   * it found to the cluster its merge made, and it says changed exactly when one of them is not zero.
   */
  lemma RunCounts(api: Api, w: World, inp: Inputs)
    requires w.stored.Some?
    requires var o := Run(api, w, inp).1; o.Done? || o.UpgradeFailed?
    ensures var current, r := Current(w.stored.value, inp.served), Run(api, w, inp).1.result;
            && !MergeFails(api, w, inp, current)
            && Counts(inp, w.live, MergedLive(api, w, inp, current), r)
            && (r.changed <==> r.created + r.deleted + r.patched > 0)
  {
    hide MergedLive, MergeFails, Upgrade, PartLive, Counts, Orphans;
    var current := Current(w.stored.value, inp.served);
    assert !MergeFails(api, w, inp, current);
    CompareCounts(api, w, inp, current);
    ChangedByCount(w, inp, current, MergedLive(api, w, inp, current));
  }

  lemma ChangedByCount(w: World, inp: Inputs, current: Manifest, live: map<Key, Fields>)
    requires inp.target.Keys <= live.Keys
    ensures var r := Compare(w, inp, current, live); r.changed <==> r.created + r.deleted + r.patched > 0
  {
  }

  // ---- what is left alone ------------------------------------------------------------------------

  /** One object is as it was, or absent as it was. */
  predicate Untouched(before: map<Key, Fields>, after: map<Key, Fields>, k: Key) {
    (k in before <==> k in after) && (k in before ==> after[k] == before[k])
  }

  /** Rendered by neither the dry run nor the real upgrade. */
  predicate Foreign(inp: Inputs, k: Key) {
    k !in inp.target && k !in inp.upgrade
  }

  lemma MergeSpares(api: Api, w: World, inp: Inputs, current: Manifest, k: Key)
    requires k !in inp.target && (k !in current || (k in w.live && Keep in w.live[k]))
    ensures !MergeFails(api, w, inp, current) ==> Untouched(w.live, MergedLive(api, w, inp, current), k)
    ensures Untouched(w.live, PartLive(api, w, inp, current), k)
  {
    hide Merged, MergeFails;
  }

  lemma UpgradeSpares(api: Api, w: World, rendered: Manifest, k: Key)
    requires k !in rendered
    requires (w.stored.Some? ==> k !in w.stored.value) || (k in w.live && Keep in w.live[k])
    ensures Untouched(w.live, Upgrade(api, w, rendered).live, k)
  {
    hide Upgraded;
  }

  /**
   * A run leaves alone every object it does not render that is not recorded, or that is to be kept by its policy. What
   * a failing upgrade does is its own affair.
   */
  lemma OthersUntouched(api: Api, w: World, inp: Inputs, k: Key)
    requires Foreign(inp, k) && inp.fails != Some(Upgrading)
    requires (w.stored.Some? ==> k !in w.stored.value) || (k in w.live && Keep in w.live[k])
    ensures Untouched(w.live, Run(api, w, inp).0.live, k)
  {
    hide MergedLive, MergeFails, PartLive, Compare, Upgrade;
    UpgradeSpares(api, w, inp.upgrade, k);
    if w.stored.Some? {
      var current := Current(w.stored.value, inp.served);
      MergeSpares(api, w, inp, current, k);
      if !MergeFails(api, w, inp, current) {
        UpgradeSpares(api, World(MergedLive(api, w, inp, current), Some(current), w.revision), inp.upgrade, k);
      }
    }
  }

  /** An object applied in a version still served, and rendered no longer, is gone after a successful run. */
  lemma OrphanGoes(api: Api, w: World, inp: Inputs, k: Key)
    requires w.stored.Some? && Foreign(inp, k) && k in w.stored.value
    requires (k.group, w.stored.value[k].version, k.kind) in inp.served
    requires k in w.live && Keep !in w.live[k] && Run(api, w, inp).1.Done?
    ensures k !in Run(api, w, inp).0.live
  {
    hide MergeFails, Compare, Merged, Upgraded;
    var current := Current(w.stored.value, inp.served);
    assert k in Orphans(w.live, current, inp.target);
  }

  /** One whose version is served no longer is forgotten by the release and stays. */
  lemma UnservedOrphanStays(api: Api, w: World, inp: Inputs, k: Key)
    requires w.stored.Some? && Foreign(inp, k) && k in w.stored.value
    requires (k.group, w.stored.value[k].version, k.kind) !in inp.served
    requires k in w.live && inp.fails != Some(Upgrading)
    ensures Untouched(w.live, Run(api, w, inp).0.live, k)
    ensures Run(api, w, inp).1.Done? && Run(api, w, inp).0.stored.Some? ==> k !in Run(api, w, inp).0.stored.value
  {
    hide MergedLive, MergeFails, PartLive, Compare, Merged, Upgraded, Orphans;
    var current := Current(w.stored.value, inp.served);
    MergeSpares(api, w, inp, current, k);
    if !MergeFails(api, w, inp, current) {
      UpgradeSpares(api, World(MergedLive(api, w, inp, current), Some(current), w.revision), inp.upgrade, k);
    }
  }

  /** Where the merge has nothing to write, nothing is sent: the object stays as it is, ignored fields included. */
  lemma NothingSent(api: Api, w: World, inp: Inputs, current: Manifest, k: Key)
    requires k in inp.target && k in w.live && !Refused(api, w, inp, current, k)
    requires var target, original := Prepared(api, w, inp, k), Original(api, w, inp, current, k).value;
             && (forall p :: p in target ==> Get(w.live[k], p) == Some(target[p]))
             && (forall p :: p in original && p !in target ==> p !in w.live[k])
    ensures Merged(api, w, inp, current, k) == w.live[k]
  {
    hide Prepared, Original;
    var target, original := Prepared(api, w, inp, k), Original(api, w, inp, current, k).value;
    var m := Merge3(original, target, w.live[k]);
    forall p ensures Get(m, p) == Get(w.live[k], p) {}
    assert m.Keys == w.live[k].Keys by {
      forall p ensures p in m <==> p in w.live[k] { assert Get(m, p) == Get(w.live[k], p); }
    }
    forall p | p in m ensures m[p] == w.live[k][p] { assert Get(m, p) == Get(w.live[k], p); }
    assert m == w.live[k];
  }
}
