/** Runs that fail, and when a run comes to upgrade. */
module ReconcileFailures {
  import opened Values
  import opened Reconcile
  import opened ReconcileTheorems

  /**
   * Every run, failed or not, leaves the cluster as the server keeps things, so that a later run can converge. What a
   * failed upgrade leaves went through the server too.
   */
  lemma RunStaysWell(api: Api, w: World, inp: Inputs)
    requires WellBehaved(api) && AllWellStored(api, w.live)
    requires inp.fails == Some(Upgrading) ==> AllWellStored(api, inp.left.live)
    ensures AllWellStored(api, Run(api, w, inp).0.live)
  {
    hide WellBehaved, AllWellStored, MergedLive, MergeFails, Compare, Upgrade, PartLive;
    UpgradeStaysWell(api, w, inp.upgrade);
    if w.stored.Some? {
      var current := Current(w.stored.value, inp.served);
      MergeStaysWell(api, w, inp, current);
      if !MergeFails(api, w, inp, current) {
        UpgradeStaysWell(api, World(MergedLive(api, w, inp, current), Some(current), w.revision), inp.upgrade);
      }
    }
  }

  lemma UpgradeStaysWell(api: Api, w: World, rendered: Manifest)
    requires WellBehaved(api) && AllWellStored(api, w.live)
    ensures AllWellStored(api, Upgrade(api, w, rendered).live)
  {
    hide WellBehaved, WellStored, Upgraded;
    var stored := if w.stored.Some? then w.stored.value else map[];
    forall k | k in rendered ensures WellStored(api, k, Upgraded(api, w, stored, rendered, k)) {
      UpgradedMeans(api, w, stored, rendered, k);
    }
  }

  /** A refused merge deletes nothing, and leaves alone what it did not reach. */
  lemma RefusalDeletesNothing(api: Api, w: World, inp: Inputs)
    requires Run(api, w, inp).1.MergeFailed?
    ensures w.live.Keys <= Run(api, w, inp).0.live.Keys <= w.live.Keys + inp.target.Keys
    ensures forall k :: k in w.live && k !in inp.reached ==> Run(api, w, inp).0.live[k] == w.live[k]
  {
    hide MergedLive, MergeFails, Compare, Upgrade, Merged, Refused;
  }

  // ---- upgrades ----------------------------------------------------------------------------------

  /** The run got as far as the real upgrade, whether or not that succeeded. */
  predicate CallsUpgrade(o: Outcome) {
    (o.Done? && o.result.changed) || o.UpgradeFailed? || o == Failed(Upgrading)
  }

  /** Some live resource was lost by the release and cannot be read. */
  predicate Stuck(w: World, inp: Inputs, current: Manifest) {
    exists k :: k in inp.target && k in w.live && k in inp.unreadable && k !in current
  }

  /** What is to be seen before a run that makes it upgrade. */
  ghost predicate Due(api: Api, w: World, inp: Inputs) {
    w.stored.Some? ==>
      var current := Current(w.stored.value, inp.served);
      && inp.fails != Some(Rendering) && !Stuck(w, inp, current)
      && !Calm(api, w.live, current, inp.target, inp.unreadable)
  }

  /** A run upgrades exactly when its calls succeed so far, its merge is not refused, and the cluster is not calm. */
  lemma UpgradesIff(api: Api, w: World, inp: Inputs)
    requires WellBehaved(api) && AllWellStored(api, w.live) && Traced(w, inp)
    ensures CallsUpgrade(Run(api, w, inp).1) <==> inp.fails != Some(Loading) && Due(api, w, inp)
    ensures CallsUpgrade(Run(api, w, inp).1) ==>
              Run(api, w, inp).0.revision == if inp.fails == Some(Upgrading) then inp.left.revision else w.revision + 1
    ensures !CallsUpgrade(Run(api, w, inp).1) ==> Run(api, w, inp).0.revision == w.revision
  {
    hide WellBehaved, AllWellStored, Traced, Calm, MergedLive, MergeFails, Compare, PartLive;
    if w.stored.Some? {
      var current := Current(w.stored.value, inp.served);
      MergeFailsIff(api, w, inp, current);
      if Calm(api, w.live, current, inp.target, inp.unreadable) {
        CalmIsQuiet(api, w, inp, current);
      } else if !MergeFails(api, w, inp, current) {
        var live := MergedLive(api, w, inp, current);
        if !Compare(w, inp, current, live).changed { QuietIsCalm(api, w, inp, current); }
      }
    }
  }

  /** The outcome is a failed upgrade exactly when there was a release, an upgrade was due, and the call failed. */
  lemma UpgradeFailsIff(api: Api, w: World, inp: Inputs)
    requires WellBehaved(api) && AllWellStored(api, w.live) && Traced(w, inp)
    ensures Run(api, w, inp).1.UpgradeFailed? <==>
            w.stored.Some? && inp.fails == Some(Upgrading) && Due(api, w, inp)
    ensures Run(api, w, inp).1.UpgradeFailed? ==> Run(api, w, inp).0 == inp.left
  {
    UpgradesIff(api, w, inp);
    hide WellBehaved, AllWellStored, Traced, Due, MergedLive, MergeFails, Compare, PartLive;
  }

  /**
   * After a failed upgrade the next run upgrades exactly when the world that was left calls for it: there is no release
   * any more, or some object that can be read is not as rendered, or one is missing or orphaned.
   */
  lemma RetriedIff(api: Api, w: World, inp: Inputs, next: Inputs)
    requires WellBehaved(api) && AllWellStored(api, w.live) && Traced(w, inp) && AllWellStored(api, inp.left.live)
    requires w.stored.Some? && inp.fails == Some(Upgrading) && Due(api, w, inp)
    requires Traced(inp.left, next) && next.fails != Some(Loading)
    ensures var (w', outcome) := Run(api, w, inp);
            outcome.UpgradeFailed? && (CallsUpgrade(Run(api, w', next).1) <==> Due(api, inp.left, next))
  {
    hide WellBehaved, AllWellStored, Traced, Due, Run;
    UpgradeFailsIff(api, w, inp);
    UpgradesIff(api, inp.left, next);
  }

  /** If what is left is settled, the upgrade is forgotten: no later run on a similar render upgrades. */
  lemma FailedUpgradeForgotten(api: Api, w: World, inp: Inputs, runs: seq<Inputs>)
    requires WellBehaved(api) && AllWellStored(api, w.live) && Traced(w, inp)
    requires w.stored.Some? && inp.fails == Some(Upgrading) && Due(api, w, inp)
    requires Settled(api, inp.left, inp.target) && Recorded(inp.left.stored.value, inp.target, runs)
    requires AllRestamped(inp.target, runs)
    requires forall i :: 0 <= i < |runs| ==> Similar(api, inp.left, inp.target, runs[i].target)
    ensures var (w', outcome) := Run(api, w, inp);
            var (w'', outcomes) := RunAll(api, w', runs);
            && outcome.UpgradeFailed? && w''.revision == w'.revision && |outcomes| == |runs|
            && forall i :: 0 <= i < |outcomes| ==> !CallsUpgrade(outcomes[i])
  {
    hide WellBehaved, AllWellStored, Traced, Due, Run, RunAll, Settled, Recorded, AllRestamped, Similar;
    UpgradeFailsIff(api, w, inp);
    QuietForever(api, inp.left, inp.target, runs);
  }

  /** An upgrade that fails before it does anything leaves the merged cluster, which is settled. */
  lemma NoEffectIsSettled(api: Api, w: World, inp: Inputs)
    requires WellBehaved(api) && AllWellStored(api, w.live) && Traced(w, inp) && w.stored.Some?
    requires var current := Current(w.stored.value, inp.served);
             && !MergeFails(api, w, inp, current)
             && inp.left.live == MergedLive(api, w, inp, current) && inp.left.stored == Some(current)
    ensures Settled(api, inp.left, inp.target)
  {
    hide WellBehaved, AllWellStored, Traced, MergedLive, MergeFails, Calm;
    MergeSettles(api, w, inp, Current(w.stored.value, inp.served));
  }

  /** The same run again, its upgrade rolled back when it fails, whatever revision that writes. */
  predicate RollsBack(w: World, inp: Inputs, again: Inputs) {
    again.(left := inp.left) == inp && again.left.live == w.live && again.left.stored == w.stored
  }

  /** An upgrade that is rolled back is retried by every run, for as long as it keeps failing. */
  lemma {:induction false} RolledBackRetried(api: Api, w: World, inp: Inputs, runs: seq<Inputs>)
    requires WellBehaved(api) && AllWellStored(api, w.live) && Traced(w, inp)
    requires w.stored.Some? && inp.fails == Some(Upgrading) && Due(api, w, inp)
    requires forall i :: 0 <= i < |runs| ==> RollsBack(w, inp, runs[i])
    ensures var outcomes := RunAll(api, w, runs).1;
            |outcomes| == |runs| && forall i :: 0 <= i < |outcomes| ==> outcomes[i].UpgradeFailed?
    decreases |runs|
  {
    hide WellBehaved, AllWellStored, Traced, Due, Run, RunAll, RollsBack;
    RunAllSteps(api, w, runs);
    if runs != [] {
      RetriedOnce(api, w, inp, runs[0]);
      var w1 := Run(api, w, runs[0]).0;
      forall i | 0 <= i < |runs[1..]| ensures RollsBack(w1, inp, runs[1..][i]) {
        RollsBackStill(w, inp, w1, runs[i + 1]);
      }
      RolledBackRetried(api, w1, inp, runs[1..]);
    }
  }

  lemma RunAllSteps(api: Api, w: World, runs: seq<Inputs>)
    ensures RunAll(api, w, runs).1 ==
            if runs == [] then [] else [Run(api, w, runs[0]).1] + RunAll(api, Run(api, w, runs[0]).0, runs[1..]).1
  {
    hide Run;
  }

  lemma RollsBackStill(w: World, inp: Inputs, w': World, again: Inputs)
    requires RollsBack(w, inp, again) && w'.live == w.live && w'.stored == w.stored
    ensures RollsBack(w', inp, again)
  {
  }

  lemma RetriedOnce(api: Api, w: World, inp: Inputs, again: Inputs)
    requires WellBehaved(api) && AllWellStored(api, w.live) && Traced(w, inp) && RollsBack(w, inp, again)
    requires w.stored.Some? && inp.fails == Some(Upgrading) && Due(api, w, inp)
    ensures var (w', outcome) := Run(api, w, again);
            outcome.UpgradeFailed? && w'.live == w.live && w'.stored == w.stored && Traced(w', inp) && Due(api, w', inp)
  {
    hide WellBehaved, AllWellStored, Traced, Due, Run;
    StillDue(api, w, inp, w, again);
    UpgradeFailsIff(api, w, again);
    StillDue(api, w, inp, again.left, inp);
  }

  /** Neither the revision nor what a failed upgrade will leave has a say in whether an upgrade is due. */
  lemma StillDue(api: Api, w: World, inp: Inputs, w': World, inp': Inputs)
    requires Traced(w, inp) && Due(api, w, inp)
    requires w'.live == w.live && w'.stored == w.stored && inp'.(left := inp.left) == inp
    ensures Traced(w', inp') && Due(api, w', inp')
  {
    hide Calm;
    assert w'.stored.Some? ==> !Stuck(w', inp', Current(w'.stored.value, inp'.served));
  }

  /** A recorded resource with one field that drifted, rendered as recorded, and not readable. */
  function Drifted(k: Key): World {
    World(map[k := map[Field("a") := "2"]], Some(map[k := Doc("v1", map[Field("a") := "1"])]), 1)
  }

  function Unseen(k: Key): Inputs {
    var t := map[k := Doc("v1", map[Field("a") := "1"])];
    Inputs(t, t, {(k.group, "v1", k.kind)}, {k}, None, {}, Drifted(k))
  }

  lemma DriftHealed(api: Api, k: Key)
    requires WellBehaved(api) && Real(api, k, Field("a")) && !IsSecret(k) && forall p :: api.defaults(k, p).None?
    ensures var w, inp := Drifted(k), Unseen(k);
            !Refused(api, w, inp, w.stored.value, k)
                && Get(Merged(api, w, inp, w.stored.value, k), Field("a")) == Some("1")
  {
    hide WellBehaved;
    var w, inp := Drifted(k), Unseen(k);
    MergedMeans(api, w, inp, w.stored.value, k);
    PreparedGet(api, w, inp, k, Field("a"));
    PreparedIsFolded(api, w, inp, k, Field("a"));
  }

  /** A drifted resource whose read fails is healed, and the run says that nothing changed. */
  lemma UnreadHealMissed(api: Api, k: Key)
    requires WellBehaved(api) && Real(api, k, Field("a")) && !IsSecret(k) && forall p :: api.defaults(k, p).None?
    ensures var (w', outcome) := Run(api, Drifted(k), Unseen(k));
            outcome == Done(Result(false, 0, 0, 0)) && k in w'.live && Get(w'.live[k], Field("a")) == Some("1")
  {
    hide WellBehaved, Merged, Refused;
    var w, inp := Drifted(k), Unseen(k);
    var current := w.stored.value;
    assert Current(w.stored.value, inp.served) == current;
    DriftHealed(api, k);
    assert !MergeFails(api, w, inp, current);
    var live := MergedLive(api, w, inp, current);
    assert live[k] == Merged(api, w, inp, current, k);
    assert Compare(w, inp, current, live) == Result(false, 0, 0, 0);
  }

  /** The same resource where it can be read, with an upgrade that fails and leaves the given world. */
  function Failing(k: Key, left: World): Inputs {
    Unseen(k).(unreadable := {}, fails := Some(Upgrading), left := left)
  }

  /** The resource as rendered, under a failed revision. */
  function Healed(k: Key): World {
    Drifted(k).(live := map[k := map[Field("a") := "1"]], revision := 2)
  }

  lemma DriftIsDue(api: Api, k: Key, left: World)
    requires WellBehaved(api) && Real(api, k, Field("a")) && !IsSecret(k) && forall p :: api.defaults(k, p).None?
    ensures AllWellStored(api, Drifted(k).live) && AllWellStored(api, Healed(k).live)
    ensures Traced(Drifted(k), Failing(k, left)) && Due(api, Drifted(k), Failing(k, left))
    ensures Settled(api, Healed(k), Failing(k, left).target)
  {
    hide WellBehaved;
    var w, inp := Drifted(k), Failing(k, left);
    assert Current(w.stored.value, inp.served) == w.stored.value;
    var a := Field("a");
    assert Folded(api, IsSecret(k), inp.target[k].fields, a) == Some("1") && Get(w.live[k], a) == Some("2");
    assert !Holds(api, k, inp.target[k].fields, w.live[k]);
  }

  /** A failed upgrade that leaves the healed resource is forgotten, and one that rolls back to the drift is retried. */
  lemma ForgottenAndRetried(api: Api, k: Key)
    requires WellBehaved(api) && Real(api, k, Field("a")) && !IsSecret(k) && forall p :: api.defaults(k, p).None?
    ensures var inp := Failing(k, Healed(k));
            var (w', outcome) := Run(api, Drifted(k), inp);
            outcome.UpgradeFailed? && !CallsUpgrade(Run(api, w', inp.(fails := None)).1)
    ensures var inp := Failing(k, Drifted(k));
            var (w', outcome) := Run(api, Drifted(k), inp);
            outcome.UpgradeFailed? && CallsUpgrade(Run(api, w', inp.(fails := None)).1)
  {
    DriftIsDue(api, k, Healed(k));
    DriftIsDue(api, k, Drifted(k));
    hide WellBehaved, AllWellStored, Run, Calm;
    var inp := Failing(k, Healed(k));
    assert Current(Healed(k).stored.value, inp.served) == Healed(k).stored.value;
    RetriedIff(api, Drifted(k), inp, inp.(fails := None));
    RetriedIff(api, Drifted(k), Failing(k, Drifted(k)), Failing(k, Drifted(k)).(fails := None));
  }
}
