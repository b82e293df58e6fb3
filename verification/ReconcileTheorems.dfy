/** Reconcile converges, then stays quiet. */
module ReconcileTheorems {
  import opened Values
  import opened Reconcile

  /** As the server keeps a resource: a Secret is folded, and every default is filled in. */
  ghost predicate WellStored(api: Api, k: Key, d: Fields) {
    && (IsSecret(k) ==> forall p :: p in d ==> !p.StringData?)
    && (forall p :: Real(api, k, p) && api.defaults(k, p).Some? ==> p in d)
  }

  ghost predicate AllWellStored(api: Api, live: map<Key, Fields>) {
    forall k :: k in live ==> WellStored(api, k, live[k])
  }

  predicate LiveTrace(d: Fields) {
    Traceparent in d && d[Traceparent] != ""
  }

  /** Two documents that say the same once folded, the traceparent aside. */
  ghost predicate SameDoc(api: Api, k: Key, a: Fields, b: Fields) {
    forall p :: p != Traceparent ==> Folded(api, IsSecret(k), a, p) == Folded(api, IsSecret(k), b, p)
  }

  /** Every declared real field holds live, the traceparent aside. */
  ghost predicate Holds(api: Api, k: Key, t: Fields, live: Fields) {
    forall p :: Real(api, k, p) && p != Traceparent && Folded(api, IsSecret(k), t, p).Some? ==>
      Get(live, p) == Folded(api, IsSecret(k), t, p)
  }

  /** Nothing last applied and no longer declared is still live, the server's defaults aside. */
  ghost predicate NoLeftover(api: Api, k: Key, applied: Fields, t: Fields, live: Fields) {
    && (forall p :: Real(api, k, p) && p != Traceparent && p in applied && Folded(api, IsSecret(k), t, p).None? ==>
          Get(live, p) == api.defaults(k, p))
    && (Traceparent in applied && !LiveTrace(live) && Traceparent !in t ==> Traceparent !in live)
  }

  /** One rendered resource is live as declared, and what was applied before would take nothing away from it. */
  ghost predicate SettledAt(api: Api, live: map<Key, Fields>, applied: Manifest, t: Manifest, k: Key)
    requires k in t
  {
    && k in live
    && Holds(api, k, t[k].fields, live[k])
    && (Traceparent in t[k].fields ==> LiveTrace(live[k]))
    && (k in applied ==> NoLeftover(api, k, applied[k].fields, t[k].fields, live[k]))
  }

  /** Every rendered resource is live, as declared if it can be read and recorded if not, and nothing is orphaned. */
  ghost predicate Calm(api: Api, live: map<Key, Fields>, applied: Manifest, t: Manifest, unreadable: set<Key>) {
    && (forall k :: k in t ==> k in live && (k in unreadable ==> k in applied))
    && (forall k :: k in t && k !in unreadable ==> SettledAt(api, live, applied, t, k))
    && (forall k :: k in applied && k !in t && k in live ==> Keep in live[k])
  }

  /** The cluster is as the render declares, and the stored release would change nothing. */
  ghost predicate Settled(api: Api, w: World, t: Manifest) {
    w.stored.Some? && AllWellStored(api, w.live) && Calm(api, w.live, w.stored.value, t, {})
  }

  /** A render that differs only in a traceparent already live, or in stringData against data. */
  ghost predicate Similar(api: Api, w: World, t: Manifest, t': Manifest) {
    && t'.Keys == t.Keys
    && forall k :: k in t && k in w.live ==>
         SameDoc(api, k, t[k].fields, t'[k].fields) && (Traceparent in t'[k].fields ==> LiveTrace(w.live[k]))
  }

  /** Two objects with the same content, field by field. */
  ghost predicate Agree(a: Fields, b: Fields) {
    forall p: Path :: !p.Ignored? ==> Get(a, p) == Get(b, p)
  }

  lemma AgreeMeans(a: Fields, b: Fields)
    ensures Agree(a, b) <==> Stripped(a) == Stripped(b)
  {
    if Agree(a, b) {
      forall p: Path | !p.Ignored?
        ensures p in a <==> p in b
        ensures p in a ==> a[p] == b[p]
      {
        assert Get(a, p) == Get(b, p);
      }
    }
    if Stripped(a) == Stripped(b) {
      forall p: Path | !p.Ignored?
        ensures Get(a, p) == Get(b, p)
      {
        assert p in Stripped(a) <==> p in a;
        assert p in Stripped(b) <==> p in b;
      }
    }
  }

  // ---- quiet -------------------------------------------------------------------------------------

  /** What a prepared target declares: the render, folded, with the live traceparent if there is one. */
  lemma PreparedGet(api: Api, w: World, inp: Inputs, k: Key, p: Path)
    requires k in inp.target
    ensures Get(Prepared(api, w, inp, k), p) ==
            (if p != Traceparent then Folded(api, IsSecret(k), inp.target[k].fields, p)
             else if Seen(w, inp, k) && LiveTrace(w.live[k]) then Get(w.live[k], p) else Get(inp.target[k].fields, p))
  {
    var t := inp.target[k].fields;
    var traced := if Seen(w, inp, k) then KeepTraceparent(t, w.live[k]) else t;
    assert Get(Fold(api, IsSecret(k), traced), p) == Folded(api, IsSecret(k), traced, p);
  }

  /** A stored manifest after repair holds some of the same documents. */
  predicate PartOf(current: Manifest, stored: Manifest) {
    forall x :: x in current ==> x in stored && current[x] == stored[x]
  }

  /** The server restores what it owns. */
  lemma OwnedStays(api: Api, w: World, inp: Inputs, current: Manifest, k: Key, p: Path)
    requires WellBehaved(api) && k in inp.target && k in w.live && !Refused(api, w, inp, current, k)
    requires api.owned(k, p) && !p.Ignored?
    ensures Get(Merged(api, w, inp, current, k), p) == Get(w.live[k], p)
  {
  }

  /** A settled resource is merged into itself; of one that cannot be read, the traceparent may move. */
  lemma SettledStays(api: Api, w: World, inp: Inputs, current: Manifest, k: Key, p: Path)
    requires WellBehaved(api) && AllWellStored(api, w.live) && k in inp.target && !Refused(api, w, inp, current, k)
    requires SettledAt(api, w.live, current, inp.target, k) && !p.Ignored?
    requires p == Traceparent ==> k !in inp.unreadable
    ensures Get(Merged(api, w, inp, current, k), p) == Get(w.live[k], p)
  {
    if api.owned(k, p) {
      OwnedStays(api, w, inp, current, k, p);
    } else {
      MergedMeans(api, w, inp, current, k);
      PreparedMeans(api, w, inp, k);
      PreparedIsFolded(api, w, inp, k, p);
      hide Merged, Prepared, WellStored, Folded;
    }
  }

  /** A resource merged into itself is settled. */
  lemma StaysSettled(api: Api, w: World, inp: Inputs, current: Manifest, k: Key)
    requires WellBehaved(api) && AllWellStored(api, w.live) && k in inp.target && !Refused(api, w, inp, current, k)
    requires Seen(w, inp, k) && Agree(w.live[k], Merged(api, w, inp, current, k))
    requires Traceparent in inp.target[k].fields ==> LiveTrace(inp.target[k].fields) || LiveTrace(w.live[k])
    ensures SettledAt(api, w.live, current, inp.target, k)
  {
    MergedMeans(api, w, inp, current, k);
    PreparedMeans(api, w, inp, k);
    hide Merged, Prepared, WellStored, Folded;
    forall p | Real(api, k, p) ensures Get(w.live[k], p) == Get(Merged(api, w, inp, current, k), p) {}
  }

  /** Every traceparent the merge is given has a value. */
  predicate Traced(w: World, inp: Inputs) {
    forall k :: k in inp.target && Traceparent in inp.target[k].fields ==>
      LiveTrace(inp.target[k].fields) || (Seen(w, inp, k) && LiveTrace(w.live[k]))
  }

  lemma SettledAgrees(api: Api, w: World, inp: Inputs, current: Manifest, k: Key)
    requires WellBehaved(api) && AllWellStored(api, w.live) && k in inp.target && !Refused(api, w, inp, current, k)
    requires SettledAt(api, w.live, current, inp.target, k) && k !in inp.unreadable
    ensures Agree(w.live[k], Merged(api, w, inp, current, k))
  {
    hide WellBehaved, Merged, Refused, Holds, NoLeftover, WellStored;
    forall p: Path | !p.Ignored? ensures Get(w.live[k], p) == Get(Merged(api, w, inp, current, k), p) {
      SettledStays(api, w, inp, current, k, p);
    }
  }

  /** A calm cluster is merged without refusal and without a change to report. */
  lemma CalmIsQuiet(api: Api, w: World, inp: Inputs, current: Manifest)
    requires WellBehaved(api) && AllWellStored(api, w.live)
    requires Calm(api, w.live, current, inp.target, inp.unreadable)
    ensures !MergeFails(api, w, inp, current) && Orphans(w.live, current, inp.target) == {}
    ensures Compare(w, inp, current, MergedLive(api, w, inp, current)) == Result(false, 0, 0, 0)
  {
    MergeFailsIff(api, w, inp, current);
    var live := MergedLive(api, w, inp, current);
    hide WellBehaved, AllWellStored, Merged, SettledAt, Compare, MergedLive, Agree;
    forall k | Changed(w.live, live, k) ensures Unread(w, inp, k) {
      if k in inp.target && k !in inp.unreadable {
        SettledAgrees(api, w, inp, current, k);
      } else if k !in inp.target {
        AgreeMeans(w.live[k], live[k]);
      }
    }
    CompareIsExact(w, inp, current, live);
    NothingReported(w, inp, current, live);
  }

  /** And a cluster that is so merged is calm. */
  lemma QuietIsCalm(api: Api, w: World, inp: Inputs, current: Manifest)
    requires WellBehaved(api) && AllWellStored(api, w.live) && Traced(w, inp)
    requires !MergeFails(api, w, inp, current)
    requires !Compare(w, inp, current, MergedLive(api, w, inp, current)).changed
    ensures Calm(api, w.live, current, inp.target, inp.unreadable)
  {
    hide WellBehaved, AllWellStored, Merged, SettledAt, Compare, MergedLive, MergeFails, Traced;
    forall k | k in inp.target
      ensures k in w.live && (k in inp.unreadable ==> k in current)
      ensures k !in inp.unreadable ==> SettledAt(api, w.live, current, inp.target, k)
    {
      QuietAt(api, w, inp, current, k);
    }
    forall k | k in current && k !in inp.target && k in w.live ensures Keep in w.live[k] {
      NoOrphan(w, inp, current, MergedLive(api, w, inp, current), k);
    }
  }

  lemma QuietAt(api: Api, w: World, inp: Inputs, current: Manifest, k: Key)
    requires WellBehaved(api) && AllWellStored(api, w.live) && Traced(w, inp) && k in inp.target
    requires !MergeFails(api, w, inp, current)
    requires !Compare(w, inp, current, MergedLive(api, w, inp, current)).changed
    ensures k in w.live && (k in inp.unreadable ==> k in current)
    ensures k !in inp.unreadable ==> SettledAt(api, w.live, current, inp.target, k)
  {
    var live := MergedLive(api, w, inp, current);
    MergeFailsIff(api, w, inp, current);
    hide WellBehaved, AllWellStored, Merged, SettledAt, Compare, MergedLive, Agree, Orphans;
    CompareIsExact(w, inp, current, live);
    assert !Changed(w.live, live, k) || Unread(w, inp, k);
    if k !in inp.unreadable { StaysSettled(api, w, inp, current, k); }
  }

  lemma NoOrphan(w: World, inp: Inputs, current: Manifest, live: map<Key, Fields>, k: Key)
    requires inp.target.Keys <= live.Keys && !Compare(w, inp, current, live).changed
    requires k in current && k !in inp.target && k in w.live
    ensures Keep in w.live[k]
  {
    assert k !in Orphans(w.live, current, inp.target);
  }

  lemma SameAsItself(a: map<Key, Fields>, blind: set<Key>)
    ensures SameContent(a, a, blind)
  {
  }

  /** What a run with nothing to do returns: the error of a call that fails, or no change; it never gets to upgrade. */
  function Nothing(inp: Inputs): Outcome {
    if inp.fails == Some(Loading) || inp.fails == Some(Rendering) then Failed(inp.fails.value)
    else Done(Result(false, 0, 0, 0))
  }

  lemma NothingReported(w: World, inp: Inputs, current: Manifest, live: map<Key, Fields>)
    requires inp.target.Keys <= live.Keys && !Compare(w, inp, current, live).changed
    ensures Compare(w, inp, current, live) == Result(false, 0, 0, 0)
  {
  }

  /** The same content, resource by resource, the traceparents of some aside. */
  ghost predicate SameContent(a: map<Key, Fields>, b: map<Key, Fields>, blind: set<Key>) {
    && a.Keys == b.Keys
    && forall k, p: Path :: k in a && !p.Ignored? && (p == Traceparent ==> k !in blind) ==> Get(a[k], p) == Get(b[k], p)
  }

  lemma SameTrace(a: map<Key, Fields>, b: map<Key, Fields>, blind: set<Key>, k: Key)
    requires SameContent(a, b, blind) && k in a && k !in blind
    ensures LiveTrace(a[k]) <==> LiveTrace(b[k])
  {
    var trace := Traceparent;
    assert !trace.Ignored? && Get(a[k], trace) == Get(b[k], trace);
  }

  /** The same documents over the same cluster: settled on one is settled on the other. */
  lemma SettledOnSimilar(api: Api, w: World, t: Manifest, t': Manifest)
    requires Settled(api, w, t) && Similar(api, w, t, t')
    ensures Settled(api, w, t')
  {
    hide AllWellStored, Folded;
    forall k | k in t' ensures SettledAt(api, w.live, w.stored.value, t', k) {
      assert SettledAt(api, w.live, w.stored.value, t, k);
    }
  }

  /** Forgetting some of what was applied leaves a calm cluster calm, as long as what cannot be read is recorded. */
  lemma CalmOnPart(api: Api, live: map<Key, Fields>, stored: Manifest, current: Manifest, t: Manifest,
                   unreadable: set<Key>)
    requires Calm(api, live, stored, t, {}) && PartOf(current, stored)
    requires forall k :: k in t && k in unreadable ==> k in current
    ensures Calm(api, live, current, t, unreadable)
  {
    hide Holds, NoLeftover;
    forall k | k in t ensures SettledAt(api, live, current, t, k) {
      assert SettledAt(api, live, stored, t, k);
    }
  }

  /** The stamps of two documents: there or not there in both, and never empty. */
  predicate Restamped(a: Fields, b: Fields) {
    (Traceparent in a <==> Traceparent in b) && (Traceparent in b ==> LiveTrace(b))
  }

  /** Over a calm cluster the merge moves no content, but for the traceparents of what cannot be read. */
  lemma CalmMerge(api: Api, w: World, inp: Inputs, current: Manifest)
    requires WellBehaved(api) && Settled(api, w.(stored := Some(current)), inp.target)
    requires !MergeFails(api, w, inp, current) && Orphans(w.live, current, inp.target) == {}
    ensures SameContent(w.live, MergedLive(api, w, inp, current), inp.unreadable)
  {
    var live := MergedLive(api, w, inp, current);
    hide WellBehaved, AllWellStored, Merged, SettledAt, Orphans, MergedLive;
    forall k, p: Path | k in w.live && !p.Ignored? && (p == Traceparent ==> k !in inp.unreadable)
      ensures Get(w.live[k], p) == Get(live[k], p)
    {
      if k in inp.target {
        assert !Refused(api, w, inp, current, k);
        assert SettledAt(api, w.live, current, inp.target, k);
        SettledStays(api, w, inp, current, k, p);
      }
    }
    assert forall k :: k in inp.target ==> k in w.live by {
      forall k | k in inp.target ensures k in w.live { assert SettledAt(api, w.live, current, inp.target, k); }
    }
  }

  /**
   * Over a settled world, a run on a similar render reports no change and writes no revision, a target it cannot read
   * being recorded. No content moves but the traceparents of such targets; given those, the world stays settled.
   */
  lemma QuietRun(api: Api, w: World, t: Manifest, inp: Inputs)
    requires WellBehaved(api) && Settled(api, w, t) && Similar(api, w, t, inp.target)
    requires forall k :: k in t && k in inp.unreadable ==> k in Current(w.stored.value, inp.served)
    ensures var (w', outcome) := Run(api, w, inp);
            && outcome == Nothing(inp) && w'.revision == w.revision
            && w'.stored.Some? && PartOf(w'.stored.value, w.stored.value)
            && PartOf(Current(w.stored.value, inp.served), w'.stored.value)
            && SameContent(w.live, w'.live, inp.unreadable)
    ensures (forall k :: k in t && k in inp.unreadable ==> Restamped(t[k].fields, inp.target[k].fields)) ==>
              Settled(api, Run(api, w, inp).0, t)
  {
    var current := Current(w.stored.value, inp.served);
    QuietMerge(api, w, t, inp, current);
    var live := MergedLive(api, w, inp, current);
    hide WellBehaved, Settled, MergedLive, MergeFails, Compare, Run, SameContent, Similar;
    QuietSteps(api, w, inp, current, live);
    SameAsItself(w.live, inp.unreadable);
    if forall k :: k in t && k in inp.unreadable ==> Restamped(t[k].fields, inp.target[k].fields) {
      MergedSettled(api, w, t, inp, current);
    }
  }

  /** Over a settled world the merge is not refused, reports no change, and leaves the content. */
  lemma QuietMerge(api: Api, w: World, t: Manifest, inp: Inputs, current: Manifest)
    requires WellBehaved(api) && Settled(api, w, t) && Similar(api, w, t, inp.target) && PartOf(current, w.stored.value)
    requires forall k :: k in t && k in inp.unreadable ==> k in current
    ensures !MergeFails(api, w, inp, current)
    ensures var live := MergedLive(api, w, inp, current);
            Compare(w, inp, current, live) == Result(false, 0, 0, 0) && SameContent(w.live, live, inp.unreadable)
    ensures Settled(api, w.(stored := Some(current)), t)
  {
    hide WellBehaved, AllWellStored, Calm, MergedLive, MergeFails, Compare, SameContent, Orphans, Similar;
    RepairedSettled(api, w, t, inp, current);
    CalmIsQuiet(api, w, inp, current);
    CalmMerge(api, w, inp, current);
  }

  /** The render of a run stands for the one the world was settled on, and the repaired release for the stored one. */
  lemma RepairedSettled(api: Api, w: World, t: Manifest, inp: Inputs, current: Manifest)
    requires Settled(api, w, t) && Similar(api, w, t, inp.target) && PartOf(current, w.stored.value)
    requires forall k :: k in t && k in inp.unreadable ==> k in current
    ensures Settled(api, w.(stored := Some(current)), inp.target) && Settled(api, w.(stored := Some(current)), t)
    ensures Calm(api, w.live, current, inp.target, inp.unreadable)
  {
    hide AllWellStored, SettledAt, SameDoc;
    SettledOnSimilar(api, w, t, inp.target);
    CalmOnPart(api, w.live, w.stored.value, current, inp.target, inp.unreadable);
    CalmOnPart(api, w.live, w.stored.value, current, inp.target, {});
    CalmOnPart(api, w.live, w.stored.value, current, t, {});
  }

  /** The merge leaves the world settled on the render it was settled on. */
  lemma MergedSettled(api: Api, w: World, t: Manifest, inp: Inputs, current: Manifest)
    requires WellBehaved(api) && Settled(api, w.(stored := Some(current)), t) && Similar(api, w, t, inp.target)
    requires !MergeFails(api, w, inp, current)
    requires SameContent(w.live, MergedLive(api, w, inp, current), inp.unreadable)
    requires forall k :: k in t && k in inp.unreadable ==> Restamped(t[k].fields, inp.target[k].fields)
    ensures Settled(api, World(MergedLive(api, w, inp, current), Some(current), w.revision), t)
  {
    var w' := World(MergedLive(api, w, inp, current), Some(current), w.revision);
    hide WellBehaved, AllWellStored, SettledAt, SameDoc, MergedLive, MergeFails, Traced, LiveTrace;
    assert Traced(w, inp) by { SimilarIsTraced(api, w, t, inp, current); }
    MergeSettles(api, w, inp, current);
    forall k | k in t && Traceparent in t[k].fields ensures LiveTrace(w'.live[k]) {
      TraceStays(api, w, t, inp, current, w'.live, k);
    }
    SimilarBack(api, w', inp.target, t);
    SettledOnSimilar(api, w', inp.target, t);
  }

  lemma SimilarIsTraced(api: Api, w: World, t: Manifest, inp: Inputs, current: Manifest)
    requires Calm(api, w.live, current, t, {}) && Similar(api, w, t, inp.target)
    requires forall k :: k in t && k in inp.unreadable ==> Restamped(t[k].fields, inp.target[k].fields)
    ensures Traced(w, inp)
  {
    hide SettledAt, SameDoc;
  }

  lemma TraceStays(api: Api, w: World, t: Manifest, inp: Inputs, current: Manifest, live: map<Key, Fields>, k: Key)
    requires Calm(api, w.live, current, t, {}) && t.Keys == inp.target.Keys && k in t && Traceparent in t[k].fields
    requires Calm(api, live, current, inp.target, {}) && SameContent(w.live, live, inp.unreadable)
    requires k in inp.unreadable ==> Restamped(t[k].fields, inp.target[k].fields)
    ensures LiveTrace(live[k])
  {
    hide Holds, NoLeftover;
    assert SettledAt(api, w.live, current, t, k) && SettledAt(api, live, current, inp.target, k);
    if k !in inp.unreadable { SameTrace(w.live, live, inp.unreadable, k); }
  }

  lemma SimilarBack(api: Api, w: World, t': Manifest, t: Manifest)
    requires t'.Keys == t.Keys && forall k :: k in t && k in w.live ==> SameDoc(api, k, t[k].fields, t'[k].fields)
    requires forall k :: k in t && Traceparent in t[k].fields ==> k in w.live && LiveTrace(w.live[k])
    ensures Similar(api, w, t', t)
  {
  }

  /** Where a run stops when there is nothing to report. */
  lemma QuietSteps(api: Api, w: World, inp: Inputs, current: Manifest, live: map<Key, Fields>)
    requires w.stored.Some? && current == Current(w.stored.value, inp.served) && !MergeFails(api, w, inp, current)
    requires live == MergedLive(api, w, inp, current) && Compare(w, inp, current, live) == Result(false, 0, 0, 0)
    ensures Run(api, w, inp).1 == Nothing(inp)
    ensures var w' := Run(api, w, inp).0;
            w' == w || w' == w.(stored := Some(current)) || w' == World(live, Some(current), w.revision)
  {
    hide MergedLive, MergeFails, Compare, Upgrade;
  }

  function RunAll(api: Api, w: World, runs: seq<Inputs>): (World, seq<Outcome>)
    decreases |runs|
  {
    if runs == [] then (w, [])
    else
      var (w1, o) := Run(api, w, runs[0]);
      var (w2, os) := RunAll(api, w1, runs[1..]);
      (w2, [o] + os)
  }

  /** The version a document was applied in is served. */
  predicate Serves(inp: Inputs, k: Key, d: Doc) {
    (k.group, d.version, k.kind) in inp.served
  }

  /** What a run cannot read is recorded, and stays so until that run. */
  ghost predicate Recorded(stored: Manifest, t: Manifest, runs: seq<Inputs>) {
    forall i, k :: 0 <= i < |runs| && k in t && k in runs[i].unreadable ==>
      k in stored && forall j :: 0 <= j <= i ==> Serves(runs[j], k, stored[k])
  }

  /** What some run cannot read is stamped alike in every run. */
  ghost predicate AllRestamped(t: Manifest, runs: seq<Inputs>) {
    forall i, j, k :: 0 <= i < |runs| && 0 <= j < |runs| && k in t && k in runs[j].unreadable && k in runs[i].target ==>
      Restamped(t[k].fields, runs[i].target[k].fields)
  }

  ghost function Blind(runs: seq<Inputs>): set<Key> {
    set i, k | 0 <= i < |runs| && k in runs[i].unreadable :: k
  }

  /** A render that was similar before such a run is similar after it. */
  lemma SimilarStill(api: Api, w: World, t: Manifest, w': World, t': Manifest, blind: set<Key>)
    requires Settled(api, w, t) && Settled(api, w', t) && SameContent(w.live, w'.live, blind) && Similar(api, w, t, t')
    requires forall k :: k in t && k in blind ==> Restamped(t[k].fields, t'[k].fields)
    ensures Similar(api, w', t, t')
  {
    hide AllWellStored, Holds, NoLeftover, SameDoc;
    forall k | k in t && Traceparent in t'[k].fields ensures LiveTrace(w'.live[k]) {
      assert SettledAt(api, w'.live, w'.stored.value, t, k);
      if k !in blind { SameTrace(w.live, w'.live, blind, k); }
    }
  }

  lemma RecordedStill(stored: Manifest, stored': Manifest, t: Manifest, runs: seq<Inputs>)
    requires runs != [] && Recorded(stored, t, runs)
    requires PartOf(stored', stored) && PartOf(Current(stored, runs[0].served), stored')
    ensures Recorded(stored', t, runs[1..])
  {
    forall i, k | 0 <= i < |runs[1..]| && k in t && k in runs[1..][i].unreadable
      ensures k in stored' && forall j :: 0 <= j <= i ==> Serves(runs[1..][j], k, stored'[k])
    {
      assert k in runs[i + 1].unreadable && Serves(runs[0], k, stored[k]);
      assert k in Current(stored, runs[0].served);
      forall j | 0 <= j <= i ensures Serves(runs[1..][j], k, stored'[k]) { assert Serves(runs[j + 1], k, stored[k]); }
    }
  }

  lemma SameThrough(a: map<Key, Fields>, b: map<Key, Fields>, c: map<Key, Fields>, runs: seq<Inputs>)
    requires runs != [] && SameContent(a, b, runs[0].unreadable) && SameContent(b, c, Blind(runs[1..]))
    ensures SameContent(a, c, Blind(runs))
  {
    forall k, p: Path | k in a && !p.Ignored? && (p == Traceparent ==> k !in Blind(runs))
      ensures Get(a[k], p) == Get(c[k], p)
    {
      assert k in runs[0].unreadable ==> k in Blind(runs);
      assert k in Blind(runs[1..]) ==> k in Blind(runs) by {
        if i :| 0 <= i < |runs[1..]| && k in runs[1..][i].unreadable { assert k in runs[i + 1].unreadable; }
      }
      assert Get(a[k], p) == Get(b[k], p) && Get(b[k], p) == Get(c[k], p);
    }
  }

  /**
   * Any number of such runs: every one reports no change, no revision is written, and no content moves but the
   * traceparents of what some run could not read.
   */
  lemma {:induction false} QuietForever(api: Api, w: World, t: Manifest, runs: seq<Inputs>)
    requires WellBehaved(api) && Settled(api, w, t) && Recorded(w.stored.value, t, runs) && AllRestamped(t, runs)
    requires forall i :: 0 <= i < |runs| ==> Similar(api, w, t, runs[i].target)
    ensures var (w', outcomes) := RunAll(api, w, runs);
            && w'.revision == w.revision && SameContent(w.live, w'.live, Blind(runs)) && Settled(api, w', t)
            && |outcomes| == |runs|
            && forall i :: 0 <= i < |outcomes| ==> outcomes[i] == Nothing(runs[i])
    decreases |runs|
  {
    if runs == [] {
      SameAsItself(w.live, {});
    } else {
      hide WellBehaved, Settled, Similar, Run, SameContent, Recorded, AllRestamped, Blind;
      QuietHead(api, w, t, runs);
      var w1 := Run(api, w, runs[0]).0;
      QuietForever(api, w1, t, runs[1..]);
      SameThrough(w.live, w1.live, RunAll(api, w1, runs[1..]).0.live, runs);
    }
  }

  /** After the first of such runs, the rest are such runs. */
  lemma QuietHead(api: Api, w: World, t: Manifest, runs: seq<Inputs>)
    requires WellBehaved(api) && Settled(api, w, t) && Recorded(w.stored.value, t, runs) && AllRestamped(t, runs)
    requires runs != [] && forall i :: 0 <= i < |runs| ==> Similar(api, w, t, runs[i].target)
    ensures var (w1, outcome) := Run(api, w, runs[0]);
            && outcome == Nothing(runs[0]) && w1.revision == w.revision
            && SameContent(w.live, w1.live, runs[0].unreadable)
            && Settled(api, w1, t) && Recorded(w1.stored.value, t, runs[1..]) && AllRestamped(t, runs[1..])
            && forall i :: 0 <= i < |runs[1..]| ==> Similar(api, w1, t, runs[1..][i].target)
  {
    hide WellBehaved, AllWellStored, Calm, Run, SameContent, SameDoc, Restamped;
    assert forall k :: k in t && k in runs[0].unreadable ==> Serves(runs[0], k, w.stored.value[k]);
    assert forall k, i :: 0 <= i < |runs| && k in t && k in runs[0].unreadable ==>
        Restamped(t[k].fields, runs[i].target[k].fields);
    QuietRun(api, w, t, runs[0]);
    var w1 := Run(api, w, runs[0]).0;
    forall i | 0 <= i < |runs[1..]| ensures Similar(api, w1, t, runs[1..][i].target) {
      SimilarStill(api, w, t, w1, runs[i + 1].target, runs[0].unreadable);
    }
    RecordedStill(w.stored.value, w1.stored.value, t, runs);
  }

  // ---- convergence -------------------------------------------------------------------------------

  /** The two renders of one chart: the same documents, stamped with traceparents of their own. */
  ghost predicate SameChart(api: Api, a: Manifest, b: Manifest) {
    && a.Keys == b.Keys
    && forall k :: k in a ==>
         && SameDoc(api, k, a[k].fields, b[k].fields)
         && (Traceparent in a[k].fields <==> Traceparent in b[k].fields)
         && (Traceparent in a[k].fields ==> LiveTrace(a[k].fields) && LiveTrace(b[k].fields))
  }

  lemma ChartIsTraced(api: Api, w: World, inp: Inputs)
    requires SameChart(api, inp.target, inp.upgrade)
    ensures Traced(w, inp)
  {
    hide SameDoc;
  }

  /** What a patch leaves live. */
  lemma PatchMeans(api: Api, k: Key, original: Fields, target: Fields, live: Fields)
    requires WellBehaved(api) && WellStored(api, k, live)
    ensures forall p :: Real(api, k, p) ==>
              Get(Patch(api, k, original, target, live), p) ==
              (if Folded(api, IsSecret(k), target, p).Some? then Folded(api, IsSecret(k), target, p)
               else if p in original then api.defaults(k, p) else Get(live, p))
  {
    var m := Merge3(original, target, live);
    forall p | Real(api, k, p)
      ensures Get(Patch(api, k, original, target, live), p) ==
              (if Folded(api, IsSecret(k), target, p).Some? then Folded(api, IsSecret(k), target, p)
               else if p in original then api.defaults(k, p) else Get(live, p))
    {
      if IsSecret(k) && p.Data? { assert Get(m, StringData(p.key)) == Get(target, StringData(p.key)); }
      if IsSecret(k) && p.StringData? { assert p !in live; }
    }
  }

  /** A prepared target is already folded. */
  lemma PreparedIsFolded(api: Api, w: World, inp: Inputs, k: Key, p: Path)
    requires k in inp.target
    ensures Get(Prepared(api, w, inp, k), p) == Folded(api, IsSecret(k), Prepared(api, w, inp, k), p)
  {
    PreparedGet(api, w, inp, k, p);
    if p.Data? { PreparedGet(api, w, inp, k, StringData(p.key)); }
  }

  lemma PreparedMeans(api: Api, w: World, inp: Inputs, k: Key)
    requires k in inp.target
    ensures var t, target := inp.target[k].fields, Prepared(api, w, inp, k);
            && (forall p :: p != Traceparent ==> Folded(api, IsSecret(k), target, p) == Folded(api, IsSecret(k), t, p))
            && Folded(api, IsSecret(k), target, Traceparent) ==
               (if Seen(w, inp, k) && LiveTrace(w.live[k]) then Get(w.live[k], Traceparent) else Get(t, Traceparent))
  {
    hide Prepared, Folded;
    var t, target := inp.target[k].fields, Prepared(api, w, inp, k);
    forall p
      ensures Folded(api, IsSecret(k), target, p) == Get(target, p)
      ensures p != Traceparent ==> Get(target, p) == Folded(api, IsSecret(k), t, p)
    {
      PreparedIsFolded(api, w, inp, k, p);
      PreparedGet(api, w, inp, k, p);
    }
    PreparedGet(api, w, inp, k, Traceparent);
  }

  /** A live object written from a declared document: each real path is declared, dropped, or as before. */
  ghost predicate WrittenFrom(api: Api, k: Key, applied: Option<Fields>, target: Fields, before: Option<Fields>,
                              after: Fields) {
    forall p :: Real(api, k, p) ==>
      Get(after, p) ==
      (if Folded(api, IsSecret(k), target, p).Some? then Folded(api, IsSecret(k), target, p)
       else if before.None? || (applied.Some? && p in applied.value) then api.defaults(k, p) else Get(before.value, p))
  }

  lemma MergedMeans(api: Api, w: World, inp: Inputs, current: Manifest, k: Key)
    requires WellBehaved(api) && AllWellStored(api, w.live) && k in inp.target && !Refused(api, w, inp, current, k)
    ensures WrittenFrom(api, k, Original(api, w, inp, current, k), Prepared(api, w, inp, k),
                        if k in w.live then Some(w.live[k]) else None, Merged(api, w, inp, current, k))
  {
    hide Prepared;
    var original, target := Original(api, w, inp, current, k), Prepared(api, w, inp, k);
    if k in w.live {
      assert original.Some?;
      PatchMeans(api, k, original.value, target, w.live[k]);
    } else {
      forall p | Real(api, k, p)
        ensures Get(Merged(api, w, inp, current, k), p) == Stored(api, k, target, p)
      {
      }
    }
  }

  /** A live object adopted because the release lost it: what the render does not declare is preserved. */
  lemma AdoptionDeletesNothing(api: Api, w: World, inp: Inputs, current: Manifest, k: Key, p: Path)
    requires WellBehaved(api) && AllWellStored(api, w.live) && k in inp.target && !MergeFails(api, w, inp, current)
    requires k in w.live && k !in current && Real(api, k, p) && p in w.live[k]
    requires Folded(api, IsSecret(k), inp.target[k].fields, p).None? || p == Traceparent
    ensures p in Merged(api, w, inp, current, k)
    ensures p != Traceparent ==> Merged(api, w, inp, current, k)[p] == w.live[k][p]
  {
    MergedMeans(api, w, inp, current, k);
    PreparedMeans(api, w, inp, k);
    var after, target := Merged(api, w, inp, current, k), Prepared(api, w, inp, k);
    assert Original(api, w, inp, current, k) == Some(target);
    assert Get(target, p).Some? ==>
           Folded(api, IsSecret(k), target, p).Some? by { PreparedIsFolded(api, w, inp, k, p); }
    assert Get(after, p).Some?;
  }

  /** From what was written follows that the resource is settled. */
  lemma WrittenIsSettled(api: Api, k: Key, t: Fields, applied: Option<Fields>, target: Fields,
                         before: Option<Fields>, after: Fields)
    requires WrittenFrom(api, k, applied, target, before, after)
    requires Real(api, k, Traceparent) && api.defaults(k, Traceparent).None?
    requires forall p :: p != Traceparent ==> Folded(api, IsSecret(k), target, p) == Folded(api, IsSecret(k), t, p)
    requires (Traceparent in t ==> Traceparent in target) && (Traceparent in target ==> LiveTrace(target))
    ensures Holds(api, k, t, after)
    ensures Traceparent in t ==> LiveTrace(after)
    ensures applied.Some? ==> NoLeftover(api, k, applied.value, t, after)
  {
    assert Get(after, Traceparent) ==
           if Traceparent in target then Get(target, Traceparent)
           else if before.None? || (applied.Some? && Traceparent in applied.value) then None
           else Get(before.value, Traceparent);
  }

  /** Whatever is written is stored as the server keeps things. */
  lemma WrittenIsWell(api: Api, k: Key, applied: Option<Fields>, target: Fields, before: Option<Fields>, after: Fields)
    requires WellBehaved(api) && WrittenFrom(api, k, applied, target, before, after)
    requires before.Some? ==> WellStored(api, k, before.value)
    ensures WellStored(api, k, after)
  {
    forall p | IsSecret(k) && p in after ensures !p.StringData? { assert Get(after, p).Some?; }
    forall p | Real(api, k, p) && api.defaults(k, p).Some? ensures p in after { assert Get(after, p).Some?; }
  }

  lemma MergedIsWell(api: Api, w: World, inp: Inputs, current: Manifest, k: Key)
    requires WellBehaved(api) && AllWellStored(api, w.live) && k in inp.target && !Refused(api, w, inp, current, k)
    ensures WellStored(api, k, Merged(api, w, inp, current, k))
  {
    hide WellBehaved, WellStored, Merged, Prepared, Original;
    MergedMeans(api, w, inp, current, k);
    WrittenIsWell(api, k, Original(api, w, inp, current, k), Prepared(api, w, inp, k),
                  if k in w.live then Some(w.live[k]) else None, Merged(api, w, inp, current, k));
  }

  lemma MergeStaysWell(api: Api, w: World, inp: Inputs, current: Manifest)
    requires WellBehaved(api) && AllWellStored(api, w.live)
    ensures !MergeFails(api, w, inp, current) ==> AllWellStored(api, MergedLive(api, w, inp, current))
    ensures AllWellStored(api, PartLive(api, w, inp, current))
  {
    hide WellBehaved, WellStored, Merged, Refused, Orphans;
    forall k | k in inp.target && !Refused(api, w, inp, current, k)
      ensures WellStored(api, k, Merged(api, w, inp, current, k))
    {
      MergedIsWell(api, w, inp, current, k);
    }
  }

  /** After the merge, and with no need of an upgrade, the world is settled. */
  lemma MergeSettles(api: Api, w: World, inp: Inputs, current: Manifest)
    requires WellBehaved(api) && AllWellStored(api, w.live) && !MergeFails(api, w, inp, current)
    requires Traced(w, inp)
    ensures Settled(api, World(MergedLive(api, w, inp, current), Some(current), w.revision), inp.target)
  {
    MergeStaysWell(api, w, inp, current);
    forall k | k in inp.target
      ensures SettledAt(api, MergedLive(api, w, inp, current), current, inp.target, k)
    {
      MergedSettledAt(api, w, inp, current, k);
    }
  }

  lemma MergedSettledAt(api: Api, w: World, inp: Inputs, current: Manifest, k: Key)
    requires WellBehaved(api) && AllWellStored(api, w.live) && !MergeFails(api, w, inp, current)
    requires Traced(w, inp) && k in inp.target
    ensures SettledAt(api, MergedLive(api, w, inp, current), current, inp.target, k)
  {
    MergedMeans(api, w, inp, current, k);
    PreparedMeans(api, w, inp, k);
    var t, target := inp.target[k].fields, Prepared(api, w, inp, k);
    PreparedIsFolded(api, w, inp, k, Traceparent);
    assert Get(target, Traceparent) ==
           if Seen(w, inp, k) && LiveTrace(w.live[k]) then Get(w.live[k], Traceparent) else Get(t, Traceparent);
    hide WellBehaved, Prepared, Merged, MergeFails, Holds, NoLeftover, WrittenFrom, SameDoc;
    WrittenIsSettled(api, k, t, Original(api, w, inp, current, k), target,
                     if k in w.live then Some(w.live[k]) else None, Merged(api, w, inp, current, k));
  }

  /** A real upgrade settles the world on the render it applied, and on any other render of the chart. */
  lemma UpgradeSettles(api: Api, w: World, t: Manifest, rendered: Manifest)
    requires WellBehaved(api) && AllWellStored(api, w.live) && SameChart(api, t, rendered)
    ensures Settled(api, Upgrade(api, w, rendered), t)
  {
    hide WellBehaved, WellStored, Holds, NoLeftover, SameDoc, Upgraded;
    var after := Upgrade(api, w, rendered);
    var stored := if w.stored.Some? then w.stored.value else map[];
    forall k | k in t
      ensures SettledAt(api, after.live, rendered, t, k) && WellStored(api, k, after.live[k])
    {
      UpgradedSettledAt(api, w, t, stored, rendered, k);
    }
  }

  /** An upgraded object is written from its render. */
  lemma UpgradedMeans(api: Api, w: World, stored: Manifest, rendered: Manifest, k: Key)
    requires WellBehaved(api) && AllWellStored(api, w.live) && k in rendered
    ensures var r, d := rendered[k].fields, Upgraded(api, w, stored, rendered, k);
            && WrittenFrom(api, k, Some(if k in stored then stored[k].fields else r), r,
                           if k in w.live then Some(w.live[k]) else None, d)
            && WellStored(api, k, d)
  {
    var r, d := rendered[k].fields, Upgraded(api, w, stored, rendered, k);
    var applied := if k in stored then stored[k].fields else r;
    var before := if k in w.live then Some(w.live[k]) else None;
    hide WellStored, Patch, Folded;
    if k in w.live { PatchMeans(api, k, applied, r, w.live[k]); }
    assert WrittenFrom(api, k, Some(applied), r, before, d);
    WrittenIsWell(api, k, Some(applied), r, before, d);
  }

  lemma UpgradedSettledAt(api: Api, w: World, t: Manifest, stored: Manifest, rendered: Manifest, k: Key)
    requires WellBehaved(api) && AllWellStored(api, w.live) && SameChart(api, t, rendered) && k in t
    ensures var d := Upgraded(api, w, stored, rendered, k);
            && Holds(api, k, t[k].fields, d)
            && (Traceparent in t[k].fields ==> LiveTrace(d))
            && NoLeftover(api, k, rendered[k].fields, t[k].fields, d)
            && WellStored(api, k, d)
  {
    var r, d := rendered[k].fields, Upgraded(api, w, stored, rendered, k);
    var applied := if k in stored then stored[k].fields else r;
    var before := if k in w.live then Some(w.live[k]) else None;
    UpgradedMeans(api, w, stored, rendered, k);
    hide WellStored, Upgraded;
    WrittenIsSettled(api, k, t[k].fields, Some(applied), r, before, d);
    LeftoverIsFolded(api, k, r, t[k].fields, applied, before, d);
  }

  /** What a render declares and its fold does not is stringData, which is never stored. */
  lemma LeftoverIsFolded(api: Api, k: Key, r: Fields, t: Fields, applied: Fields, before: Option<Fields>, d: Fields)
    requires WellBehaved(api) && SameDoc(api, k, t, r) && WellStored(api, k, d)
    requires WrittenFrom(api, k, Some(applied), r, before, d) && (Traceparent in t <==> Traceparent in r)
    ensures NoLeftover(api, k, r, t, d)
  {
    forall p | Real(api, k, p) && p != Traceparent && p in r && Folded(api, IsSecret(k), t, p).None?
      ensures Get(d, p) == api.defaults(k, p)
    {
      assert IsSecret(k) && p.StringData?;
      assert Authored(p);
    }
  }

  /**
   * Every successful run leaves a settled world: all that is rendered holds live, and later runs have nothing to do.
   */
  lemma Converges(api: Api, w: World, inp: Inputs)
    requires WellBehaved(api) && AllWellStored(api, w.live) && SameChart(api, inp.target, inp.upgrade)
    requires Run(api, w, inp).1.Done?
    ensures Settled(api, Run(api, w, inp).0, inp.target)
  {
    hide WellBehaved, AllWellStored, SameChart, Settled, MergedLive, MergeFails, Compare, Upgrade;
    if w.stored.None? {
      UpgradeSettles(api, w, inp.target, inp.upgrade);
    } else {
      var current := Current(w.stored.value, inp.served);
      assert Traced(w, inp) by { ChartIsTraced(api, w, inp); }
      MergeSettles(api, w, inp, current);
      MergeStaysWell(api, w, inp, current);
      var after := World(MergedLive(api, w, inp, current), Some(current), w.revision);
      UpgradeSettles(api, after, inp.target, inp.upgrade);
    }
  }

  // ---- the report --------------------------------------------------------------------------------

  /** The merge is refused exactly for a live resource that the release lost and that could not be read. */
  lemma MergeFailsIff(api: Api, w: World, inp: Inputs, current: Manifest)
    ensures MergeFails(api, w, inp, current) <==>
            exists k :: k in inp.target && k in w.live && k in inp.unreadable && k !in current
  {
    hide Prepared;
    if k :| k in inp.target && k in w.live && k in inp.unreadable && k !in current {
      assert Refused(api, w, inp, current, k);
    }
  }

  /** The content under one key is not what it was. */
  ghost predicate Changed(a: map<Key, Fields>, b: map<Key, Fields>, k: Key) {
    (k in a) != (k in b) || (k in a && !Agree(a[k], b[k]))
  }

  /** A live target that could not be read before the merge. */
  predicate Unread(w: World, inp: Inputs, k: Key) {
    k in inp.target && k in w.live && k in inp.unreadable
  }

  lemma SameContentIff(a: map<Key, Fields>, b: map<Key, Fields>)
    ensures SameContent(a, b, {}) <==> forall k :: !Changed(a, b, k)
  {
    if forall k :: !Changed(a, b, k) {
      forall k ensures k in a <==> k in b { assert !Changed(a, b, k); }
      forall k | k in a ensures Agree(a[k], b[k]) { assert !Changed(a, b, k); }
    }
  }

  /** A change is reported exactly when something changed that was created, deleted, or read before the merge. */
  lemma CompareIsExact(w: World, inp: Inputs, current: Manifest, live: map<Key, Fields>)
    requires live.Keys == (w.live.Keys - Orphans(w.live, current, inp.target)) + inp.target.Keys
    requires forall k :: k in live && k !in inp.target ==> k in w.live && live[k] == w.live[k]
    ensures Compare(w, inp, current, live).changed <==> exists k :: Changed(w.live, live, k) && !Unread(w, inp, k)
  {
    hide Created, Orphans, Patched, Changed, Unread;
    var created, deleted, patched := Created(w, inp), Orphans(w.live, current, inp.target), Patched(w, inp, live);
    forall k ensures Changed(w.live, live, k) && !Unread(w, inp, k) <==> k in created || k in deleted || k in patched {
      ChangedWhere(w, inp, current, live, k);
    }
    assert created != {} <==> exists k :: k in created;
    assert deleted != {} <==> exists k :: k in deleted;
    assert patched != {} <==> exists k :: k in patched;
  }

  lemma ChangedWhere(w: World, inp: Inputs, current: Manifest, live: map<Key, Fields>, k: Key)
    requires live.Keys == (w.live.Keys - Orphans(w.live, current, inp.target)) + inp.target.Keys
    requires forall x :: x in live && x !in inp.target ==> x in w.live && live[x] == w.live[x]
    ensures Changed(w.live, live, k) && !Unread(w, inp, k) <==>
            k in Created(w, inp) || k in Orphans(w.live, current, inp.target) || k in Patched(w, inp, live)
  {
    if k in w.live && k in live { AgreeMeans(w.live[k], live[k]); }
    hide Stripped, Agree;
  }

  /**
   * What a merge reports: a change, exactly when something changed that was not an unread target. So a change is missed
   * exactly when every changed object is a recorded target whose read failed, and never when every read succeeds.
   */
  lemma ReportIsExact(api: Api, w: World, inp: Inputs, current: Manifest)
    requires !MergeFails(api, w, inp, current)
    ensures var live := MergedLive(api, w, inp, current);
            var reported, changed := Compare(w, inp, current, live).changed, !SameContent(w.live, live, {});
            && (reported <==> exists k :: Changed(w.live, live, k) && !Unread(w, inp, k))
            && (changed && !reported <==>
                changed && forall k :: Changed(w.live, live, k) ==> Unread(w, inp, k) && k in current)
            && (inp.unreadable !! inp.target.Keys ==> (reported <==> changed))
  {
    var live := MergedLive(api, w, inp, current);
    hide MergedLive, Merged, Compare, SameContent, Orphans, Changed, MergeFails;
    CompareIsExact(w, inp, current, live);
    SameContentIff(w.live, live);
    MergeFailsIff(api, w, inp, current);
  }

}
