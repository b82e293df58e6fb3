/** The self-healing apply-if-changed reconcile of a helm release (helm/v3/reconcile.go). */
module Reconcile {
  import opened Values

  /** A resource, identified without its version, as helm matches stored and rendered entries. */
  datatype Key = Key(group: string, kind: string, namespace: string, name: string)

  /** A leaf of a resource document. */
  datatype Path =
    | Traceparent               // the krateo.io/traceparent annotation
    | Ignored(name: string)     // status, write-volatile metadata, helm's ownership labels and annotations
    | Keep                      // the helm.sh/resource-policy annotation
    | Data(key: string)
    | StringData(key: string)
    | Field(path: string)       // everything else

  type Fields = map<Path, string>

  datatype Doc = Doc(version: string, fields: Fields)

  type Manifest = map<Key, Doc>

  /** The cluster, the stored release and its revision number. */
  datatype World = World(live: map<Key, Fields>, stored: Option<Manifest>, revision: nat)

  /**
   * The API server. `encode` is base64; `owned` are the fields of a resource it restores on every write; `defaults`
   * are the values it fills in for fields not sent; `write` is what it stores when a document is sent for a resource
   * that is live, or absent.
   */
  datatype Api = Api(encode: string -> string, owned: (Key, Path) -> bool, defaults: (Key, Path) -> Option<string>,
                     write: (Key, Option<Fields>, Fields) -> Fields)

  /** A core Secret; the core group serves only version v1. */
  predicate IsSecret(k: Key) {
    k.group == "" && k.kind == "Secret"
  }

  function Get(d: Fields, p: Path): Option<string> {
    if p in d then Some(d[p]) else None
  }

  /** What a document says about one path once a Secret's stringData is folded into data, stringData winning. */
  function Folded(api: Api, secret: bool, d: Fields, p: Path): Option<string> {
    if !secret then Get(d, p)
    else if p.StringData? then None
    else if p.Data? && StringData(p.key) in d then Some(api.encode(d[StringData(p.key)]))
    else Get(d, p)
  }

  /** The folded document. */
  function Fold(api: Api, secret: bool, d: Fields): (r: Fields)
    ensures forall p :: Get(r, p) == Folded(api, secret, d, p)
  {
    if !secret then d
    else
      var keys := set q | q in d && q.StringData? :: Data(q.key);
      (map p | p in d && !p.StringData? :: d[p]) +
      (map p | p in keys :: api.encode(d[StringData(p.key)]))
  }

  /** Content the comparison looks at and the server does not own. */
  predicate Real(api: Api, k: Key, p: Path) {
    !p.Ignored? && !api.owned(k, p)
  }

  /** What becomes of a real field when a document is sent. */
  function Stored(api: Api, k: Key, d: Fields, p: Path): Option<string> {
    if Folded(api, IsSecret(k), d, p).Some? then Folded(api, IsSecret(k), d, p) else api.defaults(k, p)
  }

  /** Fields the server neither owns nor fills in. */
  predicate Authored(p: Path) {
    p.Traceparent? || p.Keep? || p.StringData?
  }

  /**
   * The contract of a write: real fields are stored as sent (with stringData folded) or filled in by a fixed default,
   * owned fields keep their live value, and ignored fields are the server's business.
   */
  ghost predicate WellBehaved(api: Api) {
    && (forall k, p: Path :: Authored(p) ==> Real(api, k, p) && api.defaults(k, p).None?)
    && (forall k, x :: Real(api, k, Data(x)))
    && (forall k, live, d, p :: Real(api, k, p) ==> Get(api.write(k, live, d), p) == Stored(api, k, d, p))
    && (forall k, live: Fields, d, p ::
          api.owned(k, p) && !p.Ignored? ==> Get(api.write(k, Some(live), d), p) == Get(live, p))
  }

  // ---- one run -----------------------------------------------------------------------------------

  /** A call out that returns an error: reading or repairing the release, rendering the chart, upgrading the release. */
  datatype Stage = Loading | Rendering | Upgrading

  /**
   * What a run is given: the dry-run render, the render of a real upgrade, the served versions, the failed reads, the
   * call that fails if one does, the objects helm gets to before it refuses a merge, and the world an upgrade leaves
   * when it fails: as it stood, half applied, or rolled back if it is atomic, with or without a failed revision.
   */
  datatype Inputs = Inputs(target: Manifest, upgrade: Manifest, served: set<(string, string, string)>,
                           unreadable: set<Key>, fails: Option<Stage>, reached: set<Key>, left: World)

  datatype Result = Result(changed: bool, created: nat, deleted: nat, patched: nat)

  datatype Outcome = Done(result: Result) | Failed(stage: Stage) | MergeFailed | UpgradeFailed(result: Result)

  /** Step 1.5: the stored manifest without the documents whose version is no longer served. */
  function Current(stored: Manifest, served: set<(string, string, string)>): Manifest {
    map k | k in stored && (k.group, stored[k].version, k.kind) in served :: stored[k]
  }

  /** Step 4: a target whose live object could be read. */
  predicate Seen(w: World, inp: Inputs, k: Key) {
    k in w.live && k !in inp.unreadable
  }

  /** Step 4.5: the live traceparent, when there is one, replaces the rendered one. */
  function KeepTraceparent(t: Fields, live: Fields): Fields {
    if Traceparent in live && live[Traceparent] != "" then t[Traceparent := live[Traceparent]] else t
  }

  /** Steps 4.5 and 4.6: the target the merge is given. */
  function Prepared(api: Api, w: World, inp: Inputs, k: Key): Fields
    requires k in inp.target
  {
    var t := inp.target[k].fields;
    Fold(api, IsSecret(k), if Seen(w, inp, k) then KeepTraceparent(t, w.live[k]) else t)
  }

  /** Step 4.7: the last-applied document, adopting the target itself for a live resource the release lost. */
  function Original(api: Api, w: World, inp: Inputs, current: Manifest, k: Key): Option<Fields>
    requires k in inp.target
  {
    if k in current then Some(current[k].fields)
    else if Seen(w, inp, k) then Some(Prepared(api, w, inp, k))
    else None
  }

  /** helm's three-way merge: drop what was applied and is no longer declared, then set what is declared. */
  function Merge3(original: Fields, target: Fields, live: Fields): (r: Fields)
    ensures forall p :: Get(r, p) ==
                        if p in target then Some(target[p]) else if p in original then None else Get(live, p)
  {
    (live - (original.Keys - target.Keys)) + target
  }

  /** An empty patch is not sent. */
  function Patch(api: Api, k: Key, original: Fields, target: Fields, live: Fields): Fields {
    var m := Merge3(original, target, live);
    if m == live then live else api.write(k, Some(live), m)
  }

  /** The merge cannot patch a live resource it has no last-applied document for. */
  predicate MergeFails(api: Api, w: World, inp: Inputs, current: Manifest) {
    exists k :: k in inp.target && Refused(api, w, inp, current, k)
  }

  predicate Refused(api: Api, w: World, inp: Inputs, current: Manifest, k: Key)
    requires k in inp.target
  {
    k in w.live && Original(api, w, inp, current, k).None?
  }

  function Merged(api: Api, w: World, inp: Inputs, current: Manifest, k: Key): Fields
    requires k in inp.target && !Refused(api, w, inp, current, k)
  {
    var t := Prepared(api, w, inp, k);
    if k in w.live then Patch(api, k, Original(api, w, inp, current, k).value, t, w.live[k]) else api.write(k, None, t)
  }

  /** Resources applied before and no longer rendered are deleted, unless their policy is to be kept. */
  function Orphans(live: map<Key, Fields>, applied: Manifest, rendered: Manifest): set<Key> {
    set k | k in applied && k !in rendered && k in live && Keep !in live[k]
  }

  function MergedLive(api: Api, w: World, inp: Inputs, current: Manifest): (r: map<Key, Fields>)
    requires !MergeFails(api, w, inp, current)
    ensures r.Keys == (w.live.Keys - Orphans(w.live, current, inp.target)) + inp.target.Keys
    ensures forall k :: k in inp.target ==> r[k] == Merged(api, w, inp, current, k)
    ensures forall k :: k in r && k !in inp.target ==> k in w.live && r[k] == w.live[k]
  {
    (w.live - Orphans(w.live, current, inp.target)) + map k | k in inp.target :: Merged(api, w, inp, current, k)
  }

  /** A refused merge has written the objects it reached and deleted nothing. */
  function PartLive(api: Api, w: World, inp: Inputs, current: Manifest): map<Key, Fields> {
    w.live + map k | k in inp.target && k in inp.reached && !Refused(api, w, inp, current, k) ::
      Merged(api, w, inp, current, k)
  }

  /** strippedJSON: the content that counts as content. */
  function Stripped(d: Fields): Fields {
    map p | p in d && !p.Ignored? :: d[p]
  }

  function Created(w: World, inp: Inputs): set<Key> {
    inp.target.Keys - w.live.Keys
  }

  /** Targets read before the merge whose content is different after it. */
  function Patched(w: World, inp: Inputs, live: map<Key, Fields>): set<Key>
    requires inp.target.Keys <= live.Keys
  {
    set k | k in inp.target && Seen(w, inp, k) && Stripped(w.live[k]) != Stripped(live[k])
  }

  /** Step 6. */
  function Compare(w: World, inp: Inputs, current: Manifest, live: map<Key, Fields>): Result
    requires inp.target.Keys <= live.Keys
  {
    var created, deleted, patched := Created(w, inp), Orphans(w.live, current, inp.target), Patched(w, inp, live);
    Result(created != {} || deleted != {} || patched != {}, |created|, |deleted|, |patched|)
  }

  /** Step 7: a real upgrade applies a fresh render over the cluster and writes a revision. */
  function Upgrade(api: Api, w: World, rendered: Manifest): World {
    var stored := if w.stored.Some? then w.stored.value else map[];
    World((w.live - Orphans(w.live, stored, rendered)) +
          map k | k in rendered :: Upgraded(api, w, stored, rendered, k), Some(rendered), w.revision + 1)
  }

  function Upgraded(api: Api, w: World, stored: Manifest, rendered: Manifest, k: Key): Fields
    requires k in rendered
  {
    var t := rendered[k].fields;
    if k !in w.live then api.write(k, None, t)
    else Patch(api, k, if k in stored then stored[k].fields else t, t, w.live[k])
  }

  /** One run of Reconcile. A failed call ends it where it stands. */
  function Run(api: Api, w: World, inp: Inputs): (World, Outcome) {
    if inp.fails == Some(Loading) then (w, Failed(Loading))
    else if w.stored.None? then
      if inp.fails == Some(Upgrading) then (inp.left, Failed(Upgrading))
      else (Upgrade(api, w, inp.upgrade), Done(Result(true, 0, 0, 0)))
    else
      var current := Current(w.stored.value, inp.served);
      var repaired := w.(stored := Some(current));
      if inp.fails == Some(Rendering) then (repaired, Failed(Rendering))
      else if MergeFails(api, w, inp, current) then (repaired.(live := PartLive(api, w, inp, current)), MergeFailed)
      else
        var live := MergedLive(api, w, inp, current);
        var result := Compare(w, inp, current, live);
        var after := repaired.(live := live);
        if !result.changed then (after, Done(result))
        else if inp.fails == Some(Upgrading) then (inp.left, UpgradeFailed(result))
        else (Upgrade(api, after, inp.upgrade), Done(result))
  }

  /**
   * What folding does to a document: in a core Secret each stringData entry moves to data, encoded, over a data entry
   * of the same name, and everything else stays; in any other resource everything stays.
   */
  lemma FoldMeans(api: Api, k: Key, d: Fields, x: string, p: Path)
    ensures k.group == "" && k.kind == "Secret" ==>
              var r := Fold(api, IsSecret(k), d);
              && StringData(x) !in r
              && (StringData(x) in d ==> Get(r, Data(x)) == Some(api.encode(d[StringData(x)])))
              && (StringData(x) !in d ==> Get(r, Data(x)) == Get(d, Data(x)))
              && (!p.Data? && !p.StringData? ==> Get(r, p) == Get(d, p))
    ensures !(k.group == "" && k.kind == "Secret") ==> Fold(api, IsSecret(k), d) == d
  {
    var r := Fold(api, IsSecret(k), d);
    assert Get(r, StringData(x)) == Folded(api, IsSecret(k), d, StringData(x));
    assert Get(r, Data(x)) == Folded(api, IsSecret(k), d, Data(x));
    assert Get(r, p) == Folded(api, IsSecret(k), d, p);
  }
}
