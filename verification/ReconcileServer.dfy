/** A server that keeps the contract the reconcile theorems rest on, defaults and owned fields included. */
module ReconcileServer {
  import opened Values
  import opened Reconcile

  /** What such a server stores: owned fields as they were, what was sent folded, and its defaults for the rest. */
  function Keep(encode: string -> string, owned: (Key, Path) -> bool, defaults: Key -> Fields,
                k: Key, live: Option<Fields>, d: Fields): Fields
  {
    var sent := Fold(Api(encode, owned, (_, _) => None, (_, _, x) => x), IsSecret(k), d);
    (map p | p in defaults(k) && !owned(k, p) :: defaults(k)[p])
    + (map p | p in sent && !owned(k, p) :: sent[p])
    + (if live.None? then map[] else map p | p in live.value && owned(k, p) :: live.value[p])
  }

  function Server(encode: string -> string, owned: (Key, Path) -> bool, defaults: Key -> Fields): Api {
    Api(encode, owned, (k, p) => Get(defaults(k), p), (k, live, d) => Keep(encode, owned, defaults, k, live, d))
  }

  /** Any encoding, any owned fields and any table of defaults make such a server, the authored fields left alone. */
  lemma ServerIsWellBehaved(encode: string -> string, owned: (Key, Path) -> bool, defaults: Key -> Fields)
    requires forall k, p: Path :: Authored(p) ==> !owned(k, p) && p !in defaults(k)
    requires forall k, x :: !owned(k, Data(x))
    ensures WellBehaved(Server(encode, owned, defaults))
  {
    var api := Server(encode, owned, defaults);
    forall k, live, d, p | Real(api, k, p) ensures Get(api.write(k, live, d), p) == Stored(api, k, d, p) {
      var plain := Api(encode, owned, (_, _) => None, (_, _, x: Fields) => x);
      assert Get(Fold(plain, IsSecret(k), d), p) == Folded(plain, IsSecret(k), d, p) == Folded(api, IsSecret(k), d, p);
    }
  }

  lemma ServerAnswers(encode: string -> string, owned: (Key, Path) -> bool, defaults: Key -> Fields, k: Key, p: Path)
    ensures Server(encode, owned, defaults).defaults(k, p) == Get(defaults(k), p)
    ensures Server(encode, owned, defaults).owned(k, p) == owned(k, p)
  {
  }

  const REPLICAS := Field("spec.replicas")
  const NAME := Field("metadata.labels.name")

  predicate OwnsName(k: Key, p: Path) {
    k.kind == "Deployment" && p == NAME
  }

  function OneReplica(k: Key): Fields {
    if k.kind == "Deployment" then map[REPLICAS := "1"] else map[]
  }

  /** The contract has a model that fills in a default and owns a field, on one kind of resource and not another. */
  lemma ContractHasModel()
    ensures exists api: Api, k, j ::
              && WellBehaved(api)
              && api.defaults(k, REPLICAS).Some? && api.defaults(j, REPLICAS).None?
              && api.owned(k, NAME) && !api.owned(j, NAME)
  {
    var k, j := Key("apps", "Deployment", "", "a"), Key("", "ConfigMap", "", "a");
    var same := (x: string) => x;
    ServerIsWellBehaved(same, OwnsName, OneReplica);
    hide Server, WellBehaved;
    ServerAnswers(same, OwnsName, OneReplica, k, REPLICAS);
    ServerAnswers(same, OwnsName, OneReplica, j, REPLICAS);
    ServerAnswers(same, OwnsName, OneReplica, k, NAME);
    ServerAnswers(same, OwnsName, OneReplica, j, NAME);
  }
}
