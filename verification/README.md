# Plumbing: a verified model

A Dafny model of the hard core of the plumbing library: the JSON Schema to CRD transpiler, the Helm release
reconciler, the short-id generator, the JSON encoder, the dependency graph, the TTL cache, the JWKS key cache, the
event bus, the batch RBAC authorizer and the nested-map helpers. `dafny verify dfyconfig.toml` checks all of it.

Code that mutates state is modelled as classes and loops and proved against specification functions; the theorems are
about those functions. The clock, random bytes, the API server, the writer, the order a Go map is ranged over and
fetched documents are parameters or free choices, so every result holds for all of them.

- `Values`, `Ordering`, `Decimal`: optional values and JSON, byte-wise string order and sorting, decimal numerals.
- `Crd*`: schemas and what they accept (`CrdSchema`), the output and its CEL rules (`CrdOutput`), the translation as a
  function (`CrdTranspile`) and as it runs (`CrdTranspiler`), the table of references (`CrdRefs`, `CrdIndexer`), a
  whole document (`CrdDocument`), and the theorems: what is still accepted (`CrdWidening`, `CrdNodes`, `CrdLimits`,
  `CrdPruning`), what is still refused (`CrdTight`, `CrdLoss`), rules and unions (`CrdCel`, `CrdUnions`) and the form
  of the output (`CrdStructure`).
- `Reconcile*`: one reconcile run as a function of the world, the client that performs it step by step, what follows
  over sequences of runs (`ReconcileTheorems`) and from failures (`ReconcileFailures`), what a run counts and what it
  leaves alone (`ReconcileReport`); `ReconcileServer` shows that the contract asked of the API server can be met.
- `ShortId*`, `Deps*`, `Cache*`, `Jwks*`, `EventBus*`, `Rbac*`: one group a package.
- `Utf8`, `JsonString`, `JsonText`, `JsonRoundTrip`, `JsonLayout`, `JsonEncoder`: the encoder, a parser for RFC 8259,
  the round trip, and what a layout adds.
- `Trees`, `MapPaths`, `MapAccess`, `MapReorder`: nested maps as values, leaf paths, reading and writing, what Reorder
  builds; `MapHeap`, `MapInPlace`, `MapRebuild`: the same maps as containers on the heap, copied afresh, written in
  place and rebuilt.

Where a property the code is meant to have does not hold everywhere, the model keeps the code's behaviour and proves
exactly when the property holds, within the limits that "Left out" gives for the members named:

- A plain node widens exactly when its types, its positions and its keys fit the one type, the one items schema and
  the one value schema its output has (`NodeWidensIff`). So the schema that allows everything, an array without
  `items` and a choice of two types are narrowed (`UntypedNarrows`, `WithoutItemsNarrows`, `OpenSchemasNarrow`), and
  so are `patternProperties` beside a map-value schema and `prefixItems` beside `items` where the two disagree
  (`PatternKeysNarrow`, `TupleNarrows`).
- A reference cut to break a cycle becomes an open, non-null object: it widens exactly when the definition at the end of
  its chain admits objects only (`CutWidensIff`, `CutNullIff`, `NullableCycleNarrows`). What `allOf` becomes admits
  objects only, so null is lost where every part allows it (`AllOfNullIff`, `NullableMembersNarrow`).
- In the other direction, schema and output accept the same values where nothing is narrowed and nothing is lost
  (`TightAccepts`, `ExactIff`), and what the server stores is accepted, closed objects included (`StoredIsAccepted`).
  What is lost: the required names of an object node with neither properties nor a value schema (`RequiredKeptIff`),
  distinctness in unbounded arrays of objects (`UniqueLost`), and what an earlier part of an `allOf` says of a
  property a later part names as well (`LastPartWins`, `SharedPropertyLost`).
- A union is kept exactly when no member has a shape of its own (`KeptIff`), and then means the members' translations
  (`KeptUnionMeans`). A member that only requires names becomes an open object, so a `oneOf` with two of them refuses
  every object (`OneOfRefusesAll`, `EitherRefused`). A negated constant or enumeration is exact (`NotExact`) unless
  another keyword stands beside it, which is forgotten (`NotRuleMeans`, `NotNarrows`).
- An `if`/`then`/`else` branch and its CEL condition agree exactly when every pinned property is also required
  (`CondExactIff`).
- A reference whose way crosses a name equal to `definitions` is rewritten and lost (`LookedUpAsWrittenIff`,
  `CrossingReferenceLost`). A reference with the escapes of RFC 6901 is looked up with the escapes in place, so it
  leads to the place meant exactly when it has none to undo (`EscapedResolvesIff`); in any document, names with
  slashes included, it is lost unless some definition or anchor holds a tilde itself (`EscapedReferenceLost`,
  `SlashReferenceLost`).
- Cleanup ticks are invisible exactly when the cache is unbounded or holds one entry (`TicksUnseenIff`).
- The API server prunes the fields a node does not know before it validates. What a supported schema accepts is still
  accepted exactly when, at every object, the required fields are known, and distinct and listed values stay so
  (`PrunedWideningIff`); a field that is required and not declared is pruned and then missed (`RequiredFieldPruned`).
  The merge of an `allOf` forgets the map-value schema of its parts, so the keys of such a map are silently lost
  (`MergeKeepsFieldIff`, `MapEntryPruned`).
- A merge reports a change exactly when something changed that it created, deleted or had read; a recorded target
  whose read failed is healed without a word (`ReportIsExact`, `UnreadHealMissed`).
- A successful run deletes a resource that is no longer rendered, and not to be kept, exactly when the version it was
  applied in is still served: otherwise the release forgets it and it stays (`OrphanGoes`, `UnservedOrphanStays`).
- An upgrade that fails after the merge is retried by the next run exactly when the world it left calls for it: there
  is no release any more, or its merge is not refused and something that can be read is not as rendered, missing or
  orphaned (`RetriedIff`). So one that leaves the merged cluster is forgotten, and one that is rolled back is retried
  by every run (`FailedUpgradeForgotten`, `RolledBackRetried`, `ForgottenAndRetried`).
- `SetNestedValue` given one field too many replaces the scalar it meets, so reading back what was written works exactly
  when the last field was looked for in a container (`SetThenWalkIff`).
- `Reorder` drops every array and empty map that is not at or under a listed path (`ReorderCopiesIff`,
  `UnlistedArrayDropped`), although its second step is meant to add everything else.
- A cached entry is found exactly until its lifetime is over, as long as it is not replaced and fewer other keys are
  used meanwhile than the cache holds (`LifetimeOfRun`). A signing key is served past its lifetime only where the
  refetch failed or was not allowed yet (`StaleIsRefetched`, `AgedAnswer`, `AgeBound`).
- The encoder gives a value back exactly when its strings are valid UTF-8 (`RoundTrip`).

## Model

| member | source | states |
|---|---|---|
| CrdTranspiler.Transpiler.Transpile | crdgen/transpile.go:187-222 | terminates on every schema and reference table, cyclic ones included, by (references not on the stack, node); returns the stack exactly as received; the output is the specified translation, which Widening and ExactIff relate to the schema in both directions |
| CrdTranspiler.Transpiler.TranspileAllOf | crdgen/transpile.go:367-421 | the in-place merge of the base node and every member, nil members skipped, is the specified translation; stack restored |
| CrdTranspiler.Transpiler.TranspilePlain | crdgen/transpile.go:224-322 | type, enumeration, shape, union and keyword steps written in turn give the specified node; stack restored |
| CrdTranspiler.Transpiler.TypedPart | crdgen/transpile.go:243-298 | the switch over the declared or inferred type gives the specified shape, or none where the node becomes an open object; stack restored |
| CrdTranspiler.Transpiler.Children | crdgen/transpile.go:325-340 | every property is transpiled with the stack it started from |
| CrdTranspiler.Transpiler.ObjectPart | crdgen/transpile.go:325-364 | properties, required names, and the map-value schema only where no properties are set |
| CrdTranspiler.Transpiler.UnionPart | crdgen/transpile.go:427-471 | a union is kept only when its members constrain what the node already is |
| CrdTranspiler.Transpiler.KeywordPart | crdgen/transpile_keywords.go:130-317 | dependency, negation and conditional rules, then the keywords that only widen |
| CrdTranspiler.ChooseType | crdgen/transpile.go:580-596 | first type that is not null, and whether null is listed |
| CrdTranspiler.DependencyRule | crdgen/transpile_keywords.go:130-166 | the rule of one trigger, dropped when a field cannot be named |
| CrdTranspiler.EmitDependent | crdgen/transpile_keywords.go:130-166 | rules in sorted trigger order |
| CrdTranspiler.RequiredConds | crdgen/transpile_keywords.go:250-256 | one presence test per required name, or none at all if one cannot be named |
| CrdTranspiler.PropertiesConds | crdgen/transpile_keywords.go:257-280 | one test per pinned property, in sorted order |
| CrdTranspiler.Condition | crdgen/transpile_keywords.go:231-285 | the whole condition of a branch, or failure when some part is not expressible |
| CrdTranspiler.EmitIfThenElse | crdgen/transpile_keywords.go:198-225 | the one or two rules of a conditional |
| CrdWidening.Widening | crdgen/transpile.go:187-421 | every JSON value a supported schema accepts is accepted by the output, cut cycles included |
| CrdWidening.AllOfWidens | crdgen/transpile.go:367-421 | every object an allOf node accepts is accepted by its merge |
| CrdWidening.MergeWidens | crdgen/transpile.go:378-416 | merging outputs that accept an object gives one that accepts it |
| CrdWidening.DependentRuleMeans | crdgen/transpile_keywords.go:140-165 | an emitted dependentRequired rule never errs and says what the keyword says |
| CrdTight.TightAccepts | crdgen/transpile.go:187-421 | every value the output accepts is accepted by the schema, where no reference is cut, every keyword is kept and the parts of an allOf agree |
| CrdTight.ExactIff | crdgen/transpile.go:187-421 | a supported schema that is tight and its output accept exactly the same values |
| CrdTight.TightWithin | crdgen/transpile.go:187-421 | whatever the output accepts, no depth of following references finds a fault with |
| CrdTight.LocalTight | crdgen/transpile.go:224-322 | every keyword of a plain node that looks at the value alone is enforced: types, enumeration, constant, bounds, lengths, pattern, format, required names, distinctness, dependencies |
| CrdTight.ChecksSame | crdgen/transpile.go:499-512 | scalar bounds are copied without loss: the same values pass before and after |
| CrdTight.MergeTightens | crdgen/transpile.go:378-416 | a merge of parts that speak of fields only and agree on those they share enforces every part |
| CrdTight.StoredIsAccepted | crdgen/transpile_test.go:119-174 | whatever the server stores after pruning the schema accepts, objects closed by `additionalProperties: false` included |
| CrdTight.PrunedIsKnown | crdgen/transpile_test.go:119-174 | pruning leaves fields only that their node knows |
| CrdLoss.RequiredKeptIff | crdgen/transpile.go:258-270 | an object node enforces its required names exactly when it has properties, a value schema or no required names; otherwise the empty object passes |
| CrdLoss.UniqueLost | crdgen/transpile.go:544-562 | an unbounded array of objects or arrays that must be distinct may repeat anything it may hold |
| CrdLoss.LastPartWins | crdgen/transpile.go:382-394 | a property several parts of an allOf name is held to the last of them alone |
| CrdLoss.SharedPropertyLost | crdgen/transpile.go:382-394 | a bound of an earlier part is lost to a later part that names the same property |
| CrdLoss.SiblingsDropped | crdgen/transpile.go:196-214 | whatever stands beside a reference is dropped; $ref comes before $dynamicRef and that before $recursiveRef |
| CrdLoss.ListTypeStays | crdgen/transpile.go:544-550 | a list type the author gave stays, whatever uniqueItems would have made of it |
| CrdUnions.KeptIff | crdgen/transpile.go:427-471 | a union is kept exactly when no member has a shape of its own; anyOf is looked at first |
| CrdUnions.KeptUnionMeans | crdgen/transpile.go:427-471 | a kept union adds to the node exactly that some, or exactly one, of the members' translations accepts |
| CrdUnions.DegradedUnion | crdgen/transpile.go:427-471 | a union not kept leaves no trace but that an object keeps every field |
| CrdUnions.OneOfRefusesAll | crdgen/transpile.go:427-471 | a kept oneOf with two members that imply no type refuses every object |
| CrdUnions.EitherRefused | crdgen/transpile.go:427-471 | an object that must have exactly one of two names is refused whatever it holds |
| CrdUnions.NotRuleMeans | crdgen/transpile_keywords.go:169-195 | the rule of a negation forbids the constant, or the listed values, and nothing else |
| CrdUnions.NotExact | crdgen/transpile_keywords.go:169-195 | a negated constant or enumeration of literals on a scalar is translated exactly |
| CrdUnions.NotNarrows | crdgen/transpile_keywords.go:169-195 | another keyword beside the negated constant is forgotten, and a value is refused that should be accepted |
| CrdNodes.NodeWidensIff | crdgen/transpile.go:224-322 | a node over supported children widens exactly when every declared type is the output's, whatever can stand at a position passes the output's items, and whatever a key that matches a pattern may hold passes the output's value schema |
| CrdNodes.NodeWidens | crdgen/transpile.go:224-322 | those three conditions suffice on every node without unions, negation and conditionals, enumerations, bounds and formats included |
| CrdNodes.TypesMustFit | crdgen/transpile.go:580-596 | a type the output does not have narrows the node |
| CrdNodes.PositionMustFit | crdgen/transpile.go:272-279 | a value that may stand at some position, the earlier ones being inhabited, and fails the output's items narrows the node |
| CrdNodes.KeyMustFit | crdgen/transpile.go:345-359 | a value that a pattern-matching key may hold, no dependent schema hanging on that key, and that fails the output's value schema narrows the node |
| CrdNodes.UntypedNarrows | crdgen/transpile_keywords.go:25-39 | a node that declares no type narrows, whatever type is inferred for it, unless its other keywords rule out the simplest value of another type |
| CrdNodes.InferredType | crdgen/transpile_keywords.go:25-39 | the type of a node that declares none: of its constant, its first listed value, a keyword of objects, a keyword of arrays, in this order |
| CrdNodes.KindFits | crdgen/transpile_keywords.go:41-56 | a value other than null has the type inferred from it |
| CrdNodes.WithoutItemsNarrows | crdgen/transpile.go:272-279 | an array without items or prefixItems narrows: its elements become objects |
| CrdLimits.CutWidensIff | crdgen/transpile.go:196-214 | a reference that is cut or unresolved widens exactly when the chain of references from it ends in a definition whose types admit objects only, whatever type that definition has |
| CrdLimits.TargetDecides | crdgen/transpile.go:196-214 | a chain of references accepts exactly what the definition at its end accepts |
| CrdLimits.NullDecided | crdgen/transpile.go:196-222 | null is accepted exactly when a walk that visits no reference twice finds it so, cyclic tables included |
| CrdLimits.CutNullIff | crdgen/transpile.go:203-214 | a cut reference to objects or null widens exactly when that walk refuses null, whatever else the definition says |
| CrdLimits.CycleSupported | crdgen/transpile.go:203-214 | a recursive definition that is not nullable is among the schemas Widening covers |
| CrdLimits.AllOfWidensIff | crdgen/transpile.go:367-421 | an allOf over supported parts widens exactly when only objects satisfy it; AllOfNullIff gives the condition on the parts |
| CrdLimits.AllOfNullIff | crdgen/transpile.go:367-421 | where some part admits objects and null only, an allOf widens exactly when some part refuses null |
| CrdLimits.NullableMembersNarrow | crdgen/transpile.go:367-370 | null satisfies two nullable members and is refused by their merge |
| CrdLimits.MergeIsObject | crdgen/transpile.go:367-370 | what allOf becomes accepts nothing but objects |
| CrdLimits.NullableCycleNarrows | crdgen/transpile.go:203-214 | a nullable linked list, ended by null in the source, is refused by the output |
| CrdLimits.PatternKeysNarrow | crdgen/transpile_keywords.go:288-317 | an instance of NodeWidensIff: a value schema beside patternProperties is imposed on matching keys too |
| CrdLimits.TupleNarrows | crdgen/transpile_keywords.go:288-317 | an instance of NodeWidensIff: an items schema beside prefixItems is imposed on the leading positions too |
| CrdLimits.OpenSchemasNarrow | crdgen/transpile.go:243-298 | the schema that allows everything, an array without items and a choice of two types are narrowed |
| CrdPruning.PrunedWideningIff | crdgen/transpile.go:187-421 | a value a supported schema accepts is accepted by the output after pruning exactly when, at every object, required fields are declared, have a value schema or stand in a preserving node, elements that must differ still do, and listed values are still listed |
| CrdPruning.FirmWidening | crdgen/transpile.go:187-421 | where the output knows every field it requires, lists no values and asks distinctness of scalars only, everything accepted is accepted after pruning |
| CrdPruning.AcceptedAfterIff | crdgen/transpile_test.go:119-174 | the same for any output without unions, value by value |
| CrdPruning.UnprunedIff | crdgen/transpile_test.go:119-174 | the pruner leaves a value alone exactly when every field, at every depth, is one its node knows |
| CrdPruning.KeepsFieldIff | crdgen/transpile.go:255-364 | an object node keeps a field exactly when it names it, speaks of other fields, or names none and closes none |
| CrdPruning.MergeKeepsFieldIff | crdgen/transpile.go:367-421 | a merge keeps a field exactly when a part names it, a part preserves or is no object, or no part names any; map-value schemas of parts play no role |
| CrdPruning.TransRegular | crdgen/transpile_keywords.go:130-166 | what a supported schema becomes has no unions, and its rules ask for no field the pruner removes |
| CrdPruning.RequiredFieldPruned | crdgen/transpile.go:336-344 | a value with a required, undeclared field passes validation, loses the field to pruning, and is refused without it |
| CrdPruning.MapEntryPruned | crdgen/transpile.go:382-394 | an entry of a map that is an allOf part beside named properties is accepted by the schema and lost |
| CrdCel.BranchMeans | crdgen/transpile_keywords.go:231-285 | what a simple branch accepts: required names present, pinned properties right where present |
| CrdCel.CondMeans | crdgen/transpile_keywords.go:231-285 | whatever schema it is emitted for, the condition never errs on an object and holds exactly when required and pinned properties are all present and right |
| CrdCel.CondRefusedIff | crdgen/transpile_keywords.go:231-285 | a condition is refused exactly for a keyword it cannot state, a value that is no literal, a field that cannot be named, or nothing to say |
| CrdCel.RulesCompile | crdgen/transpile_keywords.go:130-285 | every rule added to a node names identifiers only, and only fields the node declares or lets through |
| CrdCel.CondExactIff | crdgen/transpile_keywords.go:231-285 | branch and condition agree on every object exactly when every pinned property is required |
| CrdCel.DependentRulesExact | crdgen/transpile_keywords.go:130-166 | with usable names the rules accept exactly what dependentRequired accepts |
| CrdCel.ConditionalExact | crdgen/transpile_keywords.go:198-225 | with faithful branches the rules accept exactly what if/then/else accepts, missing branches included |
| CrdCel.RulesExact | crdgen/transpile_keywords.go:130-285 | all rules added to an object node accept exactly the objects its dependency and conditional keywords accept |
| CrdStructure.TransStructural | crdgen/transpile.go:187-421 | for every input, every output node is int-or-string or of one of six types, arrays carry items, and properties never stand beside additionalProperties |
| CrdStructure.MergeStructural | crdgen/transpile.go:367-421 | merging structural outputs is structural |
| CrdStructure.InlineIsReferenceFree | crdgen/transpile.go:196-222 | inlining leaves no reference behind |
| CrdStructure.InlineCorrect | crdgen/transpile.go:196-222 | resolving references on the way equals inlining the tree first and transpiling it, cycles included, where no unions or conditionals occur |
| CrdIndexer.CollectRefs | crdgen/transpile.go:103-110 | every table entry is a definition under its pointer or a node under its anchor, in the table the translation resolves through; where no name holds a slash, every definition at every depth and every anchor is in it, whatever order maps are ranged over |
| CrdIndexer.Indexer.IndexRefs | crdgen/transpile.go:130-173 | the walk of one node enters exactly the definitions below it and its anchors, and overwrites nothing |
| CrdIndexer.Indexer.IndexDefs | crdgen/transpile.go:114-126 | the definitions of one node and everything inside them |
| CrdIndexer.Indexer.IndexDef | crdgen/transpile.go:115-125 | nil and already taken pointers are passed over |
| CrdIndexer.Indexer.PutAnchor | crdgen/transpile.go:134-144 | an anchor is entered unless its name is taken, and never disturbs a pointer |
| CrdIndexer.JoinSeen | crdgen/transpile.go:120-122 | a pointer is found taken only where names hold slashes or anchors start with one |
| CrdIndexer.ReferenceResolves | crdgen/transpile.go:177-209 | a reference written as a definition's pointer finds that definition, unless its way crosses a name equal to the legacy keyword |
| CrdIndexer.LegacyResolves | crdgen/transpile.go:177-209 | a reference in the legacy spelling finds the definition it names at any depth |
| CrdIndexer.CrossingReferenceLost | crdgen/transpile.go:177-179 | a definition under a property called `definitions` is never found by any table that is sound |
| CrdIndexer.EscapedResolvesIff | crdgen/transpile.go:177-209 | where no name holds a slash, a reference with the escapes of RFC 6901 finds what stands at the place whose names are the escaped ones, or nothing; that is the place meant exactly when no name on the way holds a tilde |
| CrdIndexer.EscapedReferenceLost | crdgen/transpile.go:114-209 | in any document and any sound table, a reference with an escape is found only as the raw spelling of a definition or anchor that holds a tilde itself; where there is none it is lost |
| CrdIndexer.SlashReferenceLost | crdgen/transpile.go:114-124 | the escaped pointer of a definition with a slash in its name is in no sound table |
| CrdDocument.TranspileDocument | crdgen/transpile.go:47-58 | table and translation together: the output is structural, accepts all that a supported document accepts, and nothing else where the document is tight; references resolved through the document's own table |
| CrdDocument.TableUnique | crdgen/transpile.go:103-173 | the order in which maps are ranged over leaves no trace: where no two nodes share an anchor there is one table |
| CrdRefs.PointersTellApart | crdgen/transpile.go:114-173 | no two places of a document with slash-free names have the same pointer |
| CrdRefs.PointersSpelled | crdgen/transpile.go:114-173 | the pointer of every kind of place one step down, as it is written |
| CrdRefs.PointerGoesOn | crdgen/transpile.go:114-173 | a place further down has the pointer of the place above and the spelling of its own step |
| CrdRefs.LookedUpAsWrittenIff | crdgen/transpile.go:177-179 | normalizing leaves a pointer alone exactly when no name on its way, the last aside, is the legacy keyword |
| CrdRefs.LegacyLookedUp | crdgen/transpile.go:177-179 | normalizing a nested legacy path gives the canonical pointer |
| CrdRefs.PointerTilde | crdgen/transpile.go:114-173 | a raw pointer holds a tilde exactly when a name on its way does |
| ReconcileClient.Client.Reconcile | helm/v3/reconcile.go:63-311 | the steps performed one by one leave the world and the outcome of the specified run; a failed load or render and a refused merge end it where the code returns, and a failed upgrade leaves the world it is given to leave |
| ReconcileClient.Client.ReadLive | helm/v3/reconcile.go:136-156 | reads exactly the readable live targets and their traceparents |
| ReconcileClient.Client.Prepare | helm/v3/reconcile.go:158-192 | targets with live traceparents kept and Secrets folded |
| ReconcileClient.Client.Adopt | helm/v3/reconcile.go:194-236 | live, rendered, unrecorded resources get the target itself as last-applied document |
| ReconcileClient.Client.Merge | helm/v3/reconcile.go:238-253 | create, patch, delete; refused exactly when a live target has no last-applied document, and then what helm had reached is written and nothing deleted |
| ReconcileClient.Client.Write | helm/v3/reconcile.go:238-253 | each object reached holds the merge of its last-applied document, prepared target and live state |
| ReconcileClient.Client.Report | helm/v3/reconcile.go:255-287 | created, deleted and semantically patched objects are counted; CompareCounts says what the numbers are |
| ReconcileClient.Client.RunUpgrade | helm/v3/reconcile.go:303-311 | the upgraded world, or whatever a failed upgrade leaves of cluster, release and revision |
| ReconcileClient.FoldInPlace | helm/v3/reconcile.go:529-554 | the loop over stringData gives the folded document |
| Reconcile.Fold | helm/v3/reconcile.go:529-554 | every stringData entry ends in data, encoded, and wins over the data entry |
| Reconcile.FoldMeans | helm/v3/reconcile.go:529-554 | field by field, in core Secrets only: a stringData entry is in data, encoded, over an entry of that name, and everything else stays |
| Reconcile.Merge3 | helm/v3/reconcile.go:222-232 | three-way merge: declared fields set, dropped fields removed, the rest kept |
| Reconcile.MergedLive | helm/v3/reconcile.go:238-253 | which objects are live after a merge, and that untouched ones stay as they were |
| ReconcileTheorems.Converges | helm/v3/reconcile.go:136-311 | every successful run leaves a settled world: all declared fields hold live, traceparent aside, and what is not declared holds the server's default or was nobody's |
| ReconcileTheorems.MergeSettles | helm/v3/reconcile.go:194-253 | a merge alone settles the world on its render |
| ReconcileTheorems.UpgradeSettles | helm/v3/reconcile.go:303-311 | an upgrade settles the world on every render of the same chart |
| ReconcileTheorems.QuietRun | helm/v3/reconcile.go:136-311 | over a settled world a render differing only in a live traceparent or in stringData form reports no change and writes no revision, unread targets that are recorded, server defaults and failing stages included; no content moves but the traceparents of unread targets |
| ReconcileTheorems.QuietForever | helm/v3/reconcile.go:136-311 | the same for every sequence of such runs, each able to read what it likes of what is recorded |
| ReconcileTheorems.CalmIsQuiet | helm/v3/reconcile.go:136-287 | a cluster where every readable target is as rendered, every unread one recorded and nothing orphaned is merged without refusal or reported change |
| ReconcileTheorems.QuietIsCalm | helm/v3/reconcile.go:136-287 | and only such a cluster is |
| ReconcileFailures.UpgradesIff | helm/v3/reconcile.go:63-311 | a run comes to the real upgrade exactly when its calls succeed so far and there is no release, or the merge is not refused and the cluster is not calm; the revision moves only then |
| ReconcileFailures.UpgradeFailsIff | helm/v3/reconcile.go:303-311 | the outcome is a failed upgrade exactly when there was a release, an upgrade was due and the call failed |
| ReconcileFailures.RetriedIff | helm/v3/reconcile.go:303-311 | after a failed upgrade the next run upgrades exactly when the world that was left calls for it |
| ReconcileFailures.RunStaysWell | helm/v3/reconcile.go:63-311 | every run, failed or not, leaves a cluster from which a later run converges, what a failed upgrade wrote included as far as it went through the server |
| ReconcileFailures.RefusalDeletesNothing | helm/v3/reconcile.go:194-253 | a refused merge deletes nothing and leaves alone what it did not reach |
| ReconcileFailures.FailedUpgradeForgotten | helm/v3/reconcile.go:289-311 | if what a failed upgrade leaves is settled, no sequence of runs on similar renders upgrades or writes a revision |
| ReconcileFailures.NoEffectIsSettled | helm/v3/reconcile.go:303-311 | an upgrade that fails before it does anything leaves a settled world |
| ReconcileFailures.RolledBackRetried | helm/v3/config.go:51-77 | an upgrade that fails and is rolled back is retried by every run for as long as it keeps failing, whatever revisions that writes |
| ReconcileFailures.ForgottenAndRetried | helm/v3/reconcile.go:303-311 | one input whose failed upgrade is forgotten and one whose failed upgrade is retried |
| ReconcileServer.ServerIsWellBehaved | helm/v3/reconcile.go:255-270 | for every choice of server-owned and defaulted fields, the server that keeps, drops and defaults accordingly meets the contract asked of the API |
| ReconcileServer.ContractHasModel | helm/v3/reconcile.go:255-270 | the contract is met by a server that defaults a field and owns a field on one resource and not on another |
| ReconcileTheorems.AdoptionDeletesNothing | helm/v3/reconcile.go:194-236 | adopting a live resource preserves every field the render does not declare |
| ReconcileTheorems.PatchMeans | helm/v3/reconcile.go:222-253 | what a patch leaves live, field by field, after the server folds Secrets |
| ReconcileTheorems.PreparedGet | helm/v3/reconcile.go:158-192 | what a prepared target declares, field by field |
| ReconcileTheorems.MergedMeans | helm/v3/reconcile.go:238-253 | every merged object is written from its last-applied document, prepared target and live state |
| ReconcileTheorems.MergeFailsIff | helm/v3/reconcile.go:194-253 | the merge is refused exactly for a live resource the release lost and that could not be read |
| ReconcileTheorems.ReportIsExact | helm/v3/reconcile.go:255-287 | a change is reported exactly when something changed that was not an unread target; it is missed exactly when every changed object is a recorded target whose read failed |
| ReconcileFailures.UnreadHealMissed | helm/v3/reconcile.go:136-156 | a drifted resource whose read fails is healed, and the run says that nothing changed |
| ReconcileTheorems.CompareIsExact | helm/v3/reconcile.go:255-381 | comparing before and after stripped of status, write-volatile metadata and helm's ownership marks reports a change exactly when content differs in something created, deleted or read before |
| ReconcileReport.CompareCounts | helm/v3/reconcile.go:255-287 | created counts the objects that appeared, deleted those that went, patched those read before whose content changed, by the cluster before and after the merge |
| ReconcileReport.RunCounts | helm/v3/reconcile.go:255-311 | every result of a run over a release, failed upgrades included, carries these numbers, and says changed exactly when one is not zero |
| ReconcileReport.OthersUntouched | helm/v3/reconcile.go:63-311 | a run leaves alone every object it does not render that the release does not record or that is to be kept by policy |
| ReconcileReport.OrphanGoes | helm/v3/reconcile.go:238-311 | an object recorded in a version still served and no longer rendered is gone after a successful run |
| ReconcileReport.UnservedOrphanStays | helm/v3/reconcile.go:389-465 | one recorded in a version no longer served stays in the cluster and leaves the release |
| ReconcileReport.NothingSent | helm/v3/reconcile.go:222-253 | where the merge has nothing to write, nothing is sent and the object stays as it is |
| ShortId.Encode | shortid/shortid.go:298-328 | fails exactly when the digit width is wrong or the value does not fit; otherwise each symbol carries its digit under the noise |
| ShortId.DecodeEncoded | shortid/shortid.go:298-328 | decoding gives the value back for every random choice |
| ShortId.IndexMeans | shortid/shortid.go:318-352 | a digit mixed with masked noise stays in the alphabet and masks back to the digit |
| ShortId.NumberOfDigits | shortid/shortid.go:318-326 | the digits of a value that fits give it back |
| ShortId.SizeIsExact | shortid/shortid.go:303-316 | the computed length is enough and one symbol fewer is not |
| ShortIdGenerator.NonUnique | shortid/shortid.go:268-276 | true exactly when a character repeats |
| ShortIdGenerator.Shuffle | shortid/shortid.go:278-288 | the loop performs the draws the seed dictates, and the result is a permutation |
| ShortIdGenerator.DrawnIsPermutation | shortid/shortid.go:278-288 | the draws permute the alphabet even when the seed product wraps at 64 bits |
| ShortIdGenerator.PickInBounds | shortid/shortid.go:281-282 | the drawn position is always inside what is left |
| ShortIdGenerator.PermutationKeepsDistinct | shortid/shortid.go:246-257 | a permutation of distinct characters is distinct |
| ShortIdGenerator.NewAbc | shortid/shortid.go:246-257 | accepts exactly 64 distinct characters |
| ShortIdGenerator.SeedIs | shortid/shortid.go:278-288 | the seed of every turn in closed form, for every seed: only the first product can wrap |
| ShortIdGenerator.PickMeans | shortid/shortid.go:281-282 | the position drawn is the part of what is left that the seed is of its range |
| ShortIdGenerator.DrawnAt | shortid/shortid.go:278-288 | each character of the alphabet is the one its own seed picks among those left |
| ShortIdGenerator.New | shortid/shortid.go:140-156 | refuses exactly workers above 31 and bad alphabets; the alphabet is the one the given seed draws |
| ShortIdGenerator.Shortid.Generate | shortid/shortid.go:182-222 | updates millisecond and counter as specified, and fails exactly when the milliseconds reach 2^40 |
| ShortIdGenerator.GenerateAll | shortid/shortid.go:182-222 | a whole run of a fresh generator |
| ShortIdGenerator.OriginOfId | shortid/shortid.go:182-204 | every id decodes to its millisecond, worker and counter |
| ShortIdGenerator.WhatFits | shortid/shortid.go:182-204 | worker and counter always fit; milliseconds fit exactly below 2^40 |
| ShortIdGenerator.CountRuns | shortid/shortid.go:206-222 | within a millisecond the counter counts the calls |
| ShortIdGenerator.StampsDistinct | shortid/shortid.go:206-222 | no two calls get the same millisecond and counter |
| ShortIdGenerator.IdsDistinct | shortid/shortid.go:182-222 | over every run with a nondecreasing clock all ids are distinct |
| ShortIdGenerator.WorkersNeverCollide | shortid/shortid.go:182-204 | generators with different workers and one alphabet never produce the same id |
| Deps.CycleIff | deps/deps.go:33-51 | a new edge closes a cycle exactly when it is a loop or its target already reached its source |
| Deps.NewPath | deps/deps.go:33-51 | a path over the enlarged graph avoids the new edge or splits at it |
| Deps.ClosedContains | deps/deps.go:155-181 | a set closed under edges holds all that is reachable |
| DepsGraph.Graph.constructor | deps/deps.go:13-19 | an empty graph, consistent and acyclic |
| DepsGraph.Graph.DependOn | deps/deps.go:33-51 | an edge is refused exactly when it would close a cycle; a refusal changes nothing; both adjacency maps stay inverse |
| DepsGraph.Graph.Connect | deps/deps.go:42-50 | both ends become nodes and the edge enters both maps, in sets of the graph's own |
| DepsGraph.Graph.Leaves | deps/deps.go:53-63 | exactly the nodes without dependencies, each once |
| DepsGraph.Graph.TopoSortedLayers | deps/deps.go:81-98 | terminates; every node in the layer of its longest dependency chain; every set of the graph is unchanged, though those of its clone are edited in place |
| DepsGraph.Graph.Peel | deps/deps.go:84-95 | one turn of the loop: the leaves of what is left are the next layer and are removed |
| DepsGraph.Graph.TopoSorted | deps/deps.go:64-79 | every node exactly once, every dependency before its dependents |
| DepsGraph.Graph.DependsOn | deps/deps.go:104-108 | true exactly when the parent is reached by one or more edges |
| DepsGraph.Graph.HasDependent | deps/deps.go:110-114 | the same question over the reversed edges |
| DepsGraph.Graph.Remove | deps/deps.go:116-131 | removes the node and exactly its edges from both maps, in the graph's own sets |
| DepsGraph.Graph.Clone | deps/deps.go:145-151 | the same edges over sets that are all new, so nothing done to one graph reaches the other |
| DepsGraph.Graph.BuildTransitive | deps/deps.go:155-181 | exactly the nodes reached by one or more edges, and nothing for an unknown root |
| DepsHeap.DropEdges | deps/deps.go:183-193 | removes one node from the sets of the listed keys, in place, and leaves no empty set |
| DepsHeap.RemoveNode | deps/deps.go:183-193 | one set loses the node in place, or its key is dropped; no other set is touched |
| DepsHeap.DropNode | deps/deps.go:116-131 | the edges to a node leave one map, found through the other, and its own entry leaves that other |
| DepsHeap.AddNode | deps/deps.go:211-218 | one set gains the node in place, or a new set is made; sets stay distinct objects |
| DepsHeap.CopyMap | deps/deps.go:203-209 | the copy has the same edges in sets that are all new |
| DepsGraph.Load | deps/deps.go:33-51 | after every sequence of calls the graph holds exactly the kept edges, mirrored and acyclic |
| DepsGraph.MirrorReaches | deps/deps.go:104-114 | reaching along reversed edges is reaching backwards |
| DepsLayers.LayersAreOrder | deps/deps.go:64-98 | layers by longest chain list every node once, dependencies first |
| DepsLayers.ChainBound | deps/deps.go:81-98 | in an acyclic graph no chain is as long as the number of nodes |
| DepsLayers.SomeoneIsLast | deps/deps.go:81-98 | layers leave no gap: a chain of some length is somebody's longest |
| Cache.StepKeeps | cache/cache.go:90-206 | every operation keeps the map and the recency list on the same keys, without duplicates, within the bound |
| Cache.SetKeeps | cache/cache.go:90-111 | the key just set is present with its new entry |
| CacheTheorems.StepRefines | cache/cache.go:90-206 | each step is a step of a plain LRU store that evicts the least recently used key, with the same answer |
| CacheTheorems.RunRefines | cache/cache.go:90-206 | the same over every run |
| CacheLifetime.Lifetime | cache/cache.go:15-176 | an entry left alone since its Set is found by Get and Pop, with its value, and listed by Keys, exactly when the clock has not passed the instant of the Set plus its lifetime |
| CacheLifetime.LifetimeOfRun | cache/cache.go:15-176 | the same over every run from an empty cache, in terms of calls, clock and answers alone |
| CacheLifetime.NotPushedOut | cache/cache.go:90-206 | an entry not replaced is not pushed out as long as fewer other keys than the bound have been used since |
| CacheLifetime.EvictionTakes | cache/cache.go:90-206 | to be pushed out, as many other keys as the bound must have been used since |
| CacheLifetime.EvictedIsLast | cache/cache.go:90-111 | a Set drops at most the last of the recency list, and only when the cache is full and the key is new |
| CacheLifetime.GoneUntilSet | cache/cache.go:133-184 | after a Remove, a Pop or a Clear a key is a miss and not listed until the next Set |
| CacheSweep.SweepUnseen | cache/cache.go:66-111 | without a bound, or with a bound of one, ticks at any points of any run change no found flag, found value or listed key |
| CacheSweep.TicksUnseenIff | cache/cache.go:66-111 | every clocked run from an empty cache looks the same without its ticks exactly when the bound is at most one |
| CacheSweep.BoundedSweepShows | cache/cache.go:66-111 | in a full cache with an expired entry beside a live last one, a sweep decides which entry survives the next Set |
| CacheSweep.TelltaleShows | cache/cache.go:66-111 | for every bound above one, a run from the empty cache in which a tick is seen |
| CacheObject.TTLCache.Put | cache/cache.go:90-111 | performs the Set step on map and list |
| CacheObject.TTLCache.Get | cache/cache.go:113-131 | performs the Get step, dropping an expired entry |
| CacheObject.TTLCache.Remove | cache/cache.go:133-140 | performs the Remove step |
| CacheObject.TTLCache.Pop | cache/cache.go:142-159 | performs the Pop step |
| CacheObject.TTLCache.ListKeys | cache/cache.go:161-176 | lists exactly the live keys, each once, and drops expired ones |
| CacheObject.TTLCache.Reset | cache/cache.go:178-184 | empties both |
| CacheObject.TTLCache.Tick | cache/cache.go:66-85 | removes exactly the expired entries, whatever order they are visited in |
| CacheObject.TTLCache.RemoveItem | cache/cache.go:192-195 | removes one key from both |
| Jwks.BuildKeySet | jwtutil/jwks.go:301-316 | each kid maps to its last usable entry; no usable entry is a failure |
| Jwks.JWKSKeySource.Refresh | jwtutil/jwks.go:266-277 | the attempt is recorded even when the fetch fails, keys only replaced when it succeeds |
| Jwks.JWKSKeySource.PublicKey | jwtutil/jwks.go:206-245 | performs the specified step: fresh hit, throttled refresh, stale serving; AttemptsIff and AgeBound say by the clock when each happens |
| Jwks.AnswerIsLookup | jwtutil/jwks.go:206-262 | every answer is what the key set left by the call says |
| Jwks.HoldsLatest | jwtutil/jwks.go:266-277 | after every run the cache holds the latest successful fetch |
| JwksAge.AttemptsIff | jwtutil/jwks.go:206-245 | a call goes to the network exactly when there is a URL, the last set fetched does not name its kid or is as old as the lifetime, and the last attempt is at least the minimum interval ago, by clock readings |
| JwksAge.StaleIsRefetched | jwtutil/jwks.go:206-245 | a set past its lifetime is fetched anew unless the last attempt is too recent |
| JwksAge.YoungSetServes | jwtutil/jwks.go:206-245 | a kid held in a set within its lifetime is answered from it without an attempt |
| JwksAge.AgedAnswer | jwtutil/jwks.go:206-245 | an answer older than the lifetime means that the call tried to fetch and failed, or was not allowed to try |
| JwksAge.AgeBound | jwtutil/jwks.go:206-245 | with the endpoint up, every answer is from a set fetched by the call itself or less than the lifetime or the minimum interval ago |
| JwksAge.LastMeans | jwtutil/jwks.go:266-277 | the calls these ages are measured from are the latest attempt and the latest successful one |
| JwksAge.EmptyKidIff | jwtutil/jwks.go:248-262 | an empty kid resolves exactly when the set has one key, to that key |
| JwksAge.PublishedIsUsable | jwtutil/jwks.go:335-368 | a modulus and exponent published big-endian, leading zeros included, are read back as the key |
| JwksAge.UsableIsPublished | jwtutil/jwks.go:335-368 | an entry that gives a key is that key, published for signing |
| Jwks.AnswerFromLatest | jwtutil/jwks.go:206-277 | a key answered for a non-empty kid is the one the latest successful fetch names |
| Jwks.KnownKidResolves | jwtutil/jwks.go:206-277 | a known kid keeps resolving through outages and throttled calls until a fetch that is made and succeeds drops it |
| Jwks.AttemptsApart | jwtutil/jwks.go:206-277 | consecutive fetch attempts are at least the minimum interval apart |
| Jwks.AttemptsSpread | jwtutil/jwks.go:206-277 | over any stretch of a run, time grows by the interval for every attempt |
| Jwks.WindowBound | jwtutil/jwks.go:206-277 | any window of length w holds at most w / interval + 1 attempts |
| EventBus.PublishAccounts | eventbus/eventbus.go:159-240 | over every interleaving at most one result, delivered plus pending equal to the snapshot, errors those of the delivered |
| EventBus.ErrorsByPosition | eventbus/eventbus.go:180-206 | the collected errors are the error replies, each at its position, in order and none left out |
| EventBus.ResultErrors | eventbus/eventbus.go:159-240 | over every interleaving the errors of the result are those of the replies delivered, position by position |
| EventBus.RepliesAreSent | eventbus/eventbus.go:173-240 | the replies recorded are those the handlers sent, in the order they sent them |
| EventBus.NeverBlocked | eventbus/eventbus.go:173-240 | no handler is ever blocked sending |
| EventBus.RunIsBounded | eventbus/eventbus.go:180-206 | every interleaving is bounded |
| EventBus.StopsWithResult | eventbus/eventbus.go:180-206 | where nothing but cancellation can happen, every handler has replied and there is exactly one result |
| EventBus.NextInv | eventbus/eventbus.go:159-240 | every step keeps the accounting of running, queued and collected replies |
| EventBusObject.Bus.Subscribe | eventbus/eventbus.go:116-134 | appends to one event's subscribers under an id no subscriber of any event holds, whether or not the slice has room |
| EventBusObject.Bus.Unsubscribe | eventbus/eventbus.go:136-153 | drops the one subscription with that id and keeps every other, by shifting in place; an unknown one changes nothing |
| EventBusObject.DroppedMeans | eventbus/eventbus.go:136-153 | where ids increase along the slice, dropping the first entry with an id leaves exactly the entries with other ids |
| EventBusObject.Bus.ShiftLeft | eventbus/eventbus.go:143-143 | the tail moves left by one and the front stays |
| EventBusObject.Bus.CopySubscriptions | eventbus/eventbus.go:258-267 | the snapshot is an array of its own with the current subscribers |
| EventBusObject.SnapshotSurvives | eventbus/eventbus.go:116-153 | no later sequence of Subscribe and Unsubscribe alters a snapshot |
| Rbac.Authorizer.UserCan | kubeutil/rbac/rbac.go:135-221 | a target is granted only if the policy grants it; a target the cache or a review of this call answered for gets exactly the policy's answer; the cache stays consistent with the policy |
| Rbac.Authorizer.Triage | kubeutil/rbac/rbac.go:148-168 | cached answers are given, and exactly the others are grouped by namespace in order |
| Rbac.Authorizer.Review | kubeutil/rbac/rbac.go:180-218 | all namespaces resolved in any order |
| Rbac.Authorizer.ResolveNamespace | kubeutil/rbac/rbac.go:181-217 | the rules review of a namespace, then access reviews for what it leaves open |
| Rbac.Authorizer.ApplyRules | kubeutil/rbac/rbac.go:194-213 | the in-place filter keeps exactly the unsettled entries, in order, never overwriting one still to be read |
| Rbac.Authorizer.Settle | kubeutil/rbac/rbac.go:195-213 | one entry against the rules: settled with the policy's answer and cached, or left open |
| Rbac.Authorizer.ResolveWithAccess | kubeutil/rbac/rbac.go:284-303 | a failed access review leaves the target as it was |
| Rbac.Authorizer.StoreCache | kubeutil/rbac/rbac.go:305-310 | stores with the lifetime given, or not at all without a positive one |
| Rbac.Authorizer.Cached | kubeutil/rbac/rbac.go:155-160 | a hit is exactly an unexpired entry, and only expired entries are lost by looking |
| Rbac.Authorizer.SetCacheTTL | kubeutil/rbac/rbac.go:120-125 | switching caching off forgets every answer |
| RbacRules.RulesAllowTarget | kubeutil/rbac/rbac.go:312-329 | true exactly when the verb, group and resource asked for are among the accesses the rules grant together |
| RbacRules.SliceContains | kubeutil/rbac/rbac.go:331-338 | true exactly when some listed word matches, a star matching everything |
| RbacRules.GrantedIff | kubeutil/rbac/rbac.go:312-329 | what a list of rules grants is what some rule of it grants |
| RbacRules.GrantsIff | kubeutil/rbac/rbac.go:313-326 | a rule grants exactly the combinations of the verbs, groups and resources it lists or stars, and none if limited to named resources |
| RbacRules.ListedIsGranted | kubeutil/rbac/rbac.go:312-338 | every combination of what a rule lists is granted, and with a star every word in that place |
| RbacRules.UnlistedIsRefused | kubeutil/rbac/rbac.go:312-338 | a verb, group or resource that no rule lists or stars is never allowed by rules |
| RbacRules.NamedIsRefused | kubeutil/rbac/rbac.go:314-316 | rules limited to named resources allow nothing |
| Rbac.UnlistedIsDenied | kubeutil/rbac/rbac.go:180-218 | after a complete review, what no rule lists is refused by every policy the review is honest about |
| Rbac.RulesMakeAPolicy | kubeutil/rbac/rbac.go:180-218 | for every table of rules by namespace there is a policy and reviews of it that are honest: membership in what the rules grant |
| Rbac.BuildResult | kubeutil/rbac/rbac.go:340-346 | one entry a target; a target asked twice keeps its last answer |
| Rbac.UnsettledAwaiting | kubeutil/rbac/rbac.go:194-213 | what is left open is exactly what was pending and not settled |
| JsonEncoder.Encoder.Encode | jqutil/encoder.go:42-95 | flushed bytes plus buffer grow by exactly the specified encoding, depth is restored, the buffer ends within a chunk; on a failed write what was written is a prefix of that |
| JsonEncoder.Encoder.Flush | jqutil/encoder.go:29-40 | the buffer is emptied only when the writer took all of it |
| JsonEncoder.Encoder.EncodeString | jqutil/encoder.go:124-177 | the copy-in-stretches loop writes exactly the escaped literal |
| JsonEncoder.Encoder.EncodeArray | jqutil/encoder.go:179-199 | as Encode, for arrays |
| JsonEncoder.Encoder.EncodeObject | jqutil/encoder.go:201-239 | as Encode, with keys in byte order whatever order the map is ranged over |
| JsonEncoder.Encoder.WriteIndentInternal | jqutil/encoder.go:252-264 | the doubling loop writes exactly n unit characters, reading back nothing but its own |
| JsonEncoder.Encoder.WriteIndent | jqutil/encoder.go:241-250 | a line break and the depth in units |
| JsonRoundTrip.RoundTrip | jqutil/encoder.go:42-95 | encoding then parsing by RFC 8259 gives the value back in every layout, exactly when all its strings and names are valid UTF-8 |
| JsonRoundTrip.ValueReadsBack | jqutil/encoder.go:42-239 | the parser reads an encoded value back and stops where it ends, in any context |
| JsonRoundTrip.ArrayReadsBack | jqutil/encoder.go:179-199 | arrays of any length, indent and depth |
| JsonRoundTrip.ObjectReadsBack | jqutil/encoder.go:201-239 | objects, whose names the parser requires to be distinct |
| JsonRoundTrip.ReadIsClean | jqutil/encoder.go:158-169 | whatever the parser reads is valid UTF-8 |
| JsonRoundTrip.EncodingInjective | jqutil/encoder.go:42-95 | two clean values never encode alike |
| JsonString.StringReadsBack | jqutil/encoder.go:124-177 | reading a written literal (section 7 of RFC 8259) gives the string with every invalid byte replaced by U+FFFD |
| JsonString.EscapeReadsBack | jqutil/encoder.go:132-156 | every escaped ASCII byte reads back as itself |
| JsonString.ReadStringValid | jqutil/encoder.go:124-177 | a readable literal holds valid UTF-8 |
| JsonLayout.ShortEscapes | jqutil/encoder.go:132-156 | the seven characters with a short escape get it, every other escaped one six characters, all of them printable |
| JsonLayout.WrittenAsItselfIff | jqutil/encoder.go:124-177 | a string is written as itself exactly when it is valid UTF-8 and its ASCII characters are printable |
| JsonLayout.IndentIs | jqutil/encoder.go:241-264 | a line break is followed by as many tabs, or as many spaces, as the depth says |
| JsonLayout.EncodingDense | jqutil/encoder.go:179-239 | a layout adds blanks and nothing else: without them every encoding is the compact one |
| Utf8.SanitizeIff | jqutil/encoder.go:158-169 | replacement changes nothing exactly when the string is valid |
| Decimal.ReadsBack | jqutil/encoder.go:51-56 | reading a printed number gives it back |
| MapPaths.LeafPaths | maps/paths.go:8-35 | lists one path for every leaf and no other, whatever order maps are ranged over |
| MapPaths.ParsePath | maps/paths.go:38-51 | the filter loop gives the non-empty parts |
| MapPaths.ParsesBack | maps/paths.go:8-51 | the printed path of a route over clean names parses back to its fields |
| MapPaths.PathsSpelled | maps/paths.go:8-35 | names are joined by dots and positions stand in brackets |
| MapPaths.LeafPathsDistinct | maps/paths.go:8-35 | in a tree of clean names no path is listed twice |
| MapPaths.FieldsTellApart | maps/paths.go:8-35 | two leaf routes with the same fields are the same route |
| MapAccess.NestedValue | maps/maps.go:9-28 | the loop performs the specified walk, a missing last key giving nil |
| MapInPlace.SetNestedValue | maps/maps.go:30-86 | succeeds exactly when the specified write does; then one entry of one container has changed, sharing or not, and none on failure; without sharing the value in place is what the specified write makes of it |
| MapInPlace.FindSpot | maps/maps.go:30-86 | the loop with its parent pointer finds the container and field to write, or fails, as the specified write does |
| MapInPlace.AfterMeans | maps/maps.go:30-86 | replacing one part of one container on the heap is the specified write on the whole value |
| MapAccess.SetSucceedsIff | maps/maps.go:30-86 | a write succeeds exactly when the way exists and the last field can be selected, or a scalar stands in its place |
| MapAccess.SetThenWalkIff | maps/maps.go:9-86 | reading back gives the value exactly when the last field was looked for in a container |
| MapAccess.LeafPathReads | maps/maps.go:9-28 | the printed path of a leaf leads back to that leaf |
| MapAccess.LeafPathWrites | maps/maps.go:30-86 | writing to a leaf's path changes that leaf only, and moves no leaf when a scalar is written |
| MapAccess.WalkRoute | maps/maps.go:9-28 | walking the fields of any route that exists ends where the route does |
| MapAccess.SetRoute | maps/maps.go:30-86 | writing along any route that exists replaces the node at its end |
| MapRebuild.Reorder | maps/reorder.go:14-45 | the output's containers are all new and share nothing with the input, which is left alone; its value is the copied part of the input on or under the listed and leaf places, whatever order leaves are listed in |
| MapReorder.ReorderCopiesIff | maps/reorder.go:14-45 | on a clean tree the result is a full deep copy exactly when every array and empty map is at or under a listed place |
| MapReorder.MapsOnlyCopied | maps/reorder.go:14-45 | without arrays and empty submaps it is a full deep copy for every list of paths |
| MapReorder.UnlistedArrayDropped | maps/reorder.go:29-42 | an array nobody lists is dropped |
| MapReorder.SetBuild | maps/reorder.go:19-42 | each write adds exactly one place to what has been built |
| MapReorder.FailsIff | maps/maps.go:187-205 | a lookup fails exactly when its way meets something that is neither a map nor nil |
| MapRebuild.NestedField | maps/maps.go:187-205 | the loop performs the specified lookup on the value itself, nil and wrong types told apart |
| MapRebuild.SetNestedField | maps/maps.go:157-179 | writes a copy in place and makes missing maps on the way; the value in place is what the specified write makes of it, still without sharing, its new containers new; on anything else in the way it fails with nothing written |
| MapHeap.DeepCopy | maps/deepcopy.go:11-53 | the clone is the widened copy of every part and shares no container with the input nor any with itself, whatever the input shares |
| Trees.CopyKeepsValues | maps/deepcopy.go:11-53 | a copy has the same containers, keys and positions and the same value at every leaf, numbers in their widest form |
| Trees.CopyIsUnique | maps/deepcopy.go:11-53 | there is one such tree, and it is the copy |
| Trees.CopyIdempotent | maps/deepcopy.go:11-53 | a copy of a copy is the copy |

## Left out

- Warnings, descriptions, titles, defaults, examples and passed-through `x-kubernetes-*` extensions of the transpiler, except the list type; `assembleCRD`, `validateCRD`, `mergeConditionedStatus`: envelope, or easy members.
- CEL rules are syntax trees with a three-valued evaluation, not text; regular expressions and formats are any fixed interpretation.
- CrdWidening.Widening: covers schemas whose nodes declare one type (or none, read as an object) and only that type's keywords, without unions, `not` or conditionals. Of unions, CrdUnions decides which are kept and what they then say; of negations and conditionals, which rules are emitted and what they say.
- CrdTight.TightAccepts: no reference is cut, and no node has unions, `not`, conditionals, an authored list type, int-or-string, pattern keys, tuples, dependent schemas, unevaluated properties, or properties beside a value schema; a closed object is tight only after pruning, and not inside an allOf, whose parts speak of fields only. CrdLoss gives the losses behind these limits that are not stated elsewhere.
- `exclusiveMinimum`, `exclusiveMaximum`, `minProperties`, `maxProperties`, `unevaluatedItems` and the content keywords, which the transpiler does not read or only warns of, are not part of the schemas.
- CrdNodes.NodeWidensIff: decides nodes without unions, `not`, conditionals, enumerations and formats, whose keywords leave each declared type but the output's its simplest value, whose arrays have no lower bound and may repeat, and whose maps require nothing and have no dependent schemas; CrdNodes.NodeWidens, the half that widens, needs none of these but the first three. UntypedNarrows has the same limits.
- CrdLimits.CutWidensIff: the definition reached is no allOf, and has no enumeration or format and its simplest values, as above; CrdLimits.CutNullIff has no such limits where only objects and null are in question.
- CrdLimits.AllOfWidensIff: over supported parts; the condition ranges over values, and CrdLimits.AllOfNullIff replaces it by a check of the parts where some part admits objects and null only.
- A nil entry under `properties` of a conditional branch, which the source dereferences, is treated as not expressible.
- Reconcile: helm's upgrade, the API server and the merge library are contracts; hooks, force, choosing which revision to repair (`selectCurrentForBuild`), which versions are served (`filterUnmappableManifestDocs` splits the manifest text, the model drops entries), which stage fails, how far a refused merge got and what a failed upgrade leaves are inputs.
- ReconcileFailures.UpgradesIff: the traceparents a render stamps have a value, as the post-renderer stamps them.
- CrdIndexer.EscapedResolvesIff: names without slashes, where the table is complete; for other documents CrdIndexer.EscapedReferenceLost gives the half that loses references.
- CrdPruning: metadata and embedded resources, which the server treats apart, and pruning under unions, `not` and conditionals.
- ShortIdGenerator.IdsDistinct: a run has fewer than 2^64 calls and no restart; `math.Log2` is the exact floor.
- CacheLifetime.LifetimeOfRun: the clock does not run backwards, and a caller counts the other keys it used; CacheLifetime.Lifetime has the exact condition, that no Set pushed the entry out.
- JwksAge.AgeBound: with an endpoint that is up; JwksAge.AgedAnswer covers outages.
- ReconcileReport.OthersUntouched: what a failing upgrade does to other objects is an input.
- JsonLayout.EncodingDense: for values whose strings hold no blanks, which would be taken out as well.
- Cache: real time inside one locked operation is a single reading; goroutine shutdown is not modelled.
- Jwks: HTTP, RSA and base64 are left to the fetched document; concurrency is the order in which the lock is taken.
- EventBus: handler bodies, the failure hook and publish timeouts are the events of the interleaving; ids are unbounded.
- Rbac: logging, and the client construction beyond whether it succeeds.
- JsonEncoder: floats, `json.Number` and the panic on other types; a Go string is a sequence of characters standing for bytes.
- MapRebuild.Reorder: an empty parsed path makes the source panic and is excluded by precondition.
- Typed nil maps and slices, and `[]map[string]any`, in deep copies.
- Getters, OCI, kubeconfig, middleware, retry, logging, code generation, signup, certificates and the event recorder: input and output, or only easy claims.
