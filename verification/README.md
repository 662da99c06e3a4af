# Verified model of the data-product graph

The system walks one dependency graph of data products, from consumer inputs to producer outputs, in several
independently written programs that are meant to agree: the Kubernetes controller, the metadata registry, the
browser, and an offline publisher check. This project models these programs in Dafny 4.11 and proves that they
decide what they are meant to decide, and that they agree with each other.

`dafny verify dfyconfig.toml` checks all of it. Every lemma switches Dafny's automatic induction off, so each
induction is written out.

## How it is organised

- `Products`, `Versions`, `Decimals`, `Digraph`, `Sums`, `Order`: products and ports, version compatibility, decimal
  text, finite graphs and walks, sums over sets, textual order and sorting.
- `Composition`, `CompositionTheorems`, `CompositionGraph`: the controller's depth-first check with memoised heights,
  as a function of the walk's state, the exact condition it decides, and the object that refines it.
- `Reconcile`, `Controller`, `Watches`, `WorkQueue`, `LostWakeup`: one reconciliation, its object, the requests an
  event makes, the work queue as a transition system with runs that overlap changes, and a run that loses a wakeup.
- `Readiness`, `DirectRest`, `Convergence`, `Fairness`: the fixed points at rest with and without composition, that fair
  rounds lead to rest, and that every weakly fair infinite run is made of such rounds.
- `Lineage`, `LineageKeeps`, `LineageFacts`, `LineageLedger`, `LineagePaths`, `LineageAccepted`, `LineageWalk`: the
  registry's fault-tolerant walk and the proof that every trace it emits is sound.
- `LineageAccount`, `LineageDeclared`, `LineageComplete`, `Agreement`: when a walk is complete, and that controller and
  registry agree.
- `TraceSpec`, `Bits`, `TraceCheck`, `TraceOrder`, `TraceValid`: what a sound trace is, and the browser's checker.
- `Bundle`, `Witness`, `Findings`, `Preflight`, `Deployment`, `Plan`, `PlanCheck`, `PlanAccepted`, `Features`: the graph
  check of a bundle, its verdict for the controller, the review plan and the browser's checks of plan and features.
- `Declarations`, `Reading`, `Publishing`, `ReportCheck`, `BundleCheck`: the offline check from the selected sources to the
  public report, and the browser's check of the whole report.
- `Numbers`, `Json` (with `FlatScan`), `Decoder`, `Unicode`: exact JSON admission.
- `Catalog`, `Dataspace`, `CatalogAccepted`: catalog projection and its independent reader.
- `HttpSource`: slots and observation gauges as interleaved steps.

## What the model assumes

- A product key is a namespace and a name. Where the programs join them with a slash, namespaces are DNS labels and
  contain none; the offline check works on the joined text, and the two views are proved to match.
- During one walk a key is read at most once: it answers with one version, may fail, and the deadline may pass at any of
  the checks the code makes. Different keys of one walk, and repeated reads of one key outside a walk, may see different
  stores (`Composition.Reader`, `WorkQueue.Commit`).
- The work queue keeps a key that is enqueued while it is being processed, and computes the requests of an event from
  the store the event leaves behind.
- The registry is given the controller's compatibility evaluator, as its program does (main.go:232).
- A round is fair when every product either has a run begun and ended in it, or at some point of it is neither queued nor
  being processed nor waiting for a timer; `Convergence` counts such rounds after declarations and local states have
  stopped changing, while reads and listings succeed.
- `Fairness` derives these rounds from weak fairness: a queued key nobody processes is taken, a run ends, a timer fires.
  Infinite runs may pause.
- The answers of the offline check's validators (object metadata, schema, user interface, preview, catalog), how far each
  document decodes, and whether the encoded reports fit are parameters of its input.
- Encoded sizes of descriptors and input statuses, address predicates, and the digest behind entity identities are
  parameters. Address predicates of the publisher are assumed to imply those of the catalog reader.
- The exponent arithmetic of the number check is floating point: exact up to 2^53 and never back below it.

## What the code does differently from its description

- A lineage record over 64 KiB replaces the observation of the same run, including a failed read, which is then not
  returned as an error (internal/controller/composition.go:126-135). `Reconcile.FailedReadReported` says exactly when, and
  `Reconcile.FailedReadCanBeHidden` gives an input; the 30-second retry still covers it (`WorkQueue.NoLostWakeups`).
- When listing the products for an event fails, none of its consumers is enqueued
  (internal/controller/dataproduct_controller.go:59-64). With composition a timed retry is pending for each of them
  (`WorkQueue.NoLostWakeups`); without it the wakeup can be lost (`LostWakeup.FailedListingLosesWakeup`).
- The publisher counts findings without a bound, and the browser refuses counters beyond 2^20
  (web/preflight-report.js:158). `BundleCheck.CheckBundle` says for exactly which selections checked without a deadline that happens, and
  `BundleCheck.PastTheBound` gives one for validators that report each missing field; whether the schema validator lists
  that many within the 2 MiB a selection may have is outside the model. Up to 4,000 complaints about each declaration
  are always accepted (`BundleCheck.ModerateIsAccepted`), and so is everything else about every report.

## Model

| member | source | states |
|---|---|---|
| `Composition.VisitSound` | internal/controller/composition.go:171-263 | A successful part of the search keeps the budgets, leaves every finished product with matching inputs, finished producers and its exact height, and records the first producer that is not ready |
| `CompositionTheorems.AcceptedIsAcceptable` | internal/controller/composition.go:171-263 | An accepted root has a closed, single-namespace, compatible graph within 256 products, 1024 inputs and 63 edges; `visited` is exactly the reachable set, every memoised height is the exact longest chain, and `notReady` is empty exactly when every producer is ready |
| `CompositionTheorems.AcceptableIsAccepted` | internal/controller/composition.go:171-263 | With every read answered in time, the search accepts every graph inside those bounds |
| `CompositionTheorems.CheckIsExact` | internal/controller/composition.go:171-263 | The memoised, budgeted search decides exactly the declarative bounds |
| `CompositionGraph.Graph.Visit` | internal/controller/composition.go:171-203 | One activation on the object updates maps, budget and heights in place exactly as the specified step |
| `CompositionGraph.Graph.VisitOne` | internal/controller/composition.go:205-260 | One loop iteration: namespace, one read per producer, recursion, height, contract, readiness, in that order |
| `CompositionGraph.Graph.Read` | internal/controller/composition.go:213-240 | A producer is read at most once; the product budget, a failed read and a missing producer stop the walk |
| `CompositionGraph.Observe` | internal/controller/composition.go:66-85 | A whole check through the object returns the specified reason and first product that is not ready |
| `Compatibility.CompatibilityExact` | internal/controller/composition.go:303-316 | An input is compatible exactly when the first output of its name has the declared protocol and a compatible version; the output is reported missing exactly when no output has the name |
| `Products.FindOutput` | internal/controller/composition.go:285-292 | The output of that name if there is one, otherwise no output has the name |
| `Versions.BrowserAgreesWithController` | internal/registry/ui/lineage.js:49-60 | The browser's digit-wise version comparison accepts exactly the pairs the controller's 64-bit comparison accepts, over all texts |
| `Versions.LongComponentOverflows` | internal/controller/composition.go:319-335 | A version component of more than 20 digits without a leading zero does not fit 64 bits, so both readers refuse it |
| `Controller.Reconciler.Reconcile` | internal/controller/dataproduct_controller.go:114-277 | The method leaves exactly the status, error and retry timer that the run specification gives for what the API answered |
| `Controller.Reconciler.ObserveComposition` | internal/controller/composition.go:36-158 | Feature gate, budget, graph walk, recorded inputs and their byte budget lead to the specified condition and input list |
| `Controller.Reconciler.RecordInputs` | internal/controller/composition.go:86-142 | The recorded inputs, or the overflow of their 64 KiB budget at the first input that does not fit |
| `Controller.Reconciler.CheckDirect` | internal/controller/dataproduct_controller.go:170-245 | Without composition every input is read on its own, in whatever view the API gives that read, and the first unusable one decides, in the order namespace, read, existence, readiness, output |
| `Controller.Reconciler.ObserveSource` | internal/controller/dataproduct_controller.go:280-328 | The source condition is set, removed or left out according to the declared source and its engine |
| `Reconcile.RunFrame` | internal/controller/dataproduct_controller.go:114-277 | The status depends only on products reachable from the reconciled one (or its direct producers): stores that agree there give the same outcome, unless the run failed or hid a failed read |
| `Reconcile.VisitFrame` | internal/controller/composition.go:171-263 | The search never looks beyond what is reachable from its product |
| `Reconcile.FailedReadReported` | internal/controller/composition.go:116-135 | With composition, a failed read is returned as an error exactly when the recorded lineage fits its byte budget |
| `Reconcile.FailedReadCanBeHidden` | internal/controller/composition.go:126-135 | For every encoding that contains the texts it records, a product within the API's limits whose 400 inputs on one unreadable producer exceed the byte limit, so that the failed read is not returned |
| `WorkQueue.FootprintRequested` | internal/controller/dataproduct_controller.go:50-99 | Whatever may read a product is enqueued by an event about it |
| `WorkQueue.MixedAgrees` | internal/controller/dataproduct_controller.go:114-277 | A view mixed from several successive stores, none of which changed a product's footprint, agrees with the present store on it |
| `WorkQueue.NextKeeps` | internal/controller/dataproduct_controller.go:102-108 | Every specification change, deletion, local change, timer, start and end of a run keeps the queue invariant |
| `WorkQueue.NoLostWakeups` | internal/controller/dataproduct_controller.go:50-277 | In every run, a product neither queued nor being processed has exactly the status a run would compute now, unless its own local observation moved, a read failure was hidden or listing the consumers of an event failed; in the first two cases a timed retry is pending, and with composition in the third as well |
| `WorkQueue.IdleIsStamped` | internal/controller/dataproduct_controller.go:382-396 | In every behaviour an idle product's status and conditions carry its generation, and unless its local observation moved, a read failure was hidden or a listing failed, consumers take it for ready exactly when a run would find nothing against it now and it is not being deleted |
| `LostWakeup.FailedListingLosesWakeup` | internal/controller/dataproduct_controller.go:59-64 | A run of the system without composition, from two created products without status and through reconciliations alone, that comes to rest with no retry pending and a consumer's status out of date, because listing the consumers of its producer's event failed |
| `Readiness.SettledReady` | internal/controller/dataproduct_controller.go:114-277 | A settled product is ready exactly when it is locally ready and its graph, its producers' readiness and its lineage budget allow it |
| `Readiness.ReadyExactlyWhenHealthy` | internal/controller/dataproduct_controller.go:114-277 | At rest with composition on, a product is ready exactly when its graph is accepted and it and every transitive producer are locally ready, none being deleted, with lineage inside its budget |
| `Readiness.CyclesAreNotReady` | internal/controller/composition.go:171-263 | At rest, whatever reaches a cycle is not ready |
| `Readiness.ReadinessIsUnique` | internal/controller/dataproduct_controller.go:114-277 | Two stores at rest with the same declarations and local states agree on readiness, even with cycles |
| `Readiness.QuiescenceIsRest` | internal/controller/dataproduct_controller.go:102-277 | In every run, a point with nothing queued, running, drifted or missed is at rest |
| `Convergence.RunAlike` | internal/controller/composition.go:36-263 | With composition, a run's outcome depends on declarations and on which products are ready, and on nothing else of any status |
| `Convergence.ComputedRight` | internal/controller/dataproduct_controller.go:114-277 | Where everything below a product is recorded as ready exactly when healthy, a run finds exactly that for the product itself, on any graph |
| `Convergence.RoundEstablishes` | internal/controller/dataproduct_controller.go:50-277 | In a round in which a product either has a whole run or at some point has nothing outstanding, whatever every run for it begun in the round achieves holds afterwards, in spite of older runs that read older stores |
| `Convergence.ReadinessConverges` | internal/controller/dataproduct_controller.go:50-277 | Once declarations and local states stop changing and reads succeed, after 64 such rounds every product is recorded as ready exactly when its declared graph is healthy, and stays so, whatever was recorded before |
| `Convergence.StatusesConverge` | internal/controller/dataproduct_controller.go:50-277 | After 65 such rounds every recorded status is what a run would compute and nothing in the store changes any more, even with cycles |
| `Fairness.EveryFairRunSettles` | internal/controller/dataproduct_controller.go:50-277 | Every infinite run with composition in which queued keys are taken, runs end and timers fire reaches, after the last change of a declaration or local state and the last failure, a point from which every recorded status is what a run would compute and nothing in the store changes, on any graph |
| `DirectRest.SettledDirect` | internal/controller/dataproduct_controller.go:170-277 | Without composition a settled product is ready exactly when it is locally ready, asks for no contract, and every input has a stored, ready producer of its namespace with the output |
| `DirectRest.DirectReadyIsHealthy` | internal/controller/dataproduct_controller.go:170-277 | Without composition, everything below a product that is ready at rest is usable, with or without cycles |
| `DirectRest.DirectHealthyIsReady` | internal/controller/dataproduct_controller.go:170-277 | Without composition, a product that reaches no cycle and below which everything is usable is ready at rest |
| `DirectRest.DirectReadinessIsUnique` | internal/controller/dataproduct_controller.go:170-277 | Without composition, stores at rest with the same declarations and local states agree on every product that reaches no cycle |
| `DirectRest.CyclesHaveTwoRests` | internal/controller/dataproduct_controller.go:170-277 | Without composition, a store of usable products has a resting store in which all of them are ready, and one in which exactly those that reach no cycle are |
| `DirectRest.RestIsUniqueWithoutCycles` | internal/controller/dataproduct_controller.go:170-277 | Without composition, a product of such a store can be at rest without being ready exactly when it reaches a cycle |
| `Watches.RequestsForDependency` | internal/controller/dataproduct_controller.go:50-99 | The requests are exactly the products that reach the changed one (its direct consumers without composition), each once, in textual order; none at all when the products cannot be listed |
| `Watches.ReverseInputs` | internal/controller/dataproduct_controller.go:66-74 | The reverse index lists for every producer exactly the products that name it |
| `Watches.Expand` | internal/controller/dataproduct_controller.go:79-92 | One round of the breadth-first search adds exactly the consumers not seen before, and keeps expanding only under composition |
| `LineageWalk.Walk.Visit` | internal/registry/lineage.go:274-291 | One activation on the object: deadline, cycle, depth with memoised height, memo, in that order, updating the maps in place |
| `LineageWalk.Walk.VisitOne` | internal/registry/lineage.go:304-352 | One iteration emits the edge, inspects the producer and rewrites the edge at its own index with what was learned |
| `LineageWalk.Walk.Read` | internal/registry/lineage.go:182-252 | A read happens at most once per product; deadline, product budget, absence, failure, identity, encoding, ports and metadata budget give the specified node |
| `LineageWalk.Observe` | internal/registry/lineage.go:116-148 | A whole trace through the object is the specified walk of its root |
| `LineageKeeps.VisitKeeps` | internal/registry/lineage.go:274-356 | Whatever fails below, nodes, products, finished products and emitted edges only grow, and heights of finished products never change |
| `LineageFacts.VisitFacts` | internal/registry/lineage.go:274-356 | Every emitted edge tells the truth about the books: its state is in the issues, its target is listed as it says, heights fall along resolved edges |
| `LineageLedger.VisitListed` | internal/registry/lineage.go:293-356 | Each product emits each of its inputs at most once, all at one depth, inside the edge budget |
| `LineagePaths.VisitTraced` | internal/registry/lineage.go:274-356 | Every edge is realised by a resolved path of its depth, every cycle edge closes a resolved path, every node is connected to the root |
| `LineageAccepted.EveryTraceIsSound` | internal/registry/ui/lineage.js:63-177 | For every graph and every pattern of missing, failed, oversized, ambiguous or late reads, any presentation of the walk satisfies all conditions of the browser's checker |
| `LineageDeclared.VisitDeclares` | internal/registry/lineage.go:304-352 | Every edge repeats a declared input of its consumer, with the evaluator's exact verdict on the product that was read |
| `LineageAccount.VisitAccounted` | internal/registry/lineage.go:274-356 | As long as nothing is missing, every finished product has emitted all its inputs and the edges are exactly counted |
| `LineageAccount.VisitMeasured` | internal/registry/lineage.go:182-252 | The retained bytes are the sum of the sizes of the products read, inside the metadata budget |
| `LineageComplete.CompleteExactlyWhenInspectable` | internal/registry/lineage.go:182-356 | With every read answered in time, the walk reports complete exactly when the reachable graph is closed, publishable, single-namespace, at most 63 edges deep and inside the product, edge and metadata budgets |
| `LineageComplete.CompleteIsInspectable` | internal/registry/lineage.go:182-356 | A complete walk read exactly the reachable products, and shows every declared input of each in exactly one resolved edge and nothing else |
| `Agreement.ControllerAgreesWithRegistry` | internal/registry/lineage.go:182-356 | Two independently written searches agree: the controller accepts a root whose reachable products are publishable exactly when the registry's walk is complete with every edge compatible |
| `TraceCheck.Tabulate` | internal/registry/ui/lineage.js:64-77 | One pass builds the adjacency lists and in-degrees, and stops exactly when a consumer has two depths |
| `TraceCheck.Reach` | internal/registry/ui/lineage.js:78-84 | The worklist finds exactly the nodes reachable over listed references |
| `TraceCheck.ReturnPath` | internal/registry/ui/lineage.js:85-94 | The search for a return path succeeds exactly when a resolved path leads back |
| `TraceOrder.Order` | internal/registry/ui/lineage.js:95-107 | The queue is full exactly when resolved edges form no cycle, and then bit k of a product is set exactly when some resolved path of k < 64 edges leads to it from the root, in spite of truncation and queue order |
| `TraceValid.ValidGraph` | internal/registry/ui/lineage.js:63-111 | Accepts exactly the traces whose graph satisfies the declarative conditions on depths, connection, cycles and paths |
| `TraceValid.ValidTrace` | internal/registry/ui/lineage.js:114-177 | Accepts exactly the sound traces: header, nodes, edges and graph |
| `TraceValid.AdmitsEveryWalk` | internal/registry/ui/lineage.js:114-177 | On any presentation of a registry walk, the checker answers true |
| `Bits.AdvanceBit` | internal/registry/ui/lineage.js:98-102 | Or-ing a shifted, 64-bit masked set moves every path length up by one and drops those of 64 or more |
| `Bits.TestBit` | internal/registry/ui/lineage.js:110-110 | Masking with one shifted bit tests exactly that bit |
| `Witness.Search.Visit` | internal/preflight/witness.go:25-69 | With memoised longest suffixes, an activation either memoises a suffix that keeps the chain under 64 steps or ends with a genuine closed chain of at most 64 steps or a genuine chain of at least 64 |
| `Witness.Search.VisitInputs` | internal/preflight/witness.go:44-65 | The loop keeps the longest genuine suffix over all producers in the bundle and skips the others |
| `Witness.GraphWitness` | internal/preflight/witness.go:10-94 | Without a deadline no code is given exactly when the bundle is acyclic with chains of at most 63 edges; every finding carries the first 64 steps of a genuine witness and points at the document of its first step |
| `Witness.SuffixBounds` | internal/preflight/witness.go:35-40 | No chain from a memoised key is longer than its suffix |
| `Findings.Report.AddDetail` | internal/preflight/report.go:180-228 | Counters are exact over everything ever found, the first 128 findings are displayed in order, valid means no error and complete means no finding |
| `Findings.CountersAccepted` | web/preflight-report.js:157-181 | Whatever was found, the browser accepts the counters exactly when at most 2^20 findings were counted |
| `Preflight.CheckInputs` | internal/preflight/graph.go:24-48 | The nested loops add exactly one finding per undeclarable or absent input, in document order |
| `Preflight.AllFindingsMean` | internal/preflight/graph.go:24-48 | The loops find an error exactly when some input leaves its namespace or does not match a present producer, and anything at all exactly when a producer is absent as well |
| `Preflight.CheckGraph` | internal/preflight/graph.go:12-63 | Without a deadline the report stays valid exactly when the bundle is inside the budgets with matching inputs, and unchanged exactly when every producer is present too |
| `Deployment.OfflineVerdictHolds` | internal/preflight/graph.go:12-63 | When the offline check finds nothing, the controller's search accepts every product of the bundle in every store that holds it, whatever else is stored |
| `Deployment.DeployedChain` | internal/preflight/graph.go:12-63 | Chains of the deployed bundle stay inside it and are chains of the textual graph that was checked |
| `Plan.ReviewOf` | internal/preflight/plan.go:9-74 | A plan exists exactly when every producer is present and nothing depends on itself; its order is the lexicographically least producer-first order and its edges are the declared inputs, sorted |
| `Plan.GreedyIsLeastOrder` | internal/preflight/plan.go:38-59 | Taking the least ready key at every step yields an order no other producer-first order precedes |
| `Plan.LeastOrderIsUnique` | internal/preflight/plan.go:38-59 | The order does not depend on how maps are iterated: there is only one least order |
| `Plan.StuckIsCyclic` | internal/preflight/plan.go:45-48 | When keys are left and none is ready, a producer is missing or there is a cycle |
| `PlanCheck.ValidPlan` | web/preflight-report.js:187-231 | Accepts exactly the plans whose order is a producer-first permutation of the products at positions of their own and whose edges are in bijection with the declared inputs |
| `PlanCheck.CountingCovers` | web/preflight-report.js:210-230 | Distinct in-range edges, as many as there are inputs, leave no input out |
| `PlanAccepted.BundlePlanIsSound` | web/preflight-report.js:187-231 | Every plan built for an admitted, complete bundle is accepted by the browser's check, against any report whose descriptors and features are those of the bundle |
| `PlanAccepted.PlanBundle` | internal/preflight/check.go:189-193 | A report gets a plan exactly when it is valid and complete; the nil plan never reaches it, and the plan is one the browser accepts |
| `Features.RequiredFeatures` | internal/preflight/report.go:129-139 | The report lists every feature of every product once, in increasing order |
| `Features.ValidFeatures` | web/preflight-report.js:142-156 | Accepts exactly known, increasing lists whose union is the report's own list |
| `Features.UnionIsSound` | web/preflight-report.js:142-156 | The union the report makes of sound product lists is accepted |
| `Declarations.DeclaredFeatures` | internal/preflight/check.go:251-283 | The list of a declaration's gate requirements is increasing and known, and holds exactly what the declaration asks for |
| `Declarations.DescriptorServed` | web/preflight-report.js:201-205 | Whatever the browser demands of a product's features is among what its declaration asks for |
| `Declarations.AdmissionMeans` | internal/preflight/check.go:103-184 | Nothing is found in a declaration whose name and identifier are free exactly when it is publishable |
| `Reading.ParseSource` | internal/preflight/input.go:110-225 | One source is read exactly when each of its documents decodes within the limits left by the sources before it; whatever stops it, the summary and position stay inside the report's bounds |
| `Reading.ReadSelected` | internal/preflight/input.go:52-107 | A selection is read exactly when every source and document can be within 32 sources, 4096 documents and 256 products; positions are in reading order and the summaries count them source by source |
| `Publishing.Admit` | internal/preflight/check.go:109-173 | One declaration is checked in the order namespace, names, metadata, schema, identity, user interface, preview, catalog, contract checks, and claims its name and identifier where the code does |
| `Publishing.AdmitAll` | internal/preflight/check.go:103-184 | Nothing is found in the whole selection exactly when all declarations are publishable under names and identifiers of their own, and then every one has its feature list at its position |
| `ReportCheck.Validate` | web/preflight-report.js:121-232 | Accepts exactly the reports whose sources, positions, feature lists, counters, findings, witnesses, descriptors and plan agree with each other |
| `BundleCheck.CheckSelected` | internal/preflight/check.go:56-210 | The report is complete only if the selection can be read and published, and without a deadline exactly then |
| `BundleCheck.CheckBundle` | internal/preflight/report.go:103-161 | The offline check end to end: without a deadline its report is accepted by the browser exactly when reading and admission of the selection object at most 2^20 times (one fewer when the bundle does not fit), with a deadline always when they object a little less often, and always when it is complete, which without a deadline it is exactly when the selection can be read and published and fits |
| `BundleCheck.ModerateIsAccepted` | internal/preflight/report.go:103-161 | Every selection on whose declarations the validators complain at most 4,000 times each stays inside the browser's bound |
| `BundleCheck.PastTheBound` | web/preflight-report.js:157-181 | A selection past the browser's bound: one product with 524,289 empty inputs, of each of which the schema validator reports both missing fields |
| `BundleCheck.PublishedHolds` | internal/preflight/graph.go:12-63 | Wherever a selection with a complete report is deployed, among any other products, the controller accepts every product of it |
| `Numbers.IntegerTokenIsExact` | web/descriptor.js:71-89 | A token of at most 2 MiB is accepted exactly when its exact value is an integer from 0 to 2^53-1, including negative zero, zero with any exponent, cancelled fractions and huge exponents, whatever the rounding of the exponent arithmetic |
| `Numbers.ShiftRight` | web/descriptor.js:77-84 | Moving the point left of k digits keeps an integer exactly when those digits are zeros |
| `FlatScan.Scan` | web/descriptor.js:317-345 | The loop over tokens accepts exactly when the specified stack machine does |
| `FlatScan.RunValue` | web/descriptor.js:317-345 | The tokens of a value leave the stack as it was, or the document is refused |
| `FlatScan.ScanIsExact` | web/descriptor.js:307-347 | On the tokens of any JSON value the scanner refuses exactly repeated decoded keys, nesting beyond 128, inexact numbers and unpaired surrogates |
| `Decoder.Cursor.ReadValue` | web/preflight-report.js:62-92 | The recursive method moves its cursor exactly as specified, or refuses |
| `Decoder.Decode` | web/preflight-report.js:44-98 | Accepts exactly when one value is read and nothing follows it |
| `Decoder.DecodeIsExact` | web/preflight-report.js:44-98 | On the tokens of any JSON value the recursive scanner refuses exactly repeated keys, depth beyond 64, more than 32 keys or 1024 items, non-integer tokens and unpaired surrogates |
| `Decoder.ScannersAgree` | web/preflight-report.js:44-98 | Inside the narrower limits both scanners accept or both refuse, exactly by whether some object repeats a decoded key |
| `Unicode.ValidUnicodeEscapes` | internal/jsoninput/unicode.go:7-46 | The index loop never reads past the end and decides as the specification on bytes, on any bytes at all |
| `Unicode.ScanAcceptsPairs` | internal/jsoninput/unicode.go:7-46 | On every document the scan accepts exactly when every surrogate escape in a string is half of an adjacent high-low pair |
| `Unicode.ScanAcceptsScalars` | web/descriptor.js:44-50 | The byte scan and the browser's check of decoded strings agree on every document |
| `Unicode.EveryEscapingIsPaired` | internal/jsoninput/unicode.go:7-46 | However a sequence of Unicode scalars is escaped, the scan accepts it |
| `Catalog.Project` | internal/catalog/catalog.go:215-290 | The loops produce exactly the specified nodes in identity and port order, or refuse the catalog when an identity is invalid or taken |
| `Catalog.ProjectOutputs` | internal/catalog/catalog.go:254-286 | The inner loop takes two fresh identities per port, or refuses |
| `CatalogAccepted.ProjectionIsAccepted` | internal/dataspace/source.go:54-131 | Every catalog projected from admitted products is accepted by the independent reader |
| `CatalogAccepted.PublishedCatalogIsIndexed` | internal/catalog/catalog.go:215-290 | The catalog published for admitted products, whatever order they come in, is accepted by the reader and describes each of them in a dataset of its own |
| `CatalogAccepted.ProductsDescribed` | internal/catalog/catalog.go:227-288 | Every product has exactly one dataset, which describes it and its outputs in the order of their names |
| `CatalogAccepted.SpecsAreFresh` | internal/catalog/catalog.go:226-288 | Projection only adds identities nothing else carries, one service per distribution |
| `Dataspace.IndexCatalog` | internal/dataspace/source.go:54-131 | Accepts exactly the specified catalogs and indexes each dataset under its identity |
| `Dataspace.AcceptedIsBijective` | internal/dataspace/source.go:54-131 | In an accepted catalog all identities are distinct and distributions and services are in bijection |
| `HttpSource.SlotsAndScrapes` | internal/httpsource/service.go:176-258 | In every interleaving at most four queries and one probe hold slots, and a completed scrape shows readiness and time of one observation |
| `HttpSource.OnlyObservationsChangeGauges` | internal/httpsource/service.go:236-249 | Busy and cancelled attempts never change the gauges or the observations |
| `HttpSource.StepKeeps` | internal/httpsource/service.go:176-258 | Every step keeps slots bounded, the observation boundary exclusive and the gauges paired |
| `Order.SortSorts` | internal/preflight/plan.go:61-72 | Sorting by a textual key sorts |
| `Order.SortedUnique` | internal/preflight/plan.go:61-72 | When equal keys mean equal elements, there is only one sorted arrangement, so an unstable sort cannot differ |

## Left out

- Engine, connector and contract observers (CNPG, Percona, ArangoDB, Crossplane, Deployment): each is one local observation per product.
- HTTP handlers, headers, request parsing, release flags, signals and file access: no property beyond their branches.
- Condition messages and transition times.
- Field-by-field checks of descriptors, health observations, owners, labels and addresses in the browser, and the closed-shape checks of JSON objects.
- Characters of JSON text between tokens: the scanners are modelled on tokens, the library parser and regular expressions that cut them are not.
- YAML decoding, admission schemas and CEL rules of the offline check: only their outcomes per document.
- Source lines, columns, field positions, paths and messages of findings, and the bounded legacy diagnostics.
- How many bytes an encoded report has: whether it fits is a parameter.
- Paging and byte counters of the catalog's product scan; what they guarantee is `CatalogAccepted.Admitted`.
- Export of dataspace offers, policies and selections.
- Response contents of the HTTP source; only the class of each result is modelled.
- TraceValid.ValidTrace: the checks on single fields of a node or edge (labels, addresses, owners, health) have one shape each and no bearing on the graph; names, references, states, depths and counters are checked.
- ReportCheck.Validate: the checks on lines, columns, paths and messages of a finding, and `preview` on each descriptor, are left to the parser's shape checks; positions are compared as pairs of numbers.
- PlanCheck.ValidPlan: `preview` on each descriptor is left out here as in `ReportCheck.Validate`.
- WorkQueue.NoLostWakeups: with composition off nothing is promised to a consumer passed over by a failed listing, because the promise is false (`LostWakeup.FailedListingLosesWakeup`).
