# Composable data stack: a verified model

The command line tool compiles a profile, written as YAML, into a merged profile, a plan,
and a Compose file or a Helm chart; it fetches and updates profiles from upstream sources,
waits for a started stack, and masks secrets in what it prints. This project models the
parts of it whose correctness spans many steps or functions, and proves what they promise.

| file | what it models |
|---|---|
| `SecretLeak.dfy`, `StreamRedaction.dfy`, `LeakScan.dfy` | redaction of secrets in one text and in a stream cut into writes and flushes; the scan of generated files |
| `Overlay.dfy`, `Extends.dfy` | merging of profiles with provenance, and the recursive `extends` resolution |
| `Graph.dfy`, `Startup.dfy` | the dependency check, and the start-up graph of a rendered Compose file |
| `Cidr.dfy`, `Cluster.dfy`, `Egress.dfy`, `NetworkPolicy.dfy`, `WaitGates.dfy` | NetworkPolicy generation and the wait-gate check, read against the meaning of such policies in a cluster |
| `Environment.dfy` | container environments translated from Compose to Kubernetes |
| `Getter.dfy` | the get and update protocol for tracked files |
| `Diff.dfy` | the structural difference of two profiles |
| `Defaults.dfy`, `Interpolation.dfy` | schema defaults, and the two `${...}` interpolators |
| `Poller.dfy`, `Composer.dfy`, `Resolver.dfy` | the readiness loop, and the wiring of a new module into a profile |
| `Document.dfy`, `Text.dfy` | parsed documents, service names, list and string vocabulary |

Procedures that change state step by step are classes and methods with loops, each proved
against a specification function; what the program promises is then proved about those
functions. Documents are values of a JSON-like datatype, paths are sequences of steps, files
are finite maps, and a recorded hash stands for the content it was computed from.

## Where the code does less than it seems to

Each of these is proved, with the exact condition under which the code does what is expected.

- Flushing the redacting stream can cut through a complete secret that ends as some secret
  begins, and let it through (`StreamRedaction.FlushLeaksOverlap`). Among secrets of which none
  lies inside another, the stream is right exactly when no two overlap.
- Of two names with the same value, redaction reports only the first
  (`SecretLeak.SecondNameUnreported`); which names are reported is stated exactly
  (`SecretLeak.HitsIff`, `SecretLeak.HitsAreOccurrences`).
- Start-up of a rendered file can get stuck for ever: rendering never checks that what a
  template awaits can happen (`Startup.StallingTemplate`). It does not get stuck exactly when
  every wait of an ungated service is for an ungated one that can get as far as awaited
  (`Startup.RenderedNeverStuckIff`).
- A wait gate on an endpoint of another module passes the check whatever its port
  (`WaitGates.WrongPortGate` gives one that can only hang), although the policies let it through
  exactly when a contract between the modules opens the pod port behind it
  (`WaitGates.NamedGateConnectsIff`). Two workloads `w` and `id-w` of module `id`, a Deployment
  and a StatefulSet say, get one full name and pod label, and share what either declares
  (`WaitGates.NamesakeSharesEgress`, with the exact condition in
  `WaitGates.FlaggedGateHangsIff`).
- An escaped reference `$${CDS_X}` in a container environment is translated like one that is
  not escaped (`Environment.EscapedRefDiffers`). The translated environment means what it meant
  to Compose exactly where there is none (`Environment.EnvironmentKeepsMeaningIff`).
- A repeated update can report a conflict the first did not, when upstream turned a tracked
  file into a directory after the file was deleted locally (`Getter.RemovalsCanChange`), and
  only then (`Getter.SecondUpdateRemovalsIff`).
- The comparison of two profiles silently drops every entry that another with the same id
  follows (`Diff.EarlierEntryHidden`). Nothing is hidden exactly when entries with the same id
  are alike (`Diff.HidesNothingIff`). Comparing a profile with its overlay merge reports
  removals when the overlay's spec is null (`Diff.NullSpecRemoves`), and exactly when it is no
  mapping and the base's holds more than modules (`Diff.MergeDocsRemovesIff`).
- The planner takes a text for one expression from its two ends. With a closing brace in
  between, as in `${secrets.a}b}`, it reads the alias `a}b` where the renderer reads `a`
  (`Interpolation.CutAliasDiffers`). With a second opening, as in `${a${b}`, it makes a text of
  a value that the renderer leaves as it is (`Interpolation.SecondOpeningRetypes`). Exactly when
  neither happens is stated by `Interpolation.EnginesAgreeIff`. The planner's own description
  promises substitution of each `${...}`; the model follows the code.
- Merging is not associative (`Overlay.ReopenedMapping`); when it is, and when it is
  idempotent, is stated exactly (`Overlay.MergeDocsAssociativeIff`,
  `Overlay.MergeDocsIdempotentIff`).
- A contract reference names its provider only if that module's id has no dot
  (`Resolver.ProviderIff`), and a contract bound later can take an earlier one's place in the
  configuration (`Composer.SamePlaceOverwritten`, with the exact condition in
  `Composer.ContractsWired`).

## Hypotheses

Results about the stream assume single-line candidates that keep clear of the redaction marker,
which a caller can check up front. Results about the rendered start-up graph assume that
rendering leaves each template under its service name, that these names are distinct, that each
module's own waits stay inside it without a cycle, and that the module graph has none; that
waits can be met is no hypothesis there but the condition of the result. Of the container
runtime they assume that a service with an active healthcheck keeps running and never exits,
that only a healthcheck written in the file makes a service healthy, and that an exit is a
successful one. Results about policies take the meaning of a NetworkPolicy as written in
`Cluster.dfy`: additive allow rules, default deny in each direction a policy governs. Results
about updates assume that a source version is a tree of files, none of them below another. The
environment translation is proved for values in which every dollar sign belongs to a reference
or a `$$` escape.

## Model

| member | source | states |
|---|---|---|
| `SecretLeak.RedactText` | cli/secret_leak.py:142-153 | The loop over the candidates computes the one-shot redaction and exactly the names whose value was seen while rewriting. |
| `SecretLeak.HitsIff` | cli/secret_leak.py:148-153 | A name is reported exactly when, once the candidates before it are replaced, one of its values is still in the text. |
| `SecretLeak.HitsAreOccurrences` | cli/secret_leak.py:148-153 | Where no value overlaps or holds another or the marker, the names reported are exactly those of the values that occur in the text, of equal values the first. |
| `SecretLeak.SecondNameUnreported` | cli/secret_leak.py:148-153 | Of two names with the same value only the first is ever reported. |
| `SecretLeak.RedactSplit` | cli/secret_leak.py:142-153 | A cut no candidate straddles can be made before redacting: both the text and the hits of the whole are those of the parts. |
| `SecretLeak.NoNewStraddle` | cli/secret_leak.py:142-153 | Rewriting one value on both sides of a cut cannot make another value lie across it, as long as that value keeps clear of the marker. |
| `SecretLeak.RedactedTextHoldsNoCandidate` | cli/secret_leak.py:142-153 | No candidate that keeps clear of the marker occurs anywhere in the redacted text, whatever the order and number of the other candidates. |
| `SecretLeak.RedactIsMasked` | cli/secret_leak.py:142-153 | Replacing value by value, longest first, equals one left-to-right pass that masks the longest candidate at each position. |
| `SecretLeak.SortedByLengthSorts` | cli/secret_leak.py:125-139 | The candidate list is a permutation of the expanded secrets with the longest first. |
| `SecretLeak.ExpandedIff` | cli/secret_leak.py:131-139 | Searched for are exactly the secrets and, of those with a newline, each stripped line of at least eight characters. |
| `SecretLeak.FirstLine` | cli/secret_leak.py:135 | Lines are cut at each line break and nowhere else. |
| `SecretLeak.NoSecretSurvives` | cli/secret_leak.py:125-153 | Neither a declared secret nor any stripped long line of a multi-line one is left in text redacted with the candidate list built from the secrets. |
| `StreamRedaction.RedactingStream.Write` | cli/secret_leak.py:182-188 | One write appends to the buffer and hands on everything up to the last newline, as the state machine says. |
| `StreamRedaction.RedactingStream.Flush` | cli/secret_leak.py:190-197 | One flush hands on all of the buffer but the longest tail that a candidate could begin with. |
| `StreamRedaction.RedactingStream.Finish` | cli/secret_leak.py:199-203 | Finishing hands on the rest and empties the buffer. |
| `StreamRedaction.RedactingStream.Emit` | cli/secret_leak.py:214-219 | A non-empty chunk reaches the sink redacted, its hits are added, and nothing else changes. |
| `StreamRedaction.RedactingStream.PartialSecretSuffix` | cli/secret_leak.py:205-212 | The nested search over candidates and sizes returns the held-back length of the buffer. |
| `StreamRedaction.HeldBackIsLongest` | cli/secret_leak.py:205-212 | The length held back is that of the longest tail of the buffer that is a proper prefix of some candidate. |
| `StreamRedaction.RunConservesText` | cli/secret_leak.py:182-203 | After any run of writes and flushes, what was handed on plus the buffer is exactly what was written, in order. |
| `StreamRedaction.RunCutsSealed` | cli/secret_leak.py:182-203 | After any run, no candidate can lie across a boundary between handed-on chunks, however the text goes on. |
| `StreamRedaction.StreamEqualsOneShot` | cli/secret_leak.py:156-219 | For single-line candidates that overlap neither each other nor the marker, output and hits after finishing equal one-shot redaction of the whole input, for every way of splitting it into writes and flushes. |
| `StreamRedaction.FinishedStreamReports` | cli/secret_leak.py:156-219 | After any run of the stream and `Finish`, under the same hypotheses and without containment, the sink holds the redacted text and the hits are exactly the names of the values that occur in what was written. |
| `StreamRedaction.FlushLeaksOverlap` | cli/secret_leak.py:190-197 | Whenever one candidate ends as one begins, writing it and flushing lets the whole value through, although one-shot redaction masks it. |
| `StreamRedaction.StreamAgreesIffNoOverlap` | cli/secret_leak.py:156-219 | Among candidates of which none lies inside another, the stream agrees with one-shot redaction on every input exactly when no two overlap. |
| `LeakScan.FindOccurrences` | cli/secret_leak.py:88-93 | The while loop lists every non-overlapping occurrence of a value with its line. |
| `Text.FindIsFirst` | cli/secret_leak.py:90 | No occurrence precedes the index found, and none is missed. |
| `LeakScan.FindSecretLeaks` | cli/secret_leak.py:84-94 | All occurrences of all values, none lost or added, sorted by line and then by name. |
| `LeakScan.LeakNames` | cli/secret_leak.py:84-94 | A leak carries a name exactly when that name's value occurs in the text. |
| `LeakScan.LineCountsNewlines` | cli/secret_leak.py:91 | The line of an occurrence is one more than the number of newlines before it. |
| `LeakScan.FoundInTurn` | cli/secret_leak.py:88-93 | The search for a value reports its first occurrence, with its line, and goes on behind it, until there is none. |
| `LeakScan.ReportedLineIsFirst` | cli/secret_leak.py:97-122 | A finding is on the line of an occurrence of a value of that name, and no such occurrence is on an earlier one. |
| `LeakScan.CheckGeneratedText` | cli/secret_leak.py:97-122 | One finding per name, on the earliest line that holds its value, in the order of lines and names; and no finding exactly when no value occurs in the generated text. |
| `Overlay.Merger.MergeValue` | cli/overlay.py:27-58 | The recursive merge returns the merged value and records exactly the paths, with exactly the sources, that a path-by-path description of the two values predicts. |
| `Overlay.Merger.MergeModules` | cli/overlay.py:386-418 | The module list by id, base order first, and the record of every module and of every path inside modules both sides have. |
| `Overlay.Merger.MergeProfileDocs` | cli/overlay.py:121-185 | A whole-document merge: the merged document or the shape error, and the resulting credit of every path. |
| `Overlay.MergeAt` | cli/overlay.py:27-58 | What is at any path of a merge, in terms of what the two documents have there. |
| `Overlay.LastDefinitionWins` | cli/overlay.py:27-58 | In a merge of any number of values a path holds what the last one that says anything about it says, wherever that says no mapping, whatever the earlier ones hold there. |
| `Overlay.MergeDocsAt` | cli/overlay.py:121-185 | Outside the module list a merge of whole documents has at any path what merging the two documents as values has there, whatever their specs are. |
| `Overlay.LastDocumentWins` | cli/overlay.py:121-185 | In a fold of any number of profile documents a setting outside the module list holds what the last document that says anything about it says, wherever that says no mapping, whatever the earlier ones hold there. |
| `Overlay.ModuleIsFold` | cli/overlay.py:386-418 | A module of such a fold is there exactly when some document lists it, and is the fold of its versions in document order. |
| `Overlay.LastVersionWins` | cli/overlay.py:386-418 | Inside a module a path holds what the last version of the module that says anything about it says, wherever that says no mapping, whatever the earlier ones hold there. |
| `Overlay.MergeAbsorbsIff` | cli/overlay.py:27-58 | Merging under a document changes nothing exactly when that document already covers every key. |
| `Overlay.MergeAssociativeIff` | cli/overlay.py:27-58 | Three values can be merged in either grouping exactly when no mapping is hidden by a non-mapping and then reopened without its keys. |
| `Overlay.MergedModulesById` | cli/overlay.py:386-418 | Merged modules keep unique ids, base order first and new ids after, and each is the merge of its two versions. |
| `Overlay.MergedModulesAssociativeIff` | cli/overlay.py:386-418 | Module lists can be merged in either grouping exactly when their modules can, id by id. |
| `Overlay.MergeKeepsShape` | cli/overlay.py:121-185 | Merging two documents with sound module lists succeeds and yields a mapping spec with a sound module list. |
| `Overlay.MergeDocsIdempotentIff` | cli/overlay.py:121-185 | A document merged with itself is unchanged exactly when its spec is a mapping that lists modules. |
| `Overlay.MergeDocsAssociativeIff` | cli/overlay.py:121-185 | Three documents with mapping specs can be merged in either grouping exactly when the rest and the modules group freely. |
| `Overlay.ReopenedMapping` | cli/overlay.py:121-185 | They do not when one field is a non-empty mapping, then anything else, then an empty mapping: the two groupings differ for every such triple. |
| `Overlay.TwoDocumentProvenance` | cli/overlay.py:35-58 | From an empty record a path is recorded exactly when its parent is a mapping on both sides, credited to the overlay exactly when the overlay defines it and it is no such mapping; a module id is credited to the overlay exactly when the overlay lists it. |
| `Overlay.TextDeterminesPath` | cli/overlay.py:39-47 | Paths whose keys hold no dot and no bracket, and whose module ids hold no opening bracket, are recorded under texts that differ whenever the paths do. |
| `Overlay.DottedKeyShares` | cli/overlay.py:39-47 | A key with a dot is recorded under the same text as the two keys it looks like. |
| `Extends.ComposeFile` | cli/overlay.py:215-272 | The recursive procedure, with its stack, terminates on every finite set of files and computes the specified outcome. |
| `Extends.MergeParentsAndChild` | cli/overlay.py:275-383 | The loop over parents folds them left to right, stops at the first error with its code, and merges the child last. |
| `Extends.FileOutcome` | cli/overlay.py:215-320 | Each code for what is wrong with the file itself: E113, E020, E001, E010, E110, E111; and a document without parents is its own result. |
| `Extends.FirstFailingParent` | cli/overlay.py:320-384 | The first parent that leads outside, is missing, fails itself or cannot be merged ends the resolution with E111, E112, its own code or E093. |
| `Extends.CycleReportIsReal` | cli/overlay.py:215-252 | An E113 always comes with a chain of references that comes back to a file on it. |
| `Extends.SuccessMeansNoRepeat` | cli/overlay.py:215-252 | After a success no chain of references from the file repeats a file or meets the stack. |
| `Extends.ResolvesIffNoCycle` | cli/overlay.py:215-383 | With well-formed references and module lists, resolution succeeds exactly when no cycle can be reached, and otherwise reports E113. |
| `Extends.SuccessIsPlainFold` | cli/overlay.py:275-383 | A successful result is the stack-free left-to-right fold of merges, at every unfolding depth past the number of files not yet visited. |
| `Extends.FoldLeftIsFold` | cli/overlay.py:275-383 | On documents that are all there, that fold is the fold of whole-document merges. |
| `Extends.NoExtendsLeft` | cli/overlay.py:275-383 | A resolved document holds no non-null `extends`. |
| `Graph.CycleSearch.Dfs` | cli/graph.py:36-55 | One search from a node keeps the visiting set equal to the path walked, reports only real cycles, and while nothing is reported finishes nodes after their dependencies. |
| `Graph.CheckReferences` | cli/graph.py:12-31 | An unknown or self dependency is reported exactly where there is one. |
| `Graph.ValidateDependencyGraph` | cli/graph.py:7-60 | The check is clean exactly when references are sound and the graph of known ids has no cycle; a cycle is reported exactly when there is one; otherwise the finishing order is a topological order. |
| `Graph.AcyclicIffOrdered` | cli/graph.py:33-58 | A finite graph has no cycle exactly when it has a topological order. |
| `Startup.RewrittenWaits` | cli/renderer.py:1645-1666 | Rewriting names keeps each wait, on the renamed service, with a condition it was declared with. |
| `Naming.PrefixOnce` | cli/utils.py:43-47 | A rendered name is the module's or begins with its prefix, which is put there once and only where it is missing. |
| `Startup.RenderedService` | cli/renderer.py:1645-1666 | A rendered service keeps its template's healthcheck and gate and has exactly its waits, in the list form each for a start. |
| `Startup.LastConditionCounts` | cli/renderer.py:1645-1666 | Of several waits for one service the last says the condition. |
| `Startup.ComposeFile.AddCrossModuleDependencies` | cli/renderer.py:1893-1961 | The nested loops over modules, services and awaited services compute the linked file. |
| `Startup.LinkedDependencies` | cli/renderer.py:1893-1961 | Linking adds exactly the cross-module edges, all towards ungated services with an active healthcheck, each as a wait for health, and changes no other wait. |
| `Startup.LinkedWaitIff` | cli/renderer.py:1893-1961 | Told from the services' own fields: exactly the ungated services with a test in an enabled healthcheck, of the modules depended on, are awaited, each for health, and all other waits stay as they were. |
| `Startup.RenderedGraphAcyclic` | cli/renderer.py:1645-1961 | An acyclic module graph, acyclic closed modules and distinct service names give an acyclic rendered start-up graph. |
| `Startup.LinkedWaitsMeetable` | cli/renderer.py:1893-1961 | Linking keeps every wait of an ungated service meetable; in a soundly rendered file it also makes none meetable that was not. |
| `Startup.NeverStuckIff` | cli/renderer.py:1893-1961 | Start-up of any set of services never gets stuck, that is in every state of every run some step is enabled while an ungated service is left to start, exactly when every wait of an ungated service can be met and no ungated services wait for each other. |
| `Startup.RunsComplete` | cli/renderer.py:1893-1961 | Then every run can be continued to one in which all ungated services have started. |
| `Startup.RenderedNeverStuckIff` | cli/renderer.py:1645-1961 | For a soundly rendered file start-up of the linked file never gets stuck exactly when every wait its templates declare can be met: no ungated service awaits a gated one, the health of one without an active healthcheck, or the completion of one that has one. |
| `Startup.StallingTemplate` | cli/renderer.py:1645-1666 | A module whose service awaits the health of another that has no healthcheck meets all other conditions, and its start-up gets stuck. |
| `Cidr.SubnetIffContained` | cli/k8s_renderer.py:1979-1988 | The prefix comparison accepts an exception exactly when every address of it lies in the block. |
| `Cidr.HostNetworkHoldsOnlyIt` | cli/k8s_renderer.py:1934 | An address written as a host destination becomes a block holding that address only. |
| `Cidr.InIffSharedPrefix` | cli/k8s_renderer.py:2063-2086 | An address lies in a block exactly when it shares the first `len` of its 32, or 128, bits with the base. |
| `Cidr.TwoBlocks` | cli/k8s_renderer.py:2063-2086 | 10.0.0.0/8 holds exactly the addresses that begin with 10, and an IPv6 block of length 120 exactly 256. |
| `Egress.ParseEgressEntry` | cli/k8s_renderer.py:1891-2034 | An entry is accepted exactly when its destination, exceptions, protocol and ports are acceptable, and then normalized as specified. |
| `Egress.AcceptableIff` | cli/k8s_renderer.py:1891-2034 | An entry is accepted exactly when it has known keys only, one of host and block, exceptions inside, TCP, UDP or SCTP if a protocol, and ports from 1 to 65535 if any. |
| `Egress.NormalizedMeans` | cli/k8s_renderer.py:1891-2034 | What is accepted opens the block written, less the exceptions written, on exactly the ports written, over TCP where no protocol is. |
| `Egress.ExceptionsInsideBlock` | cli/k8s_renderer.py:1979-1989 | Every address of an accepted exception lies in the block of the entry. |
| `Egress.PortsNeverEmpty` | cli/k8s_renderer.py:1991-2034 | An accepted entry never has an empty port list, and every listed port is between 1 and 65535 under a known protocol. |
| `Egress.RuleAdmitsIffCovered` | cli/k8s_renderer.py:2052-2086 | The rendered rule admits TCP to an address and port exactly when the coverage test says so. |
| `NetworkPolicy.SummarizeWorkload` | cli/k8s_renderer.py:2138-2177 | The surface of a workload says exactly which pod ports it exposes and which Service port leads to which pod port. |
| `NetworkPolicy.WorkloadSurfaces` | cli/k8s_renderer.py:2138-2177 | One such surface per enabled workload, in order. |
| `NetworkPolicy.SurfaceIff` | cli/k8s_renderer.py:2138-2183 | A pod port is on the surface exactly when some declared port has it as its target, or without a target as its own number; the map leads from the declared numbers to these. |
| `NetworkPolicy.EnabledIff` | cli/k8s_renderer.py:2138-2150 | Exactly the enabled workloads are looked at, in order. |
| `NetworkPolicy.RemappedPortsInScope` | cli/k8s_renderer.py:2365-2432 | Every pod port the provider maps a contract's Service port to is in the port scope of an edge for that contract. |
| `NetworkPolicy.RemappedPortConnects` | cli/k8s_renderer.py:2365-2432 | Without custom or declared rules, a pod of the consumer reaches a pod of the provider on every pod port the provider maps the binding's Service port to. |
| `NetworkPolicy.PortScopeNeverEmpty` | cli/k8s_renderer.py:2397-2432 | A port scope, where there is one, names a port, so that no rule is left open by an empty list. |
| `NetworkPolicy.PortScopeIff` | cli/k8s_renderer.py:2365-2432 | A port scope admits exactly the pod ports behind the contract's Service port, told from the workloads' own declarations: that number itself when nothing maps it, and without a port all that is exposed, or everything when nothing is. |
| `NetworkPolicy.DerivedIffJustified` | cli/k8s_renderer.py:2230-2256 | An edge is derived exactly when some binding or proxy route of a module justifies it. |
| `NetworkPolicy.EdgesRunBetweenModules` | cli/k8s_renderer.py:2230-2256 | No edge leads from a module to itself, or from or to one that is not in the plan. |
| `NetworkPolicy.RouteContractIff` | cli/k8s_renderer.py:2435-2510 | A route leads to the http-service it names, and anything but a number from 1 to 65535, or digits, counts as no port. |
| `NetworkPolicy.EdgeBook.RecordBindings` | cli/k8s_renderer.py:2234-2246 | Both adjacency maps hold exactly the binding edges added so far, with W128 for each edge no port limits. |
| `NetworkPolicy.EdgeBook.RecordRoutes` | cli/k8s_renderer.py:2435-2510 | Both adjacency maps hold exactly the route edges added so far, with W129 for each route that yields none. |
| `NetworkPolicy.EdgeBook.DeriveEdges` | cli/k8s_renderer.py:2230-2256 | After both passes the maps hold exactly the derived edges, with the warnings of all modules in order. |
| `NetworkPolicy.SilentIffFullyScoped` | cli/k8s_renderer.py:2230-2256 | No W128 or W129 is raised exactly when every binding edge is limited to ports and every route yields an edge. |
| `NetworkPolicy.UnscopedIff` | cli/k8s_renderer.py:2234-2246 | W128 is raised for exactly the contracts bound to another module of the plan that have no port, where that module exposes none. |
| `NetworkPolicy.UnderivedIff` | cli/k8s_renderer.py:2435-2510 | W129 is raised for exactly the routes of a reverse proxy that name no contract, no http-service of another module, or one of the plan's for which no port is known. |
| `NetworkPolicy.ModulePolicy` | cli/k8s_renderer.py:2259-2321 | A module's policy selects its pods and holds exactly the rules its edges, openings, custom and declared rules call for. |
| `NetworkPolicy.NetworkPolicyManifests` | cli/k8s_renderer.py:2193-2361 | One policy per module, then one per workload with declared egress, each with exactly its rules, and exactly the warnings of the derivation. |
| `NetworkPolicy.ModuleReachIffEdge` | cli/k8s_renderer.py:2193-2361 | Without custom or declared rules, a pod of one module reaches a pod of another on a port through both policies exactly when a justified edge between them has that port in scope, or has no scope. |
| `NetworkPolicy.ReachIffWired` | cli/k8s_renderer.py:2193-2432 | A pod port that a module exposes is reached from another one exactly when that one consumes, or routes to, a contract whose port opens it, told from the workloads' own declarations. |
| `NetworkPolicy.RemapReach` | cli/k8s_renderer.py:2162-2181 | A binding to a Service port that is remapped reaches the pod port behind it and not the Service port itself. |
| `NetworkPolicy.ReachesDnsOnly` | cli/k8s_renderer.py:1698-1710 | Outside the release a pod reaches exactly the cluster's DNS pods, on port 53 over TCP and UDP. |
| `NetworkPolicy.SameModuleConnects` | cli/k8s_renderer.py:2261-2277 | Pods of one module reach each other on every port, whatever else is declared. |
| `NetworkPolicy.OpeningsAddNoReach` | cli/k8s_renderer.py:2267-2272 | Changing Service types alone, to NodePort, LoadBalancer or back, changes no reach between modules. |
| `NetworkPolicy.OutsideReachIffOpening` | cli/k8s_renderer.py:2267-2272 | From outside the release exactly the TCP ports behind a module's NodePort and LoadBalancer Services are let in. |
| `NetworkPolicy.ExternalReachIffDeclared` | cli/k8s_renderer.py:2291-2361 | A pod reaches an outside address over TCP exactly through an egress entry declared for its module or its own workload. |
| `NetworkPolicy.CustomRulesAdd` | cli/k8s_renderer.py:2273-2321 | A module's custom rules let through what they say for its pods, in either direction, and change nothing else. |
| `WaitGates.FindAllowedHosts` | cli/k8s_renderer.py:2916-2968 | The three loops collect the hosts a module's gates may name: its own rendered Services, the hosts of its bindings, and the Services its routes lead to. |
| `WaitGates.AllowedByNameIff` | cli/k8s_renderer.py:2916-2968 | A host is allowed by name exactly when it is a Service of the module or an endpoint that a binding or a route of the module gives. |
| `WaitGates.BoundHostIff` | cli/k8s_renderer.py:2916-2968 | A binding to another module of the plan gives exactly the host it carries. |
| `WaitGates.RouteTargetIff` | cli/k8s_renderer.py:2916-2968 | A route gives exactly the chart's name of the Service, or else the host, of the http-service of another module that it names. |
| `WaitGates.NamedGatePasses` | cli/k8s_renderer.py:2985-2986 | A gate on an endpoint of another module is never flagged, whatever its port. |
| `WaitGates.CheckWaitGates` | cli/k8s_renderer.py:2968-3029 | E152 is raised for exactly the gates of running workloads that no host name, entry or custom rule lets pass. |
| `WaitGates.FlaggedMeans` | cli/k8s_renderer.py:2968-3029 | Flagged are exactly the gates of running workloads whose host is not allowed and whose address and TCP port no entry for the module or workload, and no block of a custom rule, covers. |
| `WaitGates.NamedGateConnectsIff` | cli/k8s_renderer.py:2985-2986 | Without custom or declared rules, the connection to the pod port behind the gate's port is let through exactly when a binding or route between the two modules has a port that opens this pod port, as one without a port or with the gate's own does. |
| `WaitGates.WrongPortGate` | cli/k8s_renderer.py:2985-2986 | A gate on the host of a bound contract, but on another of the Service ports behind it, passes the check, and the policies admit no connection to the pod port it waits for. |
| `WaitGates.PassingGateConnects` | cli/k8s_renderer.py:2985-2998 | A gate on an IP that passes through a declared entry or custom rule is admitted by a policy of its own pod. |
| `WaitGates.FlaggedGateHangsIff` | cli/k8s_renderer.py:2985-2998 | Without custom rules, a gate on an outside IP that does not pass is admitted by no policy of its pod, exactly unless another workload of the module is rendered under the same Service name and declares the address. |
| `WaitGates.NamesakeSharesEgress` | cli/k8s_renderer.py:2985-2998 | With workloads `w` and `id-w` in one module, a gate of `w` on an address only the other declares is flagged, and yet let through. |
| `Environment.TranslateEnv` | cli/k8s_renderer.py:1016-1061 | The list is a header with one secret entry per referenced variable, each once and sorted by name, and nothing else, followed by the translated pairs that are not themselves such variables. |
| `Environment.RefsIff` | cli/k8s_renderer.py:1046 | The variables a text refers to are exactly those it holds in the form of a reference, wherever that is. |
| `Environment.ListFormSame` | cli/k8s_renderer.py:1023-1032 | A list of `KEY=value` texts gives the same pairs as the mapping it stands for. |
| `Environment.LastPairDecides` | cli/k8s_renderer.py:1034-1045 | Of pairs with one key the last decides: nothing for null, `true` and `false` for booleans, and any other text as it is. |
| `Environment.RefRewritten` | cli/k8s_renderer.py:1046-1047 | A reference becomes a Kubernetes expansion of the same variable, and the rest of the text is translated behind it. |
| `Environment.OtherTextStays` | cli/k8s_renderer.py:1046-1047 | Text without a dollar sign stays as it is, in the translation and in both systems. |
| `Environment.TranslationKeepsMeaningIff` | cli/k8s_renderer.py:1046-1047 | A translated text of references and `$$` escapes expands in Kubernetes to what Compose would have interpolated, exactly when no escape stands right before the braces of a reference. |
| `Environment.EscapedRefDiffers` | cli/k8s_renderer.py:1046-1047 | Of every text that begins with an escape and the braces of a reference, `$${CDS_X}`, Compose makes one that begins with `${`, and Kubernetes, once it is translated, one that begins with `$(`. |
| `Environment.EnvironmentKeepsMeaningIff` | cli/k8s_renderer.py:1016-1061 | For every assignment of secret values, evaluating the list in order gives a referenced secret its value, and any other key the text Compose gives it exactly when that text holds no such escaped reference. |
| `Environment.ReferencesDefinedEarlier` | cli/k8s_renderer.py:1049-1061 | Every reference in a translated value has its entry in the header, and no later entry redefines it. |
| `Getter.Workspace.FindConflicts` | cli/getter.py:1427-1446 | The destinations that exist and differ from what would be copied, in order. |
| `Getter.Workspace.WriteActions` | cli/getter.py:1449-1468 | Files are copied in order up to the first obstacle or failure, through links to directories among the parents, while a link at the destination gives way to the file. |
| `Getter.Workspace.FetchProfile` | cli/getter.py:167-226 | A dry run changes nothing; without force a conflict changes nothing; otherwise files are copied and, if all were, the entry is recorded afresh. |
| `Getter.Workspace.JudgeActions` | cli/getter.py:391-433 | The loop sorts the planned files into updates, skipped and conflicts by the three-way comparison, and collects the hashes to record. |
| `Getter.Workspace.ReportRemoved` | cli/getter.py:538-598 | Every tracked file the source no longer has is reported once, with its verdict, within the selected categories. |
| `Getter.Workspace.UpdateProfile` | cli/getter.py:314-484 | The disk after an update, and a report that a dry run and a real run agree on; a dry run leaves the disk as it was. |
| `Getter.PlannedIff` | cli/getter.py:487-505 | With categories selected an update plans exactly the source's files below an asset of one of them: profiles, modules and runtimes, or shared contracts. |
| `Getter.RemovedIff` | cli/getter.py:507-576 | And it reports exactly the tracked files gone from the source that lie below such an asset on record. |
| `Getter.NothingSelectedIff` | cli/getter.py:376-386 | It does nothing exactly when no asset of the source is of a selected category. |
| `Getter.PlannedInExactlyOne` | cli/getter.py:391-433 | Each planned file is in exactly one of updated, skipped and conflicts, and the three lists together are as long as the plan. |
| `Getter.VerdictsMean` | cli/getter.py:391-433 | Of planned files no link leads to, new files and files left as recorded follow the source, files equal to it are skipped, and exactly the rest, edited or deleted locally, are conflicts. |
| `Getter.ReasonsMean` | cli/getter.py:391-433 | A planned file is reported in conflict exactly with the first reason that holds: a linked parent, a link, a directory, a local deletion, a local edit. |
| `Getter.RemovalsMean` | cli/getter.py:538-598 | Of the tracked files the source no longer has, exactly those still there but not as recorded, or reached through a link, are conflicts; a default update leaves none out. |
| `Getter.RemovalReasons` | cli/getter.py:577-598 | Each removed file is reported with the first state that holds: reached through a link, absent, a directory, as recorded, edited. |
| `Getter.GetInstalls` | cli/getter.py:188-226 | A get that goes through leaves every file with its content and one fresh entry of exactly these files and assets. |
| `Getter.NothingDone` | cli/getter.py:188-206 | A conflict without force, a dry run and an unknown profile change nothing, and copying that breaks off records nothing. |
| `Getter.UpdateRecords` | cli/getter.py:442-484 | An update records the source's content for files refreshed or found current, keeps what was on record for all others, and takes over the source's assets. |
| `Getter.WriteOneMeans` | cli/getter.py:1449-1468 | One write makes missing parents, puts the file inside a directory of its name, removes a link in its place with what was seen through it, and changes nothing else. |
| `Getter.ClearWayCopies` | cli/getter.py:1449-1468 | Where no directory, link or file is in the way, copying goes through unless the file system gives up. |
| `Getter.WriteAllCopies` | cli/getter.py:1449-1468 | Copying deletes nothing, replaces only files it was asked to copy, adds only those and their parent directories, and when it goes through leaves every file with its new content. |
| `Getter.RefreshReplacesRecorded` | cli/getter.py:391-446 | An update replaces an existing file only if its content is the one recorded for it. |
| `Getter.RecordedHashesAreSupplied` | cli/getter.py:442-484 | Over every run of gets, updates and user edits, every recorded hash is that of content some source version supplied for that path. |
| `Getter.GetIsSafe` | cli/getter.py:188-206 | A get without force leaves every existing file exactly as it is, those seen through links included. |
| `Getter.RunsKeepLocalWork` | cli/getter.py:314-484 | Over every run, whatever upstream and users do in between and wherever copying breaks off, a get without force and an update delete nothing and replace an existing file only if its content is one a source supplied for it. |
| `Getter.SecondUpdateSettled` | cli/getter.py:314-484 | Repeating an update that went through, with nothing changed in between, refreshes nothing, reports the same planned conflicts and leaves the disk as it is. |
| `Getter.SecondUpdateRemovalsIff` | cli/getter.py:538-598 | With assets on record and upstream, as there always are, a repeated default update reports the same removed files, and the same of them in conflict, exactly when the first put no directory where a removed and locally absent file had been. |
| `Getter.RemovalsCanChange` | cli/getter.py:538-598 | That does happen: with nothing but one planned file, below the place of a tracked file that upstream dropped and that is gone locally, the first update reports that file as absent and the second reports a conflict, a directory in its place. |
| `Diff.ChangeList.DiffValues` | cli/main.py:1138-1189 | The recursive procedure appends exactly the changes between two values to the list it is given, each once, below the path it is given. |
| `Diff.PatchRebuilds` | cli/main.py:1138-1189 | Carrying out the changes turns the old value into the new one, up to the order of id-keyed lists and to entries that another with the same id follows. |
| `Diff.NoChangesIff` | cli/main.py:1138-1189 | No change is found exactly when the two values agree up to the order of id-keyed lists and to entries that another with the same id follows. |
| `Diff.SilentIffEqual` | cli/main.py:1188-1189 | For values without lists compared by id, nothing is reported exactly when they are equal in Python: booleans as numbers, texts, lists item by item, mappings key by key. |
| `Diff.SilentIffSame` | cli/main.py:1188-1189 | And without booleans exactly when they are the same value. |
| `Diff.SwapInverts` | cli/main.py:1138-1189 | A change is found one way round exactly when its inverse is found the other way round. |
| `Diff.OnlyOrderForgotten` | cli/main.py:1165-1186 | Two id-keyed lists in which entries with the same id are alike show no change exactly when each entry of either has its like, with the same id, in the other. |
| `Diff.ListsComparedById` | cli/main.py:1164-1186 | Lists of entries with distinct ids show no change exactly when each entry of either has one in the other with an equal id and no change to it. |
| `Diff.EarlierEntryHidden` | cli/main.py:1171-1176 | Wherever an entry stands that another with the same id follows, leaving it out makes no difference to the comparison. |
| `Diff.HidesNothingIff` | cli/main.py:1171-1176 | A list hides nothing, that is every list it shows no change to holds the like of each of its entries, exactly when its entries with the same id are alike. |
| `Diff.MergeNeverRemovesIff` | cli/main.py:1138-1189 | No overlay ever makes the comparison of a value with its merge report a removal exactly when no list within reach is compared by id. |
| `Diff.MergeDocsRemovesIff` | cli/main.py:1138-1189 | For a profile whose only id-keyed list is spec.modules, comparing it with its overlay merge reports a removal exactly when the overlay replaces a spec holding more than modules by a non-mapping. |
| `Diff.NullSpecRemoves` | cli/main.py:1138-1189 | It does for every profile with one setting under its spec, once an overlay has a null spec. |
| `Defaults.ApplySchemaDefaults` | cli/planner.py:603-665 | The recursive procedure computes the specified defaulting, or fails at the depth guard. |
| `Defaults.FillProperties` | cli/planner.py:627-652 | The loop over properties fills a copy of the mapping as specified, or fails where one property does. |
| `Defaults.DefaultsKeepValues` | cli/planner.py:603-665 | Every explicit non-null value, every key and every list length survives defaulting, at every depth. |
| `Defaults.KeysAfterDefaults` | cli/planner.py:627-652 | A defaulted object has exactly the keys written and those of missing properties that have a default, or have one somewhere inside. |
| `Defaults.DefaultsComplete` | cli/planner.py:603-665 | Under every object of the result that the schema reaches, every property with a default somewhere is present. |
| `Defaults.DefaultsIdempotent` | cli/planner.py:603-665 | Where the first pass does not hit the guard, a second pass changes nothing and does not hit it either. |
| `Defaults.GuardIsAboutSchemas` | cli/planner.py:609-612 | No configuration at all hits the depth guard exactly when the schema itself is nested no deeper than the guard allows. |
| `Defaults.MissingValue` | cli/planner.py:618-640 | Without a default a missing object counts as empty and a missing list has no items; what is there but of another type is kept. |
| `Defaults.ScalarSource` | cli/planner.py:589-600 | A scalar property holds what was written, else the default of the environment, else the generic one, else the plain one. |
| `Interpolation.WalkParts` | cli/planner.py:1344-1349 | The loop follows a dotted path through mappings, or gives up. |
| `Interpolation.PathMeans` | cli/planner.py:1337-1358 | A dotted expression means the value at that path of the context, and a secret, named or held by a setting, the placeholder of the variable it is mapped to. |
| `Interpolation.RenderedPathMeans` | cli/renderer.py:1425-1468 | To the renderer the same, and certificates their placeholders. |
| `Interpolation.CertificateMeans` | cli/renderer.py:1471-1490 | A certificate part means the placeholder of the variable recorded for it, and nothing if there is none. |
| `Interpolation.GateMeans` | cli/renderer.py:1408-1423 | An equality gate is true exactly when the path on its left holds the text on its right, both stripped. |
| `Interpolation.IfNonemptyMeans` | cli/planner.py:1326-1334 | In both engines `ifNonempty:` gives the empty text for a missing value or one of whitespace, and otherwise the value between its two texts. |
| `Interpolation.BlankKeySkipped` | cli/planner.py:1326-1334 | So it does for a setting that is the empty text. |
| `Interpolation.FirstReplaced` | cli/planner.py:1293-1301 | In a text an expression gives way to the text of its value, and stays where it has none. |
| `Interpolation.BetweenKept` | cli/planner.py:1312-1314 | What stands between expressions is kept. |
| `Interpolation.WholeMeans` | cli/planner.py:1303-1310 | In both engines a text that is one expression takes over its value, type included, and stays as it is where it has none. |
| `Interpolation.EscapeMeans` | cli/planner.py:1290-1314 | To the planner `$${e}` is the text `${e}`, whatever `e` would mean. |
| `Interpolation.ResolversAgree` | cli/planner.py:1317-1358 | The two expression resolvers give the same value for every expression without equality gates and certificates. |
| `Interpolation.EscapeInsideMeans` | cli/planner.py:1303-1309 | An escape inside an expression of the planner ends as a dollar in the text of its value. |
| `Interpolation.EnginesAgree` | cli/planner.py:1270-1314 | The two interpolators give the same value, type included, for every text of the common vocabulary whose two ends, if they look like one expression, are the ends of one, unless a second opening in its only expression costs a value its type. |
| `Interpolation.EnginesAgreeIff` | cli/renderer.py:1242-1259 | On texts of the common vocabulary without `$$`, over contexts whose keys hold no closing brace, they agree exactly when the planner reads no more into a text than the renderer does (no mapped secret alias cut short by a brace, no arguments of `ifNonempty:` cut elsewhere, and no value at an empty key for `${}`) and no less (no text that is one expression with a second opening in it, and whose value is not a text). |
| `Interpolation.CutAliasDiffers` | cli/renderer.py:1242-1259 | For every secret alias mapped to another name, a second closing brace behind it makes the planner keep the text with the alias cut elsewhere, and the renderer write the mapped name. |
| `Interpolation.SecondOpeningRetypes` | cli/planner.py:1299-1314 | For every key made of two plain texts around a second opening, with a value that is not a text, the planner makes a text of the value and the renderer keeps it as it is. |
| `Interpolation.RenderFixedPoint` | cli/renderer.py:1242-1259 | Rendering leaves every text alone whose only expressions are runtime variables. |
| `Interpolation.SecretsReplaced` | cli/renderer.py:1400-1468 | Replacing secret references yields a text that refers to exactly their variables, in order, and to nothing else. |
| `Interpolation.SecretsEndAsReferences` | cli/renderer.py:1400-1468 | A text of the common vocabulary without `$$` that refers only to declared secrets, and whose ends, if they look like one expression, are those of one, is planned to a text that refers to their variables in the same order, which rendering leaves unchanged. |
| `Interpolation.SecretsEndAsReferencesIff` | cli/renderer.py:1400-1468 | Over contexts whose keys hold no closing brace this holds, whatever the ends, exactly when no mapped alias is cut short by a brace. |
| `Poller.PollUntilSettled` | cli/up_runner.py:293-336 | On every trace of snapshots, exits of `up` and clock readings with some tick at which to stop, be it one at which the stack has settled while `up` still runs, the loop ends, at the first tick that is settled, failed or out of time; the verdict is good exactly when the last snapshot is settled without failures; the callback is made once exactly when a success of `up` was seen while waiting. |
| `Poller.PollingEnds` | cli/up_runner.py:293-336 | When `up` ends and the clock advances there is such a tick, within the sleeps that the end of `up` and the timeout together take. |
| `Poller.StopsMeans` | cli/up_runner.py:308-334 | Polling stops exactly when the stack has settled, `up` has ended with another code than 0, or the timeout has passed since it was first seen to have ended with 0. |
| `Poller.SettledIff` | cli/up_runner.py:213-230 | Settled is exactly a stack with enough services, each healthy, running or ended, or with none where none are expected. |
| `Poller.SettledWithoutFailure` | cli/up_runner.py:213-230 | A good verdict means that every service found is healthy, running or has exited healthily, and that enough were found. |
| `Poller.GivingUpMeansWaited` | cli/up_runner.py:316-334 | Giving up on an unsettled stack whose `up` did not fail means that `up` succeeded at least the timeout earlier. |
| `Poller.LongerTimeoutKeepsSuccess` | cli/up_runner.py:293-336 | With a longer timeout a stack that settles in time settles at the same tick. |
| `Resolver.ProviderIff` | cli/resolver.py:20-24 | The text before the first dot of a reference is the provider's id exactly when that id has no dot. |
| `Resolver.ParsedIff` | cli/resolver.py:20-24 | A contract reference reads as the text before its first dot and all that follows, neither empty. |
| `Composer.ComposeProfile` | cli/composer.py:114-378 | The whole procedure: the composed profile, or the errors of the first stage that has any. |
| `Composer.CollectProvided` | cli/composer.py:25-79 | The contracts offered by enabled modules, and an error for each module file that cannot be used. |
| `Composer.ProvidersIff` | cli/composer.py:25-79 | On offer is exactly what enabled instances provide under a name and a kind, each under its instance's id. |
| `Composer.OfferedKind` | cli/composer.py:70-77 | Of several offers under one reference the last one says its kind. |
| `Composer.LoadErrorsIff` | cli/composer.py:51-66 | There is an E022 exactly when some enabled instance names a module file that cannot be used. |
| `Composer.Draft.WireConsumed` | cli/composer.py:233-327 | The loop over consumed contracts binds, skips or refuses each, extending configuration and dependencies. |
| `Composer.ChooseIff` | cli/composer.py:247-310 | A contract is bound to what the caller binds, if that is on offer and of its kind, or else to the only offer of its kind; it is left unbound only if optional, not bound and without an offer; else it is refused with E124 or E125. |
| `Composer.PlaceIs` | cli/composer.py:316-320 | A contract is placed where it is mapped from, less the prefix of configurations. |
| `Composer.DefineSecrets` | cli/composer.py:332-352 | The secrets to define for the aliases used, and one error per alias nobody names. |
| `Composer.AliasIff` | cli/composer.py:103-111 | An alias is used exactly where some text in the configuration refers to it. |
| `Composer.SetNestedAt` | cli/composer.py:82-100 | After a nested setting its place holds the value, merged into a mapping that was there. |
| `Composer.SetNestedElsewhere` | cli/composer.py:82-100 | A nested setting changes nothing at any place that lies neither above nor below it. |
| `Composer.SetNestedUnreached` | cli/composer.py:82-100 | Nor does it change anything below it that a mapping it sets has no key for. |
| `Composer.OneInstanceAppended` | cli/composer.py:357-378 | A success appends one instance under an unused id and leaves all others as they are. |
| `Composer.ContractsWired` | cli/composer.py:233-327 | After a success every consumed contract is bound to an offer of its kind whose module is depended on, or is optional with nothing to bind to; the configuration refers to the offer exactly when the last contract bound at, above or below that place is bound at this very place to the same offer, as it is when places do not overlap. |
| `Composer.SamePlaceOverwritten` | cli/composer.py:233-327 | Of two contracts bound to different offers at one place, the configuration refers to the later and not to the earlier. |
| `Composer.SettingsKept` | cli/composer.py:229-327 | A setting of the caller holds in the new configuration, merged into what earlier ones made, unless a later setting or a bound contract reaches its very place: neither a setting beside a bound reference nor one at the place of a contract left unbound is lost. |
| `Composer.NothingRefused` | cli/composer.py:233-330 | Wiring reports no error exactly when no consumed contract is refused. |
| `Composer.ComposedIff` | cli/composer.py:158-352 | Composing succeeds exactly when the file is a module, all others can be read, the id given or else the module's name is usable and free, no contract is refused, and every alias used is defined or named; E121, E122 and E123 name the first three obstacles. |
| `Composer.GraphStaysSoundIff` | cli/composer.py:319-370 | A sound dependency graph stays closed and acyclic exactly when the new module is disabled, or the caller's own dependencies name enabled modules and every bound reference begins with the id of one, as it does where ids hold no dot. |
| `Composer.SecretsDefined` | cli/composer.py:332-378 | After a success exactly the old secrets and those the new configuration refers to are defined, the old ones unchanged. |

## Left out

- YAML and JSON parsing, path resolution, `ipaddress` text parsing and `int()` of arbitrary texts: the model starts from parsed values, canonical paths, address blocks and already-classified port fields.
- Network and registry calls, archives, subprocesses, containers and sockets: only their results appear, as parameters.
- Wording of diagnostics, label texts other than those selectors use, console output and redrawing: only codes, positions and levels are kept where a property needs them.
- SecretLeak.RedactText: candidates are non-empty, as the program never searches for values shorter than eight characters.
- Overlay.Merger.MergeProfileDocs: one merge of two documents; provenance over chains of three or more is not claimed, as the code passes only the last parent's label on.
- Overlay.Merger.MergeValue: recorded paths are sequences of steps, and records of different paths overwriting each other under one text are not modelled. Where keys hold no dot and no bracket, and module ids no opening one, there are none (Overlay.TextDeterminesPath); a key with a dot does share its text (Overlay.DottedKeyShares).
- Overlay.Merger.MergeModules: as for MergeValue, records are kept by steps instead of by text.
- Overlay.TwoDocumentProvenance: as for MergeValue, records are kept by steps instead of by text.
- Extends.ComposeFile: where a reference leads is a parameter; of several errors in one run only the one that ends it is kept.
- Startup.RenderedGraphAcyclic: rendering of templates other than their waits and healthchecks is not modelled.
- NetworkPolicy.NetworkPolicyManifests: does not model the order of rules within a policy or of workload policies, which the cluster does not look at.
- Environment.TranslationKeepsMeaningIff: does not model Compose's other forms, such as `$NAME` and `${NAME:-default}`, which the program neither writes nor translates.
- Environment.EnvironmentKeepsMeaningIff: as for TranslationKeepsMeaningIff, Compose's other forms are not modelled.
- WaitGates.CheckWaitGates: hosts, bindings and workloads come with their expressions substituted and disabled workloads left out.
- Getter.Workspace.WriteActions: a file is copied whole or not at all, a failing write stands for every input/output error, and parents made before a failure inside one copy are not kept. What is seen through a link is kept apart from what is seen at its own path, so a write under one of two paths to the same file does not show under the other.
- Getter.Workspace.FetchProfile: as for WriteActions, a write under one of two paths to the same file does not show under the other.
- Getter.Workspace.UpdateProfile: one profile at a time; timestamps, commits, source revisions, unreadable files and malformed manifests are not modelled, nor is the order of the report on removed files.
- Diff.ChangeList.DiffValues: keys and ids are visited in an arbitrary instead of the sorted order, paths are not formatted into text, and ids that Python cannot hash or order, for which the program stops with an error, are compared like any other.
- Diff.NoChangesIff: floating point numbers do not occur in the document model.
- Defaults.ApplySchemaDefaults: schemas are mappings with the recognised keys; a property schema of another type, for which the program fails, does not occur.
- Interpolation.EnginesAgreeIff: assumes texts without the `$$` escape and without the planner's internal marker character; the recursion of both interpolators over nested documents is not modelled.
- Interpolation.SecretsEndAsReferencesIff: assumes texts without the `$$` escape, whose meaning the render pass changes, and a context without an entry under an empty key, which the program never builds.
- Poller.PollUntilSettled: a callback is always given, and an exit of `up` is a reading of the trace.
- Composer.ComposeProfile: E120 for a profile that is no mapping, the version and the secrets provider block are not modelled; every module file that cannot be used counts as E022.
- Composer.CollectProvided: does not tell apart the ways in which a module file cannot be found or read; each counts as one E022.
- Composer.Draft.WireConsumed: does not model the sorted order of the dependencies, nor aliasing between a setting's value and the configuration.
- Rule lists and finding tables, argument parsing, reports, audit logs and the image checks: they would add members with shallow properties.
