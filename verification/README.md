# Verification of the gerrymander registry

Gerrymander is a registry of scarce names, hostnames and ports, with several controllers that run against it. This project
models the registry, the controllers and the proxy's route table in Dafny 4.11 and proves what they promise.

`dafny verify dfyconfig.toml` checks everything.

The SQL tables are maps under the unique keys of the schema; each statement, or each whole transaction where the code opens
one, is one atomic method of a class (`Registry.Store`, `Ports.Tables`, `CatalogStore.Store`). Code that works step by step is a
method with loops, proved against a function or predicate about which the lemmas then speak. A `name` is what the source calls
a label. Times are integers in nanoseconds.

| part | files |
|---|---|
| shared records, strings | `Core`, `Text` |
| SQL store | `Registry`, and per table `Observation`, `Ports`, `CatalogStore` |
| observed-host lifecycle | `Pagination`, `Routes`, `Sightings`, `Observation`, `Observer`, `Lifecycle`, `RepeatedZones` |
| sticky ports | `PortProtocol` (all interleavings), `Ports` (the code, under whatever others do and whichever calls fail, as a run of the protocol) |
| names and claims | `Normalize`, `Policy`, `Allocations` |
| manifest to route table | `Manifest`, `Apply`, `ApplyTheorems`, `ApplyAgain`, `Takeover`, `Proxy`, `EndToEnd` |
| cluster and DNS writers | `Reconciler`, `DesiredState`, `Traefik`, `GatewayApi`, `CloudflareDns`, `Shadow` |
| other controllers, and all of them together | `OwnedRows`, `DockerLabels`, `CrdIngest`, `Controllers` |
| catalog | `Catalog`, `CatalogStore`, `CatalogAccess` |
| supervisor | `Supervisor`, `LogRing` |
| an input for each promise that fails | `Counterexamples`, `RepeatedZones`, and the end of the exhaustion part of `PortProtocol` |

## Where the code and a promise part

Each of these is kept as the code has it. The lemma named first says exactly when the promise holds, unless the entry says
otherwise; the ones after it exhibit inputs for which it does not.

- A claim that answers "exhausted" should leave no free port. A re-check that fails counts as an owner without a row
  (internal/service/ports.go:96-99), and the walk passes over a port that is free. `PortProtocol.ExhaustionHonest`: the answer is
  honest if and only if every free port that a failed re-check passed over was granted since. `PortProtocol.SwallowedRecheck`: two
  first claims of one owner and two failed re-checks leave port 2 unclaimed and "exhausted" answered.
- The documentation (docs/kubernetes.md:57-63) promises three successful observations before a retirement. The observer does not
  deduplicate its zone list, and a zone listed twice counts an absence twice per cycle. `RepeatedZones.ThreeScansIff`: the promise
  holds if and only if the zone is listed once or the grace period exceeds two polling intervals. `RepeatedZones.TwoScansRetire`.
- A declared hostname should resolve to its service. `EndToEnd.DeclaredHostResolves`: it does, looked up as it is written, if and
  only if no inactive row was found under its label and the zone's spelling survives the proxy's cleaning of hosts
  (`Proxy.CleanIffPlain`: no final dot, and nothing that reads like a port).
  - A manifest that takes over a pending or suspended row does not activate it. `Counterexamples.PendingTakenOver`.
  - The manifest's zone is not trimmed where the proxy trims hosts, so no hostname of a zone written `test.` or `test:1` is
    found as it is written.
    `Counterexamples.FinalDotZone`, `Counterexamples.NotPlainNotFound`.
- Manifest apply claims labels in normal form but compares them as written when it prunes.
  `ApplyAgain.RegisteredIffSpelledNormally`: a new label survives the run that claims it if and only if the manifest also spells it
  in normal form. `ApplyAgain.ApplyIdempotent`: a manifest can be applied again without effect if and only if each label is
  held both as written, by the claim's own row, and in normal form. `Counterexamples.ClaimedAndPruned`.
- A manifest hostname `@.zone` becomes the label of the zone apex. `EndToEnd.LabelOfHost`, `Core.HostRoundTrip` and
  `DockerLabels.SplitRejoins` name the spellings that do not come back.
- `Normalize` tests for empty labels before the IDNA encoding and not after. `Normalize.NormalizeIdempotent`: it is idempotent if
  and only if no part is encoded as the empty string. `Counterexamples.AcceptedThenRejected`.
- Availability ignores released rows and the insert does not. `Allocations.AvailabilityAgrees`: the two agree, reason for reason,
  if and only if the label's row is not a kept released one. `Counterexamples.AvailableButTaken`.
- Three crashes within a minute should park a process, and fewer should not. `Supervisor.ExitParks`: an exit parks if and only if
  it is recorded and leaves three survivors, failures younger than a minute whenever a later one was recorded. These are all
  failures of the last minute if and only if none of those was a minute old when a later one was recorded, as on every clock
  that never steps back (`Supervisor.CrashWindow`).
  `Counterexamples.ForgottenCrash`: three crashes of the last minute, of which two are remembered.
- An exit that was asked for should be no crash. A stop only signals the command (internal/supervise/supervisor.go:327-334), and a
  request may boot again before it exits. `Supervisor.ExitCounts`: an exit is recorded as a failure if and only if its boot was
  not ended, or a later boot has begun and was not. `Counterexamples.ParkedByStops`: three stops and no crash park the process.
  `Counterexamples.CountedTwice`: one missed health check is two failures. An exit or a missed check while parked ends the
  parking, and the failures are kept (`Supervisor.Lived`).
- A manifest's routing project joins project and workspace with "@", which a project without a workspace may contain itself.
  `Manifest.RoutingProjectsMeet` says exactly when two manifests have one routing project; in one zone each then prunes the
  rows of the other that it does not declare itself: `ApplyAgain.MeetingPrunes`.
- A controller should touch its own rows only. `Controllers.NoInterference`: in every run of whole passes it is so if and only if
  no manifest run takes a row that another controller made, and `Takeover.TakesIff` and `Takeover.TakenOver` say exactly which
  rows a run takes: those whose label and owner reference a claim carries that goes through.
  - A custom resource in namespace `p` named `s` has the owner reference of service `s` of project `p`. That manifest takes the row
    over, and may prune it later, as it is now its own. `Counterexamples.ReservationTakenOver`.
  - So it does with a row that the observer registered for a cluster route `p/s`. `Counterexamples.RouteTakenOver`.
- While the same containers run, or the same reservations stand, a pass after the first should write nothing.
  `OwnedRows.SecondPassIff`, and for each controller `DockerLabels.SyncTwice` and `CrdIngest.SyncTwice`: where labels are in
  normal form and hostnames rejoin, so it is if and only if items of one name ask for the same, or somebody else holds the name.
  `OwnedRows.PassStableIff` says it for all items, in terms of the table that the first pass leaves.
  - Two running containers with one hostname: the next pass writes again, whenever it comes. `Counterexamples.TwoContainers`.
  - A hostname written `@.` before its zone, and a reservation by a label that is not in normal form, can be claimed and released
    on every pass: `OwnedRows.ClaimedAndReleased`, `Counterexamples.ApexNeverSettles`.
- The proxy cuts a host's final dot only when no port follows: `Proxy.PortIgnored`.
- Cluster route names are lossy, so two rows can want one route: `Traefik.RouteNamesCollide` shows a family of
  them, not all. DNS names are not: `CloudflareDns.OneRecordPerRow`.
- The Traefik drift check does not compare a route's kind, so a changed kind is not repaired: `Traefik.SpecEqual`.
- The observer's number printer turns the least 64-bit integer into a bare sign: `Shadow.Itoa`.

## Model

| member | source | states |
|---|---|---|
| Core.LabelRoundTrip | internal/observe/traefik.go:158-167 | a label's name in a zone leads back to the label |
| Core.HostRoundTrip | internal/core/types.go:254-259 | a host's label leads back to the host, except for the two spellings whose label is "@" or empty |
| Core.FqdnInjective | internal/core/types.go:254-259 | within a zone different labels have different names |
| Observation.Conservation | internal/store/observation.go:62-99 | rows found before the writes are the rows left plus the rows retired, never both |
| Observation.SkippedRow | internal/store/observation.go:32-56 | by its columns: a row that the snapshot read as anything but an active, observed platform row of the zone without routes and expiry, or that has since changed or gone, is left as found and neither retired nor, for the first reason, counted as missing |
| Observation.WrittenRow | internal/store/observation.go:57-110 | every other row is written: seen, it holds its owner and no evidence; missed three times over the grace period, it is retired if the scan retires; otherwise it holds one more absence and is counted as missing |
| Observation.AuditedOnce | internal/store/observation.go:86-101 | one event for each retired row, by its id and with its final contents, and none for any other |
| Registry.Store.NoteScan | internal/store/observation.go:72-85 | a sighting clears the evidence and records the owner; an absence starts a window or extends it; a row is due at three absences spanning the grace period |
| Registry.Store.WriteRow | internal/store/observation.go:62-110 | one row of the snapshot: only an active, observed platform row without routes or expiry, unchanged since the snapshot, is stamped or retired; the connection's failure is reported |
| Registry.Store.WriteRows | internal/store/observation.go:62-110 | the loop succeeds exactly when the connection lasts; in whatever order rows come it has then written exactly the rows it should, with one event per retired row |
| Registry.Store.ReconcileObservations | internal/store/observation.go:25-119 | all or nothing: on failure counters, deletions and events are rolled back together; on success every row is as the scan says, each retired row has one event with its final contents, and the counts are right |
| Registry.Store.ListAllocations | internal/store/alloc.go:166-205 | exactly the rows that pass the filter, each once |
| Registry.Store.CreateAllocation | internal/store/alloc.go:80-106 | the unique key decides: a taken label changes nothing, a free one gets the row under a new id |
| Registry.Store.UpdateAllocation | internal/store/alloc.go:208-217 | overwrites the mutable columns of the row with the id; label, name, kind and source stay |
| Registry.PatchOne | internal/store/alloc.go:208-217 | a row written back after a read changes in place, no other row does, and ids stay unique |
| Registry.Store.RenameAllocation | internal/store/alloc.go:223-242 | moves the row unless the new label is taken or the id unknown, and then changes nothing |
| Registry.Store.ReapExpiredHolds | internal/store/alloc.go:253-261 | deletes exactly the pending rows past their expiry, and counts them |
| Sightings.PresentIffServed | internal/observe/k8s.go:299-319 | a label counts as present exactly when some route has a host pattern for it, whoever owns the route |
| Sightings.PresentOwner | internal/observe/k8s.go:317-319 | the owner recorded is the last unmanaged route, or the first route when all are managed |
| Sightings.SightsAre | internal/observe/k8s.go:299-319 | a sight names its label's route by reference, kind, identity and service, and whether it is managed |
| Routes.LabelMeans | internal/observe/k8s.go:299-316 | the hosts behind a label: "@" is the zone, another label stands before the zone, a starred one is what a catch-all below the zone covers |
| Pagination.FetchList | internal/observe/k8s.go:175-247 | success is exactly a whole list: one chain of pages of one resource version with distinct tokens and an empty last one, concatenated in order; it ends because tokens run out |
| Pagination.PartialIsPrefix | internal/observe/k8s.go:178-243 | pages read so far are the beginning of any whole list |
| Pagination.CompleteUnique | internal/observe/k8s.go:178-243 | a server has at most one whole list |
| Observer.Watcher.ImportOne | internal/observe/k8s.go:320-364 | one sighting's work: actuator output and second owners are skipped, an unknown label is created only with auto-registration |
| Observer.ImportedRow | internal/observe/k8s.go:320-352 | a label without a row gets one if and only if rows are registered and some route that is not managed shows it: an active platform row without routes, owned by the first such route |
| Observer.Watcher.ImportRoute | internal/observe/k8s.go:299-365 | the hosts of one route, presence and import kept in step |
| Observer.Watcher.ReconcileZone | internal/observe/k8s.go:292-377 | import then scan of one zone; an error stops it where it happened |
| Observer.Watcher.Reconcile | internal/observe/k8s.go:265-396 | a cycle is its zones in order up to the first failure; the last success is kept only by a cycle that went through |
| Observer.Watcher.Sync | internal/observe/k8s.go:250-262 | without two whole lists nothing is touched and the last success is forgotten; with them the cycle runs on their concatenation |
| Lifecycle.CycleRow | internal/observe/k8s.go:275-396 | what a cycle does to one row with no other writer, in terms of how many of its zone's scans committed |
| Lifecycle.ResetIffBroken | internal/observe/k8s.go:288-288 | the reset rule fires exactly when the history does not continue: startup, failure, clock step or gap over two intervals |
| Lifecycle.RunRefines | internal/observe/k8s.go:275-396 | over every run of cycles, failures and restarts, what the row stores is what the history says |
| Lifecycle.CounterRefinesHistory | internal/store/observation.go:72-85 | after a complete cycle the counter is the length of the current run of absences and the window start its first time |
| Lifecycle.RetiredExactlyWhen | internal/store/observation.go:72-101 | a row is retired at exactly the first committed scan that makes three absences spanning the grace period, neither early nor late |
| Lifecycle.RetirementEvidence | docs/kubernetes.md:57-63 | every retirement rests on consecutive complete scans that all missed the host, with no failure, restart, backward clock or gap over two intervals between them, and spans at least the grace period, five minutes unless set |
| Lifecycle.SpanBound | internal/observe/k8s.go:288-288 | a run of n absences spans at most 2*interval*(n-1) |
| RepeatedZones.TwoScansRetire | internal/observe/k8s.go:292-292 | a legal run in which two scans retire a row of a zone listed twice |
| RepeatedZones.ThreeScansIff | docs/kubernetes.md:57-63 | every retirement rests on three scans if and only if the zone is listed once or the grace period exceeds two intervals |
| PortProtocol.RunSafe | internal/service/ports.go:60-108 | the protocol's invariant holds in every state of every interleaving of claims, releases and failing database calls, a failed re-check included |
| PortProtocol.PortsExclusive | internal/store/store.go:133-142 | in every reachable state no two owners have one value, and every value is in the range and not avoided |
| PortProtocol.SameOwnerSamePort | internal/service/ports.go:60-103 | claims of one owner with no release of it in between get one value, racing first claims included |
| PortProtocol.LeftOver | internal/service/ports.go:94-107 | with no release since, the grantable ports neither granted nor failed by the bind test are exactly those that a failed re-check passed over while they were free |
| PortProtocol.ExhaustionHonest | internal/service/ports.go:77-107 | "exhausted" with no release since is honest if and only if every such port was granted since; so it is when no re-check failed at a free port, and when the owner has no row |
| PortProtocol.SwallowedRecheck | internal/service/ports.go:96-99 | the run in which it is not: two failed re-checks leave port 2 free and unclaimed |
| PortProtocol.ClaimEnds | internal/service/ports.go:77-107 | each step of an unanswered claim, and each failure of its next call, shrinks a budget, and the only row it can insert is its owner's |
| PortProtocol.InsertsOnce | internal/service/ports.go:94-103 | a claim inserts at most one row, with its answer |
| PortProtocol.PickLeast | internal/service/ports.go:82-93 | the walk's choice is the least port that is grantable, unused and free |
| PortProtocol.AloneOutcome | internal/service/ports.go:60-108 | undisturbed, the interleaved protocol computes the sequential outcome |
| PortProtocol.RivalRun | internal/store/ports.go:74-87 | a row that another process inserts could have been inserted by a claim of its own, so inserts by others are steps of the protocol |
| Ports.Tables.EnsurePool | internal/store/ports.go:14-24 | a pool is written once and keeps its range |
| Ports.Tables.InsertPort | internal/store/ports.go:74-87 | refused exactly when the owner has a row or the value is taken |
| Ports.Tables.TryCandidate | internal/service/ports.go:94-106 | one candidate, with others' inserts and releases before each call and either call failing: a run of the protocol from the candidate to the answer or to the next one |
| Ports.Tables.WalkCandidates | internal/service/ports.go:77-107 | the loop, as a run of the protocol to its answer; undisturbed it takes the first candidate that is free |
| Ports.Tables.Claim | internal/service/ports.go:60-108 | whatever others insert or release before its database calls, and whichever of them fail, the claim is a run of the protocol from any safe state with these rows to its answer; when others only insert and no call fails, rows keep their values, a holder gets its row, and "exhausted" is honest; alone it is the protocol's outcome, and a holder's row is marked as foreign if it was so or its bind test ran and failed |
| Ports.RanOut | internal/service/ports.go:77-107 | the protocol's exact condition for an honest "exhausted", for an answer of the method |
| Ports.UsedIsValue | internal/store/ports.go:55-71 | the used set of a pool is the set of its granted values |
| Normalize.JoinSplit | internal/core/normalize.go:53-66 | splitting at dots and joining is the identity |
| Normalize.SplitJoin | internal/core/normalize.go:53-66 | joining dot-free parts and splitting is the identity |
| Normalize.NormalizePart | internal/core/normalize.go:69-95 | one label: encoded when not ASCII, then length, edge hyphens and alphabet |
| Normalize.PartMeans | internal/core/normalize.go:69-95 | a label becomes itself, or its encoding, if that is letters, digits and inner hyphens, up to 63; and which error each other label gets |
| Normalize.Normalize | internal/core/normalize.go:29-67 | the whole rewriting, kind by kind; the first bad part decides the error |
| Normalize.NormalMeans | internal/core/normalize.go:29-67 | the whole function as a relation: trimmed, "@" apart, folded, in lower case, rewritten part by part; a dot or a star is for the platform only |
| Normalize.NormalizeIdempotent | internal/core/normalize.go:29-95 | an accepted label is "@" or dot-joined letter-digit-hyphen labels of 1 to 63 characters without edge hyphens, starred for the platform only, and normalizes to itself, if and only if no part is encoded as the empty string; otherwise it is rejected the second time |
| Normalize.TenantLabelsFlat | internal/core/normalize.go:42-52 | tenants never own multi-level or starred names |
| Policies.Suggest | internal/core/policy.go:144-159 | the five variants in order, those over 63 characters dropped |
| Policies.SuggestedAre | internal/core/policy.go:144-159 | the variants are these five, those over 63 characters dropped |
| Allocations.AvailabilityAgrees | internal/service/alloc.go:61-92 | availability and a tenant's API claim agree, reason for reason, if and only if the label's row is not a kept released one |
| Allocations.AsciiStable | internal/core/normalize.go:29-95 | the accepted form of ASCII input is stable |
| Allocations.SuggestionsAvailable | internal/service/alloc.go:95-109 | each of the at most three suggestions is available and claimable as it stands |
| Allocations.SuggestionsComplete | internal/service/alloc.go:95-109 | fewer than three suggestions are made only when no other variant can be claimed |
| Allocations.RefusalMeans | internal/service/alloc.go:174-232 | when a claim is refused, and for which reason, in terms of the zone, its policy, the label's normal form and the row in the way; one for each outcome |
| Allocations.Alloc.FilterAvailable | internal/service/alloc.go:95-109 | the first three candidates that a tenant could claim, in order |
| Allocations.Alloc.CheckAvailability | internal/service/alloc.go:61-92 | the answer with its reason and suggestions; nothing for an unregistered zone |
| Allocations.Alloc.ClaimHostname | internal/service/alloc.go:174-237 | one insert or nothing at all: refused for exactly the reason the label, the policy (API only) or the unique key gives, else a row with the columns asked for, under a new id, pending with an expiry for a hold and active otherwise |
| Allocations.RenameLikeClaim | internal/service/alloc.go:278-308 | a rename is refused exactly as a claim of that kind through the API would be, the row's own name apart; else everything but the name survives and the old name is free |
| Allocations.Alloc.Rename | internal/service/alloc.go:278-308 | moves exactly one row, or changes nothing |
| Allocations.Alloc.Commit | internal/service/alloc.go:240-251 | a pending row becomes active without expiry; nothing else changes |
| Allocations.Alloc.Renew | internal/service/alloc.go:254-267 | a hold gets its new expiry; anything else is left alone |
| Allocations.Alloc.Release | internal/service/alloc.go:314-326 | the row goes and its label is free at once |
| Manifest.CheckService | internal/manifest/manifest.go:124-169 | exactly one backend: per route, or for the service as a whole; none for a catalog-only service |
| Manifest.Check | internal/manifest/manifest.go:101-172 | lets through exactly the accepted manifests |
| Manifest.OneChoice | internal/manifest/manifest.go:124-169 | which choices count as one backend, for a service and for a route |
| Manifest.AcceptedMeans | internal/manifest/manifest.go:101-172 | what the parser lets through, field by field and service by service |
| Manifest.BackendIs | internal/manifest/manifest.go:260-290 | the backend built is the one declared: the container or process as written, the host and port that an address says, or the port that the owner holds in the pool |
| Manifest.BackendOnTables | internal/manifest/manifest.go:280-287 | a pool choice is @local with the value of its owner's row |
| Manifest.AcceptedChoiceIsUsed | internal/manifest/manifest.go:260-290 | of an accepted choice the declared backend is the one built, with its fields, and it fails only for an address that cannot be read or a port that was not granted |
| Manifest.RoutesAre | internal/manifest/manifest.go:196-219 | a service's routes one by one: its own, each with its own backend, or its one backend on each of its listeners, or on the default ones |
| Manifest.LabelMeans | internal/manifest/manifest.go:293-304 | a hostname's label is what stands between "*." and the zone, or "@" for the zone itself |
| Manifest.ClaimsAre | internal/manifest/manifest.go:188-258 | the claims by their columns, and one for each hostname of a routed service |
| Manifest.RoutingProjectsMeet | internal/manifest/catalog.go:17-22 | two accepted manifests have one routing project if and only if project and workspace agree, or one has no workspace and is named like the other's two joined |
| Manifest.BuildBackend | internal/manifest/manifest.go:260-290 | the declared backend on the port tables as the call leaves them; a port pool is claimed from, and rows keep their values |
| Manifest.ServiceRoutes | internal/manifest/manifest.go:196-219 | the service's own routes, or the shorthand on each listener; none when one backend fails |
| Manifest.Group | internal/manifest/manifest.go:221-243 | "x" and "*.x" become one label with a wildcard bit; a host outside the zone rejects |
| Manifest.Emit | internal/manifest/manifest.go:244-255 | one claim per label, unless another service has it |
| Manifest.GrantsStick | internal/service/ports.go:66-75 | port tables whose rows keep their values go on giving the answers they gave |
| Manifest.Claims | internal/manifest/manifest.go:188-258 | rejects exactly the manifests that are defective on the port tables it leaves; else there is one claim per declared label of each routed service, with that service's routes, and none besides, in whatever order services come; grants keep their values |
| Apply.Server.ApplyClaim | internal/api/manifest.go:91-128 | one claim: insert, update in place of a row the manifest plausibly owns, or stop with nothing changed |
| Apply.Server.ApplyClaims | internal/api/manifest.go:91-128 | the loop: claims one by one up to the first that stops the run |
| Apply.Server.Prune | internal/api/manifest.go:130-143 | exactly the project's stale manifest rows of the zone go |
| Apply.Server.HandleManifestApply | internal/api/manifest.go:66-143 | the reply and the tables it leaves, the port tables included, on every path |
| ApplyTheorems.StepsAt | internal/api/manifest.go:91-128 | the claims up to the first that does not go through are done; under each key the row is as it was, or taken over by the claim of that label if that found its normal form held, or one that a claim made under its label's normal form |
| ApplyTheorems.ApplyStopsIff | internal/api/manifest.go:103-121 | a run stops if and only if some claim has no normal form, or finds it held with nothing of the manifest's under the label as written; for labels in normal form, if and only if a declared label belongs to somebody else |
| ApplyTheorems.ApplyExact | internal/api/manifest.go:91-143 | after success each declared label that is in normal form holds its spec and owner, whatever the others, and after pruning the project's manifest rows of the zone are declared labels |
| ApplyTheorems.ClaimedRow | internal/api/manifest.go:91-128 | such a label's row, column by column: a new one is an active platform row of the manifest, a found one keeps all but spec, owner and project |
| ApplyTheorems.RunZones | internal/api/manifest.go:66-72 | a run registers its zone as a development zone unless it is there, and prunes when asked to and the manifest has routes or is empty |
| ApplyTheorems.ReplyNames | internal/api/manifest.go:108-128 | a reply names as claimed exactly the labels whose normal form was free, and as updated the others |
| ApplyTheorems.ApplyFrame | internal/api/manifest.go:113-143 | whatever the labels and the reply, a row changes only when a claim takes it over or the run prunes it, and rows appear only as claims, under the normal form of a declared label |
| ApplyAgain.SameClaims | internal/manifest/manifest.go:188-258 | two compilations make the same claims, however services are ordered |
| ApplyAgain.ApplyIdempotent | internal/api/manifest.go:91-143 | a second run succeeds, claims nothing, prunes nothing, and leaves every row as it was but for its time of writing, if and only if every label is held as written by the claim's row and in normal form, as every label in normal form is |
| ApplyAgain.ApplyTwice | internal/api/manifest.go:73-80 | so does the second of two runs that resolve ports from the tables, under the same condition, as long as rows keep their values, and both make the same claims with the same ports |
| ApplyAgain.MeetingPrunes | internal/api/manifest.go:130-143 | of the project's manifest rows of its zone, a pruning run of any manifest of the same routing project leaves exactly those it declares itself |
| ApplyAgain.RegisteredIffSpelledNormally | internal/api/manifest.go:93-93 | a new label is still registered after the run that claimed and pruned if and only if the manifest spells it in normal form |
| Takeover.TakesIff | internal/api/manifest.go:113-128 | in every run, whatever its labels and its reply, a row of another project, or of none, is left as it was if and only if no claim that goes through has its label and owner reference and finds its label's normal form held |
| Takeover.TakenOver | internal/api/manifest.go:113-128 | a row that is not the project's own manifest row becomes the taking claim's, state, kind and source apart, or is left as it was; for labels in normal form a claim that goes through takes it if and only if label and owner reference agree |
| Proxy.LookupFirst | internal/proxy/table.go:100-114 | a lookup finds the target of the first entry that answers, and nothing exactly when none does |
| Proxy.CleanIffPlain | internal/proxy/table.go:94-97 | a hostname of a zone is looked up as it is written if and only if the zone has no final dot and holds nothing that reads like a port |
| Proxy.PortIgnored | internal/proxy/table.go:93-102 | with a port the host is looked up in lower case; that is what is looked up without it if and only if the host has no final dot |
| Proxy.DepthIsLength | internal/proxy/table.go:76-86 | of two bases of one host the deeper is the longer, and at equal depth they are one name |
| Proxy.EntriesServe | internal/proxy/table.go:49-74 | an active row serves a host on a port exactly when one of its entries answers |
| Proxy.ServesMeans | internal/proxy/table.go:49-74 | what a row serves, by its columns: its own name, what is below it for a wildcard, and only what is below for a starred label |
| Proxy.RouteForMeans | internal/proxy/table.go:117-132 | the route that answers a port, by index: the first on that listener, else on 80 and 443 the last on the default ones, else none |
| Proxy.ScanRefinesServes | internal/proxy/table.go:93-115 | the sorted scan hits if and only if an active row serves the host; the winner is exact before wildcard, then longest base; rows tied with it serve by the same name |
| Proxy.Table.BuildEntries | internal/proxy/table.go:49-74 | the entries of the listed rows and nothing else |
| Proxy.Table.SortEntries | internal/proxy/table.go:76-86 | sorted, and a permutation |
| Proxy.Table.Rebuild | internal/proxy/table.go:44-91 | the table holds the entries of the active rows, sorted, and nothing else |
| Proxy.Table.RouteOn | internal/proxy/table.go:117-132 | the first route on exactly this listener, else on 80 and 443 the last default, else none |
| Proxy.Table.Resolve | internal/proxy/table.go:93-132 | the first entry that answers the cleaned host, with the backend of its row's route for the port, or none when none answers |
| EndToEnd.WinnerResolves | internal/proxy/table.go:93-115 | a row that serves a host more closely than all others is the one resolved |
| EndToEnd.LabelOfHost | internal/manifest/manifest.go:293-304 | an exact hostname's label stands for that hostname, unless it is written "@." before the zone |
| EndToEnd.CleanDeclared | internal/proxy/table.go:94-97 | the name of a normal label in a zone is looked up as it is written if and only if the zone is plain |
| EndToEnd.DeclaredHostResolves | internal/manifest/manifest.go:188-258 | after apply and rebuild, `Resolve` of a declared exact hostname finds the row that holds its service's routes, with the very backend the service declares for the port, written or granted, if and only if the zone is plain, no inactive row was found under the label, and the service declares one |
| EndToEnd.DeclaredWildcardResolves | internal/manifest/manifest.go:188-258 | so does `Resolve` of any spelling of a host, when no deeper or exact claim serves the port, if and only if what is looked up is below a declared wildcard, no inactive row was found, and a backend is declared |
| EndToEnd.AnswerIsDeclared | internal/manifest/manifest.go:196-219 | a service answers on a port exactly when it declares a backend for it, and with that one: of the first route on the listener, else of the last default |
| Reconciler.Cluster.RepairListed | internal/actuate/traefik.go:172-198 | listed objects that nobody wants are deleted, drifted ones repaired, each unless its write fails; `seen` are the listed names |
| Reconciler.Cluster.CreateMissing | internal/actuate/traefik.go:199-214 | names not seen are created, each unless its write fails or its id is in use |
| Reconciler.Cluster.Reconcile | internal/actuate/traefik.go:135-215 | the objects after a pass, with any of its writes failing |
| Reconciler.UnmarkedUntouched | docs/kubernetes.md:103-108 | objects without the mark are neither changed nor made |
| Reconciler.OpenAfter | internal/actuate/traefik.go:172-214 | a discrepancy is open after a pass if and only if it was open before and its write failed or was blocked: discrepancies never grow and nothing that matched stops matching |
| Reconciler.Converges | docs/kubernetes.md:103-108 | without failures only names whose id is held by another object stay open |
| Reconciler.QuietIff | internal/actuate/traefik.go:172-214 | a pass changes nothing if and only if every open discrepancy's write fails or is blocked |
| Reconciler.ClusterSettles | internal/actuate/traefik.go:135-215 | after a pass without failures the managed objects are the desired map, on names no unmarked object holds, and later passes change nothing |
| Reconciler.ZoneSettles | internal/dnssync/cloudflare.go:145-192 | where ids are fresh, a pass without failures settles everything and later passes change nothing |
| DesiredState.BuildDesired | internal/actuate/traefik.go:136-152 | each active row of the zones that wants an object has its key in the map, and each entry is such a row's |
| DesiredState.WantedAlone | internal/actuate/traefik.go:136-152 | a row whose key no other row wants gets its own entry |
| DesiredState.InScopeMeans | internal/actuate/traefik.go:138-146 | the rows a writer looks at are the active ones of its zones |
| Traefik.RouteNamesCollide | internal/actuate/traefik.go:72-82 | labels that differ in a dot or a hyphen share a route name |
| Traefik.RouteNameShape | internal/actuate/traefik.go:70-82 | whatever the zone and label, the name is at most 63 letters, digits and inner hyphens |
| Traefik.RouteNameIs | internal/actuate/traefik.go:70-82 | of a short row: zone and label with hyphens for dots, the star dropped, "apex" for the zone itself |
| Traefik.DesiredMeans | internal/actuate/traefik.go:86-132 | a row wants a route if and only if it has a service backend: one route to the first, above the minimum priority, on the given entry points |
| Traefik.RuleMeans | internal/actuate/traefik.go:97-101 | read as a rule, the printed text admits the row's name and, for a wildcard or a starred label, the hosts one label below, and no other |
| Traefik.SpecEqual | internal/actuate/traefik.go:217-238 | equal specs up to the routes' kind |
| Traefik.Reconcile | internal/actuate/traefik.go:135-215 | the registry's desired map, then the shared pass |
| Traefik.RowsAreRouted | internal/actuate/traefik.go:86-215 | after a pass without failures a row with a route name of its own has a managed route with its spec, hand-written holders of the name apart; later passes change nothing |
| Traefik.RoutedRow | internal/actuate/traefik.go:86-132 | what a managed route that passes the drift check says, field by field: its service, its priority, its entry points and the hosts it admits |
| Traefik.ManagedNotShadowed | internal/actuate/traefik.go:86-132 | a managed route is reported only against a catch-all that reaches the minimum priority |
| Shadow.ShadowCheck | internal/observe/traefik.go:88-126 | the findings are exactly those of single-label exact hosts of another route object whose effective priority does not exceed a catch-all's |
| Shadow.ShadowedMeans | internal/observe/traefik.go:88-126 | which hosts are reported, by the columns: one-label hosts of another object's route whose priority, or rule length without one, does not beat the catch-all's |
| Shadow.FindingMeans | internal/observe/traefik.go:110-132 | what is reported: the label, both routes, and their priorities in decimal |
| Shadow.CheckAgainst | internal/observe/traefik.go:102-124 | the same, against one catch-all |
| Shadow.CatchAlls | internal/observe/traefik.go:89-97 | exactly the routes with a catch-all over the zone root |
| Shadow.Itoa | internal/observe/traefik.go:134-154 | the decimal numeral, for all 64-bit integers but the least, which prints as a bare sign |
| Shadow.DecimalRead | internal/observe/traefik.go:134-154 | numerals are read back, so numbers never print alike |
| GatewayApi.SameRows | internal/actuate/gateway.go:61-94 | a row with an HTTP route has a Traefik route of the same key |
| GatewayApi.DesiredMeans | internal/actuate/gateway.go:61-94 | a row wants an HTTP route if and only if its first route is to a service: for its name, and all below it for a wildcard |
| GatewayApi.Reconcile | internal/actuate/gateway.go:97-167 | the registry's desired map, then the shared pass |
| GatewayApi.RoutesAreDesired | internal/actuate/gateway.go:97-167 | after a pass without failures the managed routes are the desired map to the letter, hand-written holders apart |
| CloudflareDns.OneRecordPerRow | internal/dnssync/cloudflare.go:125-142 | the desired map has exactly one record per active row of the zone |
| CloudflareDns.RecordTypeMeans | internal/dnssync/cloudflare.go:117-122 | a target with a dot and a small letter is a name, any other an address |
| CloudflareDns.ReconcileZone | internal/dnssync/cloudflare.go:145-192 | one zone's records, then the shared pass keyed by record id |
| CloudflareDns.RecordsAreRows | internal/dnssync/cloudflare.go:145-192 | after a pass without failures every managed record is an active row's, with the right kind and content, every active row has one, and later passes change nothing |
| OwnedRows.Controller.SyncItem | internal/dockerlabels/watcher.go:166-216 | somebody else's row is left alone, ours is updated unless settled, a free name is claimed, and nothing else happens |
| OwnedRows.SyncedMeans | internal/crdingest/ingest.go:99-131 | one item's work by the columns: another's row stays, a settled one stays, ours gets the spec and the owner, a free label gets an active row |
| OwnedRows.Controller.ReleaseGone | internal/dockerlabels/watcher.go:218-234 | exactly our rows that nobody wants go, released ones apart |
| OwnedRows.Controller.Sync | internal/crdingest/ingest.go:72-148 | every item in order, then the release loop |
| OwnedRows.AllServed | internal/dockerlabels/watcher.go:166-216 | after the first loop the name of every claimable item is held by another owner kind, or by us as the last item of that name asks |
| OwnedRows.PassConfined | internal/crdingest/ingest.go:99-146 | a pass neither touches nor makes rows of other owner kinds, and keeps the marks of its own |
| OwnedRows.PassStableIff | internal/dockerlabels/watcher.go:166-234 | whatever the items, a pass over a table without unwanted rows, at a time of its own, changes nothing if and only if each item's row is somebody else's or settled, or its claim is refused |
| OwnedRows.ClaimedAndReleased | internal/dockerlabels/watcher.go:203-234 | an item whose name has no row, whose claim goes through and whose row nobody wants is claimed and released on every pass |
| OwnedRows.SecondPassIff | internal/dockerlabels/watcher.go:166-234 | for claimable items whose rows are wanted, a second pass changes nothing if items of one name ask for the same or another owner kind holds the name, and otherwise it writes again |
| DockerLabels.LongestUnique | internal/dockerlabels/watcher.go:252-266 | the longest zone of a host is unique, in whatever order zones are listed |
| DockerLabels.SplitRejoins | internal/dockerlabels/watcher.go:252-266 | zone and label rejoin to the host, two spellings apart |
| DockerLabels.SplitByZones | internal/dockerlabels/watcher.go:252-266 | the longest registered zone the host belongs to, or none when there is none |
| DockerLabels.Sync | internal/dockerlabels/watcher.go:156-240 | every container whose hostname belongs to a zone is dealt with, then rows of gone containers go; only rows the watcher created change |
| DockerLabels.SyncTwice | internal/dockerlabels/watcher.go:188-208 | while the same containers run, whose hostnames rejoin and whose labels are in normal form, the next pass changes nothing if and only if containers with one hostname have one backend, or somebody else holds it |
| DockerLabels.ContainersServed | internal/dockerlabels/watcher.go:166-234 | after a pass a container's hostname is somebody else's, as it was, or is routed to a container of that hostname and nowhere else; a row of the watcher is a running container's or released |
| DockerLabels.FreshContainer | internal/dockerlabels/watcher.go:191-206 | the row a new hostname gets, column by column |
| DockerLabels.ZoneOfLongest | internal/dockerlabels/watcher.go:252-266 | the scan's result is the longest zone the host belongs to, and is none only when there is none |
| CrdIngest.Sync | internal/crdingest/ingest.go:72-148 | every reservation is dealt with, then rows of gone reservations go; only rows of reservations change |
| CrdIngest.SyncTwice | internal/crdingest/ingest.go:99-120 | while the same reservations stand, by labels in normal form, the next pass changes nothing if and only if reservations of one label have one owner and spec, or somebody else holds it |
| CrdIngest.ReservationsServed | internal/crdingest/ingest.go:78-146 | after a pass a reserved label is somebody else's, as it was, or has a reservation's owner and spec; a row of the ingester is reserved or released |
| CrdIngest.FreshReservation | internal/crdingest/ingest.go:84-131 | the row a new reservation gets, column by column |
| Controllers.MarksExclude | internal/dockerlabels/watcher.go:179-186 | the marks by which the controllers decide never meet in one row |
| Controllers.ManifestPass | internal/api/manifest.go:113-143 | a manifest run, by whatever labels and with whatever reply, edits, adds and deletes only rows of its class if and only if it takes no row that another controller made |
| Controllers.OwnerKindPass | internal/crdingest/ingest.go:99-146 | a pass of the label watcher or the ingester touches rows of its class only |
| Controllers.ObserverPass | internal/store/observation.go:32-56 | so does a cycle of the observer |
| Controllers.NoInterference | internal/store/observation.go:32-56 | in every run of whole passes, in any order, every pass touches its own class only if and only if no manifest run takes a row that another controller made |
| Controllers.ReferencesApart | internal/api/manifest.go:113-121 | so it is when manifests' owner references are told apart from the others' |
| Controllers.RowsOutlive | internal/api/manifest.go:113-143 | a row outlives, unchanged, a stretch of such a run in which its own controller takes no step, if and only if no manifest run of the stretch takes it |
| Catalog.ValidateCapability | catalog/types.go:152-183 | permissions, roles and the entry permission fit together |
| Catalog.Validate | catalog/types.go:128-213 | accepts exactly the well-formed bundles |
| Catalog.WellFormedMeans | catalog/types.go:128-213 | what a bundle must satisfy, part by part and field by field, with nothing shared that must differ |
| Catalog.CapabilityMeans | catalog/types.go:152-183 | permissions named and described, the one for entry among them and in every role that grants any |
| Catalog.DisplayMeans | catalog/types.go:102-121 | texts within their lengths, a logo's digest, an icon's identity, a color, and links |
| Catalog.IdMeans | catalog/types.go:95-99 | an identity is up to 160 letters, digits and marks, a letter or digit first |
| CatalogStore.Store.PutEntry | internal/store/catalog.go:42-87 | one upsert with its checks: logo imported, version published, identity unchanged, natural key free |
| CatalogStore.PutRefused | internal/store/catalog.go:42-130 | an item is refused if and only if its logo was not imported, its version is not published, it changes what may not change, or its key is another's |
| CatalogStore.BundleStored | internal/store/catalog.go:88-132 | a publication stores the application and every part as it is, under its id, and changes no other row |
| CatalogStore.KeysUnique | internal/store/catalog.go:74-79 | no two services of an application share a key, and no two resources environment, workspace and key |
| CatalogStore.Store.ApplyCatalog | internal/store/catalog.go:27-132 | all of a bundle or nothing; the preflight answers exactly what publication would |
| CatalogStore.Store.DeactivateDeployment | internal/store/catalog.go:183-211 | only the lifecycle of that deployment changes |
| CatalogStore.PublishSound | internal/store/catalog.go:42-132 | a publication keeps natural keys unique and in agreement with the data, references inside their application, and only adds or replaces |
| CatalogStore.RunKeeps | internal/store/catalog.go:16-211 | over every sequence of publications and deactivations the tables stay sound and no row is lost or changes identity |
| CatalogStore.NothingRepublished | catalog/types.go:37-39 | over every sequence of calls a published capability never changes, and neither do project, application, key, service, environment, workspace, zone and owner of the other parts |
| CatalogAccess.Snap | internal/store/catalog.go:135-181 | each row of the application, or each row at all, once, in the list of its kind |
| CatalogAccess.Inherit | catalog/access.go:42-67 | gaps are filled from the parent, own links win |
| CatalogAccess.Access | catalog/access.go:12-40 | on any snapshot: the deployments of this environment and workspace that are registered and select a version, whose parts are all in it, in order, with those parts |
| CatalogAccess.KeyUnambiguous | catalog/types.go:95-99 | a version key names one service and one version |
| CatalogAccess.AccessTotal | catalog/access.go:12-40 | on a snapshot of sound tables, full or of one application: one entry, in list order, for exactly the deployments of this environment and workspace that are registered with a selected version, its parts naming each other |
| CatalogAccess.DeactivatedNotEntered | internal/store/catalog.go:183-211 | once a deployment is deactivated, no snapshot of the tables lists it |
| Supervisor.CrashWindow | internal/supervise/supervisor.go:282-290 | the pruned list is exactly the failures of the last minute since parking ended if and only if none of them was a minute old when a later one was recorded, so on every clock that never steps back; it is never longer |
| Supervisor.ExitCounts | internal/supervise/supervisor.go:193-208 | over every run of sections, an exit is recorded as a failure if and only if its boot was not ended, or a later boot has begun and was not; the exit of a stopped boot counts exactly when a request has booted again |
| Supervisor.ExitParks | internal/supervise/supervisor.go:204-212 | over every run, an exit parks if and only if it is recorded and leaves three survivors; these are never more than the failures of the last minute since parking ended, and are those exactly when none of those was a minute old when a later one was recorded |
| Supervisor.Process.RecordFailure | internal/supervise/supervisor.go:282-290 | the loop keeps the list refined to the history: the survivors, with the exact condition for all of the last minute |
| Supervisor.Process.Ensure | internal/supervise/supervisor.go:85-113 | what a caller is told in each state, and what that leaves |
| Supervisor.Process.ReadPort | internal/supervise/supervisor.go:152-152 | a boot reads the port without the lock |
| Supervisor.Process.ClaimPort | internal/supervise/supervisor.go:153-163 | a boot that read none is answered with the owner's grant, while others insert rows |
| Supervisor.Process.Launched | internal/supervise/supervisor.go:185-188 | the port becomes what the boot chose, which is the port already set while the grant is kept |
| Supervisor.PortNeverChanges | internal/supervise/supervisor.go:151-188 | over every run of such sections, with any number of boots under way and others claiming for the owner, a port once set never changes while the grant is kept |
| Supervisor.Process.Exited | internal/supervise/supervisor.go:193-214 | what the exit of a given boot leaves, as a section of the run: recorded if and only if that boot was not ended or a later one is up, and parked if and only if recorded with three survivors |
| Supervisor.Process.TimedOut | internal/supervise/supervisor.go:254-258 | stops the process whatever its state, and records a failure |
| Supervisor.Process.Stop | internal/supervise/supervisor.go:327-334 | ends the latest boot; its exit is still to come |
| LogRing.LinesAreStream | internal/supervise/supervisor.go:414-430 | lines and rest are the stream, and hold no newline themselves |
| LogRing.LinesConcat | internal/supervise/supervisor.go:414-430 | how output is cut into chunks makes no difference |
| LogRing.Ring.Write | internal/supervise/supervisor.go:414-430 | after any chunk the ring holds exactly the last `max` complete lines of everything written, and the unfinished line |
| LogRing.Ring.Tail | internal/supervise/supervisor.go:432-439 | the last n of those lines |
| Counterexamples.PendingTakenOver | internal/api/manifest.go:119-126 | a run that takes a pending row over; the row stays pending and its hostname is not found |
| Counterexamples.FinalDotZone | internal/proxy/table.go:94-94 | a run for zone `test.` on an empty table, whose hostname `app.test.` is not found |
| Counterexamples.NotPlainNotFound | internal/proxy/table.go:94-97 | no manifest with one hostname in a zone that is not plain has it found as it is written |
| Counterexamples.ClaimedAndPruned | internal/api/manifest.go:92-140 | a run that claims a label in normal form and prunes it |
| Counterexamples.AcceptedThenRejected | internal/core/normalize.go:70-81 | a label that normalizes to the empty one, which is rejected |
| Counterexamples.AvailableButTaken | internal/service/alloc.go:77-90 | a table on which a label is available and its claim is refused |
| Counterexamples.ReservationTakenOver | internal/crdingest/ingest.go:84-87 | a run of a manifest that takes over the row the ingester made for the reservation p/s |
| Counterexamples.RouteTakenOver | internal/observe/k8s.go:340-346 | a run of a manifest that takes over the row the observer made for the route p/s |
| Counterexamples.TwoContainers | internal/dockerlabels/watcher.go:188-208 | two running containers with one hostname: whenever the next pass comes, it writes again |
| Counterexamples.ApexNeverSettles | internal/dockerlabels/watcher.go:203-234 | a container named "@." before its zone: every pass claims the apex and releases it |
| Counterexamples.ParkedByStops | internal/supervise/supervisor.go:193-214 | three stops, each followed by a request before the command exits, park a process that never crashed |
| Counterexamples.CountedTwice | internal/supervise/supervisor.go:254-258 | one missed health check, a request, and the exit of the command: two failures |
| Counterexamples.ForgottenCrash | internal/supervise/supervisor.go:282-290 | a log of three crashes of the last minute of which the list keeps two |

## Left out

- Normalize.Normalize: letter case is ASCII case; compatibility folding is assumed only to leave ASCII alone, and the IDNA mapping is arbitrary. Lengths count characters, which after encoding are bytes.
- Registry.Store.CreateAllocation: creation time and conditions are not modelled, ids come from a sequence and are never used twice, and the audit event is written with the row, where the code writes it afterwards and ignores its failure.
- Registry.Store.ListAllocations: the order of the rows is not modelled; no caller's result depends on it but the choice between rows that want one route.
- Registry.Store.ReconcileObservations: database failures are modelled here, in the observer and in port claims; elsewhere statements are assumed to go through.
- Lifecycle.RetirementEvidence: no other writer touches the row, and the observer's settings do not change, as the promise needs.
- Observer.Watcher.Reconcile: conflict reports other than the shadow check, gauges and logs are left out.
- Pagination.FetchList: HTTP, decoding and the parsing of match rules are left out; a page is given with its routes.
- Ports.Tables.Claim: a bind test answers the same within one claim; the look for the pool and the one for the owner's row are one call, and so are the read of a squatted grant and its mark.
- Apply.Server.Prune: a reply does not say which rows were pruned, only whether any was.
- Apply.Server.HandleManifestApply: one clock reading stands for the run; no other writer interleaves with it; the catalog part of the handler is not composed with it, and a refused claim is one reply where the code has several status codes.
- Manifest.Claims: environment variables, health checks and idle times of supervised backends, and the reading of numbers after a colon, are not looked into; nobody else claims ports during a compilation.
- ApplyTheorems.ApplyExact: a label that is not in normal form need not hold its spec; `ApplyTheorems.StepsAt` and `ApplyAgain.RegisteredIffSpelledNormally` say what becomes of it.
- EndToEnd.DeclaredHostResolves: the hostname's label is in normal form, no other zone has a row by the same name, no row of the zone has an empty label, and the hostname is not written `@.` before the zone.
- Proxy.Table.SortEntries: the code's sort is unspecified among equals, so only sortedness and permutation are stated.
- Shadow.ShadowCheck: order and repetition of findings are not stated.
- Reconciler.Cluster.Reconcile: nobody else writes between the list and the writes of a pass, and the list is complete, where the code lists at most a thousand objects; annotations and labels of an object are not compared by the code and not modelled.
- Allocations.Alloc.ClaimHostname: the port a claim may ask for besides the hostname is `Ports.Tables.Claim`, not composed here.
- Catalog.Validate: URLs and HTTP check definitions are answered by an oracle, and lengths count characters.
- CatalogStore.Store.ApplyCatalog: stored data is compared as values, not as JSON text.
- CatalogAccess.Snap: the order of the lists is not stated.
- Controllers.NoInterference: each pass is one step. Rows made by hand count as the manifest's class; `Takeover.TakesIff` and `Controllers.RowsOutlive` speak of each of them.
- OwnedRows.SecondPassIff: items whose labels are not in normal form, or whose rows are not wanted, are left to `OwnedRows.PassStableIff`, which speaks of the table after the first pass; the second pass is made at a time at which no row was written.
- DockerLabels.Sync: warnings, and reading containers and their default ports and networks, are left out.
- LogRing.Ring.Tail: the count is not negative; a negative one is outside the slice in the code.
- Supervisor.Process.ClaimPort: others only insert rows while a claim runs; a release is a move of its own, and a claim that fails is a boot given up.
- Supervisor.Process.Ensure: waiting, health checks, signals and the ready channel are left out; the model is one method per section that holds the lock.
- HTTP and MCP handlers, SQL text, migrations, certificates, the DNS listener, relays, process spawning, desktop and web clients: input and output.
- nginx and NPM writers: the same shape as the reconcilers.
- Blocklist files, idempotency keys, tokens: lookups.
