# Edgion verification

A Dafny model of the parts of the Edgion gateway whose correctness is not visible from reading one function at a
time, with proofs. `dafny verify dfyconfig.toml` checks everything.

## What is modelled

- **EdgionDSL** (`DslSyntax`, `DslSemantics`, `DslCompiler`, `DslBackpatch`, `DslVm`, `DslExprProof`, `DslStmtProof`,
  `DslScriptProof`, `DslSafety`, `DslInvariant`, `DslLoops`, `DslPlainLoops`). The script language has a meaning given
  directly on its syntax tree, the compiler emits stack-machine code with back-patched jumps, and the machine runs it
  under step, loop, call and stack limits. Compiled scripts end as the language says, with the same plugin calls in the
  same order, and use exactly the number of instructions the meaning prices them at; so the step limit cuts off a script
  exactly when it is below that price. Loops are shown to be folds over the numbers of a range or the items of a list.
- **Version generator and metadata** (`Versions`, `Metadata`). Any number of threads repeat clock, load and
  compare-and-swap; a run is any sequence of their actions. Versions then pass through decimal text in object metadata.
- **Configuration sync** (`EventLog`, `Publishing`, `Gateways`, `GatewayConf`, `HashHosts`, `TlsMatcher`). The controller
  keeps a ring of events from which watchers catch up, and threads draw a version before they push an event; the gateway
  collects changes into batches and hands them to a handler that maintains four stores, one of them a certificate matcher
  that depends on the order in which gateways are listed.
- **PROXY protocol** (`ProxyProtocol`), **Prometheus reader and analyses** (`Metrics`, `LbAnalysis`), **hostname patterns
  and domains** (`Hostnames`), **access-log store** (`AccessLog`), **durations** (`Durations`), **address matching and
  client addresses** (`IpRadix`), **endpoints** (`Endpoints`).

Classes and loops stand where the program updates state in place; each method is tied to a function on values, and the
theorems are about those functions and about whole runs.

## Where the code does less than one might expect

Each comes with a concrete witness and, unless it says otherwise, with the exact condition.

- A gateway that is deleted and added again between two batches is classified as an addition, and the gateway store
  refuses to replace the one it still holds; the config store does replace it (`GatewayBatches.ReAddIsLost`, `BatchIff`,
  `StoreFollowsIff`).
- Which certificate is served can depend on the order in which the gateways come out of a hash map: of two listeners for
  the same wildcard the last is kept, an exact hostname after a wildcard above it gets no list of its own, and of two for
  the same exact hostname the first is served (`TlsOrder.LastWildcardWins`, `ExactAfterWildcard`, `OrderIff`,
  `AgreementIff`, `GatewayHandler.DerivedUniqueIff`). A hostname of one label is ignored (`TlsOrder.SingleLabelIgnored`).
- A hostname lookup tries suffixes by length, so an exact key as long as some wildcard's key is also found for names that
  merely end like it (`HashHosts.NotAsPromised`, `AsPromisedIff`).
- The event store drops any event older than its own version, whichever resource it is about; nothing is lost exactly when
  events arrive in version order (`Replication.LateUpdateLost`, `NothingDroppedIff`). An event that repeats the store's
  version and changes anything is missed by a watcher that is already there, and nothing else makes a watcher inexact that
  can be served (`SameVersionMissed`, `MissedIff`, `AlwaysExactIff`). Versions drawn from the generator never repeat below saturation, so
  there watchers are exact (`Publishing.WatchersAreExact`).
- A watcher that listed at version 0 is never told that it is too old, and can miss evicted events
  (`Replication.ZeroIsNeverTooOld`, `AnswerExactIff`).
- A PROXY header whose payload exceeds 65535 bytes wraps its length field; a receiver reads back what was sent exactly
  when it does not (`ProxyProtocol.LongTlvSpills`, `RoundTripIff`).
- The access-log store can exceed its capacity by one less than the number of concurrent callers, and does
  (`AccessLogRace.CapacityBound`, `BoundReached`).
- The duration parser panics on numbers and sums beyond the longest duration, such as `100000000000000000000s`, cuts
  milliseconds to 64 bits, and refuses several components that are all zero although one alone is accepted
  (`Durations.OneTooLong`, `TwiceTooLong`, `MillisCutOff`, `ZeroesRefused`, `SinglePanicsIff`, `PrintedRoundTrip`).
- `for x in list` keeps its position in a variable the script can assign; without such an assignment it visits the items in
  order (`DslLoops.IndexCanBeAssigned`, `ListVisits`, one direction).
- A backend whose port was resolved from another slice can be refused by validation (`Endpoints.MixedSlicesRefused`,
  `ResolvedAcceptedIff`).
- At the largest 64-bit value two calls return the same version (`Versions.SaturationRepeats`, `IncreasingIff`).
- The comment on `AccessLogStore::store` says a full store still accepts entries; the code returns an error, and so does
  the model.

## Model

| member | source | states |
|---|---|---|
| `DslCompiler.AddConst` | src/core/gateway/plugins/http/dsl/lang/compiler.rs:110-140 | the pool only grows, and the returned index holds the constant asked for |
| `DslBackpatch.Compiler.PatchJump` | src/core/gateway/plugins/http/dsl/lang/compiler.rs:97-107 | the length and all other instructions are kept, and a jump at the index, of the same kind as before, now leads to the next instruction to be emitted |
| `DslBackpatch.Compiler.LeaveScope` | src/core/gateway/plugins/http/dsl/lang/compiler.rs:190-200 | the popping loop removes exactly the variables declared since the scope was entered |
| `DslBackpatch.Compiler.CompileShortCircuit` | src/core/gateway/plugins/http/dsl/lang/compiler.rs:523-549 | both placeholder jumps of a short-circuit operator end up with the offsets of the relocatable code |
| `DslBackpatch.Compiler.CompileIf` | src/core/gateway/plugins/http/dsl/lang/compiler.rs:281-321 | after the final patching loop every branch jumps past the last one, for any chain of branches |
| `DslBackpatch.Compiler.CompileForRange` | src/core/gateway/plugins/http/dsl/lang/compiler.rs:323-385 | emits the range loop with its hidden end variable, refusing exactly what the code generator refuses |
| `DslBackpatch.Compiler.CompileForIn` | src/core/gateway/plugins/http/dsl/lang/compiler.rs:387-452 | emits the list loop with its hidden list and index, and restores the scope |
| `DslBackpatch.Compiler.CompileWhile` | src/core/gateway/plugins/http/dsl/lang/compiler.rs:454-482 | emits the condition, the patched exit and the backward jump |
| `DslBackpatch.CompileProgram` | src/core/gateway/plugins/http/dsl/lang/compiler.rs:65-85 | the imperative compiler accepts the same programs as the code generator and yields the same script |
| `DslVm.Execute` | src/core/gateway/plugins/http/dsl/lang/vm.rs:201-646 | the dispatch loop is the bounded iteration of one machine cycle, for any script |
| `DslExprProof.ExprCorrect` | src/core/gateway/plugins/http/dsl/lang/compiler.rs:486-712 | compiled expressions push their value, or fail with their error, after exactly the instructions they are priced at |
| `DslExprProof.ShortCircuitCorrect` | src/core/gateway/plugins/http/dsl/lang/compiler.rs:523-549 | the right operand runs only when the left one does not decide, and its effects are kept |
| `DslScriptProof.StmtCorrect` | src/core/gateway/plugins/http/dsl/lang/compiler.rs:204-279 | compiled statements lead to the environment, verdict or error of the statement, at its price |
| `DslScriptProof.BranchesCorrect` | src/core/gateway/plugins/http/dsl/lang/compiler.rs:281-321 | exactly the first branch with a truthy condition runs, in its own scope |
| `DslScriptProof.WhileLoopCorrect` | src/core/gateway/plugins/http/dsl/lang/compiler.rs:454-482 | every number of iterations, including the one that exceeds the loop limit, agrees with the meaning |
| `DslLoops.RangeVisits` | src/core/gateway/plugins/http/dsl/lang/compiler.rs:323-385 | in an accepted program a range loop runs its body once for each number from start to end - 1, in order, the end being evaluated once and first |
| `DslPlainLoops.RangeLoopIsFold` | src/core/gateway/plugins/http/dsl/lang/compiler.rs:323-385 | if the script does not mention the hidden end, the loop is the plain fold over those numbers, binding the loop variable and nothing else |
| `DslLoops.ListVisits` | src/core/gateway/plugins/http/dsl/lang/compiler.rs:387-452 | in an accepted program that does not assign the hidden index, a list loop runs its body once for each item, in order, and not at all on anything but a list |
| `DslPlainLoops.ListLoopIsFold` | src/core/gateway/plugins/http/dsl/lang/compiler.rs:387-452 | if the body does not mention the hidden variables, the loop is the plain fold over the items |
| `DslLoops.IndexCanBeAssigned` | src/core/gateway/plugins/http/dsl/lang/compiler.rs:405-409 | a loop that assigns the hidden index is accepted, and visits only the first of two to six items |
| `DslScriptProof.ScriptCorrect` | src/core/gateway/plugins/http/dsl/lang/compiler.rs:65-85 | whole scripts: same verdict or error, same plugin calls, exact instruction count, including falling off the end |
| `DslScriptProof.CompileAndExecute` | src/core/gateway/plugins/http/dsl/lang/vm.rs:201-217 | compiling and executing ends as the language says, and runs out of steps exactly when the limit is below the price |
| `DslSafety.NeverInternal` | src/core/gateway/plugins/http/dsl/lang/vm.rs:134-146 | no accepted program ends in the machine's internal error, under any limits and after any number of steps |
| `DslInvariant.ScriptFits` | src/core/gateway/plugins/http/dsl/lang/compiler.rs:65-85 | in all generated code slots, constants and their kinds are in range, and every jump stays within the code |
| `DslInvariant.ReachableWellPlaced` | src/core/gateway/plugins/http/dsl/lang/vm.rs:201-646 | in every state a compiled script reaches, the next instruction finds its operands, slot, constant, jump target and the loop it closes |
| `Versions.InvRun` | src/core/common/utils/mod.rs:36-57 | in every reachable state the word never decreases and stays within one of the clock per success |
| `Versions.IncreasingIff` | src/core/common/utils/mod.rs:43-55 | published versions strictly increase exactly when nothing is published over the largest value |
| `Versions.NoSaturation` | src/core/common/utils/mod.rs:43-48 | largest clock reading plus number of successes bounds the word, and below 2^64 no increment saturates |
| `Versions.UniqueAndOrdered` | src/core/common/utils/mod.rs:29-57 | in every interleaving below saturation returned versions are distinct, and a call invoked after another returned gets a larger one |
| `Versions.SoloCall` | src/core/common/utils/mod.rs:36-57 | a call nobody disturbs succeeds in its first round, publishing the clock or one more than the last version |
| `Versions.SaturationRepeats` | src/core/common/utils/mod.rs:47 | two calls at the largest clock reading return the same version |
| `Versions.RetryBound` | src/core/common/utils/mod.rs:37-56 | failed and doomed swaps together are at most (threads - 1) per success, if no thread's loads go backwards |
| `Versions.CurrentLoadsCoherent` | src/core/common/utils/mod.rs:43 | loads of the current value never go backwards, so the bound covers them |
| `Metadata.Resource.SetSyncVersion` | src/types/resource/meta/traits.rs:67-75 | inserts the annotation, creating the map if there is none |
| `Metadata.Resource.CleanMetadata` | src/core/common/utils/metadata_filter.rs:35-54 | the removal loop leaves the unblocked annotations, and no map at all when none is left |
| `Metadata.VersionRoundTrip` | src/types/resource/meta/traits.rs:47-53 | any 64-bit version survives printing into metadata and parsing back |
| `Metadata.SyncRoundTrip` | src/types/resource/meta/traits.rs:57-75 | reading back a sync version; key, version and other annotations untouched |
| `Metadata.SyncCommutesIff` | src/core/common/utils/metadata_filter.rs:35-54 | setting the sync version commutes with filtering exactly when its annotation is not blocked |
| `Metadata.CleanKeepsTheRest` | src/core/common/utils/metadata_filter.rs:35-54 | filtering hides exactly the blocked annotations, settles after one pass, and keeps key and version |
| `Metadata.WrittenVersionsGrow` | src/core/controller/api/common.rs:154-160 | over any run below saturation, versions written one after the other read back in increasing order |
| `ProxyProtocol.Encoding` | src/core/common/utils/proxy_protocol.rs:79-140 | for every input the header is 16 bytes, the address block and all TLVs long |
| `ProxyProtocol.Builder.Build` | src/core/common/utils/proxy_protocol.rs:79-140 | the four address cases and both TLV loops assemble that header |
| `ProxyProtocol.EncodeInto` | src/core/common/utils/proxy_protocol.rs:44-49 | appends type, big-endian length and value |
| `ProxyProtocol.RoundTripIff` | src/core/common/utils/proxy_protocol.rs:79-140 | a decoder written from section 2.2 of the PROXY protocol specification returns addresses, ports, TLVs and the following bytes exactly when the payload fits 16 bits |
| `ProxyProtocol.DecodeThenEncode` | src/core/common/utils/proxy_protocol.rs:79-140 | whatever the decoder accepts is the encoding of what it read, and it read canonical addresses |
| `ProxyProtocol.EncodingInjective` | src/core/common/utils/proxy_protocol.rs:79-140 | headers are self-delimiting, and equal only for inputs that differ by the IPv4-mapped form |
| `ProxyProtocol.LongTlvSpills` | src/core/common/utils/proxy_protocol.rs:44-49 | a TLV of 65536 bytes wraps both length fields: it is received empty, and its value as what follows the header |
| `Metrics.ParseLabels` | examples/code/client/metrics_helper.rs:325-387 | the character loops terminate, each round consuming input, and compute the label scanner |
| `Metrics.ParseMetricLine` | examples/code/client/metrics_helper.rs:290-320 | labels between first and last brace, count after it, or nothing |
| `Metrics.BracesInOrder` | examples/code/client/metrics_helper.rs:292-294 | on every line that reaches it, the last closing brace follows the first opening one, so the slice is in bounds |
| `Metrics.ParseBackendMetrics` | examples/code/client/metrics_helper.rs:265-285 | comments, blank lines and other metrics are skipped, the rest is read in order |
| `Metrics.ValueRoundTrip` | examples/code/client/metrics_helper.rs:351-380 | an escaped value is read back whatever characters it holds, and reading stops at its own closing quote |
| `Metrics.LabelsRoundTrip` | examples/code/client/metrics_helper.rs:325-387 | printed label lists are read back, later labels overriding earlier ones |
| `Metrics.DocumentRoundTrip` | examples/code/client/metrics_helper.rs:265-387 | printed samples with arbitrary label values, between comments and other metrics, come back in order with labels and counts |
| `Metrics.MetricRoundTrip` | examples/code/client/metrics_helper.rs:265-387 | the metrics of a scrape, whatever their strings and whatever lines stand between them, are read back in order, field by field |
| `LbAnalysis.AnalyzeLbDistribution` | examples/code/client/metrics_helper.rs:390-413 | the total is the sum over services, the endpoint sums are the requests that carry an address and a port, and no group exceeds the total |
| `LbAnalysis.GroupCounts` | examples/code/client/metrics_helper.rs:395-410 | each group holds the requests of its own samples, and exists if there are any samples |
| `LbAnalysis.AnalyzeChashConsistency` | examples/code/client/metrics_helper.rs:452-515 | totals, bounds between consistent, keyed and all requests, the primary endpoint of each key, exactly the inconsistent keys, and consistency itself |
| `LbAnalysis.ConsistentIff` | examples/code/client/metrics_helper.rs:505-507 | consistent exactly when some key occurs with an endpoint and none occurs with two |
| `LbAnalysis.KeyedSum` | examples/code/client/metrics_helper.rs:457-485 | every keyed request is counted under its key |
| `MapSums.MaxTimesSize` | examples/code/client/metrics_helper.rs:492-497 | the largest count times the number of endpoints is at least the key's total |
| `Domains.IsValidDomain` | src/types/schema.rs:4-63 | true exactly for two or more labels, each non-empty, of letters, digits and inner hyphens |
| `Domains.JoinedDomains` | src/types/schema.rs:4-63 | joining two names gives a valid domain exactly when all labels of both are valid |
| `Hostnames.WildcardMatch` | src/types/resources/edgion_tls.rs:383-467 | the two-pointer loop terminates in bounds and is true exactly when label counts agree, stars form a prefix, each star faces a non-empty label and every other label is equal |
| `Hostnames.DomainMatchesItself` | src/types/resources/edgion_tls.rs:383-467 | a valid domain matches itself alone |
| `Hostnames.StarsMatchSubdomains` | src/types/resources/edgion_tls.rs:383-467 | k stars before a valid domain match exactly its subdomains k labels deep |
| `Hostnames.MatchesHostname` | src/types/resources/edgion_tls.rs:358-376 | true exactly when some host equals the name or matches it as a pattern once both are lower-cased, whatever lower-casing does |
| `Hostnames.HostListInvariance` | src/types/resources/edgion_tls.rs:358-376 | letter case on either side, order and repetition in the list do not matter |
| `Hostnames.WildcardHost` | src/types/resources/edgion_tls.rs:358-376 | a host with k stars before a valid domain, in any case, serves the subdomains k labels deep, in any case, and its own literal text |
| `AccessLog.AccessLogStore.StoreEntry` | src/core/gateway/observe/access_log_store.rs:98-122 | counter, periodic cleanup, capacity check with second cleanup, and insertion or refusal |
| `AccessLog.GetIsRemembered` | src/core/gateway/observe/access_log_store.rs:98-156 | after any run with a non-decreasing clock, lookups and listings answer from the plain record of calls, whenever cleanups ran |
| `AccessLog.RefusedIff` | src/core/gateway/observe/access_log_store.rs:106-111 | a store is refused exactly when as many entries as the capacity are still alive |
| `AccessLogRace.CapacityBound` | src/core/gateway/observe/access_log_store.rs:105-119 | N concurrent callers never hold more than capacity + N - 1 entries, in any reachable state |
| `AccessLogRace.BoundReached` | src/core/gateway/observe/access_log_store.rs:105-119 | for every capacity and N some run reaches that number |
| `Durations.ParseCombinedLoop` | src/core/common/utils/duration.rs:118-166 | the loops compute the combined grammar, panicking exactly when a component or the running total does not fit a duration |
| `Durations.Concatenation` | src/core/common/utils/duration.rs:51-166 | if the combined grammar accepts two texts, the parser reads their concatenation as the sum if that fits a duration, and panics if not |
| `Durations.PrintedRoundTrip` | src/core/common/utils/duration.rs:51-166 | printed whole components, any units in any order, are read back exactly unless they are several and all zero, or milliseconds exceed 64 bits, or the sum exceeds a duration; only the last makes the parser panic |
| `Durations.SingleComponent` | src/core/common/utils/duration.rs:51-115 | on a number followed by letters the parser agrees with the single grammar, in values, errors and panics, zero included |
| `Durations.SinglePanicsIff` | src/core/common/utils/duration.rs:99-112 | one component panics exactly when its number of seconds, minutes or hours is more than a duration holds |
| `Durations.SingleAccepted` | src/core/common/utils/duration.rs:51-115 | whatever the single grammar accepts or panics on, also with white space, the parser does alike |
| `Durations.ZeroesRefused` | src/core/common/utils/duration.rs:161-163 | 0h is read as zero, 0h0m is refused |
| `Durations.OneTooLong` | src/core/common/utils/duration.rs:106 | 10^20 seconds make the parser panic |
| `Durations.TwiceTooLong` | src/core/common/utils/duration.rs:146 | 10^19 seconds are accepted, and written twice they make the parser panic |
| `Durations.MillisCutOff` | src/core/common/utils/duration.rs:105 | 2^64 milliseconds are read as one millisecond less |
| `GatewayKeys.RemovalFindsConfig` | src/core/gateway/runtime/handler.rs:135-142 | exactly the namespaces and names for which splitting the key finds the config entry again |
| `GatewayKeys.PlainNamesAddressable` | src/core/gateway/runtime/handler.rs:135-142 | slash-free names outside an empty namespace have one key in all stores |
| `GatewayHandler.PortEntriesIff` | src/core/gateway/runtime/store/port_gateway_info.rs:68-110 | a port has an entry for each of its listeners that is not conflicted, and no other |
| `HashHosts.HashHost.Insert` | src/core/common/matcher/host_match/hash_match/hash_host.rs:38-61 | valid patterns are stored under their key with the wildcard lengths kept in descending order, others are refused |
| `HashHosts.HashHost.FindKey` | src/core/common/matcher/host_match/hash_match/hash_host.rs:87-110 | the name itself, or else its longest proper suffix that has a registered length and is a key |
| `HashHosts.InsertedConsistent` | src/core/common/matcher/host_match/hash_match/hash_host.rs:38-61 | every insertion keeps the keys well formed and the lengths exactly those of the wildcard keys |
| `HashHosts.AsPromisedIff` | src/core/common/matcher/host_match/hash_match/hash_host.rs:4-15 | lookups find the name or else the most specific wildcard above it, for every name, exactly if no exact key is as long as a wildcard's key |
| `HashHosts.NotAsPromised` | src/core/common/matcher/host_match/hash_match/hash_host.rs:74-82 | an exact key as long as a wildcard's key is found for a name that merely ends like it |
| `TlsOrder.ListenerOrderIff` | src/core/gateway/runtime/matching/tls.rs:124-173 | certificates do not depend on the order of the listeners exactly when no two share a key and no exact hostname would be found under another one's key |
| `TlsOrder.OrderIff` | src/core/gateway/runtime/matching/tls.rs:114-173 | the same for the order of gateways, each with its listeners in their own order, if no gateway clashes with itself |
| `TlsOrder.AgreementIff` | src/core/gateway/runtime/matching/tls.rs:114-173 | with any clashes inside gateways, if no exact hostname would be found under another exact one: the order of gateways does not matter exactly when any two, each on its own, decide every hostname alike and end alike every wildcard that has a name left to it |
| `TlsOrder.KeysHeld` | src/core/gateway/runtime/matching/tls.rs:160-169 | if gateways agree about hostnames, a run has lists for just the keys that some gateway keeps on its own |
| `TlsOrder.FoundUnder` | src/core/common/matcher/host_match/hash_match/hash_host.rs:63-85 | and finds under a wildcard just the names left to it: those for which no longer key that lookups try is held |
| `TlsOrder.LastWildcardWins` | src/core/gateway/runtime/matching/tls.rs:165-169 | of two listeners for *.example.com on one port only the one listed last is kept |
| `TlsOrder.ExactAfterWildcard` | src/core/gateway/runtime/matching/tls.rs:165-169 | www.example.com is served the wildcard's certificate if listed after *.example.com, and its own if listed before |
| `TlsOrder.SingleLabelIgnored` | src/core/gateway/runtime/matching/tls.rs:165-169 | a listener for localhost leaves the matcher empty |
| `GatewayHandler.TlsEntriesIff` | src/core/gateway/runtime/matching/tls.rs:114-158 | a port is offered an entry for each of its listeners that terminates TLS for a hostname, and no other |
| `GatewayHandler.RebuildTls` | src/core/gateway/runtime/matching/tls.rs:109-192 | the nested loops register the listeners of each port in listing order |
| `DerivedIndex.Rebuild` | src/core/gateway/runtime/store/port_gateway_info.rs:64-110 | the nested loops collect, under each key, all entries of all gateways |
| `DerivedIndex.GroupPermuted` | src/core/gateway/runtime/store/gateway.rs:63-65 | listing the gateways in another order changes no group |
| `GatewayHandler.DerivedUnique` | src/core/gateway/runtime/handler.rs:152-156 | the port map is determined by the gateway store for any iteration order, and so are all certificates served if the listeners are settled |
| `GatewayHandler.DerivedUniqueIff` | src/core/gateway/runtime/handler.rs:152-156 | if on every port exact hostnames are not found under exact ones or gateways do not clash with themselves, certificates are the same for every iteration order exactly when the listeners are settled |
| `GatewayHandler.Handler.FullSet` | src/core/gateway/runtime/handler.rs:26-66 | the gateway store holds exactly the data, the config store what it makes of the gateways one by one in some order, also where its own keys coincide, and port map and TLS matcher are built from the data in some listing order |
| `GatewayHandler.Handler.PartialUpdate` | src/core/gateway/runtime/handler.rs:68-157 | what each store makes of a delta, for any overlap of its parts and any names, and that the derived structures follow the gateway store |
| `GatewayHandler.AddressableFull` | src/core/gateway/runtime/handler.rs:26-66 | gateways with one key in all stores are exactly what the config store holds after a full set |
| `GatewayHandler.AddressablePatched` | src/core/gateway/runtime/handler.rs:68-157 | and after a delta it holds the patched gateways, whatever the iteration order |
| `GatewayHandler.PartialIsFullIff` | src/core/gateway/runtime/handler.rs:26-157 | with settled listeners a delta leaves what a full set of the patched data would, exactly when no added gateway differs from one already there |
| `GatewayHandler.DeltaIff` | src/core/gateway/runtime/handler.rs:26-157 | under the same proviso a delta is as good as a full set for every iteration order exactly when it replaces nothing and the listeners are settled |
| `GatewayBatches.Classify` | src/core/gateway/conf_sync/cache_client/cache_data.rs:155-178 | a changed key that is present counts as added if any of its changes was an addition, else as updated; an absent one as removed |
| `GatewayBatches.BatchIff` | src/core/gateway/conf_sync/cache_client/cache_data.rs:121-210 | a batch always brings the config store up to date, and the gateway store exactly when no re-added gateway differs |
| `GatewayBatches.ReAddIsLost` | src/core/gateway/runtime/store/gateway.rs:30-37 | deleting and adding a gateway between two batches leaves the old one in the store |
| `GatewayBatches.BatchUnderKeys` | src/core/gateway/conf_sync/cache_client/cache_data.rs:121-210 | what a batch hands over is stored under its keys |
| `GatewayBatches.StoreFollowsIff` | src/core/gateway/conf_sync/cache_client/cache_data.rs:121-210 | the store equals the copy after every batch of a run exactly when in each batch no re-added gateway differs |
| `GatewayBatches.StoreFollowsData` | src/core/gateway/conf_sync/cache_client/cache_data.rs:121-210 | in particular if additions are new to the batch they arrive in |
| `GatewayConf.GatewayBaseConf.constructor` | src/types/gateway_base_conf.rs:16-33 | the index agrees with the list, duplicates or not |
| `GatewayConf.GatewayBaseConf.RebuildGatewayMap` | src/types/gateway_base_conf.rs:36-42 | restores agreement from any state |
| `GatewayConf.GatewayBaseConf.AddGateway` | src/types/gateway_base_conf.rs:76-89 | replaces the first gateway with that key in place, or appends, keeping agreement |
| `GatewayConf.GatewayBaseConf.RemoveGateway` | src/types/gateway_base_conf.rs:92-97 | drops exactly the gateways with that key, keeping agreement |
| `GatewayConf.GatewayBaseConf.HasGateway` | src/types/gateway_base_conf.rs:100-103 | true exactly when the gateway is listed |
| `GatewayConf.AddRefines` | src/types/gateway_base_conf.rs:76-89 | adding is insertion into an ordered map: updates keep their position, new keys come last |
| `GatewayConf.RemoveRefines` | src/types/gateway_base_conf.rs:92-97 | removing deletes that key from the ordered map and keeps the order of the others |
| `GatewayConf.RunRefines` | src/types/gateway_base_conf.rs:76-97 | every run of additions and removals is one of the ordered map, and distinct keys stay distinct |
| `Endpoints.BackendAddress.Resolve` | src/core/gateway/backends/mod.rs:267-353 | rewrites the port in place as the lookup says, or leaves the address alone |
| `Endpoints.PortNameIff` | src/core/gateway/backends/mod.rs:268-297 | a port name is looked up exactly for a service with several ports whose first port of that number has a non-empty name |
| `Endpoints.AcceptsIff` | src/core/gateway/backends/validation.rs:41-117 | an endpoint is accepted exactly when a considered group lists its address and declares its port |
| `Endpoints.ResolutionIsNarrow` | src/core/gateway/backends/mod.rs:267-353 | the IP is never touched, and the port only becomes one declared under the matching service port's name |
| `Endpoints.ResolvedAcceptedIff` | src/core/gateway/backends/validation.rs:41-117 | an address picked from the groups is accepted after resolution exactly when resolution leaves it alone or a considered group lists its IP and declares the number found for the port's name |
| `Endpoints.ResolvedIsAccepted` | src/core/gateway/backends/validation.rs:41-117 | with uniform groups it always is, in every mode |
| `Endpoints.MixedSlicesRefused` | src/core/gateway/backends/validation.rs:64-89 | without uniform groups a resolved address can be refused |
| `Endpoints.ValidateLeast` | src/core/gateway/backends/validation.rs:15-38 | the least accepting reference with its effective port, and an error only if none accepts |
| `Endpoints.ResolvedPassesRoute` | src/core/gateway/backends/validation.rs:15-38 | a resolved backend of a route passes the route's validation, at its own reference or before |
| `IpRadix.TreeMeaning` | src/core/common/matcher/ip_radix_tree/builder_v4.rs:101-121 | after any insertions each node holds the latest rule for its prefix |
| `IpRadix.FlatTreeBuilder.FlattenNode` | src/core/common/matcher/ip_radix_tree/frozen_v4.rs:206-245 | appends the subtree in preorder with the positions of its children filled in afterwards |
| `IpRadix.MatchIp` | src/core/common/matcher/ip_radix_tree/frozen_v4.rs:108-146 | walking the array, 0 meaning no child, is walking the tree |
| `IpRadix.RadixBuilder.Freeze` | src/core/common/matcher/ip_radix_tree/frozen_v4.rs:59-76 | fails exactly without rules or with more nodes than a 32-bit index names |
| `IpRadix.BuildAndMatch` | src/core/common/matcher/ip_radix_tree/matcher.rs:62-77 | inserting, freezing and walking answer with the latest rule of the longest matching prefix |
| `IpRadix.LongestDecides` | src/core/common/matcher/ip_radix_tree/frozen_v4.rs:78-90 | that answer is the covering rule that is longest and, among those, latest; none exactly when no rule covers |
| `RealIp.TrustedIff` | src/core/common/utils/real_ip_extractor.rs:112-117 | exactly the addresses in one of the configured ranges of their family are trusted |
| `RealIp.ExtractRealIp` | src/core/common/utils/real_ip_extractor.rs:139-171 | the rightmost header entry that parses and is untrusted, else the client |
| `RealIp.PrependingIsIdle` | src/core/common/utils/real_ip_extractor.rs:139-171 | once some entry is untrusted, text prepended with a comma never changes the answer |
| `RealIp.TrustingMoreMovesLeft` | src/core/common/utils/real_ip_extractor.rs:139-171 | trusting more ranges moves the chosen entry left or falls back to the client |
| `EventLog.EventStore.InitAdd` | src/core/controller/conf_sync/cache_server/store.rs:27-36 | changes data and version without logging |
| `EventLog.EventStore.Clear` | src/core/controller/conf_sync/cache_server/store.rs:44-54 | back to an empty, valid store |
| `EventLog.EventStore.ApplyEvent` | src/core/controller/conf_sync/cache_server/store.rs:56-101 | drops exactly the events older than the store, applies and logs the others |
| `EventLog.EventStore.MutUpdate` | src/core/controller/conf_sync/cache_server/store.rs:160-172 | the ring keeps exactly the latest events up to its capacity, and the version of the last one it dropped |
| `EventLog.EventStore.GetEvents` | src/core/controller/conf_sync/cache_server/store.rs:175-215 | the two scans return exactly the kept events newer than the watcher, or the right error |
| `Replication.RingCompleteIff` | src/core/controller/conf_sync/cache_server/store.rs:175-215 | the ring still holds every event a watcher needs exactly when its version is at least the expired one |
| `Replication.AnswerExactIff` | src/core/controller/conf_sync/cache_server/store.rs:175-215 | a watcher behind the store is told an error or all it needs exactly unless it is at version 0 and something has been dropped |
| `Replication.PollIsExact` | src/core/controller/conf_sync/cache_server/cache.rs:122-203 | in every run in which whoever polls can be served and no watcher already at the version of an event that repeats it has something to miss, late events included, a poll that does not end the watch leaves the watcher with exactly the store's resources and version |
| `Replication.MissedIff` | src/core/controller/conf_sync/cache_server/store.rs:60-101 | after any event the next poll is exact, or ends the watch, exactly if the event has another version than the store, or the watcher is behind or away, or nothing changes |
| `Replication.AlwaysExactIff` | src/core/controller/conf_sync/cache_server/cache.rs:122-203 | in any run, polls at all moments are exact or end the watch exactly when that holds of every event |
| `Replication.PositiveIsExact` | src/core/controller/conf_sync/cache_server/cache.rs:122-203 | from a version other than 0 on it suffices that no event repeats the store's version |
| `Replication.SameVersionMissed` | src/core/controller/conf_sync/cache_server/store.rs:60-101 | after any such run, an event with the store's own version that changes anything is applied but missed by a watcher that is already there, who counts as up to date |
| `Publishing.ReturnedVersions` | src/core/controller/conf_sync/cache_server/cache.rs:394-400 | below saturation the versions that changes are given are positive and all different |
| `Publishing.RunFair` | src/core/controller/conf_sync/cache_server/cache.rs:394-444 | however drawing and pushing interleave, no version reaches the store twice, and the store's is one that was pushed |
| `Publishing.WatchersAreExact` | src/core/controller/conf_sync/cache_server/cache.rs:394-444 | so in every such run below saturation, polls at all moments are exact or end the watch |
| `Replication.ZeroIsNeverTooOld` | src/core/controller/conf_sync/cache_server/store.rs:182-184 | for every capacity, in a run from version 0, a watcher misses an evicted addition and counts as up to date |
| `Replication.NothingDroppedIff` | src/core/controller/conf_sync/cache_server/store.rs:60-77 | no event is dropped exactly when they arrive in version order |
| `Replication.LateUpdateLost` | src/core/controller/conf_sync/cache_server/cache.rs:394-444 | an update that got its version first but arrives second is lost, although it concerns another resource |

## Left out

- The DSL lexer, parser and validator, the tables of builtin names and argument counts, and the sandbox around execution: a
  program is a syntax tree, and field access is a call without arguments.
- Values of the DSL operators, regular expressions and plugin calls are parameters, so 64-bit overflow and string limits
  appear only as errors they may return; `max_loop_depth`, jump widths and the `u8` argument count are not modelled.
- DslSafety.NeverInternal: assumes that operators and plugin calls do not themselves return the internal error; so does
  `DslInvariant.ReachableWellPlaced`, which also says nothing of an unmatched end-of-loop marker, which the machine ignores.
- DslLoops.ListVisits: assumes that comparison and increment of 64-bit integers are what they should be, and room for two
  operands; so does `DslLoops.RangeVisits`, which is about ranges between integers.
- Versions.RetryBound: needs loads that never return a value older than one the same thread has already seen, as atomics on
  one location guarantee.
- EventLog.EventStore.InitAdd: a watcher that is connected while unlogged resources are added or the store is cleared is not
  followed by the replication theorem.
- Replication.PollIsExact: channels, back-off, server identity and JSON are not modelled; a disconnected watcher lists again.
- DerivedIndex.Rebuild: the order of a port's entries is not modelled.
- GatewayHandler.RebuildTls: the hostname hash of each port is a value here, not an object updated in place; `HashHosts`
  has the object. Removal from it and the resolved secrets of an entry are left out.
- GatewayHandler.DerivedUniqueIff: leaves open ports on which one exact hostname, as long as a wildcard's key, is a suffix of
  another and, besides, a gateway clashes with itself; so does `GatewayHandler.DeltaIff`.
- TlsOrder.OrderIff: is about gateways that do not clash with themselves; `TlsOrder.AgreementIff` is about those that do, and
  needs that exact hostnames are not found under exact ones.
- GatewayHandler.Handler.FullSet: the data is stored under the gateways' keys, as the cache does; the parsed listener
  configuration, `generateName`, and grouping of port entries by gateway are left out.
- Hostnames.WildcardHost: assumes that lower-casing acts on ASCII text as usual; names are character sequences.
- Durations.PrintedRoundTrip: assumes floating-point arithmetic is exact on whole amounts whose value in seconds, or in
  milliseconds, a double can hold; error texts are not modelled.
- Metrics.ParseMetricLine: the embedded JSON is read by a parameter; ratios, variance and latency statistics are left out.
- LbAnalysis.AnalyzeLbDistribution: counts are unbounded; no sum exceeds the total, so 64-bit sums are the same whenever the
  total fits.
- LbAnalysis.AnalyzeChashConsistency: likewise.
- IpRadix.BuildAndMatch: addresses and prefixes are bit sequences; parsing of CIDR text and zeroing of host bits are left out.
- RealIp.ExtractRealIp: parsing and printing of addresses are parameters.
- Endpoints.ResolvedIsAccepted: "uniform" includes that declared port numbers fit 16 bits, since resolution truncates them.
- AccessLogRace.CapacityBound: map operations are single steps, and entries are counted by key.
- ProxyProtocol.RoundTripIff: the decoder accepts only PROXY headers for TCP over IPv4 and IPv6.
- Request routing, load-balancer selection, TLS, the admin API, the workqueue and resource processing on the controller.
