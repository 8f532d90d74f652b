# Vanity Manager: a verified model

Vanity Manager is a redirect engine that keeps two copies of its rules. The
control plane (Rust) holds them in a key-value store and projects them into
EdgeKV: one item per exact rule, one sharded, pre-sorted manifest of prefix
rules per host, and one sentinel per host. An EdgeWorker (JavaScript) answers
requests from the projection alone. This project models both sides in Dafny and
proves that they agree.

`dafny verify dfyconfig.toml` checks everything.

## How the model is built

* **Failures.** Every request to EdgeKV has a fate: acknowledged, refused, or
  carried out although the caller sees an error. A `Net` fixes the fate of each
  request by its number, so a statement for all nets is a statement for all
  patterns of failures, including pushes that stop between two shards.
* **Order.** The store promises no order for its keys. Everything that scans it
  is stated for every duplicate-free listing.
* **Two levels.** The mutating code (`Sync`, `AdminApi`, `EdgeStore.EdgeKv`,
  `EdgeWorker.Worker`, `Snapshot`) is written as methods on stores with fields.
  Each method is tied to a function on states (`Protocol`, `Handlers`,
  `EdgeStore`), and the laws are proved about those functions.
* **Keys.** The protocol uses structured keys. `Keys`, `EkvKeys` and `Subjects`
  prove that the strings carry the same information, and exactly when they do.
  The EdgeWorker reads a store of item names, by the names it computes; `Names`
  and `Refinement` carry that over to keys.
* **Strings** are sequences of Unicode scalar values, as in Rust; lengths and
  order are those of their UTF-8 bytes (section 3 of RFC 3629) where Rust
  measures bytes, and UTF-16 code units where JavaScript encodes them.
  `CodeUnits` shows that its comparing and slicing by units is by characters.

| file | what it covers |
|---|---|
| Text, Folding, Paths, Model | strings, case, white space, UTF-8, path normalisation in both languages, records |
| Keys, EkvKeys, Subjects, Spellings | rule keys and marker targets, EdgeKV item names, NATS subjects |
| Manifest, EdgeStore | building, sharding, reading and scanning a prefix manifest |
| Listings, Protocol, Sync | the write-through and reconcile protocol |
| Accounting, Markers, Coverage, Convergence | drain accounting, single markers and requests, the coverage invariant, eventual consistency |
| Handlers, AdminApi, Mutations, Admission | creates, updates, deletes and host updates |
| LastWriter, Imports, ImportCoverage, ImportReport, Reimport, Counts | bulk import, what it announces and reports, its second run, rule counts |
| Names, CodeUnits | item names against keys, and what the EdgeWorker makes of strings |
| Lookup, EdgeWorker, Answers, HostNames, Refinement, SentinelCache | resolution on both sides, what it means, and their agreement |
| Snapshot | publishing the catalog and seeding an empty store from it |
| Provenance, Runs, Histories, EndToEnd | whole runs, where everything in EdgeKV comes from, and the end-to-end statement |
| Witnesses, EdgeWitnesses | concrete inputs for the properties that fail |

## Main results

* `EndToEnd.EdgeEventuallyAgrees`: after any run of mutations and drains with any
  failures, over plain hosts, careful about one host in two respects (below), and
  enough failure-free drains, the EdgeWorker, reading EdgeKV by the item names it
  computes, answers every request for that host as the control plane does, exactly
  when the control plane has no rule, or the host is enabled and the rule does not
  append a suffix to a target ending in `//`. This holds wherever the worker looks
  where the control plane looks: for every host and path within U+FFFF, and above
  it for paths on which no exact rule is in play. What it serves otherwise is
  stated for every request by `Refinement.EdgeServesSelected`.
* `Runs.ManifestsAlwaysCovered`: in every run each host's reassembled manifest is
  right or a marker that rebuilds it is pending. Like all statements about runs
  it speaks of items by their keys. `Histories.RunsKeepNamesApart` shows that
  these are the items EdgeKV really holds as long as hosts are plain: none is named
  `_hosts` or has a bar in its name. On that condition
  `Histories.ManifestsCoveredByName` states coverage of what a worker reads by
  name.
* `Runs.ExactItemsCovered`: the same for exact items, in runs that never
  re-create the rule while its delete marker is pending.
* `Histories.EdgeServesOnlyStoredRules`: at every moment of every run over plain
  hosts, with no condition on failures, markers or caches, the edge serves only
  rules that were stored and enabled once, within U+FFFF only such as apply to the
  request.
* `Convergence.Converges`: ceil(pending / budget) drains empty the queue.
* `Refinement.EdgeRefinesControlIff`, `Refinement.DegradedReadsAreSound`: first
  match in a sorted sharded manifest is the longest enabled match of a full scan,
  and lost shards never make the edge serve a wrong rule.

* `ImportCoverage.ImportCoversIff`, `ImportCoverage.ReplaceModeIsExact`,
  `Reimport.SecondImportIff`: when a bulk import loses a host's flag, what it
  stores and deletes, and when its second run is a no-op, each decided by the
  store and the payload before the import.

* `Admission` and `ImportReport`: what each mutation replies, stores and counts,
  told from the request alone; `Answers` and `HostNames`: which requests a rule
  answers, and where they go.

## Where the code does not do what one would expect

Each has its exact condition and a concrete input.

* An exact rule re-created while its delete marker is pending is deleted from
  EdgeKV by the next drain, which does not re-read the store before deleting.
  Four requests suffice, with no failure: `Witnesses.RecreationRun`. Condition:
  `Coverage.DrainKeepsExactIff`.
* A create that is rejected as a duplicate has already written a flipped
  case flag, and nothing announces it: `Witnesses.RejectedCreateFlipsHost`,
  `Mutations.CreateCoversIff`. A bulk import loses a flip in the same way when it
  changes no rule of the host: `Witnesses.ImportFlipIsNotAnnounced`,
  `ImportCoverage.ImportCoversIff`.
* DELETE does not fold the path of its URL as POST folds the path of its body:
  `Witnesses.DeleteByCreatedPathFails`, `Mutations.DeleteByCreatedPathIff`.
* A host is split from its port after trimming on admission, before trimming in
  the resolver, and not trimmed in the EdgeWorker: `HostNames.NormalizersAgreeIff`,
  `HostNames.ResolverAgreesIff`, `Witnesses.SpacedHostIsTakenApart`. A rule stored for
  such a host cannot be addressed by a URL: `Admission.AddressIff`,
  `Witnesses.SpacedHostCannotBeAddressed`.
* The control plane ignores that a host is disabled, the edge does not:
  `EdgeWitnesses.DisabledHostDiffers`, `Refinement.EdgeRefinesControlIff`.
* The sentinel of a host named like a shard and that shard of a host named
  `_hosts` have one item name: `Witnesses.HostNamedHostsCollides`,
  `EkvKeys.ItemNamesCollideIff`.
* Rust trims all trailing slashes of a target, JavaScript one:
  `Witnesses.TwoSlashTargetDiffers`, `Refinement.LocationsAgreeIff`.
* Rust trims white space around a path, JavaScript does not, and trimming makes
  normalisation non-idempotent: `Paths.NormalizersAgreeIff`,
  `Paths.NormalizeIdempotentIff`, `Paths.NormalizeNotIdempotent`.
* The two item-name encoders part above U+FFFF: the EdgeWorker spells such a
  character as two replacement characters. An exact rule for such a path is never
  found, and a rule for the replaced path is served in its place:
  `EdgeWitnesses.SupplementaryPathIsPassed`,
  `EdgeWitnesses.SupplementaryPathIsMisserved`. Conditions: `EkvKeys.JsNameIff`,
  `Refinement.ExactRuleIsServedIff`, `Refinement.EdgeSelectsLikeControlIff`.
* The NATS codec loses characters above U+FFFF: `Subjects.SubjectRoundTripIff`,
  `Witnesses.SupplementaryKeyIsEncodedApart`; some do not even re-encode to the
  same subject: `Subjects.ReencodeIsStableIff`,
  `Witnesses.SurrogateDigitsAreMisread`.
* An import whose later entry flips the host of an earlier one is not
  idempotent: `Reimport.SecondImportIff`, `Witnesses.LateFlipExample`.
* A record for a new host brings its own rule count:
  `Counts.UpdateHostKeepsCountsIff`, `Witnesses.NewHostCountIsTrusted`.

Where code and documentation disagree, the model follows the code: the header of
`edgeworker/main.js` promises a subrequest to Functions on a read error, the code
passes through; ADR-007 says paths are stored as written, the code folds them on
case-insensitive hosts (ADR-009); the header of `admin-api/src/snapshot.rs` says
every mutation publishes, none does (ADR-012); `shared/src/ekv.rs` asks callers
to delete orphan shards, which `EdgeStore.PushRoundTrip` shows is not needed for
reading.

## Model

| member | source | states |
|---|---|---|
| EndToEnd.EdgeEventuallyAgrees | edgeworker/main.js:79-233 | after any careful run over plain hosts and enough failure-free drains, and wherever the worker looks where the control plane looks (always within U+FFFF), the answer it gives from EdgeKV under its item names equals the control plane's, exactly when there is no rule or the host is enabled and the location is not misbuilt |
| EndToEnd.CachingEdgeEventuallyAgrees | edgeworker/main.js:79-233 | the same for a worker with any history of requests and a cache, once the host's record in EdgeKV has been settled for 300000 ms |
| EndToEnd.CarefulRunsSettle | reconcile-worker/src/lib.rs:17-23 | every careful run over plain hosts that ends with credentials present can be brought to such an end, with any positive budget |
| Runs.QuiescentIsProjected | DECISIONS.md:80-85 | after such a run the queue is empty and EdgeKV is the projection of the store for the host |
| Runs.CarefulRunsQuiesce | reconcile-worker/src/lib.rs:17-23 | every careful run that ends with credentials present can be drained empty, with any positive budget |
| Runs.ManifestsAlwaysCovered | shared/src/sync.rs:156-182 | over every run with any failures, the reassembled manifest of a host is that of its current rules or a prefix marker of the host is pending; items are told apart by their keys, which is by their names where no host is called `_hosts` (Histories.RunsKeepNamesApart) |
| Runs.ExactItemsCovered | shared/src/sync.rs:254-274 | over runs that do not re-create the rule under its delete marker, its item is its projection or the fitting marker is pending, and no delete marker names a stored rule |
| Runs.CarefulRunsCover | DECISIONS.md:80-85 | any unit (manifest, exact item, sentinel) stays covered along careful runs from any kept state |
| Runs.StepCovers | shared/src/sync.rs:18-51 | every command keeps every unit covered except a drain that takes the delete marker of a stored exact rule, and a wasted flip |
| Runs.NewDeleteMarkers | shared/src/sync.rs:365-367 | a delete marker that a step adds belongs to a rule that is gone |
| Runs.RuleCountsConserved | admin-api/src/handlers.rs:992-1009 | in every run each host's count is the number of its stored rules, and a host without a record has none |
| Runs.RunsCanBeRestored | admin-api/src/snapshot.rs:34-95 | at the end of every run each rule sits under its own key and a published catalog restores rules and host records |
| Histories.EdgeServesOnlyStoredRules | edgeworker/main.js:116-201 | at every moment of every run over plain hosts, half-written pushes, unreadable items and any cached host record included, the edge passes or serves by a rule stored and enabled at some moment, of the host and for the path as the worker spells them, which within U+FFFF are those of the request |
| Provenance.ShardsGenuine | shared/src/ekv.rs:304-319 | a push that stops between two shards still leaves only entries of rules stored at some moment |
| Histories.RunsKeepNamesApart | shared/src/ekv.rs:71-88 | if no host is named `_hosts` or has a bar, then in every run item names identify the items held and asked for, and rule keys and markers are read back as written |
| Histories.ManifestsCoveredByName | edgeworker/main.js:153-190 | in every such run what a worker reads by the names it computes is the manifest of the host as it spells it, or a marker of that host is pending |
| Names.NamedRead | shared/src/ekv.rs:71-88 | on such hosts reading an item by its name is reading it by its key |
| Names.NamedWrite | shared/src/ekv.rs:243-250 | writing by name is writing by key |
| Names.NamedDelete | shared/src/ekv.rs:252-260 | deleting by name is deleting by key |
| Names.JsRead | edgeworker/main.js:48-77 | reading by the name the worker computes is reading the item of the key as the worker spells it, which within U+FFFF is the key |
| Coverage.AttemptEffect | shared/src/sync.rs:254-319 | one attempt changes at most the unit it is about, and on success brings it up to date unless the rule is gone or was re-created |
| Coverage.JobKeepsCoverage | shared/src/sync.rs:369-384 | success or failure of one operation, with its markers dropped or bumped, keeps every covered unit covered |
| Coverage.NotifyKeepsCoverage | shared/src/sync.rs:354-367 | an inline push or a queued marker after a mutation covers the unit it is about and keeps the others |
| Coverage.DrainKeepsCoverage | shared/src/sync.rs:69-248 | a whole drain keeps covered units covered under any failures, except exact rules whose delete marker it takes although they exist |
| Coverage.TakenDeleteWins | shared/src/sync.rs:206-234 | without failures a drain that takes an exact delete marker ends with the item gone, whatever else it takes |
| Coverage.DrainKeepsExactIff | shared/src/sync.rs:305-319 | exactly when a failure-free drain keeps an exact rule covered |
| Convergence.DrainOnceShrinks | reconcile-worker/src/lib.rs:17-23 | a failure-free drain removes exactly min(budget, pending) markers, whatever their order |
| Convergence.Converges | shared/src/sync.rs:69-248 | ceil(pending / budget) drains empty the queue and leave every covered unit in sync |
| Convergence.DrainsExist | shared/src/sync.rs:70-77 | a sequence of drains of any length exists |
| Accounting.JobsPartition | shared/src/sync.rs:90-130 | every taken marker lands in exactly one bucket, once |
| Accounting.DrainAccounting | shared/src/sync.rs:69-248 | drained plus errors is the number taken, drained is the number of markers that left, failed ones keep queued_at and gain one attempt, untaken ones and all rules are unchanged |
| Accounting.DrainRemovesIff | shared/src/sync.rs:132-240 | a taken marker leaves exactly when the operation of its job is acknowledged, and every taken marker has a job |
| Markers.QueuedIs | shared/src/sync.rs:344-367 | a queued marker starts anew with no attempt, no request is sent and nothing else changes |
| Markers.TriedIs | shared/src/sync.rs:369-404 | a tried marker is gone if the push is acknowledged; otherwise it keeps its time and gains an attempt, or is queued now with one |
| Markers.UnreadableStays | shared/src/sync.rs:100-127 | a marker that cannot be read is never served |
| Markers.OneJobPerHost | shared/src/sync.rs:90-182 | a drain pushes each manifest and each host record once, in byte order of the hosts |
| Markers.GoneHostIsRemoved | shared/src/sync.rs:288-303 | a push for a host without a record removes its sentinel and its first 32 shards |
| Markers.CreateRequests | admin-api/src/handlers.rs:275-284 | a create sends the rule and then the host, and each marker stays exactly if its own request is not acknowledged |
| Markers.DeleteRequests | admin-api/src/handlers.rs:353-360 | so does a delete |
| Markers.HostsArePushedInTurn | admin-api/src/handlers.rs:555-561 | the touched hosts are pushed one request each in their order |
| Accounting.FaultlessDrain | shared/src/sync.rs:132-247 | without failures exactly the taken markers are removed and no error is counted |
| Sync.BuildManifestForHost | shared/src/sync.rs:321-338 | builds the manifest of the host from whatever order the store lists its keys in |
| Sync.TryPush | shared/src/sync.rs:254-286 | puts or deletes the exact item or pushes the manifest, and does nothing for a rule that is gone |
| Sync.TryPushMeta | shared/src/sync.rs:288-303 | pushes the sentinel, or removes the host's items if it has no record |
| Sync.TryDelete | shared/src/sync.rs:305-319 | deletes the exact item without re-reading the rule, or rebuilds the manifest |
| Sync.PushRuleInline | shared/src/sync.rs:18-27 | the new state of stores and queue after an inline rule push, credentials missing included |
| Sync.PushHostInline | shared/src/sync.rs:29-39 | the same for a host record |
| Sync.PushDeleteRuleInline | shared/src/sync.rs:41-51 | the same for a rule deletion |
| Sync.FillBuckets | shared/src/sync.rs:100-127 | sorts markers into the five buckets, one group per host |
| Sync.Conclude | shared/src/sync.rs:138-153 | drops or bumps the markers of one operation and counts each |
| Sync.DrainBuckets | shared/src/sync.rs:132-240 | runs exact pushes, manifests, host records, deletes and unknown markers in that order |
| Sync.DrainPending | shared/src/sync.rs:69-248 | one drain of at most budget markers is the drain the laws are about |
| Protocol.ManifestFromAnyListing | shared/src/sync.rs:321-338 | any listing of the keys builds the same manifest, longest first, one entry per enabled prefix rule of the host and no other |
| Protocol.ManifestFrame | shared/src/sync.rs:321-338 | a manifest depends on the host's own prefix rules only |
| Manifest.BuildPrefixManifest | shared/src/ekv.rs:350-359 | filters, projects and sorts as the manifest function does |
| Manifest.SortIsLongestFirst | shared/src/ekv.rs:357-357 | entries of distinct paths end up in strict order, more bytes first, then by bytes |
| Manifest.LongestFirstUnique | shared/src/ekv.rs:347-359 | a manifest is determined by the set of its entries |
| Manifest.MatchLongestPrefix | edgeworker/main.js:249-257 | returns the first match of the list, or none |
| Manifest.MatchesIff | redirect-handler/src/lib.rs:135-135 | a rule's path matches exactly itself and what continues it with a slash |
| Manifest.FirstMatchIsLongest | edgeworker/main.js:249-257 | in a longest-first list the first match is the longest |
| Manifest.MatchesOfEqualLength | redirect-handler/src/lib.rs:135-148 | two paths matching one request at equal length are the same path |
| EdgeStore.EdgeKv.PutItem | shared/src/ekv.rs:243-250 | one PUT, which may be refused or go unacknowledged |
| EdgeStore.EdgeKv.DeleteItem | shared/src/ekv.rs:252-260 | one DELETE, missing keys included |
| EdgeStore.EdgeKv.PushManifest | shared/src/ekv.rs:292-319 | writes a bare array or the shards in turn, stopping at the first error |
| EdgeStore.EdgeKv.DeleteHostItems | shared/src/ekv.rs:323-345 | deletes the sentinel, then 32 shards ignoring errors |
| EdgeStore.ChunksPartition | shared/src/ekv.rs:304-308 | chunks of a multi-shard manifest are non-empty, within the limit and partition the entries |
| EdgeStore.RequestIs | shared/src/ekv.rs:243-260 | a request takes effect unless refused, is reported done only if acknowledged, and touches its own item only |
| EdgeStore.PushLayout | shared/src/ekv.rs:283-319 | up to 2500 entries are one bare array, more are a counted head of 2500 and arrays of 2500 and of the rest |
| EdgeStore.PushStops | shared/src/ekv.rs:304-319 | a multi-shard push stops after the first request that is not acknowledged, the shards before it written and those after it untouched |
| EdgeStore.RemoveHostRemoves | shared/src/ekv.rs:320-345 | removing a host's items takes its sentinel and first 32 shards and nothing else |
| EdgeStore.PushRoundTrip | shared/src/ekv.rs:283-319 | after a push that succeeds the edge reads exactly the pushed manifest whatever was there before, orphan shards included, and no other item is touched |
| EdgeStore.DegradedScan | edgeworker/main.js:171-188 | with later shards lost the scan yields a listed match no longer than the true one, and the true one unless its own shard is lost |
| Lookup.FindRule | redirect-handler/src/lib.rs:103-152 | returns the enabled exact rule of the folded path, else the longest enabled prefix match, else none, for any enumeration order |
| Lookup.FindBest | redirect-handler/src/lib.rs:124-151 | the scan over keys in any order returns the longest enabled match |
| Lookup.BetterIsLonger | redirect-handler/src/lib.rs:140-144 | the byte-length comparison is the character-length one, and the priority tie-break is never reached by two rules |
| Lookup.BestIsUnique | redirect-handler/src/lib.rs:124-151 | there is one best rule |
| Lookup.AnswerIsUnique | redirect-handler/src/lib.rs:103-152 | there is one right answer |
| Lookup.ExtractHost | redirect-handler/src/lib.rs:163-185 | the host of a request from its headers, or else from its URL |
| Lookup.ResolveRedirect | redirect-handler/src/lib.rs:59-101 | answers 400, 404 or the status and location of the right rule for the host of the request |
| Answers.CasingsGetOneAnswer | redirect-handler/src/lib.rs:109-113 | on a case-insensitive host paths that differ only in the case of ASCII letters get one answer |
| Answers.ExactAnswersCasings | redirect-handler/src/lib.rs:109-122 | there a stored, enabled exact rule with a lower-case path answers every casing of it |
| Answers.PrefixAnswersCasings | redirect-handler/src/lib.rs:124-151 | and a prefix rule with a lower-case path answers every casing of what it matches, unless a more specific rule does |
| Answers.ExactAnswersItsPathOnly | redirect-handler/src/lib.rs:109-122 | an exact rule answers no other path: its own, or on a case-insensitive host its own up to case |
| Answers.LocationIs | redirect-handler/src/lib.rs:83-91 | the location is the target, or the target without its trailing slashes and the rest of the path, and the query after `?`, or after `&` where there is a `?` already |
| Answers.ResponseIs | redirect-handler/src/lib.rs:59-82 | 400 exactly without a host, 404 exactly without a rule, otherwise the rule's status and location |
| Answers.DebugNeverRedirects | edgeworker/main.js:82-217 | a query with the debug flag anywhere is never redirected |
| Answers.UnmanagedPasses | edgeworker/main.js:116-127 | a request is let through when the host's record is missing, disabled or unreadable |
| EdgeWorker.Worker.GetJson | edgeworker/main.js:50-77 | reads the item of the name it encodes from the key's code units |
| EdgeWorker.Worker.HostMetaFor | edgeworker/main.js:93-114 | uses a cached record until it expires, otherwise reads and caches, caching nothing on an error |
| EdgeWorker.Worker.ReadEntries | edgeworker/main.js:153-188 | reads the head and the shards it announces, skipping unreadable ones |
| EdgeWorker.Worker.OnClientRequest | edgeworker/main.js:79-233 | the answer from EdgeKV under its item names, and the new cache, for any unreadable names and any cache, for the lower-case, port-free host that the header spells up to case, alone or before a port |
| EdgeWorker.JsHostIff | edgeworker/main.js:237-239 | every header spells exactly one lower-case, port-free host, and it is the one looked up |
| Refinement.FirstMatchIsBest | shared/src/ekv.rs:347-359 | first match in the manifest is the longest enabled rule of the scan |
| Refinement.EdgeServesSelected | edgeworker/main.js:129-201 | for every host, path and query the edge, reading by item names, serves the selected rule: of the host as spelt, the exact rule of the path as spelt before the longest prefix of the path |
| Refinement.EdgeSelectsLikeControlIff | edgeworker/main.js:48-77 | the selected rule is the control plane's exactly when the worker looks alike and the host is enabled, or neither side has a rule |
| Refinement.ExactRuleIsServedIff | edgeworker/main.js:129-146 | a stored, enabled exact rule of an enabled host is served to its own path exactly when its host and path lie within U+FFFF |
| Refinement.LocationsAgreeIff | redirect-handler/src/lib.rs:83-91 | both sides build the same location exactly when no suffix is appended to a target ending in two slashes |
| Refinement.EdgeRefinesControlIff | edgeworker/main.js:129-273 | where the worker looks alike, which within U+FFFF it always does, edge and control plane answer one request alike exactly when there is no rule, or the host is enabled and the location is not misbuilt |
| Refinement.EdgeAnswersLikeControlIff | edgeworker/main.js:129-273 | for every request, above U+FFFF too, both sides answer alike exactly when neither has a rule, or the selected rule and the control plane's agree on status and location |
| Refinement.DegradedReadsAreSound | edgeworker/main.js:116-188 | whatever item names cannot be read, the edge passes or serves a rule that is genuine, enabled and never longer than the best, for the host and path as spelt |
| SentinelCache.StalenessBound | edgeworker/main.js:28-35 | the host record in use was EdgeKV's at some moment less than 300000 ms before the request |
| SentinelCache.RecordIsKept | edgeworker/main.js:34-114 | a record that was read is used for 300000 ms, whatever becomes of EdgeKV, and read again after that |
| SentinelCache.SettledAnswerIsFresh | edgeworker/main.js:93-114 | once a record is settled for that long, a caching worker answers as a fresh one |
| AdminApi.CreateRule | admin-api/src/handlers.rs:250-289 | status and whole new state of a create |
| AdminApi.UpdateRule | admin-api/src/handlers.rs:291-336 | status and whole new state of an update |
| AdminApi.DeleteOne | admin-api/src/handlers.rs:338-363 | status and whole new state of a delete |
| AdminApi.PutHost | admin-api/src/handlers.rs:757-786 | status and whole new state of a host update, which keeps a known host's count |
| AdminApi.RunImport | admin-api/src/handlers.rs:458-587 | report and whole new state of an import in either mode |
| Admission.AcceptableIff | admin-api/src/handlers.rs:947-961 | a body is admitted exactly with a host, a target that is `http://` or `https://` and anything, and status 301, 302, 307 or 308 |
| Admission.CreateReplies | admin-api/src/handlers.rs:250-289 | which status a create gets, and that after 201 exactly the rule of the body's key is stored, agreeing with the body on every field |
| Admission.CreateRecords | admin-api/src/handlers.rs:266-273 | what becomes of the host's record: folded if it was or the body asks, counted up by a 64-bit counter, otherwise as it was |
| Admission.UpdateReplies | admin-api/src/handlers.rs:291-336 | which status an update gets, 400 when body and URL disagree, and that after 200 exactly the rule of the folded key is stored as the body says |
| Admission.DeleteReplies | admin-api/src/handlers.rs:338-363 | which status a delete gets, and that after 200 exactly the named rule is gone and its host counted down |
| Admission.AddressIff | admin-api/src/handlers.rs:1011-1020 | the URL made of a rule's host, type name and path names exactly that rule, if and only if host and path are written as they are stored |
| Admission.AddressedDelete | admin-api/src/handlers.rs:338-363 | the URL of an addressable rule of either type deletes that rule and no other |
| Admission.AddressedUpdate | admin-api/src/handlers.rs:291-336 | the URL of an addressable rule with an acceptable body of its key updates that rule and no other, on a host that does not fold |
| Admission.PutHostReplies | admin-api/src/handlers.rs:757-786 | which status a host update gets, and that the record is the body's but for its name and a known count |
| Admission.ImportStoresBody | admin-api/src/handlers.rs:473-522 | after an import in either mode the last acceptable entry of a key is stored, agreeing with it on every field |
| ImportReport.ReportIsExact | admin-api/src/handlers.rs:458-587 | what each figure counts: entries for new keys, entries held when the loop meets them, entries that differ, entries not acceptable; and the store grows by `added` and shrinks by `deleted` |
| ImportReport.HostsArePushedInOrder | admin-api/src/handlers.rs:470-561 | the touched hosts are pushed once each, in byte order |
| Mutations.WriteKeepsOthers | shared/src/sync.rs:321-338 | writing one rule and its host's record disturbs no other unit |
| Mutations.CreateCoversIff | admin-api/src/handlers.rs:258-284 | a create keeps a covered unit covered exactly when the unit is not the sentinel of a host that it flips for a stored rule with no marker of the host pending |
| Mutations.UpdateCovers | admin-api/src/handlers.rs:322-333 | an update keeps every unit covered |
| Mutations.DeleteCovers | admin-api/src/handlers.rs:346-360 | a delete keeps every unit covered |
| Mutations.UpdateHostCovers | admin-api/src/handlers.rs:774-783 | a host update keeps every unit covered |
| Mutations.DeleteUndoesCreate | admin-api/src/handlers.rs:338-352 | deleting the created rule restores the rules, the count and all other host records |
| Mutations.DeleteByCreatedPathIff | admin-api/src/handlers.rs:342-350 | deleting by the path the rule was created with finds a rule exactly when folding left the path alone or an unfolded rule was stored |
| Imports.UpsertWrites | admin-api/src/handlers.rs:487-505 | writing an entry, also one reported unchanged, leaves exactly the admitted rule under its key |
| LastWriter.OverwriteIff | admin-api/src/handlers.rs:478-505 | after a sequence of writes a rule is stored exactly when the last write to its key is this rule, or none is and it was stored before |
| Imports.ImportFlags | admin-api/src/handlers.rs:973-990 | after an import a host is case-insensitive exactly when it was, or some valid entry asks for it |
| Imports.ImportStores | admin-api/src/handlers.rs:473-522 | the upsert loop writes the entries, last one winning, and collects exactly the keys of the valid ones |
| Imports.ImportAccounting | admin-api/src/handlers.rs:465-522 | added, updated, unchanged and errors add up to the payload |
| Imports.SweepRemoves | admin-api/src/handlers.rs:524-553 | the sweep removes exactly the listed rules not in the payload, and counts them |
| ImportCoverage.ReplaceModeIsExact | admin-api/src/handlers.rs:473-553 | after a replace import exactly the rules are stored that the last entry of their key describes; `deleted` counts the stored rules the payload does not name; each of those is gone, with its item or manifest up to date or a marker pending even if it had neither, and its own delete marker queued with `?async=1` or without credentials |
| ImportCoverage.LoopTouchesIff | admin-api/src/handlers.rs:478-522 | the upsert loop touches a host exactly when some valid entry of it is not stored already as it will be folded, and otherwise changes nothing of the host but its flag |
| ImportCoverage.SweepTouchesIff | admin-api/src/handlers.rs:524-553 | the sweep touches a host exactly when it removes a rule of it |
| ImportCoverage.ImportCoversIff | admin-api/src/handlers.rs:458-561 | an import in either mode keeps a covered unit covered exactly when the unit is not the sentinel of a host that some entry flips although every entry of it is stored already, nothing of it is swept and no marker of it is pending |
| Imports.AdmittedIsNormal | admin-api/src/handlers.rs:261-267 | an admitted rule has a clean path, a host without a port and no pending fold request |
| Reimport.SecondImportIff | admin-api/src/handlers.rs:413-423 | the second run of a payload reports only unchanged entries and the same errors, and changes nothing, exactly when every valid entry, folded by the flags the whole payload sets, is what the last entry of its key writes, or is stored already under a key no entry writes |
| Reimport.SecondImportChangesNothing | admin-api/src/handlers.rs:458-522 | that is so when entries of one key agree and no flip comes after an entry it folds |
| Reimport.LateFlipReadds | admin-api/src/handlers.rs:480-484 | an entry whose finally folded key is neither stored nor written, as after a late flip, makes the payload unrepeatable |
| Counts.StoreKeepsCountsIff | admin-api/src/handlers.rs:992-1005 | storing a new rule keeps counts right exactly while the 64-bit counter has room |
| Counts.RemoveKeepsCounts | admin-api/src/handlers.rs:992-1009 | removing a stored rule keeps counts right and its decrement never clips |
| Counts.UpdateHostKeepsCountsIff | admin-api/src/handlers.rs:774-778 | a host update keeps counts right exactly when the host is known or the count sent is 0 |
| Counts.ImportKeepsCounts | admin-api/src/handlers.rs:507-551 | an import in either mode keeps counts right |
| Counts.Stats | admin-api/src/handlers.rs:792-830 | the sums over host records are the number of stored rules and of those on enabled hosts, and disabled does not wrap |
| Paths.NormalizePath | shared/src/model.rs:183-196 | the repeated replacement terminates and is the one-pass collapse of the trimmed path |
| Paths.NormalizePathJs | edgeworker/main.js:241-247 | the same without trimming |
| Paths.CollapseAfterReplace | shared/src/model.rs:189-191 | one replacement round does not change the collapse |
| Paths.CleanIsClean | shared/src/model.rs:180-196 | the result is rooted, has no empty segment and no trailing slash except at the root |
| Paths.CleanFixesClean | shared/src/model.rs:180-196 | a clean path is left alone |
| Paths.CleanIdempotent | edgeworker/main.js:241-247 | the JavaScript version is idempotent on every string |
| Paths.CleanLower | shared/src/model.rs:180-182 | normalising commutes with folding case |
| Paths.NormalizersAgreeIff | edgeworker/main.js:241-247 | the two versions agree exactly when trimming changes nothing |
| Paths.NormalizeIdempotentIff | shared/src/model.rs:183-196 | the Rust version is idempotent exactly when the last non-slash character is not white space |
| Paths.NormalizeNotIdempotent | shared/src/model.rs:183-196 | a path on which it is not |
| Folding.LowerMeaning | shared/src/model.rs:171-178 | folding changes the case of ASCII letters only and leaves no upper-case one |
| Folding.FoldsAlikeIff | shared/src/model.rs:171-178 | two strings fold to one exactly when they are the same up to ASCII case |
| Folding.TrimIsCore | shared/src/model.rs:183-185 | trimming takes the white space around a string and nothing else |
| Folding.NormalizeHostIff | shared/src/model.rs:171-178 | a host is stored as h exactly when its text without white space around it is h up to case, alone or before a port |
| Folding.NormalHostIff | shared/src/model.rs:171-178 | a host is stored as written exactly when it has no port, no upper-case letter and no white space around it |
| HostNames.NormalizersAgreeIff | edgeworker/main.js:237-239 | admission and EdgeWorker take a text for the same host exactly when no white space precedes it, and none follows it unless a port does |
| HostNames.HostInIff | redirect-handler/src/lib.rs:163-170 | what the resolver takes a header value for: the trimmed name before its port, up to case |
| HostNames.ResolverAgreesIff | redirect-handler/src/lib.rs:163-170 | resolver and EdgeWorker take a header for the same host exactly when no white space surrounds its name |
| HostNames.RequestHostIs | redirect-handler/src/lib.rs:163-171 | the first of the three headers that names a host decides |
| HostNames.UrlHostIs | redirect-handler/src/lib.rs:172-185 | without one the authority of the URL does, unless it is a loopback name |
| Text.ByteSliceIsCharSlice | redirect-handler/src/lib.rs:84-86 | slicing a path by the byte length of a folded prefix is slicing it by characters, always on a boundary |
| CodeUnits.UnitSliceIsCharSlice | edgeworker/main.js:261-265 | comparing lengths and slicing a path in UTF-16 units of a folded prefix is doing so in characters |
| CodeUnits.MatchesInUnitsIff | edgeworker/main.js:249-257 | the prefix match made in UTF-16 units is the match made in characters |
| Text.PrecedesTotal | shared/src/ekv.rs:357-357 | the manifest order is total on distinct paths |
| Text.PrecedesIff | shared/src/ekv.rs:357-357 | the longer path in bytes precedes, then the one with the smaller byte where they part |
| Text.ContainsIff | edgeworker/main.js:82-82 | searching finds a text exactly where it occurs |
| Keys.RuleKeyRoundTripIff | shared/src/keys.rs:25-57 | parsing recovers a rule key exactly when the host has no bar |
| Keys.KRuleInjective | shared/src/keys.rs:25-27 | different rules of hosts without a bar have different keys |
| Keys.PrefixScanIsHostScan | shared/src/keys.rs:29-32 | a scan by the host's prefix yields exactly the host's keys |
| Keys.TargetRoundTrip | shared/src/sync.rs:106-127 | every marker the system writes is sorted back into what was meant |
| Keys.UnreadableTargets | shared/src/sync.rs:100-127 | where the markers land that cannot be parsed |
| Keys.TargetNamesDistinct | shared/src/keys.rs:63-67 | different targets have different marker keys |
| EkvKeys.EncodeEkvKey | shared/src/ekv.rs:205-214 | the loop computes the byte-wise escape |
| EkvKeys.EncodedAlphabet | shared/src/ekv.rs:198-204 | item names stay in the alphabet EdgeKV accepts |
| EkvKeys.EncodeKeyInjective | shared/src/ekv.rs:198-214 | different logical keys have different item names |
| EkvKeys.EncEkvKey | edgeworker/main.js:50-72 | the JavaScript loop computes the unit-wise escape |
| EkvKeys.EncodeUnitsIsSeen | edgeworker/main.js:50-72 | what JavaScript encodes is the key with each character above U+FFFF replaced by two replacement characters |
| EkvKeys.EncodersAgreeIff | edgeworker/main.js:48-72 | both encoders agree exactly on strings without characters above U+FFFF |
| EkvKeys.JsNameIff | edgeworker/main.js:73-77 | the worker asks for an item under its own name exactly when host and path hold no character above U+FFFF |
| EkvKeys.ItemNamesCollideIff | shared/src/ekv.rs:71-88 | items of different families, hosts, paths or shards never share a name, except a sentinel and a shard of a host called `_hosts` |
| Spellings.StoreKeys | shared/src/keys.rs:25-67 | the keys of rules and markers, written out |
| Spellings.LogicalKeys | shared/src/ekv.rs:71-88 | the logical keys of EdgeKV, written out |
| Spellings.BytesAreSpelt | shared/src/ekv.rs:205-214 | which bytes stand for themselves in an item name, and how others are written |
| Spellings.CharactersAreSpelt | shared/src/store.rs:269-282 | which characters stand for themselves in a subject |
| Spellings.CodesAreSpelt | shared/src/store.rs:277-278 | and how the digits of the others are written |
| Spellings.ItemsSay | shared/src/model.rs:104-157 | what an exact item and a sentinel in sync say, field by field |
| Subjects.EncodeSubject | shared/src/store.rs:269-282 | the loop computes the subject |
| Subjects.DecodeSubject | shared/src/store.rs:284-312 | the loop computes the decoded key |
| Subjects.SubjectRoundTripIff | shared/src/store.rs:269-312 | decoding an encoded key gives it back with bars as colons exactly when it has no character above U+FFFF |
| Subjects.ReencodeIsStableIff | shared/src/store.rs:269-312 | encoding the decoded key again gives the same subject, also where it is not the same key, exactly when no character lies in U+D8000 to U+DFFFF |
| Subjects.DecodedRuleKeyParsesIff | shared/src/keys.rs:37-57 | a decoded rule key parses to the same host and type and the path with bars as colons exactly when the host has no separator |
| Subjects.PrefixScanIff | shared/src/store.rs:314-327 | a subject pattern matches exactly the keys that continue the prefix as a whole token |
| Snapshot.PublishSnapshot | admin-api/src/snapshot.rs:34-61 | the catalog lists each stored rule and host record and nothing else, rules by host and path, records by host |
| Snapshot.EnsureSeeded | admin-api/src/snapshot.rs:74-115 | restores only into an unseeded store without rules, and marks it seeded unless the object store was unreachable |
| Snapshot.SnapshotRoundTrip | admin-api/src/snapshot.rs:84-95 | seeding an empty store from a published catalog restores rules and host records |
| Witnesses.RecreatedRuleIsLost | shared/src/sync.rs:206-234 | a rule created under its delete marker is stored, enabled and gone from EdgeKV after the next failure-free drain, with nothing pending |
| Witnesses.RecreationRun | shared/src/sync.rs:305-313 | a run of four requests without failures that loses a redirect this way |
| Witnesses.RejectedCreateFlipsHost | admin-api/src/handlers.rs:267-271 | a rejected create that leaves the sentinel wrong with nothing pending |
| Witnesses.ImportFlipIsNotAnnounced | admin-api/src/handlers.rs:478-499 | importing a stored rule unchanged to flip its host leaves the sentinel wrong with nothing pending |
| Witnesses.DeleteByCreatedPathFails | admin-api/src/handlers.rs:342-350 | a rule created as `/A` on a case-insensitive host, and a DELETE of `/A` that is answered 404 |
| EdgeWitnesses.DisabledHostDiffers | edgeworker/main.js:125-127 | an enabled rule on a disabled host: the control plane redirects, the edge passes |
| EdgeWitnesses.SupplementaryPathIsPassed | edgeworker/main.js:65-65 | an exact rule for a path above U+FFFF: the control plane redirects, the edge passes |
| EdgeWitnesses.SupplementaryPathIsMisserved | edgeworker/main.js:65-65 | an exact rule for two replacement characters: the edge serves it to a path above U+FFFF that the control plane has no rule for |
| EdgeWitnesses.WitnessesCanBeNamed | shared/src/ekv.rs:71-88 | the items of such a run can be stored under their names, so these requests exist |
| Witnesses.HostNamedHostsCollides | shared/src/ekv.rs:71-88 | two pushes of one run, for hosts `_hosts` and `prefixes`, that write different items under one name |
| Witnesses.NewHostCountIsTrusted | admin-api/src/handlers.rs:774-778 | a host update after which the count is wrong |
| Witnesses.TwoSlashTargetDiffers | redirect-handler/src/lib.rs:86-86 | one rule, one request, two locations |
| Witnesses.LeadingSpaceIsNormalizedApart | shared/src/model.rs:184-184 | a path the two versions normalise differently |
| Witnesses.SpacedHostIsTakenApart | shared/src/model.rs:171-178 | `h :80` is stored as `h` and a space, which neither the resolver nor, for a leading space, the EdgeWorker takes it for |
| Witnesses.SpacedHostCannotBeAddressed | admin-api/src/handlers.rs:1011-1020 | a rule created with that host is stored and no URL made of its key names it |
| Witnesses.SupplementaryKeyIsEncodedApart | shared/src/store.rs:277-278 | a key the encoders treat differently and the subject codec loses |
| Witnesses.SurrogateDigitsAreMisread | shared/src/store.rs:284-298 | a key whose subject does not survive decoding and encoding again |
| Witnesses.BarInHostIsMisread | shared/src/keys.rs:43-57 | a host whose key is misread |
| Witnesses.LateFlipExample | admin-api/src/handlers.rs:478-484 | a payload whose second import is not a no-op |

## Left out

- Runs.ExactItemsCovered: assumes that no rule is re-created under its pending delete marker, because the statement is false otherwise (`Witnesses.RecreationRun`).
- Refinement.EdgeRefinesControlIff: assumes a path without surrounding white space, a query without the EdgeWorker's debug flag and a request for a host not called `_hosts`; the first is characterised in `Paths.NormalizersAgreeIff`. Where the worker does not look alike, `Refinement.EdgeAnswersLikeControlIff` decides.
- EndToEnd.EdgeEventuallyAgrees: assumes plain hosts in the run; for others item names or rule keys are shared (`Witnesses.HostNamedHostsCollides`, `Witnesses.BarInHostIsMisread`).
- Case folding is ASCII only; Rust and JavaScript fold all of Unicode and may change lengths.
- Runs.ManifestsAlwaysCovered: says nothing of the strings in EdgeKV when a host is named `_hosts` or has a `|`; there two items, or two rule keys, share a name (`Witnesses.HostNamedHostsCollides`, `Keys.RuleKeyRoundTripIff`), and the protocol over structured keys is no longer the one that runs.
- Store failures: reads and writes of the key-value store do not fail, so the error branches of an import for a failing store are not modelled.
- Concurrency: one handler or drain runs at a time, as ADR-006 assumes, and the drain's concurrent requests are taken in order; the import lock is not modelled.
- `updated_at`, `ekv_synced_at`, `last_error_at` and the metric counters.
- JSON: EdgeKV items and stored records are values; the shard count fits 32 bits because `usize` does on the target platform.
- `clear_pending` and `mark_synced`, operator assertions that EdgeKV is in sync; they would break coverage by design.
- Seeding as a step of runs: it writes rules without announcing them, for a store that was lost.
- The order of hosts in an EdgeWorker's namespace table, DataStream headers, cache headers and timings.
- EdgeGrid and SigV4 signing, HTTP, S3 and configuration variables; they appear as fates of requests and presence of credentials.
- `test_lookup`, listing, export, UI, documentation and style handlers: no property beyond a scan.
- NATS as a backend of the protocol: only its key codec is modelled; subjects are ASCII.
