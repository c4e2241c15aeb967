# Gulley, verified

Gulley is an LLM gateway with a control plane. This project models the parts of it whose
correctness is a statement about every run or every input, and proves those statements in
Dafny 4.11: how a configuration reaches the gateways, how the audit trail is exported and
checked, how a GitOps document is applied, the small clock-driven guards, and the text forms
that identities are hashed from. `dafny verify dfyconfig.toml` checks everything.

The model takes the form of the code. Objects that update fields are classes whose methods are
proved against a function of the old state; loops are loops with invariants; protocols are state
machines whose steps lie between two awaits, with lemmas about every run. Where a class runs one
call of a protocol, its method returns the trace of model steps it took, so that calls one after
another, with everyone else's steps between them, are runs of the machine.

## What is modelled

**Configuration commits** (`DurableCommit`, `StatementSnapshots`). Concurrent console edits, each in
a transaction that reads one snapshot, writes an audit row and a version row, and loses if the version
number it read is taken by then; a lost race is retried once. The transaction's row changes land on
whatever the database holds at commit, so that a version's document is *the edit applied to the version
before* has to be proved, and follows only from the primary key on the version number. One promise does
not hold as stated: a call can be rejected although its edit became a version, exactly when the
refresh of the read model fails after the commit.

One snapshot per transaction is an assumption: the code asks for no isolation level, and the default is
one snapshot per statement. `StatementSnapshots` is that machine: edit, export query by query, audit
lock, version number, commit. There the lock makes every version number free, so no stale transaction is
refused, and a version can be recorded whose document is not the live one. At every commit of every run
it is the live one exactly when each row that the call's own edit left alone is still as it was when the
export read it; and when no call commits during another's transaction, the versions are the edits in
turn after all.

**Configuration propagation** (`ConfigPropagation`, `ConfigWatcher`, `GatewayReconciler`,
`ModelPolicy`, `Glob`). A store, a bus that loses, repeats and reorders signals, and a replica with
signals, polls, reconnects, retry timers and a serial chain of reconciles that may fail. A reconcile
reads the document in several queries with no transaction, so the model reads it section by section.
In every interleaving no applied section goes back, none is below the watcher's cursors, and no
wake-up is lost as long as version reads succeed; a resync whose version read fails is forgotten,
until a poll, a reconnect or the next signal starts another. The live parts of a gateway always come
from the document that one reconcile read, or from boot. That they come from one *version* does not
hold: a commit between two section reads is applied in part, and the lemmas say that this is exactly
when it happens. (Versions are meant, not contents: a document read in part before and in part after a
commit may still equal one of the two, if that commit changed only the other part.) A replica that comes to rest after the signal of the last version has that version in
every section. The environment's deny patterns are a floor. Its allow patterns are not: a document
can widen them, and the lemma says exactly when. The pattern matcher builds a regular expression
text; the model reads that text back and shows what it accepts. A `*` does not stand for a line
break, except in the pattern that is only `*`.

**GitOps apply** (`ConfigCollections`, `ConfigStore`, `ConfigExport`, `ConfigRebuild`,
`ConfigAuthorize`, `ConfigApply`). What the nested upsert and delete-by-absence loops compute, what they
leave alone, that applying twice or applying a store's own export changes nothing, and that the
permission check covers what the apply touches, with repeated org names in the store or the document. A
store rebuilt from an export exports everything of it but what an apply does not carry over: credentials,
virtual keys, and all but the first provider of a kind. So the two exports are the same exactly when no
exported workspace has any of these.

**Audit export and tamper evidence** (`AuditRow`, `AuditChain`, `Evidence`, `AuditTail`, `WormShipper`,
`SiemExporter`). The hash is collision-free and never empty, a signature is a predicate. The row hash
pins a row's content up to key order and up to own `__proto__` keys, which its canonical form drops.
From that: two intact chains that meet in one row hash agree before it, a clean rewrite check means
that the chain extends every anchored one, and an evidence bundle is accepted exactly when the JSON it
carries revives to the attested rows; which JSON that is, with its other spellings of numbers, dates
and missing fields, is stated field by field. With puts that store and return or do neither, the
write-once mirror is a prefix of the chain in every reachable state. A put that lands and still throws
leaves the cursor behind the mirror. The mirror then stays valid exactly when that batch was full, or
the chain had not grown past it when it was read for the next put that lands, or a restart came before
that put; otherwise it never verifies again. SIEM delivery is at-least-once and ordered.

**Clock-driven state** (`KeyExpiry`, `BudgetAlerts`, `AuthThrottle`, `ReplayGuard`). Once-only
notices, rate bounds, and pruning that changes no answer. Key notices are proved over runs of the key
store (mint, disable, rotate) and of any number of sweeping processes. A process never repeats a notice
that returned; it repeats one exactly when all of its kind so far were written and still threw. In a
fleet, or over restarts, at most one of each kind returns per process, and that many can. A budget level is announced in a check as often as it is configured. The auth throttle is a fixed
window, though its comment calls it sliding: twice the maximum is reachable in one window and is the
bound. The replay guard evicts the live entry inserted first, though its comment says the one that
expires first, and it sweeps before it looks up: an accepted id is accepted again before its expiry
exactly when a call since then, itself included, evicted it from a guard full of live entries.

**Text forms and arithmetic** (`Json`, `CanonicalJson`, `Conversation`, `PercentEncoding`, `Cookies`,
`GatewayMetrics`, `AuditPaging`). Printed JSON determines the value; the conversation fingerprint
identifies the fixed prefix of a conversation exactly; cookies round-trip through percent-encoded
UTF-8; quantiles are monotone and invert the cumulative line, for buckets that need not be shared or
cumulative; paging visits every row once, and is complete exactly when the limit is a whole number or
one page is enough.

## Assumptions

- Hashes are injective (`AuditRow.DigestLike` and the hash argument of `Conversation`); signatures are
  an abstract check.
- In `DurableCommit` a transaction reads one snapshot. `StatementSnapshots` drops this.
- A database transaction that is reported as failed left nothing.
- JSON numbers are the text JavaScript prints for them. The conversions to number, text and date are
  arguments with a few laws (`Evidence.Lawful`); audit seqs are below 2^53.
- Names and times are compared as the code compares them; locale order is an arbitrary comparison, and
  a total and transitive one where an export is compared with an export.
- Newly drawn ids are new, and clocks do not run backwards.

## Model

| member | source | states |
|---|---|---|
| DurableCommit.VersionsAreTheEdits | apps/control-api/src/durable-config.ts:39-64 | With one snapshot per transaction, in every run versions are 1, 2, 3, ... and each version's document is its call's edit applied to the previous version's document, with that document's hash |
| DurableCommit.VersionsAreAudited | apps/control-api/src/durable-config.ts:46-62 | With one snapshot per transaction, each version points at one audit row with its hash and call; the live document is the last version's |
| DurableCommit.FreeNumberMeansCurrent | apps/control-api/src/durable-config.ts:53-62 | With one snapshot per transaction, a commit whose version number is still free read a snapshot nothing has overtaken |
| DurableCommit.RejectedLeavesTraceIff | apps/control-api/src/durable-config.ts:66-90 | A call commits at most once, with one audit row; a rejected call left a trace exactly when the refresh after its commit failed |
| DurableCommit.RejectedWithTrace | apps/control-api/src/durable-config.ts:77 | Any call whose edit works can be rejected after its edit became a version |
| DurableCommit.AtMostTwoAttempts | apps/control-api/src/durable-config.ts:66-76 | A call starts at most two transactions |
| DurableCommit.SignalsFollowCommits | apps/control-api/src/durable-config.ts:77-89 | A signal is sent only for a version that is in the store |
| StatementSnapshots.RecordedIsLiveIff | apps/control-api/src/durable-config.ts:39-64 | With a snapshot per statement, at every commit of every run: the recorded document is the live one exactly when every row the call's last edit left alone is still as it was when the export's query read it |
| StatementSnapshots.StaleVersionRecorded | apps/control-api/src/context.ts:722-731 | Whenever one call's edit changes a row that another's leaves alone, some run records the other's document without that change while the live document has it; both calls commit |
| StatementSnapshots.NumberIsAlwaysFree | packages/storage/src/adapters.ts:601-631 | The audit lock is held to the end of the transaction, so a version number that was read is always free at the commit |
| StatementSnapshots.VersionsAreNumbered | apps/control-api/src/durable-config.ts:46-62 | Also with a snapshot per statement versions are 1, 2, 3, ... each with its document's hash and its audit row |
| StatementSnapshots.SerialVersionsAreTheEdits | apps/control-api/src/durable-config.ts:39-64 | When no call commits during another's transaction, every version is its call's edit of the version before and the last one is live |
| DurableCommit.DurableConfigWriter.Attempt | apps/control-api/src/durable-config.ts:39-64 | One transaction is a run of the model and ends committed, or as its error is classified |
| DurableCommit.DurableConfigWriter.Commit | apps/control-api/src/durable-config.ts:29-91 | One call with its retry, refresh and signal is a run of the model and reports what its call came to |
| ConfigPropagation.AppliedNeverGoesBack | apps/gateway/src/reconcile.ts:113-123 | In every interleaving no applied section is older than at any earlier point |
| ConfigPropagation.AppliedCoversCursors | apps/gateway/src/reconcile.ts:262-315 | The applied document is never below the recorded version or the gate; so a stale replica passes the poll guard and a dropped foreign signal is already applied |
| ConfigPropagation.AppliedWasCommitted | apps/gateway/src/reconcile.ts:125-127 | Nothing is applied before it is committed |
| ConfigPropagation.StepKeepsInv | apps/gateway/src/reconcile.ts:262-324 | Every step keeps the invariant and never makes an applied section older |
| ConfigPropagation.QuietRunConverges | apps/gateway/src/reconcile.ts:307-315 | Once commits stop, any reconcile that starts and succeeds brings every section to the store's version for good |
| ConfigPropagation.AtRestMeansApplied | apps/gateway/src/reconcile.ts:290-315 | While the watcher runs and version reads succeed, a replica at rest has applied every version it was signalled |
| ConfigPropagation.FailedReadForgets | apps/gateway/src/reconcile.ts:298-309 | A retry whose version read fails leaves the replica at rest without the signalled version |
| ConfigPropagation.AppliedIsOneVersionIff | packages/config/src/backend.ts:105-155 | A reconcile applies sections of one version exactly when no commit lies between two of its section reads |
| ConfigPropagation.LiveIsOneVersionIff | apps/gateway/src/reconcile.ts:125-229 | In every reachable state what is applied is the boot config, or what the last reconcile to swap read, of one version exactly when no commit lies between two of its section reads |
| ConfigPropagation.TornDocumentApplied | packages/config/src/backend.ts:105-155 | From every start, for every place between two sections, a run applies the sections before it at one version and those after it at the next |
| ConfigPropagation.AtRestIsOneVersion | apps/gateway/src/reconcile.ts:290-315 | A replica at rest that was signalled the store's version has every section at that version |
| ConfigWatcher.SignalGate.Accept | packages/storage/src/pubsub.ts:58-63 | Accepts exactly new foreign signals, moves the cursor only forward, and never accepts the same one again |
| ConfigWatcher.SignalGate.Observe | packages/storage/src/pubsub.ts:69-72 | The cursor becomes the larger of itself and the version |
| ConfigWatcher.Watcher.constructor | apps/gateway/src/reconcile.ts:239-260 | A watcher that boots is a start of the model |
| ConfigWatcher.Watcher.OnSignal | apps/gateway/src/reconcile.ts:263-267 | Does the model's delivery step |
| ConfigWatcher.Watcher.PollResume | apps/gateway/src/reconcile.ts:283-284 | Does the model's poll step after the version read |
| ConfigWatcher.Watcher.ResyncResume | apps/gateway/src/reconcile.ts:308-310 | Does the model's resync step after the version read |
| ConfigWatcher.Watcher.ReconcileFinished | apps/gateway/src/reconcile.ts:291-296 | Does the model's step of a caller whose reconcile finished |
| ConfigWatcher.Watcher.RetryFires | apps/gateway/src/reconcile.ts:300-303 | Does the model's retry step |
| ConfigWatcher.Watcher.Stop | apps/gateway/src/reconcile.ts:317-320 | Stops and disarms the retry |
| GatewayReconciler.LivePartsShareADocument | apps/gateway/src/reconcile.ts:125-229 | In every reachable state all live parts come from the one document that the last attempt that did not fail had read, or from boot; of its versions see the next row |
| GatewayReconciler.LivePartsAreOneVersionIff | apps/gateway/src/reconcile.ts:125-229 | In every run of the propagation machine the live parts are the boot ones or all made of the sections last swapped, which are of one version exactly when no commit lies between two of their reads |
| GatewayReconciler.DenyFloorHolds | apps/gateway/src/reconcile.ts:214-220 | A model the environment denies stays denied whatever documents were applied |
| GatewayReconciler.SmartRouterStays | apps/gateway/src/reconcile.ts:221 | With smart routing off the smart router is the boot one for ever |
| GatewayReconciler.RouteHolder.Reindex | apps/gateway/src/routes/messages.ts:488-493 | Each path leads to the last route that lists it, and to none if no route does |
| GatewayReconciler.RouteHolder.Run | apps/gateway/src/reconcile.ts:125-229 | One attempt swaps everything that one document makes, or changes nothing |
| ModelPolicy.UnionAdmitsIff | apps/gateway/src/model-policy.ts:36-59 | What the union admits, in terms of the two policies |
| ModelPolicy.DenyFloor | apps/gateway/src/model-policy.ts:47-59 | A denial by the environment stands in every union |
| ModelPolicy.DocumentWidensIff | apps/gateway/src/model-policy.ts:47-59 | Exactly when a document admits a model that the environment alone refuses |
| ModelPolicy.BuildModelPolicy | apps/gateway/src/model-policy.ts:73-90 | The nested loops give the document's patterns without repeats, in document order, or no policy if it has none |
| ModelPolicy.DocumentPolicyMatches | apps/gateway/src/model-policy.ts:73-90 | The document's policy denies or lists a model exactly when some pattern anywhere in it matches |
| Glob.RegexReadsBack | apps/gateway/src/model-policy.ts:23-32 | The built expression text reads back as the pattern, whatever it contains |
| Glob.PatternMatchesIff | apps/gateway/src/model-policy.ts:28-33 | A pattern matches exactly its fillings with one-line text, and the lone star everything |
| Glob.PrefixPattern | apps/gateway/src/model-policy.ts:28-33 | A prefix followed by a star is a prefix test on names with no line break after it |
| ConfigCollections.CollReaches | apps/control-api/src/config-store.ts:138-153 | After an apply a collection holds exactly the desired entities for the workspace |
| ConfigCollections.CollLeaves | apps/control-api/src/config-store.ts:142-153 | Every other workspace keeps its entities, in order |
| ConfigCollections.CollFixed | apps/control-api/src/config-store.ts:142-153 | A collection that already holds the desired entities is left exactly as it is |
| ConfigStore.ReconcileReaches | apps/control-api/src/config-store.ts:113-159 | The name-to-config map of every desired workspace becomes the desired one in all seven collections, and every desired provider kind exists |
| ConfigStore.ReconcileFrame | apps/control-api/src/config-store.ts:113-159 | Workspaces the document does not name keep entities and providers; everything outside the collections is only added to; with any repeated names |
| ConfigStore.ReconcileIdempotent | apps/control-api/src/config-store.ts:113-159 | Applying the same document again changes nothing |
| ConfigStore.ReconcileFixed | apps/control-api/src/config-store.ts:113-159 | A store that already holds what is asked for is not changed at all |
| ConfigExport.ExportIsFixedPoint | apps/control-api/src/config-store.ts:32-93 | Applying a store's own export, whole or of some orgs, changes nothing |
| ConfigExport.ExportRebuilds | apps/control-api/src/config-store.ts:32-93 | An empty store given the export has the same entities and provider kinds under the same names |
| ConfigRebuild.DocumentRoundTrip | apps/control-api/src/config-store.ts:32-159 | A document in the form of an export with no name twice, applied to an empty store, is exported again in the same order, without credentials, virtual keys and further providers of a kind |
| ConfigRebuild.RebuiltExportIs | apps/control-api/src/config-store.ts:32-159 | The store rebuilt from any store's export exports that document without credentials, virtual keys and further providers of a kind |
| ConfigRebuild.RebuiltExportIsSameIff | apps/control-api/src/config-store.ts:32-159 | So the two exports are the same exactly when no exported workspace has two providers of a kind, a provider with a credential, or a virtual key |
| ConfigRebuild.RebuildLosesCredential | apps/control-api/src/config-store.ts:38-44 | A store with one provider and its credential is one where they differ |
| ConfigRebuild.RebuildLosesKey | apps/control-api/src/config-store.ts:53-56 | And so is one with a single virtual key |
| ConfigExport.ExportedKind | apps/control-api/src/config-store.ts:47-73 | What is exported for a collection is what the workspace holds there; an absent optional collection is an empty one |
| ConfigAuthorize.IdByName | apps/control-api/src/config-store.ts:97-100 | The dictionary gives the first org of each name |
| ConfigAuthorize.Authorize | apps/control-api/src/config-store.ts:95-111 | Grants exactly when every name in the document or the store is permitted at its first org, or at the platform |
| ConfigAuthorize.AuthorizedApply | apps/control-api/src/config-store.ts:95-122 | Every workspace an authorized apply changes belongs to an org checked under its own id, and new orgs were checked at the platform; with repeated org names |
| ConfigApply.PruneEntities | apps/control-api/src/config-store.ts:142-145 | Deleting by id over the walked entities is deleting by absence |
| ConfigApply.UpsertEntities | apps/control-api/src/config-store.ts:146-152 | The loop creates, updates by id or leaves alone, entity by entity |
| ConfigApply.ControlConfigStore.ReconcileCollection | apps/control-api/src/config-store.ts:140-152 | One collection of one workspace, as specified |
| ConfigApply.ControlConfigStore.CreateMissingProviders | apps/control-api/src/config-store.ts:124-136 | Missing provider kinds are created, existing ones kept |
| ConfigApply.ControlConfigStore.ReconcileWorkspace | apps/control-api/src/config-store.ts:119-155 | One workspace, as specified |
| ConfigApply.ControlConfigStore.Reconcile | apps/control-api/src/config-store.ts:113-156 | The nested loops compute the specified apply |
| AuditRow.RowHashPins | packages/pipeline/src/audit.ts:19-62 | Two row hashes agree exactly when the predecessor's hash and the content agree, up to key order and own `__proto__` keys |
| AuditRow.UnseenKeyKeepsHash | packages/pipeline/src/audit.ts:23-32 | Adding an own `__proto__` key to a payload leaves the hash as it was |
| AuditChain.HashPinsHistory | packages/pipeline/src/attestation.ts:24-76 | Two intact chains that meet in one row hash are the same chain up to it |
| AuditChain.VerifyAuditChain | packages/pipeline/src/attestation.ts:24-28 | Reports the first broken row, or the intact chain's head |
| AuditChain.AuditChainWalker.Push | packages/pipeline/src/attestation.ts:45-60 | One row more: the walker stands where the whole prefix leads |
| AuditChain.DetectChainRewrite | apps/control-api/src/anchor.ts:130-145 | The conflicts are those of each anchored head against the current rows |
| AuditChain.CleanMeansExtends | apps/control-api/src/anchor.ts:130-145 | On an intact chain the check is clean exactly when it extends every anchored chain |
| AuditChain.InMemoryAnchor.Publish | apps/control-api/src/anchor.ts:28-45 | The first checkpoint of a head is kept |
| AuditChain.AnchoredChainStaysPinned | apps/control-api/src/anchor.ts:28-50 | No later publication hides a rewrite of an anchored chain |
| Evidence.EvidenceAcceptedIff | apps/control-api/src/evidence-bundle.ts:116-166 | A bundle is accepted exactly when the signature holds, the attested chain was intact, and the JSON it carries revives row by row to the attested rows |
| Evidence.RawRevivesIff | apps/control-api/src/audit-verify.ts:29-42 | Exactly which raw rows revive to an attested row, field by field, with the conversions and defaults of each field |
| Evidence.RevivedMatchIff | packages/pipeline/src/attestation.ts:45-76 | Revived rows walk as an intact chain and match the attestation exactly when they are the attested rows |
| Evidence.BuiltBundleIsAccepted | apps/control-api/src/evidence-bundle.ts:59-94 | A bundle built from an intact chain and its attestation is accepted, through its JSON form |
| AuditTail.PendingIsTail | apps/control-api/src/worm-shipper.ts:93-94 | Whatever order the backend answers in, the pending rows are the chain's tail |
| WormShipper.VerifyMirrorChain | packages/worm/src/batch.ts:86-121 | Accepts exactly the mirrors whose batches are authentic and form one unbroken chain, and reports where it ends |
| WormShipper.MirrorIsAlwaysPrefix | apps/control-api/src/worm-shipper.ts:68-110 | With puts that store and return or do neither, in every reachable state the mirror is a prefix of the chain and a resolved cursor is its last seq |
| WormShipper.MirrorIsGenuineIff | apps/control-api/src/worm-shipper.ts:68-110 | With puts that may land and throw, in every run the mirror verifies exactly as long as each such batch was full, or met a chain not grown past it at the read for the next put that lands, or a restart came first; a mirror that verifies is a prefix |
| WormShipper.ClashingRun | apps/control-api/src/worm-shipper.ts:98-104 | And a run exists in which it does not verify |
| WormShipper.MirrorOnlyGrows | apps/control-api/src/worm-shipper.ts:84-110 | What is in the mirror stays there, whatever puts throw; so a mirror that was broken stays broken |
| WormShipper.WormShipper.ResolveCursor | apps/control-api/src/worm-shipper.ts:68-80 | The cursor is taken once, from a mirror that verifies; one that does not is refused |
| WormShipper.WormShipper.Ship | apps/control-api/src/worm-shipper.ts:84-110 | One call is a run of the model; without a fault it ships everything past the mirror |
| WormShipper.WormShipper.PutChunk | apps/control-api/src/worm-shipper.ts:99-103 | One batch is stored, or not, and the cursor moves past it only when the put returns |
| SiemExporter.ReceivedIsContiguous | apps/control-api/src/siem.ts:201-226 | Without repeats the SIEM holds a contiguous slice from the seed to the cursor or on, in every reachable state |
| SiemExporter.CursorNeverDecreases | apps/control-api/src/siem.ts:201-226 | The cursor never goes back |
| SiemExporter.SiemExporter.SeedFromHead | apps/control-api/src/siem.ts:192-199 | The cursor is the head, or the greatest seq of all rows |
| SiemExporter.SiemExporter.Export | apps/control-api/src/siem.ts:201-226 | One call is a run of the model; when all sends return it reaches the head |
| SiemExporter.SiemExporter.SendChunk | apps/control-api/src/siem.ts:214-219 | One batch is sent, and the cursor moves only when the send returned |
| KeyExpiry.NoticesAtMostOnce | apps/control-api/src/key-expiry.ts:72-106 | In every run of the key store and its sweepers a process never repeats a notice that returned, per key and expiry, and never sends expiring after expired, whatever fails |
| KeyExpiry.NoticeRepeatsIff | apps/control-api/src/key-expiry.ts:78-101 | A sweep that gets through writes a notice exactly when the key is in the window and none of that kind returned; so a notice repeats exactly when all of its kind so far were written and threw |
| KeyExpiry.AtomicNoticesAtMostOnce | apps/control-api/src/key-expiry.ts:72-106 | If no notice is written and throws, each process sends at most one expiring and one expired notice, in that order |
| KeyExpiry.ThrownNoticeIsRepeated | apps/control-api/src/key-expiry.ts:88-97 | A run in which a notice is written twice |
| KeyExpiry.GoneKeysStayGone | apps/control-api/src/stores.ts:313-386 | Minting, disabling and rotating never bring a key back that was gone |
| KeyExpiry.LapsedKeyIsAnnouncedOnce | apps/control-api/src/key-expiry.ts:86-92 | A key that lapses between two sweeps of a process at most the lookback apart has its expired notice return in it exactly once |
| KeyExpiry.FleetNoticesBounded | apps/control-api/src/key-expiry.ts:39-69 | In a fleet of processes that pass the lock around at most one notice of each kind returns per process |
| KeyExpiry.FleetBoundIsReached | apps/control-api/src/key-expiry.ts:39-69 | And that many can |
| KeyExpiry.FleetAnnouncesLapsed | apps/control-api/src/key-expiry.ts:57-92 | A lapsed key that any process's completed sweep finds within the lookback has been announced by the fleet |
| KeyExpiry.SweepTells | apps/control-api/src/key-expiry.ts:72-106 | One sweep, as one key sees it: told at most once, and forgotten when out of the window |
| KeyExpiry.ListHas | apps/control-api/src/stores.ts:372-376 | Listed are exactly the enabled keys that expire by the cutoff |
| KeyExpiry.ListIsSorted | apps/control-api/src/stores.ts:376 | Soonest first |
| KeyExpiry.KeyExpirySweeper.Announce | apps/control-api/src/key-expiry.ts:78-101 | The loop sends what is due, counts what returned, and stops at the first notice that throws, written or not |
| KeyExpiry.KeyExpirySweeper.Run | apps/control-api/src/key-expiry.ts:72-106 | One run, with pruning only if every notice returned |
| KeyExpiry.KeyExpirySweeper.SweepOnce | apps/control-api/src/key-expiry.ts:57-69 | Skipped while one is in flight or the lock is elsewhere, else one run over the listed keys |
| BudgetAlerts.LevelsFireOnce | apps/gateway/src/budget-alerts.ts:67-104 | Within one window announced levels strictly increase, and there is at most one rejection event |
| BudgetAlerts.ReachedLevelsFire | apps/gateway/src/budget-alerts.ts:67-87 | Every level a check reaches before the first rejection has been announced |
| BudgetAlerts.RejectionIsAnnounced | apps/gateway/src/budget-alerts.ts:91-104 | After a rejection level 1 has been announced, by it or by an earlier check |
| BudgetAlerts.FiresAsOftenAsConfigured | apps/gateway/src/budget-alerts.ts:60-86 | For any thresholds and state, a check announces each level it reaches above the last one as often as it is configured, and no other |
| BudgetAlerts.RememberFinds | apps/gateway/src/budget-alerts.ts:148-154 | With room for every scope, remembering one does not touch another |
| BudgetAlerts.LevelsGood | apps/gateway/src/budget-alerts.ts:59-60 | Distinct thresholds give ascending levels in (0, 1], and exactly those |
| BudgetAlerts.LevelsHold | apps/gateway/src/budget-alerts.ts:59-60 | Any thresholds give ascending levels: those in (0, 1], each as often as configured |
| BudgetAlerts.BudgetAlerter.CheckBudget | apps/gateway/src/budget-alerts.ts:67-87 | The check and its loop, as specified |
| BudgetAlerts.BudgetAlerter.BudgetExceeded | apps/gateway/src/budget-alerts.ts:91-104 | The rejection, as specified |
| BudgetAlerts.BudgetAlerter.Current | apps/gateway/src/budget-alerts.ts:138-146 | The level announced in this window; a scope whose window rolled is forgotten |
| BudgetAlerts.BudgetAlerter.Record | apps/gateway/src/budget-alerts.ts:148-154 | The scope is tracked, evicting the oldest when full |
| AuthThrottle.AtMostTwiceTheMaximum | apps/control-api/src/server.ts:33-46 | In any interval of one window, ends included, an address is let in at most twice the maximum |
| AuthThrottle.TwiceTheMaximumIsReached | apps/control-api/src/server.ts:33-46 | And that many can be let in |
| AuthThrottle.PurgingIsInvisible | apps/control-api/src/server.ts:36-37 | Purging never changes an answer, on a clock that does not run backwards |
| AuthThrottle.NoWindowNoLimit | apps/control-api/src/server.ts:39-44 | With no positive window nothing is ever limited |
| AuthThrottle.Throttle.Admit | apps/control-api/src/server.ts:35-45 | Answers as the sequence of all requests so far decides |
| ReplayGuard.SizeIsBounded | apps/control-api/src/saml-gate.ts:97-117 | The guard never holds more than its capacity, if that is at least 1 |
| ReplayGuard.ZeroCapacityHoldsOne | apps/control-api/src/saml-gate.ts:97-117 | With capacity 0 it holds one |
| ReplayGuard.AcceptedOnce | apps/control-api/src/saml-gate.ts:97-103 | While no live entry is evicted, an accepted id is a replay until its recorded expiry |
| ReplayGuard.SweepingIsInvisible | apps/control-api/src/saml-gate.ts:109-117 | While no live entry is evicted, sweeping never changes an answer |
| ReplayGuard.AcceptedAgainIff | apps/control-api/src/saml-gate.ts:97-117 | In every run, an accepted id that comes again before its recorded expiry is accepted again exactly when a call since then, itself included, found the guard full of live entries and that id the first inserted of them |
| ReplayGuard.SweepForgetsIff | apps/control-api/src/saml-gate.ts:109-117 | A sweep forgets a live id exactly when the guard is full of live entries and that id was inserted first of them |
| ReplayGuard.FullGuardAcceptsReplay | apps/control-api/src/saml-gate.ts:97-117 | In any state of any run a guard full of live entries accepts at once the id it has to forget |
| ReplayGuard.OnePlaceAcceptsTwice | apps/control-api/src/saml-gate.ts:97-117 | A guard with one place accepts the same live assertion twice running |
| ReplayGuard.FewCallsEvictNothing | apps/control-api/src/saml-gate.ts:109-117 | With no more calls than capacity nothing live is evicted |
| ReplayGuard.AssertionGuard.Check | apps/control-api/src/saml-gate.ts:97-103 | Answers as the sequence of all calls so far decides, within capacity |
| ReplayGuard.AssertionGuard.Sweep | apps/control-api/src/saml-gate.ts:109-117 | When full drops what expired, and the first entry if still full |
| Json.PrintInjective | apps/gateway/src/conversation.ts:113-126 | Printed JSON determines the value and what was left of the text |
| CanonicalJson.CanonSound | apps/gateway/src/conversation.ts:113-126 | The sorted, filtered form is canonical and means the same |
| CanonicalJson.CanonicalUnique | apps/gateway/src/conversation.ts:113-126 | Canonical values that mean the same are the same |
| CanonicalJson.CanonTextDecodes | apps/gateway/src/conversation.ts:113-126 | Canonical texts agree exactly when the meanings do |
| Conversation.ConversationFingerprint | apps/gateway/src/conversation.ts:79-108 | The scanning loop computes the specified fingerprint |
| Conversation.FingerprintIdentifiesPrefix | apps/gateway/src/conversation.ts:79-126 | Two bodies share a fingerprint exactly when system and first user turn are equal as data without `cache_control`, or neither has a user turn |
| Conversation.LaterTurnsKeepFingerprint | apps/gateway/src/conversation.ts:87-102 | Turns appended after the first user turn never change it |
| PercentEncoding.DecodeEncode | apps/control-api/src/cookies.ts:20-40 | Decoding undoes encoding |
| PercentEncoding.EncodesIff | apps/control-api/src/cookies.ts:40 | Encoding works exactly on strings without lone surrogates |
| Cookies.ParseCookies | apps/control-api/src/cookies.ts:12-27 | The loop collects the well-formed segments, the last of a name winning |
| Cookies.HeaderRoundTrip | apps/control-api/src/cookies.ts:12-40 | Cookies joined into a header parse back to the same map |
| Cookies.MalformedSegmentIsIgnored | apps/control-api/src/cookies.ts:15-25 | A malformed segment put anywhere into any header changes no other cookie |
| Cookies.SerializeCookie | apps/control-api/src/cookies.ts:39-46 | Fails exactly on a lone surrogate; the pair it starts with parses back, and what follows it are exactly the attributes asked for |
| GatewayMetrics.ComputeQuantile | apps/control-api/src/gateway-metrics.ts:125-152 | The merging and scanning loops compute the specified quantile |
| GatewayMetrics.MergedCounts | apps/control-api/src/gateway-metrics.ts:127-132 | At every bound the merged buckets hold the sum over all label sets |
| GatewayMetrics.QuantileIsMonotone | apps/control-api/src/gateway-metrics.ts:199-205 | The quantile never decreases in q |
| GatewayMetrics.QuantileIsInRange | apps/control-api/src/gateway-metrics.ts:125-152 | It lies between 0 and the largest finite bound |
| GatewayMetrics.QuantileInvertsTheLine | apps/control-api/src/gateway-metrics.ts:139-151 | It is the point, in the first bucket that reaches the rank, where the cumulative line has that rank; if no bucket reaches it, the largest finite bound |
| AuditPaging.WalkVisitsAll | apps/control-api/src/parity-routes.ts:19-39 | Following the cursor visits every row present at the first request exactly once, newest first, and ends, whatever is appended meanwhile |
| AuditPaging.WalkIsCompleteIff | apps/control-api/src/parity-routes.ts:22-38 | The walk is complete exactly when the limit is a whole number or one page is enough |
| AuditPaging.RequestedWalkIsCompleteIff | apps/control-api/src/parity-routes.ts:22-38 | In terms of the requested limit: exactly when it is absent, whole, out of range, or one page is enough |
| AuditPaging.CursorSelectsRest | apps/control-api/src/context.ts:598-604 | After n rows the cursor selects the rest, whatever was appended since |

## Left out

- The HTTP routes, consent pages, SSO redirects and the web console: plumbing.
- Real cryptography, key management and signature formats: see the assumptions.
- Postgres, Redis and S3 drivers, and the database form of paging: only the contract the code relies on is modelled.
- Read-model hydration in the control API, and whether it is monotone: overlapping hydrates are not serialized.
- Edits of orgs and workspaces outside the versioned configuration, and GitOps applies as a separate caller of the versioned store; the latter uses the same transaction without the retry.
- The builders of routes, model routers and smart routers: functions that may fail.
- Restarts of the SIEM exporter: it forgets by design, and a run lasts as long as the process. A restarted key sweep is another process of the fleet.
- Distinct behaviour of a clock that runs backwards, for key expiry, the throttle's purge and the replay guard's sweep.
- The order in which the in-memory anchor lists its checkpoints.
- Metric text parsing, per-label sums and histograms with bounds that are not numbers; rounding in the quantile.
- Shadow spend, rollout gates, residency, cascade matching, SCIM and JWT mapping: single-pass code with easy properties.
- Alert delivery, webhooks and telemetry: foreign calls.
- ConfigWatcher.Watcher.OnSignal: the watcher's methods are the code between two awaits; an awaiting method as a whole is only modelled by the state machine.
- DurableCommit.DurableConfigWriter.Commit: what the surroundings do at each await is an argument, so a call that never resumes is not modelled.
- GatewayMetrics.ComputeQuantile: the merged buckets are kept sorted while merging instead of being sorted afterwards.
- DurableCommit.VersionsAreTheEdits: rests on one snapshot per transaction, which the code does not ask for; without it the statement is false, and StatementSnapshots has the failing run and the exact condition.
- DurableCommit.VersionsAreAudited: the clause on the live document rests on the same assumption; the rest holds without it (StatementSnapshots.VersionsAreNumbered).
- DurableCommit.FreeNumberMeansCurrent: rests on the same assumption; without it every number is free (StatementSnapshots.NumberIsAlwaysFree).
- StatementSnapshots.RecordedIsLiveIff: an edit reads at one moment, and edits of the same row do not wait for each other, so the machine has more runs than the database, which would make one call wait; the condition holds of all of them.
- StatementSnapshots.StaleVersionRecorded: for the same reason, its run is one of the database only when the two edits change no row in common.
