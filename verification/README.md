# Verified model of saiki's revision pipeline

saiki backs a Kubernetes cluster up continuously. Every change of an object becomes a *revision*; revisions wait
in a pending cache that keeps the newest one of each object, are flushed to a blob store by two concurrent cycles,
are mirrored in an in-memory index, are read back by a pruned walk over the store's keys, and are finally reaped by
age and purged. This project models that pipeline in Dafny and proves what it keeps over whole runs.

`dafny verify dfyconfig.toml` checks everything.

## How the model is laid out

| file | models |
|---|---|
| `Strings.dfy`, `Paths.dfy` | Go's `strings.Split`, `strconv.Atoi`, `%d`, and `filepath.Clean`, `Join`, `Dir`, on real character sequences |
| `Revisions.dfy` | the key printer and the key parser |
| `Numerals.dfy`, `KeyText.dfy` | the very text of numbers, keys and walk prefixes |
| `PendingCache.dfy` | the keep-the-newest cache with compare-and-delete, as a class and as a function of its history |
| `FlushProtocol.dfy`, `Flusher.dfy` | the two flush cycles as a step relation with a semaphore, and the flusher object as a refinement of it |
| `FlushPending.dfy`, `FlushProgress.dfy` | what a flush takes from the pending cache and what it leaves, and that the two cycles never block each other |
| `FlushRepair.dfy`, `WriteOrder.dfy`, `WriteEffects.dfy` | what a retry cycle repairs, the order in which the cycles write, and what that order does to the stores |
| `Walk.dfy`, `StateWalk.dfy`, `SyncWalk.dfy`, `Handlers.dfy` | the directory-skipping walk and its two visitors, the point-in-time query and the start-up sync |
| `Buckets.dfy` | the bucket, its listing, and bulk removal key by key and in chunks |
| `BackendStore.dfy` | the store over a bucket with its memo of each object's latest revision |
| `InMemory.dfy`, `RevisionLists.dfy` | the in-memory index and sorting by version |
| `ReadWrite.dfy`, `Agreement.dfy` | the cached store's write-through calls, and what they keep over every run |
| `Reaper.dfy`, `Purger.dfy`, `Retention.dfy` | reaping, purging, and retention over interleaved runs |
| `Operator.dfy` | the store, reaper and purger objects together, as runs of the retention steps |
| `TextOrder.dfy`, `Uncached.dfy` | the textual order of keys, and the reaper on the plain store, which lists in it |
| `Policy.dfy` | rule selection, and defaulting through shared pointers |
| `Watches.dfy`, `Controller.dfy` | watch planning, handler lookup, and start-up tombstones |

Objects whose methods change their fields are classes, and each method is tied to a function of the old state;
loops of the source are loops here; the concurrent flush and retention are step relations. Map iteration and bucket
listings are in an arbitrary order.

Assumptions: the API server's names are single path elements and its apiVersions have one or two (`Shaped`); store
calls are completed calls and a refused backend call changes nothing; handling one write response in `flush` is one
atomic step, although `pkg/controller/flusher/flusher.go:141` appends to a shared slice without a lock.

Where a property fails, the exact condition is proved: `RoundTripIff`, `UpdateAgreesIff`, `PurgeAgreesIff`,
`WriteStaysFullIff`, `PurgeStaysFullIff`, `NothingFailedIff`, `WritesRiseIff`, `NewestReapedIff`; and
`TombstoneHidesLiveKey`, `RetryNeverDrains`, `LateRetryFalls`, `LateRetrySpoils` and `NewestIsReaped` give the failing
inputs. The comment at `pkg/controller/reaper/reaper.go:86` promises that the last live revision is never purged. For
the cached store that is proved over every run. The plain store keeps the promise for the newest revision of an
object, once aged, exactly when no older version of the object has fewer digits and is textually after it; so it keeps
it as long as versions have equally many digits, and breaks it between 9 and 10.

## Model

| member | source | states |
|---|---|---|
| Paths.JoinPathPlain | pkg/store/revision.go:361-379 | joining path parts drops empty ones and keeps ordinary ones, through the full cleaning rules for `.`, `..` and doubled slashes |
| Paths.CleanMeansTheSame | pkg/store/revision.go:361-379 | cleaning, which every join applies, gives a path without empty, dot or avoidable parent elements that leads where the path led, from the root or from any directory |
| Numerals.NumeralIff | pkg/store/revision.go:296-301 | what is printed for a number is its one decimal numeral without leading zeros |
| Numerals.AtoiIff | pkg/store/revision.go:220-228 | a number is read exactly from an optional sign and decimal digits whose value fits 64 bits |
| Revisions.FileNameRoundTrip | pkg/store/revision.go:214-242 | the file-name parsers recover a printed name exactly when neither number is negative, and fail otherwise |
| Revisions.KeyDirectory | pkg/store/revision.go:292-305 | a key's directory is its object's resource key and its base name the revision key |
| Revisions.RoundTripIff | pkg/store/revision.go:176-271 | parsing a printed key gives every field back, with the timestamp cut to whole seconds, if and only if the core group and no other is called v1 and version and seconds are not negative |
| Revisions.KeyInjective | pkg/store/revision.go:303-305 | two well-formed revisions share a key exactly when object, version, second and deleted flag agree |
| Revisions.ResourceKeyInjective | pkg/store/revision.go:365-367 | two well-formed revisions share a resource key exactly when they are of the same object |
| KeyText.KeyIsText | pkg/store/revision.go:292-305 | a key is apiVersion, kind, the namespace if any, and name joined by slashes, then version, dash, the timestamp in whole seconds of 1,000,000,000 ns, and .json, with .deleted exactly for a tombstone |
| KeyText.TextIsParsed | pkg/store/revision.go:176-271 | that text is read back as those fields, its time as so many whole seconds |
| KeyText.FileIsParsed | pkg/store/revision.go:216-239 | of any file name with a dash the parsers read the numbers before the dash and up to the next dot, tell a tombstone by the end of the part up to a second dash, and ignore the rest |
| KeyText.DepthDecides | pkg/store/revision.go:176-211 | only paths of five or six elements are parsed, or of four or five after v1 |
| KeyText.RootIsText | pkg/store/storage.go:171-181 | the prefix a State query walks under is the object's path as far as the options name it |
| PendingCache.RevisionCache.Cache | pkg/controller/cache/cache.go:50-66 | an entry is replaced only by a strictly newer revision under its key |
| PendingCache.RevisionCache.Delete | pkg/controller/cache/cache.go:80-91 | only an entry of exactly the named version is removed |
| PendingCache.RevisionCache.SafeCopy | pkg/controller/cache/cache.go:68-78 | the copy lists every entry once |
| PendingCache.HoldsEarliestNewest | pkg/controller/cache/cache.go:50-91 | over any history of calls a key holds the earliest-queued revision of greatest version since its last effective removal, or nothing if none was queued since |
| PendingCache.LastRemoval | pkg/controller/cache/cache.go:80-91 | every history has a last effective removal of a key, or none, to count from |
| PendingCache.HoldsMaximum | pkg/controller/cache/cache.go:50-66 | without removals a key holds the greatest version queued under it |
| PendingCache.OrderIrrelevant | pkg/controller/cache/cache.go:50-66 | without removals the pending versions do not depend on the order or repetition of the calls |
| FlushProtocol.NothingLost | pkg/controller/flusher/flusher.go:62-164 | in every reachable state of both cycles each revision ever queued is matched by one of the same object, at least as new, that is pending, failed, in the retry cache or stored |
| FlushProtocol.NewestInPlay | pkg/controller/flusher/flusher.go:62-164 | of every object exactly the greatest version ever queued is in play |
| FlushProtocol.RestAccounts | pkg/controller/flusher/flusher.go:62-164 | with nothing pending and no cycle under way, the greatest version queued of every object is stored or in the retry cache |
| FlushProtocol.QuietMeansStored | pkg/controller/flusher/flusher.go:62-164 | and it is stored if no permit of the run was refused and no write failed |
| FlushProtocol.PermitsConserved | pkg/store/asyncwriter.go:37-77 | free permits, permits of unfinished writes and permits of finished writers always add up to the semaphore's capacity |
| FlushProtocol.FlushAccounts | pkg/controller/flusher/flusher.go:106-164 | when flush returns, its snapshot is the disjoint union of the revisions it wrote and its failed list, without repetitions |
| FlushProtocol.PendingStep | pkg/controller/flusher/flusher.go:134-144 | a step leaves a pending entry, replaces it by a newer one, or removes it when a write of exactly its version is handled |
| FlushProtocol.RetryNeverDrains | pkg/controller/flusher/flusher.go:74-88 | no step of any run takes an entry out of the retry cache |
| FlushProtocol.NothingFailedIff | pkg/controller/flusher/flusher.go:62-88 | the retry cache and all failed lists are empty if and only if no permit was refused and no write failed in the run |
| FlushPending.HandledLeaves | pkg/controller/flusher/flusher.go:134-157 | once the outcome of a write is handled, success or failure, in either cycle, nothing of that object and version is pending |
| FlushPending.LeavesIff | pkg/controller/flusher/flusher.go:106-164 | while nothing is queued, a pending revision leaves exactly when a write of its version is handled |
| FlushPending.RefusedStay | pkg/controller/flusher/flusher.go:106-164 | when the main cycle is done and nothing was queued since its snapshot, exactly the revisions it was refused a permit for are still pending, but for versions that the retry cycle handled meanwhile |
| FlushProgress.NeverStuck | pkg/store/asyncwriter.go:37-77 | with at least one permit, or no semaphore, some write, response, release, return or hand-over can proceed in every reachable state that is not quiet, whatever the two cycles do to each other |
| FlushProgress.WorkDecreases | pkg/controller/flusher/flusher.go:62-164 | every step but queueing and a snapshot lowers one measure of both cycles' work |
| FlushProgress.CyclesFinish | pkg/controller/flusher/flusher.go:62-164 | from every reachable state both cycles can run to their end without a refusal, and then all permits are free |
| FlushProgress.EnvironmentIsFree | pkg/controller/flusher/flusher.go:92-133 | in every reachable state anything may be queued, an idle cycle may start, a permit may be refused, or granted if one is free, and a write may end either way |
| FlushRepair.RetryRepairs | pkg/controller/flusher/flusher.go:62-88 | from any reachable state, a main cycle followed by a retry cycle without failures leaves stored, of every object queued before and not anew since, the greatest version; steps of anything else may interleave |
| WriteOrder.WritesRiseIff | pkg/controller/flusher/flusher.go:106-164 | if the queue takes each object's versions in order, the store's writes rise in version exactly when the store has nothing newer whenever the retry cycle writes; the main cycle never falls back |
| WriteOrder.NoFailureRises | pkg/controller/flusher/flusher.go:106-164 | a run without failures writes each object's versions in order |
| WriteEffects.FlushedIndexIsNewest | pkg/store/inmemory_getter.go:35-61 | the index that takes such a run's writes answers a revision of the greatest version stored for every object |
| WriteEffects.FlushedMemoIsRight | pkg/store/storage.go:390-424 | the backend's memo after such a run names each object's newest live revision |
| WriteEffects.LateRetryFalls | pkg/controller/flusher/flusher.go:74-88 | for any two versions of an object there is a run in which the retry cycle writes the older after the newer |
| WriteEffects.LateRetrySpoils | pkg/store/storage.go:415-424 | after it the index answers the older version, and the memo is wrong |
| Flusher.Flush.Queue | pkg/controller/flusher/flusher.go:92-95 | queueing is one step of the protocol on the pending cache |
| Flusher.Flush.FlushCache | pkg/controller/flusher/flusher.go:106-164 | flush without a semaphore is a run of the protocol: it returns exactly the refused revisions, stores the others, and empties the pending cache when flushing it |
| Flusher.Flush.Tick | pkg/controller/flusher/flusher.go:62-88 | a tick is a run of the protocol, and adds to the retry cache exactly the keys of the refused revisions |
| Walk.WalkBucket | pkg/store/backend/cloud/blob/blob.go:246-278 | the loop with its set of skipped directories computes the specified walk, stopping at the first error, of the visitor or of the listing |
| Walk.SkippingIsTransparent | pkg/store/backend/cloud/blob/blob.go:254-277 | if a visitor that skips a directory does nothing for any of its keys, the walk equals the scan of all keys |
| StateWalk.SelectedAreUnderRoot | pkg/store/storage.go:171-181 | every revision of a selected object lies under the narrowed prefix, for any options |
| StateWalk.PruningIsTransparent | pkg/store/storage.go:171-255 | narrowing the prefix and skipping directories changes nothing, for any options and listing |
| StateWalk.StateIsFilter | pkg/store/storage.go:183-250 | the query answers, for each object, every match of options and label selector in listing order or, in single mode, the first-listed match of greatest timestamp before the time asked for; it fails only if the content of a candidate cannot be loaded, and in all-revisions mode exactly then |
| StateWalk.EntryIff | pkg/store/storage.go:199-246 | an object has an entry exactly when a stored revision of it has the API version, kind, namespace and name asked for, is deleted if only those are, is before the time, and has the selector's yes if there is one; the entry holds all such revisions, or one than which none is later |
| StateWalk.SkipsIff | pkg/store/storage.go:204-218 | the walk skips a key's directory exactly when a field of its object is not the one asked for |
| StateWalk.MalformedFails | pkg/store/storage.go:199-202 | a listed key that is none of a revision fails the query, unless it may have been skipped or lies at the root |
| StateWalk.State | pkg/store/storage.go:160-255 | the same for the method, which also fails on a malformed selector and on a failing listing, and on a store's keys for no other reason |
| SyncWalk.Sync | pkg/store/storage.go:257-313 | the state lists every tracked revision by object in listing order, and the delete list those whose object is gone plus, if asked, all untracked ones; on a store's keys only a failing listing makes it fail |
| SyncWalk.VanishedIff | pkg/store/storage.go:276-306 | with informers that hold the cluster's objects under namespace/name, or name when cluster-wide, a tracked revision is to be deleted exactly when its namespace and name are not among them |
| SyncWalk.SkipsIff | pkg/store/storage.go:277-287 | Sync skips a key's directory exactly when no informer tracks it and untracked objects are kept |
| SyncWalk.MalformedFails | pkg/store/storage.go:272-275 | a listed key that is none of a revision fails Sync, with the same exceptions |
| SyncWalk.SyncPartitions | pkg/store/storage.go:276-306 | every stored key falls into exactly one of tracked, untracked to delete and untracked skipped |
| SyncWalk.KeptMembers | pkg/store/storage.go:271-273 | what the walk keeps of a listing is exactly the revisions whose printed keys are listed and satisfy the condition |
| Buckets.Bucket.RemoveAll | pkg/store/backend/cloud/blob/blob.go:219-230 | the keys reported are exactly those removed, and the error is that of the last key |
| Buckets.Bucket.RemoveAllS3 | pkg/store/backend/cloud/blob/blob.go:175-213 | all slices are legal and of at most 1000 keys, concatenate to the input once and in order, the last one empty exactly when the keys fill whole chunks, and a missing answer loses the report of earlier chunks |
| Buckets.ChunksConcatenate | pkg/store/backend/cloud/blob/blob.go:179-192 | the first slices concatenate to the keys before the next slice |
| InMemory.Cache.Set | pkg/store/inmemory_getter.go:35-44 | a revision goes under its object and version, and becomes the object's latest |
| InMemory.Cache.Get | pkg/store/inmemory_getter.go:46-53 | answers the object's latest version, or nothing if it is gone |
| InMemory.Cache.Delete | pkg/store/inmemory_getter.go:55-61 | one version of the object goes, the latest mark stays |
| InMemory.Cache.List | pkg/store/inmemory_getter.go:63-74 | every version of the object once |
| InMemory.Cache.State | pkg/store/inmemory_getter.go:121-157 | for the reaper's query, every object's versions in strictly ascending order and nothing else |
| InMemory.GetIsLastSet | pkg/store/inmemory_getter.go:35-61 | over any history Get answers the revision set last, unless its version was purged since, and then nothing |
| InMemory.GetOfUnset | pkg/store/inmemory_getter.go:46-53 | Get answers nothing for an object that was never set |
| InMemory.GetIsNewest | pkg/store/inmemory_getter.go:35-61 | if sets rise in version, Get answers a greatest version unless it was purged |
| BackendStore.RevisionStore.Update | pkg/store/storage.go:415-424 | the key is written and remembered, or, when refused, nothing changes |
| BackendStore.RevisionStore.Delete | pkg/store/storage.go:426-429 | the tombstone's key is written and the memo kept |
| BackendStore.RevisionStore.List | pkg/store/storage.go:431-450 | exactly the object's live stored revisions by ascending version |
| BackendStore.RevisionStore.LatestRevision | pkg/store/storage.go:456-472 | a live revision of greatest version, or none exactly when there is no live one |
| BackendStore.RevisionStore.Get | pkg/store/storage.go:390-409 | opens the remembered key, or finds and remembers a newest live revision; fails exactly when that key is gone or its opening refused |
| BackendStore.MemoRefinesScan | pkg/store/storage.go:390-472 | over every run of live updates, each new or of rising version, and purges that spare newest live revisions, each memo entry is the one newest live revision's key |
| BackendStore.UpdateAgreesIff | pkg/store/storage.go:415-424 | an update leaves the memo right exactly when it is live and nothing live and newer is stored |
| BackendStore.PurgeAgreesIff | pkg/store/storage.go:482-486 | a purge leaves a memo entry right exactly when it spares the entry's key |
| ReadWrite.ReadWriteStore.Update | pkg/store/readwrite.go:112-118 | backend first, then the index; refused, neither changes |
| ReadWrite.ReadWriteStore.Delete | pkg/store/readwrite.go:120-126 | the tombstone enters both |
| ReadWrite.ReadWriteStore.PurgeRevision | pkg/store/readwrite.go:66-72 | a removed revision leaves both, a refused one neither |
| ReadWrite.ReadWriteStore.PurgeRevisions | pkg/store/readwrite.go:74-81 | the index drops what is re-parsed from the keys the backend reports removed, and the error is that of the last key |
| ReadWrite.ReadWriteStore.Sync | pkg/store/readwrite.go:48-64 | the index gains exactly the stored revisions of tracked objects, or nothing when the bucket's listing fails |
| ReadWrite.RemovedParsed | pkg/store/storage.go:488-511 | re-parsing the removed keys gives the removed revisions cut to whole seconds, with the same keys |
| Agreement.RunMirrors | pkg/store/readwrite.go:48-126 | over every run, with any refusals, each indexed revision is under its own object and version and its key is in the backend |
| Agreement.AgreementAfterSync | pkg/store/readwrite.go:48-126 | once loaded, and if no two keys share an object and version, the index has every tracked key of the backend in every later state |
| Agreement.IndexEqualsBackend | pkg/store/readwrite.go:48-126 | then a tracked revision's key is indexed if and only if it is in the backend |
| Agreement.WriteStaysFullIff | pkg/store/readwrite.go:104-126 | a write keeps the index complete exactly when no other key shares its object and version |
| Agreement.PurgeStaysFullIff | pkg/store/readwrite.go:66-72 | a purge keeps it complete exactly when no remaining key shares the purged object and version |
| Agreement.TombstoneHidesLiveKey | pkg/store/inmemory_getter.go:42-43 | a tombstone at the version of a stored live revision hides that revision's key from the index |
| Reaper.Reap.Run | pkg/controller/reaper/reaper.go:69-111 | a cycle selects exactly the aged revisions that are deleted or older than an indexed version of their object, and queues them |
| Reaper.SelectRevisions | pkg/controller/reaper/reaper.go:81-98 | of any store's answer, the loop selects exactly the places that are aged and not a last live one |
| Purger.Purge.PurgeCycle | pkg/controller/purger/purger.go:73-94 | the queue, the backend and the index lose exactly the entries whose keys the backend reports removed, each reported once |
| Purger.EvictAllReparsed | pkg/controller/purger/purger.go:91-93 | clearing the queue with re-parsed revisions drops exactly the entries under their keys |
| Retention.NewestIsRetained | pkg/controller/reaper/reaper.go:81-111 | over every interleaving of writes, index updates, loads, reaps and purges with refusals, a live revision of the greatest version ever written for its object is never queued and never removed |
| Retention.ReapedAreExpendable | pkg/controller/reaper/reaper.go:85-98 | what the reaper selects is deleted or superseded by a written revision |
| Retention.StepsAreFree | pkg/controller/reaper/reaper.go:47-63 | the steps of writers, reaper and purger interleave freely: each is possible in every state that has what it needs |
| Operator.NewestStands | pkg/controller/controller.go:186-194 | after any calls on the operator's store, reaper and purger, a live revision of the greatest version ever written for its object is in the bucket and not queued for purging |
| Operator.Operator.Update | pkg/store/readwrite.go:112-118 | a write of the cached store is a run of the retention steps; bucket and index both take it, or neither |
| Operator.Operator.Delete | pkg/store/readwrite.go:120-126 | so is a tombstone's |
| Operator.Operator.Sync | pkg/store/readwrite.go:48-64 | so is loading the index, which gains the tracked stored revisions; the stale ones are returned; when the listing fails nothing happens |
| Operator.Operator.ReapCycle | pkg/controller/reaper/reaper.go:69-111 | so is a cycle of the reaper, which selects exactly the aged expendable revisions of the index and queues each that is not queued yet |
| Operator.Operator.PurgeCycle | pkg/controller/purger/purger.go:73-94 | so is a cycle of the purger: bucket and queue lose exactly the queued keys whose removal is accepted, the index loses exactly their places, and they are reported, each once |
| Operator.ReapedArePurged | pkg/controller/reaper/reaper.go:81-111 | a reap and then a purge with all removals accepted leave no aged expendable revision of the index in the bucket, and nothing for a further reap |
| TextOrder.KeyOrder | pkg/store/revision.go:292-305 | an object's keys are in textual order by version, then second, then deletion, the numbers compared as printed |
| Uncached.RunPlain | pkg/controller/reaper/reaper.go:69-111 | a cycle on the plain store selects and queues what its State query and the loop select, and nothing when the query fails |
| Uncached.PlainReapsIff | pkg/controller/reaper/reaper.go:81-98 | of any store listing exactly the aged revisions are selected that are deleted or have a key of their object listed later |
| Uncached.PlainReapsByNumber | pkg/controller/reaper/reaper.go:81-98 | of a listing in textual order exactly those that are deleted or come before another of their object by the numbers as printed |
| Uncached.NewestReapedIff | pkg/controller/reaper/reaper.go:86-89 | the plain store breaks the promise for an object's newest live revision exactly when it has aged and an older version with fewer digits is textually after it |
| Uncached.EqualDigitsSpared | pkg/controller/reaper/reaper.go:86-89 | the promise holds while the object's versions have equally many digits |
| Uncached.NewestIsReaped | pkg/controller/reaper/reaper.go:81-98 | on the plain store, listed in textual order, the reaper selects version 10 before version 9 |
| Policy.BackupPolicy.Choose | pkg/controller/policy/backuppolicy.go:84-125 | no rule exactly when none matches group and labels, else the first full match, else the last rule of the highest level reached |
| Policy.BackupPolicy.RuleFor | pkg/controller/policy/backuppolicy.go:83-142 | the chosen rule with its effective fields and values; no other shared policy changes; it dereferences nil exactly when it needs a missing policy-level policy |
| Policy.BackupPolicy.Lookups | pkg/controller/policy/backuppolicy.go:126-141 | any sequence of lookups answers what the initial policy means, though defaults are written through shared pointers |
| Watches.PlanResource | pkg/controller/controller.go:235-256 | one resource's clients are those of the namespaces the policy asks for |
| Watches.GetDynamics | pkg/controller/controller.go:223-272 | each supported resource is watched everywhere if an applying rule is unrestricted, else in every namespace an applying rule names, each once |
| Watches.WatchAll | pkg/controller/controller.go:315-320 | each planned client's handler lies under its key |
| Watches.HandlerCovers | pkg/handler/resource.go:36-53 | for every object a watch delivers the handler found is of the watched resource and covers the namespace |
| Watches.HandlerFoundIff | pkg/handler/resource.go:36-53 | for an object of a supported resource a handler is found if and only if the policy watches the resource everywhere or in the object's namespace, and it is of that resource and such a watch |
| Watches.StartWatches | pkg/controller/controller.go:205-221 | the same from the discovery lists and the policy's rules to the handlers, failing exactly on a malformed group version |
| Controller.TombstonesCoalesce | pkg/controller/controller.go:334-337 | queueing a list as tombstones leaves one an object, of its greatest version in the list |
| Controller.SyncStore | pkg/controller/controller.go:324-339 | after the start-up sync on an empty cache exactly the objects with stored revisions that their informer does not show have a tombstone pending, of the greatest such version, and none when the sync fails |

## Left out

- Kubernetes clients, informers, work queues, HTTP, metrics, logging, flags and output formats: I/O and libraries; an informer is a set of names, a rule's label selector an opaque predicate, a resource's verbs one flag.
- Encryption, JSON and the content of revisions: keys stand for revisions, so `Get` is modelled up to opening the key, and a label selector is what it says of a revision, or that the content does not load.
- The in-memory State query with a time, deleted-only or single-revision options: it cuts lists while ranging over them and can index an empty list; only the reaper's query is modelled.
- Two overlapping store calls on the same key, and the in-place tombstone mark at `pkg/controller/controller.go:335` on a revision that the index shares: revisions are values.
- FlushProtocol.NothingLost: a stored revision is one whose write the store accepted; which of the two store kinds takes it is not part of the protocol.
- Flusher.Flush.FlushCache: models the path without a semaphore as one uninterrupted call; the asynchronous path and the overlap of the cycles are in the step relation only.
- Flusher.Flush.Tick: the same, with the hand-over after the call.
- Operator.Operator.Update: each call of the operator's objects is uninterrupted; calls that overlap are in the retention steps only.
- The S3 removal path in the cached store's purge, whose report can be incomplete: it is modelled on its own in `Buckets.Bucket.RemoveAllS3`.
- Errors of listing one directory, and removal for backends without bulk removal, of which there are none.
- Nil revisions handed to the pending cache, which no caller passes.
- Purges of single revisions that a user asks for on the command line: they may remove any revision.
- `rpo.Rotate`, which proposes no revision for purging today; `different`, which compares the watched fields of two versions; the resource filters, which discard events by name and label; and the JSON printers.
