# Datamaster in Dafny

A model of the stateful core of the datamaster library, with proofs of what its protocols and
transformations promise. Mongo, Redis and S3 appear as maps and sequences whose single-document
operations are atomic; clocks, generated ids, randomness and the cryptographic primitives are inputs,
of which only the laws named beside them are used.

- **DLQ leases** (`DlqEntry`, `DlqProvider`, `DlqRuns`): the provider as a class over a collection of
  entries, and interleaved runs of many clients in which `fail` is a read and a later fenced write.
- **LRU cache** (`RecencyList`, `QlruCache`, `CacheCalls`, `CacheRuns`, `CacheStack`,
  `CacheInclusion`): the cache as a class over an insertion-ordered map, refining a recency list, what
  one call means for the next, and whole runs of operations.
- **Field protection** (`Protection`, `ProtectionRuns`): version prefixes, setter and getter, and
  interleaved saves, deletions, version changes and rotations of one protected path.
- **Filters over masked data** (`FilterMeaning`, `FilterRewrite`, `FilterInPlace`): what a filter
  means, the rewriting that keeps it, and the same rewriting in place on heap objects.
- **Path transform** (`JsTree`, `PathTransform`, `PathOrder`, `ShallowTransform`, `PathInverse`): the
  iterative traversal with its promises against a specification on trees, place by place.
- **Data policies** (`DataPolicies`): a whole document protected on its way in and revealed on its way
  out, which joins the two parts above.
- **Pagination** (`Pagination`): page and cursor pagination, and walks along the cursors while other
  clients write.
- **Object storage and key rotation** (`StorageCrypto`, `ObjectStorage`, `RotationCore`,
  `RotationRuns`): the connector, the walk over its pages, rotation and check, and rotations that run
  while the application writes.
- **Triggers** (`JsonEquality`, `TriggerSync`, `TriggerRegistry`): structural equality, merging, the
  boot-time reconciliation of code and database, and the layered lookup.
- **Smaller pieces** (`FallbackStorage`, `FallbackRuns`, `BulkWrite`, `BulkBuffer`): a primary store over
  a local one with its sync, bulk-write retry, and the size/time buffer.

`dafny verify dfyconfig.toml` checks the whole project.

Where the code and its documentation part, the model follows the code:

- `transformByDataProtection` documents `excludeHashedFields` as the choice between keeping and
  excluding hashed fields; the code deletes them without it, and with it sets a hashed string to null
  but still deletes an array of hashes (`HashedNeverServed`). It also deletes a value whose version is no longer configured
  (`UnconfiguredDeleted`).
- Masked filters are documented to match what the plain ones match; the setter drops "", 0 and false,
  which then match a null condition (`MeaningKeptIff`, `DroppedBreaksNull`).
- A stale `fail` is documented as choosing at worst the wrong status; it can also let more fails commit
  than `maxAttempts` (`CapExceededByReclaim`).
- Rotation is documented to skip an object that changed concurrently; it compares checksums of the
  content only and puts in a later step, so a content that went and came back, a changed content type,
  or a write after the comparison passes (`ReturnLosesContent`, `ContentTypeIsReverted`,
  `WindowLosesWrites`).
- A falsy id at the end of a full page makes the next call of `paginateCursor` start again from the
  beginning (`WalkEndsIff`).

## Model

| member | source | states |
|---|---|---|
| `DlqProviderModel.DLQProvider.Push` | src/modules/dlq/dlq.provider.ts:133-158 | A new pending entry under a fresh id with what the caller gave, attempts 0, one history item equal to `error`; nothing else changes |
| `DlqProviderModel.DLQProvider.Claim` | src/modules/dlq/dlq.provider.ts:218-247 | Null exactly when no entry is eligible; otherwise exactly one oldest eligible entry gets the lease and one more attempt |
| `DlqProviderModel.DLQProvider.Release` | src/modules/dlq/dlq.provider.ts:255-260 | Back to pending without lease under the caller's own claim, else CONFLICT and no change |
| `DlqProviderModel.DLQProvider.Complete` | src/modules/dlq/dlq.provider.ts:267-275 | Completed without lease under the caller's own claim, else CONFLICT and no change |
| `DlqProviderModel.DLQProvider.Fail` | src/modules/dlq/dlq.provider.ts:284-324 | With nobody writing in between, the read and the fenced write together are one atomic fail |
| `DlqProviderModel.DLQProvider.TransitionLeasedEntry` | src/modules/dlq/dlq.provider.ts:396-419 | An update applies exactly when the entry is claimed by that owner, and to that entry alone |
| `DlqProviderModel.DLQProvider.Requeue` | src/modules/dlq/dlq.provider.ts:332-352 | Any existing entry becomes pending and loses its lease, attempts reset on request; NOT_FOUND otherwise |
| `DlqProviderModel.DLQProvider.Discard` | src/modules/dlq/dlq.provider.ts:360-380 | Any existing entry becomes discarded and loses its lease; NOT_FOUND otherwise |
| `DlqProviderModel.DLQProvider.Remove` | src/modules/dlq/dlq.provider.ts:387-393 | The entry is gone; NOT_FOUND if it was not there |
| `DlqRuns.AllWellFormed` | src/modules/dlq/dlq.provider.ts:133-419 | In every state of every interleaved run: lease fields present iff claimed, `error` is the last history item, history is never empty |
| `DlqRuns.ClaimIsAnswered` | src/modules/dlq/dlq.provider.ts:218-247 | In every state every claim can come back with an entry that no other eligible one is older than, or with null |
| `DlqRuns.NoCallIsRefused` | src/modules/dlq/dlq.provider.ts:133-419 | The runs leave out no call: each of the others can be made in every state |
| `DlqRuns.PushedStays` | src/modules/dlq/dlq.provider.ts:133-158 | At every later state of every run an entry has the process type, origin, process id, payload, cap and moment of creation of its push, and its metadata but for `discardReason` |
| `DlqRuns.PushedIsClaimable` | src/modules/dlq/dlq.provider.ts:133-158 | A claim can have a freshly pushed entry iff it asks for no process type or for the one pushed, and its filter lets the entry pass; attempts are 0 and the history is the one error pushed |
| `DlqRuns.RequeuedIsClaimable` | src/modules/dlq/dlq.provider.ts:332-352 | The same of an entry just requeued, whatever it was before; its attempts are what they were, or 0 on request |
| `DlqRuns.DiscardedIsClosed` | src/modules/dlq/dlq.provider.ts:360-380 | No claim can have a discarded entry; the reason given is in its metadata, attempts and history are as they were |
| `DlqRuns.LeaseProvenance` | src/modules/dlq/dlq.provider.ts:218-247 | A claimed entry is field by field what the latest successful claim of it left |
| `DlqRuns.ClaimableIff` | src/modules/dlq/dlq.provider.ts:223-230 | No entry is lost: in every state an entry is eligible iff it is pending, or claimed with the lease of its latest claim run out, and is one that was asked for |
| `DlqRuns.ClaimsTheOldest` | src/modules/dlq/dlq.provider.ts:218-243 | What a claim picks is pending or has a lease run out, is what it asked for, and nothing else pending that it asked for is older; the lease then ends `leaseTtlMs` later |
| `DlqRuns.NothingToClaim` | src/modules/dlq/dlq.provider.ts:218-247 | A claim that returns null changes nothing and leaves behind nothing that is pending, or claimed with its lease run out, among what it asked for |
| `DlqRuns.NoOverlappingLeases` | src/modules/dlq/dlq.provider.ts:223-243 | Between two claims of one entry the earlier lease has run out on the clock, unless a step ended it (lease TTLs not negative) |
| `DlqRuns.OnlyLatestClaimerEnds` | src/modules/dlq/dlq.provider.ts:255-324 | Whoever ends a claim is the owner of the latest claim, and nothing touched the entry since |
| `DlqRuns.OneEndPerClaim` | src/modules/dlq/dlq.provider.ts:255-324 | Between two endings the entry was claimed again by the one who ends it the second time |
| `DlqRuns.OnlyRequeueReopens` | src/modules/dlq/dlq.provider.ts:332-352 | A failed, completed or discarded entry becomes claimable only through a requeue of it |
| `DlqRuns.Accounting` | src/modules/dlq/dlq.provider.ts:232-243 | `attempts` equals the claims since push or the last reset; the history has one item per committed fail plus one |
| `DlqRuns.TwoStepFailIsAtomic` | src/modules/dlq/dlq.provider.ts:284-324 | In any interleaving where the owner does not claim the entry again in between, the two-step fail is the atomic fail at write time, or a conflict that writes nothing |
| `DlqRuns.TwoStepFailIsAtomicIff` | src/modules/dlq/dlq.provider.ts:309-323 | A write that finds its lease is the atomic fail if and only if read and write saw the same number of claims since the last reset |
| `DlqEntry.FailWriteIsAtomicIff` | src/modules/dlq/dlq.provider.ts:309-323 | On one entry: the stale write equals the atomic one iff the attempts read are the attempts found |
| `DlqRuns.ClosesIff` | src/modules/dlq/dlq.provider.ts:293-311 | A committed fail closes the entry iff it has a `maxAttempts` other than 0 and the read saw at least that many claims since the last reset; otherwise it leaves it pending |
| `DlqRuns.FailIsRecorded` | src/modules/dlq/dlq.provider.ts:296-310 | A committed fail leaves its error, and in the history its error, moment and the claims that its read saw since the last reset |
| `DlqRuns.CapKeptIff` | src/modules/dlq/dlq.provider.ts:284-324 | At the fail that reaches `maxAttempts`: however the run goes on without a requeue of the entry no further fail of it commits, iff the read of that fail saw at least `maxAttempts` claims; otherwise some continuation commits one more |
| `DlqRuns.AtMostMaxAttemptsFails` | src/modules/dlq/dlq.provider.ts:309-323 | So without requeue, and without an owner claiming the entry again during its fail of it, at most `maxAttempts` fails of it ever commit, and the last one closes it |
| `DlqRuns.CapExceededByReclaim` | src/modules/dlq/dlq.provider.ts:290-324 | Otherwise the cap can be exceeded: a run with three committed fails under a cap of two |
| `DlqRuns.StaleFailReopens` | src/modules/dlq/dlq.provider.ts:290-311 | In that run a stale write reopens an entry that an atomic fail would have closed |
| `QlruCacheModel.QlruCache.Create` | src/modules/cache/providers/qlru/connector.ts:36-55 | A capacity that is not positive is refused, any other gives an empty cache |
| `QlruCacheModel.QlruCache.Get` | src/modules/cache/providers/qlru/connector.ts:68-84 | Returns the live value and moves it to the end of the recency list; an expired entry is dropped and missed |
| `QlruCacheModel.QlruCache.Set` | src/modules/cache/providers/qlru/connector.ts:93-132 | The new recency list and entry, KEEPTTL and eviction included, as the list specification has them |
| `QlruCacheModel.QlruCache.Has` | src/modules/cache/providers/qlru/connector.ts:140-150 | Whether a live entry is there, without touching its recency |
| `QlruCacheModel.QlruCache.Delete` | src/modules/cache/providers/qlru/connector.ts:158-160 | Removes the key and tells whether it was there |
| `QlruCacheModel.QlruCache.Evict` | src/modules/cache/providers/qlru/connector.ts:181-188 | Deleting while walking the map leaves exactly the unexpired entries, in order |
| `QlruCacheModel.QlruCache.LiveKeys` | src/modules/cache/providers/qlru/connector.ts:193-196 | The unexpired keys in recency order |
| `CacheCalls.SetThenGetIt` | src/modules/cache/providers/qlru/connector.ts:68-132 | In terms of the arguments of set and get: the value is found iff the lifetime given, or without one that of the cache, each with the offset drawn, is not positive or not over; KEEPTTL keeps the moment of expiry, and takes the plain lifetime of the cache for an absent key |
| `CacheCalls.SetThenGetOther` | src/modules/cache/providers/qlru/connector.ts:68-132 | After a set another key answers as before unless the set pushed it out: cache full, key new, the other least recently used |
| `CacheCalls.DeleteThenGet` | src/modules/cache/providers/qlru/connector.ts:158-160 | After a delete the key is missed and every other one answers as before |
| `CacheCalls.SizeThenGet` | src/modules/cache/providers/qlru/connector.ts:166-188 | No get can tell that the expired entries were swept |
| `CacheRuns.AlwaysSound` | src/modules/cache/providers/qlru/connector.ts:68-188 | Every reachable list has distinct keys, at most `capacity` of them, and entries on which the two expiry tests agree at every moment |
| `CacheRuns.LookupAfter` | src/modules/cache/providers/qlru/connector.ts:68-160 | What every lookup finds after any operation but a set, in terms of what it found before |
| `CacheRuns.LookupAfterSet` | src/modules/cache/providers/qlru/connector.ts:93-132 | What every other lookup finds after a set |
| `CacheRuns.SetThenGet` | src/modules/cache/providers/qlru/connector.ts:68-132 | A value just set is found until exactly the end of its lifetime, for ever without a positive one |
| `CacheRuns.KeepTtlThenGet` | src/modules/cache/providers/qlru/connector.ts:112-115 | KEEPTTL replaces the value and keeps the moment of expiry |
| `CacheRuns.RecencyOrder` | src/modules/cache/providers/qlru/connector.ts:68-132 | Every reachable list is in order of last touch |
| `CacheRuns.EvictsLeastRecentlyUsed` | src/modules/cache/providers/qlru/connector.ts:127-131 | What a set pushes out was touched before everything that stays |
| `CacheRuns.TouchedKeySurvives` | src/modules/cache/providers/qlru/connector.ts:93-132 | A touched key is there as long as fewer than `capacity` other keys were touched since and nothing deleted it or met it expired |
| `CacheStack.SurvivesIff` | src/modules/cache/providers/qlru/connector.ts:68-132 | The exact condition: while nothing is deleted or met expired, a key is in the cache iff fewer than `capacity` other keys were touched since its last touch |
| `CacheRuns.HitsPushOutToo` | src/modules/cache/providers/qlru/connector.ts:80-82 | Counting sets alone is not enough: hits of other keys push a key out as well |
| `CacheInclusion.InclusionIff` | src/modules/cache/providers/qlru/connector.ts:68-132 | Fed the same operations, the smaller cache is at every moment part of the larger one, with equal entries, iff every set builds the same entry in both: a KEEPTTL set of a key that only the larger one still holds must find there the lifetime the default would give |
| `CacheInclusion.InclusionWithoutKeepTtl` | src/modules/cache/providers/qlru/connector.ts:112-115 | Without KEEPTTL that is always so |
| `CacheInclusion.HitsInLargerCache` | src/modules/cache/providers/qlru/connector.ts:68-84 | Then every hit in the smaller cache is the same hit in the larger |
| `CacheInclusion.KeepTtlBreaksInclusion` | src/modules/cache/providers/qlru/connector.ts:112-115 | Otherwise a smaller cache can hit where the larger misses |
| `Protection.ExtractUndoesAppend` | src/utils/protection.ts:70-122 | Splitting off the version undoes prefixing it, on strings and on arrays |
| `Protection.AppendVersionInPlace` | src/utils/protection.ts:70-82 | The array given has its first element overwritten as the specification says |
| `Protection.RoundTrip` | src/modules/database/policies/protection.ts:56-133 | The getter recovers what the setter stored, under any later configuration that resolves the stored version in the same way |
| `Protection.StoredIs` | src/modules/database/policies/protection.ts:99-133 | What the setter stores, string by string: the hash; or the version before the first masked or encrypted string, no prefix before the others; text that starts with "" as it is |
| `Protection.ReadIs` | src/modules/database/policies/protection.ts:56-97 | What the getter makes of it, string by string, for every strategy and for a version without configuration |
| `Protection.MaskedEqualIff` | src/utils/protection.ts:350-366 | Masked values of non-empty strings are equal iff the strings are |
| `ProtectionRuns.ReadsLastSavedIff` | src/modules/database/providers/mongo/utils/seeders.ts:84-117 | Under any interleaving of saves, deletions, version changes and rotations that read first and write back later, every document always reads as it was last saved iff for each value written back the last save or deletion of it since it was read is absent, a deletion, or a save of the same text |
| `ProtectionRuns.OvertakenSaveIsLost` | src/modules/database/providers/mongo/utils/seeders.ts:96-115 | A save that falls between the read and the write back is lost, under any lawful primitives |
| `ProtectionRuns.QuietRotation` | src/modules/database/providers/mongo/utils/seeders.ts:84-117 | A rotation that runs alone changes no reading and leaves every value on the active version |
| `ProtectionRuns.AloneIsRotateOne` | src/modules/database/providers/mongo/utils/seeders.ts:84-117 | A read and its write back with nothing in between leave the value as a rotation that runs alone does |
| `ProtectionRuns.ProtectedPath.SeedRotateProtectionKeys` | src/modules/database/providers/mongo/utils/seeders.ts:84-117 | Every stored value is revealed and protected again under the active version; reads first, then writes |
| `ProtectionRuns.ProtectedPath.CheckProtectionRotationStatus` | src/modules/database/providers/mongo/utils/seeders.ts:159-202 | total = current + outdated, outdated 0 iff all on the active version; throws iff some document holds an empty array |
| `ProtectionRuns.OnActiveIff` | src/modules/database/providers/mongo/utils/seeders.ts:119-135 | While the active version stays, a stored value is on it iff it was saved or written back since, or was on it before |
| `ProtectionRuns.OnActiveIsPrefixed` | src/utils/protection.ts:88-122 | What the check counts as current, read off the stored text: it starts with the active version and a colon, or has no version where v0 is active |
| `FilterRewrite.AcceptedIff` | src/modules/database/providers/mongo/processor/schema/transforms/filter.ts:41-118 | Not rejected iff every condition on a protected path is null, or an equality, `$eq` or null-free `$in` on a masked path; branches included |
| `FilterRewrite.RejectedBecause` | src/modules/database/providers/mongo/processor/schema/transforms/filter.ts:41-118 | The error is one that some condition in the filter earns: which path, and whether its strategy is not masking or its operator is not one of those; and a condition that earns one is there |
| `FilterRewrite.MeaningKept` | src/modules/database/providers/mongo/processor/schema/transforms/filter.ts:41-118 | The rewritten filter matches the protected document iff the original matches the plain one, whatever other operators mean, on documents whose masked arrays are uniform (no non-empty string but a first one) and that hold nothing the setter drops |
| `FilterRewrite.ProtectValueIs` | src/modules/database/policies/protection.ts:99-133 | What the protected document holds that this is about: null, false, 0 and "" are dropped, other strings hashed or encrypted one by one, the rest kept |
| `FilterRewrite.MaskedAsSet` | src/modules/database/policies/protection.ts:99-133 | A masked text is in it as the setter stores it |
| `FilterRewrite.MeaningKeptIff` | src/modules/database/policies/protection.ts:99-133 | All accepted filters keep their answers on a document iff none of its protected fields holds "", 0 or false and every masked array is uniform, unless an array element behind the first is stored looking as if it were prefixed |
| `FilterRewrite.DroppedBreaksNull` | src/modules/database/policies/protection.ts:104 | A dropped value turns up under a null condition that never matched it |
| `FilterRewrite.NotUniformIsMissed` | src/utils/protection.ts:75-79 | An array that is not uniform has an element by which it matches before and not after |
| `FilterMeaning.BareMeans` | src/modules/database/providers/mongo/processor/schema/transforms/filter.ts:57-75 | What an equality asks of a document, which the rewriting must keep: a missing field equals null alone, an array any of its elements |
| `FilterMeaning.InIsAnyOf` | src/modules/database/providers/mongo/processor/schema/transforms/filter.ts:75-117 | `$eq` is the bare value, `$in` any one of its values |
| `FilterMeaning.BranchesSplit` | src/modules/database/providers/mongo/processor/schema/transforms/filter.ts:48-55 | `$or`, `$and` and `$nor` taken apart, `$nor` as the negation of `$or` |
| `FilterMeaning.PartsTogether` | src/modules/database/providers/mongo/processor/schema/transforms/filter.ts:41-57 | A filter asks for all its parts at once |
| `FilterRewrite.ArrayElementNotFound` | src/utils/protection.ts:75-79 | So it is with every array of two different non-empty strings |
| `FilterInPlace.ProtectFilterByPaths` | src/modules/database/providers/mongo/processor/schema/transforms/filter.ts:41-118 | On heap objects that form a tree the in-place rewriting leaves the rewritten filter, or throws the error the specification names |
| `FilterInPlace.ValueIs` | src/modules/database/providers/mongo/processor/schema/transforms/filter.ts:41-55 | What the heap objects mean: the filter with their conditions and branches, one by one |
| `FilterInPlace.ProtectPaths` | src/modules/database/providers/mongo/processor/schema/transforms/filter.ts:57-117 | The loop over the protected paths of one object |
| `FilterInPlace.ProtectList` | src/modules/database/providers/mongo/processor/schema/transforms/filter.ts:48-55 | The loop over the conditions of one branch |
| `PathTransform.ApplySeen` | src/modules/database/providers/mongo/processor/schema/transforms/shallow.ts:65-208 | Place by place: exactly the hits are replaced or deleted, nulls on the way become containers, every other place keeps what it had |
| `PathTransform.ThrowsIff` | src/modules/database/providers/mongo/processor/schema/transforms/shallow.ts:120-125 | A TypeError iff a truthy primitive stands where a property is looked up |
| `PathTransform.NullReplaced` | src/modules/database/providers/mongo/processor/schema/transforms/shallow.ts:186-208 | A null on the way becomes an empty array if the segment after it, a `*` skipped, is an index, else an empty object; nothing but the way of the path is below it |
| `PathOrder.ApplyAllSeen` | src/modules/database/providers/mongo/processor/schema/transforms/shallow.ts:73-151 | Several non-overlapping paths together, place by place, on any document: hits carry their results, a null on the way is the container the first path to find it wants, everything else is as it was |
| `PathOrder.NullBecomes` | src/modules/database/providers/mongo/processor/schema/transforms/shallow.ts:186-208 | The same of several paths: the container that the first path to find the null asks for, read off its segments |
| `PathOrder.AnyOrder` | src/modules/database/providers/mongo/processor/schema/transforms/shallow.ts:128-141 | On any document applying the paths is replacing the nulls on their way and then writing all their hits, in any order of the writes |
| `PathOrder.OrderIndependentIff` | src/modules/database/providers/mongo/processor/schema/transforms/shallow.ts:73-153 | The order of the paths does not matter on a document iff, wherever two of them find the same null, they would put the same container in its place |
| `PathOrder.TwoPathsIff` | src/modules/database/providers/mongo/processor/schema/transforms/shallow.ts:73-208 | The same of two paths: they commute iff they agree on every null that both find |
| `PathOrder.NullMakesOrderMatter` | src/modules/database/providers/mongo/processor/schema/transforms/shallow.ts:205 | There are non-overlapping paths that disagree: one wants an array where the other wants an object |
| `ShallowTransform.Document.Traverse` | src/modules/database/providers/mongo/processor/schema/transforms/shallow.ts:78-148 | The index loop that reassigns src and dst equals the recursive specification, promises included, and throws exactly when it does |
| `ShallowTransform.Document.TraverseAll` | src/modules/database/providers/mongo/processor/schema/transforms/shallow.ts:89-117 | The `*` case, children in any order |
| `ShallowTransform.Document.TransformPaths` | src/modules/database/providers/mongo/processor/schema/transforms/shallow.ts:73-151 | All paths from the root, which promises are left, and when it throws |
| `ShallowTransform.StoppedIff` | src/modules/database/providers/mongo/processor/schema/transforms/shallow.ts:78-148 | The walk along a path throws iff a truthy primitive stands where a property is looked up or the transform throws on a value the path reaches |
| `ShallowTransform.Document.TransformShallowByPaths` | src/modules/database/providers/mongo/processor/schema/transforms/shallow.ts:65-154 | The whole call, on any document: it throws iff one of the paths would on the document given; otherwise, once the promises have settled in whatever order, the document is the one the settled results make |
| `ShallowTransform.TwoPhases` | src/modules/database/providers/mongo/processor/schema/transforms/shallow.ts:134-141 | On any document walking first and settling the promises later, in any order, is applying the settled results |
| `ShallowTransform.LateWritesAre` | src/modules/database/providers/mongo/processor/schema/transforms/shallow.ts:132-141 | Exactly the hits with an asynchronous result leave a promise, each for its own place |
| `PathInverse.RestoresIff` | src/modules/database/providers/mongo/processor/schema/transforms/shallow.ts:65-208 | Of two transforms the second of which takes back, value by value, what the first one puts, the second undoes the first iff no null stands on the way |
| `DataPolicies.SavedThenServed` | src/modules/database/providers/mongo/processor/schema/transforms/data-policies.ts:94-143 | A document whose protected fields survive (filled, an empty array, or an array that starts with "" where version v0 can be reversed), with no null on the way to them, is served exactly as it was before it was saved, all other places included, whatever version is active by then |
| `DataPolicies.ServedBackIff` | src/modules/database/policies/protection.ts:51-133 | With strings, arrays of strings and falsy values in the protected fields: the same document comes back iff every one of them survives and no null stands on the way to one |
| `DataPolicies.ProtectedIsStored` | src/modules/database/policies/protection.ts:99-133 | What the database holds at every protected place, string by string: hash, or version and mask, or version and cipher text, the version before the first string alone |
| `DataPolicies.StoredIsServed` | src/modules/database/providers/mongo/processor/schema/transforms/data-policies.ts:94-143 | What is served at every protected place of a document read: each string unmasked or decrypted under the version that is stored, null or nothing for a hash, nothing for a version without configuration |
| `DataPolicies.OddIsStored` | src/modules/database/policies/protection.ts:99-133 | Values that are neither a string nor an array of strings: hashed, or masked or encrypted, which leaves one without a first element as it is; all but masking with a promise |
| `DataPolicies.OddIsServed` | src/modules/database/providers/mongo/processor/schema/transforms/data-policies.ts:94-143 | What is served of such a value, by the version read off it |
| `DataPolicies.EmptyIsServed` | src/modules/database/providers/mongo/processor/schema/transforms/data-policies.ts:94-143 | A falsy value and an empty array are served as they are stored; `undefined` is deleted |
| `DataPolicies.StoredLaterIff` | src/modules/database/policies/protection.ts:99-133 | The setter answers with a promise iff it hashes or encrypts |
| `DataPolicies.ServedLaterIff` | src/modules/database/policies/protection.ts:56-97 | The getter answers with a promise iff it decrypts |
| `DataPolicies.HashedNeverServed` | src/modules/database/providers/mongo/processor/schema/transforms/data-policies.ts:134-136 | A hashed field is null iff it is a string and `excludeHashedFields` is set; otherwise, arrays of hashes included, it is deleted |
| `DataPolicies.UnconfiguredDeleted` | src/modules/database/providers/mongo/processor/schema/transforms/data-policies.ts:110-137 | A value stored under a version without configuration is deleted from what is served |
| `DataPolicies.TransformByDataProtection` | src/modules/database/providers/mongo/processor/schema/transforms/data-policies.ts:94-143 | The method rewrites any document in place to the revealed one, for every order of the promises; it throws iff a primitive blocks a path or a path reaches a truthy value that is no string and neither an empty array nor one that starts with a string or an array |
| `DataPolicies.ProtectOp` | src/modules/database/providers/mongo/processor/schema/statics/bulk-write.ts:14-36 | One write payload becomes the protected one; the call throws iff a primitive blocks a path, a truthy value is reached whose active version has no configuration, or a hash is refused |
| `Pagination.CombinedMeansBoth` | src/modules/database/providers/mongo/processor/schema/statics/pagination.ts:10-21 | The combined filter asks for both, whatever keys they share |
| `Pagination.FlagsAgree` | src/modules/database/providers/mongo/processor/schema/statics/pagination.ts:45-64 | `hasNextPage` iff page < totalPages, `hasPrevPage` iff page > 1; a page that has a next one is full, one beyond the last is empty |
| `Pagination.PageInOrder` | src/modules/database/providers/mongo/processor/schema/statics/pagination.ts:90-105 | A cursor page is ascending, beyond its cursor, at most `limit` long, and hands out its last id iff there is more |
| `Pagination.NothingSkipped` | src/modules/database/providers/mongo/processor/schema/statics/pagination.ts:90-98 | What is asked for and not on the page is still beyond the cursor it hands out |
| `Pagination.WalkAscends` | src/modules/database/providers/mongo/processor/schema/statics/pagination.ts:70-106 | Under concurrent inserts, changes and deletes the pages together are strictly ascending: nothing is returned twice |
| `Pagination.CompleteWalk` | src/modules/database/providers/mongo/processor/schema/statics/pagination.ts:70-106 | A walk that ends, no page having handed out a falsy id, has returned every document that matched throughout, exactly once |
| `Pagination.TimesReturned` | src/modules/database/providers/mongo/processor/schema/statics/pagination.ts:70-106 | With falsy ids handed out too, and under concurrent changes: a walk that ends has returned every document that matched throughout exactly once, or once more per falsy cursor if its id is not above 0; any other document at most that often |
| `Pagination.ReturnedTwiceIff` | src/modules/database/providers/mongo/processor/schema/statics/pagination.ts:90 | Of those that matched throughout a document is returned twice iff its id is not above 0 and some page handed out a falsy cursor |
| `Pagination.WalkIsPaginate` | src/modules/database/providers/mongo/processor/schema/statics/pagination.ts:26-106 | On a fixed collection page i of the walk is page i of `paginate` |
| `Pagination.WholeWalk` | src/modules/database/providers/mongo/processor/schema/statics/pagination.ts:26-106 | A walk that ends returns all that matches, in order, as pages 1 to totalPages do together |
| `Pagination.WalkEndsIff` | src/modules/database/providers/mongo/processor/schema/statics/pagination.ts:90 | On a fixed collection a walk ends iff no full page but the last ends in a falsy id; otherwise it reads the same pages for ever |
| `ObjectStorageModel.PutThenGet` | src/modules/storage/connector.ts:180-242 | What is put is what is got, with its checksum and version on record |
| `ObjectStorageModel.StoredIsEncrypted` | src/modules/storage/connector.ts:180-208 | What the bucket holds after a put: the bytes encrypted under the active version with that version, the checksum and the content type beside them; the plain bytes if encryption is off |
| `ObjectStorageModel.ForeignIsRead` | src/modules/storage/connector.ts:210-242 | An object without a version is handed out as it is |
| `ObjectStorageModel.UnreadableFails` | src/modules/storage/connector.ts:210-242 | A read fails iff the version of the object cannot be decrypted with |
| `StorageCrypto.UnmarkedIsZero` | src/modules/storage/encryption.ts:126-133 | What carries no version is read as version v0 |
| `ObjectStorageModel.SeaweedFSObjectStorage.Put` | src/modules/storage/connector.ts:180-208 | The object under the key is replaced, or nothing is stored when the key to encrypt with is missing |
| `ObjectStorageModel.SeaweedFSObjectStorage.Get` | src/modules/storage/connector.ts:210-242 | Absent, the plaintext, or the decryption error |
| `ObjectStorageModel.SeaweedFSObjectStorage.Delete` | src/modules/storage/connector.ts:244-249 | Idempotent removal |
| `ObjectStorageModel.PagesJoin` | src/modules/storage/connector.ts:270-287 | Following a continuation token goes on exactly where the page stopped |
| `ObjectStorageModel.BeforeIff` | src/modules/storage/connector.ts:270-287 | The order of the listing: one key is before another iff it is a proper prefix of it or smaller at the first place where they differ |
| `ObjectStorageModel.PageIsFull` | src/modules/storage/connector.ts:270-287 | A page that hands out a token is full, and the token is its last key |
| `ObjectStorageModel.InScopeIff` | src/modules/storage/connector.ts:270-287 | A key is in scope iff it is the prefix and something after it |
| `RotationCore.WalkKeys` | src/modules/storage/rotation-core.ts:37-51 | Each key in scope once, in order, for every page size; none for pages of 0 keys |
| `RotationCore.RunRotate` | src/modules/storage/rotation-core.ts:91-152 | The result and the bucket are those of every walked key's turn in order; throws iff encryption is off |
| `RotationCore.RotateKey` | src/modules/storage/rotation-core.ts:103-148 | One turn: skipped, would migrate, failed without change, or migrated |
| `RotationCore.After` | src/modules/storage/rotation-core.ts:97-151 | scanned = migrated + skipped + failed |
| `RotationCore.AfterPlaces` | src/modules/storage/rotation-core.ts:97-151 | Every visited key is left as its own turn leaves it, the others untouched |
| `RotationCore.RotationIsInvisible` | src/modules/storage/rotation-core.ts:91-152 | No reader of any key can tell that a rotation has run, failures included |
| `RotationCore.CompleteIff` | src/modules/storage/rotation-core.ts:91-152 | A real run fails on nothing iff it leaves every key it visits on the active version |
| `RotationCore.FailedAre` | src/modules/storage/rotation-core.ts:124-147 | The keys reported as failed are exactly the outdated ones that cannot be read or written |
| `RotationCore.SecondRun` | src/modules/storage/rotation-core.ts:112-116 | A second run migrates nothing, changes nothing and fails on the same keys |
| `RotationCore.DryRunPredicts` | src/modules/storage/rotation-core.ts:118-122 | A dry run changes nothing and counts what a real run migrates or fails on |
| `RotationCore.RunCheck` | src/modules/storage/rotation-core.ts:55-87 | The counts, the versions still in use, and safe to retire iff every walked key is on the active version |
| `RotationRuns.LosesNothingIff` | src/modules/storage/rotation-core.ts:102-149 | Under concurrent puts, deletes and rotations, read, re-check and put of a turn being steps of their own, readers see at every moment exactly what the application wrote, bytes, content type and checksum, iff for every put of a rotation that can encrypt the application's last write of the key since its content was read is absent or puts the bytes and content type that were read |
| `RotationRuns.RotationLosesNothing` | src/modules/storage/rotation-core.ts:102-149 | It is so whenever the application writes no key between the re-check and the put of a turn on it, and a key that keeps or regains its bytes has had them, with one content type, throughout |
| `RotationRuns.RotationStepInvisible` | src/modules/storage/rotation-core.ts:102-149 | Under the same conditions each step of a rotation changes nothing for any reader |
| `RotationRuns.AloneIsTurn` | src/modules/storage/rotation-core.ts:102-149 | The steps of a turn taken with nothing in between leave the bucket as one turn of `RunRotate` does, and one of them is held up only where that skips or fails |
| `RotationRuns.WriteInvisibleIff` | src/modules/storage/rotation-core.ts:124-143 | The same of one put: it changes nothing for any reader iff that holds of it |
| `RotationRuns.ReturnLosesContent` | src/modules/storage/rotation-core.ts:132-143 | A content that comes back passes the re-check and lets the put restore what was there in between |
| `RotationRuns.ContentTypeIsReverted` | src/modules/storage/rotation-core.ts:132-143 | The checksum does not cover the content type, which the put can put back |
| `RotationRuns.WindowLosesWrites` | src/modules/storage/rotation-core.ts:137-143 | A put between the re-check and the put of a turn is overwritten, and a deleted object comes back |
| `TriggerSync.MergeAssociative` | src/modules/database/providers/mongo/processor/triggers/registry.ts:34-54 | Merging is associative |
| `TriggerSync.MergedFires` | src/modules/database/providers/mongo/processor/triggers/registry.ts:34-54 | Per timing and event the base's actions run first, then the extra ones |
| `TriggerSync.FiresAre` | src/modules/database/providers/mongo/processor/triggers/registry.ts:34-54 | What runs at a timing of an event is what the slot of that name holds, nothing if it is not there |
| `TriggerSync.MergedShape` | src/modules/database/providers/mongo/processor/triggers/registry.ts:34-54 | A merge has a timing iff one of the two has it, and an event iff something is to run at it |
| `JsonEquality.DeepEqualDecides` | src/modules/database/providers/mongo/processor/triggers/sync.ts:11-32 | deepEqual holds iff the two JSON trees mean the same, field order aside |
| `JsonEquality.DeepEqualIsEquivalence` | src/modules/database/providers/mongo/processor/triggers/sync.ts:11-32 | So it is reflexive, symmetric and transitive |
| `TriggerSync.BootConverges` | src/modules/database/providers/mongo/processor/triggers/sync.ts:77-105 | After a boot the plan is empty |
| `TriggerSync.BootKnowsAll` | src/modules/database/providers/mongo/processor/triggers/sync.ts:101-104 | Every model with triggers in code has an entry afterwards |
| `TriggerSync.BootKeepsUnique` | src/modules/database/providers/mongo/connector/triggers.ts:76-98 | A boot keeps `model` unique |
| `TriggerSync.EditsSurvive` | src/modules/database/providers/mongo/processor/triggers/sync.ts:59-70 | An edited default entry, or one of its own, survives any sequence of boots and edits elsewhere, unless its default is orphaned; edited means that its triggers and the last synced ones differ at some slot |
| `TriggerSync.EditWins` | src/modules/database/providers/mongo/processor/triggers/sync.ts:59-70 | Over runs: when an edit leaves triggers whose actions at some timing and event are not those last synced, every later boot that declares the model leaves the entry as edited |
| `TriggerSync.BootRule` | src/modules/database/providers/mongo/processor/triggers/sync.ts:59-70 | One boot overwrites a declared default entry iff it was synced before, its triggers agree slot by slot with those last synced, and the code does not |
| `TriggerSync.SameIff` | src/modules/database/providers/mongo/processor/triggers/sync.ts:11-32 | Comparing triggers as JSON finds them the same iff they agree slot by slot |
| `TriggerSync.SeededIs` | src/modules/database/providers/mongo/processor/triggers/sync.ts:59-61 | A model new to the database gets an active default entry that holds what the code declares and says so |
| `TriggerSync.FollowsCode` | src/modules/database/providers/mongo/processor/triggers/sync.ts:56-62 | At every point of any run a default entry that nobody has edited is the one entry of its model and holds what the last boot declared, as long as boots keep declaring it |
| `TriggerRegistryModel.SeededMirrorsCode` | src/modules/database/providers/mongo/connector/triggers.ts:21-27 | After a boot a model that had no entry fires exactly what the code declares, once |
| `TriggerRegistryModel.SwitchedOffStaysOff` | src/modules/database/providers/mongo/processor/triggers/registry.ts:149-153 | A default entry that was switched off, and not on again, keeps its model silent through any sequence of edits and of boots that still have the model in code |
| `TriggerRegistryModel.OrphansNeverApply` | src/modules/database/providers/mongo/processor/triggers/sync.ts:58-59 | A model with triggers neither in code nor in an entry of its own has none after a boot |
| `TriggerRegistryModel.PlanBoots` | src/modules/database/providers/mongo/connector/triggers.ts:71-98 | Deleting, re-syncing and seeding by the plan is what a boot means for the entries |
| `TriggerRegistryModel.MongoConnector.LoadPersistedTriggersOnStart` | src/modules/database/providers/mongo/connector/triggers.ts:58-106 | The entries after a boot, what applies to every model, and that other connectors' layers are untouched |
| `TriggerRegistryModel.TriggerRegistry.RefreshPersistedTriggers` | src/modules/database/providers/mongo/processor/triggers/registry.ts:201-214 | The layers give every model exactly what the entries and the code say applies to it |
| `TriggerRegistryModel.MirrorApplies` | src/modules/database/providers/mongo/processor/triggers/registry.ts:162-176 | The layered lookup: the active default entry alone, nothing if inactive, otherwise static merged with active persisted |
| `TriggerRegistryModel.OwnEntryAddsOn` | src/modules/database/providers/mongo/processor/triggers/registry.ts:152-175 | An active entry of its own adds on top: per timing and event the code's actions run first, then the entry's |
| `TriggerRegistryModel.TriggersCollection.InsertMany` | src/modules/database/providers/mongo/connector/triggers.ts:88-98 | Every seed under its own new id, nothing else changed |
| `TriggerRegistryModel.TriggersCollection.ResyncAll` | src/modules/database/providers/mongo/connector/triggers.ts:78-86 | Exactly the planned entries are overwritten |
| `FallbackStorage.FallbackObjectStorage.SyncLocalObjects` | src/modules/storage/sync-local-objects.ts:72-94 | However far it gets, no answer changes; if it succeeds every object but sidecar files is in the primary |
| `FallbackStorage.SidecarIs` | src/modules/storage/sync-local-objects.ts:40-66 | Which files are skipped |
| `FallbackStorage.FallbackObjectStorage.Get` | src/modules/storage/fallback-object-storage.ts:56-71 | Answers as one store, the primary laid over the local one |
| `FallbackStorage.FallbackObjectStorage.Put` | src/modules/storage/fallback-object-storage.ts:51-54 | Writes to that one store |
| `FallbackStorage.FallbackObjectStorage.Delete` | src/modules/storage/fallback-object-storage.ts:79-82 | Deletes from that one store; a finished sync stays finished |
| `FallbackRuns.SyncInvisibleIff` | src/modules/storage/sync-local-objects.ts:72-83 | While callers write, a sync, finished or failed, never changes an answer iff for every copy the callers' last write of that key since its check is absent or is a put of the object that the local store held |
| `FallbackRuns.CopyInvisibleIff` | src/modules/storage/sync-local-objects.ts:79-82 | The same of one copy |
| `FallbackRuns.AloneIsCopied` | src/modules/storage/sync-local-objects.ts:72-94 | With nothing in between a key is passed over, copied, or found gone; the sync can fail at any time and has succeeded when no key is ahead |
| `FallbackRuns.SyncedMeansCopied` | src/modules/storage/sync-local-objects.ts:72-94 | Once a sync has completed, every local object but sidecar files is in the primary for the rest of the run, whatever callers wrote meanwhile and write later |
| `FallbackRuns.DeletedComesBack` | src/modules/storage/sync-local-objects.ts:79-82 | A retried sync can bring back an object deleted after its check |
| `BulkWrite.PickIsPart` | src/modules/database/providers/mongo/processor/schema/statics/upsert.ts:61 | The retried operations, taken by the indexes reported, and the operations at all other indexes make up the batch |
| `BulkWrite.BulkWriteWithRetry` | src/modules/database/providers/mongo/processor/schema/statics/upsert.ts:33-64 | Normal return means all landed; giving up names exactly what never landed, after exactly four calls from the start; the delays before one, two or three retries are 200, 600 and 1400 ms together |
| `BulkBufferModel.BulkBuffer.Push` | src/modules/observability/bulk-buffer.ts:39-50 | Flushed batches and buffer together are what was pushed, in order; the timer is armed iff items are buffered, for exactly the interval after the first of them; the buffer stays below its maximum |
| `BulkBufferModel.BulkBuffer.Fire` | src/modules/observability/bulk-buffer.ts:47-49 | A timer that fires on time hands over items none of which has waited longer than the interval |

## Left out

- `DlqProviderModel.DLQProvider.Claim`: `options.filter` is any test of an entry, but names neither `status` nor `$or` and applies `processType` beside it.
- `DlqProviderModel.DLQProvider.Push`: the payload is stored as it is given; its JSON text, and its encryption as `payloadRaw`, are not modelled.
- DLQ `list` and the mapping to public entries; ids are never handed out twice, and a client's clock reading is not after the moment its write commits.
- `QlruCacheModel.QlruCache.Set`: `schedule` and the computation of the random TTL offset, which is an input; the clock is positive.
- `getClient`, which hands out the map itself, and the environment defaults of the cache.
- `ProtectionRuns.ProtectedPath.SeedRotateProtectionKeys`: runs alone; rotations among other clients' writes are the runs beside it. One protected path of the documents, of which the code writes back every field; keys are present.
- Error paths of mask and encrypt wrappers that return their input unchanged when a key is missing: keys are taken to be there.
- `FilterInPlace.ProtectFilterByPaths`: when it throws, the partly rewritten filter is not described; filters share no sub-objects and no branch element is null.
- `FilterRewrite.MeaningKept`: documents are flattened paths, so equality with a whole subdocument that holds a protected path is not modelled; protected fields hold scalars or arrays of strings, of which none is stored looking prefixed behind the first.
- `ShallowTransform.Document.TransformShallowByPaths`: any two paths differ in a segment that is `*` in neither; source and target are the same plain tree, so Mongoose documents, `deleteMetadata` and prototype property names are not modelled; path segments are all digits (fewer than twelve) or do not start with one.
- `ShallowTransform.Document.Traverse`: after a throw the partly transformed document is not described; a promise that is rejected counts as a throw.
- `DataPolicies.SavedThenServed`: the randomness of an encryption depends on the path and the value.
- `DataPolicies.TransformByDataProtection`: what masking, encryption and hashing make of values that are neither strings nor arrays of strings, and the version read off an array of that kind, are inputs.
- Data access policies, session handling and the auto-protect hook on updates.
- `Pagination.WalkAscends`: the filter names no `_id`, `limit` is at least 1, `_id` is not omitted, and an id is a number whose order is that of the collection; with falsy cursors see `TimesReturned`.
- `paginate` with a `sort` of the caller's own: pages are in `_id` order.
- `RotationRuns.LosesNothingIff`: checksums are injective.
- `RotationCore.WalkKeys`: that a listing of 0 keys returns none and no token is how S3 answers `MaxKeys: 0`; the answer of another gateway is not modelled.
- `RotationCore.RunRotate`: `onProgress`, `useWorker` and the text of errors; network failures of the gateway.
- Resolution of buckets, endpoints and encryption settings from the environment; base64 steps around encryption, which belong to the primitives.
- `TriggerRegistryModel.MongoConnector.LoadPersistedTriggersOnStart`: polling, the change stream and the registration of the triggers model itself; each later refresh is `RefreshPersistedTriggers`.
- planCodeSync of `@zanix/helpers` is not part of this repository; its rules are taken from the comment in sync.ts.
- Trigger conditions and dispatch.
- `FallbackStorage.FallbackObjectStorage.SyncLocalObjects`: runs alone; a sync among other callers' writes is the subject of FallbackRuns, where the local keys are listed in one step, a delete takes both stores in one step and one sync runs at a time.
- `BulkWrite.BulkWriteWithRetry`: the operations themselves, and what a connection error left half done beyond some part of the batch having landed.
- `BulkBufferModel.BulkBuffer.Push`: what becomes of a rejected `onFlush`.
- The Redis pipeline scheduler and the SQLite store, which pass commands on to their backends; readBatch; the registries of models and seeders, which are lookups by name; CRUD repositories and HTTP controllers, which forward to the statics modelled here.
