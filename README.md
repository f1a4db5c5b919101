# Mongator persistence-state engine in Dafny

This project models the in-memory bookkeeping at the heart of Mongator, a PHP
object-document mapper for MongoDB, and proves properties of it. The model covers:

- **Archive** (`ArchiveStore`). A per-object key/value store that tracks whether
  a key is present separately from the value it holds.
- **Relation groups** (`Groups`, `PolymorphicGroups`, and the embedded groups
  in `Documents`). A relation group has:
  - a lazily built `saved` baseline;
  - staged `add` and `remove` queues;
  - a `clear` flag.

  `all()` is the saved baseline followed by the staged adds, with each staged
  remove deleting the first equal element. The model covers the conflict rule
  for adding while a remove is pending, and `markAllSaved`, `replace` and
  `reset`. For embedded groups it also covers path bookkeeping (`<path>._add<i>`
  while staged, `<path>.<i>` once saved). For polymorphic reference groups it
  covers batching ids by discriminator class.
- **Document change tracking** (`Documents`, `RootDocument`):
  - modified fields and their original values;
  - embedded-one change markers;
  - `isModified` / `clearModified` over the whole embedded tree;
  - root and path propagation into embedded documents;
  - query-field projection flags;
  - the list of query hashes a root document was loaded under;
  - widening of the cached query hints for fields and references;
  - once-events.
- **Unit of work** (`Staging`). Pending persists and removals are kept per class
  and per object, and staging a document for one cancels the other. A commit
  saves class by class, then deletes class by class, then clears.
- **Identity map and repository lookup** (`Identity`, `Repositories`). Requested
  ids are split into documents already resident and ids still to be queried.
- **Index manager** (`Indexes`). Index keys are canonicalised, the configured
  indexes are compared with the server's, and the commit is planned as drops
  and creates.
- **Queries** (`Queries`, `Chunks`, `LocalChunks`):
  - validated query setters;
  - find-option generation;
  - filtering of text-search results;
  - chunk paging;
  - local sort and selection strategies with their result cache.
- **Sequence id generator options** (`SequenceIdGenerators`). The options are
  validated and defaulted, and the generated code determines the increment and
  start it was built from.
- **Caches** (`Cache`). TTL packing and unpacking, and the in-memory array cache.
- **Registries** (`Registries`, `TypeContainers`, `IdGeneratorContainers`). The
  type and id-generator registries. The PHP code keeps them in static class
  fields; here they are held in an explicit registry object.
- **Mongator** (`Mongators`). The connection registry and its error rules, the
  per-class repository memo, and delegation to the unit of work.

Shared PHP notions are modelled once:
- PHP values, truthiness, `is_numeric`, strict integer checks and
  multiplication (`PhpValues`);
- ordered associative arrays (`PhpArrays`);
- string helpers (`Strings`).

PHP exceptions become `Result` / `Outcome` values carrying an error kind:
- `InvalidArgument`, `Runtime`, `Logic` and `Reflection` stand for the
  corresponding SPL exception classes;
- `GenericException` stands for an exception raised by a callee;
- `PhpError` stands for an engine `Error` or `TypeError`.

Parameters stand for everything outside the engine:
- the database (fetches, `Query::all`, `count`, text commands, save and delete
  calls, index creation);
- the clock;
- class existence and subclassing;
- object-to-string conversion.

Three behaviours of the code are easy to mistake:
- After `persist(d)` and then `remove(d)` on an empty unit of work,
  `hasPendingForPersist()` is still true, because the class entry stays in the
  persist array as an empty array (`Staging.PersistThenRemoveKeepsEmptyClass`).
- A commit whose save or delete call raises does not clear the unit of work.
  The exception propagates before `clear()` is reached, so everything stays
  pending (`Staging.UnitOfWork.Commit`).
- The type registry's `get('referenceOne')` and `get('referenceMany')` name
  classes that do not exist in the type directory. Instantiating them is an
  engine error, which the model reports through its class-existence parameter.

## Model

| member | source | states |
|---|---|---|
| ArchiveStore.Archive.constructor | src/Mongator/Archive.php:20-22 | an archive starts with no values and no keys |
| ArchiveStore.Archive.Set | src/Mongator/Archive.php:55-58 | after `set` the key is present and holds the value; every other key keeps its presence and value |
| ArchiveStore.Archive.Remove | src/Mongator/Archive.php:66-73 | after `remove` the key is absent and reads as null; removing an absent key changes nothing; other keys are untouched |
| ArchiveStore.Archive.GetByRef | src/Mongator/Archive.php:83-89 | the default is stored only when the key was absent; a present key keeps its value; a present key whose value was cleared gets a null slot; the key is present afterwards |
| ArchiveStore.Archive.GetOrDefault | src/Mongator/Archive.php:99-105 | a present key yields its stored value (null included), an absent key yields the default |
| ArchiveStore.Archive.Clear | src/Mongator/Archive.php:121-123 | after `clear` no value is stored, every key keeps its presence, and every key reads as null |
| Cache.Unpack | src/Mongator/Cache/AbstractCache.php:102-114 | an entry yields a value exactly when it exists and has not expired, and then it is the packed value |
| Cache.PackNeverExpires | src/Mongator/Cache/AbstractCache.php:86-93 | an entry packed with ttl 0 (or less) is read back at any time |
| Cache.PackExpiresAtTtl | src/Mongator/Cache/AbstractCache.php:107-111 | an entry packed with a positive ttl is read back exactly while `now < time + ttl` |
| Cache.ArrayCache.constructor | src/Mongator/Cache/ArrayCache.php:20 | a new cache holds no entries |
| Cache.ArrayCache.Info | src/Mongator/Cache/ArrayCache.php:33-39 | `info` yields the stored entry of a key, and nothing for a missing key |
| Cache.ArrayCache.Set | src/Mongator/Cache/ArrayCache.php:23-25 | `set` replaces the key's entry with the packed value and leaves the others |
| Cache.ArrayCache.Remove | src/Mongator/Cache/ArrayCache.php:28-30 | `remove` drops the key's entry and nothing else |
| Cache.ArrayCache.Clear | src/Mongator/Cache/ArrayCache.php:42-44 | `clear` drops every entry |
| Cache.ArrayCache.Get | src/Mongator/Cache/AbstractCache.php:69-75 | `get` returns the unpacked entry; an expired entry is removed from the store and yields null; otherwise the store is unchanged |
| Cache.ArrayCache.Has | src/Mongator/Cache/AbstractCache.php:58-60 | `has` is the truthiness of what `get` returns (a stored falsy value reads as absent), with the same expiry side effect |
| Cache.SetThenGetWithoutTtl | src/Mongator/Cache/ArrayCache.php:23-25 | a value set without ttl is read back by the next `get` |
| Chunks.SortFieldsArg | src/Mongator/Query/Chunk.php:20-23 | null and array sort fields are kept as they are; a scalar field name becomes `[name => 1]`; only an object, which cannot be an array key, is an error |
| Chunks.AppliedPaging | src/Mongator/Query/Chunk.php:45-55 | with integer page and page size, `applyTo` succeeds, sets the sort when there are sort fields, skips `pageSize * page` results, limits to `pageSize`, and changes nothing else |
| Chunks.AppliedWithoutPage | src/Mongator/Query/Chunk.php:45-50 | without a page, `applyTo` leaves skip and limit alone and succeeds exactly when the sort fields are null or an array |
| Chunks.ChunkResult.constructor | src/Mongator/Query/ChunkResult.php:8-16 | a result holds the fetched data and its total |
| Chunks.ChunkResult.GetTotal | src/Mongator/Query/ChunkResult.php:24-30 | a deferred total is computed once from the query and memoised; a known total is returned unchanged |
| Chunks.Chunk.constructor | src/Mongator/Query/Chunk.php:15-17 | a chunk built without arguments has null sort fields, page and page size |
| Chunks.Chunk.Set | src/Mongator/Query/Chunk.php:20-30 | `set` stores the normalised sort fields, the page and the page size, and fails only for object sort fields, leaving the chunk unchanged |
| Chunks.Chunk.ApplyTo | src/Mongator/Query/Chunk.php:45-55 | the query's new state and the outcome are those of `Applied` on its old state |
| Chunks.Chunk.GetResult | src/Mongator/Query/Chunk.php:33-42 | the chunk is applied to the query; on success the result holds the query's data and a total deferred to the query's count; a failing setter is reported |
| RootDocument.WithField | src/Mongator/Document/Document.php:193-196 | the widened hint flags the field and keeps every field already flagged |
| RootDocument.WithReference | src/Mongator/Document/Document.php:215-218 | the widened hint lists the reference after the references already listed, which are kept in order |
| RootDocument.Widening.Apply | src/Mongator/Document/Document.php:193-196 | applying a widening yields a hint that already has its entry, so a second pass writes nothing |
| RootDocument.WidenStepWidens | src/Mongator/Document/Document.php:187-197 | one hash of the cache loop leaves that hash holding a live hint with the entry, keeps every hash already widened, and stores each entry under its own key |
| RootDocument.WidenAllWidens | src/Mongator/Document/Document.php:180-220 | after `addFieldCache` / `addReferenceCache`, every query hash of the document holds a live hint with the field or reference, and hashes already widened stay so |
| RootDocument.Document.constructor | src/Mongator/Document/Document.php:24-28 | a new document is new, has no id, no query fields, no query hashes and no queued events |
| RootDocument.Document.IsFieldInQuery | src/Mongator/Document/Document.php:226-232 | an empty query-field set means every field was loaded; no query fields means none; otherwise exactly the listed fields |
| RootDocument.Document.SetQueryFields | src/Mongator/Document/Document.php:261-268 | the query fields become exactly the names whose inclusion flag is truthy; nothing else changes |
| RootDocument.Document.Save | src/Mongator/Document/Document.php:110-123 | a new document routes the options to the batch insert and marks every field as loaded; an existing document routes them to the update and keeps its query fields |
| RootDocument.Document.Refresh | src/Mongator/Document/Document.php:93-101 | refreshing a new document is a logic error; otherwise the document is looked up by its id |
| RootDocument.Document.LoadFull | src/Mongator/Document/Document.php:238-253 | a fully loaded or new document loads nothing; otherwise the fetched data minus the locally modified fields is loaded and every field counts as loaded; it always returns true |
| RootDocument.Document.GetQueryHashes | src/Mongator/Document/Document.php:152-154 | the stored query hashes, or none when the archive has no entry |
| RootDocument.Document.AddQueryHash | src/Mongator/Document/Document.php:141-144 | the hash is appended after the existing hashes; nothing else changes |
| RootDocument.Document.RemoveQueryHash | src/Mongator/Document/Document.php:162-166 | the first occurrence of the hash is removed; for an absent hash `array_search` yields false, which removes the first hash; the list stays a list |
| RootDocument.Document.ClearQueryHashes | src/Mongator/Document/Document.php:172-174 | the query hashes are gone and read as empty |
| RootDocument.Document.WidenHints | src/Mongator/Document/Document.php:187-197 | the cache after the loop is the fold of the widening step over the document's query hashes |
| RootDocument.Document.AddFieldCache | src/Mongator/Document/Document.php:180-198 | without a cache nothing happens; otherwise the field, with its numeric path parts stripped, is flagged in the hint of every query hash |
| RootDocument.Document.AddReferenceCache | src/Mongator/Document/Document.php:204-220 | without a cache nothing happens; otherwise the reference is listed in the hint of every query hash |
| RootDocument.Document.RegisterOnceEvent | src/Mongator/Document/AbstractDocument.php:469-479 | a non-callable event is an exception and queues nothing; a callable one is appended to the queue of its type |
| RootDocument.Document.QueuedOnce | src/Mongator/Document/AbstractDocument.php:510-513 | the callbacks queued for a type, none when the type was never registered |
| RootDocument.Document.ExecuteOnceEvent | src/Mongator/Document/AbstractDocument.php:510-520 | the queued callbacks run in registration order and the queue is emptied; an unknown type runs nothing |
| RootDocument.Document.ClearModified | src/Mongator/Document/AbstractDocument.php:195-214 | the root's tree becomes what the tree-level `clearModified` leaves, whether it finishes or raises; it passes exactly when that finishes, and then the tree is settled: no field original where fields are loaded, nothing queued for adding or removing and every group's saved list loaded, at any depth (embedded-one markers and clear flags are not covered: the source can leave them); a raise reports its error and keeps the field originals forgotten and the work done before the raise |
| RootDocument.ExecuteRunsOnce | src/Mongator/Document/AbstractDocument.php:510-520 | two registered callbacks run once, in order, and a second execution runs nothing |
| RootDocument.NoFlagMeansAllFields | src/Mongator/Document/Document.php:226-232 | when no field's inclusion flag is truthy, the query-field set is empty and every field counts as loaded |
| RootDocument.RemoveAbsentHashDropsFirst | src/Mongator/Document/Document.php:162-166 | removing a hash that is not there drops the first hash |
| Documents.SetRootAndPath | src/Mongator/Document/EmbeddedDocument.php:28-42 | on success the document records the root and path and keeps its fields, modifications, markers and the number of its embeddeds |
| Documents.SetSlots | src/Mongator/Document/EmbeddedDocument.php:31-35 | each embedded one is given the root and the path extended by its name; a null embedded one is an error |
| Documents.SetGroups | src/Mongator/Document/EmbeddedDocument.php:37-41 | each embedded group is given the root and the path extended by its name |
| Documents.GroupSetRootAndPath | src/Mongator/Group/EmbeddedGroup.php:28-34 | on success the group records the root and path and keeps its saved documents, saved data, remove queue, clear flag and the length of its add queue |
| Documents.SetAdds | src/Mongator/Group/EmbeddedGroup.php:31-33 | the queued documents are re-rooted one for one |
| Documents.SetAddsEach | src/Mongator/Group/EmbeddedGroup.php:31-33 | the queued document at index `k` gets the path `path._add<k>` |
| Documents.SetRootAndPathPaths | src/Mongator/Document/EmbeddedDocument.php:28-42 | every embedded one gets `path.name`; every embedded group gets `path.name`, and its queued document `k` gets `path.name._add<k>` |
| Documents.GetOriginalFieldValue | src/Mongator/Document/AbstractDocument.php:234-244 | a modified field yields its recorded original value (null included); an unmodified field yields its current value, or null |
| Documents.SlotValue | src/Mongator/Document/AbstractDocument.php:295-297 | a value is found only under an existing embedded-one name |
| Documents.SlotValueFrom | src/Mongator/Document/AbstractDocument.php:295-297 | the value found is the document held by a slot with that name |
| Documents.GetOriginalEmbeddedOneValue | src/Mongator/Document/AbstractDocument.php:290-300 | a changed embedded one yields its archived original value; otherwise its current value |
| Documents.EmbeddedsOneChanged | src/Mongator/Document/AbstractDocument.php:308-319 | the list holds exactly the changed embedded ones, each with its original value |
| Documents.ChangedFrom | src/Mongator/Document/AbstractDocument.php:311-315 | from slot `i` on, every changed embedded one is listed with its original value, and nothing else is |
| Documents.FieldChangeIsModification | src/Mongator/Document/AbstractDocument.php:125-132 | a document with a modified field is modified, whatever its root |
| Documents.RemovalsCountOnlyWhenPersisted | src/Mongator/Document/AbstractDocument.php:161-174 | a group's remove queue and clear flag make no difference under a new or missing root, and make the group modified under a persisted root |
| Documents.ClearEmbeddedsOneChanged | src/Mongator/Document/AbstractDocument.php:325-331 | the markers are removed slot by slot: it finishes exactly when every slot value from `i` on has a string form; the markers keyed by the values before the first slot without one are dropped, the others are kept unchanged, and that slot raises an engine error |
| Documents.MarkerUnderNameSurvives | src/Mongator/Document/AbstractDocument.php:325-331 | a changed embedded one stays changed after the clear when no slot value converts to its name, because the loop iterates values, not names |
| Documents.Materialize | src/Mongator/Group/EmbeddedGroup.php:76-106 | the saved documents can be built only when the group has a root and path, and are then built from the saved data |
| Documents.MaterializeFrom | src/Mongator/Group/EmbeddedGroup.php:94-105 | one document per non-null datum, each rooted at `path.<index>` |
| Documents.ClearModified | src/Mongator/Document/AbstractDocument.php:195-214 | clearing, finished or not, keeps the root and path and the field values, keeps the number of embedded ones and groups, and forgets the field originals when fields are loaded |
| Documents.ClearSlots | src/Mongator/Document/AbstractDocument.php:200-207 | every embedded one is cleared in place, one for one, and after a raise the later ones are left as they were |
| Documents.ClearSlotDoc | src/Mongator/Document/AbstractDocument.php:202-206 | a null embedded one stays null, a present one stays present |
| Documents.ClearGroups | src/Mongator/Document/AbstractDocument.php:209-213 | every embedded group is marked saved, one for one, and after a raise the later ones are left as they were |
| Documents.SettleMembers | src/Mongator/Group/AbstractGroup.php:162-168 | every member is cleared and re-rooted, one for one, and after a raise the later members are left as they were |
| Documents.SettledIsUnmodified | src/Mongator/Document/AbstractDocument.php:125-189 | a settled document (no field original where fields are loaded, nothing queued and every group's saved list loaded, at any depth) is not modified when it is also quiet (no embedded-one marker and no clear flag at any depth) or when every root is new |
| Documents.GroupSettledIsUnmodified | src/Mongator/Document/AbstractDocument.php:153-185 | the same for an embedded group |
| Documents.SetRootAndPathKeepsSettled | src/Mongator/Document/EmbeddedDocument.php:28-42 | re-rooting a settled document leaves it settled |
| Documents.ClearModifiedSettles | src/Mongator/Document/AbstractDocument.php:195-214 | a `clearModified` that finishes leaves the tree settled: no field original where fields are loaded, no queued add or remove and every group's saved list loaded, at any depth; embedded-one markers and clear flags are not covered, since the source can leave them |
| Documents.ClearSlotsSettle | src/Mongator/Document/AbstractDocument.php:200-207 | every cleared embedded one is settled |
| Documents.ClearGroupsSettle | src/Mongator/Document/AbstractDocument.php:209-213 | every group marked saved is settled |
| Documents.MarkAllSavedSettles | src/Mongator/Group/AbstractGroup.php:161-171 | `markAllSaved` leaves the group settled |
| Documents.SettleMembersSettle | src/Mongator/Group/AbstractGroup.php:162-168 | every member cleared in the loop is settled |
| Documents.SettleMembersPaths | src/Mongator/Group/AbstractGroup.php:165-167 | every member keeps its root and gets its path with `._add` replaced by `.` |
| Documents.QueuedPathBecomesIndexPath | src/Mongator/Group/AbstractGroup.php:166 | the path `path._add<k>` of a queued document becomes the saved path `path.<k>` |
| Documents.MarkAllSavedShape | src/Mongator/Group/AbstractGroup.php:161-171 | after `markAllSaved`, finished or raising, the root, path, saved data and clear flag are kept; when it finishes the queues are empty and the saved documents are initialized; on a raise the queues are kept; a raise while settling still leaves the saved documents loaded with the members as far as they got |
| Documents.MarkAllSavedPaths | src/Mongator/Group/AbstractGroup.php:161-171 | the saved documents are, one for one, the members of `all()`, each rooted at its old path with `._add` replaced by `.` |
| Documents.MarkAllSavedDone | src/Mongator/Group/AbstractGroup.php:161-171 | a `markAllSaved` that finishes has a baseline, settles every member of `all()` without a raise, and saves exactly the settled members |
| Documents.SettleMembersStops | src/Mongator/Group/AbstractGroup.php:162-168 | the members are settled in order: when the loop finishes every member is settled; when it raises, every member before the raising one is settled, that one is left as far as it got, and every later one is untouched |
| Documents.ClearSlotsStops | src/Mongator/Document/AbstractDocument.php:200-207 | the embedded ones are cleared in order: when the loop finishes every one is cleared; when it raises, the ones before are cleared, that one is left as far as it got, and the later ones are untouched |
| Documents.ClearModifiedOrder | src/Mongator/Document/AbstractDocument.php:195-214 | the field originals are forgotten first in any case; the markers are removed up to the first value without a string form, which raises before any embedded one is cleared; the embedded ones are cleared before the groups; it finishes exactly when all three steps finish |
| Documents.ClearModifiedRaisesAfterFields | src/Mongator/Document/AbstractDocument.php:195-201 | when the first embedded one cannot become a marker key, `clearModified` raises an engine error with the field originals already forgotten and everything else as it was |
| Documents.ClearModifiedUnmodifiedUnderNewRoots | src/Mongator/Document/AbstractDocument.php:125-214 | when every root is new, a cleared document is not modified |
| Documents.EmbeddedAdd | src/Mongator/Group/EmbeddedGroup.php:45-53 | adding keeps the group's root and saved data; with nothing pending removal it appends the documents after the queue and keeps the saved documents; a group without root and path just appends |
| Documents.EmbeddedAddPaths | src/Mongator/Group/EmbeddedGroup.php:48-52 | after adding to a rooted group, the queued document `k` is rooted at `path._add<k>` and so counts as a new embedded-many document |
| Documents.AddPathMarksNew | src/Mongator/Document/EmbeddedDocument.php:93-99 | a document rooted at an `._add` path is a new embedded-many document |
| Documents.Clone | src/Mongator/Document/EmbeddedDocument.php:131-137 | a clone records every field as modified with its current value as the original, keeping earlier modifications of other names |
| Documents.EmbeddedIsFieldInQuery | src/Mongator/Document/EmbeddedDocument.php:105-112 | an embedded document answers for its root, and false without one |
| Documents.EmbeddedLoadFull | src/Mongator/Document/EmbeddedDocument.php:118-125 | an embedded document loads its root, and returns false without one |
| Documents.WalkPath | src/Mongator/Document/EmbeddedDocument.php:72-78 | an empty path stops at the start; an embedded group on the way ends the walk without error |
| Documents.IsEmbeddedOneChangedInParent | src/Mongator/Document/EmbeddedDocument.php:60-85 | a document without root and path is not changed in its parent |
| Documents.ChangedInParentAtRoot | src/Mongator/Document/EmbeddedDocument.php:60-85 | a direct embedded one of the root asks the root whether its name is changed |
| Documents.ChangedInParentUnderGroup | src/Mongator/Document/EmbeddedDocument.php:72-77 | a document below an embedded group of the root is never reported as changed in its parent |
| Groups.IndexOf | src/Mongator/Group/AbstractGroup.php:181 | `array_search`: the index of the first equal element, or -1 (false) when there is none |
| Groups.RemoveEach | src/Mongator/Group/AbstractGroup.php:178-186 | the loop of `all()` removes, for each queued removal in order, the first equal document, giving `Without(saved + add, remove)` |
| Groups.RemoveFirstMultiset | src/Mongator/Group/AbstractGroup.php:180-184 | removing the first occurrence takes exactly one copy out of the multiset, and nothing when the element is absent |
| Groups.WithoutMultiset | src/Mongator/Group/AbstractGroup.php:177-187 | the members are the multiset difference of saved plus added and removed documents |
| Groups.WithoutLength | src/Mongator/Group/AbstractGroup.php:177-187 | each removal drops at most one document |
| Groups.WithoutIsSubsequence | src/Mongator/Group/AbstractGroup.php:186 | the members keep the order of saved followed by added documents |
| Groups.OneOf | src/Mongator/Group/AbstractGroup.php:193-200 | `one()` is null exactly when there are no members, and otherwise the first member, taken from saved or added documents |
| Groups.CountOf | src/Mongator/Group/AbstractGroup.php:240-242 | `count()` is the number of members, between `saved + add - remove` and `saved + add` |
| Groups.AllIsStagedDifference | src/Mongator/Group/AbstractGroup.php:177-187 | the members are saved plus added minus removed, as multisets, and keep their relative order |
| Groups.AddWithoutRemoveAppends | src/Mongator/Group/AbstractGroup.php:59-78 | with nothing pending removal, `add` succeeds and appends the documents to the members |
| Groups.AddConflict | src/Mongator/Group/AbstractGroup.php:59-78 | `add` fails exactly when removals are pending and members remain; when it succeeds the documents are appended to the members |
| Groups.RemoveThenAddOnSingleton | src/Mongator/Group/AbstractGroup.php:59-69 | removing the only member and then adding another leaves exactly the new document |
| Groups.ClearIsOnlyAMarker | src/Mongator/Group/AbstractGroup.php:117-119 | `clear` only sets a flag: the members are unchanged and no other operation resets the flag |
| Groups.MarkAllSavedKeepsMembers | src/Mongator/Group/AbstractGroup.php:161-171 | after `markAllSaved` the members are the same, the queues are empty and the saved documents are loaded |
| Groups.ReplaceSetsMembers | src/Mongator/Group/AbstractGroup.php:250-267 | replacing with documents makes them exactly the members, queued for addition on an empty saved list; replacing with nothing only clears the add queue and sets the clear flag |
| Groups.ReplaceThenMarkAllSaved | src/Mongator/Group/AbstractGroup.php:250-267 | replace then `markAllSaved` leaves exactly the new documents, counted as two, with empty queues |
| Groups.ResetDropsQueues | src/Mongator/Group/AbstractGroup.php:273-279 | `reset` empties both queues; with pending changes the members go back to the stored baseline, otherwise they are unchanged |
| Groups.Group.constructor | src/Mongator/Group/AbstractGroup.php:39-41 | a new group has no saved documents loaded, empty queues and no clear flag |
| Groups.Group.GetSaved | src/Mongator/Group/AbstractGroup.php:149-155 | the saved documents, loading the baseline on first use |
| Groups.Group.All | src/Mongator/Group/AbstractGroup.php:177-187 | the members as specified by `AllOf`, loading the saved documents on first use |
| Groups.Group.One | src/Mongator/Group/AbstractGroup.php:193-200 | the first member as specified by `OneOf` |
| Groups.Group.Count | src/Mongator/Group/AbstractGroup.php:240-242 | the number of members as specified by `CountOf` |
| Groups.Group.Add | src/Mongator/Group/AbstractGroup.php:59-78 | the new state and outcome are those of `AddDocs`: a single document or a list is queued; pending removals with members left are a runtime error; pending removals without members reset the queues and the saved list |
| Groups.Group.Remove | src/Mongator/Group/AbstractGroup.php:102-111 | the documents are appended to the remove queue |
| Groups.Group.Clear | src/Mongator/Group/AbstractGroup.php:117-119 | the clear flag is set and nothing else changes |
| Groups.Group.MarkAllSaved | src/Mongator/Group/AbstractGroup.php:161-171 | the settled members become the saved documents and both queues are emptied |
| Groups.Group.Replace | src/Mongator/Group/AbstractGroup.php:250-267 | the new state is that of `ReplaceDocs` |
| Groups.Group.RefreshSaved | src/Mongator/Group/AbstractGroup.php:214-216 | the saved documents are reloaded from the baseline; nothing else changes |
| Groups.Group.ClearSaved | src/Mongator/Group/AbstractGroup.php:222-224 | the saved documents are forgotten and no longer initialized |
| Groups.Group.Reset | src/Mongator/Group/AbstractGroup.php:273-279 | the new state is that of `ResetOf`: the saved list is dropped when either queue was non-empty, and both queues are emptied |
| Identity.IntAndStringIdsShareKey | src/Mongator/IdentityMap.php:30-32 | an integer id and its decimal string are different ids but share one identity-map entry, because the map is keyed by `(string) $id` |
| Identity.IdentityMap.constructor | src/Mongator/IdentityMap.php:25-27 | a new identity map is empty |
| Identity.IdentityMap.Set | src/Mongator/IdentityMap.php:30-32 | after `set` the id maps to the document; ids with another string form keep their entries |
| Identity.IdentityMap.Get | src/Mongator/IdentityMap.php:35-42 | a document is found exactly when `has` holds, and it is the one stored under the id's string form |
| Identity.IdentityMap.Remove | src/Mongator/IdentityMap.php:55-57 | after `remove` the id is absent; ids with another string form keep their entries |
| Identity.IdentityMap.Clear | src/Mongator/IdentityMap.php:60-62 | after `clear` the map is empty |
| Registries.Fresh | src/Mongator/Type/Container.php:116-131 | a loaded or reset registry maps exactly the given names and holds no instance |
| Registries.Added | src/Mongator/Type/Container.php:64-75 | `add` succeeds exactly for a new name whose class exists and extends the base class; an existing name or a non-subclass is an invalid argument, a missing class a reflection error; on success the name maps to the class and no other name or instance changes |
| Registries.Fetched | src/Mongator/Type/Container.php:85-95 | `get` returns the memoised instance when there is one; otherwise an unknown name is an invalid argument, a missing class an engine error, and a known one is instantiated and memoised |
| Registries.Removed | src/Mongator/Type/Container.php:104-110 | `remove` of an unknown name is an invalid argument; otherwise the name and its instance are dropped and nothing else changes |
| Registries.AddValid | src/Mongator/Type/Container.php:64-75 | `add` keeps every memoised instance attached to a mapped name |
| Registries.GetValid | src/Mongator/Type/Container.php:85-95 | `get` keeps every memoised instance attached to a mapped name |
| Registries.RemoveValid | src/Mongator/Type/Container.php:104-110 | `remove` keeps every memoised instance attached to a mapped name |
| Registries.GetMemoised | src/Mongator/Type/Container.php:85-95 | a second `get` of a name returns the same instance and changes nothing |
| Registries.RemoveForgetsInstance | src/Mongator/Type/Container.php:104-110 | after `remove` the name is unknown to `get`; after adding it back, `get` makes a new instance of the new class, different from every earlier one |
| Registries.Registry.constructor | src/Mongator/Type/Container.php:26-41 | a registry starts from its initial map and no instances |
| Registries.Registry.Add | src/Mongator/Type/Container.php:64-75 | the new state and outcome are those of `Added`; a failure changes nothing |
| Registries.Registry.Get | src/Mongator/Type/Container.php:85-95 | the new state and instance are those of `Fetched`; a failure changes nothing |
| Registries.Registry.Remove | src/Mongator/Type/Container.php:104-110 | the new state and outcome are those of `Removed`; a failure changes nothing |
| Registries.Registry.Reset | src/Mongator/Type/Container.php:116-131 | the map is the registry's reset map and every memoised instance is forgotten |
| TypeContainers.NewTypeContainer | src/Mongator/Type/Container.php:26-41 | the type container is loaded with the twelve initial types and resets to ten |
| TypeContainers.ResetDropsObjectAndArray | src/Mongator/Type/Container.php:116-131 | the initial map has `object` and `array`, the reset map is the initial map without exactly those two |
| TypeContainers.ObjectTypeLostOnReset | src/Mongator/Type/Container.php:85-131 | `get('object')` succeeds before a reset and is an invalid argument after one |
| IdGeneratorContainers.NewIdGeneratorContainer | src/Mongator/Id/IdGeneratorContainer.php:24-30 | the id generator container is loaded with its three generators and resets to the same map |
| IdGeneratorContainers.InitialGeneratorNames | src/Mongator/Id/IdGeneratorContainer.php:24-28 | exactly `none`, `native` and `sequence` are known initially |
| IdGeneratorContainers.ResetForgetsAdded | src/Mongator/Id/IdGeneratorContainer.php:105-113 | a generator added under a new name is known until `reset`, which forgets it |
| Indexes.LexLeTotal | src/Mongator/IndexManager.php:212 | the byte-wise order `sort` uses on the key parts is total |
| Indexes.LexLeTransitive | src/Mongator/IndexManager.php:212 | the byte-wise order is transitive |
| Indexes.SortStrings | src/Mongator/IndexManager.php:212 | `sort($hash)` yields the parts in ascending byte-wise order, as a permutation of its input |
| Indexes.SortedUnique | src/Mongator/IndexManager.php:212 | two sorted permutations of the same parts are equal, so the sorted key does not depend on the sorting algorithm |
| Indexes.Parts | src/Mongator/IndexManager.php:188-196 | one part per key field, in order, each `key_1` for null, `key_<int>` for a numeric value and `key_<value>` otherwise, an object by its string form |
| Indexes.PaddedNumeralPart | src/Mongator/IndexManager.php:191-192 | a numeric string with whitespace around it formats as the integer it spells, like that integer itself, in key fields and in `unique` |
| Indexes.LeadingDotPart | src/Mongator/IndexManager.php:191-192 | a numeral starting with "." is numeric and formats as `key_0` |
| Indexes.IndexKey | src/Mongator/IndexManager.php:182-215 | generating an index key fails exactly when a key value is an object without a string form or there is no part at all |
| Indexes.IndexKeyIsSorted | src/Mongator/IndexManager.php:182-215 | the key is the parts (key fields, `text_1`, unique, sparse and language options) joined by `_` in sorted order |
| Indexes.IndexKeyIsSortedJoin | src/Mongator/IndexManager.php:212-214 | any sorted arrangement of the parts, joined by `_`, is the key |
| Indexes.PartsPermute | src/Mongator/IndexManager.php:188-196 | reordering the key fields only reorders the parts |
| Indexes.IndexKeyOrderIndependent | src/Mongator/IndexManager.php:182-215 | two configurations with the same key fields in a different order get the same index key |
| Indexes.IndexKeyExample | src/Mongator/IndexManager.php:182-215 | keys `['b' => -1, 'a' => 1]` with `unique => true` give the key `a_1_b_-1_unique_1` |
| Indexes.ObjectKey | src/Mongator/IndexManager.php:188-196 | a key `['a' => $o]` is known as `a_` followed by the string form of `$o`, and fails only when the object has none |
| Indexes.TextIndexIgnoresKeys | src/Mongator/IndexManager.php:183-186 | a text index (with `weights`) is keyed by its weights, whatever its key fields |
| Indexes.ListIndexes | src/Mongator/IndexManager.php:161-169 | the server indexes are filed by their generated key, one entry per key, a later index replacing an earlier one |
| Indexes.SortProperties | src/Mongator/IndexManager.php:84-89 | filing one configured index puts it among the present or the missing indexes, keeps what was filed before, and keeps every unknown index a server index not claimed as present |
| Indexes.DiffFromProperties | src/Mongator/IndexManager.php:78-90 | after the loop every configured index is filed as present or missing, and the unknown indexes are the server indexes not claimed as present |
| Indexes.GetDiffProperties | src/Mongator/IndexManager.php:71-97 | the `_id_1` index is never unknown; every configured index is filed; an index is unknown exactly when the server has it and no configured index claimed it; a present index is on the server |
| Indexes.DiffFromFrame | src/Mongator/IndexManager.php:78-90 | a key that no configured index generates keeps its present and missing status |
| Indexes.DiffFromExactlyOne | src/Mongator/IndexManager.php:78-90 | with distinct configured keys, no configured index is filed both as present and as missing |
| Indexes.GetDiffExactlyOne | src/Mongator/IndexManager.php:71-97 | with distinct configured keys, every configured index is either present or missing, never both |
| Indexes.CommitPlan | src/Mongator/IndexManager.php:106-120 | `commit` drops every unknown index by name when deleting, then creates every missing index with its keys and options, in that order |
| Indexes.KeepUnknownDropsNothing | src/Mongator/IndexManager.php:109-113 | `commit(false)` drops nothing |
| Indexes.Issue | src/Mongator/IndexManager.php:123-158 | the commands issued are a prefix of the plan; the run completes exactly when every command succeeds, and otherwise stops with a runtime error at the first failing command |
| Indexes.Commit | src/Mongator/IndexManager.php:106-120 | a failing diff issues nothing and reports its error; otherwise the issued commands are a prefix of the plan, complete exactly when every command succeeds, and a failing command is a runtime error |
| LocalChunks.InsertByValue | src/Mongator/Query/LocalChunk.php:147 | inserting one valued id keeps every element: the result is a permutation of the id and the list |
| LocalChunks.InsertByValueSorted | src/Mongator/Query/LocalChunk.php:147 | inserting into a list sorted by value keeps it sorted |
| LocalChunks.SortByValue | src/Mongator/Query/LocalChunk.php:147 | `asort` yields a permutation of the valued ids |
| LocalChunks.SortByValueSorted | src/Mongator/Query/LocalChunk.php:147 | `asort` yields the ids in ascending order of value |
| LocalChunks.InsertByValueStable | src/Mongator/Query/LocalChunk.php:147 | inserting keeps the relative order of the ids with equal value |
| LocalChunks.SortByValueStable | src/Mongator/Query/LocalChunk.php:147 | `asort` is stable: ids with equal value keep their order of iteration |
| LocalChunks.Keys | src/Mongator/Query/LocalChunk.php:149 | `array_keys`: the keys in order, one per entry |
| LocalChunks.Slice | src/Mongator/Query/LocalChunk.php:204 | `array_slice` never yields more than its input |
| LocalChunks.SliceWindow | src/Mongator/Query/LocalChunk.php:204 | for a non-negative offset and length, `array_slice` is the window from the offset, clipped to the input |
| LocalChunks.PageOf | src/Mongator/Query/LocalChunk.php:198-206 | without a truthy page size every id is returned; a page never holds more ids than the input |
| LocalChunks.PageOfWindow | src/Mongator/Query/LocalChunk.php:198-206 | with a positive page size, page `p` is the ids from `p * pageSize` to `p * pageSize + pageSize`, clipped to the list |
| LocalChunks.PagesTile | src/Mongator/Query/LocalChunk.php:198-206 | pages 0 to `k-1`, one after another, are exactly the first `k * pageSize` ids: pages neither overlap nor leave gaps |
| LocalChunks.WithExistsLookup | src/Mongator/Query/LocalChunk.php:155-157 | after the merge every DB sort field is required to exist and every other criterion is unchanged |
| LocalChunks.RequireExists | src/Mongator/Query/LocalChunk.php:155-157 | the loop leaves the query as it was except that the criteria are the old ones with `$exists` merged for each sort field in turn |
| LocalChunks.Passing | src/Mongator/Query/LocalChunk.php:168 | the filter keeps a sub-list of the elements |
| LocalChunks.SelectOnPage | src/Mongator/Query/LocalChunk.php:165-175 | the loop counts every element that passes the filter and collects, in order, those whose position among them is on the page (or all of them) |
| LocalChunks.DBSelectIsOnPage | src/Mongator/Query/LocalChunk.php:165-177 | the total is the number of elements passing the filter, and the ids are those of them on the page |
| LocalChunks.OnPageAll | src/Mongator/Query/LocalChunk.php:162-172 | without a page size every passing id is selected |
| LocalChunks.OnPageWindow | src/Mongator/Query/LocalChunk.php:163-172 | with integer bounds the selected ids are the passing ids from position `start` to `end`, clipped to the list |
| LocalChunks.PutAllKeys | src/Mongator/Query/LocalChunk.php:188-191 | the cached entry has one key per distinct record id, and exactly the ids of the records |
| LocalChunks.FieldsValue | src/Mongator/Query/LocalChunk.php:183 | the fields passed to the query are the field names as a list |
| LocalChunks.SortStrategyArg | src/Mongator/Query/LocalChunk.php:53-58 | an array strategy is kept; a scalar (null as the empty name) becomes `[name => 1]`; only an object is an error |
| LocalChunks.Prepared | src/Mongator/Query/LocalChunk.php:99-111 | preparing fails exactly when no sort strategy was set, and then changes nothing; it never touches the cache, the page or the strategy |
| LocalChunks.PreparedChoosesSort | src/Mongator/Query/LocalChunk.php:99-111 | a first sort field with a local strategy selects that value function, its ordering and the filter fields plus its fields; any other selects a DB sort on the whole strategy and only the filter fields |
| LocalChunks.LocalSortPersists | src/Mongator/Query/LocalChunk.php:78-111 | once a local sort was chosen, a later DB sort does not reset the value function, so the local sort stays in force |
| LocalChunks.DBSelection | src/Mongator/Query/LocalChunk.php:153-178 | the selection fails exactly when `page * pageSize` fails; the total counts every element passing the filter; without a page size every passing id is selected |
| LocalChunks.DBSelectionWindow | src/Mongator/Query/LocalChunk.php:153-178 | with integer page and page size, the selection is the total and the window of passing ids from `page * pageSize` for `pageSize` ids |
| LocalChunks.DBSelectionInt | src/Mongator/Query/LocalChunk.php:162-177 | with integer page and page size, the selection is the loop run with `start = page * pageSize` and `end = start + pageSize` |
| LocalChunks.LocalSelectionSorted | src/Mongator/Query/LocalChunk.php:131-150 | the locally sorted ids are the ids of the valued elements in ascending, stable order of value times ordering, as a permutation |
| LocalChunks.LocalChunk.constructor | src/Mongator/Query/LocalChunk.php:11-34 | a new chunk has no sort strategy, null page and page size, ordering 1, no value function, no fields and an empty cache |
| LocalChunks.LocalChunk.SetPagination | src/Mongator/Query/LocalChunk.php:45-50 | only the page and page size change |
| LocalChunks.LocalChunk.SetSortStrategy | src/Mongator/Query/LocalChunk.php:53-58 | the normalised strategy is stored; an object strategy fails and changes nothing |
| LocalChunks.LocalChunk.Set | src/Mongator/Query/LocalChunk.php:37-42 | the strategy and the pagination are stored together; a failure changes nothing |
| LocalChunks.LocalChunk.SetCacheStorage | src/Mongator/Query/LocalChunk.php:73-75 | only the cache is replaced |
| LocalChunks.LocalChunk.PrepareForQuery | src/Mongator/Query/LocalChunk.php:99-111 | the new state and outcome are those of `Prepared` |
| LocalChunks.LocalChunk.GetElems | src/Mongator/Query/LocalChunk.php:181-195 | the query gets the chunk's fields; it runs only when its key is not cached, and the cache then stores its records by id; the elements are the cached entry |
| LocalChunks.LocalChunk.GetDBSelectedIds | src/Mongator/Query/LocalChunk.php:153-178 | the query is sorted by the DB sort fields and requires each of them to exist; the result is the DB selection of the cached elements; only the cache changes |
| LocalChunks.LocalChunk.GetLocallySortedIds | src/Mongator/Query/LocalChunk.php:131-150 | the result is the local selection of the cached elements with the value function and ordering; without a value function it is an engine error; only the cache changes |
| LocalChunks.LocalChunk.GetSelectedIds | src/Mongator/Query/LocalChunk.php:114-128 | with a value function, exactly the local selection paged, its error included; otherwise exactly the DB selection on the cached elements, or an engine error when no DB sort fields are set |
| LocalChunks.LocalPage | src/Mongator/Query/LocalChunk.php:155-175 | the paged local selection succeeds exactly when the selection and its paging do, with the selection's total and no more ids than it sorted |
| LocalChunks.LocalChunk.GetResult | src/Mongator/Query/LocalChunk.php:61-70 | without a sort strategy it is an engine error; otherwise the chunk is left as `prepareForQuery` makes it, and the result is exactly that of the selection (the local one, paged, with a value function; the server-sorted one on the cached elements otherwise; an engine error without DB sort fields): its error, or its total and, id by id, the document the lookup found for that id, or null |
| LocalChunks.LocalChunk.FindByIds | src/Mongator/Query/LocalChunk.php:209-218 | the documents come back one per requested id, in the requested order, with null for an id the fetch did not return |
| Mongators.ConnectionNamed | src/Mongator/Mongator.php:240-247 | a connection is returned exactly when the name is registered, and then it is the registered one; otherwise an invalid argument |
| Mongators.DefaultConnection | src/Mongator/Mongator.php:295-306 | the default connection is returned exactly when a default name is set and registered; a missing name or connection is a runtime error |
| Mongators.SetConnectionsLookup | src/Mongator/Mongator.php:179-185 | after `setConnections` exactly the given connections are registered, each under its name |
| Mongators.RemoveConnectionForgets | src/Mongator/Mongator.php:196-203 | after removing a connection it can no longer be fetched, and every other connection is unchanged |
| Mongators.SetConnectionThenGet | src/Mongator/Mongator.php:167-170 | a connection set under a name is fetched back by that name; other names are unchanged |
| Mongators.RepositoryFor | src/Mongator/Mongator.php:354-371 | a memoised repository is returned as it is; otherwise a class that is not a document is an invalid argument, a missing repository class a runtime error, and success needs both |
| Mongators.RepositoryForEffect | src/Mongator/Mongator.php:354-371 | a successful lookup memoises the repository under its class, changes no other class's repository, and a newly made repository is different from every memoised one |
| Mongators.RepositoryMemoised | src/Mongator/Mongator.php:356-370 | a second lookup of the same class returns the same repository and changes nothing |
| Mongators.AllRepositoriesCovers | src/Mongator/Mongator.php:380-387 | `getAllRepositories` succeeds exactly when every document class can get a repository, then memoises one for each; existing repositories are kept and nothing else is added |
| Mongators.Mongator.constructor | src/Mongator/Mongator.php:62-69 | a new instance has no connection, no default connection name, no repository, no dispatcher and an empty unit of work |
| Mongators.Mongator.SetConnection | src/Mongator/Mongator.php:167-170 | the connection is registered under its name, replacing any earlier one; nothing else changes |
| Mongators.Mongator.SetConnections | src/Mongator/Mongator.php:179-185 | the registered connections are replaced by the given ones |
| Mongators.Mongator.RemoveConnection | src/Mongator/Mongator.php:196-203 | removing an unregistered name is an invalid argument and changes nothing; otherwise only that connection goes |
| Mongators.Mongator.ClearConnections | src/Mongator/Mongator.php:210-213 | no connection is registered afterwards |
| Mongators.Mongator.GetConnection | src/Mongator/Mongator.php:224-247 | a connection is returned exactly when `hasConnection` holds |
| Mongators.Mongator.SetDefaultConnectionName | src/Mongator/Mongator.php:268-271 | only the default connection name changes; setting it to null makes `getDefaultConnection` fail with a runtime error again |
| Mongators.Mongator.GetDefaultConnection | src/Mongator/Mongator.php:295-306 | the result is that of `DefaultConnection` on the registered connections |
| Mongators.Mongator.GetRepository | src/Mongator/Mongator.php:354-371 | the repository and the new memo are those of `RepositoryFor`; a failure memoises nothing |
| Mongators.Mongator.GetAllRepositories | src/Mongator/Mongator.php:380-387 | the memo and outcome are those of `AllRepositories`, and on success all memoised repositories are returned |
| Mongators.Mongator.Persist | src/Mongator/Mongator.php:418-421 | the unit of work's queues are those of persisting the documents |
| Mongators.Mongator.Remove | src/Mongator/Mongator.php:430-433 | the unit of work's queues are those of removing the documents |
| Mongators.Mongator.Flush | src/Mongator/Mongator.php:442-445 | a successful flush issues the whole commit plan, none of whose calls raised, and leaves nothing pending; a failing one stops at the first raising call of the plan and leaves both queues as they were |
| Mongators.Mongator.SetEventDispatcher | src/Mongator/Mongator.php:452-455 | only the dispatcher changes |
| Mongators.Mongator.DispatchEvent | src/Mongator/Mongator.php:466-473 | with a dispatcher the event is dispatched once under its name; without one nothing happens |
| PhpValues.Trunc | src/Mongator/Query/LocalChunk.php:204 | the `(int)` conversion of a fractional offset or length truncates toward zero |
| PhpValues.ArrayKey | src/Mongator/Query/Chunk.php:22 | a scalar used as an array key becomes its string form; an array or an object cannot be a key |
| PhpValues.ToNumber | src/Mongator/Query/Chunk.php:52 | an operand of `*` is a number, a string that starts with a number after optional whitespace and sign (digits, or "." and a digit), null or a boolean; an array, an object or any other string is refused |
| PhpValues.Mul | src/Mongator/Query/Chunk.php:52 | `*` succeeds exactly when both operands convert to numbers; two integers multiply exactly |
| PhpValues.MulCommutes | src/Mongator/Query/LocalChunk.php:163 | `page * pageSize` and `pageSize * page` agree, including their errors |
| PhpValues.MulNumericString | src/Mongator/Query/Chunk.php:52 | a page given as a decimal string, with whitespace around it or not, multiplies like the integer it spells |
| PhpValues.MulLeadingDot | src/Mongator/Query/Chunk.php:52 | a string such as `".5"` converts to the fraction it spells and multiplies as that fraction |
| PhpValues.MulByNumber | src/Mongator/Query/Chunk.php:52 | operands that convert to the same number multiply alike |
| PhpArrays.KeyIndex | src/Mongator/Document/Document.php:164 | the position of a key in an array, or -1 when absent; with distinct keys it is the only position of that key |
| PhpArrays.Lookup | src/Mongator/IdentityMap.php:40-42 | a value is found exactly when the key is present |
| PhpArrays.PutLookup | src/Mongator/IndexManager.php:85-88 | `$a[$k] = $v` maps `k` to `v`, leaves every other key, and grows the array only for a new key |
| PhpArrays.MergeLookup | src/Mongator/Query/Query.php:187-191 | `array_merge` of string-keyed arrays takes each key from the second array when it has it, otherwise from the first |
| PhpArrays.Unset | src/Mongator/IndexManager.php:73 | `unset($a[$k])` keeps every other entry and drops those with the key |
| PhpArrays.UnsetLookup | src/Mongator/IndexManager.php:86 | after `unset($a[$k])` the key is absent and every other key keeps its value |
| PhpArrays.LookupConcat | src/Mongator/Query/Query.php:467-479 | in a concatenation of arrays a key is read from the first part that has it |
| Strings.NatToString | src/Mongator/Group/EmbeddedGroup.php:32 | the decimal form of an index is non-empty digits without a leading zero |
| Strings.ReplaceAllAbsent | src/Mongator/Group/AbstractGroup.php:166 | `str_replace` leaves a path without the pattern unchanged |
| Strings.AddPathBecomesSavedPath | src/Mongator/Group/AbstractGroup.php:166 | replacing `._add` by `.` turns the queued path `path._add<i>` into `path.<i>` |
| Strings.StripIndexesLeavesNone | src/Mongator/Document/Document.php:185 | after removing the `.<digits>` parts no numeric path part is left |
| Strings.StripIndexesKeepsPlain | src/Mongator/Document/Document.php:185 | a path without numeric parts is unchanged |
| Strings.StripIndexesIdempotent | src/Mongator/Document/Document.php:185 | stripping twice is stripping once |
| Strings.Split | src/Mongator/Document/EmbeddedDocument.php:69 | `explode` yields at least one part, none containing the separator |
| Strings.JoinSplit | src/Mongator/Document/EmbeddedDocument.php:69-82 | joining the exploded path parts gives the path back |
| Strings.SplitJoin | src/Mongator/Document/EmbeddedDocument.php:69-82 | exploding a path built from separator-free parts gives those parts back |
| Strings.IntToStringRoundTrip | src/Mongator/IndexManager.php:191-192 | the decimal form of an integer is a numeric string that reads back as the same integer |
| Strings.PaddedIntToString | src/Mongator/IndexManager.php:191-192 | whitespace around the decimal form of an integer keeps it numeric and reading back as the same integer |
| PolymorphicGroups.SavedData | src/Mongator/Group/PolymorphicReferenceGroup.php:83-86 | the `(array)` cast of the parent field: null gives no data, an array gives its values in order, a scalar gives a one-element list |
| PolymorphicGroups.Keys | src/Mongator/Group/PolymorphicReferenceGroup.php:110 | the classes of the batches, in the order the batches were created |
| PolymorphicGroups.BatchFromFails | src/Mongator/Group/PolymorphicReferenceGroup.php:100-107 | the grouping fails exactly when some datum has no resolvable class |
| PolymorphicGroups.BatchStep | src/Mongator/Group/PolymorphicReferenceGroup.php:106 | `$ids[$class][] = $id` appends the id to that class's batch, creating it if needed, and leaves every other batch |
| PolymorphicGroups.BatchFromLookup | src/Mongator/Group/PolymorphicReferenceGroup.php:100-107 | each class's batch holds the ids of exactly the data of that class, in data order, after what it held before |
| PolymorphicGroups.BatchFromKeys | src/Mongator/Group/PolymorphicReferenceGroup.php:100-107 | batches appear in the order in which their classes first occur in the data |
| PolymorphicGroups.BatchFromTotal | src/Mongator/Group/PolymorphicReferenceGroup.php:100-107 | every datum contributes exactly one id to exactly one batch |
| PolymorphicGroups.BatchesProperties | src/Mongator/Group/PolymorphicReferenceGroup.php:99-107 | the batches have distinct classes in first-occurrence order, each class's batch is exactly its ids in data order, and the batches together hold one id per datum |
| PolymorphicGroups.InitializeSaved | src/Mongator/Group/PolymorphicReferenceGroup.php:91-117 | an unresolvable class fails before any lookup; otherwise one lookup per batch, in batch order, and the saved documents are their results concatenated |
| PolymorphicGroups.OneCallPerClass | src/Mongator/Group/PolymorphicReferenceGroup.php:110-114 | `findById` is called once for each class that occurs in the data, never twice for a class, with exactly the ids of that class |
| Repositories.IdsToMongo | src/Mongator/Repository.php:195-201 | every id is converted in place, keeping the order and the length |
| Repositories.PartitionIsExact | src/Mongator/Repository.php:215-221 | the documents found in the identity map are exactly those of the ids it holds, each under its string id; the remaining ids are exactly the ids it does not hold |
| Repositories.RemainingIsExact | src/Mongator/Repository.php:215-221 | an id is left for the query exactly when the identity map does not hold it |
| Repositories.CountsAgree | src/Mongator/Repository.php:223 | the count check passes exactly when every id is in the identity map and no two ids share a string form |
| Repositories.FindById | src/Mongator/Repository.php:210-231 | when the identity map holds every id once the query is skipped and its documents are returned; otherwise the remaining ids are queried and the answer is merged over the identity-map documents |
| Repositories.FindByIdKeepsResident | src/Mongator/Repository.php:227-230 | an identity-map document survives the merge unless the query answers with a document under the same key |
| Repositories.FindOneById | src/Mongator/Repository.php:240-248 | the query runs exactly when the identity map lacks the id, and the identity map's document is returned otherwise |
| Queries.CacheEntry | src/Mongator/Query/Query.php:104-111 | a cache entry is used exactly when the cache exists and holds a non-null value under the key, and then it is that value |
| Queries.InitialState | src/Mongator/Query/Query.php:99-111 | a new query has empty criteria, no snapshot, no text search and no counts, and takes its fields and references from the query cache when it holds them, else empty arrays |
| Queries.Query.constructor | src/Mongator/Query/Query.php:70-112 | a new query is in the initial state for its cache entry and keeps its hash |
| Queries.CountArg | src/Mongator/Query/Query.php:290-301 | a count setter accepts exactly null or an integer (a numeric string or a float is refused), refusing with InvalidArgument, and stores the integer itself |
| Queries.CountArgRoundTrip | src/Mongator/Query/Query.php:290-301 | every count a query can hold is accepted back unchanged by the setter |
| Queries.ArrayArg | src/Mongator/Query/Query.php:234-242 | references, sort and hint accept exactly null or an array and keep it as given; anything else is InvalidArgument, except an object without a string conversion, which fails while formatting the message |
| Queries.Query.Criteria | src/Mongator/Query/Query.php:174-178 | the criteria are replaced and nothing else changes |
| Queries.Query.MergeCriteria | src/Mongator/Query/Query.php:187-191 | the new criteria are merged over the old ones and nothing else changes |
| Queries.MergeCriteriaOverrides | src/Mongator/Query/Query.php:187-191 | after a merge a key reads as in the new criteria when they hold it, else as before |
| Queries.Query.Fields | src/Mongator/Query/Query.php:210-214 | the fields are replaced unchecked and nothing else changes |
| Queries.Query.References | src/Mongator/Query/Query.php:234-242 | the references change exactly when the argument is accepted; a refused argument leaves the query unchanged |
| Queries.Query.Sort | src/Mongator/Query/Query.php:262-270 | the sort changes exactly when the argument is accepted; a refused argument leaves the query unchanged |
| Queries.Query.Hint | src/Mongator/Query/Query.php:380-388 | the hint changes exactly when the argument is accepted; a refused argument leaves the query unchanged |
| Queries.Query.Limit | src/Mongator/Query/Query.php:290-301 | the limit changes exactly when the argument is null or an integer; otherwise InvalidArgument and no change |
| Queries.Query.Skip | src/Mongator/Query/Query.php:321-332 | the skip changes exactly when the argument is null or an integer; otherwise InvalidArgument and no change |
| Queries.Query.BatchSize | src/Mongator/Query/Query.php:351-362 | the batch size changes exactly when the argument is null or an integer; otherwise InvalidArgument and no change |
| Queries.Query.Timeout | src/Mongator/Query/Query.php:434-445 | the timeout changes exactly when the argument is null or an integer; otherwise InvalidArgument and no change |
| Queries.Query.Snapshot | src/Mongator/Query/Query.php:407-415 | only a boolean is accepted as the snapshot flag; anything else is InvalidArgument and no change |
| Queries.Query.Text | src/Mongator/Query/Query.php:467-479 | a null search clears the text search; any other search stores search, required score and language together |
| Queries.OptionEntry | src/Mongator/Query/Query.php:632-648 | an option slot holds its value exactly when its condition holds, and no other key |
| Queries.FindOptionsLookup | src/Mongator/Query/Query.php:632-648 | the find options carry projection, limit, skip and sort exactly when the corresponding query part is truthy (a zero limit or skip is left out), and nothing else |
| Queries.CommandOf | src/Mongator/Query/Query.php:551-572 | the text command carries the query's search, language, criteria and fields; its limit is limit plus skip when both are non-zero, else the limit; the timeout option is present exactly when the timeout is non-zero |
| Queries.CollectKeys | src/Mongator/Query/Query.php:575-584 | the text result holds a document id exactly when some response entry with that id reaches the required score and lies past the skip, and no id twice |
| Queries.CollectLast | src/Mongator/Query/Query.php:575-584 | under an id the text result holds the last kept response entry with that id |
| Queries.CollectUntouched | src/Mongator/Query/Query.php:575-584 | an id that no kept entry carries reads in the result as it did before |
| Queries.Query.CreateResult | src/Mongator/Query/Query.php:546-587 | without a text search there is no result; otherwise the result is the collection of kept entries of the response to the text command, keyed by id |
| Queries.Head | src/Mongator/Query/Query.php:512 | the first result is absent exactly for an empty result list, and otherwise is its first element |
| Queries.Query.One | src/Mongator/Query/Query.php:507-513 | `one` leaves the query exactly as it was and returns the first document the query yields when run with limit 1 |
| SequenceIdGenerators.OptionOr | src/Mongator/Id/SequenceIdGenerator.php:23-24 | a missing option falls back to its default |
| SequenceIdGenerators.Settings | src/Mongator/Id/SequenceIdGenerator.php:22-36 | the options are accepted exactly when the increment (default 1) is a non-zero integer and the start is absent or a non-zero integer; a missing start is 1 for a positive increment and -1 otherwise; anything else is InvalidArgument |
| SequenceIdGenerators.GetCode | src/Mongator/Id/SequenceIdGenerator.php:22-64 | code is produced exactly when the options are accepted, and it is the sequence code for the increment and start in effect |
| SequenceIdGenerators.SettingsWithoutOptions | src/Mongator/Id/SequenceIdGenerator.php:23-33 | without options the sequence counts up by 1 from 1 |
| SequenceIdGenerators.SettingsNullOptions | src/Mongator/Id/SequenceIdGenerator.php:23-24 | null options count as absent ones |
| SequenceIdGenerators.SettingsNegativeIncrement | src/Mongator/Id/SequenceIdGenerator.php:32-33 | a negative increment without a start counts down from -1 |
| SequenceIdGenerators.IntToStringInjective | src/Mongator/Id/SequenceIdGenerator.php:45 | distinct integers are written into the code as distinct numerals |
| SequenceIdGenerators.SequenceCodeInjective | src/Mongator/Id/SequenceIdGenerator.php:38-63 | the generated code determines the increment and the start written into it |
| SequenceIdGenerators.GetCodeDeterminesSettings | src/Mongator/Id/SequenceIdGenerator.php:22-64 | two accepted option sets generate the same code exactly when they agree on the increment and start in effect |
| Staging.StageEffect | src/Mongator/UnitOfWork.php:62 | staging a document makes it held, keeps every other held document, and only appends a new class key at the end of the order |
| Staging.UnstageEffect | src/Mongator/UnitOfWork.php:58-60 | unstaging a document makes it not held, keeps every other document's status, and keeps all class keys (an emptied class stays) |
| Staging.PersistAllEffect | src/Mongator/UnitOfWork.php:49-64 | after `persist` every listed document is pending for saving and not for removal, every other document keeps its status, the persist class order only grows at its end, and the remove array keeps its class keys |
| Staging.PersistAllValid | src/Mongator/UnitOfWork.php:49-64 | `persist` keeps both arrays well formed and never leaves a document pending for both saving and removal |
| Staging.PersistAllKeepsExclusive | src/Mongator/UnitOfWork.php:58-62 | after `persist` no document is pending in both arrays |
| Staging.Stages | src/Mongator/UnitOfWork.php:54-63 | the loop over the documents ends in the state the `persist` fold describes |
| Staging.UnitOfWork.constructor | src/Mongator/UnitOfWork.php:32-36 | a new unit of work has nothing pending |
| Staging.UnitOfWork.Persist | src/Mongator/UnitOfWork.php:49-64 | the two arrays become the `persist` fold of the old ones over the documents, and stay well formed and exclusive |
| Staging.UnitOfWork.Remove | src/Mongator/UnitOfWork.php:87-102 | the two arrays become the mirrored fold (documents move to the remove array), and stay well formed and exclusive |
| Staging.CommitPlanCoversEachClass | src/Mongator/UnitOfWork.php:135-143 | the commit saves exactly the classes of the persist array and deletes exactly the classes of the remove array |
| Staging.CommitPlanShape | src/Mongator/UnitOfWork.php:137-142 | the commit makes all saves before any delete, each with the full document batch of its class, and no class is saved or deleted twice |
| Staging.Calls | src/Mongator/UnitOfWork.php:137-142 | the repository calls made are a prefix of the commit plan that stops at the first call that raises; without a raise every planned call is made |
| Staging.UnitOfWork.Commit | src/Mongator/UnitOfWork.php:135-146 | a commit passes exactly when none of the calls it made raised; it then made the whole plan and leaves nothing pending; a raising call ends the trace, stops the commit there and nothing is cleared |
| Staging.UnitOfWork.Clear | src/Mongator/UnitOfWork.php:149-152 | after `clear` nothing is pending for saving or removal |
| Staging.PersistThenRemoveKeepsEmptyClass | src/Mongator/UnitOfWork.php:82-102 | persisting then removing one document leaves it pending for removal only, while the persist array keeps an empty class entry, so `hasPendingForPersist` stays true |
| Staging.PersistTwiceIsPersistOnce | src/Mongator/UnitOfWork.php:62 | persisting the same document twice has the effect of persisting it once |

## Left out

- The file-system, APC, Memcached and Redis caches are not modelled: they are storage I/O. The array cache carries the cache contract.
- Connections and the MongoDB driver are not modelled: they are client bootstrapping and network I/O. Connections are opaque ids.
- Repository `count`, `update`, `remove`, `distinct`, `text`, `mapReduce`, `aggregate`, `command` and `getCollection` are not modelled: they are thin driver wrappers. The fetches other code relies on are parameters.
- Query `getHash` and `generateKey` are not modelled: they hash a debug backtrace and a serialisation. Keys and hashes are opaque strings.
- Query `findById`, `findByIds`, `count`, `createCursor`, `execute` and `valueToMongoId` are not modelled: they build driver cursors and ObjectID objects.
- The value-type classes in the type directory are not modelled: their casts and code templates are outside the engine. Only the type registry is modelled.
- The code-generation templates are not modelled: the Twig extension, the classes under `Extension`, and the code strings of the native and none id generators.
- `SequenceIdGenerator::getToMongoCode` is not modelled: it is a constant template.
- The query `Result` iterator and `DataLoader` are not modelled: they wrap SPL iterators and orchestrate generated accessors.
- Event objects, `debug()` and `__sleep` are not modelled: they are reflection and dynamic method calls. Mongator's event dispatcher is modelled as a log of (name, event) pairs.
- Mongator `create`, `getMetadata`, the cache getters and setters, `ensureAllIndexes` and `fixAllMissingReferences` are not modelled: they need the metadata factory, the service container or the driver.
- The metadata factory is folded into a document-class parameter of `getRepository`. A missing metadata factory is not modelled.
- Error messages are not modelled, only the kind of exception or error raised.
- PHP's loose `==` in `array_search` and `in_array` is modelled as value equality.
- Aliasing is not modelled:
  - an embedded document held in two places is two values;
  - a local chunk's cache shared through an `ArrayObject` is a field of the chunk.
- Integer overflow to float is not modelled: integers are unbounded. Neither are floating-point values: local-chunk sort values are integers, and a text search's required score is a number or absent.
- Numeric-string array keys are not converted to integers, and `array_merge` does not renumber integer keys: array keys are strings.
- Generated accessors (`setDocumentData`, field getters and setters) are not modelled. Documents hold their data directly, and a path walk that would call a field getter is reported as an error.
- Callbacks registered as once-events are recorded and run in order, but their side effects are not modelled.
- Documents.EmbeddedAdd: a conflicting add (Runtime error) returns only the error. The saved baseline that PHP loads before it detects the conflict is therefore not kept.
- Documents.EmbeddedAdd: when re-rooting an added document raises (a null embedded one), only the error is returned. PHP has already queued the documents and re-rooted the ones before it, and that partial state is not kept.
- Documents.SetRootAndPath: when an embedded one is null the call raises part way, and only the error is returned. PHP has already stored the new root and path and re-rooted the embedded ones before it; that partial state is not kept.
- Documents.SetSlots: after a raise, the embedded ones already re-rooted are not returned.
- Documents.SetGroups: after a raise, the embedded groups already re-rooted are not returned.
- Documents.GroupSetRootAndPath: when a queued document raises, only the error is returned. The group's new root and path, stored first, and the queued documents re-rooted before it are not kept.
- Documents.SetAdds: after a raise, the queued documents already re-rooted are not returned.
- Documents.Materialize: reading an embedded group's saved data also calls the root's `addFieldCache` with the group's path. That side effect is not modelled here; `addFieldCache` itself is modelled on the root document.
- Documents.IsEmbeddedOneChangedInParent: the check that the root itself is an embedded group can never succeed, because the root is always a document. It is left out.
- PolymorphicGroups.SavedData: casting an object to an array yields no entries here. PHP would yield the object's properties.
- PolymorphicGroups: `findById` is a parameter, and failures of the repository lookup for a discriminator class are not modelled.
- PhpValues.Mul: numeric strings in exponent form (`"1e3"`) are read only up to the `e`, and overflow to float is not modelled. A leading-numeric string with trailing garbage is accepted without its warning.
- Indexes.IndexKey: numeric strings in exponent form are treated as plain strings.
- Documents.SettleOne: when re-rooting a member raises part way, PHP has already re-rooted the member and some of its embedded documents; the model keeps the member cleared but not re-rooted.
- Documents.MarkAllSaved: a group member that is also queued for adding is one value per place, so a `markAllSaved` that raises part way does not update the queued copy.
- Indexes.GetDiffExactlyOne: a configured index whose key repeats is filed once per occurrence, so the exactly-one property is proved for distinct keys only.
- Indexes.Commit: whether each drop and create succeeds is a parameter. The notice `createIndex` raises for its undefined `$name` is not modelled.
- LocalChunks: ids are strings, not ObjectID objects.
- LocalChunks.PageOf: a fractional page offset or page size is truncated to an integer, as `array_slice` does; float results of the product are not modelled.
- Staging: within one class the pending documents are a map keyed by object hash, so the order in which a class's documents reach `save`/`delete` is not modelled. The order of classes is modelled.
- Queries.Query.One: running the query is a total parameter, so the case where `all()` throws and leaves the limit at 1 is not modelled.
- Staging: `getMongator` is not modelled. The repository calls of a commit are a trace, and a parameter says which of them raise.
- Chunks.ChunkResult.GetTotal: the deferred total is a query whose count a parameter supplies, not a closure.
- Registries: class existence and subclassing are parameters. A created instance is modelled by its class and a serial number.
