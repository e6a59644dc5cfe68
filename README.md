# ARK-Navigator resource index in Dafny

This project models the core of ARK-Navigator's resource index.

## What the model covers

`PlainResourcesIndex` is the in-memory catalog of one root folder. It keeps two maps:

- `metaByPath` maps each indexed path to its `ResourceMeta`. It is a Kotlin `LinkedHashMap`, so it iterates in insertion order.
- `pathById` maps each `ResourceId` to a single representative path.

Different paths whose content is identical share an id.

The index answers prefix listings and id lookups. It removes resources by id. When the removed path was the representative of an id, the first other path that carries the id takes its place. On `reindex` the index compares itself with the disk and computes a `Difference` of deleted, updated and added paths. It then applies that difference:

- it forgets the deleted paths;
- it deletes the stale rows from the Room DAO, 512 paths per call;
- it detects the kind of every updated or added file;
- it persists what was detected;
- it asks the preview storage to regenerate every preview.

The project also models four smaller pieces:

- `loadResources`, which turns the persisted rows into the constructor's map;
- the recursive `listAllFiles`;
- `LinkKindFactory`, which maps a link's fields to the extras table and back;
- `FilesRepo` of the image manager, which splits a directory listing into folders and images.

### Modules

| module | file | contents |
|---|---|---|
| `Wrappers`, `Seqs`, `Paths` | `wrappers.dfy`, `seqs.dfy`, `paths.dfy` | small shared helpers |
| `Kinds`, `Resources` | `resource_kind.dfy`, `resource_meta.dfy` | the data model |
| `LinkedMaps` | `linked_map.dfy` | an insertion-ordered map: the items plus the key order |
| `Differences` | `difference.dfy` | the filesystem snapshot, `listAllFiles`, `calculateDifference` and `chunked` |
| `Catalogs` | `catalog.dfy` | the index state as a value (`Catalog`), with one function per operation and the lemmas about them |
| `Index` | `index.dfy` | the class `PlainResourcesIndex` and the recorder classes `ResourceDao` and `PreviewStorage` |
| `Loading` | `loading.dfy` | `loadResources` |
| `LinkKindFactory`, `FilesRepo` | `link_kind_factory.dfy`, `files_repo.dfy` | the two smaller pure pieces |

### How the class relates to the functions

Each method of `PlainResourcesIndex` that changes the index is proved to leave `State()` equal to the `Catalogs` function of its old state. For example, `TryRemove` leaves `Catalogs.Remove(old(State()), id)`. The lemmas in `Catalogs` state what those functions guarantee.

The central invariant is `Consistent`: every `(id, p)` in `pathById` has a meta at `p` that carries `id`. `tryRemove` keeps it. So does `updateResource`, when it is called with the id the path carries. The assertion at `PlainResourcesIndex.kt:112-114` shows that the authors intended it.

`reindexRoot` keeps only the weaker `ConsistentExcept`. The reason is that an updated path whose content changed keeps its old id in `pathById`.

### Where the intended behaviour and the code differ

The model follows the code in each case. Each item below compares the code with a behaviour the source states in its own comments or assertions, or that a caller would reasonably expect.

- **Resolvable ids.** `ResourcesIndex.kt:21-22` says that any id a caller holds is in the index. `tryRemove` asserts that the two maps never diverge (`PlainResourcesIndex.kt:112-114`). A reconciliation breaks both:
  - The deletion loop of `reindexRoot` drops the id of a deleted path without promoting a duplicate. `Catalogs.DeletedDuplicateUnresolvable` shows an id that `listAllIds` still returns but `pathById` no longer resolves.
  - A re-detected path keeps its old id. `Catalogs.StaleIdAfterReindex` shows `tryRemove` of that old id then ending in the "internal mappings are diverged" assertion.
- **Every change persisted.** `PlainResourcesIndex.kt:36-38` says that every change made during the application's lifetime must be persisted into the DAO. The code departs from this in three places:
  - `remove` (`PlainResourcesIndex.kt:84-87`) changes both maps but writes nothing to the DAO and does not forget the preview. `Index.PlainResourcesIndex.Remove` modifies only the index.
  - A modified file whose kind can no longer be detected keeps its old meta in memory, while its row goes to `deletePaths` (`Catalogs.UndetectableUpdateKeepsStaleMeta`). Memory and the database then disagree about it.
  - Both maps change before anything is written to the DAO. A failed write would leave memory ahead of the database. DAO failures are not modelled.
- **Repeated reindex.** A second `reindex` with no disk change sees an empty `Difference` when every updated or added file can be detected and detection records the disk's modification time (`Catalogs.ReindexSettles`). It does not when a new file's kind cannot be detected (`Catalogs.UndetectableFileStaysAdded`).
- **Idle reindex.** A `reindex` with no disk change still makes its two DAO insert calls, with empty rows. `Catalogs.PersistCalls` always yields two calls.

### Definitions and the lines they model

These functions only compute. The table below names, for each one, the lemmas and methods whose contracts state what it does.

- `Catalogs.FromEntries` and `Catalogs.Invert`: the constructor, `PlainResourcesIndex.kt:51-59`. Stated by `Catalogs.MetasOfValues` and `Catalogs.FromEntriesSound`.
- `Catalogs.Remove`: `tryRemove`, `PlainResourcesIndex.kt:107-124`. Stated by `Catalogs.RemoveAbsent`, `Catalogs.RemovePresent` and `Catalogs.RemoveKeepsOrder`.
- `Catalogs.Update`: `updateResource`, `PlainResourcesIndex.kt:267-280`. Stated by `Catalogs.UpdateEffects`.
- `Catalogs.DropDeleted`: the deletion loop, `PlainResourcesIndex.kt:132-137`. Stated by `Catalogs.DropDeletedEffects`.
- `Catalogs.InsertAll`, `Catalogs.Detected` and `Catalogs.FailedPaths`: the detection loop, `PlainResourcesIndex.kt:151-171`. Stated by `Catalogs.InsertAllEffects` (`metaByPath`), `Catalogs.InsertAllIds` (`pathById`), `Catalogs.DetectedEffects` and `Catalogs.FailedPathsAreFailures`.
- `Catalogs.Reindexed`: the map changes of `reindexRoot`, `PlainResourcesIndex.kt:126-187`. Stated by `Catalogs.ReindexConvergence` (`metaByPath`), `Catalogs.ReindexIds` (`pathById`) and `Catalogs.ReindexWeakInvariant`.
- `Differences.ListAllFiles` and `Differences.ListAllFilesIn`: `listAllFiles`, `PlainResourcesIndex.kt:299-306`. Stated by `Differences.ListAllFilesMembership` and `Differences.ListAllFilesUnderRoot`.
- `Loading.GroupByPath` and `Loading.LoadResources`: `loadResources`, `PlainResourcesIndex.kt:284-297`. Stated by `Loading.GroupByPathValid`, `Loading.LoadResourcesFailsOnDuplicate` and `Loading.LoadResourcesEntries`.
- `Paths.StartsWith`: `Path.startsWith`, used by `listResources` (`PlainResourcesIndex.kt:61-72`). It compares whole name elements. Stated through `Catalogs.ListResources`.

## Model

Source paths are relative to the repository root. `PlainResourcesIndex.kt`, `ResourcesIndex.kt`, `LinkKindFactory.kt` and `FilesRepo.kt` are the four core files.

| member | source | states |
|---|---|---|
| `Catalogs.MetasOf` | app/src/main/java/space/taran/arknavigator/mvp/model/repo/index/PlainResourcesIndex.kt:51-52 | `resources.toMutableMap()` is a well-formed insertion-ordered map whose keys are exactly the resources' paths |
| `Catalogs.PathsOf` | app/src/main/java/space/taran/arknavigator/mvp/model/repo/index/PlainResourcesIndex.kt:51-52 | the key set of `toMutableMap()` contains every resource's path |
| `Catalogs.MetasOfValues` | app/src/main/java/space/taran/arknavigator/mvp/model/repo/index/PlainResourcesIndex.kt:51-52 | every resource's path holds that resource's meta |
| `Catalogs.FromEntriesSound` | app/src/main/java/space/taran/arknavigator/mvp/model/repo/index/PlainResourcesIndex.kt:51-59 | after construction every `pathById` entry names a path whose meta carries the id, and every meta's id is in `pathById` |
| `Index.PlainResourcesIndex.constructor` | app/src/main/java/space/taran/arknavigator/mvp/model/repo/index/PlainResourcesIndex.kt:39-59 | builds both maps from the persisted resources (`FromEntries`); the maps start consistent and complete, and no detection failure has been emitted |
| `Catalogs.ListResources` | app/src/main/java/space/taran/arknavigator/mvp/model/repo/index/PlainResourcesIndex.kt:61-72 | a meta is returned exactly when some indexed path under the prefix holds it; a null prefix returns all metas |
| `Index.PlainResourcesIndex.ListResources` | app/src/main/java/space/taran/arknavigator/mvp/model/repo/index/PlainResourcesIndex.kt:61-72 | the same set, computed without changing the index |
| `Catalogs.IdsOf` | app/src/main/java/space/taran/arknavigator/mvp/model/repo/index/ResourcesIndex.kt:14-15 | `map { it.id }.toSet()`: an id is in the result exactly when some meta carries it |
| `Catalogs.ListIds` | app/src/main/java/space/taran/arknavigator/mvp/model/repo/index/ResourcesIndex.kt:14-15 | an id is listed exactly when some indexed path under the prefix has a meta carrying it |
| `Catalogs.ListAllIds` | app/src/main/java/space/taran/arknavigator/mvp/model/repo/index/ResourcesIndex.kt:19 | `listIds(null)`: exactly the ids carried by some indexed meta |
| `Catalogs.IdsOfBounded` | app/src/main/java/space/taran/arknavigator/mvp/model/repo/index/ResourcesIndex.kt:14-15 | a set of metas never has more distinct ids than metas |
| `Catalogs.ListIdsBounded` | app/src/main/java/space/taran/arknavigator/mvp/model/repo/index/ResourcesIndex.kt:14-15 | `listIds(prefix)` returns at most as many ids as `listResources(prefix)` returns metas |
| `Catalogs.ListAllIdsResolvable` | app/src/main/java/space/taran/arknavigator/mvp/model/repo/index/ResourcesIndex.kt:19-23 | on consistent and complete maps the listed ids are exactly the keys of `pathById`, so `getPath` succeeds for each of them |
| `Index.PlainResourcesIndex.ListIds` | app/src/main/java/space/taran/arknavigator/mvp/model/repo/index/ResourcesIndex.kt:14-15 | the ids of the metas under the prefix, at most as many as those metas |
| `Index.PlainResourcesIndex.ListAllIds` | app/src/main/java/space/taran/arknavigator/mvp/model/repo/index/ResourcesIndex.kt:19 | the ids of all metas; on consistent and complete maps these are exactly `pathById`'s keys |
| `Index.PlainResourcesIndex.Contains` | app/src/main/java/space/taran/arknavigator/mvp/model/repo/index/PlainResourcesIndex.kt:74 | true exactly when the id has a representative path; on consistent maps that path holds a meta carrying the id; on consistent and complete maps true exactly for the ids `listAllIds` returns |
| `Index.PlainResourcesIndex.TryGetPath` | app/src/main/java/space/taran/arknavigator/mvp/model/repo/index/PlainResourcesIndex.kt:95 | null exactly for an id not in `pathById`, otherwise its representative path; on consistent maps that path's meta carries the id |
| `Index.PlainResourcesIndex.TryGetMeta` | app/src/main/java/space/taran/arknavigator/mvp/model/repo/index/PlainResourcesIndex.kt:98-104 | the meta at the id's representative path, or null when the id is unknown or its path has no meta; on consistent maps it is non-null exactly for known ids and carries the id |
| `Index.PlainResourcesIndex.GetPath` | app/src/main/java/space/taran/arknavigator/mvp/model/repo/index/PlainResourcesIndex.kt:76-78 | for an id the index holds, its representative path |
| `Index.PlainResourcesIndex.GetMeta` | app/src/main/java/space/taran/arknavigator/mvp/model/repo/index/PlainResourcesIndex.kt:80-82 | for an id the index holds, the meta at its representative path, carrying the id on consistent maps |
| `Catalogs.FirstWithId` | app/src/main/java/space/taran/arknavigator/mvp/model/repo/index/PlainResourcesIndex.kt:116-118 | `entries.find`: the first key in iteration order whose meta carries the id, or none when no key's meta carries it |
| `Catalogs.RemoveAbsent` | app/src/main/java/space/taran/arknavigator/mvp/model/repo/index/PlainResourcesIndex.kt:107-108 | `tryRemove` of an id not in `pathById` returns null and changes nothing |
| `Catalogs.RemoveKeepsOrder` | app/src/main/java/space/taran/arknavigator/mvp/model/repo/index/PlainResourcesIndex.kt:107-124 | every outcome of `tryRemove`, including the two that throw, leaves a well-formed `metaByPath` |
| `Catalogs.RemovePresent` | app/src/main/java/space/taran/arknavigator/mvp/model/repo/index/PlainResourcesIndex.kt:107-124 | on consistent maps `tryRemove` of a known id returns its path; it removes exactly that path's meta and keeps the maps consistent (and complete when they were); the id stays resolvable exactly when another path carries it, through the first such path; other ids are untouched |
| `Catalogs.RemoveThenListAllIds` | app/src/main/java/space/taran/arknavigator/mvp/model/repo/index/PlainResourcesIndex.kt:107-124 | after removing a known id, `listAllIds` still lists it exactly when another path carries it |
| `Catalogs.DuplicatePromotedByRemove` | app/src/main/java/space/taran/arknavigator/mvp/model/repo/index/PlainResourcesIndex.kt:116-121 | removing the representative of an id two paths carry leaves the other path as the id's representative |
| `Index.PlainResourcesIndex.TryRemove` | app/src/main/java/space/taran/arknavigator/mvp/model/repo/index/PlainResourcesIndex.kt:107-124 | the new maps and the outcome are `Catalogs.Remove` of the old maps: null, the removed path, the `!!` failure or the divergence assertion, each after the map changes made before it |
| `Index.PlainResourcesIndex.Remove` | app/src/main/java/space/taran/arknavigator/mvp/model/repo/index/PlainResourcesIndex.kt:84-87 | `tryRemove` of an id the index holds; it never ends in null; no detection failure is emitted, and neither the DAO nor the preview storage is touched |
| `Catalogs.UpdateEffects` | app/src/main/java/space/taran/arknavigator/mvp/model/repo/index/PlainResourcesIndex.kt:272-274 | called with the id the path carries, `updateResource` keeps the maps consistent; `metaByPath[path]` becomes the new meta and `pathById[newId]` becomes the path; a differing `oldId` is no longer resolvable; the maps stay complete when no other path carried `oldId` |
| `Catalogs.UpdateInstalls` | app/src/main/java/space/taran/arknavigator/mvp/model/repo/index/PlainResourcesIndex.kt:272-274 | for any call, `updateResource` puts the new meta at the path, makes the path the representative of the new id and drops a differing `oldId`; every other path keeps its meta and every other id its path |
| `Catalogs.UpdateWithForeignOldIdDiverges` | app/src/main/java/space/taran/arknavigator/mvp/model/repo/index/PlainResourcesIndex.kt:272-274 | called with an `oldId` the path does not carry, `updateResource` leaves `pathById` naming a path whose meta carries another id |
| `Index.PlainResourcesIndex.UpdateResource` | app/src/main/java/space/taran/arknavigator/mvp/model/repo/index/PlainResourcesIndex.kt:267-280 | the maps become `Catalogs.Update` of the old maps; the DAO receives `updateResource(oldId, newId, modified, size)` then `updateExtras(oldId, newId)`; no detection failure is emitted; consistency is preserved when `oldId` is the id the path carried |
| `Differences.ListAllFilesMembership` | app/src/main/java/space/taran/arknavigator/mvp/model/repo/index/PlainResourcesIndex.kt:299-306 | `listAllFiles` returns exactly the files of the directory tree |
| `Differences.ListAllFilesInMembership` | app/src/main/java/space/taran/arknavigator/mvp/model/repo/index/PlainResourcesIndex.kt:303-305 | the `flatMap` over sub-directories returns exactly the files of those sub-trees |
| `Differences.ListAllFilesUnderRoot` | app/src/main/java/space/taran/arknavigator/mvp/model/repo/index/PlainResourcesIndex.kt:299-306 | in a well-formed tree every file `listAllFiles` returns lies strictly inside the folder it walked |
| `Differences.ListAllFilesInUnder` | app/src/main/java/space/taran/arknavigator/mvp/model/repo/index/PlainResourcesIndex.kt:303-305 | the files of sub-trees that lie inside a folder lie inside that folder |
| `Differences.CalculateDifference` | app/src/main/java/space/taran/arknavigator/mvp/model/repo/index/PlainResourcesIndex.kt:189-213 | deleted = the known paths that no longer exist; updated = the existing known paths whose disk time is strictly newer than the stored one; added = the walked files that are not indexed; deleted and updated have no repeats when the known paths have none |
| `Differences.DifferenceDisjoint` | app/src/main/java/space/taran/arknavigator/mvp/model/repo/index/PlainResourcesIndex.kt:189-213 | the three lists are pairwise disjoint |
| `Catalogs.ModifiedFileIsUpdated` | app/src/main/java/space/taran/arknavigator/mvp/model/repo/index/PlainResourcesIndex.kt:195-200 | a single indexed file whose disk time has grown is exactly the updated list |
| `Catalogs.DeletedFileIsDeleted` | app/src/main/java/space/taran/arknavigator/mvp/model/repo/index/PlainResourcesIndex.kt:191-193 | of two indexed paths, the one gone from disk is exactly the deleted list |
| `Differences.Chunked` | app/src/main/java/space/taran/arknavigator/mvp/model/repo/index/PlainResourcesIndex.kt:145 | `chunked(512)`: the chunks concatenate to the input; each holds between 1 and 512 paths; all but the last hold exactly 512 |
| `Catalogs.DropDeletedEffects` | app/src/main/java/space/taran/arknavigator/mvp/model/repo/index/PlainResourcesIndex.kt:132-137 | the deletion loop removes exactly the deleted paths from `metaByPath`, keeping the order of the others, and exactly the ids their metas carried from `pathById` |
| `Catalogs.DropDeletedMetas` | app/src/main/java/space/taran/arknavigator/mvp/model/repo/index/PlainResourcesIndex.kt:135 | the `metaByPath` half of the above, and the key order stays well formed |
| `Catalogs.DropDeletedItems` | app/src/main/java/space/taran/arknavigator/mvp/model/repo/index/PlainResourcesIndex.kt:135 | a path survives exactly when it is not deleted, and it keeps its meta |
| `Catalogs.DropDeletedKeys` | app/src/main/java/space/taran/arknavigator/mvp/model/repo/index/PlainResourcesIndex.kt:135 | the key order loses exactly the deleted paths |
| `Catalogs.DropDeletedIds` | app/src/main/java/space/taran/arknavigator/mvp/model/repo/index/PlainResourcesIndex.kt:133-134 | `pathById` loses exactly the ids of the deleted paths' metas, and no duplicate is promoted |
| `Catalogs.DropDeletedStep` | app/src/main/java/space/taran/arknavigator/mvp/model/repo/index/PlainResourcesIndex.kt:132-137 | one iteration of the deletion loop: the next path is still indexed with its original meta; its id and the path are dropped |
| `Catalogs.DropDeletedConsistent` | app/src/main/java/space/taran/arknavigator/mvp/model/repo/index/PlainResourcesIndex.kt:132-137 | deleting indexed paths from consistent maps keeps them consistent |
| `Catalogs.DeletedDuplicateUnresolvable` | app/src/main/java/space/taran/arknavigator/mvp/model/repo/index/PlainResourcesIndex.kt:132-137 | when the deleted path was the representative of an id another path still carries, the id is still listed but no longer resolvable, so the maps are no longer complete |
| `Catalogs.ForgetCalls` | app/src/main/java/space/taran/arknavigator/mvp/model/repo/index/PlainResourcesIndex.kt:133-136 | one `forget` per deleted path, in order, with the id its meta carried |
| `Catalogs.DeleteCalls` | app/src/main/java/space/taran/arknavigator/mvp/model/repo/index/PlainResourcesIndex.kt:147-149 | one `deletePaths` per chunk, in order |
| `Catalogs.Detected` | app/src/main/java/space/taran/arknavigator/mvp/model/repo/index/PlainResourcesIndex.kt:151-161 | `newResources` is a well-formed insertion-ordered map |
| `LinkedMaps.LinkedMap.Put` | app/src/main/java/space/taran/arknavigator/mvp/model/repo/index/PlainResourcesIndex.kt:158-159 | `LinkedHashMap` put: the key maps to the new value and every other key keeps its value; a new key is appended to the iteration order, an existing key keeps its place |
| `LinkedMaps.LinkedMap.Remove` | app/src/main/java/space/taran/arknavigator/mvp/model/repo/index/PlainResourcesIndex.kt:135 | `LinkedHashMap` remove: exactly that key leaves the map; every other key keeps its value, and the iteration order stays well formed |
| `LinkedMaps.Empty` | app/src/main/java/space/taran/arknavigator/mvp/model/repo/index/PlainResourcesIndex.kt:151 | `mutableMapOf()`: the empty, well-formed map |
| `Catalogs.DetectedEffects` | app/src/main/java/space/taran/arknavigator/mvp/model/repo/index/PlainResourcesIndex.kt:151-161 | `newResources` holds exactly the paths whose detection succeeded, each with its detected meta |
| `Catalogs.InsertAllEffects` | app/src/main/java/space/taran/arknavigator/mvp/model/repo/index/PlainResourcesIndex.kt:155-161 | after the detection loop `metaByPath` is the old map overwritten with `newResources`, and its key order stays well formed |
| `Catalogs.InsertAllIds` | app/src/main/java/space/taran/arknavigator/mvp/model/repo/index/PlainResourcesIndex.kt:155-161 | after the detection loop every id detected for one of the paths is in `pathById` and names the last path detected with that id; `pathById` gains no other id, and an id no path is detected with keeps its entry |
| `Catalogs.InsertAllStep` | app/src/main/java/space/taran/arknavigator/mvp/model/repo/index/PlainResourcesIndex.kt:155-170 | one iteration of the detection loop: a success goes into both maps and into `newResources`; a failure changes neither map and is emitted once |
| `Catalogs.FailedPathsAreFailures` | app/src/main/java/space/taran/arknavigator/mvp/model/repo/index/PlainResourcesIndex.kt:162-163 | the failure flow emits exactly the paths whose detection failed, in order |
| `Catalogs.InsertAllConsistentExcept` | app/src/main/java/space/taran/arknavigator/mvp/model/repo/index/PlainResourcesIndex.kt:155-161 | re-detecting only stale or unindexed paths keeps the maps consistent except at the stale paths |
| `Catalogs.StaleIdAfterReindex` | app/src/main/java/space/taran/arknavigator/mvp/model/repo/index/PlainResourcesIndex.kt:155-161 | a modified file whose new content has a new id stays the representative of its old id too, and `tryRemove(oldId)` then ends in the divergence assertion |
| `Catalogs.ReindexWeakInvariant` | app/src/main/java/space/taran/arknavigator/mvp/model/repo/index/PlainResourcesIndex.kt:126-187 | from consistent maps and the difference calculated from them, `reindexRoot` keeps the key order well formed; `pathById` names only indexed paths whose meta carries the id, except at the updated paths |
| `Catalogs.ReindexConvergence` | app/src/main/java/space/taran/arknavigator/mvp/model/repo/index/PlainResourcesIndex.kt:126-171 | after `reindexRoot` the indexed paths are the known paths still on disk plus the new files whose kind was detected; a re-detected path holds its new meta and every other path keeps its old one |
| `Catalogs.ReindexIds` | app/src/main/java/space/taran/arknavigator/mvp/model/repo/index/PlainResourcesIndex.kt:132-161 | after `reindexRoot` every id detected for an updated or added path resolves to the last such path carrying it, which holds its detected meta; the other ids of `pathById` are the old ones whose meta was not deleted, each keeping its path |
| `Catalogs.UndetectableFileStaysAdded` | app/src/main/java/space/taran/arknavigator/mvp/model/repo/index/PlainResourcesIndex.kt:155-204 | a new file whose detection fails is listed as added again by the next `calculateDifference` |
| `Catalogs.ReindexSettles` | app/src/main/java/space/taran/arknavigator/mvp/model/repo/index/PlainResourcesIndex.kt:126-213 | when every walked file exists, detection records the disk time and every updated or added file is detectable, the next `calculateDifference` after `reindexRoot` is empty |
| `Catalogs.UndetectableUpdateKeepsStaleMeta` | app/src/main/java/space/taran/arknavigator/mvp/model/repo/index/PlainResourcesIndex.kt:132-170 | a modified file whose kind can no longer be detected keeps its old meta in `metaByPath`, while its path is among those deleted from the DAO |
| `Catalogs.ReindexStaysUnderRoot` | app/src/main/java/space/taran/arknavigator/mvp/model/repo/index/PlainResourcesIndex.kt:151-171 | the paths a reconciliation adds come from the walk of the root, so they lie inside it; an index whose paths all lie inside the root keeps that property |
| `Catalogs.RowsOf` | app/src/main/java/space/taran/arknavigator/mvp/model/repo/index/PlainResourcesIndex.kt:253-255 | one `Resource.fromMeta(meta, root, path)` row per entry, in order |
| `Catalogs.ExtrasOf` | app/src/main/java/space/taran/arknavigator/mvp/model/repo/index/PlainResourcesIndex.kt:256-258 | `roomExtra` holds every extras row `toRoom` produces for an entry, and nothing else |
| `Catalogs.PersistCalls` | app/src/main/java/space/taran/arknavigator/mvp/model/repo/index/PlainResourcesIndex.kt:261-262 | `persistResources` makes exactly two DAO writes: `insertResources`, then `insertExtras` |
| `Catalogs.PersistedAreDetected` | app/src/main/java/space/taran/arknavigator/mvp/model/repo/index/PlainResourcesIndex.kt:151-181 | a resource row is persisted exactly when its path was re-detected with that meta |
| `Catalogs.GenerateCalls` | app/src/main/java/space/taran/arknavigator/mvp/model/repo/index/PlainResourcesIndex.kt:222-227 | one `generate(path, meta)` per entry, in iteration order |
| `Catalogs.GeneratesEveryEntry` | app/src/main/java/space/taran/arknavigator/mvp/model/repo/index/PlainResourcesIndex.kt:215-240 | `generate` is requested for every entry of `metaByPath` and for nothing else |
| `Index.PlainResourcesIndex.ReindexRoot` | app/src/main/java/space/taran/arknavigator/mvp/model/repo/index/PlainResourcesIndex.kt:126-187 | the maps become `Reindexed(old, diff)`; the failure flow gains the undetectable paths; the DAO receives the chunked deletions, then the two persistence writes for `newResources`; the preview storage receives a `forget` per deleted path, then a `generate` per entry of the final map; every id detected for an updated or added path resolves through `pathById` to a path whose meta carries it |
| `Index.PlainResourcesIndex.ForgetDeleted` | app/src/main/java/space/taran/arknavigator/mvp/model/repo/index/PlainResourcesIndex.kt:132-137 | the deletion loop leaves `DropDeleted(old, deleted)` and makes one `forget` call per deleted path |
| `Index.PlainResourcesIndex.ForgetResource` | app/src/main/java/space/taran/arknavigator/mvp/model/repo/index/PlainResourcesIndex.kt:133-136 | one deletion: drops the path's id and the path, and forgets that id's preview |
| `Index.PlainResourcesIndex.DeletePathsInChunks` | app/src/main/java/space/taran/arknavigator/mvp/model/repo/index/PlainResourcesIndex.kt:139-149 | one `deletePaths` call per chunk of at most 512 paths |
| `Index.PlainResourcesIndex.DeleteEach` | app/src/main/java/space/taran/arknavigator/mvp/model/repo/index/PlainResourcesIndex.kt:147-149 | the `forEach` over the chunks issues their calls in order |
| `Index.PlainResourcesIndex.DetectAll` | app/src/main/java/space/taran/arknavigator/mvp/model/repo/index/PlainResourcesIndex.kt:151-171 | returns `Detected(toInsert)`; the maps become `InsertAll(old, toInsert)`; the failure flow gains `FailedPaths(toInsert)`; every detected id names, in `pathById`, the last path detected with it, which holds its detected meta; `pathById` gains no other id and keeps the entries of ids not detected |
| `Index.PlainResourcesIndex.PersistResources` | app/src/main/java/space/taran/arknavigator/mvp/model/repo/index/PlainResourcesIndex.kt:242-265 | the DAO receives the rows and the extras of every entry, in iteration order |
| `Index.PlainResourcesIndex.ProvidePreviews` | app/src/main/java/space/taran/arknavigator/mvp/model/repo/index/PlainResourcesIndex.kt:215-240 | one `generate` call per entry of `metaByPath`, in iteration order |
| `Index.PlainResourcesIndex.Reindex` | app/src/main/java/space/taran/arknavigator/mvp/model/repo/index/PlainResourcesIndex.kt:89-92 | `reindexRoot(calculateDifference())` on a walk of the index's own root: the deleted paths are indexed and distinct; the maps become `Reindexed`; the failure flow, the DAO calls and the preview calls are those of `ReindexRoot` for that difference; from consistent maps they stay consistent except at the updated paths; every newly indexed path lies inside the root; every id detected for an updated or added path resolves through `pathById` to a path whose meta carries it |
| `Loading.FirstOfEach` | app/src/main/java/space/taran/arknavigator/mvp/model/repo/index/PlainResourcesIndex.kt:288-296 | `mapValues { fromRoom(it[0]) }` yields one entry per key |
| `Loading.GroupByPathValid` | app/src/main/java/space/taran/arknavigator/mvp/model/repo/index/PlainResourcesIndex.kt:287 | `groupBy` yields a well-formed insertion-ordered map |
| `Loading.PathsInOrderDistinct` | app/src/main/java/space/taran/arknavigator/mvp/model/repo/index/PlainResourcesIndex.kt:287 | the group keys are distinct |
| `Loading.PathsInOrderCovers` | app/src/main/java/space/taran/arknavigator/mvp/model/repo/index/PlainResourcesIndex.kt:287 | every row's path is a group key |
| `Loading.RowsAtHas` | app/src/main/java/space/taran/arknavigator/mvp/model/repo/index/PlainResourcesIndex.kt:287 | a row belongs to the group of its own path |
| `Loading.GroupNonEmpty` | app/src/main/java/space/taran/arknavigator/mvp/model/repo/index/PlainResourcesIndex.kt:287 | a group key's group is not empty |
| `Loading.GroupsNonEmpty` | app/src/main/java/space/taran/arknavigator/mvp/model/repo/index/PlainResourcesIndex.kt:287-295 | no group is empty, so `resources[0]` is always defined |
| `Loading.DuplicateRowsShareGroup` | app/src/main/java/space/taran/arknavigator/mvp/model/repo/index/PlainResourcesIndex.kt:287-289 | two rows with one path make its group larger than one |
| `Loading.DistinctRowsOrder` | app/src/main/java/space/taran/arknavigator/mvp/model/repo/index/PlainResourcesIndex.kt:287 | without repeated paths the group keys are the row paths, in row order |
| `Loading.DistinctRowsGroup` | app/src/main/java/space/taran/arknavigator/mvp/model/repo/index/PlainResourcesIndex.kt:287 | without repeated paths each group is the single row of its path |
| `Loading.RowsAtNone` | app/src/main/java/space/taran/arknavigator/mvp/model/repo/index/PlainResourcesIndex.kt:287 | a path no row has has an empty group |
| `Loading.NoSeveralRows` | app/src/main/java/space/taran/arknavigator/mvp/model/repo/index/PlainResourcesIndex.kt:288-294 | without repeated paths no group triggers the exception |
| `Loading.LoadResourcesFailsOnDuplicate` | app/src/main/java/space/taran/arknavigator/mvp/model/repo/index/PlainResourcesIndex.kt:284-297 | `loadResources` throws exactly when two rows share a path |
| `Loading.LoadResourcesEntries` | app/src/main/java/space/taran/arknavigator/mvp/model/repo/index/PlainResourcesIndex.kt:284-297 | otherwise it yields one entry per row, in row order, with `fromRoom` of that row; the paths are distinct, as the constructor requires |
| `Loading.FirstOfEachIsEntries` | app/src/main/java/space/taran/arknavigator/mvp/model/repo/index/PlainResourcesIndex.kt:288-296 | without repeated paths `mapValues` over the first k groups equals the reference reading of the first k rows |
| `LinkKindFactory.Lookup` | app/src/main/java/space/taran/arknavigator/mvp/model/repo/kind/LinkKindFactory.kt:25-30 | `extras[tag]` is null exactly when the tag is missing, otherwise the stored value |
| `LinkKindFactory.FromRoom` | app/src/main/java/space/taran/arknavigator/mvp/model/repo/kind/LinkKindFactory.kt:25-30 | total: each field is null exactly when its tag (TITLE, DESCRIPTION, URL) is missing |
| `LinkKindFactory.ToRoom` | app/src/main/java/space/taran/arknavigator/mvp/model/repo/kind/LinkKindFactory.kt:32-39 | writes exactly the tags URL, TITLE and DURATION, and never DESCRIPTION |
| `LinkKindFactory.ToRoomIgnoresId` | app/src/main/java/space/taran/arknavigator/mvp/model/repo/kind/LinkKindFactory.kt:32-39 | the result does not depend on the id argument |
| `LinkKindFactory.Stored` | app/src/main/java/space/taran/arknavigator/mvp/model/repo/kind/LinkKindFactory.kt:32-35 | the nullable values `toRoom` returns are kept exactly where non-null |
| `LinkKindFactory.UrlAndTitleRoundTrip` | app/src/main/java/space/taran/arknavigator/mvp/model/repo/kind/LinkKindFactory.kt:25-39 | url and title survive `toRoom` followed by `fromRoom` |
| `LinkKindFactory.DescriptionLost` | app/src/main/java/space/taran/arknavigator/mvp/model/repo/kind/LinkKindFactory.kt:28-38 | every description reads back as null after `toRoom` followed by `fromRoom` |
| `LinkKindFactory.DescriptionRoundTripFails` | app/src/main/java/space/taran/arknavigator/mvp/model/repo/kind/LinkKindFactory.kt:32-39 | a concrete link that does not survive the round trip |
| `LinkKindFactory.ToRoomCorrected` | app/src/main/java/space/taran/arknavigator/mvp/model/repo/kind/LinkKindFactory.kt:32-39 | the corrected mapping writes exactly URL, TITLE and DESCRIPTION |
| `LinkKindFactory.CorrectedRoundTrip` | app/src/main/java/space/taran/arknavigator/mvp/model/repo/kind/LinkKindFactory.kt:25-39 | with the corrected mapping every link survives the round trip |
| `FilesRepo.ImagesOf` | app/src/main/java/com/taran/imagemanager/mvp/model/repo/FilesRepo.kt:41-48 | at most one entry per file, and all of them images |
| `FilesRepo.FoldersOf` | app/src/main/java/com/taran/imagemanager/mvp/model/repo/FilesRepo.kt:50-56 | at most one entry per file, and all of them folders |
| `FilesRepo.ImagesOfMembership` | app/src/main/java/com/taran/imagemanager/mvp/model/repo/FilesRepo.kt:41-48 | an entry is produced exactly for a listed file whose absolute path ends in ".jpg", ".png" or ".jpeg", with that file's name and absolute path |
| `FilesRepo.FoldersOfMembership` | app/src/main/java/com/taran/imagemanager/mvp/model/repo/FilesRepo.kt:50-56 | an entry is produced exactly for a listed directory, with its name and absolute path |
| `FilesRepo.ImagesOfAppend` | app/src/main/java/com/taran/imagemanager/mvp/model/repo/FilesRepo.kt:41-48 | the image filter distributes over concatenation, so it keeps the listing order |
| `FilesRepo.FoldersOfAppend` | app/src/main/java/com/taran/imagemanager/mvp/model/repo/FilesRepo.kt:50-56 | the folder filter distributes over concatenation, so it keeps the listing order |
| `FilesRepo.UpperCaseExtensionIsNoImage` | app/src/main/java/com/taran/imagemanager/mvp/model/repo/FilesRepo.kt:44 | the suffix test is case-sensitive: "A.JPG" is not an image |
| `FilesRepo.FilterImages` | app/src/main/java/com/taran/imagemanager/mvp/model/repo/FilesRepo.kt:41-48 | a null listing gives the empty list; every entry is an image |
| `FilesRepo.FilterFolders` | app/src/main/java/com/taran/imagemanager/mvp/model/repo/FilesRepo.kt:50-56 | a null listing gives the empty list; every entry is a folder |
| `FilesRepo.GetImagesInFolder` | app/src/main/java/com/taran/imagemanager/mvp/model/repo/FilesRepo.kt:11-16 | only images; empty for a null listing |
| `FilesRepo.GetImagesInFolderContents` | app/src/main/java/com/taran/imagemanager/mvp/model/repo/FilesRepo.kt:11-16 | for a readable listing an entry appears exactly when it is a listed file with an image path, as an image carrying its name and absolute path |
| `FilesRepo.GetFilesInFolder` | app/src/main/java/com/taran/imagemanager/mvp/model/repo/FilesRepo.kt:18-31 | all folders first, then all images; the length is the sum of the two filters; empty for a null listing |
| `FilesRepo.GetFilesInFolderContents` | app/src/main/java/com/taran/imagemanager/mvp/model/repo/FilesRepo.kt:18-31 | for a readable listing an entry appears exactly when it is a listed directory (as a folder) or a listed file with an image path (as an image) |
| `FilesRepo.DirectoryNamedLikeImageListedTwice` | app/src/main/java/com/taran/imagemanager/mvp/model/repo/FilesRepo.kt:18-31 | a directory named "x.jpg" is listed both as a folder and as an image |

## Left out

- Concurrency is not modelled. This covers the `Mutex`, `withLock`, `withContextAndLock`, the dispatchers, `supervisorScope` and `async`/`await`. The index is modelled as sequential. `providePreviews` is modelled as issuing its `generate` calls in launch order. `updateResource` runs without the lock, and that race is not modelled.
- `kindDetectFailedFlow` is modelled as a ghost sequence of the emitted paths.
- A `generate` that fails is caught and logged. The model records the call but not its failure.
- The real filesystem is replaced by a `Snapshot`:
  - `Files.exists` means "is a key of the snapshot's mtimes";
  - `getLastModifiedTime` is an integer number of milliseconds;
  - `listChildren` is a `Dir` tree.
- `FileTime` is an integer number of milliseconds. The model takes `FileTime.toMillis` as the identity.
- A `Path` is a sequence of name elements. `Paths.get`, normalisation and `toString` are not modelled, so `deletePaths` receives paths rather than strings. The same goes for the `mapKeys { Paths.get(it) }` of `loadResources`. Two distinct path strings that parse to one `Path` could merge two groups there, and this is not captured.
- The following collaborators are parameters or recorded calls:
  - `ResourceMeta.fromPath` (a `Detector` parameter);
  - `ResourceMeta.fromRoom` (a `FromRoom` parameter);
  - `GeneralKindFactory.toRoom` (a `KindToRoom` parameter);
  - `Resource.fromMeta` (a row recording its arguments);
  - the Room DAO and the preview storage (classes that record their calls).
  
  Exceptions thrown by the DAO or by the preview storage, which would abort `reindexRoot` part-way, are not modelled.
- `LinkKindFactory.fromPath` is left out. It is a foreign `loadLinkFile` call plus JSON decoding.
- `acceptedExtensions` and `acceptedMimeTypes` are the constants `LinkKindFactory.AcceptedExtensions` (= {"link"}) and `LinkKindFactory.AcceptedMimeTypes` (= {}). They carry no contract.
- The fields of the Image, Video and Document kinds are left out. Only Link's fields take part in the model.
- `FilesRepo.getStorages` is left out. It only wraps the foreign `FileProvider.getStorages`.
- `File(path).listFiles()` becomes an optional listing parameter (`None` for null). `File.name`, `absolutePath` and `isDirectory` become fields.
- Logging and `measureTimeMillis` are left out.
- Sizes and times are unbounded integers, so 64-bit overflow is not modelled.
- Index.PlainResourcesIndex.GetPath: requires the id to be in `pathById`. The interface states that callers only pass ids they hold (`ResourcesIndex.kt:21-22`). The `!!` failure for an unknown id is not modelled.
- Index.PlainResourcesIndex.GetMeta: requires the id to be in `pathById` with a meta at its path, for the same reason. The `!!` failure is not modelled.
- Index.PlainResourcesIndex.Remove: requires the id to be in `pathById`, for the same reason. The `!!` on a null `tryRemove` is not modelled. `TryRemove` does model all four outcomes.
- Index.PlainResourcesIndex.ReindexRoot: requires every deleted path to be indexed and listed once. Otherwise the `metaByPath[it]!!` of the deletion loop throws, and that failure is not modelled. `Reindex` proves that the difference it computes meets this requirement.
- Index.PlainResourcesIndex.ForgetDeleted: carries the same requirement as `ReindexRoot`, for the same reason.
- Index.PlainResourcesIndex.Reindex: requires the snapshot's tree to be the walk of the index's own root, with every listed entry inside the directory that lists it. In the source, `listAllFiles(root)` and `listChildren` guarantee this, and neither is part of this model.
- LinkKindFactory.Stored: is an assumption. It assumes that the entries with null values of `toRoom`'s map are dropped before `fromRoom` reads the extras table. The code that turns that map into extras rows is not part of this model.
- Index.PlainResourcesIndex.TryRemove: requires, like every state-changing method, that the key order of `metaByPath` be well formed. That is an invariant of `LinkedHashMap`, and every method preserves it.

## Findings

| source | as written | input that shows it | evidently intended | confidence | as-written member | corrected member |
|---|---|---|---|---|---|---|
| app/src/main/java/space/taran/arknavigator/mvp/model/repo/kind/LinkKindFactory.kt:38 | `toRoom` stores the link description under `MetaExtraTag.DURATION`, but `fromRoom` reads it from `DESCRIPTION` (line 28) | `Link(title "t", description "d", url "u")` reads back with a null description | store the description under `DESCRIPTION`, so that every link survives `toRoom` followed by `fromRoom` | not executed | `LinkKindFactory.DescriptionRoundTripFails` | `LinkKindFactory.CorrectedRoundTrip` |

The exception message of `loadResources` is built from two literals without a space between them ("…must not haveseveral resources…"). `Loading.SeveralResourcesMessage` reproduces it as written.
