/**
 * PlainResourcesIndex: the in-memory index of one root folder. It keeps metaByPath (a
 * LinkedHashMap from path to metadata) and pathById (one representative path per id), reconciles
 * them with the disk in reindexRoot, and mirrors every change into the DAO and the preview storage.
 */
module Index {
  import opened Wrappers
  import opened Seqs
  import opened Paths
  import opened Resources
  import opened LinkedMaps
  import opened Differences
  import opened Catalogs

  /** The Room DAO, seen through the calls the index makes on it. */
  class ResourceDao {
    ghost var calls: seq<DaoCall>

    constructor()
      ensures calls == []
    {
      calls := [];
    }

    method DeletePaths(paths: seq<Path>)
      modifies this
      ensures calls == old(calls) + [DaoCall.DeletePaths(paths)]
    {
      calls := calls + [DaoCall.DeletePaths(paths)];
    }

    method InsertResources(rows: seq<ResourceRow>)
      modifies this
      ensures calls == old(calls) + [DaoCall.InsertResources(rows)]
    {
      calls := calls + [DaoCall.InsertResources(rows)];
    }

    method InsertExtras(extras: seq<ExtraRow>)
      modifies this
      ensures calls == old(calls) + [DaoCall.InsertExtras(extras)]
    {
      calls := calls + [DaoCall.InsertExtras(extras)];
    }

    method UpdateResource(oldId: ResourceId, newId: ResourceId, modifiedMillis: int, size: int)
      modifies this
      ensures calls == old(calls) + [DaoCall.UpdateResource(oldId, newId, modifiedMillis, size)]
    {
      calls := calls + [DaoCall.UpdateResource(oldId, newId, modifiedMillis, size)];
    }

    method UpdateExtras(oldId: ResourceId, newId: ResourceId)
      modifies this
      ensures calls == old(calls) + [DaoCall.UpdateExtras(oldId, newId)]
    {
      calls := calls + [DaoCall.UpdateExtras(oldId, newId)];
    }
  }

  /** The preview storage, seen through the calls the index makes on it. */
  class PreviewStorage {
    ghost var calls: seq<PreviewCall>

    constructor()
      ensures calls == []
    {
      calls := [];
    }

    method Forget(id: ResourceId)
      modifies this
      ensures calls == old(calls) + [PreviewCall.Forget(id)]
    {
      calls := calls + [PreviewCall.Forget(id)];
    }

    method Generate(path: Path, meta: ResourceMeta)
      modifies this
      ensures calls == old(calls) + [PreviewCall.Generate(path, meta)]
    {
      calls := calls + [PreviewCall.Generate(path, meta)];
    }
  }

  class PlainResourcesIndex {
    const root: Path
    const dao: ResourceDao
    const previewStorage: PreviewStorage
    var metaByPath: LinkedMap<Path, ResourceMeta>
    var pathById: map<ResourceId, Path>
    /** The paths emitted on kindDetectFailedFlow, in emission order. */
    ghost var kindDetectFailed: seq<Path>

    /** The two maps as a value. */
    function State(): Catalog
      reads this
    {
      Catalog(metaByPath, pathById)
    }

    /** The iteration order of metaByPath lists each of its keys once. */
    ghost predicate Valid()
      reads this
    {
      metaByPath.Valid()
    }

    /** Builds both maps from the persisted resources; the two maps start out agreeing. */
    constructor(root: Path, dao: ResourceDao, previewStorage: PreviewStorage, resources: seq<(Path, ResourceMeta)>)
      requires DistinctPaths(resources)
      ensures this.root == root && this.dao == dao && this.previewStorage == previewStorage
      ensures State() == FromEntries(resources) && kindDetectFailed == []
      ensures Valid() && Consistent(State()) && Complete(State())
    {
      this.root := root;
      this.dao := dao;
      this.previewStorage := previewStorage;
      metaByPath := MetasOf(resources);
      pathById := Invert(resources);
      kindDetectFailed := [];
      new;
      FromEntriesSound(resources);
    }

    /** The metas of the indexed paths under `prefix` (all of them when there is none). */
    method ListResources(prefix: Option<Path>) returns (metas: set<ResourceMeta>)
      ensures forall m :: m in metas <==>
        exists p :: p in metaByPath.items && Matches(p, prefix) && metaByPath.items[p] == m
      ensures prefix.None? ==> metas == metaByPath.items.Values
    {
      metas := Catalogs.ListResources(State(), prefix);
    }

    /** The ids of the indexed paths under `prefix`. */
    method ListIds(prefix: Option<Path>) returns (ids: set<ResourceId>)
      ensures forall id :: id in ids <==>
        exists p :: p in metaByPath.items && Matches(p, prefix) && metaByPath.items[p].id == id
      ensures |ids| <= |Catalogs.ListResources(State(), prefix)|
    {
      ids := Catalogs.ListIds(State(), prefix);
      ListIdsBounded(State(), prefix);
    }

    /** The ids of all indexed paths; with agreeing, complete maps these are exactly pathById's keys. */
    method ListAllIds() returns (ids: set<ResourceId>)
      ensures forall id :: id in ids <==> exists p :: p in metaByPath.items && metaByPath.items[p].id == id
      ensures Consistent(State()) && Complete(State()) ==> ids == pathById.Keys
    {
      ids := Catalogs.ListAllIds(State());
      if Consistent(State()) && Complete(State()) {
        ListAllIdsResolvable(State());
      }
    }

    /**
     * contains: the id has a representative path. On agreeing maps that path holds a meta with
     * the id, and on agreeing, complete maps the held ids are exactly the listed ones.
     */
    method Contains(id: ResourceId) returns (b: bool)
      ensures b <==> id in pathById
      ensures Consistent(State()) && b ==> pathById[id] in metaByPath.items && metaByPath.items[pathById[id]].id == id
      ensures Consistent(State()) && Complete(State()) ==> (b <==> id in Catalogs.ListAllIds(State()))
    {
      b := id in pathById;
      if Consistent(State()) && Complete(State()) {
        ListAllIdsResolvable(State());
      }
    }

    method TryGetPath(id: ResourceId) returns (path: Option<Path>)
      ensures path.Some? <==> id in pathById
      ensures path.Some? ==> path.value == pathById[id]
      ensures Consistent(State()) && path.Some? ==>
        path.value in metaByPath.items && metaByPath.items[path.value].id == id
    {
      if id in pathById {
        path := Some(pathById[id]);
      } else {
        path := None;
      }
    }

    method TryGetMeta(id: ResourceId) returns (meta: Option<ResourceMeta>)
      ensures meta.Some? <==> id in pathById && pathById[id] in metaByPath.items
      ensures meta.Some? ==> meta.value == metaByPath.items[pathById[id]]
      ensures Consistent(State()) ==> (meta.Some? <==> id in pathById)
      ensures Consistent(State()) && meta.Some? ==> meta.value.id == id
    {
      var path := TryGetPath(id);
      if path.Some? && path.value in metaByPath.items {
        meta := Some(metaByPath.items[path.value]);
      } else {
        meta := None;
      }
    }

    /** getPath: callers only ask for ids they hold from the index. */
    method GetPath(id: ResourceId) returns (path: Path)
      requires id in pathById
      ensures path == pathById[id]
      ensures Consistent(State()) ==> path in metaByPath.items && metaByPath.items[path].id == id
    {
      var found := TryGetPath(id);
      path := found.value;
    }

    /** getMeta: callers only ask for ids they hold from the index. */
    method GetMeta(id: ResourceId) returns (meta: ResourceMeta)
      requires id in pathById && pathById[id] in metaByPath.items
      ensures meta == metaByPath.items[pathById[id]]
      ensures Consistent(State()) ==> meta.id == id
    {
      var found := TryGetMeta(id);
      meta := found.value;
    }

    /**
     * tryRemove: forgets the representative path of `id` and, when another path still carries
     * `id`, makes the first such path in iteration order the representative.
     */
    method TryRemove(id: ResourceId) returns (r: Removal)
      requires Valid()
      modifies this
      ensures Valid()
      ensures (State(), r) == Catalogs.Remove(old(State()), id)
      ensures kindDetectFailed == old(kindDetectFailed)
    {
      if id !in pathById {
        return NotIndexed;
      }
      var path := pathById[id];
      pathById := pathById - {id};
      if path !in metaByPath.items {
        return NullMeta(path);
      }
      var idRemoved := metaByPath.items[path].id;
      metaByPath := metaByPath.Remove(path);
      if id != idRemoved {
        return Diverged(path);
      }
      var duplicated := FirstWithId(metaByPath.keys, metaByPath.items, idRemoved);
      if duplicated.Some? {
        pathById := pathById[idRemoved := duplicated.value];
      }
      return Removed(path);
    }

    /** remove: tryRemove on an id the caller holds from the index. */
    method Remove(id: ResourceId) returns (r: Removal)
      requires Valid() && id in pathById
      modifies this
      ensures Valid()
      ensures (State(), r) == Catalogs.Remove(old(State()), id)
      ensures r != NotIndexed
      ensures kindDetectFailed == old(kindDetectFailed)
    {
      r := TryRemove(id);
    }

    /**
     * reindexRoot(diff): forgets the deleted paths, deletes deleted ++ updated from the DAO in
     * chunks, detects updated ++ added, persists what was detected and regenerates every preview.
     */
    method ReindexRoot(diff: Difference, detect: Detector, kindToRoom: KindToRoom)
      requires Valid() && DeletedKnown(State(), diff.deleted)
      modifies this, dao, previewStorage
      ensures Valid()
      ensures State() == Reindexed(old(State()), diff, detect)
      ensures kindDetectFailed == old(kindDetectFailed) + FailedPaths(diff.updated + diff.added, detect)
      ensures dao.calls == old(dao.calls) + DeleteCalls(Chunked(diff.deleted + diff.updated, ChunkSize))
                                          + PersistCalls(root, Detected(diff.updated + diff.added, detect), kindToRoom)
      ensures previewStorage.calls == old(previewStorage.calls) + ForgetCalls(old(metaByPath.items), diff.deleted)
                                                             + GenerateCalls(metaByPath, metaByPath.keys)
      ensures forall i, id :: Carries(diff.updated + diff.added, detect, i, id) ==>
        id in pathById && pathById[id] in metaByPath.items && metaByPath.items[pathById[id]].id == id
    {
      ReindexIds(State(), diff, detect);
      ForgetDeleted(diff.deleted);
      assert metaByPath.Valid();
      DeletePathsInChunks(diff.deleted + diff.updated);
      var newResources := DetectAll(diff.updated + diff.added, detect);
      PersistResources(newResources, kindToRoom);
      ProvidePreviews();
    }

    /** The first loop of reindexRoot: drop each deleted path and its id, and forget its preview. */
    method ForgetDeleted(deleted: seq<Path>)
      requires Valid() && DeletedKnown(State(), deleted)
      modifies this, previewStorage
      ensures Valid()
      ensures State() == DropDeleted(old(State()), deleted)
      ensures previewStorage.calls == old(previewStorage.calls) + ForgetCalls(old(metaByPath.items), deleted)
      ensures kindDetectFailed == old(kindDetectFailed)
    {
      ghost var start := State();
      var i := 0;
      while i < |deleted|
        invariant 0 <= i <= |deleted|
        invariant State() == DropDeleted(start, deleted[..i])
        invariant previewStorage.calls == old(previewStorage.calls) + ForgetCalls(start.metaByPath.items, deleted[..i])
        invariant kindDetectFailed == old(kindDetectFailed)
      {
        DropDeletedStep(start, deleted, i);
        assert deleted[..i + 1][..i] == deleted[..i];
        ForgetResource(deleted[i]);
        i := i + 1;
      }
      assert deleted[..i] == deleted;
      DropDeletedEffects(start, deleted);
    }

    /** The body of the deletion loop for one path: drop its id and the path, forget the preview. */
    method ForgetResource(path: Path)
      requires path in metaByPath.items
      modifies this, previewStorage
      ensures State() == Catalog(old(metaByPath).Remove(path), old(pathById) - {old(metaByPath.items[path].id)})
      ensures previewStorage.calls == old(previewStorage.calls) + [Forget(old(metaByPath.items[path].id))]
      ensures kindDetectFailed == old(kindDetectFailed)
    {
      var id := metaByPath.items[path].id;
      pathById := pathById - {id};
      metaByPath := metaByPath.Remove(path);
      previewStorage.Forget(id);
    }

    /** The second step of reindexRoot: deletePaths once per chunk of 512 paths, in order. */
    method DeletePathsInChunks(pathsToDelete: seq<Path>)
      modifies dao
      ensures dao.calls == old(dao.calls) + DeleteCalls(Chunked(pathsToDelete, ChunkSize))
    {
      var chunks := Chunked(pathsToDelete, ChunkSize);
      DeleteEach(chunks);
    }

    /** One deletePaths call per chunk, in order. */
    method DeleteEach(chunks: seq<seq<Path>>)
      modifies dao
      ensures dao.calls == old(dao.calls) + DeleteCalls(chunks)
    {
      var j := 0;
      while j < |chunks|
        invariant 0 <= j <= |chunks|
        invariant dao.calls == old(dao.calls) + DeleteCalls(chunks[..j])
      {
        assert chunks[..j + 1][..j] == chunks[..j];
        dao.DeletePaths(chunks[j]);
        j := j + 1;
      }
      assert chunks[..j] == chunks;
    }

    /**
     * The detection loop of reindexRoot: a detected meta goes into newResources, metaByPath and
     * pathById; a failure is emitted on kindDetectFailedFlow.
     */
    method DetectAll(toInsert: seq<Path>, detect: Detector) returns (newResources: LinkedMap<Path, ResourceMeta>)
      requires Valid()
      modifies this
      ensures Valid()
      ensures newResources == Detected(toInsert, detect)
      ensures State() == InsertAll(old(State()), toInsert, detect)
      ensures kindDetectFailed == old(kindDetectFailed) + FailedPaths(toInsert, detect)
      ensures forall i, id :: Carries(toInsert, detect, i, id) ==>
        id in pathById &&
        exists j :: LastCarrier(toInsert, detect, j, id) && pathById[id] == toInsert[j] &&
                    toInsert[j] in metaByPath.items && metaByPath.items[toInsert[j]] == detect(toInsert[j]).value
      ensures forall id :: id in pathById <==> id in old(pathById) || exists i :: Carries(toInsert, detect, i, id)
      ensures forall id :: id in old(pathById) && (forall i :: !Carries(toInsert, detect, i, id)) ==>
        pathById[id] == old(pathById)[id]
    {
      ghost var start := State();
      newResources := Empty();
      var k := 0;
      while k < |toInsert|
        invariant 0 <= k <= |toInsert|
        invariant newResources == Detected(toInsert[..k], detect)
        invariant State() == InsertAll(start, toInsert[..k], detect)
        invariant kindDetectFailed == old(kindDetectFailed) + FailedPaths(toInsert[..k], detect)
      {
        InsertAllStep(start, toInsert, k, detect);
        var path := toInsert[k];
        match detect(path) {
          case Success(meta) =>
            newResources := newResources.Put(path, meta);
            metaByPath := metaByPath.Put(path, meta);
            pathById := pathById[meta.id := path];
          case Failure(_) =>
            kindDetectFailed := kindDetectFailed + [path];
        }
        k := k + 1;
      }
      assert toInsert[..k] == toInsert;
      InsertAllEffects(start, toInsert, detect);
      InsertAllIds(start, toInsert, detect);
      DetectedEffects(toInsert, detect);
    }

    /** persistResources: one insertResources with a row per entry, then one insertExtras. */
    method PersistResources(resources: LinkedMap<Path, ResourceMeta>, kindToRoom: KindToRoom)
      requires resources.Valid()
      modifies dao
      ensures dao.calls == old(dao.calls) + PersistCalls(root, resources, kindToRoom)
    {
      var roomResources: seq<ResourceRow> := [];
      var roomExtra: seq<ExtraRow> := [];
      var i := 0;
      while i < |resources.keys|
        invariant 0 <= i <= |resources.keys|
        invariant roomResources == RowsOf(root, resources, resources.keys[..i])
        invariant roomExtra == ExtrasOf(resources, resources.keys[..i], kindToRoom)
      {
        var path := resources.keys[i];
        assert resources.keys[..i + 1][..i] == resources.keys[..i];
        var meta := resources.items[path];
        roomResources := roomResources + [ResourceRow(meta, root, path)];
        roomExtra := roomExtra + kindToRoom(meta.id, meta.kind);
        i := i + 1;
      }
      assert resources.keys[..i] == resources.keys;
      dao.InsertResources(roomResources);
      dao.InsertExtras(roomExtra);
    }

    /** providePreviews: one generate call per entry of metaByPath, in iteration order. */
    method ProvidePreviews()
      requires Valid()
      modifies previewStorage
      ensures previewStorage.calls == old(previewStorage.calls) + GenerateCalls(metaByPath, metaByPath.keys)
    {
      var i := 0;
      while i < |metaByPath.keys|
        invariant 0 <= i <= |metaByPath.keys|
        invariant previewStorage.calls == old(previewStorage.calls) + GenerateCalls(metaByPath, metaByPath.keys[..i])
      {
        var path := metaByPath.keys[i];
        assert metaByPath.keys[..i + 1][..i] == metaByPath.keys[..i];
        previewStorage.Generate(path, metaByPath.items[path]);
        i := i + 1;
      }
      assert metaByPath.keys[..i] == metaByPath.keys;
    }

    /**
     * reindex: reindexRoot of the difference between the index and the disk. From agreeing maps
     * it leaves maps that agree except for the representatives of re-detected paths.
     */
    method Reindex(fs: Snapshot, detect: Detector, kindToRoom: KindToRoom)
      requires Valid()
      requires fs.root.path == root && WellFormed(fs.root)
      modifies this, dao, previewStorage
      ensures Valid()
      ensures var diff := CalculateDifference(old(metaByPath.items), old(metaByPath.keys), fs);
        && DeletedKnown(old(State()), diff.deleted)
        && State() == Reindexed(old(State()), diff, detect)
        && kindDetectFailed == old(kindDetectFailed) + FailedPaths(diff.updated + diff.added, detect)
        && dao.calls == old(dao.calls) + DeleteCalls(Chunked(diff.deleted + diff.updated, ChunkSize))
                                       + PersistCalls(root, Detected(diff.updated + diff.added, detect), kindToRoom)
        && previewStorage.calls == old(previewStorage.calls) + ForgetCalls(old(metaByPath.items), diff.deleted)
                                                             + GenerateCalls(metaByPath, metaByPath.keys)
      ensures Consistent(old(State())) ==>
        ConsistentExcept(State(), ToSet(CalculateDifference(old(metaByPath.items), old(metaByPath.keys), fs).updated))
      ensures forall p :: p in metaByPath.items && p !in old(metaByPath.items) ==> StrictlyUnder(p, root)
      ensures var diff := CalculateDifference(old(metaByPath.items), old(metaByPath.keys), fs);
        forall i, id :: Carries(diff.updated + diff.added, detect, i, id) ==>
          id in pathById && pathById[id] in metaByPath.items && metaByPath.items[pathById[id]].id == id
    {
      var diff := CalculateDifference(metaByPath.items, metaByPath.keys, fs);
      if Consistent(State()) {
        ReindexWeakInvariant(State(), fs, detect);
      }
      ReindexStaysUnderRoot(State(), fs, detect);
      ReindexRoot(diff, detect, kindToRoom);
    }

    /**
     * updateResource: installs the new meta at `path`, drops `oldId` and makes `path` the
     * representative of the new id, then updates the resource and its extras in the DAO.
     */
    method UpdateResource(oldId: ResourceId, path: Path, newResource: ResourceMeta)
      requires Valid()
      modifies this, dao
      ensures Valid()
      ensures State() == Update(old(State()), oldId, path, newResource)
      ensures dao.calls == old(dao.calls) + [DaoCall.UpdateResource(oldId, newResource.id, newResource.modified, newResource.size),
                                             DaoCall.UpdateExtras(oldId, newResource.id)]
      ensures kindDetectFailed == old(kindDetectFailed)
      ensures Consistent(old(State())) && (path in old(metaByPath.items) ==> old(metaByPath.items)[path].id == oldId) ==>
        Consistent(State())
    {
      if Consistent(State()) && (path in metaByPath.items ==> metaByPath.items[path].id == oldId) {
        UpdateEffects(State(), oldId, path, newResource);
      }
      metaByPath := metaByPath.Put(path, newResource);
      pathById := pathById - {oldId};
      pathById := pathById[newResource.id := path];
      dao.UpdateResource(oldId, newResource.id, newResource.modified, newResource.size);
      dao.UpdateExtras(oldId, newResource.id);
    }
  }
}
