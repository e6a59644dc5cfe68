/**
 * The state of a PlainResourcesIndex as a value, and each of its operations as a function of
 * that state: the constructor's inversion, the queries, tryRemove, updateResource and the
 * reconciliation of a Difference. The class in index.dfy is proved to follow these functions.
 */
module Catalogs {
  import opened Wrappers
  import opened Seqs
  import opened Paths
  import opened Resources
  import opened LinkedMaps
  import opened Differences

  /** metaByPath (a LinkedHashMap) and pathById, the single representative path per id. */
  datatype Catalog = Catalog(metaByPath: LinkedMap<Path, ResourceMeta>, pathById: map<ResourceId, Path>)

  /** Every (id, p) of pathById has a meta at p carrying id: the maps have not diverged. */
  ghost predicate Consistent(c: Catalog) {
    forall id :: id in c.pathById ==>
      c.pathById[id] in c.metaByPath.items && c.metaByPath.items[c.pathById[id]].id == id
  }

  /** Every id carried by a meta can be resolved through pathById. */
  ghost predicate Complete(c: Catalog) {
    forall p :: p in c.metaByPath.items ==> c.metaByPath.items[p].id in c.pathById
  }

  /**
   * The weaker invariant a reconciliation keeps: every representative path is indexed, and its
   * meta carries the id unless the path is one of `stale`.
   */
  ghost predicate ConsistentExcept(c: Catalog, stale: set<Path>) {
    forall id :: id in c.pathById ==>
      c.pathById[id] in c.metaByPath.items &&
      (c.metaByPath.items[c.pathById[id]].id == id || c.pathById[id] in stale)
  }

  function ToSet<T(!new)>(s: seq<T>): (r: set<T>)
    ensures forall x :: x in r <==> x in s
  {
    set x | x in s
  }

  // ---------------------------------------------------------------------------------------
  // Construction

  /** The paths of the constructor's map are distinct (it is a Map). */
  predicate DistinctPaths(entries: seq<(Path, ResourceMeta)>) {
    forall i, j :: 0 <= i < j < |entries| ==> entries[i].0 != entries[j].0
  }

  /** The paths of the persisted resources. */
  function PathsOf(entries: seq<(Path, ResourceMeta)>): (paths: set<Path>)
    ensures forall i :: 0 <= i < |entries| ==> entries[i].0 in paths
    decreases |entries|
  {
    if entries == [] then {}
    else
      var n := |entries| - 1;
      assert forall i :: 0 <= i < n ==> entries[..n][i] == entries[i];
      PathsOf(entries[..n]) + {entries[n].0}
  }

  /** Every path in PathsOf comes from some entry. */
  lemma {:induction false} PathsOfOnly(entries: seq<(Path, ResourceMeta)>, p: Path)
    ensures p in PathsOf(entries) ==> exists i :: 0 <= i < |entries| && entries[i].0 == p
    decreases |entries|
  {
    var n := |entries| - 1;
    if p in PathsOf(entries) && p != entries[n].0 {
      PathsOfOnly(entries[..n], p);
      var i :| 0 <= i < n && entries[..n][i].0 == p;
      assert entries[i].0 == p;
    }
  }

  /** metaByPath = resources.toMutableMap(), in the map's iteration order. */
  function MetasOf(entries: seq<(Path, ResourceMeta)>): (m: LinkedMap<Path, ResourceMeta>)
    ensures m.Valid()
    ensures m.items.Keys == PathsOf(entries)
    decreases |entries|
  {
    if entries == [] then Empty()
    else
      var n := |entries| - 1;
      MetasOf(entries[..n]).Put(entries[n].0, entries[n].1)
  }

  /** pathById = resources.map { (path, meta) -> meta.id to path }.toMap(): a later entry overwrites. */
  function Invert(entries: seq<(Path, ResourceMeta)>): map<ResourceId, Path>
    decreases |entries|
  {
    if entries == [] then map[]
    else
      var n := |entries| - 1;
      Invert(entries[..n])[entries[n].1.id := entries[n].0]
  }

  /** The state the constructor builds from the persisted resources. */
  function FromEntries(entries: seq<(Path, ResourceMeta)>): Catalog {
    Catalog(MetasOf(entries), Invert(entries))
  }

  /** Each path of the constructor's map holds that entry's meta. */
  lemma {:induction false} MetasOfValues(entries: seq<(Path, ResourceMeta)>)
    requires DistinctPaths(entries)
    ensures forall i :: 0 <= i < |entries| ==> MetasOf(entries).items[entries[i].0] == entries[i].1
    decreases |entries|
  {
    if entries != [] {
      var n := |entries| - 1;
      var init := entries[..n];
      assert DistinctPaths(init);
      MetasOfValues(init);
      var prev := MetasOf(init);
      var m := MetasOf(entries);
      assert m == prev.Put(entries[n].0, entries[n].1);
      forall i | 0 <= i < |entries| ensures m.items[entries[i].0] == entries[i].1 {
        if i < n {
          assert init[i] == entries[i];
          assert entries[i].0 != entries[n].0;
          assert prev.items[init[i].0] == init[i].1;
        }
      }
    }
  }

  /**
   * After construction the two maps agree: pathById holds exactly the ids of the metas, each
   * mapped to a path whose meta carries it.
   */
  lemma {:induction false} FromEntriesSound(entries: seq<(Path, ResourceMeta)>)
    requires DistinctPaths(entries)
    ensures Consistent(FromEntries(entries)) && Complete(FromEntries(entries))
    decreases |entries|
  {
    if entries != [] {
      var n := |entries| - 1;
      var init := entries[..n];
      assert DistinctPaths(init);
      FromEntriesSound(init);
      var prev := FromEntries(init);
      var (p, m) := entries[n];
      PathsOfOnly(init, p);
      assert forall i :: 0 <= i < n ==> init[i].0 != p;
      assert p !in prev.metaByPath.items;
      var c := FromEntries(entries);
      assert c.metaByPath.items == prev.metaByPath.items[p := m];
      assert c.pathById == prev.pathById[m.id := p];
      forall id | id in c.pathById
        ensures c.pathById[id] in c.metaByPath.items && c.metaByPath.items[c.pathById[id]].id == id
      {
        if id != m.id {
          var q := prev.pathById[id];
          assert q in prev.metaByPath.items && q != p;
        }
      }
      forall q | q in c.metaByPath.items ensures c.metaByPath.items[q].id in c.pathById {
        if q != p {
          assert prev.metaByPath.items[q].id in prev.pathById;
        }
      }
    }
  }

  // ---------------------------------------------------------------------------------------
  // Queries

  /** A path is listed under `prefix` (all paths when the prefix is null). */
  predicate Matches(p: Path, prefix: Option<Path>) {
    prefix.None? || StartsWith(p, prefix.value)
  }

  /** listResources(prefix): the metas of the paths under `prefix`, or all metas for null. */
  function ListResources(c: Catalog, prefix: Option<Path>): (r: set<ResourceMeta>)
    ensures forall m :: m in r <==>
      exists p :: p in c.metaByPath.items && Matches(p, prefix) && c.metaByPath.items[p] == m
    ensures prefix.None? ==> r == c.metaByPath.items.Values
  {
    set p | p in c.metaByPath.items && Matches(p, prefix) :: c.metaByPath.items[p]
  }

  /** The ids of a set of metas. */
  function IdsOf(metas: set<ResourceMeta>): (ids: set<ResourceId>)
    ensures forall id :: id in ids <==> exists m :: m in metas && m.id == id
  {
    set m | m in metas :: m.id
  }

  /** listIds(prefix) = listResources(prefix).map { it.id }.toSet(). */
  function ListIds(c: Catalog, prefix: Option<Path>): (ids: set<ResourceId>)
    ensures forall id :: id in ids <==>
      exists p :: p in c.metaByPath.items && Matches(p, prefix) && c.metaByPath.items[p].id == id
  {
    IdsOf(ListResources(c, prefix))
  }

  /** listAllIds() = listIds(null). */
  function ListAllIds(c: Catalog): (ids: set<ResourceId>)
    ensures forall id :: id in ids <==> exists p :: p in c.metaByPath.items && c.metaByPath.items[p].id == id
  {
    ListIds(c, None)
  }

  /** Several metas may share an id, so there are never more ids than metas. */
  lemma {:induction false} IdsOfBounded(metas: set<ResourceMeta>)
    ensures |IdsOf(metas)| <= |metas|
    decreases |metas|
  {
    if metas != {} {
      var m :| m in metas;
      var rest := metas - {m};
      IdsOfBounded(rest);
      assert |metas| == |rest| + 1;
      if m.id in IdsOf(rest) {
        assert IdsOf(metas) == IdsOf(rest);
      } else {
        assert IdsOf(metas) == IdsOf(rest) + {m.id};
      }
    }
  }

  /** listIds returns at most as many ids as listResources returns metas. */
  lemma ListIdsBounded(c: Catalog, prefix: Option<Path>)
    ensures |ListIds(c, prefix)| <= |ListResources(c, prefix)|
  {
    IdsOfBounded(ListResources(c, prefix));
  }

  /** On agreeing maps, listAllIds is exactly the set of resolvable ids. */
  lemma ListAllIdsResolvable(c: Catalog)
    requires Consistent(c) && Complete(c)
    ensures ListAllIds(c) == c.pathById.Keys
  {
    forall id | id in c.pathById ensures id in ListAllIds(c) {
      assert c.metaByPath.items[c.pathById[id]].id == id;
    }
  }

  // ---------------------------------------------------------------------------------------
  // tryRemove

  /** How tryRemove ends: null, the removed path, or the exception it throws after its changes. */
  datatype Removal =
    | NotIndexed            // the id is not in pathById: returns null
    | Removed(path: Path)   // returns the path that was removed
    | NullMeta(path: Path)  // pathById names a path missing from metaByPath: `!!` throws
    | Diverged(path: Path)  // the meta at the path carries another id: AssertionError

  /** entries.find { it.value.id == id }: the first path in iteration order whose meta carries id. */
  function FirstWithId(keys: seq<Path>, items: map<Path, ResourceMeta>, id: ResourceId): (r: Option<Path>)
    ensures r.Some? ==> r.value in keys && r.value in items && items[r.value].id == id
    ensures r.None? ==> forall p :: p in keys && p in items ==> items[p].id != id
    ensures r.Some? ==> exists k :: 0 <= k < |keys| && keys[k] == r.value &&
                                    forall j :: 0 <= j < k ==> !(keys[j] in items && items[keys[j]].id == id)
  {
    if keys == [] then None
    else if keys[0] in items && items[keys[0]].id == id then Some(keys[0])
    else
      var r := FirstWithId(keys[1..], items, id);
      if r.Some? then
        var k :| 0 <= k < |keys[1..]| && keys[1..][k] == r.value &&
          forall j :: 0 <= j < k ==> !(keys[1..][j] in items && items[keys[1..][j]].id == id);
        assert keys[k + 1] == r.value;
        assert forall j :: 0 <= j < k + 1 ==> !(keys[j] in items && items[keys[j]].id == id) by {
          forall j | 0 <= j < k + 1 ensures !(keys[j] in items && items[keys[j]].id == id) {
            if j > 0 { assert keys[j] == keys[1..][j - 1]; }
          }
        }
        r
      else r
  }

  /**
   * tryRemove(id): drops pathById[id], removes that path's meta, and when another path still
   * carries the id, makes the first such path the representative.
   */
  function Remove(c: Catalog, id: ResourceId): (Catalog, Removal) {
    if id !in c.pathById then (c, NotIndexed)
    else
      var path := c.pathById[id];
      var ids := c.pathById - {id};
      if path !in c.metaByPath.items then (Catalog(c.metaByPath, ids), NullMeta(path))
      else
        var idRemoved := c.metaByPath.items[path].id;
        var metas := c.metaByPath.Remove(path);
        if id != idRemoved then (Catalog(metas, ids), Diverged(path))
        else
          match FirstWithId(metas.keys, metas.items, idRemoved)
          case None => (Catalog(metas, ids), Removed(path))
          case Some(duplicate) => (Catalog(metas, ids[idRemoved := duplicate]), Removed(path))
  }

  /** tryRemove on an id that is not indexed returns null and changes nothing. */
  lemma RemoveAbsent(c: Catalog, id: ResourceId)
    requires id !in c.pathById
    ensures Remove(c, id) == (c, NotIndexed)
  {
  }

  /** Every outcome of tryRemove keeps the key order of metaByPath well formed. */
  lemma RemoveKeepsOrder(c: Catalog, id: ResourceId)
    requires c.metaByPath.Valid()
    ensures Remove(c, id).0.metaByPath.Valid()
  {
  }

  /**
   * tryRemove on an indexed id of agreeing maps: returns the representative path, removes its
   * meta, keeps the maps agreeing, keeps the id resolvable exactly when another path carries it
   * (through the first such path), and leaves every other id alone.
   */
  lemma RemovePresent(c: Catalog, id: ResourceId)
    requires c.metaByPath.Valid() && Consistent(c)
    requires id in c.pathById
    ensures var (r, out) := Remove(c, id);
      var path := c.pathById[id];
      && out == Removed(path)
      && r.metaByPath.items == c.metaByPath.items - {path}
      && r.metaByPath.Valid()
      && Consistent(r)
      && (Complete(c) ==> Complete(r))
      && (id in r.pathById <==> exists q :: q in r.metaByPath.items && r.metaByPath.items[q].id == id)
      && (id in r.pathById ==> r.pathById[id] == FirstWithId(r.metaByPath.keys, r.metaByPath.items, id).value)
      && (forall other :: other != id ==>
            (other in r.pathById <==> other in c.pathById) &&
            (other in r.pathById ==> r.pathById[other] == c.pathById[other]))
  {
    var path := c.pathById[id];
    var ids := c.pathById - {id};
    var metas := c.metaByPath.Remove(path);
    var dup := FirstWithId(metas.keys, metas.items, id);
    var r := if dup.Some? then Catalog(metas, ids[id := dup.value]) else Catalog(metas, ids);
    assert Remove(c, id) == (r, Removed(path));
    forall other | other in r.pathById
      ensures r.pathById[other] in r.metaByPath.items && r.metaByPath.items[r.pathById[other]].id == other
    {
      if other != id {
        assert c.pathById[other] != path;
      }
    }
    if exists q :: q in r.metaByPath.items && r.metaByPath.items[q].id == id {
      var q :| q in r.metaByPath.items && r.metaByPath.items[q].id == id;
      assert q in metas.keys;
    }
  }

  /** remove(id) then listAllIds(): the id is still listed exactly when another path carries it. */
  lemma RemoveThenListAllIds(c: Catalog, id: ResourceId)
    requires c.metaByPath.Valid() && Consistent(c) && Complete(c)
    requires id in c.pathById
    ensures var r := Remove(c, id).0;
      id in ListAllIds(r) <==> exists q :: q in c.metaByPath.items && q != c.pathById[id] && c.metaByPath.items[q].id == id
  {
    RemovePresent(c, id);
    var r := Remove(c, id).0;
    RemovePresent(c, id);
    ListAllIdsResolvable(r);
  }

  // ---------------------------------------------------------------------------------------
  // updateResource

  /** updateResource(oldId, path, newResource): new meta at the path, old id dropped, new id to the path. */
  function Update(c: Catalog, oldId: ResourceId, path: Path, newResource: ResourceMeta): Catalog {
    Catalog(c.metaByPath.Put(path, newResource), (c.pathById - {oldId})[newResource.id := path])
  }

  /**
   * Whatever ids it is called with, updateResource installs the new meta at the path, makes the
   * path the representative of the new id and drops a differing old id; every other path keeps
   * its meta and every other id its path.
   */
  lemma UpdateInstalls(c: Catalog, oldId: ResourceId, path: Path, newResource: ResourceMeta)
    requires c.metaByPath.Valid()
    ensures var r := Update(c, oldId, path, newResource);
      && r.metaByPath.Valid()
      && r.metaByPath.items.Keys == c.metaByPath.items.Keys + {path}
      && r.metaByPath.items[path] == newResource
      && r.pathById[newResource.id] == path
      && (newResource.id != oldId ==> oldId !in r.pathById)
      && (forall q :: q in c.metaByPath.items && q != path ==> r.metaByPath.items[q] == c.metaByPath.items[q])
      && (forall id :: id in c.pathById && id != oldId && id != newResource.id ==> id in r.pathById && r.pathById[id] == c.pathById[id])
  {
  }

  /**
   * updateResource, called with the id the path currently carries, keeps the maps agreeing,
   * installs the new meta and id, and no longer resolves the old id when it differs. The maps
   * stay complete when no other path carries the old id.
   */
  lemma UpdateEffects(c: Catalog, oldId: ResourceId, path: Path, newResource: ResourceMeta)
    requires c.metaByPath.Valid() && Consistent(c)
    requires path in c.metaByPath.items ==> c.metaByPath.items[path].id == oldId
    ensures var r := Update(c, oldId, path, newResource);
      && r.metaByPath.Valid()
      && Consistent(r)
      && r.metaByPath.items[path] == newResource
      && r.pathById[newResource.id] == path
      && (newResource.id != oldId ==> oldId !in r.pathById)
      && ((Complete(c) && forall q :: q in c.metaByPath.items && q != path ==> c.metaByPath.items[q].id != oldId)
          ==> Complete(r))
  {
    var r := Update(c, oldId, path, newResource);
    forall id | id in r.pathById
      ensures r.pathById[id] in r.metaByPath.items && r.metaByPath.items[r.pathById[id]].id == id
    {
      if id != newResource.id {
        assert id != oldId && r.pathById[id] == c.pathById[id];
        assert c.pathById[id] != path;
      }
    }
  }

  /** Called with an id the path does not carry, updateResource leaves pathById pointing at a foreign meta. */
  lemma UpdateWithForeignOldIdDiverges()
    ensures var a, b, x := ResourceId(1), ResourceId(2), ResourceId(3);
      var p: Path := ["r", "p"];
      var m := ResourceMeta(a, Kinds.Image, 1, 1);
      var c := FromEntries([(p, m)]);
      !Consistent(Update(c, x, p, ResourceMeta(b, Kinds.Image, 1, 2)))
  {
    var a, b, x := ResourceId(1), ResourceId(2), ResourceId(3);
    var p: Path := ["r", "p"];
    var m := ResourceMeta(a, Kinds.Image, 1, 1);
    var c := FromEntries([(p, m)]);
    assert [(p, m)][..0] == [];
    var r := Update(c, x, p, ResourceMeta(b, Kinds.Image, 1, 2));
    assert a in r.pathById && r.pathById[a] == p && r.metaByPath.items[p].id == b;
  }

  // ---------------------------------------------------------------------------------------
  // reindexRoot

  /** The deleted list reindexRoot is given: known paths (else `!!` throws), each listed once. */
  predicate DeletedKnown(c: Catalog, deleted: seq<Path>) {
    Distinct(deleted) && Indexed(c, deleted)
  }

  /** Every one of `paths` is a key of metaByPath. */
  predicate Indexed(c: Catalog, paths: seq<Path>) {
    forall p :: p in paths ==> p in c.metaByPath.items
  }

  /** The ids the metas at `paths` carry. */
  function IdsAt(items: map<Path, ResourceMeta>, paths: seq<Path>): (ids: set<ResourceId>)
    requires forall p :: p in paths ==> p in items
    ensures forall i :: 0 <= i < |paths| ==> items[paths[i]].id in ids
    decreases |paths|
  {
    if paths == [] then {}
    else
      var n := |paths| - 1;
      IdsAt(items, paths[..n]) + {items[paths[n]].id}
  }

  /**
   * The first loop of reindexRoot: for each deleted path, drop the id its meta carries from
   * pathById (without promoting a duplicate) and the path from metaByPath.
   */
  function DropDeleted(c: Catalog, deleted: seq<Path>): Catalog
    requires Indexed(c, deleted)
    decreases |deleted|
  {
    if deleted == [] then c
    else
      var n := |deleted| - 1;
      var p := deleted[n];
      assert Indexed(c, deleted[..n]);
      var prev := DropDeleted(c, deleted[..n]);
      // p is not among the earlier deletions, so its meta is still the one in c
      var id := c.metaByPath.items[p].id;
      Catalog(prev.metaByPath.Remove(p), prev.pathById - {id})
  }

  /**
   * The deletion loop removes exactly the deleted paths from metaByPath (keeping the order of the
   * others) and exactly the ids their metas carried from pathById.
   */
  lemma DropDeletedEffects(c: Catalog, deleted: seq<Path>)
    requires Indexed(c, deleted)
    ensures var r := DropDeleted(c, deleted);
      && r.metaByPath.items == c.metaByPath.items - ToSet(deleted)
      && r.metaByPath.keys == Without(c.metaByPath.keys, ToSet(deleted))
      && r.pathById == c.pathById - IdsAt(c.metaByPath.items, deleted)
      && (c.metaByPath.Valid() ==> r.metaByPath.Valid())
  {
    DropDeletedMetas(c, deleted);
    DropDeletedIds(c, deleted);
  }

  /** The metaByPath part of DropDeletedEffects. */
  lemma DropDeletedMetas(c: Catalog, deleted: seq<Path>)
    requires Indexed(c, deleted)
    ensures var r := DropDeleted(c, deleted);
      && r.metaByPath.items == c.metaByPath.items - ToSet(deleted)
      && r.metaByPath.keys == Without(c.metaByPath.keys, ToSet(deleted))
      && (c.metaByPath.Valid() ==> r.metaByPath.Valid())
  {
    DropDeletedItems(c, deleted);
    var items := DropDeleted(c, deleted).metaByPath.items;
    assert items == c.metaByPath.items - ToSet(deleted);
    DropDeletedKeys(c, deleted);
    if c.metaByPath.Valid() {
      WithoutDistinct(c.metaByPath.keys, ToSet(deleted));
    }
  }

  /** Deleting drops exactly the deleted paths from the entries and leaves the other entries alone. */
  lemma {:induction false} DropDeletedItems(c: Catalog, deleted: seq<Path>)
    requires Indexed(c, deleted)
    ensures var items := DropDeleted(c, deleted).metaByPath.items;
      && (forall p :: p in items <==> p in c.metaByPath.items && p !in deleted)
      && (forall p :: p in items ==> items[p] == c.metaByPath.items[p])
    decreases |deleted|
  {
    if deleted != [] {
      var n := |deleted| - 1;
      assert Indexed(c, deleted[..n]);
      DropDeletedItems(c, deleted[..n]);
      assert deleted == deleted[..n] + [deleted[n]];
    }
  }

  /** Deleting drops exactly the deleted paths from the iteration order, keeping the others' order. */
  lemma {:induction false} DropDeletedKeys(c: Catalog, deleted: seq<Path>)
    requires Indexed(c, deleted)
    ensures DropDeleted(c, deleted).metaByPath.keys == Without(c.metaByPath.keys, ToSet(deleted))
    decreases |deleted|
  {
    if deleted == [] {
      WithoutNothing(c.metaByPath.keys);
      assert ToSet(deleted) == {};
    } else {
      var n := |deleted| - 1;
      var p := deleted[n];
      assert Indexed(c, deleted[..n]);
      DropDeletedKeys(c, deleted[..n]);
      assert deleted == deleted[..n] + [p];
      assert ToSet(deleted) == ToSet(deleted[..n]) + {p};
      WithoutWithout(c.metaByPath.keys, ToSet(deleted[..n]), {p});
    }
  }

  /** The pathById part of DropDeletedEffects. */
  lemma {:induction false} DropDeletedIds(c: Catalog, deleted: seq<Path>)
    requires Indexed(c, deleted)
    ensures DropDeleted(c, deleted).pathById == c.pathById - IdsAt(c.metaByPath.items, deleted)
    decreases |deleted|
  {
    if deleted == [] {
      assert IdsAt(c.metaByPath.items, deleted) == {};
    } else {
      var n := |deleted| - 1;
      var p := deleted[n];
      assert Indexed(c, deleted[..n]);
      DropDeletedIds(c, deleted[..n]);
      assert deleted == deleted[..n] + [p];
    }
  }

  /** The forget calls of the first loop, one per deleted path, in order. */
  function ForgetCalls(items: map<Path, ResourceMeta>, deleted: seq<Path>): (calls: seq<PreviewCall>)
    requires forall p :: p in deleted ==> p in items
    ensures |calls| == |deleted|
    ensures forall i :: 0 <= i < |deleted| ==> calls[i] == Forget(items[deleted[i]].id)
    decreases |deleted|
  {
    if deleted == [] then []
    else
      var n := |deleted| - 1;
      ForgetCalls(items, deleted[..n]) + [Forget(items[deleted[n]].id)]
  }

  /** One deletePaths call per chunk, in order. */
  function DeleteCalls(chunks: seq<seq<Path>>): (calls: seq<DaoCall>)
    ensures |calls| == |chunks|
    ensures forall i :: 0 <= i < |chunks| ==> calls[i] == DeletePaths(chunks[i])
    decreases |chunks|
  {
    if chunks == [] then []
    else
      var n := |chunks| - 1;
      DeleteCalls(chunks[..n]) + [DeletePaths(chunks[n])]
  }

  /** Kind detection of a path (ResourceMeta.fromPath), left abstract. */
  type Detector = Path -> Result<ResourceMeta, string>

  /** newResources after detecting `paths` in order: every success, put in order. */
  function Detected(paths: seq<Path>, detect: Detector): (e: LinkedMap<Path, ResourceMeta>)
    ensures e.Valid()
    decreases |paths|
  {
    if paths == [] then Empty()
    else
      var n := |paths| - 1;
      var prev := Detected(paths[..n], detect);
      match detect(paths[n])
      case Failure(_) => prev
      case Success(m) => prev.Put(paths[n], m)
  }

  /** newResources holds exactly the paths whose detection succeeded, each with its detected meta. */
  lemma {:induction false} DetectedEffects(paths: seq<Path>, detect: Detector)
    ensures var e := Detected(paths, detect);
      && (forall p :: p in e.items <==> p in paths && detect(p).Success?)
      && (forall p :: p in e.items ==> e.items[p] == detect(p).value)
    decreases |paths|
  {
    if paths != [] {
      var n := |paths| - 1;
      DetectedEffects(paths[..n], detect);
      assert paths == paths[..n] + [paths[n]];
    }
  }

  /**
   * The detection loop of reindexRoot: each success is stored in metaByPath and pathById;
   * a failure changes neither map.
   */
  function InsertAll(c: Catalog, paths: seq<Path>, detect: Detector): Catalog
    decreases |paths|
  {
    if paths == [] then c
    else
      var n := |paths| - 1;
      var prev := InsertAll(c, paths[..n], detect);
      match detect(paths[n])
      case Failure(_) => prev
      case Success(m) => Catalog(prev.metaByPath.Put(paths[n], m), prev.pathById[m.id := paths[n]])
  }

  /** The detection loop overwrites metaByPath with newResources and keeps its order well formed. */
  lemma {:induction false} InsertAllEffects(c: Catalog, paths: seq<Path>, detect: Detector)
    ensures var r := InsertAll(c, paths, detect);
      && r.metaByPath.items == c.metaByPath.items + Detected(paths, detect).items
      && (c.metaByPath.Valid() ==> r.metaByPath.Valid())
    decreases |paths|
  {
    if paths != [] {
      var n := |paths| - 1;
      InsertAllEffects(c, paths[..n], detect);
      match detect(paths[n]) {
        case Failure(_) =>
        case Success(m) =>
          assert Detected(paths, detect) == Detected(paths[..n], detect).Put(paths[n], m);
          UnionUpdate(c.metaByPath.items, Detected(paths[..n], detect).items, paths[n], m);
      }
    }
  }

  /** The `j`-th of `paths` is detected with a meta carrying `id`. */
  predicate Carries(paths: seq<Path>, detect: Detector, j: int, id: ResourceId) {
    0 <= j < |paths| && detect(paths[j]).Success? && detect(paths[j]).value.id == id
  }

  /** The `j`-th of `paths` is the last one detected with a meta carrying `id`. */
  predicate LastCarrier(paths: seq<Path>, detect: Detector, j: int, id: ResourceId) {
    Carries(paths, detect, j, id) && forall k :: j < k < |paths| ==> !Carries(paths, detect, k, id)
  }

  /** The first `n` of `paths` carry an id exactly where `paths` does below `n`. */
  lemma CarriesPrefix(paths: seq<Path>, detect: Detector, n: nat)
    requires n <= |paths|
    ensures forall j, id :: Carries(paths[..n], detect, j, id) <==> j < n && Carries(paths, detect, j, id)
  {
  }

  /**
   * The pathById half of the detection loop: every detected id is in pathById and names the last
   * of `paths` detected with it; pathById gains no other id, and an id that no path is detected
   * with keeps its entry.
   */
  lemma {:induction false} InsertAllIds(c: Catalog, paths: seq<Path>, detect: Detector)
    ensures var r := InsertAll(c, paths, detect);
      && (forall i, id :: Carries(paths, detect, i, id) ==>
            id in r.pathById && exists j :: LastCarrier(paths, detect, j, id) && r.pathById[id] == paths[j])
      && (forall id :: id in r.pathById <==> id in c.pathById || exists i :: Carries(paths, detect, i, id))
      && (forall id :: id in c.pathById && (forall i :: !Carries(paths, detect, i, id)) ==>
            r.pathById[id] == c.pathById[id])
    decreases |paths|
  {
    if paths != [] {
      var n := |paths| - 1;
      var init := paths[..n];
      InsertAllIds(c, init, detect);
      CarriesPrefix(paths, detect, n);
      var prev := InsertAll(c, init, detect);
      var r := InsertAll(c, paths, detect);
      forall i, id | Carries(paths, detect, i, id)
        ensures id in r.pathById && exists j :: LastCarrier(paths, detect, j, id) && r.pathById[id] == paths[j]
      {
        if Carries(paths, detect, n, id) {
          assert LastCarrier(paths, detect, n, id);
        } else {
          assert Carries(init, detect, i, id);
          var j :| LastCarrier(init, detect, j, id) && prev.pathById[id] == init[j];
          assert LastCarrier(paths, detect, j, id);
        }
      }
      forall id ensures id in r.pathById <==> id in c.pathById || exists i :: Carries(paths, detect, i, id) {
        if Carries(paths, detect, n, id) {
          assert id in r.pathById;
        } else if exists i :: Carries(paths, detect, i, id) {
          var i :| Carries(paths, detect, i, id);
          assert Carries(init, detect, i, id);
        } else {
          assert forall i :: !Carries(init, detect, i, id);
        }
      }
      forall id | id in c.pathById && (forall i :: !Carries(paths, detect, i, id))
        ensures r.pathById[id] == c.pathById[id]
      {
        assert !Carries(paths, detect, n, id);
        assert forall i :: !Carries(init, detect, i, id);
      }
    }
  }

  /** Updating a union updates its right operand. */
  lemma UnionUpdate<K, V>(a: map<K, V>, b: map<K, V>, k: K, v: V)
    ensures (a + b)[k := v] == a + b[k := v]
  {
  }

  /** The paths whose detection failed, in order: what the failure flow emits. */
  function FailedPaths(paths: seq<Path>, detect: Detector): seq<Path>
    decreases |paths|
  {
    if paths == [] then []
    else
      var n := |paths| - 1;
      FailedPaths(paths[..n], detect) + (if detect(paths[n]).Failure? then [paths[n]] else [])
  }

  /** The failure flow emits exactly the paths whose detection failed, in their order. */
  lemma {:induction false} FailedPathsAreFailures(paths: seq<Path>, detect: Detector)
    ensures FailedPaths(paths, detect) == Filter(paths, p => detect(p).Failure?)
    decreases |paths|
  {
    if paths != [] {
      var n := |paths| - 1;
      FailedPathsAreFailures(paths[..n], detect);
      assert paths == paths[..n] + [paths[n]];
      FilterAppend(paths[..n], [paths[n]], p => detect(p).Failure?);
      assert [paths[n]][1..] == [];
    }
  }

  /** The state reindexRoot(diff) leaves: deletions first, then the detections of updated ++ added. */
  function Reindexed(c: Catalog, diff: Difference, detect: Detector): Catalog
    requires DeletedKnown(c, diff.deleted)
  {
    InsertAll(DropDeleted(c, diff.deleted), diff.updated + diff.added, detect)
  }

  /** One more iteration of the deletion loop: drop the next path and the id its meta carries. */
  lemma DropDeletedStep(c: Catalog, deleted: seq<Path>, i: nat)
    requires DeletedKnown(c, deleted) && i < |deleted|
    ensures Indexed(c, deleted[..i]) && Indexed(c, deleted[..i + 1])
    ensures var prev := DropDeleted(c, deleted[..i]);
      && deleted[i] in prev.metaByPath.items
      && prev.metaByPath.items[deleted[i]] == c.metaByPath.items[deleted[i]]
      && DropDeleted(c, deleted[..i + 1]) ==
         Catalog(prev.metaByPath.Remove(deleted[i]), prev.pathById - {prev.metaByPath.items[deleted[i]].id})
  {
    var init := deleted[..i + 1];
    assert init[..i] == deleted[..i];
    assert deleted[i] !in deleted[..i];
    assert Indexed(c, deleted[..i]);
    DropDeletedItems(c, deleted[..i]);
  }

  /** One more iteration of the detection loop: a success is put into both maps, a failure changes nothing. */
  lemma InsertAllStep(c: Catalog, paths: seq<Path>, k: nat, detect: Detector)
    requires k < |paths|
    ensures var prev := InsertAll(c, paths[..k], detect);
      InsertAll(c, paths[..k + 1], detect) ==
        match detect(paths[k])
        case Failure(_) => prev
        case Success(m) => Catalog(prev.metaByPath.Put(paths[k], m), prev.pathById[m.id := paths[k]])
    ensures Detected(paths[..k + 1], detect) ==
        match detect(paths[k])
        case Failure(_) => Detected(paths[..k], detect)
        case Success(m) => Detected(paths[..k], detect).Put(paths[k], m)
    ensures FailedPaths(paths[..k + 1], detect) ==
      FailedPaths(paths[..k], detect) + (if detect(paths[k]).Failure? then [paths[k]] else [])
  {
    var init := paths[..k + 1];
    assert init[..k] == paths[..k];
  }

  /** The resource rows persistResources builds for the keys `keys` of newResources, in order. */
  function RowsOf(root: Path, e: LinkedMap<Path, ResourceMeta>, keys: seq<Path>): (rows: seq<ResourceRow>)
    requires forall p :: p in keys ==> p in e.items
    ensures |rows| == |keys|
    ensures forall i :: 0 <= i < |keys| ==> rows[i] == ResourceRow(e.items[keys[i]], root, keys[i])
    decreases |keys|
  {
    if keys == [] then []
    else
      var n := |keys| - 1;
      RowsOf(root, e, keys[..n]) + [ResourceRow(e.items[keys[n]], root, keys[n])]
  }

  /** The general kind factory's toRoom, left abstract. */
  type KindToRoom = (ResourceId, Kinds.ResourceKind) -> seq<ExtraRow>

  /** The extras rows persistResources collects for the keys `keys`, in order. */
  function ExtrasOf(e: LinkedMap<Path, ResourceMeta>, keys: seq<Path>, kindToRoom: KindToRoom): (extras: seq<ExtraRow>)
    requires forall p :: p in keys ==> p in e.items
    ensures forall i :: 0 <= i < |keys| ==>
      forall x :: x in kindToRoom(e.items[keys[i]].id, e.items[keys[i]].kind) ==> x in extras
    ensures forall x :: x in extras ==>
      exists i :: 0 <= i < |keys| && x in kindToRoom(e.items[keys[i]].id, e.items[keys[i]].kind)
    decreases |keys|
  {
    if keys == [] then []
    else
      var n := |keys| - 1;
      var prev := ExtrasOf(e, keys[..n], kindToRoom);
      assert forall i :: 0 <= i < n ==> keys[..n][i] == keys[i];
      prev + kindToRoom(e.items[keys[n]].id, e.items[keys[n]].kind)
  }

  /** The two DAO writes of persistResources(newResources). */
  function PersistCalls(root: Path, e: LinkedMap<Path, ResourceMeta>, kindToRoom: KindToRoom): (calls: seq<DaoCall>)
    requires e.Valid()
    ensures |calls| == 2 && calls[0].InsertResources? && calls[1].InsertExtras?
  {
    [InsertResources(RowsOf(root, e, e.keys)), InsertExtras(ExtrasOf(e, e.keys, kindToRoom))]
  }

  /** The generate calls of providePreviews, one per entry in iteration order. */
  function GenerateCalls(e: LinkedMap<Path, ResourceMeta>, keys: seq<Path>): (calls: seq<PreviewCall>)
    requires forall p :: p in keys ==> p in e.items
    ensures |calls| == |keys|
    ensures forall i :: 0 <= i < |keys| ==> calls[i] == Generate(keys[i], e.items[keys[i]])
    decreases |keys|
  {
    if keys == [] then []
    else
      var n := |keys| - 1;
      GenerateCalls(e, keys[..n]) + [Generate(keys[n], e.items[keys[n]])]
  }

  /** Deleting paths from agreeing maps keeps them agreeing (but not complete). */
  lemma DropDeletedConsistent(c: Catalog, deleted: seq<Path>)
    requires DeletedKnown(c, deleted) && Consistent(c)
    ensures Consistent(DropDeleted(c, deleted))
  {
    var r := DropDeleted(c, deleted);
    DropDeletedEffects(c, deleted);
    forall id | id in r.pathById
      ensures r.pathById[id] in r.metaByPath.items && r.metaByPath.items[r.pathById[id]].id == id
    {
      var q := c.pathById[id];
    }
  }

  /**
   * The detection loop keeps the weak invariant for `stale` as long as it only re-detects
   * paths of `stale` or paths that were not indexed.
   */
  lemma {:induction false} InsertAllConsistentExcept(c: Catalog, paths: seq<Path>, detect: Detector, stale: set<Path>)
    requires ConsistentExcept(c, stale)
    requires forall p :: p in paths ==> p in stale || p !in c.metaByPath.items
    ensures ConsistentExcept(InsertAll(c, paths, detect), stale)
    decreases |paths|
  {
    if paths != [] {
      var n := |paths| - 1;
      var p := paths[n];
      InsertAllConsistentExcept(c, paths[..n], detect, stale);
      InsertAllEffects(c, paths[..n], detect);
      DetectedEffects(paths[..n], detect);
      var prev := InsertAll(c, paths[..n], detect);
      if detect(p).Success? {
        var m := detect(p).value;
        var r := InsertAll(c, paths, detect);
        assert r == Catalog(prev.metaByPath.Put(p, m), prev.pathById[m.id := p]);
      }
    }
  }

  /**
   * reindexRoot from agreeing maps, with the Difference calculated from them: the key order stays
   * well formed and every pathById entry is indexed and agrees with its meta, except that an
   * updated path may still be the representative of the id it carried before.
   */
  lemma ReindexWeakInvariant(c: Catalog, fs: Snapshot, detect: Detector)
    requires c.metaByPath.Valid() && Consistent(c)
    ensures var diff := CalculateDifference(c.metaByPath.items, c.metaByPath.keys, fs);
      DeletedKnown(c, diff.deleted) &&
      var r := Reindexed(c, diff, detect);
      r.metaByPath.Valid() && ConsistentExcept(r, ToSet(diff.updated))
  {
    var diff := CalculateDifference(c.metaByPath.items, c.metaByPath.keys, fs);
    var dropped := DropDeleted(c, diff.deleted);
    DropDeletedEffects(c, diff.deleted);
    DropDeletedConsistent(c, diff.deleted);
    InsertAllEffects(dropped, diff.updated + diff.added, detect);
    InsertAllConsistentExcept(dropped, diff.updated + diff.added, detect, ToSet(diff.updated));
  }

  /**
   * After reindexRoot, the indexed paths are the known paths that still exist plus the walked
   * new files whose kind was detected; a re-detected path holds its new meta, every other
   * surviving path keeps its old one (also an updated path whose detection failed).
   */
  lemma ReindexConvergence(c: Catalog, fs: Snapshot, detect: Detector)
    requires c.metaByPath.Valid()
    ensures var diff := CalculateDifference(c.metaByPath.items, c.metaByPath.keys, fs);
      DeletedKnown(c, diff.deleted) &&
      var r := Reindexed(c, diff, detect);
      && (forall p :: p in r.metaByPath.items <==>
            (p in c.metaByPath.items && p in fs.mtimes) ||
            (p in ListAllFiles(fs.root) && p !in c.metaByPath.items && detect(p).Success?))
      && (forall p :: p in r.metaByPath.items ==>
            r.metaByPath.items[p] ==
              if (p in diff.updated || p in diff.added) && detect(p).Success? then detect(p).value
              else c.metaByPath.items[p])
  {
    var diff := CalculateDifference(c.metaByPath.items, c.metaByPath.keys, fs);
    DropDeletedEffects(c, diff.deleted);
    InsertAllEffects(DropDeleted(c, diff.deleted), diff.updated + diff.added, detect);
    DetectedEffects(diff.updated + diff.added, detect);
  }

  /**
   * The pathById half of reindexRoot: every id detected for an updated or added path resolves to
   * the last such path carrying it, which holds its detected meta; the other ids are those of
   * pathById whose meta was not deleted, each keeping its path.
   */
  lemma ReindexIds(c: Catalog, diff: Difference, detect: Detector)
    requires DeletedKnown(c, diff.deleted)
    ensures var paths := diff.updated + diff.added;
      var gone := IdsAt(c.metaByPath.items, diff.deleted);
      var r := Reindexed(c, diff, detect);
      && (forall i, id :: Carries(paths, detect, i, id) ==>
            id in r.pathById &&
            exists j :: LastCarrier(paths, detect, j, id) && r.pathById[id] == paths[j] &&
                        paths[j] in r.metaByPath.items && r.metaByPath.items[paths[j]] == detect(paths[j]).value)
      && (forall id :: id in r.pathById <==>
            (id in c.pathById && id !in gone) || exists i :: Carries(paths, detect, i, id))
      && (forall id :: id in c.pathById && id !in gone && (forall i :: !Carries(paths, detect, i, id)) ==>
            r.pathById[id] == c.pathById[id])
  {
    var paths := diff.updated + diff.added;
    var dropped := DropDeleted(c, diff.deleted);
    DropDeletedEffects(c, diff.deleted);
    InsertAllIds(dropped, paths, detect);
    InsertAllEffects(dropped, paths, detect);
    DetectedEffects(paths, detect);
  }

  /**
   * Reconciling against a well-formed walk of the root only brings in paths inside the root, so
   * an index whose paths all lie inside the root keeps that property.
   */
  lemma ReindexStaysUnderRoot(c: Catalog, fs: Snapshot, detect: Detector)
    requires c.metaByPath.Valid() && WellFormed(fs.root)
    ensures var diff := CalculateDifference(c.metaByPath.items, c.metaByPath.keys, fs);
      DeletedKnown(c, diff.deleted) &&
      var r := Reindexed(c, diff, detect);
      && (forall p :: p in r.metaByPath.items && p !in c.metaByPath.items ==> StrictlyUnder(p, fs.root.path))
      && ((forall p :: p in c.metaByPath.items ==> StrictlyUnder(p, fs.root.path)) ==>
            forall p :: p in r.metaByPath.items ==> StrictlyUnder(p, fs.root.path))
  {
    ReindexConvergence(c, fs, detect);
    ListAllFilesUnderRoot(fs.root);
  }

  /**
   * A modified file whose kind can no longer be detected keeps its old meta in memory, while its
   * row is among the paths deleted from the DAO: memory and the database disagree about it.
   */
  lemma UndetectableUpdateKeepsStaleMeta(c: Catalog, fs: Snapshot, detect: Detector, p: Path)
    requires c.metaByPath.Valid()
    requires p in c.metaByPath.items && p in fs.mtimes && fs.mtimes[p] > c.metaByPath.items[p].modified
    requires detect(p).Failure?
    ensures var diff := CalculateDifference(c.metaByPath.items, c.metaByPath.keys, fs);
      && p in Flatten(Chunked(diff.deleted + diff.updated, ChunkSize))
      && DeletedKnown(c, diff.deleted)
      && var r := Reindexed(c, diff, detect);
      && p in r.metaByPath.items && r.metaByPath.items[p] == c.metaByPath.items[p]
  {
    ReindexConvergence(c, fs, detect);
  }

  /**
   * When every walked file exists, detection records the disk's modification time and every
   * updated or added file can be detected, a reconciliation settles: the next calculateDifference
   * without disk changes finds nothing deleted, updated or added.
   */
  lemma ReindexSettles(c: Catalog, fs: Snapshot, detect: Detector)
    requires c.metaByPath.Valid()
    requires forall p :: p in ListAllFiles(fs.root) ==> p in fs.mtimes
    requires forall p :: p in fs.mtimes && detect(p).Success? ==> detect(p).value.modified == fs.mtimes[p]
    requires var diff := CalculateDifference(c.metaByPath.items, c.metaByPath.keys, fs);
      forall p :: p in diff.updated + diff.added ==> detect(p).Success?
    ensures var diff := CalculateDifference(c.metaByPath.items, c.metaByPath.keys, fs);
      DeletedKnown(c, diff.deleted) &&
      var r := Reindexed(c, diff, detect);
      CalculateDifference(r.metaByPath.items, r.metaByPath.keys, fs) == Difference([], [], [])
  {
    var diff := CalculateDifference(c.metaByPath.items, c.metaByPath.keys, fs);
    ReindexConvergence(c, fs, detect);
    var dropped := DropDeleted(c, diff.deleted);
    DropDeletedEffects(c, diff.deleted);
    InsertAllEffects(dropped, diff.updated + diff.added, detect);
    var r := Reindexed(c, diff, detect);
    var again := CalculateDifference(r.metaByPath.items, r.metaByPath.keys, fs);
    forall p ensures p !in again.deleted {
      if p in r.metaByPath.items && p !in c.metaByPath.items {
        assert p in ListAllFiles(fs.root);
      }
    }
    forall p ensures p !in again.updated {
      if p in r.metaByPath.items && p in fs.mtimes && !(p in diff.updated || p in diff.added) {
        assert p in c.metaByPath.items;
        assert !(fs.mtimes[p] > c.metaByPath.items[p].modified);
      }
    }
    forall p ensures p !in again.added {
      if p in ListAllFiles(fs.root) && p !in c.metaByPath.items {
        assert p in diff.added;
      }
    }
    NoElement(again.deleted);
    NoElement(again.updated);
    NoElement(again.added);
  }

  /**
   * A new file whose kind cannot be detected is never indexed, so the next reconciliation lists
   * it as added again: a second reindex without disk changes does not see an empty Difference.
   */
  lemma UndetectableFileStaysAdded(c: Catalog, fs: Snapshot, detect: Detector, p: Path)
    requires c.metaByPath.Valid()
    requires p in ListAllFiles(fs.root) && p !in c.metaByPath.items && detect(p).Failure?
    ensures var diff := CalculateDifference(c.metaByPath.items, c.metaByPath.keys, fs);
      DeletedKnown(c, diff.deleted) &&
      var r := Reindexed(c, diff, detect);
      p in diff.added && p in CalculateDifference(r.metaByPath.items, r.metaByPath.keys, fs).added
  {
    ReindexConvergence(c, fs, detect);
  }

  /** Exactly the detected metas are persisted: one row per successful path, with its meta. */
  lemma PersistedAreDetected(root: Path, paths: seq<Path>, detect: Detector, row: ResourceRow)
    ensures var e := Detected(paths, detect);
      row in RowsOf(root, e, e.keys) <==>
        row.root == root && row.path in paths && detect(row.path) == Success(row.meta)
  {
    var e := Detected(paths, detect);
    DetectedEffects(paths, detect);
    var rows := RowsOf(root, e, e.keys);
    if row.root == root && row.path in paths && detect(row.path) == Success(row.meta) {
      assert row.path in e.keys;
      var i :| 0 <= i < |e.keys| && e.keys[i] == row.path;
      assert rows[i] == row;
    }
  }

  /** providePreviews requests generate for every entry of metaByPath, and for nothing else. */
  lemma GeneratesEveryEntry(e: LinkedMap<Path, ResourceMeta>, call: PreviewCall)
    requires e.Valid()
    ensures call in GenerateCalls(e, e.keys) <==>
      call.Generate? && call.path in e.items && e.items[call.path] == call.meta
  {
    var calls := GenerateCalls(e, e.keys);
    if call.Generate? && call.path in e.items && e.items[call.path] == call.meta {
      var i :| 0 <= i < |e.keys| && e.keys[i] == call.path;
      assert calls[i] == call;
    }
  }

  /** The first two elements of a sequence, where present, are among its elements. */
  lemma FirstTwoIn(s: seq<Path>)
    ensures |s| > 0 ==> s[0] in s
    ensures |s| > 1 ==> s[1] in s
  {
  }

  /** A duplicate-free sequence holding exactly x is [x]. */
  lemma OnlyElement(s: seq<Path>, x: Path)
    requires Distinct(s) && forall q :: q in s <==> q == x
    ensures s == [x]
  {
    assert x in s;
    FirstTwoIn(s);
  }

  /** A sequence with no element is empty. */
  lemma NoElement(s: seq<Path>)
    requires forall q :: q !in s
    ensures s == []
  {
    FirstTwoIn(s);
  }

  /** The difference for a single indexed file whose modification time has grown. */
  lemma ModifiedFileIsUpdated(p: Path, m: ResourceMeta, fs: Snapshot)
    requires fs.mtimes == map[p := m.modified + 1] && ListAllFiles(fs.root) == [p]
    ensures CalculateDifference(map[p := m], [p], fs) == Difference([], [p], [])
  {
    var diff := CalculateDifference(map[p := m], [p], fs);
    NoElement(diff.deleted);
    NoElement(diff.added);
    OnlyElement(diff.updated, p);
  }

  /**
   * A path modified on disk whose new content has another id: after reindexRoot its old id still
   * names it, and tryRemove(oldId) ends in the divergence assertion.
   */
  lemma StaleIdAfterReindex(p: Path, detect: Detector)
    requires detect(p) == Success(ResourceMeta(ResourceId(2), Kinds.Image, 12, 200))
    ensures var c := Catalog(LinkedMap(map[p := ResourceMeta(ResourceId(1), Kinds.Image, 10, 100)], [p]),
                             map[ResourceId(1) := p]);
      && Consistent(c) && Complete(c)
      && DeletedKnown(c, [])
      && Reindexed(c, Difference([], [p], []), detect).pathById == map[ResourceId(1) := p, ResourceId(2) := p]
      && Remove(Reindexed(c, Difference([], [p], []), detect), ResourceId(1)).1 == Diverged(p)
  {
    var c := Catalog(LinkedMap(map[p := ResourceMeta(ResourceId(1), Kinds.Image, 10, 100)], [p]),
                     map[ResourceId(1) := p]);
    assert DropDeleted(c, []) == c;
    assert [p] + [] == [p];
    assert [p][..0] == [];
    var r := Reindexed(c, Difference([], [p], []), detect);
    assert r == InsertAll(c, [p], detect);
    var m2 := ResourceMeta(ResourceId(2), Kinds.Image, 12, 200);
    assert InsertAll(c, [p], detect) == Catalog(c.metaByPath.Put(p, m2), c.pathById[ResourceId(2) := p]);
    assert r.pathById == map[ResourceId(1) := p, ResourceId(2) := p];
    assert r.metaByPath.items[p].id == ResourceId(2);
  }

  /** The difference for two indexed paths of which only the first is still on disk, unchanged. */
  lemma DeletedFileIsDeleted(a: Path, b: Path, m: ResourceMeta, fs: Snapshot)
    requires a != b
    requires fs.mtimes == map[a := m.modified] && ListAllFiles(fs.root) == [a]
    ensures CalculateDifference(map[a := m, b := m], [a, b], fs) == Difference([b], [], [])
  {
    var diff := CalculateDifference(map[a := m, b := m], [a, b], fs);
    OnlyElement(diff.deleted, b);
    NoElement(diff.updated);
    NoElement(diff.added);
  }

  /**
   * Two paths with one id, the representative deleted from disk: reindexRoot drops the id
   * although the other path still carries it (DuplicatePromotedByRemove shows tryRemove instead
   * promoting that path).
   */
  lemma DeletedDuplicateUnresolvable(a: Path, b: Path, m: ResourceMeta, detect: Detector)
    requires a != b
    ensures var c := Catalog(LinkedMap(map[a := m, b := m], [a, b]), map[m.id := b]);
      var r := Reindexed(c, Difference([b], [], []), detect);
      && Consistent(c) && Complete(c)
      && DeletedKnown(c, [b])
      && m.id in ListAllIds(r)
      && m.id !in r.pathById
      && !Complete(r)
  {
    var c := Catalog(LinkedMap(map[a := m, b := m], [a, b]), map[m.id := b]);
    assert DeletedKnown(c, [b]);
    var r := Reindexed(c, Difference([b], [], []), detect);
    var d := DropDeleted(c, [b]);
    DropDeletedEffects(c, [b]);
    assert ToSet([b]) == {b};
    assert IdsAt(c.metaByPath.items, [b]) == {m.id};
    assert d.metaByPath.items == map[a := m];
    assert d.pathById == map[];
    assert Difference([b], [], []).updated + Difference([b], [], []).added == [];
    assert r == d;
    assert a in r.metaByPath.items;
  }

  /** tryRemove of an id two paths carry removes one path and lets the id name the other. */
  lemma DuplicatePromotedByRemove(a: Path, b: Path, m: ResourceMeta)
    requires a != b
    ensures var c := Catalog(LinkedMap(map[a := m, b := m], [a, b]), map[m.id := b]);
      Remove(c, m.id) == (Catalog(LinkedMap(map[a := m], [a]), map[m.id := a]), Removed(b))
  {
    var c := Catalog(LinkedMap(map[a := m, b := m], [a, b]), map[m.id := b]);
    WithoutDistinct([a, b], {b});
    OnlyElement(Without([a, b], {b}), a);
    var metas := c.metaByPath.Remove(b);
    assert metas.items == map[a := m];
    assert metas == LinkedMap(map[a := m], [a]);
    assert FirstWithId([a], map[a := m], m.id) == Some(a);
    var ids := c.pathById - {m.id};
    assert ids == map[];
    assert Remove(c, m.id) == (Catalog(metas, ids[m.id := a]), Removed(b));
  }
}
