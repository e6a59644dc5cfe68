/**
 * PlainResourcesIndex.loadResources: the rows read back from the Room database, grouped by path,
 * become the resources the index is constructed from; two rows for one path are an error.
 */
module Loading {
  import opened Wrappers
  import opened Seqs
  import opened Paths
  import opened Resources
  import opened LinkedMaps
  import opened Catalogs

  /** ResourceMeta.fromRoom, left abstract. */
  type FromRoom = ResourceWithExtra -> ResourceMeta

  const SeveralResourcesMessage := "Index must not haveseveral resources for the same path"

  /** The paths of the rows, each once, in order of first appearance: the key order of groupBy. */
  function PathsInOrder(rows: seq<ResourceWithExtra>): seq<Path>
    decreases |rows|
  {
    if rows == [] then []
    else
      var prev := PathsInOrder(rows[..|rows| - 1]);
      var p := rows[|rows| - 1].path;
      if p in prev then prev else prev + [p]
  }

  /** The rows of one path, in row order: one group of groupBy. */
  function RowsAt(rows: seq<ResourceWithExtra>, p: Path): seq<ResourceWithExtra>
    decreases |rows|
  {
    if rows == [] then []
    else RowsAt(rows[..|rows| - 1], p) + (if rows[|rows| - 1].path == p then [rows[|rows| - 1]] else [])
  }

  /** groupBy { it.resource.path }: a LinkedHashMap from each path to its rows. */
  function GroupByPath(rows: seq<ResourceWithExtra>): LinkedMap<Path, seq<ResourceWithExtra>> {
    var keys := PathsInOrder(rows);
    LinkedMap(map p | p in keys :: RowsAt(rows, p), keys)
  }

  /** Some path occurs in two rows. */
  predicate HasDuplicatePath(rows: seq<ResourceWithExtra>) {
    exists i, j :: 0 <= i < j < |rows| && rows[i].path == rows[j].path
  }

  /** mapValues { fromRoom(it[0]) } over the groups, in iteration order. */
  function FirstOfEach(g: LinkedMap<Path, seq<ResourceWithExtra>>, keys: seq<Path>, fromRoom: FromRoom): (entries: seq<(Path, ResourceMeta)>)
    requires forall p :: p in keys ==> p in g.items && |g.items[p]| > 0
    ensures |entries| == |keys|
    decreases |keys|
  {
    if keys == [] then []
    else
      var n := |keys| - 1;
      FirstOfEach(g, keys[..n], fromRoom) + [(keys[n], fromRoom(g.items[keys[n]][0]))]
  }

  /** loadResources: fails as soon as a path has several rows, otherwise one entry per path. */
  function LoadResources(rows: seq<ResourceWithExtra>, fromRoom: FromRoom): Result<seq<(Path, ResourceMeta)>, string> {
    var groups := GroupByPath(rows);
    if exists p :: p in groups.items && |groups.items[p]| > 1 then Failure(SeveralResourcesMessage)
    else
      GroupsNonEmpty(rows);
      Success(FirstOfEach(groups, groups.keys, fromRoom))
  }

  /** The reference reading: one entry per row, in row order. */
  function EntriesOf(rows: seq<ResourceWithExtra>, fromRoom: FromRoom): (entries: seq<(Path, ResourceMeta)>)
    ensures |entries| == |rows|
  {
    seq(|rows|, i requires 0 <= i < |rows| => (rows[i].path, fromRoom(rows[i])))
  }

  /** The groups form a well-formed LinkedHashMap: every path once in the key order. */
  lemma GroupByPathValid(rows: seq<ResourceWithExtra>)
    ensures GroupByPath(rows).Valid()
  {
    PathsInOrderDistinct(rows);
  }

  lemma {:induction false} PathsInOrderDistinct(rows: seq<ResourceWithExtra>)
    ensures Distinct(PathsInOrder(rows))
    decreases |rows|
  {
    if rows != [] {
      PathsInOrderDistinct(rows[..|rows| - 1]);
    }
  }

  /** Every row's path is a key of groupBy. */
  lemma {:induction false} PathsInOrderCovers(rows: seq<ResourceWithExtra>, i: nat)
    requires i < |rows|
    ensures rows[i].path in PathsInOrder(rows)
    decreases |rows|
  {
    var n := |rows| - 1;
    var init := rows[..n];
    if i < n {
      PathsInOrderCovers(init, i);
      assert init[i] == rows[i];
    }
  }

  /** A row is in the group of its own path. */
  lemma {:induction false} RowsAtHas(rows: seq<ResourceWithExtra>, i: nat)
    requires i < |rows|
    ensures |RowsAt(rows, rows[i].path)| > 0
    decreases |rows|
  {
    var n := |rows| - 1;
    var init := rows[..n];
    if i < n {
      RowsAtHas(init, i);
      assert init[i] == rows[i];
    }
  }

  /** Only the path of some row is a key, and then its group is not empty. */
  lemma {:induction false} GroupNonEmpty(rows: seq<ResourceWithExtra>, p: Path)
    ensures p in PathsInOrder(rows) ==> |RowsAt(rows, p)| > 0
    decreases |rows|
  {
    if rows != [] {
      var n := |rows| - 1;
      GroupNonEmpty(rows[..n], p);
    }
  }

  /** groupBy never yields an empty group. */
  lemma GroupsNonEmpty(rows: seq<ResourceWithExtra>)
    ensures forall p :: p in GroupByPath(rows).keys ==> p in GroupByPath(rows).items && |GroupByPath(rows).items[p]| > 0
  {
    forall p | p in PathsInOrder(rows) ensures |RowsAt(rows, p)| > 0 {
      GroupNonEmpty(rows, p);
    }
  }

  /** Two rows with one path put two rows in its group. */
  lemma {:induction false} DuplicateRowsShareGroup(rows: seq<ResourceWithExtra>, i: nat, j: nat)
    requires i < j < |rows| && rows[i].path == rows[j].path
    ensures |RowsAt(rows, rows[i].path)| > 1
    decreases |rows|
  {
    var n := |rows| - 1;
    var init := rows[..n];
    assert init[i] == rows[i];
    if j < n {
      assert init[j] == rows[j];
      DuplicateRowsShareGroup(init, i, j);
    } else {
      RowsAtHas(init, i);
    }
  }

  /** Without repeated paths the keys are the row paths, in row order. */
  lemma {:induction false} DistinctRowsOrder(rows: seq<ResourceWithExtra>)
    requires !HasDuplicatePath(rows)
    ensures |PathsInOrder(rows)| == |rows|
    ensures forall i :: 0 <= i < |rows| ==> PathsInOrder(rows)[i] == rows[i].path
    decreases |rows|
  {
    if rows != [] {
      var n := |rows| - 1;
      var init := rows[..n];
      NoDuplicateInPrefix(rows, n);
      DistinctRowsOrder(init);
      var prev := PathsInOrder(init);
      assert rows[n].path !in prev by {
        forall k | 0 <= k < n ensures prev[k] != rows[n].path {
          assert prev[k] == init[k].path == rows[k].path;
        }
      }
      forall i | 0 <= i < n ensures PathsInOrder(rows)[i] == rows[i].path {
        assert init[i] == rows[i];
      }
    }
  }

  /** Without repeated paths each group is the single row of its path. */
  lemma {:induction false} DistinctRowsGroup(rows: seq<ResourceWithExtra>, i: nat)
    requires !HasDuplicatePath(rows) && i < |rows|
    ensures RowsAt(rows, rows[i].path) == [rows[i]]
    decreases |rows|
  {
    var n := |rows| - 1;
    var init := rows[..n];
    NoDuplicateInPrefix(rows, n);
    if i < n {
      assert init[i] == rows[i];
      DistinctRowsGroup(init, i);
      assert rows[n].path != rows[i].path;
    } else {
      RowsAtNone(init, rows[n].path);
    }
  }

  /** A path that no row has has an empty group. */
  lemma {:induction false} RowsAtNone(rows: seq<ResourceWithExtra>, p: Path)
    requires forall k :: 0 <= k < |rows| ==> rows[k].path != p
    ensures RowsAt(rows, p) == []
    decreases |rows|
  {
    if rows != [] {
      var n := |rows| - 1;
      var init := rows[..n];
      assert forall k :: 0 <= k < n ==> init[k] == rows[k];
      RowsAtNone(init, p);
    }
  }

  /** A prefix of rows without repeated paths has none either; the last row's path is new. */
  lemma NoDuplicateInPrefix(rows: seq<ResourceWithExtra>, n: nat)
    requires !HasDuplicatePath(rows) && n == |rows| - 1
    ensures !HasDuplicatePath(rows[..n])
    ensures forall k :: 0 <= k < n ==> rows[..n][k].path != rows[n].path
  {
    var init := rows[..n];
    forall i, j | 0 <= i < j < n ensures init[i].path != init[j].path {
      assert init[i] == rows[i] && init[j] == rows[j];
    }
  }

  /** loadResources throws exactly when some path has two rows. */
  lemma LoadResourcesFailsOnDuplicate(rows: seq<ResourceWithExtra>, fromRoom: FromRoom)
    ensures LoadResources(rows, fromRoom).Failure? <==> HasDuplicatePath(rows)
  {
    var g := GroupByPath(rows);
    if HasDuplicatePath(rows) {
      var i, j :| 0 <= i < j < |rows| && rows[i].path == rows[j].path;
      DuplicateRowsShareGroup(rows, i, j);
      PathsInOrderCovers(rows, i);
      assert rows[i].path in g.items && |g.items[rows[i].path]| > 1;
    } else {
      NoSeveralRows(rows);
    }
  }

  /**
   * Without repeated paths loadResources yields one entry per row, in row order, with distinct
   * paths, ready for the constructor.
   */
  lemma LoadResourcesEntries(rows: seq<ResourceWithExtra>, fromRoom: FromRoom)
    requires !HasDuplicatePath(rows)
    ensures LoadResources(rows, fromRoom) == Success(EntriesOf(rows, fromRoom))
    ensures DistinctPaths(EntriesOf(rows, fromRoom))
  {
    var g := GroupByPath(rows);
    NoSeveralRows(rows);
    DistinctRowsOrder(rows);
    GroupsNonEmpty(rows);
    FirstOfEachIsEntries(rows, fromRoom, |rows|);
    assert g.keys[..|rows|] == g.keys;
    assert EntriesOf(rows, fromRoom)[..|rows|] == EntriesOf(rows, fromRoom);
    assert FirstOfEach(g, g.keys, fromRoom) == EntriesOf(rows, fromRoom);
  }

  /** Without repeated paths no group holds several rows. */
  lemma NoSeveralRows(rows: seq<ResourceWithExtra>)
    requires !HasDuplicatePath(rows)
    ensures !exists p :: p in GroupByPath(rows).items && |GroupByPath(rows).items[p]| > 1
  {
    var g := GroupByPath(rows);
    DistinctRowsOrder(rows);
    forall p | p in g.items ensures |g.items[p]| <= 1 {
      var i :| 0 <= i < |g.keys| && g.keys[i] == p;
      DistinctRowsGroup(rows, i);
    }
  }

  /** Over the first k keys, FirstOfEach agrees with EntriesOf on the first k rows. */
  lemma {:induction false} FirstOfEachIsEntries(rows: seq<ResourceWithExtra>, fromRoom: FromRoom, k: nat)
    requires !HasDuplicatePath(rows) && k <= |rows|
    requires |PathsInOrder(rows)| == |rows|
    requires forall p :: p in GroupByPath(rows).keys ==> p in GroupByPath(rows).items && |GroupByPath(rows).items[p]| > 0
    ensures FirstOfEach(GroupByPath(rows), GroupByPath(rows).keys[..k], fromRoom) == EntriesOf(rows, fromRoom)[..k]
    decreases k
  {
    var g := GroupByPath(rows);
    if k > 0 {
      FirstOfEachIsEntries(rows, fromRoom, k - 1);
      DistinctRowsOrder(rows);
      DistinctRowsGroup(rows, k - 1);
      assert g.keys[..k][..k - 1] == g.keys[..k - 1];
      assert EntriesOf(rows, fromRoom)[..k] == EntriesOf(rows, fromRoom)[..k - 1] + [(rows[k - 1].path, fromRoom(rows[k - 1]))];
    }
  }
}
