/**
 * The filesystem as the index sees it during one reconciliation, the recursive file walk
 * (listAllFiles), the three-way Difference and the chunking of DAO deletions.
 */
module Differences {
  import opened Seqs
  import opened Paths
  import opened Resources

  /** A directory as listChildren reports it: its immediate files and its sub-directories. */
  datatype Dir = Dir(path: Path, files: seq<Path>, subdirs: seq<Dir>)

  /**
   * A snapshot of the filesystem: the existing paths with their modification times in
   * milliseconds (Files.exists, Files.getLastModifiedTime) and the directory tree of the root.
   */
  datatype Snapshot = Snapshot(mtimes: map<Path, int>, root: Dir)

  /** Difference: known paths gone from disk, known paths modified on disk, and new files. */
  datatype Difference = Difference(deleted: seq<Path>, updated: seq<Path>, added: seq<Path>)

  /** listAllFiles: the directory's own files, then the files of each sub-directory in turn. */
  function ListAllFiles(d: Dir): seq<Path>
    decreases d, 1
  {
    d.files + ListAllFilesIn(d.subdirs)
  }

  /** The flatMap of listAllFiles over a sequence of directories. */
  function ListAllFilesIn(ds: seq<Dir>): seq<Path>
    decreases ds, 0
  {
    if ds == [] then [] else ListAllFiles(ds[0]) + ListAllFilesIn(ds[1..])
  }

  /** The files of a tree, defined without regard to order. */
  predicate InTree(d: Dir, p: Path)
    decreases d, 1
  {
    p in d.files || InSubtrees(d.subdirs, p)
  }

  predicate InSubtrees(ds: seq<Dir>, p: Path)
    decreases ds, 0
  {
    ds != [] && (InTree(ds[0], p) || InSubtrees(ds[1..], p))
  }

  /** Every listed entry lies strictly inside the directory that lists it. */
  predicate WellFormed(d: Dir)
    decreases d, 1
  {
    && (forall f :: f in d.files ==> StrictlyUnder(f, d.path))
    && (forall i :: 0 <= i < |d.subdirs| ==> StrictlyUnder(d.subdirs[i].path, d.path))
    && AllWellFormed(d.subdirs)
  }

  predicate AllWellFormed(ds: seq<Dir>)
    decreases ds, 0
  {
    ds != [] ==> WellFormed(ds[0]) && AllWellFormed(ds[1..])
  }

  /** listAllFiles returns exactly the files of the tree. */
  lemma {:induction false} ListAllFilesMembership(d: Dir, p: Path)
    ensures p in ListAllFiles(d) <==> InTree(d, p)
    decreases d, 1
  {
    ListAllFilesInMembership(d.subdirs, p);
  }

  lemma {:induction false} ListAllFilesInMembership(ds: seq<Dir>, p: Path)
    ensures p in ListAllFilesIn(ds) <==> InSubtrees(ds, p)
    decreases ds, 0
  {
    if ds != [] {
      ListAllFilesMembership(ds[0], p);
      ListAllFilesInMembership(ds[1..], p);
    }
  }

  /** In a well-formed tree every file listAllFiles returns lies strictly inside the root it walked. */
  lemma {:induction false} ListAllFilesUnderRoot(d: Dir)
    requires WellFormed(d)
    ensures forall p :: p in ListAllFiles(d) ==> StrictlyUnder(p, d.path)
    decreases d, 1
  {
    ListAllFilesInUnder(d.subdirs, d.path);
  }

  lemma {:induction false} ListAllFilesInUnder(ds: seq<Dir>, dir: Path)
    requires AllWellFormed(ds)
    requires forall i :: 0 <= i < |ds| ==> StrictlyUnder(ds[i].path, dir)
    ensures forall p :: p in ListAllFilesIn(ds) ==> StrictlyUnder(p, dir)
    decreases ds, 0
  {
    if ds != [] {
      ListAllFilesUnderRoot(ds[0]);
      forall p | p in ListAllFiles(ds[0]) ensures StrictlyUnder(p, dir) {
        var q := ds[0].path;
        assert p[..|q|] == q;
        assert p[..|dir|] == q[..|dir|];
      }
      ListAllFilesInUnder(ds[1..], dir);
    }
  }

  /**
   * calculateDifference over the known paths in the index's iteration order: partition them by
   * existence, keep the existing ones whose disk time is strictly newer than the stored one,
   * and list the walked files that are not known.
   */
  function CalculateDifference(metaByPath: map<Path, ResourceMeta>, known: seq<Path>, fs: Snapshot): (d: Difference)
    ensures forall p :: p in d.deleted <==> p in known && p !in fs.mtimes
    ensures forall p :: p in d.updated <==>
      p in known && p in fs.mtimes && p in metaByPath && fs.mtimes[p] > metaByPath[p].modified
    ensures forall p :: p in d.added <==> p in ListAllFiles(fs.root) && p !in metaByPath
    ensures Distinct(known) ==> Distinct(d.deleted) && Distinct(d.updated)
  {
    var absent := Filter(known, p => p !in fs.mtimes);
    var present := Filter(known, p => p in fs.mtimes);
    var updated := Filter(present, p => p in fs.mtimes && p in metaByPath && fs.mtimes[p] > metaByPath[p].modified);
    var added := Filter(ListAllFiles(fs.root), f => f !in metaByPath);
    assert Distinct(known) ==> Distinct(absent) && Distinct(updated) by {
      if Distinct(known) {
        FilterDistinct(known, p => p !in fs.mtimes);
        FilterDistinct(known, p => p in fs.mtimes);
        FilterDistinct(present, p => p in fs.mtimes && p in metaByPath && fs.mtimes[p] > metaByPath[p].modified);
      }
    }
    Difference(absent, updated, added)
  }

  /** The three lists of a computed Difference are pairwise disjoint when `known` are the index's keys. */
  lemma DifferenceDisjoint(metaByPath: map<Path, ResourceMeta>, known: seq<Path>, fs: Snapshot)
    requires forall p :: p in known <==> p in metaByPath
    ensures var d := CalculateDifference(metaByPath, known, fs);
      && (forall p :: p in d.deleted ==> p !in d.updated && p !in d.added)
      && (forall p :: p in d.updated ==> p !in d.added)
  {
  }

  /** The DAO deletion batch size. */
  const ChunkSize: nat := 512

  /** List.chunked(n): consecutive pieces of n elements, the last one possibly shorter. */
  function Chunked<T>(xs: seq<T>, n: nat): (chunks: seq<seq<T>>)
    requires n > 0
    ensures Flatten(chunks) == xs
    ensures forall i :: 0 <= i < |chunks| ==> 0 < |chunks[i]| <= n
    ensures forall i :: 0 <= i < |chunks| - 1 ==> |chunks[i]| == n
    decreases |xs|
  {
    if xs == [] then []
    else if |xs| <= n then
      assert Flatten([xs]) == xs + Flatten([]);
      [xs]
    else
      var rest := Chunked(xs[n..], n);
      assert ([xs[..n]] + rest)[1..] == rest;
      assert xs == xs[..n] + xs[n..];
      [xs[..n]] + rest
  }
}
