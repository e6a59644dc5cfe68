/** Resource identities, metadata, persisted rows and the calls made to the collaborators. */
module Resources {
  import opened Wrappers
  import opened Paths
  import opened Kinds

  /** ResourceId: an opaque identity derived from a file's content; equal contents give equal ids. */
  datatype ResourceId = ResourceId(digest: int)

  /** ResourceMeta; `modified` is the file's modification time in milliseconds. */
  datatype ResourceMeta = ResourceMeta(id: ResourceId, kind: ResourceKind, size: int, modified: int)

  /** A resource row, recorded as the arguments of Resource.fromMeta(meta, root, path). */
  datatype ResourceRow = ResourceRow(meta: ResourceMeta, root: Path, path: Path)

  /** A kind-specific extras row, as produced by the general kind factory's toRoom. */
  datatype ExtraRow = ExtraRow(id: ResourceId, tag: MetaExtraTag, value: string)

  /** A persisted resource with its extras, as the DAO returns them at start-up. */
  datatype ResourceWithExtra = ResourceWithExtra(path: Path, id: ResourceId, modified: int, size: int, extras: seq<ExtraRow>)

  /** A call made to the ResourceDao collaborator. */
  datatype DaoCall =
    | DeletePaths(paths: seq<Path>)
    | InsertResources(rows: seq<ResourceRow>)
    | InsertExtras(extras: seq<ExtraRow>)
    | UpdateResource(oldId: ResourceId, newId: ResourceId, modifiedMillis: int, size: int)
    | UpdateExtras(oldId: ResourceId, newId: ResourceId)

  /** A call made to the PreviewStorage collaborator. */
  datatype PreviewCall = Forget(id: ResourceId) | Generate(path: Path, meta: ResourceMeta)
}
