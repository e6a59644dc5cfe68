/** The closed union of resource kinds and the tags under which kinds persist their fields. */
module Kinds {
  import opened Wrappers

  /**
   * ResourceKind. Only the Link variant's fields matter to this model; its fields are
   * nullable strings, as the persisted extras may lack any of them.
   */
  datatype ResourceKind =
    | Image
    | Video
    | Document
    | Link(title: Option<string>, description: Option<string>, url: Option<string>)

  /** The kind-specific column tags of the extras table used by the Link factory. */
  datatype MetaExtraTag = Title | Description | Url | Duration

  /** The kind value of a link resource (ResourceKind.Link). */
  type LinkKind = k: ResourceKind | k.Link? witness Link(None, None, None)
}
