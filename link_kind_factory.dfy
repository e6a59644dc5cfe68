/**
 * LinkKindFactory: which files are links, and how a link's fields are written to and read back
 * from the extras table.
 */
module LinkKindFactory {
  import opened Wrappers
  import opened Kinds
  import opened Resources

  /** File extensions handled by this factory. */
  const AcceptedExtensions: set<string> := {"link"}

  /** MIME types handled by this factory: none. */
  const AcceptedMimeTypes: set<string> := {}

  /** Looks up a tag; a missing tag reads as null. */
  function Lookup(extras: map<MetaExtraTag, string>, tag: MetaExtraTag): (v: Option<string>)
    ensures v.Some? <==> tag in extras
    ensures v.Some? ==> v.value == extras[tag]
  {
    if tag in extras then Some(extras[tag]) else None
  }

  /**
   * fromRoom: rebuilds a link from its extras. Total: every missing tag gives a null field.
   * The description is read from the DESCRIPTION tag.
   */
  function FromRoom(extras: map<MetaExtraTag, string>): (k: LinkKind)
    ensures k.title.Some? <==> Title in extras
    ensures k.description.Some? <==> Description in extras
    ensures k.url.Some? <==> Url in extras
  {
    Link(Lookup(extras, Title), Lookup(extras, Description), Lookup(extras, Url))
  }

  /**
   * toRoom, as written: url under URL, title under TITLE and the description under DURATION.
   * The id argument is not used.
   */
  function ToRoom(id: ResourceId, kind: LinkKind): (extras: map<MetaExtraTag, Option<string>>)
    ensures extras.Keys == {Url, Title, Duration}
    ensures Description !in extras
  {
    map[Url := kind.url, Title := kind.title, Duration := kind.description]
  }

  /** toRoom with the description stored under the tag fromRoom reads it from. */
  function ToRoomCorrected(id: ResourceId, kind: LinkKind): (extras: map<MetaExtraTag, Option<string>>)
    ensures extras.Keys == {Url, Title, Description}
  {
    map[Url := kind.url, Title := kind.title, Description := kind.description]
  }

  /** The extras table keeps a row for each non-null value only. */
  function Stored(extras: map<MetaExtraTag, Option<string>>): (rows: map<MetaExtraTag, string>)
    ensures rows.Keys <= extras.Keys
    ensures forall t :: t in rows ==> extras[t] == Some(rows[t])
    ensures forall t :: t in extras && extras[t].Some? ==> t in rows
  {
    map t | t in extras && extras[t].Some? :: extras[t].value
  }

  /** The result of toRoom does not depend on the id it is given. */
  lemma ToRoomIgnoresId(id1: ResourceId, id2: ResourceId, kind: LinkKind)
    ensures ToRoom(id1, kind) == ToRoom(id2, kind)
  {
  }

  /** url and title survive a write followed by a read. */
  lemma UrlAndTitleRoundTrip(id: ResourceId, kind: LinkKind)
    ensures FromRoom(Stored(ToRoom(id, kind))).url == kind.url
    ensures FromRoom(Stored(ToRoom(id, kind))).title == kind.title
  {
  }

  /** As written, every description is lost by a write followed by a read. */
  lemma DescriptionLost(id: ResourceId, kind: LinkKind)
    ensures FromRoom(Stored(ToRoom(id, kind))).description == None
  {
  }

  /** A concrete link whose round trip differs from the original. */
  lemma DescriptionRoundTripFails()
    ensures var k := Link(Some("t"), Some("d"), Some("u"));
            FromRoom(Stored(ToRoom(ResourceId(0), k))) != k
  {
    var k: LinkKind := Link(Some("t"), Some("d"), Some("u"));
    DescriptionLost(ResourceId(0), k);
  }

  /** With the corrected toRoom every link survives a write followed by a read. */
  lemma CorrectedRoundTrip(id: ResourceId, kind: LinkKind)
    ensures FromRoom(Stored(ToRoomCorrected(id, kind))) == kind
  {
  }
}
