/** Values shared by the turn-restriction and undelete models: optional values,
    the error of a null dereference, and OSM primitive ids. */
module Osm {

  /** A Java reference that may be null. */
  datatype Option<+T> = None | Some(value: T)

  /** The outcome of a Java call that either returns a value or throws. */
  datatype Result<+T> = Ok(value: T) | NullPointerError

  /** OsmPrimitiveType, restricted to the three kinds of primitives the server knows. */
  datatype PrimType = Node | Way | Relation

  /** A (Simple)PrimitiveId: a type and a unique id (a Java long, negative for new objects).
      Two ids are equal exactly when both components are. */
  datatype PrimId = PrimId(kind: PrimType, id: int)

  /** OsmPrimitiveType.getAPIName(): the name the OSM API uses for a type. The names are
      non-empty and contain neither the list separator ',' nor the path separator '/'. */
  function ApiName(t: PrimType): (s: string)
    ensures |s| > 0 && ',' !in s && '/' !in s
  {
    match t
    case Node => "node"
    case Way => "way"
    case Relation => "relation"
  }
}
