/** The entities the conversion consumes: tagged ways over node ids, and positioned nodes. */
module Osm {
  /** A way's tags after filtering, key to value. */
  type Tags = map<string, string>

  datatype Tag = Tag(key: string, value: string)

  datatype Way = Way(id: int, nodeIds: seq<int>, tags: seq<Tag>)

  datatype Node = Node(id: int, lon: real, lat: real)

  /** The entity kinds a sink receives. */
  datatype Entity = BoundEntity | NodeEntity(node: Node) | WayEntity(way: Way) | RelationEntity
}
