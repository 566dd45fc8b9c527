/**
 * The value types MovementTask works on. The graph classes (Path,
 * DirectedWeightedEdge, FreewarNode) and the move classification (EMoveType)
 * live outside the modelled core; only the parts of them that the task reads
 * are kept: node coordinates, edge endpoints and cost, the ordered edges of a
 * path.
 */
module Network {

  datatype Option<T> = None | Some(value: T)

  /** A java.awt.Point as read from the location: integer screen-map coordinates. */
  datatype Point = Point(x: int, y: int)

  /** A FreewarNode; the task only ever reads its two coordinates. */
  datatype Node = Node(x: int, y: int)

  /** A DirectedWeightedEdge whose endpoints are FreewarNodes. */
  datatype Edge = Edge(source: Node, destination: Node, cost: real)

  /** A Path: its edges, in the order getEdges() iterates them. */
  datatype Path = Path(edges: seq<Edge>)

  /** A constant of EMoveType, identified by its ordinal. */
  datatype MoveType = MoveType(ordinal: nat)

  /** The point with a node's coordinates. */
  function Coordinates(n: Node): Point
  {
    Point(n.x, n.y)
  }
}
