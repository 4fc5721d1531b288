/** The vertices and edges of the unified spec and task graph
    (internal/graph/graph.go). */
module GraphTypes {

  datatype NodeKind = NodeSpec | NodeTask

  /** Containment is organisational; the other kinds order work. */
  datatype EdgeKind = Containment | Dispatch | SpecDep | TaskDep

  datatype Node = Node(
    id: string, kind: NodeKind, title: string, status: string, ref: string, depth: int, actions: seq<string>)

  /** Direction is prerequisite to dependent. */
  datatype Edge = Edge(from: string, to: string, kind: EdgeKind)
}
