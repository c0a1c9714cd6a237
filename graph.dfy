/** Positions, nodes and the road graph store (app/models/graph.py), and the
    pre-computed path record the graph keeps (app/models/path.py). */
module Graph {
  import opened Wrappers
  import opened Enums

  /** A grid coordinate; equality is by value. */
  datatype Position = Position(x: int, y: int)

  /** A node id; the Python code spells it "n_{x}_{y}", here it is the pair itself. */
  datatype NodeId = NodeId(x: int, y: int)

  /** `get_node_id`: deterministic, and it keeps both coordinates, so distinct
      coordinates never share an id. */
  function GetNodeId(x: int, y: int): (id: NodeId)
    ensures id.x == x && id.y == y
  {
    NodeId(x, y)
  }

  /** The position a node id names. */
  function IdPosition(id: NodeId): (p: Position)
    ensures GetNodeId(p.x, p.y) == id
  {
    Position(id.x, id.y)
  }

  /** Positions compare equal exactly when both coordinates do (the Python code's
      `__eq__`), and so their ids, the Python code's hash key, agree. */
  lemma PositionEquality(p: Position, q: Position)
    ensures p == q <==> p.x == q.x && p.y == q.y
    ensures p == q <==> GetNodeId(p.x, p.y) == GetNodeId(q.x, q.y)
  {
  }

  /** A neighbour table: facing orientation -> relative direction -> node id.
      An orientation key exists only once an entry was added for it. */
  type NeighborTable = map<Orientation, map<Direction, NodeId>>

  /** The entry for (o, d), if any. */
  function Lookup(t: NeighborTable, o: Orientation, d: Direction): Option<NodeId>
  {
    if o in t && d in t[o] then Some(t[o][d]) else None
  }

  /** The table after `add_neighbor(o, d, n)`: the orientation map is created
      when absent and only the (o, d) entry changes. */
  function SetEntry(t: NeighborTable, o: Orientation, d: Direction, n: NodeId): (r: NeighborTable)
    ensures r.Keys == t.Keys + {o}
    ensures Lookup(r, o, d) == Some(n)
    ensures forall o', d' :: (o', d') != (o, d) ==> Lookup(r, o', d') == Lookup(t, o', d')
  {
    t[o := (if o in t then t[o] else map[])[d := n]]
  }

  /** One grid cell. Its id, position and cell type never change; the
      neighbour table is filled in by the graph builder. */
  class Node {
    const id: NodeId
    const position: Position
    const cellType: CellType
    var neighbors: NeighborTable

    constructor (id: NodeId, position: Position, cellType: CellType)
      ensures this.id == id && this.position == position && this.cellType == cellType
      ensures neighbors == map[]
    {
      this.id := id;
      this.position := position;
      this.cellType := cellType;
      neighbors := map[];
    }

    /** `add_neighbor`. */
    method AddNeighbor(o: Orientation, d: Direction, neighborId: NodeId)
      modifies this
      ensures neighbors == SetEntry(old(neighbors), o, d, neighborId)
    {
      if o !in neighbors {
        neighbors := neighbors[o := map[]];
      }
      neighbors := neighbors[o := neighbors[o][d := neighborId]];
    }
  }

  /** The record `PathInfo`: the node ids a vehicle traverses, where it leaves
      the grid, and whether the movement is possible at all. */
  datatype PathInfo = PathInfo(exitPath: seq<NodeId>, exitPoint: Option<Position>, valid: bool)

  /** The result every failed walk returns. */
  function InvalidPath(): (r: PathInfo)
    ensures !r.valid && r.exitPath == [] && r.exitPoint == None
  {
    PathInfo([], None, false)
  }

  type PathTable = map<NodeId, map<Orientation, map<MovementRule, PathInfo>>>

  /** The entry of a path table for (id, o, m), if all three keys are present. */
  function PathLookup(t: PathTable, id: NodeId, o: Orientation, m: MovementRule): Option<PathInfo>
  {
    if id in t && o in t[id] && m in t[id][o] then Some(t[id][o][m]) else None
  }

  /** Every node id of every stored path lies in `ids`. */
  ghost predicate PathsClosed(ids: set<NodeId>, t: PathTable)
  {
    forall id, o, m :: PathLookup(t, id, o, m).Some? ==>
      forall i :: 0 <= i < |PathLookup(t, id, o, m).value.exitPath| ==>
        PathLookup(t, id, o, m).value.exitPath[i] in ids
  }

  /** `is_exit_position` as a function of the grid size: the position lies on
      the outermost row or column. */
  predicate OnBoundary(width: int, height: int, p: Position)
  {
    p.x == 0 || p.x == width - 1 || p.y == 0 || p.y == height - 1
  }

  /** Inside the grid, a cell is on the boundary iff one step in some
      heading leaves the grid. */
  lemma OnBoundaryIffEdge(width: int, height: int, p: Position)
    requires 0 <= p.x < width && 0 <= p.y < height
    ensures OnBoundary(width, height, p) <==>
      exists o: Orientation :: !(0 <= p.x + HeadingDx(o) < width && 0 <= p.y + HeadingDy(o) < height)
  {
    if p.x == 0 {
      assert !(0 <= p.x + HeadingDx(West));
    } else if p.x == width - 1 {
      assert !(p.x + HeadingDx(East) < width);
    } else if p.y == 0 {
      assert !(0 <= p.y + HeadingDy(North));
    } else if p.y == height - 1 {
      assert !(p.y + HeadingDy(South) < height);
    }
  }

  class RoadGraph {
    const width: int
    const height: int
    var nodes: map<NodeId, Node>
    var exitPositions: set<Position>
    var pathLookup: PathTable

    constructor (width: int, height: int)
      ensures this.width == width && this.height == height
      ensures nodes == map[] && exitPositions == {} && pathLookup == map[]
    {
      this.width := width;
      this.height := height;
      nodes := map[];
      exitPositions := {};
      pathLookup := map[];
    }

    /** Every node is stored under its own id, and that id names its position. */
    ghost predicate NodesKeyed()
      reads this`nodes
    {
      forall id :: id in nodes ==> nodes[id].id == id && nodes[id].position == IdPosition(id)
    }

    /** Every neighbour entry names a stored node. */
    ghost predicate NeighborsClosed()
      reads this`nodes, nodes.Values
    {
      forall id, o, d :: id in nodes && Lookup(nodes[id].neighbors, o, d).Some? ==>
        Lookup(nodes[id].neighbors, o, d).value in nodes
    }

    /** The graph's consistency: nodes keyed by their ids, neighbour entries
        closed over the stored nodes, and every recorded exit position on the
        boundary. */
    ghost predicate Valid()
      reads this`nodes, this`exitPositions, nodes.Values
    {
      && NodesKeyed()
      && NeighborsClosed()
      && (forall p :: p in exitPositions ==> IsExitPosition(p))
    }

    /** The cell type of every stored node. */
    function CellTypes(): (cells: map<NodeId, CellType>)
      reads this`nodes
      ensures cells.Keys == nodes.Keys
      ensures forall id :: id in nodes ==> cells[id] == nodes[id].cellType
    {
      map id | id in nodes :: nodes[id].cellType
    }

    /** `get_node`: the node stored under the id of (x, y), or none. */
    function GetNode(x: int, y: int): (r: Option<Node>)
      reads this`nodes
      ensures r.Some? <==> GetNodeId(x, y) in nodes
      ensures r.Some? ==> r.value == nodes[GetNodeId(x, y)]
    {
      var id := GetNodeId(x, y);
      if id in nodes then Some(nodes[id]) else None
    }

    /** `is_exit_position`. */
    predicate IsExitPosition(p: Position)
    {
      OnBoundary(width, height, p)
    }

    /** A cell of the grid is an exit position iff a vehicle on it can step
        out of the grid in some heading. */
    lemma ExitPositionIffEdge(p: Position)
      requires 0 <= p.x < width && 0 <= p.y < height
      ensures IsExitPosition(p) <==>
        exists o: Orientation :: !(0 <= p.x + HeadingDx(o) < width && 0 <= p.y + HeadingDy(o) < height)
    {
      OnBoundaryIffEdge(width, height, p);
    }

    /** `add_node`. The Python code tests `cell_type == CellType.ROAD`, a member the
        enum does not have, so the line would raise; the model takes the
        evident intent, a road cell (`is_road`). */
    method AddNode(node: Node)
      modifies this`nodes, this`exitPositions
      ensures nodes == old(nodes)[node.id := node]
      ensures exitPositions ==
        if node.cellType.IsRoad() && IsExitPosition(node.position)
        then old(exitPositions) + {node.position}
        else old(exitPositions)
    {
      nodes := nodes[node.id := node];
      if node.cellType.IsRoad() && IsExitPosition(node.position) {
        exitPositions := exitPositions + {node.position};
      }
    }
  }
}
