/** Building the road graph from a layout of cell codes
    (app/core/graph_builder.py). */
module GraphBuilder {
  import opened Wrappers
  import opened Enums
  import opened Graph

  function Abs(n: int): nat { if n < 0 then -n else n }

  /** `p` is one of the four cells next to (x, y). */
  predicate UnitOffset(p: Position, x: int, y: int)
  {
    Abs(p.x - x) + Abs(p.y - y) == 1
  }

  /** `p` and `q` lie on opposite sides of (x, y). */
  predicate Opposite(p: Position, q: Position, x: int, y: int)
  {
    p.x - x == x - q.x && p.y - y == y - q.y
  }

  /** `_get_neighbors_map`: the cell in each relative direction from (x, y)
      for a vehicle facing `o`. FORWARD is one step the way it faces,
      BACKWARD and FORWARD are opposite, LEFT and RIGHT are opposite, and the
      four cells are the four distinct neighbours of (x, y). */
  function NeighborsMap(x: int, y: int, o: Orientation): (m: map<Direction, Position>)
    ensures m.Keys == {Forward, LeftOf, RightOf, Backward}
    ensures m[Forward] == Position(x + HeadingDx(o), y + HeadingDy(o))
    ensures forall d :: d in m ==> UnitOffset(m[d], x, y)
    ensures Opposite(m[Forward], m[Backward], x, y) && Opposite(m[LeftOf], m[RightOf], x, y)
    ensures forall d, d' :: d in m && d' in m && d != d' ==> m[d] != m[d']
  {
    match o
    case North =>
      map[Forward := Position(x, y - 1), LeftOf := Position(x - 1, y),
          RightOf := Position(x + 1, y), Backward := Position(x, y + 1)]
    case South =>
      map[Forward := Position(x, y + 1), LeftOf := Position(x + 1, y),
          RightOf := Position(x - 1, y), Backward := Position(x, y - 1)]
    case East =>
      map[Forward := Position(x + 1, y), LeftOf := Position(x, y - 1),
          RightOf := Position(x, y + 1), Backward := Position(x - 1, y)]
    case West =>
      map[Forward := Position(x - 1, y), LeftOf := Position(x, y + 1),
          RightOf := Position(x, y - 1), Backward := Position(x + 1, y)]
  }

  /** A candidate neighbour is recorded only when it lies inside the grid
      and its node exists and is a road cell. */
  predicate Admissible(cells: map<NodeId, CellType>, width: int, height: int, p: Position)
  {
    && 0 <= p.x < width && 0 <= p.y < height
    && GetNodeId(p.x, p.y) in cells && cells[GetNodeId(p.x, p.y)].IsRoad()
  }

  /** The relative directions the builder tries for a cell type and a
      facing: all four at an intersection, FORWARD and BACKWARD on a
      horizontal road facing east or west and on a vertical road facing north
      or south, none otherwise (EXIT cells match no branch). */
  function CandidateDirections(ct: CellType, o: Orientation): seq<Direction>
  {
    match ct
    case Intersection => Directions()
    case HorizontalRoad => if o == East || o == West then [Forward, Backward] else []
    case VerticalRoad => if o == North || o == South then [Forward, Backward] else []
    case _ => []
  }

  /** The entries recorded for facing `o` when the directions `dirs` are tried. */
  function RowOver(cells: map<NodeId, CellType>, width: int, height: int,
                   m: map<Direction, Position>, dirs: seq<Direction>): map<Direction, NodeId>
  {
    map d | d in dirs && d in m && Admissible(cells, width, height, m[d]) :: GetNodeId(m[d].x, m[d].y)
  }

  /** Only tried directions get an entry. */
  lemma RowOverKeys(cells: map<NodeId, CellType>, width: int, height: int,
                    m: map<Direction, Position>, dirs: seq<Direction>, d: Direction)
    requires d in RowOver(cells, width, height, m, dirs)
    ensures d in dirs
  {
  }

  /** Adds the row for `o` to a table that has no entry for `o` yet; the
      orientation key appears only when the row has an entry. */
  function WithRow(t: NeighborTable, o: Orientation, row: map<Direction, NodeId>): NeighborTable
  {
    if row == map[] then t else t[o := row]
  }

  /** The row the builder records for facing `o` on a cell of type `ct`. */
  function Row(cells: map<NodeId, CellType>, width: int, height: int, id: NodeId,
               ct: CellType, o: Orientation): map<Direction, NodeId>
  {
    RowOver(cells, width, height, NeighborsMap(id.x, id.y, o), CandidateDirections(ct, o))
  }

  /** The table after the rows of the first `k` orientations were added, in
      the order NORTH, SOUTH, EAST, WEST; `rows` holds the row of every
      orientation. */
  function TableUpTo(rows: map<Orientation, map<Direction, NodeId>>, k: nat): NeighborTable
    requires k <= 4
    requires forall o :: o in Orientations() ==> o in rows
  {
    if k == 0 then map[]
    else WithRow(TableUpTo(rows, k - 1), Orientations()[k - 1], rows[Orientations()[k - 1]])
  }

  /** The table after `k` rows holds, for each of the first `k` orientations,
      exactly its row, and no other orientation key. */
  lemma {:induction false} TableUpToRows(rows: map<Orientation, map<Direction, NodeId>>, k: nat,
                                         o: Orientation)
    requires k <= 4
    requires forall o :: o in Orientations() ==> o in rows
    ensures o in TableUpTo(rows, k) <==> o in Orientations()[..k] && rows[o] != map[]
    ensures o in TableUpTo(rows, k) ==> TableUpTo(rows, k)[o] == rows[o]
  {
    if k > 0 {
      var last := Orientations()[k - 1];
      var prev := TableUpTo(rows, k - 1);
      assert TableUpTo(rows, k) == WithRow(prev, last, rows[last]);
      TableUpToRows(rows, k - 1, o);
      assert Orientations()[..k] == Orientations()[..k - 1] + [last];
      if o == last {
        assert o !in Orientations()[..k - 1];
      } else {
        assert o in TableUpTo(rows, k) <==> o in prev;
      }
    }
  }

  /** The orientation keys whose rows have an entry. */
  function NonEmptyRows(rows: map<Orientation, map<Direction, NodeId>>): NeighborTable
  {
    map o | o in rows && rows[o] != map[] :: rows[o]
  }

  /** Adding all four rows in turn leaves exactly the non-empty rows. */
  lemma TableUpToAll(rows: map<Orientation, map<Direction, NodeId>>)
    requires forall o :: o in Orientations() ==> o in rows
    ensures TableUpTo(rows, 4) == NonEmptyRows(rows)
  {
    assert Orientations()[..4] == Orientations();
    forall o
      ensures o in TableUpTo(rows, 4) <==> o in NonEmptyRows(rows)
      ensures o in TableUpTo(rows, 4) ==> TableUpTo(rows, 4)[o] == rows[o]
    {
      EnumerationsComplete(o, Straight, Forward);
      TableUpToRows(rows, 4, o);
    }
  }

  /** The rows of all four orientations for a node. */
  function Rows(cells: map<NodeId, CellType>, width: int, height: int, id: NodeId,
                ct: CellType): (rows: map<Orientation, map<Direction, NodeId>>)
    ensures forall o :: o in Orientations() ==> o in rows && rows[o] == Row(cells, width, height, id, ct, o)
  {
    map o | o in Orientations() :: Row(cells, width, height, id, ct, o)
  }

  /** The neighbour table the builder gives node `id` of cell type `ct`:
      non-road cells get none; road cells get, per orientation, the entries of
      the directions their type allows. */
  function ExpectedNeighbors(cells: map<NodeId, CellType>, width: int, height: int,
                             id: NodeId, ct: CellType): NeighborTable
  {
    if !ct.IsRoad() then map[] else NonEmptyRows(Rows(cells, width, height, id, ct))
  }

  /** An entry of the expected table is an entry of the row for its facing. */
  lemma ExpectedEntryInRow(cells: map<NodeId, CellType>, width: int, height: int,
                           id: NodeId, ct: CellType, o: Orientation, d: Direction)
    requires Lookup(ExpectedNeighbors(cells, width, height, id, ct), o, d).Some?
    ensures ct.IsRoad()
    ensures d in Row(cells, width, height, id, ct, o)
    ensures Lookup(ExpectedNeighbors(cells, width, height, id, ct), o, d).value ==
      Row(cells, width, height, id, ct, o)[d]
  {
    EnumerationsComplete(o, Straight, d);
  }

  /** Every direction has a cell in the offset table. */
  lemma NeighborsMapTotal(x: int, y: int, o: Orientation, d: Direction)
    ensures d in NeighborsMap(x, y, o)
  {
    match d
    case Forward =>
    case LeftOf =>
    case RightOf =>
    case Backward =>
  }

  /** Non-road cells and EXIT cells (road, but matching no type branch) get
      no neighbour entries at all. */
  lemma NoEntriesOffRoadOrAtExit(cells: map<NodeId, CellType>, width: int, height: int,
                                 id: NodeId, ct: CellType)
    requires !ct.IsRoad() || ct == Exit
    ensures ExpectedNeighbors(cells, width, height, id, ct) == map[]
  {
    if ct.IsRoad() {
      var t := NonEmptyRows(Rows(cells, width, height, id, ct));
      forall o ensures o !in t {
        EnumerationsComplete(o, Straight, Forward);
      }
      assert t == map[];
    }
  }

  /** Horizontal-road cells get entries only when facing EAST or WEST and
      only FORWARD/BACKWARD; vertical-road cells only when facing NORTH or
      SOUTH, likewise only FORWARD/BACKWARD. */
  lemma RoadSegmentEntries(cells: map<NodeId, CellType>, width: int, height: int,
                           id: NodeId, ct: CellType, o: Orientation, d: Direction)
    requires Lookup(ExpectedNeighbors(cells, width, height, id, ct), o, d).Some?
    ensures ct == HorizontalRoad ==> (o == East || o == West) && (d == Forward || d == Backward)
    ensures ct == VerticalRoad ==> (o == North || o == South) && (d == Forward || d == Backward)
  {
    ExpectedEntryInRow(cells, width, height, id, ct, o, d);
    RowOverKeys(cells, width, height, NeighborsMap(id.x, id.y, o), CandidateDirections(ct, o), d);
    CandidateShape(ct, o, d);
  }

  /** The directions tried on road segments. */
  lemma CandidateShape(ct: CellType, o: Orientation, d: Direction)
    requires d in CandidateDirections(ct, o)
    ensures ct == HorizontalRoad ==> (o == East || o == West) && (d == Forward || d == Backward)
    ensures ct == VerticalRoad ==> (o == North || o == South) && (d == Forward || d == Backward)
  {
  }

  /** Every recorded neighbour is the cell the offset table names, lies in
      the grid and is a road cell. */
  lemma EntriesAdmissible(cells: map<NodeId, CellType>, width: int, height: int,
                          id: NodeId, ct: CellType, o: Orientation, d: Direction)
    requires Lookup(ExpectedNeighbors(cells, width, height, id, ct), o, d).Some?
    ensures d in NeighborsMap(id.x, id.y, o)
    ensures var p := NeighborsMap(id.x, id.y, o)[d];
      && Admissible(cells, width, height, p)
      && Lookup(ExpectedNeighbors(cells, width, height, id, ct), o, d).value == GetNodeId(p.x, p.y)
  {
    ExpectedEntryInRow(cells, width, height, id, ct, o, d);
  }

  /** Adding one admissible candidate to a partial row. */
  lemma RowOverStep(cells: map<NodeId, CellType>, width: int, height: int,
                    m: map<Direction, Position>, dirs: seq<Direction>, i: nat)
    requires i < |dirs| && dirs[i] in m
    requires forall j, k :: 0 <= j < k < |dirs| ==> dirs[j] != dirs[k]
    ensures var p := m[dirs[i]];
      RowOver(cells, width, height, m, dirs[..i + 1]) ==
        if Admissible(cells, width, height, p)
        then RowOver(cells, width, height, m, dirs[..i])[dirs[i] := GetNodeId(p.x, p.y)]
        else RowOver(cells, width, height, m, dirs[..i])
  {
    assert dirs[..i + 1] == dirs[..i] + [dirs[i]];
  }

  /** Recording one more entry of the row being built for `o`. */
  lemma WithRowStep(t: NeighborTable, o: Orientation, row: map<Direction, NodeId>, d: Direction, n: NodeId)
    requires o !in t
    ensures SetEntry(WithRow(t, o, row), o, d, n) == WithRow(t, o, row[d := n])
  {
  }

  /** `_add_all_valid_neighbors` (dirs = all four directions) and
      `_add_forward_backward_neighbors` (dirs = FORWARD, BACKWARD) share this
      loop: each candidate in the grid whose node is a road cell is recorded. */
  method AddValidNeighbors(g: RoadGraph, node: Node, o: Orientation,
                           nmap: map<Direction, Position>, dirs: seq<Direction>)
    requires g.NodesKeyed() && node.id in g.nodes && g.nodes[node.id] == node
    requires nmap == NeighborsMap(node.id.x, node.id.y, o)
    requires forall j, k :: 0 <= j < k < |dirs| ==> dirs[j] != dirs[k]
    requires o !in node.neighbors
    modifies node
    ensures node.neighbors == WithRow(old(node.neighbors), o, RowOver(g.CellTypes(), g.width, g.height, nmap, dirs))
  {
    ghost var t0 := node.neighbors;
    ghost var cells := g.CellTypes();
    assert dirs[..0] == [];
    for i := 0 to |dirs|
      invariant node.neighbors == WithRow(t0, o, RowOver(cells, g.width, g.height, nmap, dirs[..i]))
    {
      var d := dirs[i];
      NeighborsMapTotal(node.id.x, node.id.y, o, d);
      RowOverStep(cells, g.width, g.height, nmap, dirs, i);
      var p := nmap[d];
      if 0 <= p.x < g.width && 0 <= p.y < g.height {
        var neighbor := g.GetNode(p.x, p.y);
        if neighbor.Some? && neighbor.value.cellType.IsRoad() {
          WithRowStep(t0, o, RowOver(cells, g.width, g.height, nmap, dirs[..i]), d, neighbor.value.id);
          node.AddNeighbor(o, d, neighbor.value.id);
        }
      }
    }
    assert dirs[..|dirs|] == dirs;
  }

  /** `_set_neighbors_for_node`: records the row for facing `o` that the
      node's cell type allows. */
  method SetNeighborsForNode(g: RoadGraph, node: Node, o: Orientation)
    requires g.NodesKeyed() && node.id in g.nodes && g.nodes[node.id] == node
    requires o !in node.neighbors
    modifies node
    ensures node.neighbors == WithRow(old(node.neighbors), o, Row(g.CellTypes(), g.width, g.height, node.id, node.cellType, o))
  {
    var x, y := node.position.x, node.position.y;
    var nmap := NeighborsMap(x, y, o);
    ghost var dirs := CandidateDirections(node.cellType, o);
    assert Row(g.CellTypes(), g.width, g.height, node.id, node.cellType, o)
        == RowOver(g.CellTypes(), g.width, g.height, nmap, dirs);
    if node.cellType == Intersection {
      assert dirs == Directions();
      AddValidNeighbors(g, node, o, nmap, Directions());
    } else if node.cellType == HorizontalRoad && (o == East || o == West) {
      assert dirs == [Forward, Backward];
      AddValidNeighbors(g, node, o, nmap, [Forward, Backward]);
    } else if node.cellType == VerticalRoad && (o == North || o == South) {
      assert dirs == [Forward, Backward];
      AddValidNeighbors(g, node, o, nmap, [Forward, Backward]);
    } else {
      assert dirs == [];
      RowOverNone(g.CellTypes(), g.width, g.height, nmap);
    }
  }

  /** Trying no direction records nothing. */
  lemma RowOverNone(cells: map<NodeId, CellType>, width: int, height: int, m: map<Direction, Position>)
    ensures RowOver(cells, width, height, m, []) == map[]
  {
  }

  /** The four orientations in turn, as the loop of `_establish_neighbors`
      does for one road node. */
  method SetAllOrientations(g: RoadGraph, node: Node)
    requires g.NodesKeyed() && node.id in g.nodes && g.nodes[node.id] == node
    requires node.cellType.IsRoad() && node.neighbors == map[]
    modifies node
    ensures node.neighbors == ExpectedNeighbors(g.CellTypes(), g.width, g.height, node.id, node.cellType)
  {
    ghost var rows := Rows(g.CellTypes(), g.width, g.height, node.id, node.cellType);
    var orientations := Orientations();
    for k := 0 to 4
      invariant node.neighbors == TableUpTo(rows, k)
    {
      var o := orientations[k];
      TableUpToRows(rows, k, o);
      assert rows[o] == Row(g.CellTypes(), g.width, g.height, node.id, node.cellType, o);
      SetNeighborsForNode(g, node, o);
    }
    TableUpToAll(rows);
  }

  /** A node carries the neighbour table the builder gives it. */
  ghost predicate Built(node: Node, cells: map<NodeId, CellType>, width: int, height: int)
    reads node
  {
    node.neighbors == ExpectedNeighbors(cells, width, height, node.id, node.cellType)
  }

  /** `_establish_neighbors`: every road node gets, for each of the four
      orientations in turn, the row its cell type allows; non-road nodes are
      skipped. Nodes are independent of each other, so the order in which
      the loop visits them does not matter. */
  method EstablishNeighbors(g: RoadGraph)
    requires g.NodesKeyed()
    requires forall id :: id in g.nodes ==> g.nodes[id].neighbors == map[]
    modifies g.nodes.Values
    ensures forall id :: id in g.nodes ==> Built(g.nodes[id], g.CellTypes(), g.width, g.height)
  {
    ghost var cells := g.CellTypes();
    ghost var nodes := g.nodes;
    var todo := g.nodes.Keys;
    while todo != {}
      invariant g.nodes == nodes && todo <= nodes.Keys
      invariant forall id :: id in nodes && id !in todo ==> Built(nodes[id], cells, g.width, g.height)
      invariant forall id :: id in todo ==> nodes[id].neighbors == map[]
      decreases todo
    {
      var id :| id in todo;
      var node := g.nodes[id];
      assert forall i :: i in nodes && i != id ==> nodes[i] != node;
      if node.cellType.IsRoad() {
        SetAllOrientations(g, node);
      } else {
        NoEntriesOffRoadOrAtExit(cells, g.width, g.height, id, node.cellType);
      }
      todo := todo - {id};
    }
  }

  /** The ids of the layout cells that come before column `x` of row `y` in
      row-major order (rows may differ in length). */
  ghost function IdsBefore(layout: seq<seq<string>>, y: int, x: int): set<NodeId>
  {
    set r, c | 0 <= r < |layout| && 0 <= c < |layout[r]| && (r < y || (r == y && c < x)) :: NodeId(c, r)
  }

  /** The cell of `id` is a cell of the layout. */
  ghost predicate InLayout(layout: seq<seq<string>>, id: NodeId)
  {
    0 <= id.y < |layout| && 0 <= id.x < |layout[id.y]|
  }

  /** Every cell code of the layout names a cell type. */
  ghost predicate LayoutDecodes(layout: seq<seq<string>>)
  {
    forall r, c :: 0 <= r < |layout| && 0 <= c < |layout[r]| ==> CellTypeFromCode(layout[r][c]).Some?
  }

  lemma IdsBeforeMembers(layout: seq<seq<string>>, y: int, x: int, id: NodeId)
    ensures id in IdsBefore(layout, y, x) <==>
      InLayout(layout, id) && (id.y < y || (id.y == y && id.x < x))
  {
    if InLayout(layout, id) && (id.y < y || (id.y == y && id.x < x)) {
      assert NodeId(id.x, id.y) == id;
    }
  }

  /** The nodes hold one entry for each layout cell before (x, y), of the
      type its code decodes to. */
  ghost predicate DecodedUpTo(nodes: map<NodeId, Node>, layout: seq<seq<string>>, y: int, x: int)
  {
    && nodes.Keys == IdsBefore(layout, y, x)
    && forall id :: id in nodes ==>
         InLayout(layout, id) && CellTypeFromCode(layout[id.y][id.x]) == Some(nodes[id].cellType)
  }

  /** The exit positions are exactly the road cells on the boundary. */
  ghost predicate ExitsOf(nodes: map<NodeId, Node>, exits: set<Position>, width: int, height: int)
  {
    forall p :: p in exits <==>
      GetNodeId(p.x, p.y) in nodes && nodes[GetNodeId(p.x, p.y)].cellType.IsRoad() && OnBoundary(width, height, p)
  }

  /** Decoding cell (x, y) extends the decoded prefix by one cell. */
  lemma DecodedStep(nodes: map<NodeId, Node>, layout: seq<seq<string>>, y: int, x: int, node: Node)
    requires 0 <= y < |layout| && 0 <= x < |layout[y]|
    requires node.id == NodeId(x, y) && CellTypeFromCode(layout[y][x]) == Some(node.cellType)
    requires DecodedUpTo(nodes, layout, y, x)
    ensures node.id !in nodes
    ensures DecodedUpTo(nodes[node.id := node], layout, y, x + 1)
  {
    IdsBeforeMembers(layout, y, x, NodeId(x, y));
    forall id ensures id in IdsBefore(layout, y, x + 1) <==> id in IdsBefore(layout, y, x) || id == NodeId(x, y) {
      IdsBeforeMembers(layout, y, x + 1, id);
      IdsBeforeMembers(layout, y, x, id);
    }
  }

  /** Adding a new node keeps the exits those of `add_node`. */
  lemma ExitsStep(nodes: map<NodeId, Node>, exits: set<Position>, width: int, height: int, node: Node)
    requires ExitsOf(nodes, exits, width, height) && node.id !in nodes
    requires node.position == IdPosition(node.id)
    ensures ExitsOf(nodes[node.id := node],
                    if node.cellType.IsRoad() && OnBoundary(width, height, node.position)
                    then exits + {node.position} else exits,
                    width, height)
  {
  }

  /** The graph holds one node for each cell before (x, y), stored under its
      id, with the decoded cell type, and records as exits exactly the road
      cells on the boundary. */
  ghost predicate NodesFrom(g: RoadGraph, layout: seq<seq<string>>, y: int, x: int)
    reads g`nodes, g`exitPositions
  {
    && g.NodesKeyed()
    && DecodedUpTo(g.nodes, layout, y, x)
    && ExitsOf(g.nodes, g.exitPositions, g.width, g.height)
  }

  /** `NodesFrom`, and no node has neighbours yet. */
  ghost predicate CreatedUpTo(g: RoadGraph, layout: seq<seq<string>>, y: int, x: int)
    reads g`nodes, g`exitPositions, g.nodes.Values
  {
    && NodesFrom(g, layout, y, x)
    && (forall id :: id in g.nodes ==> g.nodes[id].neighbors == map[])
  }

  /** One iteration of the inner loop of `_create_nodes`: the node for
      cell (x, y), of the decoded type `ct`. */
  method CreateCell(g: RoadGraph, layout: seq<seq<string>>, y: int, x: int, ct: CellType)
    requires 0 <= y < |layout| && 0 <= x < |layout[y]|
    requires CellTypeFromCode(layout[y][x]) == Some(ct)
    requires CreatedUpTo(g, layout, y, x)
    modifies g`nodes, g`exitPositions
    ensures CreatedUpTo(g, layout, y, x + 1)
    ensures forall id :: id in g.nodes ==> (id in old(g.nodes) && g.nodes[id] == old(g.nodes[id])) || fresh(g.nodes[id])
  {
    var pos := Position(x, y);
    var nodeId := GetNodeId(x, y);
    var node := new Node(nodeId, pos, ct);
    DecodedStep(g.nodes, layout, y, x, node);
    ExitsStep(g.nodes, g.exitPositions, g.width, g.height, node);
    g.AddNode(node);
  }

  /** Finishing a row: the cells before the end of row `y` are those before
      the start of row y + 1. */
  lemma NextRow(layout: seq<seq<string>>, y: int)
    requires 0 <= y < |layout|
    ensures IdsBefore(layout, y + 1, 0) == IdsBefore(layout, y, |layout[y]|)
  {
    forall id ensures id in IdsBefore(layout, y + 1, 0) <==> id in IdsBefore(layout, y, |layout[y]|) {
      IdsBeforeMembers(layout, y + 1, 0, id);
      IdsBeforeMembers(layout, y, |layout[y]|, id);
    }
  }

  /** `_create_nodes`: one node per cell, row by row. An unknown cell code
      makes the Python code raise ValueError; here the method stops and returns
      false. */
  method CreateNodes(g: RoadGraph, layout: seq<seq<string>>) returns (ok: bool)
    requires g.nodes == map[] && g.exitPositions == {}
    modifies g`nodes, g`exitPositions
    ensures ok <==> LayoutDecodes(layout)
    ensures ok ==> CreatedUpTo(g, layout, |layout|, 0)
    ensures ok ==> forall id :: id in g.nodes ==> fresh(g.nodes[id])
  {
    for y := 0 to |layout|
      invariant CreatedUpTo(g, layout, y, 0)
      invariant forall id :: id in g.nodes ==> fresh(g.nodes[id])
      invariant forall r, c :: 0 <= r < y && 0 <= c < |layout[r]| ==> CellTypeFromCode(layout[r][c]).Some?
    {
      var row := layout[y];
      for x := 0 to |row|
        invariant CreatedUpTo(g, layout, y, x)
        invariant forall id :: id in g.nodes ==> fresh(g.nodes[id])
        invariant forall c :: 0 <= c < x ==> CellTypeFromCode(row[c]).Some?
      {
        var cellType := CellTypeFromCode(row[x]);
        if cellType.None? {
          return false;
        }
        CreateCell(g, layout, y, x, cellType.value);
      }
      NextRow(layout, y);
    }
    return true;
  }

  /** Every neighbour entry the builder records names a node of the graph. */
  lemma ExpectedEntriesClosed(g: RoadGraph)
    requires g.NodesKeyed()
    requires forall id :: id in g.nodes ==> Built(g.nodes[id], g.CellTypes(), g.width, g.height)
    ensures g.NeighborsClosed()
  {
    var cells := g.CellTypes();
    forall id, o, d | id in g.nodes && Lookup(g.nodes[id].neighbors, o, d).Some?
      ensures Lookup(g.nodes[id].neighbors, o, d).value in g.nodes
    {
      EntriesAdmissible(cells, g.width, g.height, id, g.nodes[id].cellType, o, d);
    }
  }

  /** `build_graph`: the graph of a `width` x `height` grid whose cells are
      the layout's codes. It fails exactly when some code is not a cell type.
      On success the graph is consistent, holds one node per layout cell with
      the decoded type, records as exits exactly the road cells on the
      boundary, gives every node the neighbour table its type and surroundings
      call for, and has no pre-computed paths yet. */
  method BuildGraph(width: int, height: int, layout: seq<seq<string>>) returns (r: Option<RoadGraph>)
    ensures r.Some? <==> LayoutDecodes(layout)
    ensures r.Some? ==> var g := r.value;
      && fresh(g) && g.width == width && g.height == height
      && g.Valid()
      && NodesFrom(g, layout, |layout|, 0)
      && (forall id :: id in g.nodes ==> Built(g.nodes[id], g.CellTypes(), g.width, g.height))
      && g.pathLookup == map[]
  {
    var g := new RoadGraph(width, height);
    var ok := CreateNodes(g, layout);
    if !ok {
      return None;
    }
    EstablishNeighbors(g);
    ExpectedEntriesClosed(g);
    return Some(g);
  }
}
