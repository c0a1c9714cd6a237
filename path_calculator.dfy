/** Pre-computed exit paths (app/core/path_calculator.py): a straight walk,
    and a walk that makes one or two turns, over the neighbour tables the
    graph builder records; every result is stored in the graph's path table. */
module PathCalculator {
  import opened Wrappers
  import opened Enums
  import opened Graph
  import opened GraphBuilder

  /** `turn_mappings`: the orientation a vehicle facing `o` takes after
      turning toward `d`. The table has no FORWARD column. */
  function TurnMapping(o: Orientation, d: Direction): Orientation
    requires d != Forward
  {
    match (o, d)
    case (North, LeftOf) => West
    case (North, RightOf) => East
    case (North, Backward) => South
    case (South, LeftOf) => East
    case (South, RightOf) => West
    case (South, Backward) => North
    case (East, LeftOf) => North
    case (East, RightOf) => South
    case (East, Backward) => West
    case (West, LeftOf) => South
    case (West, RightOf) => North
    case (West, Backward) => East
  }

  /** A LEFT then a RIGHT, in either order, gives back the orientation; two
      LEFTs or two RIGHTs give the BACKWARD orientation. */
  lemma TurnCompositions(o: Orientation)
    ensures TurnMapping(TurnMapping(o, LeftOf), RightOf) == o
    ensures TurnMapping(TurnMapping(o, RightOf), LeftOf) == o
    ensures TurnMapping(TurnMapping(o, LeftOf), LeftOf) == TurnMapping(o, Backward)
    ensures TurnMapping(TurnMapping(o, RightOf), RightOf) == TurnMapping(o, Backward)
  {
  }

  /** The cell to the LEFT (RIGHT, BEHIND) of a vehicle facing `o` is the
      cell straight ahead once it faces the turned orientation. */
  lemma TurnAgreesWithOffsets(x: int, y: int, o: Orientation, d: Direction)
    requires d != Forward
    ensures d in NeighborsMap(x, y, o) && Forward in NeighborsMap(x, y, TurnMapping(o, d))
    ensures NeighborsMap(x, y, o)[d] == NeighborsMap(x, y, TurnMapping(o, d))[Forward]
  {
    NeighborsMapTotal(x, y, o, d);
  }

  /** What a walk sees of one node: its position, cell type and neighbour
      table. */
  datatype NodeView = NodeView(position: Position, cellType: CellType, neighbors: NeighborTable)

  /** What a walk sees of the graph: its size and its nodes. The walks never
      change the graph, so they are specified over this value. */
  datatype Grid = Grid(width: int, height: int, cells: map<NodeId, NodeView>)

  /** The current state of `g` as a value. */
  ghost function Snapshot(g: RoadGraph): (G: Grid)
    reads g`nodes, g.nodes.Values
    ensures G.width == g.width && G.height == g.height && G.cells.Keys == g.nodes.Keys
    ensures forall id :: id in g.nodes ==>
      G.cells[id] == NodeView(g.nodes[id].position, g.nodes[id].cellType, g.nodes[id].neighbors)
  {
    Grid(g.width, g.height,
         map id | id in g.nodes :: NodeView(g.nodes[id].position, g.nodes[id].cellType, g.nodes[id].neighbors))
  }

  /** The graph facts every walk relies on: nodes stored under their ids and
      neighbour entries naming stored nodes. */
  ghost predicate WalkReady(g: RoadGraph)
    reads g`nodes, g.nodes.Values
  {
    g.NodesKeyed() && g.NeighborsClosed()
  }

  /** Every neighbour entry names a node of the grid. */
  ghost predicate Ready(G: Grid)
  {
    forall id, o, d :: id in G.cells && Lookup(G.cells[id].neighbors, o, d).Some? ==>
      Lookup(G.cells[id].neighbors, o, d).value in G.cells
  }

  /** A graph whose neighbour entries are closed is ready for the walks. */
  lemma SnapshotReady(g: RoadGraph)
    requires WalkReady(g)
    ensures Ready(Snapshot(g))
  {
  }

  /** The FORWARD neighbour of node `id` when facing `o`, if recorded. */
  function Ahead(G: Grid, id: NodeId, o: Orientation): (r: Option<NodeId>)
    requires Ready(G) && id in G.cells
    ensures r.Some? ==> r.value in G.cells
  {
    Lookup(G.cells[id].neighbors, o, Forward)
  }

  /** Whether node `id` lies on the grid boundary. The Python code tests the
      position only, whatever the facing (a TODO in the Python code says so); it
      passes the node itself to `is_exit_position`, which reads coordinates,
      so the model tests the node's position, the evident intent. */
  predicate AtExit(G: Grid, id: NodeId)
    requires id in G.cells
  {
    OnBoundary(G.width, G.height, G.cells[id].position)
  }

  /** `_continue_straight_to_exit` from node `cur` facing `o`, with `path`
      already walked and the nodes in `visited` already left: succeed at the
      first boundary node, fail on a node seen before or on a missing
      FORWARD entry, else step FORWARD and go on. */
  function StraightWalk(G: Grid, cur: NodeId, o: Orientation, path: seq<NodeId>,
                        visited: set<NodeId>): PathInfo
    requires Ready(G) && cur in G.cells && visited <= G.cells.Keys
    decreases G.cells.Keys - visited
  {
    if AtExit(G, cur) then PathInfo(path, Some(G.cells[cur].position), true)
    else if cur in visited then InvalidPath()
    else
      var next := Ahead(G, cur, o);
      if next.None? then InvalidPath()
      else StraightWalk(G, next.value, o, path + [next.value], visited + {cur})
  }

  /** `_calculate_straight_path`: the first step leaves the start node, which
      is not part of the path. */
  function StraightPath(G: Grid, start: NodeId, o: Orientation): PathInfo
    requires Ready(G) && start in G.cells
  {
    var next := Ahead(G, start, o);
    if next.None? then InvalidPath()
    else StraightWalk(G, next.value, o, [next.value], {})
  }

  /** The (node, orientation, turns made) states the turning phase can be in
      when `n` turns are asked for. */
  function TurnSpace(G: Grid, n: nat): set<(NodeId, Orientation, nat)>
  {
    set id, o, t | id in G.cells.Keys && o in Orientations() && 0 <= t <= n :: (id, o, t)
  }

  /** What the turning phase may rely on about its state. */
  ghost predicate TurnState(G: Grid, n: nat, cur: NodeId, t: nat, path: seq<NodeId>,
                      visited: set<(NodeId, Orientation, nat)>)
  {
    && Ready(G) && cur in G.cells && t <= n
    && |path| >= 1 && (forall i :: 0 <= i < |path| ==> path[i] in G.cells)
    && visited <= TurnSpace(G, n)
  }

  /** A turn toward `td` may be taken from `cur` facing `o`: the vehicle has
      moved at least once, the previous path entry is not an intersection,
      and the turn neighbour is recorded. The Python code reads an
      `is_intersection` attribute the cell types do not have; the model uses
      the evident intent, the INTERSECTION cell type. */
  predicate CanTurn(G: Grid, cur: NodeId, o: Orientation, td: Direction, path: seq<NodeId>)
    requires cur in G.cells && forall i :: 0 <= i < |path| ==> path[i] in G.cells
  {
    && |path| >= 2
    && G.cells[path[|path| - 2]].cellType != Intersection
    && Lookup(G.cells[cur].neighbors, o, td).Some?
  }

  /** `_calculate_turn_path` from state (cur, o, t): while fewer than `n`
      turns were made, fail on a repeated state, else turn when allowed (the
      turned-into cell is appended but the current node stays put), else
      step FORWARD, succeeding at once on a boundary node; after the last
      turn, walk straight from the current node in the new orientation. */
  function TurnWalk(G: Grid, n: nat, td: Direction, cur: NodeId, o: Orientation, t: nat,
                    path: seq<NodeId>, visited: set<(NodeId, Orientation, nat)>): PathInfo
    requires td != Forward
    requires TurnState(G, n, cur, t, path, visited)
    decreases TurnSpace(G, n) - visited
  {
    if t >= n then StraightWalk(G, cur, o, path, {})
    else if (cur, o, t) in visited then InvalidPath()
    else
      EnumerationsComplete(o, Straight, td);
      var visited' := visited + {(cur, o, t)};
      if CanTurn(G, cur, o, td, path) then
        var turned := Lookup(G.cells[cur].neighbors, o, td).value;
        TurnWalk(G, n, td, cur, TurnMapping(o, td), t + 1, path + [turned], visited')
      else
        var next := Ahead(G, cur, o);
        if next.None? then InvalidPath()
        else if AtExit(G, next.value) then
          PathInfo(path + [next.value], Some(G.cells[next.value].position), true)
        else TurnWalk(G, n, td, next.value, o, t, path + [next.value], visited')
  }

  /** Every node, orientation and turn count up to `n` lies in the turn space. */
  lemma InTurnSpace(G: Grid, n: nat, id: NodeId, o: Orientation, t: nat)
    requires id in G.cells && t <= n
    ensures (id, o, t) in TurnSpace(G, n)
  {
    EnumerationsComplete(o, Straight, Forward);
  }

  /** One turn of the turning phase. */
  lemma TurnWalkTurnStep(G: Grid, n: nat, td: Direction, cur: NodeId, o: Orientation, t: nat,
                         path: seq<NodeId>, visited: set<(NodeId, Orientation, nat)>)
    requires td != Forward && TurnState(G, n, cur, t, path, visited)
    requires t < n && (cur, o, t) !in visited && CanTurn(G, cur, o, td, path)
    ensures var turned := Lookup(G.cells[cur].neighbors, o, td).value;
      && TurnState(G, n, cur, t + 1, path + [turned], visited + {(cur, o, t)})
      && TurnWalk(G, n, td, cur, o, t, path, visited) ==
         TurnWalk(G, n, td, cur, TurnMapping(o, td), t + 1, path + [turned], visited + {(cur, o, t)})
  {
    InTurnSpace(G, n, cur, o, t);
  }

  /** One FORWARD step of the turning phase. */
  lemma TurnWalkForwardStep(G: Grid, n: nat, td: Direction, cur: NodeId, o: Orientation, t: nat,
                            path: seq<NodeId>, visited: set<(NodeId, Orientation, nat)>)
    requires td != Forward && TurnState(G, n, cur, t, path, visited)
    requires t < n && (cur, o, t) !in visited && !CanTurn(G, cur, o, td, path)
    requires Ahead(G, cur, o).Some?
    ensures var next := Ahead(G, cur, o).value;
      && TurnState(G, n, next, t, path + [next], visited + {(cur, o, t)})
      && TurnWalk(G, n, td, cur, o, t, path, visited) ==
         if AtExit(G, next) then PathInfo(path + [next], Some(G.cells[next].position), true)
         else TurnWalk(G, n, td, next, o, t, path + [next], visited + {(cur, o, t)})
  {
    InTurnSpace(G, n, cur, o, t);
  }

  /** `_calculate_path`: STRAIGHT is the straight walk, LEFT and RIGHT one
      turn, the two U-turns two turns the same way. */
  function PathFor(G: Grid, start: NodeId, o: Orientation, m: MovementRule): PathInfo
    requires Ready(G) && start in G.cells
  {
    match m
    case Straight => StraightPath(G, start, o)
    case Left => TurnWalk(G, 1, LeftOf, start, o, 0, [start], {})
    case Right => TurnWalk(G, 1, RightOf, start, o, 0, [start], {})
    case LeftUTurn => TurnWalk(G, 2, LeftOf, start, o, 0, [start], {})
    case RightUTurn => TurnWalk(G, 2, RightOf, start, o, 0, [start], {})
  }

  /** The five movement rules' paths from `id` facing `o`. */
  function RulePaths(G: Grid, id: NodeId, o: Orientation): map<MovementRule, PathInfo>
    requires Ready(G) && id in G.cells
  {
    map m | m in MovementRules() :: PathFor(G, id, o, m)
  }

  /** The table entry `calculate_all_paths` stores for a road node: all four
      orientations, each with all five movement rules. */
  function NodePaths(G: Grid, id: NodeId): map<Orientation, map<MovementRule, PathInfo>>
    requires Ready(G) && id in G.cells
  {
    map o | o in Orientations() :: RulePaths(G, id, o)
  }

  /** `_continue_straight_to_exit`. */
  method ContinueStraightToExit(g: RoadGraph, current: Node, o: Orientation, path: seq<NodeId>)
    returns (r: PathInfo)
    requires WalkReady(g) && current.id in g.nodes && g.nodes[current.id] == current
    ensures Ready(Snapshot(g))
    ensures r == StraightWalk(Snapshot(g), current.id, o, path, {})
  {
    ghost var G := Snapshot(g);
    SnapshotReady(g);
    var cur := current;
    var p := path;
    var visited: set<NodeId> := {};
    while true
      invariant cur.id in g.nodes && g.nodes[cur.id] == cur && visited <= G.cells.Keys
      invariant StraightWalk(G, current.id, o, path, {}) == StraightWalk(G, cur.id, o, p, visited)
      decreases G.cells.Keys - visited
    {
      if g.IsExitPosition(cur.position) {
        return PathInfo(p, Some(cur.position), true);
      }
      if cur.id in visited {
        return InvalidPath();
      }
      visited := visited + {cur.id};
      if o !in cur.neighbors || Forward !in cur.neighbors[o] {
        return InvalidPath();
      }
      assert Ahead(G, cur.id, o).Some?;
      cur := g.nodes[cur.neighbors[o][Forward]];
      p := p + [cur.id];
    }
  }

  /** `_calculate_straight_path`. */
  method CalculateStraightPath(g: RoadGraph, start: Node, o: Orientation) returns (r: PathInfo)
    requires WalkReady(g) && start.id in g.nodes && g.nodes[start.id] == start
    ensures Ready(Snapshot(g))
    ensures r == StraightPath(Snapshot(g), start.id, o)
  {
    SnapshotReady(g);
    if o !in start.neighbors || Forward !in start.neighbors[o] {
      return InvalidPath();
    }
    assert Ahead(Snapshot(g), start.id, o).Some?;
    var next := g.nodes[start.neighbors[o][Forward]];
    r := ContinueStraightToExit(g, next, o, [next.id]);
  }

  /** `_calculate_turn_path`. The Python code nests a loop that runs until a turn
      is found inside a loop that runs until `num_turns` turns were made;
      since the inner loop ends exactly when a turn raises the count, the
      two are written here as one loop whose body is one inner iteration. */
  method CalculateTurnPath(g: RoadGraph, start: Node, o: Orientation, td: Direction, n: nat)
    returns (r: PathInfo)
    requires WalkReady(g) && start.id in g.nodes && g.nodes[start.id] == start
    requires td != Forward
    ensures TurnState(Snapshot(g), n, start.id, 0, [start.id], {})
    ensures r == TurnWalk(Snapshot(g), n, td, start.id, o, 0, [start.id], {})
  {
    ghost var G := Snapshot(g);
    SnapshotReady(g);
    var path := [start.id];
    var cur := start;
    var co := o;
    var visited: set<(NodeId, Orientation, nat)> := {};
    var turnsMade: nat := 0;
    while turnsMade < n
      invariant TurnState(G, n, cur.id, turnsMade, path, visited) && g.nodes[cur.id] == cur
      invariant TurnWalk(G, n, td, start.id, o, 0, [start.id], {}) ==
                TurnWalk(G, n, td, cur.id, co, turnsMade, path, visited)
      decreases TurnSpace(G, n) - visited
    {
      var state := (cur.id, co, turnsMade);
      if state in visited {
        return InvalidPath();
      }
      // a turn needs a previous entry that is not an intersection and a
      // recorded turn neighbour
      var canTurn := |path| >= 2 && g.nodes[path[|path| - 2]].cellType != Intersection
                     && co in cur.neighbors && td in cur.neighbors[co];
      assert G.cells[cur.id].neighbors == cur.neighbors;
      assert |path| >= 2 ==> G.cells[path[|path| - 2]].cellType == g.nodes[path[|path| - 2]].cellType;
      assert canTurn == CanTurn(G, cur.id, co, td, path);
      if canTurn {
        TurnWalkTurnStep(G, n, td, cur.id, co, turnsMade, path, visited);
        visited := visited + {state};
        var next := g.nodes[cur.neighbors[co][td]];
        co := TurnMapping(co, td);
        path := path + [next.id];
        turnsMade := turnsMade + 1;
      } else {
        if co !in cur.neighbors || Forward !in cur.neighbors[co] {
          return InvalidPath();
        }
        TurnWalkForwardStep(G, n, td, cur.id, co, turnsMade, path, visited);
        visited := visited + {state};
        cur := g.nodes[cur.neighbors[co][Forward]];
        path := path + [cur.id];
        if g.IsExitPosition(cur.position) {
          return PathInfo(path, Some(cur.position), true);
        }
      }
    }
    r := ContinueStraightToExit(g, cur, co, path);
  }

  /** `_calculate_path`. */
  method CalculatePath(g: RoadGraph, start: Node, o: Orientation, m: MovementRule) returns (r: PathInfo)
    requires WalkReady(g) && start.id in g.nodes && g.nodes[start.id] == start
    ensures Ready(Snapshot(g))
    ensures r == PathFor(Snapshot(g), start.id, o, m)
  {
    SnapshotReady(g);
    match m
    case Straight => r := CalculateStraightPath(g, start, o);
    case Left => r := CalculateTurnPath(g, start, o, LeftOf, 1);
    case Right => r := CalculateTurnPath(g, start, o, RightOf, 1);
    case LeftUTurn => r := CalculateTurnPath(g, start, o, LeftOf, 2);
    case RightUTurn => r := CalculateTurnPath(g, start, o, RightOf, 2);
  }

  /** One more movement rule of a prefix of `rules`. */
  lemma RulePrefixStep(G: Grid, id: NodeId, o: Orientation, rules: seq<MovementRule>, j: nat)
    requires Ready(G) && id in G.cells && j < |rules|
    ensures (map m | m in rules[..j + 1] :: PathFor(G, id, o, m)) ==
      (map m | m in rules[..j] :: PathFor(G, id, o, m))[rules[j] := PathFor(G, id, o, rules[j])]
  {
    assert rules[..j + 1] == rules[..j] + [rules[j]];
  }

  /** One more orientation of a prefix of `os`. */
  lemma OrientationPrefixStep(G: Grid, id: NodeId, os: seq<Orientation>, k: nat)
    requires Ready(G) && id in G.cells && k < |os|
    ensures (map o | o in os[..k + 1] :: RulePaths(G, id, o)) ==
      (map o | o in os[..k] :: RulePaths(G, id, o))[os[k] := RulePaths(G, id, os[k])]
  {
    assert os[..k + 1] == os[..k] + [os[k]];
  }

  /** The five movement rules from one node and facing, in turn. */
  method CalculateRulePaths(g: RoadGraph, node: Node, o: Orientation)
    returns (paths: map<MovementRule, PathInfo>)
    requires WalkReady(g) && node.id in g.nodes && g.nodes[node.id] == node
    ensures Ready(Snapshot(g))
    ensures paths == RulePaths(Snapshot(g), node.id, o)
  {
    ghost var G := Snapshot(g);
    SnapshotReady(g);
    var rules := MovementRules();
    paths := map[];
    for j := 0 to 5
      invariant Snapshot(g) == G
      invariant paths == map m | m in rules[..j] :: PathFor(G, node.id, o, m)
    {
      RulePrefixStep(G, node.id, o, rules, j);
      var info := CalculatePath(g, node, o, rules[j]);
      paths := paths[rules[j] := info];
    }
    assert rules[..5] == rules;
  }

  /** The four orientations from one node, in turn. */
  method CalculateNodePaths(g: RoadGraph, node: Node)
    returns (paths: map<Orientation, map<MovementRule, PathInfo>>)
    requires WalkReady(g) && node.id in g.nodes && g.nodes[node.id] == node
    ensures Ready(Snapshot(g))
    ensures paths == NodePaths(Snapshot(g), node.id)
  {
    ghost var G := Snapshot(g);
    SnapshotReady(g);
    var orientations := Orientations();
    paths := map[];
    for k := 0 to 4
      invariant Snapshot(g) == G
      invariant paths == map o | o in orientations[..k] :: RulePaths(G, node.id, o)
    {
      OrientationPrefixStep(G, node.id, orientations, k);
      var row := CalculateRulePaths(g, node, orientations[k]);
      paths := paths[orientations[k] := row];
    }
    assert orientations[..4] == orientations;
  }

  /** The ids in `ids` whose cells are road cells. */
  function RoadIds(G: Grid, ids: set<NodeId>): set<NodeId>
    requires ids <= G.cells.Keys
  {
    set id | id in ids && G.cells[id].cellType.IsRoad()
  }

  /** The path table after the nodes in `done` were processed, starting from
      table `t`: each road node among them holds its computed paths, every
      other entry of `t` is kept. */
  function FilledTable(G: Grid, t: PathTable, done: set<NodeId>): PathTable
    requires Ready(G) && done <= G.cells.Keys
  {
    map id | id in t.Keys + RoadIds(G, done) ::
      if id in RoadIds(G, done) then NodePaths(G, id) else t[id]
  }

  /** Processing one more node. */
  lemma FilledTableStep(G: Grid, t: PathTable, done: set<NodeId>, id: NodeId)
    requires Ready(G) && done <= G.cells.Keys && id in G.cells
    ensures FilledTable(G, t, done + {id}) ==
      if G.cells[id].cellType.IsRoad() then FilledTable(G, t, done)[id := NodePaths(G, id)]
      else FilledTable(G, t, done)
  {
    assert RoadIds(G, done + {id}) ==
      if G.cells[id].cellType.IsRoad() then RoadIds(G, done) + {id} else RoadIds(G, done);
  }

  /** `calculate_all_paths` over all nodes: every road node (EXIT cells
      included) has an entry for all four orientations and all five rules,
      holding the path `_calculate_path` computes; no other id gains an
      entry, and entries of ids that are not road nodes are kept. */
  lemma {:induction false} FilledTableEntries(G: Grid, t: PathTable, id: NodeId, o: Orientation, m: MovementRule)
    requires Ready(G)
    ensures id in FilledTable(G, t, G.cells.Keys) <==> id in t || (id in G.cells && G.cells[id].cellType.IsRoad())
    ensures id in G.cells && G.cells[id].cellType.IsRoad() ==>
      PathLookup(FilledTable(G, t, G.cells.Keys), id, o, m) == Some(PathFor(G, id, o, m))
    ensures id in t && !(id in G.cells && G.cells[id].cellType.IsRoad()) ==>
      FilledTable(G, t, G.cells.Keys)[id] == t[id]
  {
    if id in G.cells && G.cells[id].cellType.IsRoad() {
      assert id in RoadIds(G, G.cells.Keys);
      StoredPathLookup(G, FilledTable(G, t, G.cells.Keys), id, o, m);
    }
  }

  /** `calculate_all_paths`: fills the path table node by node. The table is
      built in a local map and stored once; no other code observes it in
      between. */
  method CalculateAllPaths(g: RoadGraph)
    requires WalkReady(g)
    modifies g`pathLookup
    ensures Ready(Snapshot(g))
    ensures g.pathLookup == FilledTable(Snapshot(g), old(g.pathLookup), g.nodes.Keys)
  {
    ghost var G := Snapshot(g);
    SnapshotReady(g);
    var table := g.pathLookup;
    var todo := g.nodes.Keys;
    while todo != {}
      invariant Snapshot(g) == G
      invariant todo <= g.nodes.Keys
      invariant table == FilledTable(G, old(g.pathLookup), g.nodes.Keys - todo)
      decreases todo
    {
      var id :| id in todo;
      var node := g.nodes[id];
      FilledTableStep(G, old(g.pathLookup), g.nodes.Keys - todo, id);
      if node.cellType.IsRoad() {
        var paths := CalculateNodePaths(g, node);
        assert paths == NodePaths(G, id);
        table := table[id := paths];
      }
      assert g.nodes.Keys - (todo - {id}) == (g.nodes.Keys - todo) + {id};
      todo := todo - {id};
    }
    assert g.nodes.Keys - todo == g.nodes.Keys;
    g.pathLookup := table;
    assert Snapshot(g) == G;
  }

  /** After `calculate_all_paths`, the stored entry for (id, o, m) of a road
      node is the path `_calculate_path` computes. */
  lemma StoredPathLookup(G: Grid, t: PathTable, id: NodeId, o: Orientation, m: MovementRule)
    requires Ready(G) && id in G.cells && id in t && t[id] == NodePaths(G, id)
    ensures PathLookup(t, id, o, m) == Some(PathFor(G, id, o, m))
  {
    EnumerationsComplete(o, m, Forward);
  }

  /** The shape every stored path has: an invalid result is the empty one,
      and a valid result ends at a node of the grid whose position is the
      exit point, on the boundary. */
  ghost predicate WellShaped(G: Grid, r: PathInfo)
  {
    && (!r.valid ==> r == InvalidPath())
    && (r.valid ==>
          && |r.exitPath| >= 1
          && r.exitPath[|r.exitPath| - 1] in G.cells
          && r.exitPoint == Some(G.cells[r.exitPath[|r.exitPath| - 1]].position)
          && OnBoundary(G.width, G.height, r.exitPoint.value))
  }

  /** No id occurs twice in `s`. */
  predicate Distinct(s: seq<NodeId>)
  {
    forall i, j :: 0 <= i < j < |s| ==> s[i] != s[j]
  }

  /** A path whose entries before the last are distinct and do not hold
      the last is distinct. */
  lemma DistinctLast(s: seq<NodeId>)
    requires |s| >= 1 && Distinct(s[..|s| - 1]) && s[|s| - 1] !in s[..|s| - 1]
    ensures Distinct(s)
  {
    var n := |s| - 1;
    forall i, j | 0 <= i < j < |s| ensures s[i] != s[j] {
      assert s[i] == s[..n][i];
      if j < n {
        assert s[j] == s[..n][j];
      }
    }
  }

  /** The straight walk ends well shaped and only extends the path walked so
      far, provided the current node is the last one walked or is not on the
      boundary. */
  lemma {:induction false} StraightWalkShape(G: Grid, cur: NodeId, o: Orientation, path: seq<NodeId>,
                                             visited: set<NodeId>)
    requires Ready(G) && cur in G.cells && visited <= G.cells.Keys
    requires |path| >= 1 && (path[|path| - 1] == cur || !AtExit(G, cur))
    ensures WellShaped(G, StraightWalk(G, cur, o, path, visited))
    ensures StraightWalk(G, cur, o, path, visited).valid ==>
      path <= StraightWalk(G, cur, o, path, visited).exitPath
    decreases G.cells.Keys - visited
  {
    if !AtExit(G, cur) && cur !in visited {
      var next := Ahead(G, cur, o);
      if next.Some? {
        StraightWalkShape(G, next.value, o, path + [next.value], visited + {cur});
      }
    }
  }

  /** The straight phase never repeats a node: when the walked path holds
      no repeat before its last entry, the nodes left so far are exactly
      those entries and none of them is on the boundary, a valid result
      holds no repeated id. */
  lemma {:induction false} StraightWalkDistinct(G: Grid, cur: NodeId, o: Orientation, path: seq<NodeId>,
                                                visited: set<NodeId>)
    requires Ready(G) && cur in G.cells && visited <= G.cells.Keys
    requires |path| >= 1 && path[|path| - 1] == cur && Distinct(path[..|path| - 1])
    requires forall x :: x in visited <==> x in path[..|path| - 1]
    requires forall x :: x in visited ==> !AtExit(G, x)
    ensures StraightWalk(G, cur, o, path, visited).valid ==>
      Distinct(StraightWalk(G, cur, o, path, visited).exitPath)
    decreases G.cells.Keys - visited
  {
    if AtExit(G, cur) {
      assert path == path[..|path| - 1] + [cur];
    } else if cur !in visited {
      var next := Ahead(G, cur, o);
      if next.Some? {
        var path' := path + [next.value];
        assert path'[..|path'| - 1] == path;
        DistinctLast(path);
        StraightWalkDistinct(G, next.value, o, path', visited + {cur});
      }
    }
  }

  /** The turning phase ends well shaped and only extends the path walked so
      far. While no step was taken the path is the current node alone;
      afterwards the current node is never on the boundary, since reaching
      one ends the walk. */
  lemma {:induction false} TurnWalkShape(G: Grid, n: nat, td: Direction, cur: NodeId, o: Orientation,
                                         t: nat, path: seq<NodeId>,
                                         visited: set<(NodeId, Orientation, nat)>)
    requires td != Forward && TurnState(G, n, cur, t, path, visited)
    requires (|path| == 1 && path[0] == cur) || (|path| >= 2 && !AtExit(G, cur))
    ensures WellShaped(G, TurnWalk(G, n, td, cur, o, t, path, visited))
    ensures TurnWalk(G, n, td, cur, o, t, path, visited).valid ==>
      path <= TurnWalk(G, n, td, cur, o, t, path, visited).exitPath
    decreases TurnSpace(G, n) - visited
  {
    if t >= n {
      StraightWalkShape(G, cur, o, path, {});
    } else if (cur, o, t) !in visited {
      EnumerationsComplete(o, Straight, td);
      if CanTurn(G, cur, o, td, path) {
        var turned := Lookup(G.cells[cur].neighbors, o, td).value;
        TurnWalkTurnStep(G, n, td, cur, o, t, path, visited);
        TurnWalkShape(G, n, td, cur, TurnMapping(o, td), t + 1, path + [turned], visited + {(cur, o, t)});
        assert path <= path + [turned];
      } else if Ahead(G, cur, o).Some? {
        var next := Ahead(G, cur, o).value;
        TurnWalkForwardStep(G, n, td, cur, o, t, path, visited);
        assert path <= path + [next];
        if !AtExit(G, next) {
          TurnWalkShape(G, n, td, next, o, t, path + [next], visited + {(cur, o, t)});
        }
      }
    }
  }

  /** A turn is never taken at the start cell: a valid turn path begins with
      the start node followed by its FORWARD neighbour. */
  lemma TurnPathBegins(G: Grid, n: nat, td: Direction, start: NodeId, o: Orientation)
    requires Ready(G) && start in G.cells && td != Forward && n >= 1
    ensures TurnState(G, n, start, 0, [start], {})
    ensures TurnWalk(G, n, td, start, o, 0, [start], {}).valid ==>
      && Ahead(G, start, o).Some?
      && [start, Ahead(G, start, o).value] <= TurnWalk(G, n, td, start, o, 0, [start], {}).exitPath
  {
    assert !CanTurn(G, start, o, td, [start]);
    if Ahead(G, start, o).Some? {
      var next := Ahead(G, start, o).value;
      TurnWalkForwardStep(G, n, td, start, o, 0, [start], {});
      assert [start] + [next] == [start, next];
      assert {} + {(start, o, 0)} == {(start, o, 0)};
      if !AtExit(G, next) {
        var r := TurnWalk(G, n, td, next, o, 0, [start, next], {(start, o, 0)});
        assert TurnWalk(G, n, td, start, o, 0, [start], {}) == r;
        TurnWalkShape(G, n, td, next, o, 0, [start, next], {(start, o, 0)});
      }
    }
  }

  /** `_calculate_path`'s results: every invalid result is the empty one; a
      valid one ends at its exit point, on the boundary; a straight path
      leaves the start node out and begins with its FORWARD neighbour; a
      turn path begins with the start node and then its FORWARD neighbour;
      a straight path repeats no node. */
  lemma PathForShape(G: Grid, start: NodeId, o: Orientation, m: MovementRule)
    requires Ready(G) && start in G.cells
    ensures WellShaped(G, PathFor(G, start, o, m))
    ensures PathFor(G, start, o, m).valid ==> Ahead(G, start, o).Some?
    ensures PathFor(G, start, o, m).valid && m == Straight ==>
      && PathFor(G, start, o, m).exitPath[0] == Ahead(G, start, o).value
      && Distinct(PathFor(G, start, o, m).exitPath)
    ensures PathFor(G, start, o, m).valid && m != Straight ==>
      [start, Ahead(G, start, o).value] <= PathFor(G, start, o, m).exitPath
  {
    match m
    case Straight =>
      var next := Ahead(G, start, o);
      if next.Some? {
        StraightWalkShape(G, next.value, o, [next.value], {});
        StraightWalkDistinct(G, next.value, o, [next.value], {});
      }
    case Left =>
      TurnPathBegins(G, 1, LeftOf, start, o);
      TurnWalkShape(G, 1, LeftOf, start, o, 0, [start], {});
    case Right =>
      TurnPathBegins(G, 1, RightOf, start, o);
      TurnWalkShape(G, 1, RightOf, start, o, 0, [start], {});
    case LeftUTurn =>
      TurnPathBegins(G, 2, LeftOf, start, o);
      TurnWalkShape(G, 2, LeftOf, start, o, 0, [start], {});
    case RightUTurn =>
      TurnPathBegins(G, 2, RightOf, start, o);
      TurnWalkShape(G, 2, RightOf, start, o, 0, [start], {});
  }

  /** Every id of `s` names a node of the grid. */
  ghost predicate InCells(G: Grid, s: seq<NodeId>)
  {
    forall i :: 0 <= i < |s| ==> s[i] in G.cells
  }

  /** The straight walk only appends nodes of the grid. */
  lemma {:induction false} StraightWalkInCells(G: Grid, cur: NodeId, o: Orientation, path: seq<NodeId>,
                                               visited: set<NodeId>)
    requires Ready(G) && cur in G.cells && visited <= G.cells.Keys && InCells(G, path)
    ensures InCells(G, StraightWalk(G, cur, o, path, visited).exitPath)
    decreases G.cells.Keys - visited
  {
    if !AtExit(G, cur) && cur !in visited && Ahead(G, cur, o).Some? {
      var next := Ahead(G, cur, o).value;
      StraightWalkInCells(G, next, o, path + [next], visited + {cur});
    }
  }

  /** The turning phase only appends nodes of the grid. */
  lemma {:induction false} TurnWalkInCells(G: Grid, n: nat, td: Direction, cur: NodeId, o: Orientation,
                                           t: nat, path: seq<NodeId>,
                                           visited: set<(NodeId, Orientation, nat)>)
    requires td != Forward && TurnState(G, n, cur, t, path, visited)
    ensures InCells(G, TurnWalk(G, n, td, cur, o, t, path, visited).exitPath)
    decreases TurnSpace(G, n) - visited
  {
    if t >= n {
      StraightWalkInCells(G, cur, o, path, {});
    } else if (cur, o, t) !in visited {
      EnumerationsComplete(o, Straight, td);
      if CanTurn(G, cur, o, td, path) {
        var turned := Lookup(G.cells[cur].neighbors, o, td).value;
        TurnWalkTurnStep(G, n, td, cur, o, t, path, visited);
        TurnWalkInCells(G, n, td, cur, TurnMapping(o, td), t + 1, path + [turned], visited + {(cur, o, t)});
      } else if Ahead(G, cur, o).Some? {
        var next := Ahead(G, cur, o).value;
        TurnWalkForwardStep(G, n, td, cur, o, t, path, visited);
        if !AtExit(G, next) {
          TurnWalkInCells(G, n, td, next, o, t, path + [next], visited + {(cur, o, t)});
        }
      }
    }
  }

  /** Every id of every path `_calculate_path` returns names a node of the
      grid, so the solver may look each one up. */
  lemma PathForInCells(G: Grid, start: NodeId, o: Orientation, m: MovementRule)
    requires Ready(G) && start in G.cells
    ensures InCells(G, PathFor(G, start, o, m).exitPath)
  {
    match m
    case Straight =>
      var next := Ahead(G, start, o);
      if next.Some? {
        StraightWalkInCells(G, next.value, o, [next.value], {});
      }
    case Left =>
      TurnWalkInCells(G, 1, LeftOf, start, o, 0, [start], {});
    case Right =>
      TurnWalkInCells(G, 1, RightOf, start, o, 0, [start], {});
    case LeftUTurn =>
      TurnWalkInCells(G, 2, LeftOf, start, o, 0, [start], {});
    case RightUTurn =>
      TurnWalkInCells(G, 2, RightOf, start, o, 0, [start], {});
  }

  /** Filling a path table whose stored paths name only nodes of the grid
      keeps it so. */
  lemma FilledTableClosed(G: Grid, t: PathTable)
    requires Ready(G) && PathsClosed(G.cells.Keys, t)
    ensures PathsClosed(G.cells.Keys, FilledTable(G, t, G.cells.Keys))
  {
    var f := FilledTable(G, t, G.cells.Keys);
    forall id, o, m | PathLookup(f, id, o, m).Some?
      ensures forall i :: 0 <= i < |PathLookup(f, id, o, m).value.exitPath| ==>
        PathLookup(f, id, o, m).value.exitPath[i] in G.cells.Keys
    {
      FilledTableEntries(G, t, id, o, m);
      if id in G.cells && G.cells[id].cellType.IsRoad() {
        PathForInCells(G, id, o, m);
      } else {
        assert PathLookup(f, id, o, m) == PathLookup(t, id, o, m);
      }
    }
  }

  /** A cell type that tries direction `d` facing `o` tries FORWARD facing
      the orientation the turn table gives for `d`. */
  lemma TurnKeepsForwardCandidate(ct: CellType, o: Orientation, d: Direction)
    requires d != Forward && d in CandidateDirections(ct, o)
    ensures Forward in CandidateDirections(ct, TurnMapping(o, d))
  {
    match ct
    case Intersection =>
      EnumerationsComplete(TurnMapping(o, d), Straight, Forward);
    case HorizontalRoad =>
    case VerticalRoad =>
  }

  /** On a table the builder makes, the cell reached by a LEFT, RIGHT or
      BACKWARD entry facing `o` is the FORWARD entry facing the orientation
      the turn table gives; so the hypothesis of `TurnedCellRepeated` holds
      on every built graph. */
  lemma BuiltTurnIsForward(cells: map<NodeId, CellType>, width: int, height: int,
                           id: NodeId, ct: CellType, o: Orientation, d: Direction)
    requires d != Forward
    requires Lookup(ExpectedNeighbors(cells, width, height, id, ct), o, d).Some?
    ensures Lookup(ExpectedNeighbors(cells, width, height, id, ct), TurnMapping(o, d), Forward) ==
      Lookup(ExpectedNeighbors(cells, width, height, id, ct), o, d)
  {
    var o' := TurnMapping(o, d);
    EntriesAdmissible(cells, width, height, id, ct, o, d);
    ExpectedEntryInRow(cells, width, height, id, ct, o, d);
    TurnAgreesWithOffsets(id.x, id.y, o, d);
    assert d in CandidateDirections(ct, o);
    TurnKeepsForwardCandidate(ct, o, d);
    var p := NeighborsMap(id.x, id.y, o)[d];
    var row := Row(cells, width, height, id, ct, o');
    assert Forward in row && row[Forward] == GetNodeId(p.x, p.y);
    var rows := Rows(cells, width, height, id, ct);
    assert rows[o'] == row;
    var e := ExpectedNeighbors(cells, width, height, id, ct);
    assert e == NonEmptyRows(rows);
    assert o' in e && e[o'] == row;
  }

  /** The current node is not advanced on a turn. On a graph where the
      FORWARD cell after the turn is the cell turned into (as the builder's
      offset table makes it), the last turn is followed by a FORWARD step
      onto that same cell, so the turned-into cell is recorded twice. */
  lemma TurnedCellRepeated(G: Grid, n: nat, td: Direction, cur: NodeId, o: Orientation,
                           path: seq<NodeId>, visited: set<(NodeId, Orientation, nat)>)
    requires td != Forward && n >= 1 && TurnState(G, n, cur, n - 1, path, visited)
    requires (cur, o, n - 1) !in visited && CanTurn(G, cur, o, td, path) && !AtExit(G, cur)
    requires Ahead(G, cur, TurnMapping(o, td)) == Lookup(G.cells[cur].neighbors, o, td)
    ensures var turned := Lookup(G.cells[cur].neighbors, o, td).value;
      && (TurnWalk(G, n, td, cur, o, n - 1, path, visited).valid ==>
            path + [turned, turned] <= TurnWalk(G, n, td, cur, o, n - 1, path, visited).exitPath)
      && (AtExit(G, turned) ==>
            TurnWalk(G, n, td, cur, o, n - 1, path, visited) ==
            PathInfo(path + [turned, turned], Some(G.cells[turned].position), true))
  {
    var turned := Lookup(G.cells[cur].neighbors, o, td).value;
    var o' := TurnMapping(o, td);
    TurnWalkTurnStep(G, n, td, cur, o, n - 1, path, visited);
    assert path + [turned] + [turned] == path + [turned, turned];
    assert TurnWalk(G, n, td, cur, o', n, path + [turned], visited + {(cur, o, n - 1)}) ==
      StraightWalk(G, cur, o', path + [turned], {});
    assert Ahead(G, cur, o') == Some(turned);
    assert {} + {cur} == {cur};
    assert StraightWalk(G, cur, o', path + [turned], {}) ==
      StraightWalk(G, turned, o', path + [turned] + [turned], {} + {cur});
    if !AtExit(G, turned) {
      StraightWalkShape(G, turned, o', path + [turned, turned], {cur});
    }
  }
}
