/** Checks a level's initial state against its road graph before solving
    (app/services/validator.py): vehicles and obstacles on road cells,
    orientations the cells allow, no two vehicles on one cell, and a stored
    valid path for every vehicle. */
module Validation {
  import opened Wrappers
  import opened Enums
  import opened Graph
  import opened Vehicles
  import opened Obstacles
  import opened GameStates
  import opened GraphBuilder

  /** The messages the validator collects, as tags with the data they name. */
  datatype ValidationError =
    | VehicleOffGrid(vehicle: string, at: Position)
    | VehicleOffRoad(vehicle: string, at: Position)
    | OrientationIncompatible(vehicle: string, orientation: Orientation, cellType: CellType, at: Position)
    | VehiclesOverlap(first: string, second: string, at: Position)
    | ObstacleOffGrid(obstacle: string, at: Position)
    | ObstacleOffRoad(obstacle: string, at: Position)
    | NoPathsAtNode(vehicle: string, at: Position)
    | NoPathsForOrientation(vehicle: string, orientation: Orientation)
    | NoPathForRule(vehicle: string, rule: MovementRule, orientation: Orientation)
    | NoValidExitPath(vehicle: string, rule: MovementRule)

  /** The list holding the error, if there is one. */
  function Errs(e: Option<ValidationError>): (r: seq<ValidationError>)
    ensures r == [] <==> e.None?
    ensures e.Some? ==> r == [e.value]
  {
    if e.Some? then [e.value] else []
  }

  // ---------------------------------------------------------------------
  // Orientation against cell type
  // ---------------------------------------------------------------------

  /** `_is_orientation_valid_for_cell`. */
  predicate IsOrientationValidForCell(o: Orientation, ct: CellType)
  {
    match ct
    case Intersection => true
    case HorizontalRoad => o == East || o == West
    case VerticalRoad => o == North || o == South
    case _ => false
  }

  /** The validator accepts an orientation on a cell exactly when the graph
      builder gives that cell a FORWARD candidate for it, so an accepted
      vehicle can always try to drive ahead. */
  lemma OrientationAgreesWithBuilder(o: Orientation, ct: CellType)
    ensures IsOrientationValidForCell(o, ct) <==> Forward in CandidateDirections(ct, o)
    ensures IsOrientationValidForCell(o, ct) ==> ct.IsRoad() && !ct.IsExit()
  {
    assert Directions()[0] == Forward;
  }

  // ---------------------------------------------------------------------
  // Vehicle placement
  // ---------------------------------------------------------------------

  /** A cell a vehicle may stand on: a node of the grid, road but not exit,
      whose type allows the vehicle's orientation. */
  predicate WellPlaced(nodes: map<NodeId, Node>, o: Orientation, p: Position)
  {
    var key := GetNodeId(p.x, p.y);
    key in nodes && nodes[key].cellType.IsRoad() && !nodes[key].cellType.IsExit() &&
    IsOrientationValidForCell(o, nodes[key].cellType)
  }

  /** The error one occupied cell produces: a missing node, a cell that is
      not a road or is an exit, or else an orientation its type refuses. */
  function CellError(nodes: map<NodeId, Node>, v: Vehicle, p: Position): Option<ValidationError>
  {
    var key := GetNodeId(p.x, p.y);
    if key !in nodes then Some(VehicleOffGrid(v.id, p))
    else
      var ct := nodes[key].cellType;
      if !ct.IsRoad() || ct.IsExit() then Some(VehicleOffRoad(v.id, p))
      else if !IsOrientationValidForCell(v.orientation, ct) then
        Some(OrientationIncompatible(v.id, v.orientation, ct, p))
      else None
  }

  /** A cell produces no error exactly when it is well placed, and an error
      names the vehicle and the cell. */
  lemma CellErrorSpec(nodes: map<NodeId, Node>, v: Vehicle, p: Position)
    ensures CellError(nodes, v, p).None? <==> WellPlaced(nodes, v.orientation, p)
    ensures CellError(nodes, v, p).Some? ==>
      CellError(nodes, v, p).value.vehicle == v.id && CellError(nodes, v, p).value.at == p
    ensures CellError(nodes, v, p).Some? && CellError(nodes, v, p).value.OrientationIncompatible? ==>
      GetNodeId(p.x, p.y) in nodes && nodes[GetNodeId(p.x, p.y)].cellType.IsRoad() &&
      !nodes[GetNodeId(p.x, p.y)].cellType.IsExit()
  {
  }

  /** The errors of the cells `ps`, in order. */
  function CellErrors(nodes: map<NodeId, Node>, v: Vehicle, ps: seq<Position>): seq<ValidationError>
  {
    if ps == [] then []
    else CellErrors(nodes, v, ps[..|ps| - 1]) + Errs(CellError(nodes, v, ps[|ps| - 1]))
  }

  /** The list `_validate_vehicle_placement` returns. */
  function PlacementErrors(nodes: map<NodeId, Node>, v: Vehicle): seq<ValidationError>
  {
    CellErrors(nodes, v, GetOccupiedCells(v))
  }

  /** Every cell the vehicle occupies is on the grid, on a road, and fits its orientation. */
  predicate Placed(nodes: map<NodeId, Node>, v: Vehicle)
  {
    forall p :: p in GetOccupiedCells(v) ==> WellPlaced(nodes, v.orientation, p)
  }

  /** No error exactly when every cell is well placed; at most one error per
      cell, each naming the vehicle. */
  lemma {:induction false} CellErrorsSpec(nodes: map<NodeId, Node>, v: Vehicle, ps: seq<Position>)
    ensures CellErrors(nodes, v, ps) == [] <==> forall p :: p in ps ==> WellPlaced(nodes, v.orientation, p)
    ensures |CellErrors(nodes, v, ps)| <= |ps|
    ensures forall e :: e in CellErrors(nodes, v, ps) ==>
      (e.VehicleOffGrid? || e.VehicleOffRoad? || e.OrientationIncompatible?) && e.vehicle == v.id
    decreases |ps|
  {
    if ps != [] {
      var pre := ps[..|ps| - 1];
      CellErrorsSpec(nodes, v, pre);
      CellErrorSpec(nodes, v, ps[|ps| - 1]);
      assert ps == pre + [ps[|ps| - 1]];
    }
  }

  // ---------------------------------------------------------------------
  // Overlaps
  // ---------------------------------------------------------------------

  /** The (vehicle id, cell) pairs of one vehicle, head first. */
  function CellPairs(v: Vehicle): (r: seq<(string, Position)>)
    ensures |r| == |GetOccupiedCells(v)|
    ensures forall i :: 0 <= i < |r| ==> r[i] == (v.id, GetOccupiedCells(v)[i])
  {
    var cells := GetOccupiedCells(v);
    seq(|cells|, i requires 0 <= i < |cells| => (v.id, cells[i]))
  }

  /** The pairs of all vehicles, in dictionary order. */
  function AllPairs(vs: seq<Vehicle>): seq<(string, Position)>
  {
    if vs == [] then [] else AllPairs(vs[..|vs| - 1]) + CellPairs(vs[|vs| - 1])
  }

  /** A pair is listed exactly when its vehicle is in the dictionary and
      occupies its cell. */
  lemma {:induction false} AllPairsSpec(vs: seq<Vehicle>)
    ensures forall x, p :: (x, p) in AllPairs(vs) <==>
      exists v :: v in vs && v.id == x && p in GetOccupiedCells(v)
    decreases |vs|
  {
    if vs != [] {
      var pre := vs[..|vs| - 1];
      var last := vs[|vs| - 1];
      AllPairsSpec(pre);
      forall x, p
        ensures (x, p) in AllPairs(vs) <==> exists v :: v in vs && v.id == x && p in GetOccupiedCells(v)
      {
        if (x, p) in CellPairs(last) {
          var i :| 0 <= i < |CellPairs(last)| && CellPairs(last)[i] == (x, p);
          assert p in GetOccupiedCells(last);
        }
        if x == last.id && p in GetOccupiedCells(last) {
          var i :| 0 <= i < |GetOccupiedCells(last)| && GetOccupiedCells(last)[i] == p;
          assert CellPairs(last)[i] == (x, p);
        }
        if exists v :: v in vs && v.id == x && p in GetOccupiedCells(v) {
          var v :| v in vs && v.id == x && p in GetOccupiedCells(v);
          if v != last {
            assert v in pre;
          }
        }
      }
    }
  }

  /** `position_map` and the error list after scanning some pairs. */
  datatype OverlapScan = OverlapScan(positionMap: map<Position, string>, errors: seq<ValidationError>)

  /** `_check_vehicle_overlaps` over a list of pairs: a cell seen before
      gives an error naming its first occupant, a new cell is recorded. */
  function Scan(pairs: seq<(string, Position)>): OverlapScan
  {
    if pairs == [] then OverlapScan(map[], [])
    else
      var prev := Scan(pairs[..|pairs| - 1]);
      var (x, p) := pairs[|pairs| - 1];
      if p in prev.positionMap then
        OverlapScan(prev.positionMap, prev.errors + [VehiclesOverlap(prev.positionMap[p], x, p)])
      else OverlapScan(prev.positionMap[p := x], prev.errors)
  }

  /** No cell occurs twice among the pairs. */
  predicate CellsDistinct(pairs: seq<(string, Position)>)
  {
    forall i, j :: 0 <= i < j < |pairs| ==> pairs[i].1 != pairs[j].1
  }

  /** The cells of the pairs. */
  function Cells(pairs: seq<(string, Position)>): set<Position>
  {
    set i | 0 <= i < |pairs| :: pairs[i].1
  }

  lemma CellsStep(pairs: seq<(string, Position)>)
    requires pairs != []
    ensures Cells(pairs) == Cells(pairs[..|pairs| - 1]) + {pairs[|pairs| - 1].1}
  {
    var pre := pairs[..|pairs| - 1];
    forall q | q in Cells(pairs)
      ensures q in Cells(pre) + {pairs[|pairs| - 1].1}
    {
      var i :| 0 <= i < |pairs| && pairs[i].1 == q;
      if i < |pre| {
        assert pre[i] == pairs[i];
      }
    }
    forall q | q in Cells(pre)
      ensures q in Cells(pairs)
    {
      var i :| 0 <= i < |pre| && pre[i].1 == q;
      assert pairs[i] == pre[i];
    }
  }

  /** The scan records exactly the cells seen. */
  lemma {:induction false} ScanKeys(pairs: seq<(string, Position)>)
    ensures Scan(pairs).positionMap.Keys == Cells(pairs)
    decreases |pairs|
  {
    if pairs != [] {
      ScanKeys(pairs[..|pairs| - 1]);
      CellsStep(pairs);
    }
  }

  /** Each recorded cell is stored under the id of its first occupant. */
  lemma {:induction false} ScanFirst(pairs: seq<(string, Position)>, q: Position)
    requires q in Scan(pairs).positionMap
    ensures exists i :: (0 <= i < |pairs| && pairs[i] == (Scan(pairs).positionMap[q], q) &&
                         forall j :: 0 <= j < i ==> pairs[j].1 != q)
    decreases |pairs|
  {
    var n := |pairs| - 1;
    var pre := pairs[..n];
    var prev := Scan(pre);
    if q in prev.positionMap {
      ScanFirst(pre, q);
      var i :| 0 <= i < |pre| && pre[i] == (prev.positionMap[q], q) &&
        forall j :: 0 <= j < i ==> pre[j].1 != q;
      assert pairs[i] == pre[i];
      assert forall j :: 0 <= j < i ==> pairs[j] == pre[j];
    } else {
      ScanKeys(pre);
      forall j | 0 <= j < n
        ensures pairs[j].1 != q
      {
        assert pre[j] == pairs[j];
      }
    }
  }

  /** One error per repeated occurrence: errors and recorded cells together
      account for every pair. */
  lemma {:induction false} ScanCount(pairs: seq<(string, Position)>)
    ensures |Scan(pairs).errors| + |Scan(pairs).positionMap| == |pairs|
    decreases |pairs|
  {
    if pairs != [] {
      var pre := pairs[..|pairs| - 1];
      var prev := Scan(pre);
      var p := pairs[|pairs| - 1].1;
      ScanCount(pre);
      if p !in prev.positionMap {
        assert prev.positionMap[p := pairs[|pairs| - 1].0].Keys == prev.positionMap.Keys + {p};
      }
    }
  }

  /** No error exactly when no cell occurs twice. */
  lemma {:induction false} ScanDistinct(pairs: seq<(string, Position)>)
    ensures Scan(pairs).errors == [] <==> CellsDistinct(pairs)
    decreases |pairs|
  {
    if pairs != [] {
      var n := |pairs| - 1;
      var pre := pairs[..n];
      var prev := Scan(pre);
      var p := pairs[n].1;
      ScanDistinct(pre);
      ScanKeys(pre);
      if CellsDistinct(pairs) {
        assert CellsDistinct(pre) by {
          forall i, j | 0 <= i < j < |pre|
            ensures pre[i].1 != pre[j].1
          {
            assert pre[i] == pairs[i] && pre[j] == pairs[j];
          }
        }
        forall i | 0 <= i < |pre|
          ensures pre[i].1 != p
        {
          assert pre[i] == pairs[i];
        }
      }
      if prev.errors == [] && p !in Cells(pre) {
        forall i, j | 0 <= i < j < |pairs|
          ensures pairs[i].1 != pairs[j].1
        {
          assert pre[i].1 == pairs[i].1;
          if j < n {
            assert pre[j] == pairs[j];
          }
        }
      }
    }
  }

  /** One vehicle more of the dictionary. */
  lemma AllPairsStep(vs: seq<Vehicle>, i: nat)
    requires i < |vs|
    ensures AllPairs(vs[..i + 1]) == AllPairs(vs[..i]) + CellPairs(vs[i])
  {
    assert vs[..i + 1][..i] == vs[..i];
  }

  /** One cell more of the vehicle being scanned. */
  lemma ScanCellStep(before: seq<(string, Position)>, v: Vehicle, j: nat)
    requires j < |GetOccupiedCells(v)|
    ensures var prev := Scan(before + CellPairs(v)[..j]);
      var p := GetOccupiedCells(v)[j];
      Scan(before + CellPairs(v)[..j + 1]) ==
        if p in prev.positionMap
        then OverlapScan(prev.positionMap, prev.errors + [VehiclesOverlap(prev.positionMap[p], v.id, p)])
        else OverlapScan(prev.positionMap[p := v.id], prev.errors)
  {
    var done := before + CellPairs(v)[..j + 1];
    assert done[..|done| - 1] == before + CellPairs(v)[..j];
    assert done[|done| - 1] == (v.id, GetOccupiedCells(v)[j]);
  }

  /** The list `_check_vehicle_overlaps` returns for a state. */
  function OverlapErrors(vs: seq<Vehicle>): seq<ValidationError>
  {
    Scan(AllPairs(vs)).errors
  }

  // ---------------------------------------------------------------------
  // Obstacle placement
  // ---------------------------------------------------------------------

  /** `_validate_obstacle_placement`: one error for a missing node or a
      cell that is not a road or is an exit, none otherwise. */
  function ObstacleError(nodes: map<NodeId, Node>, ob: Obstacle): Option<ValidationError>
  {
    var key := GetNodeId(ob.position.x, ob.position.y);
    if key !in nodes then Some(ObstacleOffGrid(ob.id, ob.position))
    else if !nodes[key].cellType.IsRoad() || nodes[key].cellType.IsExit() then
      Some(ObstacleOffRoad(ob.id, ob.position))
    else None
  }

  /** An obstacle on a road cell that is not an exit produces no error. */
  predicate ObstacleOnRoad(nodes: map<NodeId, Node>, ob: Obstacle)
  {
    var key := GetNodeId(ob.position.x, ob.position.y);
    key in nodes && nodes[key].cellType.IsRoad() && !nodes[key].cellType.IsExit()
  }

  lemma ObstacleErrorSpec(nodes: map<NodeId, Node>, ob: Obstacle)
    ensures ObstacleError(nodes, ob).None? <==> ObstacleOnRoad(nodes, ob)
    ensures ObstacleError(nodes, ob).Some? ==>
      ObstacleError(nodes, ob).value.obstacle == ob.id && ObstacleError(nodes, ob).value.at == ob.position
  {
  }

  // ---------------------------------------------------------------------
  // Path existence
  // ---------------------------------------------------------------------

  /** `_validate_vehicle_path_exists`: nothing when the head has no node
      (placement reports that); otherwise the first missing table level, or
      an invalid stored path. */
  function PathExistsError(nodes: map<NodeId, Node>, table: PathTable, v: Vehicle): Option<ValidationError>
  {
    var key := GetNodeId(v.position.x, v.position.y);
    if key !in nodes then None
    else
      var id := nodes[key].id;
      if id !in table then Some(NoPathsAtNode(v.id, v.position))
      else if v.orientation !in table[id] then Some(NoPathsForOrientation(v.id, v.orientation))
      else if v.movementRule !in table[id][v.orientation] then
        Some(NoPathForRule(v.id, v.movementRule, v.orientation))
      else if !table[id][v.orientation][v.movementRule].valid then
        Some(NoValidExitPath(v.id, v.movementRule))
      else None
  }

  /** The head has a stored valid path for the vehicle's orientation and
      movement rule. */
  predicate HasValidPath(nodes: map<NodeId, Node>, table: PathTable, v: Vehicle)
  {
    var key := GetNodeId(v.position.x, v.position.y);
    key in nodes &&
    PathLookup(table, nodes[key].id, v.orientation, v.movementRule).Some? &&
    PathLookup(table, nodes[key].id, v.orientation, v.movementRule).value.valid
  }

  /** No error exactly when the head has no node or has a valid stored
      path. */
  lemma PathExistsErrorSpec(nodes: map<NodeId, Node>, table: PathTable, v: Vehicle)
    ensures PathExistsError(nodes, table, v).None? <==>
      GetNodeId(v.position.x, v.position.y) !in nodes || HasValidPath(nodes, table, v)
    ensures PathExistsError(nodes, table, v).Some? ==> PathExistsError(nodes, table, v).value.vehicle == v.id
  {
  }

  // ---------------------------------------------------------------------
  // The whole check
  // ---------------------------------------------------------------------

  /** The placement errors of all vehicles, in dictionary order. */
  function VehicleErrors(nodes: map<NodeId, Node>, vs: seq<Vehicle>): seq<ValidationError>
  {
    if vs == [] then [] else VehicleErrors(nodes, vs[..|vs| - 1]) + PlacementErrors(nodes, vs[|vs| - 1])
  }

  /** The obstacle errors, in the order the obstacles are visited. */
  function ObstacleErrors(nodes: map<NodeId, Node>, obs: map<Position, Obstacle>, order: seq<Position>)
    : seq<ValidationError>
    requires forall p :: p in order ==> p in obs
  {
    if order == [] then []
    else ObstacleErrors(nodes, obs, order[..|order| - 1]) + Errs(ObstacleError(nodes, obs[order[|order| - 1]]))
  }

  /** The path errors of all vehicles, in dictionary order. */
  function PathErrors(nodes: map<NodeId, Node>, table: PathTable, vs: seq<Vehicle>): seq<ValidationError>
  {
    if vs == [] then [] else PathErrors(nodes, table, vs[..|vs| - 1]) + Errs(PathExistsError(nodes, table, vs[|vs| - 1]))
  }

  lemma {:induction false} VehicleErrorsEmpty(nodes: map<NodeId, Node>, vs: seq<Vehicle>)
    ensures VehicleErrors(nodes, vs) == [] <==> forall v :: v in vs ==> Placed(nodes, v)
    decreases |vs|
  {
    if vs != [] {
      var pre := vs[..|vs| - 1];
      var last := vs[|vs| - 1];
      VehicleErrorsEmpty(nodes, pre);
      PlacementErrorsEmpty(nodes, last);
      var a, b := VehicleErrors(nodes, pre), PlacementErrors(nodes, last);
      assert VehicleErrors(nodes, vs) == a + b;
      assert |a + b| == |a| + |b|;
      if forall v :: v in vs ==> Placed(nodes, v) {
        forall v | v in pre ensures Placed(nodes, v) {
          assert v in vs;
        }
        assert last in vs;
      } else {
        var v :| v in vs && !Placed(nodes, v);
        if v != last {
          assert v in pre;
        }
      }
    }
  }

  /** A vehicle has no placement error exactly when it is placed. */
  lemma PlacementErrorsEmpty(nodes: map<NodeId, Node>, v: Vehicle)
    ensures PlacementErrors(nodes, v) == [] <==> Placed(nodes, v)
  {
    CellErrorsSpec(nodes, v, GetOccupiedCells(v));
  }

  lemma {:induction false} ObstacleErrorsEmpty(nodes: map<NodeId, Node>, obs: map<Position, Obstacle>,
                                               order: seq<Position>)
    requires forall p :: p in order ==> p in obs
    ensures ObstacleErrors(nodes, obs, order) == [] <==> forall p :: p in order ==> ObstacleOnRoad(nodes, obs[p])
    decreases |order|
  {
    if order != [] {
      var pre := order[..|order| - 1];
      ObstacleErrorsEmpty(nodes, obs, pre);
      ObstacleErrorSpec(nodes, obs[order[|order| - 1]]);
      assert order == pre + [order[|order| - 1]];
    }
  }

  lemma {:induction false} PathErrorsEmpty(nodes: map<NodeId, Node>, table: PathTable, vs: seq<Vehicle>)
    ensures PathErrors(nodes, table, vs) == [] <==>
      forall v :: v in vs ==> GetNodeId(v.position.x, v.position.y) !in nodes || HasValidPath(nodes, table, v)
    decreases |vs|
  {
    if vs != [] {
      var pre := vs[..|vs| - 1];
      PathErrorsEmpty(nodes, table, pre);
      PathExistsErrorSpec(nodes, table, vs[|vs| - 1]);
      assert vs == pre + [vs[|vs| - 1]];
    }
  }

  /** The errors `validate_initial_state` collects: placements, overlaps,
      obstacles in the order visited, then paths. */
  function AllErrors(nodes: map<NodeId, Node>, table: PathTable, s: GameState, order: seq<Position>)
    : seq<ValidationError>
    requires forall p :: p in order ==> p in s.obstacles
  {
    VehicleErrors(nodes, s.activeVehicles) + OverlapErrors(s.activeVehicles) +
    ObstacleErrors(nodes, s.obstacles, order) + PathErrors(nodes, table, s.activeVehicles)
  }

  /** A level is valid exactly when every vehicle cell is well placed, no
      two occupied cells coincide, every obstacle is on a road cell that is
      not an exit, and every vehicle whose head has a node has a valid
      stored path; the visiting order of the obstacles does not matter. */
  lemma ValidIff(nodes: map<NodeId, Node>, table: PathTable, s: GameState, order: seq<Position>)
    requires forall p :: p in order <==> p in s.obstacles
    ensures AllErrors(nodes, table, s, order) == [] <==>
      && (forall v :: v in s.activeVehicles ==> Placed(nodes, v))
      && CellsDistinct(AllPairs(s.activeVehicles))
      && (forall p :: p in s.obstacles ==> ObstacleOnRoad(nodes, s.obstacles[p]))
      && (forall v :: v in s.activeVehicles ==>
            GetNodeId(v.position.x, v.position.y) !in nodes || HasValidPath(nodes, table, v))
  {
    VehicleErrorsEmpty(nodes, s.activeVehicles);
    ScanDistinct(AllPairs(s.activeVehicles));
    ObstacleErrorsEmpty(nodes, s.obstacles, order);
    PathErrorsEmpty(nodes, table, s.activeVehicles);
  }

  /** `_validate_vehicle_placement`. */
  method ValidateVehiclePlacement(v: Vehicle, g: RoadGraph) returns (errors: seq<ValidationError>)
    ensures errors == PlacementErrors(g.nodes, v)
  {
    var cells := GetOccupiedCells(v);
    errors := [];
    for i := 0 to |cells|
      invariant errors == CellErrors(g.nodes, v, cells[..i])
    {
      assert cells[..i + 1][..i] == cells[..i];
      var position := cells[i];
      var node := g.GetNode(position.x, position.y);
      if node.None? {
        errors := errors + [VehicleOffGrid(v.id, position)];
      } else if !node.value.cellType.IsRoad() || node.value.cellType.IsExit() {
        errors := errors + [VehicleOffRoad(v.id, position)];
      }
      if node.Some? && node.value.cellType.IsRoad() && !node.value.cellType.IsExit() {
        if !IsOrientationValidForCell(v.orientation, node.value.cellType) {
          errors := errors + [OrientationIncompatible(v.id, v.orientation, node.value.cellType, position)];
        }
      }
    }
    assert cells[..|cells|] == cells;
  }

  /** `_check_vehicle_overlaps`. */
  method CheckVehicleOverlaps(s: GameState) returns (errors: seq<ValidationError>)
    ensures errors == OverlapErrors(s.activeVehicles)
  {
    var vs := s.activeVehicles;
    errors := [];
    var positionMap: map<Position, string> := map[];
    for i := 0 to |vs|
      invariant OverlapScan(positionMap, errors) == Scan(AllPairs(vs[..i]))
    {
      AllPairsStep(vs, i);
      ghost var before := AllPairs(vs[..i]);
      var vehicle := vs[i];
      var cells := GetOccupiedCells(vehicle);
      assert before + CellPairs(vehicle)[..0] == before;
      for j := 0 to |cells|
        invariant OverlapScan(positionMap, errors) == Scan(before + CellPairs(vehicle)[..j])
      {
        ScanCellStep(before, vehicle, j);
        var position := cells[j];
        if position in positionMap {
          errors := errors + [VehiclesOverlap(positionMap[position], vehicle.id, position)];
        } else {
          positionMap := positionMap[position := vehicle.id];
        }
      }
      assert CellPairs(vehicle)[..|cells|] == CellPairs(vehicle);
    }
    assert vs[..|vs|] == vs;
  }

  /** `_validate_obstacle_placement`. */
  method ValidateObstaclePlacement(ob: Obstacle, g: RoadGraph) returns (errors: seq<ValidationError>)
    ensures errors == Errs(ObstacleError(g.nodes, ob))
  {
    errors := [];
    var position := ob.position;
    var node := g.GetNode(position.x, position.y);
    if node.None? {
      errors := errors + [ObstacleOffGrid(ob.id, position)];
    } else if !node.value.cellType.IsRoad() || node.value.cellType.IsExit() {
      errors := errors + [ObstacleOffRoad(ob.id, position)];
    }
  }

  /** `_validate_vehicle_path_exists`. */
  method ValidateVehiclePathExists(v: Vehicle, g: RoadGraph) returns (errors: seq<ValidationError>)
    ensures errors == Errs(PathExistsError(g.nodes, g.pathLookup, v))
  {
    errors := [];
    var node := g.GetNode(v.position.x, v.position.y);
    if node.None? {
      return errors;
    }
    var id := node.value.id;
    if id !in g.pathLookup {
      errors := errors + [NoPathsAtNode(v.id, v.position)];
      return errors;
    }
    if v.orientation !in g.pathLookup[id] {
      errors := errors + [NoPathsForOrientation(v.id, v.orientation)];
      return errors;
    }
    if v.movementRule !in g.pathLookup[id][v.orientation] {
      errors := errors + [NoPathForRule(v.id, v.movementRule, v.orientation)];
      return errors;
    }
    var pathInfo := g.pathLookup[id][v.orientation][v.movementRule];
    if !pathInfo.valid {
      errors := errors + [NoValidExitPath(v.id, v.movementRule)];
    }
  }

  /** Step 1 of `validate_initial_state`: the placement of every vehicle. */
  method PlacementPass(g: RoadGraph, vs: seq<Vehicle>) returns (errors: seq<ValidationError>)
    ensures errors == VehicleErrors(g.nodes, vs)
  {
    errors := [];
    for i := 0 to |vs|
      invariant errors == VehicleErrors(g.nodes, vs[..i])
    {
      assert vs[..i + 1][..i] == vs[..i];
      var more := ValidateVehiclePlacement(vs[i], g);
      errors := errors + more;
    }
    assert vs[..|vs|] == vs;
  }

  /** Step 3 of `validate_initial_state`: every obstacle once, in some
      order, returned as a ghost result. */
  method ObstaclePass(g: RoadGraph, obs: map<Position, Obstacle>)
    returns (errors: seq<ValidationError>, ghost order: seq<Position>)
    ensures forall p :: p in order <==> p in obs
    ensures forall i, j :: 0 <= i < j < |order| ==> order[i] != order[j]
    ensures errors == ObstacleErrors(g.nodes, obs, order)
  {
    errors := [];
    var remaining := obs.Keys;
    order := [];
    while remaining != {}
      invariant forall p :: p in order ==> p in obs && p !in remaining
      invariant forall p :: p in obs ==> p in order || p in remaining
      invariant remaining <= obs.Keys
      invariant forall i, j :: 0 <= i < j < |order| ==> order[i] != order[j]
      invariant errors == ObstacleErrors(g.nodes, obs, order)
      decreases |remaining|
    {
      var p :| p in remaining;
      var more := ValidateObstaclePlacement(obs[p], g);
      errors := errors + more;
      remaining := remaining - {p};
      order := order + [p];
      assert order[..|order| - 1] + [p] == order;
    }
  }

  /** Step 4 of `validate_initial_state`: a path for every vehicle. */
  method PathPass(g: RoadGraph, vs: seq<Vehicle>) returns (errors: seq<ValidationError>)
    ensures errors == PathErrors(g.nodes, g.pathLookup, vs)
  {
    errors := [];
    for i := 0 to |vs|
      invariant errors == PathErrors(g.nodes, g.pathLookup, vs[..i])
    {
      assert vs[..i + 1][..i] == vs[..i];
      var more := ValidateVehiclePathExists(vs[i], g);
      errors := errors + more;
    }
    assert vs[..|vs|] == vs;
  }

  /** `validate_initial_state`. The obstacle dictionary's iteration order is
      not part of the model: the obstacles are visited in some order, each
      once, returned as a ghost result. */
  method ValidateInitialState(g: RoadGraph, s: GameState)
    returns (valid: bool, errors: seq<ValidationError>, ghost order: seq<Position>)
    ensures forall p :: p in order <==> p in s.obstacles
    ensures forall i, j :: 0 <= i < j < |order| ==> order[i] != order[j]
    ensures errors == AllErrors(g.nodes, g.pathLookup, s, order)
    ensures valid <==> errors == []
  {
    var vehicleErrors := PlacementPass(g, s.activeVehicles);
    var overlapErrors := CheckVehicleOverlaps(s);
    var obstacleErrors;
    obstacleErrors, order := ObstaclePass(g, s.obstacles);
    var pathErrors := PathPass(g, s.activeVehicles);
    errors := vehicleErrors + overlapErrors + obstacleErrors + pathErrors;
    valid := |errors| == 0;
  }
}
