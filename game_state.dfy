/** The state of a puzzle between moves: the vehicles still on the grid, the
    obstacles, the vehicles that left and the turn count
    (app/models/game_state.py). */
module GameStates {
  import opened Wrappers
  import opened Graph
  import opened Vehicles
  import opened Obstacles

  /** `active_vehicles` is a dictionary keyed by vehicle id in insertion
      order; here it is the sequence of its values, each keyed by its own id. */
  datatype GameState = GameState(
    activeVehicles: seq<Vehicle>,
    obstacles: map<Position, Obstacle>,
    exitedVehicles: seq<string>,
    turnNumber: int)

  /** Why a position is blocked; the Python code spells these as messages. */
  datatype BlockReason = OccupiedByVehicle | ObstacleBlocks(obstacleType: ObstacleType)

  /** The exception `apply_vehicle_exit` raises. */
  datatype StateError = VehicleNotActive(id: string)

  /** The keys of the vehicle dictionary. */
  function Ids(vs: seq<Vehicle>): (ids: seq<string>)
    ensures |ids| == |vs| && forall i :: 0 <= i < |vs| ==> ids[i] == vs[i].id
  {
    if vs == [] then [] else [vs[0].id] + Ids(vs[1..])
  }

  /** The dictionary lookup `active_vehicles[vid]`. */
  function Find(vs: seq<Vehicle>, vid: string): (r: Option<Vehicle>)
    ensures r.Some? <==> vid in Ids(vs)
    ensures r.Some? ==> r.value in vs && r.value.id == vid
  {
    if vs == [] then None
    else if vs[0].id == vid then Some(vs[0])
    else Find(vs[1..], vid)
  }

  /** No string occurs twice: the last one is not among the earlier ones,
      which repeat nothing either. */
  predicate DistinctStrings(s: seq<string>)
    decreases |s|
  {
    s == [] || (s[|s| - 1] !in s[..|s| - 1] && DistinctStrings(s[..|s| - 1]))
  }

  /** `DistinctStrings` holds exactly when any two positions hold different
      strings. */
  lemma {:induction false} DistinctStringsPairwise(s: seq<string>)
    ensures DistinctStrings(s) <==> forall i, j :: 0 <= i < j < |s| ==> s[i] != s[j]
    decreases |s|
  {
    if s != [] {
      var p := s[..|s| - 1];
      DistinctStringsPairwise(p);
      assert forall i :: 0 <= i < |p| ==> p[i] == s[i];
    }
  }

  /** No two vehicles of the dictionary share an id. */
  predicate UniqueIds(vs: seq<Vehicle>)
  {
    DistinctStrings(Ids(vs))
  }

  /** `del active_vehicles[vid]`: every vehicle with another id stays, in its
      order, and a present id makes the dictionary shorter. */
  function RemoveId(vs: seq<Vehicle>, vid: string): (r: seq<Vehicle>)
    ensures forall v {:trigger v in r} :: v in r <==> v in vs && v.id != vid
    ensures |r| <= |vs|
    ensures vid in Ids(vs) ==> |r| < |vs|
    ensures vid !in Ids(vs) ==> r == vs
  {
    if vs == [] then []
    else if vs[0].id == vid then RemoveId(vs[1..], vid)
    else [vs[0]] + RemoveId(vs[1..], vid)
  }

  /** Putting a string in front keeps the strings distinct exactly when it
      is new. */
  lemma {:induction false} DistinctCons(a: string, t: seq<string>)
    ensures DistinctStrings([a] + t) <==> DistinctStrings(t) && a !in t
    decreases |t|
  {
    if t != [] {
      var u, p := [a] + t, t[..|t| - 1];
      assert u[|u| - 1] == t[|t| - 1];
      assert u[..|u| - 1] == [a] + p;
      assert t == p + [t[|t| - 1]];
      DistinctCons(a, p);
    }
  }

  /** Putting a vehicle in front keeps ids unique exactly when its id is
      new. */
  lemma UniqueCons(x: Vehicle, r: seq<Vehicle>)
    ensures UniqueIds([x] + r) <==> UniqueIds(r) && x.id !in Ids(r)
  {
    assert Ids([x] + r) == [x.id] + Ids(r);
    DistinctCons(x.id, Ids(r));
  }



  /** Removing an id keeps the remaining ids unique. */
  lemma {:induction false} RemoveIdUnique(vs: seq<Vehicle>, vid: string)
    requires UniqueIds(vs)
    ensures UniqueIds(RemoveId(vs, vid))
    decreases |vs|
  {
    if vs != [] {
      assert vs == [vs[0]] + vs[1..];
      UniqueCons(vs[0], vs[1..]);
      RemoveIdUnique(vs[1..], vid);
      if vs[0].id != vid {
        var rest := RemoveId(vs[1..], vid);
        assert vs[0].id !in Ids(rest) by {
          forall j | 0 <= j < |rest| ensures Ids(rest)[j] != vs[0].id {
            assert rest[j] in rest;
            var i :| 0 <= i < |vs[1..]| && vs[1..][i] == rest[j];
            assert Ids(vs[1..])[i] == rest[j].id;
          }
        }
        UniqueCons(vs[0], rest);
      }
    }
  }

  /** One step of the deletion: the head stays or goes by its id. */
  lemma RemoveIdHead(vs: seq<Vehicle>, vid: string)
    requires vs != []
    ensures RemoveId(vs, vid) ==
      if vs[0].id == vid then RemoveId(vs[1..], vid) else [vs[0]] + RemoveId(vs[1..], vid)
  {
  }

  /** A dictionary without the id is left as it was. */
  lemma RemoveIdNone(vs: seq<Vehicle>, vid: string)
    requires forall j :: 0 <= j < |vs| ==> vs[j].id != vid
    ensures RemoveId(vs, vid) == vs
  {
    assert vid !in Ids(vs) by {
      forall j | 0 <= j < |vs| ensures Ids(vs)[j] != vid {
      }
    }
  }

  /** When only the entry at index `k` has the id, `del active_vehicles[vid]`
      takes out that entry and keeps the order of the others. */
  lemma {:induction false} RemoveIdAt(vs: seq<Vehicle>, vid: string, k: nat)
    requires k < |vs| && vs[k].id == vid
    requires forall j :: 0 <= j < |vs| && j != k ==> vs[j].id != vid
    ensures RemoveId(vs, vid) == vs[..k] + vs[k + 1..]
    decreases k
  {
    var t := vs[1..];
    RemoveIdHead(vs, vid);
    forall j | 0 <= j < |t| && j != k - 1 ensures t[j].id != vid {
      assert t[j] == vs[j + 1];
    }
    if k == 0 {
      RemoveIdNone(t, vid);
    } else {
      RemoveIdAt(t, vid, k - 1);
      SpliceCons(vs, k);
    }
  }

  /** Taking out entry `k` of a sequence is keeping its head and taking out
      entry `k - 1` of its tail. */
  lemma SpliceCons<T>(s: seq<T>, k: nat)
    requires 0 < k < |s|
    ensures [s[0]] + (s[1..][..k - 1] + s[1..][k..]) == s[..k] + s[k + 1..]
  {
    assert [s[0]] + s[1..][..k - 1] == s[..k];
  }

  /** Hence, for a present id, the dictionary after the deletion is the one
      before with one entry taken out. */
  lemma RemoveIdOrder(vs: seq<Vehicle>, vid: string)
    requires UniqueIds(vs) && vid in Ids(vs)
    ensures exists k :: 0 <= k < |vs| && vs[k].id == vid && RemoveId(vs, vid) == vs[..k] + vs[k + 1..]
  {
    var k :| 0 <= k < |vs| && Ids(vs)[k] == vid;
    DistinctStringsPairwise(Ids(vs));
    forall j | 0 <= j < |vs| && j != k ensures vs[j].id != vid {
      assert Ids(vs)[j] != Ids(vs)[k];
    }
    RemoveIdAt(vs, vid, k);
  }

  /** The cells occupied by the vehicles whose id is not `exclude`. */
  function OccupiedBy(vs: seq<Vehicle>, exclude: Option<string>): set<Position>
  {
    set i, p | 0 <= i < |vs| && Some(vs[i].id) != exclude && p in GetOccupiedCells(vs[i]) :: p
  }

  /** One more vehicle of the dictionary. */
  lemma OccupiedByStep(vs: seq<Vehicle>, exclude: Option<string>, i: nat)
    requires i < |vs|
    ensures OccupiedBy(vs[..i + 1], exclude) ==
      OccupiedBy(vs[..i], exclude) +
      (if Some(vs[i].id) != exclude then set p | p in GetOccupiedCells(vs[i]) else {})
  {
    var pre, pre' := vs[..i], vs[..i + 1];
    forall p | p in OccupiedBy(pre', exclude)
      ensures p in OccupiedBy(pre, exclude) || (Some(vs[i].id) != exclude && p in GetOccupiedCells(vs[i]))
    {
      var j :| 0 <= j < |pre'| && Some(pre'[j].id) != exclude && p in GetOccupiedCells(pre'[j]);
      if j < i {
        assert pre'[j] == pre[j];
      }
    }
    forall p | p in OccupiedBy(pre, exclude)
      ensures p in OccupiedBy(pre', exclude)
    {
      var j :| 0 <= j < |pre| && Some(pre[j].id) != exclude && p in GetOccupiedCells(pre[j]);
      assert pre'[j] == pre[j];
    }
    if Some(vs[i].id) != exclude {
      forall p | p in GetOccupiedCells(vs[i])
        ensures p in OccupiedBy(pre', exclude)
      {
        assert pre'[i] == vs[i];
      }
    }
  }

  /** `get_occupied_positions`. */
  method GetOccupiedPositions(s: GameState, exclude: Option<string>) returns (occupied: set<Position>)
    ensures occupied == OccupiedBy(s.activeVehicles, exclude)
  {
    var vs := s.activeVehicles;
    occupied := {};
    for i := 0 to |vs|
      invariant occupied == OccupiedBy(vs[..i], exclude)
    {
      OccupiedByStep(vs, exclude, i);
      if Some(vs[i].id) != exclude {
        var cells := GetOccupiedCells(vs[i]);
        occupied := occupied + set p | p in cells;
      }
    }
    assert vs[..|vs|] == vs;
  }

  /** Leaving a vehicle out of the occupied cells is the same as removing it
      from the dictionary, as `apply_vehicle_exit` does. */
  lemma OccupiedAfterRemoval(vs: seq<Vehicle>, vid: string)
    ensures OccupiedBy(RemoveId(vs, vid), None) == OccupiedBy(vs, Some(vid))
  {
    var r := RemoveId(vs, vid);
    forall p | p in OccupiedBy(r, None)
      ensures p in OccupiedBy(vs, Some(vid))
    {
      var j :| 0 <= j < |r| && p in GetOccupiedCells(r[j]);
      assert r[j] in r;
      var k :| 0 <= k < |vs| && vs[k] == r[j];
    }
    forall p | p in OccupiedBy(vs, Some(vid))
      ensures p in OccupiedBy(r, None)
    {
      var k :| 0 <= k < |vs| && Some(vs[k].id) != Some(vid) && p in GetOccupiedCells(vs[k]);
      assert vs[k] in r;
      var j :| 0 <= j < |r| && r[j] == vs[k];
    }
  }

  /** `is_position_blocked`: a cell of another vehicle blocks; otherwise an
      obstacle blocks unless it is a boulder and the vehicle is a bulldozer.
      Every non-boulder obstacle blocks, as written. */
  function PositionBlocked(s: GameState, p: Position, v: Vehicle): Option<BlockReason>
  {
    if p in OccupiedBy(s.activeVehicles, Some(v.id)) then Some(OccupiedByVehicle)
    else if p in s.obstacles then
      var ob := s.obstacles[p];
      if ob.obstacleType == Boulder && v.CanClearObstacles() then None
      else Some(ObstacleBlocks(ob.obstacleType))
    else None
  }

  /** `is_position_blocked`, asking `get_occupied_positions` for the cells of
      the other vehicles. */
  method IsPositionBlocked(s: GameState, p: Position, v: Vehicle) returns (blocked: bool, reason: Option<BlockReason>)
    ensures blocked <==> reason.Some?
    ensures reason == PositionBlocked(s, p, v)
  {
    var occupied := GetOccupiedPositions(s, Some(v.id));
    if p in occupied {
      return true, Some(OccupiedByVehicle);
    }
    if p in s.obstacles {
      var ob := s.obstacles[p];
      if ob.obstacleType == Boulder && v.CanClearObstacles() {
        return false, None;
      } else {
        return true, Some(ObstacleBlocks(ob.obstacleType));
      }
    }
    return false, None;
  }

  /** The obstacle rule of `is_position_blocked` agrees with the obstacle's
      own `blocks_vehicle` on boulders only: an unoccupied cell holding a
      traffic light or a pedestrian is blocked here although
      `blocks_vehicle` says such obstacles never block. */
  lemma ObstacleRuleVersusBlocksVehicle(s: GameState, p: Position, v: Vehicle)
    requires p !in OccupiedBy(s.activeVehicles, Some(v.id)) && p in s.obstacles
    ensures s.obstacles[p].obstacleType == Boulder ==>
      (PositionBlocked(s, p, v).Some? <==> BlocksVehicle(s.obstacles[p], v.CanClearObstacles()))
    ensures s.obstacles[p].obstacleType != Boulder ==>
      PositionBlocked(s, p, v) == Some(ObstacleBlocks(s.obstacles[p].obstacleType)) &&
      !BlocksVehicle(s.obstacles[p], v.CanClearObstacles())
  {
  }

  /** A position is blocked exactly when another vehicle occupies it or an
      obstacle there blocks; when every obstacle is a boulder, the obstacle
      part is the obstacle's own `blocks_vehicle`. */
  lemma PositionBlockedSpec(s: GameState, p: Position, v: Vehicle)
    ensures PositionBlocked(s, p, v).Some? <==>
      (exists i :: 0 <= i < |s.activeVehicles| && s.activeVehicles[i].id != v.id &&
                   p in GetOccupiedCells(s.activeVehicles[i])) ||
      (p in s.obstacles && !(s.obstacles[p].obstacleType == Boulder && v.CanClearObstacles()))
    ensures (forall q :: q in s.obstacles ==> s.obstacles[q].obstacleType == Boulder) ==>
      (PositionBlocked(s, p, v).Some? <==>
        p in OccupiedBy(s.activeVehicles, Some(v.id)) ||
        (p in s.obstacles && BlocksVehicle(s.obstacles[p], v.CanClearObstacles())))
  {
    if exists i :: 0 <= i < |s.activeVehicles| && s.activeVehicles[i].id != v.id &&
                   p in GetOccupiedCells(s.activeVehicles[i]) {
      var i :| 0 <= i < |s.activeVehicles| && s.activeVehicles[i].id != v.id &&
               p in GetOccupiedCells(s.activeVehicles[i]);
      assert p in OccupiedBy(s.activeVehicles, Some(v.id));
    }
  }

  /** The positions of the path's nodes, read from the graph's node table. */
  function PathPositions(nodes: map<NodeId, Node>, path: seq<NodeId>): (ps: seq<Position>)
    requires forall id :: id in path ==> id in nodes
    ensures |ps| == |path| && forall i :: 0 <= i < |path| ==> ps[i] == nodes[path[i]].position
  {
    if path == [] then [] else [nodes[path[0]].position] + PathPositions(nodes, path[1..])
  }

  /** The reason of the first blocked position along `ps`, if any. */
  function PathBlock(s: GameState, ps: seq<Position>, v: Vehicle): Option<BlockReason>
  {
    if ps == [] then None
    else if PositionBlocked(s, ps[0], v).Some? then PositionBlocked(s, ps[0], v)
    else PathBlock(s, ps[1..], v)
  }

  /** The path is clear exactly when no position on it is blocked, and a
      reported reason is that of the first blocked position in path order. */
  lemma {:induction false} PathBlockFirst(s: GameState, ps: seq<Position>, v: Vehicle)
    ensures PathBlock(s, ps, v).None? <==> forall i :: 0 <= i < |ps| ==> PositionBlocked(s, ps[i], v).None?
    ensures PathBlock(s, ps, v).Some? ==>
      exists i :: 0 <= i < |ps| && PositionBlocked(s, ps[i], v) == PathBlock(s, ps, v) &&
        forall j :: 0 <= j < i ==> PositionBlocked(s, ps[j], v).None?
  {
    if ps != [] {
      PathBlockFirst(s, ps[1..], v);
      if PositionBlocked(s, ps[0], v).None? {
        if PathBlock(s, ps, v).Some? {
          var k :| 0 <= k < |ps[1..]| && PositionBlocked(s, ps[1..][k], v) == PathBlock(s, ps[1..], v) &&
            forall j :: 0 <= j < k ==> PositionBlocked(s, ps[1..][j], v).None?;
          assert PositionBlocked(s, ps[k + 1], v) == PathBlock(s, ps, v);
          forall j | 0 <= j < k + 1
            ensures PositionBlocked(s, ps[j], v).None?
          {
            if j > 0 {
              assert ps[j] == ps[1..][j - 1];
            }
          }
        } else {
          forall i | 0 <= i < |ps|
            ensures PositionBlocked(s, ps[i], v).None?
          {
            if i > 0 {
              assert ps[i] == ps[1..][i - 1];
            }
          }
        }
      }
    }
  }

  /** `is_path_clear`: checks the path's positions in order and stops at the
      first blocked one. */
  method IsPathClear(s: GameState, path: seq<NodeId>, v: Vehicle, g: RoadGraph)
    returns (clear: bool, reason: Option<BlockReason>)
    requires forall id :: id in path ==> id in g.nodes
    ensures clear <==> reason.None?
    ensures reason == PathBlock(s, PathPositions(g.nodes, path), v)
  {
    ghost var ps := PathPositions(g.nodes, path);
    for i := 0 to |path|
      invariant PathBlock(s, ps, v) == PathBlock(s, ps[i..], v)
    {
      assert ps[i..][1..] == ps[i + 1..];
      var blocked, r := IsPositionBlocked(s, g.nodes[path[i]].position, v);
      if blocked {
        return false, r;
      }
    }
    return true, None;
  }

  /** The obstacles left after a bulldozer drives along `ps`: every boulder
      on the path is gone, everything else stays. */
  function ClearBoulders(obs: map<Position, Obstacle>, ps: seq<Position>): (r: map<Position, Obstacle>)
    ensures forall p :: p in r <==> p in obs && !(p in ps && obs[p].obstacleType == Boulder)
    ensures forall p :: p in r ==> r[p] == obs[p]
  {
    map p | p in obs && !(p in ps && obs[p].obstacleType == Boulder) :: obs[p]
  }

  /** The state `apply_vehicle_exit` returns, or the error it raises. */
  function ExitState(s: GameState, vid: string, ps: seq<Position>): Result<GameState, StateError>
  {
    match Find(s.activeVehicles, vid)
    case None => Err(VehicleNotActive(vid))
    case Some(v) =>
      Ok(GameState(
        RemoveId(s.activeVehicles, vid),
        if v.CanClearObstacles() then ClearBoulders(s.obstacles, ps) else s.obstacles,
        s.exitedVehicles + [vid],
        s.turnNumber + 1))
  }

  /** One more path position of the bulldozer's sweep. */
  lemma ClearBouldersStep(obs: map<Position, Obstacle>, ps: seq<Position>, i: nat)
    requires i < |ps|
    ensures ClearBoulders(obs, ps[..i + 1]) ==
      var cur := ClearBoulders(obs, ps[..i]);
      if ps[i] in cur && cur[ps[i]].obstacleType == Boulder then cur - {ps[i]} else cur
  {
    assert ps[..i + 1] == ps[..i] + [ps[i]];
  }

  /** `apply_vehicle_exit`: a new state without the vehicle, with the boulders
      on its path cleared when it is a bulldozer; the given state is a value
      and stays as it was. */
  method ApplyVehicleExit(s: GameState, vid: string, path: seq<NodeId>, g: RoadGraph)
    returns (r: Result<GameState, StateError>)
    requires forall id :: id in path ==> id in g.nodes
    ensures r == ExitState(s, vid, PathPositions(g.nodes, path))
  {
    var found := Find(s.activeVehicles, vid);
    if found.None? {
      return Err(VehicleNotActive(vid));
    }
    var vehicle := found.value;
    var newVehicles := RemoveId(s.activeVehicles, vid);
    var newObstacles := s.obstacles;
    var newExited := s.exitedVehicles + [vid];
    if vehicle.CanClearObstacles() {
      ghost var ps := PathPositions(g.nodes, path);
      for i := 0 to |path|
        invariant newObstacles == ClearBoulders(s.obstacles, ps[..i])
      {
        ClearBouldersStep(s.obstacles, ps, i);
        var position := g.nodes[path[i]].position;
        if position in newObstacles {
          var obstacle := newObstacles[position];
          if obstacle.obstacleType == Boulder {
            newObstacles := newObstacles - {position};
          }
        }
      }
      assert ps[..|path|] == ps;
    }
    return Ok(GameState(newVehicles, newObstacles, newExited, s.turnNumber + 1));
  }

  /** `apply_vehicle_exit` raises exactly for an inactive id. Otherwise the
      new state holds every other vehicle and not this one, lists the id once
      more among the exited vehicles, counts one more turn, and keeps every
      obstacle except, for a bulldozer, the boulders on its path. */
  lemma ExitStateSpec(s: GameState, vid: string, ps: seq<Position>)
    ensures ExitState(s, vid, ps).Err? <==> vid !in Ids(s.activeVehicles)
    ensures ExitState(s, vid, ps).Ok? ==>
      var n := ExitState(s, vid, ps).value;
      && (forall v :: v in n.activeVehicles <==> v in s.activeVehicles && v.id != vid)
      && |n.activeVehicles| < |s.activeVehicles|
      && (UniqueIds(s.activeVehicles) ==>
            exists k :: 0 <= k < |s.activeVehicles| && s.activeVehicles[k].id == vid &&
              n.activeVehicles == s.activeVehicles[..k] + s.activeVehicles[k + 1..])
      && n.exitedVehicles == s.exitedVehicles + [vid]
      && n.turnNumber == s.turnNumber + 1
      && (forall p :: p in n.obstacles ==> p in s.obstacles && n.obstacles[p] == s.obstacles[p])
      && (forall p :: p in s.obstacles && p !in n.obstacles ==>
            p in ps && s.obstacles[p].obstacleType == Boulder &&
            Find(s.activeVehicles, vid).value.CanClearObstacles())
      && (Find(s.activeVehicles, vid).value.CanClearObstacles() ==>
            forall p :: p in ps && p in s.obstacles && s.obstacles[p].obstacleType == Boulder ==>
              p !in n.obstacles)
  {
    if ExitState(s, vid, ps).Ok? && UniqueIds(s.activeVehicles) {
      RemoveIdOrder(s.activeVehicles, vid);
    }
  }

  /** `is_solved`: no vehicle is left. */
  predicate IsSolved(s: GameState)
  {
    |s.activeVehicles| == 0
  }

  /** Removing a vehicle solves the puzzle exactly when every vehicle left
      carried that id. */
  lemma ExitSolves(s: GameState, vid: string, ps: seq<Position>)
    requires ExitState(s, vid, ps).Ok?
    ensures IsSolved(ExitState(s, vid, ps).value) <==> forall v :: v in s.activeVehicles ==> v.id == vid
  {
    var n := ExitState(s, vid, ps).value;
    if !IsSolved(n) {
      assert n.activeVehicles[0] in n.activeVehicles;
    } else {
      forall v | v in s.activeVehicles ensures v.id == vid {
        assert v in n.activeVehicles <==> v.id != vid;
      }
    }
  }
}
