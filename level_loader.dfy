/** Turning a level description into a road graph and an initial state
    (app/services/level_loader.py): a ring of exit cells is added around the
    layout, so every coordinate of the level moves by one in each direction. */
module Loading {
  import opened Wrappers
  import opened Graph
  import opened Vehicles
  import opened Obstacles
  import opened GameStates
  import opened GraphBuilder
  import opened PathCalculator
  import opened Solving

  /** The level as parsed from JSON: the declared grid size, the layout rows
      of cell codes and the vehicle and obstacle records (a missing list is
      empty). */
  datatype LevelData = LevelData(
    width: int,
    height: int,
    layout: seq<seq<string>>,
    vehicles: seq<VehicleRecord>,
    obstacles: seq<ObstacleRecord>)

  /** The exceptions `load_level` lets through: `build_graph`'s ValueError
      for an unknown cell code, `from_dict`'s ValueError for the vehicle
      record at `index`, `obstacle_from_dict`'s ValueError for an unknown
      obstacle type, and the AttributeError of setting the position of the
      `None` that a traffic light or pedestrian record yields. */
  datatype LoadError =
    | BadLayout
    | BadVehicle(index: nat)
    | UnknownObstacleType(index: nat)
    | ObstacleNotBuilt(index: nat)

  // ---------------------------------------------------------------- border

  /** `['E'] * n`. */
  function ExitRow(n: nat): (row: seq<string>)
    ensures |row| == n && forall i :: 0 <= i < n ==> row[i] == "E"
  {
    seq(n, _ => "E")
  }

  /** The width `_add_exit_border` reads off the first row. */
  function LayoutWidth(layout: seq<seq<string>>): nat
  {
    if |layout| > 0 then |layout[0]| else 0
  }

  /** The layout `_add_exit_border` returns. */
  function Bordered(layout: seq<seq<string>>): seq<seq<string>>
  {
    var edge := ExitRow(LayoutWidth(layout) + 2);
    [edge] + seq(|layout|, i requires 0 <= i < |layout| => ["E"] + layout[i] + ["E"]) + [edge]
  }

  /** Two more rows than the layout; the first and last are exits only and
      as wide as the first layout row plus two; every other row is its
      layout row with one exit cell on each side. */
  lemma BorderedShape(layout: seq<seq<string>>)
    ensures var b := Bordered(layout);
      && |b| == |layout| + 2
      && b[0] == ExitRow(LayoutWidth(layout) + 2) && b[|layout| + 1] == ExitRow(LayoutWidth(layout) + 2)
      && forall i :: 0 <= i < |layout| ==> b[i + 1] == ["E"] + layout[i] + ["E"]
  {
  }

  /** Every layout row has this many cells. */
  predicate Rectangular(layout: seq<seq<string>>, w: int)
  {
    forall i :: 0 <= i < |layout| ==> |layout[i]| == w
  }

  /** A rectangular layout stays rectangular, two cells wider, and every
      cell of its outer ring is an exit. */
  lemma BorderedRing(layout: seq<seq<string>>)
    requires Rectangular(layout, LayoutWidth(layout))
    ensures var b := Bordered(layout); var w := LayoutWidth(layout) + 2;
      && Rectangular(b, w)
      && forall y, x :: 0 <= y < |b| && 0 <= x < w && (y == 0 || y == |b| - 1 || x == 0 || x == w - 1) ==>
           b[y][x] == "E"
  {
    var b := Bordered(layout);
    var w := LayoutWidth(layout) + 2;
    forall y | 0 <= y < |b|
      ensures |b[y]| == w
      ensures b[y][0] == "E" && b[y][w - 1] == "E"
    {
      if 0 < y < |b| - 1 {
        assert b[y] == ["E"] + layout[y - 1] + ["E"];
      }
    }
  }

  /** Dropping the ring again gives the layout back. */
  function Unbordered(b: seq<seq<string>>): seq<seq<string>>
    requires |b| >= 2 && forall i :: 0 < i < |b| - 1 ==> |b[i]| >= 2
  {
    seq(|b| - 2, i requires 0 <= i < |b| - 2 => b[i + 1][1..|b[i + 1]| - 1])
  }

  lemma BorderRoundTrip(layout: seq<seq<string>>)
    ensures |Bordered(layout)| >= 2
    ensures forall i :: 0 < i < |Bordered(layout)| - 1 ==> |Bordered(layout)[i]| >= 2
    ensures Unbordered(Bordered(layout)) == layout
  {
    var b := Bordered(layout);
    forall i | 0 <= i < |layout|
      ensures b[i + 1][1..|b[i + 1]| - 1] == layout[i]
    {
      assert b[i + 1] == ["E"] + layout[i] + ["E"];
    }
  }

  /** `_add_exit_border`. */
  method AddExitBorder(layout: seq<seq<string>>) returns (bordered: seq<seq<string>>)
    ensures bordered == Bordered(layout)
  {
    var height := |layout|;
    var width := if height > 0 then |layout[0]| else 0;
    bordered := [ExitRow(width + 2)];
    for i := 0 to |layout|
      invariant |bordered| == i + 1 && bordered[0] == ExitRow(width + 2)
      invariant forall k :: 0 <= k < i ==> bordered[k + 1] == ["E"] + layout[k] + ["E"]
    {
      bordered := bordered + [["E"] + layout[i] + ["E"]];
    }
    bordered := bordered + [ExitRow(width + 2)];
  }

  // -------------------------------------------------------------- vehicles

  /** One step right and one step down, past the exit ring. */
  function Shift(p: Position): (q: Position)
    ensures q.x == p.x + 1 && q.y == p.y + 1
  {
    Position(p.x + 1, p.y + 1)
  }

  function ShiftVehicle(v: Vehicle): Vehicle
  {
    v.(position := Shift(v.position))
  }

  /** `Vehicle.from_dict` applied to every record. */
  function Decoded(rs: seq<VehicleRecord>): (ds: seq<Option<Vehicle>>)
    ensures |ds| == |rs| && forall i :: 0 <= i < |rs| ==> ds[i] == Vehicles.FromDict(rs[i])
  {
    seq(|rs|, i requires 0 <= i < |rs| => Vehicles.FromDict(rs[i]))
  }

  /** The `vehicles` list of `load_level` from the decoded records, or the
      error of the first record that does not decode. */
  function LoadVehicles(ds: seq<Option<Vehicle>>): Result<seq<Vehicle>, LoadError>
  {
    if ds == [] then Ok([])
    else
      var n := |ds| - 1;
      match LoadVehicles(ds[..n])
      case Err(e) => Err(e)
      case Ok(vs) =>
        match ds[n]
        case None => Err(BadVehicle(n))
        case Some(v) => Ok(vs + [ShiftVehicle(v)])
  }

  /** Loading the vehicles succeeds exactly when every record decodes. */
  lemma {:induction false} LoadVehiclesOk(ds: seq<Option<Vehicle>>)
    ensures LoadVehicles(ds).Ok? <==> forall i :: 0 <= i < |ds| ==> ds[i].Some?
    decreases |ds|
  {
    if ds != [] {
      var n := |ds| - 1;
      var pre := ds[..n];
      LoadVehiclesOk(pre);
      assert forall i :: 0 <= i < n ==> pre[i] == ds[i];
      if LoadVehicles(pre).Err? {
        var k := LoadVehiclesFailure(pre);
        assert ds[k].None?;
      }
    }
  }

  /** The loaded list holds every record decoded and shifted, in order. */
  lemma {:induction false} LoadVehiclesContents(ds: seq<Option<Vehicle>>)
    requires LoadVehicles(ds).Ok?
    ensures var vs := LoadVehicles(ds).value;
      |vs| == |ds| && forall i :: 0 <= i < |ds| ==> ds[i].Some? && vs[i] == ShiftVehicle(ds[i].value)
    decreases |ds|
  {
    if ds != [] {
      var n := |ds| - 1;
      var pre := ds[..n];
      assert LoadVehicles(pre).Ok?;
      LoadVehiclesContents(pre);
      assert LoadVehicles(ds).value == LoadVehicles(pre).value + [ShiftVehicle(ds[n].value)];
      assert forall i :: 0 <= i < n ==> pre[i] == ds[i];
    }
  }

  /** The first record that does not decode, when loading fails; the error
      names it. */
  function LoadVehiclesFailure(ds: seq<Option<Vehicle>>): (k: nat)
    requires LoadVehicles(ds).Err?
    ensures k < |ds| && ds[k].None?
    ensures LoadVehicles(ds) == Err(BadVehicle(k))
    ensures forall i :: 0 <= i < k ==> ds[i].Some?
    decreases |ds|
  {
    var n := |ds| - 1;
    var pre := ds[..n];
    assert forall i :: 0 <= i < n ==> pre[i] == ds[i];
    if LoadVehicles(pre).Err? then LoadVehiclesFailure(pre)
    else
      LoadVehiclesContents(pre);
      n
  }

  /** Once a prefix fails, the whole list fails the same way. */
  lemma {:induction false} LoadVehiclesErrPrefix(ds: seq<Option<Vehicle>>, j: nat)
    requires j <= |ds| && LoadVehicles(ds[..j]).Err?
    ensures LoadVehicles(ds) == LoadVehicles(ds[..j])
    decreases |ds|
  {
    if j < |ds| {
      var n := |ds| - 1;
      assert ds[..n][..j] == ds[..j];
      LoadVehiclesErrPrefix(ds[..n], j);
    } else {
      assert ds[..j] == ds;
    }
  }

  /** The vehicle loop of `load_level`. */
  method LoadVehicleList(rs: seq<VehicleRecord>) returns (r: Result<seq<Vehicle>, LoadError>)
    ensures r == LoadVehicles(Decoded(rs))
  {
    ghost var ds := Decoded(rs);
    var vehicles := [];
    for i := 0 to |rs|
      invariant LoadVehicles(ds[..i]) == Ok(vehicles)
    {
      assert ds[..i + 1][..i] == ds[..i];
      var decoded := Vehicles.FromDict(rs[i]);
      assert decoded == ds[i];
      if decoded.None? {
        LoadVehiclesErrPrefix(ds, i + 1);
        return Err(BadVehicle(i));
      }
      var vehicle := decoded.value;
      vehicle := vehicle.(position := Position(vehicle.position.x + 1, vehicle.position.y + 1));
      vehicles := vehicles + [vehicle];
    }
    assert ds[..|rs|] == ds;
    return Ok(vehicles);
  }

  /** `d[v.id] = v` on a dictionary in insertion order: a present key keeps
      its place and takes the new value, a new key goes last. */
  function Insert(d: seq<Vehicle>, v: Vehicle): (r: seq<Vehicle>)
  {
    if d == [] then [v]
    else if d[0].id == v.id then [v] + d[1..]
    else [d[0]] + Insert(d[1..], v)
  }

  lemma IdsCons(x: Vehicle, r: seq<Vehicle>)
    ensures Ids([x] + r) == [x.id] + Ids(r)
  {
    assert ([x] + r)[1..] == r;
  }

  lemma FindCons(x: Vehicle, r: seq<Vehicle>, id: string)
    ensures Find([x] + r, id) == if x.id == id then Some(x) else Find(r, id)
  {
    assert ([x] + r)[1..] == r;
  }

  /** Storing under a present key keeps the key order; a new key goes last. */
  lemma {:induction false} InsertIds(d: seq<Vehicle>, v: Vehicle)
    ensures v.id in Ids(d) ==> Ids(Insert(d, v)) == Ids(d)
    ensures v.id !in Ids(d) ==> Insert(d, v) == d + [v]
    decreases |d|
  {
    if d != [] {
      var t := d[1..];
      assert d == [d[0]] + t;
      IdsCons(d[0], t);
      InsertIds(t, v);
      if d[0].id == v.id {
        IdsCons(v, t);
      } else {
        IdsCons(d[0], Insert(t, v));
      }
    }
  }

  /** After storing, the key gives the new vehicle and every other key what
      it gave before; nothing else enters. */
  lemma {:induction false} InsertFind(d: seq<Vehicle>, v: Vehicle)
    ensures Find(Insert(d, v), v.id) == Some(v)
    ensures forall id :: id != v.id ==> Find(Insert(d, v), id) == Find(d, id)
    ensures forall w :: w in Insert(d, v) ==> w in d || w == v
    decreases |d|
  {
    if d != [] {
      var t := d[1..];
      assert d == [d[0]] + t;
      InsertFind(t, v);
      forall id ensures Find(Insert(d, v), id) == if id == v.id then Some(v) else Find(d, id) {
        FindCons(d[0], t, id);
        if d[0].id == v.id {
          FindCons(v, t, id);
        } else {
          FindCons(d[0], Insert(t, v), id);
        }
      }
    }
  }

  /** Storing keeps the keys distinct. */
  lemma InsertUnique(d: seq<Vehicle>, v: Vehicle)
    requires UniqueIds(d)
    ensures UniqueIds(Insert(d, v))
  {
    InsertIds(d, v);
    if v.id !in Ids(d) {
      assert Ids(d + [v]) == Ids(d) + [v.id];
    }
  }

  /** `{v.id: v for v in vehicles}`. */
  function VehicleDict(vs: seq<Vehicle>): seq<Vehicle>
  {
    if vs == [] then [] else Insert(VehicleDict(vs[..|vs| - 1]), vs[|vs| - 1])
  }

  /** The last vehicle of the list with this id. */
  function LastWith(vs: seq<Vehicle>, id: string): Option<Vehicle>
  {
    if vs == [] then None
    else if vs[|vs| - 1].id == id then Some(vs[|vs| - 1])
    else LastWith(vs[..|vs| - 1], id)
  }

  /** The dictionary has each id once. */
  lemma {:induction false} VehicleDictUnique(vs: seq<Vehicle>)
    ensures UniqueIds(VehicleDict(vs))
    decreases |vs|
  {
    if vs != [] {
      VehicleDictUnique(vs[..|vs| - 1]);
      InsertUnique(VehicleDict(vs[..|vs| - 1]), vs[|vs| - 1]);
    }
  }

  /** Each id gives the list's last vehicle with that id, and the
      dictionary holds nothing else. */
  lemma {:induction false} VehicleDictFind(vs: seq<Vehicle>)
    ensures forall id :: Find(VehicleDict(vs), id) == LastWith(vs, id)
    ensures forall v :: v in VehicleDict(vs) ==> v in vs
    decreases |vs|
  {
    if vs != [] {
      var n := |vs| - 1;
      VehicleDictFind(vs[..n]);
      InsertFind(VehicleDict(vs[..n]), vs[n]);
      assert forall v :: v in vs[..n] ==> v in vs;
    }
  }

  /** When no id repeats, the dictionary is the list itself. */
  lemma {:induction false} VehicleDictDistinct(vs: seq<Vehicle>)
    requires DistinctStrings(Ids(vs))
    ensures VehicleDict(vs) == vs
    decreases |vs|
  {
    if vs != [] {
      var n := |vs| - 1;
      var pre := vs[..n];
      DistinctInit(vs);
      VehicleDictDistinct(pre);
      InsertIds(pre, vs[n]);
      assert vs == pre + [vs[n]];
    }
  }

  /** Without repeated ids, the list less its last vehicle has none either,
      and does not hold the last vehicle's id. */
  lemma DistinctInit(vs: seq<Vehicle>)
    requires vs != [] && DistinctStrings(Ids(vs))
    ensures DistinctStrings(Ids(vs[..|vs| - 1])) && vs[|vs| - 1].id !in Ids(vs[..|vs| - 1])
  {
    var n := |vs| - 1;
    IdsTake(vs, n);
    DistinctTake(Ids(vs));
  }

  lemma IdsTake(vs: seq<Vehicle>, n: nat)
    requires n <= |vs|
    ensures Ids(vs[..n]) == Ids(vs)[..n]
  {
  }

  lemma DistinctTake(s: seq<string>)
    requires s != [] && DistinctStrings(s)
    ensures DistinctStrings(s[..|s| - 1]) && s[|s| - 1] !in s[..|s| - 1]
  {
    var n := |s| - 1;
    forall i | 0 <= i < n ensures s[..n][i] != s[n] {
      assert s[..n][i] == s[i];
    }
  }

  // ------------------------------------------------------------- obstacles

  function ShiftObstacle(ob: Obstacle): Obstacle
  {
    ob.(position := Shift(ob.position))
  }

  /** The `obstacles` dictionary of `load_level`, keyed by shifted position
      (a later record at the same position replaces an earlier one), or the
      error of the first record that does not give a boulder. */
  function LoadObstacles(rs: seq<ObstacleRecord>): Result<map<Position, Obstacle>, LoadError>
  {
    if rs == [] then Ok(map[])
    else
      var n := |rs| - 1;
      match LoadObstacles(rs[..n])
      case Err(e) => Err(e)
      case Ok(obs) =>
        match ObstacleFromDict(rs[n])
        case UnknownType => Err(UnknownObstacleType(n))
        case NotBuilt => Err(ObstacleNotBuilt(n))
        case Built(ob) => Ok(obs[Shift(ob.position) := ShiftObstacle(ob)])
  }

  /** The first record that is not a boulder, when loading fails: the
      error names it and says whether its type is unknown. */
  function LoadObstaclesFailure(rs: seq<ObstacleRecord>): (k: nat)
    requires LoadObstacles(rs).Err?
    ensures k < |rs| && rs[k].obstacleType != "BOULDER"
    ensures forall i :: 0 <= i < k ==> rs[i].obstacleType == "BOULDER"
    ensures LoadObstacles(rs) ==
      if ObstacleTypeFromValue(rs[k].obstacleType).None? then Err(UnknownObstacleType(k)) else Err(ObstacleNotBuilt(k))
    decreases |rs|
  {
    var n := |rs| - 1;
    var pre := rs[..n];
    assert forall i :: 0 <= i < n ==> pre[i] == rs[i];
    if LoadObstacles(pre).Err? then LoadObstaclesFailure(pre)
    else
      LoadObstaclesOk(pre);
      n
  }

  /** Loading succeeds exactly when every record is a boulder. */
  lemma {:induction false} LoadObstaclesOk(rs: seq<ObstacleRecord>)
    ensures LoadObstacles(rs).Ok? <==> forall i :: 0 <= i < |rs| ==> rs[i].obstacleType == "BOULDER"
    decreases |rs|
  {
    if rs != [] {
      var n := |rs| - 1;
      var pre := rs[..n];
      LoadObstaclesOk(pre);
      assert forall i :: 0 <= i < n ==> pre[i] == rs[i];
      if LoadObstacles(pre).Err? {
        var k := LoadObstaclesFailure(pre);
        assert rs[k].obstacleType != "BOULDER";
      }
    }
  }

  /** The shifted position of record `i`. */
  function RecordPosition(rs: seq<ObstacleRecord>, i: nat): Position
    requires i < |rs|
  {
    Position(rs[i].x + 1, rs[i].y + 1)
  }

  /** A successful load has a key for every record's shifted position and no
      other, and each entry is a boulder stored under its own position. */
  lemma {:induction false} LoadObstaclesKeys(rs: seq<ObstacleRecord>)
    requires LoadObstacles(rs).Ok?
    ensures var obs := LoadObstacles(rs).value;
      && (forall p :: p in obs <==> exists i :: 0 <= i < |rs| && p == RecordPosition(rs, i))
      && (forall p :: p in obs ==> obs[p].position == p && obs[p].obstacleType == Boulder)
    decreases |rs|
  {
    if rs != [] {
      var n := |rs| - 1;
      var pre := rs[..n];
      LoadObstaclesStep(rs);
      LoadObstaclesKeys(pre);
      ObstacleKeysStep(rs, pre, LoadObstacles(pre).value, LoadObstacles(rs).value);
    }
  }

  /** Adding the last record's boulder to a map keyed by the earlier
      records' positions gives a map keyed by all the records' positions. */
  lemma ObstacleKeysStep(rs: seq<ObstacleRecord>, pre: seq<ObstacleRecord>, prev: map<Position, Obstacle>,
                         obs: map<Position, Obstacle>)
    requires rs != [] && pre == rs[..|rs| - 1]
    requires var n := |rs| - 1; var p := RecordPosition(rs, n);
      obs == prev[p := Obstacle(rs[n].id, Boulder, p)]
    requires forall p :: p in prev <==> exists i :: 0 <= i < |pre| && p == RecordPosition(pre, i)
    requires forall p :: p in prev ==> prev[p].position == p && prev[p].obstacleType == Boulder
    ensures forall p :: p in obs <==> exists i :: 0 <= i < |rs| && p == RecordPosition(rs, i)
    ensures forall p :: p in obs ==> obs[p].position == p && obs[p].obstacleType == Boulder
  {
    var n := |rs| - 1;
    forall p
      ensures p in obs <==> exists i :: 0 <= i < |rs| && p == RecordPosition(rs, i)
    {
      if p in obs && p != RecordPosition(rs, n) {
        var i :| 0 <= i < n && p == RecordPosition(pre, i);
        assert p == RecordPosition(rs, i);
      }
      if exists i :: 0 <= i < |rs| && p == RecordPosition(rs, i) {
        var i :| 0 <= i < |rs| && p == RecordPosition(rs, i);
        if i < n {
          assert p == RecordPosition(pre, i);
        }
      }
    }
  }

  /** The last record of a successful load adds its boulder under its
      shifted position. */
  lemma LoadObstaclesStep(rs: seq<ObstacleRecord>)
    requires LoadObstacles(rs).Ok? && rs != []
    ensures LoadObstacles(rs[..|rs| - 1]).Ok?
    ensures var n := |rs| - 1; var p := RecordPosition(rs, n);
      LoadObstacles(rs).value == LoadObstacles(rs[..n]).value[p := Obstacle(rs[n].id, Boulder, p)]
  {
    var n := |rs| - 1;
    var out := ObstacleFromDict(rs[n]);
    assert LoadObstacles(rs[..n]).Ok? && out.Built?;
    assert out.obstacle == MakeBoulder(rs[n].id, Position(rs[n].x, rs[n].y));
  }

  /** The entry at a position is the last record with that position. */
  lemma {:induction false} LoadObstaclesLast(rs: seq<ObstacleRecord>, i: nat)
    requires LoadObstacles(rs).Ok? && i < |rs|
    requires forall j :: i < j < |rs| ==> RecordPosition(rs, j) != RecordPosition(rs, i)
    ensures RecordPosition(rs, i) in LoadObstacles(rs).value
    ensures LoadObstacles(rs).value[RecordPosition(rs, i)].id == rs[i].id
    decreases |rs|
  {
    var n := |rs| - 1;
    var pre := rs[..n];
    LoadObstaclesStep(rs);
    if i < n {
      assert forall j :: i < j < n ==> RecordPosition(pre, j) == RecordPosition(rs, j);
      assert RecordPosition(pre, i) == RecordPosition(rs, i);
      LoadObstaclesLast(pre, i);
    }
  }

  /** Once a prefix fails, the whole list fails the same way. */
  lemma {:induction false} LoadObstaclesErrPrefix(rs: seq<ObstacleRecord>, j: nat)
    requires j <= |rs| && LoadObstacles(rs[..j]).Err?
    ensures LoadObstacles(rs) == LoadObstacles(rs[..j])
    decreases |rs|
  {
    if j < |rs| {
      var n := |rs| - 1;
      assert rs[..n][..j] == rs[..j];
      LoadObstaclesErrPrefix(rs[..n], j);
    } else {
      assert rs[..j] == rs;
    }
  }

  /** The obstacle loop of `load_level`. */
  method LoadObstacleMap(rs: seq<ObstacleRecord>) returns (r: Result<map<Position, Obstacle>, LoadError>)
    ensures r == LoadObstacles(rs)
  {
    var obstacles := map[];
    for i := 0 to |rs|
      invariant LoadObstacles(rs[..i]) == Ok(obstacles)
    {
      assert rs[..i + 1][..i] == rs[..i];
      var outcome := ObstacleFromDict(rs[i]);
      if outcome.UnknownType? {
        LoadObstaclesErrPrefix(rs, i + 1);
        return Err(UnknownObstacleType(i));
      } else if outcome.NotBuilt? {
        LoadObstaclesErrPrefix(rs, i + 1);
        return Err(ObstacleNotBuilt(i));
      }
      var obstacle := outcome.obstacle;
      var adjustedPos := Position(obstacle.position.x + 1, obstacle.position.y + 1);
      obstacle := obstacle.(position := adjustedPos);
      obstacles := obstacles[adjustedPos := obstacle];
    }
    assert rs[..|rs|] == rs;
    return Ok(obstacles);
  }

  // ----------------------------------------------------------------- level

  /** The initial state `load_level` builds, or the first error of the
      vehicle records and then of the obstacle records. */
  function InitialState(level: LevelData): Result<GameState, LoadError>
  {
    match LoadVehicles(Decoded(level.vehicles))
    case Err(e) => Err(e)
    case Ok(vs) =>
      match LoadObstacles(level.obstacles)
      case Err(e) => Err(e)
      case Ok(obs) => Ok(GameState(VehicleDict(vs), obs, [], 0))
  }

  /** The initial state exists exactly when every vehicle record decodes
      and every obstacle record is a boulder. */
  lemma InitialStateOk(level: LevelData)
    ensures InitialState(level).Ok? <==>
      (forall i :: 0 <= i < |level.vehicles| ==> Vehicles.FromDict(level.vehicles[i]).Some?) &&
      (forall i :: 0 <= i < |level.obstacles| ==> level.obstacles[i].obstacleType == "BOULDER")
  {
    LoadVehiclesOk(Decoded(level.vehicles));
    LoadObstaclesOk(level.obstacles);
  }

  /** The vehicle dictionary of a successful load has each id once, every
      record's id, for each id the last vehicle loaded with it, and only
      decoded and shifted vehicles. */
  lemma LoadedDict(ds: seq<Option<Vehicle>>)
    requires LoadVehicles(ds).Ok?
    ensures var vs := LoadVehicles(ds).value; var d := VehicleDict(vs);
      && UniqueIds(d)
      && (forall id :: Find(d, id) == LastWith(vs, id))
      && (forall i :: 0 <= i < |ds| ==> ds[i].Some? && ds[i].value.id in Ids(d))
      && (forall v :: v in d ==> exists i :: 0 <= i < |ds| && ds[i].Some? && v == ShiftVehicle(ds[i].value))
  {
    LoadVehiclesContents(ds);
    var vs := LoadVehicles(ds).value;
    var d := VehicleDict(vs);
    VehicleDictUnique(vs);
    VehicleDictFind(vs);
    forall i | 0 <= i < |ds|
      ensures ds[i].value.id in Ids(d)
    {
      LastWithPresent(vs, i);
      assert Find(d, vs[i].id).Some?;
    }
    forall v | v in d
      ensures exists i :: 0 <= i < |ds| && ds[i].Some? && v == ShiftVehicle(ds[i].value)
    {
      var i :| 0 <= i < |vs| && vs[i] == v;
    }
  }

  /** The initial state has no exited vehicle, turn 0, the vehicle
      dictionary of the records, and every obstacle stored under its own
      position. */
  lemma InitialStateShape(level: LevelData)
    requires InitialState(level).Ok?
    ensures var s := InitialState(level).value; var ds := Decoded(level.vehicles);
      && s.exitedVehicles == [] && s.turnNumber == 0
      && LoadVehicles(ds).Ok? && s.activeVehicles == VehicleDict(LoadVehicles(ds).value)
      && UniqueIds(s.activeVehicles)
      && LoadObstacles(level.obstacles).Ok? && s.obstacles == LoadObstacles(level.obstacles).value
      && (forall p :: p in s.obstacles ==> s.obstacles[p].position == p)
  {
    var ds := Decoded(level.vehicles);
    assert LoadVehicles(ds).Ok?;
    LoadedDict(ds);
    LoadObstaclesKeys(level.obstacles);
  }

  lemma {:induction false} LastWithPresent(vs: seq<Vehicle>, i: nat)
    requires i < |vs|
    ensures LastWith(vs, vs[i].id).Some?
    decreases |vs|
  {
    if i < |vs| - 1 && vs[|vs| - 1].id != vs[i].id {
      LastWithPresent(vs[..|vs| - 1], i);
    }
  }

  /** The graph of the level: the bordered layout's, two wider and two
      taller, consistent, with every road node's paths stored and every
      stored path within its nodes. */
  ghost predicate GraphLoaded(g: RoadGraph, level: LevelData)
    reads g`nodes, g`exitPositions, g`pathLookup, g.nodes.Values
  {
    && g.width == level.width + 2 && g.height == level.height + 2
    && g.Valid()
    && NodesFrom(g, Bordered(level.layout), |Bordered(level.layout)|, 0)
    && Ready(Snapshot(g))
    && g.pathLookup == FilledTable(Snapshot(g), map[], g.nodes.Keys)
    && PathsClosed(g.nodes.Keys, g.pathLookup)
  }

  /** The first half of `load_level`: the bordered layout becomes a graph
      two cells wider and taller than declared, with every path stored. */
  method LoadGraph(level: LevelData) returns (r: Option<RoadGraph>)
    ensures r.Some? <==> LayoutDecodes(Bordered(level.layout))
    ensures r.Some? ==> fresh(r.value) && GraphLoaded(r.value, level)
  {
    var layoutWithExits := AddExitBorder(level.layout);
    var width := level.width + 2;
    var height := level.height + 2;
    r := BuildGraph(width, height, layoutWithExits);
    if r.Some? {
      var graph := r.value;
      CalculateAllPaths(graph);
      FilledTableClosed(Snapshot(graph), map[]);
      assert GraphLoaded(graph, level);
    }
  }

  /** The second half of `load_level`: the vehicle and obstacle records
      become the initial state. */
  method LoadInitialState(level: LevelData) returns (r: Result<GameState, LoadError>)
    ensures r == InitialState(level)
  {
    var vehicles := LoadVehicleList(level.vehicles);
    if vehicles.Err? {
      return Err(vehicles.error);
    }
    var obstacles := LoadObstacleMap(level.obstacles);
    if obstacles.Err? {
      return Err(obstacles.error);
    }
    return Ok(GameState(VehicleDict(vehicles.value), obstacles.value, [], 0));
  }

  /** `load_level`: an unknown cell code fails first, then the vehicle
      records, then the obstacle records; on success the graph is the one
      `LoadGraph` describes and the state is the initial state. */
  method LoadLevel(level: LevelData) returns (r: Result<(RoadGraph, GameState), LoadError>)
    ensures !LayoutDecodes(Bordered(level.layout)) ==> r == Err(BadLayout)
    ensures LayoutDecodes(Bordered(level.layout)) ==>
      && (r.Ok? <==> InitialState(level).Ok?)
      && (r.Err? ==> r.error == InitialState(level).error)
    ensures r.Ok? ==> fresh(r.value.0) && GraphLoaded(r.value.0, level) && r.value.1 == InitialState(level).value
  {
    var graph := LoadGraph(level);
    if graph.None? {
      return Err(BadLayout);
    }
    var initialState := LoadInitialState(level);
    if initialState.Err? {
      return Err(initialState.error);
    }
    return Ok((graph.value, initialState.value));
  }
}
