/** Vehicles, their occupied cells and their record form
    (app/models/vehicles.py). */
module Vehicles {
  import opened Wrappers
  import opened Enums
  import opened Graph

  datatype VehicleType = Car | Truck | Bulldozer

  function VehicleTypeValue(t: VehicleType): string
  {
    match t
    case Car => "CAR"
    case Truck => "TRUCK"
    case Bulldozer => "BULLDOZER"
  }

  /** `VehicleType(s)`; any other string raises ValueError in the Python code. */
  function VehicleTypeFromValue(s: string): (r: Option<VehicleType>)
    ensures forall t :: r == Some(t) <==> VehicleTypeValue(t) == s
  {
    if s == "CAR" then Some(Car)
    else if s == "TRUCK" then Some(Truck)
    else if s == "BULLDOZER" then Some(Bulldozer)
    else None
  }

  /** A vehicle; `position` is its head cell. `length` is whatever the level
      says (the Python code's comment expects 1 or 2; levels also use 3 and 4). */
  datatype Vehicle = Vehicle(
    id: string,
    vehicleType: VehicleType,
    length: int,
    position: Position,
    orientation: Orientation,
    movementRule: MovementRule)
  {
    /** `can_clear_obstacles`: only bulldozers clear obstacles. */
    predicate CanClearObstacles()
    {
      vehicleType == Bulldozer
    }

    /** Exactly the vehicles whose type value is `BULLDOZER` clear obstacles. */
    lemma CanClearObstaclesByValue()
      ensures CanClearObstacles() <==> VehicleTypeValue(vehicleType) == "BULLDOZER"
    {
      assert VehicleTypeValue(Car) != "BULLDOZER" && VehicleTypeValue(Truck) != "BULLDOZER";
    }
  }

  /** `get_occupied_cells`. The head always comes first. Only a vehicle of
      length exactly 2 gets a second cell, one step behind the head, opposite
      to the way it faces; every other length, 3 and 4 included, occupies the
      head cell alone. */
  function GetOccupiedCells(v: Vehicle): (cells: seq<Position>)
    ensures 1 <= |cells| <= 2 && cells[0] == v.position
    ensures |cells| == 2 <==> v.length == 2
    ensures |cells| == 2 ==>
      cells[1] == Position(v.position.x - HeadingDx(v.orientation), v.position.y - HeadingDy(v.orientation))
  {
    var p := v.position;
    if v.length == 2 then
      match v.orientation
      case North => [p, Position(p.x, p.y + 1)]
      case South => [p, Position(p.x, p.y - 1)]
      case East => [p, Position(p.x - 1, p.y)]
      case West => [p, Position(p.x + 1, p.y)]
    else
      [p]
  }

  /** A length-2 vehicle occupies two distinct cells, so its body never
      overlaps its own head. */
  lemma TwoCellVehicleCellsDistinct(v: Vehicle)
    requires v.length == 2
    ensures GetOccupiedCells(v)[0] != GetOccupiedCells(v)[1]
  {
    var cells := GetOccupiedCells(v);
    assert HeadingDx(v.orientation) != 0 || HeadingDy(v.orientation) != 0 by {
      match v.orientation
      case North =>
      case South =>
      case East =>
      case West =>
    }
  }

  /** The record `to_dict` produces, with the nested position flattened; enum
      fields hold their `.value` strings. */
  datatype VehicleRecord = VehicleRecord(
    id: string,
    vehicleType: string,
    length: int,
    x: int,
    y: int,
    orientation: string,
    movementRule: string)

  function ToDict(v: Vehicle): VehicleRecord
  {
    VehicleRecord(v.id, VehicleTypeValue(v.vehicleType), v.length, v.position.x, v.position.y,
                  OrientationValue(v.orientation), MovementRuleValue(v.movementRule))
  }

  /** `from_dict`: none when an enum field holds an unknown value (the Python code
      raises ValueError). */
  function FromDict(r: VehicleRecord): (v: Option<Vehicle>)
    ensures v.Some? <==>
      VehicleTypeFromValue(r.vehicleType).Some? && OrientationFromValue(r.orientation).Some? &&
      MovementRuleFromValue(r.movementRule).Some?
  {
    match (VehicleTypeFromValue(r.vehicleType), OrientationFromValue(r.orientation), MovementRuleFromValue(r.movementRule))
    case (Some(t), Some(o), Some(m)) => Some(Vehicle(r.id, t, r.length, Position(r.x, r.y), o, m))
    case _ => None
  }

  /** `from_dict(to_dict(v))` reproduces every field of `v`, and a record that
      decodes is exactly the record of what it decodes to. */
  lemma RecordRoundTrip(v: Vehicle, r: VehicleRecord)
    ensures FromDict(ToDict(v)) == Some(v)
    ensures FromDict(r).Some? ==> ToDict(FromDict(r).value) == r
  {
    assert VehicleTypeFromValue(VehicleTypeValue(v.vehicleType)) == Some(v.vehicleType);
    assert OrientationFromValue(OrientationValue(v.orientation)) == Some(v.orientation);
    assert MovementRuleFromValue(MovementRuleValue(v.movementRule)) == Some(v.movementRule);
  }
}
