/** Obstacles, the blocking rule and the record form
    (app/models/obstacles.py). */
module Obstacles {
  import opened Wrappers
  import opened Graph

  datatype ObstacleType = Boulder | TrafficLight | Pedestrian

  function ObstacleTypeValue(t: ObstacleType): string
  {
    match t
    case Boulder => "BOULDER"
    case TrafficLight => "TRAFFIC_LIGHT"
    case Pedestrian => "PEDESTRIAN"
  }

  function ObstacleTypeFromValue(s: string): (r: Option<ObstacleType>)
    ensures forall t :: r == Some(t) <==> ObstacleTypeValue(t) == s
  {
    if s == "BOULDER" then Some(Boulder)
    else if s == "TRAFFIC_LIGHT" then Some(TrafficLight)
    else if s == "PEDESTRIAN" then Some(Pedestrian)
    else None
  }

  datatype Obstacle = Obstacle(id: string, obstacleType: ObstacleType, position: Position)

  /** `blocks_vehicle`: a boulder blocks exactly the vehicles that cannot
      clear it; traffic lights and pedestrians never block. */
  function BlocksVehicle(ob: Obstacle, vehicleCanClear: bool): (r: bool)
    ensures ob.obstacleType == Boulder ==> (r <==> !vehicleCanClear)
    ensures ob.obstacleType != Boulder ==> !r
  {
    if ob.obstacleType == Boulder then !vehicleCanClear else false
  }

  /** The `Boulder` subclass constructor. */
  function MakeBoulder(id: string, position: Position): (ob: Obstacle)
    ensures ob.obstacleType == Boulder && ob.id == id && ob.position == position
  {
    Obstacle(id, Boulder, position)
  }

  datatype ObstacleRecord = ObstacleRecord(id: string, obstacleType: string, x: int, y: int)

  function ToDict(ob: Obstacle): ObstacleRecord
  {
    ObstacleRecord(ob.id, ObstacleTypeValue(ob.obstacleType), ob.position.x, ob.position.y)
  }

  /** What `obstacle_from_dict` yields: an obstacle, Python's `None` (the
      TRAFFIC_LIGHT and PEDESTRIAN branches only `pass`), or the ValueError
      an unknown type string raises. */
  datatype FromDictOutcome = Built(obstacle: Obstacle) | NotBuilt | UnknownType

  function ObstacleFromDict(r: ObstacleRecord): (out: FromDictOutcome)
    ensures out.UnknownType? <==> ObstacleTypeFromValue(r.obstacleType).None?
    ensures out.Built? <==> r.obstacleType == "BOULDER"
    ensures out.Built? ==> out.obstacle == MakeBoulder(r.id, Position(r.x, r.y))
  {
    match ObstacleTypeFromValue(r.obstacleType)
    case None => UnknownType
    case Some(t) =>
      var position := Position(r.x, r.y);
      if t == Boulder then Built(MakeBoulder(r.id, position))
      else NotBuilt
  }

  /** Records round-trip for boulders only; the record of any other obstacle
      decodes to nothing. */
  lemma RecordRoundTrip(ob: Obstacle)
    ensures ob.obstacleType == Boulder ==> ObstacleFromDict(ToDict(ob)) == Built(ob)
    ensures ob.obstacleType != Boulder ==> ObstacleFromDict(ToDict(ob)) == NotBuilt
  {
    assert ObstacleTypeFromValue(ObstacleTypeValue(ob.obstacleType)) == Some(ob.obstacleType);
  }
}
