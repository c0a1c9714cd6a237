/** Cell, orientation, movement-rule and relative-direction vocabularies
    (app/models/enums.py). */
module Enums {
  import opened Wrappers

  /** The five cell classifications of a layout. */
  datatype CellType = NonPassable | HorizontalRoad | VerticalRoad | Intersection | Exit
  {
    /** Every cell but an impassable one is road, exits included. */
    predicate IsRoad() { this != NonPassable }

    predicate IsExit() { this == Exit }
  }

  /** The single-character code a layout uses for a cell type (the enum value). */
  function CellCode(c: CellType): string
  {
    match c
    case NonPassable => "0"
    case HorizontalRoad => "-"
    case VerticalRoad => "|"
    case Intersection => "+"
    case Exit => "E"
  }

  /** `CellType(code)`: decodes a layout code; any other string is rejected
      (the Python code raises ValueError). */
  function CellTypeFromCode(code: string): Option<CellType>
  {
    if |code| != 1 then None
    else match code[0]
      case '0' => Some(NonPassable)
      case '-' => Some(HorizontalRoad)
      case '|' => Some(VerticalRoad)
      case '+' => Some(Intersection)
      case 'E' => Some(Exit)
      case _ => None
  }

  /** Exactly the five codes decode, each to the cell type whose code it is. */
  lemma CellTypeFromCodeSpec(code: string)
    ensures CellTypeFromCode(code).Some? <==> code in ["0", "-", "|", "+", "E"]
    ensures forall c :: CellTypeFromCode(code) == Some(c) <==> CellCode(c) == code
  {
    if |code| == 1 {
      assert code == [code[0]];
    }
  }

  /** Decoding the code of a cell type gives that cell type back, so the
      code mapping is injective. */
  lemma CellCodeRoundTrip(c: CellType)
    ensures CellTypeFromCode(CellCode(c)) == Some(c)
    ensures forall c' :: CellCode(c') == CellCode(c) ==> c' == c
  {
  }

  /** `is_road` fails exactly for NON_PASSABLE; `is_exit` holds exactly for
      EXIT, and every exit cell is a road cell. */
  lemma RoadAndExitClassification(c: CellType)
    ensures !c.IsRoad() <==> c == NonPassable
    ensures c.IsExit() <==> c == Exit
    ensures c.IsExit() ==> c.IsRoad()
  {
  }

  datatype Orientation = North | South | East | West

  datatype MovementRule = Straight | Left | Right | LeftUTurn | RightUTurn

  /** Directions relative to the way a vehicle faces. */
  datatype Direction = Forward | LeftOf | RightOf | Backward

  /** The members of each enumeration in declaration order (Python's
      iteration order over an Enum). */
  function Orientations(): (r: seq<Orientation>)
    ensures |r| == 4
    ensures forall i, j :: 0 <= i < j < |r| ==> r[i] != r[j]
  {
    [North, South, East, West]
  }

  function MovementRules(): (r: seq<MovementRule>)
    ensures |r| == 5
    ensures forall i, j :: 0 <= i < j < |r| ==> r[i] != r[j]
  {
    [Straight, Left, Right, LeftUTurn, RightUTurn]
  }

  function Directions(): (r: seq<Direction>)
    ensures |r| == 4
    ensures forall i, j :: 0 <= i < j < |r| ==> r[i] != r[j]
  {
    [Forward, LeftOf, RightOf, Backward]
  }

  /** Each enumeration lists every one of its values: there are exactly four
      orientations, five movement rules and four relative directions. */
  lemma EnumerationsComplete(o: Orientation, m: MovementRule, d: Direction)
    ensures o in Orientations() && m in MovementRules() && d in Directions()
  {
    match o {
      case North => assert Orientations()[0] == o;
      case South => assert Orientations()[1] == o;
      case East => assert Orientations()[2] == o;
      case West => assert Orientations()[3] == o;
    }
    match m {
      case Straight => assert MovementRules()[0] == m;
      case Left => assert MovementRules()[1] == m;
      case Right => assert MovementRules()[2] == m;
      case LeftUTurn => assert MovementRules()[3] == m;
      case RightUTurn => assert MovementRules()[4] == m;
    }
    match d {
      case Forward => assert Directions()[0] == d;
      case LeftOf => assert Directions()[1] == d;
      case RightOf => assert Directions()[2] == d;
      case Backward => assert Directions()[3] == d;
    }
  }

  /** The unit step a vehicle facing `o` makes when it moves forward
      (y grows southwards). */
  function HeadingDx(o: Orientation): int
  {
    match o
    case East => 1
    case West => -1
    case _ => 0
  }

  function HeadingDy(o: Orientation): int
  {
    match o
    case South => 1
    case North => -1
    case _ => 0
  }

  /** The `.value` strings of the orientation and movement-rule enums and
      their parsers (`Orientation(s)`, `MovementRule(s)` raise on other strings). */
  function OrientationValue(o: Orientation): string
  {
    match o
    case North => "NORTH"
    case South => "SOUTH"
    case East => "EAST"
    case West => "WEST"
  }

  function OrientationFromValue(s: string): (r: Option<Orientation>)
    ensures forall o :: r == Some(o) <==> OrientationValue(o) == s
  {
    if s == "NORTH" then Some(North)
    else if s == "SOUTH" then Some(South)
    else if s == "EAST" then Some(East)
    else if s == "WEST" then Some(West)
    else None
  }

  function MovementRuleValue(m: MovementRule): string
  {
    match m
    case Straight => "STRAIGHT"
    case Left => "LEFT"
    case Right => "RIGHT"
    case LeftUTurn => "LEFT_U_TURN"
    case RightUTurn => "RIGHT_U_TURN"
  }

  function MovementRuleFromValue(s: string): (r: Option<MovementRule>)
    ensures forall m :: r == Some(m) <==> MovementRuleValue(m) == s
  {
    if s == "STRAIGHT" then Some(Straight)
    else if s == "LEFT" then Some(Left)
    else if s == "RIGHT" then Some(Right)
    else if s == "LEFT_U_TURN" then Some(LeftUTurn)
    else if s == "RIGHT_U_TURN" then Some(RightUTurn)
    else None
  }
}
