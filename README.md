# Traffic puzzle solver — a verified model

The traffic puzzle is played on a grid of cells. Each cell is non-passable (`0`), a horizontal road
(`-`), a vertical road (`|`), an intersection (`+`) or an exit (`E`). Vehicles sit on road cells
facing north, south, east or west. Each vehicle carries a movement rule: straight, left, right,
left U-turn or right U-turn. A vehicle may leave the grid when the path its rule prescribes is
free of other vehicles and obstacles; a bulldozer drives through boulders and clears them. A
level is solvable when the vehicles can leave one at a time until none remain.

This project models the program that decides this:

- the cell, orientation, rule and direction vocabulary (`Enums`) and the road graph store (`Graph`);
- vehicles and obstacles with their record conversions (`Vehicles`, `Obstacles`);
- the graph builder, which makes one node per cell and, per orientation, the neighbour entries its
  cell type allows (`GraphBuilder`);
- the path calculator, which precomputes one exit path per (road cell, orientation, rule)
  (`PathCalculator`);
- the game state with its blocking rules and the exit transition (`GameStates`);
- the breadth-first solver with its movability test, blocking analysis and blocker naming
  (`Solving`);
- the level validator (`Validation`), the level loader with its exit border and coordinate shift
  (`Loading`), and the bounded graph cache (`Caching`).

Objects that the program updates in place are classes. `Node` and `RoadGraph` are classes whose
neighbour tables, node maps and path tables the builder and the path calculator fill through
methods with `modifies` clauses. `GraphCache` is a class whose `Put` reassigns its key order and
entries. Values the program copies rather than updates (`GameState`, vehicles, obstacles, path
records) are datatypes. Every loop of the Python code is a method whose `ensures` ties its result to a
specification function, and the lemmas beside each function state what the Python code promises of it.
The one exception is the outer loop of `solve`, a search that need not follow any one function's
recursion. Its ghost results list the states it dequeued and the fingerprints it enqueued, and its
`ensures` tie the result to those lists: the details are `LastDeadEndOf` the dequeued states, the
depth is their `MaxDepth`, and each inner pass is exactly `NewSuccessors`.

Modelling choices:

- Node ids are coordinate pairs `NodeId(x, y)` rather than `"n_x_y"` strings.
- A Python dictionary keyed by vehicle id is a sequence of vehicles. This keeps its insertion
  order, which the solver and the validator iterate in.
- Reasons and messages are tags and records rather than formatted text.
- The fingerprint of a search state is the sorted sequence of (id, head position) pairs that
  `get_hash` would join into a string.
- Each walk reads a value snapshot (`Grid`) of the graph, since it never changes the graph.

## Model

| member | source | states |
|---|---|---|
| Enums.CellTypeFromCodeSpec | app/models/enums.py:3-8 | decoding a cell code succeeds exactly on the five codes `0`, `-`, `+`, `E` and the vertical bar, and decodes to the cell type whose code it is |
| Enums.CellCodeRoundTrip | app/models/enums.py:3-8 | decoding a cell type's code gives the type back; no two cell types share a code |
| Enums.RoadAndExitClassification | app/models/enums.py:10-16 | `is_road` fails exactly for NON_PASSABLE, `is_exit` holds exactly for EXIT, and every exit is a road |
| Enums.Orientations | app/models/enums.py:18-22 | there are four orientations, pairwise distinct |
| Enums.MovementRules | app/models/enums.py:24-29 | there are five movement rules, pairwise distinct |
| Enums.Directions | app/models/enums.py:31-36 | there are four relative directions, pairwise distinct |
| Enums.EnumerationsComplete | app/models/enums.py:18-36 | every orientation, rule and direction is in its enumeration |
| Enums.OrientationFromValue | app/models/enums.py:18-22 | parsing an orientation's value string succeeds exactly on the four values and inverts `.value` |
| Enums.MovementRuleFromValue | app/models/enums.py:24-29 | parsing a rule's value string succeeds exactly on the five values and inverts `.value` |
| Graph.PositionEquality | app/models/graph.py:6-15 | two positions are equal iff their coordinates are, iff their node ids are |
| Graph.GetNodeId | app/models/graph.py:39-41 | the id records both coordinates, so distinct cells get distinct ids |
| Graph.IdPosition | app/models/graph.py:39-41 | the position an id names maps back to that same id |
| Graph.SetEntry | app/models/graph.py:25-28 | the neighbour table gains the orientation key and the one (orientation, direction) entry; every other entry is unchanged |
| Graph.Node.constructor | app/models/graph.py:19-23 | a new node holds its id, position and cell type and has no neighbours |
| Graph.Node.AddNeighbor | app/models/graph.py:25-28 | the node's table becomes the old one with only that entry set |
| Graph.InvalidPath | app/core/path_calculator.py:80 | the invalid result has no path, no exit point and is not valid |
| Graph.RoadGraph.constructor | app/models/graph.py:32-37 | a new graph has the given size and no nodes, exits or paths |
| Graph.RoadGraph.GetNode | app/models/graph.py:43-46 | a node is found exactly when one is stored under the cell's id, and it is that node |
| Graph.OnBoundaryIffEdge | app/models/graph.py:48-51 | inside the grid, a cell is on the boundary exactly when one step in some heading leaves the grid |
| Graph.RoadGraph.ExitPositionIffEdge | app/models/graph.py:48-51 | a cell of the grid is an exit position exactly when a vehicle on it can step out of the grid in some heading |
| Graph.RoadGraph.AddNode | app/models/graph.py:53-57 | the node is stored under its id, and the exit set gains its position only for a road cell on the boundary |
| Vehicles.VehicleTypeFromValue | app/models/vehicles.py:8-11 | parsing a vehicle type succeeds exactly on its three value strings and inverts `.value` |
| Vehicles.Vehicle.CanClearObstaclesByValue | app/models/vehicles.py:43-45 | a vehicle clears obstacles exactly when its type value is `BULLDOZER` |
| Vehicles.GetOccupiedCells | app/models/vehicles.py:23-41 | the head comes first; a second cell exists exactly for length 2, one step behind the head against the facing direction |
| Vehicles.TwoCellVehicleCellsDistinct | app/models/vehicles.py:30-39 | a two-cell vehicle's cells differ |
| Vehicles.FromDict | app/models/vehicles.py:58-68 | a record converts exactly when its type, orientation and rule strings are known values |
| Vehicles.RecordRoundTrip | app/models/vehicles.py:47-68 | converting a vehicle to a record and back gives the vehicle; a record that converts is reproduced by converting back |
| Obstacles.ObstacleTypeFromValue | app/models/obstacles.py:7-10 | parsing an obstacle type succeeds exactly on its three value strings and inverts `.value` |
| Obstacles.BlocksVehicle | app/models/obstacles.py:19-23 | a boulder blocks exactly the vehicles that cannot clear it; no other obstacle type blocks |
| Obstacles.MakeBoulder | app/models/obstacles.py:34-37 | a boulder has type BOULDER and the given id and position |
| Obstacles.ObstacleFromDict | app/models/obstacles.py:40-52 | an unknown type is an error; only BOULDER builds an obstacle, the boulder at the record's id and position; the other two known types build nothing |
| Obstacles.RecordRoundTrip | app/models/obstacles.py:25-52 | a boulder's record converts back to the boulder; a traffic light's or pedestrian's record builds nothing |
| GraphBuilder.NeighborsMap | app/core/graph_builder.py:55-84 | all four directions are mapped, FORWARD is one step along the heading, every offset is a unit step, FORWARD/BACKWARD and LEFT/RIGHT are opposite, and the four cells are distinct |
| GraphBuilder.NeighborsMapTotal | app/core/graph_builder.py:55-84 | the offset table has an entry for every direction under every orientation |
| GraphBuilder.Rows | app/core/graph_builder.py:34-53 | every orientation has the row of entries its cell type allows |
| GraphBuilder.TableUpToRows | app/core/graph_builder.py:30-31 | after the first k orientations, the table holds exactly the non-empty rows among them |
| GraphBuilder.TableUpToAll | app/core/graph_builder.py:30-31 | after all four orientations, the table holds every non-empty row |
| GraphBuilder.ExpectedEntryInRow | app/core/graph_builder.py:34-53 | a recorded entry belongs to a road cell and is the entry its orientation's row holds |
| GraphBuilder.NoEntriesOffRoadOrAtExit | app/core/graph_builder.py:25-53 | non-road cells and exit cells get no neighbour entries at all |
| GraphBuilder.RoadSegmentEntries | app/core/graph_builder.py:45-53 | a horizontal road has entries only under EAST/WEST and a vertical road only under NORTH/SOUTH, and only FORWARD/BACKWARD |
| GraphBuilder.CandidateShape | app/core/graph_builder.py:41-53 | the directions a road segment considers are FORWARD/BACKWARD under its two orientations |
| GraphBuilder.EntriesAdmissible | app/core/graph_builder.py:86-103 | every recorded neighbour is the offset cell of its direction, inside the grid and a road cell |
| GraphBuilder.RowOverStep | app/core/graph_builder.py:86-103 | one loop step adds the direction's entry exactly when the offset cell is inside the grid and a road cell |
| GraphBuilder.WithRowStep | app/models/graph.py:25-28 | adding an entry under a new orientation extends that orientation's row |
| GraphBuilder.AddValidNeighbors | app/core/graph_builder.py:86-103 | the node's table gains, under the orientation, exactly the admissible cells among the given directions |
| GraphBuilder.SetNeighborsForNode | app/core/graph_builder.py:34-53 | the node's table gains the row its cell type allows under the orientation |
| GraphBuilder.SetAllOrientations | app/core/graph_builder.py:30-32 | a road node's table becomes the full expected table over the four orientations |
| GraphBuilder.EstablishNeighbors | app/core/graph_builder.py:25-32 | every node ends with the table its cell type and the layout determine |
| GraphBuilder.IdsBeforeMembers | app/core/graph_builder.py:15-23 | the cells handled before (x, y) are exactly the layout cells earlier in row-major order |
| GraphBuilder.DecodedStep | app/core/graph_builder.py:15-23 | handling one cell adds a new node that decodes its code, extending the decoded prefix by one cell |
| GraphBuilder.ExitsStep | app/models/graph.py:53-57 | adding a node keeps the exit set equal to the road cells on the boundary |
| GraphBuilder.CreateCell | app/core/graph_builder.py:18-23 | one inner-loop step extends the decoded prefix by the cell (x, y) and keeps the other nodes |
| GraphBuilder.NextRow | app/core/graph_builder.py:17-18 | the end of one row is the start of the next |
| GraphBuilder.CreateNodes | app/core/graph_builder.py:15-23 | succeeds iff every code decodes; then there is one fresh node per layout cell, keyed by its id, and the exits are the boundary road cells |
| GraphBuilder.ExpectedEntriesClosed | app/core/graph_builder.py:86-103 | every neighbour entry of a built graph names a stored node |
| GraphBuilder.BuildGraph | app/core/graph_builder.py:8-13 | a graph is built iff every code decodes; it has the given size, one node per cell, every node with its expected table, and no paths yet |
| PathCalculator.TurnCompositions | app/core/path_calculator.py:10-31 | LEFT then RIGHT, in either order, restores the orientation; two LEFTs or two RIGHTs equal BACKWARD |
| PathCalculator.TurnAgreesWithOffsets | app/core/path_calculator.py:10-31 | the cell LEFT, RIGHT or BACKWARD of a heading is the FORWARD cell of the turned heading |
| PathCalculator.Ahead | app/core/path_calculator.py:160-165 | a FORWARD neighbour, when present, is a node of the graph |
| PathCalculator.TurnWalkTurnStep | app/core/path_calculator.py:91-101 | a possible turn records the turned-into cell, counts one turn and changes the heading, without moving the current node |
| PathCalculator.TurnWalkForwardStep | app/core/path_calculator.py:103-116 | without a turn the walk steps forward and succeeds at once on a boundary node |
| PathCalculator.ContinueStraightToExit | app/core/path_calculator.py:140-168 | the loop computes the straight walk from the current node |
| PathCalculator.CalculateStraightPath | app/core/path_calculator.py:121-138 | the result is the straight path from the start node's FORWARD neighbour |
| PathCalculator.CalculateTurnPath | app/core/path_calculator.py:62-119 | the nested loops compute the turning walk from the start node |
| PathCalculator.CalculatePath | app/core/path_calculator.py:48-60 | STRAIGHT is the straight path; LEFT and RIGHT make one turn, the two U-turns two turns the same way |
| PathCalculator.RulePrefixStep | app/core/path_calculator.py:44-46 | one rule iteration adds that rule's path to the orientation's table |
| PathCalculator.OrientationPrefixStep | app/core/path_calculator.py:41-46 | one orientation iteration adds that orientation's rule table |
| PathCalculator.CalculateRulePaths | app/core/path_calculator.py:44-46 | the inner loop gives the path of every rule under the orientation |
| PathCalculator.CalculateNodePaths | app/core/path_calculator.py:39-46 | the node's table holds the paths of every orientation and rule |
| PathCalculator.FilledTableStep | app/core/path_calculator.py:35-46 | visiting a road node stores its table, and visiting any other node changes nothing |
| PathCalculator.FilledTableEntries | app/core/path_calculator.py:33-46 | after the loop, entries exist exactly for road nodes (exits included) and earlier entries, and every road node's entry for every orientation and rule is its computed path |
| PathCalculator.CalculateAllPaths | app/core/path_calculator.py:33-46 | the graph's path table becomes the old one filled for every road node |
| PathCalculator.StoredPathLookup | app/core/path_calculator.py:39-46 | a stored node table yields the computed path for every orientation and rule |
| PathCalculator.StraightWalkShape | app/core/path_calculator.py:140-168 | an invalid result has no path and no exit point; a valid one extends the path walked, ends on a node, and exits at that node's boundary position |
| PathCalculator.StraightWalkDistinct | app/core/path_calculator.py:154-157 | a valid straight walk never repeats a node |
| PathCalculator.TurnWalkShape | app/core/path_calculator.py:62-119 | the turning walk's result is invalid and empty or valid, extending the path walked and exiting on the boundary at its last node |
| PathCalculator.TurnPathBegins | app/core/path_calculator.py:66-101 | a valid turn path starts with the start node and then its FORWARD neighbour: no turn is taken at the start |
| PathCalculator.PathForShape | app/core/path_calculator.py:48-138 | every stored path is well shaped; a valid straight path begins at the FORWARD neighbour with no repeats, and a valid turn path begins with the start node and its FORWARD neighbour |
| PathCalculator.StraightWalkInCells | app/core/path_calculator.py:160-168 | the straight walk only appends nodes of the graph |
| PathCalculator.TurnWalkInCells | app/core/path_calculator.py:62-119 | the turning walk only appends nodes of the graph |
| PathCalculator.PathForInCells | app/core/path_calculator.py:48-60 | every computed path names only nodes of the graph |
| PathCalculator.FilledTableClosed | app/core/path_calculator.py:33-46 | filling the table keeps every stored path within the graph's nodes |
| PathCalculator.TurnKeepsForwardCandidate | app/core/path_calculator.py:91-101 | wherever a cell type allows a turn, it allows FORWARD under the turned heading |
| PathCalculator.BuiltTurnIsForward | app/core/path_calculator.py:91-101 | a built turn entry equals the FORWARD entry of the turned heading at the same cell |
| PathCalculator.TurnedCellRepeated | app/core/path_calculator.py:92-112 | after the last turn the walk records the turned-into cell twice, and exits with it twice when it is on the boundary |
| GameStates.Ids | app/models/game_state.py:11 | the keys of the vehicle dictionary, in its order |
| GameStates.Find | app/models/game_state.py:11 | a lookup succeeds exactly for an active id and gives a vehicle carrying it |
| GameStates.RemoveId | app/models/game_state.py:73-74 | deleting an id keeps exactly the vehicles with other ids; a present id makes the dictionary shorter, an absent id leaves it as it was |
| GameStates.RemoveIdAt | app/models/game_state.py:73-74 | when only the entry at one index has the id, the deletion takes out that entry and keeps the others in order |
| GameStates.RemoveIdOrder | app/models/game_state.py:73-74 | with unique ids, deleting a present id gives the dictionary before with that one entry taken out, the others in their order |
| GameStates.OccupiedByStep | app/models/game_state.py:19-21 | one loop step adds the cells of a vehicle that is not excluded |
| GameStates.GetOccupiedPositions | app/models/game_state.py:16-22 | the result is the union of the cells of every vehicle not excluded |
| GameStates.OccupiedAfterRemoval | app/models/game_state.py:16-22 | the cells occupied once a vehicle is removed are those occupied by every other vehicle |
| GameStates.IsPositionBlocked | app/models/game_state.py:28-48 | blocked exactly when a reason is given, and the reason is the specified one |
| GameStates.PositionBlockedSpec | app/models/game_state.py:28-48 | a position is blocked iff another vehicle occupies it or an obstacle sits there that is not a boulder the vehicle can clear |
| GameStates.ObstacleRuleVersusBlocksVehicle | app/models/game_state.py:39-46 | for boulders the state's rule agrees with `blocks_vehicle`; other obstacle types block here although `blocks_vehicle` says they never do |
| GameStates.PathPositions | app/models/game_state.py:55-56 | each path id is replaced by its node's position, in order |
| GameStates.PathBlockFirst | app/models/game_state.py:50-61 | the path is clear iff no position is blocked; otherwise the reason is that of the first blocked position |
| GameStates.IsPathClear | app/models/game_state.py:50-61 | clear exactly when no reason is given, and the reason is the first blocked position's |
| GameStates.ClearBoulders | app/models/game_state.py:79-87 | exactly the boulders at path positions are removed; every other obstacle is kept unchanged |
| GameStates.ClearBouldersStep | app/models/game_state.py:81-87 | one loop step deletes the boulder at that position, if any |
| GameStates.ApplyVehicleExit | app/models/game_state.py:63-94 | the method computes the specified exit transition |
| GameStates.ExitStateSpec | app/models/game_state.py:63-94 | an inactive id is an error; otherwise exactly that vehicle leaves, its id is appended to the exited list, the turn count grows by one, obstacles are only ever removed, and only boulders on the path of a bulldozer, all of which go |
| GameStates.ExitSolves | app/models/game_state.py:96-98 | the new state is solved iff the moved vehicle was the only active one |
| Solving.SortStringsPerm | app/core/solver.py:30 | sorting keeps the same ids, each as often |
| Solving.InsertSortedKeepsOrder | app/core/solver.py:30 | inserting a new id into a strictly ascending sequence keeps it strictly ascending |
| Solving.SortStringsStrict | app/core/solver.py:30 | sorting distinct ids gives them in strictly ascending order |
| Solving.StrictlySortedUnique | app/core/solver.py:30 | a strictly ascending sequence is determined by its members |
| Solving.Fingerprint | app/core/solver.py:26-43 | one part per active vehicle |
| Solving.FindUnique | app/core/solver.py:30-31 | with unique ids, looking up a vehicle's id gives that vehicle |
| Solving.FingerprintByHeadPairs | app/core/solver.py:26-43 | the fingerprint depends only on the set of (id, head position) pairs, not on dictionary order, obstacles, exited vehicles or the turn count |
| Solving.GetHash | app/core/solver.py:26-43 | the loop computes the fingerprint of the state's active vehicles |
| Solving.IsMovableSpec | app/core/solver.py:136-153 | a vehicle can move iff its head has a node, the table holds an entry for its orientation and rule, that path is valid, and no position on it is blocked |
| Solving.MovableIn | app/core/solver.py:134-155 | at most one entry per vehicle |
| Solving.MovableInSpec | app/core/solver.py:134-155 | an entry is listed iff its vehicle is among those scanned and can move, paired with its stored path |
| Solving.MovableSpec | app/core/solver.py:129-155 | the movable list holds exactly the movable active vehicles with their paths; it is empty iff no active vehicle can move |
| Solving.FirstOccupantSpec | app/core/solver.py:219-222 | an occupant is named iff another vehicle occupies the cell, and the one named does |
| Solving.BlockerAtSpec | app/core/solver.py:211-222 | an obstacle is named before any vehicle; every blocked cell names something; for a vehicle that cannot clear boulders naming and blocking coincide, and otherwise the extra name is a boulder |
| Solving.FirstBlockerSpec | app/core/solver.py:208-224 | a blocked path never yields UNKNOWN; for a vehicle that cannot clear boulders UNKNOWN means the path is clear, and the name comes from the first blocked cell |
| Solving.DetailSpec | app/core/solver.py:163-204 | a vehicle gets a record iff it cannot move; the record names it, and a blocked-path record names a blocker and carries the path reason |
| Solving.AnalyzeIn | app/core/solver.py:161-206 | at most one record per vehicle |
| Solving.AnalyzeInStuck | app/core/solver.py:161-206 | when nothing can move, there is one record per vehicle, in dictionary order |
| Solving.AnalysisRecords | app/core/solver.py:157-206 | every record is that of a scanned vehicle that cannot move |
| Solving.AnalysisSpec | app/core/solver.py:157-206 | every record belongs to an active vehicle that cannot move; in a dead-end state every active vehicle gets its record, in order |
| Solving.StepSpec | app/core/solver.py:101-107 | a move exists iff an active vehicle with that id can move; it removes exactly that vehicle, appends its id, counts a turn and keeps ids unique |
| Solving.RemoveIdUnique | app/models/game_state.py:73-74 | deleting an id keeps the remaining ids unique |
| Solving.StepOfMovable | app/core/solver.py:101-107 | each movable entry is a possible move, to the state `apply_vehicle_exit` gives for its stored path |
| Solving.SuccessorReachable | app/core/solver.py:101-112 | a successor is reached by its parent's moves plus the vehicle's id, keeps ids unique and has fewer vehicles |
| Solving.PopKeeps | app/core/solver.py:74-77 | dequeueing keeps the search invariant, and the dequeued state is reached by its own move sequence |
| Solving.EnqueueKeeps | app/core/solver.py:114-118 | enqueueing a reached state with a new fingerprint keeps the search invariant: visited holds exactly the fingerprints enqueued, none twice |
| Solving.NewSuccessorsSound | app/core/solver.py:100-118 | every appended state is the successor of some movable entry; afterwards the visited set is the old one plus the appended fingerprints, which were new and pairwise different |
| Solving.NewSuccessorsComplete | app/core/solver.py:114-118 | no successor is lost: the fingerprint of every successor of a movable entry is visited afterwards |
| Solving.DedupWeight | app/core/solver.py:114-118 | the states kept from `k` outcomes of at most `b` vehicles each weigh at most `k` states of `b` vehicles |
| Solving.LastDeadEndStep | app/core/solver.py:94-98 | dequeueing a dead end replaces the details by its analysis; any other state keeps them |
| Solving.LastDeadEndOfEmpty | app/core/solver.py:72-98 | over unsolved states the details are empty exactly when every dequeued state could move |
| Solving.LastDeadEndOfSpec | app/core/solver.py:72-98 | non-empty details are the analysis of a dequeued dead end after which every dequeued state could still move |
| Solving.MaxDepth | app/core/solver.py:71-80 | the reported depth is the longest move sequence among the dequeued states, and 0 when none was dequeued |
| Solving.MaxDepthStep | app/core/solver.py:80 | dequeueing a state raises the depth to its move count when that is larger |
| Solving.SearchStart | app/core/solver.py:66-72 | the search starts with the initial state alone in the queue, reached by no moves, its fingerprint visited and enqueued, nothing dequeued |
| Solving.ExploredStep | app/core/solver.py:74-118 | dequeueing the head and appending its new successors keeps the record: the dequeued states followed by the queue are the enqueued fingerprints, in order |
| Solving.ExploredPrefix | app/core/solver.py:66-118 | the states dequeued so far were enqueued first, in that order |
| Solving.SearchStep | app/core/solver.py:74-118 | one pass over an unsolved head keeps the record with the head among the dequeued states, all of them unsolved and all expanded |
| Solving.SuccessorsEnqueuedStep | app/core/solver.py:100-118 | once the inner loop has run over a reached state's movable vehicles, every move from it succeeds and its resulting fingerprint is enqueued, so the state joins the expanded ones |
| Solving.SolvedOutcome | app/core/solver.py:83-88 | a solved head is reached by its moves, is the only solved dequeued state, and the dequeued fingerprints lead the enqueued ones, none repeated |
| Solving.SolvedRest | app/core/solver.py:74-88 | when a solved head ends the search, the dequeued states, the head last, followed by those left in the queue are the enqueued ones, and those left are reached by their moves |
| Solving.ExhaustedOutcome | app/core/solver.py:120-127 | an emptied queue means the dequeued states are exactly the enqueued ones, in order, at least one, all reached and all expanded: every move of a movable vehicle from a dequeued state leads to an enqueued fingerprint |
| Solving.Solver.constructor | app/core/solver.py:49-50 | the solver holds the given graph |
| Solving.Solver.FindMovableVehicles | app/core/solver.py:129-155 | the loop computes the movable list |
| Solving.Solver.IdentifyBlocker | app/core/solver.py:208-224 | the loop names the first blocker along the path |
| Solving.Solver.AnalyzeBlocking | app/core/solver.py:157-206 | the loop computes the blocking analysis |
| Solving.Solver.VehicleDetail | app/core/solver.py:164-204 | one vehicle's record: invalid position, no path entry, invalid path, or the first blocker with the reason, and none when its path is clear |
| Solving.Solver.Expand | app/core/solver.py:100-118 | the inner loop leaves exactly the queue, visited set and enqueued fingerprints `NewSuccessors` states: the old queue followed by each successor whose fingerprint was new, in movable order; it keeps the search invariant and adds at most one lighter state per movable vehicle |
| Solving.Solver.ExpandOne | app/core/solver.py:101-118 | one pass of the inner loop continues the record `NewSuccessors` states from `k` to `k + 1` entries: the successor is enqueued and its fingerprint visited exactly when the fingerprint is new |
| Solving.Solver.Advance | app/core/solver.py:90-118 | one pass past an unsolved state drops it from the queue and appends exactly its `NewSuccessors`; the details become its analysis when nothing can move and stay as they were otherwise; the search invariant holds and the queue gets lighter |
| Solving.Solver.Solve | app/core/solver.py:52-127 | a solved start gives an empty solution without search; a reported solution has as many moves as ids, replays from the start to a solved state and is the last dequeued state's move sequence, every earlier one unsolved; on exhaustion the count of explored states equals the number dequeued and the number enqueued, the dequeued states are exactly the enqueued ones in order, all reached and unsolved, the details are those of the last dead end (`LastDeadEndOf`), the depth is their `MaxDepth`, and every dequeued state was expanded: for each movable vehicle the move succeeds and the fingerprint it leads to is enqueued (`SuccessorsEnqueued`), so the dequeued fingerprints are closed under moves |
| Solving.Solver.NextState | app/core/solver.py:101-115 | applying a movable vehicle's exit gives its successor and that successor's fingerprint |
| Validation.OrientationAgreesWithBuilder | app/services/validator.py:61-69 | an orientation fits a cell type iff the builder would give it a FORWARD entry there; only road, non-exit cells accept any |
| Validation.CellErrorSpec | app/services/validator.py:39-57 | a cell yields no error iff it is a road, non-exit cell whose type fits the orientation; errors name the vehicle and cell, and an orientation error arises only on a road, non-exit cell |
| Validation.CellErrorsSpec | app/services/validator.py:35-59 | a vehicle's placement errors are empty iff each of its cells is well placed; at most one error per cell, each naming the vehicle |
| Validation.CellPairs | app/services/validator.py:76-77 | one (id, cell) pair per occupied cell, in order |
| Validation.AllPairsSpec | app/services/validator.py:76-77 | the pairs scanned are exactly the (id, cell) pairs of the vehicles |
| Validation.ScanKeys | app/services/validator.py:76-84 | the position map's keys are exactly the cells seen |
| Validation.ScanFirst | app/services/validator.py:78-84 | the position map holds, for each cell, the id of the first pair at that cell |
| Validation.ScanCount | app/services/validator.py:78-84 | each pair either enters the map or yields one error |
| Validation.ScanDistinct | app/services/validator.py:71-86 | the overlap check reports no error iff all occupied cells are pairwise distinct |
| Validation.ScanCellStep | app/services/validator.py:77-84 | one loop step reports the earlier occupant of a seen cell, or records the cell |
| Validation.ObstacleErrorSpec | app/services/validator.py:88-103 | an obstacle yields no error iff it sits on a road, non-exit cell; the error names it and its position |
| Validation.PathExistsErrorSpec | app/services/validator.py:105-138 | the path check yields no error iff the head has no node or a valid stored path exists; an error names the vehicle |
| Validation.VehicleErrorsEmpty | app/services/validator.py:18-20 | the placement pass is clean iff every vehicle is well placed |
| Validation.PlacementErrorsEmpty | app/services/validator.py:35-59 | a vehicle has no placement error iff every cell it occupies is well placed |
| Validation.ObstacleErrorsEmpty | app/services/validator.py:25-27 | the obstacle pass is clean iff every obstacle is on a road, non-exit cell |
| Validation.PathErrorsEmpty | app/services/validator.py:29-31 | the path pass is clean iff every vehicle whose head has a node has a valid stored path |
| Validation.ValidIff | app/services/validator.py:11-33 | a level has no errors iff its vehicles are well placed, do not overlap, its obstacles are on road cells, and every placed vehicle has a valid path |
| Validation.ValidateVehiclePlacement | app/services/validator.py:35-59 | the loop computes the vehicle's placement errors |
| Validation.CheckVehicleOverlaps | app/services/validator.py:71-86 | the nested loops compute the overlap errors |
| Validation.ValidateObstaclePlacement | app/services/validator.py:88-103 | the obstacle's error, if any |
| Validation.ValidateVehiclePathExists | app/services/validator.py:105-138 | the vehicle's path error, if any |
| Validation.PlacementPass | app/services/validator.py:18-20 | the first loop gathers every vehicle's placement errors in order |
| Validation.ObstaclePass | app/services/validator.py:25-27 | the third loop visits every obstacle once and gathers their errors |
| Validation.PathPass | app/services/validator.py:29-31 | the fourth loop gathers every vehicle's path error in order |
| Validation.ValidateInitialState | app/services/validator.py:11-33 | the errors are the four passes' errors in order, over an enumeration of every obstacle once, and the level is valid iff there are none |
| Loading.ExitRow | app/services/level_loader.py:80 | a border row of the given width, all exits |
| Loading.BorderedShape | app/services/level_loader.py:71-89 | two more rows than the layout; the first and last are exit rows of width+2; row i+1 is layout row i between two exits |
| Loading.BorderedRing | app/services/level_loader.py:71-89 | a rectangular layout stays rectangular, two wider, with exits all around its outer ring |
| Loading.BorderRoundTrip | app/services/level_loader.py:83-84 | stripping the outer ring gives the layout back |
| Loading.AddExitBorder | app/services/level_loader.py:71-89 | the loop computes the bordered layout |
| Loading.Shift | app/services/level_loader.py:44-47 | a position moves by one in each coordinate |
| Loading.Decoded | app/services/level_loader.py:41-42 | one conversion result per record, in order |
| Loading.LoadVehiclesOk | app/services/level_loader.py:40-48 | the vehicles load iff every record converts |
| Loading.LoadVehiclesContents | app/services/level_loader.py:40-48 | the loaded list has one vehicle per record, each the converted vehicle shifted by (+1, +1) |
| Loading.LoadVehiclesFailure | app/services/level_loader.py:40-48 | a failure names the first record that does not convert |
| Loading.LoadVehiclesErrPrefix | app/services/level_loader.py:40-48 | a failure among the first records decides the result |
| Loading.LoadVehicleList | app/services/level_loader.py:40-48 | the loop computes the loaded vehicle list or the first failure |
| Loading.InsertIds | app/services/level_loader.py:64 | assigning a present id keeps the key order; a new id is appended last |
| Loading.InsertFind | app/services/level_loader.py:64 | after assigning, the id gives the new vehicle, other ids keep theirs, and nothing else enters |
| Loading.InsertUnique | app/services/level_loader.py:64 | assigning keeps ids unique |
| Loading.VehicleDictUnique | app/services/level_loader.py:64 | the dictionary built from the list has unique ids |
| Loading.VehicleDictFind | app/services/level_loader.py:64 | each id gives the last vehicle of the list carrying it, and every entry comes from the list |
| Loading.VehicleDictDistinct | app/services/level_loader.py:64 | with distinct ids the dictionary is the list itself, in order |
| Loading.LoadObstaclesFailure | app/services/level_loader.py:51-60 | a failure names the first non-BOULDER record, as an unknown type or as an obstacle not built |
| Loading.LoadObstaclesOk | app/services/level_loader.py:51-60 | the obstacles load iff every record is a BOULDER |
| Loading.LoadObstaclesKeys | app/services/level_loader.py:55-60 | the keys are exactly the shifted record positions, and each obstacle is a boulder whose position is its key |
| Loading.LoadObstaclesStep | app/services/level_loader.py:55-60 | one record stores its shifted boulder under its shifted position |
| Loading.LoadObstaclesLast | app/services/level_loader.py:60 | the last record at a position decides the obstacle stored there |
| Loading.LoadObstaclesErrPrefix | app/services/level_loader.py:51-60 | a failure among the first records decides the result |
| Loading.LoadObstacleMap | app/services/level_loader.py:51-60 | the loop computes the obstacle map or the first failure |
| Loading.InitialStateOk | app/services/level_loader.py:40-67 | the initial state loads iff every vehicle record converts and every obstacle record is a BOULDER |
| Loading.LoadedDict | app/services/level_loader.py:40-64 | the loaded dictionary has unique ids, each giving the last vehicle with it, holds every record's id and only shifted converted vehicles |
| Loading.InitialStateShape | app/services/level_loader.py:63-67 | the initial state has no exited vehicles, turn 0, unique ids, and obstacles keyed by their own positions |
| Loading.LoadGraph | app/services/level_loader.py:28-37 | a graph is built iff the bordered layout decodes; it is two wider and two taller, consistent, with every road node's paths stored and every stored path within its nodes |
| Loading.LoadInitialState | app/services/level_loader.py:39-67 | the loops compute the initial state or the first failure |
| Loading.LoadLevel | app/services/level_loader.py:17-69 | an undecodable layout fails first; otherwise the level loads iff its records do, giving the built graph with all paths and the initial state |
| Caching.CacheKeyIgnoresRows | app/core/graph_cache.py:10-13 | the key depends only on the row-major sequence of cell codes, not on where rows break |
| Caching.PutKeepsBound | app/core/graph_cache.py:19-24 | put fails only on an empty table whose bound is not positive; it keeps the keys those of the entries, each once, and a bound met before is met after |
| Caching.DropFirstConsistent | app/core/graph_cache.py:21-22 | dropping the first key keeps the keys those of the entries, each once |
| Caching.AddKeyConsistent | app/core/graph_cache.py:23-24 | storing under a key keeps the keys those of the entries, each once |
| Caching.PutThenGet | app/core/graph_cache.py:15-24 | after a put, the key gives the graph put |
| Caching.PutOthers | app/core/graph_cache.py:19-24 | other keys keep their graphs, except the first key of a full table, which is dropped |
| Caching.PutEvictsOldest | app/core/graph_cache.py:20-22 | when full, the first key goes even if the key put is already present, and a new or evicted key is appended last |
| Caching.GraphCache.constructor | app/core/graph_cache.py:6-8 | a new cache is empty, consistent and has the given bound, 100 when none is given |
| Caching.GraphCache.Get | app/core/graph_cache.py:15-17 | a graph is returned iff its key is stored, and it is the stored one; the table is only read |
| Caching.GraphCache.Put | app/core/graph_cache.py:19-24 | the table becomes the specified put of the old one, or stays unchanged where the Python code raises; it stays consistent and within its bound |

## Left out

- Node ids, blocking reasons, error messages, exhaustion messages and fingerprints are structured values, not formatted strings. The text formatting is not modelled.
- Python dictionary and JSON mechanics are not modelled: records are typed, so a missing key (a KeyError) cannot occur.
- app/lambda_function.py (the transport envelope) is not part of this model.
- Graph.RoadGraph.AddNode: the Python code compares with `CellType.ROAD`, which the enum does not define, so the line would raise. The model takes the evident intent, a road cell (`is_road`).
- PathCalculator.CanTurn: the Python code reads `cell_type.is_intersection`, which the enum does not define. The model takes the evident intent, the INTERSECTION cell type.
- PathCalculator.AtExit: the Python code passes the node itself to `is_exit_position`, which reads coordinates. The model tests the node's position. As in the Python code, the exit test ignores the vehicle's heading.
- PathCalculator.TurnWalk: kept as written. A turn records the turned-into cell without moving the current node, so the next forward step records it again (`TurnedCellRepeated`).
- GameStates.PositionBlocked: kept as written. Traffic lights and pedestrians block, although `blocks_vehicle` says they never do (`ObstacleRuleVersusBlocksVehicle`).
- Vehicles.GetOccupiedCells: kept as written. Only length 2 gets a second cell, so longer vehicles occupy only their head.
- Solving.FirstBlocker: kept as written. A boulder on a bulldozer's path is named as its blocker although it does not block the bulldozer (`BlockerAtSpec`).
- GraphBuilder.BuildGraph: an unknown cell code raises in the Python code. Here it gives no graph.
- Loading.LoadLevel: the Python code's exceptions become error values. A vehicle record with an unknown type, orientation or rule is `BadVehicle`. An unknown obstacle type is `UnknownObstacleType`. A traffic light or pedestrian record is `ObstacleNotBuilt`, because the Python code then reads a field of `None`. The level's width and height are taken as given and not checked against the layout.
- Caching.CacheKey: the MD5 digest is left out. The key is the concatenated layout string itself, so distinct layout strings never collide here.
- Solving.Solver.Solve: the result is proved sound: a reported solution replays to a solved state, every dequeued state is reachable, and an exhausted search reports the last dead end's analysis, the count of dequeued states and their greatest depth; it also proves that an exhausted search expanded every dequeued state (`SuccessorsEnqueued`). It is not proved minimal, nor is "unsolvable" proved to mean that no exit order exists, because the Python code itself does not promise that: a fingerprint records only the active vehicles' ids and head positions, so two states with different remaining boulders, exited vehicles or turn counts share a fingerprint, and the search skips the second of them although its moves may differ. A completeness statement would first have to fix that equivalence.
- Solving.Solver.Solve: requires the active vehicles to have unique ids, which a Python dictionary guarantees by construction and the loader establishes (`InitialStateShape`).
- Solving.Fingerprint: the traffic-light and pedestrian parts of `get_hash` are left out. Those obstacles have no state fields and are never built, so the part is always empty.
- Validation.ObstaclePass: obstacles are a map, whose insertion order is not kept. The obstacle errors are therefore proved to come in the order of some enumeration of every obstacle once, not in the dictionary's order.
- GameState.copy and get_obstacle_positions need no members: states are values, so a copy is the state itself, and the obstacle positions are the map's keys.
- Node objects are read through a value snapshot during the walks. Aliasing between nodes is excluded by keying every node by its own id.
