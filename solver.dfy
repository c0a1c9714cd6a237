/** Breadth-first search for an order in which every vehicle can leave the
    grid, and the diagnosis of a stuck state (app/core/solver.py). */
module Solving {
  import opened Wrappers
  import opened Enums
  import opened Graph
  import opened Vehicles
  import opened Obstacles
  import opened GameStates

  // ---------------------------------------------------------------------
  // Python's string order and `sorted` on the vehicle ids
  // ---------------------------------------------------------------------

  /** `a < b` on Python strings: code point by code point, and a proper
      prefix before the longer string. */
  predicate StrLess(a: string, b: string)
    decreases |a|
  {
    if |a| == 0 then |b| > 0
    else if |b| == 0 then false
    else if a[0] != b[0] then a[0] < b[0]
    else StrLess(a[1..], b[1..])
  }

  lemma {:induction false} StrLessIrreflexive(a: string)
    ensures !StrLess(a, a)
    decreases |a|
  {
    if |a| > 0 {
      StrLessIrreflexive(a[1..]);
    }
  }

  lemma {:induction false} StrLessTransitive(a: string, b: string, c: string)
    requires StrLess(a, b) && StrLess(b, c)
    ensures StrLess(a, c)
    decreases |a|
  {
    if |a| > 0 && a[0] == b[0] && b[0] == c[0] {
      StrLessTransitive(a[1..], b[1..], c[1..]);
    }
  }

  lemma {:induction false} StrLessTotal(a: string, b: string)
    ensures a == b || StrLess(a, b) || StrLess(b, a)
    decreases |a|
  {
    if |a| > 0 && |b| > 0 && a[0] == b[0] {
      StrLessTotal(a[1..], b[1..]);
      if a[1..] == b[1..] {
        assert a == [a[0]] + a[1..] && b == [b[0]] + b[1..];
      }
    }
  }

  /** The order is a strict total order: never both ways round. */
  lemma StrLessAsymmetric(a: string, b: string)
    ensures !(StrLess(a, b) && StrLess(b, a))
  {
    if StrLess(a, b) && StrLess(b, a) {
      StrLessTransitive(a, b, a);
      StrLessIrreflexive(a);
    }
  }

  /** Strictly ascending order. */
  predicate StrictlySorted(s: seq<string>)
  {
    forall i, j :: 0 <= i < j < |s| ==> StrLess(s[i], s[j])
  }

  /** Inserts `x` before the first element not below it. */
  function InsertSorted(x: string, s: seq<string>): (r: seq<string>)
    ensures |r| == |s| + 1
  {
    if s == [] then [x]
    else if StrLess(s[0], x) then [s[0]] + InsertSorted(x, s[1..])
    else [x] + s
  }

  /** Inserting adds `x` and keeps everything else. */
  lemma {:induction false} InsertSortedPerm(x: string, s: seq<string>)
    ensures multiset(InsertSorted(x, s)) == multiset(s) + multiset{x}
  {
    if s != [] {
      assert s == [s[0]] + s[1..];
      if StrLess(s[0], x) {
        InsertSortedPerm(x, s[1..]);
      }
    }
  }

  /** Inserting a new string into a strictly ascending sequence keeps it
      strictly ascending. */
  lemma {:induction false} InsertSortedKeepsOrder(x: string, s: seq<string>)
    requires StrictlySorted(s) && x !in s
    ensures StrictlySorted(InsertSorted(x, s))
  {
    if s != [] {
      if StrLess(s[0], x) {
        var rest := InsertSorted(x, s[1..]);
        InsertSortedKeepsOrder(x, s[1..]);
        InsertSortedPerm(x, s[1..]);
        forall k | 0 <= k < |rest|
          ensures StrLess(s[0], rest[k])
        {
          assert rest[k] in multiset(rest);
          if rest[k] != x {
            assert rest[k] in multiset(s[1..]);
            var m :| 0 <= m < |s[1..]| && s[1..][m] == rest[k];
            assert s[m + 1] == rest[k];
          }
        }
        var r := [s[0]] + rest;
        forall i, j | 0 <= i < j < |r| ensures StrLess(r[i], r[j]) {
          assert r[j] == rest[j - 1];
          if i > 0 {
            assert r[i] == rest[i - 1];
          }
        }
      } else {
        StrLessTotal(x, s[0]);
        var r := [x] + s;
        forall i, j | 0 <= i < j < |r| ensures StrLess(r[i], r[j]) {
          assert r[j] == s[j - 1];
          if i > 0 {
            assert r[i] == s[i - 1];
          } else if j > 1 {
            StrLessTransitive(x, s[0], s[j - 1]);
          }
        }
      }
    }
  }

  /** `sorted(...)` on strings, as an insertion sort. */
  function SortStrings(s: seq<string>): (r: seq<string>)
    ensures |r| == |s|
  {
    if s == [] then [] else InsertSorted(s[0], SortStrings(s[1..]))
  }

  /** Sorting keeps the same strings, each as often. */
  lemma {:induction false} SortStringsPerm(s: seq<string>)
    ensures multiset(SortStrings(s)) == multiset(s)
  {
    if s != [] {
      assert s == [s[0]] + s[1..];
      SortStringsPerm(s[1..]);
      InsertSortedPerm(s[0], SortStrings(s[1..]));
    }
  }

  /** Sorting strings without repeats gives them in strictly ascending order. */
  lemma {:induction false} SortStringsStrict(s: seq<string>)
    requires DistinctStrings(s)
    ensures StrictlySorted(SortStrings(s))
  {
    if s != [] {
      DistinctStringsPairwise(s);
      DistinctStringsPairwise(s[1..]);
      SortStringsStrict(s[1..]);
      SortStringsPerm(s[1..]);
      var rest := SortStrings(s[1..]);
      forall k | 0 <= k < |s[1..]|
        ensures s[1..][k] != s[0]
      {
        assert s[1..][k] == s[k + 1];
      }
      assert s[0] !in multiset(rest);
      InsertSortedKeepsOrder(s[0], rest);
    }
  }

  /** The head of a strictly ascending sequence is below every other element. */
  lemma HeadIsLeast(a: seq<string>, x: string)
    requires StrictlySorted(a) && x in a
    ensures x == a[0] || StrLess(a[0], x)
  {
    var j :| 0 <= j < |a| && a[j] == x;
    assert j == 0 || StrLess(a[0], a[j]);
  }

  /** An element of a strictly ascending sequence's tail that also occurs in
      another sequence with the same head occurs in that one's tail. */
  lemma TailMember(a: seq<string>, b: seq<string>, x: string)
    requires StrictlySorted(a) && StrictlySorted(b) && a != [] && b != []
    requires a[0] == b[0] && x in a[1..] && x in b
    ensures x in b[1..]
  {
    var k :| 0 <= k < |a[1..]| && a[1..][k] == x;
    assert StrLess(a[0], a[k + 1]);
    StrLessIrreflexive(x);
    var j :| 0 <= j < |b| && b[j] == x;
    assert j != 0;
    assert b[1..][j - 1] == x;
  }

  /** A strictly ascending sequence is determined by its elements. */
  lemma {:induction false} StrictlySortedUnique(a: seq<string>, b: seq<string>)
    requires StrictlySorted(a) && StrictlySorted(b)
    requires forall x :: x in a <==> x in b
    ensures a == b
    decreases |a|
  {
    if a != [] {
      assert a[0] in b;
    }
    if b != [] {
      assert b[0] in a;
    }
    if a != [] && b != [] {
      HeadIsLeast(a, b[0]);
      HeadIsLeast(b, a[0]);
      StrLessAsymmetric(a[0], b[0]);
      forall x
        ensures x in a[1..] <==> x in b[1..]
      {
        if x in a[1..] {
          TailMember(a, b, x);
        }
        if x in b[1..] {
          TailMember(b, a, x);
        }
      }
      StrictlySortedUnique(a[1..], b[1..]);
      assert a == [a[0]] + a[1..] && b == [b[0]] + b[1..];
    }
  }

  // ---------------------------------------------------------------------
  // Search states and their fingerprints
  // ---------------------------------------------------------------------

  /** A state of the search: the game state and the exits that led to it. */
  datatype SearchState = SearchState(gameState: GameState, moveSequence: seq<string>)

  /** The fingerprint `get_hash` joins into a string: the active vehicles'
      ids in ascending order, each with its head position. Obstacles add
      nothing: only traffic lights and pedestrians would, and no level ever
      holds one. */
  function Fingerprint(vs: seq<Vehicle>): (fp: seq<(string, Position)>)
    ensures |fp| == |vs|
  {
    var ids := SortStrings(Ids(vs));
    seq(|ids|, i requires 0 <= i < |ids| => (ids[i], HeadOf(vs, ids[i])))
  }

  /** The head position of the vehicle held under `vid`. */
  function HeadOf(vs: seq<Vehicle>, vid: string): Position
  {
    if Find(vs, vid).Some? then Find(vs, vid).value.position else Position(0, 0)
  }

  /** One part for each of the first `n` ids, in that order: the id and its head. */
  function Parts(vs: seq<Vehicle>, ids: seq<string>, n: nat): (r: seq<(string, Position)>)
    requires n <= |ids|
    ensures |r| == n
    ensures forall i :: 0 <= i < n ==> r[i] == (ids[i], HeadOf(vs, ids[i]))
  {
    if n == 0 then [] else Parts(vs, ids, n - 1) + [(ids[n - 1], HeadOf(vs, ids[n - 1]))]
  }

  /** The parts depend only on the heads held under the ids listed. */
  lemma {:induction false} PartsAgree(vs: seq<Vehicle>, ws: seq<Vehicle>, ids: seq<string>, n: nat)
    requires n <= |ids|
    requires forall x :: x in ids ==> HeadOf(vs, x) == HeadOf(ws, x)
    ensures Parts(vs, ids, n) == Parts(ws, ids, n)
  {
    if n > 0 {
      PartsAgree(vs, ws, ids, n - 1);
    }
  }

  /** The (id, head position) pairs of the vehicles. */
  function HeadPairs(vs: seq<Vehicle>): set<(string, Position)>
  {
    set v | v in vs :: (v.id, v.position)
  }

  /** With unique ids, the vehicle the dictionary holds under an id is the
      one carrying it. */
  lemma {:induction false} FindUnique(vs: seq<Vehicle>, v: Vehicle)
    requires UniqueIds(vs) && v in vs
    ensures Find(vs, v.id) == Some(v)
    decreases |vs|
  {
    assert vs == [vs[0]] + vs[1..];
    UniqueCons(vs[0], vs[1..]);
    if v != vs[0] {
      var i :| 0 <= i < |vs[1..]| && vs[1..][i] == v;
      assert Ids(vs[1..])[i] == v.id;
      FindUnique(vs[1..], v);
    }
  }


  /** Vehicles with the same head pairs have the same ids. */
  lemma IdsOfHeadPairs(vs: seq<Vehicle>, ws: seq<Vehicle>, x: string)
    requires HeadPairs(vs) == HeadPairs(ws)
    ensures x in Ids(vs) ==> x in Ids(ws)
  {
    if x in Ids(vs) {
      var v := Find(vs, x).value;
      assert (v.id, v.position) in HeadPairs(ws);
      var w :| w in ws && (w.id, w.position) == (v.id, v.position);
      var k :| 0 <= k < |ws| && ws[k] == w;
      assert Ids(ws)[k] == x;
    }
  }

  /** Vehicles with the same head pairs and unique ids hold the same head
      position under each id. */
  lemma PositionOfHeadPairs(vs: seq<Vehicle>, ws: seq<Vehicle>, x: string)
    requires UniqueIds(ws) && HeadPairs(vs) == HeadPairs(ws) && x in Ids(vs)
    ensures Find(ws, x).Some? && Find(ws, x).value.position == Find(vs, x).value.position
  {
    var v := Find(vs, x).value;
    assert (v.id, v.position) in HeadPairs(ws);
    var w :| w in ws && (w.id, w.position) == (v.id, v.position);
    FindUnique(ws, w);
  }

  /** The fingerprint depends only on which ids are active and where their
      heads are: not on the dictionary's order, the obstacles, the exited
      vehicles or the turn count. */
  lemma FingerprintByHeadPairs(vs: seq<Vehicle>, ws: seq<Vehicle>)
    requires UniqueIds(vs) && UniqueIds(ws) && HeadPairs(vs) == HeadPairs(ws)
    ensures Fingerprint(vs) == Fingerprint(ws)
  {
    var a, b := SortStrings(Ids(vs)), SortStrings(Ids(ws));
    SortStringsStrict(Ids(vs));
    SortStringsStrict(Ids(ws));
    SortStringsPerm(Ids(vs));
    SortStringsPerm(Ids(ws));
    forall x
      ensures x in a <==> x in b
    {
      assert x in a <==> x in multiset(Ids(vs));
      assert x in b <==> x in multiset(Ids(ws));
      IdsOfHeadPairs(vs, ws, x);
      IdsOfHeadPairs(ws, vs, x);
    }
    StrictlySortedUnique(a, b);
    forall x | x in a
      ensures HeadOf(vs, x) == HeadOf(ws, x)
    {
      assert x in multiset(Ids(vs));
      PositionOfHeadPairs(vs, ws, x);
    }
    PartsAgree(vs, ws, a, |a|);
    FingerprintParts(vs);
    FingerprintParts(ws);
  }

  /** The fingerprint is the parts of all the sorted ids. */
  lemma FingerprintParts(vs: seq<Vehicle>)
    ensures var ids := SortStrings(Ids(vs)); |ids| == |vs| && Fingerprint(vs) == Parts(vs, ids, |ids|)
  {
  }

  /** `get_hash`: one part per active id, in ascending id order. */
  method GetHash(st: SearchState) returns (fp: seq<(string, Position)>)
    ensures fp == Fingerprint(st.gameState.activeVehicles)
  {
    var vs := st.gameState.activeVehicles;
    var ids := SortStrings(Ids(vs));
    SortStringsPerm(Ids(vs));
    fp := [];
    for i := 0 to |ids|
      invariant fp == Parts(vs, ids, i)
    {
      assert ids[i] in multiset(Ids(vs));
      var v := Find(vs, ids[i]);
      fp := fp + [(ids[i], v.value.position)];
    }
    FingerprintParts(vs);
  }

  // ---------------------------------------------------------------------
  // Movability (`_find_movable_vehicles`)
  // ---------------------------------------------------------------------

  /** What the path table holds for a vehicle: no node at its head, no
      entry for its orientation and movement rule, or the stored path. */
  datatype Candidate = NoNode | NoEntry | Entry(info: PathInfo)

  /** The stored path for `v`, looked up under the id of the node at its
      head. */
  function CandidateOf(nodes: map<NodeId, Node>, table: PathTable, v: Vehicle): Candidate
  {
    var key := GetNodeId(v.position.x, v.position.y);
    if key !in nodes then NoNode
    else match PathLookup(table, nodes[key].id, v.orientation, v.movementRule)
      case None => NoEntry
      case Some(info) => Entry(info)
  }

  /** A stored path names only nodes of the graph. */
  lemma ClosedPath(nodes: map<NodeId, Node>, table: PathTable, v: Vehicle)
    requires PathsClosed(nodes.Keys, table) && CandidateOf(nodes, table, v).Entry?
    ensures forall id :: id in CandidateOf(nodes, table, v).info.exitPath ==> id in nodes
  {
    var key := GetNodeId(v.position.x, v.position.y);
    assert PathLookup(table, nodes[key].id, v.orientation, v.movementRule).Some?;
  }

  /** The positions of the vehicle's stored path. */
  function CandidatePositions(nodes: map<NodeId, Node>, table: PathTable, v: Vehicle): seq<Position>
    requires PathsClosed(nodes.Keys, table) && CandidateOf(nodes, table, v).Entry?
  {
    ClosedPath(nodes, table, v);
    PathPositions(nodes, CandidateOf(nodes, table, v).info.exitPath)
  }

  /** A vehicle can move: its head has a node, the table holds a path for
      its orientation and rule, that path is valid, and it is clear. */
  predicate IsMovable(nodes: map<NodeId, Node>, table: PathTable, s: GameState, v: Vehicle)
    requires PathsClosed(nodes.Keys, table)
  {
    var c := CandidateOf(nodes, table, v);
    c.Entry? && c.info.valid && PathBlock(s, CandidatePositions(nodes, table, v), v).None?
  }

  /** Movability spelled out: a node at the head, an entry in the table, a
      valid path, and no blocked position anywhere along it. */
  lemma IsMovableSpec(nodes: map<NodeId, Node>, table: PathTable, s: GameState, v: Vehicle)
    requires PathsClosed(nodes.Keys, table)
    ensures IsMovable(nodes, table, s, v) <==>
      var key := GetNodeId(v.position.x, v.position.y);
      && key in nodes
      && PathLookup(table, nodes[key].id, v.orientation, v.movementRule).Some?
      && PathLookup(table, nodes[key].id, v.orientation, v.movementRule).value.valid
      && forall i :: 0 <= i < |CandidatePositions(nodes, table, v)| ==>
           PositionBlocked(s, CandidatePositions(nodes, table, v)[i], v).None?
  {
    if CandidateOf(nodes, table, v).Entry? {
      PathBlockFirst(s, CandidatePositions(nodes, table, v), v);
    }
  }

  /** The movable vehicles among `vs`, in order, each with its stored path. */
  function MovableIn(nodes: map<NodeId, Node>, table: PathTable, s: GameState, vs: seq<Vehicle>)
    : (ms: seq<(Vehicle, PathInfo)>)
    requires PathsClosed(nodes.Keys, table)
    ensures |ms| <= |vs|
  {
    if vs == [] then []
    else
      var rest := MovableIn(nodes, table, s, vs[..|vs| - 1]);
      var v := vs[|vs| - 1];
      if IsMovable(nodes, table, s, v) then rest + [(v, CandidateOf(nodes, table, v).info)] else rest
  }

  /** The list `_find_movable_vehicles` returns for a state. */
  function Movable(nodes: map<NodeId, Node>, table: PathTable, s: GameState): seq<(Vehicle, PathInfo)>
    requires PathsClosed(nodes.Keys, table)
  {
    MovableIn(nodes, table, s, s.activeVehicles)
  }

  /** An entry is in the list exactly when its vehicle is among `vs` and can
      move, and its path is that vehicle's stored path. */
  lemma {:induction false} MovableInSpec(nodes: map<NodeId, Node>, table: PathTable, s: GameState,
                                         vs: seq<Vehicle>)
    requires PathsClosed(nodes.Keys, table)
    ensures forall e :: e in MovableIn(nodes, table, s, vs) <==>
      e.0 in vs && IsMovable(nodes, table, s, e.0) && e.1 == CandidateOf(nodes, table, e.0).info
    decreases |vs|
  {
    if vs != [] {
      var pre := vs[..|vs| - 1];
      MovableInSpec(nodes, table, s, pre);
      assert vs == pre + [vs[|vs| - 1]];
    }
  }

  /** The same, for a whole state; in particular nothing can move exactly
      when no vehicle is movable. */
  lemma MovableSpec(nodes: map<NodeId, Node>, table: PathTable, s: GameState)
    requires PathsClosed(nodes.Keys, table)
    ensures forall e :: e in Movable(nodes, table, s) <==>
      e.0 in s.activeVehicles && IsMovable(nodes, table, s, e.0) && e.1 == CandidateOf(nodes, table, e.0).info
    ensures Movable(nodes, table, s) == [] <==>
      forall v :: v in s.activeVehicles ==> !IsMovable(nodes, table, s, v)
  {
    MovableInSpec(nodes, table, s, s.activeVehicles);
    if Movable(nodes, table, s) != [] {
      assert Movable(nodes, table, s)[0] in Movable(nodes, table, s);
    }
    forall v | v in s.activeVehicles && IsMovable(nodes, table, s, v)
      ensures Movable(nodes, table, s) != []
    {
      assert (v, CandidateOf(nodes, table, v).info) in Movable(nodes, table, s);
    }
  }

  // ---------------------------------------------------------------------
  // Blocker identification (`_identify_blocker`)
  // ---------------------------------------------------------------------

  /** What `_identify_blocker` names: an obstacle's or a vehicle's id, or
      "UNKNOWN". */
  datatype Blocker = BlockerId(id: string) | UnknownBlocker

  /** The id of the first vehicle in dictionary order, other than `vid`,
      that occupies `p`. */
  function FirstOccupant(vs: seq<Vehicle>, p: Position, vid: string): Option<string>
  {
    if vs == [] then None
    else if vs[0].id != vid && p in GetOccupiedCells(vs[0]) then Some(vs[0].id)
    else FirstOccupant(vs[1..], p, vid)
  }

  /** An occupant is found exactly when a vehicle other than `vid` occupies
      `p`, and the one found does. */
  lemma {:induction false} FirstOccupantSpec(vs: seq<Vehicle>, p: Position, vid: string)
    ensures FirstOccupant(vs, p, vid).Some? <==> p in OccupiedBy(vs, Some(vid))
    ensures FirstOccupant(vs, p, vid).Some? ==>
      exists v :: v in vs && v.id == FirstOccupant(vs, p, vid).value && v.id != vid && p in GetOccupiedCells(v)
  {
    if vs != [] {
      FirstOccupantSpec(vs[1..], p, vid);
      if p in OccupiedBy(vs[1..], Some(vid)) {
        var i, q :| 0 <= i < |vs[1..]| && Some(vs[1..][i].id) != Some(vid) &&
                    q in GetOccupiedCells(vs[1..][i]) && q == p;
        assert vs[i + 1] == vs[1..][i];
        assert p in OccupiedBy(vs, Some(vid));
      }
      if p in OccupiedBy(vs, Some(vid)) && !(vs[0].id != vid && p in GetOccupiedCells(vs[0])) {
        var i, q :| 0 <= i < |vs| && Some(vs[i].id) != Some(vid) && q in GetOccupiedCells(vs[i]) && q == p;
        assert i != 0;
        assert vs[1..][i - 1] == vs[i];
        assert p in OccupiedBy(vs[1..], Some(vid));
      }
    }
  }

  /** What occupies one path cell: an obstacle there first, then a vehicle
      other than `vid`. */
  function BlockerAt(s: GameState, p: Position, vid: string): Option<string>
  {
    if p in s.obstacles then Some(s.obstacles[p].id)
    else FirstOccupant(s.activeVehicles, p, vid)
  }

  /** Every blocked cell has something to name; for a vehicle that cannot
      clear boulders the two coincide, while for a bulldozer a boulder is
      named although it does not block. */
  lemma BlockerAtSpec(s: GameState, p: Position, v: Vehicle)
    ensures p in s.obstacles ==> BlockerAt(s, p, v.id) == Some(s.obstacles[p].id)
    ensures PositionBlocked(s, p, v).Some? ==> BlockerAt(s, p, v.id).Some?
    ensures !v.CanClearObstacles() ==> (BlockerAt(s, p, v.id).Some? <==> PositionBlocked(s, p, v).Some?)
    ensures BlockerAt(s, p, v.id).Some? && PositionBlocked(s, p, v).None? ==>
      p in s.obstacles && s.obstacles[p].obstacleType == Boulder && v.CanClearObstacles()
  {
    FirstOccupantSpec(s.activeVehicles, p, v.id);
  }

  /** `_identify_blocker` over the positions of a path: the first position
      holding something nameable decides. */
  function FirstBlocker(s: GameState, ps: seq<Position>, vid: string): Blocker
  {
    if ps == [] then UnknownBlocker
    else match BlockerAt(s, ps[0], vid)
      case Some(x) => BlockerId(x)
      case None => FirstBlocker(s, ps[1..], vid)
  }

  /** A blocked path never yields "UNKNOWN"; for a vehicle that cannot clear
      boulders, "UNKNOWN" means exactly that the path is clear, and the name
      found belongs to the first blocked position. */
  lemma {:induction false} FirstBlockerSpec(s: GameState, ps: seq<Position>, v: Vehicle)
    ensures PathBlock(s, ps, v).Some? ==> FirstBlocker(s, ps, v.id).BlockerId?
    ensures !v.CanClearObstacles() ==>
      (FirstBlocker(s, ps, v.id).UnknownBlocker? <==> PathBlock(s, ps, v).None?)
    ensures !v.CanClearObstacles() && ps != [] && PositionBlocked(s, ps[0], v).Some? ==>
      BlockerAt(s, ps[0], v.id).Some? &&
      FirstBlocker(s, ps, v.id) == BlockerId(BlockerAt(s, ps[0], v.id).value)
  {
    if ps != [] {
      BlockerAtSpec(s, ps[0], v);
      FirstBlockerSpec(s, ps[1..], v);
    }
  }

  // ---------------------------------------------------------------------
  // Blocking analysis (`_analyze_blocking`)
  // ---------------------------------------------------------------------

  /** The `blockedBy` tag of a record. */
  datatype BlockedBy = InvalidPosition | NoPath | InvalidPathTag | BlockedByBlocker(blocker: Blocker)

  /** One record: the blocked vehicle, the tag, and for a blocked path the
      reason `is_path_clear` gave (the message texts are not modelled). */
  datatype BlockingDetail = BlockingDetail(blocked: string, blockedBy: BlockedBy, pathReason: Option<BlockReason>)

  /** The record for one vehicle, or none when its valid path is clear. */
  function Detail(nodes: map<NodeId, Node>, table: PathTable, s: GameState, v: Vehicle): Option<BlockingDetail>
    requires PathsClosed(nodes.Keys, table)
  {
    match CandidateOf(nodes, table, v)
    case NoNode => Some(BlockingDetail(v.id, InvalidPosition, None))
    case NoEntry => Some(BlockingDetail(v.id, NoPath, None))
    case Entry(info) =>
      if !info.valid then Some(BlockingDetail(v.id, InvalidPathTag, None))
      else
        var ps := CandidatePositions(nodes, table, v);
        match PathBlock(s, ps, v)
        case None => None
        case Some(r) => Some(BlockingDetail(v.id, BlockedByBlocker(FirstBlocker(s, ps, v.id)), Some(r)))
  }

  /** A vehicle gets a record exactly when it cannot move; the record names
      it, and a blocked-path record names a blocker, never "UNKNOWN". */
  lemma DetailSpec(nodes: map<NodeId, Node>, table: PathTable, s: GameState, v: Vehicle)
    requires PathsClosed(nodes.Keys, table)
    ensures Detail(nodes, table, s, v).None? <==> IsMovable(nodes, table, s, v)
    ensures Detail(nodes, table, s, v).Some? ==> Detail(nodes, table, s, v).value.blocked == v.id
    ensures Detail(nodes, table, s, v).Some? && Detail(nodes, table, s, v).value.blockedBy.BlockedByBlocker? ==>
      Detail(nodes, table, s, v).value.blockedBy.blocker.BlockerId? &&
      Detail(nodes, table, s, v).value.pathReason.Some?
  {
    if CandidateOf(nodes, table, v).Entry? {
      FirstBlockerSpec(s, CandidatePositions(nodes, table, v), v);
    }
  }

  /** The records for the vehicles of `vs`, in order. */
  function AnalyzeIn(nodes: map<NodeId, Node>, table: PathTable, s: GameState, vs: seq<Vehicle>)
    : (ds: seq<BlockingDetail>)
    requires PathsClosed(nodes.Keys, table)
    ensures |ds| <= |vs|
  {
    if vs == [] then []
    else
      var rest := AnalyzeIn(nodes, table, s, vs[..|vs| - 1]);
      match Detail(nodes, table, s, vs[|vs| - 1])
      case None => rest
      case Some(d) => rest + [d]
  }

  /** The list `_analyze_blocking` returns for a state. */
  function Analysis(nodes: map<NodeId, Node>, table: PathTable, s: GameState): seq<BlockingDetail>
    requires PathsClosed(nodes.Keys, table)
  {
    AnalyzeIn(nodes, table, s, s.activeVehicles)
  }

  /** When no vehicle of `vs` can move, there is exactly one record per
      vehicle, in the dictionary's order. */
  lemma {:induction false} AnalyzeInStuck(nodes: map<NodeId, Node>, table: PathTable, s: GameState,
                                          vs: seq<Vehicle>)
    requires PathsClosed(nodes.Keys, table)
    requires forall v :: v in vs ==> !IsMovable(nodes, table, s, v)
    ensures |AnalyzeIn(nodes, table, s, vs)| == |vs|
    ensures forall i :: 0 <= i < |vs| ==>
      Detail(nodes, table, s, vs[i]) == Some(AnalyzeIn(nodes, table, s, vs)[i])
    decreases |vs|
  {
    if vs != [] {
      var pre := vs[..|vs| - 1];
      AnalyzeInStuck(nodes, table, s, pre);
      DetailSpec(nodes, table, s, vs[|vs| - 1]);
    }
  }

  /** Every record is that of a vehicle of the state that cannot move, and
      a dead-end state (nothing movable) gets one record per vehicle, in
      order. */
  lemma AnalysisSpec(nodes: map<NodeId, Node>, table: PathTable, s: GameState)
    requires PathsClosed(nodes.Keys, table)
    ensures forall d :: d in Analysis(nodes, table, s) ==>
      exists v :: v in s.activeVehicles && !IsMovable(nodes, table, s, v) && Detail(nodes, table, s, v) == Some(d)
    ensures Movable(nodes, table, s) == [] ==>
      && |Analysis(nodes, table, s)| == |s.activeVehicles|
      && forall i :: 0 <= i < |s.activeVehicles| ==>
           Analysis(nodes, table, s)[i].blocked == s.activeVehicles[i].id
  {
    AnalysisRecords(nodes, table, s, s.activeVehicles);
    MovableSpec(nodes, table, s);
    if Movable(nodes, table, s) == [] {
      AnalyzeInStuck(nodes, table, s, s.activeVehicles);
      forall i | 0 <= i < |s.activeVehicles|
        ensures Analysis(nodes, table, s)[i].blocked == s.activeVehicles[i].id
      {
        DetailSpec(nodes, table, s, s.activeVehicles[i]);
      }
    }
  }

  /** Every record comes from a vehicle of `vs` that cannot move. */
  lemma {:induction false} AnalysisRecords(nodes: map<NodeId, Node>, table: PathTable, s: GameState,
                                           vs: seq<Vehicle>)
    requires PathsClosed(nodes.Keys, table)
    ensures forall d :: d in AnalyzeIn(nodes, table, s, vs) ==>
      exists v :: v in vs && !IsMovable(nodes, table, s, v) && Detail(nodes, table, s, v) == Some(d)
    decreases |vs|
  {
    if vs != [] {
      var pre := vs[..|vs| - 1];
      var v := vs[|vs| - 1];
      AnalysisRecords(nodes, table, s, pre);
      DetailSpec(nodes, table, s, v);
      forall d | d in AnalyzeIn(nodes, table, s, vs)
        ensures exists w :: w in vs && !IsMovable(nodes, table, s, w) && Detail(nodes, table, s, w) == Some(d)
      {
        if d in AnalyzeIn(nodes, table, s, pre) {
          var w :| w in pre && !IsMovable(nodes, table, s, w) && Detail(nodes, table, s, w) == Some(d);
          assert w in vs;
        } else {
          assert Detail(nodes, table, s, v) == Some(d);
        }
      }
    }
  }

  // ---------------------------------------------------------------------
  // Replaying a move sequence
  // ---------------------------------------------------------------------

  /** One move of the search: the vehicle with id `vid` must be active and
      movable, and the next state is the one `apply_vehicle_exit` returns
      for its stored path; otherwise there is no move. */
  function Step(nodes: map<NodeId, Node>, table: PathTable, s: GameState, vid: string): Option<GameState>
    requires PathsClosed(nodes.Keys, table)
  {
    match Find(s.activeVehicles, vid)
    case None => None
    case Some(v) =>
      if !IsMovable(nodes, table, s, v) then None
      else Some(ExitState(s, vid, CandidatePositions(nodes, table, v)).value)
  }

  /** The state reached from `s0` by the moves in order, if every move is
      possible. */
  function Replay(nodes: map<NodeId, Node>, table: PathTable, s0: GameState, moves: seq<string>)
    : Option<GameState>
    requires PathsClosed(nodes.Keys, table)
    decreases |moves|
  {
    if moves == [] then Some(s0)
    else match Replay(nodes, table, s0, moves[..|moves| - 1])
      case None => None
      case Some(s) => Step(nodes, table, s, moves[|moves| - 1])
  }

  /** A step removes exactly the moved vehicle, counts one more turn and
      records the id as exited; a state with unique ids keeps them. */
  lemma StepSpec(nodes: map<NodeId, Node>, table: PathTable, s: GameState, vid: string)
    requires PathsClosed(nodes.Keys, table) && UniqueIds(s.activeVehicles)
    ensures Step(nodes, table, s, vid).Some? <==>
      exists v :: v in s.activeVehicles && v.id == vid && IsMovable(nodes, table, s, v)
    ensures Step(nodes, table, s, vid).Some? ==>
      var n := Step(nodes, table, s, vid).value;
      && UniqueIds(n.activeVehicles)
      && (forall v :: v in n.activeVehicles <==> v in s.activeVehicles && v.id != vid)
      && |n.activeVehicles| < |s.activeVehicles|
      && n.exitedVehicles == s.exitedVehicles + [vid]
      && n.turnNumber == s.turnNumber + 1
  {
    if exists v :: v in s.activeVehicles && v.id == vid && IsMovable(nodes, table, s, v) {
      var v :| v in s.activeVehicles && v.id == vid && IsMovable(nodes, table, s, v);
      FindUnique(s.activeVehicles, v);
    }
    match Find(s.activeVehicles, vid)
    case None =>
    case Some(v) =>
      if IsMovable(nodes, table, s, v) {
        ExitStateSpec(s, vid, CandidatePositions(nodes, table, v));
        RemoveIdUnique(s.activeVehicles, vid);
      }
  }

  /** In a state with unique ids, an entry of the movable list is a
      possible step, to the state `apply_vehicle_exit` returns for the
      entry's path. */
  lemma StepOfMovable(nodes: map<NodeId, Node>, table: PathTable, s: GameState, e: (Vehicle, PathInfo))
    requires PathsClosed(nodes.Keys, table) && UniqueIds(s.activeVehicles)
    requires e in Movable(nodes, table, s)
    ensures CandidateOf(nodes, table, e.0).Entry? && CandidateOf(nodes, table, e.0).info == e.1
    ensures forall id :: id in e.1.exitPath ==> id in nodes
    ensures ExitState(s, e.0.id, PathPositions(nodes, e.1.exitPath)).Ok?
    ensures Step(nodes, table, s, e.0.id) ==
      Some(ExitState(s, e.0.id, PathPositions(nodes, e.1.exitPath)).value)
  {
    MovableSpec(nodes, table, s);
    FindUnique(s.activeVehicles, e.0);
    ClosedPath(nodes, table, e.0);
  }

  // ---------------------------------------------------------------------
  // The search
  // ---------------------------------------------------------------------

  /** Why the search stopped without a solution: how many states were
      dequeued and the longest move sequence seen. */
  datatype Exhausted = Exhausted(statesExplored: nat, maxDepth: nat)

  /** `SolverResult`; the reason is a tag instead of a message. */
  datatype SolverResult = SolverResult(
    solvable: bool,
    solution: seq<string>,
    totalMoves: nat,
    blockingDetails: Option<seq<BlockingDetail>>,
    reason: Option<Exhausted>)

  /** The blocking details `solve` holds after dequeueing the states `ds`
      in order: the analysis of the last one where nothing could move, or
      none while there was no such state. */
  function LastDeadEndOf(nodes: map<NodeId, Node>, table: PathTable, ds: seq<SearchState>)
    : seq<BlockingDetail>
    requires PathsClosed(nodes.Keys, table)
    decreases |ds|
  {
    if ds == [] then []
    else if Movable(nodes, table, ds[|ds| - 1].gameState) == [] then
      Analysis(nodes, table, ds[|ds| - 1].gameState)
    else LastDeadEndOf(nodes, table, ds[..|ds| - 1])
  }

  /** The depth `solve` reports after dequeueing the states `ds`: the
      longest of their move sequences, or 0 for none. */
  function MaxDepth(ds: seq<SearchState>): (d: nat)
    ensures forall i :: 0 <= i < |ds| ==> |ds[i].moveSequence| <= d
    ensures ds == [] ==> d == 0
    ensures ds != [] ==> exists i :: 0 <= i < |ds| && |ds[i].moveSequence| == d
    decreases |ds|
  {
    if ds == [] then 0
    else
      var p := ds[..|ds| - 1];
      var m := MaxDepth(p);
      assert forall i :: 0 <= i < |p| ==> p[i] == ds[i];
      if |ds[|ds| - 1].moveSequence| > m then |ds[|ds| - 1].moveSequence| else m
  }

  /** Dequeueing one more state raises the depth to its move count when
      that is larger. */
  lemma MaxDepthStep(ds: seq<SearchState>, x: SearchState)
    ensures MaxDepth(ds + [x]) == if |x.moveSequence| > MaxDepth(ds) then |x.moveSequence| else MaxDepth(ds)
  {
    assert (ds + [x])[..|ds|] == ds;
  }

  /** Dequeueing one more state: a dead end replaces the details, any other
      state keeps them. */
  lemma LastDeadEndStep(nodes: map<NodeId, Node>, table: PathTable, ds: seq<SearchState>, x: SearchState)
    requires PathsClosed(nodes.Keys, table)
    ensures LastDeadEndOf(nodes, table, ds + [x]) ==
      if Movable(nodes, table, x.gameState) == [] then Analysis(nodes, table, x.gameState)
      else LastDeadEndOf(nodes, table, ds)
  {
    assert (ds + [x])[..|ds|] == ds;
  }

  /** Over unsolved states the details are empty exactly when none of the
      states was a dead end. */
  lemma {:induction false} LastDeadEndOfEmpty(nodes: map<NodeId, Node>, table: PathTable, ds: seq<SearchState>)
    requires PathsClosed(nodes.Keys, table)
    requires forall i :: 0 <= i < |ds| ==> !IsSolved(ds[i].gameState)
    ensures LastDeadEndOf(nodes, table, ds) == [] <==>
      forall i :: 0 <= i < |ds| ==> Movable(nodes, table, ds[i].gameState) != []
    decreases |ds|
  {
    if ds != [] {
      var pre, x := ds[..|ds| - 1], ds[|ds| - 1];
      assert forall i :: 0 <= i < |pre| ==> pre[i] == ds[i];
      LastDeadEndOfEmpty(nodes, table, pre);
      if Movable(nodes, table, x.gameState) == [] {
        AnalysisSpec(nodes, table, x.gameState);
      }
    }
  }

  /** Non-empty details are the analysis of a dead end after which every
      dequeued state could still move. */
  lemma {:induction false} LastDeadEndOfSpec(nodes: map<NodeId, Node>, table: PathTable, ds: seq<SearchState>)
    requires PathsClosed(nodes.Keys, table)
    ensures LastDeadEndOf(nodes, table, ds) != [] ==>
      exists i :: && 0 <= i < |ds| && Movable(nodes, table, ds[i].gameState) == []
                  && LastDeadEndOf(nodes, table, ds) == Analysis(nodes, table, ds[i].gameState)
                  && forall j :: i < j < |ds| ==> Movable(nodes, table, ds[j].gameState) != []
    decreases |ds|
  {
    if ds != [] {
      var n := |ds| - 1;
      var pre := ds[..n];
      if Movable(nodes, table, ds[n].gameState) == [] {
        assert LastDeadEndOf(nodes, table, ds) == Analysis(nodes, table, ds[n].gameState);
      } else {
        assert LastDeadEndOf(nodes, table, ds) == LastDeadEndOf(nodes, table, pre);
        LastDeadEndOfSpec(nodes, table, pre);
        if LastDeadEndOf(nodes, table, pre) != [] {
          var i :| && 0 <= i < |pre| && Movable(nodes, table, pre[i].gameState) == []
                   && LastDeadEndOf(nodes, table, pre) == Analysis(nodes, table, pre[i].gameState)
                   && forall j :: i < j < |pre| ==> Movable(nodes, table, pre[j].gameState) != [];
          forall j | i < j < |ds| ensures Movable(nodes, table, ds[j].gameState) != [] {
            if j < n {
              assert ds[j] == pre[j];
            }
          }
          assert ds[i] == pre[i];
        }
      }
    }
  }


  /** A bound on the states the search can still dequeue from a state with
      `k` vehicles: the state itself plus at most `k` children with fewer
      vehicles each. */
  function Weight(k: nat): (w: nat)
    ensures w >= 1
  {
    if k == 0 then 1 else Times(k, Weight(k - 1)) + 1
  }

  /** `n` copies of `w` added up, which keeps the bounds on weights in
      linear arithmetic. */
  function Times(n: nat, w: nat): nat
  {
    if n == 0 then 0 else Times(n - 1, w) + w
  }

  lemma {:induction false} TimesMonotone(a: nat, b: nat, w: nat)
    requires a <= b
    ensures Times(a, w) <= Times(b, w)
    decreases b
  {
    if a < b {
      TimesMonotone(a, b - 1, w);
    }
  }

  lemma {:induction false} WeightMonotone(a: nat, b: nat)
    requires a <= b
    ensures Weight(a) <= Weight(b)
    decreases b
  {
    if a < b {
      WeightMonotone(a, b - 1);
      TimesMonotone(1, b, Weight(b - 1));
    }
  }

  /** The weight of a queue: the sum of its states' weights. */
  function QueueWeight(q: seq<SearchState>): nat
  {
    if q == [] then 0 else Weight(|q[0].gameState.activeVehicles|) + QueueWeight(q[1..])
  }

  lemma {:induction false} QueueWeightAppend(q: seq<SearchState>, x: SearchState)
    ensures QueueWeight(q + [x]) == QueueWeight(q) + Weight(|x.gameState.activeVehicles|)
    decreases |q|
  {
    if q != [] {
      assert (q + [x])[1..] == q[1..] + [x];
      QueueWeightAppend(q[1..], x);
    }
  }

  /** The weight of two queues one after the other is the sum of theirs. */
  lemma {:induction false} QueueWeightConcat(a: seq<SearchState>, b: seq<SearchState>)
    ensures QueueWeight(a + b) == QueueWeight(a) + QueueWeight(b)
    decreases |a|
  {
    if a != [] {
      assert (a + b)[1..] == a[1..] + b;
      QueueWeightConcat(a[1..], b);
    } else {
      assert a + b == b;
    }
  }

  /** A fingerprint, as `get_hash` joins it. */
  type Fingerprints = seq<(string, Position)>

  /** No fingerprint occurs twice: the last one is not among the earlier
      ones, which repeat nothing either. */
  predicate NoRepeats(fs: seq<Fingerprints>)
    decreases |fs|
  {
    fs == [] || (fs[|fs| - 1] !in fs[..|fs| - 1] && NoRepeats(fs[..|fs| - 1]))
  }

  /** `NoRepeats` holds exactly when any two positions hold different
      fingerprints. */
  lemma {:induction false} NoRepeatsPairwise(fs: seq<Fingerprints>)
    ensures NoRepeats(fs) <==> forall i, j :: 0 <= i < j < |fs| ==> fs[i] != fs[j]
    decreases |fs|
  {
    if fs != [] {
      var p := fs[..|fs| - 1];
      NoRepeatsPairwise(p);
      assert forall i :: 0 <= i < |p| ==> p[i] == fs[i];
    }
  }

  /** `f` applied to each element, in order. */
  function MapSeq<A, B>(f: A -> B, s: seq<A>): (r: seq<B>)
    ensures |r| == |s|
    decreases |s|
  {
    if s == [] then [] else MapSeq(f, s[..|s| - 1]) + [f(s[|s| - 1])]
  }

  lemma {:induction false} MapSeqAt<A, B>(f: A -> B, s: seq<A>, i: nat)
    requires i < |s|
    ensures MapSeq(f, s)[i] == f(s[i])
    decreases |s|
  {
    var pre := s[..|s| - 1];
    if i < |pre| {
      MapSeqAt(f, pre, i);
      assert pre[i] == s[i];
    }
  }

  lemma {:induction false} MapSeqAppend<A, B>(f: A -> B, a: seq<A>, b: seq<A>)
    ensures MapSeq(f, a + b) == MapSeq(f, a) + MapSeq(f, b)
    decreases |b|
  {
    if b == [] {
      assert a + b == a;
    } else {
      var pre := b[..|b| - 1];
      assert (a + b)[..|a + b| - 1] == a + pre;
      assert (a + b)[|a + b| - 1] == b[|b| - 1];
      MapSeqAppend(f, a, pre);
    }
  }

  /** The fingerprint of a search state's vehicles. */
  function StatePrint(x: SearchState): Fingerprints
  {
    Fingerprint(x.gameState.activeVehicles)
  }

  /** The fingerprints of the states, in order. */
  function Prints(qs: seq<SearchState>): (fs: seq<Fingerprints>)
    ensures |fs| == |qs|
  {
    MapSeq(StatePrint, qs)
  }

  /** Entry `i` is the fingerprint of state `i`. */
  lemma PrintsAt(qs: seq<SearchState>, i: nat)
    requires i < |qs|
    ensures Prints(qs)[i] == Fingerprint(qs[i].gameState.activeVehicles)
  {
    MapSeqAt(StatePrint, qs, i);
  }

  lemma PrintsOne(x: SearchState)
    ensures Prints([x]) == [Fingerprint(x.gameState.activeVehicles)]
  {
    PrintsAt([x], 0);
  }

  lemma PrintsAppend(a: seq<SearchState>, b: seq<SearchState>)
    ensures Prints(a + b) == Prints(a) + Prints(b)
  {
    MapSeqAppend(StatePrint, a, b);
  }

  /** What the search keeps true: every queued state is reached from the
      initial state by its move sequence and has unique ids; `visited`
      holds exactly the fingerprints enqueued so far, none of them twice,
      among them every queued state's. */
  ghost predicate SearchInvariant(nodes: map<NodeId, Node>, table: PathTable, s0: GameState,
                                  queue: seq<SearchState>, visited: set<Fingerprints>,
                                  enqueued: seq<Fingerprints>)
    requires PathsClosed(nodes.Keys, table)
  {
    && (forall k :: 0 <= k < |queue| ==>
          && Replay(nodes, table, s0, queue[k].moveSequence) == Some(queue[k].gameState)
          && UniqueIds(queue[k].gameState.activeVehicles)
          && Fingerprint(queue[k].gameState.activeVehicles) in visited)
    && NoRepeats(enqueued)
    && (forall f :: f in visited <==> f in enqueued)
  }

  /** A successor the search builds from a reached state is reached by the
      parent's moves plus the vehicle's id, keeps ids unique and holds one
      vehicle fewer at most. */
  lemma SuccessorReachable(nodes: map<NodeId, Node>, table: PathTable, s0: GameState,
                           current: SearchState, e: (Vehicle, PathInfo))
    requires PathsClosed(nodes.Keys, table)
    requires Replay(nodes, table, s0, current.moveSequence) == Some(current.gameState)
    requires UniqueIds(current.gameState.activeVehicles)
    requires e in Movable(nodes, table, current.gameState)
    ensures forall id :: id in e.1.exitPath ==> id in nodes
    ensures ExitState(current.gameState, e.0.id, PathPositions(nodes, e.1.exitPath)).Ok?
    ensures var n := ExitState(current.gameState, e.0.id, PathPositions(nodes, e.1.exitPath)).value;
      && Replay(nodes, table, s0, current.moveSequence + [e.0.id]) == Some(n)
      && UniqueIds(n.activeVehicles)
      && |n.activeVehicles| < |current.gameState.activeVehicles|
      && Successor(nodes, current, e) == Some(SearchState(n, current.moveSequence + [e.0.id]))
  {
    StepOfMovable(nodes, table, current.gameState, e);
    StepSpec(nodes, table, current.gameState, e.0.id);
    var moves := current.moveSequence + [e.0.id];
    assert moves[..|moves| - 1] == current.moveSequence;
  }

  /** Dequeueing keeps the search invariant, and the dequeued state is
      reached with unique ids. */
  lemma PopKeeps(nodes: map<NodeId, Node>, table: PathTable, s0: GameState,
                 queue: seq<SearchState>, visited: set<Fingerprints>, enqueued: seq<Fingerprints>)
    requires PathsClosed(nodes.Keys, table)
    requires SearchInvariant(nodes, table, s0, queue, visited, enqueued) && queue != []
    ensures SearchInvariant(nodes, table, s0, queue[1..], visited, enqueued)
    ensures Replay(nodes, table, s0, queue[0].moveSequence) == Some(queue[0].gameState)
    ensures UniqueIds(queue[0].gameState.activeVehicles)
    ensures QueueWeight(queue) == Weight(|queue[0].gameState.activeVehicles|) + QueueWeight(queue[1..])
  {
    forall k | 0 <= k < |queue[1..]|
      ensures && Replay(nodes, table, s0, queue[1..][k].moveSequence) == Some(queue[1..][k].gameState)
              && UniqueIds(queue[1..][k].gameState.activeVehicles)
              && Fingerprint(queue[1..][k].gameState.activeVehicles) in visited
    {
      assert queue[1..][k] == queue[k + 1];
    }
  }

  /** Enqueueing a reached state whose fingerprint is new keeps the search
      invariant. */
  lemma EnqueueKeeps(nodes: map<NodeId, Node>, table: PathTable, s0: GameState,
                     queue: seq<SearchState>, visited: set<Fingerprints>, enqueued: seq<Fingerprints>,
                     x: SearchState)
    requires PathsClosed(nodes.Keys, table)
    requires SearchInvariant(nodes, table, s0, queue, visited, enqueued)
    requires Replay(nodes, table, s0, x.moveSequence) == Some(x.gameState)
    requires UniqueIds(x.gameState.activeVehicles)
    requires Fingerprint(x.gameState.activeVehicles) !in visited
    ensures var h := Fingerprint(x.gameState.activeVehicles);
      SearchInvariant(nodes, table, s0, queue + [x], visited + {h}, enqueued + [h])
  {
    var h := Fingerprint(x.gameState.activeVehicles);
    var q := queue + [x];
    forall k | 0 <= k < |q|
      ensures && Replay(nodes, table, s0, q[k].moveSequence) == Some(q[k].gameState)
              && UniqueIds(q[k].gameState.activeVehicles)
              && Fingerprint(q[k].gameState.activeVehicles) in visited + {h}
    {
      if k < |queue| {
        assert q[k] == queue[k];
      }
    }
    assert (enqueued + [h])[..|enqueued|] == enqueued;
  }

  /** The successors of a state with `n` vehicles, at most `n` of them
      with fewer vehicles each, weigh less than the state did. */
  lemma WeightDrops(n: nat, m: nat, rest: nat, after: nat)
    requires 1 <= m <= n
    requires after <= rest + Times(m, Weight(n - 1))
    ensures after < Weight(n) + rest
  {
    TimesMonotone(m, n, Weight(n - 1));
  }

  /** The state the inner loop of `solve` builds from an entry of the
      movable list: the one `apply_vehicle_exit` returns for the entry's
      vehicle and path, reached by the parent's moves plus the vehicle's
      id. None for an entry whose vehicle is not active or whose path leaves
      the graph, which no entry of the movable list of a reached state is
      (`SuccessorReachable`). */
  function Successor(nodes: map<NodeId, Node>, current: SearchState, e: (Vehicle, PathInfo))
    : Option<SearchState>
  {
    if forall id :: id in e.1.exitPath ==> id in nodes then
      match ExitState(current.gameState, e.0.id, PathPositions(nodes, e.1.exitPath))
      case Ok(n) => Some(SearchState(n, current.moveSequence + [e.0.id]))
      case Err(_) => None
    else None
  }

  /** Breadth-first deduplication in general: the results of `succ` on the
      first `k` entries of `ms`, in order, each kept when its key is not yet
      seen and then marking its key seen; and the keys seen, starting from
      `seen0`. */
  function Dedup<E, T, K(!new)>(succ: E -> Option<T>, key: T -> K, ms: seq<E>, k: nat, seen0: set<K>)
    : (seq<T>, set<K>)
    requires k <= |ms|
  {
    if k == 0 then ([], seen0)
    else
      var r := Dedup(succ, key, ms, k - 1, seen0);
      match succ(ms[k - 1])
      case None => r
      case Some(x) => if key(x) in r.1 then r else (r.0 + [x], r.1 + {key(x)})
  }

  /** One more entry with a result keeps the kept results or appends that
      result. */
  lemma DedupStep<E, T, K(!new)>(succ: E -> Option<T>, key: T -> K, ms: seq<E>, k: nat, seen0: set<K>)
    requires 0 < k <= |ms| && succ(ms[k - 1]).Some?
    ensures var r := Dedup(succ, key, ms, k - 1, seen0).0;
      Dedup(succ, key, ms, k, seen0).0 in {r, r + [succ(ms[k - 1]).value]}
  {
  }

  /** Every kept result comes from an entry. */
  lemma {:induction false} DedupOrigin<E, T, K(!new)>(succ: E -> Option<T>, key: T -> K, ms: seq<E>, k: nat,
                                                seen0: set<K>)
    requires k <= |ms|
    ensures forall x :: x in Dedup(succ, key, ms, k, seen0).0 ==> exists i :: 0 <= i < k && succ(ms[i]) == Some(x)
    decreases k
  {
    if k > 0 {
      DedupOrigin(succ, key, ms, k - 1, seen0);
    }
  }

  /** `seen` holds exactly `seen0` and the keys `ks`, which are new and
      pairwise different. */
  ghost predicate KeysAccounted<K(!new)>(seen0: set<K>, ks: seq<K>, seen: set<K>)
  {
    && (forall h :: h in seen <==> h in seen0 || h in ks)
    && (forall h :: h in ks ==> h !in seen0)
    && (forall i, j :: 0 <= i < j < |ks| ==> ks[i] != ks[j])
  }

  /** The keys seen afterwards are those seen before plus the kept results',
      which were unseen before and are pairwise different. */
  lemma {:induction false} DedupKeys<E, T, K(!new)>(succ: E -> Option<T>, key: T -> K, ms: seq<E>, k: nat,
                                              seen0: set<K>)
    requires k <= |ms|
    ensures KeysAccounted(seen0, MapSeq(key, Dedup(succ, key, ms, k, seen0).0), Dedup(succ, key, ms, k, seen0).1)
    decreases k
  {
    if k > 0 {
      DedupKeys(succ, key, ms, k - 1, seen0);
      var r := Dedup(succ, key, ms, k - 1, seen0);
      if succ(ms[k - 1]).None? || key(succ(ms[k - 1]).value) in r.1 {
        assert Dedup(succ, key, ms, k, seen0) == r;
      } else {
        var x := succ(ms[k - 1]).value;
        assert Dedup(succ, key, ms, k, seen0) == (r.0 + [x], r.1 + {key(x)});
        MapSeqAppend(key, r.0, [x]);
        var fs := MapSeq(key, r.0 + [x]);
        var gs := MapSeq(key, r.0);
        assert fs == gs + [key(x)];
        forall h ensures h in fs <==> h in gs || h == key(x) {
          if h in fs {
            var i :| 0 <= i < |fs| && fs[i] == h;
            if i < |gs| { assert gs[i] == h; }
          }
          if h in gs {
            var i :| 0 <= i < |gs| && gs[i] == h;
            assert fs[i] == h;
          }
          if h == key(x) { assert fs[|gs|] == h; }
        }
        forall i, j | 0 <= i < j < |fs| ensures fs[i] != fs[j] {
          assert fs[i] == gs[i] && gs[i] in gs;
          if j < |gs| {
            assert fs[j] == gs[j];
          } else {
            assert fs[j] == key(x) && gs[i] in r.1;
          }
        }
      }
    }
  }

  /** Nothing is lost: the key of the result of each of the first `k`
      entries is seen afterwards. */
  lemma {:induction false} DedupComplete<E, T, K(!new)>(succ: E -> Option<T>, key: T -> K, ms: seq<E>, k: nat,
                                                  seen0: set<K>)
    requires k <= |ms|
    ensures forall i :: 0 <= i < k && succ(ms[i]).Some? ==> key(succ(ms[i]).value) in Dedup(succ, key, ms, k, seen0).1
    decreases k
  {
    if k > 0 {
      DedupComplete(succ, key, ms, k - 1, seen0);
      assert Dedup(succ, key, ms, k - 1, seen0).1 <= Dedup(succ, key, ms, k, seen0).1;
    }
  }

  /** `Successor` as a function value over the entries of the movable list. */
  function SuccessorFn(nodes: map<NodeId, Node>, current: SearchState): ((Vehicle, PathInfo)) -> Option<SearchState>
  {
    e => Successor(nodes, current, e)
  }

  /** What the inner loop of `solve` leaves after the first `k` entries of
      `ms`, starting from the fingerprints `visited`: the successors it
      appended to the queue, in the order of `ms`, each the first with its
      fingerprint; and the fingerprints seen. */
  function NewSuccessors(nodes: map<NodeId, Node>, current: SearchState, ms: seq<(Vehicle, PathInfo)>,
                         k: nat, visited: set<Fingerprints>): (seq<SearchState>, set<Fingerprints>)
    requires k <= |ms|
  {
    Dedup(SuccessorFn(nodes, current), StatePrint, ms, k, visited)
  }

  /** An outcome computed beforehand, passed through unchanged. */
  function Given<T>(o: Option<T>): Option<T>
  {
    o
  }

  /** Deduplicating outcomes computed beforehand is deduplicating the
      entries they were computed from. */
  lemma {:induction false} DedupGiven<E, T, K(!new)>(succ: E -> Option<T>, key: T -> K, ms: seq<E>, k: nat,
                                                     seen0: set<K>)
    requires k <= |ms|
    ensures Dedup(Given, key, MapSeq(succ, ms), k, seen0) == Dedup(succ, key, ms, k, seen0)
    decreases k
  {
    if k > 0 {
      DedupGiven(succ, key, ms, k - 1, seen0);
      MapSeqAt(succ, ms, k - 1);
    }
  }

  /** The outcome computed beforehand for an entry is its successor. */
  lemma OutcomeAt(nodes: map<NodeId, Node>, current: SearchState, ms: seq<(Vehicle, PathInfo)>, k: nat)
    requires k < |ms|
    ensures MapSeq(SuccessorFn(nodes, current), ms)[k] == Successor(nodes, current, ms[k])
  {
    MapSeqAt(SuccessorFn(nodes, current), ms, k);
  }

  /** One step of the inner loop of `solve` on the queue, the visited set
      and the enqueued fingerprints, over outcomes computed beforehand: a
      successor with an unseen fingerprint is appended, any other leaves all
      three as they are. */
  lemma ExpandRecord(outs: seq<Option<SearchState>>, k: nat, visited0: set<Fingerprints>,
                     queue0: seq<SearchState>, enqueued0: seq<Fingerprints>,
                     queue: seq<SearchState>, visited: set<Fingerprints>, enqueued: seq<Fingerprints>,
                     x: SearchState)
    requires k < |outs| && outs[k] == Some(x)
    requires var r := Dedup(Given, StatePrint, outs, k, visited0);
      queue == queue0 + r.0 && visited == r.1 && enqueued == enqueued0 + Prints(r.0)
    ensures var r := Dedup(Given, StatePrint, outs, k + 1, visited0);
      var h := Fingerprint(x.gameState.activeVehicles);
      if h in visited then
        queue == queue0 + r.0 && visited == r.1 && enqueued == enqueued0 + Prints(r.0)
      else
        queue + [x] == queue0 + r.0 && visited + {h} == r.1 && enqueued + [h] == enqueued0 + Prints(r.0)
  {
    var r := Dedup(Given, StatePrint, outs, k, visited0);
    var h := Fingerprint(x.gameState.activeVehicles);
    assert Given(outs[k]) == Some(x) && StatePrint(x) == h;
    if h !in visited {
      PrintsAppend(r.0, [x]);
      PrintsOne(x);
      AppendAssoc(queue0, r.0, [x]);
      AppendAssoc(enqueued0, Prints(r.0), [h]);
    }
  }

  /** The exit of a movable vehicle succeeds, and the successor holds the
      resulting state, fewer vehicles and the extended move sequence. */
  lemma SuccessorOf(nodes: map<NodeId, Node>, table: PathTable, s0: GameState, current: SearchState,
                    e: (Vehicle, PathInfo))
    requires PathsClosed(nodes.Keys, table)
    requires Replay(nodes, table, s0, current.moveSequence) == Some(current.gameState)
    requires UniqueIds(current.gameState.activeVehicles)
    requires e in Movable(nodes, table, current.gameState)
    ensures forall id :: id in e.1.exitPath ==> id in nodes
    ensures ExitState(current.gameState, e.0.id, PathPositions(nodes, e.1.exitPath)).Ok?
    ensures var n := ExitState(current.gameState, e.0.id, PathPositions(nodes, e.1.exitPath)).value;
      && |n.activeVehicles| < |current.gameState.activeVehicles|
      && Successor(nodes, current, e) == Some(SearchState(n, current.moveSequence + [e.0.id]))
  {
    SuccessorReachable(nodes, table, s0, current, e);
  }

  /** The successor of a movable entry exists and has fewer vehicles. */
  lemma SuccessorSmaller(nodes: map<NodeId, Node>, table: PathTable, s0: GameState, current: SearchState,
                         e: (Vehicle, PathInfo))
    requires PathsClosed(nodes.Keys, table)
    requires Replay(nodes, table, s0, current.moveSequence) == Some(current.gameState)
    requires UniqueIds(current.gameState.activeVehicles)
    requires e in Movable(nodes, table, current.gameState)
    ensures Successor(nodes, current, e).Some?
    ensures |Successor(nodes, current, e).value.gameState.activeVehicles| < |current.gameState.activeVehicles|
  {
    SuccessorOf(nodes, table, s0, current, e);
  }

  /** Appending a successor with an unseen fingerprint keeps the search
      invariant. */
  lemma ExpandKeeps(nodes: map<NodeId, Node>, table: PathTable, s0: GameState, current: SearchState,
                    e: (Vehicle, PathInfo), queue: seq<SearchState>, visited: set<Fingerprints>,
                    enqueued: seq<Fingerprints>)
    requires PathsClosed(nodes.Keys, table)
    requires Replay(nodes, table, s0, current.moveSequence) == Some(current.gameState)
    requires UniqueIds(current.gameState.activeVehicles)
    requires e in Movable(nodes, table, current.gameState)
    requires SearchInvariant(nodes, table, s0, queue, visited, enqueued)
    ensures Successor(nodes, current, e).Some?
    ensures var x := Successor(nodes, current, e).value;
      var h := Fingerprint(x.gameState.activeVehicles);
      h !in visited ==> SearchInvariant(nodes, table, s0, queue + [x], visited + {h}, enqueued + [h])
  {
    SuccessorReachable(nodes, table, s0, current, e);
    var x := Successor(nodes, current, e).value;
    if Fingerprint(x.gameState.activeVehicles) !in visited {
      EnqueueKeeps(nodes, table, s0, queue, visited, enqueued, x);
    }
  }

  /** Appending a state with at most `b` vehicles adds at most the weight
      of `b` vehicles. */
  lemma AppendWeight(q: seq<SearchState>, x: SearchState, b: nat)
    requires |x.gameState.activeVehicles| <= b
    ensures QueueWeight(q + [x]) <= QueueWeight(q) + Weight(b)
  {
    QueueWeightAppend(q, x);
    WeightMonotone(|x.gameState.activeVehicles|, b);
  }

  /** What the inner loop of `solve` keeps after the first `k` movable
      entries, whose outcomes are `outs`: the search invariant, and the
      queue, visited set and fingerprints as the first `k` outcomes make
      them. */
  ghost predicate Expanded(nodes: map<NodeId, Node>, table: PathTable, s0: GameState,
                           outs: seq<Option<SearchState>>, k: nat,
                           visited0: set<Fingerprints>, queue0: seq<SearchState>, enqueued0: seq<Fingerprints>,
                           queue: seq<SearchState>, visited: set<Fingerprints>, enqueued: seq<Fingerprints>)
    requires PathsClosed(nodes.Keys, table) && k <= |outs|
  {
    && SearchInvariant(nodes, table, s0, queue, visited, enqueued)
    && var r := Dedup(Given, StatePrint, outs, k, visited0);
       queue == queue0 + r.0 && visited == r.1 && enqueued == enqueued0 + Prints(r.0)
  }

  /** Before the inner loop of `solve` nothing is appended yet. */
  lemma ExpandedStart(nodes: map<NodeId, Node>, table: PathTable, s0: GameState, outs: seq<Option<SearchState>>,
                      visited0: set<Fingerprints>, queue0: seq<SearchState>, enqueued0: seq<Fingerprints>)
    requires PathsClosed(nodes.Keys, table)
    requires SearchInvariant(nodes, table, s0, queue0, visited0, enqueued0)
    ensures Expanded(nodes, table, s0, outs, 0, visited0, queue0, enqueued0, queue0, visited0, enqueued0)
  {
    assert queue0 + [] == queue0 && enqueued0 + Prints([]) == enqueued0;
  }

  /** One entry of the inner loop of `solve`: whether or not the successor's
      fingerprint was seen, the loop's record continues to `k + 1`. */
  lemma ExpandedStep(nodes: map<NodeId, Node>, table: PathTable, s0: GameState, current: SearchState,
                     ms: seq<(Vehicle, PathInfo)>, outs: seq<Option<SearchState>>, k: nat,
                     visited0: set<Fingerprints>, queue0: seq<SearchState>, enqueued0: seq<Fingerprints>,
                     queue: seq<SearchState>, visited: set<Fingerprints>, enqueued: seq<Fingerprints>,
                     x: SearchState,
                     queue1: seq<SearchState>, visited1: set<Fingerprints>, enqueued1: seq<Fingerprints>)
    requires PathsClosed(nodes.Keys, table)
    requires Replay(nodes, table, s0, current.moveSequence) == Some(current.gameState)
    requires UniqueIds(current.gameState.activeVehicles)
    requires ms == Movable(nodes, table, current.gameState) && k < |ms|
    requires outs == MapSeq(SuccessorFn(nodes, current), ms) && Successor(nodes, current, ms[k]) == Some(x)
    requires Expanded(nodes, table, s0, outs, k, visited0, queue0, enqueued0, queue, visited, enqueued)
    requires var h := Fingerprint(x.gameState.activeVehicles);
      if h in visited then queue1 == queue && visited1 == visited && enqueued1 == enqueued
      else queue1 == queue + [x] && visited1 == visited + {h} && enqueued1 == enqueued + [h]
    ensures Expanded(nodes, table, s0, outs, k + 1, visited0, queue0, enqueued0, queue1, visited1, enqueued1)
  {
    OutcomeAt(nodes, current, ms, k);
    if Fingerprint(x.gameState.activeVehicles) in visited {
      ExpandRecord(outs, k, visited0, queue0, enqueued0, queue, visited, enqueued, x);
    } else {
      ExpandAppend(nodes, table, s0, current, ms, outs, k, visited0, queue0, enqueued0, queue, visited, enqueued, x);
    }
  }

  /** The results kept from the first `k` outcomes, each with at most `b`
      vehicles, weigh at most `k` states of `b` vehicles. */
  lemma {:induction false} DedupWeight(outs: seq<Option<SearchState>>, k: nat, seen0: set<Fingerprints>, b: nat)
    requires k <= |outs|
    requires forall i :: 0 <= i < k && outs[i].Some? ==> |outs[i].value.gameState.activeVehicles| <= b
    ensures QueueWeight(Dedup(Given, StatePrint, outs, k, seen0).0) <= Times(k, Weight(b))
    decreases k
  {
    if k > 0 {
      DedupWeight(outs, k - 1, seen0, b);
      var r := Dedup(Given, StatePrint, outs, k - 1, seen0).0;
      assert Times(k, Weight(b)) == Times(k - 1, Weight(b)) + Weight(b);
      if outs[k - 1].Some? {
        DedupStep(Given, StatePrint, outs, k, seen0);
        AppendWeight(r, outs[k - 1].value, b);
      }
    }
  }

  /** Every outcome of a movable entry of a reached state has fewer vehicles
      than that state. */
  lemma OutcomesSmaller(nodes: map<NodeId, Node>, table: PathTable, s0: GameState, current: SearchState,
                        ms: seq<(Vehicle, PathInfo)>, outs: seq<Option<SearchState>>)
    requires PathsClosed(nodes.Keys, table)
    requires Replay(nodes, table, s0, current.moveSequence) == Some(current.gameState)
    requires UniqueIds(current.gameState.activeVehicles)
    requires ms == Movable(nodes, table, current.gameState)
    requires outs == MapSeq(SuccessorFn(nodes, current), ms)
    ensures forall i :: 0 <= i < |outs| && outs[i].Some? ==>
      |outs[i].value.gameState.activeVehicles| < |current.gameState.activeVehicles|
  {
    forall i | 0 <= i < |outs| && outs[i].Some?
      ensures |outs[i].value.gameState.activeVehicles| < |current.gameState.activeVehicles|
    {
      OutcomeAt(nodes, current, ms, i);
      SuccessorSmaller(nodes, table, s0, current, ms[i]);
    }
  }

  /** After the last movable entry, the loop's record is the one stated by
      `NewSuccessors`, and the queue grew by at most one state of one
      vehicle fewer per entry. */
  lemma ExpandedAll(nodes: map<NodeId, Node>, table: PathTable, s0: GameState, current: SearchState,
                    ms: seq<(Vehicle, PathInfo)>, outs: seq<Option<SearchState>>,
                    visited0: set<Fingerprints>, queue0: seq<SearchState>, enqueued0: seq<Fingerprints>,
                    queue: seq<SearchState>, visited: set<Fingerprints>, enqueued: seq<Fingerprints>)
    requires PathsClosed(nodes.Keys, table)
    requires Replay(nodes, table, s0, current.moveSequence) == Some(current.gameState)
    requires UniqueIds(current.gameState.activeVehicles) && current.gameState.activeVehicles != []
    requires ms == Movable(nodes, table, current.gameState)
    requires outs == MapSeq(SuccessorFn(nodes, current), ms)
    requires Expanded(nodes, table, s0, outs, |ms|, visited0, queue0, enqueued0, queue, visited, enqueued)
    ensures SearchInvariant(nodes, table, s0, queue, visited, enqueued)
    ensures var r := NewSuccessors(nodes, current, ms, |ms|, visited0);
      && queue == queue0 + r.0 && visited == r.1 && enqueued == enqueued0 + Prints(r.0)
    ensures QueueWeight(queue) <= QueueWeight(queue0) + Times(|ms|, Weight(|current.gameState.activeVehicles| - 1))
  {
    DedupGiven(SuccessorFn(nodes, current), StatePrint, ms, |ms|, visited0);
    QueueWeightConcat(queue0, NewSuccessors(nodes, current, ms, |ms|, visited0).0);
    OutcomesSmaller(nodes, table, s0, current, ms, outs);
    DedupWeight(outs, |ms|, visited0, |current.gameState.activeVehicles| - 1);
  }

  /** The inner loop of `solve` appending a successor with an unseen
      fingerprint: the search invariant holds of the longer queue, and the
      record of the outcomes continues from `k` to `k + 1` entries. */
  lemma ExpandAppend(nodes: map<NodeId, Node>, table: PathTable, s0: GameState, current: SearchState,
                     ms: seq<(Vehicle, PathInfo)>, outs: seq<Option<SearchState>>, k: nat,
                     visited0: set<Fingerprints>, queue0: seq<SearchState>, enqueued0: seq<Fingerprints>,
                     queue: seq<SearchState>, visited: set<Fingerprints>, enqueued: seq<Fingerprints>,
                     x: SearchState)
    requires PathsClosed(nodes.Keys, table)
    requires Replay(nodes, table, s0, current.moveSequence) == Some(current.gameState)
    requires UniqueIds(current.gameState.activeVehicles)
    requires ms == Movable(nodes, table, current.gameState) && k < |ms| == |outs|
    requires outs[k] == Successor(nodes, current, ms[k]) == Some(x)
    requires SearchInvariant(nodes, table, s0, queue, visited, enqueued)
    requires var r := Dedup(Given, StatePrint, outs, k, visited0);
      queue == queue0 + r.0 && visited == r.1 && enqueued == enqueued0 + Prints(r.0)
    requires Fingerprint(x.gameState.activeVehicles) !in visited
    ensures var h := Fingerprint(x.gameState.activeVehicles);
      var r := Dedup(Given, StatePrint, outs, k + 1, visited0);
      && SearchInvariant(nodes, table, s0, queue + [x], visited + {h}, enqueued + [h])
      && queue + [x] == queue0 + r.0 && visited + {h} == r.1 && enqueued + [h] == enqueued0 + Prints(r.0)
  {
    ExpandKeeps(nodes, table, s0, current, ms[k], queue, visited, enqueued);
    ExpandRecord(outs, k, visited0, queue0, enqueued0, queue, visited, enqueued, x);
  }

  /** Every appended state is a successor by an entry of `ms`; the
      fingerprints seen afterwards are those seen before plus the appended
      states', which are new and pairwise different. */
  lemma NewSuccessorsSound(nodes: map<NodeId, Node>, current: SearchState,
                           ms: seq<(Vehicle, PathInfo)>, k: nat, visited: set<Fingerprints>)
    requires k <= |ms|
    ensures var r := NewSuccessors(nodes, current, ms, k, visited);
      && (forall x :: x in r.0 ==> exists i :: 0 <= i < k && Successor(nodes, current, ms[i]) == Some(x))
      && (forall h :: h in r.1 <==> h in visited || h in Prints(r.0))
      && (forall h :: h in Prints(r.0) ==> h !in visited)
      && NoRepeats(Prints(r.0))
  {
    DedupOrigin(SuccessorFn(nodes, current), StatePrint, ms, k, visited);
    DedupKeys(SuccessorFn(nodes, current), StatePrint, ms, k, visited);
    var r := NewSuccessors(nodes, current, ms, k, visited);
    assert r == Dedup(SuccessorFn(nodes, current), StatePrint, ms, k, visited);
    assert Prints(r.0) == MapSeq(StatePrint, r.0);
    NoRepeatsPairwise(Prints(r.0));
    forall x | x in r.0 ensures exists i :: 0 <= i < k && Successor(nodes, current, ms[i]) == Some(x) {
      var i :| 0 <= i < k && SuccessorFn(nodes, current)(ms[i]) == Some(x);
    }
  }

  /** Nothing is lost: the fingerprint of every successor by one of the
      first `k` entries is seen afterwards. */
  lemma NewSuccessorsComplete(nodes: map<NodeId, Node>, current: SearchState,
                              ms: seq<(Vehicle, PathInfo)>, k: nat, visited: set<Fingerprints>)
    requires k <= |ms|
    ensures forall i :: 0 <= i < k && Successor(nodes, current, ms[i]).Some? ==>
      Fingerprint(Successor(nodes, current, ms[i]).value.gameState.activeVehicles) in
        NewSuccessors(nodes, current, ms, k, visited).1
  {
    DedupComplete(SuccessorFn(nodes, current), StatePrint, ms, k, visited);
    forall i | 0 <= i < k && Successor(nodes, current, ms[i]).Some?
      ensures Fingerprint(Successor(nodes, current, ms[i]).value.gameState.activeVehicles) in
        NewSuccessors(nodes, current, ms, k, visited).1
    {
      assert SuccessorFn(nodes, current)(ms[i]) == Successor(nodes, current, ms[i]);
    }
  }

  /** What the outer loop of `solve` keeps about the states it dequeued, in
      order: each is reached from `s0` by its move sequence, and their
      fingerprints followed by the queue's are exactly those enqueued. */
  ghost predicate Explored(nodes: map<NodeId, Node>, table: PathTable, s0: GameState,
                           dequeued: seq<SearchState>, queue: seq<SearchState>, enqueued: seq<Fingerprints>)
    requires PathsClosed(nodes.Keys, table)
  {
    && Prints(dequeued) + Prints(queue) == enqueued
    && forall i :: 0 <= i < |dequeued| ==>
         Replay(nodes, table, s0, dequeued[i].moveSequence) == Some(dequeued[i].gameState)
  }

  lemma AppendAssoc<T>(a: seq<T>, b: seq<T>, c: seq<T>)
    ensures (a + b) + c == a + (b + c)
  {
  }

  lemma Regroup<T>(a: seq<T>, b: seq<T>, c: seq<T>, d: seq<T>)
    ensures (a + b) + (c + d) == (a + (b + c)) + d
  {
  }

  /** Dequeueing the head of the queue and appending `added` with its
      fingerprints keeps the record. */
  lemma ExploredStep(nodes: map<NodeId, Node>, table: PathTable, s0: GameState, dequeued: seq<SearchState>,
                     queue0: seq<SearchState>, enqueued0: seq<Fingerprints>, added: seq<SearchState>)
    requires PathsClosed(nodes.Keys, table) && queue0 != []
    requires Replay(nodes, table, s0, queue0[0].moveSequence) == Some(queue0[0].gameState)
    requires Explored(nodes, table, s0, dequeued, queue0, enqueued0)
    ensures Explored(nodes, table, s0, dequeued + [queue0[0]], queue0[1..] + added, enqueued0 + Prints(added))
  {
    var ds, rest := dequeued + [queue0[0]], queue0[1..];
    PrintsAppend(dequeued, [queue0[0]]);
    PrintsAppend([queue0[0]], rest);
    PrintsAppend(rest, added);
    assert [queue0[0]] + rest == queue0;
    var pd, ph, pr, pa := Prints(dequeued), Prints([queue0[0]]), Prints(rest), Prints(added);
    Regroup(pd, ph, pr, pa);
    assert Prints(ds) + Prints(rest + added) == enqueued0 + Prints(added);
    forall i | 0 <= i < |ds|
      ensures Replay(nodes, table, s0, ds[i].moveSequence) == Some(ds[i].gameState)
    {
      if i < |dequeued| {
        assert ds[i] == dequeued[i];
      } else {
        assert ds[i] == queue0[0];
      }
    }
  }

  /** The states dequeued so far were enqueued first, in that order. */
  lemma ExploredPrefix(nodes: map<NodeId, Node>, table: PathTable, s0: GameState, dequeued: seq<SearchState>,
                       queue: seq<SearchState>, enqueued: seq<Fingerprints>)
    requires PathsClosed(nodes.Keys, table)
    requires Explored(nodes, table, s0, dequeued, queue, enqueued)
    ensures Prints(dequeued) <= enqueued
  {
    var pd, pq := Prints(dequeued), Prints(queue);
    assert (pd + pq)[..|pd|] == pd;
  }

  /** What the loop of `solve` keeps besides the search invariant: the
      start state's fingerprint enqueued first, every dequeued state reached
      and recorded in order ahead of the queue, and none of them solved. */
  ghost predicate Searched(nodes: map<NodeId, Node>, table: PathTable, s0: GameState,
                           dequeued: seq<SearchState>, queue: seq<SearchState>, enqueued: seq<Fingerprints>)
    requires PathsClosed(nodes.Keys, table)
  {
    && |enqueued| >= 1 && enqueued[0] == Fingerprint(s0.activeVehicles)
    && Explored(nodes, table, s0, dequeued, queue, enqueued)
    && (forall i :: 0 <= i < |dequeued| ==> !IsSolved(dequeued[i].gameState))
    && SuccessorsEnqueued(nodes, table, dequeued, enqueued)
  }

  /** The states `ds` were expanded: every move of a movable vehicle from
      any of them succeeds, and the fingerprint of the state it leads to is
      among `enqueued`. */
  ghost predicate SuccessorsEnqueued(nodes: map<NodeId, Node>, table: PathTable, ds: seq<SearchState>,
                                     enqueued: seq<Fingerprints>)
    requires PathsClosed(nodes.Keys, table)
  {
    forall i, e :: 0 <= i < |ds| && e in Movable(nodes, table, ds[i].gameState) ==>
      Successor(nodes, ds[i], e).Some? && StatePrint(Successor(nodes, ds[i], e).value) in enqueued
  }

  /** Expanding one more reached state: once the fingerprints seen after its
      inner loop are all enqueued, it joins the expanded states. */
  lemma SuccessorsEnqueuedStep(nodes: map<NodeId, Node>, table: PathTable, s0: GameState, ds: seq<SearchState>,
                               current: SearchState, visited0: set<Fingerprints>, visited: set<Fingerprints>,
                               enqueued0: seq<Fingerprints>, added: seq<Fingerprints>)
    requires PathsClosed(nodes.Keys, table)
    requires Replay(nodes, table, s0, current.moveSequence) == Some(current.gameState)
    requires UniqueIds(current.gameState.activeVehicles)
    requires SuccessorsEnqueued(nodes, table, ds, enqueued0)
    requires var ms := Movable(nodes, table, current.gameState);
      visited == NewSuccessors(nodes, current, ms, |ms|, visited0).1
    requires forall f :: f in visited ==> f in enqueued0 + added
    ensures SuccessorsEnqueued(nodes, table, ds + [current], enqueued0 + added)
  {
    var ms := Movable(nodes, table, current.gameState);
    NewSuccessorsComplete(nodes, current, ms, |ms|, visited0);
    var ds1 := ds + [current];
    forall i, e | 0 <= i < |ds1| && e in Movable(nodes, table, ds1[i].gameState)
      ensures Successor(nodes, ds1[i], e).Some? && StatePrint(Successor(nodes, ds1[i], e).value) in enqueued0 + added
    {
      if i < |ds| {
        assert ds1[i] == ds[i];
        assert StatePrint(Successor(nodes, ds[i], e).value) in enqueued0;
      } else {
        assert ds1[i] == current;
        var j :| 0 <= j < |ms| && ms[j] == e;
        SuccessorSmaller(nodes, table, s0, current, e);
      }
    }
  }

  /** Before the loop of `solve`, the queue holds the initial state alone,
      with its fingerprint visited and enqueued, and nothing is dequeued. */
  lemma SearchStart(nodes: map<NodeId, Node>, table: PathTable, s0: GameState)
    requires PathsClosed(nodes.Keys, table)
    requires UniqueIds(s0.activeVehicles)
    ensures var h := Fingerprint(s0.activeVehicles);
      && SearchInvariant(nodes, table, s0, [SearchState(s0, [])], {h}, [h])
      && Searched(nodes, table, s0, [], [SearchState(s0, [])], [h])
  {
    assert Prints([]) + Prints([SearchState(s0, [])]) == [Fingerprint(s0.activeVehicles)];
  }

  /** One pass of the loop of `solve` over an unsolved head: once the head
      is dequeued and its new successors enqueued, the loop's record holds
      again with the head among the dequeued states. */
  lemma SearchStep(nodes: map<NodeId, Node>, table: PathTable, s0: GameState, dequeued: seq<SearchState>,
                   queue0: seq<SearchState>, visited0: set<Fingerprints>, enqueued0: seq<Fingerprints>,
                   queue: seq<SearchState>, visited: set<Fingerprints>, enqueued: seq<Fingerprints>)
    requires PathsClosed(nodes.Keys, table)
    requires SearchInvariant(nodes, table, s0, queue0, visited0, enqueued0)
    requires SearchInvariant(nodes, table, s0, queue, visited, enqueued)
    requires Searched(nodes, table, s0, dequeued, queue0, enqueued0)
    requires queue0 != [] && !IsSolved(queue0[0].gameState)
    requires var ms := Movable(nodes, table, queue0[0].gameState);
      var r := NewSuccessors(nodes, queue0[0], ms, |ms|, visited0);
      queue == queue0[1..] + r.0 && visited == r.1 && enqueued == enqueued0 + Prints(r.0)
    ensures Searched(nodes, table, s0, dequeued + [queue0[0]], queue, enqueued)
  {
    PopKeeps(nodes, table, s0, queue0, visited0, enqueued0);
    var ms := Movable(nodes, table, queue0[0].gameState);
    ExploredStep(nodes, table, s0, dequeued, queue0, enqueued0, NewSuccessors(nodes, queue0[0], ms, |ms|, visited0).0);
    assert enqueued[0] == enqueued0[0];
    UnsolvedAppend(dequeued, queue0[0]);
    SuccessorsEnqueuedStep(nodes, table, s0, dequeued, queue0[0], visited0, visited, enqueued0,
                           Prints(NewSuccessors(nodes, queue0[0], ms, |ms|, visited0).0));
  }

  lemma UnsolvedAppend(ds: seq<SearchState>, x: SearchState)
    requires forall i :: 0 <= i < |ds| ==> !IsSolved(ds[i].gameState)
    requires !IsSolved(x.gameState)
    ensures forall i :: 0 <= i < |ds + [x]| ==> !IsSolved((ds + [x])[i].gameState)
  {
    forall i | 0 <= i < |ds + [x]| ensures !IsSolved((ds + [x])[i].gameState) {
      if i < |ds| {
        assert (ds + [x])[i] == ds[i];
      }
    }
  }

  /** A solved head ends the search: its moves reach a solved state, it is
      the last dequeued state and the only solved one, and the dequeued
      states' fingerprints lead the enqueued ones. */
  lemma SolvedOutcome(nodes: map<NodeId, Node>, table: PathTable, s0: GameState, dequeued: seq<SearchState>,
                      queue: seq<SearchState>, visited: set<Fingerprints>, enqueued: seq<Fingerprints>)
    requires PathsClosed(nodes.Keys, table)
    requires SearchInvariant(nodes, table, s0, queue, visited, enqueued)
    requires Searched(nodes, table, s0, dequeued, queue, enqueued)
    requires queue != [] && IsSolved(queue[0].gameState)
    ensures Replay(nodes, table, s0, queue[0].moveSequence) == Some(queue[0].gameState)
    ensures var ds := dequeued + [queue[0]];
      && (forall i :: 0 <= i < |ds| - 1 ==> !IsSolved(ds[i].gameState))
      && (forall i :: 0 <= i < |ds| ==> Replay(nodes, table, s0, ds[i].moveSequence) == Some(ds[i].gameState))
      && Prints(ds) <= enqueued && NoRepeats(enqueued)
  {
    PopKeeps(nodes, table, s0, queue, visited, enqueued);
    ExploredStep(nodes, table, s0, dequeued, queue, enqueued, []);
    assert enqueued + Prints([]) == enqueued;
    var ds := dequeued + [queue[0]];
    ExploredPrefix(nodes, table, s0, ds, queue[1..] + [], enqueued);
    forall i | 0 <= i < |ds| - 1 ensures !IsSolved(ds[i].gameState) {
      assert ds[i] == dequeued[i];
    }
  }

  /** When a solved head ends the search, the dequeued states, the head
      last, followed by the states left in the queue are the enqueued ones,
      and those left are reached by their moves. */
  lemma SolvedRest(nodes: map<NodeId, Node>, table: PathTable, s0: GameState, dequeued: seq<SearchState>,
                   queue: seq<SearchState>, visited: set<Fingerprints>, enqueued: seq<Fingerprints>)
    requires PathsClosed(nodes.Keys, table)
    requires SearchInvariant(nodes, table, s0, queue, visited, enqueued)
    requires Explored(nodes, table, s0, dequeued, queue, enqueued) && queue != []
    ensures Prints(dequeued + [queue[0]]) + Prints(queue[1..]) == enqueued
    ensures var rest := queue[1..];
      forall i :: 0 <= i < |rest| ==> Replay(nodes, table, s0, rest[i].moveSequence) == Some(rest[i].gameState)
  {
    ExploredStep(nodes, table, s0, dequeued, queue, enqueued, []);
    assert queue[1..] + [] == queue[1..] && enqueued + Prints([]) == enqueued;
    var rest := queue[1..];
    forall i | 0 <= i < |rest|
      ensures Replay(nodes, table, s0, rest[i].moveSequence) == Some(rest[i].gameState)
    {
      assert rest[i] == queue[i + 1];
    }
  }

  /** An emptied queue ends the search: the dequeued states are exactly the
      enqueued ones, in order, all reached and none solved. */
  lemma ExhaustedOutcome(nodes: map<NodeId, Node>, table: PathTable, s0: GameState, dequeued: seq<SearchState>,
                         visited: set<Fingerprints>, enqueued: seq<Fingerprints>)
    requires PathsClosed(nodes.Keys, table)
    requires SearchInvariant(nodes, table, s0, [], visited, enqueued)
    requires Searched(nodes, table, s0, dequeued, [], enqueued)
    ensures |dequeued| == |enqueued| >= 1 && enqueued == Prints(dequeued)
    ensures Prints(dequeued) + Prints([]) == enqueued
    ensures SuccessorsEnqueued(nodes, table, dequeued, enqueued)
    ensures forall i :: 0 <= i < |dequeued| ==>
      Replay(nodes, table, s0, dequeued[i].moveSequence) == Some(dequeued[i].gameState)
    ensures Prints(dequeued) <= enqueued && NoRepeats(enqueued)
  {
    assert Prints(dequeued) + Prints([]) == Prints(dequeued);
  }

  class Solver {
    const graph: RoadGraph

    constructor (graph: RoadGraph)
      ensures this.graph == graph
    {
      this.graph := graph;
    }

    /** `_find_movable_vehicles`. */
    method FindMovableVehicles(state: GameState) returns (movable: seq<(Vehicle, PathInfo)>)
      requires PathsClosed(graph.nodes.Keys, graph.pathLookup)
      ensures movable == Movable(graph.nodes, graph.pathLookup, state)
    {
      var vs := state.activeVehicles;
      movable := [];
      for i := 0 to |vs|
        invariant movable == MovableIn(graph.nodes, graph.pathLookup, state, vs[..i])
      {
        assert vs[..i + 1][..i] == vs[..i];
        var vehicle := vs[i];
        var node := graph.GetNode(vehicle.position.x, vehicle.position.y);
        if node.Some? {
          var id := node.value.id;
          if id in graph.pathLookup && vehicle.orientation in graph.pathLookup[id] &&
             vehicle.movementRule in graph.pathLookup[id][vehicle.orientation] {
            var pathInfo := graph.pathLookup[id][vehicle.orientation][vehicle.movementRule];
            if pathInfo.valid {
              ClosedPath(graph.nodes, graph.pathLookup, vehicle);
              var isClear, _ := IsPathClear(state, pathInfo.exitPath, vehicle, graph);
              if isClear {
                movable := movable + [(vehicle, pathInfo)];
              }
            }
          }
        }
      }
      assert vs[..|vs|] == vs;
    }

    /** `_identify_blocker`: the path's cells in order; at each, an obstacle
        first, then the other vehicles in dictionary order. */
    method IdentifyBlocker(path: seq<NodeId>, blocked: Vehicle, state: GameState) returns (b: Blocker)
      requires forall id :: id in path ==> id in graph.nodes
      ensures b == FirstBlocker(state, PathPositions(graph.nodes, path), blocked.id)
    {
      ghost var ps := PathPositions(graph.nodes, path);
      for i := 0 to |path|
        invariant FirstBlocker(state, ps, blocked.id) == FirstBlocker(state, ps[i..], blocked.id)
      {
        assert ps[i..][1..] == ps[i + 1..];
        var position := graph.nodes[path[i]].position;
        if position in state.obstacles {
          return BlockerId(state.obstacles[position].id);
        }
        var vs := state.activeVehicles;
        for j := 0 to |vs|
          invariant FirstOccupant(vs, position, blocked.id) == FirstOccupant(vs[j..], position, blocked.id)
        {
          assert vs[j..][1..] == vs[j + 1..];
          if vs[j].id != blocked.id && position in GetOccupiedCells(vs[j]) {
            return BlockerId(vs[j].id);
          }
        }
        assert vs[|vs|..] == [];
      }
      return UnknownBlocker;
    }

    /** `_analyze_blocking`. */
    method AnalyzeBlocking(state: GameState) returns (details: seq<BlockingDetail>)
      requires PathsClosed(graph.nodes.Keys, graph.pathLookup)
      ensures details == Analysis(graph.nodes, graph.pathLookup, state)
    {
      var vs := state.activeVehicles;
      details := [];
      for i := 0 to |vs|
        invariant details == AnalyzeIn(graph.nodes, graph.pathLookup, state, vs[..i])
      {
        assert vs[..i + 1][..i] == vs[..i];
        var detail := VehicleDetail(state, vs[i]);
        if detail.Some? {
          details := details + [detail.value];
        }
      }
      assert vs[..|vs|] == vs;
    }

    /** One pass of the loop of `_analyze_blocking`: the record for
        `vehicle`, or None when its path is clear. */
    method VehicleDetail(state: GameState, vehicle: Vehicle) returns (detail: Option<BlockingDetail>)
      requires PathsClosed(graph.nodes.Keys, graph.pathLookup)
      ensures detail == Detail(graph.nodes, graph.pathLookup, state, vehicle)
    {
      var node := graph.GetNode(vehicle.position.x, vehicle.position.y);
      if node.None? {
        return Some(BlockingDetail(vehicle.id, InvalidPosition, None));
      }
      var id := node.value.id;
      if !(id in graph.pathLookup && vehicle.orientation in graph.pathLookup[id] &&
           vehicle.movementRule in graph.pathLookup[id][vehicle.orientation]) {
        return Some(BlockingDetail(vehicle.id, NoPath, None));
      }
      var pathInfo := graph.pathLookup[id][vehicle.orientation][vehicle.movementRule];
      if !pathInfo.valid {
        return Some(BlockingDetail(vehicle.id, InvalidPathTag, None));
      }
      ClosedPath(graph.nodes, graph.pathLookup, vehicle);
      var isClear, reason := IsPathClear(state, pathInfo.exitPath, vehicle, graph);
      if !isClear {
        var blocker := IdentifyBlocker(pathInfo.exitPath, vehicle, state);
        return Some(BlockingDetail(vehicle.id, BlockedByBlocker(blocker), reason));
      }
      return None;
    }

    /** The body of the inner loop of `solve` up to the visited check: the
        vehicle's exit applied to the dequeued state, the move appended, and
        the fingerprint of the result. */
    method NextState(ghost initial: GameState, current: SearchState, e: (Vehicle, PathInfo))
      returns (newState: SearchState, stateHash: Fingerprints)
      requires PathsClosed(graph.nodes.Keys, graph.pathLookup)
      requires Replay(graph.nodes, graph.pathLookup, initial, current.moveSequence) == Some(current.gameState)
      requires UniqueIds(current.gameState.activeVehicles)
      requires e in Movable(graph.nodes, graph.pathLookup, current.gameState)
      ensures Successor(graph.nodes, current, e) == Some(newState)
      ensures stateHash == Fingerprint(newState.gameState.activeVehicles)
    {
      var (vehicle, pathInfo) := e;
      SuccessorOf(graph.nodes, graph.pathLookup, initial, current, e);
      var next := ApplyVehicleExit(current.gameState, vehicle.id, pathInfo.exitPath, graph);
      newState := SearchState(next.value, current.moveSequence + [vehicle.id]);
      stateHash := GetHash(newState);
    }

    /** One pass of the inner loop of `solve`: the exit of the `k`-th
        movable vehicle, and the successor enqueued with its fingerprint
        marked visited when that fingerprint is new. */
    method ExpandOne(ghost initial: GameState, current: SearchState, movable: seq<(Vehicle, PathInfo)>,
                     ghost outs: seq<Option<SearchState>>, k: nat, ghost visited0: set<Fingerprints>,
                     ghost queue0: seq<SearchState>, ghost enqueued0: seq<Fingerprints>,
                     queue: seq<SearchState>, visited: set<Fingerprints>, ghost enqueued: seq<Fingerprints>)
      returns (queue1: seq<SearchState>, visited1: set<Fingerprints>, ghost enqueued1: seq<Fingerprints>)
      requires PathsClosed(graph.nodes.Keys, graph.pathLookup)
      requires Replay(graph.nodes, graph.pathLookup, initial, current.moveSequence) == Some(current.gameState)
      requires UniqueIds(current.gameState.activeVehicles)
      requires movable == Movable(graph.nodes, graph.pathLookup, current.gameState) && k < |movable|
      requires outs == MapSeq(SuccessorFn(graph.nodes, current), movable)
      requires Expanded(graph.nodes, graph.pathLookup, initial, outs, k, visited0, queue0, enqueued0,
                        queue, visited, enqueued)
      ensures Expanded(graph.nodes, graph.pathLookup, initial, outs, k + 1, visited0, queue0, enqueued0,
                       queue1, visited1, enqueued1)
    {
      var newState, stateHash := NextState(initial, current, movable[k]);
      queue1, visited1, enqueued1 := queue, visited, enqueued;
      if stateHash !in visited {
        visited1 := visited + {stateHash};
        enqueued1 := enqueued + [stateHash];
        queue1 := queue + [newState];
      }
      ExpandedStep(graph.nodes, graph.pathLookup, initial, current, movable, outs, k, visited0, queue0, enqueued0,
                   queue, visited, enqueued, newState, queue1, visited1, enqueued1);
    }

    /** The inner loop of `solve`: applies each movable vehicle's exit to
        the dequeued state and enqueues, in order, every successor whose
        fingerprint is new, adding the fingerprint to the visited set. */
    method Expand(ghost initial: GameState, current: SearchState, movable: seq<(Vehicle, PathInfo)>,
                  queue0: seq<SearchState>, visited0: set<Fingerprints>, ghost enqueued0: seq<Fingerprints>)
      returns (queue: seq<SearchState>, visited: set<Fingerprints>, ghost enqueued: seq<Fingerprints>)
      requires PathsClosed(graph.nodes.Keys, graph.pathLookup)
      requires Replay(graph.nodes, graph.pathLookup, initial, current.moveSequence) == Some(current.gameState)
      requires UniqueIds(current.gameState.activeVehicles) && !IsSolved(current.gameState)
      requires movable == Movable(graph.nodes, graph.pathLookup, current.gameState)
      requires SearchInvariant(graph.nodes, graph.pathLookup, initial, queue0, visited0, enqueued0)
      ensures SearchInvariant(graph.nodes, graph.pathLookup, initial, queue, visited, enqueued)
      ensures var r := NewSuccessors(graph.nodes, current, movable, |movable|, visited0);
        && queue == queue0 + r.0 && visited == r.1 && enqueued == enqueued0 + Prints(r.0)
      ensures QueueWeight(queue) <= QueueWeight(queue0) +
        Times(|movable|, Weight(|current.gameState.activeVehicles| - 1))
    {
      queue, visited, enqueued := queue0, visited0, enqueued0;
      ghost var outs := MapSeq(SuccessorFn(graph.nodes, current), movable);
      ExpandedStart(graph.nodes, graph.pathLookup, initial, outs, visited0, queue0, enqueued0);
      for k := 0 to |movable|
        invariant Expanded(graph.nodes, graph.pathLookup, initial, outs, k, visited0, queue0, enqueued0,
                           queue, visited, enqueued)
      {
        queue, visited, enqueued := ExpandOne(initial, current, movable, outs, k, visited0, queue0, enqueued0,
                                              queue, visited, enqueued);
      }
      ExpandedAll(graph.nodes, graph.pathLookup, initial, current, movable, outs, visited0, queue0, enqueued0,
                  queue, visited, enqueued);
    }

    /** One pass of the loop of `solve` after the dequeued state was found
        unsolved: the state leaves the queue; a dead end replaces the
        blocking details by its analysis, any other state has its new
        successors enqueued. The queue's weight drops. */
    method Advance(ghost initial: GameState, queue0: seq<SearchState>, visited0: set<Fingerprints>,
                   ghost enqueued0: seq<Fingerprints>, details0: seq<BlockingDetail>)
      returns (queue: seq<SearchState>, visited: set<Fingerprints>, ghost enqueued: seq<Fingerprints>,
               details: seq<BlockingDetail>)
      requires PathsClosed(graph.nodes.Keys, graph.pathLookup)
      requires SearchInvariant(graph.nodes, graph.pathLookup, initial, queue0, visited0, enqueued0)
      requires queue0 != [] && !IsSolved(queue0[0].gameState)
      ensures SearchInvariant(graph.nodes, graph.pathLookup, initial, queue, visited, enqueued)
      ensures var ms := Movable(graph.nodes, graph.pathLookup, queue0[0].gameState);
        var r := NewSuccessors(graph.nodes, queue0[0], ms, |ms|, visited0);
        && queue == queue0[1..] + r.0 && visited == r.1 && enqueued == enqueued0 + Prints(r.0)
        && details == if ms == [] then Analysis(graph.nodes, graph.pathLookup, queue0[0].gameState) else details0
      ensures QueueWeight(queue) < QueueWeight(queue0)
    {
      ghost var nodes, table := graph.nodes, graph.pathLookup;
      var current := queue0[0];
      PopKeeps(nodes, table, initial, queue0, visited0, enqueued0);
      queue, visited, enqueued, details := queue0[1..], visited0, enqueued0, details0;
      var movable := FindMovableVehicles(current.gameState);
      if movable == [] {
        details := AnalyzeBlocking(current.gameState);
        assert queue == queue0[1..] + [] && enqueued == enqueued0 + Prints([]);
        return;
      }
      ghost var n := |current.gameState.activeVehicles|;
      assert |movable| <= n;
      queue, visited, enqueued := Expand(initial, current, movable, queue, visited, enqueued);
      WeightDrops(n, |movable|, QueueWeight(queue0[1..]), QueueWeight(queue));
    }

    /** `solve`: breadth-first search over exit orders, from the initial
        state, skipping states whose fingerprint was seen. The ghost
        results list the fingerprints in the order they were enqueued, the
        states in the order they were dequeued, and the states left in the
        queue at the end. */
    method Solve(initial: GameState)
      returns (result: SolverResult, ghost enqueued: seq<Fingerprints>, ghost dequeued: seq<SearchState>,
               ghost pending: seq<SearchState>)
      requires PathsClosed(graph.nodes.Keys, graph.pathLookup)
      requires UniqueIds(initial.activeVehicles)
      ensures IsSolved(initial) ==> result == SolverResult(true, [], 0, None, None) && dequeued == []
      ensures result.solvable ==>
        && result.totalMoves == |result.solution|
        && result.blockingDetails.None? && result.reason.None?
        && Replay(graph.nodes, graph.pathLookup, initial, result.solution).Some?
        && IsSolved(Replay(graph.nodes, graph.pathLookup, initial, result.solution).value)
      ensures result.solvable && !IsSolved(initial) ==>
        && dequeued != [] && IsSolved(dequeued[|dequeued| - 1].gameState)
        && result.solution == dequeued[|dequeued| - 1].moveSequence
      ensures !result.solvable ==>
        && result.solution == [] && result.totalMoves == 0
        && result.reason.Some? && result.reason.value.statesExplored == |dequeued| == |enqueued| >= 1
        && enqueued == Prints(dequeued)
        && (forall i :: 0 <= i < |dequeued| ==> !IsSolved(dequeued[i].gameState))
        && result.blockingDetails == Some(LastDeadEndOf(graph.nodes, graph.pathLookup, dequeued))
        && result.reason.value.maxDepth == MaxDepth(dequeued)
        && SuccessorsEnqueued(graph.nodes, graph.pathLookup, dequeued, enqueued)
      ensures forall i :: 0 <= i < |dequeued| - 1 ==> !IsSolved(dequeued[i].gameState)
      ensures forall i :: 0 <= i < |dequeued| ==>
        Replay(graph.nodes, graph.pathLookup, initial, dequeued[i].moveSequence) == Some(dequeued[i].gameState)
      ensures Prints(dequeued) <= enqueued && NoRepeats(enqueued)
      ensures Prints(dequeued) + Prints(pending) == enqueued && (!result.solvable ==> pending == [])
      ensures forall i :: 0 <= i < |pending| ==>
        Replay(graph.nodes, graph.pathLookup, initial, pending[i].moveSequence) == Some(pending[i].gameState)
      ensures !IsSolved(initial) ==> |enqueued| >= 1 && enqueued[0] == Fingerprint(initial.activeVehicles)
    {
      enqueued, dequeued, pending := [], [], [];
      if IsSolved(initial) {
        return SolverResult(true, [], 0, None, None), enqueued, dequeued, pending;
      }
      var start := SearchState(initial, []);
      var startHash := GetHash(start);
      var queue := [start];
      var visited := {startHash};
      enqueued := [startHash];
      var statesExplored: nat := 0;
      var maxDepth: nat := 0;
      var lastDetails: seq<BlockingDetail> := [];
      ghost var nodes, table := graph.nodes, graph.pathLookup;
      SearchStart(nodes, table, initial);
      while queue != []
        invariant SearchInvariant(nodes, table, initial, queue, visited, enqueued)
        invariant Searched(nodes, table, initial, dequeued, queue, enqueued)
        invariant statesExplored == |dequeued|
        invariant lastDetails == LastDeadEndOf(nodes, table, dequeued)
        invariant maxDepth == MaxDepth(dequeued)
        decreases QueueWeight(queue)
      {
        var current := queue[0];
        statesExplored := statesExplored + 1;
        if |current.moveSequence| > maxDepth {
          maxDepth := |current.moveSequence|;
        }
        if IsSolved(current.gameState) {
          SolvedOutcome(nodes, table, initial, dequeued, queue, visited, enqueued);
          SolvedRest(nodes, table, initial, dequeued, queue, visited, enqueued);
          dequeued, pending := dequeued + [current], queue[1..];
          return SolverResult(true, current.moveSequence, |current.moveSequence|, None, None),
            enqueued, dequeued, pending;
        }
        ghost var dequeued0, queue0, visited0, enqueued0 := dequeued, queue, visited, enqueued;
        queue, visited, enqueued, lastDetails := Advance(initial, queue, visited, enqueued, lastDetails);
        SearchStep(nodes, table, initial, dequeued0, queue0, visited0, enqueued0, queue, visited, enqueued);
        LastDeadEndStep(nodes, table, dequeued, current);
        MaxDepthStep(dequeued, current);
        dequeued := dequeued + [current];
      }
      ExhaustedOutcome(nodes, table, initial, dequeued, visited, enqueued);
      return SolverResult(false, [], 0, Some(lastDetails), Some(Exhausted(statesExplored, maxDepth))),
        enqueued, dequeued, pending;
    }
  }
}
