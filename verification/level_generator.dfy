/** The entity-based level generator of src/world/EntityLevelGenerator.js:
    a STAGE_HEIGHT x STAGE_WIDTH grid that starts as solid wall, rooms and
    L-shaped corridors carved into it in place, exits chosen among the floor
    cells next to a wall, and the wall cells that get a wall entity. */
module LevelGenerator {
  import opened Common
  import Helpers

  /** An exit of a level: its grid cell and its exit index. */
  datatype ExitRecord = ExitRecord(x: int, y: int, exitIndex: int)

  /** The far end of an exit connection: a level id and an exit index there. */
  datatype Connection = Connection(levelId: string, exitIndex: int)

  /** A level's exit records, exit connections and entity lists, as one value. */
  datatype LevelContents = LevelContents(
    exits: seq<ExitRecord>, exitConnections: map<int, Connection>,
    floors: seq<Cell>, walls: seq<Cell>, exitEntities: seq<int>)
  {
    /** The contents once the entity lists are emptied: the exit records
        and connections stay. */
    function Cleared(): LevelContents
    {
      this.(floors := [], walls := [], exitEntities := [])
    }
  }

  /** A generated level. The entity lists hold each created entity by the
      thing that identifies it: floor and wall entities by their cell, exit
      entities by their exit index. */
  class Level {
    const id: string
    const grid: array2<int>
    var exits: seq<ExitRecord>
    var exitConnections: map<int, Connection>
    var floors: seq<Cell>
    var walls: seq<Cell>
    var exitEntities: seq<int>

    /** Everything about the level but its id and grid, as one value. */
    ghost function Contents(): LevelContents
      reads this
    {
      LevelContents(exits, exitConnections, floors, walls, exitEntities)
    }

    /** The grid has the configured size. */
    ghost predicate Valid()
    {
      grid.Length0 == StageHeight && grid.Length1 == StageWidth
    }

    constructor (id: string)
      ensures this.id == id && Valid() && fresh(grid)
      ensures exits == [] && exitConnections == map[]
      ensures floors == [] && walls == [] && exitEntities == []
    {
      this.id := id;
      grid := new int[StageHeight, StageWidth];
      exits := [];
      exitConnections := map[];
      floors := [];
      walls := [];
      exitEntities := [];
    }
  }

  /** Every cell of the grid is a wall. */
  ghost predicate AllWall(g: array2<int>)
    reads g
    requires g.Length0 == StageHeight && g.Length1 == StageWidth
  {
    forall y, x :: OnMap(x, y) ==> g[y, x] == WallCode
  }

  /** createLevel, first part: the level record with every cell a wall and no
      exits or connections yet. */
  method NewWallLevel(id: string) returns (level: Level)
    ensures fresh(level) && fresh(level.grid) && level.Valid() && level.id == id
    ensures AllWall(level.grid)
    ensures level.exits == [] && level.exitConnections == map[]
    ensures level.floors == [] && level.walls == [] && level.exitEntities == []
  {
    level := new Level(id);
    var y := 0;
    while y < StageHeight
      modifies level.grid
      invariant 0 <= y <= StageHeight
      invariant forall j, i :: 0 <= j < y && 0 <= i < StageWidth ==> level.grid[j, i] == WallCode
    {
      var x := 0;
      while x < StageWidth
        modifies level.grid
        invariant 0 <= x <= StageWidth
        invariant forall j, i :: 0 <= j < y && 0 <= i < StageWidth ==> level.grid[j, i] == WallCode
        invariant forall i :: 0 <= i < x ==> level.grid[y, i] == WallCode
      {
        level.grid[y, x] := WallCode;
        x := x + 1;
      }
      y := y + 1;
    }
  }

  /** createRoom: every wall cell of the inclusive rectangle that lies on the
      map becomes floor, and gets a floor entity; no other cell changes. */
  method CreateRoom(level: Level, cx: int, cy: int, halfWidth: int, halfHeight: int)
    requires level.Valid()
    modifies level.grid, level`floors
    ensures forall y, x :: OnMap(x, y) ==>
      level.grid[y, x] ==
        if InRect(x, y, cx, cy, halfWidth, halfHeight) && old(level.grid[y, x]) == WallCode
        then FloorCode else old(level.grid[y, x])
    ensures forall y, x :: OnMap(x, y) && InRect(x, y, cx, cy, halfWidth, halfHeight) ==>
      level.grid[y, x] != WallCode
    ensures |old(level.floors)| <= |level.floors| && level.floors[..|old(level.floors)|] == old(level.floors)
    ensures forall k :: |old(level.floors)| <= k < |level.floors| ==>
      var c := level.floors[k];
      OnMap(c.x, c.y) && InRect(c.x, c.y, cx, cy, halfWidth, halfHeight) &&
      old(level.grid[c.y, c.x]) == WallCode && level.grid[c.y, c.x] == FloorCode
  {
    var y := cy - halfHeight;
    while y <= cy + halfHeight
      invariant cy - halfHeight <= y
      invariant forall j, i :: OnMap(i, j) ==>
        level.grid[j, i] ==
          if InRect(i, j, cx, cy, halfWidth, halfHeight) && j < y && old(level.grid[j, i]) == WallCode
          then FloorCode else old(level.grid[j, i])
      invariant |old(level.floors)| <= |level.floors| && level.floors[..|old(level.floors)|] == old(level.floors)
      invariant forall k :: |old(level.floors)| <= k < |level.floors| ==>
        var c := level.floors[k];
        OnMap(c.x, c.y) && InRect(c.x, c.y, cx, cy, halfWidth, halfHeight) && c.y < y &&
        old(level.grid[c.y, c.x]) == WallCode && level.grid[c.y, c.x] == FloorCode
    {
      var x := cx - halfWidth;
      while x <= cx + halfWidth
        invariant cx - halfWidth <= x
        invariant forall j, i :: OnMap(i, j) ==>
          level.grid[j, i] ==
            if InRect(i, j, cx, cy, halfWidth, halfHeight) && (j < y || (j == y && i < x)) &&
               old(level.grid[j, i]) == WallCode
            then FloorCode else old(level.grid[j, i])
        invariant |old(level.floors)| <= |level.floors| && level.floors[..|old(level.floors)|] == old(level.floors)
        invariant forall k :: |old(level.floors)| <= k < |level.floors| ==>
          var c := level.floors[k];
          OnMap(c.x, c.y) && InRect(c.x, c.y, cx, cy, halfWidth, halfHeight) &&
          (c.y < y || (c.y == y && c.x < x)) &&
          old(level.grid[c.y, c.x]) == WallCode && level.grid[c.y, c.x] == FloorCode
      {
        if y >= 0 && y < StageHeight && x >= 0 && x < StageWidth {
          if level.grid[y, x] == WallCode {
            level.grid[y, x] := FloorCode;
            level.floors := level.floors + [Cell(x, y)];
          }
        }
        x := x + 1;
      }
      y := y + 1;
    }
  }

  /** createCorridor: the wall cells on row y1 between x1 and x2 and on
      column x2 between y1 and y2 become floor (each with a floor entity);
      no other cell changes. */
  method CreateCorridor(level: Level, x1: int, y1: int, x2: int, y2: int)
    requires level.Valid()
    modifies level.grid, level`floors
    ensures forall y, x :: OnMap(x, y) ==>
      level.grid[y, x] ==
        if OnCorridor(x, y, x1, y1, x2, y2) && old(level.grid[y, x]) == WallCode
        then FloorCode else old(level.grid[y, x])
    ensures forall y, x :: OnMap(x, y) && OnCorridor(x, y, x1, y1, x2, y2) ==>
      level.grid[y, x] != WallCode
    ensures |old(level.floors)| <= |level.floors| && level.floors[..|old(level.floors)|] == old(level.floors)
    ensures forall k :: |old(level.floors)| <= k < |level.floors| ==>
      var c := level.floors[k];
      OnMap(c.x, c.y) && OnCorridor(c.x, c.y, x1, y1, x2, y2) &&
      old(level.grid[c.y, c.x]) == WallCode && level.grid[c.y, c.x] == FloorCode
  {
    var startX := Min(x1, x2);
    var endX := Max(x1, x2);
    var x := startX;
    while x <= endX
      invariant startX <= x <= endX + 1
      invariant forall j, i :: OnMap(i, j) ==>
        level.grid[j, i] ==
          if j == y1 && startX <= i < x && old(level.grid[j, i]) == WallCode
          then FloorCode else old(level.grid[j, i])
      invariant |old(level.floors)| <= |level.floors| && level.floors[..|old(level.floors)|] == old(level.floors)
      invariant forall k :: |old(level.floors)| <= k < |level.floors| ==>
        var c := level.floors[k];
        OnMap(c.x, c.y) && c.y == y1 && startX <= c.x < x &&
        old(level.grid[c.y, c.x]) == WallCode && level.grid[c.y, c.x] == FloorCode
    {
      if y1 >= 0 && y1 < StageHeight && x >= 0 && x < StageWidth {
        if level.grid[y1, x] == WallCode {
          level.grid[y1, x] := FloorCode;
          level.floors := level.floors + [Cell(x, y1)];
        }
      }
      x := x + 1;
    }

    var startY := Min(y1, y2);
    var endY := Max(y1, y2);
    var y := startY;
    while y <= endY
      invariant startY <= y <= endY + 1
      invariant forall j, i :: OnMap(i, j) ==>
        level.grid[j, i] ==
          if ((j == y1 && startX <= i <= endX) || (i == x2 && startY <= j < y)) &&
             old(level.grid[j, i]) == WallCode
          then FloorCode else old(level.grid[j, i])
      invariant |old(level.floors)| <= |level.floors| && level.floors[..|old(level.floors)|] == old(level.floors)
      invariant forall k :: |old(level.floors)| <= k < |level.floors| ==>
        var c := level.floors[k];
        OnMap(c.x, c.y) && ((c.y == y1 && startX <= c.x <= endX) || (c.x == x2 && startY <= c.y < y)) &&
        old(level.grid[c.y, c.x]) == WallCode && level.grid[c.y, c.x] == FloorCode
    {
      if y >= 0 && y < StageHeight && x2 >= 0 && x2 < StageWidth {
        if level.grid[y, x2] == WallCode {
          level.grid[y, x2] := FloorCode;
          level.floors := level.floors + [Cell(x2, y)];
        }
      }
      y := y + 1;
    }
  }

  /** generateRoomsAndCorridors: the central room, then for each drawn room
      the room and its corridor to the middle. Every cell of every room and
      corridor ends up non-wall; a cell becomes floor exactly when it was a
      wall and one of them covers it; nothing else changes. */
  method GenerateRoomsAndCorridors(level: Level, countDraw: real, draws: seq<RoomDraw>)
    requires level.Valid() && RoomDrawsOk(countDraw, draws)
    modifies level.grid, level`floors
    ensures forall y, x :: OnMap(x, y) ==>
      level.grid[y, x] ==
        if old(level.grid[y, x]) == WallCode &&
           (InRoom(x, y, CentreRoom) || CarvedBy(x, y, ExtraRooms(countDraw, draws), |ExtraRooms(countDraw, draws)|))
        then FloorCode else old(level.grid[y, x])
    ensures forall y, x :: OnMap(x, y) && InRoom(x, y, CentreRoom) ==> level.grid[y, x] != WallCode
    ensures forall k, y, x ::
      (0 <= k < |ExtraRooms(countDraw, draws)| && OnMap(x, y) &&
       (InRoom(x, y, ExtraRooms(countDraw, draws)[k]) || OnRoomCorridor(x, y, ExtraRooms(countDraw, draws)[k]))) ==>
      level.grid[y, x] != WallCode
  {
    CreateRoom(level, CentreRoom.cx, CentreRoom.cy, CentreRoom.halfWidth, CentreRoom.halfHeight);
    var rooms := ExtraRooms(countDraw, draws);
    var numRooms := RoomCount(countDraw);
    var i := 0;
    while i < numRooms
      invariant 0 <= i <= numRooms == |rooms|
      invariant forall y, x :: OnMap(x, y) ==>
        level.grid[y, x] ==
          if old(level.grid[y, x]) == WallCode && (InRoom(x, y, CentreRoom) || CarvedBy(x, y, rooms, i))
          then FloorCode else old(level.grid[y, x])
    {
      var room := RoomFrom(draws[i]);
      CreateRoom(level, room.cx, room.cy, room.halfWidth, room.halfHeight);
      CreateCorridor(level, room.cx, room.cy, CentreRoom.cx, CentreRoom.cy);
      assert rooms[i] == room;
      i := i + 1;
    }
  }

  /** `findIndex` over the exit records: the position of the first record
      with the given exit index, or -1 when there is none. */
  function FirstWithIndex(exits: seq<ExitRecord>, exitIndex: int): (k: int)
    ensures -1 <= k < |exits|
    ensures k == -1 <==> forall j :: 0 <= j < |exits| ==> exits[j].exitIndex != exitIndex
    ensures k >= 0 ==> exits[k].exitIndex == exitIndex
    ensures k >= 0 ==> forall j :: 0 <= j < k ==> exits[j].exitIndex != exitIndex
  {
    if |exits| == 0 then -1
    else if exits[0].exitIndex == exitIndex then 0
    else
      var k := FirstWithIndex(exits[1..], exitIndex);
      if k == -1 then -1 else k + 1
  }

  /** The exit records once the first one with `exitIndex` is spliced out. */
  function WithoutExit(exits: seq<ExitRecord>, exitIndex: int): (r: seq<ExitRecord>)
  {
    var k := FirstWithIndex(exits, exitIndex);
    if k == -1 then exits else exits[..k] + exits[k + 1..]
  }

  /** No two exit records share an exit index. */
  predicate UniqueIndices(exits: seq<ExitRecord>)
  {
    forall i, j :: 0 <= i < j < |exits| ==> exits[i].exitIndex != exits[j].exitIndex
  }

  /** With unique indices, splicing out the record of `exitIndex` leaves no
      record with that index, keeps the others in order, and keeps the
      indices unique. */
  lemma WithoutExitRemovesIt(exits: seq<ExitRecord>, exitIndex: int)
    requires UniqueIndices(exits)
    ensures forall j :: 0 <= j < |WithoutExit(exits, exitIndex)| ==>
      WithoutExit(exits, exitIndex)[j].exitIndex != exitIndex
    ensures UniqueIndices(WithoutExit(exits, exitIndex))
    ensures forall e :: e in exits && e.exitIndex != exitIndex ==> e in WithoutExit(exits, exitIndex)
    ensures forall e :: e in WithoutExit(exits, exitIndex) ==> e in exits
  {
    var k := FirstWithIndex(exits, exitIndex);
    if k != -1 {
      var r := exits[..k] + exits[k + 1..];
      forall j | 0 <= j < |r|
        ensures r[j].exitIndex != exitIndex
      {
        if j < k { assert r[j] == exits[j]; } else { assert r[j] == exits[j + 1]; }
      }
      forall i, j | 0 <= i < j < |r|
        ensures r[i].exitIndex != r[j].exitIndex
      {
        var i' := if i < k then i else i + 1;
        var j' := if j < k then j else j + 1;
        assert r[i] == exits[i'] && r[j] == exits[j'];
      }
      forall e | e in exits && e.exitIndex != exitIndex
        ensures e in r
      {
        var m :| 0 <= m < |exits| && exits[m] == e;
        if m < k { assert r[m] == e; } else { assert m != k; assert r[m - 1] == e; }
      }
    }
  }

  /** Replacing the record of an exit index by a new one keeps the indices unique. */
  lemma WithoutExitThenPush(exits: seq<ExitRecord>, e: ExitRecord)
    requires UniqueIndices(exits)
    ensures UniqueIndices(WithoutExit(exits, e.exitIndex) + [e])
  {
    WithoutExitRemovesIt(exits, e.exitIndex);
  }

  /** Floor entities other than those standing on `c`. */
  function FloorsOff(floors: seq<Cell>, c: Cell): (r: seq<Cell>)
    ensures forall d :: d in r <==> d in floors && d != c
    ensures |r| <= |floors|
  {
    if |floors| == 0 then []
    else if floors[0] == c then FloorsOff(floors[1..], c)
    else [floors[0]] + FloorsOff(floors[1..], c)
  }

  /** The splice step of createExitAtPosition: the first record with
      `exitIndex`, if any, is removed. */
  method SpliceExit(level: Level, exitIndex: int)
    modifies level`exits
    ensures level.exits == WithoutExit(old(level.exits), exitIndex)
  {
    var existing := FirstWithIndex(level.exits, exitIndex);
    if existing != -1 {
      level.exits := level.exits[..existing] + level.exits[existing + 1..];
    }
  }

  /** The floor step of createExitAtPosition: a floor cell loses its floor
      entities. */
  method DropFloor(level: Level, x: int, y: int)
    requires level.Valid()
    modifies level`floors
    ensures level.floors ==
      if OnMap(x, y) && level.grid[y, x] == FloorCode then FloorsOff(old(level.floors), Cell(x, y))
      else old(level.floors)
  {
    if 0 <= y < StageHeight && 0 <= x < StageWidth && level.grid[y, x] == FloorCode {
      level.floors := FloorsOff(level.floors, Cell(x, y));
    }
  }

  /** createExitAtPosition. An earlier record with the same exit index is
      spliced out first. A floor cell loses its floor entities. A row outside
      the grid aborts (the record stays removed); otherwise the cell is marked
      as an exit (a column outside the grid lands outside the modelled
      cells), and when the exit prefab yields an entity the entity and a new
      record are appended. */
  method CreateExitAtPosition(level: Level, x: int, y: int, exitIndex: int, exitPrefab: bool)
    requires level.Valid()
    modifies level.grid, level`exits, level`floors, level`exitEntities
    ensures forall j, i :: OnMap(i, j) ==>
      level.grid[j, i] == if j == y && i == x then ExitCode else old(level.grid[j, i])
    ensures level.floors ==
      if OnMap(x, y) && old(level.grid[y, x]) == FloorCode then FloorsOff(old(level.floors), Cell(x, y))
      else old(level.floors)
    ensures level.exits ==
      if 0 <= y < StageHeight && exitPrefab
      then WithoutExit(old(level.exits), exitIndex) + [ExitRecord(x, y, exitIndex)]
      else WithoutExit(old(level.exits), exitIndex)
    ensures level.exitEntities ==
      if 0 <= y < StageHeight && exitPrefab then old(level.exitEntities) + [exitIndex] else old(level.exitEntities)
    ensures UniqueIndices(old(level.exits)) ==> UniqueIndices(level.exits)
  {
    if UniqueIndices(level.exits) {
      WithoutExitRemovesIt(level.exits, exitIndex);
      WithoutExitThenPush(level.exits, ExitRecord(x, y, exitIndex));
    }
    SpliceExit(level, exitIndex);
    DropFloor(level, x, y);

    if 0 <= y < StageHeight {
      if 0 <= x < StageWidth {
        level.grid[y, x] := ExitCode;
      }
    } else {
      return;
    }

    if !exitPrefab {
      return;
    }
    level.exitEntities := level.exitEntities + [exitIndex];
    level.exits := level.exits + [ExitRecord(x, y, exitIndex)];
  }

  ghost predicate HasExitCandidate(g: array2<int>)
    reads g
    requires g.Length0 == StageHeight && g.Length1 == StageWidth
  {
    exists c :: NextToWall(g, c)
  }

  /** The interior cells, the most there can be of exit candidates. */
  const InteriorCells: nat := (StageHeight - 2) * (StageWidth - 2)

  /** The candidate scan of addExits: exactly the exit candidates, in
      row-major order. */
  method ExitCandidates(g: array2<int>) returns (cands: seq<Cell>)
    requires g.Length0 == StageHeight && g.Length1 == StageWidth
    ensures forall c :: c in cands <==> NextToWall(g, c)
    ensures RowMajor(cands)
    ensures |cands| <= InteriorCells
  {
    cands := [];
    var y := 1;
    while y < StageHeight - 1
      invariant 1 <= y <= StageHeight - 1
      invariant forall c :: c in cands <==> NextToWall(g, c) && c.y < y
      invariant RowMajor(cands)
      invariant forall k :: 0 <= k < |cands| ==> cands[k].y < y
      invariant |cands| <= (y - 1) * (StageWidth - 2)
    {
      var x := 1;
      while x < StageWidth - 1
        invariant 1 <= x <= StageWidth - 1
        invariant forall c :: c in cands <==> NextToWall(g, c) && Before(c, Cell(x, y))
        invariant RowMajor(cands)
        invariant forall k :: 0 <= k < |cands| ==> Before(cands[k], Cell(x, y))
        invariant |cands| <= (y - 1) * (StageWidth - 2) + (x - 1)
      {
        if g[y, x] == FloorCode {
          if g[y - 1, x] == WallCode || g[y + 1, x] == WallCode ||
             g[y, x - 1] == WallCode || g[y, x + 1] == WallCode {
            cands := cands + [Cell(x, y)];
          }
        }
        x := x + 1;
      }
      y := y + 1;
    }
  }

  /** `Math.max(1, Math.min(3, Math.floor(Math.random() * 3) + 1))`. */
  function ExitCount(r: real): (n: nat)
    requires IsRandom(r)
    ensures 1 <= n <= 3
  {
    Max(1, Min(3, RandomIndex(r, 3) + 1))
  }

  /** The middle cell, the exit location of last resort. */
  const MiddleCell: Cell := Cell(StageWidth / 2, StageHeight / 2)

  /** Enough shuffle draws for any candidate list, and the draw of the exit count. */
  predicate ExitDrawsOk(rs: seq<real>, countDraw: real)
  {
    Helpers.EnoughDraws(InteriorCells, rs) && IsRandom(countDraw)
  }

  /** The random branch of addExits up to the choice of cells: the
      candidates (or the middle cell when there are none), shuffled, and
      their first 1..3 entries. The chosen cells are distinct candidates. */
  method PickExits(g: array2<int>, rs: seq<real>, countDraw: real) returns (pool: seq<Cell>, selected: seq<Cell>)
    requires g.Length0 == StageHeight && g.Length1 == StageWidth
    requires ExitDrawsOk(rs, countDraw)
    ensures HasExitCandidate(g) ==> forall c :: c in pool <==> NextToWall(g, c)
    ensures !HasExitCandidate(g) ==> pool == [MiddleCell]
    ensures RowMajor(pool) && |pool| <= InteriorCells
    ensures Helpers.EnoughDraws(|pool|, rs)
    ensures selected == Helpers.Shuffled(pool, rs)[..Min(ExitCount(countDraw), |pool|)]
    ensures 1 <= |selected| <= 3 && Distinct(selected)
    ensures forall c :: c in selected ==> c in pool
  {
    pool := ExitCandidates(g);
    RowMajorDistinct(pool);
    if |pool| > 0 {
      assert NextToWall(g, pool[0]);
    }
    if |pool| == 0 {
      pool := [MiddleCell];
    }
    var a := new Cell[|pool|](i requires 0 <= i < |pool| reads {} => pool[i]);
    assert a[..] == pool;
    Helpers.ShuffleArray(a, rs);
    Helpers.ShuffledKeepsDistinct(pool, rs);
    var numExits := ExitCount(countDraw);
    selected := a[..Min(numExits, a.Length)];
    assert forall c :: c in selected ==> c in multiset(a[..]);
  }

  /** Whether one of the first `n` targets names cell (x, y). */
  predicate TargetAt(targets: seq<ExitRecord>, n: nat, x: int, y: int)
    requires n <= |targets|
  {
    exists k :: 0 <= k < n && targets[k].x == x && targets[k].y == y
  }

  /** The exit indices of exit records, in order: the exit entities that
      stand for the records. */
  function ExitIndices(exits: seq<ExitRecord>): (r: seq<int>)
    ensures |r| == |exits| && forall k :: 0 <= k < |exits| ==> r[k] == exits[k].exitIndex
  {
    seq(|exits|, k requires 0 <= k < |exits| => exits[k].exitIndex)
  }

  lemma ExitIndicesAppend(exits: seq<ExitRecord>, e: ExitRecord)
    ensures ExitIndices(exits + [e]) == ExitIndices(exits) + [e.exitIndex]
  {
  }

  /** The records addExits writes for the chosen cells: the i-th at cell i, with exit index i. */
  function NumberedExits(cells: seq<Cell>): (r: seq<ExitRecord>)
    ensures |r| == |cells| && UniqueIndices(r)
    ensures forall i :: 0 <= i < |r| ==> r[i] == ExitRecord(cells[i].x, cells[i].y, i)
  {
    seq(|cells|, i requires 0 <= i < |cells| => ExitRecord(cells[i].x, cells[i].y, i))
  }

  /** Placing the next chosen cell with the next exit index extends the
      numbered records by one, removing none. */
  lemma NumberedExitsStep(cells: seq<Cell>, i: nat)
    requires i < |cells|
    ensures WithoutExit(NumberedExits(cells[..i]), i) == NumberedExits(cells[..i])
    ensures NumberedExits(cells[..i]) + [ExitRecord(cells[i].x, cells[i].y, i)] == NumberedExits(cells[..i + 1])
  {
    var before := NumberedExits(cells[..i]);
    assert FirstWithIndex(before, i) == -1;
  }

  /** One more target names exactly its own cell besides the earlier ones. */
  lemma TargetAtStep(targets: seq<ExitRecord>, k: nat)
    requires k < |targets|
    ensures forall i, j :: TargetAt(targets, k + 1, i, j) <==>
      TargetAt(targets, k, i, j) || (i == targets[k].x && j == targets[k].y)
  {
    forall i, j | TargetAt(targets, k + 1, i, j)
      ensures TargetAt(targets, k, i, j) || (i == targets[k].x && j == targets[k].y)
    {
      var m :| 0 <= m < k + 1 && targets[m].x == i && targets[m].y == j;
      if m < k {
        assert TargetAt(targets, k, i, j);
      }
    }
    assert TargetAt(targets, k + 1, targets[k].x, targets[k].y);
  }

  /** One step of the predefined branch: target `k` is placed with its own
      exit index. When the records so far are exactly the earlier targets
      (`tracked`), they are afterwards those of one target more. */
  method PlaceTarget(level: Level, targets: seq<ExitRecord>, k: nat, exitPrefab: bool, ghost tracked: bool)
    requires level.Valid() && k < |targets|
    requires tracked ==> exitPrefab && UniqueIndices(targets) && 0 <= targets[k].y < StageHeight
    requires tracked ==> level.exits == targets[..k]
    modifies level.grid, level`exits, level`floors, level`exitEntities
    ensures UniqueIndices(old(level.exits)) ==> UniqueIndices(level.exits)
    ensures forall j, i :: OnMap(i, j) ==>
      level.grid[j, i] == if j == targets[k].y && i == targets[k].x then ExitCode else old(level.grid[j, i])
    ensures tracked ==> level.exits == targets[..k + 1]
  {
    var t := targets[k];
    if tracked {
      assert forall m :: 0 <= m < k ==> targets[..k][m].exitIndex != t.exitIndex;
      assert FirstWithIndex(targets[..k], t.exitIndex) == -1;
    }
    CreateExitAtPosition(level, t.x, t.y, t.exitIndex, exitPrefab);
    assert targets[..k + 1] == targets[..k] + [t];
  }

  /** The predefined branch of addExits: each target is placed with its own
      exit index, in order. On a level without exit records, targets with
      unique indices on existing rows become exactly its records. */
  method PlaceTargetExits(level: Level, targets: seq<ExitRecord>, exitPrefab: bool)
    requires level.Valid()
    modifies level.grid, level`exits, level`floors, level`exitEntities
    ensures UniqueIndices(old(level.exits)) ==> UniqueIndices(level.exits)
    ensures forall j, i :: OnMap(i, j) ==>
      level.grid[j, i] == if TargetAt(targets, |targets|, i, j) then ExitCode else old(level.grid[j, i])
    ensures (old(level.exits) == [] && exitPrefab && UniqueIndices(targets) &&
             forall k :: 0 <= k < |targets| ==> 0 <= targets[k].y < StageHeight) ==>
      level.exits == targets
  {
    ghost var tracked := old(level.exits) == [] && exitPrefab && UniqueIndices(targets) &&
      forall m :: 0 <= m < |targets| ==> 0 <= targets[m].y < StageHeight;
    var k := 0;
    while k < |targets|
      invariant 0 <= k <= |targets|
      invariant UniqueIndices(old(level.exits)) ==> UniqueIndices(level.exits)
      invariant forall j, i :: OnMap(i, j) ==>
        level.grid[j, i] == if TargetAt(targets, k, i, j) then ExitCode else old(level.grid[j, i])
      invariant tracked ==> level.exits == targets[..k]
    {
      TargetAtStep(targets, k);
      PlaceTarget(level, targets, k, exitPrefab, tracked);
      k := k + 1;
    }
    assert targets[..k] == targets;
  }

  /** One step of the placing loop: cell `i` of `selected` is placed with
      exit index `i`. When the records so far are the numbered records of the
      earlier cells (`numbered`), they are afterwards those of one cell more. */
  method PlaceNext(level: Level, selected: seq<Cell>, i: nat, exitPrefab: bool,
                   ghost numbered: bool, ghost entities0: seq<int>)
    requires level.Valid() && i < |selected| && OnMap(selected[i].x, selected[i].y)
    requires numbered ==> level.exits == (if exitPrefab then NumberedExits(selected[..i]) else [])
    requires numbered ==> level.exitEntities == entities0 + ExitIndices(level.exits)
    modifies level.grid, level`exits, level`floors, level`exitEntities
    ensures UniqueIndices(old(level.exits)) ==> UniqueIndices(level.exits)
    ensures forall j, x :: OnMap(x, j) ==>
      level.grid[j, x] == if j == selected[i].y && x == selected[i].x then ExitCode else old(level.grid[j, x])
    ensures numbered ==> level.exits == (if exitPrefab then NumberedExits(selected[..i + 1]) else [])
    ensures numbered ==> level.exitEntities == entities0 + ExitIndices(level.exits)
  {
    var c := selected[i];
    NumberedExitsStep(selected, i);
    ExitIndicesAppend(NumberedExits(selected[..i]), ExitRecord(c.x, c.y, i));
    ghost var beforeExits := level.exits;
    CreateExitAtPosition(level, c.x, c.y, i, exitPrefab);
    if numbered && exitPrefab {
      assert level.exits == NumberedExits(selected[..i + 1]);
      assert ExitIndices(level.exits) == ExitIndices(beforeExits) + [i];
      assert level.exitEntities == entities0 + ExitIndices(beforeExits) + [i];
    }
  }

  /** The placing loop of the random branch of addExits: the cells are
      placed in order with exit indices 0, 1, 2, ... On a level without exit
      records they become exactly its records, with one exit entity each. */
  method PlaceNumbered(level: Level, selected: seq<Cell>, exitPrefab: bool)
    requires level.Valid() && forall c :: c in selected ==> OnMap(c.x, c.y)
    modifies level.grid, level`exits, level`floors, level`exitEntities
    ensures UniqueIndices(old(level.exits)) ==> UniqueIndices(level.exits)
    ensures forall j, i :: OnMap(i, j) ==>
      level.grid[j, i] == if Cell(i, j) in selected then ExitCode else old(level.grid[j, i])
    ensures old(level.exits) == [] ==>
      level.exits == if exitPrefab then NumberedExits(selected) else []
    ensures old(level.exits) == [] ==>
      level.exitEntities == old(level.exitEntities) + ExitIndices(level.exits)
  {
    var i := 0;
    while i < |selected|
      invariant 0 <= i <= |selected|
      invariant UniqueIndices(old(level.exits)) ==> UniqueIndices(level.exits)
      invariant forall j, x :: OnMap(x, j) ==>
        level.grid[j, x] == if Cell(x, j) in selected[..i] then ExitCode else old(level.grid[j, x])
      invariant old(level.exits) == [] ==>
        level.exits == if exitPrefab then NumberedExits(selected[..i]) else []
      invariant old(level.exits) == [] ==>
        level.exitEntities == old(level.exitEntities) + ExitIndices(level.exits)
    {
      assert forall d :: d in selected[..i + 1] <==> d in selected[..i] || d == selected[i];
      PlaceNext(level, selected, i, exitPrefab, old(level.exits) == [], old(level.exitEntities));
      i := i + 1;
    }
    assert selected[..i] == selected;
  }

  /** The random branch of addExits: the pool is the exit candidates in
      row-major order (the middle cell when there are none); its first
      `Math.min(numExits, pool.length)` entries once shuffled, 1..3 distinct
      cells, are placed with exit indices 0, 1, 2, ... On a level without
      exit records they become exactly its records; all lie on interior
      cells, which are now marked as exits. */
  method PlaceRandomExits(level: Level, rs: seq<real>, countDraw: real, exitPrefab: bool)
    returns (pool: seq<Cell>, selected: seq<Cell>)
    requires level.Valid() && ExitDrawsOk(rs, countDraw)
    modifies level.grid, level`exits, level`floors, level`exitEntities
    ensures old(HasExitCandidate(level.grid)) ==> forall c :: c in pool <==> old(NextToWall(level.grid, c))
    ensures !old(HasExitCandidate(level.grid)) ==> pool == [MiddleCell]
    ensures RowMajor(pool) && |pool| <= InteriorCells
    ensures selected == Helpers.Shuffled(pool, rs)[..Min(ExitCount(countDraw), |pool|)]
    ensures UniqueIndices(old(level.exits)) ==> UniqueIndices(level.exits)
    ensures 1 <= |selected| <= 3 && Distinct(selected)
    ensures forall c :: c in selected ==>
      1 <= c.y < StageHeight - 1 && 1 <= c.x < StageWidth - 1 &&
      (old(NextToWall(level.grid, c)) || (c == MiddleCell && !old(HasExitCandidate(level.grid))))
    ensures forall j, i :: OnMap(i, j) ==>
      level.grid[j, i] == if Cell(i, j) in selected then ExitCode else old(level.grid[j, i])
    ensures old(level.exits) == [] ==>
      level.exits == if exitPrefab then NumberedExits(selected) else []
    ensures old(level.exits) == [] ==>
      level.exitEntities == old(level.exitEntities) + ExitIndices(level.exits)
  {
    pool, selected := PickExits(level.grid, rs, countDraw);
    forall c | c in selected
      ensures 1 <= c.y < StageHeight - 1 && 1 <= c.x < StageWidth - 1
      ensures NextToWall(level.grid, c) || (c == MiddleCell && !HasExitCandidate(level.grid))
    {
      assert c in pool;
    }
    PlaceNumbered(level, selected, exitPrefab);
  }

  /** addExits: the predefined targets when there are any, random exits
      otherwise: the first `Math.min(numExits, pool.length)` entries of the
      shuffled pool of candidates. */
  method AddExits(level: Level, targets: seq<ExitRecord>, rs: seq<real>, countDraw: real, exitPrefab: bool)
    returns (ghost pool: seq<Cell>, ghost selected: seq<Cell>)
    requires level.Valid() && ExitDrawsOk(rs, countDraw)
    modifies level.grid, level`exits, level`floors, level`exitEntities
    ensures |targets| == 0 && old(HasExitCandidate(level.grid)) ==>
      forall c :: c in pool <==> old(NextToWall(level.grid, c))
    ensures |targets| == 0 && !old(HasExitCandidate(level.grid)) ==> pool == [MiddleCell]
    ensures RowMajor(pool) && |pool| <= InteriorCells
    ensures |targets| == 0 ==> selected == Helpers.Shuffled(pool, rs)[..Min(ExitCount(countDraw), |pool|)]
    ensures UniqueIndices(old(level.exits)) ==> UniqueIndices(level.exits)
    ensures |targets| > 0 ==> forall j, i :: OnMap(i, j) ==>
      level.grid[j, i] == if TargetAt(targets, |targets|, i, j) then ExitCode else old(level.grid[j, i])
    ensures (|targets| > 0 && old(level.exits) == [] && exitPrefab && UniqueIndices(targets) &&
             forall k :: 0 <= k < |targets| ==> 0 <= targets[k].y < StageHeight) ==>
      level.exits == targets
    ensures |targets| == 0 ==> 1 <= |selected| <= 3 && Distinct(selected)
    ensures |targets| == 0 ==> forall c :: c in selected ==>
      1 <= c.y < StageHeight - 1 && 1 <= c.x < StageWidth - 1 &&
      (old(NextToWall(level.grid, c)) || (c == MiddleCell && !old(HasExitCandidate(level.grid))))
    ensures |targets| == 0 ==> forall j, i :: OnMap(i, j) ==>
      level.grid[j, i] == if Cell(i, j) in selected then ExitCode else old(level.grid[j, i])
    ensures (|targets| == 0 && old(level.exits) == []) ==>
      level.exits == if exitPrefab then NumberedExits(selected) else []
    ensures (|targets| == 0 && old(level.exits) == []) ==>
      level.exitEntities == old(level.exitEntities) + ExitIndices(level.exits)
  {
    if |targets| > 0 {
      PlaceTargetExits(level, targets, exitPrefab);
      pool, selected := [], [];
    } else {
      pool, selected := PlaceRandomExits(level, rs, countDraw, exitPrefab);
    }
  }

  /** Every cell holds one of the three tile codes. */
  ghost predicate CodesOk(g: array2<int>)
    reads g
    requires g.Length0 == StageHeight && g.Length1 == StageWidth
  {
    forall y, x :: OnMap(x, y) ==> g[y, x] == FloorCode || g[y, x] == WallCode || g[y, x] == ExitCode
  }

  /** createLevel: a wall-filled grid, carved rooms and corridors, then
      random exits. `carved` is the grid before its exits: floor and wall
      cells only, the central room open. `pool` is its exit candidates in
      row-major order, or the middle cell when there are none; the chosen
      exits are the first `Math.min(numExits, pool.length)` entries of the
      shuffled pool, and the final grid is `carved` with exactly those cells
      marked as exits. With an exit prefab they become the level's exits,
      numbered 0, 1, 2, ... in that order; the level has no connections. */
  method CreateLevel(id: string, countDraw: real, draws: seq<RoomDraw>, rs: seq<real>, exitCountDraw: real,
                     exitPrefab: bool) returns (level: Level, ghost carved: Tiles, ghost pool: seq<Cell>)
    requires RoomDrawsOk(countDraw, draws) && ExitDrawsOk(rs, exitCountDraw)
    ensures fresh(level) && fresh(level.grid) && level.Valid() && level.id == id
    ensures level.exitConnections == map[] && level.walls == []
    ensures IsTiles(carved)
    ensures forall y, x :: OnMap(x, y) ==> carved[y][x] == FloorCode || carved[y][x] == WallCode
    ensures forall y, x :: OnMap(x, y) && InRoom(x, y, CentreRoom) ==> carved[y][x] == FloorCode
    ensures (exists c :: NextToWallIn(carved, c)) ==> forall c :: c in pool <==> NextToWallIn(carved, c)
    ensures !(exists c :: NextToWallIn(carved, c)) ==> pool == [MiddleCell]
    ensures RowMajor(pool) && |pool| <= InteriorCells
    ensures var chosen := Helpers.Shuffled(pool, rs)[..Min(ExitCount(exitCountDraw), |pool|)];
      level.exits == (if exitPrefab then NumberedExits(chosen) else []) &&
      forall y, x :: OnMap(x, y) ==> level.grid[y, x] == if Cell(x, y) in chosen then ExitCode else carved[y][x]
    ensures exitPrefab ==> 1 <= |level.exits| <= 3
    ensures UniqueIndices(level.exits)
    ensures forall k :: 0 <= k < |level.exits| ==>
      var e := level.exits[k];
      e.exitIndex == k && 1 <= e.y < StageHeight - 1 && 1 <= e.x < StageWidth - 1 &&
      level.grid[e.y, e.x] == ExitCode
    ensures forall y, x :: OnMap(x, y) && InRoom(x, y, CentreRoom) ==> level.grid[y, x] != WallCode
    ensures CodesOk(level.grid)
  {
    level := NewWallLevel(id);
    GenerateRoomsAndCorridors(level, countDraw, draws);
    SnapshotNextToWall(level.grid);
    carved := Snapshot(level.grid);
    var selected;
    pool, selected := PlaceRandomExits(level, rs, exitCountDraw, exitPrefab);
    forall k | 0 <= k < |level.exits|
      ensures level.grid[level.exits[k].y, level.exits[k].x] == ExitCode
    {
      assert Cell(level.exits[k].x, level.exits[k].y) == selected[k];
    }
  }

  /** Whether cell (nx, ny) is off the map or open (floor or exit). */
  predicate Open(g: array2<int>, nx: int, ny: int)
    reads g
    requires g.Length0 == StageHeight && g.Length1 == StageWidth
  {
    !OnMap(nx, ny) || g[ny, nx] == FloorCode || g[ny, nx] == ExitCode
  }

  /** Whether one of the eight neighbours of (x, y) is off the map or open. */
  ghost predicate QualifiesAsWall(g: array2<int>, x: int, y: int)
    reads g
    requires g.Length0 == StageHeight && g.Length1 == StageWidth
  {
    exists ny, nx :: y - 1 <= ny <= y + 1 && x - 1 <= nx <= x + 1 && !(nx == x && ny == y) && Open(g, nx, ny)
  }

  /** A wall cell that gets a wall entity. */
  ghost predicate IsWallSite(g: array2<int>, c: Cell)
    reads g
    requires g.Length0 == StageHeight && g.Length1 == StageWidth
  {
    OnMap(c.x, c.y) && g[c.y, c.x] == WallCode && QualifiesAsWall(g, c.x, c.y)
  }

  /** The neighbour scan of placeWalls, with its early exits. */
  method WallQualifies(g: array2<int>, x: int, y: int) returns (b: bool)
    requires g.Length0 == StageHeight && g.Length1 == StageWidth
    ensures b == QualifiesAsWall(g, x, y)
  {
    b := false;
    var dy := -1;
    while dy <= 1
      invariant -1 <= dy <= 2
      invariant !b
      invariant forall ny, nx :: y - 1 <= ny < y + dy && x - 1 <= nx <= x + 1 && !(nx == x && ny == y) ==>
        !Open(g, nx, ny)
    {
      var dx := -1;
      var ny := y + dy;
      while dx <= 1
        invariant -1 <= dx <= 2
        invariant !b
        invariant forall ny, nx :: y - 1 <= ny < y + dy && x - 1 <= nx <= x + 1 && !(nx == x && ny == y) ==>
          !Open(g, nx, ny)
        invariant forall nx :: x - 1 <= nx < x + dx && !(nx == x && ny == y) ==> !Open(g, nx, ny)
      {
        if !(dx == 0 && dy == 0) {
          var nx := x + dx;
          if nx < 0 || nx >= StageWidth || ny < 0 || ny >= StageHeight ||
             g[ny, nx] == FloorCode || g[ny, nx] == ExitCode {
            assert Open(g, nx, ny);
            b := true;
            break;
          }
        }
        dx := dx + 1;
      }
      if b {
        return;
      }
      dy := dy + 1;
    }
  }

  /** The row pass of placeWalls: the wall entities of row `y`, left to right. */
  method WallRow(g: array2<int>, y: int) returns (row: seq<Cell>)
    requires g.Length0 == StageHeight && g.Length1 == StageWidth && 0 <= y < StageHeight
    ensures forall c :: c in row <==> IsWallSite(g, c) && c.y == y
    ensures RowMajor(row)
    ensures forall k :: 0 <= k < |row| ==> row[k].y == y
  {
    row := [];
    var x := 0;
    while x < StageWidth
      invariant 0 <= x <= StageWidth
      invariant forall c :: c in row <==> IsWallSite(g, c) && c.y == y && c.x < x
      invariant RowMajor(row)
      invariant forall k :: 0 <= k < |row| ==> row[k].y == y && row[k].x < x
    {
      if g[y, x] == WallCode {
        var shouldCreateWall := WallQualifies(g, x, y);
        if shouldCreateWall {
          row := row + [Cell(x, y)];
        }
      }
      x := x + 1;
    }
  }

  /** Rows scanned one after another stay in row-major order. */
  lemma RowMajorThenRow(earlier: seq<Cell>, row: seq<Cell>, y: int)
    requires RowMajor(earlier) && RowMajor(row)
    requires forall k :: 0 <= k < |earlier| ==> earlier[k].y < y
    requires forall k :: 0 <= k < |row| ==> row[k].y == y
    ensures RowMajor(earlier + row)
    ensures forall k :: 0 <= k < |earlier + row| ==> (earlier + row)[k].y <= y
  {
  }

  /** placeWalls: a wall entity for exactly the wall cells with an open or
      off-map neighbour, appended in row-major order; the grid is only read. */
  method PlaceWalls(level: Level)
    requires level.Valid()
    modifies level`walls
    ensures |old(level.walls)| <= |level.walls| && level.walls[..|old(level.walls)|] == old(level.walls)
    ensures forall c :: c in level.walls[|old(level.walls)|..] <==> IsWallSite(level.grid, c)
    ensures RowMajor(level.walls[|old(level.walls)|..])
  {
    ghost var start := |level.walls|;
    var y := 0;
    while y < StageHeight
      invariant 0 <= y <= StageHeight
      invariant start <= |level.walls| && level.walls[..start] == old(level.walls)
      invariant forall c :: c in level.walls[start..] <==> IsWallSite(level.grid, c) && c.y < y
      invariant RowMajor(level.walls[start..])
      invariant forall k :: 0 <= k < |level.walls[start..]| ==> level.walls[start..][k].y < y
    {
      var row := WallRow(level.grid, y);
      ghost var added := level.walls[start..];
      RowMajorThenRow(added, row, y);
      level.walls := level.walls + row;
      assert level.walls[start..] == added + row;
      y := y + 1;
    }
  }
}
