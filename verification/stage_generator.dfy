/** The tile-based stage generator of src/world/StageGenerator.js: a grid
    that starts solid, rooms and corridors cleared unconditionally, a solid
    border forced around it, and one or two exits chosen near the edges. */
module StageGenerator {
  import opened Common
  import Helpers

  /** The far end of a stage exit: a stage id and an exit index there. */
  datatype StageConnection = StageConnection(stageId: string, exitIndex: int)

  class Stage {
    const id: string
    const tiles: array2<int>
    var exits: seq<Cell>
    var exitConnections: map<int, StageConnection>

    ghost predicate Valid()
    {
      tiles.Length0 == StageHeight && tiles.Length1 == StageWidth
    }

    constructor (id: string)
      ensures this.id == id && Valid() && fresh(tiles)
      ensures exits == [] && exitConnections == map[]
    {
      this.id := id;
      tiles := new int[StageHeight, StageWidth];
      exits := [];
      exitConnections := map[];
    }
  }

  /** A cell of the outermost ring. */
  predicate OnBorder(x: int, y: int)
  {
    x == 0 || y == 0 || x == StageWidth - 1 || y == StageHeight - 1
  }

  /** createStage, first part: the stage record with every tile solid. */
  method NewSolidStage(id: string) returns (stage: Stage)
    ensures fresh(stage) && fresh(stage.tiles) && stage.Valid() && stage.id == id
    ensures forall y, x :: OnMap(x, y) ==> stage.tiles[y, x] == WallCode
    ensures stage.exits == [] && stage.exitConnections == map[]
  {
    stage := new Stage(id);
    var y := 0;
    while y < StageHeight
      modifies stage.tiles
      invariant 0 <= y <= StageHeight
      invariant forall j, i :: 0 <= j < y && 0 <= i < StageWidth ==> stage.tiles[j, i] == WallCode
    {
      var x := 0;
      while x < StageWidth
        modifies stage.tiles
        invariant 0 <= x <= StageWidth
        invariant forall j, i :: 0 <= j < y && 0 <= i < StageWidth ==> stage.tiles[j, i] == WallCode
        invariant forall i :: 0 <= i < x ==> stage.tiles[y, i] == WallCode
      {
        stage.tiles[y, x] := WallCode;
        x := x + 1;
      }
      y := y + 1;
    }
  }

  /** A room loop of generateEmptyAreas: every tile of the rectangle that
      lies on the map becomes empty, whatever it was. */
  method ClearRoom(stage: Stage, room: Room)
    requires stage.Valid()
    modifies stage.tiles
    ensures forall y, x :: OnMap(x, y) ==>
      stage.tiles[y, x] == if InRoom(x, y, room) then FloorCode else old(stage.tiles[y, x])
  {
    var y := room.cy - room.halfHeight;
    while y <= room.cy + room.halfHeight
      invariant room.cy - room.halfHeight <= y
      invariant forall j, i :: OnMap(i, j) ==>
        stage.tiles[j, i] == if InRoom(i, j, room) && j < y then FloorCode else old(stage.tiles[j, i])
    {
      var x := room.cx - room.halfWidth;
      while x <= room.cx + room.halfWidth
        invariant room.cx - room.halfWidth <= x
        invariant forall j, i :: OnMap(i, j) ==>
          stage.tiles[j, i] ==
            if InRoom(i, j, room) && (j < y || (j == y && i < x)) then FloorCode else old(stage.tiles[j, i])
      {
        if y >= 0 && y < StageHeight && x >= 0 && x < StageWidth {
          stage.tiles[y, x] := FloorCode;
        }
        x := x + 1;
      }
      y := y + 1;
    }
  }

  /** The corridor loops of generateEmptyAreas: row roomY between the room's
      column and the middle column, then the middle column between the
      room's row and the middle row, all cleared. */
  method ClearCorridor(stage: Stage, room: Room)
    requires stage.Valid()
    modifies stage.tiles
    ensures forall y, x :: OnMap(x, y) ==>
      stage.tiles[y, x] == if OnRoomCorridor(x, y, room) then FloorCode else old(stage.tiles[y, x])
  {
    var startX := Min(room.cx, CentreRoom.cx);
    var endX := Max(room.cx, CentreRoom.cx);
    var x := startX;
    while x <= endX
      invariant startX <= x <= endX + 1
      invariant forall j, i :: OnMap(i, j) ==>
        stage.tiles[j, i] == if j == room.cy && startX <= i < x then FloorCode else old(stage.tiles[j, i])
    {
      if room.cy >= 0 && room.cy < StageHeight && x >= 0 && x < StageWidth {
        stage.tiles[room.cy, x] := FloorCode;
      }
      x := x + 1;
    }

    var startY := Min(room.cy, CentreRoom.cy);
    var endY := Max(room.cy, CentreRoom.cy);
    var y := startY;
    while y <= endY
      invariant startY <= y <= endY + 1
      invariant forall j, i :: OnMap(i, j) ==>
        stage.tiles[j, i] ==
          if (j == room.cy && startX <= i <= endX) || (i == CentreRoom.cx && startY <= j < y)
          then FloorCode else old(stage.tiles[j, i])
    {
      if y >= 0 && y < StageHeight && CentreRoom.cx >= 0 && CentreRoom.cx < StageWidth {
        stage.tiles[y, CentreRoom.cx] := FloorCode;
      }
      y := y + 1;
    }
  }

  /** The border loop of generateEmptyAreas: the outermost ring becomes solid. */
  method SolidBorder(stage: Stage)
    requires stage.Valid()
    modifies stage.tiles
    ensures forall y, x :: OnMap(x, y) ==>
      stage.tiles[y, x] == if OnBorder(x, y) then WallCode else old(stage.tiles[y, x])
  {
    var y := 0;
    while y < StageHeight
      invariant 0 <= y <= StageHeight
      invariant forall j, i :: OnMap(i, j) ==>
        stage.tiles[j, i] == if OnBorder(i, j) && j < y then WallCode else old(stage.tiles[j, i])
    {
      var x := 0;
      while x < StageWidth
        invariant 0 <= x <= StageWidth
        invariant forall j, i :: OnMap(i, j) ==>
          stage.tiles[j, i] ==
            if OnBorder(i, j) && (j < y || (j == y && i < x)) then WallCode else old(stage.tiles[j, i])
      {
        if x == 0 || y == 0 || x == StageWidth - 1 || y == StageHeight - 1 {
          stage.tiles[y, x] := WallCode;
        }
        x := x + 1;
      }
      y := y + 1;
    }
  }

  /** generateEmptyAreas: the border ends up solid; inside it, a tile is
      empty exactly when the central room, an extra room or a corridor
      covers it, and keeps its old value otherwise. */
  method GenerateEmptyAreas(stage: Stage, countDraw: real, draws: seq<RoomDraw>)
    requires stage.Valid() && RoomDrawsOk(countDraw, draws)
    modifies stage.tiles
    ensures forall y, x :: OnMap(x, y) ==>
      stage.tiles[y, x] ==
        if OnBorder(x, y) then WallCode
        else if InRoom(x, y, CentreRoom) || CarvedBy(x, y, ExtraRooms(countDraw, draws), |ExtraRooms(countDraw, draws)|)
        then FloorCode
        else old(stage.tiles[y, x])
  {
    ClearRoom(stage, CentreRoom);
    var rooms := ExtraRooms(countDraw, draws);
    var numRooms := RoomCount(countDraw);
    var i := 0;
    while i < numRooms
      invariant 0 <= i <= numRooms == |rooms|
      invariant forall y, x :: OnMap(x, y) ==>
        stage.tiles[y, x] ==
          if InRoom(x, y, CentreRoom) || CarvedBy(x, y, rooms, i) then FloorCode else old(stage.tiles[y, x])
    {
      var room := RoomFrom(draws[i]);
      ClearRoom(stage, room);
      ClearCorridor(stage, room);
      assert rooms[i] == room;
      i := i + 1;
    }
    SolidBorder(stage);
  }

  /** A cell of the ring just inside the border. */
  predicate NearEdge(c: Cell)
  {
    1 <= c.y <= StageHeight - 2 && 1 <= c.x <= StageWidth - 2 &&
    (c.x == 1 || c.x == StageWidth - 2 || c.y == 1 || c.y == StageHeight - 2)
  }

  /** An empty tile of the ring just inside the border. */
  predicate EdgeCandidate(g: array2<int>, c: Cell)
    reads g
    requires g.Length0 == StageHeight && g.Length1 == StageWidth
  {
    NearEdge(c) && g[c.y, c.x] == FloorCode
  }

  /** Fewer than two distinct edge candidates. */
  ghost predicate FewEdgeCandidates(g: array2<int>)
    reads g
    requires g.Length0 == StageHeight && g.Length1 == StageWidth
  {
    forall c, d :: EdgeCandidate(g, c) && EdgeCandidate(g, d) ==> c == d
  }

  /** Where addExits may put an exit: an edge candidate, or, when there are
      fewer than two of those, an empty tile next to a solid one. */
  ghost predicate StageExitCandidate(g: array2<int>, c: Cell)
    reads g
    requires g.Length0 == StageHeight && g.Length1 == StageWidth
  {
    EdgeCandidate(g, c) || (FewEdgeCandidates(g) && NextToWall(g, c))
  }

  /** StageExitCandidate on tiles held as a value. */
  ghost predicate StageExitCandidateIn(t: Tiles, c: Cell)
    requires IsTiles(t)
  {
    (NearEdge(c) && t[c.y][c.x] == FloorCode) ||
    ((forall e, f :: NearEdge(e) && t[e.y][e.x] == FloorCode && NearEdge(f) && t[f.y][f.x] == FloorCode ==> e == f) &&
     NextToWallIn(t, c))
  }

  /** A snapshot has exactly the stage's exit candidates. */
  lemma SnapshotCandidates(g: array2<int>)
    requires g.Length0 == StageHeight && g.Length1 == StageWidth
    ensures forall c :: StageExitCandidate(g, c) <==> StageExitCandidateIn(Snapshot(g), c)
  {
    var t := Snapshot(g);
    SnapshotNextToWall(g);
    assert forall e :: EdgeCandidate(g, e) <==> NearEdge(e) && t[e.y][e.x] == FloorCode;
    assert FewEdgeCandidates(g) <==>
      forall e, f :: NearEdge(e) && t[e.y][e.x] == FloorCode && NearEdge(f) && t[f.y][f.x] == FloorCode ==> e == f;
  }

  /** The most entries the candidate scans can push: two per row and two per
      column of the inner ring, then every interior tile. */
  const ScanBound: nat := 2 * (StageHeight - 2) + 2 * (StageWidth - 2) + (StageHeight - 2) * (StageWidth - 2)

  /** The candidate scans of addExits as the source writes them: the empty
      tiles of columns 1 and W-2, row by row, then those of rows 1 and H-2,
      column by column, then (with fewer than two entries so far) the empty
      tiles next to a solid one. A corner of the inner ring is visited by
      both edge scans, so an empty corner is listed twice. */
  method CandidatesAsWritten(g: array2<int>) returns (cands: seq<Cell>)
    requires g.Length0 == StageHeight && g.Length1 == StageWidth
    ensures forall c :: c in cands ==> EdgeCandidate(g, c) || NextToWall(g, c)
    ensures forall c :: EdgeCandidate(g, c) ==> c in cands
    ensures |cands| <= ScanBound
    ensures g[1, 1] == FloorCode ==> !Distinct(cands)
  {
    cands := [];
    var y := 1;
    while y < StageHeight - 1
      invariant 1 <= y <= StageHeight - 1
      invariant forall c :: c in cands <==> EdgeCandidate(g, c) && (c.x == 1 || c.x == StageWidth - 2) && c.y < y
      invariant |cands| <= 2 * (y - 1)
      invariant y > 1 && g[1, 1] == FloorCode ==> |cands| > 0 && cands[0] == Cell(1, 1)
    {
      if g[y, 1] == FloorCode {
        cands := cands + [Cell(1, y)];
      }
      if g[y, StageWidth - 2] == FloorCode {
        cands := cands + [Cell(StageWidth - 2, y)];
      }
      y := y + 1;
    }

    var x := 1;
    while x < StageWidth - 1
      invariant 1 <= x <= StageWidth - 1
      invariant forall c :: c in cands <==>
        EdgeCandidate(g, c) && ((c.x == 1 || c.x == StageWidth - 2) || ((c.y == 1 || c.y == StageHeight - 2) && c.x < x))
      invariant |cands| <= 2 * (StageHeight - 2) + 2 * (x - 1)
      invariant g[1, 1] == FloorCode ==> |cands| > 0 && cands[0] == Cell(1, 1)
      invariant x > 1 && g[1, 1] == FloorCode ==> Cell(1, 1) in cands[1..]
    {
      ghost var before := cands;
      if g[1, x] == FloorCode {
        cands := cands + [Cell(x, 1)];
      }
      if g[StageHeight - 2, x] == FloorCode {
        cands := cands + [Cell(x, StageHeight - 2)];
      }
      if x == 1 && g[1, 1] == FloorCode {
        assert cands[|before|] == Cell(1, 1);
        assert cands[1..][|before| - 1] == Cell(1, 1);
      }
      if |before| > 0 {
        assert cands[1..] == before[1..] + cands[|before|..];
      }
      x := x + 1;
    }

    if g[1, 1] == FloorCode {
      var k :| 1 <= k < |cands| && cands[k] == Cell(1, 1);
      assert cands[0] == cands[k];
    }

    ghost var edgeScan := cands;
    if |cands| < 2 {
      cands := NearWallsAsWritten(g, cands);
    }
    forall c | EdgeCandidate(g, c)
      ensures c in cands
    {
      assert c in edgeScan;
    }
    if !Distinct(edgeScan) {
      var i, j :| 0 <= i < j < |edgeScan| && edgeScan[i] == edgeScan[j];
      assert cands[i] == cands[j];
    }
  }

  /** The fallback scan as the source writes it: every empty tile next to a
      solid one is appended, in row-major order, whether listed or not. */
  method NearWallsAsWritten(g: array2<int>, edges: seq<Cell>) returns (cands: seq<Cell>)
    requires g.Length0 == StageHeight && g.Length1 == StageWidth
    requires forall c :: c in edges ==> EdgeCandidate(g, c)
    requires |edges| <= 2 * (StageHeight - 2) + 2 * (StageWidth - 2)
    ensures forall c :: c in cands ==> EdgeCandidate(g, c) || NextToWall(g, c)
    ensures |edges| <= |cands| && cands[..|edges|] == edges
    ensures |cands| <= ScanBound
  {
    cands := edges;
    var y := 1;
    while y < StageHeight - 1
      invariant 1 <= y <= StageHeight - 1
      invariant forall c :: c in cands ==> EdgeCandidate(g, c) || NextToWall(g, c)
      invariant |edges| <= |cands| && cands[..|edges|] == edges
      invariant |cands| <= 2 * (StageHeight - 2) + 2 * (StageWidth - 2) + (y - 1) * (StageWidth - 2)
    {
      var x := 1;
      while x < StageWidth - 1
        invariant 1 <= x <= StageWidth - 1
        invariant forall c :: c in cands ==> EdgeCandidate(g, c) || NextToWall(g, c)
        invariant |edges| <= |cands| && cands[..|edges|] == edges
        invariant |cands| <= 2 * (StageHeight - 2) + 2 * (StageWidth - 2) + (y - 1) * (StageWidth - 2) + (x - 1)
      {
        if g[y, x] == FloorCode {
          if g[y - 1, x] == WallCode || g[y + 1, x] == WallCode ||
             g[y, x - 1] == WallCode || g[y, x + 1] == WallCode {
            cands := cands + [Cell(x, y)];
          }
        }
        x := x + 1;
      }
      y := y + 1;
    }
  }

  /** The candidate scans of addExits as evidently intended: the same scans,
      but a tile already listed is not listed again. */
  method ExitCandidates(g: array2<int>) returns (cands: seq<Cell>)
    requires g.Length0 == StageHeight && g.Length1 == StageWidth
    ensures forall c :: c in cands <==> StageExitCandidate(g, c)
    ensures Distinct(cands)
    ensures |cands| <= ScanBound
  {
    cands := EdgeColumns(g);
    cands := EdgeRows(g, cands);
    if |cands| >= 2 {
      assert cands[0] != cands[1] && EdgeCandidate(g, cands[0]) && EdgeCandidate(g, cands[1]);
    } else {
      assert FewEdgeCandidates(g);
      cands := NearWalls(g, cands);
    }
  }

  /** The first edge scan without repeats: the empty tiles of columns 1 and
      W-2, row by row. */
  method EdgeColumns(g: array2<int>) returns (cands: seq<Cell>)
    requires g.Length0 == StageHeight && g.Length1 == StageWidth
    ensures forall c :: c in cands <==> EdgeCandidate(g, c) && (c.x == 1 || c.x == StageWidth - 2)
    ensures Distinct(cands)
    ensures |cands| <= 2 * (StageHeight - 2)
  {
    cands := [];
    var y := 1;
    while y < StageHeight - 1
      invariant 1 <= y <= StageHeight - 1
      invariant forall c :: c in cands <==> EdgeCandidate(g, c) && (c.x == 1 || c.x == StageWidth - 2) && c.y < y
      invariant Distinct(cands)
      invariant |cands| <= 2 * (y - 1)
    {
      if g[y, 1] == FloorCode && Cell(1, y) !in cands {
        cands := cands + [Cell(1, y)];
      }
      if g[y, StageWidth - 2] == FloorCode && Cell(StageWidth - 2, y) !in cands {
        cands := cands + [Cell(StageWidth - 2, y)];
      }
      y := y + 1;
    }
  }

  /** The second edge scan without repeats: the empty tiles of rows 1 and
      H-2, column by column, after those of the first scan. */
  method EdgeRows(g: array2<int>, columns: seq<Cell>) returns (cands: seq<Cell>)
    requires g.Length0 == StageHeight && g.Length1 == StageWidth
    requires forall c :: c in columns <==> EdgeCandidate(g, c) && (c.x == 1 || c.x == StageWidth - 2)
    requires Distinct(columns) && |columns| <= 2 * (StageHeight - 2)
    ensures forall c :: c in cands <==> EdgeCandidate(g, c)
    ensures Distinct(cands)
    ensures |cands| <= 2 * (StageHeight - 2) + 2 * (StageWidth - 2)
  {
    cands := columns;
    var x := 1;
    while x < StageWidth - 1
      invariant 1 <= x <= StageWidth - 1
      invariant forall c :: c in cands <==>
        EdgeCandidate(g, c) && ((c.x == 1 || c.x == StageWidth - 2) || ((c.y == 1 || c.y == StageHeight - 2) && c.x < x))
      invariant Distinct(cands)
      invariant |cands| <= 2 * (StageHeight - 2) + 2 * (x - 1)
    {
      if g[1, x] == FloorCode && Cell(x, 1) !in cands {
        cands := cands + [Cell(x, 1)];
      }
      if g[StageHeight - 2, x] == FloorCode && Cell(x, StageHeight - 2) !in cands {
        cands := cands + [Cell(x, StageHeight - 2)];
      }
      x := x + 1;
    }
  }

  /** The fallback scan without repeats: the empty tiles next to a solid
      one, in row-major order, after the edge candidates. */
  method NearWalls(g: array2<int>, edges: seq<Cell>) returns (cands: seq<Cell>)
    requires g.Length0 == StageHeight && g.Length1 == StageWidth
    requires forall c :: c in edges <==> EdgeCandidate(g, c)
    requires Distinct(edges) && |edges| <= 2 * (StageHeight - 2) + 2 * (StageWidth - 2)
    ensures forall c :: c in cands <==> EdgeCandidate(g, c) || NextToWall(g, c)
    ensures Distinct(cands)
    ensures |cands| <= ScanBound
  {
    cands := edges;
    var y := 1;
    while y < StageHeight - 1
      invariant 1 <= y <= StageHeight - 1
      invariant forall c :: c in cands <==> EdgeCandidate(g, c) || (NextToWall(g, c) && c.y < y)
      invariant Distinct(cands)
      invariant |cands| <= 2 * (StageHeight - 2) + 2 * (StageWidth - 2) + (y - 1) * (StageWidth - 2)
    {
      cands := NearWallsRow(g, y, cands);
      y := y + 1;
    }
  }

  /** One row of the fallback scan without repeats. */
  method NearWallsRow(g: array2<int>, y: int, before: seq<Cell>) returns (cands: seq<Cell>)
    requires g.Length0 == StageHeight && g.Length1 == StageWidth && 1 <= y < StageHeight - 1
    requires forall c :: c in before <==> EdgeCandidate(g, c) || (NextToWall(g, c) && c.y < y)
    requires Distinct(before)
    requires |before| <= 2 * (StageHeight - 2) + 2 * (StageWidth - 2) + (y - 1) * (StageWidth - 2)
    ensures forall c :: c in cands <==> EdgeCandidate(g, c) || (NextToWall(g, c) && c.y < y + 1)
    ensures Distinct(cands)
    ensures |cands| <= 2 * (StageHeight - 2) + 2 * (StageWidth - 2) + y * (StageWidth - 2)
  {
    cands := before;
    var x := 1;
    while x < StageWidth - 1
      invariant 1 <= x <= StageWidth - 1
      invariant forall c :: c in cands <==> EdgeCandidate(g, c) || (NextToWall(g, c) && Before(c, Cell(x, y)))
      invariant Distinct(cands)
      invariant |cands| <= 2 * (StageHeight - 2) + 2 * (StageWidth - 2) + (y - 1) * (StageWidth - 2) + (x - 1)
    {
      if g[y, x] == FloorCode {
        if (g[y - 1, x] == WallCode || g[y + 1, x] == WallCode ||
            g[y, x - 1] == WallCode || g[y, x + 1] == WallCode) && Cell(x, y) !in cands {
          cands := cands + [Cell(x, y)];
        }
      }
      x := x + 1;
    }
  }

  /** Along a row, a solid tile left of an empty one means an empty tile
      whose left neighbour is solid lies between them. */
  lemma {:induction false} SolidToEmptyStep(g: array2<int>, row: int, lo: int, hi: int)
    requires g.Length0 == StageHeight && g.Length1 == StageWidth
    requires 0 <= row < StageHeight && 0 <= lo < hi < StageWidth
    requires g[row, lo] == WallCode && g[row, hi] == FloorCode
    requires forall x :: lo <= x <= hi ==> g[row, x] == FloorCode || g[row, x] == WallCode
    ensures exists x :: lo < x <= hi && g[row, x - 1] == WallCode && g[row, x] == FloorCode
    decreases hi - lo
  {
    if g[row, hi - 1] == WallCode {
      assert lo < hi <= hi && g[row, hi - 1] == WallCode && g[row, hi] == FloorCode;
    } else {
      assert hi - 1 > lo;
      SolidToEmptyStep(g, row, lo, hi - 1);
    }
  }

  /** A stage whose middle tile is empty and whose border is solid always
      has somewhere to put an exit. */
  lemma CandidateExists(g: array2<int>)
    requires g.Length0 == StageHeight && g.Length1 == StageWidth
    requires g[CentreRoom.cy, 0] == WallCode && g[CentreRoom.cy, CentreRoom.cx] == FloorCode
    requires forall x :: 0 <= x < StageWidth ==> g[CentreRoom.cy, x] == FloorCode || g[CentreRoom.cy, x] == WallCode
    ensures exists c :: StageExitCandidate(g, c)
  {
    var row := CentreRoom.cy;
    SolidToEmptyStep(g, row, 0, CentreRoom.cx);
    var x :| 0 < x <= CentreRoom.cx && g[row, x - 1] == WallCode && g[row, x] == FloorCode;
    if FewEdgeCandidates(g) {
      if x == 1 {
        assert StageExitCandidate(g, Cell(x, row));
      } else {
        assert NextToWall(g, Cell(x, row));
        assert StageExitCandidate(g, Cell(x, row));
      }
    } else {
      var c, d :| EdgeCandidate(g, c) && EdgeCandidate(g, d) && c != d;
      assert StageExitCandidate(g, c);
    }
  }

  /** `1 + Math.floor(Math.random() * 2)`: one or two exits. */
  function StageExitCount(r: real): (n: nat)
    requires IsRandom(r)
    ensures 1 <= n <= 2
  {
    1 + RandomIndex(r, 2)
  }

  /** The choice of addExits: the candidates, shuffled, and their first
      `Math.min(numExits, candidates.length)` entries. */
  method PickStageExits(g: array2<int>, rs: seq<real>, countDraw: real) returns (cands: seq<Cell>, chosen: seq<Cell>)
    requires g.Length0 == StageHeight && g.Length1 == StageWidth
    requires Helpers.EnoughDraws(ScanBound, rs) && IsRandom(countDraw)
    ensures forall c :: c in cands <==> StageExitCandidate(g, c)
    ensures Distinct(cands) && |cands| <= ScanBound
    ensures chosen == Helpers.Shuffled(cands, rs)[..Min(StageExitCount(countDraw), |cands|)]
    ensures |chosen| <= 2 && Distinct(chosen)
    ensures forall c :: c in chosen ==> StageExitCandidate(g, c)
    ensures (exists c :: StageExitCandidate(g, c)) ==> 1 <= |chosen|
  {
    cands := ExitCandidates(g);
    var a := new Cell[|cands|](i requires 0 <= i < |cands| reads {} => cands[i]);
    assert a[..] == cands;
    Helpers.ShuffleArray(a, rs);
    Helpers.ShuffledKeepsDistinct(cands, rs);
    var numExits := StageExitCount(countDraw);
    chosen := a[..Min(numExits, a.Length)];
    assert forall c :: c in chosen ==> c in multiset(a[..]);
    if exists c :: StageExitCandidate(g, c) {
      var c :| StageExitCandidate(g, c);
      assert c in cands;
    }
  }

  /** addExits: the chosen candidates become exits, marked in the tiles and
      appended to the stage's exit list, in order; no other tile changes. */
  method AddExits(stage: Stage, rs: seq<real>, countDraw: real) returns (cands: seq<Cell>, chosen: seq<Cell>)
    requires stage.Valid() && Helpers.EnoughDraws(ScanBound, rs) && IsRandom(countDraw)
    modifies stage.tiles, stage`exits
    ensures forall c :: c in cands <==> old(StageExitCandidate(stage.tiles, c))
    ensures forall c :: c in cands ==> 1 <= c.y < StageHeight - 1 && 1 <= c.x < StageWidth - 1
    ensures Distinct(cands) && |cands| <= ScanBound
    ensures chosen == Helpers.Shuffled(cands, rs)[..Min(StageExitCount(countDraw), |cands|)]
    ensures |chosen| <= 2 && Distinct(chosen)
    ensures forall c :: c in chosen ==> old(StageExitCandidate(stage.tiles, c))
    ensures forall c :: c in chosen ==> 1 <= c.y < StageHeight - 1 && 1 <= c.x < StageWidth - 1
    ensures (exists c :: old(StageExitCandidate(stage.tiles, c))) ==> 1 <= |chosen|
    ensures stage.exits == old(stage.exits) + chosen
    ensures forall y, x :: OnMap(x, y) ==>
      stage.tiles[y, x] == if Cell(x, y) in chosen then ExitCode else old(stage.tiles[y, x])
  {
    cands, chosen := PickStageExits(stage.tiles, rs, countDraw);
    assert forall c :: c in chosen ==> old(StageExitCandidate(stage.tiles, c));
    if exists c :: old(StageExitCandidate(stage.tiles, c)) {
      var c :| old(StageExitCandidate(stage.tiles, c));
      assert StageExitCandidate(stage.tiles, c);
    }
    forall c | c in cands
      ensures 1 <= c.y < StageHeight - 1 && 1 <= c.x < StageWidth - 1
    {
      assert StageExitCandidate(stage.tiles, c);
    }
    MarkExits(stage, chosen);
  }

  /** The loop of addExits: each chosen cell is marked as an exit in the
      tiles and appended to the stage's exit list, in order. */
  method MarkExits(stage: Stage, chosen: seq<Cell>)
    requires stage.Valid()
    requires forall c :: c in chosen ==> 1 <= c.y < StageHeight - 1 && 1 <= c.x < StageWidth - 1
    modifies stage.tiles, stage`exits
    ensures stage.exits == old(stage.exits) + chosen
    ensures forall y, x :: OnMap(x, y) ==>
      stage.tiles[y, x] == if Cell(x, y) in chosen then ExitCode else old(stage.tiles[y, x])
  {
    var i := 0;
    while i < |chosen|
      invariant 0 <= i <= |chosen|
      invariant stage.exits == old(stage.exits) + chosen[..i]
      invariant forall y, x :: OnMap(x, y) ==>
        stage.tiles[y, x] == if Cell(x, y) in chosen[..i] then ExitCode else old(stage.tiles[y, x])
    {
      var exit := chosen[i];
      stage.tiles[exit.y, exit.x] := ExitCode;
      stage.exits := stage.exits + [exit];
      assert chosen[..i + 1] == chosen[..i] + [exit];
      i := i + 1;
    }
    assert chosen[..i] == chosen;
  }

  /** createStage up to its exits: a solid stage with its empty areas
      cleared. Every tile is empty or solid, the border is solid and the
      central room is empty. */
  method LaidOutStage(id: string, countDraw: real, draws: seq<RoomDraw>) returns (stage: Stage)
    requires RoomDrawsOk(countDraw, draws)
    ensures fresh(stage) && fresh(stage.tiles) && stage.Valid() && stage.id == id
    ensures stage.exits == [] && stage.exitConnections == map[]
    ensures forall y, x :: OnMap(x, y) ==> stage.tiles[y, x] == FloorCode || stage.tiles[y, x] == WallCode
    ensures forall y, x :: OnMap(x, y) && OnBorder(x, y) ==> stage.tiles[y, x] == WallCode
    ensures forall y, x :: OnMap(x, y) && InRoom(x, y, CentreRoom) ==> stage.tiles[y, x] == FloorCode
  {
    stage := NewSolidStage(id);
    GenerateEmptyAreas(stage, countDraw, draws);
  }

  /** The `Math.random()` draws one stage generation consumes: the room
      count, the room draws, the shuffle draws and the exit count. */
  datatype StageDraws = StageDraws(roomCount: real, rooms: seq<RoomDraw>, shuffle: seq<real>, exitCount: real)

  predicate StageDrawsOk(d: StageDraws)
  {
    RoomDrawsOk(d.roomCount, d.rooms) && Helpers.EnoughDraws(ScanBound, d.shuffle) && IsRandom(d.exitCount)
  }

  /** createStage: a solid stage, its empty areas, then its exits. `laid`
      is the stage before its exits: every tile empty or solid, the border
      solid, the central room empty. `cands` are its exit candidates, each
      once; the exits are the first `Math.min(numExits, candidates.length)`
      of them once shuffled, one or two, and the final tiles are `laid`
      with exactly those cells marked as exits. There are no connections. */
  method CreateStage(id: string, d: StageDraws) returns (stage: Stage, ghost laid: Tiles, ghost cands: seq<Cell>)
    requires StageDrawsOk(d)
    ensures fresh(stage) && fresh(stage.tiles) && stage.Valid() && stage.id == id
    ensures stage.exitConnections == map[]
    ensures IsTiles(laid)
    ensures forall y, x :: OnMap(x, y) ==> laid[y][x] == FloorCode || laid[y][x] == WallCode
    ensures forall y, x :: OnMap(x, y) && OnBorder(x, y) ==> laid[y][x] == WallCode
    ensures forall y, x :: OnMap(x, y) && InRoom(x, y, CentreRoom) ==> laid[y][x] == FloorCode
    ensures forall c :: c in cands <==> StageExitCandidateIn(laid, c)
    ensures Distinct(cands) && 1 <= |cands| <= ScanBound
    ensures stage.exits == Helpers.Shuffled(cands, d.shuffle)[..Min(StageExitCount(d.exitCount), |cands|)]
    ensures 1 <= |stage.exits| <= 2 && Distinct(stage.exits)
    ensures forall c :: c in stage.exits ==> StageExitCandidateIn(laid, c)
    ensures forall y, x :: OnMap(x, y) ==>
      stage.tiles[y, x] == if Cell(x, y) in stage.exits then ExitCode else laid[y][x]
    ensures forall k :: 0 <= k < |stage.exits| ==>
      var e := stage.exits[k];
      1 <= e.y < StageHeight - 1 && 1 <= e.x < StageWidth - 1 && stage.tiles[e.y, e.x] == ExitCode
    ensures forall y, x :: OnMap(x, y) && OnBorder(x, y) ==> stage.tiles[y, x] == WallCode
    ensures forall y, x :: OnMap(x, y) && InRoom(x, y, CentreRoom) ==>
      stage.tiles[y, x] == FloorCode || Cell(x, y) in stage.exits
  {
    stage := LaidOutStage(id, d.roomCount, d.rooms);
    CandidateExists(stage.tiles);
    SnapshotCandidates(stage.tiles);
    laid := Snapshot(stage.tiles);
    var found, chosen := AddExits(stage, d.shuffle, d.exitCount);
    cands := found;
    forall k | 0 <= k < |stage.exits|
      ensures 1 <= stage.exits[k].y < StageHeight - 1 && 1 <= stage.exits[k].x < StageWidth - 1
      ensures stage.tiles[stage.exits[k].y, stage.exits[k].x] == ExitCode
    {
      var e := stage.exits[k];
      assert e == chosen[k] && Cell(e.x, e.y) == e;
    }
  }

}
