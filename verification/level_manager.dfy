/** The level manager of src/world/EntityLevelManager.js: levels are made on
    first use and kept in the game state's level table; setting up a level
    removes every entity but the player and lays out the level's floor, wall
    and exit entities; connecting two levels joins one exit of each. Entities
    are represented by the cells (floors, walls) or exit indices (exits) they
    stand for; drawing and collision groups are left to the engine. */
module LevelManagement {
  import opened Common
  import opened LevelGenerator
  import GameStateModel
  import EntityManagement

  /** The draws one generated level may use. */
  datatype LevelDraws = LevelDraws(roomCount: real, rooms: seq<RoomDraw>, shuffle: seq<real>, exitCount: real)

  predicate LevelDrawsOk(d: LevelDraws)
  {
    RoomDrawsOk(d.roomCount, d.rooms) && ExitDrawsOk(d.shuffle, d.exitCount)
  }

  /** The floor pass of generateLevelContent: a floor entity for every floor
      cell, appended in row-major order; the grid is only read. */
  method PlaceFloors(level: Level)
    requires level.Valid()
    modifies level`floors
    ensures |old(level.floors)| <= |level.floors| && level.floors[..|old(level.floors)|] == old(level.floors)
    ensures forall c :: c in level.floors[|old(level.floors)|..] <==> CellIs(level.grid, c, FloorCode)
    ensures RowMajor(level.floors[|old(level.floors)|..])
  {
    ghost var start := |level.floors|;
    var y := 0;
    while y < StageHeight
      invariant 0 <= y <= StageHeight
      invariant start <= |level.floors| && level.floors[..start] == old(level.floors)
      invariant forall c :: c in level.floors[start..] <==> CellIs(level.grid, c, FloorCode) && c.y < y
      invariant RowMajor(level.floors[start..])
      invariant forall k :: start <= k < |level.floors| ==> level.floors[k].y < y
    {
      var x := 0;
      while x < StageWidth
        invariant 0 <= x <= StageWidth
        invariant start <= |level.floors| && level.floors[..start] == old(level.floors)
        invariant forall c :: c in level.floors[start..] <==> CellIs(level.grid, c, FloorCode) && Before(c, Cell(x, y))
        invariant RowMajor(level.floors[start..])
        invariant forall k :: start <= k < |level.floors| ==> Before(level.floors[k], Cell(x, y))
      {
        if level.grid[y, x] == FloorCode {
          ghost var added := level.floors[start..];
          level.floors := level.floors + [Cell(x, y)];
          assert level.floors[start..] == added + [Cell(x, y)];
        }
        x := x + 1;
      }
      y := y + 1;
    }
  }

  /** The exit pass of generateLevelContent for a level that has exit
      records: one exit entity per record, in order, and every recorded cell
      marked as an exit. A record outside the rows of the grid is skipped. */
  method RestoreExits(level: Level)
    requires level.Valid()
    modifies level.grid, level`exitEntities
    ensures level.exitEntities == ExitIndices(level.exits)
    ensures forall j, i :: OnMap(i, j) ==>
      level.grid[j, i] == if TargetAt(level.exits, |level.exits|, i, j) then ExitCode else old(level.grid[j, i])
  {
    level.exitEntities := [];
    var k := 0;
    while k < |level.exits|
      invariant 0 <= k <= |level.exits|
      invariant level.exitEntities == ExitIndices(level.exits[..k])
      invariant forall j, i :: OnMap(i, j) ==>
        level.grid[j, i] == if TargetAt(level.exits, k, i, j) then ExitCode else old(level.grid[j, i])
    {
      var e := level.exits[k];
      level.exitEntities := level.exitEntities + [e.exitIndex];
      if 0 <= e.y < StageHeight && 0 <= e.x < StageWidth {
        level.grid[e.y, e.x] := ExitCode;
      }
      k := k + 1;
    }
    assert level.exits[..k] == level.exits;
  }

  class LevelManager {
    /** The game state, whose level table and current level id this manager keeps. */
    const state: GameStateModel.GameState
    /** The scene's entity registry. */
    const entityManager: EntityManagement.EntityManager
    /** Whether the scene's factory yields an entity for the exit prefab. */
    const exitPrefab: bool
    var currentLevel: Level?

    ghost predicate Valid()
      reads this, state, entityManager
    {
      state.LevelsValid() && entityManager.Valid() &&
      (currentLevel != null ==> currentLevel in state.levels.Values)
    }

    /** The level stored under `levelId`, as a set: empty when there is none yet. */
    function Stored(levelId: string): set<Level>
      reads state
    {
      if levelId in state.levels then {state.levels[levelId]} else {}
    }

    /** The grid of the level stored under `levelId`, as a set. */
    function StoredGrid(levelId: string): set<array2<int>>
      reads state
    {
      if levelId in state.levels then {state.levels[levelId].grid} else {}
    }

    constructor (state: GameStateModel.GameState, entityManager: EntityManagement.EntityManager, exitPrefab: bool)
      ensures this.state == state && this.entityManager == entityManager && this.exitPrefab == exitPrefab
      ensures currentLevel == null
    {
      this.state := state;
      this.entityManager := entityManager;
      this.exitPrefab := exitPrefab;
      currentLevel := null;
    }

    /** getLevel: the stored level for `levelId` when there is one, and
        nothing changes; otherwise a new level, stored under `levelId`. */
    method GetLevel(levelId: string, d: LevelDraws) returns (level: Level)
      requires state.LevelsValid() && LevelDrawsOk(d)
      modifies state`levels
      ensures state.LevelsValid() && levelId in state.levels && level == state.levels[levelId]
      ensures level.Valid() && level.id == levelId
      ensures state.levels == old(state.levels)[levelId := level]
      ensures levelId in old(state.levels) ==> state.levels == old(state.levels)
      ensures levelId !in old(state.levels) ==>
        fresh(level) && fresh(level.grid) &&
        level.exitConnections == map[] && (exitPrefab ==> 1 <= |level.exits| <= 3)
    {
      if levelId in state.levels {
        return state.levels[levelId];
      }
      ghost var carved, pool;
      level, carved, pool := CreateLevel(levelId, d.roomCount, d.rooms, d.shuffle, d.exitCount, exitPrefab);
      state.levels := state.levels[levelId := level];
      state.RegisterLevel(level);
    }

    /** clearCurrentLevel: the current level, if any, forgets its floor,
        wall and exit entities. */
    method ClearCurrentLevel()
      modifies currentLevel
      ensures currentLevel != null ==> currentLevel.Contents() == old(currentLevel.Contents()).Cleared()
    {
      if currentLevel != null {
        currentLevel.walls := [];
        currentLevel.floors := [];
        currentLevel.exitEntities := [];
      }
    }

    /** Destroying one entity: its `entity:destroyed` event unregisters it
        from the scene's registry and from the game state. */
    method DestroyEntity(id: string)
      requires entityManager.Valid()
      modifies entityManager, state`entities, state`players, state`stateSequence
      ensures entityManager.Valid()
      ensures entityManager.entities == old(entityManager.entities) - {id}
      ensures state.entities == old(state.entities) - {id}
      ensures old(state.PlayersTracked()) ==> state.PlayersTracked()
    {
      entityManager.UnregisterEntity(id);
      state.UnregisterEntity(id);
    }

    /** The removal step of setupLevel: every registered entity other than
        the player is destroyed. */
    method DestroyAllBut(player: Option<string>)
      requires entityManager.Valid()
      modifies entityManager, state`entities, state`players, state`stateSequence
      ensures entityManager.Valid()
      ensures forall id :: id in entityManager.entities <==>
        id in old(entityManager.entities) && player == Some(id)
      ensures forall id :: id in state.entities <==>
        id in old(state.entities) && (id !in old(entityManager.entities) || player == Some(id))
      ensures old(state.PlayersTracked()) ==> state.PlayersTracked()
    {
      var ids := entityManager.ids;
      ghost var registered := entityManager.entities;
      ghost var recorded := state.entities;
      ghost var removed: set<string> := {};
      var i := 0;
      while i < |ids|
        invariant 0 <= i <= |ids| && entityManager.Valid()
        invariant removed == set k | 0 <= k < i && player != Some(ids[k]) :: ids[k]
        invariant entityManager.entities == registered - removed
        invariant state.entities == recorded - removed
        invariant old(state.PlayersTracked()) ==> state.PlayersTracked()
      {
        if player != Some(ids[i]) {
          DestroyEntity(ids[i]);
          removed := removed + {ids[i]};
        }
        i := i + 1;
      }
    }

    /** generateLevelContent: floor entities for the floor cells, wall
        entities by the wall rule, then the exits: a level with exit records
        gets one exit entity per record and its recorded cells marked as
        exits; a level without records gets new random exits. Either way the
        exit entities end up one per record, and every record's cell is
        marked as an exit. */
    method GenerateLevelContent(level: Level, d: LevelDraws)
      requires level.Valid() && LevelDrawsOk(d)
      modifies level.grid, level`floors, level`walls, level`exits, level`exitEntities
      ensures |old(level.walls)| <= |level.walls| && level.walls[..|old(level.walls)|] == old(level.walls)
      ensures forall c :: c in level.walls[|old(level.walls)|..] <==> old(IsWallSite(level.grid, c))
      ensures level.exitEntities == ExitIndices(level.exits)
      ensures ExitsMarked(level)
      ensures UniqueIndices(old(level.exits)) ==> UniqueIndices(level.exits)
      ensures |old(level.exits)| > 0 ==>
        level.exits == old(level.exits) &&
        |old(level.floors)| <= |level.floors| && level.floors[..|old(level.floors)|] == old(level.floors) &&
        (forall c :: c in level.floors[|old(level.floors)|..] <==> old(CellIs(level.grid, c, FloorCode))) &&
        forall j, i :: OnMap(i, j) ==>
          level.grid[j, i] == if TargetAt(level.exits, |level.exits|, i, j) then ExitCode else old(level.grid[j, i])
      ensures old(level.exits) == [] ==>
        (exitPrefab ==> 1 <= |level.exits| <= 3) && (!exitPrefab ==> level.exits == [])
    {
      PlaceFloors(level);
      PlaceWalls(level);
      level.exitEntities := [];
      if |level.exits| > 0 {
        RestoreExits(level);
        forall k | 0 <= k < |level.exits| && OnMap(level.exits[k].x, level.exits[k].y)
          ensures level.grid[level.exits[k].y, level.exits[k].x] == ExitCode
        {
          assert TargetAt(level.exits, |level.exits|, level.exits[k].x, level.exits[k].y);
        }
      } else {
        ghost var pool, selected := AddExits(level, [], d.shuffle, d.exitCount, exitPrefab);
        forall k | 0 <= k < |level.exits| && OnMap(level.exits[k].x, level.exits[k].y)
          ensures level.grid[level.exits[k].y, level.exits[k].x] == ExitCode
        {
          assert Cell(level.exits[k].x, level.exits[k].y) == selected[k];
        }
      }
    }

    /** setupLevel: the current level's entities are cleared, every entity
        but the player is destroyed, the level is fetched (made on first
        use) and its content generated; it becomes the current level, and
        the transition is recorded in the game state. */
    method SetupLevel(levelId: string, player: Option<string>, d: LevelDraws) returns (level: Level)
      requires Valid() && LevelDrawsOk(d)
      modifies this, state, entityManager, state.levels.Values, StoredGrid(levelId)
      ensures Valid()
      ensures currentLevel == level && levelId in state.levels && state.levels[levelId] == level
      ensures level.id == levelId && state.currentLevelId == levelId
      ensures levelId in old(state.levels) ==> state.levels == old(state.levels)
      ensures levelId !in old(state.levels) ==> fresh(level) && state.levels == old(state.levels)[levelId := level]
      ensures forall id :: id in entityManager.entities <==> id in old(entityManager.entities) && player == Some(id)
      ensures forall id :: id in state.entities <==>
        id in old(state.entities) && (id !in old(entityManager.entities) || player == Some(id))
      ensures old(state.PlayersTracked()) ==> state.PlayersTracked()
      ensures level.exitEntities == ExitIndices(level.exits) && ExitsMarked(level)
      ensures levelId in old(state.levels) && |old(state.levels[levelId].exits)| > 0 ==>
        level.exits == old(state.levels[levelId].exits)
      ensures levelId !in old(state.levels) ==> (exitPrefab ==> 1 <= |level.exits| <= 3)
      ensures level.exitConnections == if levelId in old(state.levels) then old(state.levels[levelId].exitConnections) else map[]
      ensures forall id :: id in old(state.levels) && id != levelId ==>
        var l := old(state.levels[id]);
        l.Contents() == if l == old(currentLevel) then old(l.Contents()).Cleared() else old(l.Contents())
      ensures forall id, y, x :: id in old(state.levels) && id != levelId && OnMap(x, y) ==>
        old(state.levels[id]).grid[y, x] == old(state.levels[id].grid[y, x])
    {
      LeaveLevel(player);
      level := EnterStored(levelId, d);
    }

    /** The leaving steps of setupLevel: the current level's entity lists
        are cleared and every entity but the player is destroyed. The level
        table, every other level and every grid stay as they were. */
    method LeaveLevel(player: Option<string>)
      requires Valid()
      modifies currentLevel, entityManager, state`entities, state`players, state`stateSequence
      ensures Valid()
      ensures forall id :: id in entityManager.entities <==> id in old(entityManager.entities) && player == Some(id)
      ensures forall id :: id in state.entities <==>
        id in old(state.entities) && (id !in old(entityManager.entities) || player == Some(id))
      ensures old(state.PlayersTracked()) ==> state.PlayersTracked()
      ensures state.levels == old(state.levels) && currentLevel == old(currentLevel)
      ensures currentLevel != null ==> currentLevel.Contents() == old(currentLevel.Contents()).Cleared()
      ensures forall id :: id in state.levels && state.levels[id] != currentLevel ==>
        state.levels[id].Contents() == old(state.levels[id].Contents())
      ensures forall id, y, x :: id in state.levels && OnMap(x, y) ==>
        state.levels[id].grid[y, x] == old(state.levels[id].grid[y, x])
    {
      ClearCurrentLevel();
      DestroyAllBut(player);
    }

    /** The fetching and entering steps of setupLevel: the level is fetched
        (made on first use) and entered. Every other stored level is left
        exactly as it was, grid included. */
    method EnterStored(levelId: string, d: LevelDraws) returns (level: Level)
      requires Valid() && LevelDrawsOk(d)
      modifies this`currentLevel, state`levels, state`currentLevelId, state`stateSequence
      modifies Stored(levelId)`floors, Stored(levelId)`walls, Stored(levelId)`exits,
        Stored(levelId)`exitEntities, StoredGrid(levelId)
      ensures Valid()
      ensures currentLevel == level && levelId in state.levels && state.levels[levelId] == level
      ensures level.id == levelId && state.currentLevelId == levelId
      ensures levelId in old(state.levels) ==> state.levels == old(state.levels)
      ensures levelId !in old(state.levels) ==> fresh(level) && state.levels == old(state.levels)[levelId := level]
      ensures level.exitEntities == ExitIndices(level.exits) && ExitsMarked(level)
      ensures levelId in old(state.levels) && |old(state.levels[levelId].exits)| > 0 ==>
        level.exits == old(state.levels[levelId].exits)
      ensures levelId !in old(state.levels) ==> (exitPrefab ==> 1 <= |level.exits| <= 3)
      ensures level.exitConnections == if levelId in old(state.levels) then old(state.levels[levelId].exitConnections) else map[]
      ensures forall id :: id in old(state.levels) && id != levelId ==>
        var l := old(state.levels[id]);
        l.Contents() == old(l.Contents())
      ensures forall id, y, x :: id in old(state.levels) && id != levelId && OnMap(x, y) ==>
        old(state.levels[id]).grid[y, x] == old(state.levels[id].grid[y, x])
      ensures state.entities == old(state.entities) && state.players == old(state.players)
    {
      level := GetLevel(levelId, d);
      EnterLevel(level, d);
    }

    /** The last steps of setupLevel: the level's content is generated, its
        id is recorded as the current level (directly and through the
        `level:transition` event) and it becomes the current level. */
    method EnterLevel(level: Level, d: LevelDraws)
      requires state.LevelsValid() && entityManager.Valid() && LevelDrawsOk(d)
      requires level.id in state.levels && state.levels[level.id] == level
      modifies this`currentLevel, state`currentLevelId, state`stateSequence
      modifies level.grid, level`floors, level`walls, level`exits, level`exitEntities
      ensures Valid() && currentLevel == level && state.currentLevelId == level.id
      ensures level.exitEntities == ExitIndices(level.exits) && ExitsMarked(level)
      ensures |old(level.exits)| > 0 ==> level.exits == old(level.exits)
      ensures old(level.exits) == [] && exitPrefab ==> 1 <= |level.exits| <= 3
    {
      GenerateLevelContent(level, d);
      state.currentLevelId := level.id;
      state.HandleLevelTransition(level.id);
      currentLevel := level;
    }

    /** The fetching step of connectLevels: getLevel for each id in turn.
        A level made here has no connections yet. */
    method FetchLevels(level1Id: string, level2Id: string, d1: LevelDraws, d2: LevelDraws)
      returns (level1: Level, level2: Level)
      requires state.LevelsValid() && LevelDrawsOk(d1) && LevelDrawsOk(d2)
      modifies state`levels
      ensures state.LevelsValid() && level1.id == level1Id && level2.id == level2Id
      ensures level1Id == level2Id ==> level1 == level2
      ensures state.levels == old(state.levels)[level1Id := level1][level2Id := level2]
      ensures level1.exitConnections == ConnectionsOf(old(state.levels), level1Id)
      ensures level2.exitConnections == ConnectionsOf(old(state.levels), level2Id)
      ensures level1Id in old(state.levels) ==> level1 == old(state.levels[level1Id])
      ensures level2Id in old(state.levels) ==> level2 == old(state.levels[level2Id])
      ensures level1Id !in old(state.levels) ==> fresh(level1)
      ensures level2Id !in old(state.levels) ==> fresh(level2)
    {
      ghost var levels0 := state.levels;
      level1 := GetLevel(level1Id, d1);
      level2 := GetLevel(level2Id, d2);
    }

    /** The last step of connectLevels: both levels are stored again under
        their ids, which leaves the table as it was. */
    method StoreLevels(level1Id: string, level1: Level, level2Id: string, level2: Level)
      requires level1Id in state.levels && state.levels[level1Id] == level1
      requires level2Id in state.levels && state.levels[level2Id] == level2
      modifies state`levels
      ensures state.levels == old(state.levels)
    {
      state.levels := state.levels[level1Id := level1][level2Id := level2];
    }

    /** connectLevels: both levels are fetched (made on first use); when
        each has an exit record with the given index, each exit's connection
        is set to the other, the second write winning when both name the
        same exit of the same level. Otherwise no connection changes. */
    method ConnectLevels(level1Id: string, exit1: int, level2Id: string, exit2: int, d1: LevelDraws, d2: LevelDraws)
      returns (level1: Level, level2: Level)
      requires state.LevelsValid() && LevelDrawsOk(d1) && LevelDrawsOk(d2)
      modifies state`levels, state.levels.Values`exitConnections
      ensures state.LevelsValid()
      ensures level1Id in state.levels && level2Id in state.levels
      ensures level1 == state.levels[level1Id] && level2 == state.levels[level2Id]
      ensures state.levels == old(state.levels)[level1Id := level1][level2Id := level2]
      ensures level1Id in old(state.levels) ==> level1 == old(state.levels[level1Id])
      ensures level2Id in old(state.levels) ==> level2 == old(state.levels[level2Id])
      ensures forall l :: l in old(state.levels.Values) && l != level1 && l != level2 ==>
        l.exitConnections == old(l.exitConnections)
      ensures level1Id == level2Id <==> level1 == level2
      ensures FirstWithIndex(level1.exits, exit1) == -1 || FirstWithIndex(level2.exits, exit2) == -1 ==>
        level1.exitConnections == old(ConnectionsOf(state.levels, level1Id)) &&
        level2.exitConnections == old(ConnectionsOf(state.levels, level2Id))
      ensures FirstWithIndex(level1.exits, exit1) != -1 && FirstWithIndex(level2.exits, exit2) != -1 ==>
        if level1Id == level2Id then
          level1.exitConnections ==
            old(ConnectionsOf(state.levels, level1Id))[exit1 := Connection(level2Id, exit2)][exit2 := Connection(level1Id, exit1)]
        else
          level1.exitConnections == old(ConnectionsOf(state.levels, level1Id))[exit1 := Connection(level2Id, exit2)] &&
          level2.exitConnections == old(ConnectionsOf(state.levels, level2Id))[exit2 := Connection(level1Id, exit1)]
    {
      level1, level2 := FetchLevels(level1Id, level2Id, d1, d2);
      var linked := LinkExits(level1, level1Id, exit1, level2, level2Id, exit2);
      if linked {
        StoreLevels(level1Id, level1, level2Id, level2);
      }
    }
  }

  /** The connections of the level stored under `id`; a level that is not
      stored yet is made without any. */
  ghost function ConnectionsOf(levels: map<string, Level>, id: string): map<int, Connection>
    reads levels.Values
  {
    if id in levels then levels[id].exitConnections else map[]
  }

  /** The writing step of connectLevels: when both levels have an exit
      record with the given index, each exit's connection is set to the
      other (the second write winning when both name the same exit of the
      same level); otherwise nothing changes. */
  method LinkExits(level1: Level, level1Id: string, exit1: int, level2: Level, level2Id: string, exit2: int)
    returns (linked: bool)
    modifies level1`exitConnections, level2`exitConnections
    ensures linked <==> FirstWithIndex(level1.exits, exit1) != -1 && FirstWithIndex(level2.exits, exit2) != -1
    ensures !linked ==>
      level1.exitConnections == old(level1.exitConnections) && level2.exitConnections == old(level2.exitConnections)
    ensures linked && level1 == level2 ==>
      level1.exitConnections ==
        old(level1.exitConnections)[exit1 := Connection(level2Id, exit2)][exit2 := Connection(level1Id, exit1)]
    ensures linked && level1 != level2 ==>
      level1.exitConnections == old(level1.exitConnections)[exit1 := Connection(level2Id, exit2)] &&
      level2.exitConnections == old(level2.exitConnections)[exit2 := Connection(level1Id, exit1)]
  {
    if FirstWithIndex(level1.exits, exit1) == -1 || FirstWithIndex(level2.exits, exit2) == -1 {
      return false;
    }
    level1.exitConnections := level1.exitConnections[exit1 := Connection(level2Id, exit2)];
    level2.exitConnections := level2.exitConnections[exit2 := Connection(level1Id, exit1)];
    return true;
  }

  /** Every exit record on the grid has its cell marked as an exit. */
  ghost predicate ExitsMarked(level: Level)
    reads level, level.grid
    requires level.Valid()
  {
    forall k :: 0 <= k < |level.exits| && OnMap(level.exits[k].x, level.exits[k].y) ==>
      level.grid[level.exits[k].y, level.exits[k].x] == ExitCode
  }
}
