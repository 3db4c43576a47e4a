# 2DMud core, modelled in Dafny

This project models the game logic of 2DMud, a top-down browser game built on
Phaser. The model covers four parts of the game.

- **Procedural grids.** The entity-based level generator and the older
  tile-based stage generator. Each carves rooms and L-shaped corridors into a
  20 x 20 wall grid, picks exit cells next to walls and shuffles them with
  Fisher–Yates. The level generator also decides which wall cells get a wall
  entity.
- **Levels, stages and their connections.** The level manager makes levels on
  first use and lays out their entities. It also joins two levels' exits both
  ways. The stage manager caches stages and sorts their tiles. The exit
  manager builds the stage connection graph lazily as the player walks into
  exits, and keeps every connection symmetric.
- **The entity/component system.** An entity holds an insertion-ordered map
  from component type to component, with at most one visual component. The
  components are:
  - the component base class and its dependency check;
  - the transform;
  - the visual base, with its rectangle and circle drawables;
  - the physics capability, which hangs an arcade body on the drawable and
    converts between the body's corner anchor and the transform's centre.

  Each component exports its state for the network and can apply it back.
- **The player state machine and small registries.** The state machine has
  four states: standing, walking, running and dashing. Alongside it are:
  - the action queue;
  - the event bus;
  - the central game state;
  - the entity registry with its type index;
  - the prefab factory.

The source's classes are Dafny classes whose methods update their fields.
Each method states its new state in its postcondition. The properties the game
relies on are proved as postconditions or as lemmas about the specification
functions. Those properties include:
- cells only change from wall to floor;
- the border stays solid;
- exit indices are unique;
- connections are symmetric;
- a failed attach leaves the entity unchanged;
- a component's own network state round-trips.

Inheritance is modelled by composition:
- a transform, visual, physics capability or state machine holds its
  component-base part as a `const`;
- a rectangle or circle holds its visual part;
- an entity holds its components as a `Part` datatype with one constructor per
  component class.

The following are inputs rather than computations:
- the engine's results (whether a drawable is created, and the body it is
  given);
- every `Math.random()` draw, as a real in [0, 1);
- `Date.now()`;
- the keyboard's state.

Integers and coordinates are unbounded (`int` or `real`).

## Model

| member | source | states |
|---|---|---|
| Common.TileCentre | src/world/EntityLevelManager.js:115-116 | the pixel centre of a tile lies strictly inside that tile's span |
| Common.CellCentre | src/utils/helpers.js:17-20 | a cell's centre is the tile centre on both axes |
| Common.RandomIndex | src/world/ExitManager.js:29 | `Math.floor(Math.random() * n)` is an index below n |
| Common.RoomCount | src/world/EntityLevelGenerator.js:70 | the number of extra rooms is between 5 and 9 |
| Common.RoomFrom | src/world/EntityLevelGenerator.js:73-76 | a drawn room's centre stays three cells from every edge; its half-extents are 2..4 |
| Common.RoomsFrom | src/world/EntityLevelGenerator.js:72-83 | one room per draw, in draw order |
| Common.ExtraRooms | src/world/EntityLevelGenerator.js:70-83 | the extra rooms are the first RoomCount draws, each 5..9 in number and inside the bounds |
| Common.Without | src/core/EventBus.js:25 | filtering out v keeps exactly the other elements, keeps them distinct, and never lengthens the list |
| Common.WithoutAppend | src/core/EventBus.js:25 | filtering distributes over concatenation, so the remaining callbacks keep their relative order |
| Common.WithoutAbsent | src/core/EventBus.js:25 | filtering out a value that does not occur changes nothing |
| Common.NatToString | src/world/ExitManager.js:18 | the decimal text of a number is non-empty and made of digits, and ends in its last digit |
| Common.NatToStringInjective | src/world/ExitManager.js:18 | different numbers print differently, so `'stage-' + n` ids never collide |
| Helpers.Swap | src/utils/helpers.js:5 | the destructuring swap exchanges positions i and j and keeps every other position |
| Helpers.SwapPermutes | src/utils/helpers.js:5 | a swap keeps the multiset of elements |
| Helpers.Partner | src/utils/helpers.js:4 | the drawn partner j of index i lies in 0..i |
| Helpers.Passes | src/utils/helpers.js:3-6 | the passes for i down to 1 keep the length |
| Helpers.Shuffled | src/utils/helpers.js:2-8 | the shuffle result has the input's length |
| Helpers.PassesPermute | src/utils/helpers.js:3-6 | the passes keep the length and the multiset (induction over the passes) |
| Helpers.PassesKeepSuffix | src/utils/helpers.js:3-6 | after the pass at i, later passes never touch indices above i |
| Helpers.ShuffledPermutes | src/utils/helpers.js:2-8 | the shuffle is a permutation: same length, same multiset |
| Helpers.ShortUnchanged | src/utils/helpers.js:3 | arrays of length 0 or 1 are left as they are |
| Helpers.ShuffleArray | src/utils/helpers.js:2-8 | the in-place loop leaves exactly `Shuffled(old contents)` in the array, a permutation of the input |
| Helpers.FindEmptyTile | src/utils/helpers.js:11-33 | with a floor tile, the result is the centre of some floor tile; with none, it is the centre of the stage |
| Helpers.DistinctCountsOnce | src/utils/helpers.js:2-8 | in a list without repeats every element counts at most once |
| Helpers.RepeatCountsTwice | src/utils/helpers.js:2-8 | an element at two positions counts at least twice |
| Helpers.PermutationKeepsDistinct | src/utils/helpers.js:2-8 | a rearrangement of a list without repeats has none |
| Helpers.ShuffledKeepsDistinct | src/utils/helpers.js:2-8 | shuffling never duplicates a candidate |
| StageGenerator.Stage.constructor | src/world/StageGenerator.js:120-125 | a new stage has its id, a 20 x 20 tile grid, no exits and no connections |
| StageGenerator.NewSolidStage | src/world/StageGenerator.js:118-133 | every tile of the new stage is solid; exits and connections are empty |
| StageGenerator.ClearRoom | src/world/StageGenerator.js:10-16 | every on-map tile of the room rectangle becomes empty; every other tile keeps its value |
| StageGenerator.ClearCorridor | src/world/StageGenerator.js:37-54 | the row from the room's column to the middle column, then the middle column to the middle row, become empty; nothing else changes |
| StageGenerator.SolidBorder | src/world/StageGenerator.js:57-64 | the outermost ring becomes solid; nothing else changes |
| StageGenerator.GenerateEmptyAreas | src/world/StageGenerator.js:3-65 | border tiles are solid; inside, a tile is empty exactly when the central room, an extra room or a corridor covers it, and otherwise keeps its value |
| StageGenerator.CandidatesAsWritten | src/world/StageGenerator.js:70-104 | the scans as written list only edge candidates or wall-adjacent empty tiles, include every edge candidate, and list an empty inner corner twice |
| StageGenerator.NearWallsAsWritten | src/world/StageGenerator.js:90-104 | the fallback scan as written appends only empty tiles next to a solid one, keeps the edge scans' list as its prefix and stays within the scan bound |
| StageGenerator.ExitCandidates | src/world/StageGenerator.js:70-104 | the scans list exactly the stage exit candidates, each once |
| StageGenerator.EdgeColumns | src/world/StageGenerator.js:73-79 | the first edge scan, each tile once, lists exactly the empty tiles of columns 1 and W-2 |
| StageGenerator.EdgeRows | src/world/StageGenerator.js:81-87 | the second edge scan, each tile once, brings the list to exactly the edge candidates |
| StageGenerator.NearWalls | src/world/StageGenerator.js:90-104 | the fallback scan, each tile once, adds exactly the empty tiles next to a solid one, within the scan bound |
| StageGenerator.NearWallsRow | src/world/StageGenerator.js:92-102 | one row of the fallback scan adds exactly that row's empty tiles next to a solid one |
| StageGenerator.SolidToEmptyStep | src/world/StageGenerator.js:89-104 | along a row, a solid tile left of an empty one implies an empty tile whose left neighbour is solid |
| StageGenerator.CandidateExists | src/world/StageGenerator.js:89-104 | with a solid border and an empty middle tile there is always an exit candidate |
| StageGenerator.SnapshotCandidates | src/world/StageGenerator.js:70-104 | a tile is an exit candidate of the stage exactly when it is one of a copy of the stage's tiles, so the candidates can be stated about the layout before the exits are marked |
| StageGenerator.StageExitCount | src/world/StageGenerator.js:108 | one or two exits are asked for |
| StageGenerator.PickStageExits | src/world/StageGenerator.js:70-110 | the candidate list holds exactly the exit candidates, once each; the chosen exits are exactly its first `min(numExits, candidates.length)` entries once shuffled: one or two distinct candidates, at least one whenever a candidate exists |
| StageGenerator.AddExits | src/world/StageGenerator.js:68-115 | the exits are the first `min(numExits, candidates.length)` shuffled candidates of the stage as it was; they lie strictly inside the border, are marked as exits and appended to `exits` in order; no other tile changes |
| StageGenerator.MarkExits | src/world/StageGenerator.js:110-114 | each chosen cell, in order, is marked as an exit and appended to `exits`; no other tile changes |
| StageGenerator.LaidOutStage | src/world/StageGenerator.js:118-136 | before the exits, every tile is empty or solid, the border is solid and the central room is empty |
| StageGenerator.CreateStage | src/world/StageGenerator.js:118-142 | the laid-out stage (before its exits) is empty or solid, solid on the border and empty in the central room; the candidate list holds exactly that layout's exit candidates, once each; the exits are its first `min(numExits, candidates.length)` entries once shuffled, one or two distinct interior cells; the final tiles are the layout with exactly those cells marked as exits; there are no connections |
| LevelGenerator.Level.constructor | src/world/EntityLevelGenerator.js:19-34 | a new level has its id, a 20 x 20 grid, no exits, no connections and empty entity lists |
| LevelGenerator.NewWallLevel | src/world/EntityLevelGenerator.js:19-42 | after initialisation every cell is a wall and exits, connections and entity lists are empty |
| LevelGenerator.CreateRoom | src/world/EntityLevelGenerator.js:95-121 | a cell changes only from wall to floor, only inside the rectangle and the grid; every in-grid rectangle cell is then non-wall; each new floor gets a floor entity appended |
| LevelGenerator.CreateCorridor | src/world/EntityLevelGenerator.js:132-178 | only wall cells on row y1 between x1 and x2 and on column x2 between y1 and y2 become floor; all of those cells are then non-wall; floor entities are appended |
| LevelGenerator.GenerateRoomsAndCorridors | src/world/EntityLevelGenerator.js:60-84 | a cell becomes floor exactly when it was a wall and the central room, a drawn room or its corridor covers it; all of those are non-wall afterwards |
| LevelGenerator.FirstWithIndex | src/world/EntityLevelGenerator.js:251-252 | `findIndex` gives the first record with the exit index, or -1 exactly when there is none |
| LevelGenerator.WithoutExitRemovesIt | src/world/EntityLevelGenerator.js:251-255 | with unique indices, the splice removes the record of that index, keeps the others and keeps indices unique |
| LevelGenerator.WithoutExitThenPush | src/world/EntityLevelGenerator.js:251-255 | replacing the record of an exit index by a new record keeps indices unique |
| LevelGenerator.FloorsOff | src/world/EntityLevelGenerator.js:258-283 | the floor entities kept are exactly those not on the exit cell |
| LevelGenerator.CreateExitAtPosition | src/world/EntityLevelGenerator.js:249-333 | the cell becomes an exit and no other cell changes; an earlier record of the index is removed; the floor under it is dropped; a record and an entity are appended only when the row exists and the prefab yields an entity; unique indices are kept |
| LevelGenerator.SpliceExit | src/world/EntityLevelGenerator.js:251-255 | the record with that exit index, if any, is removed from the exit list |
| LevelGenerator.DropFloor | src/world/EntityLevelGenerator.js:258-285 | on an open cell the floors at that tile are dropped; otherwise the floor list is unchanged |
| LevelGenerator.ExitCandidates | src/world/EntityLevelGenerator.js:202-218 | the candidates are exactly the interior floor cells with a wall among their four neighbours, in row-major order |
| LevelGenerator.ExitCount | src/world/EntityLevelGenerator.js:230 | the exit count is 1..3 |
| LevelGenerator.PickExits | src/world/EntityLevelGenerator.js:200-233 | the pool is exactly the floor cells next to a wall, in row-major order, or the middle cell when there are none; the selection is the first min(count, pool size) entries of the shuffled pool, 1..3 distinct cells |
| LevelGenerator.ExitIndices | src/world/EntityLevelGenerator.js:320-330 | one exit entity per record, carrying its index, in order |
| LevelGenerator.ExitIndicesAppend | src/world/EntityLevelGenerator.js:320-330 | pushing a record pushes its entity |
| LevelGenerator.NumberedExits | src/world/EntityLevelGenerator.js:236-238 | the i-th chosen cell gets exit index i, so indices are unique |
| LevelGenerator.NumberedExitsStep | src/world/EntityLevelGenerator.js:236-238 | placing the next cell with the next index removes no record and extends the numbered records by one |
| LevelGenerator.PlaceTargetExits | src/world/EntityLevelGenerator.js:188-197 | exactly the target cells become exits; on a level without records, unique targets on existing rows become its records; unique indices are kept |
| LevelGenerator.PlaceTarget | src/world/EntityLevelGenerator.js:191-194 | one target cell becomes an exit and no other cell changes; tracked records grow by that target |
| LevelGenerator.PlaceNumbered | src/world/EntityLevelGenerator.js:236-238 | exactly the selected cells become exits; on a level without records they become records 0, 1, 2, ... with one exit entity each |
| LevelGenerator.PlaceNext | src/world/EntityLevelGenerator.js:236-238 | the next selected cell becomes exit i; the numbered records and exit entities grow by one |
| LevelGenerator.PlaceRandomExits | src/world/EntityLevelGenerator.js:200-238 | the pool is exactly the floor cells next to a wall of the grid as it was, in row-major order, or the middle cell when there are none; the exits are the first min(count, pool size) entries of the shuffled pool, 1..3 distinct interior cells, numbered 0, 1, 2, ... in that order and marked as exits |
| LevelGenerator.AddExits | src/world/EntityLevelGenerator.js:186-239 | with targets, exactly the target cells become exits; without targets, the exits are the first min(count, pool size) entries of the shuffled row-major pool of wall-adjacent floor cells (or the middle cell), numbered in shuffled order; unique indices are kept either way |
| LevelGenerator.CreateLevel | src/world/EntityLevelGenerator.js:15-53 | the carved grid (before the exits) is floor or wall with an open central room; the pool is exactly its wall-adjacent floor cells in row-major order, or the middle cell; with an exit prefab the exits are the first min(count, pool size) shuffled pool entries, numbered 0, 1, 2, ..., and the final grid is the carved one with exactly those cells marked as exits; the level has no connections |
| LevelGenerator.WallQualifies | src/world/EntityLevelGenerator.js:350-368 | the neighbour scan answers whether one of the eight neighbours is off the map or open |
| LevelGenerator.PlaceWalls | src/world/EntityLevelGenerator.js:340-386 | the grid is not changed; wall entities are appended for exactly the wall cells with an open or off-map neighbour, in row-major order |
| LevelGenerator.WallRow | src/world/EntityLevelGenerator.js:342-382 | one row's wall entities are exactly that row's wall cells with an open or off-map neighbour, left to right |
| LevelManagement.PlaceFloors | src/world/EntityLevelManager.js:113-132 | floor entities are appended for exactly the floor cells, in row-major order; the grid is only read |
| LevelManagement.RestoreExits | src/world/EntityLevelManager.js:148-188 | the exit entities are rebuilt one per record, in order, and every recorded cell is re-marked as an exit |
| LevelManagement.LevelManager.constructor | src/world/EntityLevelManager.js:15-22 | a new manager has no current level |
| LevelManagement.LevelManager.GetLevel | src/world/EntityLevelManager.js:40-59 | a cached id returns the stored level and changes nothing; a miss makes one new level and stores it under its id |
| LevelManagement.LevelManager.ClearCurrentLevel | src/world/EntityLevelManager.js:209-228 | the current level's floor, wall and exit entity lists become empty; its exit records and connections stay |
| LevelManagement.LevelManager.DestroyEntity | src/world/EntityLevelManager.js:77-80 | destroying an entity removes it from the registry and the game state, and keeps players tracked |
| LevelManagement.LevelManager.DestroyAllBut | src/world/EntityLevelManager.js:73-80 | exactly the player survives in the registry; the game state loses exactly the destroyed entities |
| LevelManagement.LevelManager.GenerateLevelContent | src/world/EntityLevelManager.js:109-204 | wall entities are placed by the wall rule; exit entities are one per record and every record's cell is an exit; existing records are kept and new exits are made only when there are none |
| LevelManagement.LevelManager.SetupLevel | src/world/EntityLevelManager.js:66-103 | only the player survives; the level is fetched (made on first use) and becomes current; `currentLevelId` is the level's id; a stored level keeps its exits and connections; every other stored level keeps its exits, connections and grid cells, and its entity lists unless it was the previous current level, whose lists are cleared |
| LevelManagement.LevelManager.LeaveLevel | src/world/EntityLevelManager.js:68-80 | only the player survives; the current level's entity lists are emptied; the level table, every other level's contents and every grid stay as they were |
| LevelManagement.LevelManager.EnterStored | src/world/EntityLevelManager.js:82-100 | the level is fetched (made on first use), gets its content and becomes current; every other stored level keeps its contents and grid cells; the entity tables are untouched |
| LevelManagement.LevelManager.EnterLevel | src/world/EntityLevelManager.js:95-100 | after content generation the level is current and its id is the current level id |
| LevelManagement.LevelManager.FetchLevels | src/world/EntityLevelManager.js:238-239 | both levels are fetched with get-or-create semantics; a level made here has no connections |
| LevelManagement.LevelManager.StoreLevels | src/world/EntityLevelManager.js:280-283 | storing both levels again leaves the table unchanged |
| LevelManagement.LevelManager.ConnectLevels | src/world/EntityLevelManager.js:237-284 | with both exit indices present, each exit's connection is set to the other; if either is missing no connection changes; no other level's connections change |
| LevelManagement.LinkExits | src/world/EntityLevelManager.js:253-275 | links exactly when both records exist; writes the two connections, the second winning on the same exit; otherwise changes nothing |
| StageManagement.ExitIndexAt | src/world/Stage.js:65 | the first exit entry at the position, or -1 exactly when there is none |
| StageManagement.ExitIndexOfDistinct | src/world/Stage.js:65 | with distinct exits, the position of exit k is answered with k |
| StageManagement.StageManager.constructor | src/game.js:5-6 | the stage table starts empty and the current stage id is `stage-1` |
| StageManagement.StageManager.GetStage | src/world/Stage.js:16-29 | a cached stage is returned and nothing changes; on a miss a new stage is stored under its id |
| StageManagement.StageManager.SetupStage | src/world/Stage.js:32-74 | the wall group is exactly the solid tiles, and the exit group exactly the exit tiles with their `findIndex` index; the stage becomes current |
| StageManagement.SortTiles | src/world/Stage.js:49-69 | a tile joins the walls iff it is solid and the exits iff it is an exit, with its index in the exit list or -1 |
| ExitManagement.StageId | src/world/ExitManager.js:18 | `'stage-' + n` |
| ExitManagement.StageIdInjective | src/world/ExitManager.js:18 | different numbers give different stage ids |
| ExitManagement.NextStageId | src/world/ExitManager.js:18 | numbering the next stage after the number of stored ids never reuses an id, and the ids stay numbered 1..n |
| ExitManagement.NextStageIdFresh | src/world/ExitManager.js:18 | the id numbered after the number of stored ids is not already stored |
| ExitManagement.Graph | src/world/ExitManager.js:12-16 | the connection graph has a node for exactly the stored stages |
| ExitManagement.WithEdge | src/world/ExitManager.js:32-40 | joining an exit to a new stage adds exactly that stage |
| ExitManagement.WithEdgeKeepsLinked | src/world/ExitManager.js:28-41 | joining an unconnected real exit to a real exit of a new stage keeps every connection two-way |
| ExitManagement.Offset | src/world/ExitManager.js:84-85 | the fallback offset is plus one tile iff the draw exceeds 0.5, and minus one tile otherwise |
| ExitManagement.SafeSpots | src/world/ExitManager.js:57-75 | the safe spots are exactly the on-map empty tiles within two tiles of the exit, other than the exit itself, each once, in row-major order |
| ExitManagement.PlacePlayer | src/world/ExitManager.js:77-88 | the player lands on a drawn safe spot's centre, or, with none, on the exit centre offset by plus or minus one tile per axis |
| ExitManagement.LinkNewStage | src/world/ExitManager.js:17-41 | a new stage is stored and set up; the exit and a drawn exit k of the new stage point at each other; no other connection changes |
| ExitManagement.OpenStage | src/world/ExitManager.js:18-25 | the new stage is created with at least one exit and no connections, stored under its id and made current |
| ExitManagement.Arrive | src/world/ExitManager.js:44-89 | the connected stage is set up and becomes current; the player moves only when the connected exit exists; an existing stage adds nothing to the graph |
| ExitManagement.EnterStage | src/world/ExitManager.js:49 | the connected stage becomes current; a stored stage is reused and the graph is unchanged |
| ExitManagement.Connect | src/world/ExitManager.js:12-45 | an existing connection is kept; a missing one links a new stage numbered after the table size; the graph stays numbered and two-way |
| ExitManagement.ExitManager.constructor | src/world/ExitManager.js:2-5 | transitions are allowed initially |
| ExitManagement.ExitManager.RestoreTransition | src/world/ExitManager.js:92-94 | the delayed reset allows transitions again |
| ExitManagement.ExitManager.HandleExit | src/world/ExitManager.js:7-95 | with the guard down nothing changes; otherwise the guard goes down; a connected exit creates nothing; an unconnected one gets a new two-way linked stage; the player moves only on arrival; the graph stays two-way |
| ExitManagement.Transition | src/world/ExitManager.js:12-89 | handleExit past its guard: connecting and arriving, with the same guarantees as handleExit for each case |
| GameStateModel.GameState.constructor | src/core/GameState.js:9-30 | empty tables, `level-1`, `stage-1` and sequence 0 |
| GameStateModel.GameState.RegisterEntity | src/core/GameState.js:50-60 | the entity is stored under its id, and also among the players iff it is a player; the sequence advances by one |
| GameStateModel.GameState.UnregisterEntity | src/core/GameState.js:66-80 | an unknown id changes nothing, not even the sequence; a known id leaves both tables and advances the sequence |
| GameStateModel.GameState.HandleLevelTransition | src/core/GameState.js:86-93 | the current level id is set and the sequence advances by one |
| GameStateModel.GameState.HandleStageTransition | src/core/GameState.js:99-105 | the current stage id is set and the sequence advances by one |
| GameStateModel.GameState.RegisterLevel | src/core/GameState.js:111-114 | the level is stored under its id, overwriting any earlier entry; a well-formed level whose grid no other stored level shares keeps the table well formed |
| EntityManagement.WithEntity | src/entities/EntityManager.js:25-28 | the entity's bucket, created when missing, maps its id to it |
| EntityManagement.WithoutEntity | src/entities/EntityManager.js:42-44 | the id leaves its type's bucket; the buckets stay |
| EntityManagement.RegisterKeepsIndex | src/entities/EntityManager.js:20-29 | registering keeps the type index exact, unless the id is re-registered under another type |
| EntityManagement.UnregisterKeepsIndex | src/entities/EntityManager.js:35-48 | unregistering keeps the type index exact |
| EntityManagement.WithinRadius | src/entities/EntityManager.js:90-94 | the radius filter never lengthens the list |
| EntityManagement.WithinRadiusMembers | src/entities/EntityManager.js:87-95 | the filter keeps exactly the entities with dx² + dy² ≤ r², boundary included |
| EntityManagement.EntityManager.constructor | src/entities/EntityManager.js:6-14 | both indices start empty |
| EntityManagement.EntityManager.Values | src/entities/EntityManager.js:90 | `Object.values` lists the registered entities in key order |
| EntityManagement.EntityManager.ValuesMembers | src/entities/EntityManager.js:90 | the listed values are exactly the registered entities |
| EntityManagement.EntityManager.RegisterEntity | src/entities/EntityManager.js:20-29 | the entity is stored under its id (a new id goes last) and in its type's bucket |
| EntityManagement.EntityManager.UnregisterEntity | src/entities/EntityManager.js:35-48 | a registered id leaves both indices; an unknown id changes nothing |
| EntityManagement.EntityManager.GetEntitiesByType | src/entities/EntityManager.js:67-69 | an unknown type gives an empty map; with the index intact, the bucket holds exactly the registered entities of that type |
| EntityManagement.EntityManager.GetEntityById | src/entities/EntityManager.js:76-78 | exactly the registered entity, or nothing |
| EntityManagement.EntityManager.GetEntitiesInRadius | src/entities/EntityManager.js:87-95 | exactly the registered entities within the radius, boundary included, in key order |
| EntityManagement.EntityManager.Update | src/entities/EntityManager.js:54-60 | every registered entity is updated exactly once, in key order |
| EventBusModel.Stamped | src/core/EventBus.js:36-39 | the delivered data is the event data plus a `timestamp`, which wins |
| EventBusModel.SubscribeThenUnsubscribe | src/core/EventBus.js:16-27 | subscribing a new callback and then unsubscribing it restores the list |
| EventBusModel.EventBus.constructor | src/core/EventBus.js:1-8 | the listener table starts empty |
| EventBusModel.EventBus.On | src/core/EventBus.js:16-21 | the callback is appended to the event's list, which is created if absent; other events are unchanged |
| EventBusModel.EventBus.Unsubscribe | src/core/EventBus.js:24-26 | every occurrence of the callback leaves that event's list; the other callbacks stay in order; other events are untouched |
| EventBusModel.EventBus.Emit | src/core/EventBus.js:34-47 | each listener is called once, in registration order, with the stamped data; no listeners means no calls; the table is unchanged |
| ActionManagement.EmittedEvent | src/core/ActionManager.js:70-80 | success emits `action:processed`, a throw emits `action:error`, and no handler emits nothing |
| ActionManagement.ActionManager.constructor | src/core/ActionManager.js:6-16 | empty queue and handler table |
| ActionManagement.ActionManager.RegisterHandler | src/core/ActionManager.js:23-25 | the type's handler is replaced; other types are unchanged |
| ActionManagement.ActionManager.ProcessAction | src/core/ActionManager.js:67-81 | an action is unhandled exactly when no handler is registered for its type; otherwise the registered handler runs, and the outcome is a failure exactly when it throws |
| ActionManagement.ActionManager.QueueAction | src/core/ActionManager.js:31-49 | one action is appended with sequence = the old queue length; an immediate action is also processed once and stays queued |
| ActionManagement.ActionManager.ProcessActions | src/core/ActionManager.js:55-61 | the queue is emptied, and every taken action is processed in FIFO order; a throw does not stop later actions |
| EntityFactoryModel.EntityIdFor | src/entities/Entity.js:11 | `id \|\| generated`: a non-empty given id is kept, and otherwise the generated one is used |
| EntityFactoryModel.CreateEntity | src/entities/EntityFactory.js:18-20 | a given non-empty id is kept, no id gives the generated one, and the type is `'entity'` |
| EntityFactoryModel.CreateEntityAsWritten | src/entities/EntityFactory.js:1-20 | createEntity as if the import of the unexported core entity class linked: the id arrives as the type, and the id is `<id>_<now>_<n>` |
| EntityFactoryModel.AsWrittenLosesId | src/core/Entity.js:6-8 | as written, a given id never becomes the entity's id, while the intended class keeps it |
| EntityFactoryModel.EntityFactory.constructor | src/entities/EntityFactory.js:8-11 | no prefabs |
| EntityFactoryModel.EntityFactory.CreateFromPrefab | src/entities/EntityFactory.js:28-35 | nothing for an unregistered name; otherwise the registered builder's result for the config |
| EntityFactoryModel.EntityFactory.RegisterPrefab | src/entities/EntityFactory.js:42-44 | the name now builds with the new builder; every other name builds as before |
| ComponentModel.FirstMissing | src/components/Component.js:44-51 | the first required type the entity lacks, or -1 exactly when all are present |
| ComponentModel.Component.constructor | src/components/Component.js:10-15 | no entity and empty dependency and optional lists |
| ComponentModel.Component.RequireComponent | src/components/Component.js:22-25 | the type is appended to the dependencies, after which the dependency check fails whenever it is absent |
| ComponentModel.Component.OptionalComponent | src/components/Component.js:32-35 | the type is appended to the optional list, and the dependency check answers as before |
| ComponentModel.Component.AreDependenciesSatisfied | src/components/Component.js:41-52 | false without an entity; otherwise true iff every dependency is present; optional types play no part |
| ComponentModel.Component.OnAttach | src/components/Component.js:80-83 | the default attach succeeds exactly when the dependencies are satisfied |
| TransformModel.Lerp | src/components/core/TransformComponent.js:51-56 | gives previous at 0 and current at 1, and lies between them for alpha in 0..1 |
| TransformModel.LerpBetween | src/components/core/TransformComponent.js:51-56 | linear interpolation stays between its end points |
| TransformModel.ScaleFrom | src/components/core/TransformComponent.js:40-44 | `y \|\| x`: a missing or zero y repeats x |
| TransformModel.OnAttachAsWritten | src/components/core/TransformComponent.js:1-3 | as written, the transform's attach yields `undefined`, which is falsy |
| TransformModel.TransformComponent.constructor | src/components/core/TransformComponent.js:4-11 | position = previous = (x, y), rotation 0, unit scale, no update pending |
| TransformModel.TransformComponent.SetPosition | src/components/core/TransformComponent.js:18-24 | the old position becomes the previous one; the new one is stored and an update is flagged |
| TransformModel.TransformComponent.SetRotation | src/components/core/TransformComponent.js:30-33 | the rotation is stored and an update is flagged; nothing else changes |
| TransformModel.TransformComponent.SetScale | src/components/core/TransformComponent.js:40-44 | scale = `(x, y \|\| x)`, keeping the scale invariant |
| TransformModel.TransformComponent.GetInterpolatedPosition | src/components/core/TransformComponent.js:51-56 | previous at 0, current at 1, and between them on both axes |
| TransformModel.TransformComponent.GetNetworkState | src/components/core/TransformComponent.js:61-67 | position, rotation and scale only |
| TransformModel.TransformComponent.ApplyNetworkState | src/components/core/TransformComponent.js:72-84 | each present field goes through its setter and absent ones are kept; the component's own state round-trips |
| TransformModel.TransformAttachAsWrittenFails | src/components/core/TransformComponent.js:1-3 | as written the transform never attaches; with the dependency-checking base it always does |
| PhaserObjectModel.PhaserObjectComponent.constructor | src/components/PhaserObjectComponent.js:16-25 | requires a transform; visible, depth 0, skip flag clear, no game object |
| PhaserObjectModel.PhaserObjectComponent.OnAttach | src/components/PhaserObjectComponent.js:40-65 | succeeds iff the dependencies are met and creation returns an object; on success the object is tagged with the entity and carries visibility and depth; the failure paths keep or clear the object |
| PhaserObjectModel.PhaserObjectComponent.OnDetach | src/components/PhaserObjectComponent.js:70-82 | the game object is destroyed and dropped |
| PhaserObjectModel.Followed | src/components/PhaserObjectComponent.js:102-120 | the drawable following a transform: it keeps its position when the skip flag is set and takes the transform's otherwise; it always takes the rotation, and the scale only where it supports one; nothing else about it changes |
| PhaserObjectModel.PhaserObjectComponent.UpdateFromTransform | src/components/PhaserObjectComponent.js:102-120 | with a game object, the drawable becomes `Followed` from its old record and the old skip flag, and the flag is cleared; without one nothing changes |
| PhaserObjectModel.PhaserObjectComponent.Update | src/components/PhaserObjectComponent.js:88-95 | with a game object and a transform, the drawable's whole record becomes `Followed` from the transform and the skip flag is cleared; otherwise nothing changes |
| PhaserObjectModel.PhaserObjectComponent.SetVisible | src/components/PhaserObjectComponent.js:127-133 | stored whether or not there is a game object, and passed on when there is one |
| PhaserObjectModel.PhaserObjectComponent.SetDepth | src/components/PhaserObjectComponent.js:140-146 | stored whether or not there is a game object, and passed on when there is one |
| PhaserObjectModel.PhaserObjectComponent.GetNetworkState | src/components/PhaserObjectComponent.js:152-157 | visibility and depth only |
| PhaserObjectModel.PhaserObjectComponent.ApplyNetworkState | src/components/PhaserObjectComponent.js:163-170 | present fields are set and undefined ones kept; applying the own state restores visibility and depth |
| RectangleModel.RectangleComponent.constructor | src/components/RectangleComponent.js:14-20 | type `'rectangle'`, the size and colour stored, alpha defaulting to 1 |
| RectangleModel.RectangleComponent.CreateGameObject | src/components/RectangleComponent.js:26-39 | a rectangle of the stored size, colour and alpha at the transform position |
| RectangleModel.RectangleComponent.OnAttach | src/components/RectangleComponent.js:26-39 | attaches iff the dependencies are met, a transform exists and the engine creates the drawable |
| RectangleModel.RectangleComponent.GetDimensions | src/components/RectangleComponent.js:45-50 | exactly the stored width and height |
| RectangleModel.RectangleComponent.GetNetworkState | src/components/RectangleComponent.js:56-64 | the base state plus width, height, colour and alpha |
| RectangleModel.RectangleComponent.ApplyShape | src/components/RectangleComponent.js:73-87 | with a game object, present size halves, colour and alpha are stored and the drawable's size, fill colour and alpha follow them; without one nothing changes |
| RectangleModel.RectangleComponent.ApplyNetworkState | src/components/RectangleComponent.js:70-88 | visibility and depth always apply; size, colour and alpha only with a game object; a missing half of the size is kept; the drawable's whole record (visibility, depth, size, fill colour, alpha) is stated; the own state round-trips |
| CircleModel.CircleComponent.constructor | src/components/CircleComponent.js:13-18 | type `'circle'`, radius and colour stored, alpha defaulting to 1 |
| CircleModel.CircleComponent.CreateGameObject | src/components/CircleComponent.js:24-36 | a circle of the stored radius, colour and alpha at the transform position |
| CircleModel.CircleComponent.OnAttach | src/components/CircleComponent.js:24-36 | attaches iff the dependencies are met, a transform exists and the engine creates the drawable |
| CircleModel.CircleComponent.GetNetworkState | src/components/CircleComponent.js:42-49 | the base state plus radius, colour and alpha |
| CircleModel.CircleComponent.ApplyShape | src/components/CircleComponent.js:58-72 | with a game object, a present radius, colour and alpha are stored, and the drawable's fill colour and alpha follow the last two; its radius is untouched; without one nothing changes |
| CircleModel.CircleComponent.ApplyNetworkState | src/components/CircleComponent.js:55-73 | visibility and depth always apply; radius, colour and alpha only with a game object; the drawable's whole record (visibility, depth, fill colour, alpha) is stated; the own state round-trips |
| PhysicsModel.FindVisualComponent | src/components/PhysicsCapability.js:120-130 | the circle if present, else the rectangle, else nothing |
| PhysicsModel.WithDefaults | src/components/PhysicsCapability.js:33-39 | bounce 0, friction 1 and drag 0 unless overridden |
| PhysicsModel.ShapedBody | src/components/PhysicsCapability.js:137-169 | a circle collider of the radius with no offset change, or a box of the size offset by minus half of it |
| PhysicsModel.BodyCentre | src/components/PhysicsCapability.js:228-236 | the centre is the corner plus the radius (circle) or plus half the size (box) |
| PhysicsModel.PhysicsCapability.constructor | src/components/PhysicsCapability.js:22-44 | requires a transform; immovable iff static; defaulted options; zero velocity; no body |
| PhysicsModel.ResetBody | src/components/PhysicsCapability.js:175-184 | `body.reset(x, y)`: the body's centre is (x, y), it is at rest and has no pending movement; its shape and options are kept |
| PhysicsModel.PhysicsCapability.AttachedBody | src/components/PhysicsCapability.js:89-102 | the attached body is shaped, carries immovability and options, and is centred on the transform position at rest |
| PhysicsModel.PhysicsCapability.OnAttach | src/components/PhysicsCapability.js:50-114 | succeeds iff there are a transform, a visual with a drawable and an engine body; without a transform or drawable nothing changes; a failing engine leaves the drawable without a body; on success the drawable carries the attached body; `hasPhysicsBody` is set only on success |
| PhysicsModel.PhysicsCapability.SetVelocity | src/components/PhysicsCapability.js:192-202 | the velocity is always recorded, and passed to the body when there is one |
| PhysicsModel.PhysicsCapability.Update | src/components/PhysicsCapability.js:209-245 | exactly when the body is dynamic, attached, has its transform and drawable and is moving, the transform's position becomes the body's centre and the visual's skip flag is set; otherwise neither changes |
| PhysicsModel.PhysicsCapability.OnDetach | src/components/PhysicsCapability.js:250-269 | a body is dropped and `hasPhysicsBody` cleared; the drawable stays |
| PhysicsModel.PhysicsCapability.GetNetworkState | src/components/PhysicsCapability.js:275-280 | velocity and immovability only |
| PhysicsModel.PhysicsCapability.ApplyNetworkState | src/components/PhysicsCapability.js:286-290 | a present velocity goes through setVelocity, so the drawable's body takes it and nothing else about the drawable changes; immovability is not applied; the own state round-trips |
| PlayerStateMachineModel.StateFor | src/components/PlayerStateMachine.js:134-149 | standing iff no direction is held, running iff a direction and sprint are held, never dashing |
| PlayerStateMachineModel.Speed | src/components/PlayerStateMachine.js:332-342 | 200 walking, 350 running, 0 otherwise |
| PlayerStateMachineModel.KeyDirection | src/components/PlayerStateMachine.js:310-318 | x = right - left, y = down - up |
| PlayerStateMachineModel.MovementVelocity | src/components/PlayerStateMachine.js:320-349 | zero with no movement or when standing; an axis-aligned direction times the state's speed |
| PlayerStateMachineModel.AttackForInjective | src/components/PlayerStateMachine.js:205-279 | the attack performed determines the state and whether the button was primary |
| PlayerStateMachineModel.OpposedKeysMoveNowhere | src/components/PlayerStateMachine.js:134-137 | holding left and right makes the state walking or running, but the velocity is zero |
| PlayerStateMachineModel.PlayerStateMachine.constructor | src/components/PlayerStateMachine.js:12-40 | standing, no cooldown, no dash; requires keyboard and physics |
| PlayerStateMachineModel.PlayerStateMachine.ApplyDashForce | src/components/PlayerStateMachine.js:188-199 | the physics velocity becomes the dash direction times 800 |
| PlayerStateMachineModel.PlayerStateMachine.StartDash | src/components/PlayerStateMachine.js:155-183 | a no-op while standing or without a keyboard; otherwise dashing for 250 with cooldown 1000, with a zero direction defaulting to down and the dash velocity set |
| PlayerStateMachineModel.StepMovement | src/components/PlayerStateMachine.js:97-150 | one frame of the movement state: a continuing dash keeps its cooldown and runs its duration down; a new dash needs dash pressed, no cooldown and not standing, and gets the full cooldown and duration; otherwise the input picks the state; a non-negative cooldown stays non-negative |
| PlayerStateMachineModel.NoDashDuringCooldown | src/components/PlayerStateMachine.js:119-131 | no dash starts while the cooldown, after running down, is still positive |
| PlayerStateMachineModel.DashLasts | src/components/PlayerStateMachine.js:99-116 | a dash with more duration left than the frame is still a dash afterwards, with the same cooldown |
| PlayerStateMachineModel.PlayerStateMachine.UpdateMovementState | src/components/PlayerStateMachine.js:97-150 | while dashing only the duration runs down, clamped to 0, and the input then picks the state; otherwise the cooldown runs down to no less than 0, and a dash starts only with dash pressed, no cooldown and not standing; with a keyboard the state, cooldown and duration are `StepMovement` of the old ones; the dash direction is kept during a dash; the velocity changes only when a dash starts |
| PlayerStateMachineModel.PlayerStateMachine.ApplyMovement | src/components/PlayerStateMachine.js:300-350 | velocity is untouched while dashing; otherwise it is the movement velocity |
| PlayerStateMachineModel.PlayerStateMachine.Update | src/components/PlayerStateMachine.js:285-294 | nothing happens without a keyboard; with one, the state, cooldown and duration become `StepMovement` of the old ones and the velocity matches the state (movement or the new dash); a continuing dash keeps its velocity and direction; the invariant is kept |
| PlayerStateMachineModel.PlayerStateMachine.Attack | src/components/PlayerStateMachine.js:205-231 | the attack the state and button select, reported with the current state |
| EntityModel.Entity.constructor | src/entities/Entity.js:9-18 | a non-empty id is kept, otherwise the generated one is used; type `'entity'`; no components |
| EntityModel.Entity.GetComponent | src/entities/Entity.js:54-56 | the component held under the type, if any |
| EntityModel.Entity.HasComponent | src/entities/Entity.js:77-79 | true iff getComponent finds one |
| EntityModel.Entity.GetComponentOfType | src/entities/Entity.js:63-70 | the first component in insertion order of the class, or none iff no component is of it |
| EntityModel.Entity.AddComponent | src/entities/Entity.js:25-47 | a second visual is refused; a failed attach leaves the map unchanged and the entity null; success stores the component under its type, in place or at the end; per-kind success conditions |
| EntityModel.Entity.TryAttach | src/entities/Entity.js:36-43 | the component points at the entity exactly when its attach step succeeds, under the per-kind success conditions; the entity is unchanged |
| EntityModel.Entity.Hold | src/entities/Entity.js:45 | the component is stored under its type, in place or at the end of the order, and the map invariant is kept |
| EntityModel.Entity.AttachPart | src/entities/Entity.js:36-43 | each kind's attach succeeds exactly under its own conditions and keeps the entity link |
| EntityModel.Entity.DetachPart | src/entities/Entity.js:88-90 | a visual drops its drawable; physics takes the body off the visual; dropped drawables stay dropped |
| EntityModel.Entity.RemoveComponent | src/entities/Entity.js:86-93 | only that type is detached and deleted, from the map and the order; an absent type changes nothing |
| EntityModel.Entity.Destroy | src/entities/Entity.js:146-154 | every component is detached, the map is emptied and `entity:destroyed` is emitted with the id |
| EntityModel.Entity.Update | src/entities/Entity.js:99-105 | each component is updated exactly once, in insertion order |
| EntityModel.Entity.UpdatePart | src/entities/Entity.js:101-103 | per kind: a visual's drawable becomes `Followed` from the transform; physics writes a moving body's centre to the transform exactly when its update runs; the state machine's phase becomes `StepMovement`; the state machines keep their invariant |
| EntityModel.Entity.UpdateVisual | src/entities/Entity.js:101-103 | a visual's update: with a drawable and a transform the drawable becomes `Followed` from the transform and the skip flag is cleared; otherwise nothing changes |
| EntityModel.Entity.UpdatePhysics | src/entities/Entity.js:101-103 | physics' update: when it runs, the transform's position is the old body centre and the skip flag is set; otherwise both are kept |
| EntityModel.Entity.UpdateMachine | src/entities/Entity.js:101-103 | the state machine's update: with a keyboard its phase becomes `StepMovement` of the old one, without one it is kept; the invariant is kept |
| EntityModel.Entity.GetNetworkState | src/entities/Entity.js:111-126 | the id, the type, and exactly the networked components' states under their types |
| EntityModel.Entries | src/entities/Entity.js:134 | `Object.entries` yields only keys of the state, each with its own value |
| EntityModel.Applied | src/entities/Entity.js:135-138 | a component's network state after one applied state: an empty state changes nothing, immovability is never applied, a non-transform keeps position, rotation and scale, and a visual without a drawable keeps its size, colour and alpha |
| EntityModel.AppliedIdempotent | src/entities/Entity.js:135-138 | applying the same state twice is the same as applying it once |
| EntityModel.AppliedOwnState | src/entities/Entity.js:135-138 | applying a component's own state leaves it as it was |
| EntityModel.StatesFor | src/entities/Entity.js:134-138 | the states the entries give one type, in entry order: only that type's entries, none when no entry names it |
| EntityModel.ApplyAll | src/entities/Entity.js:134-138 | applying no states changes nothing; one state is one `Applied` |
| EntityModel.StatesForEntries | src/entities/Entity.js:119-134 | the entries of an entity's own state give each held type exactly its own state (induction over the key order) |
| EntityModel.AppliedStates | src/entities/Entity.js:132-141 | the component states after all entries: the same types, each with its entries applied in order; a type no entry names keeps its state |
| EntityModel.AppliedStatesSnoc | src/entities/Entity.js:134-138 | one more entry applies to its own type's state only |
| EntityModel.OwnEntriesKeep | src/entities/Entity.js:111-141 | applying an entity's own network state changes no component's state |
| EntityModel.Entity.States | src/entities/Entity.js:119-123 | the table holds exactly the networked components' states |
| EntityModel.Entity.ApplyPart | src/entities/Entity.js:135-138 | that component's state becomes `Applied` of its old state; every other component's state is unchanged; drawables are neither made nor dropped; its own state round-trips |
| EntityModel.Entity.ApplyTransform | src/entities/Entity.js:135-138 | a transform's state becomes `Applied` of its old state; no other component's state changes |
| EntityModel.Entity.ApplyRectangle | src/entities/Entity.js:135-138 | a rectangle's state becomes `Applied` of its old state; no other component's state changes |
| EntityModel.Entity.ApplyCircle | src/entities/Entity.js:135-138 | a circle's state becomes `Applied` of its old state; no other component's state changes |
| EntityModel.Entity.ApplyOwn | src/entities/Entity.js:135-138 | a transform's or visual's state becomes `Applied` of its old state; every other component's state is unchanged; its own state round-trips |
| EntityModel.Entity.ApplyPhysics | src/entities/Entity.js:135-138 | the physics state becomes `Applied` of its old state (its velocity); every other component's state is unchanged; its own state round-trips |
| EntityModel.Entity.ApplyNetworkState | src/entities/Entity.js:132-141 | the component states become `AppliedStates` of the old ones: every held networked type gets its entries applied in order and a type no entry names keeps its state; unknown types are ignored (nothing changes); the entity's own state round-trips |
| EntityModel.Entity.ApplyEntries | src/entities/Entity.js:134-139 | the loop over the entries leaves exactly `AppliedStates` of the states it started from |
| EntityModel.Entity.ApplyStep | src/entities/Entity.js:135-138 | one more entry: the table becomes `AppliedStates` of one more entry; an ignored entry changes nothing |
| EntityModel.Entity.ApplyEntry | src/entities/Entity.js:135-138 | one entry updates the table at its type to `Applied` of the old state and leaves the others; it keeps the scale invariant, and a component given its own state leaves every state as it was |

## Left out

- Drawing, the engine's static groups and collision groups, cameras, backgrounds and every `console` call. They have no state the game logic reads.
- The physics engine's step, which moves bodies. A body's `reset(x, y)` is modelled as what it leaves: the body centred on (x, y), at rest.
- `Math.random()`, `Date.now()` and `Math.sqrt(2)` are parameters. The diagonal factor of the player's movement is the input `root2`. Draws are reals in [0, 1).
- Floating point. Reals model positions and velocities, so `NaN` and rounding are not modelled. A transform scale of `NaN` (falsy in the game) is not modelled.
- Keyboard and mouse polling. The state machine receives the keyboard's input state and direction.
  - `setupMouseInput` and `handleMouseClick` (src/components/PlayerStateMachine.js:59-90) are engine input handling.
  - The per-attack `perform*` helpers (src/components/PlayerStateMachine.js:237-279) only log; the dispatch to them is modelled.
- Callbacks as code. Event bus callbacks, action handlers and prefab builders are opaque identities.
  - What a callback does when it is called is not modelled. The calls and their order are.
  - An action queued by a handler while the queue drains is not modelled.
- The global handlers set up at src/core/ActionManager.js:88-114. They call into the player entity and the engine.
- Events are passed as direct calls:
  - the `entity:created` event of the entity constructor;
  - the `level:transition` event of setupLevel;
  - the unregistering done on `entity:destroyed`.
- `getRequiredComponent` and `getOptionalComponent` (src/components/Component.js:59-75) are modelled as the entity's lookups by type.
- `getState` and `registerStage` of src/core/GameState.js (36-44, 120-122). One is a snapshot read with a clock value; the other is not used by the modelled core. The stage table is the global one kept by StageManagement.
- The legacy variants: src/core/Entity.js, src/core/Component.js, src/entities/Player.js, the render and physics component folders and the prefab builders. They appear only in the two findings below. The prefab TransformComponent.js is not part of this model.
- StageGenerator.ExitCandidates: states which cells are candidates and that each is listed once, but not the scan order. So which cells the shuffle picks is stated relative to the returned list.
- EntityModel.Entity.AddComponent: a plain component registered under `'transform'`, `'circle'`, `'rectangle'` or `'physics'` is treated as absent by the kind-specific lookups. The transform attaches with the dependency-checking base, not the as-written one (see Findings).
- EntityModel.Entity.Update: requires every held state machine to keep its invariant, which the state machine's own methods preserve. It states the order of the updates but not their combined effect on the entity. Each component's effect is stated by UpdatePart; how they compose depends on the insertion order, since physics writes the transform that a visual reads.
- EntityModel.Entity.UpdatePart: for a transform or a plain component, whose update does nothing, it does not state that nothing changes.
- EntityModel.Entity.Destroy: when the visual is detached before the physics capability, `hasPhysicsBody` stays set, as in the game. The model states only that the drawables are dropped.
- CircleModel.CircleComponent.ApplyNetworkState: the drawable's radius is not changed, since the game has no call for it.
- GameStateModel.GameState.RegisterEntity: the player table stays exact only when an id is not re-registered from player to non-player. In that case the game keeps a stale player entry.
- EntityManagement.EntityManager.RegisterEntity: the type index stays exact only when an id keeps its type. Re-registering under another type leaves a stale entry in the old bucket, as in the game.
- EntityManagement.EntityManager.GetEntitiesInRadius reads `entity.position.x` (src/entities/EntityManager.js:91). The entity class of src/entities/Entity.js has no `position` field, so the game would throw there. The model gives each registered entity a position, as the call evidently intends; it does not model the throw.
- Object key order is modelled for non-numeric keys only (insertion order).
- ExitManagement.ExitManager.HandleExit:
  - An undefined current stage, or an undefined target exit, throws in the game. Here these are the outcome `Failed`, and the guard stays down.
  - The `setTimeout` reset is the separate step `RestoreTransition`.
  - The draws of a new stage are used only when a stage is created.
- LevelManagement.RestoreExits skips a record whose row is off the grid, where the game would throw.
- LevelGenerator.PlaceRandomExits does not state how the floor entities change.
- Entities of levels are represented by the cell (floors, walls) or the exit index (exits) they stand for.

## Findings

| source | as written | input that shows it | evidently intended | confidence | as-written member | corrected member |
|---|---|---|---|---|---|---|
| src/world/StageGenerator.js:73-87 | the two edge scans both visit the four corners of the inner ring, so an empty corner is pushed twice and can be picked as both exits | a stage whose tile (1, 1) is empty | each candidate listed once, so the chosen exits are distinct | medium, not executed | StageGenerator.CandidatesAsWritten | StageGenerator.ExitCandidates |
| src/entities/EntityFactory.js:1,18-20 | the factory imports `Entity` from src/core/Entity.js, which declares the class without `export` (line 5; src/main.js:3 imports it the same way), so the module graph fails to link; that class also has no `addComponent`, so the prefabs (src/entities/prefabs/player.js:27, src/entities/prefabs/exit.js:53) would throw. Were the import to link, the constructor `(scene, type, x, y)` would take the id argument as the type, so `createEntity(id)` would make an entity of type `id` with id `<id>_<now>_<n>` | `createEntity("p")` | the entity class of src/entities/Entity.js, which keeps the id and has `addComponent` | low for the id mix-up, which only shows if the import links; not executed | EntityFactoryModel.CreateEntityAsWritten | EntityFactoryModel.CreateEntity |
| src/components/core/TransformComponent.js:1-3 | the transform extends src/core/Component.js, whose `onAttach() {}` returns `undefined`, so `addComponent` rejects every such transform | `entity.addComponent(new TransformComponent(0, 0))` | the default attach of src/components/Component.js, which succeeds for a component without dependencies | medium, not executed | TransformModel.TransformAttachAsWrittenFails | EntityModel.Entity.AddComponent |
