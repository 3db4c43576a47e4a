/** The exit manager of src/world/ExitManager.js: walking into an exit
    follows its connection, creating and linking a new stage the first time,
    and puts the player on a free tile near the exit it arrives at. Stage
    connections form a symmetric graph, which every transition keeps. */
module ExitManagement {
  import opened Common
  import StageGenerator
  import opened StageManagement

  /** The player's world position. */
  class Player {
    var x: int
    var y: int

    constructor (x: int, y: int)
      ensures this.x == x && this.y == y
    {
      this.x := x;
      this.y := y;
    }
  }

  /** The id given to the stage created when the table holds `n - 1` stages. */
  function StageId(n: nat): (id: string)
    ensures |id| > 6 && id[..6] == "stage-" && id[6..] == NatToString(n)
  {
    "stage-" + NatToString(n)
  }

  lemma StageIdInjective(a: nat, b: nat)
    requires StageId(a) == StageId(b)
    ensures a == b
  {
    assert StageId(a)[6..] == StageId(b)[6..];
    NatToStringInjective(a, b);
  }

  /** The stage ids are exactly the ones the game has numbered so far:
      every id is `stage-n` for some n up to the number of ids. */
  ghost predicate Numbered(ids: set<string>)
  {
    forall id :: id in ids ==> exists n :: 1 <= n <= |ids| && id == StageId(n)
  }

  /** Numbering the next stage by the number of ids never reuses an id, and
      the table stays numbered once the new id is added. */
  lemma NextStageId(ids: set<string>)
    requires Numbered(ids)
    ensures StageId(|ids| + 1) !in ids
    ensures Numbered(ids + {StageId(|ids| + 1)})
  {
    NextStageIdFresh(ids);
    var next := StageId(|ids| + 1);
    var ids' := ids + {next};
    AddFresh(ids, next);
    forall id | id in ids'
      ensures exists n :: 1 <= n <= |ids'| && id == StageId(n)
    {
      if id != next {
        var n :| 1 <= n <= |ids| && id == StageId(n);
        assert 1 <= n <= |ids'| && id == StageId(n);
      } else {
        assert 1 <= |ids| + 1 <= |ids'| && id == StageId(|ids| + 1);
      }
    }
  }

  lemma AddFresh(ids: set<string>, x: string)
    requires x !in ids
    ensures |ids + {x}| == |ids| + 1
  {
  }

  /** The next number has not been used: every id in use has a number up
      to the count of ids. */
  lemma NextStageIdFresh(ids: set<string>)
    requires Numbered(ids)
    ensures StageId(|ids| + 1) !in ids
  {
    var next := StageId(|ids| + 1);
    if next in ids {
      var n :| 1 <= n <= |ids| && next == StageId(n);
      StageIdInjective(n, |ids| + 1);
    }
  }

  /** A stage as the connection graph sees it: how many exits it has and
      where each connected exit leads. */
  datatype Node = Node(exitCount: nat, connections: map<int, StageGenerator.StageConnection>)

  /** The connection graph of the stage table. */
  ghost function Graph(m: StageManager): (g: map<string, Node>)
    reads m, m.stages.Values
    ensures g.Keys == m.stages.Keys
  {
    map id | id in m.stages :: Node(|m.stages[id].exits|, m.stages[id].exitConnections)
  }

  /** Every connection leads to a stored stage and one of its exits, and
      that exit's connection leads straight back. */
  ghost predicate LinkedGraph(g: map<string, Node>)
  {
    forall id, i :: id in g && i in g[id].connections ==>
      var c := g[id].connections[i];
      c.stageId in g && 0 <= c.exitIndex < g[c.stageId].exitCount &&
      c.exitIndex in g[c.stageId].connections &&
      g[c.stageId].connections[c.exitIndex] == StageGenerator.StageConnection(id, i)
  }

  ghost predicate Linked(m: StageManager)
    reads m, m.stages.Values
  {
    LinkedGraph(Graph(m))
  }

  /** The graph after exit `e` of stage `cur` is joined to exit `k` of a new
      stage `newId` with `n` exits. */
  function WithEdge(g: map<string, Node>, cur: string, e: int, newId: string, n: nat, k: int): (h: map<string, Node>)
    requires cur in g
    ensures h.Keys == g.Keys + {newId}
  {
    g[cur := g[cur].(connections := g[cur].connections[e := StageGenerator.StageConnection(newId, k)])]
     [newId := Node(n, map[k := StageGenerator.StageConnection(cur, e)])]
  }

  /** Joining an unconnected real exit to a real exit of a new stage keeps
      every connection two-way. */
  lemma WithEdgeKeepsLinked(g: map<string, Node>, cur: string, e: int, newId: string, n: nat, k: int)
    requires LinkedGraph(g) && cur in g && newId !in g
    requires 0 <= e < g[cur].exitCount && e !in g[cur].connections && 0 <= k < n
    ensures LinkedGraph(WithEdge(g, cur, e, newId, n, k))
  {
    var h := WithEdge(g, cur, e, newId, n, k);
    forall id, i | id in h && i in h[id].connections
      ensures var c := h[id].connections[i];
        c.stageId in h && 0 <= c.exitIndex < h[c.stageId].exitCount &&
        c.exitIndex in h[c.stageId].connections &&
        h[c.stageId].connections[c.exitIndex] == StageGenerator.StageConnection(id, i)
    {
      if id == newId {
      } else if id == cur && i == e {
      } else {
        var c := g[id].connections[i];
        assert h[id].connections[i] == c;
        assert c.stageId != newId;
        if c.stageId == cur {
          assert c.exitIndex != e;
        }
      }
    }
  }

  /** A tile the player may be put on when arriving at exit `e`: on the
      stage, empty, not the exit itself, within two tiles on both axes. */
  predicate SafeSpot(tiles: array2<int>, e: Cell, c: Cell)
    reads tiles
    requires tiles.Length0 == StageHeight && tiles.Length1 == StageWidth
  {
    OnMap(c.x, c.y) && c != e && -2 <= c.x - e.x <= 2 && -2 <= c.y - e.y <= 2 &&
    tiles[c.y, c.x] == FloorCode
  }

  /** `(Math.random() > 0.5 ? 1 : -1) * TILE_SIZE`. */
  function Offset(r: real): (o: int)
    ensures o == TileSize || o == -TileSize
    ensures o > 0 <==> r > 0.5
  {
    if r > 0.5 then TileSize else -TileSize
  }

  /** Where the player lands at exit `e`: the centre of a safe spot when
      there is one, otherwise the exit's centre moved one tile on each axis. */
  ghost predicate Landing(tiles: array2<int>, e: Cell, rx: real, ry: real, p: Pixel)
    reads tiles
    requires tiles.Length0 == StageHeight && tiles.Length1 == StageWidth
  {
    if exists c :: SafeSpot(tiles, e, c) then exists c :: SafeSpot(tiles, e, c) && p == CellCentre(c)
    else p == Pixel(TileCentre(e.x) + Offset(rx), TileCentre(e.y) + Offset(ry))
  }

  /** The safe-spot search: the centres of the safe spots around `e`, each
      once, in row-major order. */
  method SafeSpots(tiles: array2<int>, e: Cell) returns (spots: seq<Pixel>, ghost cells: seq<Cell>)
    requires tiles.Length0 == StageHeight && tiles.Length1 == StageWidth
    ensures |spots| == |cells| && forall k :: 0 <= k < |cells| ==> spots[k] == CellCentre(cells[k])
    ensures forall c :: c in cells <==> SafeSpot(tiles, e, c)
    ensures RowMajor(cells)
    ensures forall k :: 0 <= k < |spots| ==> exists c :: SafeSpot(tiles, e, c) && spots[k] == CellCentre(c)
    ensures |spots| > 0 <==> exists c :: SafeSpot(tiles, e, c)
  {
    spots, cells := [], [];
    var dy := -2;
    while dy <= 2
      invariant -2 <= dy <= 3
      invariant |spots| == |cells| && forall k :: 0 <= k < |cells| ==> spots[k] == CellCentre(cells[k])
      invariant forall c :: c in cells <==> SafeSpot(tiles, e, c) && c.y < e.y + dy
      invariant RowMajor(cells) && forall k :: 0 <= k < |cells| ==> cells[k].y < e.y + dy
    {
      var ny := e.y + dy;
      var dx := -2;
      while dx <= 2
        invariant -2 <= dx <= 3
        invariant |spots| == |cells| && forall k :: 0 <= k < |cells| ==> spots[k] == CellCentre(cells[k])
        invariant forall c :: c in cells <==> SafeSpot(tiles, e, c) && Before(c, Cell(e.x + dx, ny))
        invariant RowMajor(cells) && forall k :: 0 <= k < |cells| ==> Before(cells[k], Cell(e.x + dx, ny))
      {
        if dx == 0 && dy == 0 {
          dx := dx + 1;
          continue;
        }
        var nx := e.x + dx;
        if 0 <= nx < StageWidth && 0 <= ny < StageHeight && tiles[ny, nx] == FloorCode {
          spots := spots + [Pixel(TileCentre(nx), TileCentre(ny))];
          cells := cells + [Cell(nx, ny)];
        }
        dx := dx + 1;
      }
      dy := dy + 1;
    }
    forall k | 0 <= k < |spots|
      ensures exists c :: SafeSpot(tiles, e, c) && spots[k] == CellCentre(c)
    {
      assert cells[k] in cells;
    }
    if |spots| > 0 {
      assert cells[0] in cells;
    }
  }

  /** The placement step: a drawn safe spot, or the fallback offset. */
  method PlacePlayer(player: Player, tiles: array2<int>, e: Cell, rSpot: real, rx: real, ry: real)
    requires tiles.Length0 == StageHeight && tiles.Length1 == StageWidth
    requires IsRandom(rSpot)
    modifies player
    ensures Landing(tiles, e, rx, ry, Pixel(player.x, player.y))
  {
    var spots, cells := SafeSpots(tiles, e);
    if |spots| > 0 {
      var k := RandomIndex(rSpot, |spots|);
      player.x, player.y := spots[k].x, spots[k].y;
      assert SafeSpot(tiles, e, cells[k]);
    } else {
      player.x := TileCentre(e.x) + Offset(rx);
      player.y := TileCentre(e.y) + Offset(ry);
      assert |cells| == 0;
      assert !exists c :: SafeSpot(tiles, e, c);
    }
  }

  /** The draws one transition may use: those of a new stage, the exit it
      is linked at, the safe spot, and the two fallback offsets. */
  datatype ExitDraws = ExitDraws(stage: StageGenerator.StageDraws, link: real, spot: real, offsetX: real, offsetY: real)

  predicate ExitDrawsOk(d: ExitDraws)
  {
    StageGenerator.StageDrawsOk(d.stage) && IsRandom(d.link) && IsRandom(d.spot)
  }

  /** The lazy creation step for an unconnected exit `exitIndex` of `stage`:
      a new stage is stored under `newId` and set up, and the two exits are
      joined by a connection in each direction; no other connection changes. */
  method LinkNewStage(m: StageManager, stage: StageGenerator.Stage, exitIndex: int, newId: string,
                      d: StageGenerator.StageDraws, r: real)
    returns (newStage: StageGenerator.Stage, k: nat)
    requires m.Valid() && StageGenerator.StageDrawsOk(d) && IsRandom(r)
    requires stage.id in m.stages && m.stages[stage.id] == stage
    modifies m, stage
    ensures m.Valid() && fresh(newStage) && m.stages == old(m.stages)[newId := newStage]
    ensures m.currentStageId == newId && m.currentStage == newStage
    ensures newStage.id == newId && 1 <= |newStage.exits| && k < |newStage.exits|
    ensures k == RandomIndex(r, |newStage.exits|)
    ensures stage.exitConnections == old(stage.exitConnections)[exitIndex := StageGenerator.StageConnection(newId, k)]
    ensures newStage.exitConnections == map[k := StageGenerator.StageConnection(stage.id, exitIndex)]
    ensures stage.exits == old(stage.exits)
    ensures Graph(m) == WithEdge(old(Graph(m)), stage.id, exitIndex, newId, |newStage.exits|, k)
  {
    ghost var g0 := Graph(m);
    newStage := OpenStage(m, newId, d);
    k := 0;
    if |newStage.exits| > 0 {
      k := RandomIndex(r, |newStage.exits|);
      stage.exitConnections := stage.exitConnections[exitIndex := StageGenerator.StageConnection(newStage.id, k)];
      newStage.exitConnections := newStage.exitConnections[k := StageGenerator.StageConnection(stage.id, exitIndex)];
    }
    ghost var h := WithEdge(g0, stage.id, exitIndex, newId, |newStage.exits|, k);
    forall id | id in m.stages
      ensures Graph(m)[id] == h[id]
    {
      if id != newId && id != stage.id {
        assert m.stages[id] == old(m.stages[id]) && m.stages[id].id == id;
      }
    }
  }

  /** The first half of linking a new stage: it is created, stored under
      its id and set up as the current stage, with no connections yet. */
  method OpenStage(m: StageManager, newId: string, d: StageGenerator.StageDraws)
    returns (newStage: StageGenerator.Stage)
    requires m.Valid() && StageGenerator.StageDrawsOk(d)
    modifies m
    ensures m.Valid() && fresh(newStage) && m.stages == old(m.stages)[newId := newStage]
    ensures m.currentStageId == newId && m.currentStage == newStage
    ensures newStage.id == newId && 1 <= |newStage.exits| && newStage.exitConnections == map[]
  {
    ghost var laid, cands;
    newStage, laid, cands := StageGenerator.CreateStage(newId, d);
    m.stages := m.stages[newId := newStage];
    var _ := m.SetupStage(newId, d);
  }

  /** setupStage as the arrival step sees it: the stage is fetched, or
      created and stored when missing, and becomes current. */
  method EnterStage(m: StageManager, stageId: string, d: StageGenerator.StageDraws)
    returns (stage: StageGenerator.Stage)
    requires m.Valid() && StageGenerator.StageDrawsOk(d)
    modifies m
    ensures m.Valid() && stageId in m.stages && stage == m.stages[stageId]
    ensures stageId in old(m.stages) ==> m.stages == old(m.stages) && Graph(m) == old(Graph(m))
    ensures m.currentStageId == stageId
  {
    ghost var g0 := Graph(m);
    stage := m.SetupStage(stageId, d);
    if stageId in old(m.stages) {
      assert Graph(m).Keys == g0.Keys;
      forall id | id in m.stages
        ensures Graph(m)[id] == g0[id]
      {
      }
    }
  }

  /** The arrival step: the connected stage is set up and becomes current,
      and the player is put next to the connected exit, if that exit exists. */
  method Arrive(m: StageManager, player: Player, connection: StageGenerator.StageConnection, d: ExitDraws)
    returns (outcome: ExitOutcome)
    requires m.Valid() && ExitDrawsOk(d)
    modifies m, player
    ensures m.Valid() && connection.stageId in m.stages && m.currentStageId == connection.stageId
    ensures connection.stageId in old(m.stages) ==> m.stages == old(m.stages) && Graph(m) == old(Graph(m))
    ensures outcome == Failed || outcome == Arrived(connection.stageId, connection.exitIndex)
    ensures outcome.Arrived? <==> 0 <= connection.exitIndex < |m.stages[connection.stageId].exits|
    ensures outcome.Arrived? ==>
      var target := m.stages[connection.stageId];
      Landing(target.tiles, target.exits[connection.exitIndex], d.offsetX, d.offsetY, Pixel(player.x, player.y))
    ensures !outcome.Arrived? ==> unchanged(player)
  {
    var target := EnterStage(m, connection.stageId, d.stage);
    if !(0 <= connection.exitIndex < |target.exits|) {
      return Failed;
    }
    label entered:
    PlacePlayer(player, target.tiles, target.exits[connection.exitIndex], d.spot, d.offsetX, d.offsetY);
    assert unchanged@entered(m, m.stages.Values);
    outcome := Arrived(connection.stageId, connection.exitIndex);
  }

  /** The connection step of handleExit for exit `exitIndex` of the current
      stage `stage`: an existing connection is kept as it is; a missing one
      is made by linking a new stage, numbered after the number of stages. */
  method Connect(m: StageManager, stage: StageGenerator.Stage, exitIndex: int,
                 d: StageGenerator.StageDraws, r: real)
    returns (connection: StageGenerator.StageConnection)
    requires m.Valid() && StageGenerator.StageDrawsOk(d) && IsRandom(r)
    requires stage.id in m.stages && m.stages[stage.id] == stage
    modifies m, stage
    ensures m.Valid()
    ensures exitIndex in stage.exitConnections && connection == stage.exitConnections[exitIndex]
    ensures exitIndex in old(stage.exitConnections) ==>
      unchanged(m) && unchanged(stage) && Graph(m) == old(Graph(m))
    ensures exitIndex !in old(stage.exitConnections) ==>
      var newId := StageId(old(|m.stages.Keys|) + 1);
      newId in m.stages && fresh(m.stages[newId]) &&
      m.stages == old(m.stages)[newId := m.stages[newId]] &&
      var n := |m.stages[newId].exits|;
      n >= 1 && connection == StageGenerator.StageConnection(newId, RandomIndex(r, n)) &&
      Graph(m) == WithEdge(old(Graph(m)), stage.id, exitIndex, newId, n, RandomIndex(r, n))
    // From a numbered, linked table and a real exit: the table stays
    // numbered and linked, and the connection leads to a real exit.
    ensures old(0 <= exitIndex < |stage.exits| && Numbered(m.stages.Keys) && Linked(m)) ==>
      Numbered(m.stages.Keys) && Linked(m) &&
      connection.stageId in m.stages && 0 <= connection.exitIndex < |m.stages[connection.stageId].exits|
  {
    ghost var wellFormed := 0 <= exitIndex < |stage.exits| && Numbered(m.stages.Keys) && Linked(m);
    ghost var g0 := Graph(m);
    assert g0[stage.id].connections == stage.exitConnections;
    if exitIndex in stage.exitConnections {
      connection := stage.exitConnections[exitIndex];
      if wellFormed {
        assert g0[connection.stageId].exitCount == |m.stages[connection.stageId].exits|;
      }
      return;
    }
    ghost var ids := m.stages.Keys;
    var newId := StageId(|m.stages.Keys| + 1);
    if wellFormed {
      NextStageId(ids);
    }
    var newStage, k := LinkNewStage(m, stage, exitIndex, newId, d, r);
    connection := stage.exitConnections[exitIndex];
    if wellFormed {
      WithEdgeKeepsLinked(g0, stage.id, exitIndex, newId, |newStage.exits|, k);
      assert m.stages.Keys == ids + {StageId(|ids| + 1)};
      ghost var g1 := Graph(m);
      assert g1[stage.id].connections[exitIndex] == connection;
      assert g1[newId].exitCount == |newStage.exits|;
    }
  }

  /** handleExit once the guard is down: an unconnected exit of the
      current stage gets a new stage, numbered after the number of stages
      and linked both ways; the player then moves to the connected stage,
      next to the connected exit. A current stage or a target exit that does
      not exist ends the call as a failure. */
  method Transition(m: StageManager, player: Player, exitIndex: int, d: ExitDraws) returns (outcome: ExitOutcome)
    requires m.Valid() && ExitDrawsOk(d)
    modifies player, m, m.stages.Values
    ensures outcome != Blocked
    ensures !outcome.Arrived? ==> unchanged(player)
    ensures m.Valid()
    // A connected exit leading to a stored stage: nothing new is created
    // or linked.
    ensures old(m.currentStageId) in old(m.stages) &&
            exitIndex in old(Graph(m)[m.currentStageId].connections) &&
            old(Graph(m)[m.currentStageId].connections[exitIndex].stageId) in old(m.stages) ==>
      m.stages == old(m.stages) && Graph(m) == old(Graph(m))
    // An unconnected exit: a new stage, linked both ways.
    ensures old(m.currentStageId) in old(m.stages) &&
            exitIndex !in old(Graph(m)[m.currentStageId].connections) ==>
      var newId := StageId(old(|m.stages.Keys|) + 1);
      newId in m.stages && fresh(m.stages[newId]) &&
      m.stages == old(m.stages)[newId := m.stages[newId]] &&
      var n := |m.stages[newId].exits|;
      n >= 1 &&
      Graph(m) == WithEdge(old(Graph(m)), old(m.currentStageId), exitIndex, newId, n, RandomIndex(d.link, n))
    // Arrival: the connected stage is current and the player is next to
    // the connected exit.
    ensures outcome.Arrived? ==>
      old(m.currentStageId) in old(m.stages) &&
      var stage := old(m.stages[m.currentStageId]);
      exitIndex in stage.exitConnections &&
      stage.exitConnections[exitIndex] == StageGenerator.StageConnection(outcome.stageId, outcome.exitIndex) &&
      m.currentStageId == outcome.stageId && outcome.stageId in m.stages &&
      var target := m.stages[outcome.stageId];
      0 <= outcome.exitIndex < |target.exits| &&
      Landing(target.tiles, target.exits[outcome.exitIndex], d.offsetX, d.offsetY, Pixel(player.x, player.y))
    // A numbered, linked table and a real exit of the current stage: the
    // transition arrives and the table stays numbered and linked.
    ensures old(m.currentStageId in m.stages &&
                0 <= exitIndex < |m.stages[m.currentStageId].exits| &&
                Numbered(m.stages.Keys) && Linked(m)) ==>
      outcome.Arrived? && Numbered(m.stages.Keys) && Linked(m)
  {
    if m.currentStageId !in m.stages {
      return Failed;
    }
    var stage := m.stages[m.currentStageId];
    ghost var g0 := Graph(m);
    assert g0 == old(Graph(m)) && stage.id == m.currentStageId;
    var connection := Connect(m, stage, exitIndex, d.stage, d.link);
    ghost var s1 := m.stages;
    ghost var g1 := Graph(m);
    outcome := Arrive(m, player, connection, d);
    if connection.stageId in s1 {
      assert Graph(m) == g1 && m.stages == s1;
    }
  }

  /** What a call of handleExit did. */
  datatype ExitOutcome =
    | Blocked                                   // the transition guard was down
    | Failed                                    // a lookup came back undefined
    | Arrived(stageId: string, exitIndex: int)  // the player was moved to this stage's exit

  class ExitManager {
    var canTransition: bool
    /** The scene's stage manager, which also holds the global stage table. */
    const manager: StageManager

    constructor (manager: StageManager)
      ensures canTransition && this.manager == manager
    {
      canTransition := true;
      this.manager := manager;
    }

    /** The delayed reset of the guard that handleExit schedules. */
    method RestoreTransition()
      modifies this
      ensures canTransition
    {
      canTransition := true;
    }

    /** handleExit: with the guard down nothing happens. Otherwise the guard
        goes down; an unconnected exit of the current stage gets a new stage,
        numbered after the number of stages and linked both ways; the player
        then moves to the connected stage, next to the connected exit. */
    method HandleExit(player: Player, exitIndex: int, d: ExitDraws) returns (outcome: ExitOutcome)
      requires manager.Valid() && ExitDrawsOk(d)
      modifies this, player, manager, manager.stages.Values
      // The guard.
      ensures !old(canTransition) ==> outcome == Blocked && !canTransition
      ensures old(canTransition) ==> !canTransition && outcome != Blocked
      ensures outcome == Blocked ==>
        manager.stages == old(manager.stages) && Graph(manager) == old(Graph(manager)) && unchanged(manager)
      ensures !outcome.Arrived? ==> unchanged(player)
      ensures manager.Valid()
      // A connected exit leading to a stored stage: nothing new is created
      // or linked.
      ensures old(canTransition) && old(manager.currentStageId) in old(manager.stages) &&
              exitIndex in old(Graph(manager)[manager.currentStageId].connections) &&
              old(Graph(manager)[manager.currentStageId].connections[exitIndex].stageId) in old(manager.stages) ==>
        manager.stages == old(manager.stages) && Graph(manager) == old(Graph(manager))
      // An unconnected exit: a new stage, linked both ways.
      ensures old(canTransition) && old(manager.currentStageId) in old(manager.stages) &&
              exitIndex !in old(Graph(manager)[manager.currentStageId].connections) ==>
        var newId := StageId(old(|manager.stages.Keys|) + 1);
        newId in manager.stages && fresh(manager.stages[newId]) &&
        manager.stages == old(manager.stages)[newId := manager.stages[newId]] &&
        var n := |manager.stages[newId].exits|;
        n >= 1 &&
        Graph(manager) == WithEdge(old(Graph(manager)), old(manager.currentStageId), exitIndex, newId, n, RandomIndex(d.link, n))
      // Arrival: the connected stage is current and the player is next to
      // the connected exit.
      ensures outcome.Arrived? ==>
        old(manager.currentStageId) in old(manager.stages) &&
        var stage := old(manager.stages[manager.currentStageId]);
        exitIndex in stage.exitConnections &&
        stage.exitConnections[exitIndex] == StageGenerator.StageConnection(outcome.stageId, outcome.exitIndex) &&
        manager.currentStageId == outcome.stageId && outcome.stageId in manager.stages &&
        var target := manager.stages[outcome.stageId];
        0 <= outcome.exitIndex < |target.exits| &&
        Landing(target.tiles, target.exits[outcome.exitIndex], d.offsetX, d.offsetY, Pixel(player.x, player.y))
      // A numbered, linked table and a real exit of the current stage: the
      // transition arrives and the table stays numbered and linked.
      ensures old(canTransition && manager.currentStageId in manager.stages &&
                  0 <= exitIndex < |manager.stages[manager.currentStageId].exits| &&
                  Numbered(manager.stages.Keys) && Linked(manager)) ==>
        outcome.Arrived? && Numbered(manager.stages.Keys) && Linked(manager)
    {
      if !canTransition {
        return Blocked;
      }
      canTransition := false;
      assert unchanged(manager, manager.stages.Values, player);
      outcome := Transition(manager, player, exitIndex, d);
    }
  }
}
