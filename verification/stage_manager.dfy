/** The stage manager of src/world/Stage.js, together with the global stage
    table and current stage id it shares with the exit manager: stages are
    created on first use and cached by id, and setting up a stage sorts its
    tiles into the wall group and the exit group. */
module StageManagement {
  import opened Common
  import StageGenerator

  /** A member of the exit group: the tile and the exit index it carries. */
  datatype ExitTile = ExitTile(cell: Cell, exitIndex: int)

  /** `findIndex` over a stage's exit list by position: the first entry at
      `c`, or -1 when there is none. */
  function ExitIndexAt(exits: seq<Cell>, c: Cell): (k: int)
    ensures -1 <= k < |exits|
    ensures k == -1 <==> c !in exits
    ensures k >= 0 ==> exits[k] == c && c !in exits[..k]
  {
    if |exits| == 0 then -1
    else if exits[0] == c then 0
    else
      var k := ExitIndexAt(exits[1..], c);
      assert exits[1..][..k + 1] == exits[1..k + 2];
      if k == -1 then -1 else k + 1
  }

  /** The stage of `exits` answers exit index `k` with the exit's own position
      when no earlier entry shares it. */
  lemma ExitIndexOfDistinct(exits: seq<Cell>, k: nat)
    requires k < |exits| && Distinct(exits)
    ensures ExitIndexAt(exits, exits[k]) == k
  {
    var j := ExitIndexAt(exits, exits[k]);
    assert exits[j] == exits[k];
  }

  class StageManager {
    /** The global stage table and current stage id. */
    var stages: map<string, StageGenerator.Stage>
    var currentStageId: string
    var currentStage: StageGenerator.Stage?
    /** The wall group and the exit group of the set-up stage. */
    var walls: seq<Cell>
    var exitTiles: seq<ExitTile>

    /** Every stored stage is well formed and stored under its own id. */
    ghost predicate Valid()
      reads this
    {
      forall id :: id in stages ==> stages[id].Valid() && stages[id].id == id
    }

    constructor ()
      ensures Valid() && stages == map[] && currentStageId == "stage-1" && currentStage == null
      ensures walls == [] && exitTiles == []
    {
      stages := map[];
      currentStageId := "stage-1";
      currentStage := null;
      walls := [];
      exitTiles := [];
    }

    /** getStage: the cached stage for `stageId` when there is one, and
        nothing changes; otherwise a new stage, stored under `stageId`. */
    method GetStage(stageId: string, d: StageGenerator.StageDraws) returns (stage: StageGenerator.Stage)
      requires Valid() && StageGenerator.StageDrawsOk(d)
      modifies this`stages
      ensures Valid() && stageId in stages && stage == stages[stageId]
      ensures stageId in old(stages) ==> stages == old(stages)
      ensures stageId !in old(stages) ==> fresh(stage) && stages == old(stages)[stageId := stage]
    {
      if stageId in stages {
        return stages[stageId];
      }
      ghost var laid, cands;
      stage, laid, cands := StageGenerator.CreateStage(stageId, d);
      stages := stages[stageId := stage];
    }

    /** setupStage: the groups are cleared, the stage is fetched and its
        tiles sorted into the two groups, and it becomes the current stage. */
    method SetupStage(stageId: string, d: StageGenerator.StageDraws) returns (stage: StageGenerator.Stage)
      requires Valid() && StageGenerator.StageDrawsOk(d)
      modifies this
      ensures Valid() && stageId in stages && stage == stages[stageId]
      ensures stageId in old(stages) ==> stages == old(stages)
      ensures stageId !in old(stages) ==> fresh(stage) && stages == old(stages)[stageId := stage]
      ensures currentStageId == stageId && currentStage == stage
      ensures forall c :: c in walls <==> CellIs(stage.tiles, c, WallCode)
      ensures RowMajor(walls)
      ensures forall t :: t in exitTiles <==>
        CellIs(stage.tiles, t.cell, ExitCode) && t.exitIndex == ExitIndexAt(stage.exits, t.cell)
    {
      walls := [];
      exitTiles := [];
      stage := GetStage(stageId, d);
      walls, exitTiles := SortTiles(stage.tiles, stage.exits);
      currentStageId := stageId;
      currentStage := stage;
    }
  }

  /** The tile scan of setupStage, in row-major order: every solid tile
      joins the wall group and every exit tile the exit group, with the
      index of its entry in the exit list (or -1); floor tiles join neither. */
  method SortTiles(tiles: array2<int>, exits: seq<Cell>) returns (walls: seq<Cell>, exitTiles: seq<ExitTile>)
    requires tiles.Length0 == StageHeight && tiles.Length1 == StageWidth
    ensures forall c :: c in walls <==> CellIs(tiles, c, WallCode)
    ensures RowMajor(walls)
    ensures forall t :: t in exitTiles <==>
      CellIs(tiles, t.cell, ExitCode) && t.exitIndex == ExitIndexAt(exits, t.cell)
  {
    walls := [];
    exitTiles := [];
    var y := 0;
    while y < StageHeight
      invariant 0 <= y <= StageHeight
      invariant forall c :: c in walls <==> CellIs(tiles, c, WallCode) && c.y < y
      invariant RowMajor(walls) && forall k :: 0 <= k < |walls| ==> walls[k].y < y
      invariant forall t :: t in exitTiles <==>
        CellIs(tiles, t.cell, ExitCode) && t.exitIndex == ExitIndexAt(exits, t.cell) && t.cell.y < y
    {
      var x := 0;
      while x < StageWidth
        invariant 0 <= x <= StageWidth
        invariant forall c :: c in walls <==> CellIs(tiles, c, WallCode) && Before(c, Cell(x, y))
        invariant RowMajor(walls) && forall k :: 0 <= k < |walls| ==> Before(walls[k], Cell(x, y))
        invariant forall t :: t in exitTiles <==>
          CellIs(tiles, t.cell, ExitCode) && t.exitIndex == ExitIndexAt(exits, t.cell) &&
          Before(t.cell, Cell(x, y))
      {
        if tiles[y, x] == WallCode {
          walls := walls + [Cell(x, y)];
        } else if tiles[y, x] == ExitCode {
          exitTiles := exitTiles + [ExitTile(Cell(x, y), ExitIndexAt(exits, Cell(x, y)))];
        }
        x := x + 1;
      }
      y := y + 1;
    }
  }
}
