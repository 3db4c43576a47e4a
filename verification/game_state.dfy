/** The central game state of src/core/GameState.js: the entity and player
    tables, the current level and stage ids, the level table and the state
    sequence counter that every recorded change advances. The event
    subscriptions of the constructor become direct calls of the handlers. */
module GameStateModel {
  import opened Common
  import LevelGenerator

  const PlayerType: string := "player"

  class GameState {
    var entities: map<string, EntityRef>
    var players: map<string, EntityRef>
    var currentLevelId: string
    var currentStageId: string
    var levels: map<string, LevelGenerator.Level>
    var stateSequence: nat

    /** The player table is exactly the player-typed part of the entity table. */
    ghost predicate PlayersTracked()
      reads this
    {
      (forall id :: id in players ==>
         id in entities && entities[id] == players[id] && players[id].entityType == PlayerType) &&
      (forall id :: id in entities && entities[id].entityType == PlayerType ==> id in players)
    }

    /** Every stored level is well formed and stored under its own id, and
        no two stored levels share a grid. */
    ghost predicate LevelsValid()
      reads this`levels
    {
      (forall id :: id in levels ==> levels[id].Valid() && levels[id].id == id) &&
      forall id, id' :: id in levels && id' in levels && id != id' ==> levels[id].grid != levels[id'].grid
    }

    constructor ()
      ensures entities == map[] && players == map[] && levels == map[]
      ensures currentLevelId == "level-1" && currentStageId == "stage-1" && stateSequence == 0
      ensures PlayersTracked() && LevelsValid()
    {
      entities := map[];
      players := map[];
      currentLevelId := "level-1";
      currentStageId := "stage-1";
      levels := map[];
      stateSequence := 0;
    }

    /** registerEntity: the entity is stored under its id, and in the player
        table too when it is a player; the sequence advances by one. An id
        is only re-registered with a non-player over a non-player, or the
        player table would keep a stale entry. */
    method RegisterEntity(e: EntityRef)
      modifies this`entities, this`players, this`stateSequence
      ensures entities == old(entities)[e.id := e]
      ensures players == if e.entityType == PlayerType then old(players)[e.id := e] else old(players)
      ensures stateSequence == old(stateSequence) + 1
      ensures old(PlayersTracked()) && (e.entityType == PlayerType || e.id !in old(players)) ==> PlayersTracked()
    {
      entities := entities[e.id := e];
      if e.entityType == PlayerType {
        players := players[e.id := e];
      }
      stateSequence := stateSequence + 1;
    }

    /** unregisterEntity: an unknown id changes nothing, not even the
        sequence; a known one leaves both tables and advances the sequence. */
    method UnregisterEntity(id: string)
      modifies this`entities, this`players, this`stateSequence
      ensures id !in old(entities) ==>
        entities == old(entities) && players == old(players) && stateSequence == old(stateSequence)
      ensures id in old(entities) ==>
        entities == old(entities) - {id} && stateSequence == old(stateSequence) + 1 &&
        players == if old(entities[id]).entityType == PlayerType then old(players) - {id} else old(players)
      ensures old(PlayersTracked()) ==> PlayersTracked() && id !in players
    {
      if id in entities {
        var entity := entities[id];
        if entity.entityType == PlayerType && id in players {
          players := players - {id};
        }
        entities := entities - {id};
        stateSequence := stateSequence + 1;
      }
    }

    /** handleLevelTransition: the current level id is set and the sequence
        advances by one. */
    method HandleLevelTransition(levelId: string)
      modifies this`currentLevelId, this`stateSequence
      ensures currentLevelId == levelId && stateSequence == old(stateSequence) + 1
    {
      currentLevelId := levelId;
      stateSequence := stateSequence + 1;
    }

    /** handleStageTransition: the current stage id is set and the sequence
        advances by one. */
    method HandleStageTransition(stageId: string)
      modifies this`currentStageId, this`stateSequence
      ensures currentStageId == stageId && stateSequence == old(stateSequence) + 1
    {
      currentStageId := stageId;
      stateSequence := stateSequence + 1;
    }

    /** registerLevel: the level is stored under its own id, replacing any
        previous entry; a well-formed level keeps the table well formed. */
    method RegisterLevel(level: LevelGenerator.Level)
      modifies this`levels
      ensures levels == old(levels)[level.id := level]
      ensures old(LevelsValid()) && level.Valid() &&
              (forall id :: id in old(levels) && id != level.id ==> old(levels)[id].grid != level.grid) ==>
        LevelsValid()
    {
      levels := levels[level.id := level];
    }
  }
}
