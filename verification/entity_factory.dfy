/** The entity factory of src/entities/EntityFactory.js: a table of named
    prefab builders, and the creation of a bare entity. A builder is an
    opaque identity; what it builds for a configuration is modelled as the
    record of that call. */
module EntityFactoryModel {
  import opened Common

  type PrefabBuilder = nat

  /** A prefab configuration: named numeric settings (position, exit index). */
  type Config = map<string, real>

  /** The result of calling `builder(scene, config)`. */
  datatype Built = Built(builder: PrefabBuilder, config: Config)

  /** A newly constructed entity: its id and its type name. */
  datatype NewEntity = NewEntity(id: string, entityType: string)

  /** The id an entity of src/entities/Entity.js takes: the id it is given
      unless that is missing or empty (`id || generated`). */
  function EntityIdFor(id: Option<string>, generated: string): (r: string)
    ensures id.Some? && id.value != "" ==> r == id.value
    ensures id.None? || id.value == "" ==> r == generated
  {
    if id.Some? && id.value != "" then id.value else generated
  }

  /** `` `entity_${Date.now()}_${Math.floor(Math.random() * 1000)}` ``. */
  function GeneratedId(now: nat, draw: real): string
    requires IsRandom(draw)
  {
    "entity_" + NatToString(now) + "_" + NatToString(RandomIndex(draw, 1000))
  }

  /** createEntity with the entity class of src/entities/Entity.js, the one
      whose constructor takes `(scene, id)`: the given id is kept and the
      type is the base type `'entity'`. */
  function CreateEntity(id: Option<string>, now: nat, draw: real): (e: NewEntity)
    requires IsRandom(draw)
    ensures id.Some? && id.value != "" ==> e.id == id.value
    ensures id.None? ==> e.id == GeneratedId(now, draw)
    ensures e.entityType == "entity"
  {
    NewEntity(EntityIdFor(id, GeneratedId(now, draw)), "entity")
  }

  /** How `null` or a string prints inside a template literal. */
  function TemplateText(s: Option<string>): string
  {
    if s.Some? then s.value else "null"
  }

  /** createEntity as written, as if its import linked: the factory imports
      the entity class of src/core/Entity.js, which that file does not
      export, so the game would fail to load this module. Were the import to
      link, the constructor `(scene, type, x, y)` would take the id argument
      as the type, and the id would be generated around it. */
  function CreateEntityAsWritten(id: Option<string>, now: nat, draw: real): (e: NewEntity)
    requires IsRandom(draw)
    ensures e.entityType == TemplateText(id)
    ensures e.id == TemplateText(id) + "_" + NatToString(now) + "_" + NatToString(RandomIndex(draw, 1000))
  {
    NewEntity(TemplateText(id) + "_" + NatToString(now) + "_" + NatToString(RandomIndex(draw, 1000)),
              TemplateText(id))
  }

  /** As written, no id passed to createEntity becomes the entity's id
      (the generated id is strictly longer than the one passed), while the
      entity class meant for it keeps every non-empty id. */
  lemma AsWrittenLosesId(s: string, now: nat, draw: real)
    requires IsRandom(draw) && s != ""
    ensures CreateEntityAsWritten(Some(s), now, draw).id != s
    ensures CreateEntityAsWritten(Some(s), now, draw).entityType == s
    ensures CreateEntity(Some(s), now, draw).id == s
  {
    var e := CreateEntityAsWritten(Some(s), now, draw);
    assert |e.id| > |s|;
  }

  class EntityFactory {
    var prefabs: map<string, PrefabBuilder>

    constructor ()
      ensures prefabs == map[]
    {
      prefabs := map[];
    }

    /** createFromPrefab: nothing (`null`) for a name without a builder;
        otherwise the registered builder's result for `config`. */
    function CreateFromPrefab(prefabName: string, config: Config): (r: Option<Built>)
      reads this
      ensures r.None? <==> prefabName !in prefabs
      ensures r.Some? ==> r.value.builder == prefabs[prefabName] && r.value.config == config
    {
      if prefabName in prefabs then Some(Built(prefabs[prefabName], config)) else None
    }

    /** registerPrefab: `name` now builds with `builder`, replacing any
        earlier builder; every other name builds as before. */
    method RegisterPrefab(name: string, builder: PrefabBuilder)
      modifies this
      ensures forall config :: CreateFromPrefab(name, config) == Some(Built(builder, config))
      ensures forall n, config :: n != name ==> CreateFromPrefab(n, config) == old(CreateFromPrefab(n, config))
    {
      prefabs := prefabs[name := builder];
    }
  }
}
