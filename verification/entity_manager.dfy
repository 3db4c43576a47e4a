/** The entity registry of src/entities/EntityManager.js: entities by id, in
    the order their ids were first registered (the key order of a
    JavaScript object with non-numeric keys), and grouped by type name. */
module EntityManagement {
  import opened Common

  /** Each entity is in its type's bucket, and each bucket holds only
      registered entities of that type. */
  ghost predicate IndexedBy(entities: map<string, EntityRef>, types: map<string, map<string, EntityRef>>)
  {
    (forall id :: id in entities ==>
       entities[id].entityType in types && id in types[entities[id].entityType] &&
       types[entities[id].entityType][id] == entities[id]) &&
    (forall t, id :: t in types && id in types[t] ==>
       id in entities && entities[id] == types[t][id] && entities[id].entityType == t)
  }

  /** The type index after registering `e`: its bucket, created when
      missing, maps its id to it. */
  function WithEntity(types: map<string, map<string, EntityRef>>, e: EntityRef): (r: map<string, map<string, EntityRef>>)
    ensures e.entityType in r && e.id in r[e.entityType] && r[e.entityType][e.id] == e
    ensures forall t :: t in r <==> t in types || t == e.entityType
  {
    types[e.entityType := (if e.entityType in types then types[e.entityType] else map[])[e.id := e]]
  }

  /** The type index after unregistering `id` of type `t`. */
  function WithoutEntity(types: map<string, map<string, EntityRef>>, t: string, id: string): (r: map<string, map<string, EntityRef>>)
    ensures r.Keys == types.Keys
    ensures t in r ==> id !in r[t]
  {
    if t in types && id in types[t] then types[t := types[t] - {id}] else types
  }

  /** Registering keeps the index intact unless the id was registered under
      another type (whose bucket would keep a stale entry). */
  lemma RegisterKeepsIndex(entities: map<string, EntityRef>, types: map<string, map<string, EntityRef>>, e: EntityRef)
    requires IndexedBy(entities, types)
    requires e.id in entities ==> entities[e.id].entityType == e.entityType
    ensures IndexedBy(entities[e.id := e], WithEntity(types, e))
  {
    var es := entities[e.id := e];
    var ts := WithEntity(types, e);
    forall t, id | t in ts && id in ts[t]
      ensures id in es && es[id] == ts[t][id] && es[id].entityType == t
    {
      if t == e.entityType && id == e.id {
      } else if t == e.entityType {
        assert id in types[t];
      } else {
        assert ts[t] == types[t];
      }
    }
  }

  /** Unregistering keeps the index intact. */
  lemma UnregisterKeepsIndex(entities: map<string, EntityRef>, types: map<string, map<string, EntityRef>>, id: string)
    requires IndexedBy(entities, types) && id in entities
    ensures IndexedBy(entities - {id}, WithoutEntity(types, entities[id].entityType, id))
  {
    var t0 := entities[id].entityType;
    var es := entities - {id};
    var ts := WithoutEntity(types, t0, id);
    forall t, x | t in ts && x in ts[t]
      ensures x in es && es[x] == ts[t][x] && es[x].entityType == t
    {
      assert x in types[t] && ts[t][x] == types[t][x];
    }
    forall x | x in es
      ensures es[x].entityType in ts && x in ts[es[x].entityType] && ts[es[x].entityType][x] == es[x]
    {
      assert x != id;
    }
  }

  /** Whether `e` lies within `radius` of (x, y), boundary included. */
  predicate InRadius(e: EntityRef, x: real, y: real, radius: real)
  {
    var dx := e.position.x - x;
    var dy := e.position.y - y;
    dx * dx + dy * dy <= radius * radius
  }

  /** The entities of `es` within `radius` of (x, y), in their order. */
  function WithinRadius(es: seq<EntityRef>, x: real, y: real, radius: real): (r: seq<EntityRef>)
    ensures |r| <= |es|
  {
    if |es| == 0 then []
    else if InRadius(es[|es| - 1], x, y, radius) then WithinRadius(es[..|es| - 1], x, y, radius) + [es[|es| - 1]]
    else WithinRadius(es[..|es| - 1], x, y, radius)
  }

  /** The radius filter keeps exactly the entities within the radius. */
  lemma {:induction false} WithinRadiusMembers(es: seq<EntityRef>, x: real, y: real, radius: real)
    ensures forall e :: e in WithinRadius(es, x, y, radius) <==> e in es && InRadius(e, x, y, radius)
  {
    if |es| > 0 {
      var init := es[..|es| - 1];
      WithinRadiusMembers(init, x, y, radius);
      assert es == init + [es[|es| - 1]];
    }
  }

  class EntityManager {
    var ids: seq<string>
    var entities: map<string, EntityRef>
    var entityTypes: map<string, map<string, EntityRef>>

    /** The id order lists every registered id once. */
    ghost predicate Valid()
      reads this
    {
      Distinct(ids) && (forall id :: id in ids <==> id in entities) &&
      forall id :: id in entities ==> entities[id].id == id
    }

    ghost predicate Indexed()
      reads this
    {
      IndexedBy(entities, entityTypes)
    }

    constructor ()
      ensures ids == [] && entities == map[] && entityTypes == map[]
      ensures Valid() && Indexed()
    {
      ids := [];
      entities := map[];
      entityTypes := map[];
    }

    /** The registered entities in key order (`Object.values`). */
    function Values(): (es: seq<EntityRef>)
      reads this
      requires Valid()
      ensures |es| == |ids| && forall k :: 0 <= k < |ids| ==> es[k] == entities[ids[k]]
    {
      seq(|ids|, i requires 0 <= i < |ids| && ids[i] in entities reads this => entities[ids[i]])
    }

    /** The listed values are exactly the registered entities. */
    lemma ValuesMembers()
      requires Valid()
      ensures forall e :: e in Values() <==> e.id in entities && entities[e.id] == e
    {
      var es := Values();
      forall e: EntityRef | e.id in entities && entities[e.id] == e
        ensures e in es
      {
        var k :| 0 <= k < |ids| && ids[k] == e.id;
        assert es[k] == e;
      }
    }

    /** registerEntity: stored under its id (a new id goes last in key
        order) and in its type's bucket, which is created when missing. */
    method RegisterEntity(e: EntityRef)
      requires Valid()
      modifies this
      ensures Valid()
      ensures entities == old(entities)[e.id := e]
      ensures ids == if e.id in old(entities) then old(ids) else old(ids) + [e.id]
      ensures e.entityType in entityTypes
      ensures entityTypes == WithEntity(old(entityTypes), e)
      ensures old(Indexed()) && (e.id in old(entities) ==> old(entities[e.id]).entityType == e.entityType) ==>
        Indexed()
    {
      if Indexed() && (e.id in entities ==> entities[e.id].entityType == e.entityType) {
        RegisterKeepsIndex(entities, entityTypes, e);
      }
      if e.id !in entities {
        ids := ids + [e.id];
      }
      entities := entities[e.id := e];
      if e.entityType !in entityTypes {
        entityTypes := entityTypes[e.entityType := map[]];
      }
      entityTypes := entityTypes[e.entityType := entityTypes[e.entityType][e.id := e]];
    }

    /** unregisterEntity: a registered id leaves the table, the key order
        and its type's bucket; an unknown id changes nothing. */
    method UnregisterEntity(id: string)
      requires Valid()
      modifies this
      ensures Valid()
      ensures id !in old(entities) ==>
        ids == old(ids) && entities == old(entities) && entityTypes == old(entityTypes)
      ensures id in old(entities) ==>
        var t := old(entities[id]).entityType;
        entities == old(entities) - {id} && ids == Without(old(ids), id) &&
        entityTypes == WithoutEntity(old(entityTypes), t, id)
      ensures old(Indexed()) ==> Indexed()
    {
      if id in entities {
        if Indexed() {
          UnregisterKeepsIndex(entities, entityTypes, id);
        }
        var entity := entities[id];
        if entity.entityType in entityTypes && id in entityTypes[entity.entityType] {
          entityTypes := entityTypes[entity.entityType := entityTypes[entity.entityType] - {id}];
        }
        entities := entities - {id};
        ids := Without(ids, id);
      }
    }

    /** getEntitiesByType: the type's bucket, or an empty one for an unknown
        type; with the index intact it holds exactly the entities of that type. */
    function GetEntitiesByType(t: string): (r: map<string, EntityRef>)
      reads this
      ensures t !in entityTypes ==> r == map[]
      ensures IndexedBy(entities, entityTypes) ==>
        forall id :: id in r <==> id in entities && entities[id].entityType == t
      ensures IndexedBy(entities, entityTypes) ==> forall id :: id in r ==> r[id] == entities[id]
    {
      if t in entityTypes then entityTypes[t] else map[]
    }

    /** getEntityById: the registered entity, or nothing. */
    function GetEntityById(id: string): (r: Option<EntityRef>)
      reads this
      ensures r.Some? <==> id in entities
      ensures r.Some? ==> r.value == entities[id]
    {
      if id in entities then Some(entities[id]) else None
    }

    /** getEntitiesInRadius: the registered entities within `radius` of
        (x, y), boundary included, in key order. */
    method GetEntitiesInRadius(x: real, y: real, radius: real) returns (r: seq<EntityRef>)
      requires Valid()
      ensures r == WithinRadius(Values(), x, y, radius)
      ensures forall e :: e in r <==> e.id in entities && entities[e.id] == e && InRadius(e, x, y, radius)
    {
      var radiusSquared := radius * radius;
      var all := Values();
      r := [];
      var i := 0;
      while i < |all|
        invariant 0 <= i <= |all|
        invariant r == WithinRadius(all[..i], x, y, radius)
      {
        var dx := all[i].position.x - x;
        var dy := all[i].position.y - y;
        if dx * dx + dy * dy <= radiusSquared {
          r := r + [all[i]];
        }
        assert all[..i + 1][..i] == all[..i];
        i := i + 1;
      }
      assert all[..i] == all;
      WithinRadiusMembers(all, x, y, radius);
      ValuesMembers();
    }

    /** update: every registered entity is updated once, in key order; the
        result lists the ids in the order of the calls. */
    method Update(deltaTime: real) returns (updated: seq<string>)
      requires Valid()
      ensures |updated| == |ids| && Distinct(updated)
      ensures forall id :: id in updated <==> id in entities
      ensures forall k :: 0 <= k < |updated| ==> updated[k] == Values()[k].id
    {
      var all := Values();
      updated := [];
      var i := 0;
      while i < |all|
        invariant 0 <= i <= |all|
        invariant updated == ids[..i]
      {
        updated := updated + [all[i].id];
        i := i + 1;
      }
    }
  }
}
