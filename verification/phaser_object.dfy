/** The visual component base of src/components/PhaserObjectComponent.js:
    a component that owns one drawable game object of the engine, keeps its
    visibility and depth, and copies the transform onto the drawable every
    frame unless the physics capability has just positioned it. The engine's
    drawable and the physics body hung on it are modelled as records. */
module PhaserObjectModel {
  import opened Common
  import opened ComponentModel
  import TransformModel

  /** The drawable primitive's shape. */
  datatype Shape = RectangleShape(width: real, height: real) | CircleShape(radius: real)

  /** An arcade physics body: its corner anchor `position` and the one of
      the previous step, velocity, collision shape (a circle of `radius`, or
      a `width` by `height` box shifted by `offset`) and flags. */
  datatype Body = Body(
    position: Vec, prev: Vec, velocity: Vec,
    isCircle: bool, radius: real, width: real, height: real, offset: Vec,
    isStatic: bool, immovable: bool, bounce: real, friction: real, drag: real)

  /** A drawable game object: centre position, shape, colour, rotation,
      scale, visibility, depth, the entity it is tagged with, and the
      physics body attached to it. `scalable` says whether it offers
      `setScale`. */
  datatype GameObject = GameObject(
    position: Vec, shape: Shape, fillColor: int, alpha: real,
    rotation: real, scale: Vec, visible: bool, depth: int,
    entity: Option<string>, body: Option<Body>, scalable: bool)

  /** What `createGameObject()` did: it threw, or it returned a game
      object or nothing. */
  datatype Creation = Threw | Created(result: Option<GameObject>)

  /** The drawable as updateFromTransform leaves it, given the skip flag
      and the transform's position, rotation and scale: the position is
      kept when the flag is set, the scale when the drawable has none;
      nothing else changes. */
  function Followed(g: GameObject, skip: bool, position: Vec, rotation: real, scale: Vec): (r: GameObject)
    ensures r.position == if skip then g.position else position
    ensures r.rotation == rotation
    ensures r.scale == if g.scalable then scale else g.scale
    ensures r.(position := g.position, rotation := g.rotation, scale := g.scale) == g
  {
    g.(position := if skip then g.position else position, rotation := rotation,
       scale := if g.scalable then scale else g.scale)
  }

  class PhaserObjectComponent {
    /** The component-base part. */
    const base: Component
    var gameObject: Option<GameObject>
    var depth: int
    var visible: bool
    var skipNextPositionUpdate: bool

    /** A new visual component requires a transform, is visible at depth 0
        and has no game object yet. */
    constructor (componentType: string)
      ensures fresh(base) && base.componentType == componentType && base.entity == None
      ensures base.dependencies == ["transform"] && base.optional == []
      ensures gameObject == None && depth == 0 && visible && !skipNextPositionUpdate
    {
      base := new Component(componentType);
      gameObject := None;
      depth := 0;
      visible := true;
      skipNextPositionUpdate := false;
      new;
      base.RequireComponent("transform");
    }

    /** onAttach, given what createGameObject did: it fails when a required
        type is missing (the game object is then not touched), when the
        creation throws (ditto) or returns nothing (the game object is then
        none). On success the created object becomes the game object,
        tagged with the entity and carrying the stored visibility and
        depth. */
    method OnAttach(present: set<string>, creation: Creation) returns (ok: bool)
      modifies this`gameObject, this`visible, this`depth
      ensures visible == old(visible) && depth == old(depth)
      ensures ok <==> base.AreDependenciesSatisfied(present) && creation.Created? && creation.result.Some?
      ensures ok ==> gameObject == Some(creation.result.value.(entity := base.entity, visible := visible, depth := depth))
      ensures !base.AreDependenciesSatisfied(present) || creation.Threw? ==> gameObject == old(gameObject)
      ensures base.AreDependenciesSatisfied(present) && creation == Created(None) ==> gameObject == None
    {
      if !base.OnAttach(present) {
        return false;
      }
      if creation.Threw? {
        return false;
      }
      gameObject := creation.result;
      if gameObject.None? {
        return false;
      }
      gameObject := Some(gameObject.value.(entity := base.entity));
      SetVisible(visible);
      SetDepth(depth);
      ok := true;
    }

    /** onDetach: the game object (with any body still on it) is destroyed
        and dropped. */
    method OnDetach()
      modifies this`gameObject
      ensures gameObject == None
    {
      gameObject := None;
    }

    /** updateFromTransform: without a game object nothing happens. Otherwise
        the skip flag, when set, is consumed and keeps the drawable where
        physics put it; when clear, the drawable moves to the transform's
        position. Rotation, and scale where the drawable has it, are copied
        in every case. */
    method UpdateFromTransform(transform: TransformModel.TransformComponent)
      modifies this`gameObject, this`skipNextPositionUpdate
      ensures old(gameObject).None? ==> gameObject == None && skipNextPositionUpdate == old(skipNextPositionUpdate)
      ensures old(gameObject).Some? ==>
        !skipNextPositionUpdate &&
        gameObject == Some(Followed(old(gameObject.value), old(skipNextPositionUpdate), transform.position, transform.rotation, transform.scale))
    {
      if gameObject.None? {
        return;
      }
      var g := gameObject.value;
      if skipNextPositionUpdate {
        skipNextPositionUpdate := false;
      } else {
        g := g.(position := transform.position);
      }
      g := g.(rotation := transform.rotation);
      if g.scalable {
        g := g.(scale := transform.scale);
      }
      gameObject := Some(g);
    }

    /** update: with a game object and a transform on the entity, the
        drawable is updated from the transform; otherwise nothing happens. */
    method Update(transform: Option<TransformModel.TransformComponent>)
      modifies this`gameObject, this`skipNextPositionUpdate
      ensures old(gameObject).None? || transform.None? ==>
        gameObject == old(gameObject) && skipNextPositionUpdate == old(skipNextPositionUpdate)
      ensures old(gameObject).Some? && transform.Some? ==>
        !skipNextPositionUpdate &&
        gameObject == Some(Followed(old(gameObject.value), old(skipNextPositionUpdate),
          transform.value.position, transform.value.rotation, transform.value.scale))
    {
      if gameObject.None? {
        return;
      }
      if transform.Some? {
        UpdateFromTransform(transform.value);
      }
    }

    /** setVisible: the value is stored with or without a game object, and
        passed on to the game object when there is one. */
    method SetVisible(v: bool)
      modifies this`visible, this`gameObject
      ensures visible == v
      ensures gameObject == if old(gameObject).Some? then Some(old(gameObject.value).(visible := v)) else None
    {
      visible := v;
      if gameObject.Some? {
        gameObject := Some(gameObject.value.(visible := v));
      }
    }

    /** setDepth: as setVisible, for the depth. */
    method SetDepth(d: int)
      modifies this`depth, this`gameObject
      ensures depth == d
      ensures gameObject == if old(gameObject).Some? then Some(old(gameObject.value).(depth := d)) else None
    {
      depth := d;
      if gameObject.Some? {
        gameObject := Some(gameObject.value.(depth := d));
      }
    }

    /** getNetworkState: the visibility and depth, and nothing else. */
    function GetNetworkState(): (s: NetState)
      reads this`visible, this`depth
      ensures s == NoFields.(visible := Some(visible), depth := Some(depth))
    {
      NetState(None, None, None, Some(visible), Some(depth), None, None, None, None, None, None, None)
    }

    /** applyNetworkState: a visibility or depth the state carries is set;
        an undefined one leaves the value alone. Applying the component's
        own state keeps its visibility and depth. */
    method ApplyNetworkState(s: NetState)
      modifies this`visible, this`depth, this`gameObject
      ensures visible == if s.visible.Some? then s.visible.value else old(visible)
      ensures depth == if s.depth.Some? then s.depth.value else old(depth)
      ensures gameObject.Some? <==> old(gameObject).Some?
      ensures gameObject.Some? ==> gameObject.value == old(gameObject.value).(
        visible := if s.visible.Some? then s.visible.value else old(gameObject.value.visible),
        depth := if s.depth.Some? then s.depth.value else old(gameObject.value.depth))
      ensures s == old(GetNetworkState()) ==> visible == old(visible) && depth == old(depth)
    {
      if s.visible.Some? {
        SetVisible(s.visible.value);
      }
      if s.depth.Some? {
        SetDepth(s.depth.value);
      }
    }
  }
}
