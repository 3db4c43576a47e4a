/** The circle visual of src/components/CircleComponent.js: a visual
    component whose drawable is a filled circle centred on the transform. */
module CircleModel {
  import opened Common
  import opened ComponentModel
  import opened PhaserObjectModel
  import TransformModel

  class CircleComponent {
    /** The visual-component part, of type `'circle'`. */
    const visual: PhaserObjectComponent
    var radius: real
    var color: int
    var alpha: real

    /** A new circle stores its radius and colour; alpha defaults to 1. */
    constructor (radius: real, color: int, alpha: Option<real>)
      ensures fresh(visual) && fresh(visual.base)
      ensures visual.base.componentType == "circle" && visual.base.entity == None
      ensures visual.base.dependencies == ["transform"] && visual.base.optional == []
      ensures visual.gameObject == None && visual.visible && visual.depth == 0 && !visual.skipNextPositionUpdate
      ensures this.radius == radius && this.color == color
      ensures this.alpha == if alpha.Some? then alpha.value else 1.0
    {
      visual := new PhaserObjectComponent("circle");
      this.radius := radius;
      this.color := color;
      this.alpha := if alpha.Some? then alpha.value else 1.0;
    }

    /** The drawable `scene.add.circle` makes: centred on `at`, with the
        stored radius and colour, untagged and without a body. */
    function CreateGameObject(at: Vec): (g: GameObject)
      reads this
      ensures g.position == at && g.shape == CircleShape(radius)
      ensures g.fillColor == color && g.alpha == alpha
      ensures g.entity == None && g.body == None
    {
      GameObject(at, CircleShape(radius), color, alpha, 0.0, Vec(1.0, 1.0), true, 0, None, None, true)
    }

    /** onAttach: the visual attach with createGameObject, which places the
        circle at the transform's position; it throws without a transform,
        or when the engine fails (`engineOk` false). */
    method OnAttach(present: set<string>, transform: Option<TransformModel.TransformComponent>, engineOk: bool)
      returns (ok: bool)
      modifies visual`gameObject, visual`visible, visual`depth
      ensures visual.visible == old(visual.visible) && visual.depth == old(visual.depth)
      ensures ok <==> visual.base.AreDependenciesSatisfied(present) && transform.Some? && engineOk
      ensures ok ==> visual.gameObject == Some(CreateGameObject(transform.value.position).(
        entity := visual.base.entity, visible := visual.visible, depth := visual.depth))
      ensures !ok ==> visual.gameObject == old(visual.gameObject)
    {
      var creation := if transform.Some? && engineOk then Created(Some(CreateGameObject(transform.value.position))) else Threw;
      ok := visual.OnAttach(present, creation);
    }

    /** getNetworkState: the visual state plus radius, colour and alpha. */
    function GetNetworkState(): (s: NetState)
      reads this`radius, this`color, this`alpha, visual`visible, visual`depth
      ensures s == NoFields.(visible := Some(visual.visible), depth := Some(visual.depth),
        radius := Some(radius), color := Some(color), alpha := Some(alpha))
    {
      visual.GetNetworkState().(radius := Some(radius), color := Some(color), alpha := Some(alpha))
    }

    /** The circle's own part of applyNetworkState: with a game object,
        the radius, colour and alpha the state carries are stored, colour
        and alpha also drawn (the drawn radius stays); without one nothing
        changes. */
    method ApplyShape(s: NetState)
      modifies this`radius, this`color, this`alpha, visual`gameObject
      ensures radius == if s.radius.Some? && old(visual.gameObject).Some? then s.radius.value else old(radius)
      ensures color == if s.color.Some? && old(visual.gameObject).Some? then s.color.value else old(color)
      ensures alpha == if s.alpha.Some? && old(visual.gameObject).Some? then s.alpha.value else old(alpha)
      ensures visual.gameObject == if old(visual.gameObject).None? then None else Some(old(visual.gameObject.value).(
        fillColor := if s.color.Some? then s.color.value else old(visual.gameObject.value.fillColor),
        alpha := if s.alpha.Some? then s.alpha.value else old(visual.gameObject.value.alpha)))
    {
      if visual.gameObject.Some? {
        var g := visual.gameObject.value;
        if s.radius.Some? {
          radius := s.radius.value;
        }
        if s.color.Some? {
          color := s.color.value;
          g := g.(fillColor := s.color.value);
        }
        if s.alpha.Some? {
          alpha := s.alpha.value;
          g := g.(alpha := s.alpha.value);
        }
        visual.gameObject := Some(g);
      }
    }

    /** applyNetworkState: visibility and depth through the visual base,
        whether or not there is a game object; radius, colour and alpha
        only when there is one. The drawable's radius is not changed (the
        engine offers no way to). Applying the component's own state
        changes none of them. */
    method ApplyNetworkState(s: NetState)
      modifies this`radius, this`color, this`alpha, visual`visible, visual`depth, visual`gameObject
      ensures visual.visible == if s.visible.Some? then s.visible.value else old(visual.visible)
      ensures visual.depth == if s.depth.Some? then s.depth.value else old(visual.depth)
      ensures visual.gameObject.Some? <==> old(visual.gameObject).Some?
      ensures visual.gameObject.Some? ==> visual.gameObject.value == old(visual.gameObject.value).(
        visible := if s.visible.Some? then s.visible.value else old(visual.gameObject.value.visible),
        depth := if s.depth.Some? then s.depth.value else old(visual.gameObject.value.depth),
        fillColor := if s.color.Some? then s.color.value else old(visual.gameObject.value.fillColor),
        alpha := if s.alpha.Some? then s.alpha.value else old(visual.gameObject.value.alpha))
      ensures radius == if s.radius.Some? && old(visual.gameObject).Some? then s.radius.value else old(radius)
      ensures color == if s.color.Some? && old(visual.gameObject).Some? then s.color.value else old(color)
      ensures alpha == if s.alpha.Some? && old(visual.gameObject).Some? then s.alpha.value else old(alpha)
      ensures s == old(GetNetworkState()) ==>
        radius == old(radius) && color == old(color) && alpha == old(alpha) &&
        visual.visible == old(visual.visible) && visual.depth == old(visual.depth)
    {
      visual.ApplyNetworkState(s);
      ApplyShape(s);
    }
  }
}
