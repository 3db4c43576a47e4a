/** The rectangle visual of src/components/RectangleComponent.js: a visual
    component whose drawable is a filled rectangle centred on the
    transform. */
module RectangleModel {
  import opened Common
  import opened ComponentModel
  import opened PhaserObjectModel
  import TransformModel

  class RectangleComponent {
    /** The visual-component part, of type `'rectangle'`. */
    const visual: PhaserObjectComponent
    var width: real
    var height: real
    var color: int
    var alpha: real

    /** A new rectangle stores its size and colour; alpha defaults to 1. */
    constructor (width: real, height: real, color: int, alpha: Option<real>)
      ensures fresh(visual) && fresh(visual.base)
      ensures visual.base.componentType == "rectangle" && visual.base.entity == None
      ensures visual.base.dependencies == ["transform"] && visual.base.optional == []
      ensures visual.gameObject == None && visual.visible && visual.depth == 0 && !visual.skipNextPositionUpdate
      ensures this.width == width && this.height == height && this.color == color
      ensures this.alpha == if alpha.Some? then alpha.value else 1.0
    {
      visual := new PhaserObjectComponent("rectangle");
      this.width := width;
      this.height := height;
      this.color := color;
      this.alpha := if alpha.Some? then alpha.value else 1.0;
    }

    /** The drawable `scene.add.rectangle` makes: centred on `at`, of the
        stored size and colour, untagged and without a body. */
    function CreateGameObject(at: Vec): (g: GameObject)
      reads this
      ensures g.position == at && g.shape == RectangleShape(width, height)
      ensures g.fillColor == color && g.alpha == alpha
      ensures g.entity == None && g.body == None
    {
      GameObject(at, RectangleShape(width, height), color, alpha, 0.0, Vec(1.0, 1.0), true, 0, None, None, true)
    }

    /** onAttach: the visual attach with createGameObject. Creating reads
        the transform's position and throws without a transform, or when
        the engine fails (`engineOk` false). */
    method OnAttach(present: set<string>, transform: Option<TransformModel.TransformComponent>, engineOk: bool)
      returns (ok: bool)
      modifies visual`gameObject, visual`visible, visual`depth
      ensures visual.visible == old(visual.visible) && visual.depth == old(visual.depth)
      ensures ok <==> visual.base.AreDependenciesSatisfied(present) && transform.Some? && engineOk
      ensures ok ==> visual.gameObject == Some(CreateGameObject(transform.value.position).(
        entity := visual.base.entity, visible := visual.visible, depth := visual.depth))
      ensures !ok ==> visual.gameObject == old(visual.gameObject)
    {
      var creation := if transform.Some? && engineOk then Created(Some(CreateGameObject(transform.value.position))) else Threw;
      ok := visual.OnAttach(present, creation);
    }

    /** getDimensions: the stored width and height. */
    function GetDimensions(): (d: (real, real))
      reads this
      ensures d.0 == width && d.1 == height
    {
      (width, height)
    }

    /** getNetworkState: the visual state plus size, colour and alpha. */
    function GetNetworkState(): (s: NetState)
      reads this`width, this`height, this`color, this`alpha, visual`visible, visual`depth
      ensures s == NoFields.(visible := Some(visual.visible), depth := Some(visual.depth),
        width := Some(width), height := Some(height), color := Some(color), alpha := Some(alpha))
    {
      visual.GetNetworkState().(width := Some(width), height := Some(height), color := Some(color), alpha := Some(alpha))
    }

    /** The rectangle's own part of applyNetworkState: with a game object,
        the size, colour and alpha the state carries are stored and drawn (a
        missing half of the size keeps its value); without one nothing
        changes. */
    method ApplyShape(s: NetState)
      modifies this`width, this`height, this`color, this`alpha, visual`gameObject
      ensures width == if s.width.Some? && old(visual.gameObject).Some? then s.width.value else old(width)
      ensures height == if s.height.Some? && old(visual.gameObject).Some? then s.height.value else old(height)
      ensures color == if s.color.Some? && old(visual.gameObject).Some? then s.color.value else old(color)
      ensures alpha == if s.alpha.Some? && old(visual.gameObject).Some? then s.alpha.value else old(alpha)
      ensures visual.gameObject == if old(visual.gameObject).None? then None else Some(old(visual.gameObject.value).(
        shape := if s.width.Some? || s.height.Some? then RectangleShape(width, height) else old(visual.gameObject.value.shape),
        fillColor := if s.color.Some? then s.color.value else old(visual.gameObject.value.fillColor),
        alpha := if s.alpha.Some? then s.alpha.value else old(visual.gameObject.value.alpha)))
    {
      if visual.gameObject.Some? {
        var g := visual.gameObject.value;
        if s.width.Some? || s.height.Some? {
          width := if s.width.Some? then s.width.value else width;
          height := if s.height.Some? then s.height.value else height;
          g := g.(shape := RectangleShape(width, height));
        }
        if s.color.Some? {
          color := s.color.value;
          g := g.(fillColor := s.color.value);
        }
        if s.alpha.Some? {
          alpha := s.alpha.value;
          g := g.(alpha := s.alpha.value);
        }
        visual.gameObject := Some(g);
      }
    }

    /** applyNetworkState: visibility and depth through the visual base,
        whether or not there is a game object; size, colour and alpha only
        when there is one. Applying the component's own state changes none
        of them. */
    method ApplyNetworkState(s: NetState)
      modifies this`width, this`height, this`color, this`alpha, visual`visible, visual`depth, visual`gameObject
      ensures visual.visible == if s.visible.Some? then s.visible.value else old(visual.visible)
      ensures visual.depth == if s.depth.Some? then s.depth.value else old(visual.depth)
      ensures visual.gameObject.Some? <==> old(visual.gameObject).Some?
      ensures width == if s.width.Some? && old(visual.gameObject).Some? then s.width.value else old(width)
      ensures height == if s.height.Some? && old(visual.gameObject).Some? then s.height.value else old(height)
      ensures color == if s.color.Some? && old(visual.gameObject).Some? then s.color.value else old(color)
      ensures alpha == if s.alpha.Some? && old(visual.gameObject).Some? then s.alpha.value else old(alpha)
      ensures visual.gameObject.Some? ==> visual.gameObject.value == old(visual.gameObject.value).(
        visible := if s.visible.Some? then s.visible.value else old(visual.gameObject.value.visible),
        depth := if s.depth.Some? then s.depth.value else old(visual.gameObject.value.depth),
        shape := if s.width.Some? || s.height.Some? then RectangleShape(width, height) else old(visual.gameObject.value.shape),
        fillColor := if s.color.Some? then s.color.value else old(visual.gameObject.value.fillColor),
        alpha := if s.alpha.Some? then s.alpha.value else old(visual.gameObject.value.alpha))
      ensures s == old(GetNetworkState()) ==>
        width == old(width) && height == old(height) && color == old(color) && alpha == old(alpha) &&
        visual.visible == old(visual.visible) && visual.depth == old(visual.depth)
    {
      visual.ApplyNetworkState(s);
      ApplyShape(s);
    }
  }
}
