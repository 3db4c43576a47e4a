/** The physics capability of src/components/PhysicsCapability.js: a
    component with no drawable of its own that hangs an arcade physics body
    on the drawable of its entity's circle or rectangle, shapes the body
    after it, and while the body moves copies the body's centre into the
    transform. What the engine's `physics.add.existing` hangs on the
    drawable is an input. */
module PhysicsModel {
  import opened Common
  import opened ComponentModel
  import opened PhaserObjectModel
  import TransformModel
  import RectangleModel
  import CircleModel

  /** A visual component physics can attach to. */
  datatype Visual = CircleVisual(circle: CircleModel.CircleComponent) | RectangleVisual(rectangle: RectangleModel.RectangleComponent)

  /** The visual-component part of a visual, the owner of the drawable. */
  function VisualObject(v: Visual): PhaserObjectComponent
  {
    match v
    case CircleVisual(c) => c.visual
    case RectangleVisual(r) => r.visual
  }

  function VisualFrame(v: Option<Visual>): set<PhaserObjectComponent>
  {
    if v.Some? then {VisualObject(v.value)} else {}
  }

  /** The circle or rectangle itself, whose shape fields physics reads. */
  function ShapeOwner(v: Visual): set<object>
  {
    match v
    case CircleVisual(c) => {c}
    case RectangleVisual(r) => {r}
  }

  function TransformFrame(t: Option<TransformModel.TransformComponent>): set<TransformModel.TransformComponent>
  {
    if t.Some? then {t.value} else {}
  }

  /** findVisualComponent, given the entity's `'circle'` and `'rectangle'`
      components: the circle when there is one, else the rectangle, else
      none. */
  function FindVisualComponent(circle: Option<CircleModel.CircleComponent>, rectangle: Option<RectangleModel.RectangleComponent>)
    : (v: Option<Visual>)
    ensures circle.Some? ==> v == Some(CircleVisual(circle.value))
    ensures circle.None? && rectangle.Some? ==> v == Some(RectangleVisual(rectangle.value))
    ensures v.None? <==> circle.None? && rectangle.None?
  {
    if circle.Some? then Some(CircleVisual(circle.value))
    else if rectangle.Some? then Some(RectangleVisual(rectangle.value))
    else None
  }

  datatype PhysicsOptions = PhysicsOptions(bounce: real, friction: real, drag: real)

  /** The options a caller passes: each may be left out. */
  datatype OptionOverrides = OptionOverrides(bounce: Option<real>, friction: Option<real>, drag: Option<real>)

  /** `{bounce: 0, friction: 1, drag: 0, ...options}`. */
  function WithDefaults(o: OptionOverrides): (p: PhysicsOptions)
    ensures p.bounce == if o.bounce.Some? then o.bounce.value else 0.0
    ensures p.friction == if o.friction.Some? then o.friction.value else 1.0
    ensures p.drag == if o.drag.Some? then o.drag.value else 0.0
  {
    PhysicsOptions(
      if o.bounce.Some? then o.bounce.value else 0.0,
      if o.friction.Some? then o.friction.value else 1.0,
      if o.drag.Some? then o.drag.value else 0.0)
  }

  /** configureCollisionShape: a circle collider of the circle's radius
      (offset untouched), or a box of the rectangle's size shifted by half
      of it. */
  function ShapedBody(b: Body, v: Visual): (r: Body)
    reads ShapeOwner(v)
    ensures v.CircleVisual? ==> r == b.(isCircle := true, radius := v.circle.radius,
      width := 2.0 * v.circle.radius, height := 2.0 * v.circle.radius)
    ensures v.RectangleVisual? ==> r == b.(isCircle := false, width := v.rectangle.width, height := v.rectangle.height,
      offset := Vec(-v.rectangle.width / 2.0, -v.rectangle.height / 2.0))
  {
    match v
    case CircleVisual(c) => b.(isCircle := true, radius := c.radius, width := 2.0 * c.radius, height := 2.0 * c.radius)
    case RectangleVisual(rc) => b.(isCircle := false, width := rc.width, height := rc.height, offset := Vec(-rc.width / 2.0, -rc.height / 2.0))
  }

  function Abs(x: real): real { if x < 0.0 then -x else x }

  /** The moving test of `update`: a velocity above 0.001 on either axis,
      or a position that changed in the last step. */
  predicate Moving(b: Body)
  {
    Abs(b.velocity.x) > 0.001 || Abs(b.velocity.y) > 0.001 || b.position != b.prev
  }

  /** The centre of a body from its corner anchor: one radius in from the
      corner for a circle, half the size for a box. */
  function BodyCentre(b: Body): (c: Vec)
    ensures b.isCircle ==> c.x - b.position.x == b.radius && c.y - b.position.y == b.radius
    ensures !b.isCircle ==> c.x - b.position.x == b.width / 2.0 && c.y - b.position.y == b.height / 2.0
  {
    if b.isCircle then Vec(b.position.x + b.radius, b.position.y + b.radius)
    else Vec(b.position.x + b.width / 2.0, b.position.y + b.height / 2.0)
  }

  /** The engine's `body.reset(x, y)`: the body stops, its centre moves to
      `at`, and its previous position is the new one, so it is at rest. */
  function ResetBody(b: Body, at: Vec): (r: Body)
    ensures BodyCentre(r) == at && r.prev == r.position && r.velocity == Vec(0.0, 0.0)
    ensures !Moving(r)
    ensures r.(position := b.position, prev := b.prev, velocity := b.velocity) == b
  {
    var corner := if b.isCircle then Vec(at.x - b.radius, at.y - b.radius)
                  else Vec(at.x - b.width / 2.0, at.y - b.height / 2.0);
    b.(position := corner, prev := corner, velocity := Vec(0.0, 0.0))
  }

  /** Whether the visual's drawable carries a physics body. */
  predicate HasBody(visual: Option<Visual>)
    reads VisualFrame(visual)
  {
    visual.Some? && VisualObject(visual.value).gameObject.Some? &&
    VisualObject(visual.value).gameObject.value.body.Some?
  }

  /** The body on the visual's drawable. */
  function BodyOf(visual: Option<Visual>): Body
    requires HasBody(visual)
    reads VisualFrame(visual)
  {
    VisualObject(visual.value).gameObject.value.body.value
  }

  class PhysicsCapability {
    /** The component-base part, of type `'physics'`. */
    const base: Component
    const bodyType: string
    const immovable: bool
    const options: PhysicsOptions
    var velocity: Vec
    var hasPhysicsBody: bool

    /** A new capability requires a transform; it is immovable exactly when
        static, at rest, and without a body yet. */
    constructor (bodyType: Option<string>, overrides: OptionOverrides)
      ensures fresh(base) && base.componentType == "physics" && base.entity == None
      ensures base.dependencies == ["transform"] && base.optional == []
      ensures this.bodyType == if bodyType.Some? then bodyType.value else "dynamic"
      ensures immovable <==> this.bodyType == "static"
      ensures options == WithDefaults(overrides)
      ensures velocity == Vec(0.0, 0.0) && !hasPhysicsBody
    {
      base := new Component("physics");
      var t := if bodyType.Some? then bodyType.value else "dynamic";
      this.bodyType := t;
      immovable := t == "static";
      options := WithDefaults(overrides);
      velocity := Vec(0.0, 0.0);
      hasPhysicsBody := false;
      new;
      base.RequireComponent("transform");
    }

    /** The body after a successful attach: shaped after the visual, with
        the capability's immovability and options, and reset to `at`. */
    function AttachedBody(b: Body, v: Visual, at: Vec): (r: Body)
      reads this, ShapeOwner(v)
      ensures r.immovable == immovable && r.bounce == options.bounce
      ensures r.friction == options.friction && r.drag == options.drag
      ensures r.isStatic == b.isStatic
      ensures BodyCentre(r) == at && r.prev == r.position && r.velocity == Vec(0.0, 0.0)
      ensures v.CircleVisual? ==> r.isCircle && r.radius == v.circle.radius && r.offset == b.offset
      ensures v.RectangleVisual? ==> (!r.isCircle && r.width == v.rectangle.width && r.height == v.rectangle.height &&
        r.offset == Vec(-v.rectangle.width / 2.0, -v.rectangle.height / 2.0))
    {
      ResetBody(ShapedBody(b, v).(immovable := immovable, bounce := options.bounce,
        friction := options.friction, drag := options.drag), at)
    }

    /** onAttach, given the entity's transform and visual and the body the
        engine hangs on the drawable (none when it makes none). It fails
        without a transform, without a visual or without a drawable, and
        then touches nothing; any body already on the drawable is removed
        first, so a failing engine leaves the drawable without one. Only
        success sets `hasPhysicsBody`. */
    method OnAttach(transform: Option<TransformModel.TransformComponent>, visual: Option<Visual>, created: Option<Body>)
      returns (ok: bool)
      modifies this`hasPhysicsBody, VisualFrame(visual)`gameObject
      ensures ok <==> transform.Some? && visual.Some? && old(VisualObject(visual.value).gameObject).Some? && created.Some?
      ensures hasPhysicsBody == (old(hasPhysicsBody) || ok)
      ensures visual.Some? && (transform.None? || old(VisualObject(visual.value).gameObject).None?) ==>
        VisualObject(visual.value).gameObject == old(VisualObject(visual.value).gameObject)
      ensures transform.Some? && visual.Some? && old(VisualObject(visual.value).gameObject).Some? && created.None? ==>
        VisualObject(visual.value).gameObject == Some(old(VisualObject(visual.value).gameObject.value).(body := None))
      ensures ok ==> VisualObject(visual.value).gameObject == Some(old(VisualObject(visual.value).gameObject.value).(
        body := Some(AttachedBody(created.value.(isStatic := bodyType == "static"), visual.value, transform.value.position))))
    {
      if transform.None? || visual.None? {
        return false;
      }
      var vo := VisualObject(visual.value);
      if vo.gameObject.None? {
        return false;
      }
      if vo.gameObject.value.body.Some? {
        vo.gameObject := Some(vo.gameObject.value.(body := None));
      }
      if created.None? {
        return false;
      }
      var body := created.value.(isStatic := bodyType == "static");
      vo.gameObject := Some(vo.gameObject.value.(body := Some(body)));
      hasPhysicsBody := true;
      body := ShapedBody(body, visual.value);
      body := body.(immovable := immovable, bounce := options.bounce, friction := options.friction, drag := options.drag);
      body := ResetBody(body, transform.value.position);
      vo.gameObject := Some(vo.gameObject.value.(body := Some(body)));
      ok := true;
    }

    /** setVelocity: the velocity is recorded in every case, and passed to
        the body when the visual's drawable has one. */
    method SetVelocity(x: real, y: real, visual: Option<Visual>)
      modifies this`velocity, VisualFrame(visual)`gameObject
      ensures velocity == Vec(x, y)
      ensures visual.Some? ==>
        var g := old(VisualObject(visual.value).gameObject);
        VisualObject(visual.value).gameObject ==
          if g.Some? && g.value.body.Some? then Some(g.value.(body := Some(g.value.body.value.(velocity := Vec(x, y)))))
          else g
    {
      velocity := Vec(x, y);
      if visual.Some? {
        var vo := VisualObject(visual.value);
        if vo.gameObject.Some? && vo.gameObject.value.body.Some? {
          var g := vo.gameObject.value;
          vo.gameObject := Some(g.(body := Some(g.body.value.(velocity := Vec(x, y)))));
        }
      }
    }

    /** Whether update does anything: only for a dynamic capability with a
        body, a transform and a visual whose drawable carries a body, and
        only while that body moves. */
    predicate UpdateRuns(transform: Option<TransformModel.TransformComponent>, visual: Option<Visual>)
      reads this, VisualFrame(visual)
    {
      bodyType == "dynamic" && hasPhysicsBody && transform.Some? && HasBody(visual) && Moving(BodyOf(visual))
    }

    /** update: when it runs, the transform's position becomes the body's
        centre (written directly, so the previous position stays) and the
        visual is told to skip its next position copy; otherwise nothing
        changes. */
    method Update(transform: Option<TransformModel.TransformComponent>, visual: Option<Visual>)
      modifies TransformFrame(transform)`position, VisualFrame(visual)`skipNextPositionUpdate
      ensures UpdateRuns(transform, visual) ==>
        transform.value.position == BodyCentre(BodyOf(visual)) && VisualObject(visual.value).skipNextPositionUpdate
      ensures !UpdateRuns(transform, visual) ==>
        (transform.Some? ==> transform.value.position == old(transform.value.position)) &&
        (visual.Some? ==> VisualObject(visual.value).skipNextPositionUpdate == old(VisualObject(visual.value).skipNextPositionUpdate))
    {
      if bodyType != "dynamic" || !hasPhysicsBody {
        return;
      }
      if transform.None? || visual.None? {
        return;
      }
      var vo := VisualObject(visual.value);
      if vo.gameObject.None? || vo.gameObject.value.body.None? {
        return;
      }
      var body := vo.gameObject.value.body.value;
      if Moving(body) {
        transform.value.position := BodyCentre(body);
        vo.skipNextPositionUpdate := true;
      }
    }

    /** onDetach: when the visual's drawable carries a body, the body is
        disabled and dropped and `hasPhysicsBody` cleared; the drawable
        itself stays. Otherwise nothing changes. */
    method OnDetach(visual: Option<Visual>)
      modifies this`hasPhysicsBody, VisualFrame(visual)`gameObject
      ensures old(HasBody(visual)) ==> (!hasPhysicsBody &&
        VisualObject(visual.value).gameObject == Some(old(VisualObject(visual.value).gameObject.value).(body := None)))
      ensures !old(HasBody(visual)) ==> hasPhysicsBody == old(hasPhysicsBody)
      ensures !old(HasBody(visual)) && visual.Some? ==>
        VisualObject(visual.value).gameObject == old(VisualObject(visual.value).gameObject)
    {
      if visual.Some? {
        var vo := VisualObject(visual.value);
        if vo.gameObject.Some? && vo.gameObject.value.body.Some? {
          vo.gameObject := Some(vo.gameObject.value.(body := None));
          hasPhysicsBody := false;
        }
      }
    }

    /** getNetworkState: the velocity and immovability, and nothing else. */
    function GetNetworkState(): (s: NetState)
      reads this`velocity
      ensures s == NoFields.(velocity := Some(velocity), immovable := Some(immovable))
    {
      NetState(None, None, None, None, None, None, None, None, None, None, Some(velocity), Some(immovable))
    }

    /** applyNetworkState: a velocity the state carries goes through
        setVelocity; immovability is not applied. Applying the capability's
        own state keeps its velocity. */
    method ApplyNetworkState(s: NetState, visual: Option<Visual>)
      modifies this`velocity, VisualFrame(visual)`gameObject
      ensures velocity == if s.velocity.Some? then s.velocity.value else old(velocity)
      ensures visual.Some? ==>
        var g := old(VisualObject(visual.value).gameObject);
        VisualObject(visual.value).gameObject ==
          if s.velocity.Some? && g.Some? && g.value.body.Some? then Some(g.value.(body := Some(g.value.body.value.(velocity := s.velocity.value))))
          else g
      ensures s == old(GetNetworkState()) ==> velocity == old(velocity)
    {
      if s.velocity.Some? {
        SetVelocity(s.velocity.value.x, s.velocity.value.y, visual);
      }
    }
  }
}
