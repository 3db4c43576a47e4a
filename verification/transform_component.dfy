/** The transform of src/components/core/TransformComponent.js: the
    authoritative centre position of an entity, the position before the
    last move (for interpolated drawing), a rotation and a non-uniform
    scale. */
module TransformModel {
  import opened Common
  import opened ComponentModel

  /** `previous + (current - previous) * alpha` along one axis. */
  function Lerp(previous: real, current: real, alpha: real): (r: real)
    ensures alpha == 0.0 ==> r == previous
    ensures alpha == 1.0 ==> r == current
    ensures 0.0 <= alpha <= 1.0 ==> Min2(previous, current) <= r <= Max2(previous, current)
  {
    if 0.0 <= alpha <= 1.0 then
      LerpBetween(previous, current, alpha);
      previous + (current - previous) * alpha
    else previous + (current - previous) * alpha
  }

  function Min2(a: real, b: real): real { if a < b then a else b }
  function Max2(a: real, b: real): real { if a < b then b else a }

  lemma LerpBetween(previous: real, current: real, alpha: real)
    requires 0.0 <= alpha <= 1.0
    ensures Min2(previous, current) <= previous + (current - previous) * alpha <= Max2(previous, current)
  {
    var d := current - previous;
    assert d * (1.0 - alpha) == d - d * alpha;
    if d >= 0.0 {
      ProductNonNegative(d, alpha);
      ProductNonNegative(d, 1.0 - alpha);
    } else {
      ProductNonNegative(-d, alpha);
      ProductNonNegative(-d, 1.0 - alpha);
      assert (-d) * alpha == -(d * alpha);
      assert (-d) * (1.0 - alpha) == -(d * (1.0 - alpha));
    }
  }

  lemma ProductNonNegative(a: real, b: real)
    requires 0.0 <= a && 0.0 <= b
    ensures 0.0 <= a * b
  {
  }

  /** `y || x`: a missing or zero second scale factor takes the first. */
  function ScaleFrom(x: real, y: Option<real>): (s: Vec)
    ensures s.x == x
    ensures y.Some? && y.value != 0.0 ==> s.y == y.value
    ensures y.None? || y.value == 0.0 ==> s.y == x
  {
    Vec(x, if y.Some? && y.value != 0.0 then y.value else x)
  }

  /** What `onAttach` of a component yields: a boolean, or `undefined`
      from a method whose body is empty. */
  datatype AttachResult = Undefined | Returned(b: bool)

  /** The test `addComponent` applies to that result (`!component.onAttach()`
      rejects every falsy value). */
  predicate Truthy(r: AttachResult)
  {
    r.Returned? && r.b
  }

  /** onAttach as written: the transform's class extends the component base
      of src/core/Component.js, whose `onAttach() {}` returns `undefined`. */
  function OnAttachAsWritten(): (r: AttachResult)
    ensures !Truthy(r)
  {
    Undefined
  }

  class TransformComponent {
    /** The component-base part: type `'transform'`, no dependencies. */
    const base: Component
    var position: Vec
    var previousPosition: Vec
    var rotation: real
    var scale: Vec
    var needsUpdate: bool

    /** The second scale factor is zero only when the first is too:
        `setScale` never stores a zero `y` beside a non-zero `x`. */
    predicate ScaleConsistent()
      reads this
    {
      scale.y != 0.0 || scale.x == 0.0
    }

    /** A new transform sits at (x, y) with no previous motion, no rotation
        and unit scale. */
    constructor (x: real, y: real)
      ensures ScaleConsistent()
      ensures fresh(base) && base.componentType == "transform" && base.entity == None
      ensures base.dependencies == [] && base.optional == []
      ensures position == Vec(x, y) && previousPosition == Vec(x, y)
      ensures rotation == 0.0 && scale == Vec(1.0, 1.0) && !needsUpdate
    {
      base := new Component("transform");
      position := Vec(x, y);
      previousPosition := Vec(x, y);
      rotation := 0.0;
      scale := Vec(1.0, 1.0);
      needsUpdate := false;
    }

    /** setPosition: the old position becomes the previous one. */
    method SetPosition(x: real, y: real)
      modifies this
      ensures previousPosition == old(position) && position == Vec(x, y) && needsUpdate
      ensures rotation == old(rotation) && scale == old(scale)
    {
      previousPosition := position;
      position := Vec(x, y);
      needsUpdate := true;
    }

    method SetRotation(r: real)
      modifies this
      ensures rotation == r && needsUpdate
      ensures position == old(position) && previousPosition == old(previousPosition) && scale == old(scale)
    {
      rotation := r;
      needsUpdate := true;
    }

    /** setScale: a missing or zero `y` (falsy in the game) repeats `x`. */
    method SetScale(x: real, y: Option<real>)
      modifies this
      ensures scale == ScaleFrom(x, y) && needsUpdate
      ensures ScaleConsistent()
      ensures position == old(position) && previousPosition == old(previousPosition) && rotation == old(rotation)
    {
      scale := ScaleFrom(x, y);
      needsUpdate := true;
    }

    /** getInterpolatedPosition: the previous position at 0, the current
        one at 1, and between the two (per axis) for any alpha in 0..1. */
    function GetInterpolatedPosition(alpha: real): (p: Vec)
      reads this
      ensures alpha == 0.0 ==> p == previousPosition
      ensures alpha == 1.0 ==> p == position
      ensures 0.0 <= alpha <= 1.0 ==>
        Min2(previousPosition.x, position.x) <= p.x <= Max2(previousPosition.x, position.x) &&
        Min2(previousPosition.y, position.y) <= p.y <= Max2(previousPosition.y, position.y)
    {
      Vec(Lerp(previousPosition.x, position.x, alpha), Lerp(previousPosition.y, position.y, alpha))
    }

    /** getNetworkState: position, rotation and scale, and nothing else. */
    function GetNetworkState(): (s: NetState)
      reads this`position, this`rotation, this`scale
      ensures s == NoFields.(position := Some(position), rotation := Some(rotation), scale := Some(scale))
    {
      NetState(Some(position), Some(rotation), Some(scale), None, None, None, None, None, None, None, None, None)
    }

    /** applyNetworkState: each field the state carries goes through its
        setter; absent fields leave their value alone. Applying the
        transform's own state reproduces position and rotation, and scale
        unless its second factor is 0. */
    method ApplyNetworkState(s: NetState)
      modifies this
      ensures s.position.Some? ==> position == s.position.value && previousPosition == old(position)
      ensures s.position.None? ==> position == old(position) && previousPosition == old(previousPosition)
      ensures rotation == if s.rotation.Some? then s.rotation.value else old(rotation)
      ensures scale == if s.scale.Some? then ScaleFrom(s.scale.value.x, Some(s.scale.value.y)) else old(scale)
      ensures needsUpdate == (old(needsUpdate) || s.position.Some? || s.rotation.Some? || s.scale.Some?)
      ensures old(ScaleConsistent()) ==> ScaleConsistent()
      ensures s == old(GetNetworkState()) && old(ScaleConsistent()) ==> GetNetworkState() == old(GetNetworkState())
      ensures s == old(GetNetworkState()) ==>
        position == old(position) && rotation == old(rotation) &&
        (old(scale).y != 0.0 ==> scale == old(scale)) &&
        (old(scale).y == 0.0 ==> scale == Vec(old(scale).x, old(scale).x))
    {
      if s.position.Some? {
        SetPosition(s.position.value.x, s.position.value.y);
      }
      if s.rotation.Some? {
        SetRotation(s.rotation.value);
      }
      if s.scale.Some? {
        SetScale(s.scale.value.x, Some(s.scale.value.y));
      }
    }
  }

  /** The transform's attach as written never succeeds, whereas with the
      dependency-checking base of src/components/Component.js a transform,
      which requires nothing, attaches to any entity. */
  lemma TransformAttachAsWrittenFails(t: TransformComponent, present: set<string>)
    requires t.base.entity.Some? && t.base.dependencies == []
    ensures !Truthy(OnAttachAsWritten())
    ensures t.base.OnAttach(present)
  {
  }
}
