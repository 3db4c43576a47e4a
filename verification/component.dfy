/** The component base class of src/components/Component.js: a type name,
    the entity it is attached to, and the component types it requires or
    merely uses when present. The entity is referred to by its id; the
    question the base class asks of it, which component types it holds, is
    passed in as the set of those types. */
module ComponentModel {
  import opened Common

  /** The state a component exports for the network, as the plain object it
      is in the game: each field is present (`Some`) or undefined (`None`).
      Components fill the fields they own and read the fields they know. */
  datatype NetState = NetState(
    position: Option<Vec>, rotation: Option<real>, scale: Option<Vec>,
    visible: Option<bool>, depth: Option<int>,
    width: Option<real>, height: Option<real>, radius: Option<real>,
    color: Option<int>, alpha: Option<real>,
    velocity: Option<Vec>, immovable: Option<bool>)

  /** The object `{}`: every field undefined. */
  const NoFields: NetState :=
    NetState(None, None, None, None, None, None, None, None, None, None, None, None)

  /** The dependency loop of `areDependenciesSatisfied`: the position of the
      first required type the entity lacks (the one it reports), or -1. */
  function FirstMissing(dependencies: seq<string>, present: set<string>): (k: int)
    ensures -1 <= k < |dependencies|
    ensures k == -1 <==> forall d :: d in dependencies ==> d in present
    ensures k >= 0 ==> dependencies[k] !in present && forall j :: 0 <= j < k ==> dependencies[j] in present
  {
    if |dependencies| == 0 then -1
    else if dependencies[0] !in present then 0
    else
      var k := FirstMissing(dependencies[1..], present);
      assert forall d :: d in dependencies ==> d == dependencies[0] || d in dependencies[1..];
      if k == -1 then -1 else k + 1
  }

  class Component {
    const componentType: string
    /** The id of the entity the component is attached to, or none (`null`). */
    var entity: Option<string>
    var dependencies: seq<string>
    var optional: seq<string>

    /** A new component is attached to nothing and lists no dependencies. */
    constructor (componentType: string)
      ensures this.componentType == componentType && entity == None
      ensures dependencies == [] && optional == []
    {
      this.componentType := componentType;
      entity := None;
      dependencies := [];
      optional := [];
    }

    /** requireComponent: `t` joins the required types (the optional list is
        outside the frame), so from now on attaching needs a `t`. */
    method RequireComponent(t: string)
      modifies this`dependencies
      ensures dependencies == old(dependencies) + [t]
      ensures forall present :: t !in present ==> !AreDependenciesSatisfied(present)
    {
      dependencies := dependencies + [t];
    }

    /** optionalComponent: `t` joins the optional types; the required types
        are outside the frame and the dependency check answers as before. */
    method OptionalComponent(t: string)
      modifies this`optional
      ensures optional == old(optional) + [t]
      ensures forall present :: AreDependenciesSatisfied(present) == old(AreDependenciesSatisfied(present))
    {
      optional := optional + [t];
    }

    /** areDependenciesSatisfied, asked of an entity holding the component
        types `present`: false when the component is attached to nothing,
        and otherwise true exactly when every required type is present.
        Optional types play no part. */
    function AreDependenciesSatisfied(present: set<string>): (r: bool)
      reads this
      ensures entity.None? ==> !r
      ensures entity.Some? ==> (r <==> forall d :: d in dependencies ==> d in present)
    {
      entity.Some? && FirstMissing(dependencies, present) == -1
    }

    /** The default onAttach: attaching succeeds exactly when the component
        has an entity that holds every required type. */
    function OnAttach(present: set<string>): (r: bool)
      reads this
      ensures r <==> entity.Some? && forall d :: d in dependencies ==> d in present
    {
      AreDependenciesSatisfied(present)
    }
  }
}
