/** The entity of src/entities/Entity.js: an id, a type name, and its
    components, a map from component type to component that remembers the
    order in which types were first added (a JavaScript `Map`). Adding a
    component runs its attach step and keeps it only when that succeeds;
    removing or destroying runs the detach steps. */
module EntityModel {
  import opened Common
  import opened ComponentModel
  import TransformModel
  import PhaserObjectModel
  import RectangleModel
  import CircleModel
  import PhysicsModel
  import PlayerStateMachineModel
  import EntityFactoryModel

  /** A component held by an entity, by its class. */
  datatype Part =
    | TransformPart(transform: TransformModel.TransformComponent)
    | RectanglePart(rectangle: RectangleModel.RectangleComponent)
    | CirclePart(circle: CircleModel.CircleComponent)
    | PhysicsPart(physics: PhysicsModel.PhysicsCapability)
    | StateMachinePart(machine: PlayerStateMachineModel.PlayerStateMachine)
    | PlainPart(component: Component)

  /** The component-base part of a component: its type and entity. */
  function Base(p: Part): Component
  {
    match p
    case TransformPart(t) => t.base
    case RectanglePart(r) => r.visual.base
    case CirclePart(c) => c.visual.base
    case PhysicsPart(ph) => ph.base
    case StateMachinePart(m) => m.base
    case PlainPart(c) => c
  }

  /** The classes `getComponentOfType` is asked about. */
  datatype ComponentClass = PhaserObjectClass | TransformClass | RectangleClass | CircleClass | PhysicsClass | StateMachineClass

  /** `component instanceof cls`: rectangles and circles are visual
      components. */
  predicate InstanceOf(p: Part, cls: ComponentClass)
  {
    match cls
    case PhaserObjectClass => p.RectanglePart? || p.CirclePart?
    case TransformClass => p.TransformPart?
    case RectangleClass => p.RectanglePart?
    case CircleClass => p.CirclePart?
    case PhysicsClass => p.PhysicsPart?
    case StateMachineClass => p.StateMachinePart?
  }

  predicate IsVisual(p: Part)
  {
    InstanceOf(p, PhaserObjectClass)
  }

  /** The visual-component part of a rectangle or circle. */
  function VisualPart(p: Part): PhaserObjectModel.PhaserObjectComponent
    requires IsVisual(p)
  {
    if p.RectanglePart? then p.rectangle.visual else p.circle.visual
  }

  /** The objects that make up a component. */
  function Objects(p: Part): set<object>
  {
    match p
    case TransformPart(t) => {t, t.base}
    case RectanglePart(r) => {r, r.visual, r.visual.base}
    case CirclePart(c) => {c, c.visual, c.visual.base}
    case PhysicsPart(ph) => {ph, ph.base}
    case StateMachinePart(m) => {m, m.base}
    case PlainPart(c) => {c}
  }

  /** What `getNetworkState` of an entity reports. */
  datatype EntityState = EntityState(id: string, entityType: string, components: map<string, NetState>)

  /** The event an entity's destruction emits. */
  datatype Destroyed = Destroyed(name: string, entityId: string)

  /** Whether a component offers `getNetworkState` and `applyNetworkState`:
      the transform, the visuals and physics do; the state machine and the
      plain base class do not. */
  predicate Networked(p: Part)
  {
    p.TransformPart? || p.RectanglePart? || p.CirclePart? || p.PhysicsPart?
  }

  /** The objects of a component, one set per class, so that frames can
      name single fields. */
  function TransformSet(p: Part): set<TransformModel.TransformComponent>
  {
    if p.TransformPart? then {p.transform} else {}
  }

  function RectangleSet(p: Part): set<RectangleModel.RectangleComponent>
  {
    if p.RectanglePart? then {p.rectangle} else {}
  }

  function CircleSet(p: Part): set<CircleModel.CircleComponent>
  {
    if p.CirclePart? then {p.circle} else {}
  }

  function VisualSet(p: Part): set<PhaserObjectModel.PhaserObjectComponent>
  {
    if IsVisual(p) then {VisualPart(p)} else {}
  }

  function PhysicsSet(p: Part): set<PhysicsModel.PhysicsCapability>
  {
    if p.PhysicsPart? then {p.physics} else {}
  }

  /** A networked component's own state. */
  function PartState(p: Part): NetState
    requires Networked(p)
    reads TransformSet(p)`position, TransformSet(p)`rotation, TransformSet(p)`scale
    reads RectangleSet(p)`width, RectangleSet(p)`height, RectangleSet(p)`color, RectangleSet(p)`alpha
    reads CircleSet(p)`radius, CircleSet(p)`color, CircleSet(p)`alpha
    reads VisualSet(p)`visible, VisualSet(p)`depth, PhysicsSet(p)`velocity
  {
    match p
    case TransformPart(t) => t.GetNetworkState()
    case RectanglePart(r) => r.GetNetworkState()
    case CirclePart(c) => c.GetNetworkState()
    case PhysicsPart(ph) => ph.GetNetworkState()
  }

  /** Whether a component's drawable exists; only rectangles and circles
      have one of their own. */
  predicate Drawn(p: Part)
    reads VisualSet(p)`gameObject
  {
    IsVisual(p) ==> VisualPart(p).gameObject.Some?
  }

  /** `Object.entries` of a state's components, whose key order is the
      order the keys were written in: `keys`, skipping those not in `m`. */
  function Entries(keys: seq<string>, m: map<string, NetState>): (r: seq<(string, NetState)>)
    ensures forall e :: e in r ==> e.0 in m && m[e.0] == e.1
  {
    if keys == [] then []
    else (if keys[0] in m then [(keys[0], m[keys[0]])] else []) + Entries(keys[1..], m)
  }

  /** A field as applyNetworkState leaves it: the state's value when it
      carries one, else the value kept. */
  function Or<T>(given: Option<T>, kept: Option<T>): (r: Option<T>)
    ensures given.Some? ==> r == given
    ensures given.None? ==> r == kept
  {
    if given.Some? then given else kept
  }

  /** The state a networked component reports after its applyNetworkState
      with `s`, from the state `before` it reported until then. A transform
      takes position, rotation and scale (a zero second scale factor
      becoming the first); a visual takes visibility and depth, and only
      when its drawable exists (`drawn`) size or radius, colour and alpha;
      physics takes the velocity, never the immovability. */
  function Applied(p: Part, before: NetState, s: NetState, drawn: bool): (r: NetState)
    requires Networked(p)
    ensures r.immovable == before.immovable
    ensures s == NoFields ==> r == before
    ensures !p.TransformPart? ==> r.position == before.position && r.rotation == before.rotation && r.scale == before.scale
    ensures !drawn || !IsVisual(p) ==>
      r.width == before.width && r.height == before.height && r.radius == before.radius &&
      r.color == before.color && r.alpha == before.alpha
  {
    match p
    case TransformPart(_) =>
      before.(position := Or(s.position, before.position), rotation := Or(s.rotation, before.rotation),
              scale := if s.scale.Some? then Some(TransformModel.ScaleFrom(s.scale.value.x, Some(s.scale.value.y))) else before.scale)
    case RectanglePart(_) =>
      before.(visible := Or(s.visible, before.visible), depth := Or(s.depth, before.depth),
              width := if drawn then Or(s.width, before.width) else before.width,
              height := if drawn then Or(s.height, before.height) else before.height,
              color := if drawn then Or(s.color, before.color) else before.color,
              alpha := if drawn then Or(s.alpha, before.alpha) else before.alpha)
    case CirclePart(_) =>
      before.(visible := Or(s.visible, before.visible), depth := Or(s.depth, before.depth),
              radius := if drawn then Or(s.radius, before.radius) else before.radius,
              color := if drawn then Or(s.color, before.color) else before.color,
              alpha := if drawn then Or(s.alpha, before.alpha) else before.alpha)
    case PhysicsPart(_) =>
      before.(velocity := Or(s.velocity, before.velocity))
  }

  /** Applying the same state twice is applying it once. */
  lemma AppliedIdempotent(p: Part, before: NetState, s: NetState, drawn: bool)
    requires Networked(p)
    ensures Applied(p, Applied(p, before, s, drawn), s, drawn) == Applied(p, before, s, drawn)
  {
  }

  /** A component given the state it reports keeps it, provided a
      transform's scale does not have a zero second factor under a nonzero
      first one. */
  lemma AppliedOwnState(p: Part, before: NetState, drawn: bool)
    requires Networked(p)
    requires before.scale.Some? ==> before.scale.value.y != 0.0 || before.scale.value.x == 0.0
    ensures Applied(p, before, before, drawn) == before
  {
  }

  /** The states the entries give the type `k`, in entry order. */
  function StatesFor(entries: seq<(string, NetState)>, k: string): (r: seq<NetState>)
    ensures |r| <= |entries|
    ensures forall st :: st in r ==> (k, st) in entries
    ensures (forall e :: e in entries ==> e.0 != k) ==> r == []
  {
    if entries == [] then []
    else
      var last := entries[|entries| - 1];
      StatesFor(entries[..|entries| - 1], k) + (if last.0 == k then [last.1] else [])
  }

  /** Taking one more entry adds its state to the states of its type and
      leaves the others'. */
  lemma StatesForSnoc(entries: seq<(string, NetState)>, i: int, k: string)
    requires 0 <= i < |entries|
    ensures StatesFor(entries[..i + 1], k) ==
      StatesFor(entries[..i], k) + (if entries[i].0 == k then [entries[i].1] else [])
  {
    assert entries[..i + 1][..i] == entries[..i];
  }

  /** The state after applying the states `sts` one after the other. */
  function ApplyAll(p: Part, before: NetState, sts: seq<NetState>, drawn: bool): (r: NetState)
    requires Networked(p)
    ensures sts == [] ==> r == before
    ensures |sts| == 1 ==> r == Applied(p, before, sts[0], drawn)
  {
    if sts == [] then before
    else Applied(p, ApplyAll(p, before, sts[..|sts| - 1], drawn), sts[|sts| - 1], drawn)
  }

  /** Applying one more state applies it to the result so far. */
  lemma ApplyAllSnoc(p: Part, before: NetState, sts: seq<NetState>, st: NetState, drawn: bool)
    requires Networked(p)
    ensures ApplyAll(p, before, sts + [st], drawn) == Applied(p, ApplyAll(p, before, sts, drawn), st, drawn)
  {
    assert (sts + [st])[..|sts|] == sts;
  }

  /** Splitting the entries splits the states each type is given. */
  lemma {:induction false} StatesForAppend(a: seq<(string, NetState)>, b: seq<(string, NetState)>, k: string)
    ensures StatesFor(a + b, k) == StatesFor(a, k) + StatesFor(b, k)
    decreases |b|
  {
    if b == [] {
      assert a + b == a;
    } else {
      assert (a + b)[..|a + b| - 1] == a + b[..|b| - 1];
      StatesForAppend(a, b[..|b| - 1], k);
    }
  }

  /** The entries of a state table written in an order listing each type
      once give each listed type of the table exactly its own state. */
  lemma {:induction false} StatesForEntries(order: seq<string>, m: map<string, NetState>, k: string)
    requires Distinct(order)
    ensures StatesFor(Entries(order, m), k) == if k in order && k in m then [m[k]] else []
  {
    if order != [] {
      var head: seq<(string, NetState)> := if order[0] in m then [(order[0], m[order[0]])] else [];
      assert Entries(order, m) == head + Entries(order[1..], m);
      StatesForAppend(head, Entries(order[1..], m), k);
      assert StatesFor(head, k) == if order[0] == k && k in m then [m[k]] else [] by {
        if head != [] {
          assert head[..0] == [];
        }
      }
      DistinctTail(order);
      StatesForEntries(order[1..], m, k);
    }
  }

  /** Whether a reported state's scale is one applyNetworkState reproduces:
      no zero second factor under a nonzero first one. */
  predicate ScaleKept(st: NetState)
  {
    st.scale.Some? ==> st.scale.value.y != 0.0 || st.scale.value.x == 0.0
  }

  /** The state table after applyNetworkState with `entries`, from the
      table `before` (by type, of components `parts` whose drawables
      exist as `drawn` says): each type has the states the entries give it
      applied in order. */
  function AppliedStates(parts: map<string, Part>, before: map<string, NetState>,
                         entries: seq<(string, NetState)>, drawn: map<string, bool>): (r: map<string, NetState>)
    requires forall k :: k in before ==> k in parts && Networked(parts[k]) && k in drawn
    ensures r.Keys == before.Keys
    ensures forall k :: k in before && (forall e :: e in entries ==> e.0 != k) ==> r[k] == before[k]
  {
    map k | k in before :: ApplyAll(parts[k], before[k], StatesFor(entries, k), drawn[k])
  }

  /** One more entry applies its state to its type, when the table has
      that type, and changes nothing else. */
  lemma AppliedStatesSnoc(parts: map<string, Part>, before: map<string, NetState>,
                          entries: seq<(string, NetState)>, i: int, drawn: map<string, bool>)
    requires forall k :: k in before ==> k in parts && Networked(parts[k]) && k in drawn
    requires 0 <= i < |entries|
    ensures var prev := AppliedStates(parts, before, entries[..i], drawn);
      AppliedStates(parts, before, entries[..i + 1], drawn) ==
        if entries[i].0 in before then prev[entries[i].0 := Applied(parts[entries[i].0], prev[entries[i].0], entries[i].1, drawn[entries[i].0])]
        else prev
  {
    forall k | k in before
      ensures ApplyAll(parts[k], before[k], StatesFor(entries[..i + 1], k), drawn[k]) ==
        if entries[i].0 == k then Applied(parts[k], ApplyAll(parts[k], before[k], StatesFor(entries[..i], k), drawn[k]), entries[i].1, drawn[k])
        else ApplyAll(parts[k], before[k], StatesFor(entries[..i], k), drawn[k])
    {
      StatesForSnoc(entries, i, k);
      if entries[i].0 == k {
        ApplyAllSnoc(parts[k], before[k], StatesFor(entries[..i], k), entries[i].1, drawn[k]);
      } else {
        assert StatesFor(entries[..i + 1], k) == StatesFor(entries[..i], k);
      }
    }
  }

  /** Applying a table's own entries, in an order that lists each of its
      types once, gives back the table, when no scale has a zero second
      factor under a nonzero first one. */
  lemma OwnEntriesKeep(parts: map<string, Part>, order: seq<string>, before: map<string, NetState>, drawn: map<string, bool>)
    requires Distinct(order)
    requires forall k :: k in before ==> k in order && k in parts && Networked(parts[k]) && k in drawn && ScaleKept(before[k])
    ensures AppliedStates(parts, before, Entries(order, before), drawn) == before
  {
    forall k | k in before
      ensures ApplyAll(parts[k], before[k], StatesFor(Entries(order, before), k), drawn[k]) == before[k]
    {
      StatesForEntries(order, before, k);
      AppliedOwnState(parts[k], before[k], drawn[k]);
    }
  }

  class Entity {
    const id: string
    var entityType: string
    var components: map<string, Part>
    /** The component types in the order they were first added. */
    var order: seq<string>

    /** The map's invariant: the order lists each held type once, every
        component is held under its own type, and at most one visual
        component is held. */
    ghost predicate Valid()
      reads this
    {
      Distinct(order) &&
      (forall k :: k in components <==> k in order) &&
      (forall k :: k in components ==> Base(components[k]).componentType == k) &&
      (forall k1, k2 :: k1 in components && k2 in components && IsVisual(components[k1]) && IsVisual(components[k2]) ==> k1 == k2)
    }

    /** Every object of every held component. */
    ghost function AllObjects(): set<object>
      reads this
    {
      set k, o | k in components && o in Objects(components[k]) :: o
    }

    /** A new entity keeps a non-empty given id and otherwise takes the
        generated `entity_<now>_<n>`; its type is `'entity'` and it holds no
        components. */
    constructor (id: Option<string>, now: nat, draw: real)
      requires IsRandom(draw)
      ensures Valid()
      ensures this.id == EntityFactoryModel.EntityIdFor(id, EntityFactoryModel.GeneratedId(now, draw))
      ensures entityType == "entity" && components == map[] && order == []
    {
      this.id := EntityFactoryModel.EntityIdFor(id, EntityFactoryModel.GeneratedId(now, draw));
      entityType := "entity";
      components := map[];
      order := [];
    }

    /** getComponent: the component held under `t`, if any. */
    function GetComponent(t: string): (r: Option<Part>)
      reads this
      ensures r.Some? <==> t in components
      ensures r.Some? ==> r.value == components[t]
    {
      if t in components then Some(components[t]) else None
    }

    /** hasComponent: whether a component is held under `t`. */
    predicate HasComponent(t: string)
      reads this
      ensures HasComponent(t) <==> GetComponent(t).Some?
    {
      t in components
    }

    /** The transform, circle, rectangle and physics components the other
        components look up by type. */
    function TransformOf(): Option<TransformModel.TransformComponent>
      reads this
    {
      if "transform" in components && components["transform"].TransformPart? then Some(components["transform"].transform) else None
    }

    function CircleOf(): Option<CircleModel.CircleComponent>
      reads this
    {
      if "circle" in components && components["circle"].CirclePart? then Some(components["circle"].circle) else None
    }

    function RectangleOf(): Option<RectangleModel.RectangleComponent>
      reads this
    {
      if "rectangle" in components && components["rectangle"].RectanglePart? then Some(components["rectangle"].rectangle) else None
    }

    function PhysicsOf(): Option<PhysicsModel.PhysicsCapability>
      reads this
    {
      if "physics" in components && components["physics"].PhysicsPart? then Some(components["physics"].physics) else None
    }

    /** The visual physics works with (its `findVisualComponent`). */
    function VisualOf(): Option<PhysicsModel.Visual>
      reads this
    {
      PhysicsModel.FindVisualComponent(CircleOf(), RectangleOf())
    }

    /** Whether some held component is a visual component. */
    ghost predicate HasVisual()
      reads this
    {
      exists k :: k in components && IsVisual(components[k])
    }

    /** Position `i` of the order holds the first component of class
        `cls`. */
    ghost predicate FirstOfClass(i: int, cls: ComponentClass)
      reads this
    {
      0 <= i < |order| && order[i] in components && InstanceOf(components[order[i]], cls) &&
      forall j :: 0 <= j < i && order[j] in components ==> !InstanceOf(components[order[j]], cls)
    }

    /** getComponentOfType: the first component, in insertion order, of the
        class, or none when no component is of it. */
    method GetComponentOfType(cls: ComponentClass) returns (r: Option<Part>)
      requires Valid()
      ensures r.None? <==> forall k :: k in components ==> !InstanceOf(components[k], cls)
      ensures r.Some? ==> exists i :: FirstOfClass(i, cls) && r.value == components[order[i]]
    {
      var i := 0;
      while i < |order|
        invariant 0 <= i <= |order|
        invariant forall j :: 0 <= j < i ==> !InstanceOf(components[order[j]], cls)
      {
        if InstanceOf(components[order[i]], cls) {
          assert FirstOfClass(i, cls);
          return Some(components[order[i]]);
        }
        i := i + 1;
      }
      assert forall k :: k in components ==> exists j :: 0 <= j < |order| && order[j] == k;
      r := None;
    }

    /** addComponent, given whether the engine creates a drawable
        (`engineOk`) and the body it hangs on one (`created`). A visual
        component is refused outright while another is held. Otherwise the
        component is pointed at the entity and its attach step runs: on
        failure it is pointed back at nothing and the map is unchanged; on
        success it is held under its type, replacing any component of that
        type in place, or joining the end of the order when the type is
        new. Returns whether the component was added. */
    method AddComponent(c: Part, engineOk: bool, created: Option<PhaserObjectModel.Body>) returns (added: bool)
      requires Valid()
      modifies this, Objects(c), PhysicsModel.VisualFrame(VisualOf())
      ensures Valid()
      ensures IsVisual(c) && old(HasVisual()) ==>
        !added && Base(c).entity == old(Base(c).entity)
      ensures !added ==> components == old(components) && order == old(order)
      ensures !added && !(IsVisual(c) && old(HasVisual())) ==> Base(c).entity == None
      ensures added ==> Base(c).entity == Some(id) && components == old(components)[Base(c).componentType := c]
      ensures added ==>
        order == if Base(c).componentType in old(components) then old(order) else old(order) + [Base(c).componentType]
      ensures c.TransformPart? || c.StateMachinePart? || c.PlainPart? ==>
        (added <==> forall d :: d in old(Base(c).dependencies) ==> d in old(components))
      ensures c.RectanglePart? || c.CirclePart? ==>
        (added <==> !old(HasVisual()) && (forall d :: d in old(Base(c).dependencies) ==> d in old(components)) &&
                    old(TransformOf()).Some? && engineOk)
      ensures c.PhysicsPart? ==>
        (added <==> old(TransformOf()).Some? && old(VisualOf()).Some? &&
                    old(PhysicsModel.VisualObject(VisualOf().value).gameObject).Some? && created.Some?)
      ensures entityType == old(entityType)
    {
      if IsVisual(c) {
        var existing := GetComponentOfType(PhaserObjectClass);
        if existing.Some? {
          return false;
        }
      }
      added := TryAttach(c, engineOk, created);
      if added {
        Hold(c);
      }
    }

    /** The attach step of addComponent: the component is pointed at the
        entity and its onAttach runs; on failure it is pointed back at
        nothing. The entity itself is not changed. */
    method TryAttach(c: Part, engineOk: bool, created: Option<PhaserObjectModel.Body>) returns (ok: bool)
      requires this !in Objects(c)
      modifies Objects(c), PhysicsModel.VisualFrame(VisualOf())
      ensures unchanged(this)
      ensures Base(c).entity == if ok then Some(id) else None
      ensures c.TransformPart? || c.StateMachinePart? || c.PlainPart? ==>
        (ok <==> forall d :: d in old(Base(c).dependencies) ==> d in components)
      ensures c.RectanglePart? || c.CirclePart? ==>
        (ok <==> (forall d :: d in old(Base(c).dependencies) ==> d in components) && TransformOf().Some? && engineOk)
      ensures c.PhysicsPart? ==>
        (ok <==> TransformOf().Some? && VisualOf().Some? &&
                 old(PhysicsModel.VisualObject(VisualOf().value).gameObject).Some? && created.Some?)
    {
      ghost var drawable := if VisualOf().Some? then PhysicsModel.VisualObject(VisualOf().value).gameObject else None;
      Base(c).entity := Some(id);
      assert VisualOf().Some? ==> PhysicsModel.VisualObject(VisualOf().value).gameObject == drawable;
      ok := AttachPart(c, components.Keys, engineOk, created);
      if !ok {
        Base(c).entity := None;
      }
    }

    /** The success step of addComponent: the component is held under its
        type, in place of any component of that type, or at the end of the
        order when the type is new. */
    method Hold(c: Part)
      requires Valid()
      requires IsVisual(c) ==> forall k :: k in components && IsVisual(components[k]) ==> k == Base(c).componentType
      modifies this`components, this`order
      ensures Valid()
      ensures components == old(components)[Base(c).componentType := c]
      ensures order == if Base(c).componentType in old(components) then old(order) else old(order) + [Base(c).componentType]
    {
      var t := Base(c).componentType;
      if t !in components {
        order := order + [t];
      }
      components := components[t := c];
    }

    /** A component's onAttach, once the component points at the entity:
        the transform, state machine and plain components check their
        dependencies; a visual also needs a transform and the engine's
        drawable; physics needs a transform, a visual with a drawable and a
        body. */
    method AttachPart(c: Part, present: set<string>, engineOk: bool, created: Option<PhaserObjectModel.Body>) returns (ok: bool)
      requires Base(c).entity.Some?
      modifies Objects(c), PhysicsModel.VisualFrame(VisualOf())
      ensures Base(c).entity == old(Base(c).entity) && Base(c).dependencies == old(Base(c).dependencies)
      ensures c.TransformPart? || c.StateMachinePart? || c.PlainPart? ==>
        (ok <==> forall d :: d in Base(c).dependencies ==> d in present)
      ensures c.RectanglePart? || c.CirclePart? ==>
        (ok <==> (forall d :: d in Base(c).dependencies ==> d in present) && TransformOf().Some? && engineOk)
      ensures c.PhysicsPart? ==>
        (ok <==> TransformOf().Some? && VisualOf().Some? &&
                 old(PhysicsModel.VisualObject(VisualOf().value).gameObject).Some? && created.Some?)
    {
      match c {
        case TransformPart(t) =>
          ok := t.base.OnAttach(present);
        case RectanglePart(r) =>
          ok := r.OnAttach(present, TransformOf(), engineOk);
        case CirclePart(ci) =>
          ok := ci.OnAttach(present, TransformOf(), engineOk);
        case PhysicsPart(ph) =>
          ok := ph.OnAttach(TransformOf(), VisualOf(), created);
        case StateMachinePart(m) =>
          ok := m.base.OnAttach(present);
        case PlainPart(b) =>
          ok := b.OnAttach(present);
      }
    }

    /** The components other components look up are among the entity's
        objects. */
    /** The entity is none of its components' objects, so changing those
        leaves its table of components alone. */
    lemma NotAComponent()
      ensures this !in AllObjects()
    {
    }

    lemma LookupsInAllObjects()
      ensures PhysicsModel.VisualFrame(VisualOf()) <= AllObjects()
      ensures PhysicsModel.TransformFrame(TransformOf()) <= AllObjects()
      ensures PhysicsOf().Some? ==> PhysicsOf().value in AllObjects()
      ensures this !in AllObjects()
    {
      NotAComponent();
      if CircleOf().Some? {
        assert CircleOf().value.visual in Objects(components["circle"]);
      } else if RectangleOf().Some? {
        assert RectangleOf().value.visual in Objects(components["rectangle"]);
      }
      if TransformOf().Some? {
        assert TransformOf().value in Objects(components["transform"]);
      }
      if PhysicsOf().Some? {
        assert PhysicsOf().value in Objects(components["physics"]);
      }
    }

    /** The objects a component's detach step may change. */
    function DetachFrame(p: Part): set<object>
      reads this
    {
      match p
      case RectanglePart(r) => {r.visual}
      case CirclePart(c) => {c.visual}
      case PhysicsPart(ph) => {ph} + PhysicsModel.VisualFrame(VisualOf())
      case _ => {}
    }

    /** A component's onDetach: a visual drops its drawable, physics takes
        the body off the entity's visual, and the others do nothing. A
        drawable already dropped stays dropped. */
    method DetachPart(p: Part)
      modifies DetachFrame(p)
      ensures IsVisual(p) ==> VisualPart(p).gameObject == None
      ensures p.PhysicsPart? && old(PhysicsModel.HasBody(VisualOf())) ==> (!p.physics.hasPhysicsBody &&
        PhysicsModel.VisualObject(VisualOf().value).gameObject ==
          Some(old(PhysicsModel.VisualObject(VisualOf().value).gameObject.value).(body := None)))
      ensures forall o: PhaserObjectModel.PhaserObjectComponent :: o in DetachFrame(p) && old(o.gameObject).None? ==> o.gameObject.None?
    {
      match p {
        case RectanglePart(r) =>
          r.visual.OnDetach();
        case CirclePart(c) =>
          c.visual.OnDetach();
        case PhysicsPart(ph) =>
          ph.OnDetach(VisualOf());
        case _ =>
      }
    }

    /** removeComponent: a held component is detached and its type removed
        from the map and the order; an absent type changes nothing. */
    method RemoveComponent(t: string)
      requires Valid()
      modifies this, if t in components then DetachFrame(components[t]) else {}
      ensures Valid()
      ensures components == old(components) - {t}
      ensures order == Without(old(order), t)
      ensures t !in old(components) ==> order == old(order)
      ensures t in old(components) && IsVisual(old(components[t])) ==> VisualPart(old(components[t])).gameObject == None
      ensures entityType == old(entityType)
    {
      if t in components {
        DetachPart(components[t]);
        components := components - {t};
        order := Without(order, t);
      } else {
        WithoutAbsent(order, t);
      }
    }

    /** destroy: every component is detached, in insertion order, the map
        is emptied and `entity:destroyed` is emitted with the id. No visual
        the entity held keeps its drawable. */
    method Destroy() returns (event: Destroyed)
      requires Valid()
      modifies this, AllObjects()
      ensures Valid()
      ensures components == map[] && order == []
      ensures event == Destroyed("entity:destroyed", id)
      ensures forall k :: k in old(components) && IsVisual(old(components[k])) ==> VisualPart(old(components[k])).gameObject == None
    {
      var i := 0;
      while i < |order|
        invariant 0 <= i <= |order|
        invariant components == old(components) && order == old(order)
        invariant forall j :: 0 <= j < i && IsVisual(components[order[j]]) ==> VisualPart(components[order[j]]).gameObject == None
      {
        var p := components[order[i]];
        LookupsInAllObjects();
        assert DetachFrame(p) <= AllObjects() by {
          if IsVisual(p) {
            assert VisualPart(p) in Objects(components[order[i]]);
          } else if p.PhysicsPart? {
            assert p.physics in Objects(components[order[i]]);
          }
        }
        DetachPart(p);
        i := i + 1;
      }
      assert forall k :: k in components ==> exists j :: 0 <= j < |order| && order[j] == k;
      components := map[];
      order := [];
      event := Destroyed("entity:destroyed", id);
    }

    /** Every state machine the entity holds keeps its own invariant. */
    ghost predicate MachinesValid()
      reads this, AllObjects()
    {
      forall k :: k in components && components[k].StateMachinePart? ==>
        assert components[k].machine in Objects(components[k]);
        components[k].machine.Valid()
    }

    /** update: each held component's update runs once, in insertion
        order: a visual copies the transform onto its drawable, physics
        copies a moving body back to the transform, the state machine reads
        the keyboard (`keyboard`, none when the entity has no keyboard
        component) and drives physics; the others do nothing. Returns the
        types in the order their updates ran. */
    method Update(deltaTime: real, keyboard: Option<PlayerStateMachineModel.Keyboard>, root2: real) returns (updated: seq<string>)
      requires Valid() && MachinesValid() && root2 > 0.0
      modifies AllObjects()
      ensures Valid() && MachinesValid()
      ensures updated == order
    {
      var keys := order;
      updated := [];
      LookupsInAllObjects();
      for i := 0 to |keys|
        invariant updated == keys[..i]
        invariant components == old(components) && order == old(order)
        invariant MachinesValid()
      {
        UpdatePart(keys[i], deltaTime, keyboard, root2);
        updated := updated + [keys[i]];
      }
    }

    /** One component's update, the component held under `k`: a visual's
        drawable follows the entity's transform, physics copies a moving
        body's centre to the transform, and the state machine advances one
        frame; the state machines keep their invariant. */
    method UpdatePart(k: string, deltaTime: real, keyboard: Option<PlayerStateMachineModel.Keyboard>, root2: real)
      requires k in components && MachinesValid() && root2 > 0.0
      modifies AllObjects()
      ensures MachinesValid()
      ensures IsVisual(components[k]) ==>
        var v := VisualPart(components[k]);
        if old(v.gameObject).Some? && TransformOf().Some? then
          !v.skipNextPositionUpdate &&
          v.gameObject == Some(PhaserObjectModel.Followed(old(v.gameObject.value), old(v.skipNextPositionUpdate),
            TransformOf().value.position, TransformOf().value.rotation, TransformOf().value.scale))
        else v.gameObject == old(v.gameObject) && v.skipNextPositionUpdate == old(v.skipNextPositionUpdate)
      ensures components[k].PhysicsPart? ==>
        if old(components[k].physics.UpdateRuns(TransformOf(), VisualOf())) then
          TransformOf().value.position == PhysicsModel.BodyCentre(old(PhysicsModel.BodyOf(VisualOf()))) &&
          PhysicsModel.VisualObject(VisualOf().value).skipNextPositionUpdate
        else
          (TransformOf().Some? ==> TransformOf().value.position == old(TransformOf().value.position)) &&
          (VisualOf().Some? ==> PhysicsModel.VisualObject(VisualOf().value).skipNextPositionUpdate ==
                                old(PhysicsModel.VisualObject(VisualOf().value).skipNextPositionUpdate))
      ensures components[k].StateMachinePart? ==>
        var m := components[k].machine;
        m.MovementPhase() == if keyboard.Some? then PlayerStateMachineModel.StepMovement(old(m.MovementPhase()), keyboard.value.inputState, deltaTime)
                             else old(m.MovementPhase())
    {
      LookupsInAllObjects();
      match components[k] {
        case RectanglePart(r) =>
          assert r.visual in Objects(components[k]);
          UpdateVisual(k);
        case CirclePart(c) =>
          assert c.visual in Objects(components[k]);
          UpdateVisual(k);
        case PhysicsPart(ph) =>
          UpdatePhysics(k);
        case StateMachinePart(m) =>
          assert m in Objects(components[k]);
          UpdateMachine(k, deltaTime, keyboard, root2);
        case _ =>
      }
    }

    /** A visual's update, as UpdatePart states it. */
    method UpdateVisual(k: string)
      requires k in components && IsVisual(components[k])
      modifies VisualPart(components[k])`gameObject, VisualPart(components[k])`skipNextPositionUpdate
      ensures var v := VisualPart(components[k]);
        if old(v.gameObject).Some? && TransformOf().Some? then
          !v.skipNextPositionUpdate &&
          v.gameObject == Some(PhaserObjectModel.Followed(old(v.gameObject.value), old(v.skipNextPositionUpdate),
            TransformOf().value.position, TransformOf().value.rotation, TransformOf().value.scale))
        else v.gameObject == old(v.gameObject) && v.skipNextPositionUpdate == old(v.skipNextPositionUpdate)
    {
      VisualPart(components[k]).Update(TransformOf());
    }

    /** Physics' update, as UpdatePart states it. */
    method UpdatePhysics(k: string)
      requires k in components && components[k].PhysicsPart?
      modifies PhysicsModel.TransformFrame(TransformOf())`position, PhysicsModel.VisualFrame(VisualOf())`skipNextPositionUpdate
      ensures if old(components[k].physics.UpdateRuns(TransformOf(), VisualOf())) then
          TransformOf().value.position == PhysicsModel.BodyCentre(old(PhysicsModel.BodyOf(VisualOf()))) &&
          PhysicsModel.VisualObject(VisualOf().value).skipNextPositionUpdate
        else
          (TransformOf().Some? ==> TransformOf().value.position == old(TransformOf().value.position)) &&
          (VisualOf().Some? ==> PhysicsModel.VisualObject(VisualOf().value).skipNextPositionUpdate ==
                                old(PhysicsModel.VisualObject(VisualOf().value).skipNextPositionUpdate))
    {
      components[k].physics.Update(TransformOf(), VisualOf());
    }

    /** The state machine's update, as UpdatePart states it. */
    method UpdateMachine(k: string, deltaTime: real, keyboard: Option<PlayerStateMachineModel.Keyboard>, root2: real)
      requires k in components && components[k].StateMachinePart? && components[k].machine.Valid() && root2 > 0.0
      modifies components[k].machine, if PhysicsOf().Some? then {PhysicsOf().value} else {}, PhysicsModel.VisualFrame(VisualOf())`gameObject
      ensures components[k].machine.Valid()
      ensures var m := components[k].machine;
        m.MovementPhase() == if keyboard.Some? then PlayerStateMachineModel.StepMovement(old(m.MovementPhase()), keyboard.value.inputState, deltaTime)
                             else old(m.MovementPhase())
    {
      components[k].machine.Update(deltaTime, keyboard, root2, PhysicsOf(), VisualOf());
    }

    /** getNetworkState: the id, the type, and the state of every held
        component that has one, under its type. */
    method GetNetworkState() returns (s: EntityState)
      requires Valid()
      ensures s.id == id && s.entityType == entityType
      ensures forall k :: k in s.components <==> k in components && Networked(components[k])
      ensures forall k :: k in s.components ==> s.components[k] == PartState(components[k])
    {
      var states: map<string, NetState> := map[];
      var i := 0;
      while i < |order|
        invariant 0 <= i <= |order|
        invariant forall k :: k in states <==> k in order[..i] && Networked(components[k])
        invariant forall k :: k in states ==> states[k] == PartState(components[k])
      {
        var p := components[order[i]];
        if Networked(p) {
          states := states[order[i] := PartState(p)];
        }
        i := i + 1;
      }
      assert order[..|order|] == order;
      s := EntityState(id, entityType, states);
    }

    /** The objects a component's applyNetworkState may change. */
    function ApplyFrame(p: Part): set<object>
      reads this
    {
      match p
      case TransformPart(t) => {t}
      case RectanglePart(r) => {r, r.visual}
      case CirclePart(c) => {c, c.visual}
      case PhysicsPart(ph) => {ph} + PhysicsModel.VisualFrame(VisualOf())
      case _ => {}
    }

    /** The state of every held component that has one, by type. */
    ghost function States(): (r: map<string, NetState>)
      reads this, AllObjects()
      ensures forall k :: k in r <==> k in components && Networked(components[k])
    {
      map k | k in components && Networked(components[k]) ::
        assert Objects(components[k]) <= AllObjects();
        PartState(components[k])
    }

    /** Which held components have their drawable, by type. */
    ghost function DrawnMap(): (r: map<string, bool>)
      reads this, AllObjects()
      ensures r.Keys == components.Keys
    {
      map k | k in components ::
        assert Objects(components[k]) <= AllObjects();
        Drawn(components[k])
    }

    /** Every held transform keeps its scale invariant. */
    ghost predicate TransformsConsistent()
      reads this, AllObjects()
    {
      forall k :: k in components && components[k].TransformPart? ==>
        assert components[k].transform in Objects(components[k]);
        components[k].transform.ScaleConsistent()
    }

    /** The applyNetworkState of the component held under `k`; physics
        passes a velocity to the body on the entity's visual. The other
        components' states are untouched, and a component given its own
        state keeps it. */
    method ApplyPart(k: string, s: NetState)
      requires Valid() && k in components && Networked(components[k])
      modifies ApplyFrame(components[k])
      ensures old(TransformsConsistent()) ==> TransformsConsistent()
      ensures forall k' :: k' in components && k' != k && Networked(components[k']) ==>
        PartState(components[k']) == old(PartState(components[k']))
      ensures s == old(PartState(components[k])) && old(TransformsConsistent()) ==>
        PartState(components[k]) == old(PartState(components[k]))
      ensures PartState(components[k]) == Applied(components[k], old(PartState(components[k])), s, old(Drawn(components[k])))
      ensures forall k' :: k' in components ==> Drawn(components[k']) == old(Drawn(components[k']))
    {
      if components[k].PhysicsPart? {
        ApplyPhysics(k, s);
      } else {
        ApplyOwn(k, s);
      }
    }

    /** ApplyPart for a transform or a visual, which changes only its own
        objects. */
    method ApplyOwn(k: string, s: NetState)
      requires Valid() && k in components && Networked(components[k]) && !components[k].PhysicsPart?
      modifies ApplyFrame(components[k])
      ensures old(TransformsConsistent()) ==> TransformsConsistent()
      ensures forall k' :: k' in components && k' != k && Networked(components[k']) ==>
        PartState(components[k']) == old(PartState(components[k']))
      ensures s == old(PartState(components[k])) && old(TransformsConsistent()) ==>
        PartState(components[k]) == old(PartState(components[k]))
      ensures PartState(components[k]) == Applied(components[k], old(PartState(components[k])), s, old(Drawn(components[k])))
      ensures forall k' :: k' in components ==> Drawn(components[k']) == old(Drawn(components[k']))
    {
      match components[k] {
        case TransformPart(t) =>
          ApplyTransform(k, s);
        case RectanglePart(r) =>
          ApplyRectangle(k, s);
        case CirclePart(c) =>
          ApplyCircle(k, s);
      }
    }

    /** ApplyPart for a transform. */
    method ApplyTransform(k: string, s: NetState)
      requires Valid() && k in components && components[k].TransformPart?
      modifies ApplyFrame(components[k])
      ensures old(TransformsConsistent()) ==> TransformsConsistent()
      ensures forall k' :: k' in components && k' != k && Networked(components[k']) ==>
        PartState(components[k']) == old(PartState(components[k']))
      ensures s == old(PartState(components[k])) && old(TransformsConsistent()) ==>
        PartState(components[k]) == old(PartState(components[k]))
      ensures PartState(components[k]) == Applied(components[k], old(PartState(components[k])), s, old(Drawn(components[k])))
      ensures forall k' :: k' in components ==> Drawn(components[k']) == old(Drawn(components[k']))
    {
      components[k].transform.ApplyNetworkState(s);
    }

    /** ApplyPart for a rectangle. */
    method ApplyRectangle(k: string, s: NetState)
      requires Valid() && k in components && components[k].RectanglePart?
      modifies ApplyFrame(components[k])
      ensures old(TransformsConsistent()) ==> TransformsConsistent()
      ensures forall k' :: k' in components && k' != k && Networked(components[k']) ==>
        PartState(components[k']) == old(PartState(components[k']))
      ensures s == old(PartState(components[k])) && old(TransformsConsistent()) ==>
        PartState(components[k]) == old(PartState(components[k]))
      ensures PartState(components[k]) == Applied(components[k], old(PartState(components[k])), s, old(Drawn(components[k])))
      ensures forall k' :: k' in components ==> Drawn(components[k']) == old(Drawn(components[k']))
    {
      components[k].rectangle.ApplyNetworkState(s);
    }

    /** ApplyPart for a circle. */
    method ApplyCircle(k: string, s: NetState)
      requires Valid() && k in components && components[k].CirclePart?
      modifies ApplyFrame(components[k])
      ensures old(TransformsConsistent()) ==> TransformsConsistent()
      ensures forall k' :: k' in components && k' != k && Networked(components[k']) ==>
        PartState(components[k']) == old(PartState(components[k']))
      ensures s == old(PartState(components[k])) && old(TransformsConsistent()) ==>
        PartState(components[k]) == old(PartState(components[k]))
      ensures PartState(components[k]) == Applied(components[k], old(PartState(components[k])), s, old(Drawn(components[k])))
      ensures forall k' :: k' in components ==> Drawn(components[k']) == old(Drawn(components[k']))
    {
      components[k].circle.ApplyNetworkState(s);
    }

    /** ApplyPart for physics, which also sets the velocity of the body on
        the entity's visual. */
    method ApplyPhysics(k: string, s: NetState)
      requires Valid() && k in components && components[k].PhysicsPart?
      modifies ApplyFrame(components[k])
      ensures old(TransformsConsistent()) ==> TransformsConsistent()
      ensures forall k' :: k' in components && k' != k && Networked(components[k']) ==>
        PartState(components[k']) == old(PartState(components[k']))
      ensures s == old(PartState(components[k])) && old(TransformsConsistent()) ==>
        PartState(components[k]) == old(PartState(components[k]))
      ensures PartState(components[k]) == Applied(components[k], old(PartState(components[k])), s, old(Drawn(components[k])))
      ensures forall k' :: k' in components ==> Drawn(components[k']) == old(Drawn(components[k']))
    {
      components[k].physics.ApplyNetworkState(s, VisualOf());
    }

    /** What a component's applyNetworkState may change belongs to the
        entity. */
    lemma ApplyFrameInAllObjects(k: string)
      requires k in components
      ensures ApplyFrame(components[k]) <= AllObjects()
    {
      LookupsInAllObjects();
      assert forall o :: o in Objects(components[k]) ==> o in AllObjects();
    }

    /** Two state tables with the same networked types and the same state
        for each are equal. */
    lemma StatesAgree(before: map<string, NetState>)
      requires forall k :: k in before <==> k in components && Networked(components[k])
      requires forall k :: k in before ==> PartState(components[k]) == before[k]
      ensures States() == before
    {
      assert forall k :: k in States() <==> k in before;
    }

    /** Two drawable tables with the same types and values are equal. */
    lemma DrawnAgree(before: map<string, bool>)
      requires before.Keys == components.Keys
      requires forall k :: k in before ==> Drawn(components[k]) == before[k]
      ensures DrawnMap() == before
    {
    }

    /** With every transform's scale invariant, every reported state keeps
        its scale under applyNetworkState. */
    lemma StatesScaleKept()
      requires TransformsConsistent()
      ensures forall k :: k in States() ==> ScaleKept(States()[k])
    {
      forall k | k in States() ensures ScaleKept(States()[k]) {
        if components[k].TransformPart? {
          assert components[k].transform.ScaleConsistent();
        }
      }
    }

    /** One entry of applyNetworkState, seen from the whole entity: the
        scale invariant is kept, and a component given its own state leaves
        every component's state as it was. */
    method ApplyEntry(t: string, st: NetState)
      requires Valid() && t in components && Networked(components[t])
      modifies AllObjects()
      ensures components == old(components)
      ensures old(TransformsConsistent()) ==> TransformsConsistent()
      ensures st == old(PartState(components[t])) && old(TransformsConsistent()) ==>
        forall k :: k in components && Networked(components[k]) ==> PartState(components[k]) == old(PartState(components[k]))
      ensures States() == old(States())[t := Applied(components[t], old(States())[t], st, old(DrawnMap())[t])]
      ensures DrawnMap() == old(DrawnMap())
    {
      ghost var before := States();
      ghost var drawn := DrawnMap();
      NotAComponent();
      ApplyFrameInAllObjects(t);
      ApplyPart(t, st);
      StatesAgree(before[t := Applied(components[t], before[t], st, drawn[t])]);
      DrawnAgree(drawn);
    }

    /** The loop step of applyNetworkState: entry `i` goes to the held
        component of its type when that has applyNetworkState, which takes
        the table from the first `i` entries to the first `i + 1`. */
    method ApplyStep(entries: seq<(string, NetState)>, i: int, ghost before: map<string, NetState>, ghost drawn: map<string, bool>,
                     ghost objects: set<object>)
      requires Valid() && 0 <= i < |entries|
      requires forall k :: k in before <==> k in components && Networked(components[k])
      requires drawn.Keys == components.Keys
      requires States() == AppliedStates(components, before, entries[..i], drawn) && DrawnMap() == drawn
      requires objects == AllObjects()
      modifies AllObjects()
      ensures components == old(components)
      ensures States() == AppliedStates(components, before, entries[..i + 1], drawn) && DrawnMap() == drawn
      ensures old(TransformsConsistent()) ==> TransformsConsistent()
      ensures entries[i].0 !in components || !Networked(components[entries[i].0]) ==> unchanged(objects)
    {
      var (t, st) := entries[i];
      NotAComponent();
      AppliedStatesSnoc(components, before, entries, i, drawn);
      if t in components && Networked(components[t]) {
        ApplyEntry(t, st);
      }
    }

    /** The loop of applyNetworkState: the entries in order, each through
        ApplyStep, taking the table `before` to the one the entries give. */
    method ApplyEntries(entries: seq<(string, NetState)>, ghost before: map<string, NetState>, ghost drawn: map<string, bool>,
                        ghost objects: set<object>)
      requires Valid() && before == States() && drawn == DrawnMap() && objects == AllObjects()
      modifies AllObjects()
      ensures components == old(components)
      ensures States() == AppliedStates(components, before, entries, drawn) && DrawnMap() == drawn
      ensures old(TransformsConsistent()) ==> TransformsConsistent()
      ensures (forall e :: e in entries ==> e.0 !in components || !Networked(components[e.0])) ==> unchanged(objects)
    {
      ghost var ignored := forall e :: e in entries ==> e.0 !in components || !Networked(components[e.0]);
      NotAComponent();
      assert AppliedStates(components, before, entries[..0], drawn) == before;
      for i := 0 to |entries|
        invariant components == old(components)
        invariant ignored ==> unchanged(objects)
        invariant old(TransformsConsistent()) ==> TransformsConsistent()
        invariant States() == AppliedStates(components, before, entries[..i], drawn)
        invariant DrawnMap() == drawn
      {
        assert entries[i] in entries;
        ApplyStep(entries, i, before, drawn, objects);
        assert States() == AppliedStates(components, before, entries[..i + 1], drawn);
      }
      assert entries[..|entries|] == entries;
    }

    /** applyNetworkState, given the `components` of the state as its
        entries in order: each entry goes to the held component of that type
        when it has applyNetworkState; entries for other types are ignored,
        so a state naming no such component changes nothing. Applying the
        entity's own state leaves every component's state as it was. */
    method ApplyNetworkState(entries: seq<(string, NetState)>)
      requires Valid()
      modifies AllObjects()
      ensures components == old(components)
      ensures Valid()
      ensures (forall e :: e in entries ==> e.0 !in components || !Networked(components[e.0])) ==> unchanged(AllObjects())
      ensures old(TransformsConsistent()) ==> TransformsConsistent()
      ensures entries == Entries(order, old(States())) && old(TransformsConsistent()) ==> States() == old(States())
      ensures States() == AppliedStates(components, old(States()), entries, old(DrawnMap()))
      ensures forall k :: k in old(States()) && (forall e :: e in entries ==> e.0 != k) ==> States()[k] == old(States())[k]
    {
      ghost var before := States();
      ghost var drawn := DrawnMap();
      ghost var own := entries == Entries(order, before) && TransformsConsistent();
      if own {
        StatesScaleKept();
      }
      NotAComponent();
      ApplyEntries(entries, before, drawn, AllObjects());
      if own {
        OwnEntriesKeep(components, order, before, drawn);
      }
    }
  }
}
