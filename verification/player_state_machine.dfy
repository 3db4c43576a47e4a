/** The player's movement state machine of src/components/PlayerStateMachine.js:
    standing, walking, running or dashing, driven each frame by the keyboard
    state and the elapsed time, with a dash that lasts 250 ms and can be
    repeated only after a 1000 ms cooldown. Velocities go to the entity's
    physics capability. Keyboard polling is outside the model: the input
    state and the keyboard's movement direction are inputs. */
module PlayerStateMachineModel {
  import opened Common
  import opened ComponentModel
  import PhysicsModel

  datatype MovementState = Standing | Walking | Running | Dashing

  /** The keyboard's `inputState`. */
  datatype InputState = InputState(up: bool, down: bool, left: bool, right: bool, sprint: bool, dash: bool)

  /** The keyboard component as the machine reads it: its input state and
      its `getMovementDirection()`. */
  datatype Keyboard = Keyboard(inputState: InputState, direction: Vec)

  const MaxDashCooldown: real := 1000.0
  const MaxDashDuration: real := 250.0
  const DashSpeed: real := 800.0
  const WalkSpeed: real := 200.0
  const RunSpeed: real := 350.0

  /** Whether any direction key is held. */
  predicate AnyDirection(input: InputState)
  {
    input.up || input.down || input.left || input.right
  }

  /** The state input selects outside a dash: running with sprint held,
      walking without, standing with no direction held. */
  function StateFor(input: InputState): (s: MovementState)
    ensures s == Standing <==> !AnyDirection(input)
    ensures s == Running <==> AnyDirection(input) && input.sprint
    ensures s != Dashing
  {
    if AnyDirection(input) then (if input.sprint then Running else Walking) else Standing
  }

  /** The speed of `applyMovement`'s table: 200 walking, 350 running,
      0 otherwise. */
  function Speed(s: MovementState): (v: real)
    ensures s == Walking ==> v == WalkSpeed
    ensures s == Running ==> v == RunSpeed
    ensures s != Walking && s != Running ==> v == 0.0
  {
    match s
    case Walking => WalkSpeed
    case Running => RunSpeed
    case _ => 0.0
  }

  /** The direction the keys give: left and right, and up and down,
      cancel out. */
  function KeyDirection(input: InputState): (d: Vec)
    ensures d.x == (if input.right then 1.0 else 0.0) - (if input.left then 1.0 else 0.0)
    ensures d.y == (if input.down then 1.0 else 0.0) - (if input.up then 1.0 else 0.0)
  {
    Vec((if input.left then -1.0 else 0.0) + (if input.right then 1.0 else 0.0),
        (if input.up then -1.0 else 0.0) + (if input.down then 1.0 else 0.0))
  }

  /** The velocity `applyMovement` sets outside a dash: zero without
      movement, otherwise the key direction, divided on a diagonal by the
      floating-point value `root2` of `Math.sqrt(2)`, times the state's
      speed. */
  function MovementVelocity(s: MovementState, input: InputState, root2: real): (v: Vec)
    requires root2 > 0.0
    ensures KeyDirection(input) == Vec(0.0, 0.0) ==> v == Vec(0.0, 0.0)
    ensures s == Standing ==> v == Vec(0.0, 0.0)
    ensures KeyDirection(input).x == 0.0 || KeyDirection(input).y == 0.0 ==>
      v == Vec(KeyDirection(input).x * Speed(s), KeyDirection(input).y * Speed(s))
  {
    var d := KeyDirection(input);
    if d.x == 0.0 && d.y == 0.0 then Vec(0.0, 0.0)
    else if d.x != 0.0 && d.y != 0.0 then Vec(d.x / root2 * Speed(s), d.y / root2 * Speed(s))
    else Vec(d.x * Speed(s), d.y * Speed(s))
  }

  /** The part of the machine's state a frame advances: the movement
      state, the dash cooldown and the time left on the dash. */
  datatype Phase = Phase(state: MovementState, cooldown: real, duration: real)

  /** One frame of `updateMovementState` with a keyboard present. A dash
      runs down and, once spent, hands over to the state the input picks;
      otherwise the cooldown runs down (clamped at 0) and dash pressed with
      the cooldown spent starts a new dash unless standing. */
  function StepMovement(p: Phase, input: InputState, deltaTime: real): (n: Phase)
    ensures n.state == Dashing || n.state == StateFor(input)
    ensures p.state == Dashing ==> n.cooldown == p.cooldown
    ensures p.state == Dashing && n.state == Dashing ==> n.duration == p.duration - deltaTime > 0.0
    ensures p.state != Dashing && n.state == Dashing ==>
      input.dash && p.state != Standing && n.cooldown == MaxDashCooldown && n.duration == MaxDashDuration
    ensures p.cooldown >= 0.0 ==> n.cooldown >= 0.0
    ensures n.state != Dashing && (p.state == Dashing || p.duration == 0.0) ==> n.duration == 0.0
  {
    if p.state == Dashing then
      if p.duration - deltaTime <= 0.0 then Phase(StateFor(input), p.cooldown, 0.0)
      else Phase(Dashing, p.cooldown, p.duration - deltaTime)
    else
      var cooldown := if p.cooldown > 0.0 then (if p.cooldown - deltaTime < 0.0 then 0.0 else p.cooldown - deltaTime) else p.cooldown;
      if input.dash && cooldown == 0.0 && p.state != Standing then Phase(Dashing, MaxDashCooldown, MaxDashDuration)
      else Phase(StateFor(input), cooldown, p.duration)
  }

  /** A dash cannot start while more of the cooldown is left than the
      frame takes off it. */
  lemma NoDashDuringCooldown(p: Phase, input: InputState, deltaTime: real)
    requires p.state != Dashing && p.cooldown > 0.0 && p.cooldown - deltaTime > 0.0
    ensures StepMovement(p, input, deltaTime).state == StateFor(input)
  {
  }

  /** Once a dash has started, the next frames keep dashing until its
      250 ms have been used up. */
  lemma DashLasts(p: Phase, input: InputState, deltaTime: real)
    requires p.state == Dashing && deltaTime < p.duration
    ensures StepMovement(p, input, deltaTime) == Phase(Dashing, p.cooldown, p.duration - deltaTime)
  {
  }

  /** The attack each movement state performs with each button. */
  datatype Attack =
    | PreciseStrike | DefensiveCounter
    | MobileStrike | DirectionalPowerMove
    | LungingStrike | SpinningAreaAttack
    | PiercingAttack | ShockwaveBlast

  /** The dispatch of `attack`: the movement state picks the family and the
      attack type `'primary'` the first of its two; any other type the
      second. */
  function AttackFor(s: MovementState, attackType: string): (a: Attack)
  {
    var primary := attackType == "primary";
    match s
    case Standing => if primary then PreciseStrike else DefensiveCounter
    case Walking => if primary then MobileStrike else DirectionalPowerMove
    case Running => if primary then LungingStrike else SpinningAreaAttack
    case Dashing => if primary then PiercingAttack else ShockwaveBlast
  }

  /** Every state and button pair has an attack of its own: the attack
      performed tells the state and whether the button was primary. */
  lemma AttackForInjective(s1: MovementState, t1: string, s2: MovementState, t2: string)
    requires AttackFor(s1, t1) == AttackFor(s2, t2)
    ensures s1 == s2 && (t1 == "primary" <==> t2 == "primary")
  {
  }

  /** The `player:attack` event: the attack type and the movement state. */
  datatype AttackEvent = AttackEvent(attack: Attack, attackType: string, movementState: MovementState)

  class PlayerStateMachine {
    /** The component-base part, of type `'playerStateMachine'`. */
    const base: Component
    var currentMovementState: MovementState
    var dashCooldown: real
    var dashDuration: real
    var dashDirection: Vec

    /** The machine's invariant: the cooldown never goes negative, a dash
        is under way exactly while time is left on it, and dashes in a
        direction. */
    ghost predicate Valid()
      reads this
    {
      dashCooldown >= 0.0 &&
      (currentMovementState == Dashing ==> dashDuration > 0.0 && dashDirection != Vec(0.0, 0.0)) &&
      (currentMovementState != Dashing ==> dashDuration == 0.0)
    }

    function MovementPhase(): (p: Phase)
      reads this
      ensures p.state == currentMovementState && p.cooldown == dashCooldown && p.duration == dashDuration
    {
      Phase(currentMovementState, dashCooldown, dashDuration)
    }

    /** A new machine stands still with no cooldown or dash pending, and
        requires a keyboard and a physics capability. */
    constructor ()
      ensures Valid()
      ensures fresh(base) && base.componentType == "playerStateMachine" && base.entity == None
      ensures base.dependencies == ["keyboard", "physics"] && base.optional == []
      ensures currentMovementState == Standing && dashCooldown == 0.0 && dashDuration == 0.0
      ensures dashDirection == Vec(0.0, 0.0)
    {
      base := new Component("playerStateMachine");
      currentMovementState := Standing;
      dashCooldown := 0.0;
      dashDuration := 0.0;
      dashDirection := Vec(0.0, 0.0);
      new;
      base.RequireComponent("keyboard");
      base.RequireComponent("physics");
    }

    /** applyDashForce: with a physics capability, its velocity becomes the
        dash direction times 800. */
    method ApplyDashForce(physics: Option<PhysicsModel.PhysicsCapability>, visual: Option<PhysicsModel.Visual>)
      modifies if physics.Some? then {physics.value} else {}, PhysicsModel.VisualFrame(visual)`gameObject
      ensures physics.Some? ==> physics.value.velocity == Vec(dashDirection.x * DashSpeed, dashDirection.y * DashSpeed)
    {
      if physics.Some? {
        physics.value.SetVelocity(dashDirection.x * DashSpeed, dashDirection.y * DashSpeed, visual);
      }
    }

    /** startDash: nothing while standing or without a keyboard. Otherwise
        the dash heads along the keyboard's direction, or down when that is
        zero, lasts 250 ms, restarts the 1000 ms cooldown, and sets the
        dash velocity. */
    method StartDash(keyboard: Option<Vec>, physics: Option<PhysicsModel.PhysicsCapability>, visual: Option<PhysicsModel.Visual>)
      requires Valid()
      modifies this, if physics.Some? then {physics.value} else {}, PhysicsModel.VisualFrame(visual)`gameObject
      ensures Valid()
      ensures old(currentMovementState) == Standing || keyboard.None? ==>
        currentMovementState == old(currentMovementState) && dashCooldown == old(dashCooldown) &&
        dashDuration == old(dashDuration) && dashDirection == old(dashDirection) &&
        (physics.Some? ==> physics.value.velocity == old(physics.value.velocity))
      ensures old(currentMovementState) != Standing && keyboard.Some? ==>
        currentMovementState == Dashing && dashDuration == MaxDashDuration && dashCooldown == MaxDashCooldown &&
        dashDirection == (if keyboard.value == Vec(0.0, 0.0) then Vec(0.0, 1.0) else keyboard.value) &&
        (physics.Some? ==> physics.value.velocity == Vec(dashDirection.x * DashSpeed, dashDirection.y * DashSpeed))
    {
      if currentMovementState == Standing {
        return;
      }
      if keyboard.None? {
        return;
      }
      dashDirection := keyboard.value;
      if dashDirection.x == 0.0 && dashDirection.y == 0.0 {
        dashDirection := Vec(0.0, 1.0);
      }
      currentMovementState := Dashing;
      dashDuration := MaxDashDuration;
      dashCooldown := MaxDashCooldown;
      ApplyDashForce(physics, visual);
    }

    /** updateMovementState. While dashing only the dash time runs down; when
        it is used up it is clamped to 0 and the input picks the next state.
        Otherwise the cooldown runs down to no less than 0, a dash starts
        when dash is pressed with the cooldown spent and the player not
        standing, and else the input picks the state. */
    method UpdateMovementState(input: InputState, deltaTime: real, keyboard: Option<Vec>,
                               physics: Option<PhysicsModel.PhysicsCapability>, visual: Option<PhysicsModel.Visual>)
      requires Valid()
      modifies this, if physics.Some? then {physics.value} else {}, PhysicsModel.VisualFrame(visual)`gameObject
      ensures Valid()
      ensures old(currentMovementState) == Dashing ==>
        dashCooldown == old(dashCooldown) &&
        (old(dashDuration) - deltaTime > 0.0 ==> currentMovementState == Dashing && dashDuration == old(dashDuration) - deltaTime) &&
        (old(dashDuration) - deltaTime <= 0.0 ==> currentMovementState == StateFor(input) && dashDuration == 0.0)
      ensures old(currentMovementState) != Dashing ==>
        var cooldown := if old(dashCooldown) - deltaTime < 0.0 && old(dashCooldown) > 0.0 then 0.0
                        else if old(dashCooldown) > 0.0 then old(dashCooldown) - deltaTime else old(dashCooldown);
        var dashes := input.dash && cooldown == 0.0 && old(currentMovementState) != Standing && keyboard.Some?;
        (dashes ==> (currentMovementState == Dashing && dashCooldown == MaxDashCooldown && dashDuration == MaxDashDuration &&
                     dashDirection == (if keyboard.value == Vec(0.0, 0.0) then Vec(0.0, 1.0) else keyboard.value) &&
                     (physics.Some? ==> physics.value.velocity == Vec(dashDirection.x * DashSpeed, dashDirection.y * DashSpeed)))) &&
        (!dashes && !(input.dash && cooldown == 0.0 && old(currentMovementState) != Standing) ==>
          currentMovementState == StateFor(input) && dashCooldown == cooldown) &&
        (!dashes && input.dash && cooldown == 0.0 && old(currentMovementState) != Standing ==>
          currentMovementState == old(currentMovementState) && dashCooldown == 0.0)
      ensures keyboard.Some? ==> MovementPhase() == StepMovement(old(MovementPhase()), input, deltaTime)
      ensures old(currentMovementState) == Dashing ==> dashDirection == old(dashDirection)
      ensures currentMovementState != Dashing || old(currentMovementState) == Dashing ==>
        physics.Some? ==> physics.value.velocity == old(physics.value.velocity)
    {
      if currentMovementState == Dashing {
        dashDuration := dashDuration - deltaTime;
        if dashDuration <= 0.0 {
          dashDuration := 0.0;
          currentMovementState := StateFor(input);
        }
        return;
      }
      if dashCooldown > 0.0 {
        dashCooldown := dashCooldown - deltaTime;
        if dashCooldown < 0.0 {
          dashCooldown := 0.0;
        }
      }
      if input.dash && dashCooldown == 0.0 && currentMovementState != Standing {
        StartDash(keyboard, physics, visual);
        return;
      }
      currentMovementState := StateFor(input);
    }

    /** applyMovement: nothing while dashing or without a physics capability;
        otherwise the capability's velocity becomes the movement velocity. */
    method ApplyMovement(input: InputState, root2: real,
                         physics: Option<PhysicsModel.PhysicsCapability>, visual: Option<PhysicsModel.Visual>)
      requires root2 > 0.0
      modifies if physics.Some? then {physics.value} else {}, PhysicsModel.VisualFrame(visual)`gameObject
      ensures physics.Some? && currentMovementState == Dashing ==> physics.value.velocity == old(physics.value.velocity)
      ensures physics.Some? && currentMovementState != Dashing ==>
        physics.value.velocity == MovementVelocity(currentMovementState, input, root2)
    {
      if currentMovementState == Dashing {
        return;
      }
      if physics.None? {
        return;
      }
      var v := MovementVelocity(currentMovementState, input, root2);
      physics.value.SetVelocity(v.x, v.y, visual);
    }

    /** update: without a keyboard nothing happens; otherwise the movement
        state is advanced and the movement applied. Afterwards the physics
        velocity matches the state: the movement velocity outside a dash,
        and the dash velocity on the frame a dash starts. */
    method Update(deltaTime: real, keyboard: Option<Keyboard>, root2: real,
                  physics: Option<PhysicsModel.PhysicsCapability>, visual: Option<PhysicsModel.Visual>)
      requires Valid() && root2 > 0.0
      modifies this, if physics.Some? then {physics.value} else {}, PhysicsModel.VisualFrame(visual)`gameObject
      ensures Valid()
      ensures keyboard.None? ==>
        currentMovementState == old(currentMovementState) && dashCooldown == old(dashCooldown) &&
        dashDuration == old(dashDuration) && dashDirection == old(dashDirection) &&
        (physics.Some? ==> physics.value.velocity == old(physics.value.velocity))
      ensures keyboard.Some? && physics.Some? && currentMovementState != Dashing ==>
        physics.value.velocity == MovementVelocity(currentMovementState, keyboard.value.inputState, root2)
      ensures keyboard.Some? && physics.Some? && currentMovementState == Dashing && old(currentMovementState) != Dashing ==>
        dashDuration == MaxDashDuration && dashCooldown == MaxDashCooldown &&
        physics.value.velocity == Vec(dashDirection.x * DashSpeed, dashDirection.y * DashSpeed)
      ensures keyboard.Some? ==> MovementPhase() == StepMovement(old(MovementPhase()), keyboard.value.inputState, deltaTime)
      ensures keyboard.Some? && physics.Some? && old(currentMovementState) == Dashing && currentMovementState == Dashing ==>
        physics.value.velocity == old(physics.value.velocity) && dashDirection == old(dashDirection)
    {
      if keyboard.None? {
        return;
      }
      UpdateMovementState(keyboard.value.inputState, deltaTime, Some(keyboard.value.direction), physics, visual);
      ApplyMovement(keyboard.value.inputState, root2, physics, visual);
    }

    /** attack: the attack the state and button select, reported as the
        `player:attack` event with the current movement state. */
    function Attack(attackType: string): (e: AttackEvent)
      reads this
      ensures e.movementState == currentMovementState && e.attackType == attackType
      ensures e.attack == AttackFor(currentMovementState, attackType)
    {
      AttackEvent(AttackFor(currentMovementState, attackType), attackType, currentMovementState)
    }
  }

  /** Holding left and right together counts as moving for the state
      (walking or running) but cancels out in the velocity, which is zero. */
  lemma OpposedKeysMoveNowhere(input: InputState, root2: real)
    requires root2 > 0.0 && input.left && input.right && !input.up && !input.down
    ensures StateFor(input) != Standing
    ensures MovementVelocity(StateFor(input), input, root2) == Vec(0.0, 0.0)
  {
  }
}
