/** The VirtualHand component: its fields are updated in place by Start and
    by each FixedUpdate, which runs one branch of a conditional over the
    current state and is proved to follow `HandMachine.Tick`. */
module VirtualHandComponent {
  import opened HandMachine

  class VirtualHand {
    /** Multiplier applied to the hand's velocities when a held body is released. */
    var speed: real
    var state: VirtualHandState
    /** The grasp joint, as the body it is attached to; None when there is no joint. */
    var grasp: Option<ObjId>
    /** `hand.type` of the hand interactive. */
    var handType: AffectType
    /** The scene as the hand changes it. */
    var removed: set<ObjId>
    var velocity: map<ObjId, Vec3>
    var angularVelocity: map<ObjId, Vec3>

    function Snapshot(): Config
      reads this
    {
      Config(state, grasp, handType, World(removed, velocity, angularVelocity))
    }

    /** The component's invariant: solid exactly when Closed, a grasp only while Holding. */
    predicate Valid()
      reads this
    {
      Inv(Snapshot())
    }

    /** A newly added component: default fields, the interactive's mode as configured. */
    constructor (configuredType: AffectType, scene: World)
      ensures Snapshot() == Fresh(configuredType, scene)
      ensures speed == 1.0
    {
      speed := 1.0;
      state := Open;
      grasp := None;
      handType := configuredType;
      removed, velocity, angularVelocity := scene.removed, scene.velocity, scene.angularVelocity;
    }

    method Start()
      modifies this
      ensures Snapshot() == HandMachine.Start(old(Snapshot()))
      ensures speed == old(speed)
      ensures old(grasp).None? ==> Valid()
    {
      state := Open;
      handType := Virtual;
    }

    /** One physics tick; `faulted` reports the exception thrown when the
        first overlap is read from an empty list, which leaves every field alone. */
    method FixedUpdate(input: Input) returns (faulted: bool)
      modifies this
      ensures speed == old(speed)
      ensures faulted == Tick(old(Snapshot()), input, speed).IndexOutOfRange?
      ensures Snapshot() == Apply(old(Snapshot()), Update(input), speed)
      ensures old(Valid()) ==> Valid() && (grasp.Some? <==> state == Holding)
    {
      faulted := false;
      if state == Open {
        if input.triggerOngoing {
          state := Touching;
        } else if input.grabPressed {
          handType := Physical;
          state := Closed;
        } else {
          // nothing to do while open
        }
      } else if state == Closed {
        if !input.grabPressed {
          handType := Virtual;
          state := Open;
        } else {
          // nothing to do while closed
        }
      } else if state == Destroy {
        if !input.destroyPressed {
          state := Open;
        } else if |input.ongoingTriggers| == 0 {
          faulted := true;
        } else {
          var target := input.ongoingTriggers[0];
          if target.Some? {
            removed := removed + {target.value};
          }
        }
      } else if state == Touching {
        if !input.triggerOngoing {
          state := Open;
        } else if input.grabPressed && |input.ongoingTriggers| == 0 {
          faulted := true;
        } else if input.triggerOngoing && input.grabPressed && input.ongoingTriggers[0].Some? {
          grasp := input.ongoingTriggers[0];
          state := Holding;
        } else if input.triggerOngoing && input.destroyPressed {
          state := Destroy;
        } else {
          // nothing to do while touching
        }
      } else if state == Holding {
        if grasp.None? {
          state := Open;
        } else if !input.grabPressed && grasp.Some? {
          var target := grasp.value;
          grasp := None;
          velocity := velocity[target := Scale(input.handVelocity, speed)];
          angularVelocity := angularVelocity[target := Scale(input.handAngularVelocity, speed)];
          state := Open;
        } else {
          // nothing to do while holding
        }
      }
    }

    /** The physics engine destroys the grasp joint out of band. */
    method JointBreaks()
      modifies this
      ensures Snapshot() == BreakJoint(old(Snapshot()))
      ensures speed == old(speed)
      ensures old(Valid()) ==> Valid()
    {
      grasp := None;
    }
  }
}
