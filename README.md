# VirtualHand interaction state machine

This project models the `VirtualHand` component of a Unity VR manipulation
project. Each physics tick (`FixedUpdate`), the hand reads three things: the
overlaps of its trigger volume, the grab and destroy buttons, and its own
velocities. It then runs exactly one branch of a conditional over its state
(Open, Touching, Holding, Closed, Destroy). That branch may:

- switch the hand interactive between Virtual and Physical collision;
- attach a fixed joint (the grasp) to the first overlapping object;
- break the joint and throw the released body with the hand's velocities times `speed`;
- destroy the first overlapping object.

The model has three parts.

- `HandMachine` (hand_machine.dfy) gives one tick as the function `Tick` over a
  `Config`. A `Config` holds the hand's fields and the part of the scene the
  hand changes: the set of removed objects and the velocities assigned to
  released bodies. The module also defines the external breakage of the joint,
  and runs made of such events.
- `HandProperties` (hand_properties.dfy) proves each state's transitions and
  their precedences, the release law, idempotent removal, and invariants over
  every run. `HandScenarios` (hand_scenarios.dfy) works through five concrete
  runs.
- `VirtualHandComponent.VirtualHand` (virtual_hand.dfy) is the component
  itself, a class with mutable fields. Its `FixedUpdate` follows the source
  branch for branch and is proved to produce exactly the state that `Tick`
  describes.

Velocities and `speed` are exact reals. An object is a natural number
(`ObjId`). A null reference in the overlap list is `None`; the null check of
VirtualHand.cs:157 is that case. The overlap list is not tied to the set of
removed objects: an object whose removal was already requested may still be
listed as `Some`, as it is in Unity until the engine carries out the deferred
destruction at the end of the frame.

Four behaviours of the code are easy to misread; the model follows the code.

- Reading `ongoingTriggers[0]` from an empty list throws. This happens in the
  Destroy state with the button held (VirtualHand.cs:155), and in Touching with
  an ongoing overlap and grab pressed (VirtualHand.cs:178). The exception aborts the tick before any
  field changes. `Tick` reports this as `IndexOutOfRange`, and a run treats it
  as a tick that changes nothing.
- From Touching, grab on a non-null first candidate takes priority over
  destroy. Destroy applies only when that grab branch does not fire.
- "A grasp exists iff the state is Holding" does not hold at every moment.
  When the engine breaks the joint, the state is still Holding with no grasp
  until the next tick. What holds always is "grasp implies Holding". After
  every completed tick the full equivalence holds (`GraspIffHolding`).
- `speed` is not required to be positive. It defaults to 1.0.

## Model

| member | source | states |
|---|---|---|
| HandMachine.Start | Assets/5UDE/Interactions/VirtualHand.cs:61-69 | Start leaves the hand Open with Virtual collision and touches neither the grasp nor the scene; from a component without a grasp this establishes the invariant with grasp-iff-Holding |
| HandMachine.Tick | Assets/5UDE/Interactions/VirtualHand.cs:92-239 | a tick throws exactly when it reads the first overlap of an empty list; otherwise the state moves only along the listed edges, the invariant is kept and grasp-iff-Holding holds afterwards; the collision mode changes only between Open and Closed, the grasp only on Touching→Holding (to the first candidate) or Holding→Open, velocities only on releasing a live grasp, where the linear and angular velocity maps change exactly at its body, to the hand's velocities times `speed`, removals only while Destroy is held (the first candidate only) |
| HandMachine.BreakJoint | Assets/5UDE/Interactions/VirtualHand.cs:210-215 | the engine's out-of-band breakage clears the grasp and changes nothing else, keeping the invariant |
| HandMachine.Apply | Assets/5UDE/Interactions/VirtualHand.cs:92-239 | every event (tick, faulting tick or joint breakage) keeps the invariant and moves along an edge; after a tick the grasp exists exactly while Holding |
| HandProperties.OpenTransitions | Assets/5UDE/Interactions/VirtualHand.cs:96-121 | from Open an overlap leads to Touching whatever the buttons; with no overlap, grab leads to Closed with Physical collision; otherwise nothing changes |
| HandProperties.ClosedTransitions | Assets/5UDE/Interactions/VirtualHand.cs:124-141 | from Closed, releasing grab leads to Open with Virtual collision; holding it changes nothing |
| HandProperties.TouchingTransitions | Assets/5UDE/Interactions/VirtualHand.cs:168-205 | from Touching, losing the overlap leads to Open; grab with a non-null first candidate grasps that candidate and leads to Holding; only otherwise does destroy lead to Destroy; else nothing changes |
| HandProperties.DestroyTransitions | Assets/5UDE/Interactions/VirtualHand.cs:145-165 | from Destroy, releasing the button leads to Open without removal; holding it removes the first candidate if non-null and stays in Destroy, and an identical second tick has no effect |
| HandProperties.HoldingTransitions | Assets/5UDE/Interactions/VirtualHand.cs:208-238 | from Holding, a broken grasp leads to Open with no velocity assigned; releasing grab on a live grasp drops it, sets the body's linear and angular velocity to the hand's times `speed` and leads to Open; holding grab changes nothing |
| HandProperties.ReleaseVelocityLaw | Assets/5UDE/Interactions/VirtualHand.cs:218-231 | each component of the thrown body's linear and angular velocity is exactly the hand's component times `speed` |
| HandProperties.RunKeepsInv | Assets/5UDE/Interactions/VirtualHand.cs:92-239 | "Physical iff Closed" and "grasp only while Holding" hold after any sequence of ticks and joint breakages |
| HandProperties.ReachableInv | Assets/5UDE/Interactions/VirtualHand.cs:61-239 | from a freshly started component every run keeps the invariant, and unless the last event broke the joint, the grasp exists exactly while Holding |
| HandProperties.RunRemovesOnlyCandidates | Assets/5UDE/Interactions/VirtualHand.cs:145-165 | along any run removals are never undone and every removed object was the first overlap of some tick |
| HandProperties.DestroyHeldIdempotent | Assets/5UDE/Interactions/VirtualHand.cs:145-162 | holding destroy for any n ≥ 1 ticks over the same overlaps removes the first candidate once and leaves everything else as after the first tick |
| HandScenarios.GrabInEmptySpaceCloses | Assets/5UDE/Interactions/VirtualHand.cs:105-112 | Open, nothing overlapping, grab pressed: next state Closed with Physical collision |
| HandScenarios.GrabOverBodyHolds | Assets/5UDE/Interactions/VirtualHand.cs:177-189 | Touching one body with grab pressed: next state Holding with the grasp on that body |
| HandScenarios.ReleaseThrowsAtTwiceHandSpeed | Assets/5UDE/Interactions/VirtualHand.cs:217-231 | hand velocity (1,0,0), amplifier 2, grab released: the body's velocity is (2,0,0), grasp gone, state Open |
| HandScenarios.BrokenGraspAssignsNoVelocity | Assets/5UDE/Interactions/VirtualHand.cs:210-215 | a joint broken while Holding: the next tick reopens the hand and leaves the scene's velocities as they were |
| HandScenarios.DestroyHeldThenReleased | Assets/5UDE/Interactions/VirtualHand.cs:145-162 | destroy held three ticks over one body removes it on tick one, ticks two and three change nothing, releasing on tick four reopens |
| VirtualHandComponent.VirtualHand.constructor | Assets/5UDE/Interactions/VirtualHand.cs:54-58 | a new component has `speed` 1.0, state Open, no grasp, and the collision mode the scene configured |
| VirtualHandComponent.VirtualHand.Start | Assets/5UDE/Interactions/VirtualHand.cs:61-69 | the fields afterwards are `HandMachine.Start` of the fields before; from a component without a grasp the invariant `Valid()` holds |
| VirtualHandComponent.VirtualHand.FixedUpdate | Assets/5UDE/Interactions/VirtualHand.cs:92-239 | updating the fields in place yields exactly `Tick`'s next configuration, or no change with `faulted` set when `Tick` reports the index fault; `speed` is unchanged; `Valid()` is kept and afterwards the grasp exists exactly while Holding |
| VirtualHandComponent.VirtualHand.JointBreaks | Assets/5UDE/Interactions/VirtualHand.cs:210-215 | the engine destroying the joint leaves the component without a grasp and otherwise unchanged, keeping `Valid()` |

## Left out

- `DestroyGameObject`, `DestroyScriptInstance` and `DestroyComponent` (VirtualHand.cs:72-87) are not modelled. Nothing calls them, and they only wrap the engine's `Destroy`.
- How the hand interactive computes `triggerOngoing` and `ongoingTriggers` from collision enter/exit events. The `Affect` class is not part of this model, so both values are inputs to each tick.
- Tracker and button polling are not modelled. Each button is one stable boolean per tick.
- `FixedJoint` physics (pose locking, break forces) is not modelled. The joint is an optional body, and its breakage is the external event `JointBreak`.
- Unity's deferred destruction is not modelled. Removal takes effect at once as membership in a set. Requesting an object again leaves that set unchanged.
- Float rounding of `speed` and of velocities is not modelled; both are exact reals.
- Rendering and the hand's visuals are not modelled.
