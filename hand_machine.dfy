/** The virtual-hand interaction state machine as values: one fixed-timestep
    tick (`Tick`) over the hand's own fields and the part of the scene it
    acts on, the external breakage of the grasp joint, and runs of such
    events.  The class in virtual_hand.dfy is proved to follow `Tick`. */
module HandMachine {

  datatype Option<T> = None | Some(value: T)

  /** Identity of a scene object: a collider, its game object and its rigid body. */
  type ObjId = nat

  /** The five interaction states, in declaration order (Open is the default). */
  datatype VirtualHandState = Open | Touching | Holding | Closed | Destroy

  /** Collision mode of the hand interactive: Virtual passes through other
      bodies and only reports overlaps, Physical collides and pushes. */
  datatype AffectType = Virtual | Physical

  /** A velocity vector with exact real components. */
  datatype Vec3 = Vec3(x: real, y: real, z: real)

  function Scale(v: Vec3, k: real): Vec3 {
    Vec3(v.x * k, v.y * k, v.z * k)
  }

  /** What one tick reads: the overlap tracker of the hand interactive (a null
      reference is `None`), the two buttons, and the hand's velocities.  The
      overlaps are not tied to `World.removed`: an object whose removal was
      requested may still be listed, as it is until the engine destroys it. */
  datatype Input = Input(
    triggerOngoing: bool,
    ongoingTriggers: seq<Option<ObjId>>,
    grabPressed: bool,
    destroyPressed: bool,
    handVelocity: Vec3,
    handAngularVelocity: Vec3)

  /** The part of the scene the hand changes: objects whose removal it
      requested, and the velocities it assigned to released bodies. */
  datatype World = World(
    removed: set<ObjId>,
    velocity: map<ObjId, Vec3>,
    angularVelocity: map<ObjId, Vec3>)

  /** The hand's fields (`state`, the grasp joint as the body it is attached
      to, the interactive's collision mode) together with the world. */
  datatype Config = Config(
    state: VirtualHandState,
    grasp: Option<ObjId>,
    handType: AffectType,
    world: World)

  /** A tick either completes or throws because it indexes the first
      overlap of an empty list; the exception leaves every field as it was. */
  datatype TickResult = Done(next: Config) | IndexOutOfRange

  /** The transitions a single tick may take (staying put included). */
  predicate Edge(s: VirtualHandState, t: VirtualHandState) {
    s == t
    || (s == Open && (t == Touching || t == Closed))
    || (s == Closed && t == Open)
    || (s == Touching && (t == Open || t == Holding || t == Destroy))
    || (s == Destroy && t == Open)
    || (s == Holding && t == Open)
  }

  /** The invariant kept at all times: the hand is solid exactly in the
      Closed pose, and a live grasp exists only while Holding. */
  predicate Inv(c: Config) {
    (c.handType == Physical <==> c.state == Closed)
    && (c.grasp.Some? ==> c.state == Holding)
  }

  /** After every completed tick the grasp exists exactly while Holding. */
  predicate GraspIffHolding(c: Config) {
    Inv(c) && (c.grasp.Some? <==> c.state == Holding)
  }

  /** The ticks that read `ongoingTriggers[0]` while the list is empty. */
  predicate ReadsMissingCandidate(s: VirtualHandState, input: Input) {
    |input.ongoingTriggers| == 0
    && ((s == Destroy && input.destroyPressed)
        || (s == Touching && input.triggerOngoing && input.grabPressed))
  }

  /** The first overlap as a set: empty when the list is empty or it is null. */
  function FirstCandidate(input: Input): set<ObjId> {
    if |input.ongoingTriggers| > 0 && input.ongoingTriggers[0].Some?
    then {input.ongoingTriggers[0].value} else {}
  }

  /** The release: the body gets the hand's velocities times `speed`. */
  function Throw(w: World, target: ObjId, input: Input, speed: real): World {
    w.(velocity := w.velocity[target := Scale(input.handVelocity, speed)],
       angularVelocity := w.angularVelocity[target := Scale(input.handAngularVelocity, speed)])
  }

  /** The fields as a freshly created component has them: state Open (the
      enum's default), no grasp, the collision mode the scene configured. */
  function Fresh(handType: AffectType, w: World): Config {
    Config(Open, None, handType, w)
  }

  /** Start: the hand opens and its interactive is made virtual. */
  function Start(c: Config): (r: Config)
    ensures r.state == Open && r.handType == Virtual
    ensures r.grasp == c.grasp && r.world == c.world
    ensures c.grasp.None? ==> GraspIffHolding(r)
  {
    c.(state := Open, handType := Virtual)
  }

  /** One FixedUpdate: exactly one branch of the state's conditional runs. */
  function Tick(c: Config, input: Input, speed: real): (r: TickResult)
    ensures r.IndexOutOfRange? <==> ReadsMissingCandidate(c.state, input)
    ensures r.Done? ==> Edge(c.state, r.next.state)
    ensures r.Done? && Inv(c) ==> GraspIffHolding(r.next)
    // the collision mode changes only between Open and Closed
    ensures r.Done? && r.next.handType != c.handType ==>
              (c.state == Open && r.next.state == Closed) || (c.state == Closed && r.next.state == Open)
    // the grasp is created only on Touching -> Holding and dropped only on Holding -> Open
    ensures r.Done? && r.next.grasp != c.grasp ==>
              (c.state == Touching && r.next.state == Holding
               && r.next.grasp.Some? && r.next.grasp.value in FirstCandidate(input))
              || (c.state == Holding && r.next.state == Open && r.next.grasp.None?)
    // velocities are assigned only when a live grasp is released, and only to its body
    ensures r.Done? && (r.next.world.velocity != c.world.velocity
                        || r.next.world.angularVelocity != c.world.angularVelocity) ==>
              c.state == Holding && r.next.state == Open && c.grasp.Some?
              && r.next.world.velocity
                   == c.world.velocity[c.grasp.value := Scale(input.handVelocity, speed)]
              && r.next.world.angularVelocity
                   == c.world.angularVelocity[c.grasp.value := Scale(input.handAngularVelocity, speed)]
    // removal is requested only while Destroy is held, and only of the first overlap
    ensures r.Done? && r.next.world.removed != c.world.removed ==>
              c.state == Destroy && r.next.state == Destroy
              && r.next.world.removed == c.world.removed + FirstCandidate(input)
  {
    match c.state
    case Open =>
      if input.triggerOngoing then Done(c.(state := Touching))
      else if input.grabPressed then Done(c.(state := Closed, handType := Physical))
      else Done(c)
    case Closed =>
      if !input.grabPressed then Done(c.(state := Open, handType := Virtual))
      else Done(c)
    case Destroy =>
      if !input.destroyPressed then Done(c.(state := Open))
      else if |input.ongoingTriggers| == 0 then IndexOutOfRange
      else (match input.ongoingTriggers[0]
            case Some(target) => Done(c.(world := c.world.(removed := c.world.removed + {target})))
            case None => Done(c))
    case Touching =>
      if !input.triggerOngoing then Done(c.(state := Open))
      else if input.grabPressed && |input.ongoingTriggers| == 0 then IndexOutOfRange
      else if input.grabPressed && input.ongoingTriggers[0].Some? then
        Done(c.(grasp := input.ongoingTriggers[0], state := Holding))
      else if input.destroyPressed then Done(c.(state := Destroy))
      else Done(c)
    case Holding =>
      match c.grasp
      case None => Done(c.(state := Open))
      case Some(target) =>
        if !input.grabPressed then
          Done(c.(grasp := None, state := Open, world := Throw(c.world, target, input, speed)))
        else Done(c)
  }

  /** The physics engine breaks the grasp joint (e.g. an exceeded break force). */
  function BreakJoint(c: Config): (r: Config)
    ensures r.grasp.None? && r.state == c.state && r.handType == c.handType && r.world == c.world
    ensures Inv(c) ==> Inv(r)
  {
    c.(grasp := None)
  }

  /** What happens between two observations of the hand. */
  datatype Event = Update(input: Input) | JointBreak

  /** One event; a tick that throws changes nothing and the next one runs as usual. */
  function Apply(c: Config, e: Event, speed: real): (r: Config)
    ensures Inv(c) ==> Inv(r)
    ensures e.Update? && Inv(c) ==> GraspIffHolding(r)
    ensures Edge(c.state, r.state)
  {
    match e
    case JointBreak => BreakJoint(c)
    case Update(input) =>
      match Tick(c, input, speed)
      case Done(next) => next
      case IndexOutOfRange => c
  }

  function Run(c: Config, events: seq<Event>, speed: real): Config
    decreases |events|
  {
    if events == [] then c else Run(Apply(c, events[0], speed), events[1..], speed)
  }

  function Repeat(e: Event, n: nat): (r: seq<Event>)
    ensures |r| == n
    ensures forall i :: 0 <= i < n ==> r[i] == e
  {
    if n == 0 then [] else [e] + Repeat(e, n - 1)
  }
}
