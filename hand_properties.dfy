/** What the state machine of `HandMachine.Tick` promises: the transitions
    of each state with their precedences, the release law, idempotent
    removal, and the invariants kept along every run. */
module HandProperties {
  import opened HandMachine

  // ---- one tick, state by state ----

  /** Open: an overlap wins over the grab button; grab alone closes the hand
      and makes it solid; otherwise nothing happens. */
  lemma OpenTransitions(c: Config, input: Input, speed: real)
    requires c.state == Open
    ensures Tick(c, input, speed).Done?
    ensures var n := Tick(c, input, speed).next;
      n.grasp == c.grasp && n.world == c.world
      && (input.triggerOngoing ==> n.state == Touching && n.handType == c.handType)
      && (!input.triggerOngoing && input.grabPressed ==> n.state == Closed && n.handType == Physical)
      && (!input.triggerOngoing && !input.grabPressed ==> n == c)
  {
  }

  /** Closed: releasing grab reopens the hand and makes it virtual again;
      holding grab changes nothing. */
  lemma ClosedTransitions(c: Config, input: Input, speed: real)
    requires c.state == Closed
    ensures Tick(c, input, speed).Done?
    ensures var n := Tick(c, input, speed).next;
      n.grasp == c.grasp && n.world == c.world
      && (!input.grabPressed ==> n.state == Open && n.handType == Virtual)
      && (input.grabPressed ==> n == c)
  {
  }

  /** Touching: losing the overlap reopens; grab on a non-null first
      candidate grasps it; only when that does not fire does destroy enter
      the Destroy state; otherwise nothing happens. */
  lemma TouchingTransitions(c: Config, input: Input, speed: real)
    requires c.state == Touching
    requires !ReadsMissingCandidate(c.state, input)
    ensures Tick(c, input, speed).Done?
    ensures var n := Tick(c, input, speed).next;
      n.handType == c.handType && n.world == c.world
      && (!input.triggerOngoing ==> n == c.(state := Open))
      && (input.triggerOngoing && input.grabPressed && input.ongoingTriggers[0].Some? ==>
            n.state == Holding && n.grasp == input.ongoingTriggers[0])
      && (input.triggerOngoing && !(input.grabPressed && input.ongoingTriggers[0].Some?) ==>
            n == if input.destroyPressed then c.(state := Destroy) else c)
  {
  }

  /** Destroy: releasing the button reopens without removing anything; while
      it is held the first overlap, if not null, is removed, and a second
      identical tick has no further effect. */
  lemma DestroyTransitions(c: Config, input: Input, speed: real)
    requires c.state == Destroy
    requires !ReadsMissingCandidate(c.state, input)
    ensures Tick(c, input, speed).Done?
    ensures var n := Tick(c, input, speed).next;
      n.grasp == c.grasp && n.handType == c.handType
      && (!input.destroyPressed ==> n == c.(state := Open))
      && (input.destroyPressed ==>
            n.state == Destroy
            && n.world == c.world.(removed := c.world.removed + FirstCandidate(input))
            && Tick(n, input, speed) == Done(n))
  {
  }

  /** Holding: a broken grasp reopens with no velocity assigned; releasing
      grab on a live grasp drops it and throws the body with the hand's
      velocities times `speed`; holding grab changes nothing. */
  lemma HoldingTransitions(c: Config, input: Input, speed: real)
    requires c.state == Holding
    ensures Tick(c, input, speed).Done?
    ensures var n := Tick(c, input, speed).next;
      n.handType == c.handType && n.world.removed == c.world.removed
      && (c.grasp.None? ==> n == c.(state := Open))
      && (c.grasp.Some? && input.grabPressed ==> n == c)
      && (c.grasp.Some? && !input.grabPressed ==>
            var body := c.grasp.value;
            n.state == Open && n.grasp.None?
            && n.world.velocity == c.world.velocity[body := Scale(input.handVelocity, speed)]
            && n.world.angularVelocity == c.world.angularVelocity[body := Scale(input.handAngularVelocity, speed)])
  {
  }

  /** The release law componentwise: the thrown body's velocities are exactly
      the hand's multiplied by the speed amplifier. */
  lemma ReleaseVelocityLaw(c: Config, input: Input, speed: real)
    requires c.state == Holding && c.grasp.Some? && !input.grabPressed
    ensures var w := Tick(c, input, speed).next.world;
      var v := w.velocity[c.grasp.value];
      var a := w.angularVelocity[c.grasp.value];
      v.x == input.handVelocity.x * speed && v.y == input.handVelocity.y * speed
      && v.z == input.handVelocity.z * speed
      && a.x == input.handAngularVelocity.x * speed && a.y == input.handAngularVelocity.y * speed
      && a.z == input.handAngularVelocity.z * speed
  {
  }

  // ---- runs ----

  /** The invariant holds along every run that starts where it holds. */
  lemma {:induction false} RunKeepsInv(c: Config, events: seq<Event>, speed: real)
    requires Inv(c)
    ensures Inv(Run(c, events, speed))
    decreases |events|
  {
    if events != [] {
      RunKeepsInv(Apply(c, events[0], speed), events[1..], speed);
    }
  }

  /** From a freshly started component, any run keeps the invariant, and the
      grasp exists exactly while Holding unless the last event broke it. */
  lemma {:induction false} ReachableInv(handType: AffectType, w: World, events: seq<Event>, speed: real)
    ensures Inv(Run(Start(Fresh(handType, w)), events, speed))
    ensures events == [] || events[|events| - 1].Update? ==>
              GraspIffHolding(Run(Start(Fresh(handType, w)), events, speed))
    decreases |events|
  {
    var c := Start(Fresh(handType, w));
    RunKeepsInv(c, events, speed);
    if events != [] {
      var prefix := events[..|events| - 1];
      RunSnoc(c, prefix, events[|events| - 1], speed);
      assert prefix + [events[|events| - 1]] == events;
      RunKeepsInv(c, prefix, speed);
    }
  }

  /** A run extended by one event is that event applied after the run. */
  lemma {:induction false} RunSnoc(c: Config, events: seq<Event>, e: Event, speed: real)
    ensures Run(c, events + [e], speed) == Apply(Run(c, events, speed), e, speed)
    decreases |events|
  {
    if events == [] {
      assert [] + [e] == [e];
      assert [e][1..] == [];
    } else {
      assert (events + [e])[0] == events[0];
      assert (events + [e])[1..] == events[1..] + [e];
      RunSnoc(Apply(c, events[0], speed), events[1..], e, speed);
    }
  }

  /** The first overlaps of all ticks of a run. */
  function Candidates(events: seq<Event>): set<ObjId>
    decreases |events|
  {
    if events == [] then {}
    else (if events[0].Update? then FirstCandidate(events[0].input) else {}) + Candidates(events[1..])
  }

  /** Removal is never undone, and only first overlaps of some tick are removed. */
  lemma {:induction false} RunRemovesOnlyCandidates(c: Config, events: seq<Event>, speed: real)
    ensures c.world.removed <= Run(c, events, speed).world.removed
    ensures Run(c, events, speed).world.removed <= c.world.removed + Candidates(events)
    decreases |events|
  {
    if events != [] {
      RunRemovesOnlyCandidates(Apply(c, events[0], speed), events[1..], speed);
    }
  }

  /** A configuration that an event leaves alone stays put however often it recurs. */
  lemma {:induction false} RunFixpoint(c: Config, e: Event, n: nat, speed: real)
    requires Apply(c, e, speed) == c
    ensures Run(c, Repeat(e, n), speed) == c
    decreases n
  {
    if n > 0 {
      assert Repeat(e, n)[1..] == Repeat(e, n - 1);
      RunFixpoint(c, e, n - 1, speed);
    }
  }

  /** Holding destroy for n ticks over the same overlap removes the first
      candidate once: every tick after the first has no effect. */
  lemma {:induction false} DestroyHeldIdempotent(c: Config, input: Input, n: nat, speed: real)
    requires c.state == Destroy && input.destroyPressed && |input.ongoingTriggers| > 0
    requires n >= 1
    ensures var r := Run(c, Repeat(Update(input), n), speed);
      r == c.(world := c.world.(removed := c.world.removed + FirstCandidate(input)))
  {
    var first := Apply(c, Update(input), speed);
    DestroyTransitions(c, input, speed);
    assert Repeat(Update(input), n)[1..] == Repeat(Update(input), n - 1);
    RunFixpoint(first, Update(input), n - 1, speed);
  }
}
