/** Concrete runs of the hand: closing, grasping, throwing, a broken grasp,
    and holding the destroy button over one object. */
module HandScenarios {
  import opened HandMachine
  import HandProperties

  function Pressing(overlaps: seq<Option<ObjId>>, grab: bool, destroy: bool, v: Vec3): Input {
    Input(|overlaps| > 0, overlaps, grab, destroy, v, Vec3(0.0, 0.0, 0.0))
  }

  /** Open with nothing overlapping and grab pressed: the hand closes and is solid. */
  lemma GrabInEmptySpaceCloses(w: World, v: Vec3)
    ensures var c := Config(Open, None, Virtual, w);
      Tick(c, Pressing([], true, false, v), 1.0) == Done(Config(Closed, None, Physical, w))
  {
  }

  /** Touching one body with grab pressed: the hand holds it. */
  lemma GrabOverBodyHolds(x: ObjId, w: World, v: Vec3)
    ensures var c := Config(Touching, None, Virtual, w);
      Tick(c, Pressing([Some(x)], true, false, v), 1.0) == Done(Config(Holding, Some(x), Virtual, w))
  {
  }

  /** Releasing a held body while the hand moves at (1,0,0) with amplifier 2
      throws the body at (2,0,0) and drops the grasp. */
  lemma ReleaseThrowsAtTwiceHandSpeed(x: ObjId, w: World)
    ensures var c := Config(Holding, Some(x), Virtual, w);
      var r := Tick(c, Pressing([Some(x)], false, false, Vec3(1.0, 0.0, 0.0)), 2.0);
      r.Done? && r.next.state == Open && r.next.grasp == None
      && r.next.world.velocity[x] == Vec3(2.0, 0.0, 0.0)
  {
    var c := Config(Holding, Some(x), Virtual, w);
    var input := Pressing([Some(x)], false, false, Vec3(1.0, 0.0, 0.0));
    HandProperties.HoldingTransitions(c, input, 2.0);
    assert Scale(Vec3(1.0, 0.0, 0.0), 2.0) == Vec3(2.0, 0.0, 0.0);
  }

  /** A joint broken by the engine while holding: the next tick reopens the
      hand and assigns no velocity, even with grab released. */
  lemma BrokenGraspAssignsNoVelocity(x: ObjId, w: World, v: Vec3)
    ensures var c := Config(Holding, Some(x), Virtual, w);
      Run(c, [JointBreak, Update(Pressing([Some(x)], false, false, v))], 1.0)
        == Config(Open, None, Virtual, w)
  {
    var c := Config(Holding, Some(x), Virtual, w);
    var tick := Update(Pressing([Some(x)], false, false, v));
    var broken := Apply(c, JointBreak, 1.0);
    assert broken == Config(Holding, None, Virtual, w);
    assert [JointBreak, tick][1..] == [tick];
    assert Run(c, [JointBreak, tick], 1.0) == Run(broken, [tick], 1.0);
    assert [tick][1..] == [];
    assert Run(broken, [tick], 1.0) == Apply(broken, tick, 1.0);
  }

  /** Destroy held for three ticks over one body removes it on the first
      tick only; releasing the button on the fourth tick reopens the hand. */
  lemma DestroyHeldThenReleased(y: ObjId, w: World, v: Vec3)
    ensures var c := Config(Destroy, None, Virtual, w);
      var held := Update(Pressing([Some(y)], false, true, v));
      var after1 := Run(c, [held], 1.0);
      after1.world.removed == w.removed + {y}
      && Run(c, [held, held, held], 1.0) == after1
      && Run(c, [held, held, held, Update(Pressing([Some(y)], false, false, v))], 1.0)
           == after1.(state := Open)
  {
    var c := Config(Destroy, None, Virtual, w);
    var held := Update(Pressing([Some(y)], false, true, v));
    var release := Update(Pressing([Some(y)], false, false, v));
    var after1 := Apply(c, held, 1.0);
    assert after1 == c.(world := w.(removed := w.removed + {y}));
    assert Apply(after1, held, 1.0) == after1;
    assert [held][1..] == [];
    assert Run(after1, [held], 1.0) == after1;
    assert [held, held][1..] == [held];
    assert Run(after1, [held, held], 1.0) == after1;
    assert [held, held, held][1..] == [held, held];
    assert Run(c, [held, held, held], 1.0) == after1;
    assert [release][1..] == [];
    assert Run(after1, [release], 1.0) == after1.(state := Open);
    assert [held, release][1..] == [release];
    assert Run(after1, [held, release], 1.0) == after1.(state := Open);
    assert [held, held, release][1..] == [held, release];
    assert Run(after1, [held, held, release], 1.0) == after1.(state := Open);
    assert [held, held, held, release][1..] == [held, held, release];
  }
}
