/** `engine.Model`: the player's position and speed, moved by the
    movement commands of one input call and re-tiered by its speed
    commands. Float arithmetic is exact real arithmetic here, and the
    normalised sideways direction `orientation × up / |orientation × up|`
    is given, since normalising takes a square root. */
module Avatar {
  import opened Vectors
  import opened Commands
  import Controller

  /** The three speed tiers: `1.0f`, and `0.1f` and `0.025f` as the
      binary32 values those literals round to. */
  const SpeedOne: real := 1.0
  const SpeedTenth: real := 13421773.0 / 134217728.0
  const SpeedQuarterTenth: real := 13421773.0 / 536870912.0

  datatype Avatar = Avatar(position: Vec3, speed: real)

  /** 1 when the command is present, 0 otherwise. */
  function Count(cmds: set<Command>, c: Command): real {
    if c in cmds then 1.0 else 0.0
  }

  /** `moveForward` then `moveBackward`: each adds the view direction
      scaled by the current speed, with the sign of its direction. */
  function Along(p: Vec3, cmds: set<Command>, orientation: Vec3, speed: real): (q: Vec3)
    ensures q == Plus(p, Times(orientation, speed * (Count(cmds, Forward) - Count(cmds, Backward))))
  {
    var p1 := if Forward in cmds then Plus(p, Times(orientation, speed)) else p;
    if Backward in cmds then Plus(p1, Times(orientation, -speed)) else p1
  }

  /** `moveLeft` then `moveRight`, along the sideways direction. */
  function Sideways(p: Vec3, cmds: set<Command>, side: Vec3, speed: real): (q: Vec3)
    ensures q == Plus(p, Times(side, speed * (Count(cmds, Right) - Count(cmds, Left))))
  {
    var p1 := if Left in cmds then Plus(p, Times(side, -speed)) else p;
    if Right in cmds then Plus(p1, Times(side, speed)) else p1
  }

  /** The four movement calls of `handleInput`, in source order. */
  function Move(p: Vec3, cmds: set<Command>, orientation: Vec3, side: Vec3, speed: real): (q: Vec3)
    ensures q == Plus(p, Plus(Times(orientation, speed * (Count(cmds, Forward) - Count(cmds, Backward))),
                            Times(side, speed * (Count(cmds, Right) - Count(cmds, Left)))))
  {
    Sideways(Along(p, cmds, orientation, speed), cmds, side, speed)
  }

  /** The three speed assignments, checked in that order, so the last
      present one wins. */
  function Retier(speed: real, cmds: set<Command>): real {
    var s1 := if Speed1 in cmds then SpeedOne else speed;
    var s2 := if Speed01 in cmds then SpeedTenth else s1;
    if Speed0025 in cmds then SpeedQuarterTenth else s2
  }

  /** `handleInput`: move with the speed the call started with, then
      choose the speed for the next call. */
  function HandleInput(a: Avatar, cmds: set<Command>, orientation: Vec3, side: Vec3): (r: Avatar)
    ensures Speed0025 in cmds ==> r.speed == SpeedQuarterTenth
    ensures Speed0025 !in cmds && Speed01 in cmds ==> r.speed == SpeedTenth
    ensures Speed0025 !in cmds && Speed01 !in cmds && Speed1 in cmds ==> r.speed == SpeedOne
    ensures Speed0025 !in cmds && Speed01 !in cmds && Speed1 !in cmds ==> r.speed == a.speed
    ensures r.position == Plus(a.position, Plus(Times(orientation, a.speed * (Count(cmds, Forward) - Count(cmds, Backward))),
                                             Times(side, a.speed * (Count(cmds, Right) - Count(cmds, Left)))))
  {
    Avatar(Move(a.position, cmds, orientation, side, a.speed), Retier(a.speed, cmds))
  }

  /** Commands without movement leave the position where it was. */
  lemma StandStill(a: Avatar, cmds: set<Command>, orientation: Vec3, side: Vec3)
    requires Forward !in cmds && Backward !in cmds && Left !in cmds && Right !in cmds
    ensures HandleInput(a, cmds, orientation, side).position == a.position
  {
  }

  /** Forward and backward together cancel, and so do left and right. */
  lemma OppositesCancel(a: Avatar, cmds: set<Command>, orientation: Vec3, side: Vec3)
    requires (Forward in cmds) == (Backward in cmds) && (Left in cmds) == (Right in cmds)
    ensures HandleInput(a, cmds, orientation, side).position == a.position
  {
  }

  /** A speed command applies from the next call on: pressing forward
      together with a new tier moves by the old speed first and by the
      new one on the next call. */
  lemma TierAppliesNextCall(a: Avatar, orientation: Vec3, side: Vec3)
    ensures var b := HandleInput(a, {Forward, Speed1}, orientation, side);
            && b.position == Plus(a.position, Times(orientation, a.speed))
            && HandleInput(b, {Forward}, orientation, side).position == Plus(b.position, Times(orientation, SpeedOne))
  {
    var b := HandleInput(a, {Forward, Speed1}, orientation, side);
    assert Count({Forward, Speed1}, Forward) == 1.0 && Count({Forward, Speed1}, Backward) == 0.0;
    assert Count({Forward, Speed1}, Left) == 0.0 && Count({Forward, Speed1}, Right) == 0.0;
    assert Count({Forward}, Forward) == 1.0 && Count({Forward}, Backward) == 0.0;
    assert Count({Forward}, Left) == 0.0 && Count({Forward}, Right) == 0.0;
  }

  /** If `Input`'s command set were handed to `handleInput` (no live code
      does this: the one call site, in the engine's `handleInput`, is
      commented out), then with Control down the next speed would be
      0.025, otherwise Shift gives 1 and no Shift gives 0.1; there is
      always a tier, so the old speed never survives an `Input` call. */
  lemma SpeedFromKeys(c: Controller.Controller, kb: Controller.Keyboard, a: Avatar, orientation: Vec3, side: Vec3)
    ensures var r := HandleInput(a, Controller.Input(c, kb).0.commands, orientation, side);
            && (kb(Controller.LeftControl) == Controller.Pressed ==> r.speed == SpeedQuarterTenth)
            && (kb(Controller.LeftControl) == Controller.Released && kb(Controller.LeftShift) == Controller.Pressed ==> r.speed == SpeedOne)
            && (kb(Controller.LeftControl) == Controller.Released && kb(Controller.LeftShift) == Controller.Released ==> r.speed == SpeedTenth)
  {
    var cmds := Controller.Input(c, kb).0.commands;
    assert Speed1 in cmds <==> kb(Controller.LeftShift) == Controller.Pressed;
    assert Speed01 in cmds <==> kb(Controller.LeftShift) == Controller.Released;
    assert Speed0025 in cmds <==> kb(Controller.LeftControl) == Controller.Pressed;
  }
}
