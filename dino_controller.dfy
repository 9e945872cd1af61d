/** The dino controller as the hook runs it: the refs and state variables
    are fields, and each timer callback or input handler is a method that
    updates them in place. Each method is proved to perform exactly the
    matching step of DinoPhysics, and to keep its invariant. */
module DinoController {
  import opened Geometry
  import opened DinoPhysics

  class Dino {
    var state: DinoState
    var position: int
    var acceleration: int
    /** The jump-decay counter (`accelerationCounter`). */
    var counter: int
    /** The floor height (`floorRef`). */
    var floor: int
    var flipping: bool
    var onTrain: bool
    /** The last over-train verdict (`isDinoOverTrainRef`). */
    var overTrain: bool

    /** The fields as one value. */
    function Snap(): Snapshot
      reads this
    {
      Snapshot(state, position, acceleration, counter, floor, flipping, onTrain, overTrain)
    }

    ghost predicate Valid()
      reads this
    {
      Inv(Snap())
    }

    /** The current speed, derived on demand rather than stored. */
    function CurrentSpeed(cfg: Config): (v: int)
      reads this
      ensures state.Idle? ==> v == 0
      ensures !state.Idle? ==> v == (if onTrain then cfg.speedOnTrain else cfg.speedRunning)
    {
      Speed(state, onTrain, cfg)
    }

    constructor ()
      ensures Valid() && Snap() == Initial
    {
      state := Idle;
      position := 0;
      acceleration := 0;
      counter := 0;
      floor := GroundFloor;
      flipping := false;
      onTrain := false;
      overTrain := false;
    }

    method StartDino()
      requires Valid()
      modifies this
      ensures Valid() && Snap() == Start(old(Snap()))
    {
      state := Running;
    }

    method StopDino()
      requires Valid()
      modifies this
      ensures Valid() && Snap() == Stop(old(Snap()))
    {
      state := Idle;
    }

    /** The floor poll, given this tick's measurements of the two elements. */
    method CalculateFloor(dinoBox: Option<Rect>, trainBox: Option<Rect>)
      requires Valid()
      modifies this
      ensures Valid() && Snap() == FloorStep(old(Snap()), dinoBox, trainBox)
    {
      var train := OrDefault(trainBox);
      var dino := OrDefault(dinoBox);
      var isOver := dino.left > train.left &&
                    dino.right < train.right - TrainRightMargin &&
                    dino.bottom <= train.top + TrainTopTolerance;
      overTrain := isOver;
      if isOver {
        floor := TrainFloor;
      } else {
        floor := GroundFloor;
      }
    }

    /** The gravity tick. */
    method Accelerate(cfg: Config)
      requires Valid()
      modifies this
      ensures Valid() && Snap() == GravityStep(old(Snap()), cfg)
    {
      if position > floor {
        acceleration := acceleration + cfg.gravity;
      }
    }

    /** The decay timeout (`dinoAccelerationTimeout`), without its rescheduling. */
    method AccelerationTimeout()
      requires Valid()
      modifies this
      ensures Valid() && Snap() == DecayStep(old(Snap()))
    {
      if counter > 0 {
        counter := counter - 1;
        acceleration := acceleration - 1;
      }
      if counter == 1 {
        flipping := true;
      }
    }

    /** The move tick, with the landing reset. */
    method Move()
      requires Valid()
      modifies this
      ensures Valid() && Snap() == MoveStep(old(Snap()))
    {
      var next := position - acceleration;
      position := if next > floor then next else floor;
      if next < floor {
        onTrain := floor > GroundFloor;
        state := Running;
        acceleration := 0;
        flipping := false;
      }
    }

    /** The button-down listener; `finished` is the game's finished flag. */
    method JumpButtonDown(e: Input, finished: bool, cfg: Config)
      requires Valid() && cfg.Valid()
      modifies this
      ensures Valid() && Snap() == Press(old(Snap()), e, finished, cfg)
    {
      if IsJumpPress(e) && state == Running && !finished {
        state := Jumping;
        acceleration := acceleration - cfg.minJump;
        counter := cfg.maxJump - cfg.minJump + 1;
      }
    }

    /** The button-up listener. */
    method JumpButtonUp(e: Input)
      requires Valid()
      modifies this
      ensures Valid() && Snap() == Release(old(Snap()), e)
    {
      if IsJumpRelease(e) {
        counter := 0;
      }
    }
  }

  /** A jump from the ground, held for two decay timeouts and released,
      driven through the controller's methods. */
  method JumpScenario()
  {
    var cfg := Config(1, 5, 8, 3, 7);
    var d := new Dino();
    d.StartDino();
    assert d.CurrentSpeed(cfg) == 3;
    d.JumpButtonDown(KeyDown(" "), false, cfg);
    assert d.state == Jumping && d.acceleration == -5 && d.counter == 4;
    d.Move();
    assert d.position == 5;
    d.AccelerationTimeout();
    d.AccelerationTimeout();
    assert d.acceleration == -7 && d.counter == 2 && !d.flipping;
    d.JumpButtonUp(KeyUp(" "));
    d.AccelerationTimeout();
    assert d.acceleration == -7 && d.counter == 0;
    d.Accelerate(cfg);
    assert d.acceleration == -6;
  }
}
