/** The dino's physics as pure steps on a snapshot of the controller's state.
    Each step is the body of one timer callback or input handler; the timers
    only decide when a step runs, so a run of the controller is any sequence
    of steps. */
module DinoPhysics {
  import opened Geometry

  datatype DinoState = Idle | Running | Jumping

  /** The game constants the controller is configured with. */
  datatype Config = Config(gravity: int, minJump: int, maxJump: int,
                           speedRunning: int, speedOnTrain: int)
  {
    /** The configuration contract: the minimum jump does not exceed the maximum. */
    predicate Valid() {
      minJump <= maxJump
    }

    /** The number of decay steps a jump is armed with. */
    function DecaySteps(): (n: int)
      requires Valid()
      ensures n >= 1
    {
      maxJump - minJump + 1
    }
  }

  /** Floor height while the dino is over the train. */
  const TrainFloor := 150
  /** Floor height on the ground. */
  const GroundFloor := 0
  /** Margin the dino must keep from the train's right edge. */
  const TrainRightMargin := 100
  /** How far below the train's top the dino's bottom may be. */
  const TrainTopTolerance := 20

  /** Everything the controller keeps between steps. `overTrain` is the
      last computed over-train verdict, `onTrain` the flag set on landing. */
  datatype Snapshot = Snapshot(state: DinoState, position: int, acceleration: int,
                               counter: int, floor: int, flipping: bool,
                               onTrain: bool, overTrain: bool)

  /** The state the controller starts in. */
  const Initial := Snapshot(Idle, 0, 0, 0, GroundFloor, false, false, false)

  /** The state every step keeps: a floor that is one of the two heights and
      agrees with the verdict, a position that is not negative, and a counter
      that is not negative. */
  predicate Inv(s: Snapshot) {
    (s.floor == GroundFloor || s.floor == TrainFloor) &&
    (s.overTrain <==> s.floor == TrainFloor) &&
    s.position >= 0 &&
    s.counter >= 0
  }

  // ---------------------------------------------------------------- speed

  /** Horizontal speed, derived from the state and the on-train flag only. */
  function Speed(state: DinoState, onTrain: bool, cfg: Config): (v: int)
    ensures state.Idle? ==> v == 0
    ensures !state.Idle? && onTrain ==> v == cfg.speedOnTrain
    ensures !state.Idle? && !onTrain ==> v == cfg.speedRunning
  {
    if state.Running? || state.Jumping? then
      if onTrain then cfg.speedOnTrain else cfg.speedRunning
    else
      0
  }

  // ---------------------------------------------------------------- floor

  /** The dino is over the train: strictly right of its left edge, left of its
      right edge by more than the margin, and its bottom no lower than the
      train's top plus the tolerance. */
  predicate OverTrain(dino: Rect, train: Rect) {
    dino.left > train.left &&
    dino.right < train.right - TrainRightMargin &&
    dino.bottom <= train.top + TrainTopTolerance
  }

  /** The floor for one pair of measured boxes. */
  function FloorFor(dino: Rect, train: Rect): (f: int)
    ensures f == GroundFloor || f == TrainFloor
    ensures f == TrainFloor <==> OverTrain(dino, train)
  {
    if OverTrain(dino, train) then TrainFloor else GroundFloor
  }

  /** One poll of the floor tracker; missing boxes fall back to all zero. */
  function FloorStep(s: Snapshot, dinoBox: Option<Rect>, trainBox: Option<Rect>): (r: Snapshot)
    ensures r.overTrain == OverTrain(OrDefault(dinoBox), OrDefault(trainBox))
    ensures r.floor == (if r.overTrain then TrainFloor else GroundFloor)
    ensures r == s.(floor := r.floor, overTrain := r.overTrain)
  {
    var dino := OrDefault(dinoBox);
    var train := OrDefault(trainBox);
    s.(overTrain := OverTrain(dino, train), floor := FloorFor(dino, train))
  }

  /** With neither box measured the dino is not over the train. */
  lemma UnmeasuredFloorIsGround(s: Snapshot)
    ensures !OverTrain(DefaultRect, DefaultRect)
    ensures FloorStep(s, None, None).floor == GroundFloor
  {
  }

  /** With the train unmeasured, a dino box that is not inverted is never
      over it. */
  lemma UnmeasuredTrainIsGround(s: Snapshot, dino: Rect)
    requires dino.left <= dino.right
    ensures FloorStep(s, Some(dino), None).floor == GroundFloor
  {
  }

  /** A dino whose right edge sits five units past the margin boundary is
      not over the train, even when it is above it and right of its left edge. */
  lemma RightMarginScenario()
    ensures !OverTrain(Rect(0, 205, 50, 10), Rect(100, 300, 200, 0))
    ensures FloorFor(Rect(0, 205, 50, 10), Rect(100, 300, 200, 0)) == GroundFloor
  {
  }

  // ---------------------------------------------------------------- gravity

  /** One gravity tick: gravity accumulates only while above the floor. */
  function GravityStep(s: Snapshot, cfg: Config): (r: Snapshot)
    ensures s.position > s.floor ==> r.acceleration == s.acceleration + cfg.gravity
    ensures s.position <= s.floor ==> r.acceleration == s.acceleration
    ensures r == s.(acceleration := r.acceleration)
  {
    if s.position > s.floor then s.(acceleration := s.acceleration + cfg.gravity) else s
  }

  // ---------------------------------------------------------------- move

  /** The landing test: the unclamped new position is strictly below the floor. */
  predicate Lands(s: Snapshot) {
    s.position - s.acceleration < s.floor
  }

  /** One move tick: the position advances by the acceleration, never below
      the floor; crossing below the floor is a landing. */
  function MoveStep(s: Snapshot): (r: Snapshot)
    ensures r.position == Max(s.position - s.acceleration, s.floor)
    ensures r.position >= r.floor
    ensures Lands(s) ==> r.state == Running && r.acceleration == 0 && !r.flipping &&
                         r.onTrain == (s.floor > GroundFloor)
    ensures !Lands(s) ==> r == s.(position := r.position)
    ensures r.counter == s.counter && r.floor == s.floor && r.overTrain == s.overTrain
  {
    var next := s.position - s.acceleration;
    var moved := s.(position := Max(next, s.floor));
    if next < s.floor then
      moved.(onTrain := s.floor > GroundFloor, state := Running, acceleration := 0, flipping := false)
    else
      moved
  }

  /** Reaching the floor exactly is not a landing: the position is the floor,
      but a jump stays a jump and keeps its acceleration. */
  lemma ExactFloorContactIsNotLanding(s: Snapshot)
    requires s.position - s.acceleration == s.floor
    ensures MoveStep(s).position == s.floor
    ensures MoveStep(s).state == s.state && MoveStep(s).acceleration == s.acceleration
  {
  }

  /** A jump resting exactly on the floor with no acceleration and no decay
      left stalls: gravity, move and decay all leave it unchanged, so it stays
      put while the floor stays where it is and no start signal arrives. */
  lemma RestingJumpIsFixedPoint(s: Snapshot, cfg: Config)
    requires s.state == Jumping && s.position == s.floor && s.acceleration == 0 && s.counter == 0
    ensures GravityStep(s, cfg) == s && MoveStep(s) == s && DecayStep(s) == s
  {
  }

  /** The resting jump is reachable from the initial state: with equal
      minimum and maximum jump of 0, starting, pressing and releasing leaves
      a dino jumping on the ground, where a press cannot fire, since a press
      needs the running state. */
  lemma StuckJumpReachable(e: Input, finished: bool)
    ensures Run(Initial, Config(1, 0, 0, 3, 7), [StartRun, ButtonDown(KeyDown(" "), false), ButtonUp(KeyUp(" "))]) ==
            Initial.(state := Jumping)
    ensures !JumpFires(Initial.(state := Jumping), e, finished)
  {
    var cfg := Config(1, 0, 0, 3, 7);
    var s1 := Apply(Initial, cfg, StartRun);
    var s2 := Apply(s1, cfg, ButtonDown(KeyDown(" "), false));
    var s3 := Apply(s2, cfg, ButtonUp(KeyUp(" ")));
    assert s3 == Initial.(state := Jumping);
    assert Run(s3, cfg, []) == s3;
  }

  /** The ways out of a resting jump: a start signal sets the state to
      running, after which a jump press fires again; a floor poll that raises
      the floor makes the next move a landing; a floor poll that lowers the
      floor leaves the dino above it, so gravity acts again. */
  lemma RestingJumpEscapes(s: Snapshot, cfg: Config)
    requires s.state == Jumping && s.position == s.floor && s.acceleration == 0 && s.counter == 0
    ensures JumpFires(Start(s), KeyDown(" "), false)
    ensures s.floor == GroundFloor ==>
              MoveStep(FloorStep(s, Some(Rect(0, 50, 10, 10)), Some(Rect(0, 300, 100, 0)))).state == Running
    ensures s.floor == TrainFloor ==>
              GravityStep(FloorStep(s, None, None), cfg).acceleration == cfg.gravity
  {
  }

  /** Landing does not look at the state: an idle dino below a raised floor
      is set running. */
  lemma LandingIgnoresState(s: Snapshot)
    requires s.state == Idle && Lands(s)
    ensures MoveStep(s).state == Running
  {
  }

  /** Landing does not clear the decay counter: a jump still held when it
      lands keeps decaying, so the running dino is pushed up off the floor. */
  lemma HeldLandingLiftsOff(s: Snapshot)
    requires Lands(s) && s.counter > 0
    ensures MoveStep(DecayStep(MoveStep(s))).state == Running
    ensures MoveStep(DecayStep(MoveStep(s))).position == s.floor + 1
  {
  }

  /** The physics steps keep the speed: a floor poll, a gravity tick, a decay
      timeout, a release and a move that does not land leave the state and
      the on-train flag, and so the speed, as they were. */
  lemma PhysicsStepsKeepSpeed(s: Snapshot, cfg: Config, dinoBox: Option<Rect>, trainBox: Option<Rect>, e: Input)
    ensures Speed(FloorStep(s, dinoBox, trainBox).state, FloorStep(s, dinoBox, trainBox).onTrain, cfg) == Speed(s.state, s.onTrain, cfg)
    ensures Speed(GravityStep(s, cfg).state, GravityStep(s, cfg).onTrain, cfg) == Speed(s.state, s.onTrain, cfg)
    ensures Speed(DecayStep(s).state, DecayStep(s).onTrain, cfg) == Speed(s.state, s.onTrain, cfg)
    ensures Speed(Release(s, e).state, Release(s, e).onTrain, cfg) == Speed(s.state, s.onTrain, cfg)
    ensures !Lands(s) ==> Speed(MoveStep(s).state, MoveStep(s).onTrain, cfg) == Speed(s.state, s.onTrain, cfg)
  {
  }

  /** A landing sets the speed to the train speed on a raised floor and to
      the running speed on the ground, whatever the state was; under the
      invariant, the dino lands on the train exactly when it was over it. */
  lemma LandingSpeed(s: Snapshot, cfg: Config)
    requires Lands(s)
    ensures Speed(MoveStep(s).state, MoveStep(s).onTrain, cfg) ==
            (if s.floor > GroundFloor then cfg.speedOnTrain else cfg.speedRunning)
    ensures Inv(s) ==> (MoveStep(s).onTrain <==> s.overTrain)
  {
  }

  // ---------------------------------------------------------------- decay

  /** One decay timeout: while the counter is positive it and the
      acceleration drop by one; flipping is raised when the counter is left at 1. */
  function DecayStep(s: Snapshot): (r: Snapshot)
    ensures s.counter > 0 ==> r.counter == s.counter - 1 && r.acceleration == s.acceleration - 1
    ensures s.counter <= 0 ==> r.counter == s.counter && r.acceleration == s.acceleration
    ensures r.flipping == (s.flipping || r.counter == 1)
    ensures r == s.(counter := r.counter, acceleration := r.acceleration, flipping := r.flipping)
  {
    var decayed := if s.counter > 0 then s.(counter := s.counter - 1, acceleration := s.acceleration - 1) else s;
    if decayed.counter == 1 then decayed.(flipping := true) else decayed
  }

  /** `n` decay timeouts in a row, nothing else interleaved. */
  function Decays(s: Snapshot, n: nat): Snapshot
    decreases n
  {
    if n == 0 then s else Decays(DecayStep(s), n - 1)
  }

  /** After `n` decays the counter has dropped by at most `n` and stops at 0,
      and the acceleration has dropped by exactly as much as the counter. */
  lemma {:induction false} DecaysEffect(s: Snapshot, n: nat)
    requires s.counter >= 0
    ensures Decays(s, n).counter == Max(s.counter - n, 0)
    ensures Decays(s, n).acceleration == s.acceleration - Min(s.counter, n)
    ensures Decays(s, n).flipping == (s.flipping || (s.counter >= 2 && n >= s.counter - 1))
    ensures Decays(s, n) == s.(counter := Decays(s, n).counter,
                               acceleration := Decays(s, n).acceleration,
                               flipping := Decays(s, n).flipping)
    decreases n
  {
    if n > 0 {
      DecaysEffect(DecayStep(s), n - 1);
    }
  }

  // ---------------------------------------------------------------- input

  /** A raw input event as delivered by the document listeners. */
  datatype Input = KeyDown(key: string) | KeyUp(key: string)
                 | MouseDown(button: int) | MouseUp(button: int)

  /** The space key or the primary mouse button going down. */
  predicate IsJumpPress(e: Input) {
    (e.KeyDown? && e.key == " ") || (e.MouseDown? && e.button == 0)
  }

  /** The space key or the primary mouse button going up. */
  predicate IsJumpRelease(e: Input) {
    (e.KeyUp? && e.key == " ") || (e.MouseUp? && e.button == 0)
  }

  /** A jump press takes effect only while running and before the game ends. */
  predicate JumpFires(s: Snapshot, e: Input, finished: bool) {
    IsJumpPress(e) && s.state == Running && !finished
  }

  /** The button-down handler: start a jump with the minimum impulse and arm
      the decay counter. */
  function Press(s: Snapshot, e: Input, finished: bool, cfg: Config): (r: Snapshot)
    requires cfg.Valid()
    ensures JumpFires(s, e, finished) ==>
              r.state == Jumping &&
              r.acceleration == s.acceleration - cfg.minJump &&
              r.counter == cfg.maxJump - cfg.minJump + 1 &&
              r == s.(state := Jumping, acceleration := r.acceleration, counter := r.counter)
    ensures !JumpFires(s, e, finished) ==> r == s
  {
    if JumpFires(s, e, finished) then
      s.(state := Jumping, acceleration := s.acceleration - cfg.minJump, counter := cfg.DecaySteps())
    else
      s
  }

  /** The button-up handler: releasing the jump zeroes the decay counter. */
  function Release(s: Snapshot, e: Input): (r: Snapshot)
    ensures IsJumpRelease(e) ==> r == s.(counter := 0)
    ensures !IsJumpRelease(e) ==> r == s
  {
    if IsJumpRelease(e) then s.(counter := 0) else s
  }

  /** After a release, no number of decay timeouts changes anything. */
  lemma ReleaseStopsDecay(s: Snapshot, e: Input, n: nat)
    requires IsJumpRelease(e)
    ensures Decays(Release(s, e), n) == Release(s, e)
  {
    DecaysEffect(Release(s, e), n);
  }

  /** Holding a jump for `n` consecutive decay timeouts, with no other step in
      between and at most the armed number: the acceleration is the minimum
      impulse plus one per timeout. */
  lemma HeldJump(s: Snapshot, e: Input, finished: bool, cfg: Config, n: nat)
    requires cfg.Valid() && JumpFires(s, e, finished)
    requires n <= cfg.maxJump - cfg.minJump + 1
    ensures Decays(Press(s, e, finished, cfg), n).state == Jumping
    ensures Decays(Press(s, e, finished, cfg), n).acceleration == s.acceleration - cfg.minJump - n
    ensures Decays(Press(s, e, finished, cfg), n).counter == cfg.maxJump - cfg.minJump + 1 - n
  {
    DecaysEffect(Press(s, e, finished, cfg), n);
  }

  /** Holding a jump for at least its armed number of consecutive timeouts,
      with no other step in between: the decay stops with
      the acceleration at the maximum impulse plus one below where it started,
      and flipping has been raised exactly when the maximum exceeds the minimum. */
  lemma HeldJumpExhausted(s: Snapshot, e: Input, finished: bool, cfg: Config, n: nat)
    requires cfg.Valid() && JumpFires(s, e, finished)
    requires n >= cfg.maxJump - cfg.minJump + 1
    ensures Decays(Press(s, e, finished, cfg), n).counter == 0
    ensures Decays(Press(s, e, finished, cfg), n).acceleration == s.acceleration - cfg.maxJump - 1
    ensures Decays(Press(s, e, finished, cfg), n).flipping == (s.flipping || cfg.maxJump > cfg.minJump)
  {
    DecaysEffect(Press(s, e, finished, cfg), n);
  }

  // ---------------------------------------------------------------- start / stop

  function Start(s: Snapshot): (r: Snapshot)
    ensures r.state == Running && r == s.(state := Running)
  {
    s.(state := Running)
  }

  function Stop(s: Snapshot): (r: Snapshot)
    ensures r.state == Idle && r == s.(state := Idle)
  {
    s.(state := Idle)
  }

  // ---------------------------------------------------------------- runs

  /** One step the controller may take: a timer callback, a handler or a
      session signal. */
  datatype Step =
    | FloorPoll(dinoBox: Option<Rect>, trainBox: Option<Rect>)
    | GravityTick
    | MoveTick
    | DecayTimeout
    | ButtonDown(input: Input, finished: bool)
    | ButtonUp(input: Input)
    | StartRun
    | StopRun

  function Apply(s: Snapshot, cfg: Config, step: Step): Snapshot
    requires cfg.Valid()
  {
    match step
    case FloorPoll(dinoBox, trainBox) => FloorStep(s, dinoBox, trainBox)
    case GravityTick => GravityStep(s, cfg)
    case MoveTick => MoveStep(s)
    case DecayTimeout => DecayStep(s)
    case ButtonDown(input, finished) => Press(s, input, finished, cfg)
    case ButtonUp(input) => Release(s, input)
    case StartRun => Start(s)
    case StopRun => Stop(s)
  }

  /** The state after the steps, in order. */
  function Run(s: Snapshot, cfg: Config, steps: seq<Step>): Snapshot
    requires cfg.Valid()
    decreases |steps|
  {
    if steps == [] then s else Run(Apply(s, cfg, steps[0]), cfg, steps[1..])
  }

  lemma InitialInv()
    ensures Inv(Initial)
  {
  }

  /** Every step keeps the invariant. */
  lemma StepKeepsInv(s: Snapshot, cfg: Config, step: Step)
    requires cfg.Valid() && Inv(s)
    ensures Inv(Apply(s, cfg, step))
  {
  }

  /** Every run, in any interleaving of the pollers and handlers, keeps the
      invariant. */
  lemma {:induction false} RunKeepsInv(s: Snapshot, cfg: Config, steps: seq<Step>)
    requires cfg.Valid() && Inv(s)
    ensures Inv(Run(s, cfg, steps))
    decreases |steps|
  {
    if steps != [] {
      StepKeepsInv(s, cfg, steps[0]);
      RunKeepsInv(Apply(s, cfg, steps[0]), cfg, steps[1..]);
    }
  }

  /** From the initial state the floor is always one of the two heights and
      the position is never negative. */
  lemma PositionNeverNegative(cfg: Config, steps: seq<Step>)
    requires cfg.Valid()
    ensures Run(Initial, cfg, steps).position >= 0
    ensures Run(Initial, cfg, steps).floor == GroundFloor || Run(Initial, cfg, steps).floor == TrainFloor
    ensures Run(Initial, cfg, steps).counter >= 0
  {
    RunKeepsInv(Initial, cfg, steps);
  }

  /** Once the counter is zero (after a release, or with decay used up),
      only a jump press can arm it again: no other step, and no button-down
      of another key or button, moves it off zero. */
  lemma {:induction false} NoDecayWithoutPress(s: Snapshot, cfg: Config, steps: seq<Step>)
    requires cfg.Valid() && s.counter == 0
    requires forall k :: 0 <= k < |steps| ==> steps[k].ButtonDown? ==> !IsJumpPress(steps[k].input)
    ensures Run(s, cfg, steps).counter == 0
    decreases |steps|
  {
    if steps != [] {
      NoDecayWithoutPress(Apply(s, cfg, steps[0]), cfg, steps[1..]);
    }
  }

  /** The number of decay timeouts among the steps. */
  function DecayCount(steps: seq<Step>): (n: nat)
    ensures n <= |steps|
    decreases |steps|
  {
    if steps == [] then 0
    else (if steps[0].DecayTimeout? then 1 else 0) + DecayCount(steps[1..])
  }

  /** The jump input stays held from `s` through the steps: no jump release
      arrives, and no button-down fires a new jump at the state it meets.
      Button-downs of other keys and repeated presses while jumping are allowed. */
  predicate HeldThroughout(s: Snapshot, cfg: Config, steps: seq<Step>)
    requires cfg.Valid()
    decreases |steps|
  {
    steps == [] ||
    (!(steps[0].ButtonUp? && IsJumpRelease(steps[0].input)) &&
     !(steps[0].ButtonDown? && JumpFires(s, steps[0].input, steps[0].finished)) &&
     HeldThroughout(Apply(s, cfg, steps[0]), cfg, steps[1..]))
  }

  /** A run with no jump press and no jump release keeps the input held, from
      any state. */
  lemma {:induction false} HeldWithoutJumpEvents(s: Snapshot, cfg: Config, steps: seq<Step>)
    requires cfg.Valid()
    requires forall k :: 0 <= k < |steps| ==>
               !(steps[k].ButtonDown? && IsJumpPress(steps[k].input)) &&
               !(steps[k].ButtonUp? && IsJumpRelease(steps[k].input))
    ensures HeldThroughout(s, cfg, steps)
    decreases |steps|
  {
    if steps != [] {
      HeldWithoutJumpEvents(Apply(s, cfg, steps[0]), cfg, steps[1..]);
    }
  }

  /** Under any interleaving with the pollers, while the input stays held,
      the counter drops by one per decay timeout and stops at zero: gravity,
      moves (landings included), floor polls and start or stop leave it alone. */
  lemma {:induction false} HeldCounterUnderInterleaving(s: Snapshot, cfg: Config, steps: seq<Step>)
    requires cfg.Valid() && s.counter >= 0 && HeldThroughout(s, cfg, steps)
    ensures Run(s, cfg, steps).counter == Max(s.counter - DecayCount(steps), 0)
    decreases |steps|
  {
    if steps != [] {
      HeldCounterUnderInterleaving(Apply(s, cfg, steps[0]), cfg, steps[1..]);
    }
  }

  /** A jump held through any interleaving: after the press and the steps,
      the counter is the armed number less the decay timeouts, never below zero. */
  lemma HeldJumpCounter(s: Snapshot, e: Input, finished: bool, cfg: Config, steps: seq<Step>)
    requires cfg.Valid() && JumpFires(s, e, finished) && HeldThroughout(Press(s, e, finished, cfg), cfg, steps)
    ensures Run(Press(s, e, finished, cfg), cfg, steps).counter ==
            Max(cfg.maxJump - cfg.minJump + 1 - DecayCount(steps), 0)
  {
    HeldCounterUnderInterleaving(Press(s, e, finished, cfg), cfg, steps);
  }
}
