# Dino jumper: jump physics and gem pickup

A Dafny model of the simulation core of a side-scrolling runner. The player's dino runs, jumps and can land on a moving
train. Its physics hook (`src/useDino.ts`) keeps a state (`idle`, `running`, `jumping`), a vertical position, an
acceleration, a jump-decay counter, a floor height, a flipping flag and an on-train flag. It updates them from three
10 ms pollers (floor, gravity, move), a self-rescheduling 100 ms decay timeout, and the jump button's down and up
listeners. Each gem (`src/useGem.ts`) polls a strict bounding-box overlap test against the dino and signals "take"
with its own id whenever the boxes overlap.

Layout:

- `geometry.dfy`, module `Geometry`: bounding rectangles over `int`, an optional measurement, and the all-zero
  fallback box that both hooks use.
- `gem.dfy`, module `Gem`: the overlap predicate, one poll of the detector, the signals over a run of polls, and their
  lemmas.
- `dino_physics.dfy`, module `DinoPhysics`: a `Snapshot` datatype of the controller's fields. It holds one pure
  function per step (floor poll, gravity tick, move tick, decay timeout, button down, button up, start, stop) and the
  speed function. It also holds the invariant every step keeps (floor is 0 or 150 and agrees with the over-train
  verdict; position and counter are not negative), and runs: any sequence of steps, in any interleaving.
- `dino_controller.dfy`, module `DinoController`: class `Dino` with the hook's fields. It has one method per callback
  or handler, written as the source writes it (field updates in place). Each method is proved to keep `Valid()` and to
  leave the object in exactly the state the matching `DinoPhysics` step gives. The file ends with a client scenario
  driven through the methods.

The game constants (gravity, minimum and maximum jump, the two speeds) come from a `./constants` module that is not
part of this model. They are a `Config` parameter, required to satisfy `minJump <= maxJump`. The floor heights (0 and
150) and the over-train margins (100 and 20) are written in the hook itself and are constants here.

The code's behaviour that a reader might not expect:

- Only a release zeroes the decay counter. Landing (`src/useDino.ts:117-122`) and `stopDino` leave it alone. A jump
  still held when it lands keeps decaying and lifts the running dino off the floor again (`HeldLandingLiftsOff`).
- Landing uses a strict test. It does not look at the current state.
- The detector fires on every poll while the boxes overlap. It does not fire only once.
- A jump can stall. Suppose the dino rests exactly on the floor in the jumping state, with zero acceleration and zero counter. Gravity, move and decay then leave it where it is (`RestingJumpIsFixedPoint`). A press does not fire there, since a press needs the running state. The stall lasts while the floor stays where it is and no start signal arrives. Three things end it (`RestingJumpEscapes`): a start signal (after which a press fires again), a raised floor (the next move lands the dino), and a lowered floor (gravity acts again). With minimum and maximum jump both 0, a press and a release reach the stall from the start (`StuckJumpReachable`).

## Model

| member | source | states |
|---|---|---|
| `Geometry.OrDefault` | src/useDino.ts:18-23 | a missing measurement becomes the all-zero box; a present one is used as is |
| `Gem.Collides` | src/useGem.ts:23-28 | the overlap test: gem bottom > dino top, gem right > dino left, gem top < dino bottom and gem left < dino right, all strict |
| `Gem.Poll` | src/useGem.ts:20-30 | a take is signalled iff the two boxes (missing ones replaced by the zero box) overlap, and it carries this gem's id |
| `Gem.Signals` | src/useGem.ts:20-31 | over a run of polls there are at most as many signals as polls, and every one carries this gem's id |
| `Gem.CollidesSymmetric` | src/useGem.ts:23-28 | swapping the gem and dino boxes does not change the overlap verdict |
| `Gem.TouchingEdgesDoNotCollide` | src/useGem.ts:24-27 | boxes that share an edge (e.g. gem left = dino right) do not overlap, since all four tests are strict |
| `Gem.FlatBoxesDoNotCollide` | src/useGem.ts:23-28 | two boxes that are both empty along the same axis never overlap |
| `Gem.UnmeasuredNeverTakes` | src/useGem.ts:3-8 | with both boxes missing, the zero boxes do not overlap and no take fires |
| `Gem.UnmeasuredGemCanBeTaken` | src/useGem.ts:21-29 | a single missing gem box (the zero box) is still taken by a dino box straddling the origin |
| `Gem.CollidesIffIntersectionHasArea` | src/useGem.ts:23-28 | for boxes of positive area, overlap holds iff their intersection has positive width and height |
| `Gem.OverlapFiresEveryPoll` | src/useGem.ts:29 | the detector keeps no taken state: while the boxes overlap, every poll signals the id again |
| `Gem.NoOverlapNeverFires` | src/useGem.ts:23-30 | polls with no overlap produce no signal |
| `Gem.SignalsAppend` | src/useGem.ts:20-31 | the signals of two runs of polls in sequence are the first run's signals followed by the second's |
| `Gem.SignalsOfOnePoll` | src/useGem.ts:23-30 | one poll signals the id once on overlap and nothing otherwise; with `SignalsAppend` this fixes the signals of every mixed run |
| `Gem.ConcreteOverlap` | src/useGem.ts:23-29 | dino (top 50, right 60, bottom 70, left 40) and gem (55, 65, 75, 45) overlap and the take fires |
| `DinoPhysics.Config.DecaySteps` | src/useDino.ts:144-145 | a valid configuration arms the counter with max - min + 1, at least 1 |
| `DinoPhysics.Speed` | src/useDino.ts:46-54 | speed is 0 when idle; when running or jumping it is the on-train speed if on the train, else the running speed |
| `DinoPhysics.PhysicsStepsKeepSpeed` | src/useDino.ts:46-54 | a floor poll, a gravity tick, a decay timeout and a release leave the speed unchanged on every state; so does a move that does not land |
| `DinoPhysics.StuckJumpReachable` | src/useDino.ts:131-159 | with minimum and maximum jump 0, start, a jump press and a release from the initial state leave the dino jumping on the ground with zero acceleration and counter, where a press cannot fire |
| `DinoPhysics.RestingJumpEscapes` | src/useDino.ts:32-34 | from a resting jump, a start signal makes a jump press fire again; a floor poll that raises the floor to 150 makes the next move land the dino running; one that lowers it to 0 lets gravity act again |
| `DinoPhysics.LandingSpeed` | src/useDino.ts:117-119 | a landing sets the speed to the train speed on a raised floor and to the running speed on the ground, whatever the state; under the invariant, the dino lands on the train iff it was over it |
| `DinoPhysics.OverTrain` | src/useDino.ts:69-72 | dino left > train left, dino right < train right - 100, and dino bottom <= train top + 20 |
| `DinoPhysics.FloorFor` | src/useDino.ts:69-78 | the floor is exactly 0 or 150, and it is 150 iff the dino is over the train |
| `DinoPhysics.FloorStep` | src/useDino.ts:59-78 | a floor poll stores the over-train verdict on the measured (or zero) boxes and the matching floor, changing nothing else |
| `DinoPhysics.UnmeasuredFloorIsGround` | src/useDino.ts:63-72 | with both boxes missing the dino is not over the train (0 > 0 fails) and the floor is 0 |
| `DinoPhysics.UnmeasuredTrainIsGround` | src/useDino.ts:59-72 | with the train box missing, a dino box that is not inverted never gives the raised floor |
| `DinoPhysics.RightMarginScenario` | src/useDino.ts:69-72 | a dino right edge 5 past the right-margin boundary is not over the train, so the floor is 0 |
| `DinoPhysics.GravityStep` | src/useDino.ts:89-93 | gravity is added to the acceleration iff the position is above the floor; nothing else changes |
| `DinoPhysics.Lands` | src/useDino.ts:115-117 | the landing test: position - acceleration < floor, strictly |
| `DinoPhysics.MoveStep` | src/useDino.ts:114-122 | the new position is max(position - acceleration, floor), so never below the floor; it lands iff position - acceleration < floor, and then the state is running, the acceleration 0, flipping off and on-train = floor > 0; without a landing only the position changes |
| `DinoPhysics.ExactFloorContactIsNotLanding` | src/useDino.ts:115-117 | reaching the floor exactly sets the position to the floor but keeps the state and the acceleration |
| `DinoPhysics.RestingJumpIsFixedPoint` | src/useDino.ts:89-122 | a jump resting on the floor with zero acceleration and zero counter is left unchanged by gravity, move and decay |
| `DinoPhysics.LandingIgnoresState` | src/useDino.ts:117-119 | an idle dino whose next position is below the floor is set running |
| `DinoPhysics.HeldLandingLiftsOff` | src/useDino.ts:101-122 | landing keeps a positive counter, so a decay and a move after it raise the running dino one unit above the floor |
| `DinoPhysics.DecayStep` | src/useDino.ts:101-110 | with a positive counter, counter and acceleration both drop by 1; otherwise neither changes; flipping is set when the counter is left at 1 |
| `DinoPhysics.Decays` | src/useDino.ts:101-105 | n decay timeouts in a row, with no other step in between |
| `DinoPhysics.DecaysEffect` | src/useDino.ts:101-110 | n consecutive decays from counter c leave counter max(c - n, 0), acceleration lowered by min(c, n), and flipping raised iff c >= 2 and n >= c - 1 |
| `DinoPhysics.IsJumpPress` | src/useDino.ts:134-135 | a key-down of the space key or a mouse-down of button 0 |
| `DinoPhysics.IsJumpRelease` | src/useDino.ts:156-157 | a key-up of the space key or a mouse-up of button 0 |
| `DinoPhysics.JumpFires` | src/useDino.ts:133-138 | a jump press while the state is running and the game is not finished |
| `DinoPhysics.Press` | src/useDino.ts:133-148 | a jump press while running and not finished sets jumping, lowers the acceleration by the minimum jump and arms the counter to max - min + 1; otherwise nothing changes |
| `DinoPhysics.Release` | src/useDino.ts:155-160 | a jump release zeroes the counter and nothing else; any other event changes nothing |
| `DinoPhysics.ReleaseStopsDecay` | src/useDino.ts:101-110 | after a release, any number of consecutive decay timeouts change nothing |
| `DinoPhysics.HeldJump` | src/useDino.ts:101-147 | after a press and n <= max - min + 1 consecutive decays, with no other step in between, the acceleration is min + n below its start and the counter is max - min + 1 - n |
| `DinoPhysics.HeldJumpExhausted` | src/useDino.ts:101-147 | holding a jump for at least max - min + 1 consecutive decays, with no other step in between, leaves the counter 0 and the acceleration max + 1 below its start; flipping is raised iff max > min (or it was already) |
| `DinoPhysics.HeldThroughout` | src/useDino.ts:131-163 | the jump input stays held from a state through the steps: no jump release arrives, and no button-down fires a new jump at the state it meets; other keys and presses while jumping are allowed |
| `DinoPhysics.HeldWithoutJumpEvents` | src/useDino.ts:131-163 | a run with no jump press and no jump release keeps the input held, from any state |
| `DinoPhysics.DecayCount` | src/useDino.ts:101-105 | the number of decay timeouts in a run, at most its length |
| `DinoPhysics.HeldCounterUnderInterleaving` | src/useDino.ts:57-163 | while the input stays held, under any interleaving of floor polls, gravity and move ticks (landings included), start or stop, and button-downs that do not fire, the counter is its start value less the decay timeouts, never below 0 |
| `DinoPhysics.HeldJumpCounter` | src/useDino.ts:133-147 | after a firing press and any interleaved run with the input held, the counter is max(max - min + 1 - decay timeouts, 0) |
| `DinoPhysics.Start` | src/useDino.ts:32-34 | start sets the state to running and changes nothing else |
| `DinoPhysics.Stop` | src/useDino.ts:36-38 | stop sets the state to idle and changes nothing else |
| `DinoPhysics.Apply` | src/useDino.ts:57-163 | one step: a floor poll, gravity tick, move tick, decay timeout, button down, button up, start or stop |
| `DinoPhysics.Run` | src/useDino.ts:57-163 | the steps applied in order, in any interleaving the timers and listeners produce |
| `DinoPhysics.InitialInv` | src/useDino.ts:27-43 | the initial values (idle, position 0, floor 0, counter 0) satisfy the invariant |
| `DinoPhysics.StepKeepsInv` | src/useDino.ts:57-163 | every step keeps: floor is 0 or 150 and agrees with the over-train verdict, position >= 0, counter >= 0 |
| `DinoPhysics.RunKeepsInv` | src/useDino.ts:57-163 | every sequence of steps, in any order, keeps the invariant |
| `DinoPhysics.PositionNeverNegative` | src/useDino.ts:40 | from the initial state, after any run the position is >= 0, the floor is 0 or 150 and the counter is >= 0 |
| `DinoPhysics.NoDecayWithoutPress` | src/useDino.ts:101-159 | once the counter is 0, no sequence of steps without a jump press makes it non-zero again; button-downs of other keys or buttons are allowed |
| `DinoController.Dino.CurrentSpeed` | src/useDino.ts:46-54 | the speed read off the object's state and on-train flag |
| `DinoController.Dino.constructor` | src/useDino.ts:27-43 | a new dino is idle at position 0 with zero acceleration, counter and floor, and all flags off |
| `DinoController.Dino.StartDino` | src/useDino.ts:32-34 | performs `Start` in place |
| `DinoController.Dino.StopDino` | src/useDino.ts:36-38 | performs `Stop` in place |
| `DinoController.Dino.CalculateFloor` | src/useDino.ts:58-79 | performs `FloorStep` in place and keeps the invariant |
| `DinoController.Dino.Accelerate` | src/useDino.ts:88-94 | performs `GravityStep` in place and keeps the invariant |
| `DinoController.Dino.AccelerationTimeout` | src/useDino.ts:101-110 | performs `DecayStep` in place and keeps the invariant, so the counter stays non-negative |
| `DinoController.Dino.Move` | src/useDino.ts:114-123 | performs `MoveStep` in place and keeps the invariant, so the position stays non-negative |
| `DinoController.Dino.JumpButtonDown` | src/useDino.ts:131-151 | performs `Press` in place and keeps the invariant |
| `DinoController.Dino.JumpButtonUp` | src/useDino.ts:153-163 | performs `Release` in place and keeps the invariant |

## Left out

- Timer scheduling: the 10 ms intervals, the 100 ms decay timeout and how it reschedules itself (src/useDino.ts:105, :147), and `clearInterval` cleanup. Every callback body is a step, and a run is any sequence of steps, so all interleavings are covered. The exact timing is not modelled.
- React plumbing: `useState` functional updates, stale closures over `dinoPosition` and `dinoAcceleration`, `useEffect` dependency lists and re-renders. Each step reads and writes the current state atomically.
- Listener wiring with `document.addEventListener` and its removal (src/useDino.ts:165-177). The handlers take the event as a parameter.
- DOM measurement: `getBoundingClientRect` becomes an optional rectangle parameter.
- JavaScript numbers: the source's numbers are doubles. Here the box coordinates, the position, the acceleration and every `Config` constant (gravity, the jump bounds, the speeds) are `int`. The model is exact only for whole-number constants and coordinates. A fractional gravity, a fractional pixel edge and floating-point rounding are not represented. No proof relies on the values being whole numbers.
- `./constants` is not part of this model. Its values are the `Config` parameter.
- The take callback's effects: the gem list, the taken flags, the counter and the start-train and finish-game callbacks live in `useGems`, which is not part of this model. So taken-flag monotonicity is not modelled. `src/Gems.tsx` is layout only.
- Rendering of the flipping flag, the sprite and the position.
