# Traffic intersection: phase controller and vehicle agents

This project models the decision logic of a simulated four-way intersection.

**The intersection controller (`TrafficLightManager`)** steps through six phases:

1. North/South green
2. North/South yellow
3. all red
4. East/West green
5. East/West yellow
6. all red

Each step writes some of the four vehicle signal colours and some of the eight pedestrian heads (two per direction), as listed in `PhaseWrites` and `PedestrianWrites`: a green step writes four colours and four heads, a yellow step two colours and four heads, an all-red step four colours and no heads. Every vehicle-signal write raises an `OnTrafficLightChanged(direction, colour)` event.

**Each car (`CarController`)** has these parts:

- a speed and a scalar position;
- the zone it last entered (approach, crosswalk, intersection, exit);
- four flags: moving, stopping, waiting-for-light and in-queue.

Once per frame it picks a speed. It accelerates when it may move and is not stopping. Otherwise it brakes towards a target speed. It then moves unless a car ahead is too close. Zone triggers and light-change events drive a stop/go policy.

The project has three modules:

- `Signals` (`signals.dfy`): the direction and colour enums, and the enum casts.
- `TrafficLights` (`traffic_lights.dfy`):
  - the phase table and the exact writes each coroutine segment makes;
  - what those writes do to the signal arrays;
  - the class `TrafficLightManager`. It keeps the two signal arrays as `array`s updated in place and the event stream as an appended log. The `while (true)` coroutine becomes a `Start` step plus one `Advance` step per `yield`.
- `CarControl` (`car_control.dfy`):
  - the per-frame speed decision and movement (`Tick`), the probes, and the stop/go policy, as functions;
  - the class `CarController`. Its methods update its fields in place and are proved to follow those functions.

Each physics ray becomes an input of type `RayHit`, the distance to the first car on the car layer if there is one. Two readings are taken per frame:

- `ahead`: before the car moves, used by `GetDistanceToCarInFront` and `WillCollideWithCarInFront`;
- `afterMove`: after the car moves, used by `IsInQueue`.

`Time.deltaTime` becomes the parameter `dt`. Floats become `real`.

The braking branch of `UpdateMovement` (CarController.cs:46-54) takes the maximum with a target speed that is not capped. With no car in range, that target is computed from `float.MaxValue`. With a positive `maxSpeed`, a car that is still braking, no longer held at the light and sees no car picks a speed above `maxSpeed` (`TargetAboveMaxSpeed`, `BrakingWithClearRoadOverspeeds`). Once it no longer brakes, its next clear tick brings it back to exactly `maxSpeed` (`OverspeedRecovers`). The bound `speed <= maxSpeed` is stated for the acceleration branch only.

## Model

| member | source | states |
|---|---|---|
| Signals.Index | TrafficLightManager.cs:25 | the enum cast `(int)direction` lies in 0..3 and `(Direction)` inverts it |
| Signals.FromIndex | TrafficLightManager.cs:52-61 | the cast `(Direction)i` maps 0 and 1 to the North/South street and 2 and 3 to East/West |
| Signals.FromIndexInverse | TrafficLightManager.cs:25 | `(Direction)i` and `(int)d` are mutually inverse on 0..3 |
| Signals.AllDirections | TrafficLightManager.cs:164 | `Enum.GetValues` lists the four directions in declaration order |
| TrafficLights.Next | TrafficLightManager.cs:65-108 | every resumption moves to a different phase, and `Previous` undoes it |
| TrafficLights.CycleReturns | TrafficLightManager.cs:67-108 | six resumptions return to the starting phase, and for every k in 1..5, k resumptions do not |
| TrafficLights.Duration | TrafficLightManager.cs:76-107 | the wait of a phase is the green duration when it shows green, the yellow duration when it shows yellow, the all-red duration when all four are red |
| TrafficLights.CycleDuration | TrafficLightManager.cs:65-108 | the six waits of one loop pass add up to `2*(green + yellow + allRed)` from any phase |
| TrafficLights.PedestrianGreenUnused | TrafficLightManager.cs:32 | no phase's wait depends on `pedestrianGreenDuration` |
| TrafficLights.PhaseWrites | TrafficLightManager.cs:70-106 | a green or all-red segment makes four colour writes, a yellow one two |
| TrafficLights.PhaseWritesTargets | TrafficLightManager.cs:70-106 | every write of a segment puts the colour its phase holds; green is written only on entering a green phase and only to that street |
| TrafficLights.CycleEventCount | TrafficLightManager.cs:67-108 | one pass of the loop raises twenty events from any phase |
| TrafficLights.AllWrites | TrafficLightManager.cs:162-168 | `SetAllTrafficLights(c)` writes `c` to North, South, East, West, in that order |
| TrafficLights.ApplyWrites | TrafficLightManager.cs:111-139 | a sequence of colour writes leaves every unwritten direction unchanged, and the final write of the sequence decides its direction |
| TrafficLights.LastWriteWins | TrafficLightManager.cs:111-139 | every direction shows the colour of the last write to it: a write no later write to the same direction overrides decides that direction |
| TrafficLights.PhaseLights | TrafficLightManager.cs:70-107 | at each yield North equals South and East equals West; the two pairs are never both green; N/S is green exactly in NS-green and E/W exactly in EW-green |
| TrafficLights.GreenEnteredFromAllRed | TrafficLightManager.cs:85-107 | each green phase is entered from an all-red state |
| TrafficLights.SegmentReachesPhase | TrafficLightManager.cs:69-107 | the writes between two yields take the signals of the previous phase exactly to those of the next phase, heads included |
| TrafficLights.SegmentReachesLights | TrafficLightManager.cs:70-106 | the colour writes between two yields take the previous phase's vehicle signals exactly to the next phase's |
| TrafficLights.SegmentReachesHeads | TrafficLightManager.cs:74-102 | the pedestrian writes between two yields take the previous phase's heads exactly to the next phase's |
| TrafficLights.NeverTurnedGreen | TrafficLightManager.cs:111-139 | a direction that is not green stays not green under any writes none of which sets it to green |
| TrafficLights.NoConflictWithinSegment | TrafficLightManager.cs:69-107 | after every single write of a segment, North/South and East/West are not both green |
| TrafficLights.FirstSegmentReachesNSGreen | TrafficLightManager.cs:40-75 | from the all-red, all-stop state initialisation leaves, the first segment reaches exactly the NS-green signals and heads |
| TrafficLights.FirstSegmentSafe | TrafficLightManager.cs:40-75 | the first segment, run on the all-red lights left by initialisation, never shows both streets green |
| TrafficLights.HeadFor | TrafficLightManager.cs:149-150 | a pedestrian head shows walk iff `canWalk` and stop iff not |
| TrafficLights.SetHeads | TrafficLightManager.cs:141-152 | only heads `2d` and `2d+1` change, both to walk = `canWalk`, stop = `!canWalk` |
| TrafficLights.PedestrianWrites | TrafficLightManager.cs:74-102 | green and yellow segments make two pedestrian writes, all-red segments none |
| TrafficLights.PedestrianWritesWalk | TrafficLightManager.cs:74-102 | a pedestrian write turns walk on exactly when entering its direction's walk phase, and touches only the heads across the street whose signals change |
| TrafficLights.ApplyPedestrian | TrafficLightManager.cs:141-152 | a sequence of pedestrian writes keeps eight heads, leaves the heads of every unnamed direction unchanged, and the final write of the sequence decides both heads of its direction |
| TrafficLights.LastPedestrianWriteWins | TrafficLightManager.cs:141-152 | both heads of every direction show the last pedestrian write to it: a write no later write to the same direction overrides decides them |
| TrafficLights.PhaseHeads | TrafficLightManager.cs:74-102 | at each yield the heads of a direction show walk exactly in its walk phase (E/W in NS-green, N/S in EW-green), stop otherwise |
| TrafficLights.WalkOnlyAcrossRed | TrafficLightManager.cs:70-107 | a walk signal of direction `d` is on only while `d`'s own vehicle signals are red and the other street's are green, so never in a yellow or all-red phase |
| TrafficLights.TrafficLightManager.constructor | TrafficLightManager.cs:27-33 | a controller not yet started, holding the scene's signals and an empty event log |
| TrafficLights.TrafficLightManager.GetTrafficLightState | TrafficLightManager.cs:170-173 | while running, the colour read is the current phase's colour for that direction |
| TrafficLights.TrafficLightManager.IsPedestrianWalkSignalOn | TrafficLightManager.cs:175-178 | while running, the first head of `d` shows walk iff the phase is `d`'s walk phase |
| TrafficLights.TrafficLightManager.SetTrafficLightState | TrafficLightManager.cs:111-139 | direction `d` becomes `c`, the other three are unchanged, and exactly one event `(d, c)` is appended, even if the colour was already `c` |
| TrafficLights.TrafficLightManager.SetPedestrianLightState | TrafficLightManager.cs:141-152 | the heads become `SetHeads(old heads, d, canWalk)` |
| TrafficLights.TrafficLightManager.SetAllTrafficLights | TrafficLightManager.cs:162-168 | all four directions become `c`, and four events are appended in enum order |
| TrafficLights.TrafficLightManager.InitializeLights | TrafficLightManager.cs:44-63 | all four directions are red, all eight heads show stop, and four Red events are appended |
| TrafficLights.TrafficLightManager.RunSegment | TrafficLightManager.cs:69-107 | the statements between two yields apply exactly the listed writes and raise exactly their events |
| TrafficLights.TrafficLightManager.EnterGreen | TrafficLightManager.cs:70-75 | the green segment writes its four colours and two walk heads in program order and raises the four events (also lines 90-95 with the streets swapped) |
| TrafficLights.TrafficLightManager.EnterYellow | TrafficLightManager.cs:79-82 | the yellow segment writes two colours and two stop heads in program order and raises the two events (also lines 99-102 with the streets swapped) |
| TrafficLights.TrafficLightManager.Start | TrafficLightManager.cs:38-42 | after initialisation and the first segment the controller waits in NS-green with the table's signals, having raised four Red events then the segment's events, and no write of the first segment shows both streets green |
| TrafficLights.TrafficLightManager.Advance | TrafficLightManager.cs:65-108 | one resumption: the phase steps to `Next`, the clock advances by the phase's wait, the segment's events are appended, the signals match the table, and no intermediate write makes both streets green |
| TrafficLights.TrafficLightManager.Cycle | TrafficLightManager.cs:67-108 | six resumptions restore the phase and both signal arrays, one cycle time `2*(green + yellow + allRed)` later, appending the six segments' writes, twenty events |
| CarControl.Raycast | CarController.cs:98-121 | a ray of a given length reports the first car only when it lies within that length |
| CarControl.GetDistanceToCarInFront | CarController.cs:92-104 | the hit distance minus half the car length, or `float.MaxValue` exactly when no car is within 100 |
| CarControl.WillCollideWithCarInFront | CarController.cs:106-113 | true iff a car lies within `movement + minDistanceBetweenCars + carLength/2` |
| CarControl.IsInQueue | CarController.cs:115-122 | true iff a car lies within `2*stoppingDistance` |
| CarControl.CanMove | CarController.cs:77-90 | false iff (waiting for the light and in the approach zone) or the gap is at most `minDistanceBetweenCars` |
| CarControl.TargetSpeed | CarController.cs:48-52 | non-negative; zero when waiting or at the minimum gap; otherwise the ramp with `target * stoppingDistance = (gap - min) * maxSpeed` |
| CarControl.TargetAboveMaxSpeed | CarController.cs:49-51 | the target exceeds `maxSpeed` iff the gap beyond the minimum exceeds `stoppingDistance` |
| CarControl.NewSpeed | CarController.cs:42-54 | accelerating: `min(v + a*dt, maxSpeed)` (at most both, and equal to one), not below the old speed when that is at most `maxSpeed`; braking: `max(v - d*dt, target)`; never negative |
| CarControl.Move | CarController.cs:56-71 | a projected collision zeroes the speed and keeps the position; otherwise the car covers speed times dt and stays more than the minimum gap plus half its length short of the car it saw, and is marked moving when its speed is positive |
| CarControl.Tick | CarController.cs:37-75 | zone and light hold are kept; `isInQueue` is the queue probe's answer; a projected collision zeroes the speed and keeps the position; otherwise the car moves by `speed*dt` and, when the speed is positive, is marked moving and not stopping |
| CarControl.TickKeepsClearance | CarController.cs:56-71 | a tick never moves the car backwards nor to within `min + carLength/2` of the car it saw |
| CarControl.BrakingWithClearRoadOverspeeds | CarController.cs:46-54 | with a positive `maxSpeed`, a car still braking, not held, with no car in range picks a speed above `maxSpeed` |
| CarControl.OverspeedRecovers | CarController.cs:42-45 | a car above `maxSpeed` that is neither held nor braking is brought back to exactly `maxSpeed` by one clear tick |
| CarControl.TickAtLight | CarController.cs:46-54 | a car held in the approach zone stays held and slows to at most `max(v - d*dt, 0)` |
| CarControl.BrakedClosedForm | CarController.cs:53 | `n` braking ticks take `n*d*dt` off the speed, down to zero |
| CarControl.HeldAtLight | CarController.cs:37-75 | over any number of frames a held car stays held and its speed falls at least as fast as `n` braking ticks take it |
| CarControl.StoppedAtLightStaysPut | CarController.cs:37-75 | a held car at rest keeps its position and zero speed over any number of frames |
| CarControl.TickOnClearRoad | CarController.cs:39-45 | on a clear road, a car neither held nor braking, at any non-negative speed (above `maxSpeed` included), gets `min(v + a*dt, maxSpeed)` and stays unheld and not braking |
| CarControl.AcceleratedClosedForm | CarController.cs:44 | `n` accelerating ticks add `n*a*dt` to the speed, capped at `maxSpeed` |
| CarControl.AccelerationRamp | CarController.cs:37-75 | on a clear road, from any non-negative speed, the speed after `n` frames is the capped linear ramp |
| CarControl.Respond | CarController.cs:181-197 | red or yellow in the approach zone or in a queue: stopping, not moving, waiting; red or yellow elsewhere: unchanged; green: moving, not stopping, not waiting |
| CarControl.RespondGatesMovement | CarController.cs:77-90 | after red or yellow in the approach zone the car cannot move; after green only the gap decides; responding twice to the same colour equals responding once |
| CarControl.ZoneOf | CarController.cs:139-161 | only the four zone tags name a zone |
| CarControl.ZoneOfInjective | CarController.cs:139-161 | distinct tags name distinct zones |
| CarControl.AfterEnter | CarController.cs:139-162 | a named zone is recorded; only the approach zone consults the light; other tags change nothing |
| CarControl.AfterExit | CarController.cs:164-171 | leaving the approach zone clears the light hold, whatever the light; other exits change nothing |
| CarControl.ExitReleasesHold | CarController.cs:164-171 | a car held at the light cannot move, and after leaving the approach zone it can, with a gap beyond the minimum |
| CarControl.CarController.constructor | CarController.cs:6-22 | speed 0, no zone, moving, all other flags clear |
| CarControl.CarController.UpdateMovement | CarController.cs:37-75 | the fields after one frame are `Tick` of the fields before |
| CarControl.CarController.AdjustSpeed | CarController.cs:39-54 | only the speed changes, to `NewSpeed` |
| CarControl.CarController.MoveOrHalt | CarController.cs:56-71 | the movement step: translate, or halt on a projected collision |
| CarControl.CarController.StopCar | CarController.cs:124-129 | stopping, not moving; nothing else changes |
| CarControl.CarController.StartCar | CarController.cs:131-137 | moving, not stopping, not waiting; nothing else changes |
| CarControl.CarController.CheckTrafficLightAndRespond | CarController.cs:181-197 | the fields become `Respond` of the controller's colour for the car's direction |
| CarControl.CarController.OnTriggerEnter | CarController.cs:139-162 | the fields become `AfterEnter` of the tag and the current colour |
| CarControl.CarController.OnTriggerExit | CarController.cs:164-171 | the fields become `AfterExit` of the tag |
| CarControl.CarController.HandleTrafficLightChanged | CarController.cs:173-179 | an event for another direction changes nothing; for the car's own direction the car responds to the colour it reads back |
| CarControl.NotifySubscriber | TrafficLightManager.cs:135-138 | the direction's signal becomes the colour, the others are unchanged, one event is appended, and since the colour is recorded before the event is raised a subscribed car responds to exactly the colour the event carries |

## Left out

- Rendering is not modelled: the `Light` objects and `SetLightState` switching `enabled` (TrafficLightManager.cs:10-21, 116-133, 154-160). A vehicle signal is its `currentState` colour. A pedestrian head is its pair of stop/walk booleans.
- Coroutine scheduling (`StartCoroutine`, `WaitForSeconds`) is not modelled. Each `yield` becomes an `Advance` call, and a simulated clock `elapsed` adds the wait of the phase left.
- `Physics.Raycast`, `LayerMask`, the ray origin and `transform` vectors are not modelled. Each ray becomes a `RayHit` input, and the car's position along its road is a scalar. The two probes before the move read the same reading, as one frame's physics would.
- Float precision and overflow are not modelled: speeds, distances and times are `real`.
- Event subscription and unsubscription (`+=`, `-=`, `OnDestroy`, `Start` of the car) are not modelled. A delivered event is a direct call, `NotifySubscriber`, and the controller's event stream is an appended log.
- `Debug.Log` output is not modelled.
- The null guards for unassigned signals (TrafficLightManager.cs:48-50, 57-60, 114, 147, 156) are not modelled. The arrays are fully populated.
- The car's reference to the controller is assumed set: `trafficLightManager` is a non-null `const`. The source checks it for null when subscribing (CarController.cs:26) but dereferences it unchecked when reading the light (CarController.cs:183); the model has no null reference to fail on.
- Unity's per-frame `Update` is not modelled; `UpdateMovement` is called directly with the frame's readings.
- CrosswalkController.cs is not part of this model. It is pedestrian navigation through the engine's agents and animation, with no signal logic of its own.
- TrafficLights.TrafficLightManager.Start: requires that the controller is not yet running. The engine calls `Start` once per component.
- CarControl.ValidSettings: the model assumes non-negative rates and distances and a positive `stoppingDistance`. The ramp at CarController.cs:51 divides by `stoppingDistance`, and float division by zero is not modelled.
