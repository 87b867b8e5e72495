// The vehicle agent (CarController.cs).
//
// The pure part states the per-tick speed decision, the collision and queue
// probes, and the stop/go policy as functions of the agent's state and of what
// the car-layer rays report. The class part is the agent itself, whose methods
// update its fields in place and are proved to follow those functions.

module CarControl {
  import opened Signals
  import TrafficLights

  /** The road zone a car last entered, in route order. */
  datatype Zone = None | Approach | Crosswalk | Intersection | Exit

  /** The tag of a trigger collider the car touches. */
  datatype ZoneTag = ApproachZone | CrosswalkZone | IntersectionZone | ExitZone | OtherTag

  /** What a forward ray on the car layer reports: the distance to the first car
      it meets, if any. */
  datatype RayHit = NoHit | Hit(distance: real)

  /** What the physics engine reports during one tick: `ahead` is the first car on
      the forward ray from where the car stands before it moves (whatever the ray's
      length), `afterMove` the same after the car has moved. */
  datatype Readings = Readings(ahead: RayHit, afterMove: RayHit)

  /** The inspector-configured parameters of one car. */
  datatype Settings = Settings(
    maxSpeed: real,
    accelerationRate: real,
    decelerationRate: real,
    stoppingDistance: real,
    carLength: real,
    minDistanceBetweenCars: real,
    travelDirection: Direction)

  /** Rates, speeds and distances are not negative; the stopping distance, which
      the speed ramp divides by, is positive. */
  predicate ValidSettings(c: Settings)
  {
    c.maxSpeed >= 0.0 && c.accelerationRate >= 0.0 && c.decelerationRate >= 0.0 &&
    c.stoppingDistance > 0.0 && c.carLength >= 0.0 && c.minDistanceBetweenCars >= 0.0
  }

  /** The fields of one car that change while it drives. */
  datatype CarState = CarState(
    currentSpeed: real,
    position: real,
    currentZone: Zone,
    isMoving: bool,
    isStopping: bool,
    isWaitingForLight: bool,
    isInQueue: bool)

  /** `float.MaxValue`, the distance reported when no car is ahead. */
  const FloatMaxValue: real := 340282346638528859811704183484516925440.0

  /** The length of the ray that looks for the car in front. */
  const ForwardRayLength: real := 100.0

  function Min(a: real, b: real): real
  {
    if a <= b then a else b
  }

  function Max(a: real, b: real): real
  {
    if a >= b then a else b
  }

  // ---------------------------------------------------------------------------
  // Probes

  /** `Physics.Raycast` with length `rayLength`: it reports the first car only if
      that car lies within the ray. */
  function Raycast(first: RayHit, rayLength: real): (r: RayHit)
    ensures r.Hit? <==> first.Hit? && first.distance <= rayLength
    ensures r.Hit? ==> r == first
  {
    if first.Hit? && first.distance <= rayLength then first else NoHit
  }

  /** The gap to the car in front, measured from this car's centre less half its
      length, or `float.MaxValue` when no car lies within the forward ray. */
  function GetDistanceToCarInFront(c: Settings, ahead: RayHit): (d: real)
    ensures Raycast(ahead, ForwardRayLength).Hit? ==> d == ahead.distance - c.carLength / 2.0
    // the sentinel can never be mistaken for a measured gap
    ensures c.carLength >= 0.0 ==>
      (d == FloatMaxValue <==> Raycast(ahead, ForwardRayLength).NoHit?)
  {
    match Raycast(ahead, ForwardRayLength)
    case Hit(distance) => distance - c.carLength / 2.0
    case NoHit => FloatMaxValue
  }

  /** Whether a car lies within this tick's movement plus the minimum gap plus
      half the car's length. */
  function WillCollideWithCarInFront(c: Settings, ahead: RayHit, movement: real): (b: bool)
    // a car reported beyond that reach is never a collision risk
    ensures !b <==>
      (ahead.NoHit? || ahead.distance > movement + c.minDistanceBetweenCars + c.carLength / 2.0)
  {
    Raycast(ahead, movement + c.minDistanceBetweenCars + c.carLength / 2.0).Hit?
  }

  /** Whether a car lies within twice the stopping distance. */
  function IsInQueue(c: Settings, afterMove: RayHit): (b: bool)
    ensures b <==> afterMove.Hit? && afterMove.distance <= 2.0 * c.stoppingDistance
  {
    Raycast(afterMove, c.stoppingDistance * 2.0).Hit?
  }

  // ---------------------------------------------------------------------------
  // Speed decision

  /** A car may go on unless it is held at the light in the approach zone or the
      gap ahead has shrunk to the minimum. */
  function CanMove(c: Settings, s: CarState, distance: real): (r: bool)
    ensures !r <==>
      (s.isWaitingForLight && s.currentZone == Approach) || distance <= c.minDistanceBetweenCars
  {
    if s.isWaitingForLight && s.currentZone == Approach then false
    else if distance <= c.minDistanceBetweenCars then false
    else true
  }

  /** The speed a braking car need not go below: zero when held at the light or
      at the minimum gap, otherwise the gap beyond the minimum scaled so that one
      stopping distance corresponds to `maxSpeed`. */
  function TargetSpeed(c: Settings, s: CarState, distance: real): (t: real)
    requires ValidSettings(c)
    ensures t >= 0.0
    ensures s.isWaitingForLight || distance <= c.minDistanceBetweenCars ==> t == 0.0
    ensures !s.isWaitingForLight && distance > c.minDistanceBetweenCars ==>
      t * c.stoppingDistance == (distance - c.minDistanceBetweenCars) * c.maxSpeed
  {
    if !s.isWaitingForLight && distance > c.minDistanceBetweenCars then
      var ramp := (distance - c.minDistanceBetweenCars) / c.stoppingDistance * c.maxSpeed;
      assert ramp >= 0.0;
      Max(0.0, ramp)
    else
      0.0
  }

  /** The target speed is not capped: it exceeds `maxSpeed` exactly when the gap
      beyond the minimum is longer than the stopping distance. */
  lemma TargetAboveMaxSpeed(c: Settings, s: CarState, distance: real)
    requires ValidSettings(c) && c.maxSpeed > 0.0
    requires !s.isWaitingForLight && distance > c.minDistanceBetweenCars
    ensures TargetSpeed(c, s, distance) > c.maxSpeed <==>
      distance - c.minDistanceBetweenCars > c.stoppingDistance
  {
    RatioAbove(TargetSpeed(c, s, distance), distance - c.minDistanceBetweenCars,
               c.stoppingDistance, c.maxSpeed);
  }

  /** With `t * sd == gap * m` and both factors positive, `t` exceeds `m` exactly
      when `gap` exceeds `sd`. */
  lemma RatioAbove(t: real, gap: real, sd: real, m: real)
    requires sd > 0.0 && m > 0.0 && t * sd == gap * m
    ensures t > m <==> gap > sd
  {
    ScaleStrict(t, m, sd);
    ScaleStrict(gap, sd, m);
    if t > m {
      assert gap * m > m * sd;
    } else {
      assert gap * m <= m * sd;
    }
  }

  /** Scaling by a positive factor preserves strict order. */
  lemma ScaleStrict(a: real, b: real, k: real)
    requires k > 0.0
    ensures a > b <==> a * k > b * k
    ensures a > b <==> a * k > k * b
  {
    assert b * k == k * b;
    if a > b {
      assert (a - b) * k > 0.0;
    } else {
      assert (b - a) * k >= 0.0;
    }
  }

  /** Whether this tick accelerates: the car may move and is not braking. */
  predicate Accelerating(c: Settings, s: CarState, distance: real)
  {
    CanMove(c, s, distance) && !s.isStopping
  }

  /** The speed chosen for this tick, before the collision check. */
  function NewSpeed(c: Settings, s: CarState, distance: real, dt: real): (v: real)
    requires ValidSettings(c) && dt >= 0.0
    // accelerating: linear ramp capped at maxSpeed, never slower than before
    ensures Accelerating(c, s, distance) ==>
      v <= c.maxSpeed && v <= s.currentSpeed + c.accelerationRate * dt &&
      (v == c.maxSpeed || v == s.currentSpeed + c.accelerationRate * dt)
    ensures Accelerating(c, s, distance) && s.currentSpeed <= c.maxSpeed ==> v >= s.currentSpeed
    // braking: linear ramp down, but never below the target speed
    ensures !Accelerating(c, s, distance) ==>
      v >= TargetSpeed(c, s, distance) &&
      v >= s.currentSpeed - c.decelerationRate * dt &&
      (v == TargetSpeed(c, s, distance) || v == s.currentSpeed - c.decelerationRate * dt)
    ensures s.currentSpeed >= 0.0 ==> v >= 0.0
  {
    if CanMove(c, s, distance) && !s.isStopping then
      Min(s.currentSpeed + c.accelerationRate * dt, c.maxSpeed)
    else
      Max(s.currentSpeed - c.decelerationRate * dt, TargetSpeed(c, s, distance))
  }

  /** Whether the collision probe stops this tick's movement. */
  predicate Blocked(c: Settings, s: CarState, r: Readings, dt: real)
    requires ValidSettings(c) && dt >= 0.0
  {
    var speed := NewSpeed(c, s, GetDistanceToCarInFront(c, r.ahead), dt);
    WillCollideWithCarInFront(c, r.ahead, speed * dt)
  }

  /** The second half of a tick: move at the speed just chosen unless the
      collision probe objects. */
  function Move(c: Settings, s: CarState, ahead: RayHit, dt: real): (t: CarState)
    ensures t.currentZone == s.currentZone && t.isWaitingForLight == s.isWaitingForLight
    ensures t.isInQueue == s.isInQueue
    // a projected collision freezes the car where it stands
    ensures WillCollideWithCarInFront(c, ahead, s.currentSpeed * dt) ==>
      t.currentSpeed == 0.0 && t.position == s.position && !t.isMoving && !t.isStopping
    // otherwise it keeps its speed and covers speed times dt, stopping short of
    // the car it saw by more than the minimum gap plus half its length
    ensures !WillCollideWithCarInFront(c, ahead, s.currentSpeed * dt) ==>
      t.currentSpeed == s.currentSpeed && t.position == s.position + s.currentSpeed * dt &&
      (ahead.Hit? ==> ahead.distance - (t.position - s.position) >
                        c.minDistanceBetweenCars + c.carLength / 2.0)
    ensures !WillCollideWithCarInFront(c, ahead, s.currentSpeed * dt) ==>
      if s.currentSpeed > 0.0 then t.isMoving && !t.isStopping
      else t.isMoving == s.isMoving && t.isStopping == s.isStopping
  {
    var movement := s.currentSpeed * dt;
    if WillCollideWithCarInFront(c, ahead, movement) then
      s.(currentSpeed := 0.0, isMoving := false, isStopping := false)
    else if s.currentSpeed > 0.0 then
      s.(position := s.position + movement, isMoving := true, isStopping := false)
    else
      s.(position := s.position + movement)
  }

  /** One call of `UpdateMovement`, `dt` seconds after the previous one. */
  function Tick(c: Settings, s: CarState, r: Readings, dt: real): (t: CarState)
    requires ValidSettings(c) && dt >= 0.0
    // zone and light-hold are not the tick's business
    ensures t.currentZone == s.currentZone && t.isWaitingForLight == s.isWaitingForLight
    // the queue flag is the probe's answer, whatever the speed decision was
    ensures t.isInQueue == IsInQueue(c, r.afterMove)
    ensures s.currentSpeed >= 0.0 ==> t.currentSpeed >= 0.0
    // a projected collision freezes the car where it stands
    ensures Blocked(c, s, r, dt) ==>
      t.currentSpeed == 0.0 && t.position == s.position && !t.isMoving && !t.isStopping
    // otherwise it moves at the chosen speed for dt
    ensures !Blocked(c, s, r, dt) ==>
      t.currentSpeed == NewSpeed(c, s, GetDistanceToCarInFront(c, r.ahead), dt) &&
      t.position == s.position + t.currentSpeed * dt
    ensures !Blocked(c, s, r, dt) && t.currentSpeed > 0.0 ==> t.isMoving && !t.isStopping
    ensures !Blocked(c, s, r, dt) && t.currentSpeed <= 0.0 ==>
      t.isMoving == s.isMoving && t.isStopping == s.isStopping
  {
    var speed := NewSpeed(c, s, GetDistanceToCarInFront(c, r.ahead), dt);
    var moved := Move(c, s.(currentSpeed := speed), r.ahead, dt);
    assert Blocked(c, s, r, dt) == WillCollideWithCarInFront(c, r.ahead, speed * dt);
    moved.(isInQueue := IsInQueue(c, r.afterMove))
  }

  /** A tick never carries the car to within the minimum gap plus half its length
      of the car the forward ray saw, and never moves it backwards. */
  lemma TickKeepsClearance(c: Settings, s: CarState, r: Readings, dt: real)
    requires ValidSettings(c) && dt >= 0.0 && s.currentSpeed >= 0.0
    requires r.ahead.Hit? && r.ahead.distance > c.minDistanceBetweenCars + c.carLength / 2.0
    ensures Tick(c, s, r, dt).position >= s.position
    ensures r.ahead.distance - (Tick(c, s, r, dt).position - s.position) >
      c.minDistanceBetweenCars + c.carLength / 2.0
  {
    var t := Tick(c, s, r, dt);
    if !Blocked(c, s, r, dt) {
      var movement := t.currentSpeed * dt;
      assert movement >= 0.0;
      assert r.ahead.distance > movement + c.minDistanceBetweenCars + c.carLength / 2.0;
    }
  }

  /** A car still braking (`isStopping`) but no longer held at the light, with no
      car within the forward ray, chooses a speed above `maxSpeed`: the braking
      branch's target is the ramp at the sentinel distance, which is not capped. */
  lemma BrakingWithClearRoadOverspeeds(c: Settings, s: CarState, dt: real)
    requires ValidSettings(c) && dt >= 0.0 && c.maxSpeed > 0.0
    requires s.isStopping && !s.isWaitingForLight
    requires FloatMaxValue - c.minDistanceBetweenCars > c.stoppingDistance
    ensures NewSpeed(c, s, GetDistanceToCarInFront(c, NoHit), dt) > c.maxSpeed
  {
    assert GetDistanceToCarInFront(c, NoHit) == FloatMaxValue;
    TargetAboveMaxSpeed(c, s, FloatMaxValue);
  }

  /** `n` successive ticks, one per reading. */
  function Run(c: Settings, s: CarState, rs: seq<Readings>, dt: real): (t: CarState)
    requires ValidSettings(c) && dt >= 0.0
    decreases |rs|
  {
    if rs == [] then s else Run(c, Tick(c, s, rs[0], dt), rs[1..], dt)
  }

  /** One tick of a car held at the light in the approach zone: it stays held
      and brakes towards zero, whatever the rays report. */
  lemma TickAtLight(c: Settings, s: CarState, r: Readings, dt: real)
    requires ValidSettings(c) && dt >= 0.0 && s.currentSpeed >= 0.0
    requires s.isWaitingForLight && s.currentZone == Approach
    ensures Tick(c, s, r, dt).isWaitingForLight && Tick(c, s, r, dt).currentZone == Approach
    ensures 0.0 <= Tick(c, s, r, dt).currentSpeed <= Max(s.currentSpeed - c.decelerationRate * dt, 0.0)
  {
    var distance := GetDistanceToCarInFront(c, r.ahead);
    assert !CanMove(c, s, distance);
    assert TargetSpeed(c, s, distance) == 0.0;
  }

  /** The speed left after `n` ticks that each brake by `step`, stopping at zero. */
  function Braked(v: real, step: real, n: nat): real
    decreases n
  {
    if n == 0 then v else Braked(Max(v - step, 0.0), step, n - 1)
  }

  /** Braking from a lower speed leaves a lower speed. */
  lemma {:induction false} BrakedMonotone(u: real, v: real, step: real, n: nat)
    requires u <= v
    ensures Braked(u, step, n) <= Braked(v, step, n)
    decreases n
  {
    if n > 0 {
      BrakedMonotone(Max(u - step, 0.0), Max(v - step, 0.0), step, n - 1);
    }
  }

  /** `n` brakes by `step` take `n * step` off the speed, down to zero. */
  lemma {:induction false} BrakedClosedForm(v: real, step: real, n: nat)
    requires v >= 0.0 && step >= 0.0
    ensures Braked(v, step, n) == Max(v - (n as real) * step, 0.0)
    decreases n
  {
    if n > 0 {
      BrakedClosedForm(Max(v - step, 0.0), step, n - 1);
      var k := ((n - 1) as real) * step;
      assert (n as real) * step == k + step;
      assert k >= 0.0;
    }
  }

  /** A car held at the light in the approach zone stays held, and its speed
      falls at least as fast as `n` brakes of `decelerationRate * dt` would take it
      (`BrakedClosedForm`: by that much per tick, down to zero), whatever the rays
      report. */
  lemma {:induction false} HeldAtLight(c: Settings, s: CarState, rs: seq<Readings>, dt: real)
    requires ValidSettings(c) && dt >= 0.0 && s.currentSpeed >= 0.0
    requires s.isWaitingForLight && s.currentZone == Approach
    ensures Run(c, s, rs, dt).isWaitingForLight && Run(c, s, rs, dt).currentZone == Approach
    ensures 0.0 <= Run(c, s, rs, dt).currentSpeed <=
      Braked(s.currentSpeed, c.decelerationRate * dt, |rs|)
    decreases |rs|
  {
    if rs != [] {
      var t := Tick(c, s, rs[0], dt);
      var step := c.decelerationRate * dt;
      TickAtLight(c, s, rs[0], dt);
      HeldAtLight(c, t, rs[1..], dt);
      BrakedMonotone(t.currentSpeed, Max(s.currentSpeed - step, 0.0), step, |rs| - 1);
      assert Run(c, s, rs, dt) == Run(c, t, rs[1..], dt);
    }
  }

  /** Once a car held at the light has stopped, further ticks leave it where it is. */
  lemma {:induction false} StoppedAtLightStaysPut(c: Settings, s: CarState, rs: seq<Readings>, dt: real)
    requires ValidSettings(c) && dt >= 0.0 && s.currentSpeed == 0.0
    requires s.isWaitingForLight && s.currentZone == Approach
    ensures Run(c, s, rs, dt).position == s.position
    ensures Run(c, s, rs, dt).currentSpeed == 0.0
    decreases |rs|
  {
    if rs != [] {
      var t := Tick(c, s, rs[0], dt);
      TickAtLight(c, s, rs[0], dt);
      assert t.currentSpeed == 0.0;
      assert t.position == s.position;
      StoppedAtLightStaysPut(c, t, rs[1..], dt);
      assert Run(c, s, rs, dt) == Run(c, t, rs[1..], dt);
    }
  }

  /** Readings of a road with no car anywhere ahead. */
  predicate ClearRoad(rs: seq<Readings>)
  {
    forall i :: 0 <= i < |rs| ==> rs[i] == Readings(NoHit, NoHit)
  }

  /** One tick on a clear road of a car that is neither held nor braking. */
  lemma TickOnClearRoad(c: Settings, s: CarState, dt: real)
    requires ValidSettings(c) && dt >= 0.0 && c.minDistanceBetweenCars < FloatMaxValue
    requires 0.0 <= s.currentSpeed
    requires !s.isWaitingForLight && !s.isStopping
    ensures Tick(c, s, Readings(NoHit, NoHit), dt).currentSpeed ==
      Min(s.currentSpeed + c.accelerationRate * dt, c.maxSpeed)
    ensures !Tick(c, s, Readings(NoHit, NoHit), dt).isStopping
    ensures !Tick(c, s, Readings(NoHit, NoHit), dt).isWaitingForLight
  {
    assert GetDistanceToCarInFront(c, NoHit) == FloatMaxValue;
    assert Accelerating(c, s, FloatMaxValue);
    assert !Blocked(c, s, Readings(NoHit, NoHit), dt);
  }

  /** A car that has gone above `maxSpeed` (see `BrakingWithClearRoadOverspeeds`)
      comes back to exactly `maxSpeed` on its next clear tick once it is neither
      held nor braking. */
  lemma OverspeedRecovers(c: Settings, s: CarState, dt: real)
    requires ValidSettings(c) && dt >= 0.0 && c.minDistanceBetweenCars < FloatMaxValue
    requires s.currentSpeed > c.maxSpeed
    requires !s.isWaitingForLight && !s.isStopping
    ensures Tick(c, s, Readings(NoHit, NoHit), dt).currentSpeed == c.maxSpeed
  {
    TickOnClearRoad(c, s, dt);
  }

  /** The speed reached after `n` ticks that each gain `step`, capped at `cap`. */
  function Accelerated(v: real, step: real, cap: real, n: nat): real
    decreases n
  {
    if n == 0 then v else Accelerated(Min(v + step, cap), step, cap, n - 1)
  }

  /** `n` gains of `step` add `n * step` to the speed, up to the cap. */
  lemma {:induction false} AcceleratedClosedForm(v: real, step: real, cap: real, n: nat)
    requires v <= cap && step >= 0.0
    ensures Accelerated(v, step, cap, n) == Min(v + (n as real) * step, cap)
    decreases n
  {
    if n > 0 {
      var u := Min(v + step, cap);
      AcceleratedClosedForm(u, step, cap, n - 1);
      var k := ((n - 1) as real) * step;
      assert (n as real) * step == k + step;
      assert k >= 0.0;
      assert Accelerated(v, step, cap, n) == Min(u + k, cap);
      if v + step > cap {
        assert u + k >= cap;
      }
    }
  }

  /** On a clear road, a car that is neither held nor braking follows the
      acceleration law tick by tick (`AcceleratedClosedForm`: it gains
      `accelerationRate * dt` per tick until it reaches `maxSpeed`, never beyond). */
  lemma {:induction false} AccelerationRamp(c: Settings, s: CarState, rs: seq<Readings>, dt: real)
    requires ValidSettings(c) && dt >= 0.0 && c.minDistanceBetweenCars < FloatMaxValue
    requires 0.0 <= s.currentSpeed
    requires !s.isWaitingForLight && !s.isStopping && ClearRoad(rs)
    ensures Run(c, s, rs, dt).currentSpeed ==
      Accelerated(s.currentSpeed, c.accelerationRate * dt, c.maxSpeed, |rs|)
    ensures !Run(c, s, rs, dt).isStopping && !Run(c, s, rs, dt).isWaitingForLight
    decreases |rs|
  {
    if rs != [] {
      var t := Tick(c, s, rs[0], dt);
      TickOnClearRoad(c, s, dt);
      assert rs[0] == Readings(NoHit, NoHit);
      assert ClearRoad(rs[1..]);
      AccelerationRamp(c, t, rs[1..], dt);
      assert Run(c, s, rs, dt) == Run(c, t, rs[1..], dt);
    }
  }

  // ---------------------------------------------------------------------------
  // Stop/go policy and zones

  /** `CheckTrafficLightAndRespond` with `light` the colour of the car's direction. */
  function Respond(s: CarState, light: Colour): (t: CarState)
    ensures light != Green && (s.currentZone == Approach || s.isInQueue) ==>
      t == s.(isStopping := true, isMoving := false, isWaitingForLight := true)
    ensures light != Green && !(s.currentZone == Approach || s.isInQueue) ==> t == s
    ensures light == Green ==>
      t == s.(isMoving := true, isStopping := false, isWaitingForLight := false)
  {
    match light
    case Green => s.(isMoving := true, isStopping := false, isWaitingForLight := false)
    case _ =>
      if s.currentZone == Approach || s.isInQueue then
        s.(isStopping := true, isMoving := false, isWaitingForLight := true)
      else
        s
  }

  /** After a red or yellow light in the approach zone the car cannot move at any
      gap, and after a green light only the gap decides. */
  lemma RespondGatesMovement(c: Settings, s: CarState, light: Colour, distance: real)
    ensures light != Green && s.currentZone == Approach ==> !CanMove(c, Respond(s, light), distance)
    ensures light == Green ==>
      (CanMove(c, Respond(s, light), distance) <==> distance > c.minDistanceBetweenCars)
    ensures Respond(Respond(s, light), light) == Respond(s, light)
  {
  }

  /** The zone a collider tag names, if any. */
  function ZoneOf(tag: ZoneTag): (z: Zone)
    ensures z == None <==> tag == OtherTag
  {
    match tag
    case ApproachZone => Approach
    case CrosswalkZone => Crosswalk
    case IntersectionZone => Intersection
    case ExitZone => Exit
    case OtherTag => None
  }

  /** Distinct tags name distinct zones. */
  lemma ZoneOfInjective(a: ZoneTag, b: ZoneTag)
    ensures ZoneOf(a) == ZoneOf(b) ==> a == b
  {
  }

  /** `OnTriggerEnter`, with `light` the colour of the car's direction. */
  function AfterEnter(s: CarState, tag: ZoneTag, light: Colour): (t: CarState)
    // entering a named zone records it; only the approach zone consults the light
    ensures tag == ApproachZone ==> t == Respond(s.(currentZone := Approach), light)
    ensures tag != ApproachZone && tag != OtherTag ==> t == s.(currentZone := ZoneOf(tag))
    ensures tag == OtherTag ==> t == s
  {
    if tag == OtherTag then s
    else
      var entered := s.(currentZone := ZoneOf(tag));
      if tag == ApproachZone then Respond(entered, light) else entered
  }

  /** `OnTriggerExit`: leaving the approach zone drops the hold at the light, even
      under red; the zone itself is not changed. */
  function AfterExit(s: CarState, tag: ZoneTag): (t: CarState)
    ensures tag == ApproachZone ==> t == s.(isWaitingForLight := false)
    ensures tag != ApproachZone ==> t == s
  {
    if tag == ApproachZone then s.(isWaitingForLight := false) else s
  }

  /** A car that leaves the approach zone while held at a red light is no longer
      held: with a gap beyond the minimum it may move, although the light is red. */
  lemma ExitReleasesHold(c: Settings, s: CarState, distance: real)
    requires s.currentZone == Approach && s.isWaitingForLight
    requires distance > c.minDistanceBetweenCars
    ensures !CanMove(c, s, distance)
    ensures CanMove(c, AfterExit(s, ApproachZone), distance)
  {
  }

  // ---------------------------------------------------------------------------
  // The agent

  class CarController {
    const settings: Settings
    const trafficLightManager: TrafficLights.TrafficLightManager
    var currentSpeed: real
    var position: real
    var currentZone: Zone
    var isMoving: bool
    var isStopping: bool
    var isWaitingForLight: bool
    var isInQueue: bool

    /** The agent's fields as one value. */
    function State(): CarState
      reads this
    {
      CarState(currentSpeed, position, currentZone, isMoving, isStopping, isWaitingForLight, isInQueue)
    }

    ghost predicate Valid()
      reads this
    {
      ValidSettings(settings) && currentSpeed >= 0.0
    }

    /** A car placed at `position` with the field defaults of the component. */
    constructor (settings: Settings, manager: TrafficLights.TrafficLightManager, position: real)
      requires ValidSettings(settings)
      ensures Valid() && this.settings == settings && trafficLightManager == manager
      ensures State() == CarState(0.0, position, None, true, false, false, false)
    {
      this.settings := settings;
      trafficLightManager := manager;
      currentSpeed := 0.0;
      this.position := position;
      currentZone := None;
      isMoving := true;
      isStopping := false;
      isWaitingForLight := false;
      isInQueue := false;
    }

    /** One frame of driving, `dt` seconds after the previous one. */
    method UpdateMovement(r: Readings, dt: real)
      requires Valid() && dt >= 0.0
      modifies this
      ensures Valid()
      ensures State() == Tick(settings, old(State()), r, dt)
    {
      var distanceToCarInFront := GetDistanceToCarInFront(settings, r.ahead);
      AdjustSpeed(distanceToCarInFront, dt);
      MoveOrHalt(r.ahead, dt);
      isInQueue := IsInQueue(settings, r.afterMove);
    }

    /** The speed decision of `UpdateMovement`: accelerate when the way is clear,
        otherwise brake towards a target speed. */
    method AdjustSpeed(distanceToCarInFront: real, dt: real)
      requires Valid() && dt >= 0.0
      modifies this`currentSpeed
      ensures Valid()
      ensures State() == old(State()).(currentSpeed :=
        NewSpeed(settings, old(State()), distanceToCarInFront, dt))
    {
      var canMove := CanMove(settings, State(), distanceToCarInFront);
      if canMove && !isStopping {
        currentSpeed := Min(currentSpeed + settings.accelerationRate * dt, settings.maxSpeed);
      } else {
        var targetSpeed := 0.0;
        if !isWaitingForLight && distanceToCarInFront > settings.minDistanceBetweenCars {
          targetSpeed := Max(0.0, (distanceToCarInFront - settings.minDistanceBetweenCars)
            / settings.stoppingDistance * settings.maxSpeed);
        }
        currentSpeed := Max(currentSpeed - settings.decelerationRate * dt, targetSpeed);
      }
    }

    /** The movement step of `UpdateMovement`: translate by speed times `dt`
        unless the probe ahead projects a collision. */
    method MoveOrHalt(ahead: RayHit, dt: real)
      requires Valid() && dt >= 0.0
      modifies this`currentSpeed, this`position, this`isMoving, this`isStopping
      ensures Valid()
      ensures State() == Move(settings, old(State()), ahead, dt)
    {
      var movement := currentSpeed * dt;
      if !WillCollideWithCarInFront(settings, ahead, movement) {
        position := position + movement;
        if currentSpeed > 0.0 {
          isMoving := true;
          isStopping := false;
        }
      } else {
        currentSpeed := 0.0;
        isMoving := false;
        isStopping := false;
      }
    }

    method StopCar()
      modifies this
      ensures State() == old(State()).(isStopping := true, isMoving := false)
    {
      isStopping := true;
      isMoving := false;
    }

    method StartCar()
      modifies this
      ensures State() == old(State()).(isMoving := true, isStopping := false, isWaitingForLight := false)
    {
      isMoving := true;
      isStopping := false;
      isWaitingForLight := false;
    }

    /** Reads the light of the car's own direction from the controller and applies
        the stop/go policy. */
    method CheckTrafficLightAndRespond()
      requires Valid() && trafficLightManager.Valid()
      modifies this
      ensures Valid()
      ensures State() ==
        Respond(old(State()), trafficLightManager.GetTrafficLightState(settings.travelDirection))
    {
      var lightState := trafficLightManager.GetTrafficLightState(settings.travelDirection);
      if lightState == Red || lightState == Yellow {
        if currentZone == Approach || isInQueue {
          StopCar();
          isWaitingForLight := true;
        }
      } else {
        StartCar();
      }
    }

    method OnTriggerEnter(tag: ZoneTag)
      requires Valid() && trafficLightManager.Valid()
      modifies this
      ensures Valid()
      ensures State() == AfterEnter(old(State()), tag,
        trafficLightManager.GetTrafficLightState(settings.travelDirection))
    {
      if tag == ApproachZone {
        currentZone := Approach;
        CheckTrafficLightAndRespond();
      } else if tag == CrosswalkZone {
        currentZone := Crosswalk;
      } else if tag == IntersectionZone {
        currentZone := Intersection;
      } else if tag == ExitZone {
        currentZone := Exit;
      }
    }

    method OnTriggerExit(tag: ZoneTag)
      modifies this
      ensures State() == AfterExit(old(State()), tag)
    {
      if tag == ApproachZone {
        isWaitingForLight := false;
      }
    }

    /** The subscriber to the controller's change event: it re-reads the light
        only for its own direction, and ignores the colour the event carries. */
    method HandleTrafficLightChanged(direction: Direction, newState: Colour)
      requires Valid() && trafficLightManager.Valid()
      modifies this
      ensures Valid()
      ensures direction != settings.travelDirection ==> State() == old(State())
      ensures direction == settings.travelDirection ==>
        State() == Respond(old(State()),
                           trafficLightManager.GetTrafficLightState(settings.travelDirection))
    {
      if direction == settings.travelDirection {
        CheckTrafficLightAndRespond();
      }
    }
  }

  /** One light change delivered to one subscribed car: the controller records
      the colour before it raises the event, so the colour the car reads back is
      the colour the event carries. */
  method NotifySubscriber(manager: TrafficLights.TrafficLightManager, car: CarController,
                          direction: Direction, colour: Colour)
    requires manager.Valid() && car.Valid() && car.trafficLightManager == manager
    modifies manager`events, manager.lights, car
    ensures car.Valid()
    ensures manager.events == old(manager.events) + [(direction, colour)]
    ensures manager.lights[..] == old(manager.lights[..])[Index(direction) := colour]
    ensures car.State() == if direction == car.settings.travelDirection
      then Respond(old(car.State()), colour) else old(car.State())
  {
    manager.SetTrafficLightState(direction, colour);
    car.HandleTrafficLightChanged(direction, colour);
  }
}
