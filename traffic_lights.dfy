// The intersection phase controller (TrafficLightManager.cs).
//
// The pure part states the six-phase table, the exact writes each segment of the
// coroutine performs, and what those writes do to the signal arrays. The class
// part is the controller itself: two arrays updated in place, an event log that
// records every OnTrafficLightChanged invocation, and the coroutine's resume point.

module TrafficLights {
  import opened Signals

  /** The six `yield` points of the `while (true)` loop of IntersectionSequence,
      named after the signal state the controller holds while it waits there. */
  datatype Phase = NSGreen | NSYellow | AllRedAfterNS | EWGreen | EWYellow | AllRedAfterEW

  /** The phase the coroutine waits in after resuming from `p`. */
  function Next(p: Phase): (q: Phase)
    ensures q != p
    ensures Previous(q) == p
  {
    match p
    case NSGreen => NSYellow
    case NSYellow => AllRedAfterNS
    case AllRedAfterNS => EWGreen
    case EWGreen => EWYellow
    case EWYellow => AllRedAfterEW
    case AllRedAfterEW => NSGreen
  }

  /** The phase the coroutine resumes from to reach `p`. */
  function Previous(p: Phase): Phase
  {
    match p
    case NSGreen => AllRedAfterEW
    case NSYellow => NSGreen
    case AllRedAfterNS => NSYellow
    case EWGreen => AllRedAfterNS
    case EWYellow => EWGreen
    case AllRedAfterEW => EWYellow
  }

  /** The phase reached after `n` resumptions from `p`. */
  function Iterate(p: Phase, n: nat): Phase
  {
    if n == 0 then p else Next(Iterate(p, n - 1))
  }

  /** The loop has period exactly six: six resumptions come back to the same
      phase, and no smaller positive number does. */
  lemma {:induction false} CycleReturns(p: Phase)
    ensures Iterate(p, 6) == p
    ensures forall k :: 0 < k < 6 ==> Iterate(p, k) != p
  {
    var p1 := Iterate(p, 1);
    var p2 := Iterate(p, 2);
    var p3 := Iterate(p, 3);
    var p4 := Iterate(p, 4);
    var p5 := Iterate(p, 5);
    assert p1 == Next(p) && p2 == Next(p1) && p3 == Next(p2) && p4 == Next(p3) && p5 == Next(p4);
    assert Iterate(p, 6) == Next(p5);
    forall k | 0 < k < 6
      ensures Iterate(p, k) != p
    {
      assert k == 1 || k == 2 || k == 3 || k == 4 || k == 5;
    }
  }

  // ---------------------------------------------------------------------------
  // Timing

  /** The inspector-configured durations, in seconds. */
  datatype Timing = Timing(
    vehicleGreenDuration: real,
    vehicleYellowDuration: real,
    pedestrianGreenDuration: real,
    allRedDuration: real)

  /** The argument of the `WaitForSeconds` at the yield of phase `p`. */
  function Duration(t: Timing, p: Phase): (r: real)
    // the wait is chosen by the colours the phase shows
    ensures Green in PhaseLights(p) ==> r == t.vehicleGreenDuration
    ensures Yellow in PhaseLights(p) ==> r == t.vehicleYellowDuration
    ensures PhaseLights(p) == [Red, Red, Red, Red] ==> r == t.allRedDuration
  {
    match p
    case NSGreen => t.vehicleGreenDuration
    case EWGreen => t.vehicleGreenDuration
    case NSYellow => t.vehicleYellowDuration
    case EWYellow => t.vehicleYellowDuration
    case AllRedAfterNS => t.allRedDuration
    case AllRedAfterEW => t.allRedDuration
  }

  /** The time spent waiting in the `n` phases that start at `p`. */
  function TimeOver(t: Timing, p: Phase, n: nat): real
  {
    if n == 0 then 0.0 else TimeOver(t, p, n - 1) + Duration(t, Iterate(p, n - 1))
  }

  /** One full cycle, started at any phase, lasts twice the sum of the green,
      yellow and all-red durations. */
  lemma {:induction false} CycleDuration(t: Timing, p: Phase)
    ensures TimeOver(t, p, 6) ==
      2.0 * (t.vehicleGreenDuration + t.vehicleYellowDuration + t.allRedDuration)
  {
    var p1 := Iterate(p, 1);
    var p2 := Iterate(p, 2);
    var p3 := Iterate(p, 3);
    var p4 := Iterate(p, 4);
    var p5 := Iterate(p, 5);
    assert p1 == Next(p) && p2 == Next(p1) && p3 == Next(p2) && p4 == Next(p3) && p5 == Next(p4);
    calc {
      TimeOver(t, p, 6);
      TimeOver(t, p, 5) + Duration(t, p5);
      TimeOver(t, p, 4) + Duration(t, p4) + Duration(t, p5);
      TimeOver(t, p, 3) + Duration(t, p3) + Duration(t, p4) + Duration(t, p5);
      TimeOver(t, p, 2) + Duration(t, p2) + Duration(t, p3) + Duration(t, p4) + Duration(t, p5);
      TimeOver(t, p, 1) + Duration(t, p1) + Duration(t, p2) + Duration(t, p3) + Duration(t, p4)
        + Duration(t, p5);
      Duration(t, p) + Duration(t, p1) + Duration(t, p2) + Duration(t, p3) + Duration(t, p4)
        + Duration(t, p5);
    }
  }

  /** `pedestrianGreenDuration` is configured but no phase waits on it. */
  lemma PedestrianGreenUnused(t: Timing, x: real, p: Phase)
    ensures Duration(t.(pedestrianGreenDuration := x), p) == Duration(t, p)
  {
  }

  // ---------------------------------------------------------------------------
  // Vehicle signals

  /** One `SetTrafficLightState(direction, state)` call, which is also the
      `(direction, state)` event it raises. */
  type Write = (Direction, Colour)

  /** The four writes of `SetAllTrafficLights(c)`, in enum order. */
  function AllWrites(c: Colour): (ws: seq<Write>)
    ensures |ws| == 4
    ensures forall i :: 0 <= i < 4 ==> ws[i] == (AllDirections()[i], c)
  {
    [(North, c), (South, c), (East, c), (West, c)]
  }

  /** The vehicle-signal writes performed, in program order, on the way into `p`. */
  function PhaseWrites(p: Phase): (ws: seq<Write>)
    ensures |ws| == if p == NSYellow || p == EWYellow then 2 else 4
  {
    match p
    case NSGreen => [(North, Green), (South, Green), (East, Red), (West, Red)]
    case NSYellow => [(North, Yellow), (South, Yellow)]
    case AllRedAfterNS => AllWrites(Red)
    case EWGreen => [(East, Green), (West, Green), (North, Red), (South, Red)]
    case EWYellow => [(East, Yellow), (West, Yellow)]
    case AllRedAfterEW => AllWrites(Red)
  }

  /** Every write of a segment puts the colour the phase it leads into holds,
      and green is written only on entering a green phase, only to that street. */
  lemma PhaseWritesTargets(p: Phase)
    ensures forall j :: 0 <= j < |PhaseWrites(p)| ==>
      PhaseWrites(p)[j].1 == PhaseLights(p)[Index(PhaseWrites(p)[j].0)]
    ensures forall j :: 0 <= j < |PhaseWrites(p)| && PhaseWrites(p)[j].1 == Green ==>
      (p == NSGreen && NorthSouth(PhaseWrites(p)[j].0)) ||
      (p == EWGreen && !NorthSouth(PhaseWrites(p)[j].0))
  {
  }

  /** The writes, in order, of `n` resumptions of the coroutine from phase `p`. */
  function WritesOver(p: Phase, n: nat): seq<Write>
  {
    if n == 0 then [] else WritesOver(p, n - 1) + PhaseWrites(Iterate(p, n))
  }

  /** One pass of the loop raises twenty events: from any phase, six
      resumptions write 4 + 2 + 4 + 4 + 2 + 4 colours. */
  lemma {:induction false} CycleEventCount(p: Phase)
    ensures |WritesOver(p, 6)| == 20
  {
    var p1 := Iterate(p, 1);
    var p2 := Iterate(p, 2);
    var p3 := Iterate(p, 3);
    var p4 := Iterate(p, 4);
    var p5 := Iterate(p, 5);
    var p6 := Iterate(p, 6);
    assert p1 == Next(p) && p2 == Next(p1) && p3 == Next(p2) && p4 == Next(p3) && p5 == Next(p4);
    assert p6 == Next(p5);
    var n := |PhaseWrites(p1)| + |PhaseWrites(p2)| + |PhaseWrites(p3)|
      + |PhaseWrites(p4)| + |PhaseWrites(p5)| + |PhaseWrites(p6)|;
    assert |WritesOver(p, 6)| == n;
  }

  /** The colours of the four directions, indexed by `Index`, after performing
      the writes `ws` in order starting from `l`. */
  function ApplyWrites(l: seq<Colour>, ws: seq<Write>): (r: seq<Colour>)
    requires |l| == 4
    ensures |r| == 4
    ensures forall i :: 0 <= i < 4 && (forall j :: 0 <= j < |ws| ==> Index(ws[j].0) != i) ==>
      r[i] == l[i]
    ensures ws != [] ==> r[Index(ws[|ws| - 1].0)] == ws[|ws| - 1].1
    decreases |ws|
  {
    if ws == [] then l
    else
      var w := ws[|ws| - 1];
      ApplyWrites(l, ws[..|ws| - 1])[Index(w.0) := w.1]
  }

  /** Every direction shows the colour of the last write to it: a write that no
      later write to the same direction overrides decides that direction. */
  lemma {:induction false} LastWriteWins(l: seq<Colour>, ws: seq<Write>, j: nat)
    requires |l| == 4 && j < |ws|
    requires forall k :: j < k < |ws| ==> ws[k].0 != ws[j].0
    ensures ApplyWrites(l, ws)[Index(ws[j].0)] == ws[j].1
    decreases |ws|
  {
    if j < |ws| - 1 {
      var init := ws[..|ws| - 1];
      assert init[j] == ws[j];
      assert forall k :: j < k < |init| ==> init[k] == ws[k];
      LastWriteWins(l, init, j);
      FromIndexInverse(Index(ws[|ws| - 1].0));
      assert Index(ws[|ws| - 1].0) != Index(ws[j].0);
    }
  }

  /** The vehicle signals, `[North, South, East, West]`, held while waiting in `p`. */
  function PhaseLights(p: Phase): (l: seq<Colour>)
    ensures |l| == 4
    // opposite approaches always agree
    ensures l[Index(North)] == l[Index(South)] && l[Index(East)] == l[Index(West)]
    // the crossing streets are never green together
    ensures !(l[Index(North)] == Green && l[Index(East)] == Green)
    // each street is green exactly in its own green phase
    ensures l[Index(North)] == Green <==> p == NSGreen
    ensures l[Index(East)] == Green <==> p == EWGreen
  {
    match p
    case NSGreen => [Green, Green, Red, Red]
    case NSYellow => [Yellow, Yellow, Red, Red]
    case AllRedAfterNS => [Red, Red, Red, Red]
    case EWGreen => [Red, Red, Green, Green]
    case EWYellow => [Red, Red, Yellow, Yellow]
    case AllRedAfterEW => [Red, Red, Red, Red]
  }

  /** Some North/South head and some East/West head are green at the same time. */
  predicate Conflict(l: seq<Colour>)
    requires |l| == 4
  {
    (l[Index(North)] == Green || l[Index(South)] == Green) &&
    (l[Index(East)] == Green || l[Index(West)] == Green)
  }

  /** Each green phase is entered from an all-red phase. */
  lemma GreenEnteredFromAllRed(p: Phase)
    requires p == NSGreen || p == EWGreen
    ensures PhaseLights(Previous(p)) == [Red, Red, Red, Red]
  {
  }

  /** Performing one more write updates the colour of its direction. */
  lemma ApplyWritesStep(l: seq<Colour>, ws: seq<Write>, k: nat)
    requires |l| == 4 && k < |ws|
    ensures ApplyWrites(l, ws[..k + 1]) == ApplyWrites(l, ws[..k])[Index(ws[k].0) := ws[k].1]
  {
    assert ws[..k + 1][..k] == ws[..k];
  }

  /** The effect of a segment's writes, spelled out one write at a time. */
  lemma {:induction false} ApplyWritesUnrolled(l: seq<Colour>, ws: seq<Write>)
    requires |l| == 4 && (|ws| == 2 || |ws| == 4)
    ensures |ws| == 2 ==>
      ApplyWrites(l, ws) == l[Index(ws[0].0) := ws[0].1][Index(ws[1].0) := ws[1].1]
    ensures |ws| == 4 ==>
      ApplyWrites(l, ws) == l[Index(ws[0].0) := ws[0].1][Index(ws[1].0) := ws[1].1]
                             [Index(ws[2].0) := ws[2].1][Index(ws[3].0) := ws[3].1]
  {
    assert ws[..0] == [];
    ApplyWritesStep(l, ws, 0);
    ApplyWritesStep(l, ws, 1);
    if |ws| == 4 {
      ApplyWritesStep(l, ws, 2);
      ApplyWritesStep(l, ws, 3);
    }
    assert ws[..|ws|] == ws;
  }

  /** The writes of a segment take the lights of the previous phase to the lights
      of the next one. */
  lemma SegmentReachesPhase(p: Phase)
    ensures ApplyWrites(PhaseLights(Previous(p)), PhaseWrites(p)) == PhaseLights(p)
    ensures ApplyPedestrian(PhaseHeads(Previous(p)), PedestrianWrites(p)) == PhaseHeads(p)
  {
    SegmentReachesLights(p);
    SegmentReachesHeads(p);
  }

  /** The vehicle-signal half of `SegmentReachesPhase`. */
  lemma SegmentReachesLights(p: Phase)
    ensures ApplyWrites(PhaseLights(Previous(p)), PhaseWrites(p)) == PhaseLights(p)
  {
    ApplyWritesUnrolled(PhaseLights(Previous(p)), PhaseWrites(p));
  }

  /** The pedestrian half of `SegmentReachesPhase`. */
  lemma SegmentReachesHeads(p: Phase)
    ensures ApplyPedestrian(PhaseHeads(Previous(p)), PedestrianWrites(p)) == PhaseHeads(p)
  {
    var pws := PedestrianWrites(p);
    if pws != [] {
      ApplyPedestrianUnrolled(PhaseHeads(Previous(p)), pws);
    }
  }

  /** A direction that is not green and that no write turns green stays not green. */
  lemma {:induction false} NeverTurnedGreen(l: seq<Colour>, ws: seq<Write>, d: Direction)
    requires |l| == 4 && l[Index(d)] != Green
    requires forall j :: 0 <= j < |ws| ==> ws[j] != (d, Green)
    ensures ApplyWrites(l, ws)[Index(d)] != Green
    decreases |ws|
  {
    if ws != [] {
      var init := ws[..|ws| - 1];
      assert forall j :: 0 <= j < |init| ==> init[j] == ws[j];
      NeverTurnedGreen(l, init, d);
    }
  }

  /** Not even between the individual writes of a segment are the crossing
      streets green together: each segment leaves one street non-green throughout. */
  lemma NoConflictWithinSegment(p: Phase, k: nat)
    requires k <= |PhaseWrites(p)|
    ensures !Conflict(ApplyWrites(PhaseLights(Previous(p)), PhaseWrites(p)[..k]))
  {
    var ws := PhaseWrites(p);
    var l := PhaseLights(Previous(p));
    var quiet := if p == EWGreen || p == EWYellow then [North, South] else [East, West];
    assert l[Index(quiet[0])] != Green && l[Index(quiet[1])] != Green;
    assert forall j :: 0 <= j < |ws| ==> ws[j].1 != Green || ws[j].0 !in quiet;
    var prefix := ws[..k];
    NeverTurnedGreen(l, prefix, quiet[0]);
    NeverTurnedGreen(l, prefix, quiet[1]);
  }

  /** The first segment, run on the all-red lights that initialisation leaves,
      never shows both streets green. */
  lemma FirstSegmentSafe()
    ensures forall k :: 0 <= k <= |PhaseWrites(NSGreen)| ==>
      !Conflict(ApplyWrites([Red, Red, Red, Red], PhaseWrites(NSGreen)[..k]))
  {
    forall k | 0 <= k <= |PhaseWrites(NSGreen)|
      ensures !Conflict(ApplyWrites([Red, Red, Red, Red], PhaseWrites(NSGreen)[..k]))
    {
      NoConflictWithinSegment(NSGreen, k);
    }
  }

  // ---------------------------------------------------------------------------
  // Pedestrian signals

  /** One pedestrian head: whether its stop lamp and its walk lamp are lit. */
  datatype PedestrianHead = PedestrianHead(stopOn: bool, walkOn: bool)

  /** What `SetPedestrianLightState(_, canWalk)` puts on a head. */
  function HeadFor(canWalk: bool): (h: PedestrianHead)
    ensures h.walkOn == canWalk && h.stopOn == !h.walkOn
  {
    PedestrianHead(!canWalk, canWalk)
  }

  /** One `SetPedestrianLightState(direction, canWalk)` call. */
  type PedestrianWrite = (Direction, bool)

  /** The two heads of direction `d` (positions `2d` and `2d + 1`) set for `canWalk`. */
  function SetHeads(h: seq<PedestrianHead>, d: Direction, canWalk: bool): (r: seq<PedestrianHead>)
    requires |h| == 8
    ensures |r| == 8
    ensures forall i :: 0 <= i < 8 ==>
      r[i] == if i / 2 == Index(d) then HeadFor(canWalk) else h[i]
  {
    h[2 * Index(d) := HeadFor(canWalk)][2 * Index(d) + 1 := HeadFor(canWalk)]
  }

  /** The pedestrian writes performed, in program order, on the way into `p`. */
  function PedestrianWrites(p: Phase): (ws: seq<PedestrianWrite>)
    ensures |ws| == if p == AllRedAfterNS || p == AllRedAfterEW then 0 else 2
  {
    match p
    case NSGreen => [(East, true), (West, true)]
    case NSYellow => [(East, false), (West, false)]
    case EWGreen => [(North, true), (South, true)]
    case EWYellow => [(North, false), (South, false)]
    case AllRedAfterNS => []
    case AllRedAfterEW => []
  }

  /** A pedestrian write turns walk on exactly when entering the walk phase of
      its direction, and touches only the heads across the street whose vehicle
      signals change. */
  lemma PedestrianWritesWalk(p: Phase)
    ensures forall j :: 0 <= j < |PedestrianWrites(p)| ==>
      PedestrianWrites(p)[j].1 == (p == WalkPhase(PedestrianWrites(p)[j].0))
    ensures forall j :: 0 <= j < |PedestrianWrites(p)| ==>
      (NorthSouth(PedestrianWrites(p)[j].0) <==> p == EWGreen || p == EWYellow)
  {
  }

  /** The eight heads after performing the pedestrian writes `ws` in order. */
  function ApplyPedestrian(h: seq<PedestrianHead>, ws: seq<PedestrianWrite>): (r: seq<PedestrianHead>)
    requires |h| == 8
    ensures |r| == 8
    // heads of a direction no write names keep their lamps
    ensures forall i :: 0 <= i < 8 && (forall j :: 0 <= j < |ws| ==> Index(ws[j].0) != i / 2) ==>
      r[i] == h[i]
    // the last write to a direction decides both of its heads
    ensures ws != [] ==>
      r[2 * Index(ws[|ws| - 1].0)] == HeadFor(ws[|ws| - 1].1) &&
      r[2 * Index(ws[|ws| - 1].0) + 1] == HeadFor(ws[|ws| - 1].1)
    decreases |ws|
  {
    if ws == [] then h
    else
      var w := ws[|ws| - 1];
      SetHeads(ApplyPedestrian(h, ws[..|ws| - 1]), w.0, w.1)
  }

  /** Both heads of a direction show the last pedestrian write to it: a write
      that no later write to the same direction overrides decides its heads. */
  lemma {:induction false} LastPedestrianWriteWins(h: seq<PedestrianHead>, ws: seq<PedestrianWrite>, j: nat)
    requires |h| == 8 && j < |ws|
    requires forall k :: j < k < |ws| ==> ws[k].0 != ws[j].0
    ensures ApplyPedestrian(h, ws)[2 * Index(ws[j].0)] == HeadFor(ws[j].1)
    ensures ApplyPedestrian(h, ws)[2 * Index(ws[j].0) + 1] == HeadFor(ws[j].1)
    decreases |ws|
  {
    if j < |ws| - 1 {
      var init := ws[..|ws| - 1];
      assert init[j] == ws[j];
      assert forall k :: j < k < |init| ==> init[k] == ws[k];
      LastPedestrianWriteWins(h, init, j);
      FromIndexInverse(Index(ws[|ws| - 1].0));
      assert Index(ws[|ws| - 1].0) != Index(ws[j].0);
    }
  }

  /** The effect of two pedestrian writes, spelled out one at a time. */
  lemma ApplyPedestrianUnrolled(h: seq<PedestrianHead>, ws: seq<PedestrianWrite>)
    requires |h| == 8 && |ws| == 2
    ensures ApplyPedestrian(h, ws) == SetHeads(SetHeads(h, ws[0].0, ws[0].1), ws[1].0, ws[1].1)
  {
    assert ws[..1][..0] == [];
    assert ApplyPedestrian(h, ws[..1]) == SetHeads(h, ws[0].0, ws[0].1);
  }

  /** The only phase in which pedestrians crossing at direction `d` may walk:
      those at East and West walk while North/South traffic has green, and
      those at North and South while East/West traffic has green. */
  function WalkPhase(d: Direction): Phase
  {
    if NorthSouth(d) then EWGreen else NSGreen
  }

  /** The eight pedestrian heads held while waiting in `p`. */
  function PhaseHeads(p: Phase): (h: seq<PedestrianHead>)
    ensures |h| == 8
    ensures forall i :: 0 <= i < 8 ==> h[i] == HeadFor(p == WalkPhase(FromIndex(i / 2)))
  {
    var stop := HeadFor(false);
    var walk := HeadFor(true);
    match p
    case NSGreen => [stop, stop, stop, stop, walk, walk, walk, walk]
    case EWGreen => [walk, walk, walk, walk, stop, stop, stop, stop]
    case NSYellow => [stop, stop, stop, stop, stop, stop, stop, stop]
    case AllRedAfterNS => [stop, stop, stop, stop, stop, stop, stop, stop]
    case EWYellow => [stop, stop, stop, stop, stop, stop, stop, stop]
    case AllRedAfterEW => [stop, stop, stop, stop, stop, stop, stop, stop]
  }

  /** Pedestrians at a direction may walk only while the traffic that crosses
      their path holds red, and never in a yellow or all-red phase. */
  lemma WalkOnlyAcrossRed(p: Phase, d: Direction)
    ensures PhaseHeads(p)[2 * Index(d)].walkOn ==>
      PhaseLights(p)[Index(if NorthSouth(d) then North else East)] == Red &&
      PhaseLights(p)[Index(if NorthSouth(d) then East else North)] == Green
  {
  }

  /** From the state initialisation leaves, all red and every head at stop, the
      first segment reaches the NS-green table. */
  lemma FirstSegmentReachesNSGreen(l: seq<Colour>, h: seq<PedestrianHead>)
    requires l == [Red, Red, Red, Red]
    requires |h| == 8 && forall i :: 0 <= i < 8 ==> h[i] == HeadFor(false)
    ensures ApplyWrites(l, PhaseWrites(NSGreen)) == PhaseLights(NSGreen)
    ensures ApplyPedestrian(h, PedestrianWrites(NSGreen)) == PhaseHeads(NSGreen)
  {
    assert l == PhaseLights(Previous(NSGreen));
    assert h == PhaseHeads(Previous(NSGreen));
    SegmentReachesPhase(NSGreen);
  }

  // ---------------------------------------------------------------------------
  // The controller

  class TrafficLightManager {
    /** The configured durations. */
    const timing: Timing
    /** `trafficLights[i].currentState`, indexed by `Index`. */
    const lights: array<Colour>
    /** `pedestrianLights[i]`: heads `2d` and `2d + 1` belong to direction `d`. */
    const heads: array<PedestrianHead>
    /** Every `OnTrafficLightChanged` invocation so far, oldest first. */
    var events: seq<Write>
    /** Whether `Start` has launched the coroutine. */
    var running: bool
    /** The yield the coroutine is suspended at. */
    var phase: Phase
    /** Simulated time at which the current phase began. */
    var elapsed: real

    ghost predicate Valid()
      reads this
    {
      lights.Length == 4 && heads.Length == 8
    }

    /** Once the coroutine runs, the arrays hold exactly what the phase table says. */
    ghost predicate Invariant()
      reads this, lights, heads
    {
      Valid() &&
      (running ==> lights[..] == PhaseLights(phase) && heads[..] == PhaseHeads(phase))
    }

    /** A controller whose lights and heads are in whatever state the scene left them. */
    constructor (timing: Timing, initialLights: seq<Colour>, initialHeads: seq<PedestrianHead>)
      requires |initialLights| == 4 && |initialHeads| == 8
      ensures Valid() && fresh(lights) && fresh(heads)
      ensures this.timing == timing && !running && events == []
      ensures lights[..] == initialLights && heads[..] == initialHeads
    {
      this.timing := timing;
      lights := new Colour[4](i requires 0 <= i < 4 => initialLights[i]);
      heads := new PedestrianHead[8](i requires 0 <= i < 8 => initialHeads[i]);
      events := [];
      running := false;
      phase := NSGreen;
      elapsed := 0.0;
    }

    /** The colour direction `d` shows. */
    function GetTrafficLightState(d: Direction): (c: Colour)
      requires Valid()
      reads this, lights
      ensures Invariant() && running ==> c == PhaseLights(phase)[Index(d)]
    {
      lights[Index(d)]
    }

    /** Whether the first head of direction `d` shows walk. */
    function IsPedestrianWalkSignalOn(d: Direction): (on: bool)
      requires Valid()
      reads this, heads
      ensures Invariant() && running ==> (on <==> phase == WalkPhase(d))
    {
      heads[2 * Index(d)].walkOn
    }

    /** Shows `c` on direction `d` and raises the event `(d, c)`, even when the
        colour does not change. */
    method SetTrafficLightState(d: Direction, c: Colour)
      requires Valid()
      modifies this`events, lights
      ensures lights[..] == old(lights[..])[Index(d) := c]
      ensures events == old(events) + [(d, c)]
    {
      lights[Index(d)] := c;
      events := events + [(d, c)];
    }

    /** Switches both heads of direction `d` to walk (`canWalk`) or to stop. */
    method SetPedestrianLightState(d: Direction, canWalk: bool)
      requires Valid()
      modifies heads
      ensures heads[..] == SetHeads(old(heads[..]), d, canWalk)
    {
      var index := Index(d) * 2;
      for i := 0 to 2
        invariant forall j :: 0 <= j < 8 ==>
          heads[j] == if index <= j < index + i then HeadFor(canWalk) else old(heads[j])
      {
        heads[index + i] := HeadFor(canWalk);
      }
    }

    /** Shows `c` on every direction, raising the four events in enum order. */
    method SetAllTrafficLights(c: Colour)
      requires Valid()
      modifies this`events, lights
      ensures lights[..] == [c, c, c, c]
      ensures events == old(events) + AllWrites(c)
    {
      var directions := AllDirections();
      for i := 0 to 4
        invariant events == old(events) + AllWrites(c)[..i]
        invariant forall j :: 0 <= j < 4 ==> lights[j] == if j < i then c else old(lights[j])
      {
        SetTrafficLightState(directions[i], c);
        assert AllWrites(c)[..i + 1] == AllWrites(c)[..i] + [(directions[i], c)];
      }
    }

    /** Every direction to Red and every pedestrian head to stop. */
    method InitializeLights()
      requires Valid()
      modifies this`events, lights, heads
      ensures lights[..] == [Red, Red, Red, Red]
      ensures forall i :: 0 <= i < 8 ==> heads[i] == HeadFor(false)
      ensures events == old(events) + AllWrites(Red)
    {
      for i := 0 to 4
        invariant events == old(events) + AllWrites(Red)[..i]
        invariant forall j :: 0 <= j < 4 ==> lights[j] == if j < i then Red else old(lights[j])
      {
        SetTrafficLightState(FromIndex(i), Red);
        assert AllWrites(Red)[..i + 1] == AllWrites(Red)[..i] + [(FromIndex(i), Red)];
      }
      for i := 0 to 8
        invariant events == old(events) + AllWrites(Red)
        invariant lights[..] == [Red, Red, Red, Red]
        invariant forall j :: 0 <= j < 2 * ((i + 1) / 2) ==> heads[j] == HeadFor(false)
      {
        SetPedestrianLightState(FromIndex(i / 2), false);
      }
    }

    /** The statements between two yields of the coroutine: the writes that lead
        into phase `p`. */
    method RunSegment(p: Phase)
      requires Valid()
      modifies this`events, lights, heads
      ensures lights[..] == ApplyWrites(old(lights[..]), PhaseWrites(p))
      ensures heads[..] == ApplyPedestrian(old(heads[..]), PedestrianWrites(p))
      ensures events == old(events) + PhaseWrites(p)
    {
      match p {
        case NSGreen => EnterGreen(North, South, East, West);
        case NSYellow => EnterYellow(North, South, East, West);
        case AllRedAfterNS =>
          SetAllTrafficLights(Red);
          ApplyWritesUnrolled(old(lights[..]), AllWrites(Red));
        case EWGreen => EnterGreen(East, West, North, South);
        case EWYellow => EnterYellow(East, West, North, South);
        case AllRedAfterEW =>
          SetAllTrafficLights(Red);
          ApplyWritesUnrolled(old(lights[..]), AllWrites(Red));
      }
    }

    /** The segment that gives `a` and `b` green, turns `c` and `d` red and lets
        pedestrians walk at `c` and `d` (TrafficLightManager.cs:70-75, and 90-95
        with the streets swapped). */
    method EnterGreen(a: Direction, b: Direction, c: Direction, d: Direction)
      requires Valid()
      modifies this`events, lights, heads
      ensures lights[..] == ApplyWrites(old(lights[..]), [(a, Green), (b, Green), (c, Red), (d, Red)])
      ensures heads[..] == ApplyPedestrian(old(heads[..]), [(c, true), (d, true)])
      ensures events == old(events) + [(a, Green), (b, Green), (c, Red), (d, Red)]
    {
      SetTrafficLightState(a, Green);
      SetTrafficLightState(b, Green);
      SetTrafficLightState(c, Red);
      SetTrafficLightState(d, Red);
      SetPedestrianLightState(c, true);
      SetPedestrianLightState(d, true);
      ApplyWritesUnrolled(old(lights[..]), [(a, Green), (b, Green), (c, Red), (d, Red)]);
      ApplyPedestrianUnrolled(old(heads[..]), [(c, true), (d, true)]);
    }

    /** The segment that turns `a` and `b` yellow and stops the pedestrians at `c`
        and `d` (TrafficLightManager.cs:79-82, and 99-102 with the streets swapped). */
    method EnterYellow(a: Direction, b: Direction, c: Direction, d: Direction)
      requires Valid()
      modifies this`events, lights, heads
      ensures lights[..] == ApplyWrites(old(lights[..]), [(a, Yellow), (b, Yellow)])
      ensures heads[..] == ApplyPedestrian(old(heads[..]), [(c, false), (d, false)])
      ensures events == old(events) + [(a, Yellow), (b, Yellow)]
    {
      SetTrafficLightState(a, Yellow);
      SetTrafficLightState(b, Yellow);
      SetPedestrianLightState(c, false);
      SetPedestrianLightState(d, false);
      ApplyWritesUnrolled(old(lights[..]), [(a, Yellow), (b, Yellow)]);
      ApplyPedestrianUnrolled(old(heads[..]), [(c, false), (d, false)]);
    }

    /** `Start`: initialise the lights and run the coroutine up to its first yield. */
    method Start()
      requires Valid() && !running
      modifies this`events, this`running, this`phase, this`elapsed, lights, heads
      ensures Invariant() && running && phase == NSGreen && elapsed == 0.0
      ensures events == old(events) + AllWrites(Red) + PhaseWrites(NSGreen)
      // the first segment starts from the all-red state and never shows both streets green
      ensures forall k :: 0 <= k <= |PhaseWrites(NSGreen)| ==>
        !Conflict(ApplyWrites([Red, Red, Red, Red], PhaseWrites(NSGreen)[..k]))
    {
      FirstSegmentSafe();
      InitializeLights();
      FirstSegmentReachesNSGreen(lights[..], heads[..]);
      RunSegment(NSGreen);
      phase, running, elapsed := NSGreen, true, 0.0;
    }

    /** Resume the coroutine after the wait of the current phase has elapsed. */
    method Advance()
      requires Invariant() && running
      modifies this`events, this`phase, this`elapsed, lights, heads
      ensures Invariant() && running
      ensures phase == Next(old(phase))
      ensures elapsed == old(elapsed) + Duration(timing, old(phase))
      ensures events == old(events) + PhaseWrites(phase)
      // after every single write of the segment the crossing streets are not both green
      ensures forall k :: 0 <= k <= |PhaseWrites(phase)| ==>
        !Conflict(ApplyWrites(old(lights[..]), PhaseWrites(phase)[..k]))
    {
      var q := Next(phase);
      RunSegment(q);
      SegmentReachesPhase(q);
      forall k | 0 <= k <= |PhaseWrites(q)|
        ensures !Conflict(ApplyWrites(PhaseLights(Previous(q)), PhaseWrites(q)[..k]))
      {
        NoConflictWithinSegment(q, k);
      }
      elapsed := elapsed + Duration(timing, phase);
      phase := q;
    }

    /** One pass through the body of `while (true)`: six resumptions bring the
        controller back to the same phase with the same signals, one cycle time later. */
    method Cycle()
      requires Invariant() && running
      modifies this`events, this`phase, this`elapsed, lights, heads
      ensures Invariant() && running && phase == old(phase)
      ensures lights[..] == old(lights[..]) && heads[..] == old(heads[..])
      ensures elapsed == old(elapsed) + 2.0 * (timing.vehicleGreenDuration
        + timing.vehicleYellowDuration + timing.allRedDuration)
      ensures events == old(events) + WritesOver(old(phase), 6)
      ensures |events| == |old(events)| + 20
    {
      ghost var p, t0, e0 := phase, elapsed, events;
      for i := 0 to 6
        invariant Invariant() && running
        invariant phase == Iterate(p, i)
        invariant elapsed == t0 + TimeOver(timing, p, i)
        invariant events == e0 + WritesOver(p, i)
      {
        Advance();
      }
      CycleEventCount(p);
      CycleReturns(p);
      CycleDuration(timing, p);
    }
  }
}
