/**
  The racer: an Actor that follows a closed loop of waypoints with arrive-style
  steering, counts laps, measures its progress along the loop and can be placed on
  a starting grid. Its position lives in the Transform attached to it, if any.
 */
module Racers {
  import opened Wrappers
  import opened Vectors
  import opened ComponentTypes
  import opened Components
  import opened Transforms
  import opened Entities
  import opened Actors
  import opened Steering

  /** Everything a racer holds besides its Actor part. */
  datatype RacerState = RacerState(waypoints: seq<Vec2>, currentWp: int, lap: int, place: int, velocity: Vec2, tuning: Tuning)

  /** The mass setMass stores: the argument when positive, 1 otherwise. */
  function ClampedMass(m: real): (r: real)
    ensures 0.0 < r
    ensures 0.0 < m ==> r == m
    ensures m <= 0.0 ==> r == 1.0
  {
    if m <= 0.0 then 1.0 else m
  }

  /** Only the position of the Transform may have changed. */
  twostate predicate PoseKeptBut(t: Transform)
    reads t
  {
    t.rotation == old(t.rotation) && t.scale == old(t.scale)
  }

  class Racer {
    const actor: Actor
    var waypoints: seq<Vec2>
    var currentWp: int
    var lap: int
    var place: int
    var velocity: Vec2
    var maxSpeed: real
    var maxForce: real
    var mass: real
    var slowRadius: real
    var arriveRadius: real
    var linearDrag: real

    /** The target index is a valid waypoint index whenever there are waypoints, the lap count is non-negative, and the stored mass is positive. */
    predicate Valid()
      reads this
    {
      0 <= currentWp && (|waypoints| > 0 ==> currentWp < |waypoints|) && 0 <= lap && 0.0 < mass
    }

    function CurrentTuning(): Tuning
      reads this
    {
      Tuning(maxSpeed, maxForce, mass, slowRadius, arriveRadius, linearDrag)
    }

    function State(): RacerState
      reads this
    {
      RacerState(waypoints, currentWp, lap, place, velocity, CurrentTuning())
    }

    /** The racer's motion state, given where its Transform puts it. */
    function Kinematics(position: Vec2): Motion
      reads this
    {
      Motion(position, velocity, currentWp, lap)
    }

    /** getComponent<Transform>(): the first attached Transform, if any. */
    function TransformOf(): (r: Option<Transform>)
      reads actor.base
      ensures r.Some? ==> actor.GetComponent(TRANSFORM) == Some(TransformComponent(r.value))
      ensures r.None? ==> NoneOfType(actor.base.components, TRANSFORM)
    {
      match actor.GetComponent(TRANSFORM)
      case Some(TransformComponent(t)) => Some(t)
      case _ => None
    }

    /** The objects a racer operation may write besides the racer: its Transform. */
    function Footprint(): set<object>
      reads actor.base
    {
      if TransformOf().Some? then {TransformOf().value} else {}
    }

    /** Where the racer is: its Transform's position (the origin when it has none). */
    function Position(): Vec2
      reads actor.base, Footprint()
    {
      if TransformOf().Some? then TransformOf().value.position else Zero()
    }

    /** Builds the Actor with the given name and installs the starting place; everything else takes its default. */
    constructor (name: string, initPlace: int := 0)
      ensures fresh(actor) && fresh(actor.base)
      ensures actor.name == name && actor.base.components == [ShapeComponent]
      ensures TransformOf().None?
      ensures State() == RacerState([], 0, 0, initPlace, Zero(), DefaultTuning())
      ensures Valid()
    {
      actor := new Actor(name);
      waypoints := [];
      currentWp := 0;
      lap := 0;
      place := initPlace;
      velocity := Zero();
      maxSpeed := 300.0;
      maxForce := 600.0;
      mass := 1.0;
      slowRadius := 10.0;
      arriveRadius := 100.0;
      linearDrag := 0.12;
      new;
      NamedActorComponents();
    }

    /** Replaces the path; a non-empty path also restarts at waypoint 0 from rest, placed on the first waypoint. */
    method SetWaypoints(wps: seq<Vec2>)
      requires Valid()
      modifies this, Footprint()
      ensures Valid()
      ensures waypoints == wps
      ensures lap == old(lap) && place == old(place) && CurrentTuning() == old(CurrentTuning())
      ensures |wps| > 0 ==> currentWp == 0 && velocity == Zero()
      ensures |wps| == 0 ==> currentWp == old(currentWp) && velocity == old(velocity)
      ensures TransformOf().Some? ==> PoseKeptBut(TransformOf().value)
      ensures Position() == if |wps| > 0 && TransformOf().Some? then wps[0] else old(Position())
    {
      waypoints := wps;
      if |waypoints| > 0 {
        currentWp := 0;
        velocity := Zero();
        var tr := TransformOf();
        if tr.Some? {
          tr.value.SetPosition(waypoints[0]);
        }
      }
    }

    /** One tick: the Actor's own update, then steering when there are at least two waypoints. */
    method Update(sqrt: real -> real, dt: real)
      requires IsSqrt(sqrt) && Valid()
      modifies this, Footprint()
      ensures Valid()
      ensures waypoints == old(waypoints) && place == old(place) && CurrentTuning() == old(CurrentTuning())
      ensures |waypoints| < 2 ==> State() == old(State()) && Position() == old(Position())
      ensures 2 <= |waypoints| && TransformOf().None? ==> State() == old(State())
      ensures 2 <= |waypoints| && TransformOf().Some? ==>
        Kinematics(Position()) == Step(sqrt, waypoints, CurrentTuning(), old(Kinematics(Position())), dt)
      ensures TransformOf().Some? ==> PoseKeptBut(TransformOf().value)
    {
      if |waypoints| >= 2 {
        SteerPhysics(sqrt, dt);
      }
    }

    /**
      With no Transform nothing happens. Otherwise: on arrival at the target the target
      advances (a wrap to 0 counts a lap) and nothing moves; else the steering force
      towards the target is applied and the racer moves by its new velocity.
     */
    method SteerPhysics(sqrt: real -> real, dt: real)
      requires IsSqrt(sqrt) && Valid() && 0 < |waypoints|
      modifies this, Footprint()
      ensures Valid()
      ensures waypoints == old(waypoints) && place == old(place) && CurrentTuning() == old(CurrentTuning())
      ensures TransformOf().None? ==> State() == old(State())
      ensures TransformOf().Some? ==>
        Kinematics(Position()) == Step(sqrt, waypoints, CurrentTuning(), old(Kinematics(Position())), dt)
      ensures TransformOf().Some? ==> PoseKeptBut(TransformOf().value)
    {
      var tr := TransformOf();
      if tr.None? {
        return;
      }
      var t := tr.value;
      var pos := t.GetPosition();
      var target := waypoints[currentWp];
      var toTarget := Sub(target, pos);
      var d := Length(sqrt, toTarget);
      if d < arriveRadius {
        currentWp := (currentWp + 1) % |waypoints|;
        if currentWp == 0 {
          lap := lap + 1;
        }
        return;
      }
      LengthFacts(sqrt, toTarget);
      var desiredSpeed := maxSpeed;
      if d < slowRadius {
        desiredSpeed := maxSpeed * (d / slowRadius);
      }
      assert desiredSpeed == DesiredSpeed(d, maxSpeed, slowRadius);
      var desiredVel := Scale(Normalize(sqrt, toTarget), desiredSpeed);
      var steering := Sub(desiredVel, velocity);
      steering := ClampMag(sqrt, steering, maxForce);
      var accel := Div(steering, MassDivisor(mass));
      velocity := Add(velocity, Scale(accel, dt));
      var dragFactor := DragFactor(linearDrag, dt);
      velocity := Scale(velocity, dragFactor);
      velocity := ClampMag(sqrt, velocity, maxSpeed);
      t.SetPosition(Add(pos, Scale(velocity, dt)));
    }

    /** loopLength(): the perimeter of the closed waypoint loop, 0 for fewer than two waypoints. */
    method LoopLength(sqrt: real -> real) returns (sum: real)
      ensures sum == LoopLengthOf(sqrt, waypoints)
      ensures IsSqrt(sqrt) ==> 0.0 <= sum
    {
      if IsSqrt(sqrt) {
        LoopLengthNonNegative(sqrt, waypoints);
      }
      var n := |waypoints|;
      if n < 2 {
        return 0.0;
      }
      sum := 0.0;
      var i := 0;
      while i < n
        invariant 0 <= i <= n
        invariant sum == ClosedSum(sqrt, waypoints, i)
      {
        var a := waypoints[i];
        var b := waypoints[(i + 1) % n];
        sum := sum + Length(sqrt, Sub(b, a));
        i := i + 1;
      }
    }

    /**
      lapProgressMeters(): the completed segments before the previous waypoint plus the
      part of the current segment covered by the projection of the position onto it.
      The position is read from the Transform, which must therefore be attached.
     */
    method LapProgressMeters(sqrt: real -> real) returns (acc: real)
      requires Valid() && (|waypoints| < 2 || TransformOf().Some?)
      ensures acc == LapProgressOf(sqrt, waypoints, currentWp, Position())
      ensures IsSqrt(sqrt) ==> 0.0 <= acc <= LoopLengthOf(sqrt, waypoints)
    {
      if IsSqrt(sqrt) {
        LapProgressBounds(sqrt, waypoints, currentWp, Position());
      }
      var n := |waypoints|;
      if n < 2 {
        return 0.0;
      }
      var prev := if currentWp == 0 then n - 1 else currentWp - 1;
      acc := 0.0;
      var i := 0;
      while i < prev
        invariant 0 <= i <= prev
        invariant acc == OpenSum(sqrt, waypoints, i)
      {
        acc := acc + Length(sqrt, Sub(waypoints[i + 1], waypoints[i]));
        i := i + 1;
      }
      var p := TransformOf().value.GetPosition();
      var a := waypoints[prev];
      var b := waypoints[currentWp];
      var ab := Sub(b, a);
      var t := ProjectionParam(a, b, p);
      assert p == Position();
      acc := acc + Length(sqrt, Scale(ab, t));
    }

    /** getProgressMeters(): completed laps times the loop length plus the progress within the lap. */
    method GetProgressMeters(sqrt: real -> real) returns (r: real)
      requires Valid() && (|waypoints| < 2 || TransformOf().Some?)
      ensures r == ProgressOf(sqrt, waypoints, currentWp, lap, Position())
      ensures IsSqrt(sqrt) ==> (lap as real) * LoopLengthOf(sqrt, waypoints) <= r <= ((lap + 1) as real) * LoopLengthOf(sqrt, waypoints)
    {
      var loop := LoopLength(sqrt);
      var inLap := LapProgressMeters(sqrt);
      ghost var total := ProgressOf(sqrt, waypoints, currentWp, lap, Position());
      r := (lap as real) * loop + inLap;
      assert r == total;
      if IsSqrt(sqrt) {
        ProgressBounds(sqrt, waypoints, currentWp, lap, Position());
      }
    }

    /**
      spawnRelative(): places the racer `back` pixels behind waypoint wpIndex (taken
      modulo the waypoint count, negative indices included) and `lateral` pixels to the
      side, aiming at the following waypoint. No effect with fewer than two waypoints.
     */
    method SpawnRelative(sqrt: real -> real, wpIndex: int, back: real, lateral: real)
      requires Valid()
      modifies this, Footprint()
      ensures Valid()
      ensures |waypoints| < 2 ==> State() == old(State()) && Position() == old(Position())
      ensures 2 <= |waypoints| ==>
        var i := SpawnIndex(wpIndex, |waypoints|);
        var j := (i + 1) % |waypoints|;
        currentWp == j &&
        State() == old(State()).(currentWp := j) &&
        Position() == if TransformOf().Some? then SpawnSlot(sqrt, waypoints[i], waypoints[j], back, lateral) else old(Position())
      ensures TransformOf().Some? ==> PoseKeptBut(TransformOf().value)
    {
      if |waypoints| < 2 {
        return;
      }
      var n := |waypoints|;
      var i := CppRem(CppRem(wpIndex, n) + n, n);
      var j := (i + 1) % n;
      var a := waypoints[i];
      var b := waypoints[j];
      var dir := Normalize(sqrt, Sub(b, a));
      var right := Vec2(-dir.y, dir.x);
      var tr := TransformOf();
      if tr.Some? {
        tr.value.SetPosition(Add(Sub(a, Scale(dir, back)), Scale(right, lateral)));
      }
      ShiftedRemIsMod(wpIndex, n);
      currentWp := j;
    }

    /** setSpeed(): an alias of setMaxSpeed. */
    method SetSpeed(s: real)
      requires Valid()
      modifies this
      ensures Valid()
      ensures State() == old(State()).(tuning := old(CurrentTuning()).(maxSpeed := s))
    {
      maxSpeed := s;
    }

    method SetMaxSpeed(s: real)
      requires Valid()
      modifies this
      ensures Valid()
      ensures State() == old(State()).(tuning := old(CurrentTuning()).(maxSpeed := s))
    {
      maxSpeed := s;
    }

    method SetMaxForce(f: real)
      requires Valid()
      modifies this
      ensures Valid()
      ensures State() == old(State()).(tuning := old(CurrentTuning()).(maxForce := f))
    {
      maxForce := f;
    }

    /** setMass(): a non-positive mass is replaced by 1, so the stored mass stays positive. */
    method SetMass(m: real)
      requires Valid()
      modifies this
      ensures Valid() && 0.0 < mass
      ensures State() == old(State()).(tuning := old(CurrentTuning()).(mass := ClampedMass(m)))
    {
      mass := if m <= 0.0 then 1.0 else m;
    }

    method SetArrive(slowR: real, arriveR: real)
      requires Valid()
      modifies this
      ensures Valid()
      ensures State() == old(State()).(tuning := old(CurrentTuning()).(slowRadius := slowR, arriveRadius := arriveR))
    {
      slowRadius := slowR;
      arriveRadius := arriveR;
    }

    method SetLinearDrag(d: real)
      requires Valid()
      modifies this
      ensures Valid()
      ensures State() == old(State()).(tuning := old(CurrentTuning()).(linearDrag := d))
    {
      linearDrag := d;
    }

    method SetPlace(p: int)
      requires Valid()
      modifies this
      ensures Valid()
      ensures GetPlace() == p
      ensures State() == old(State()).(place := p)
    {
      place := p;
    }

    function GetPlace(): int
      reads this
    {
      place
    }
  }
}
