/**
  The racer's arithmetic, as functions of its state: the local helpers of the racer
  (length, an epsilon-guarded normalize, a magnitude clamp), one steering step, the
  closed-loop and lap progress measures, and the grid-spawn placement.
 */
module Steering {
  import opened Vectors

  // ---------------------------------------------------------------------------
  // Helpers

  /** Below this length the racer's normalize returns the zero vector (1e-5). */
  const Epsilon: real := 0.00001

  /** The lower bound on the mass used as the acceleration divisor (0.0001). */
  const MinMassDivisor: real := 0.0001

  /** The racer's normalize: the unit vector when the length exceeds Epsilon, the zero vector otherwise. */
  function Normalize(sqrt: real -> real, v: Vec2): (r: Vec2)
    ensures Length(sqrt, v) <= Epsilon ==> r == Zero()
    ensures Length(sqrt, v) > Epsilon ==> r == Normalized(sqrt, v)
  {
    var len := Length(sqrt, v);
    if len > Epsilon then Vec2(v.x / len, v.y / len) else Zero()
  }

  /** Past the threshold the result is a unit vector. */
  lemma NormalizeUnit(sqrt: real -> real, v: Vec2)
    requires IsSqrt(sqrt) && Length(sqrt, v) > Epsilon
    ensures LengthSquared(Normalize(sqrt, v)) == 1.0
  {
    LengthFacts(sqrt, v);
    NormalizedUnit(sqrt, v);
  }

  /** clampMag: rescales to length `max` when longer than `max` (and non-zero), otherwise returns `v`. */
  function ClampMag(sqrt: real -> real, v: Vec2, max: real): (r: Vec2)
    ensures Length(sqrt, v) <= max ==> r == v
  {
    var len := Length(sqrt, v);
    if len > max && len > 0.0 then Scale(v, max / len) else v
  }

  /** For a non-negative bound the result never exceeds the bound, never lengthens `v`, and is exactly `max` long when `v` was longer. */
  lemma ClampMagBound(sqrt: real -> real, v: Vec2, max: real)
    requires IsSqrt(sqrt) && 0.0 <= max
    ensures Length(sqrt, ClampMag(sqrt, v, max)) <= max
    ensures Length(sqrt, ClampMag(sqrt, v, max)) <= Length(sqrt, v)
    ensures Length(sqrt, v) > max ==> Length(sqrt, ClampMag(sqrt, v, max)) == max
  {
    var len := Length(sqrt, v);
    if len > max {
      var k := max / len;
      assert 0.0 <= k && k * len == max;
      LengthScale(sqrt, v, k);
    }
  }

  /** For a negative bound a non-zero `v` is reversed and rescaled to length -max, which may be longer than `v`. */
  lemma ClampMagNegativeBound(sqrt: real -> real, v: Vec2, max: real)
    requires IsSqrt(sqrt) && max < 0.0 && v != Zero()
    ensures 0.0 < Length(sqrt, v)
    ensures ClampMag(sqrt, v, max) == Scale(v, max / Length(sqrt, v))
    ensures Length(sqrt, ClampMag(sqrt, v, max)) == -max
  {
    var len := Length(sqrt, v);
    LengthFacts(sqrt, v);
    var k := max / len;
    assert k < 0.0 && -k * len == -max;
    LengthScale(sqrt, v, k);
  }

  /** std::clamp on reals. */
  function Clamp(x: real, lo: real, hi: real): (r: real)
    requires lo <= hi
    ensures lo <= r <= hi
    ensures lo <= x <= hi ==> r == x
    ensures x < lo ==> r == lo
    ensures hi < x ==> r == hi
  {
    if x < lo then lo else if hi < x then hi else x
  }

  /** The linear drag factor for one tick, always within [0, 1]. */
  function DragFactor(linearDrag: real, dt: real): (r: real)
    ensures 0.0 <= r <= 1.0
    ensures 0.0 <= 1.0 - linearDrag * dt <= 1.0 ==> r == 1.0 - linearDrag * dt
  {
    Clamp(1.0 - linearDrag * dt, 0.0, 1.0)
  }

  /** std::max(mass, 0.0001): strictly positive, and the mass itself once it reaches 0.0001. */
  function MassDivisor(mass: real): (r: real)
    ensures 0.0 < r && mass <= r
    ensures MinMassDivisor <= mass ==> r == mass
  {
    if mass < MinMassDivisor then MinMassDivisor else mass
  }

  /** The arrive behaviour: full speed outside the slow radius, proportionally less inside it. */
  function DesiredSpeed(d: real, maxSpeed: real, slowRadius: real): (r: real)
    requires 0.0 <= d
    ensures slowRadius <= d ==> r == maxSpeed
  {
    if d < slowRadius then maxSpeed * (d / slowRadius) else maxSpeed
  }

  /** For a non-negative top speed the desired speed lies in [0, maxSpeed]. */
  lemma DesiredSpeedBounds(d: real, maxSpeed: real, slowRadius: real)
    requires 0.0 <= d && 0.0 <= maxSpeed
    ensures 0.0 <= DesiredSpeed(d, maxSpeed, slowRadius) <= maxSpeed
  {
    if d < slowRadius {
      var q := d / slowRadius;
      assert 0.0 <= q <= 1.0;
      calc {
        maxSpeed * q;
      <= maxSpeed * 1.0;
      }
      MulNonNegative(maxSpeed, q);
    }
  }

  // ---------------------------------------------------------------------------
  // One steering step

  datatype Tuning = Tuning(maxSpeed: real, maxForce: real, mass: real, slowRadius: real, arriveRadius: real, linearDrag: real)

  /** The tuning a racer is built with. */
  function DefaultTuning(): Tuning
  {
    Tuning(300.0, 600.0, 1.0, 10.0, 100.0, 0.12)
  }

  /** The part of a racer's state one steering step reads and writes; `position` is its Transform's. */
  datatype Motion = Motion(position: Vec2, velocity: Vec2, currentWp: int, lap: int)

  /** Distance from the position to the current target waypoint. */
  function DistanceToTarget(sqrt: real -> real, wps: seq<Vec2>, m: Motion): real
    requires 0 <= m.currentWp < |wps|
  {
    Length(sqrt, Sub(wps[m.currentWp], m.position))
  }

  /** Whether this tick detects arrival at the current waypoint. */
  predicate Arrived(sqrt: real -> real, wps: seq<Vec2>, t: Tuning, m: Motion)
    requires 0 <= m.currentWp < |wps|
  {
    DistanceToTarget(sqrt, wps, m) < t.arriveRadius
  }

  /** A racer standing on its target is at distance 0 from it, and so arrives whenever the arrive radius is positive. */
  lemma ArrivedOnTarget(sqrt: real -> real, wps: seq<Vec2>, t: Tuning, m: Motion)
    requires IsSqrt(sqrt) && 0 <= m.currentWp < |wps| && m.position == wps[m.currentWp]
    ensures DistanceToTarget(sqrt, wps, m) == 0.0
    ensures Arrived(sqrt, wps, t, m) <==> 0.0 < t.arriveRadius
  {
    LengthFacts(sqrt, Sub(wps[m.currentWp], m.position));
    assert Sub(wps[m.currentWp], m.position) == Zero();
  }

  /** The velocity after one steering tick that does not arrive. */
  function SteeredVelocity(sqrt: real -> real, wps: seq<Vec2>, t: Tuning, m: Motion, dt: real): (r: Vec2)
    requires IsSqrt(sqrt) && 0 <= m.currentWp < |wps|
    ensures 0.0 <= t.maxSpeed ==> Length(sqrt, r) <= t.maxSpeed
  {
    var toTarget := Sub(wps[m.currentWp], m.position);
    var d := Length(sqrt, toTarget);
    LengthFacts(sqrt, toTarget);
    var desiredVel := Scale(Normalize(sqrt, toTarget), DesiredSpeed(d, t.maxSpeed, t.slowRadius));
    var steering := ClampMag(sqrt, Sub(desiredVel, m.velocity), t.maxForce);
    var accel := Div(steering, MassDivisor(t.mass));
    var integrated := Add(m.velocity, Scale(accel, dt));
    var dragged := Scale(integrated, DragFactor(t.linearDrag, dt));
    var r := ClampMag(sqrt, dragged, t.maxSpeed);
    if 0.0 <= t.maxSpeed then ClampMagBound(sqrt, dragged, t.maxSpeed); r else r
  }

  /** The target after arriving at waypoint c. */
  function NextTarget(n: int, c: int): (r: int)
    requires 0 <= c < n
    ensures 0 <= r < n && r == (c + 1) % n && PrevIndex(n, r) == c
  {
    if c == n - 1 then
      ModUnique(c + 1, n, 1, 0);
      0
    else
      ModUnique(c + 1, n, 0, c + 1);
      c + 1
  }

  /** The arrival branch of a tick: take the next target, counting a lap when it wraps to 0. */
  function Advance(n: int, m: Motion): (r: Motion)
    requires 0 <= m.currentWp < n
    ensures 0 <= r.currentWp < n && PrevIndex(n, r.currentWp) == m.currentWp
    ensures r.position == m.position && r.velocity == m.velocity
    ensures r.lap == if m.currentWp == n - 1 then m.lap + 1 else m.lap
  {
    var next := NextTarget(n, m.currentWp);
    m.(currentWp := next, lap := if next == 0 then m.lap + 1 else m.lap)
  }

  /**
    steerPhysics with a Transform present: on arrival the target advances cyclically
    (a wrap to 0 counts a lap) and nothing moves; otherwise the racer accelerates
    towards the target and moves by its new velocity times dt.
   */
  function Step(sqrt: real -> real, wps: seq<Vec2>, t: Tuning, m: Motion, dt: real): (r: Motion)
    requires IsSqrt(sqrt) && 0 <= m.currentWp < |wps|
    ensures 0 <= r.currentWp < |wps|
  {
    if Arrived(sqrt, wps, t, m) then
      Advance(|wps|, m)
    else
      var v := SteeredVelocity(sqrt, wps, t, m, dt);
      m.(velocity := v, position := Add(m.position, Scale(v, dt)))
  }

  /** Arrival advances the target cyclically and leaves position and velocity as they were. */
  lemma StepOnArrival(sqrt: real -> real, wps: seq<Vec2>, t: Tuning, m: Motion, dt: real)
    requires IsSqrt(sqrt) && 0 <= m.currentWp < |wps|
    requires Arrived(sqrt, wps, t, m)
    ensures Step(sqrt, wps, t, m, dt) == Advance(|wps|, m)
    ensures Step(sqrt, wps, t, m, dt).currentWp == (m.currentWp + 1) % |wps|
    ensures Step(sqrt, wps, t, m, dt).position == m.position
    ensures Step(sqrt, wps, t, m, dt).velocity == m.velocity
  {
  }

  /** Without arrival the target and the lap stay, and the position advances by velocity times dt. */
  lemma StepEnRoute(sqrt: real -> real, wps: seq<Vec2>, t: Tuning, m: Motion, dt: real)
    requires IsSqrt(sqrt) && 0 <= m.currentWp < |wps|
    requires !Arrived(sqrt, wps, t, m)
    ensures Step(sqrt, wps, t, m, dt).currentWp == m.currentWp
    ensures Step(sqrt, wps, t, m, dt).lap == m.lap
    ensures Step(sqrt, wps, t, m, dt).position == Add(m.position, Scale(Step(sqrt, wps, t, m, dt).velocity, dt))
    ensures 0.0 <= t.maxSpeed ==> Length(sqrt, Step(sqrt, wps, t, m, dt).velocity) <= t.maxSpeed
  {
  }

  /**
    The lap counter goes up by exactly one when the step wraps the target from the last
    waypoint to the first, and is unchanged otherwise.
   */
  lemma StepCountsLaps(sqrt: real -> real, wps: seq<Vec2>, t: Tuning, m: Motion, dt: real)
    requires IsSqrt(sqrt) && 0 <= m.currentWp < |wps| && 2 <= |wps|
    ensures var r := Step(sqrt, wps, t, m, dt);
      r.lap == (if m.currentWp == |wps| - 1 && r.currentWp == 0 then m.lap + 1 else m.lap)
  {
    var n := |wps|;
    if Arrived(sqrt, wps, t, m) {
      if m.currentWp == n - 1 {
        assert (m.currentWp + 1) % n == 0;
      } else {
        assert (m.currentWp + 1) % n == m.currentWp + 1;
      }
    }
  }

  /** A tick of zero duration does not move the racer. */
  lemma StepZeroDt(sqrt: real -> real, wps: seq<Vec2>, t: Tuning, m: Motion)
    requires IsSqrt(sqrt) && 0 <= m.currentWp < |wps|
    ensures Step(sqrt, wps, t, m, 0.0).position == m.position
  {
  }

  /** When the slow radius lies inside the arrive radius, a step that does not arrive always aims for full speed. */
  lemma NoSlowdownInsideArriveRadius(sqrt: real -> real, wps: seq<Vec2>, t: Tuning, m: Motion)
    requires IsSqrt(sqrt) && 0 <= m.currentWp < |wps|
    requires t.slowRadius <= t.arriveRadius && !Arrived(sqrt, wps, t, m)
    ensures 0.0 <= DistanceToTarget(sqrt, wps, m)
    ensures DesiredSpeed(DistanceToTarget(sqrt, wps, m), t.maxSpeed, t.slowRadius) == t.maxSpeed
  {
    LengthFacts(sqrt, Sub(wps[m.currentWp], m.position));
  }

  /** The default tuning has its slow radius inside its arrive radius, so it never slows down. */
  lemma DefaultTuningNeverSlows()
    ensures DefaultTuning().slowRadius < DefaultTuning().arriveRadius
    ensures forall d :: DefaultTuning().arriveRadius <= d ==> DesiredSpeed(d, DefaultTuning().maxSpeed, DefaultTuning().slowRadius) == DefaultTuning().maxSpeed
  {
  }

  // ---------------------------------------------------------------------------
  // Progress along the waypoint loop

  /** Sum of the first k segments of the closed loop, the segment from the last waypoint back to the first included. */
  function ClosedSum(sqrt: real -> real, wps: seq<Vec2>, k: nat): real
    requires k <= |wps|
  {
    if k == 0 then 0.0
    else ClosedSum(sqrt, wps, k - 1) + Length(sqrt, Sub(wps[k % |wps|], wps[k - 1]))
  }

  /** Sum of the first k segments of the open polyline wps[0], wps[1], ... */
  function OpenSum(sqrt: real -> real, wps: seq<Vec2>, k: nat): real
    requires k < |wps|
  {
    if k == 0 then 0.0
    else OpenSum(sqrt, wps, k - 1) + Length(sqrt, Sub(wps[k], wps[k - 1]))
  }

  /** loopLength: 0 for fewer than two waypoints, else the closed loop's perimeter. */
  function LoopLengthOf(sqrt: real -> real, wps: seq<Vec2>): real
  {
    if |wps| < 2 then 0.0 else ClosedSum(sqrt, wps, |wps|)
  }

  lemma {:induction false} ClosedSumIsOpenSum(sqrt: real -> real, wps: seq<Vec2>, k: nat)
    requires k < |wps|
    ensures ClosedSum(sqrt, wps, k) == OpenSum(sqrt, wps, k)
  {
    if k > 0 {
      ClosedSumIsOpenSum(sqrt, wps, k - 1);
      ModSmall(k, |wps|);
    }
  }

  /** The loop is the open polyline plus the wrap segment from the last waypoint back to the first. */
  lemma LoopIsOpenPathPlusWrap(sqrt: real -> real, wps: seq<Vec2>)
    requires 2 <= |wps|
    ensures LoopLengthOf(sqrt, wps) == OpenSum(sqrt, wps, |wps| - 1) + Length(sqrt, Sub(wps[0], wps[|wps| - 1]))
  {
    var n := |wps|;
    ClosedSumIsOpenSum(sqrt, wps, n - 1);
    ModUnique(n, n, 1, 0);
  }

  lemma {:induction false} OpenSumMonotone(sqrt: real -> real, wps: seq<Vec2>, j: nat, k: nat)
    requires IsSqrt(sqrt) && j <= k < |wps|
    ensures 0.0 <= OpenSum(sqrt, wps, j) <= OpenSum(sqrt, wps, k)
    decreases k
  {
    if k > 0 {
      LengthFacts(sqrt, Sub(wps[k], wps[k - 1]));
      if j < k {
        OpenSumMonotone(sqrt, wps, j, k - 1);
      } else {
        OpenSumMonotone(sqrt, wps, j - 1, k - 1);
      }
    }
  }

  lemma LoopLengthNonNegative(sqrt: real -> real, wps: seq<Vec2>)
    requires IsSqrt(sqrt)
    ensures 0.0 <= LoopLengthOf(sqrt, wps)
  {
    if 2 <= |wps| {
      LoopIsOpenPathPlusWrap(sqrt, wps);
      OpenSumMonotone(sqrt, wps, 0, |wps| - 1);
      LengthFacts(sqrt, Sub(wps[0], wps[|wps| - 1]));
    }
  }

  /** The waypoint before the current one, cyclically. */
  function PrevIndex(n: int, currentWp: int): (r: int)
    requires 0 <= currentWp < n
    ensures 0 <= r < n && (r + 1) % n == currentWp
  {
    if currentWp == 0 then n - 1 else currentWp - 1
  }

  /** Where the projection of p onto the segment a-b falls, as a fraction of the segment clamped to [0, 1]; 0 for a degenerate segment. */
  function ProjectionParam(a: Vec2, b: Vec2, p: Vec2): (t: real)
    ensures 0.0 <= t <= 1.0
    ensures LengthSquared(Sub(b, a)) <= 0.0 ==> t == 0.0
    ensures 0.0 < LengthSquared(Sub(b, a)) && 0.0 <= Dot(Sub(p, a), Sub(b, a)) <= LengthSquared(Sub(b, a)) ==>
              t == Dot(Sub(p, a), Sub(b, a)) / LengthSquared(Sub(b, a))
    ensures 0.0 < LengthSquared(Sub(b, a)) && Dot(Sub(p, a), Sub(b, a)) < 0.0 ==> t == 0.0
    ensures 0.0 < LengthSquared(Sub(b, a)) && Dot(Sub(p, a), Sub(b, a)) > LengthSquared(Sub(b, a)) ==> t == 1.0
  {
    var ab := Sub(b, a);
    var ap := Sub(p, a);
    var ab2 := ab.x * ab.x + ab.y * ab.y;
    var dot := ap.x * ab.x + ap.y * ab.y;
    var raw := if ab2 > 0.0 then dot / ab2 else 0.0;
    if ab2 > 0.0 && dot > ab2 then QuotientAboveOne(dot, ab2); Clamp(raw, 0.0, 1.0)
    else Clamp(raw, 0.0, 1.0)
  }

  lemma QuotientAboveOne(n: real, d: real)
    requires 0.0 < d < n
    ensures n / d > 1.0
  {
    var q := n / d;
    assert q * d == n;
    if q <= 1.0 {
      calc {
        n;
        q * d;
      <= 1.0 * d;
      }
    }
  }

  /** lapProgressMeters: the completed open segments before the previous waypoint plus the projected part of the current segment. */
  function LapProgressOf(sqrt: real -> real, wps: seq<Vec2>, currentWp: int, p: Vec2): real
    requires |wps| < 2 || 0 <= currentWp < |wps|
  {
    if |wps| < 2 then 0.0
    else
      var prev := PrevIndex(|wps|, currentWp);
      var ab := Sub(wps[currentWp], wps[prev]);
      OpenSum(sqrt, wps, prev) + Length(sqrt, Scale(ab, ProjectionParam(wps[prev], wps[currentWp], p)))
  }

  lemma MulAtMostOne(t: real, len: real)
    requires 0.0 <= t <= 1.0 && 0.0 <= len
    ensures 0.0 <= t * len <= len
  {
    MulNonNegative(t, len);
    MulNonNegative(1.0 - t, len);
    calc {
      len - t * len;
      (1.0 - t) * len;
    >= 0.0;
    }
  }

  /** A fraction t in [0, 1] of a segment is at most the whole segment. */
  lemma PartialSegment(sqrt: real -> real, ab: Vec2, t: real)
    requires IsSqrt(sqrt) && 0.0 <= t <= 1.0
    ensures 0.0 <= Length(sqrt, Scale(ab, t)) <= Length(sqrt, ab)
  {
    var len := Length(sqrt, ab);
    LengthFacts(sqrt, ab);
    LengthScale(sqrt, ab, t);
    MulAtMostOne(t, len);
    calc {
      Length(sqrt, Scale(ab, t));
      t * len;
    <= len;
    }
  }

  /** Lap progress never goes below 0 nor past the loop length. */
  lemma LapProgressBounds(sqrt: real -> real, wps: seq<Vec2>, currentWp: int, p: Vec2)
    requires IsSqrt(sqrt) && (|wps| < 2 || 0 <= currentWp < |wps|)
    ensures 0.0 <= LapProgressOf(sqrt, wps, currentWp, p) <= LoopLengthOf(sqrt, wps)
  {
    var n := |wps|;
    if 2 <= n {
      var prev := PrevIndex(n, currentWp);
      var ab := Sub(wps[currentWp], wps[prev]);
      var part := Length(sqrt, Scale(ab, ProjectionParam(wps[prev], wps[currentWp], p)));
      var whole := Length(sqrt, ab);
      var wrap := Length(sqrt, Sub(wps[0], wps[n - 1]));
      assert LapProgressOf(sqrt, wps, currentWp, p) == OpenSum(sqrt, wps, prev) + part;
      PartialSegment(sqrt, ab, ProjectionParam(wps[prev], wps[currentWp], p));
      LoopIsOpenPathPlusWrap(sqrt, wps);
      LengthFacts(sqrt, Sub(wps[0], wps[n - 1]));
      OpenSumMonotone(sqrt, wps, 0, prev);
      if currentWp == 0 {
        assert ab == Sub(wps[0], wps[n - 1]);
      } else {
        assert OpenSum(sqrt, wps, currentWp) == OpenSum(sqrt, wps, prev) + whole;
        OpenSumMonotone(sqrt, wps, currentWp, n - 1);
      }
    }
  }

  /** getProgressMeters: completed laps times the loop length, plus the progress within the lap. */
  function ProgressOf(sqrt: real -> real, wps: seq<Vec2>, currentWp: int, lap: int, p: Vec2): real
    requires |wps| < 2 || 0 <= currentWp < |wps|
  {
    (lap as real) * LoopLengthOf(sqrt, wps) + LapProgressOf(sqrt, wps, currentWp, p)
  }

  lemma MulMonotone(t1: real, t2: real, len: real)
    requires t1 <= t2 && 0.0 <= len
    ensures t1 * len <= t2 * len
  {
    MulNonNegative(t2 - t1, len);
    assert (t2 - t1) * len == t2 * len - t1 * len;
  }

  /** A larger fraction of a segment covers at least as much of it. */
  lemma SegmentPartMonotone(sqrt: real -> real, ab: Vec2, t1: real, t2: real)
    requires IsSqrt(sqrt) && 0.0 <= t1 <= t2
    ensures Length(sqrt, Scale(ab, t1)) <= Length(sqrt, Scale(ab, t2))
  {
    LengthFacts(sqrt, ab);
    LengthScale(sqrt, ab, t1);
    LengthScale(sqrt, ab, t2);
    MulMonotone(t1, t2, Length(sqrt, ab));
    calc {
      Length(sqrt, Scale(ab, t1));
      t1 * Length(sqrt, ab);
    <= t2 * Length(sqrt, ab);
      Length(sqrt, Scale(ab, t2));
    }
  }

  /**
    For a fixed target, the lap progress grows with the position's projection onto
    the current segment: moving forward along the segment never lowers it.
   */
  lemma LapProgressMonotone(sqrt: real -> real, wps: seq<Vec2>, c: int, p: Vec2, q: Vec2)
    requires IsSqrt(sqrt) && 2 <= |wps| && 0 <= c < |wps|
    requires ProjectionParam(wps[PrevIndex(|wps|, c)], wps[c], p) <= ProjectionParam(wps[PrevIndex(|wps|, c)], wps[c], q)
    ensures LapProgressOf(sqrt, wps, c, p) <= LapProgressOf(sqrt, wps, c, q)
  {
    var prev := PrevIndex(|wps|, c);
    SegmentPartMonotone(sqrt, Sub(wps[c], wps[prev]), ProjectionParam(wps[prev], wps[c], p), ProjectionParam(wps[prev], wps[c], q));
  }

  /** With a non-negative lap count the total progress lies between `lap` and `lap + 1` loop lengths. */
  lemma ProgressBounds(sqrt: real -> real, wps: seq<Vec2>, currentWp: int, lap: int, p: Vec2)
    requires IsSqrt(sqrt) && (|wps| < 2 || 0 <= currentWp < |wps|) && 0 <= lap
    ensures (lap as real) * LoopLengthOf(sqrt, wps) <= ProgressOf(sqrt, wps, currentWp, lap, p)
    ensures ProgressOf(sqrt, wps, currentWp, lap, p) <= (lap as real + 1.0) * LoopLengthOf(sqrt, wps)
  {
    LapProgressBounds(sqrt, wps, currentWp, p);
    var len := LoopLengthOf(sqrt, wps);
    calc {
      (lap as real + 1.0) * len;
      (lap as real) * len + len;
    }
  }

  // ---------------------------------------------------------------------------
  // Progress across an arrival

  /** The projection of A onto A-B is at fraction 0. */
  lemma ParamAtStart(a: Vec2, b: Vec2)
    ensures ProjectionParam(a, b, a) == 0.0
  {
    assert Sub(a, a) == Zero();
    assert Dot(Zero(), Sub(b, a)) == 0.0;
  }

  /** The projection of B onto A-B is at fraction 1, unless the segment is degenerate. */
  lemma ParamAtEnd(a: Vec2, b: Vec2)
    ensures ProjectionParam(a, b, b) == 1.0 || Sub(b, a) == Zero()
  {
    var ab := Sub(b, a);
    LengthSquaredIsDot(ab);
    if 0.0 < LengthSquared(ab) {
      assert Dot(ab, ab) / LengthSquared(ab) == 1.0;
    }
  }

  /** Standing on a segment's end points, the covered part is nothing at A and the whole segment at B. */
  lemma SegmentEnds(sqrt: real -> real, a: Vec2, b: Vec2)
    requires IsSqrt(sqrt)
    ensures Length(sqrt, Scale(Sub(b, a), ProjectionParam(a, b, a))) == 0.0
    ensures Length(sqrt, Scale(Sub(b, a), ProjectionParam(a, b, b))) == Length(sqrt, Sub(b, a))
  {
    var ab := Sub(b, a);
    ParamAtStart(a, b);
    ParamAtEnd(a, b);
    assert Scale(ab, 0.0) == Zero();
    assert Scale(ab, ProjectionParam(a, b, b)) == ab;
    LengthFacts(sqrt, Zero());
  }

  /** On the target waypoint c the lap progress is the open path up to c, or the whole loop when c is 0. */
  lemma LapProgressAtTarget(sqrt: real -> real, wps: seq<Vec2>, c: int)
    requires IsSqrt(sqrt) && 2 <= |wps| && 0 <= c < |wps|
    ensures LapProgressOf(sqrt, wps, c, wps[c]) == if c == 0 then LoopLengthOf(sqrt, wps) else OpenSum(sqrt, wps, c)
  {
    var prev := PrevIndex(|wps|, c);
    SegmentEnds(sqrt, wps[prev], wps[c]);
    if c == 0 {
      LoopIsOpenPathPlusWrap(sqrt, wps);
    }
  }

  /** On the waypoint before the target, the lap progress is the open path up to that waypoint. */
  lemma LapProgressAtStart(sqrt: real -> real, wps: seq<Vec2>, c: int)
    requires IsSqrt(sqrt) && 2 <= |wps| && 0 <= c < |wps|
    ensures LapProgressOf(sqrt, wps, c, wps[PrevIndex(|wps|, c)]) == OpenSum(sqrt, wps, PrevIndex(|wps|, c))
  {
    var prev := PrevIndex(|wps|, c);
    SegmentEnds(sqrt, wps[prev], wps[c]);
  }

  lemma NextLapScaled(lap: int, len: real)
    ensures ((lap + 1) as real) * len == (lap as real) * len + len
  {
  }

  /** One more lap adds one loop length to the progress, wherever the racer is. */
  lemma ProgressNextLap(sqrt: real -> real, wps: seq<Vec2>, c: int, lap: int, p: Vec2)
    requires |wps| < 2 || 0 <= c < |wps|
    ensures ProgressOf(sqrt, wps, c, lap + 1, p) == ProgressOf(sqrt, wps, c, lap, p) + LoopLengthOf(sqrt, wps)
  {
    NextLapScaled(lap, LoopLengthOf(sqrt, wps));
  }

  /** Arriving on the last waypoint wraps the target to 0 and counts a lap: the progress gains a loop length at once. */
  lemma WrapArrivalAddsLoop(sqrt: real -> real, wps: seq<Vec2>, lap: int)
    requires IsSqrt(sqrt) && 2 <= |wps|
    ensures var c := |wps| - 1;
      ProgressOf(sqrt, wps, 0, lap + 1, wps[c]) == ProgressOf(sqrt, wps, c, lap, wps[c]) + LoopLengthOf(sqrt, wps)
  {
    var c := |wps| - 1;
    LapProgressAtTarget(sqrt, wps, c);
    LapProgressAtStart(sqrt, wps, 0);
    ProgressNextLap(sqrt, wps, 0, lap, wps[c]);
  }

  /** Arriving on waypoint 0 takes target 1 without counting a lap: the progress loses a loop length at once. */
  lemma FirstArrivalDropsLoop(sqrt: real -> real, wps: seq<Vec2>, lap: int)
    requires IsSqrt(sqrt) && 2 <= |wps|
    ensures ProgressOf(sqrt, wps, 1, lap, wps[0]) == ProgressOf(sqrt, wps, 0, lap, wps[0]) - LoopLengthOf(sqrt, wps)
  {
    LapProgressAtTarget(sqrt, wps, 0);
    LapProgressAtStart(sqrt, wps, 1);
    assert OpenSum(sqrt, wps, 0) == 0.0;
  }

  /** Arriving on any other waypoint c leaves the progress where it was. */
  lemma MidArrivalKeepsProgress(sqrt: real -> real, wps: seq<Vec2>, c: int, lap: int)
    requires IsSqrt(sqrt) && 0 < c < |wps| - 1
    ensures ProgressOf(sqrt, wps, c + 1, lap, wps[c]) == ProgressOf(sqrt, wps, c, lap, wps[c])
  {
    LapProgressAtTarget(sqrt, wps, c);
    LapProgressAtStart(sqrt, wps, c + 1);
  }

  /** How far the progress as written jumps when the racer arrives on waypoint c: up a loop at the last waypoint, down a loop at waypoint 0. */
  function ArrivalShift(sqrt: real -> real, wps: seq<Vec2>, c: int): real
  {
    if c == |wps| - 1 then LoopLengthOf(sqrt, wps)
    else if c == 0 then -LoopLengthOf(sqrt, wps)
    else 0.0
  }

  /** As written: arriving on the target and taking the next one moves the progress by a loop length at the wrap and back at waypoint 0. */
  lemma AdvanceShiftsProgress(sqrt: real -> real, wps: seq<Vec2>, m: Motion)
    requires IsSqrt(sqrt) && 2 <= |wps| && 0 <= m.currentWp < |wps| && m.position == wps[m.currentWp]
    ensures var r := Advance(|wps|, m);
      ProgressOf(sqrt, wps, r.currentWp, r.lap, r.position)
      == ProgressOf(sqrt, wps, m.currentWp, m.lap, m.position) + ArrivalShift(sqrt, wps, m.currentWp)
  {
    var c := m.currentWp;
    var r := Advance(|wps|, m);
    if c == |wps| - 1 {
      assert r.currentWp == 0;
      WrapArrivalAddsLoop(sqrt, wps, m.lap);
    } else if c == 0 {
      assert r.currentWp == 1;
      FirstArrivalDropsLoop(sqrt, wps, m.lap);
    } else {
      assert r.currentWp == c + 1;
      MidArrivalKeepsProgress(sqrt, wps, c, m.lap);
    }
  }

  /** The laps completed so far: the wrap to target 0 counts a lap before its closing segment has been driven. */
  function LapsCompleted(currentWp: int, lap: int): int
  {
    if currentWp == 0 then lap - 1 else lap
  }

  /** Total progress with the closing segment counted in the lap it completes. */
  function ContinuousProgressOf(sqrt: real -> real, wps: seq<Vec2>, currentWp: int, lap: int, p: Vec2): real
    requires |wps| < 2 || 0 <= currentWp < |wps|
  {
    (LapsCompleted(currentWp, lap) as real) * LoopLengthOf(sqrt, wps) + LapProgressOf(sqrt, wps, currentWp, p)
  }

  /** The progress as written exceeds the continuous one by a loop length exactly while the target is waypoint 0. */
  lemma ProgressOvercountsClosingSegment(sqrt: real -> real, wps: seq<Vec2>, currentWp: int, lap: int, p: Vec2)
    requires |wps| < 2 || 0 <= currentWp < |wps|
    ensures ProgressOf(sqrt, wps, currentWp, lap, p)
         == ContinuousProgressOf(sqrt, wps, currentWp, lap, p) + (if currentWp == 0 then LoopLengthOf(sqrt, wps) else 0.0)
  {
    if currentWp == 0 {
      NextLapScaled(lap - 1, LoopLengthOf(sqrt, wps));
    }
  }

  /** The continuous progress is unchanged by arriving on the target and taking the next one, the lap-counting wrap included. */
  lemma AdvanceKeepsContinuousProgress(sqrt: real -> real, wps: seq<Vec2>, m: Motion)
    requires IsSqrt(sqrt) && 2 <= |wps| && 0 <= m.currentWp < |wps| && m.position == wps[m.currentWp]
    ensures var r := Advance(|wps|, m);
      ContinuousProgressOf(sqrt, wps, r.currentWp, r.lap, r.position)
      == ContinuousProgressOf(sqrt, wps, m.currentWp, m.lap, m.position)
  {
    var r := Advance(|wps|, m);
    AdvanceShiftsProgress(sqrt, wps, m);
    ProgressOvercountsClosingSegment(sqrt, wps, m.currentWp, m.lap, m.position);
    ProgressOvercountsClosingSegment(sqrt, wps, r.currentWp, r.lap, r.position);
  }

  /** For a fixed target and lap count, both progress measures grow with the projection onto the current segment. */
  lemma ProgressMonotoneInSegment(sqrt: real -> real, wps: seq<Vec2>, c: int, lap: int, p: Vec2, q: Vec2)
    requires IsSqrt(sqrt) && 2 <= |wps| && 0 <= c < |wps|
    requires ProjectionParam(wps[PrevIndex(|wps|, c)], wps[c], p) <= ProjectionParam(wps[PrevIndex(|wps|, c)], wps[c], q)
    ensures ProgressOf(sqrt, wps, c, lap, p) <= ProgressOf(sqrt, wps, c, lap, q)
    ensures ContinuousProgressOf(sqrt, wps, c, lap, p) <= ContinuousProgressOf(sqrt, wps, c, lap, q)
  {
    LapProgressMonotone(sqrt, wps, c, p, q);
  }

  /** Once at least zero laps are complete, the continuous progress is not negative. */
  lemma ContinuousProgressNonNegative(sqrt: real -> real, wps: seq<Vec2>, currentWp: int, lap: int, p: Vec2)
    requires IsSqrt(sqrt) && (|wps| < 2 || 0 <= currentWp < |wps|) && 0 <= LapsCompleted(currentWp, lap)
    ensures 0.0 <= ContinuousProgressOf(sqrt, wps, currentWp, lap, p)
  {
    LapProgressBounds(sqrt, wps, currentWp, p);
    LoopLengthNonNegative(sqrt, wps);
    MulNonNegative(LapsCompleted(currentWp, lap) as real, LoopLengthOf(sqrt, wps));
  }

  /**
    Before the first lap the continuous progress is negative on the closing segment:
    a racer with lap 0 standing on the last waypoint and aiming at waypoint 0, as a
    spawn behind waypoint 0 leaves it, is the closing segment's length short of 0.
   */
  lemma ContinuousProgressBeforeStart(sqrt: real -> real, wps: seq<Vec2>)
    requires IsSqrt(sqrt) && 2 <= |wps|
    ensures ContinuousProgressOf(sqrt, wps, 0, 0, wps[|wps| - 1]) == -Length(sqrt, Sub(wps[0], wps[|wps| - 1]))
  {
    LapProgressAtStart(sqrt, wps, 0);
    LoopIsOpenPathPlusWrap(sqrt, wps);
  }

  /** With no lap driven yet, the continuous progress of a racer standing on waypoint 0 and aiming at it is 0. */
  lemma ContinuousProgressAtStart(sqrt: real -> real, wps: seq<Vec2>)
    requires IsSqrt(sqrt) && 2 <= |wps|
    ensures ContinuousProgressOf(sqrt, wps, 0, 0, wps[0]) == 0.0
    ensures ProgressOf(sqrt, wps, 0, 0, wps[0]) == LoopLengthOf(sqrt, wps)
  {
    LapProgressAtTarget(sqrt, wps, 0);
  }

  // ---------------------------------------------------------------------------
  // Grid spawn

  /** C++ `%` on int: the remainder truncated toward zero, so it takes the sign of `a`. */
  function CppRem(a: int, n: int): (r: int)
    requires 0 < n
    ensures -n < r < n
    ensures 0 <= a ==> r == a % n
  {
    if 0 <= a then a % n else -((-a) % n)
  }

  lemma ModSmall(k: int, n: int)
    requires 0 <= k < n
    ensures k % n == k
  {
  }

  lemma MulAtLeast(d: int, n: int)
    requires 0 < n && 1 <= d
    ensures n <= d * n
  {
  }

  /** The Euclidean remainder is the only r in [0, n) with a == q * n + r. */
  lemma ModUnique(a: int, n: int, q: int, r: int)
    requires 0 < n && 0 <= r < n && a == q * n + r
    ensures a % n == r
  {
    var q0 := a / n;
    assert a == q0 * n + a % n;
    if q0 < q {
      MulAtLeast(q - q0, n);
    } else if q < q0 {
      MulAtLeast(q0 - q, n);
    }
  }

  /** Shifting a truncated remainder by n and reducing again gives the mathematical remainder, negative w included. */
  lemma {:induction false} ShiftedRemIsMod(w: int, n: int)
    requires 0 < n
    ensures CppRem(CppRem(w, n) + n, n) == w % n
  {
    var s := CppRem(w, n) + n;
    if 0 <= w {
      ModUnique(s, n, 1, w % n);
      ModUnique(w, n, w / n, w % n);
    } else {
      var m := -w;
      var q := m / n;
      var r := m % n;
      assert m == q * n + r;
      if r == 0 {
        ModUnique(s, n, 1, 0);
        ModUnique(w, n, -q, 0);
      } else {
        ModUnique(s, n, 0, n - r);
        ModUnique(w, n, -q - 1, n - r);
      }
    }
  }

  /** The waypoint a spawn index denotes: `(w % n + n) % n` in C++ arithmetic, which is w mod n for every integer w. */
  function SpawnIndex(w: int, n: int): (r: int)
    requires 0 < n
    ensures 0 <= r < n
    ensures r == w % n
  {
    ShiftedRemIsMod(w, n);
    CppRem(CppRem(w, n) + n, n)
  }

  /** The slot `back` pixels behind waypoint A and `lateral` pixels to its left, A -> B being the track direction. */
  function SpawnSlot(sqrt: real -> real, a: Vec2, b: Vec2, back: real, lateral: real): Vec2
  {
    var dir := Normalize(sqrt, Sub(b, a));
    var right := Vec2(-dir.y, dir.x);
    Add(Sub(a, Scale(dir, back)), Scale(right, lateral))
  }

  /** The offset (-d.x*back - d.y*lateral, -d.y*back + d.x*lateral) projected on a unit d and on its perpendicular. */
  lemma FrameProjections(dx: real, dy: real, back: real, lateral: real)
    requires dx * dx + dy * dy == 1.0
    ensures (-dx * back - dy * lateral) * dx + (-dy * back + dx * lateral) * dy == -back
    ensures (-dx * back - dy * lateral) * -dy + (-dy * back + dx * lateral) * dx == lateral
  {
    calc {
      (-dx * back - dy * lateral) * dx + (-dy * back + dx * lateral) * dy;
      -back * (dx * dx + dy * dy);
      -back;
    }
    calc {
      (-dx * back - dy * lateral) * -dy + (-dy * back + dx * lateral) * dx;
      lateral * (dx * dx + dy * dy);
      lateral;
    }
  }

  /** The slot built from a unit direction, read back in the frame that direction spans. */
  lemma SlotInFrame(a: Vec2, dir: Vec2, back: real, lateral: real)
    requires LengthSquared(dir) == 1.0
    ensures var right := Vec2(-dir.y, dir.x);
      var offset := Sub(Add(Sub(a, Scale(dir, back)), Scale(right, lateral)), a);
      Dot(dir, right) == 0.0 && Dot(offset, dir) == -back && Dot(offset, right) == lateral
  {
    var right := Vec2(-dir.y, dir.x);
    var offset := Sub(Add(Sub(a, Scale(dir, back)), Scale(right, lateral)), a);
    assert offset == Vec2(-dir.x * back - dir.y * lateral, -dir.y * back + dir.x * lateral);
    FrameProjections(dir.x, dir.y, back, lateral);
  }

  /**
    In the frame of the track at A, the slot lies `back` behind A along the unit
    direction to B and `lateral` along the perpendicular.
   */
  lemma SpawnSlotFrame(sqrt: real -> real, a: Vec2, b: Vec2, back: real, lateral: real)
    requires IsSqrt(sqrt) && Length(sqrt, Sub(b, a)) > Epsilon
    ensures var dir := Normalize(sqrt, Sub(b, a));
      var right := Vec2(-dir.y, dir.x);
      var offset := Sub(SpawnSlot(sqrt, a, b, back, lateral), a);
      LengthSquared(dir) == 1.0 && Dot(dir, right) == 0.0 &&
      Dot(offset, dir) == -back && Dot(offset, right) == lateral
  {
    NormalizeUnit(sqrt, Sub(b, a));
    SlotInFrame(a, Normalize(sqrt, Sub(b, a)), back, lateral);
  }
}
