/**
  A 100 x 100 square track worked through the racer's measures, and a few concrete
  cases of the grid-spawn index and of clampMag.
  Each scenario only needs the square root at the few points it uses.
 */
module Scenarios {
  import opened Vectors
  import opened Steering

  function Square(): seq<Vec2>
  {
    [Vec2(0.0, 0.0), Vec2(100.0, 0.0), Vec2(100.0, 100.0), Vec2(0.0, 100.0)]
  }

  /** The loop length includes the closing side: 4 sides of 100. */
  lemma SquarePerimeter(sqrt: real -> real)
    requires sqrt(10000.0) == 100.0
    ensures LoopLengthOf(sqrt, Square()) == 400.0
  {
    var w := Square();
    assert Length(sqrt, Sub(w[1], w[0])) == 100.0;
    assert Length(sqrt, Sub(w[2], w[1])) == 100.0;
    assert Length(sqrt, Sub(w[3], w[2])) == 100.0;
    assert Length(sqrt, Sub(w[0], w[3])) == 100.0;
    LoopIsOpenPathPlusWrap(sqrt, w);
  }

  /** The unit direction of the first side. */
  lemma FirstSideDirection(sqrt: real -> real)
    requires sqrt(10000.0) == 100.0
    ensures Normalize(sqrt, Sub(Vec2(100.0, 0.0), Vec2(0.0, 0.0))) == Vec2(1.0, 0.0)
  {
    var side := Vec2(100.0, 0.0);
    calc {
      Normalize(sqrt, Sub(Vec2(100.0, 0.0), Vec2(0.0, 0.0)));
      { assert Sub(Vec2(100.0, 0.0), Vec2(0.0, 0.0)) == side; }
      Normalize(sqrt, side);
      { assert LengthSquared(side) == 10000.0; }
      Vec2(100.0 / 100.0, 0.0 / 100.0);
      Vec2(1.0, 0.0);
    }
  }

  /** A negative grid index counts back from the end: -1 is the last waypoint, whose successor is waypoint 0. */
  lemma NegativeSpawnIndex()
    ensures SpawnIndex(-1, 4) == 3 && (SpawnIndex(-1, 4) + 1) % 4 == 0
    ensures SpawnIndex(-6, 4) == 2
    ensures SpawnIndex(0, 4) == 0 && (SpawnIndex(0, 4) + 1) % 4 == 1
  {
  }

  /** With a negative bound, clampMag turns a vector of length 1 into one of length 5. */
  lemma NegativeClampLengthens(sqrt: real -> real)
    requires IsSqrt(sqrt)
    ensures Length(sqrt, ClampMag(sqrt, Vec2(1.0, 0.0), -5.0)) == 5.0
    ensures Length(sqrt, Vec2(1.0, 0.0)) == 1.0
  {
    assert LengthSquared(Vec2(1.0, 0.0)) == 1.0 * 1.0;
    SqrtOfSquare(sqrt, 1.0);
    ClampMagNegativeBound(sqrt, Vec2(1.0, 0.0), -5.0);
  }
}
