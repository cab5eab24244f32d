/**
  Two-dimensional vector algebra (CVector2, and the componentwise operators of the
  render library's Vector2f that the racer and the transform use).

  Components are reals: the engine's 32-bit floats are modelled without rounding.
  The square root of the platform's math library cannot be defined in Dafny, so every
  operation that needs a magnitude takes it as a parameter `sqrt`; facts about
  magnitudes hold for every `sqrt` satisfying IsSqrt, the exact non-negative root.
 */
module Vectors {

  datatype Vec2 = Vec2(x: real, y: real)

  /** `sqrt` returns the exact non-negative square root of every non-negative real. */
  ghost predicate IsSqrt(sqrt: real -> real)
  {
    forall a :: 0.0 <= a ==> 0.0 <= sqrt(a) && sqrt(a) * sqrt(a) == a
  }

  // ---------------------------------------------------------------------------
  // Square roots

  lemma SquareStrictlyMonotone(r: real, s: real)
    requires 0.0 <= r < s
    ensures r * r < s * s
  {
    calc {
      r * r;
    <= r * s;
    <  s * s;
    }
  }

  /** Two non-negative reals with the same square are equal. */
  lemma RootUnique(r: real, s: real)
    requires 0.0 <= r && 0.0 <= s && r * r == s * s
    ensures r == s
  {
    if r < s {
      SquareStrictlyMonotone(r, s);
    } else if s < r {
      SquareStrictlyMonotone(s, r);
    }
  }

  lemma SqrtOfSquare(sqrt: real -> real, c: real)
    requires IsSqrt(sqrt) && 0.0 <= c
    ensures sqrt(c * c) == c
  {
    var r := sqrt(c * c);
    assert 0.0 <= r && r * r == c * c;
    RootUnique(r, c);
  }

  // ---------------------------------------------------------------------------
  // Values: CVector2::zero, CVector2::one and the non-mutating operators

  function Zero(): Vec2 { Vec2(0.0, 0.0) }

  function One(): Vec2 { Vec2(1.0, 1.0) }

  function Add(a: Vec2, b: Vec2): Vec2 { Vec2(a.x + b.x, a.y + b.y) }

  function Sub(a: Vec2, b: Vec2): Vec2 { Vec2(a.x - b.x, a.y - b.y) }

  function Scale(v: Vec2, s: real): Vec2 { Vec2(v.x * s, v.y * s) }

  /** Division by a scalar; a zero divisor (an infinity or NaN in the engine) is excluded. */
  function Div(v: Vec2, s: real): Vec2
    requires s != 0.0
  {
    Vec2(v.x / s, v.y / s)
  }

  /** operator== compares both components. */
  predicate Equal(a: Vec2, b: Vec2) { a.x == b.x && a.y == b.y }

  /** operator!= is the negation of operator==. */
  predicate NotEqual(a: Vec2, b: Vec2) { !Equal(a, b) }

  /** operator[]: index 0 is x, every other index is y. */
  function At(v: Vec2, i: nat): real { if i == 0 then v.x else v.y }

  function LengthSquared(v: Vec2): real { v.x * v.x + v.y * v.y }

  function Dot(a: Vec2, b: Vec2): real { a.x * b.x + a.y * b.y }

  function Cross(a: Vec2, b: Vec2): real { a.x * b.y - a.y * b.x }

  function Length(sqrt: real -> real, v: Vec2): real { sqrt(LengthSquared(v)) }

  /** CVector2::normalized: the zero-length vector normalizes to the zero vector. */
  function Normalized(sqrt: real -> real, v: Vec2): Vec2
  {
    var len := Length(sqrt, v);
    if len == 0.0 then Zero() else Vec2(v.x / len, v.y / len)
  }

  function Distance(sqrt: real -> real, a: Vec2, b: Vec2): real { Length(sqrt, Sub(a, b)) }

  function Lerp(a: Vec2, b: Vec2, t: real): Vec2 { Add(a, Scale(Sub(b, a), t)) }

  // ---------------------------------------------------------------------------
  // Algebraic facts

  lemma AddSubCancel(a: Vec2, b: Vec2)
    ensures Sub(Add(a, b), b) == a
    ensures Add(Sub(a, b), b) == a
  {
  }

  lemma DotSymmetric(a: Vec2, b: Vec2)
    ensures Dot(a, b) == Dot(b, a)
  {
  }

  lemma CrossAntisymmetric(a: Vec2, b: Vec2)
    ensures Cross(a, b) == -Cross(b, a)
    ensures Cross(a, a) == 0.0
  {
  }

  lemma LengthSquaredPositive(v: Vec2)
    requires v != Zero()
    ensures 0.0 < LengthSquared(v)
  {
    calc {
      LengthSquared(v);
      v.x * v.x + v.y * v.y;
    > 0.0;
    }
  }

  lemma LengthSquaredIsDot(v: Vec2)
    ensures LengthSquared(v) == Dot(v, v)
    ensures 0.0 <= LengthSquared(v)
    ensures LengthSquared(v) == 0.0 <==> v == Zero()
  {
    calc {
      LengthSquared(v);
      v.x * v.x + v.y * v.y;
    >= 0.0;
    }
    if v != Zero() {
      LengthSquaredPositive(v);
    }
  }

  lemma EqualIsEquality(a: Vec2, b: Vec2)
    ensures Equal(a, b) <==> a == b
    ensures NotEqual(a, b) <==> !Equal(a, b)
  {
  }

  /** Reading indices 0 and 1 rebuilds the vector, and every index other than 0 reads the same component as 1. */
  lemma AtRoundTrip(v: Vec2)
    ensures Vec2(At(v, 0), At(v, 1)) == v
    ensures forall i: nat :: i != 0 ==> At(v, i) == At(v, 1)
  {
  }

  /** zero() is the identity of + and -, and any vector scaled by 0 is zero(). */
  lemma ZeroIdentity(v: Vec2)
    ensures Add(v, Zero()) == v && Add(Zero(), v) == v && Sub(v, Zero()) == v
    ensures Scale(v, 0.0) == Zero() && LengthSquared(Zero()) == 0.0
  {
  }

  /** one() is the diagonal unit: scaling it by t gives (t, t), and a dot product with it sums the components. */
  lemma OneDiagonal(v: Vec2, t: real)
    ensures Scale(One(), t) == Vec2(t, t)
    ensures Dot(v, One()) == v.x + v.y
  {
  }

  /** Division by a non-zero scalar undoes scaling by it, and the other way round. */
  lemma DivScaleRoundTrip(v: Vec2, s: real)
    requires s != 0.0
    ensures Scale(Div(v, s), s) == v
    ensures Div(Scale(v, s), s) == v
  {
  }

  lemma LerpEndpoints(a: Vec2, b: Vec2)
    ensures Lerp(a, b, 0.0) == a
    ensures Lerp(a, b, 1.0) == b
  {
  }

  lemma DistanceSymmetric(sqrt: real -> real, a: Vec2, b: Vec2)
    ensures Distance(sqrt, a, b) == Distance(sqrt, b, a)
  {
    assert Sub(a, b) == Scale(Sub(b, a), -1.0);
    assert LengthSquared(Sub(a, b)) == LengthSquared(Sub(b, a));
  }

  lemma LengthSquaredScale(v: Vec2, c: real)
    ensures LengthSquared(Scale(v, c)) == c * c * LengthSquared(v)
  {
    calc {
      LengthSquared(Scale(v, c));
      (v.x * c) * (v.x * c) + (v.y * c) * (v.y * c);
      c * c * (v.x * v.x) + c * c * (v.y * v.y);
    }
  }

  // ---------------------------------------------------------------------------
  // Magnitudes, for an exact square root

  lemma SqrtAt(sqrt: real -> real, a: real)
    requires IsSqrt(sqrt) && 0.0 <= a
    ensures 0.0 <= sqrt(a) && sqrt(a) * sqrt(a) == a
  {
  }

  /** A non-negative root is zero exactly when its square is. */
  lemma RootZeroIffZero(r: real, s: real)
    requires 0.0 <= r && r * r == s
    ensures r == 0.0 <==> s == 0.0
  {
    if r == 0.0 {
      calc {
        s;
        r * r;
        0.0 * 0.0;
        0.0;
      }
    } else {
      calc {
        s;
        r * r;
      > 0.0;
      }
    }
  }

  /** The length is the non-negative root of the squared length; it is zero exactly for the zero vector. */
  lemma LengthFacts(sqrt: real -> real, v: Vec2)
    requires IsSqrt(sqrt)
    ensures 0.0 <= Length(sqrt, v)
    ensures Length(sqrt, v) * Length(sqrt, v) == LengthSquared(v)
    ensures Length(sqrt, v) == 0.0 <==> v == Zero()
  {
    var s := LengthSquared(v);
    LengthSquaredIsDot(v);
    SqrtAt(sqrt, s);
    RootZeroIffZero(sqrt(s), s);
  }

  /** The distance is non-negative and is zero exactly between equal vectors. */
  lemma DistanceFacts(sqrt: real -> real, a: Vec2, b: Vec2)
    requires IsSqrt(sqrt)
    ensures 0.0 <= Distance(sqrt, a, b)
    ensures Distance(sqrt, a, b) == 0.0 <==> a == b
  {
    var d := Sub(a, b);
    assert d == Zero() <==> a == b;
    LengthFacts(sqrt, d);
  }

  lemma MulNonNegative(a: real, b: real)
    requires 0.0 <= a && 0.0 <= b
    ensures 0.0 <= a * b
  {
  }

  /** Scaling by c multiplies the length by |c|. */
  lemma LengthScale(sqrt: real -> real, v: Vec2, c: real)
    requires IsSqrt(sqrt)
    ensures Length(sqrt, Scale(v, c)) == (if c < 0.0 then -c else c) * Length(sqrt, v)
  {
    var a := if c < 0.0 then -c else c;
    var len := Length(sqrt, v);
    var scaled := Length(sqrt, Scale(v, c));
    LengthFacts(sqrt, v);
    LengthFacts(sqrt, Scale(v, c));
    MulNonNegative(a, len);
    calc {
      scaled * scaled;
      LengthSquared(Scale(v, c));
      { LengthSquaredScale(v, c); }
      c * c * LengthSquared(v);
      c * c * (len * len);
      { assert c * c == a * a; }
      a * a * (len * len);
      (a * len) * (a * len);
    }
    RootUnique(scaled, a * len);
  }

  lemma NormalizedZero(sqrt: real -> real)
    requires IsSqrt(sqrt)
    ensures Normalized(sqrt, Zero()) == Zero()
  {
    LengthFacts(sqrt, Zero());
  }

  /** A non-zero vector normalizes to a unit vector pointing the same way. */
  lemma NormalizedUnit(sqrt: real -> real, v: Vec2)
    requires IsSqrt(sqrt) && v != Zero()
    ensures Length(sqrt, v) > 0.0
    ensures Normalized(sqrt, v) == Scale(v, 1.0 / Length(sqrt, v))
    ensures LengthSquared(Normalized(sqrt, v)) == 1.0
  {
    var len := Length(sqrt, v);
    LengthFacts(sqrt, v);
    var k := 1.0 / len;
    assert v.x / len == v.x * k && v.y / len == v.y * k;
    calc {
      LengthSquared(Normalized(sqrt, v));
      LengthSquared(Scale(v, k));
      { LengthSquaredScale(v, k); }
      k * k * LengthSquared(v);
      k * k * (len * len);
      (k * len) * (k * len);
      { assert k * len == 1.0; }
      1.0;
    }
  }

  // ---------------------------------------------------------------------------
  // CVector2 as a variable: the compound operators, normalize() and the writable operator[]

  class CVector2 {
    var x: real
    var y: real

    function Value(): Vec2
      reads this
    {
      Vec2(x, y)
    }

    /** The default constructor: (0, 0). */
    constructor ()
      ensures Value() == Zero()
    {
      x, y := 0.0, 0.0;
    }

    constructor FromXY(x0: real, y0: real)
      ensures Value() == Vec2(x0, y0)
    {
      x, y := x0, y0;
    }

    /** operator+= */
    method AddAssign(other: Vec2)
      modifies this
      ensures Value() == Add(old(Value()), other)
    {
      x := x + other.x;
      y := y + other.y;
    }

    /** operator-= */
    method SubAssign(other: Vec2)
      modifies this
      ensures Value() == Sub(old(Value()), other)
    {
      x := x - other.x;
      y := y - other.y;
    }

    /** operator*= */
    method MulAssign(s: real)
      modifies this
      ensures Value() == Scale(old(Value()), s)
    {
      x := x * s;
      y := y * s;
    }

    /** operator/= */
    method DivAssign(s: real)
      requires s != 0.0
      modifies this
      ensures Value() == Div(old(Value()), s)
    {
      x := x / s;
      y := y / s;
    }

    /** normalize(): divides by the length unless that length is zero, in which case nothing changes. */
    method Normalize(sqrt: real -> real)
      modifies this
      ensures Length(sqrt, old(Value())) == 0.0 ==> Value() == old(Value())
      ensures Length(sqrt, old(Value())) != 0.0 ==> Value() == Normalized(sqrt, old(Value()))
      ensures IsSqrt(sqrt) ==> Value() == Normalized(sqrt, old(Value()))
    {
      var len := Length(sqrt, Value());
      if len != 0.0 {
        x := x / len;
        y := y / len;
      }
      if IsSqrt(sqrt) && len == 0.0 {
        LengthFacts(sqrt, old(Value()));
      }
    }

    /** A write through the non-const operator[]: index 0 is x, every other index is y. */
    method SetAt(i: nat, value: real)
      modifies this
      ensures At(Value(), i) == value
      ensures i == 0 ==> y == old(y)
      ensures i != 0 ==> x == old(x)
    {
      if i == 0 {
        x := value;
      } else {
        y := value;
      }
    }
  }
}
