/**
  The Transform component: a position, a rotation and a scale, each a 2-D vector,
  kept as mutable state with setters, getters and a `seek` towards a target.
 */
module Transforms {
  import opened Vectors
  import opened ComponentTypes

  /** Where `seek` leaves the position: unchanged within `range`, else one step of `speed * deltaTime` along the unit direction. */
  function SeekTarget(sqrt: real -> real, position: Vec2, target: Vec2, speed: real, deltaTime: real, range: real): (r: Vec2)
    requires 0.0 <= range || Length(sqrt, Sub(target, position)) != 0.0
    ensures Length(sqrt, Sub(target, position)) <= range ==> r == position
  {
    var direction := Sub(target, position);
    var len := Length(sqrt, direction);
    if len > range then Add(position, Scale(Scale(Div(direction, len), speed), deltaTime)) else position
  }

  /**
    Outside the range, and for an exact root, the step is `speed * deltaTime` times the
    unit vector towards the target: it has squared length (speed * deltaTime)^2 and
    its length is |speed * deltaTime|.
   */
  lemma SeekStepsAlongUnitDirection(sqrt: real -> real, position: Vec2, target: Vec2, speed: real, deltaTime: real, range: real)
    requires IsSqrt(sqrt) && 0.0 <= range
    requires Length(sqrt, Sub(target, position)) > range
    ensures target != position
    ensures Sub(SeekTarget(sqrt, position, target, speed, deltaTime, range), position)
         == Scale(Scale(Normalized(sqrt, Sub(target, position)), speed), deltaTime)
    ensures Length(sqrt, Sub(SeekTarget(sqrt, position, target, speed, deltaTime, range), position))
         == (if speed * deltaTime < 0.0 then -(speed * deltaTime) else speed * deltaTime)
  {
    var direction := Sub(target, position);
    var len := Length(sqrt, direction);
    LengthFacts(sqrt, direction);
    assert direction != Zero();
    var u := Normalized(sqrt, direction);
    assert u == Div(direction, len);
    var step := Scale(Scale(u, speed), deltaTime);
    var r := SeekTarget(sqrt, position, target, speed, deltaTime, range);
    assert r == Add(position, step);
    AddSubCancel(step, position);
    assert Sub(r, position) == step by {
      assert Add(position, step) == Add(step, position);
    }
    assert step == Scale(u, speed * deltaTime);
    LengthScale(sqrt, u, speed * deltaTime);
    NormalizedUnit(sqrt, direction);
    SqrtOfSquare(sqrt, 1.0);
    assert Length(sqrt, u) == 1.0;
  }

  class Transform {
    var position: Vec2
    var rotation: Vec2
    var scale: Vec2

    /** Position (0, 0), rotation (0, 0), scale (1, 1). */
    constructor ()
      ensures position == Zero() && rotation == Zero() && scale == One()
      ensures GetType() == TRANSFORM
    {
      position := Zero();
      rotation := Zero();
      scale := One();
    }

    /** The component type a Transform was constructed with. */
    function GetType(): ComponentType { TRANSFORM }

    method Start()
      ensures unchanged(this)
    {
    }

    method Update(deltaTime: real)
      ensures unchanged(this)
    {
    }

    method Render()
      ensures unchanged(this)
    {
    }

    method Destroy()
      ensures unchanged(this)
    {
    }

    /** Moves towards the target only when it lies farther away than `range`. */
    method Seek(sqrt: real -> real, target: Vec2, speed: real, deltaTime: real, range: real)
      requires 0.0 <= range || Length(sqrt, Sub(target, position)) != 0.0
      modifies this
      ensures position == SeekTarget(sqrt, old(position), target, speed, deltaTime, range)
      ensures rotation == old(rotation) && scale == old(scale)
    {
      var direction := Sub(target, position);
      var len := Length(sqrt, direction);
      if len > range {
        direction := Div(direction, len);
        position := Add(position, Scale(Scale(direction, speed), deltaTime));
      }
    }

    method SetPosition(pos: Vec2)
      modifies this
      ensures GetPosition() == pos
      ensures rotation == old(rotation) && scale == old(scale)
    {
      position := pos;
    }

    method SetRotation(rot: Vec2)
      modifies this
      ensures GetRotation() == rot
      ensures position == old(position) && scale == old(scale)
    {
      rotation := rot;
    }

    method SetScale(scl: Vec2)
      modifies this
      ensures GetScale() == scl
      ensures position == old(position) && rotation == old(rotation)
    {
      scale := scl;
    }

    function GetPosition(): Vec2
      reads this
    {
      position
    }

    function GetRotation(): Vec2
      reads this
    {
      rotation
    }

    function GetScale(): Vec2
      reads this
    {
      scale
    }
  }
}
