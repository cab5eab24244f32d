# PLAYTHINGACIDEngine racer core, in Dafny

This project models the gameplay core of the PLAYTHINGACIDEngine: a small C++
entity-component engine with a racer actor that follows a closed loop of waypoints.
The model covers:

- **The racer (`A_Racer`)**
  - Arrive-style steering, with its speed and force clamps, linear drag and mass divisor.
  - The waypoint state machine: the target index advances cyclically on arrival, and a wrap to waypoint 0 counts a lap.
  - Progress measures: the loop length, lap progress by projection onto the current segment, and total progress.
  - Grid spawning relative to a waypoint, for any integer waypoint index.
  - The tuning setters and their defaults.
- **2-D vector algebra (`CVector2`)**
  - The pure operators, as functions on the `Vec2` datatype.
  - The in-place operators, as methods of a `CVector2` class.
- **The `Transform` component**: position, rotation and scale as mutable state, with setters, getters and `seek`.
- **The component container (`Entity`, `Actor`)**
  - `addComponent` appends to the component list.
  - `getComponent<T>` is a first-match search by component type.
  - The named `Actor` constructor installs its name and a single shape.
- **The texture cache (`ResourceManager`)**
  - Load-if-absent, which always succeeds.
  - Lookup with a lazily created `"Default"` fallback entry.

Files and modules:

| file | module | contents |
|---|---|---|
| `wrappers.dfy` | `Wrappers` | `Option`, the "empty shared pointer" result |
| `vectors.dfy` | `Vectors` | `Vec2`, the vector algebra and its lemmas, class `CVector2` |
| `component_types.dfy` | `ComponentTypes` | the `ComponentType` enumeration |
| `transforms.dfy` | `Transforms` | class `Transform`, `SeekTarget` |
| `components.dfy` | `Components` | `Component` (one variant per component class), `Texture` |
| `entities.dfy` | `Entities` | first-match search, class `Entity` |
| `actors.dfy` | `Actors` | class `Actor` |
| `steering.dfy` | `Steering` | the racer's arithmetic as functions: the helpers, one steering `Step`, the progress sums, the spawn index and slot |
| `racers.dfy` | `Racers` | class `Racer`, whose methods are proved equal to the `Steering` functions |
| `resources.dfy` | `Resources` | the cache as a map function pair, class `ResourceManager` |
| `scenarios.dfy` | `Scenarios` | a 100 x 100 square track and other concrete cases |

Modelling choices:

- **Numbers.** The engine's 32-bit floats are modelled as exact reals, without rounding.
- **Square root.** `std::sqrt` cannot be defined in Dafny, so every operation that needs a
  magnitude takes it as a parameter `sqrt: real -> real`. `Vectors.IsSqrt(sqrt)` says that
  `sqrt` is the exact non-negative root; the facts about lengths are proved for every such `sqrt`.
- **Vector types.** The racer and the transform use SFML's `sf::Vector2f`, whose operators are
  the same componentwise operations as CVector2's, so both are modelled by `Vec2`.
- **Inheritance.** Inheritance becomes composition:
  - an `Actor` holds its `Entity` part as `base`;
  - a `Racer` holds its `Actor` part as `actor`;
  - a `Transform`, which is shared by reference, is a class, carried inside the `TransformComponent` variant.
- **Racer invariant.** `Racer.Valid()` says that the target index is a waypoint index whenever
  there are waypoints, that the lap count is non-negative, and that the mass is positive.
  The constructor establishes it. Every state-changing racer method and both progress queries
  require it, and the state-changing methods keep it. LoopLength does not need it.

## Model

| member | source | states |
|---|---|---|
| Vectors.AddSubCancel | PLAYTHINGACIDEngine/PLAYTHINGACIDEngine/src/Utilities/CVector2.cpp:8-21 | componentwise + and - undo each other: (a + b) - b == a and (a - b) + b == a |
| Vectors.DivScaleRoundTrip | PLAYTHINGACIDEngine/PLAYTHINGACIDEngine/src/Utilities/CVector2.cpp:22-36 | dividing by a non-zero s undoes scaling by s, and scaling undoes the division |
| Vectors.LengthSquaredScale | PLAYTHINGACIDEngine/PLAYTHINGACIDEngine/src/Utilities/CVector2.cpp:22-28 | scaling by c multiplies the squared length by c*c |
| Vectors.EqualIsEquality | PLAYTHINGACIDEngine/PLAYTHINGACIDEngine/src/Utilities/CVector2.cpp:65-72 | == holds exactly when both components agree, and != is its negation |
| Vectors.AtRoundTrip | PLAYTHINGACIDEngine/PLAYTHINGACIDEngine/src/Utilities/CVector2.cpp:75-82 | reading v[0] and v[1] rebuilds the vector, and every index other than 0 reads the same component as index 1 |
| Vectors.LengthFacts | PLAYTHINGACIDEngine/PLAYTHINGACIDEngine/src/Utilities/CVector2.cpp:86-89 | the length is non-negative, squares to lengthSquared, and is zero exactly for the zero vector |
| Vectors.LengthScale | PLAYTHINGACIDEngine/PLAYTHINGACIDEngine/src/Utilities/CVector2.cpp:22-28 | the length of v * c is abs(c) times the length of v |
| Vectors.LengthSquaredIsDot | PLAYTHINGACIDEngine/PLAYTHINGACIDEngine/src/Utilities/CVector2.cpp:90-97 | lengthSquared is dot(v, v), is non-negative, and is zero exactly for the zero vector |
| Vectors.DotSymmetric | PLAYTHINGACIDEngine/PLAYTHINGACIDEngine/src/Utilities/CVector2.cpp:94-97 | dot(a, b) == dot(b, a) |
| Vectors.CrossAntisymmetric | PLAYTHINGACIDEngine/PLAYTHINGACIDEngine/src/Utilities/CVector2.cpp:98-101 | cross(a, b) == -cross(b, a) and cross(a, a) == 0 |
| Vectors.NormalizedZero | PLAYTHINGACIDEngine/PLAYTHINGACIDEngine/src/Utilities/CVector2.cpp:102-111 | the zero vector normalizes to the zero vector, with no division |
| Vectors.NormalizedUnit | PLAYTHINGACIDEngine/PLAYTHINGACIDEngine/src/Utilities/CVector2.cpp:102-111 | a non-zero vector has positive length and normalizes to v * (1/length), a vector of squared length 1 |
| Vectors.DistanceFacts | PLAYTHINGACIDEngine/PLAYTHINGACIDEngine/src/Utilities/CVector2.cpp:122-125 | for an exact root the distance is non-negative and is zero exactly between equal vectors |
| Vectors.DistanceSymmetric | PLAYTHINGACIDEngine/PLAYTHINGACIDEngine/src/Utilities/CVector2.cpp:122-125 | distance(a, b) == distance(b, a) |
| Vectors.LerpEndpoints | PLAYTHINGACIDEngine/PLAYTHINGACIDEngine/src/Utilities/CVector2.cpp:127-130 | lerp(a, b, 0) == a and lerp(a, b, 1) == b |
| Vectors.ZeroIdentity | PLAYTHINGACIDEngine/PLAYTHINGACIDEngine/src/Utilities/CVector2.cpp:131-134 | zero() is the identity of + and -, any vector times 0 is zero(), and zero() has squared length 0 |
| Vectors.OneDiagonal | PLAYTHINGACIDEngine/PLAYTHINGACIDEngine/src/Utilities/CVector2.cpp:135-138 | one() times t is (t, t), and dot(v, one()) is the sum of v's components |
| Vectors.CVector2.constructor | PLAYTHINGACIDEngine/PLAYTHINGACIDEngine/src/Utilities/CVector2.cpp:4 | the default vector is (0, 0) |
| Vectors.CVector2.FromXY | PLAYTHINGACIDEngine/PLAYTHINGACIDEngine/src/Utilities/CVector2.cpp:5 | the vector holds the given components |
| Vectors.CVector2.AddAssign | PLAYTHINGACIDEngine/PLAYTHINGACIDEngine/src/Utilities/CVector2.cpp:39-44 | after += the receiver equals old value + other |
| Vectors.CVector2.SubAssign | PLAYTHINGACIDEngine/PLAYTHINGACIDEngine/src/Utilities/CVector2.cpp:45-50 | after -= the receiver equals old value - other |
| Vectors.CVector2.MulAssign | PLAYTHINGACIDEngine/PLAYTHINGACIDEngine/src/Utilities/CVector2.cpp:51-56 | after *= the receiver equals old value * s |
| Vectors.CVector2.DivAssign | PLAYTHINGACIDEngine/PLAYTHINGACIDEngine/src/Utilities/CVector2.cpp:57-62 | after /= the receiver equals old value / s |
| Vectors.CVector2.Normalize | PLAYTHINGACIDEngine/PLAYTHINGACIDEngine/src/Utilities/CVector2.cpp:112-119 | a zero-length vector is left unchanged, any other becomes normalized(old value); for an exact root the result is always normalized(old value) |
| Vectors.CVector2.SetAt | PLAYTHINGACIDEngine/PLAYTHINGACIDEngine/src/Utilities/CVector2.cpp:75-82 | writing v[i] sets x for i == 0 and y otherwise, leaving the other component |
| Components.TypeDeterminesClass | PLAYTHINGACIDEngine/PLAYTHINGACIDEngine/include/ECS/Component.h:10-19 | the TRANSFORM, SHAPE and TEXTURE tags each identify exactly one component class |
| Transforms.SeekTarget | PLAYTHINGACIDEngine/PLAYTHINGACIDEngine/include/ECS/Transform.h:59-62 | within range of the target the position is unchanged |
| Transforms.SeekStepsAlongUnitDirection | PLAYTHINGACIDEngine/PLAYTHINGACIDEngine/include/ECS/Transform.h:62-65 | beyond a non-negative range the displacement is speed*deltaTime times the unit vector towards the target, so its length is abs(speed*deltaTime) |
| Transforms.Transform.constructor | PLAYTHINGACIDEngine/PLAYTHINGACIDEngine/include/ECS/Transform.h:21-26 | a new Transform has position (0,0), rotation (0,0), scale (1,1) and type TRANSFORM |
| Transforms.Transform.Start | PLAYTHINGACIDEngine/PLAYTHINGACIDEngine/include/ECS/Transform.h:31-32 | changes nothing |
| Transforms.Transform.Update | PLAYTHINGACIDEngine/PLAYTHINGACIDEngine/include/ECS/Transform.h:38-39 | changes nothing |
| Transforms.Transform.Render | PLAYTHINGACIDEngine/PLAYTHINGACIDEngine/include/ECS/Transform.h:45-46 | changes nothing |
| Transforms.Transform.Destroy | PLAYTHINGACIDEngine/PLAYTHINGACIDEngine/include/ECS/Transform.h:51-52 | changes nothing |
| Transforms.Transform.Seek | PLAYTHINGACIDEngine/PLAYTHINGACIDEngine/include/ECS/Transform.h:54-66 | the new position is SeekTarget of the old one; rotation and scale are unchanged |
| Transforms.Transform.SetPosition | PLAYTHINGACIDEngine/PLAYTHINGACIDEngine/include/ECS/Transform.h:72-75 | getPosition() then returns the new value; rotation and scale are unchanged |
| Transforms.Transform.SetRotation | PLAYTHINGACIDEngine/PLAYTHINGACIDEngine/include/ECS/Transform.h:81-84 | getRotation() then returns the new value; position and scale are unchanged |
| Transforms.Transform.SetScale | PLAYTHINGACIDEngine/PLAYTHINGACIDEngine/include/ECS/Transform.h:90-93 | getScale() then returns the new value; position and rotation are unchanged |
| Entities.FindComponent | PLAYTHINGACIDEngine/PLAYTHINGACIDEngine/include/ECS/Entity.h:60-69 | the result is the earliest component of the requested type, or absent exactly when none has it |
| Entities.FirstMatchUnique | PLAYTHINGACIDEngine/PLAYTHINGACIDEngine/include/ECS/Entity.h:61-66 | the first-match description determines the result |
| Entities.FindInConcatenation | PLAYTHINGACIDEngine/PLAYTHINGACIDEngine/include/ECS/Entity.h:61-68 | searching cs + ds finds cs's match if it has one, else ds's |
| Entities.FindAfterAppend | PLAYTHINGACIDEngine/PLAYTHINGACIDEngine/include/ECS/Entity.h:49-69 | after appending c to a list with no component of c's type, that type finds c, and every type already found keeps its answer |
| Entities.Entity.constructor | PLAYTHINGACIDEngine/PLAYTHINGACIDEngine/include/ECS/Entity.h:74 | a new entity has no components |
| Entities.Entity.AddComponent | PLAYTHINGACIDEngine/PLAYTHINGACIDEngine/include/ECS/Entity.h:49-53 | the component is appended; earlier components and their order are kept |
| Entities.Entity.GetComponent | PLAYTHINGACIDEngine/PLAYTHINGACIDEngine/include/ECS/Entity.h:60-69 | the earliest component of the type, absent exactly when none matches; the function reads the list and cannot change it |
| Actors.Actor.Default | PLAYTHINGACIDEngine/PLAYTHINGACIDEngine/include/Actor.h:10 | a default Actor is named "Actor" and has no components, so every lookup is absent |
| Actors.Actor.constructor | PLAYTHINGACIDEngine/PLAYTHINGACIDEngine/src/ECS/Actor.cpp:3-13 | the Actor has the given name and exactly one component, a shape; a shape lookup finds it and a Transform lookup is absent |
| Actors.Actor.GetComponent | PLAYTHINGACIDEngine/PLAYTHINGACIDEngine/include/Actor.h:37-48 | the earliest component of the type in list order, or absent when none matches; read-only |
| Actors.Actor.Render | PLAYTHINGACIDEngine/PLAYTHINGACIDEngine/src/ECS/Actor.cpp:15-18 | changes neither the Actor nor its component list |
| Actors.NamedActorComponents | PLAYTHINGACIDEngine/PLAYTHINGACIDEngine/src/ECS/Actor.cpp:7-12 | in the list [shape], SHAPE finds the shape while TRANSFORM and TEXTURE find nothing |
| Steering.Normalize | PLAYTHINGACIDEngine/PLAYTHINGACIDEngine/src/ECS/A_Racer.cpp:6-8 | at most 1e-5 long gives the zero vector; longer gives CVector2-style normalized(v) |
| Steering.NormalizeUnit | PLAYTHINGACIDEngine/PLAYTHINGACIDEngine/src/ECS/A_Racer.cpp:6-8 | past the threshold the result has squared length 1 |
| Steering.ClampMag | PLAYTHINGACIDEngine/PLAYTHINGACIDEngine/src/ECS/A_Racer.cpp:9-11 | a vector no longer than max is returned unchanged |
| Steering.ClampMagBound | PLAYTHINGACIDEngine/PLAYTHINGACIDEngine/src/ECS/A_Racer.cpp:9-11 | for max >= 0 the result is at most max long, never longer than v, and exactly max long when v was longer |
| Steering.ClampMagNegativeBound | PLAYTHINGACIDEngine/PLAYTHINGACIDEngine/src/ECS/A_Racer.cpp:9-11 | for max < 0 a non-zero v is reversed and rescaled to length -max |
| Steering.Clamp | PLAYTHINGACIDEngine/PLAYTHINGACIDEngine/src/ECS/A_Racer.cpp:64 | std::clamp: the result lies in [lo, hi], is x inside it and the nearer bound outside it |
| Steering.DragFactor | PLAYTHINGACIDEngine/PLAYTHINGACIDEngine/src/ECS/A_Racer.cpp:64 | the drag factor lies in [0, 1] and is 1 - linearDrag*dt whenever that lies in [0, 1] |
| Steering.MassDivisor | PLAYTHINGACIDEngine/PLAYTHINGACIDEngine/src/ECS/A_Racer.cpp:60 | max(mass, 0.0001) is strictly positive, at least mass, and mass itself from 0.0001 on |
| Steering.DesiredSpeed | PLAYTHINGACIDEngine/PLAYTHINGACIDEngine/src/ECS/A_Racer.cpp:50-51 | outside the slow radius the desired speed is maxSpeed |
| Steering.DesiredSpeedBounds | PLAYTHINGACIDEngine/PLAYTHINGACIDEngine/src/ECS/A_Racer.cpp:50-51 | for a non-negative top speed the desired speed lies in [0, maxSpeed] |
| Steering.SteeredVelocity | PLAYTHINGACIDEngine/PLAYTHINGACIDEngine/src/ECS/A_Racer.cpp:53-68 | after a steering tick the velocity is at most maxSpeed long, for maxSpeed >= 0 |
| Steering.ArrivedOnTarget | PLAYTHINGACIDEngine/PLAYTHINGACIDEngine/src/ECS/A_Racer.cpp:39-43 | standing on the target means distance 0, so the racer arrives exactly when the arrive radius is positive |
| Steering.NextTarget | PLAYTHINGACIDEngine/PLAYTHINGACIDEngine/src/ECS/A_Racer.cpp:44 | the next target is a valid index, equals (c + 1) mod n, and has c as its previous waypoint |
| Steering.Advance | PLAYTHINGACIDEngine/PLAYTHINGACIDEngine/src/ECS/A_Racer.cpp:44-46 | arrival takes a target whose previous waypoint is the old one, counts a lap exactly when it leaves the last waypoint, and keeps position and velocity |
| Steering.Step | PLAYTHINGACIDEngine/PLAYTHINGACIDEngine/src/ECS/A_Racer.cpp:36-69 | a steering step keeps the target index within the waypoint list |
| Steering.StepOnArrival | PLAYTHINGACIDEngine/PLAYTHINGACIDEngine/src/ECS/A_Racer.cpp:43-47 | within arriveRadius the step is the Advance transition: the target becomes (currentWp + 1) mod n, and position and velocity are unchanged |
| Steering.StepEnRoute | PLAYTHINGACIDEngine/PLAYTHINGACIDEngine/src/ECS/A_Racer.cpp:50-69 | otherwise target and lap stay, the position advances by the new velocity times dt, and that velocity is at most maxSpeed long |
| Steering.StepCountsLaps | PLAYTHINGACIDEngine/PLAYTHINGACIDEngine/src/ECS/A_Racer.cpp:44-45 | the lap goes up by exactly one when the step wraps the target from the last waypoint to 0, and is unchanged otherwise |
| Steering.StepZeroDt | PLAYTHINGACIDEngine/PLAYTHINGACIDEngine/src/ECS/A_Racer.cpp:61-69 | a tick with dt == 0 does not move the racer |
| Steering.NoSlowdownInsideArriveRadius | PLAYTHINGACIDEngine/PLAYTHINGACIDEngine/src/ECS/A_Racer.cpp:43-51 | when slowRadius <= arriveRadius, a step that does not arrive aims for full speed |
| Steering.DefaultTuningNeverSlows | PLAYTHINGACIDEngine/PLAYTHINGACIDEngine/include/A_Racer.h:42-43 | the default slow radius 10 lies inside the default arrive radius 100, so from the arrive radius on the desired speed is maxSpeed |
| Steering.ClosedSumIsOpenSum | PLAYTHINGACIDEngine/PLAYTHINGACIDEngine/src/ECS/A_Racer.cpp:76-80 | before the wrap segment the closed-loop sum equals the open-polyline sum |
| Steering.LoopIsOpenPathPlusWrap | PLAYTHINGACIDEngine/PLAYTHINGACIDEngine/src/ECS/A_Racer.cpp:73-82 | the loop length is the open polyline plus the segment from the last waypoint back to the first |
| Steering.OpenSumMonotone | PLAYTHINGACIDEngine/PLAYTHINGACIDEngine/src/ECS/A_Racer.cpp:89-90 | the partial sums of segment lengths are non-negative and non-decreasing |
| Steering.LoopLengthNonNegative | PLAYTHINGACIDEngine/PLAYTHINGACIDEngine/src/ECS/A_Racer.cpp:73-82 | the loop length is never negative |
| Steering.PrevIndex | PLAYTHINGACIDEngine/PLAYTHINGACIDEngine/src/ECS/A_Racer.cpp:86 | the previous waypoint is a valid index whose cyclic successor is currentWp |
| Steering.ProjectionParam | PLAYTHINGACIDEngine/PLAYTHINGACIDEngine/src/ECS/A_Racer.cpp:96-99 | t lies in [0, 1], is 0 for a zero-length segment, is the raw projection dot(AP, AB)/abs(AB)^2 whenever that lies in [0, 1], and is 0 below and 1 above that range |
| Steering.PartialSegment | PLAYTHINGACIDEngine/PLAYTHINGACIDEngine/src/ECS/A_Racer.cpp:101 | a fraction t in [0, 1] of a segment is at most the whole segment |
| Steering.LapProgressBounds | PLAYTHINGACIDEngine/PLAYTHINGACIDEngine/src/ECS/A_Racer.cpp:84-103 | lap progress lies between 0 and the loop length |
| Steering.ProgressBounds | PLAYTHINGACIDEngine/PLAYTHINGACIDEngine/src/ECS/A_Racer.cpp:105-107 | for lap >= 0 the total progress lies between lap and lap + 1 loop lengths |
| Steering.ParamAtStart | PLAYTHINGACIDEngine/PLAYTHINGACIDEngine/src/ECS/A_Racer.cpp:94-99 | the projection of A onto the segment A-B is at fraction 0 |
| Steering.ParamAtEnd | PLAYTHINGACIDEngine/PLAYTHINGACIDEngine/src/ECS/A_Racer.cpp:94-99 | the projection of B onto the segment A-B is at fraction 1, unless the segment has zero length |
| Steering.SegmentEnds | PLAYTHINGACIDEngine/PLAYTHINGACIDEngine/src/ECS/A_Racer.cpp:96-101 | the covered part of the current segment is 0 at its start A and the whole segment at its end B |
| Steering.LapProgressAtTarget | PLAYTHINGACIDEngine/PLAYTHINGACIDEngine/src/ECS/A_Racer.cpp:84-103 | on target waypoint c the lap progress is the open path up to c, or the whole loop when c is 0 |
| Steering.LapProgressAtStart | PLAYTHINGACIDEngine/PLAYTHINGACIDEngine/src/ECS/A_Racer.cpp:84-103 | on the waypoint before the target the lap progress is the open path up to that waypoint |
| Steering.ProgressNextLap | PLAYTHINGACIDEngine/PLAYTHINGACIDEngine/src/ECS/A_Racer.cpp:105-107 | one more lap adds exactly one loop length to the progress, wherever the racer is |
| Steering.WrapArrivalAddsLoop | PLAYTHINGACIDEngine/PLAYTHINGACIDEngine/src/ECS/A_Racer.cpp:44-45 | as written, arriving on the last waypoint wraps the target to 0 and counts a lap, and the progress gains a whole loop length without the racer moving |
| Steering.FirstArrivalDropsLoop | PLAYTHINGACIDEngine/PLAYTHINGACIDEngine/src/ECS/A_Racer.cpp:44-45 | as written, the next arrival, on waypoint 0, takes target 1 without counting a lap, and the progress loses a whole loop length |
| Steering.MidArrivalKeepsProgress | PLAYTHINGACIDEngine/PLAYTHINGACIDEngine/src/ECS/A_Racer.cpp:44 | arriving on any other waypoint leaves the progress where it was |
| Steering.AdvanceShiftsProgress | PLAYTHINGACIDEngine/PLAYTHINGACIDEngine/src/ECS/A_Racer.cpp:44-45 | as written, an arrival on the target moves the progress by +L at the last waypoint, by -L at waypoint 0 and by 0 elsewhere, L being the loop length |
| Steering.ProgressOvercountsClosingSegment | PLAYTHINGACIDEngine/PLAYTHINGACIDEngine/src/ECS/A_Racer.cpp:105-107 | the progress as written exceeds the continuous progress by one loop length exactly while the target is waypoint 0 |
| Steering.AdvanceKeepsContinuousProgress | PLAYTHINGACIDEngine/PLAYTHINGACIDEngine/src/ECS/A_Racer.cpp:44-45 | the continuous progress is unchanged by every arrival on the target, the wrap included |
| Steering.ContinuousProgressAtStart | PLAYTHINGACIDEngine/PLAYTHINGACIDEngine/src/ECS/A_Racer.cpp:17-25 | a racer on waypoint 0 with target 0 and lap 0, as setWaypoints leaves it, has continuous progress 0, while the progress as written is a whole loop |
| Steering.SegmentPartMonotone | PLAYTHINGACIDEngine/PLAYTHINGACIDEngine/src/ECS/A_Racer.cpp:101 | the covered length of a segment, the length of AB scaled by t, does not decrease as t grows from 0 |
| Steering.LapProgressMonotone | PLAYTHINGACIDEngine/PLAYTHINGACIDEngine/src/ECS/A_Racer.cpp:84-103 | for a fixed target, a position whose clamped projection onto the current segment is at least another's has at least the other's lap progress |
| Steering.ProgressMonotoneInSegment | PLAYTHINGACIDEngine/PLAYTHINGACIDEngine/src/ECS/A_Racer.cpp:105-107 | for a fixed target and lap count, both the progress as written and the continuous progress grow with the projection onto the current segment |
| Steering.ContinuousProgressNonNegative | PLAYTHINGACIDEngine/PLAYTHINGACIDEngine/src/ECS/A_Racer.cpp:44-45 | the continuous progress is never negative once the completed-lap count (lap, or lap - 1 while the target is waypoint 0) is at least 0 |
| Steering.ContinuousProgressBeforeStart | PLAYTHINGACIDEngine/PLAYTHINGACIDEngine/src/ECS/A_Racer.cpp:110-120 | a racer with lap 0, target 0 and standing on the last waypoint, as a spawn behind waypoint 0 leaves it, has continuous progress equal to minus the closing segment's length |
| Steering.CppRem | PLAYTHINGACIDEngine/PLAYTHINGACIDEngine/src/ECS/A_Racer.cpp:113 | C++ int % by a positive n lies strictly between -n and n, and agrees with mod for a non-negative dividend |
| Steering.ShiftedRemIsMod | PLAYTHINGACIDEngine/PLAYTHINGACIDEngine/src/ECS/A_Racer.cpp:113 | (w % n + n) % n in C++ arithmetic is the mathematical w mod n, negative w included |
| Steering.SpawnIndex | PLAYTHINGACIDEngine/PLAYTHINGACIDEngine/src/ECS/A_Racer.cpp:113 | the spawn waypoint index lies in [0, n) and is w mod n |
| Steering.SpawnSlotFrame | PLAYTHINGACIDEngine/PLAYTHINGACIDEngine/src/ECS/A_Racer.cpp:114-118 | in the frame of unit direction dir and its perpendicular, the slot lies back behind A along dir and lateral along the perpendicular |
| Racers.ClampedMass | PLAYTHINGACIDEngine/PLAYTHINGACIDEngine/include/A_Racer.h:18 | the stored mass is m when positive, 1 otherwise, and always positive |
| Racers.Racer.TransformOf | PLAYTHINGACIDEngine/PLAYTHINGACIDEngine/src/ECS/A_Racer.cpp:33 | the racer's Transform is the Actor's first TRANSFORM component, absent exactly when none is attached |
| Racers.Racer.constructor | PLAYTHINGACIDEngine/PLAYTHINGACIDEngine/src/ECS/A_Racer.cpp:13-15 | a new racer is an Actor with the given name and one shape and no Transform; it has no waypoints, target 0, lap 0, place initPlace (not -1), zero velocity and tuning (300, 600, 1, 10, 100, 0.12) |
| Racers.Racer.SetWaypoints | PLAYTHINGACIDEngine/PLAYTHINGACIDEngine/src/ECS/A_Racer.cpp:17-25 | the path is replaced; a non-empty path also resets target and velocity and moves an attached Transform to the first waypoint; nothing else changes |
| Racers.Racer.Update | PLAYTHINGACIDEngine/PLAYTHINGACIDEngine/src/ECS/A_Racer.cpp:27-30 | with fewer than two waypoints nothing changes; otherwise the racer's motion becomes Step of the old one (nothing changes without a Transform) |
| Racers.Racer.SteerPhysics | PLAYTHINGACIDEngine/PLAYTHINGACIDEngine/src/ECS/A_Racer.cpp:32-70 | without a Transform no racer state changes; with one, position, velocity, target and lap become Step of the old ones, and the Transform's rotation and scale are kept |
| Racers.Racer.LoopLength | PLAYTHINGACIDEngine/PLAYTHINGACIDEngine/src/ECS/A_Racer.cpp:73-82 | the loop computes the closed-loop perimeter (0 for fewer than two waypoints), which is non-negative |
| Racers.Racer.LapProgressMeters | PLAYTHINGACIDEngine/PLAYTHINGACIDEngine/src/ECS/A_Racer.cpp:84-103 | the loop computes LapProgressOf at the Transform's position, which lies between 0 and the loop length |
| Racers.Racer.GetProgressMeters | PLAYTHINGACIDEngine/PLAYTHINGACIDEngine/src/ECS/A_Racer.cpp:105-107 | the result is lap * loop length + lap progress, as ProgressOf defines it, and for an exact root it lies between lap and lap + 1 loop lengths |
| Racers.Racer.SpawnRelative | PLAYTHINGACIDEngine/PLAYTHINGACIDEngine/src/ECS/A_Racer.cpp:110-120 | no effect with fewer than two waypoints; otherwise the target becomes (wpIndex mod n + 1) mod n, an attached Transform moves to the spawn slot, and nothing else changes |
| Racers.Racer.SetSpeed | PLAYTHINGACIDEngine/PLAYTHINGACIDEngine/include/A_Racer.h:13 | only maxSpeed changes, exactly as with SetMaxSpeed |
| Racers.Racer.SetMaxSpeed | PLAYTHINGACIDEngine/PLAYTHINGACIDEngine/include/A_Racer.h:16 | only maxSpeed changes |
| Racers.Racer.SetMaxForce | PLAYTHINGACIDEngine/PLAYTHINGACIDEngine/include/A_Racer.h:17 | only maxForce changes |
| Racers.Racer.SetMass | PLAYTHINGACIDEngine/PLAYTHINGACIDEngine/include/A_Racer.h:18 | only the mass changes, to ClampedMass(m), so it stays positive |
| Racers.Racer.SetArrive | PLAYTHINGACIDEngine/PLAYTHINGACIDEngine/include/A_Racer.h:19 | only slowRadius and arriveRadius change, to the given values |
| Racers.Racer.SetLinearDrag | PLAYTHINGACIDEngine/PLAYTHINGACIDEngine/include/A_Racer.h:20 | only linearDrag changes |
| Racers.Racer.SetPlace | PLAYTHINGACIDEngine/PLAYTHINGACIDEngine/include/A_Racer.h:27-28 | only the place changes, and getPlace() then returns p |
| Resources.AfterLoad | PLAYTHINGACIDEngine/PLAYTHINGACIDEngine/src/ResourceManager.cpp:3-15 | after loading, the name is in the cache |
| Resources.LoadAddsOnlyTheName | PLAYTHINGACIDEngine/PLAYTHINGACIDEngine/src/ResourceManager.cpp:7-14 | loading adds exactly the loaded name and keeps every existing entry; a present name leaves the map unchanged; a new name maps to (name, extension) |
| Resources.LoadIdempotent | PLAYTHINGACIDEngine/PLAYTHINGACIDEngine/src/ResourceManager.cpp:7-9 | loading a name twice, with any extensions, is loading it once |
| Resources.LookupTexture | PLAYTHINGACIDEngine/PLAYTHINGACIDEngine/src/ResourceManager.cpp:17-42 | afterwards the cache holds the name or "Default", and the result is the name's entry when present, else the "Default" entry |
| Resources.LookupPresent | PLAYTHINGACIDEngine/PLAYTHINGACIDEngine/src/ResourceManager.cpp:21-24 | a present name returns its entry and leaves the map unchanged |
| Resources.LookupMissing | PLAYTHINGACIDEngine/PLAYTHINGACIDEngine/src/ResourceManager.cpp:29-41 | a missing name returns the existing "Default" entry, or inserts and returns ("Default", "png") when there is none |
| Resources.LookupOnlyGrows | PLAYTHINGACIDEngine/PLAYTHINGACIDEngine/src/ResourceManager.cpp:17-42 | a lookup never drops or overwrites an entry and adds at most the "Default" key |
| Resources.LookupIdempotent | PLAYTHINGACIDEngine/PLAYTHINGACIDEngine/src/ResourceManager.cpp:17-42 | repeating a lookup returns the same texture and leaves the cache as it is |
| Resources.ResourceManager.constructor | PLAYTHINGACIDEngine/PLAYTHINGACIDEngine/include/ResourceManager.h:27 | a new cache is empty |
| Resources.ResourceManager.LoadTexture | PLAYTHINGACIDEngine/PLAYTHINGACIDEngine/src/ResourceManager.cpp:3-15 | always returns true, and the map becomes AfterLoad of the old one |
| Resources.ResourceManager.GetTexture | PLAYTHINGACIDEngine/PLAYTHINGACIDEngine/src/ResourceManager.cpp:17-42 | the returned texture and the new map are LookupTexture of the old map |
| Scenarios.SquarePerimeter | PLAYTHINGACIDEngine/PLAYTHINGACIDEngine/src/ECS/A_Racer.cpp:73-82 | the 100 x 100 square loop is 400 long, closing side included |
| Scenarios.FirstSideDirection | PLAYTHINGACIDEngine/PLAYTHINGACIDEngine/src/ECS/A_Racer.cpp:6-8 | the square's first side normalizes to (1, 0) |
| Scenarios.NegativeSpawnIndex | PLAYTHINGACIDEngine/PLAYTHINGACIDEngine/src/ECS/A_Racer.cpp:113 | on four waypoints, index -1 spawns on waypoint 3 aiming at 0, and -6 spawns on 2 |
| Scenarios.NegativeClampLengthens | PLAYTHINGACIDEngine/PLAYTHINGACIDEngine/src/ECS/A_Racer.cpp:9-11 | with bound -5, clampMag turns a unit vector into one of length 5 |

## Findings

| source | as written | input that shows it | evidently intended | confidence | as-written member | corrected member |
|---|---|---|---|---|---|---|
| PLAYTHINGACIDEngine/PLAYTHINGACIDEngine/src/ECS/A_Racer.cpp:44-45 | the arrival that wraps the target to 0 increments `lap` at once, while `lapProgressMeters` already counts the closing segment into the current lap; `getProgressMeters` then jumps up one loop length at that arrival and back down at the next one, at waypoint 0 | any loop of n >= 2 waypoints with a positive loop length L: a racer standing on waypoint n-1 with target n-1 goes from lap*L + (L - last segment) to (lap+1)*L + (L - last segment); a racer on waypoint 0 just after it goes from (lap+1)*L + L to (lap+1)*L + 0; a racer fresh from setWaypoints reports L | the progress is continuous across arrivals: a lap is counted only where its closing segment ends, so a fresh racer reports 0; the price is that before the first lap's closing segment is driven the corrected progress is negative (a racer spawned behind waypoint 0 reports minus the closing segment's length) | not executed | Steering.AdvanceShiftsProgress | Steering.AdvanceKeepsContinuousProgress |

## Left out

- Floating point: 32-bit rounding, overflow to infinity and NaN are not modelled; values are exact reals.
- Square root: `std::sqrt` is a parameter. Magnitude facts hold for an exact root (`IsSqrt`). No approximate root is modelled.
- The two zero thresholds (1e-5 in the racer's normalize, exact 0 in CVector2's) are kept as written. Only their qualitative consequences are proved; no numeric convergence or trajectory property is.
- Vectors.Div: division by a zero scalar, an infinity or NaN in the engine, is excluded by a precondition. So is `/=` by zero in Vectors.CVector2.DivAssign.
- Transforms.Transform.Seek: with a negative range and the target exactly at the position, the engine divides by a zero length. A precondition excludes that one case.
- Transforms.SeekStepsAlongUnitDirection: the unit-direction description is proved for a non-negative range; a negative range with a distinct target behaves the same but is not stated.
- Racers.Racer.LapProgressMeters: the engine dereferences the Transform without a check when there are at least two waypoints. The model requires a Transform there; the crash is not modelled. The same precondition is on Racers.Racer.GetProgressMeters.
- Steering.ClampMagBound: "never longer than v" is stated for max >= 0 only. A negative bound, which the setters accept, reverses v and can lengthen it (Steering.ClampMagNegativeBound, Scenarios.NegativeClampLengthens).
- Steering.SteeredVelocity: the speed bound is stated for maxSpeed >= 0 only, for the same reason.
- Negative dt: the code does not guard it, so a negative dt integrates backwards. The model follows the code. A zero dt moves nothing (Steering.StepZeroDt).
- Racers.Racer.Valid: the invariant (target index within the path, non-negative lap, positive mass) is required and kept by every state-changing racer method and required by both progress queries; LoopLength does not need it. The constructor establishes it and no public operation breaks it.
- Steering.AdvanceKeepsContinuousProgress: continuity is proved for an arrival exactly on the target waypoint. An arrival anywhere else within arriveRadius also changes the lap progress by the difference of the two projections; that difference is not bounded here.
- Steering.ContinuousProgressOf: the corrected progress is not non-negative in every reachable state. With lap 0 and target 0 it is negative on the closing segment, for instance right after a spawn behind waypoint 0 (spawnRelative with index -1), as Steering.ContinuousProgressBeforeStart shows; it is non-negative only once the completed-lap count is at least 0 (Steering.ContinuousProgressNonNegative).
- Int width: `lap`, `place` and waypoint indices are unbounded integers; 32-bit overflow of the lap counter is not modelled.
- Access control: Actor inherits Entity privately, so outside code cannot call addComponent, and no racer can get a Transform as written. The model has no access control and lets a Transform be attached through Entities.Entity.AddComponent, so that the steering and progress paths are reachable.
- Actor::start, Actor::update and Actor::destroy are declared but not defined in the modelled files. The call to Actor::update inside the racer's update is treated as changing nothing the model holds.
- The pure virtual methods of Entity, and its `isActive` and `id` fields, which no modelled code reads, are not modelled.
- Smart pointers and `dynamic_pointer_cast`: components are tagged values, and a Transform is an object held by reference. The shape is a tag with no state: CShape is not part of this model, and the fact that it does not derive from Component is ignored.
- Texture loading from disk and the texture image data: a texture is a (name, extension) record. The console message for a missing texture is not modelled.
- The ResourceManager singleton (its function-static instance and deleted copies) is replaced by an explicitly constructed object.
- The transform-style methods declared in CVector2.h have no definitions in the modelled files and are not modelled.
- Leaderboard ranking, which no modelled code performs, and the window, GUI and application loop are not modelled.
