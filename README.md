# RepRapSim motor, array swap and tether-target model

RepRapSim is a Unity simulation of a RepRap 3D printer. Its planner,
stepper interrupt and G-code dispatch are empty stubs in the repository. So
this model covers the three pieces of its logic that actually do something:

- **Motor** (`motor.dfy`, module `Motors`): a stepper motor with its built-in
  driver. It has a signed microstep `position` and a `direction_bit` whose
  setter selects the step increment (+1 when clear, -1 when set).
  `microstep()` adds that increment to the position. The model also covers
  the derived microsteps per revolution, the integer residue behind
  `fraction` (the position wrapped into one revolution), and the two
  distance conversions. The source's `int` fields are C# 32-bit integers, so
  they are the newtype `Int32`. Every stored arithmetic result is wrapped
  explicitly by `Wrap32`, which is C#'s unchecked overflow. The conversions
  work on reals. A zero divisor gives `None`, where floating point would give
  an infinity or NaN.
- **SwapExtension** (`swap_extension.dfy`): the array extension method
  `Swap(v, i = 0)`. It exchanges `v[i]` and `v[i + 1]` in place when
  `0 <= i <= v.Length - 2` and does nothing otherwise. It is specified by the
  sequence function `Swapped`.
- **StretchyTarget** (`stretchy_target.dfy`, module `StretchyTargets`): the
  fields and flags of a tether target. These are `isFree`, the local and
  world offsets, and the `useLocalOffset` and `useWorldOffset` flags, with
  the property setters and helper methods that change them. Vectors are
  integer triples compared exactly against `Zero`. `FlagsMatchOffsets` is
  the relation the two offset setters maintain: each flag is set exactly
  when its offset is non-zero. The methods' contracts say which operations
  establish it, which preserve it and which can break it. A freshly
  constructed target does not satisfy it, because `useLocalOffset` starts
  out true while the local offset is zero.

The source's `steps_per_mm(mm_per_revolution)` divides millimetres per
revolution by full steps per revolution. Despite its name, it returns
millimetres per full step, and `microsteps_per_mm` returns millimetres per
microstep. The model keeps the source's names and computes what the code
computes.

## Model

| member | source | states |
|---|---|---|
| `Motors.Wrap32` | Assets/Scripts/Motor.cs:99 | the stored result is congruent to the exact one modulo 2^32, and equals it when it fits in 32 bits |
| `Motors.StepIncrement` | Assets/Scripts/Motor.cs:70 | the step increment is +1 or -1, and it is negative exactly when the direction bit is set |
| `Motors.Microsteps` | Assets/Scripts/Motor.cs:99 | n microsteps in an unchanged direction move the position by n times the increment, modulo 2^32, and exactly so when no overflow occurs |
| `Motors.StepThenStepBack` | Assets/Scripts/Motor.cs:68-71 | a microstep, a flip of the direction bit and another microstep restore the original position, even across the 32-bit wrap |
| `Motors.StepFrom` | Assets/Scripts/Motor.cs:99 | one microstep changes the position by exactly the increment, except at the ends of the `int` range, where it wraps to the other end |
| `Motors.FloorDiv` | Assets/Scripts/Motor.cs:49 | the quotient is the floor of a / b for either sign of b |
| `Motors.Residue` | Assets/Scripts/Motor.cs:46-53 | no value for a zero revolution; otherwise congruent to the position modulo the revolution; in [0, revolution) for a positive revolution; for a negative one, 0 or strictly between twice the revolution and the revolution |
| `Motors.ResidueIsRemainder` | Assets/Scripts/Motor.cs:48-50 | for a positive revolution the residue is the Euclidean remainder of the position, negative positions included |
| `Motors.ResiduePeriodic` | Assets/Scripts/Motor.cs:46-53 | for any non-zero revolution, positive or negative, positions that differ by a whole number of revolutions have the same residue |
| `Motors.DistancePerStep` | Assets/Scripts/Motor.cs:76-77 | no value for zero steps; otherwise the result times the step count is the distance per revolution |
| `Motors.MicrostepDistanceScales` | Assets/Scripts/Motor.cs:76-77 | with non-zero constants whose product fits in an `int`, the microstep distance times the microstep count equals the full-step distance |
| `Motors.MotorMicrostepDistanceScales` | Assets/Scripts/Motor.cs:76-77 | on a motor object with non-zero constants whose product fits in an `int`, `MicrostepsPerMm` times the microstep count equals `StepsPerMm` |
| `Motors.Motor.constructor` | Assets/Scripts/Motor.cs:44-67 | a new motor has position 0, a clear direction bit, increment +1, 200 full steps and 16 microsteps, hence 3200 microsteps per revolution |
| `Motors.Motor.MicrostepsPerRevolution` | Assets/Scripts/Motor.cs:64 | microsteps per revolution is full steps times microsteps modulo 2^32, and exactly that product when it fits |
| `Motors.Motor.FractionResidue` | Assets/Scripts/Motor.cs:46-53 | the motor's residue exists exactly when the revolution is non-zero; for a positive revolution it lies in [0, revolution) and is congruent to the position |
| `Motors.Motor.StepsPerMm` | Assets/Scripts/Motor.cs:76 | undefined for zero full steps; otherwise the result times the full steps is the distance per revolution |
| `Motors.Motor.MicrostepsPerMm` | Assets/Scripts/Motor.cs:77 | undefined for zero microsteps per revolution; otherwise the result times microsteps per revolution is the distance per revolution |
| `Motors.Motor.SetDirectionBit` | Assets/Scripts/Motor.cs:68-71 | the getter then returns the assigned bit, the increment is -1 for a set bit and +1 for a clear one, and nothing else changes |
| `Motors.Motor.Microstep` | Assets/Scripts/Motor.cs:99 | only the position changes, and it becomes the old position plus the increment, wrapped to 32 bits |
| `Motors.StepAndStepBack` | Assets/Scripts/Motor.cs:99 | on a motor object, microstep, flip the direction, microstep: the position is as before and the direction bit is flipped |
| `SwapExtension.Swapped` | Assets/Scripts/Libs/SwapExtension.cs:10-17 | same length and same multiset; in range, elements i and i + 1 are exchanged; every other index, and every index when out of range, keeps its element |
| `SwapExtension.SwappedInvolution` | Assets/Scripts/Libs/SwapExtension.cs:11-16 | swapping twice at the same index restores the sequence |
| `SwapExtension.SwappedOutOfRange` | Assets/Scripts/Libs/SwapExtension.cs:11 | a negative index or one past `Length - 2` leaves the sequence unchanged, which covers every sequence of length 0 or 1 |
| `SwapExtension.SwappedDefault` | Assets/Scripts/Libs/SwapExtension.cs:10 | with the default index 0 and at least two elements, the first two change places and the rest stay |
| `SwapExtension.Swap` | Assets/Scripts/Libs/SwapExtension.cs:10-18 | the array becomes `Swapped` of its old contents: elements i and i + 1 exchanged when in range, every other index unchanged, the whole array unchanged when out of range, and the multiset preserved |
| `StretchyTargets.StretchyTarget.constructor` | Assets/Scripts/Libs/StretchyTarget.cs:18-35 | a new target is free, both offsets are zero, the local offset is in use and the world offset is not, so the flags do not match the offsets |
| `StretchyTargets.StretchyTarget.SetIsFree` | Assets/Scripts/Libs/StretchyTarget.cs:20-23 | the getter then returns the assigned value and nothing else changes |
| `StretchyTargets.StretchyTarget.SetLocalOffset` | Assets/Scripts/Libs/StretchyTarget.cs:39-45 | stores the offset, sets `useLocalOffset` exactly when it is non-zero, leaves the world fields alone, and preserves matching flags |
| `StretchyTargets.StretchyTarget.SetWorldOffset` | Assets/Scripts/Libs/StretchyTarget.cs:49-55 | stores the offset, sets `useWorldOffset` exactly when it is non-zero, leaves the local fields alone, and preserves matching flags |
| `StretchyTargets.StretchyTarget.SetOffsets` | Assets/Scripts/Libs/StretchyTarget.cs:89-92 | stores both offsets, sets each flag exactly when its offset is non-zero, and so always leaves the flags matching |
| `StretchyTargets.StretchyTarget.SetWorldOffsetOnly` | Assets/Scripts/Libs/StretchyTarget.cs:95-98 | stores the world offset with its flag, clears `useLocalOffset` and keeps the local offset; flags then match exactly when the local offset is zero |
| `StretchyTargets.StretchyTarget.SetLocalOffsetOnly` | Assets/Scripts/Libs/StretchyTarget.cs:101-104 | stores the local offset with its flag, clears `useWorldOffset` and keeps the world offset; flags then match exactly when the world offset is zero |
| `StretchyTargets.StretchyTarget.UseWorldOffsetOnly` | Assets/Scripts/Libs/StretchyTarget.cs:107-110 | the flags become world on, local off, and neither offset changes |
| `StretchyTargets.StretchyTarget.UseLocalOffsetOnly` | Assets/Scripts/Libs/StretchyTarget.cs:113-116 | the flags become local on, world off, and neither offset changes |
| `StretchyTargets.StretchyTarget.ClearOffsets` | Assets/Scripts/Libs/StretchyTarget.cs:119 | both offsets become zero, both flags are cleared, and `isFree` is untouched |

## Left out

- Planner, block buffer, stepper executor and G-code dispatch (`Planner.cs`, `Stepper.cs`, `Parser.cs`): `add_move`, the stepper ISR and the command handlers have empty bodies, so there is no lookahead, trapezoid or Bresenham behaviour to model.
- Motor `fraction`, `angle` and `radians` as floating-point values: only the integer residue that `fraction` divides by the revolution is modelled. The conversion of `position` to `float` is taken as exact, though it loses precision above 2^24.
- Motors.Motor.StepsPerMm: computed over exact reals rather than IEEE single precision. Division by zero gives `None` instead of an infinity or NaN.
- Motors.Motor.MicrostepsPerMm: computed over exact reals rather than IEEE single precision, in the same way.
- Motor's empty Unity callbacks (`Awake`, `Start`, `FixedUpdate`, `Update`). The model does not check the `redundant_motor` flag's intended meaning either, since no code reads it.
- Direct assignment of `position` (re-homing): the position is a public field in both the source and the model, so the model has no separate operation for it.
- `SwapExtension.Swap` on a null array: C# would throw, but Dafny arrays are never null.
- StretchyTarget's Transform-based members (`position`, `worldTetherPoint`, `WorldOffsetToPoint`, `LocalOffsetToPoint`, the two distance functions, `Awake`): these are floating-point scene-graph geometry.
- StretchyTarget's `defaultMargin`: a float field that StretchyTethered reads when it resets its target margins. StretchyTarget itself has no logic for it, and it is not part of the offset and flag state.
- Unity's approximate `Vector3 ==`: vectors are integer triples compared exactly against `Zero`.
- Heater, extruder, belt, stretchy-tether geometry, UI and editor build scripts: thermal simulation, float flow accumulation, Transform maths and user interface, outside the core.
