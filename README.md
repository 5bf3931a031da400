# Compass heading arithmetic

A model of the heading logic of a mobile compass screen (`App.js`). Every
magnetometer sample yields an angle in degrees. The listener subtracts 90
degrees so that North reads 0. It shows the heading normalised to
[0, 360) as text. It then advances an unbounded accumulated rotation, which
drives the rotating compass plate, by the shortest step towards the new
angle. A lookup names the nearest of the eight compass points
`N, NE, E, SE, S, SO, O, NO` (the labels are Spanish).

Two modules:

- `JsMath` (`jsmath.dfy`) models the JavaScript number operations involved on exact reals. `Rem` is `%`: the remainder of the quotient truncated toward zero, so it has the sign of the dividend. `Round` is `Math.round`: halves round toward positive infinity.
- `Compass` (`compass.dfy`) holds the heading arithmetic. `DisplayHeading` is the normalisation `(angle % 360 + 360) % 360`. `ShortestStep` and `Unwrap` are closed-form reference definitions of the shortest-path unwrap. The class `HeadingState` holds the screen's heading state: `displayHeading` and `lastHeading` (the accumulated rotation `lastHeadingRef.current`). Its method `OnMagnetometerSample` runs the listener's two `while` loops and is proved equal to `Unwrap`. `CardinalDirection` is `getCardinalDirection`; it returns `None` where JavaScript's array read gives `undefined`.

"Same direction" (`SameDirection`) means the two angles differ by a whole number of turns.

The sensor angle (`Math.atan2(y, x)` in degrees) is an input to the model: `OnMagnetometerSample(raw)` takes it as its parameter.

Behaviour of `App.js` worth noting:

- After the two loops the step lies in the closed range [-180, 180]; a difference of exactly -180 is kept (`UnwrapHalfTurnExample`).
- The labels are Spanish: `SO, O, NO`.
- A heading of 44 is labelled `NE`, since `Math.round(44 / 45)` is 1. The North sector is [337.5, 360) together with [0, 22.5) (`CardinalDirectionSector`).
- Non-finite samples are not rejected; exact reals have no NaN.

## Model

| member | source | states |
|---|---|---|
| `JsMath.Trunc` | App.js:99 | The quotient behind `%` is truncated toward zero: for x >= 0 it lies in (x - 1, x], for x < 0 in [x, x + 1), and it is never further from 0 than x. |
| `JsMath.Rem` | App.js:99 | JavaScript's `%`: the remainder of the quotient truncated toward zero. It has no contract of its own; its bounds for the divisors App.js uses are stated in `RemTurn` (360) and `CardinalDirectionSector` (8, at App.js:187). |
| `JsMath.Round` | App.js:187 | `Math.round(x)` is the integer n with x - 1/2 < n <= x + 1/2, so a half rounds upward. |
| `Compass.RemTurn` | App.js:99 | `a % 360` lies in [0, 360) for a >= 0 and in (-360, 0] for a <= 0, and points the same way as a. |
| `Compass.Corrected` | App.js:93 | The axis correction `angle - 90`. It has no contract of its own; it is fixed by `AxisCorrectionExample` and by the ensures of `OnMagnetometerSample`, which apply it to the sensor angle. |
| `Compass.DisplayHeading` | App.js:99 | The displayed heading lies in [0, 360) and points the same way as the corrected angle, negative angles included. |
| `Compass.DisplayHeadingIsFlooredModulo` | App.js:99 | The displayed heading equals the floored modulo angle - 360 * floor(angle / 360). |
| `Compass.DisplayHeadingOfSameDirection` | App.js:99 | Angles that point the same way get the same displayed heading. |
| `Compass.DisplayHeadingIdempotent` | App.js:99 | A heading already in [0, 360) is shown unchanged, so normalising twice gives what normalising once gives. |
| `Compass.ShortestStep` | App.js:123-125 | The reference step lies in [-180, 180] and points the same way as the difference. It is 180 only for a positive difference and -180 only for a negative one. |
| `Compass.ShortestStepUnique` | App.js:123-125 | Exactly one step meets that description, so the loops and the closed form agree. |
| `Compass.ShortestStepOfWholeTurns` | App.js:115-125 | A difference of whole turns gives a step of 0. |
| `Compass.Unwrap` | App.js:109-131 | The new target is at most 180 from the previous accumulated rotation and points the same way as the sample. |
| `Compass.UnwrapIsShortestPath` | App.js:109-131 | No rotation pointing the same way as the sample is closer to the previous accumulated rotation than the new target. |
| `Compass.UnwrapRepeatIsStable` | App.js:115-135 | Feeding the same corrected angle twice in a row leaves the accumulated rotation unchanged on the second update. |
| `Compass.UnwrapKeepsDisplayHeading` | App.js:99-135 | Normalising the new target gives the displayed heading of the sample. |
| `Compass.HeadingState.constructor` | App.js:19-37 | The displayed heading and the accumulated rotation both start at 0. |
| `Compass.DisplayHeadingOfZero` | App.js:19-37 | 0 normalises to 0, so the initial state meets the invariant that the shown heading is the accumulated rotation normalised. |
| `Compass.HeadingState.OnMagnetometerSample` | App.js:79-135 | After a sample the displayed heading is the normalised corrected angle. The accumulated rotation and the returned target both equal `Unwrap` of the previous rotation and the corrected angle. The step is in [-180, 180], the target points the same way as the sample, and the shown heading is the rotation normalised. Nothing else changes. |
| `Compass.CardinalDirection` | App.js:183-191 | For a heading in [0, 360) the lookup always yields one of the eight labels. |
| `Compass.CardinalDirectionSector` | App.js:185-189 | A heading in [0, 360) gets the k-th label exactly when it lies within 22.5 degrees of 45 * k, with halves rounded up and the North sector wrapping at 360. |
| `Compass.CardinalDirectionBelowZero` | App.js:187-189 | A heading in [-337.5, -22.5) gives a negative index, and the lookup yields nothing (`undefined`). |
| `Compass.CardinalDirectionExamples` | App.js:183-191 | 0, 22 and 359 are `N`; 22.5, 44 and 46 are `NE`; 90 is `E`, 180 `S`, 270 `O`; -100 has no label. |
| `Compass.AxisCorrectionExample` | App.js:93-99 | A sensor angle of 0 is corrected to -90, shown as 270 and labelled `O`. |
| `Compass.UnwrapAcrossWrapExample` | App.js:109-131 | From rest, sensor angles 170 and then -170 move the rotation to 80 and then to 100, a step of +20 rather than -340. |
| `Compass.UnwrapHalfTurnExample` | App.js:123-125 | A difference of exactly +180 or -180 is kept as it is. |

## Left out

- The conversion of the field vector to degrees (`Math.atan2`, `Math.PI`, App.js:87). It is a floating-point library call, so the angle is a parameter instead.
- `calculateTilt` (App.js:41-49). It consists only of `atan2`, `sqrt` and rounding on IEEE floats.
- IEEE-754 rounding in `%`, in the division by 45 and in the subtractions. The model computes on exact reals.
- JsMath.Rem: requires a non-zero divisor. JavaScript gives NaN for a zero divisor, but App.js only takes `%` by 360 and by 8. Its bounds are proved for those two divisors (`RemTurn`, `CardinalDirectionSector`), not for any divisor.
- The permission request and the error message (App.js:53-63). These are asynchronous platform calls.
- Sensor subscription, update intervals and unsubscribing (App.js:67-79, App.js:163-179). These are platform I/O and lifecycle.
- `Animated.spring` towards `-newTarget`, and all JSX and styles (App.js:143-153, App.js:195-587). These are rendering. `OnMagnetometerSample` returns `newTarget`, the value the animation is driven towards.
- React's re-rendering and the sharing of `lastHeadingRef` between renders. The two fields of `HeadingState` stand for the state cell and the ref.
