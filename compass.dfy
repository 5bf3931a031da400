/**
 * The heading arithmetic of the compass screen: the magnetometer listener
 * turns each sample's angle (degrees, as computed from the field vector)
 * into a display heading in [0, 360) and advances an unbounded accumulated
 * rotation by the shortest step, and the cardinal lookup names the nearest
 * of the eight compass points.
 */
module Compass {
  import opened JsMath

  datatype Option<T> = None | Some(value: T)

  /** Degrees subtracted from the sensor angle so that North reads 0. */
  const AxisCorrection: real := 90.0

  /** The compass points in the order the lookup indexes them (Spanish labels). */
  const Directions: seq<string> := ["N", "NE", "E", "SE", "S", "SO", "O", "NO"]

  /** `k` whole turns, in degrees. */
  function Turns(k: int): real {
    360.0 * k as real
  }

  /** `a` and `b` differ by a whole number of turns: they point the same way. */
  ghost predicate SameDirection(a: real, b: real) {
    exists k: int :: a - b == Turns(k)
  }

  lemma SameDirectionReflexive(a: real)
    ensures SameDirection(a, a)
  {
    assert a - a == Turns(0);
  }

  lemma SameDirectionSymmetric(a: real, b: real)
    requires SameDirection(a, b)
    ensures SameDirection(b, a)
  {
    var k :| a - b == Turns(k);
    assert b - a == Turns(-k);
  }

  lemma SameDirectionTransitive(a: real, b: real, c: real)
    requires SameDirection(a, b) && SameDirection(b, c)
    ensures SameDirection(a, c)
  {
    var k :| a - b == Turns(k);
    var j :| b - c == Turns(j);
    assert a - c == Turns(k + j);
  }

  /** A full turn either way keeps the direction. */
  lemma SameDirectionFullTurn(a: real, b: real)
    requires SameDirection(a, b)
    ensures SameDirection(a - 360.0, b) && SameDirection(a + 360.0, b)
  {
    var k :| a - b == Turns(k);
    assert a - 360.0 - b == Turns(k - 1);
    assert a + 360.0 - b == Turns(k + 1);
  }

  /** Two angles less than a turn apart that point the same way are equal. */
  lemma SameDirectionWithinTurn(a: real, b: real)
    requires SameDirection(a, b) && -360.0 < a - b < 360.0
    ensures a == b
  {
    var k :| a - b == Turns(k);
    assert k == 0;
  }

  /** `a % 360`: strictly inside one turn, with the sign of `a`, same direction as `a`. */
  lemma RemTurn(a: real)
    ensures 0.0 <= a ==> 0.0 <= Rem(a, 360.0) < 360.0
    ensures a <= 0.0 ==> -360.0 < Rem(a, 360.0) <= 0.0
    ensures SameDirection(Rem(a, 360.0), a)
  {
    var q := Trunc(a / 360.0);
    assert Rem(a, 360.0) - a == Turns(-q);
  }

  /** Subtracting the axis correction from the sensor angle. */
  function Corrected(raw: real): real {
    raw - AxisCorrection
  }

  /**
   * The heading shown as text, `(angle % 360 + 360) % 360`: in [0, 360) and
   * pointing the same way as `angle`, for negative angles too.
   */
  function DisplayHeading(angle: real): (h: real)
    ensures 0.0 <= h < 360.0
    ensures SameDirection(h, angle)
  {
    var m := Rem(angle, 360.0);
    RemTurn(angle);
    RemTurn(m + 360.0);
    assert m + 360.0 - m == Turns(1);
    SameDirectionTransitive(Rem(m + 360.0, 360.0), m + 360.0, m);
    SameDirectionTransitive(Rem(m + 360.0, 360.0), m, angle);
    Rem(m + 360.0, 360.0)
  }

  /** The display heading agrees with the floored modulo `angle - 360 * floor(angle / 360)`. */
  lemma DisplayHeadingIsFlooredModulo(angle: real)
    ensures DisplayHeading(angle) == angle - 360.0 * (angle / 360.0).Floor as real
  {
    var f := angle - 360.0 * (angle / 360.0).Floor as real;
    assert angle - f == Turns((angle / 360.0).Floor);
    SameDirectionTransitive(DisplayHeading(angle), angle, f);
    SameDirectionWithinTurn(DisplayHeading(angle), f);
  }

  /** Angles that point the same way are displayed the same. */
  lemma DisplayHeadingOfSameDirection(a: real, b: real)
    requires SameDirection(a, b)
    ensures DisplayHeading(a) == DisplayHeading(b)
  {
    SameDirectionTransitive(DisplayHeading(a), a, b);
    SameDirectionSymmetric(DisplayHeading(b), b);
    SameDirectionTransitive(DisplayHeading(a), b, DisplayHeading(b));
    SameDirectionWithinTurn(DisplayHeading(a), DisplayHeading(b));
  }

  /** A heading already in [0, 360) is displayed unchanged; normalising twice changes nothing. */
  lemma DisplayHeadingIdempotent(angle: real)
    ensures 0.0 <= angle < 360.0 ==> DisplayHeading(angle) == angle
    ensures DisplayHeading(DisplayHeading(angle)) == DisplayHeading(angle)
  {
    if 0.0 <= angle < 360.0 {
      SameDirectionWithinTurn(DisplayHeading(angle), angle);
    }
    var h := DisplayHeading(angle);
    SameDirectionWithinTurn(DisplayHeading(h), h);
  }

  /** North is displayed as 0, so the initial heading state is consistent. */
  lemma DisplayHeadingOfZero()
    ensures DisplayHeading(0.0) == 0.0
  {
    DisplayHeadingIsFlooredModulo(0.0);
  }

  /**
   * `d` is the step the listener takes for a difference `diff`: in
   * [-180, 180], pointing the same way as `diff`, and at the two ends, where
   * both are possible, 180 only for a positive `diff` and -180 only for a
   * negative one.
   */
  ghost predicate IsShortestStep(diff: real, d: real) {
    -180.0 <= d <= 180.0 && SameDirection(d, diff)
    && (d == 180.0 ==> diff > 0.0) && (d == -180.0 ==> diff < 0.0)
  }

  /** A closed form of the step: the representative of `diff` in [-180, 180), moved to 180 for a positive tie. */
  function ShortestStep(diff: real): (d: real)
    ensures IsShortestStep(diff, d)
  {
    var n := ((diff + 180.0) / 360.0).Floor;
    var c := diff - 360.0 * n as real;
    assert c - diff == Turns(-n);
    if c == -180.0 && diff > 0.0 then
      assert 180.0 - diff == Turns(1 - n);
      180.0
    else
      c
  }

  /** The step is determined by its description. */
  lemma ShortestStepUnique(diff: real, d: real)
    requires IsShortestStep(diff, d)
    ensures d == ShortestStep(diff)
  {
    var s := ShortestStep(diff);
    var k :| d - diff == Turns(k);
    var j :| s - diff == Turns(j);
    assert d - s == Turns(k - j);
    assert -1 <= k - j <= 1;
    if k - j == 1 || k - j == -1 {
      assert false;
    }
  }

  /** The new accumulated rotation for a sample: the old one plus the shortest step to it. */
  function Unwrap(last: real, angle: real): (target: real)
    ensures -180.0 <= target - last <= 180.0
    ensures SameDirection(target, angle)
  {
    var d := ShortestStep(angle - last);
    var k :| d - (angle - last) == Turns(k);
    assert last + d - angle == Turns(k);
    last + d
  }

  function Abs(x: real): real {
    if x < 0.0 then -x else x
  }

  /** No rotation that points at the sample is closer to the previous one than the unwrapped target. */
  lemma UnwrapIsShortestPath(last: real, angle: real, other: real)
    requires SameDirection(other, angle)
    ensures Abs(Unwrap(last, angle) - last) <= Abs(other - last)
  {
    var t := Unwrap(last, angle);
    var k :| other - angle == Turns(k);
    var j :| t - angle == Turns(j);
    assert other - t == Turns(k - j);
  }

  /** A step that points nowhere new is no step at all. */
  lemma ShortestStepOfWholeTurns(diff: real)
    requires SameDirection(diff, 0.0)
    ensures ShortestStep(diff) == 0.0
  {
    SameDirectionSymmetric(diff, 0.0);
    ShortestStepUnique(diff, 0.0);
  }

  /** Feeding the same angle twice leaves the accumulated rotation where the first sample put it. */
  lemma UnwrapRepeatIsStable(last: real, angle: real)
    ensures Unwrap(Unwrap(last, angle), angle) == Unwrap(last, angle)
  {
    var t := Unwrap(last, angle);
    var k :| t - angle == Turns(k);
    assert angle - t - 0.0 == Turns(-k);
    ShortestStepOfWholeTurns(angle - t);
  }

  /** Normalising the accumulated rotation gives the heading shown as text. */
  lemma UnwrapKeepsDisplayHeading(last: real, angle: real)
    ensures DisplayHeading(Unwrap(last, angle)) == DisplayHeading(angle)
  {
    DisplayHeadingOfSameDirection(Unwrap(last, angle), angle);
  }

  /**
   * The heading state of the screen: the heading shown as text and the
   * accumulated rotation that drives the compass plate.
   */
  class HeadingState {
    var displayHeading: real
    var lastHeading: real

    /** The shown heading is the accumulated rotation, normalised. */
    ghost predicate Valid()
      reads this
    {
      displayHeading == DisplayHeading(lastHeading)
    }

    /** Both start at 0, which `Valid` admits (`DisplayHeadingOfZero`). */
    constructor ()
      ensures displayHeading == 0.0 && lastHeading == 0.0
    {
      displayHeading := 0.0;
      lastHeading := 0.0;
    }

    /**
     * One magnetometer sample whose field vector points at `raw` degrees:
     * correct the axis, show the normalised heading, and advance the
     * accumulated rotation by the shortest step. Returns the new target.
     */
    method OnMagnetometerSample(raw: real) returns (newTarget: real)
      modifies this
      ensures displayHeading == DisplayHeading(Corrected(raw))
      ensures newTarget == Unwrap(old(lastHeading), Corrected(raw))
      ensures lastHeading == newTarget
      ensures -180.0 <= newTarget - old(lastHeading) <= 180.0
      ensures SameDirection(newTarget, Corrected(raw))
      ensures Valid()
    {
      var angle := Corrected(raw);
      displayHeading := DisplayHeading(angle);
      var currentRot := lastHeading;
      var diff := angle - currentRot;
      ghost var d0 := diff;
      SameDirectionReflexive(d0);
      while diff > 180.0
        modifies {}
        invariant SameDirection(diff, d0)
        invariant diff <= d0
        invariant diff < d0 ==> -180.0 < diff
        decreases diff.Floor
      {
        SameDirectionFullTurn(diff, d0);
        assert (diff - 360.0).Floor == diff.Floor - 360;
        diff := diff - 360.0;
      }
      ghost var d1 := diff;
      while diff < -180.0
        modifies {}
        invariant SameDirection(diff, d0)
        invariant d1 <= diff <= 180.0
        invariant d1 < diff ==> diff < 180.0 && d1 == d0
        decreases (-diff).Floor
      {
        SameDirectionFullTurn(diff, d0);
        assert (-(diff + 360.0)).Floor == (-diff).Floor - 360;
        diff := diff + 360.0;
      }
      ShortestStepUnique(d0, diff);
      newTarget := currentRot + diff;
      lastHeading := newTarget;
      UnwrapKeepsDisplayHeading(currentRot, angle);
    }
  }

  /**
   * `getCardinalDirection`: the label at index `Math.round(angle / 45) % 8`,
   * or `None` where JavaScript's array read yields `undefined` (a negative
   * index).
   */
  function CardinalDirection(angle: real): (point: Option<string>)
    ensures 0.0 <= angle < 360.0 ==> point.Some? && point.value in Directions
  {
    var index := Rem(Round(angle / 45.0) as real, 8.0);
    if IsInteger(index) && 0.0 <= index < 8.0 then Some(Directions[index.Floor]) else None
  }

  /** The angles labelled with the `k`-th point: 45 degrees centred on `45 * k`, halves rounded up. */
  predicate InSector(angle: real, k: int) {
    45.0 * k as real - 22.5 <= angle < 45.0 * k as real + 22.5
    || (k == 0 && 337.5 <= angle)
  }

  /** A heading in [0, 360) gets the `k`-th label exactly when it lies in the `k`-th sector. */
  lemma CardinalDirectionSector(angle: real, k: int)
    requires 0.0 <= angle < 360.0 && 0 <= k < 8
    ensures CardinalDirection(angle) == Some(Directions[k]) <==> InSector(angle, k)
  {
    var n := Round(angle / 45.0);
    var i := if n == 8 then 0 else n;
    assert Rem(n as real, 8.0) == i as real;
    assert CardinalDirection(angle) == Some(Directions[i]);
    assert InSector(angle, i);
    if InSector(angle, k) {
      assert k == i;
    }
  }

  /** Headings a little below the North wrap give a negative index, and the lookup finds no label. */
  lemma CardinalDirectionBelowZero(angle: real)
    requires -337.5 <= angle < -22.5
    ensures CardinalDirection(angle) == None
  {
    var n := Round(angle / 45.0);
    assert -7 <= n <= -1;
    assert Rem(n as real, 8.0) == n as real;
  }

  /** Labels of some headings: a half rounds up, and 359 wraps to North. */
  lemma CardinalDirectionExamples()
    ensures CardinalDirection(0.0) == Some("N")
    ensures CardinalDirection(22.5) == Some("NE")
    ensures CardinalDirection(22.0) == Some("N")
    ensures CardinalDirection(44.0) == Some("NE")
    ensures CardinalDirection(46.0) == Some("NE")
    ensures CardinalDirection(90.0) == Some("E")
    ensures CardinalDirection(180.0) == Some("S")
    ensures CardinalDirection(270.0) == Some("O")
    ensures CardinalDirection(359.0) == Some("N")
    ensures CardinalDirection(-100.0) == None
  {
    assert Round(359.0 / 45.0) == 8;
    assert Round(-100.0 / 45.0) == -2;
  }

  /** A field pointing along the sensor's x axis reads 0 degrees, is corrected to -90, shown as 270 and labelled West. */
  lemma AxisCorrectionExample()
    ensures Corrected(0.0) == -90.0
    ensures DisplayHeading(Corrected(0.0)) == 270.0
    ensures CardinalDirection(DisplayHeading(Corrected(0.0))) == Some("O")
  {
    DisplayHeadingIsFlooredModulo(-90.0);
    assert (-90.0 / 360.0).Floor == -1;
  }

  /**
   * From the initial state, sensor angles 170 and then -170 (the same field
   * turned 20 degrees across the wrap of the sensor angle) advance the
   * rotation by +20, not by -340.
   */
  lemma UnwrapAcrossWrapExample()
    ensures Unwrap(0.0, Corrected(170.0)) == 80.0
    ensures Unwrap(80.0, Corrected(-170.0)) == 100.0
  {
    SameDirectionReflexive(80.0);
    ShortestStepUnique(80.0, 80.0);
    assert 20.0 - -340.0 == Turns(1);
    ShortestStepUnique(-340.0, 20.0);
  }

  /** A difference of exactly half a turn is kept as it is, in either direction. */
  lemma UnwrapHalfTurnExample()
    ensures Unwrap(0.0, 180.0) == 180.0
    ensures Unwrap(0.0, -180.0) == -180.0
  {
    SameDirectionReflexive(180.0);
    SameDirectionReflexive(-180.0);
    ShortestStepUnique(180.0, 180.0);
    ShortestStepUnique(-180.0, -180.0);
  }
}
