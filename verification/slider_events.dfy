/**
 * Translation of user input into a candidate slider value: the key table of
 * the keydown handler and the pointer-to-value mapping used on mouse down and
 * mouse move. Both end with the same tail: round to the step, then clamp.
 */
module SliderEvents {
  import opened Wrappers
  import opened SliderMath

  /** The fields of the track's bounding client rectangle that the pointer mapping reads. */
  datatype Rect = Rect(left: real, width: real, bottom: real, height: real)

  /** Length of the track along the slider's orientation. */
  function TrackLength(rect: Rect, isVertical: bool): real
  {
    if isVertical then rect.height else rect.width
  }

  /**
   * Fraction of the track under the pointer: measured rightwards from the
   * left edge, or upwards from the bottom edge of a vertical track.
   */
  function PointerFraction(rect: Rect, clientX: real, clientY: real, isVertical: bool): real
    requires TrackLength(rect, isVertical) != 0.0
  {
    PointerDistance(rect, clientX, clientY, isVertical) / TrackLength(rect, isVertical)
  }

  /** Signed distance of the pointer from the track's start edge, along the orientation. */
  function PointerDistance(rect: Rect, clientX: real, clientY: real, isVertical: bool): real
  {
    if isVertical then rect.bottom - clientY else clientX - rect.left
  }

  /** The start edge of the track is fraction 0 and the far edge fraction 1. */
  lemma PointerFractionAtEdges(rect: Rect, clientX: real, clientY: real, isVertical: bool)
    requires TrackLength(rect, isVertical) != 0.0
    ensures !isVertical && clientX == rect.left ==> PointerFraction(rect, clientX, clientY, isVertical) == 0.0
    ensures !isVertical && clientX == rect.left + rect.width ==> PointerFraction(rect, clientX, clientY, isVertical) == 1.0
    ensures isVertical && clientY == rect.bottom ==> PointerFraction(rect, clientX, clientY, isVertical) == 0.0
    ensures isVertical && clientY == rect.bottom - rect.height ==> PointerFraction(rect, clientX, clientY, isVertical) == 1.0
  {
    var len := TrackLength(rect, isVertical);
    var dist := PointerDistance(rect, clientX, clientY, isVertical);
    if dist == len {
      DivSelf(len);
    }
  }

  /**
   * The value under the pointer, or None when the track is not mounted.
   */
  function PointerValue(track: Option<Rect>, clientX: real, clientY: real, isVertical: bool,
                        min: real, max: real, step: real): (r: Option<real>)
    requires track.Some? ==> TrackLength(track.value, isVertical) != 0.0
    ensures r.Some? <==> track.Some?
    ensures r.Some? && min <= max ==> min <= r.value <= max
  {
    match track
    case None => None
    case Some(rect) =>
      var percent := PointerFraction(rect, clientX, clientY, isVertical);
      Some(StepAndClamp(PercentToValue(percent, min, max), min, max, step))
  }

  /**
   * Moving the pointer towards the far end of the track (right, or up on a
   * vertical slider) never lowers the value.
   */
  lemma PointerValueMonotone(rect: Rect, x1: real, y1: real, x2: real, y2: real, isVertical: bool,
                             min: real, max: real, step: real)
    requires TrackLength(rect, isVertical) > 0.0 && min <= max && step >= 0.0
    requires if isVertical then y2 <= y1 else x1 <= x2
    ensures PointerValue(Some(rect), x1, y1, isVertical, min, max, step).value
         <= PointerValue(Some(rect), x2, y2, isVertical, min, max, step).value
  {
    var f1 := PointerFraction(rect, x1, y1, isVertical);
    var f2 := PointerFraction(rect, x2, y2, isVertical);
    DivLe(PointerDistance(rect, x1, y1, isVertical), PointerDistance(rect, x2, y2, isVertical),
          TrackLength(rect, isVertical));
    assert f1 <= f2;
    var v1, v2 := PercentToValue(f1, min, max), PercentToValue(f2, min, max);
    PercentToValueMonotone(f1, f2, min, max);
    if step > 0.0 {
      StepAndClampMonotone(v1, v2, min, max, step);
    } else {
      ClampMonotone(v1, v2, min, max);
    }
  }

  /**
   * When both ends of the range lie on the step grid, a pointer at the start
   * of the track gives `min` and a pointer at its end gives `max`.
   */
  lemma PointerAtTrackEnds(rect: Rect, clientX: real, clientY: real, isVertical: bool,
                           min: real, max: real, step: real)
    requires TrackLength(rect, isVertical) != 0.0 && min <= max
    requires step != 0.0 ==> IsMultipleOf(min, step) && IsMultipleOf(max, step)
    ensures PointerFraction(rect, clientX, clientY, isVertical) == 0.0 ==>
      PointerValue(Some(rect), clientX, clientY, isVertical, min, max, step) == Some(min)
    ensures PointerFraction(rect, clientX, clientY, isVertical) == 1.0 ==>
      PointerValue(Some(rect), clientX, clientY, isVertical, min, max, step) == Some(max)
  {
    if step != 0.0 {
      StepAndClampKeepsGridValues(min, min, max, step);
      StepAndClampKeepsGridValues(max, min, max, step);
    }
  }

  /** A click half way along a 200-pixel track of a 0–100 slider with step 1 gives 50. */
  lemma PointerClickHalfway()
    ensures PointerValue(Some(Rect(0.0, 200.0, 0.0, 0.0)), 100.0, 0.0, false, 0.0, 100.0, 1.0) == Some(50.0)
  {
    assert PointerFraction(Rect(0.0, 200.0, 0.0, 0.0), 100.0, 0.0, false) == 0.5;
    assert MathRound(50.0) == 50;
  }

  /** The keys the keydown handler consumes; any other key is passed through. */
  const SliderKeys: set<string> :=
    {"ArrowLeft", "ArrowDown", "ArrowRight", "ArrowUp", "PageDown", "PageUp", "Home", "End"}

  /** The raw value a key asks for, before rounding and clamping. */
  function KeyTarget(key: string, value: real, min: real, max: real, step: real): (t: Option<real>)
    ensures t.Some? <==> key in SliderKeys
  {
    var tenSteps := (max - min) / 10.0;
    if key == "ArrowLeft" || key == "ArrowDown" then Some(value - step)
    else if key == "ArrowRight" || key == "ArrowUp" then Some(value + step)
    else if key == "PageDown" then Some(value - tenSteps)
    else if key == "PageUp" then Some(value + tenSteps)
    else if key == "Home" then Some(min)
    else if key == "End" then Some(max)
    else None
  }

  /**
   * The value a keydown commits from the current value, or None for a key
   * the handler ignores.
   */
  function KeyDownValue(key: string, value: real, min: real, max: real, step: real): (r: Option<real>)
    ensures r.Some? <==> key in SliderKeys
    ensures r.Some? && min <= max ==> min <= r.value <= max
  {
    match KeyTarget(key, value, min, max, step)
    case None => None
    case Some(target) => Some(StepAndClamp(target, min, max, step))
  }

  /**
   * With a positive step, ArrowRight/ArrowUp never lower an in-range value
   * and raise any value below `max`; ArrowLeft/ArrowDown mirror this at `min`.
   */
  lemma ArrowKeysMoveTheValue(key: string, value: real, min: real, max: real, step: real)
    requires step > 0.0 && min <= value <= max
    ensures key == "ArrowRight" || key == "ArrowUp" ==>
      var r := KeyDownValue(key, value, min, max, step).value;
      value <= r && (value < max ==> value < r)
    ensures key == "ArrowLeft" || key == "ArrowDown" ==>
      var r := KeyDownValue(key, value, min, max, step).value;
      r <= value && (min < value ==> r < value)
  {
    RoundToStepBounds(value + step, step);
    RoundToStepBounds(value - step, step);
  }

  /**
   * From a value on the step grid, an arrow key moves by exactly one step
   * whenever that step stays inside the range.
   */
  lemma ArrowKeysStepOnGrid(key: string, value: real, min: real, max: real, step: real)
    requires step > 0.0 && IsMultipleOf(value, step)
    ensures (key == "ArrowRight" || key == "ArrowUp") && min <= value && value + step <= max ==>
      KeyDownValue(key, value, min, max, step) == Some(value + step)
    ensures (key == "ArrowLeft" || key == "ArrowDown") && min <= value - step && value <= max ==>
      KeyDownValue(key, value, min, max, step) == Some(value - step)
  {
    NeighbourMultiples(value, step);
    RoundFixesMultiples(value + step, step);
    RoundFixesMultiples(value - step, step);
  }

  /**
   * With a positive step and a value on the step grid, PageUp never lowers the
   * value and PageDown never raises it.
   */
  lemma PageKeysMoveTheValue(value: real, min: real, max: real, step: real)
    requires step > 0.0 && min <= value <= max && IsMultipleOf(value, step)
    ensures value <= KeyDownValue("PageUp", value, min, max, step).value
    ensures KeyDownValue("PageDown", value, min, max, step).value <= value
  {
    var tenSteps := (max - min) / 10.0;
    RoundFixesMultiples(value, step);
    RoundMonotone(value, value + tenSteps, step);
    RoundMonotone(value - tenSteps, value, step);
  }

  /**
   * From a value on the step grid, when a tenth of the range is itself a
   * whole number of steps, PageUp and PageDown move by exactly that tenth
   * whenever the result stays inside the range.
   */
  lemma PageKeysStepOnGrid(value: real, min: real, max: real, step: real)
    requires step > 0.0 && IsMultipleOf(value, step) && IsMultipleOf((max - min) / 10.0, step)
    ensures min <= value && value + (max - min) / 10.0 <= max ==>
      KeyDownValue("PageUp", value, min, max, step) == Some(value + (max - min) / 10.0)
    ensures min <= value - (max - min) / 10.0 && value <= max ==>
      KeyDownValue("PageDown", value, min, max, step) == Some(value - (max - min) / 10.0)
  {
    var tenSteps := (max - min) / 10.0;
    MultiplesAddUp(value, tenSteps, step);
    RoundFixesMultiples(value + tenSteps, step);
    RoundFixesMultiples(value - tenSteps, step);
  }

  /**
   * When a tenth of the range is under half a step, rounding undoes PageUp:
   * on a 0–1 slider with step 1, PageUp at 0 commits 0.
   */
  lemma PageUpCanStall()
    ensures KeyDownValue("PageUp", 0.0, 0.0, 1.0, 1.0) == Some(0.0)
  {
    assert MathRound(0.1) == 0;
  }

  /** Home gives `min` and End gives `max` whenever those lie on the step grid. */
  lemma HomeAndEndKeys(value: real, min: real, max: real, step: real)
    requires min <= max
    requires step != 0.0 ==> IsMultipleOf(min, step) && IsMultipleOf(max, step)
    ensures KeyDownValue("Home", value, min, max, step) == Some(min)
    ensures KeyDownValue("End", value, min, max, step) == Some(max)
  {
    if step != 0.0 {
      StepAndClampKeepsGridValues(min, min, max, step);
      StepAndClampKeepsGridValues(max, min, max, step);
    }
  }

  /**
   * The step grid counts from 0, not from `min`: on a 0.5–10 slider with
   * step 1, Home commits 1 rather than 0.5.
   */
  lemma HomeRoundsFromZero()
    ensures KeyDownValue("Home", 3.0, 0.5, 10.0, 1.0) == Some(1.0)
  {
    assert MathRound(0.5) == 1;
  }

  /** The key table on a 0–100 slider with step 5 at value 50. */
  lemma KeyTableExample()
    ensures KeyDownValue("ArrowRight", 50.0, 0.0, 100.0, 5.0) == Some(55.0)
    ensures KeyDownValue("ArrowDown", 50.0, 0.0, 100.0, 5.0) == Some(45.0)
    ensures KeyDownValue("PageUp", 50.0, 0.0, 100.0, 5.0) == Some(60.0)
    ensures KeyDownValue("PageDown", 50.0, 0.0, 100.0, 5.0) == Some(40.0)
    ensures KeyDownValue("End", 50.0, 0.0, 100.0, 5.0) == Some(100.0)
    ensures KeyDownValue("Home", 50.0, 0.0, 100.0, 5.0) == Some(0.0)
    ensures KeyDownValue("Enter", 50.0, 0.0, 100.0, 5.0) == None
  {
    assert MathRound(11.0) == 11;
    assert MathRound(9.0) == 9;
    assert MathRound(12.0) == 12;
    assert MathRound(8.0) == 8;
    assert MathRound(20.0) == 20;
    assert MathRound(0.0) == 0;
  }
}
