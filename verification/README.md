# Slider value model

A model of the value logic in `@reach/slider`, the slider component in the
reach-ui React library (`packages/slider/src/index.js`). The slider holds a
number between `min` and `max`. The user changes it by clicking or dragging
along a track, or with the keyboard. Every candidate value is rounded to a
multiple of `step` and then clamped to the range before it is committed
through `updateValue`. Committing sets the component's own state when the
slider is uncontrolled, and always calls `onChange` when one is given.

The model has four parts.

- `SliderMath` (`slider_math.dfy`): the pure helpers `valueToPercent`,
  `percentToValue`, `roundValueToStep` (with JavaScript's `Math.round`) and
  `getAllowedValue`. It also has the round-then-clamp tail that ends both
  event handlers. Lemmas give the bounds, the round trip between the two
  conversions, nearest-multiple rounding, idempotence and monotonicity.
- `SliderEvents` (`slider_events.dfy`): the key table of `handleKeyDown` and
  the pointer mapping of `getNewValue`, as functions into `Option`. The key
  table is total. The pointer mapping is total over tracks of non-zero
  length.
- `SliderAttributes` (`slider_attributes.dfy`): the `data-reach-*` attribute
  object built by `makeDataAttributes`, and `makeId`.
- `SliderSession` (`slider_session.dfy`): one mounted slider as a class. It
  holds the controlled/uncontrolled state, the listeners registered on
  `document.body`, and the log of `onChange` calls. Its methods are
  `updateValue`, the event handlers and the body's dispatch of a mouse up.
  `GetNewValue`, `HandleKeyDown`, `HandleMouseDown` and `HandleMouseMove`
  are proved against `PointerValue` and `KeyDownValue`. `UpdateValue`,
  `Rerender` and `RemoveEventListeners` state their new state directly, and
  `DispatchMouseUp` is proved to end every drag.

Numbers are mathematical reals. The track's bounding rectangle
(`getBoundingClientRect`, which is I/O) is a parameter of the pointer
handlers. `wrapEvent` and `callEventWithDefault` come from `@reach/utils`
and are not part of this model. They are assumed to run the slider's own
handler.

Listener removal in the DOM works by function identity. The component
recreates its handler closures on every render. The model therefore tags a
registered listener with its kind and with the render that created it. A
render happens whenever an uncontrolled slider's state takes a new value,
and whenever the parent passes a new `value` prop (`Rerender`).

Facts about the code that the model keeps:

- Rounding counts multiples of `step` from 0, not from `min`
  (`index.js:366`). `HomeRoundsFromZero` shows the effect.
- `handleKeyDown` never checks `disabled` (`index.js:427-472`). A disabled
  handle only loses its `tabIndex` (`index.js:274`). So `HandleKeyDown` acts
  on a disabled slider too.
- `valueToPercent` returns a 0–100 percentage, but `percentToValue` takes a
  0–1 fraction. The round trip holds only once the first result is divided
  by 100 (`PercentRoundTrip`, `FractionRoundTrip`).
- Blur and mouse-leave do not end a drag after a value change (see
  Findings). A mouse up on the body does (`DispatchMouseUp`).

## Model

| member | source | states |
|---|---|---|
| SliderMath.ValueToPercentBounds | packages/slider/src/index.js:351-353 | `min` maps to 0 and `max` to 100; on an increasing range every in-range value maps into [0, 100] |
| SliderMath.PercentToValueBounds | packages/slider/src/index.js:355-357 | fraction 0 gives `min`, fraction 1 gives `max`, and a fraction in [0, 1] gives a value in [min, max] |
| SliderMath.PercentToValueMonotone | packages/slider/src/index.js:355-357 | on an increasing range a larger fraction never gives a smaller value |
| SliderMath.PercentRoundTrip | packages/slider/src/index.js:351-357 | `percentToValue(valueToPercent(v) / 100) == v` for every v, whenever min != max |
| SliderMath.FractionRoundTrip | packages/slider/src/index.js:351-357 | `valueToPercent(percentToValue(f)) == 100 * f`: the inverse direction, showing the 0–1 versus 0–100 scales |
| SliderMath.MathRound | packages/slider/src/index.js:366 | `Math.round(x)` is the integer k with x - 1/2 < k <= x + 1/2, so halves go up |
| SliderMath.RoundToStepBounds | packages/slider/src/index.js:365-367 | the rounded value is a whole multiple of `step` and lies within \|step\|/2 of the input |
| SliderMath.RoundIsNearest | packages/slider/src/index.js:365-367 | no multiple j·step is closer to the input than the rounded value |
| SliderMath.RoundFixesMultiples | packages/slider/src/index.js:365-367 | a value that is already a multiple of `step` is returned unchanged |
| SliderMath.RoundIdempotent | packages/slider/src/index.js:365-367 | rounding twice equals rounding once |
| SliderMath.RoundMonotone | packages/slider/src/index.js:365-367 | with a positive step, rounding preserves order |
| SliderMath.WholeStepsAreMultiples | packages/slider/src/index.js:366 | k·step is a multiple of `step` for every integer k |
| SliderMath.NeighbourMultiples | packages/slider/src/index.js:366 | one step up or down from a multiple of `step` is again a multiple |
| SliderMath.MultiplesAddUp | packages/slider/src/index.js:366 | sums and differences of multiples of `step` are multiples of `step` |
| SliderMath.GetAllowedValue | packages/slider/src/index.js:369-371 | the result lies in [min, max] when min <= max; it equals the input when the input is in range; otherwise it is `min` or `max` |
| SliderMath.ClampIsNearest | packages/slider/src/index.js:369-371 | no point of the range is closer to the input than the clamped value |
| SliderMath.ClampIdempotent | packages/slider/src/index.js:369-371 | clamping twice equals clamping once |
| SliderMath.ClampMonotone | packages/slider/src/index.js:369-371 | clamping preserves order |
| SliderMath.StepAndClamp | packages/slider/src/index.js:419-422 | the tail shared by both handlers (`if (step)` round, then clamp) always lands in [min, max] |
| SliderMath.StepAndClampKeepsGridValues | packages/slider/src/index.js:467-470 | an in-range multiple of `step` passes through the tail unchanged |
| SliderMath.StepAndClampMonotone | packages/slider/src/index.js:467-470 | with a positive step the tail preserves order |
| SliderEvents.PointerFractionAtEdges | packages/slider/src/index.js:415-416 | the left edge (bottom edge when vertical) is fraction 0 and the far edge is fraction 1 |
| SliderEvents.PointerValue | packages/slider/src/index.js:406-425 | a value exists exactly when the track is mounted, and it lies in [min, max] |
| SliderEvents.PointerValueMonotone | packages/slider/src/index.js:415-422 | moving the pointer right (up when vertical) never lowers the value |
| SliderEvents.PointerAtTrackEnds | packages/slider/src/index.js:415-422 | when min and max are on the step grid, the start of the track gives `min` and its end gives `max` |
| SliderEvents.PointerClickHalfway | packages/slider/src/index.js:406-425 | a click half way along a 200-pixel track of a 0–100 slider with step 1 gives 50 |
| SliderEvents.KeyTarget | packages/slider/src/index.js:430-461 | a raw target exists exactly for the eight keys of the switch; every other key returns early |
| SliderEvents.KeyDownValue | packages/slider/src/index.js:427-470 | a value is committed exactly for the eight handled keys, and it lies in [min, max] |
| SliderEvents.ArrowKeysMoveTheValue | packages/slider/src/index.js:433-442 | with a positive step, ArrowRight/ArrowUp never lower an in-range value and raise any value below `max`; ArrowLeft/ArrowDown mirror this at `min` |
| SliderEvents.ArrowKeysStepOnGrid | packages/slider/src/index.js:433-442 | from a value on the step grid, ArrowRight/ArrowUp commit exactly `value + step` and ArrowLeft/ArrowDown exactly `value - step` whenever that stays in range |
| SliderEvents.PageKeysMoveTheValue | packages/slider/src/index.js:443-450 | from a value on the step grid, PageUp never lowers the value and PageDown never raises it |
| SliderEvents.PageKeysStepOnGrid | packages/slider/src/index.js:443-450 | from a value on the step grid, when a tenth of the range is a whole number of steps, PageUp commits exactly `value + (max - min) / 10` and PageDown exactly `value - (max - min) / 10` whenever that stays in range |
| SliderEvents.PageUpCanStall | packages/slider/src/index.js:447-449 | when a tenth of the range is under half a step, rounding undoes the move: PageUp at 0 on a 0–1 slider with step 1 commits 0 |
| SliderEvents.HomeAndEndKeys | packages/slider/src/index.js:451-458 | Home commits `min` and End commits `max` when both are on the step grid |
| SliderEvents.HomeRoundsFromZero | packages/slider/src/index.js:451-454 | Home on a 0.5–10 slider with step 1 commits 1, because the grid counts from 0 |
| SliderEvents.KeyTableExample | packages/slider/src/index.js:427-471 | the key table at value 50 of a 0–100 slider with step 5: 55, 45, 60, 40, 100, 0, and nothing for Enter |
| SliderAttributes.AttrNamesDiffer | packages/slider/src/index.js:373-388 | two attribute names of one component are equal only when their suffixes are |
| SliderAttributes.RenderedDataAttributes | packages/slider/src/index.js:373-388 | the bare name is always set; exactly one of `-horizontal` / `-vertical`; `-disabled` iff disabled; each `-highlight*` variant iff highlighted and its own condition holds |
| SliderAttributes.NatToString | packages/slider/src/index.js:390 | the index renders as a non-empty string of decimal digits |
| SliderAttributes.ParseNatToString | packages/slider/src/index.js:390 | reading the rendered digits back gives the index |
| SliderAttributes.LastColon | packages/slider/src/index.js:390 | the separator is the last ':' of the identifier |
| SliderAttributes.MakeIdInjective | packages/slider/src/index.js:390 | distinct (id, index) pairs give distinct identifiers, even when the id contains ':' |
| SliderSession.InitialValue | packages/slider/src/index.js:72 | the state starts at `defaultValue`, or at `min` when the default is missing or 0 |
| SliderSession.Slider.Value | packages/slider/src/index.js:71-74 | the shown value is in [min, max] and equals the controlled or internal value when that is already in range |
| SliderSession.Slider.TrackPercent | packages/slider/src/index.js:75 | the track fill lies in [0, 100] on an increasing range |
| SliderSession.Slider.constructor | packages/slider/src/index.js:71-72 | controlled exactly when a `value` prop is given; initial state from `InitialValue`; no listeners, no `onChange` calls |
| SliderSession.Slider.UpdateValue | packages/slider/src/index.js:81-91 | the state takes the new value only when uncontrolled; `onChange` always receives it when given; listeners untouched |
| SliderSession.Slider.Rerender | packages/slider/src/index.js:51 | the parent passes a new `value` prop: it is stored, a new render happens, and the listener invariant is kept |
| SliderSession.Slider.GetNewValue | packages/slider/src/index.js:406-425 | the imperative computation equals `PointerValue` on the mounted track, and lies in [min, max] |
| SliderSession.Slider.HandleKeyDown | packages/slider/src/index.js:427-472 | a key is consumed exactly when it is one of the eight; a consumed key commits `KeyDownValue` of the current value; any other key changes nothing |
| SliderSession.Slider.HandleMouseDown | packages/slider/src/index.js:474-487 | disabled: nothing changes and the default is not prevented; otherwise it commits the pointer value only if it differs from the current value, registers this render's two listeners, and leaves the `value` prop alone |
| SliderSession.Slider.HandleMouseMove | packages/slider/src/index.js:494-497 | commits the pointer value unconditionally; listeners untouched |
| SliderSession.Slider.RemoveEventListeners | packages/slider/src/index.js:489-492 | removes exactly the two listeners of the render that created it; a second call changes nothing |
| SliderSession.Slider.DispatchMouseUp | packages/slider/src/index.js:483-492 | a mouse up on the body runs every registered mouse-up listener, each removing its own render's pair; afterwards no drag listener remains |
| SliderSession.Slider.RemoveEventListenersStable | packages/slider/src/index.js:489-492 | corrected removal: no drag listener remains |
| SliderSession.DragSession | packages/slider/src/index.js:474-497 | down, two moves and a body mouse up on an uncontrolled slider: `onChange` sees the click value if it differs from the start, then each move's value, and no listener remains |
| SliderSession.BlurAfterClickLeavesListeners | packages/slider/src/index.js:160-161 | a click that moves the value, then a blur, leaves the first render's two listeners registered |
| SliderSession.BlurAfterClickStable | packages/slider/src/index.js:160-161 | the same sequence with corrected removal leaves no listener |

## Left out

- `makeValuePrecise` (`index.js:359-363`) is treated as the identity. It rounds to as many decimals as there are characters after the `.` in `step`'s `toString`. That matches the identity over reals only when `toString` gives a plain decimal. In exponent form it does not. For `1e-7` there is no `.`, so `toFixed(0)` rounds every value to a whole number. For `1.5e-7` the text after the `.` is `5e-7`, so `toFixed(4)` sends `3e-7` to 0.
- IEEE floating point, `NaN` and `undefined` props are not modelled: numbers are reals. `if (step)` is modelled as `step != 0`.
- A zero-size track is not modelled: the pointer handlers require a track of non-zero length, because the source would divide by zero.
- A missing track is modelled only in `PointerValue` (`None`). The session methods take the measured rectangle, so they assume the track is mounted. In the source an unmounted track would make `handleMouseDown` commit `undefined`.
- `min == max` is excluded from `TrackPercent` and the percent lemmas, because the source divides by `max - min` there. A range with `min > max` is allowed; the range-bound lemmas state `min <= max` as their hypothesis.
- `SliderEvents.PageKeysMoveTheValue`: it is stated only for a value on the step grid. Off the grid, rounding can pull the result back past the start.
- `SliderSession.Slider.HandleKeyDown`: the user's own `onKeyDown` is not modelled. `wrapEvent` runs it before the slider's handler and may stop that handler, but `wrapEvent` is not part of this model, so the slider's handler always runs. The same holds for `onMouseDown`, `onMouseMove`, `onBlur` and `onMouseLeave`.
- The JSX of `Slider`, `Track`, `Handle` and `Marker`, the style objects and `calc(...)` positions, and the hidden input are presentation only.
- `useDimensions`, `assignRef`/`mergeRefs`, `useId`, prop types and the `console.log` call are framework plumbing.
- The `focus()` call on the handle after a mouse down is a DOM side effect.
- Event propagation itself (`preventDefault`, `stopPropagation`) appears only as the boolean a handler returns.
- The dispatch of a body mouse up is modelled by `DispatchMouseUp`. The dispatch of a body mouse move is not. A caller must call `HandleMouseMove` once per registered mouse-move listener. There can be more than one. For example, a mouse up released outside the window is lost, and a second mouse down then adds a second pair. The source then calls `onChange` once per listener on every move.
- A controlled slider whose `value` prop later becomes `undefined` is not modelled. The prop is a real once the slider is controlled.
- `makeId` is modelled for natural-number indices only. It is exported, but nothing in `index.js` calls it.
- Props other than `value` are fixed for the slider's life: `min`, `max`, `step`, `disabled`, the orientation and the presence of `onChange` are `const` fields. A parent that changes them is not modelled.
- The prop defaults (`min = 0`, `max = 100`, `step = 1`, horizontal orientation, `index.js:54-65`) and `component = "slider"` (`index.js:374`) are not modelled. Every value is passed explicitly.

## Findings

| source | as written | input that shows it | evidently intended | confidence | as-written member | corrected member |
|---|---|---|---|---|---|---|
| packages/slider/src/index.js:160-161 | blur and mouse-leave call the current render's `removeEventListeners`, which removes that render's closures only | an uncontrolled 0–100 slider with step 1 and a 200-pixel track; mouse down at x = 100 moves the value from 0 to 50 and re-renders; then the slider blurs | blur or leaving the slider ends the drag, detaching the listeners that the mouse down registered | medium, not executed | SliderSession.BlurAfterClickLeavesListeners | SliderSession.BlurAfterClickStable |
