/**
 * One mounted slider: its controlled/uncontrolled value, the drag listeners
 * it has registered on the document body, and the calls it has made to
 * `onChange`. Each method is one event handler of the component.
 *
 * The handlers are closures that the component recreates on every render,
 * and a listener is removed only by passing the very function that was
 * added. A registered listener is therefore identified by its kind AND by
 * the render whose closure it is.
 */
module SliderSession {
  import opened Wrappers
  import opened SliderMath
  import opened SliderEvents

  datatype ListenerKind = MouseMove | MouseUp

  /** A listener on the document body: the event it handles and the render that created it. */
  datatype Listener = Listener(kind: ListenerKind, render: nat)

  /** The pair that a mouse down registers, both closures of render `render`. */
  function DragListeners(render: nat): set<Listener>
  {
    {Listener(MouseMove, render), Listener(MouseUp, render)}
  }

  /** `useState(defaultValue || min)`: a missing or zero default starts the slider at `min`. */
  function InitialValue(defaultValue: Option<real>, min: real): (v: real)
    ensures defaultValue.Some? && defaultValue.value != 0.0 ==> v == defaultValue.value
    ensures defaultValue == None || defaultValue == Some(0.0) ==> v == min
  {
    if defaultValue.Some? && defaultValue.value != 0.0 then defaultValue.value else min
  }

  class Slider {
    const min: real
    const max: real
    const step: real
    const disabled: bool
    const isVertical: bool
    /** Whether an `onChange` callback was passed. */
    const hasOnChange: bool
    /** Fixed at the first render: was a `value` prop given? */
    const controlled: bool

    /** The `value` prop, read only when controlled. */
    var controlledValue: real
    /** The component's own state, read only when uncontrolled. */
    var internal: real
    /** How many times the component has re-rendered; names the current closures. */
    var render: nat
    var listeners: set<Listener>
    /** Every value passed to `onChange`, oldest first. */
    var changes: seq<real>

    /**
     * Listeners come from renders that have happened, and a mouse-move
     * listener is registered exactly when the mouse-up listener of the same
     * render is.
     */
    ghost predicate Valid()
      reads this
    {
      && (forall l :: l in listeners ==> l.render <= render)
      && (forall g: nat :: Listener(MouseMove, g) in listeners <==> Listener(MouseUp, g) in listeners)
    }

    /** A drag is in progress while any body listener is registered. */
    predicate Dragging()
      reads this
    {
      listeners != {}
    }

    /** The value the slider shows and hands to its handlers, clamped to the range. */
    function Value(): (v: real)
      reads this
      ensures min <= max ==> min <= v <= max
      ensures min <= max && controlled && min <= controlledValue <= max ==> v == controlledValue
      ensures min <= max && !controlled && min <= internal <= max ==> v == internal
    {
      GetAllowedValue(if controlled then controlledValue else internal, min, max)
    }

    /** Position of the handle along the track, on a 0–100 scale. */
    function TrackPercent(): (p: real)
      reads this
      requires min != max
      ensures min < max ==> 0.0 <= p <= 100.0
    {
      ValueToPercentBounds(Value(), min, max);
      ValueToPercent(Value(), min, max)
    }

    constructor (min: real, max: real, step: real, defaultValue: Option<real>, value: Option<real>,
                 disabled: bool, isVertical: bool, hasOnChange: bool)
      ensures Valid() && !Dragging() && changes == [] && render == 0
      ensures this.min == min && this.max == max && this.step == step
      ensures this.disabled == disabled && this.isVertical == isVertical && this.hasOnChange == hasOnChange
      ensures controlled == value.Some?
      ensures controlled ==> controlledValue == value.value
      ensures internal == InitialValue(defaultValue, min)
    {
      this.min, this.max, this.step := min, max, step;
      this.disabled, this.isVertical, this.hasOnChange := disabled, isVertical, hasOnChange;
      controlled := value.Some?;
      controlledValue := if value.Some? then value.value else 0.0;
      internal := InitialValue(defaultValue, min);
      render := 0;
      listeners := {};
      changes := [];
    }

    /**
     * The effect of `updateValue(v)`: the state takes `v` only when
     * uncontrolled (a new state value re-renders the component), and
     * `onChange` always receives `v` when there is one.
     */
    twostate predicate Committed(v: real)
      reads this
    {
      && internal == (if controlled then old(internal) else v)
      && render == (if !controlled && v != old(internal) then old(render) + 1 else old(render))
      && changes == old(changes) + (if hasOnChange then [v] else [])
      && controlledValue == old(controlledValue)
    }

    method UpdateValue(newValue: real)
      requires Valid()
      modifies this
      ensures Valid() && Committed(newValue) && listeners == old(listeners)
    {
      if !controlled && newValue != internal {
        internal := newValue;
        render := render + 1;
      }
      if hasOnChange {
        changes := changes + [newValue];
      }
    }

    /** The parent re-renders the slider, passing `value` as the `value` prop. */
    method Rerender(value: real)
      requires Valid()
      modifies this`controlledValue, this`render
      ensures Valid()
      ensures controlledValue == value && render == old(render) + 1
    {
      controlledValue := value;
      render := render + 1;
    }

    /** The value under the pointer on the measured track. */
    method GetNewValue(rect: Rect, clientX: real, clientY: real) returns (newValue: real)
      requires TrackLength(rect, isVertical) != 0.0
      ensures Some(newValue) == PointerValue(Some(rect), clientX, clientY, isVertical, min, max, step)
      ensures min <= max ==> min <= newValue <= max
    {
      var diff := if isVertical then rect.bottom - clientY else clientX - rect.left;
      var percent := diff / (if isVertical then rect.height else rect.width);
      newValue := PercentToValue(percent, min, max);
      if step != 0.0 {
        newValue := RoundValueToStep(newValue, step);
      }
      newValue := GetAllowedValue(newValue, min, max);
    }

    /**
     * The keydown handler: a key of the table commits its value and is
     * consumed (default action prevented, propagation stopped); any other
     * key changes nothing and is not consumed.
     */
    method HandleKeyDown(key: string) returns (consumed: bool)
      requires Valid()
      modifies this
      ensures Valid() && listeners == old(listeners)
      ensures consumed <==> key in SliderKeys
      ensures consumed ==> Committed(KeyDownValue(key, old(Value()), min, max, step).value)
      ensures !consumed ==> unchanged(this)
    {
      var value := Value();
      var flag := false;
      var newValue: real;
      var tenSteps := (max - min) / 10.0;
      if key == "ArrowLeft" || key == "ArrowDown" {
        newValue := value - step;
        flag := true;
      } else if key == "ArrowRight" || key == "ArrowUp" {
        newValue := value + step;
        flag := true;
      } else if key == "PageDown" {
        newValue := value - tenSteps;
        flag := true;
      } else if key == "PageUp" {
        newValue := value + tenSteps;
        flag := true;
      } else if key == "Home" {
        newValue := min;
        flag := true;
      } else if key == "End" {
        newValue := max;
        flag := true;
      } else {
        return false;
      }
      consumed := flag;
      if step != 0.0 {
        newValue := RoundValueToStep(newValue, step);
      }
      newValue := GetAllowedValue(newValue, min, max);
      UpdateValue(newValue);
    }

    /**
     * The mousedown handler. On a disabled slider it does nothing. Otherwise
     * it prevents the default action, commits the value under the pointer if
     * that differs from the current value, and registers this render's
     * mouse-move and mouse-up listeners on the body.
     */
    method HandleMouseDown(rect: Rect, clientX: real, clientY: real) returns (prevented: bool)
      requires Valid() && TrackLength(rect, isVertical) != 0.0
      modifies this
      ensures Valid()
      ensures prevented == !disabled
      ensures disabled ==> unchanged(this)
      ensures !disabled ==>
        var v := PointerValue(Some(rect), clientX, clientY, isVertical, min, max, step).value;
        && listeners == old(listeners) + DragListeners(old(render))
        && controlledValue == old(controlledValue)
        && (v != old(Value()) ==> Committed(v))
        && (v == old(Value()) ==> changes == old(changes) && internal == old(internal) && render == old(render))
    {
      if disabled {
        return false;
      }
      prevented := true;
      var gen := render;
      var newValue := GetNewValue(rect, clientX, clientY);
      if newValue != Value() {
        UpdateValue(newValue);
      }
      listeners := listeners + DragListeners(gen);
    }

    /** The mousemove listener: commits the value under the pointer, unconditionally. */
    method HandleMouseMove(rect: Rect, clientX: real, clientY: real)
      requires Valid() && TrackLength(rect, isVertical) != 0.0
      modifies this
      ensures Valid() && listeners == old(listeners)
      ensures Committed(PointerValue(Some(rect), clientX, clientY, isVertical, min, max, step).value)
    {
      var newValue := GetNewValue(rect, clientX, clientY);
      UpdateValue(newValue);
    }

    /**
     * `removeEventListeners` as created by render `gen`: it removes that
     * render's two closures and nothing else. The mouse-up listener of render
     * `gen` calls it with its own `gen`; blur and mouse-leave call the
     * current render's.
     */
    method RemoveEventListeners(gen: nat)
      requires Valid() && gen <= render
      modifies this`listeners
      ensures Valid()
      ensures listeners == old(listeners) - DragListeners(gen)
      ensures Listener(MouseMove, gen) !in listeners && Listener(MouseUp, gen) !in listeners
      ensures old(listeners) * DragListeners(gen) == {} ==> listeners == old(listeners)
    {
      listeners := listeners - DragListeners(gen);
    }

    /**
     * A mouse up on the body: every registered mouse-up listener runs, and
     * each is the `removeEventListeners` of its own render. Because a
     * render's two listeners are registered together, this ends every drag,
     * however many renders the drag spanned.
     */
    method DispatchMouseUp()
      requires Valid()
      modifies this`listeners
      ensures Valid() && !Dragging()
    {
      var pending := set l | l in listeners && l.kind == MouseUp;
      while pending != {}
        invariant Valid()
        invariant forall l :: l in pending ==> l.kind == MouseUp
        invariant forall l :: l in listeners ==> Listener(MouseUp, l.render) in pending
        decreases |pending|
      {
        var l :| l in pending;
        if l in listeners {
          RemoveEventListeners(l.render);
        }
        // no listener of render l.render is left, since its mouse-move goes with its mouse-up
        assert forall m :: m in listeners ==> m.render != l.render;
        pending := pending - {l};
      }
    }

    /**
     * Listener removal as intended: with handlers whose identity is stable
     * across renders, removing the listeners detaches every drag listener.
     */
    method RemoveEventListenersStable()
      requires Valid()
      modifies this`listeners
      ensures Valid() && !Dragging()
    {
      listeners := {};
    }
  }

  /**
   * Mouse down, two mouse moves and mouse up on an uncontrolled slider with
   * an `onChange` callback: `onChange` sees the click value (if it moved the
   * value) and then each move's value, and no body listener is left.
   */
  method DragSession(min: real, max: real, step: real, defaultValue: Option<real>, rect: Rect,
                     x0: real, x1: real, x2: real, y: real)
    returns (changes: seq<real>, remaining: set<Listener>)
    requires rect.width != 0.0
    ensures var start := GetAllowedValue(InitialValue(defaultValue, min), min, max);
      var v0 := PointerValue(Some(rect), x0, y, false, min, max, step).value;
      var v1 := PointerValue(Some(rect), x1, y, false, min, max, step).value;
      var v2 := PointerValue(Some(rect), x2, y, false, min, max, step).value;
      changes == (if v0 != start then [v0] else []) + [v1, v2]
    ensures remaining == {}
  {
    var s := new Slider(min, max, step, defaultValue, None, false, false, true);
    var _ := s.HandleMouseDown(rect, x0, y);
    s.HandleMouseMove(rect, x1, y);
    s.HandleMouseMove(rect, x2, y);
    s.DispatchMouseUp();
    changes, remaining := s.changes, s.listeners;
  }

  /**
   * A click that moves an uncontrolled slider re-renders it; a blur then
   * runs the NEW render's `removeEventListeners`, which leaves the first
   * render's drag listeners registered.
   */
  method BlurAfterClickLeavesListeners() returns (remaining: set<Listener>)
    ensures remaining == DragListeners(0)
  {
    var s := new Slider(0.0, 100.0, 1.0, None, None, false, false, true);
    var _ := s.HandleMouseDown(Rect(0.0, 200.0, 0.0, 0.0), 100.0, 0.0);
    PointerClickHalfway();
    assert s.render == 1;
    s.RemoveEventListeners(s.render);
    remaining := s.listeners;
  }

  /** The same sequence with stable listener identity ends the drag. */
  method BlurAfterClickStable() returns (remaining: set<Listener>)
    ensures remaining == {}
  {
    var s := new Slider(0.0, 100.0, 1.0, None, None, false, false, true);
    var _ := s.HandleMouseDown(Rect(0.0, 200.0, 0.0, 0.0), 100.0, 0.0);
    s.RemoveEventListenersStable();
    remaining := s.listeners;
  }
}
