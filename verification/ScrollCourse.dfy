/** The course of scrollUntilVisible: how each scroll is chosen from what was observed. Lengths and
    fractions are exact reals. */
module ScrollCourse {
  import opened Wrappers

  const MINIMUM_STEP := 0.05
  const COVERED_STEP := 0.25
  const MAXIMUM_OBSERVATIONS := 1201

  datatype Direction = Up | Down | Left | Right

  datatype Bounds = Bounds(x: real, y: real, width: real, height: real)

  datatype Request = Request(direction: Direction, amount: real)

  function Min(a: real, b: real): real { if a <= b then a else b }

  function Max(a: real, b: real): real { if a >= b then a else b }

  function Opposite(direction: Direction): (opposite: Direction)
    ensures Horizontal(opposite) == Horizontal(direction)
    ensures Forward(opposite) != Forward(direction)
  {
    match direction
    case Up => Down
    case Down => Up
    case Left => Right
    case Right => Left
  }

  predicate Horizontal(direction: Direction) {
    direction.Left? || direction.Right?
  }

  /** The direction that reveals what lies further down or to the right. */
  predicate Forward(direction: Direction) {
    direction.Down? || direction.Right?
  }

  // ---------------------------------------------------------------------------
  // Bounds along one axis
  // ---------------------------------------------------------------------------

  /** A stretch of one axis. */
  datatype Span = Span(start: real, extent: real)

  function Along(horizontal: bool, bounds: Bounds): Span {
    if horizontal then Span(bounds.x, bounds.width) else Span(bounds.y, bounds.height)
  }

  /** How far the target hangs over the viewport before its start and after its end. */
  function OverBefore(target: Span, viewport: Span): real {
    Max(viewport.start - target.start, 0.0)
  }

  function OverAfter(target: Span, viewport: Span): real {
    Max((target.start + target.extent) - (viewport.start + viewport.extent), 0.0)
  }

  predicate Inside(target: Span, viewport: Span) {
    viewport.start <= target.start && target.start + target.extent <= viewport.start + viewport.extent
  }

  // ---------------------------------------------------------------------------
  // The course
  // ---------------------------------------------------------------------------

  /** The state of a course. `last` is the latest scroll, once there was one. */
  datatype State = State(authored: Direction, speed: real, viewport: Bounds, seen: bool, last: Option<Request>,
                         passes: nat)

  /** The scroll towards a target on screen. */
  function Toward(state: State, bounds: Bounds): Request {
    var horizontal := Horizontal(state.authored);
    var viewport := Along(horizontal, state.viewport);
    var before := OverBefore(Along(horizontal, bounds), viewport);
    var after := OverAfter(Along(horizontal, bounds), viewport);
    if before == 0.0 && after == 0.0 then Request(state.authored, Min(state.speed, COVERED_STEP))
    else
      var direction := AxisDirection(horizontal, before <= after);
      var overhang := Max(before, after);
      if viewport.extent <= 0.0 then Request(direction, state.speed)
      else Request(direction, Min(state.speed, Max(overhang / viewport.extent, MINIMUM_STEP)))
  }

  function AxisDirection(horizontal: bool, forward: bool): (direction: Direction)
    ensures Horizontal(direction) == horizontal && Forward(direction) == forward
  {
    if horizontal then (if forward then Right else Left) else (if forward then Down else Up)
  }

  /** The scroll that follows an observation; None when the target is not there or has no bounds. */
  function Chosen(state: State, element: Option<Bounds>): Request {
    if element.Some? then Toward(state, element.value)
    else if state.seen && state.last.Some? then
      Request(Opposite(state.last.value.direction), Max(state.last.value.amount / 2.0, MINIMUM_STEP))
    else Request(state.authored, state.speed)
  }

  function After(state: State, element: Option<Bounds>): State {
    state.(
    seen := state.seen || element.Some?,
    last := Some(Chosen(state, element)),
    passes := if element.None? && state.seen && state.last.Some? then state.passes + 1 else state.passes)
  }

  class Course {
    const authored: Direction
    const speed: real
    const viewport: Bounds
    var seen: bool
    var scrolled: bool
    var lastDirection: Direction
    var lastAmount: real
    var passes: nat

    constructor (direction: Direction, speed: real, viewport: Bounds)
      ensures Abstract() == State(direction, speed, viewport, false, None, 0)
      ensures this.viewport == viewport && authored == direction
    {
      this.authored := direction;
      this.speed := speed;
      this.viewport := viewport;
      seen := false;
      scrolled := false;
      lastDirection := direction;
      lastAmount := 0.0;
      passes := 0;
    }

    ghost function Abstract(): State
      reads this
    {
      State(authored, speed, viewport, seen, if scrolled then Some(Request(lastDirection, lastAmount))
            else None, passes)
    }

    method Next(element: Option<Bounds>) returns (request: Request)
      modifies this
      ensures request == Chosen(old(Abstract()), element)
      ensures Abstract() == After(old(Abstract()), element)
    {
      if element.Some? {
        seen := true;
        var direction, amount := TowardViewport(element.value);
        request := Record(direction, amount);
      } else if seen && scrolled {
        passes := passes + 1;
        request := Record(Opposite(lastDirection), Max(lastAmount / 2.0, MINIMUM_STEP));
      } else {
        request := Record(authored, speed);
      }
    }

    method TowardViewport(bounds: Bounds) returns (direction: Direction, amount: real)
      ensures Request(direction, amount) == Toward(Abstract(), bounds)
    {
      var before, after, axis: real;
      var forward, backward: Direction;
      if Horizontal(authored) {
        before := viewport.x - bounds.x;
        after := (bounds.x + bounds.width) - (viewport.x + viewport.width);
        forward, backward, axis := Right, Left, viewport.width;
      } else {
        before := viewport.y - bounds.y;
        after := (bounds.y + bounds.height) - (viewport.y + viewport.height);
        forward, backward, axis := Down, Up, viewport.height;
      }
      before, after := Max(before, 0.0), Max(after, 0.0);
      if before == 0.0 && after == 0.0 {
        return authored, Min(speed, COVERED_STEP);
      }
      var overhang := after;
      direction := forward;
      if before > after {
        direction, overhang := backward, before;
      }
      if axis <= 0.0 {
        return direction, speed;
      }
      return direction, Min(speed, Max(overhang / axis, MINIMUM_STEP));
    }

    method Record(direction: Direction, amount: real) returns (request: Request)
      modifies this
      ensures request == Request(direction, amount)
      ensures Abstract() == old(Abstract()).(last := Some(request))
    {
      scrolled := true;
      lastDirection := direction;
      lastAmount := amount;
      request := Request(direction, amount);
    }
  }

  // ---------------------------------------------------------------------------
  // Amounts over a whole run
  // ---------------------------------------------------------------------------

  ghost function Begin(authored: Direction, speed: real, viewport: Bounds): State {
    State(authored, speed, viewport, false, None, 0)
  }

  /** The state after a list of observations. */
  ghost function Run(state: State, observations: seq<Option<Bounds>>): State {
    if observations == [] then state
    else After(Run(state, observations[..|observations| - 1]), observations[|observations| - 1])
  }

  ghost predicate Bounded(state: State, request: Request) {
    && Horizontal(request.direction) == Horizontal(state.authored)
    && Min(state.speed, MINIMUM_STEP) <= request.amount <= Max(state.speed, MINIMUM_STEP)
  }

  lemma ChosenIsBounded(state: State, element: Option<Bounds>)
    requires 0.0 < state.speed && (state.last.Some? ==> Bounded(state, state.last.value))
    ensures Bounded(state, Chosen(state, element))
  {
  }

  lemma {:induction false} RunIsBounded(state: State, observations: seq<Option<Bounds>>)
    requires 0.0 < state.speed && state.last.None?
    ensures var after := Run(state, observations);
            && after.authored == state.authored && after.speed == state.speed && after.viewport == state.viewport
            && (after.last.Some? ==> Bounded(state, after.last.value))
            && (observations != [] ==> after.last.Some?)
  {
    if observations != [] {
      var front := observations[..|observations| - 1];
      RunIsBounded(state, front);
      ChosenIsBounded(Run(state, front), observations[|observations| - 1]);
    }
  }

  ghost predicate AmountsWithin(state: State, low: real, high: real) {
    forall observations :: observations != [] ==> LastWithin(Run(state, observations), low, high)
  }

  ghost predicate LastWithin(state: State, low: real, high: real) {
    state.last.Some? ==> low <= state.last.value.amount <= high
  }

  /** No scroll of any run exceeds the authored speed, or falls below the minimum step, exactly when the
      authored speed is at least the minimum step. A slower course breaks both: its first search step is
      too small, and its first correction after losing the target is too large. */
  lemma {:induction false} AmountsStayWithinSpeed(authored: Direction, speed: real, viewport: Bounds, target: Bounds)
    requires 0.0 < speed
    ensures AmountsWithin(Begin(authored, speed, viewport), MINIMUM_STEP, speed) <==> MINIMUM_STEP <= speed
    ensures AmountsWithin(Begin(authored, speed, viewport), 0.0, speed) <==> MINIMUM_STEP <= speed
  {
    var state := Begin(authored, speed, viewport);
    if MINIMUM_STEP <= speed {
      forall observations: seq<Option<Bounds>> | observations != []
        ensures LastWithin(Run(state, observations), MINIMUM_STEP, speed)
        ensures LastWithin(Run(state, observations), 0.0, speed)
      {
        RunIsBounded(state, observations);
      }
    } else {
      SlowCourse(state, target);
      assert !LastWithin(Run(state, [Some(target), None]), 0.0, speed);
      assert !LastWithin(Run(state, [Some(target), None]), MINIMUM_STEP, speed);
    }
  }

  lemma SlowCourse(state: State, target: Bounds)
    requires 0.0 < state.speed < MINIMUM_STEP && state.last.None?
    ensures Run(state, [Some(target), None]).last.Some?
    ensures Run(state, [Some(target), None]).last.value.amount == MINIMUM_STEP
  {
    var observations := [Some(target), None];
    assert observations[..1] == [Some(target)];
    assert [Some(target)][..0] == [];
    assert Run(state, [Some(target)]) == After(state, Some(target));
    assert Run(state, observations) == After(After(state, Some(target)), None);
    ChosenIsBounded(state, Some(target));
  }
}
