/** What the scroll course achieves, when a scroll by some fraction moves the content by that fraction of
    the viewport. */
module ScrollTheorems {
  import opened Wrappers
  import opened ScrollCourse

  // ---------------------------------------------------------------------------
  // Searching for a lost target
  // ---------------------------------------------------------------------------

  /** The state after n observations without the target. */
  ghost function Lost(state: State, n: nat): State {
    if n == 0 then state else After(Lost(state, n - 1), None)
  }

  ghost function Signed(forward: bool, request: Request): real {
    if Forward(request.direction) == forward then request.amount else -request.amount
  }

  /** How far the content has moved, in the direction of the scroll that lost the target, since the
      target was last seen. */
  ghost function Net(state: State, n: nat): real
    requires state.last.Some?
  {
    if n == 0 then state.last.value.amount
    else
      var last := Lost(state, n).last;
      Net(state, n - 1) + (if last.Some? then Signed(Forward(state.last.value.direction), last.value) else 0.0)
  }

  /** The search alternates and never lengthens its steps, so it stays in the stretch it skipped. */
  lemma {:induction false} SearchInvariant(state: State, n: nat)
    requires state.seen && state.last.Some? && state.last.value.amount >= MINIMUM_STEP
    ensures Lost(state, n).seen && Lost(state, n).last.Some?
    ensures var a, step := state.last.value, Lost(state, n).last.value;
            && MINIMUM_STEP <= step.amount <= a.amount
            && (Forward(step.direction) == Forward(a.direction) <==> n % 2 == 0)
            && (n % 2 == 0 ==> step.amount <= Net(state, n) <= a.amount)
            && (n % 2 == 1 ==> 0.0 <= Net(state, n) <= a.amount - step.amount)
  {
    if n > 0 {
      SearchInvariant(state, n - 1);
    }
  }

  ghost predicate StaysBetween(state: State)
    requires state.last.Some?
  {
    forall n: nat :: 0.0 <= Net(state, n) <= state.last.value.amount
  }

  /** Over any number of observations without the target, the search keeps the content between where the
      target was last seen and where it was lost, exactly when the losing scroll was at least the minimum
      step; otherwise the first correction already overshoots. */
  lemma {:induction false} SearchStaysBetween(state: State)
    requires state.seen && state.last.Some? && 0.0 <= state.last.value.amount
    ensures StaysBetween(state) <==> state.last.value.amount >= MINIMUM_STEP
  {
    if state.last.value.amount >= MINIMUM_STEP {
      forall n: nat ensures 0.0 <= Net(state, n) <= state.last.value.amount {
        SearchInvariant(state, n);
      }
    } else {
      assert Lost(state, 0) == state;
      assert Lost(state, 1) == After(state, None);
      assert Net(state, 0) == state.last.value.amount;
      assert Net(state, 1) == state.last.value.amount - MINIMUM_STEP;
    }
  }

  // ---------------------------------------------------------------------------
  // Moving the target
  // ---------------------------------------------------------------------------

  /** A scroll forward moves the content back, by the given fraction of the viewport. */
  function Moved(bounds: Bounds, viewport: Bounds, request: Request): Bounds {
    var fraction := if Forward(request.direction) then -request.amount else request.amount;
    if Horizontal(request.direction) then bounds.(x := bounds.x + fraction * viewport.width)
    else bounds.(y := bounds.y + fraction * viewport.height)
  }

  /** A course and the target it chases, after n scrolls with the target on screen throughout. */
  ghost function Chase(state: State, bounds: Bounds, n: nat): (State, Bounds) {
    if n == 0 then (state, bounds)
    else
      var before := Chase(state, bounds, n - 1);
      (After(before.0, Some(before.1)), Moved(before.1, state.viewport, Chosen(before.0, Some(before.1))))
  }

  ghost function TargetAt(state: State, bounds: Bounds, n: nat): Span {
    Along(Horizontal(state.authored), Chase(state, bounds, n).1)
  }

  ghost function View(state: State): Span {
    Along(Horizontal(state.authored), state.viewport)
  }

  ghost function RequestAt(state: State, bounds: Bounds, n: nat): Request {
    Toward(state, Chase(state, bounds, n).1)
  }

  lemma {:induction false} ChaseStep(state: State, bounds: Bounds, n: nat)
    ensures Chase(state, bounds, n + 1).1 ==
            Moved(Chase(state, bounds, n).1, state.viewport, RequestAt(state, bounds, n))
    ensures Chase(state, bounds, n).0.authored == state.authored && Chase(state, bounds, n).0.speed == state.speed
    ensures Chase(state, bounds, n).0.viewport == state.viewport
  {
    if n > 0 {
      ChaseStep(state, bounds, n - 1);
    }
    SameCourseSameScroll(Chase(state, bounds, n).0, state, Chase(state, bounds, n).1);
  }

  lemma SameCourseSameScroll(a: State, b: State, bounds: Bounds)
    ensures a.authored == b.authored && a.speed == b.speed && a.viewport == b.viewport ==>
              Toward(a, bounds) == Toward(b, bounds)
  {
  }

  ghost function Over(forward: bool, target: Span, viewport: Span): real {
    if forward then OverAfter(target, viewport) else OverBefore(target, viewport)
  }

  /** The distance a correcting scroll moves the content, without divisions. */
  lemma AmountTimesAxis(speed: real, axis: real, overhang: real)
    requires axis > 0.0
    ensures Min(speed, Max(overhang / axis, MINIMUM_STEP)) * axis ==
            Min(speed * axis, Max(overhang, MINIMUM_STEP * axis))
  {
    var ratio := overhang / axis;
    assert ratio * axis == overhang;
    Scaled(ratio, MINIMUM_STEP, axis);
    Scaled(speed, Max(ratio, MINIMUM_STEP), axis);
  }

  lemma Scaled(a: real, b: real, axis: real)
    requires axis > 0.0
    ensures Max(a, b) * axis == Max(a * axis, b * axis) && Min(a, b) * axis == Min(a * axis, b * axis)
  {
    if a <= b {
      assert a * axis <= b * axis;
    } else {
      assert b * axis <= a * axis;
    }
  }

  lemma TowardOverhang(state: State, bounds: Bounds, forward: bool)
    requires View(state).extent > 0.0
    requires var target := Along(Horizontal(state.authored), bounds);
             Over(forward, target, View(state)) > 0.0 && Over(!forward, target, View(state)) == 0.0
    ensures var overhang := Over(forward, Along(Horizontal(state.authored), bounds), View(state));
            Toward(state, bounds) == Request(AxisDirection(Horizontal(state.authored), forward),
                                             Min(state.speed, Max(overhang / View(state).extent, MINIMUM_STEP)))
  {
    hide Min;
  }

  lemma MovedStart(state: State, bounds: Bounds, request: Request, travel: real)
    requires Horizontal(request.direction) == Horizontal(state.authored)
    requires request.amount * View(state).extent == travel
    ensures var target := Along(Horizontal(state.authored), bounds);
            Along(Horizontal(state.authored), Moved(bounds, state.viewport, request))
            == target.(start := if Forward(request.direction) then target.start - travel else target.start + travel)
  {
    assert (-request.amount) * View(state).extent == -(request.amount * View(state).extent);
  }

  /** The target moves back by the travelled distance when it hangs over on one side. */
  lemma MovedAlong(state: State, bounds: Bounds, forward: bool)
    requires View(state).extent > 0.0
    requires var target := Along(Horizontal(state.authored), bounds);
             Over(forward, target, View(state)) > 0.0 && Over(!forward, target, View(state)) == 0.0
    ensures Forward(Toward(state, bounds).direction) == forward
    ensures var target := Along(Horizontal(state.authored), bounds);
            var travel := Min(Reach(state), Max(Over(forward, target, View(state)), Least(state)));
            Along(Horizontal(state.authored), Moved(bounds, state.viewport, Toward(state, bounds)))
            == target.(start := if forward then target.start - travel else target.start + travel)
  {
    hide Over, Toward, Moved, View, Along;
    TowardOverhang(state, bounds, forward);
    var overhang := Over(forward, Along(Horizontal(state.authored), bounds), View(state));
    AmountTimesAxis(state.speed, View(state).extent, overhang);
    MovedStart(state, bounds, Toward(state, bounds), Min(Reach(state), Max(overhang, Least(state))));
  }

  // ---------------------------------------------------------------------------
  // Convergence
  // ---------------------------------------------------------------------------

  /** Targets that leave room for a minimum step, or for a whole step of a slower course. */
  ghost predicate LeavesRoom(state: State, extent: real) {
    extent <= (1.0 - Min(state.speed, MINIMUM_STEP)) * View(state).extent
  }

  /** The linear core: a step of the lesser of `reach` and the greater of overhang and `least`. */
  lemma LinearCorrection(target: Span, view: Span, forward: bool, reach: real, least: real)
    requires 0.0 < reach && 0.0 < least && target.extent <= view.extent - Min(reach, least)
    requires Over(forward, target, view) > 0.0 && Over(!forward, target, view) == 0.0
    ensures var overhang := Over(forward, target, view);
            var travel := Min(reach, Max(overhang, least));
            var moved := target.(start := if forward then target.start - travel else target.start + travel);
            || Inside(moved, view)
            || (Over(!forward, moved, view) == 0.0 && 0.0 < Over(forward, moved, view) == overhang - reach)
  {
  }

  /** The distances of a full step and of a minimum step. */
  ghost function Reach(state: State): real {
    state.speed * View(state).extent
  }

  ghost function Least(state: State): real {
    MINIMUM_STEP * View(state).extent
  }

  lemma RoomAlong(state: State, extent: real)
    requires 0.0 < state.speed && 0.0 < View(state).extent
    ensures LeavesRoom(state, extent) <==> extent <= View(state).extent - Min(Reach(state), Least(state))
    ensures 0.0 < Reach(state) && 0.0 < Least(state)
  {
    hide View;
    var axis, m := View(state).extent, Min(state.speed, MINIMUM_STEP);
    Scaled(state.speed, MINIMUM_STEP, axis);
    Distributes(m, axis);
  }

  lemma Distributes(m: real, axis: real)
    ensures (1.0 - m) * axis == axis - m * axis
  {
  }

  /** The target hangs over the viewport on the given side only. */
  ghost predicate HangsOver(state: State, target: Span, forward: bool) {
    Over(forward, target, View(state)) > 0.0 && Over(!forward, target, View(state)) == 0.0
  }

  /** One correction of a target that leaves room either brings it inside or takes a full step off its
      overhang. */
  lemma OneCorrection(state: State, bounds: Bounds, n: nat, forward: bool)
    requires 0.0 < state.speed && 0.0 < View(state).extent && LeavesRoom(state, TargetAt(state, bounds, n).extent)
    requires HangsOver(state, TargetAt(state, bounds, n), forward)
    ensures Forward(RequestAt(state, bounds, n).direction) == forward
    ensures var moved := TargetAt(state, bounds, n + 1);
            && moved.extent == TargetAt(state, bounds, n).extent
            && (|| Inside(moved, View(state))
                || (HangsOver(state, moved, forward)
                    && Over(forward, moved, View(state)) ==
                        Over(forward, TargetAt(state, bounds, n), View(state)) - Reach(state)))
  {
    hide Over, Toward, Moved, View, Along, Chase, LeavesRoom, Min, Max, Inside, Reach, Least;
    var target, view := TargetAt(state, bounds, n), View(state);
    ChaseStep(state, bounds, n);
    MovedAlong(state, Chase(state, bounds, n).1, forward);
    RoomAlong(state, target.extent);
    LinearCorrection(target, view, forward, Reach(state), Least(state));
  }

  /** The first k scrolls all go one way, and only the last of them brings the target inside. */
  ghost predicate ArrivesAfter(state: State, bounds: Bounds, forward: bool, from: nat, k: nat) {
    && from <= k && Inside(TargetAt(state, bounds, k), View(state))
    && forall j :: from <= j < k ==>
         !Inside(TargetAt(state, bounds, j), View(state)) && Forward(RequestAt(state, bounds, j).direction) == forward
  }

  lemma {:induction false} ArrivesFrom(state: State, bounds: Bounds, forward: bool, from: nat, steps: nat)
    returns (k: nat)
    requires 0.0 < state.speed && 0.0 < View(state).extent && LeavesRoom(state, TargetAt(state, bounds, from).extent)
    requires HangsOver(state, TargetAt(state, bounds, from), forward)
    requires Over(forward, TargetAt(state, bounds, from), View(state)) <= steps as real * Reach(state)
    ensures k <= from + steps && ArrivesAfter(state, bounds, forward, from, k)
    decreases steps
  {
    hide Over, View, Along, Chase, LeavesRoom, Min, Max, Inside, RequestAt, TargetAt, Reach, Least, FullSteps;
    var reach := Reach(state);
    OneCorrection(state, bounds, from, forward);
    HangingIsOutside(state, TargetAt(state, bounds, from), forward);
    if Inside(TargetAt(state, bounds, from + 1), View(state)) {
      k := from + 1;
      StepsArePositive(steps, reach, Over(forward, TargetAt(state, bounds, from), View(state)));
    } else {
      StepsArePositive(steps, reach, Over(forward, TargetAt(state, bounds, from), View(state)));
      k := ArrivesFrom(state, bounds, forward, from + 1, steps - 1);
    }
  }

  lemma HangingIsOutside(state: State, target: Span, forward: bool)
    requires HangsOver(state, target, forward)
    ensures !Inside(target, View(state))
  {
  }

  lemma StepsArePositive(steps: nat, reach: real, overhang: real)
    requires 0.0 < overhang <= steps as real * reach
    ensures steps > 0 && overhang - reach <= (steps - 1) as real * reach
  {
    if steps > 0 {
      assert (steps - 1) as real * reach == steps as real * reach - reach;
    }
  }

  function Ceiling(x: real): int {
    -(-x).Floor
  }

  /** How many scrolls at the authored speed it takes to move by the overhang, rounded up. */
  ghost function FullSteps(state: State, overhang: real): int {
    if Reach(state) > 0.0 then Ceiling(overhang / Reach(state)) else 0
  }

  lemma FullStepsOf(state: State, overhang: real)
    requires 0.0 < Reach(state)
    ensures FullSteps(state, overhang) == Ceiling(overhang / Reach(state))
  {
    hide Ceiling;
  }

  /** Convergence: a target that leaves room and hangs over one edge is fully inside after at most the
      overhang divided by a full step, rounded up, and all those scrolls go the same way. */
  lemma {:induction false} OverhangIsScrolledAway(state: State, bounds: Bounds, forward: bool) returns (k: nat)
    requires 0.0 < state.speed && 0.0 < View(state).extent && LeavesRoom(state, TargetAt(state, bounds, 0).extent)
    requires HangsOver(state, TargetAt(state, bounds, 0), forward)
    ensures ArrivesAfter(state, bounds, forward, 0, k)
    ensures k <= FullSteps(state, Over(forward, TargetAt(state, bounds, 0), View(state)))
  {
    hide Over, View, Along, Chase, LeavesRoom, Min, Max, Inside, RequestAt, TargetAt, Reach, Least, FullSteps;
    RoomAlong(state, TargetAt(state, bounds, 0).extent);
    var overhang, reach := Over(forward, TargetAt(state, bounds, 0), View(state)), Reach(state);
    CeilingCovers(overhang, reach);
    FullStepsOf(state, overhang);
    k := ArrivesFrom(state, bounds, forward, 0, FullSteps(state, overhang));
  }

  lemma CeilingCovers(overhang: real, reach: real)
    requires 0.0 < overhang && 0.0 < reach
    ensures Ceiling(overhang / reach) >= 0 && overhang <= Ceiling(overhang / reach) as real * reach
  {
    var ratio := overhang / reach;
    assert ratio * reach == overhang;
    assert ratio <= Ceiling(ratio) as real;
    assert ratio > 0.0;
    assert (Ceiling(ratio) as real - ratio) * reach >= 0.0;
  }

  // ---------------------------------------------------------------------------
  // The room is needed
  // ---------------------------------------------------------------------------

  ghost predicate Arrives(state: State, bounds: Bounds) {
    exists n: nat :: Inside(TargetAt(state, bounds, n), View(state))
  }

  lemma OneSided(state: State, target: Span)
    requires target.extent <= View(state).extent && !Inside(target, View(state))
    ensures HangsOver(state, target, true) || HangsOver(state, target, false)
  {
    hide View;
  }

  /** The bounds with the given stretch along the axis of the course. */
  function Placed(horizontal: bool, target: Span): (bounds: Bounds)
    ensures Along(horizontal, bounds) == target
  {
    if horizontal then Bounds(target.start, 0.0, target.extent, 0.0) else Bounds(0.0, target.start, 0.0, target.extent)
  }

  /** A start from which a target without room swings to and fro: it hangs over the end by half of what
      the shortest scroll carries it past the start. */
  ghost function Swinging(state: State, extent: real, odd: bool): Span {
    var view := View(state);
    var excess := Min(Reach(state), Least(state)) - (view.extent - extent);
    Span(if odd then view.start - excess / 2.0 else view.start + view.extent - extent + excess / 2.0, extent)
  }

  lemma LinearSwing(target: Span, view: Span, forward: bool, reach: real, least: real)
    requires 0.0 < reach && 0.0 < least && view.extent - Min(reach, least) < target.extent <= view.extent
    requires var excess := Min(reach, least) - (view.extent - target.extent);
             target.start == if forward then view.start + view.extent - target.extent + excess / 2.0
                 else view.start - excess / 2.0
    ensures Over(forward, target, view) > 0.0 && Over(!forward, target, view) == 0.0
    ensures Min(reach, Max(Over(forward, target, view), least)) == Min(reach, least)
  {
  }

  lemma {:induction false} SwingsForever(state: State, extent: real, n: nat)
    requires 0.0 < state.speed && 0.0 < View(state).extent
    requires !LeavesRoom(state, extent) && extent <= View(state).extent
    ensures TargetAt(state, Placed(Horizontal(state.authored), Swinging(state, extent, false)), n) ==
            Swinging(state, extent, n % 2 == 1)
    ensures !Inside(Swinging(state, extent, n % 2 == 1), View(state))
  {
    hide View, Along, Chase, LeavesRoom, Reach, Least, Toward, Moved;
    RoomAlong(state, extent);
    var bounds := Placed(Horizontal(state.authored), Swinging(state, extent, false));
    LinearSwing(Swinging(state, extent, n % 2 == 1), View(state), n % 2 == 0, Reach(state), Least(state));
    HangingIsOutside(state, Swinging(state, extent, n % 2 == 1), n % 2 == 0);
    if n == 0 {
      ChaseBegins(state, bounds);
    } else {
      SwingsForever(state, extent, n - 1);
      var forward := n % 2 == 1;
      LinearSwing(Swinging(state, extent, !forward), View(state), forward, Reach(state), Least(state));
      ChaseStep(state, bounds, n - 1);
      MovedAlong(state, Chase(state, bounds, n - 1).1, forward);
    }
  }

  lemma ChaseBegins(state: State, bounds: Bounds)
    ensures Chase(state, bounds, 0) == (state, bounds)
  {
  }

  lemma {:induction false} ExtentStays(state: State, bounds: Bounds, n: nat)
    ensures TargetAt(state, bounds, n).extent == TargetAt(state, bounds, 0).extent
  {
    if n > 0 {
      ExtentStays(state, bounds, n - 1);
    }
  }

  lemma RoomConverges(state: State, bounds: Bounds)
    requires 0.0 < state.speed && 0.0 < View(state).extent && LeavesRoom(state, TargetAt(state, bounds, 0).extent)
    ensures Arrives(state, bounds)
  {
    hide View, Chase, LeavesRoom, Reach, Least, Inside;
    RoomAlong(state, TargetAt(state, bounds, 0).extent);
    if !Inside(TargetAt(state, bounds, 0), View(state)) {
      OneSided(state, TargetAt(state, bounds, 0));
      var k := OverhangIsScrolledAway(state, bounds, HangsOver(state, TargetAt(state, bounds, 0), true));
      assert Inside(TargetAt(state, bounds, k), View(state));
    }
  }

  lemma NoRoomDiverges(state: State, extent: real)
    requires 0.0 < state.speed && 0.0 < View(state).extent && !LeavesRoom(state, extent)
    ensures !Arrives(state, Placed(Horizontal(state.authored), Swinging(state, extent, false)))
  {
    hide View, Chase, LeavesRoom, Reach, Least;
    var bounds := Placed(Horizontal(state.authored), Swinging(state, extent, false));
    forall n: nat ensures !Inside(TargetAt(state, bounds, n), View(state)) {
      if extent <= View(state).extent {
        SwingsForever(state, extent, n);
      } else {
        ChaseBegins(state, bounds);
        ExtentStays(state, bounds, n);
      }
    }
  }

  /** Targets of an extent are brought inside from wherever they are, exactly when the extent leaves room
      for the shortest scroll; a larger target can swing to and fro for ever although it would fit. */
  lemma {:induction false} ArrivesExactlyWithRoom(state: State, extent: real)
    requires 0.0 < state.speed && 0.0 < View(state).extent
    ensures LeavesRoom(state, extent) <==>
            forall bounds :: Along(Horizontal(state.authored), bounds).extent == extent ==> Arrives(state, bounds)
  {
    hide View, Along, Chase, LeavesRoom, Arrives, Swinging;
    if LeavesRoom(state, extent) {
      forall bounds | Along(Horizontal(state.authored), bounds).extent == extent ensures Arrives(state, bounds) {
        ChaseBegins(state, bounds);
        RoomConverges(state, bounds);
      }
    } else {
      NoRoomDiverges(state, extent);
      SwingingExtent(state, extent);
    }
  }

  lemma SwingingExtent(state: State, extent: real)
    ensures Along(Horizontal(state.authored),
                  Placed(Horizontal(state.authored), Swinging(state, extent, false))).extent == extent
  {
  }

  // ---------------------------------------------------------------------------
  // The observation loop
  // ---------------------------------------------------------------------------

  datatype Ending = Accepted | TimedOut | Exhausted

  /** The first n observations. */
  function First(observations: nat -> Option<Bounds>, n: nat): (first: seq<Option<Bounds>>)
    ensures |first| == n && forall i :: 0 <= i < n ==> first[i] == observations(i)
  {
    seq(n, i requires 0 <= i < n => observations(i))
  }

  /** What the loop does with the i-th observations, verdicts and clock readings of a run. */
  ghost predicate Pursued(state: State, observations: nat -> Option<Bounds>, accepts: nat -> bool, expired: nat -> bool,
                          requests: seq<Request>, ending: Ending)
  {
    var n := |requests|;
    && n <= 1200
    && (forall i :: 0 <= i < n ==> requests[i] == Chosen(Run(state, First(observations, i)), observations(i)))
    && (forall i :: 0 <= i < n ==> !accepts(i) && !expired(i))
    && (ending.Accepted? <==> accepts(n))
    && (ending.TimedOut? <==> !accepts(n) && expired(n))
    && (ending.Exhausted? ==> n == 1200)
  }

  /** Observes, judges, and scrolls, until the target is accepted, time is up, or the guard stops it. */
  method ExecuteScrollUntilVisible(direction: Direction, speed: real, viewport: Bounds,
                                   observations: nat -> Option<Bounds>, accepts: nat -> bool, expired: nat -> bool)
    returns (requests: seq<Request>, ending: Ending)
    ensures Pursued(Begin(direction, speed, viewport), observations, accepts, expired, requests, ending)
  {
    hide Run, Chosen, After;
    var course := new Course(direction, speed, viewport);
    ghost var state := course.Abstract();
    requests := [];
    RunBegins(state);
    assert First(observations, 0) == [];
    var observation := 1;
    while observation <= MAXIMUM_OBSERVATIONS
      invariant 1 <= observation <= MAXIMUM_OBSERVATIONS && |requests| == observation - 1
      invariant course.Abstract() == Run(state, First(observations, |requests|))
      invariant forall i :: 0 <= i < |requests| ==>
                requests[i] == Chosen(Run(state, First(observations, i)), observations(i))
      invariant forall i :: 0 <= i < |requests| ==> !accepts(i) && !expired(i)
    {
      var index := observation - 1;
      if accepts(index) {
        return requests, Accepted;
      }
      if expired(index) {
        return requests, TimedOut;
      }
      if observation >= MAXIMUM_OBSERVATIONS {
        return requests, Exhausted;
      }
      var request := course.Next(observations(index));
      RunStep(state, observations, index);
      requests := requests + [request];
      observation := observation + 1;
    }
    return requests, Exhausted;
  }

  lemma RunBegins(state: State)
    ensures Run(state, []) == state
  {
  }

  lemma RunStep(state: State, observations: nat -> Option<Bounds>, n: nat)
    ensures Run(state, First(observations, n + 1)) == After(Run(state, First(observations, n)), observations(n))
  {
    hide After;
    var all := First(observations, n + 1);
    assert all[..|all| - 1] == First(observations, n);
    assert all[|all| - 1] == observations(n);
  }

  /** The target was seen before observation n. */
  ghost predicate SeenBefore(observations: nat -> Option<Bounds>, n: nat) {
    exists i: nat :: i < n && observations(i).Some?
  }

  /** What the course knows before observation n: whether the target was seen, and the latest scroll. */
  lemma {:induction false} CourseRemembers(state: State, observations: nat -> Option<Bounds>, n: nat)
    requires !state.seen && state.last.None?
    ensures var run := Run(state, First(observations, n));
            && run.authored == state.authored && run.speed == state.speed && run.viewport == state.viewport
            && (run.seen <==> SeenBefore(observations, n))
            && (n > 0 ==> run.last == Some(Chosen(Run(state, First(observations, n - 1)), observations(n - 1))))
  {
    hide Run, Chosen;
    if n == 0 {
      RunBegins(state);
      assert First(observations, 0) == [];
    } else {
      CourseRemembers(state, observations, n - 1);
      RunStep(state, observations, n - 1);
      if observations(n - 1).Some? {
        assert SeenBefore(observations, n);
      }
    }
  }

  /** The scroll that is due after the target was seen at `bounds`: as authored, in small steps, while it is
      covered; otherwise toward the side it hangs over further, as far as it hangs over, but neither less than
      the minimum step nor faster than authored. */
  ghost predicate DueToward(direction: Direction, speed: real, target: Span, view: Span, request: Request) {
    var before, after := view.start - target.start, target.start + target.extent - (view.start + view.extent);
    if before <= 0.0 && after <= 0.0 then
      request.direction == direction && request.amount == (if speed <= 0.25 then speed else 0.25)
    else
      && request.direction == (if direction in {Left, Right} then (if after >= before then Right else Left)
                              else (if after >= before then Down else Up))
      && (view.extent <= 0.0 ==> request.amount == speed)
      && (view.extent > 0.0 ==>
            var share := (if after >= before then after else before) / view.extent;
            var step := if share >= 0.05 then share else 0.05;
            request.amount == if speed <= step then speed else step)
  }

  /** A lost target was passed: back, by half of the last scroll, but no less than the minimum step. */
  ghost predicate DueBack(last: Request, request: Request) {
    && request.direction == (match last.direction
                             case Up => Down
                             case Down => Up
                             case Left => Right
                             case Right => Left)
    && request.amount == if last.amount / 2.0 >= 0.05 then last.amount / 2.0 else 0.05
  }

  lemma TowardIsDue(state: State, bounds: Bounds)
    ensures DueToward(state.authored, state.speed, Along(Horizontal(state.authored), bounds),
                      Along(Horizontal(state.authored), state.viewport), Toward(state, bounds))
  {
    hide Along;
  }

  /** Every scroll follows from the observations alone. Until the target is first seen the search goes on as
      authored; a target on screen is scrolled toward; a lost one is gone back for. */
  lemma {:induction false} EveryScrollIsDue(direction: Direction, speed: real, viewport: Bounds,
                                            observations: nat -> Option<Bounds>, accepts: nat -> bool,
                                            expired: nat -> bool, requests: seq<Request>, ending: Ending, i: nat)
    requires Pursued(Begin(direction, speed, viewport), observations, accepts, expired, requests, ending)
    requires i < |requests|
    ensures observations(i).Some? ==>
              DueToward(direction, speed, Along(Horizontal(direction), observations(i).value),
                        Along(Horizontal(direction), viewport), requests[i])
    ensures observations(i).None? && !SeenBefore(observations, i) ==> requests[i] == Request(direction, speed)
    ensures observations(i).None? && SeenBefore(observations, i) ==> i > 0 && DueBack(requests[i - 1], requests[i])
  {
    hide Run, Along, Toward, DueToward;
    var state := Begin(direction, speed, viewport);
    CourseRemembers(state, observations, i);
    var run := Run(state, First(observations, i));
    if observations(i).Some? {
      TowardIsDue(run, observations(i).value);
    }
  }

  /** The observations are those of a target that stays on screen and moves with the scrolls. */
  ghost predicate Observed(state: State, bounds: Bounds, observations: nat -> Option<Bounds>) {
    forall i: nat :: observations(i) == Some(Chase(state, bounds, i).1)
  }

  /** End to end: a target that stays on screen, leaves room, hangs over one edge and is accepted once it
      is inside is found after at most the overhang divided by a full step, rounded up, unless time or
      the observation guard runs out before. */
  lemma {:induction false} VisibleTargetIsFound(state: State, bounds: Bounds, forward: bool,
                                                observations: nat -> Option<Bounds>,
                                                accepts: nat -> bool, expired: nat -> bool,
                                                requests: seq<Request>, ending: Ending)
    requires 0.0 < state.speed && 0.0 < View(state).extent && LeavesRoom(state, TargetAt(state, bounds, 0).extent)
    requires HangsOver(state, TargetAt(state, bounds, 0), forward) && Observed(state, bounds, observations)
    requires Pursued(state, observations, accepts, expired, requests, ending)
    requires forall i: nat :: Inside(TargetAt(state, bounds, i), View(state)) ==> accepts(i)
    ensures |requests| <= FullSteps(state, Over(forward, TargetAt(state, bounds, 0), View(state)))
    ensures forall i :: 0 <= i < |requests| ==> Forward(requests[i].direction) == forward
    ensures ending.TimedOut? ==> expired(|requests|)
    ensures ending.Exhausted? ==>
              FullSteps(state, Over(forward, TargetAt(state, bounds, 0), View(state))) > 1200
  {
    hide Over, View, Along, LeavesRoom, Inside, TargetAt, Reach, Run, Chosen, Ceiling, FullSteps;
    var k := OverhangIsScrolledAway(state, bounds, forward);
    assert accepts(k);
    forall i | 0 <= i < |requests| ensures Forward(requests[i].direction) == forward {
      ObservedRun(state, bounds, observations, i);
      assert i < k;
      assert Forward(RequestAt(state, bounds, i).direction) == forward;
    }
  }

  lemma {:induction false} ObservedRun(state: State, bounds: Bounds, observations: nat -> Option<Bounds>, n: nat)
    requires Observed(state, bounds, observations)
    ensures Run(state, First(observations, n)) == Chase(state, bounds, n).0
    ensures Chosen(Run(state, First(observations, n)), observations(n)) == RequestAt(state, bounds, n)
  {
    hide Toward;
    ChaseStep(state, bounds, n);
    SameCourseSameScroll(Chase(state, bounds, n).0, state, Chase(state, bounds, n).1);
    if n == 0 {
      RunBegins(state);
    } else {
      ObservedRun(state, bounds, observations, n - 1);
      RunStep(state, observations, n - 1);
    }
  }
}
