// Routing of captured input into the control state machine (crates/akraz-daemon/src/lib.rs):
// while control is local, pointer deltas move a tracked pointer and are offered to the
// edge-crossing test; everything else reaches the machine as plain input.
module Router {
  import opened Wrappers
  import opened Ints
  import opened Geometry
  import opened CoreState
  import opened RuntimeInput

  datatype Routing = Routing(core: CoreState, pointer: Point, layout: ScreenLayout)

  function Moved(p: Point, dx: i32, dy: i32): Point { Point(SatAdd(p.x, dx), SatAdd(p.y, dy)) }

  function Route(r: Routing, event: InputEvent): (Routing, Response) {
    if event.PointerMoved? && r.core.control.Local? then
      var next := Moved(r.pointer, event.deltaX, event.deltaY);
      var (core, response) := Step(r.core, LocalPointerMoved(r.pointer, next, r.layout));
      (Routing(core, next, r.layout), response)
    else
      var (core, response) := Step(r.core, Input(event));
      (r.(core := core), response)
  }

  // The desktop was read and found to have these bounds, with the pointer at this position. A failed
  // dispatch of the recovery leaves the router as it was.
  function Inspect(r: Routing, bounds: Rect, pointer: Point, dispatched: bool): (Routing, Response) {
    if bounds == r.layout.bounds then (r, Ok([]))
    else
      var (core, response) := Step(r.core, ScreenLayoutChanged);
      (if dispatched then Routing(core, pointer, ScreenLayout(bounds, r.layout.bindings)) else r.(core := core),
       response)
  }

  // Captured input can never cause a transition error.
  lemma {:induction false} CapturedInputIsAlwaysAccepted(r: Routing, event: InputEvent)
    ensures Route(r, event).1.Ok?
  {
  }

  class CapturedInputRouter {
    var screenLayout: ScreenLayout
    var currentPointer: Point

    constructor (layout: ScreenLayout, pointer: Point)
      ensures screenLayout == layout && currentPointer == pointer
    {
      screenLayout, currentPointer := layout, pointer;
    }

    ghost function With(state: RuntimeInputState): Routing
      reads this, state
      requires state.Valid()
    {
      Routing(state.Abstract(), currentPointer, screenLayout)
    }

    method ApplyRoutedCaptureEvent(state: RuntimeInputState, event: InputEvent) returns (response: Response)
      requires state.Valid()
      modifies this, state
      ensures state.Valid() && (With(state), response) == Route(old(With(state)), event)
      ensures response.Ok?
    {
      if event.PointerMoved? && state.mode == LocalMode {
        var previous := currentPointer;
        var next := Point(SatAdd(previous.x, event.deltaX), SatAdd(previous.y, event.deltaY));
        currentPointer := next;
        response := state.ApplyEvent(LocalPointerMoved(previous, next, screenLayout));
      } else {
        response := state.ApplyEvent(Input(event));
      }
    }

    // A changed desktop recovers local control; once the recovery has been dispatched, the router
    // takes over the new bounds and the pointer position that was read with them.
    method InspectDesktop(state: RuntimeInputState, bounds: Rect, pointer: Point, dispatched: bool)
      returns (response: Response)
      requires state.Valid()
      modifies this, state
      ensures state.Valid() && (With(state), response) == Inspect(old(With(state)), bounds, pointer, dispatched)
    {
      if bounds == screenLayout.bounds {
        return Ok([]);
      }
      response := state.ApplyEvent(ScreenLayoutChanged);
      if dispatched {
        currentPointer := pointer;
        screenLayout := ScreenLayout(bounds, screenLayout.bindings);
      }
    }

    // Take at most `maxEvents` events off the captured queue; `left` is what stays on it.
    method DrainReadyCaptureEvents(state: RuntimeInputState, queue: seq<InputEvent>, maxEvents: nat)
      returns (actions: seq<CoreAction>, left: seq<InputEvent>)
      requires state.Valid()
      modifies this, state
      ensures state.Valid()
      ensures var taken := if maxEvents <= |queue| then maxEvents else |queue|;
        && left == queue[taken..]
        && Drain(old(With(state)), queue[..taken]) == (With(state), actions)
    {
      actions, left := [], queue;
      var taken := 0;
      assert queue[..0] == [];
      while taken < maxEvents && left != []
        invariant 0 <= taken <= |queue| && taken <= maxEvents
        invariant state.Valid() && left == queue[taken..]
        invariant Drain(old(With(state)), queue[..taken]) == (With(state), actions)
      {
        DrainOneMore(old(With(state)), queue[..taken], left[0]);
        assert queue[..taken + 1] == queue[..taken] + [left[0]];
        var response := ApplyRoutedCaptureEvent(state, left[0]);
        actions := actions + response.value;
        left := left[1..];
        taken := taken + 1;
      }
    }
  }

  // The state and the concatenated actions after routing every event in turn.
  function Drain(r: Routing, events: seq<InputEvent>): (Routing, seq<CoreAction>)
    decreases |events|
  {
    if events == [] then (r, [])
    else
      var (r', response) := Route(r, events[0]);
      var (end, actions) := Drain(r', events[1..]);
      (end, (if response.Ok? then response.value else []) + actions)
  }

  lemma {:induction false} DrainConcat(r: Routing, a: seq<InputEvent>, b: seq<InputEvent>)
    ensures Drain(r, a + b) ==
      (Drain(Drain(r, a).0, b).0, Drain(r, a).1 + Drain(Drain(r, a).0, b).1)
    decreases |a|
  {
    if a == [] {
      assert a + b == b && [] + Drain(r, b).1 == Drain(r, b).1;
    } else {
      assert (a + b)[1..] == a[1..] + b;
      var (r', response) := Route(r, a[0]);
      DrainConcat(r', a[1..], b);
      var first := if response.Ok? then response.value else [];
      var (mid, actions) := Drain(r', a[1..]);
      assert first + (actions + Drain(mid, b).1) == (first + actions) + Drain(mid, b).1;
    }
  }

  lemma {:induction false} DrainOneMore(r: Routing, events: seq<InputEvent>, last: InputEvent)
    ensures var before := Drain(r, events);
      && Route(before.0, last).1.Ok?
      && Drain(r, events + [last]) == (Route(before.0, last).0, before.1 + Route(before.0, last).1.value)
  {
    DrainConcat(r, events, [last]);
    var before := Drain(r, events);
    CapturedInputIsAlwaysAccepted(before.0, last);
    var one := Route(before.0, last);
    assert Drain(before.0, [last]) == (one.0, one.1.value + []);
    assert one.1.value + [] == one.1.value;
  }

  function Flatten(batches: seq<seq<InputEvent>>): seq<InputEvent> {
    if batches == [] then [] else batches[0] + Flatten(batches[1..])
  }

  function DrainBatches(r: Routing, batches: seq<seq<InputEvent>>): (Routing, seq<CoreAction>)
    decreases |batches|
  {
    if batches == [] then (r, [])
    else
      var (r', actions) := Drain(r, batches[0]);
      var (end, more) := DrainBatches(r', batches[1..]);
      (end, actions + more)
  }

  // How a captured stream is cut into batches changes neither the final state nor the actions.
  lemma {:induction false} BatchingIsIrrelevant(r: Routing, one: seq<seq<InputEvent>>, other: seq<seq<InputEvent>>)
    requires Flatten(one) == Flatten(other)
    ensures DrainBatches(r, one) == DrainBatches(r, other)
  {
    BatchesAreOneDrain(r, one);
    BatchesAreOneDrain(r, other);
  }

  lemma {:induction false} BatchesAreOneDrain(r: Routing, batches: seq<seq<InputEvent>>)
    ensures DrainBatches(r, batches) == Drain(r, Flatten(batches))
    decreases |batches|
  {
    if batches == [] {
    } else {
      DrainConcat(r, batches[0], Flatten(batches[1..]));
      BatchesAreOneDrain(Drain(r, batches[0]).0, batches[1..]);
    }
  }

  // ---- Crossing hysteresis ---------------------------------------------------------------------

  // Captured input interleaved with inspections of the desktop and with the runtime events of other
  // parts of the daemon.
  datatype Happening =
    | Captured(input: InputEvent)
    | Runtime(event: RuntimeEvent)
    | Inspected(bounds: Rect, pointer: Point, dispatched: bool)

  // Pointer positions reach the machine only through captured input, and changes of the screen
  // layout only through inspections.
  predicate IsOrdinary(h: Happening) {
    h.Runtime? ==> !h.event.LocalPointerMoved? && !h.event.ScreenLayoutChanged?
  }

  predicate Ordinary(happenings: seq<Happening>) {
    forall i :: 0 <= i < |happenings| ==> IsOrdinary(happenings[i])
  }

  function Happen(r: Routing, h: Happening): (Routing, Response) {
    match h
    case Captured(input) => Route(r, input)
    case Runtime(event) => var (core, response) := Step(r.core, event); (r.(core := core), response)
    case Inspected(bounds, pointer, dispatched) => Inspect(r, bounds, pointer, dispatched)
  }

  // The routing state before happening `i`.
  function At(r: Routing, happenings: seq<Happening>, i: nat): Routing
    requires i <= |happenings|
  {
    if i == 0 then r else Happen(At(r, happenings, i - 1), happenings[i - 1]).0
  }

  // Happening `i` starts a session because the pointer crossed an edge.
  predicate StartsByPointer(r: Routing, happenings: seq<Happening>, i: nat)
    requires i < |happenings|
  {
    var response := Happen(At(r, happenings, i), happenings[i]).1;
    response.Ok? && exists a :: a in response.value && a.StartRemoteSession? && a.crossing.Some?
  }

  predicate PointerInside(r: Routing) { r.layout.bounds.Contains(r.pointer) }

  // The tracked pointer and the bounds were replaced by those of a changed desktop.
  predicate ChangesLayout(r: Routing, happenings: seq<Happening>, k: nat)
    requires k < |happenings|
  {
    happenings[k].Inspected? && happenings[k].dispatched && happenings[k].bounds != At(r, happenings, k).layout.bounds
  }

  // A captured movement under local control brought the tracked pointer back inside the bounds.
  predicate Reenters(r: Routing, happenings: seq<Happening>, k: nat)
    requires k < |happenings|
  {
    && happenings[k].Captured? && At(r, happenings, k).core.control.Local?
    && !PointerInside(At(r, happenings, k)) && PointerInside(At(r, happenings, k + 1))
  }

  lemma {:induction false} PointerStartLeavesTheBounds(r: Routing, h: Happening)
    requires IsOrdinary(h) && Happen(r, h).1.Ok?
    requires exists a :: a in Happen(r, h).1.value && a.StartRemoteSession? && a.crossing.Some?
    ensures PointerInside(r) && !PointerInside(Happen(r, h).0)
  {
  }

  lemma {:induction false} PointerMovesOnlyLocally(r: Routing, h: Happening)
    requires IsOrdinary(h) && !(h.Inspected? && h.dispatched && h.bounds != r.layout.bounds)
    ensures Happen(r, h).0.layout == r.layout
    ensures Happen(r, h).0.pointer != r.pointer ==> h.Captured? && r.core.control.Local?
  {
  }

  // After a session was started by a crossing, no second one is, until a captured movement under
  // local control has brought the tracked pointer back inside the bounds or the layout has changed.
  lemma {:induction false} NoSecondCrossingBeforeReentry(r: Routing, happenings: seq<Happening>, i: nat, j: nat)
    returns (k: nat)
    requires Ordinary(happenings) && i < j < |happenings|
    requires StartsByPointer(r, happenings, i) && StartsByPointer(r, happenings, j)
    ensures i < k < j && (Reenters(r, happenings, k) || ChangesLayout(r, happenings, k))
  {
    StartLeavesTheBounds(r, happenings, i);
    StartLeavesTheBounds(r, happenings, j);
    k := FirstReturn(r, happenings, i + 1, j);
  }

  lemma {:induction false} StartLeavesTheBounds(r: Routing, happenings: seq<Happening>, i: nat)
    requires Ordinary(happenings) && i < |happenings| && StartsByPointer(r, happenings, i)
    ensures PointerInside(At(r, happenings, i)) && !PointerInside(At(r, happenings, i + 1))
  {
    PointerStartLeavesTheBounds(At(r, happenings, i), happenings[i]);
    assert At(r, happenings, i + 1) == Happen(At(r, happenings, i), happenings[i]).0;
  }

  lemma {:induction false} FirstReturn(r: Routing, happenings: seq<Happening>, from: nat, to: nat) returns (k: nat)
    requires Ordinary(happenings) && from <= to < |happenings|
    requires !PointerInside(At(r, happenings, from)) && PointerInside(At(r, happenings, to))
    ensures from <= k < to && (Reenters(r, happenings, k) || ChangesLayout(r, happenings, k))
    decreases |happenings| - from
  {
    if ChangesLayout(r, happenings, from) {
      k := from;
    } else {
      PointerMovesOnlyLocally(At(r, happenings, from), happenings[from]);
      if PointerInside(At(r, happenings, from + 1)) {
        k := from;
      } else {
        k := FirstReturn(r, happenings, from + 1, to);
      }
    }
  }

  // A layout change does allow a second crossing without any movement back: the pointer leaves a
  // desktop on the right, the desktop grows and the pointer is read at its new right edge, and one
  // more step to the right leaves it again.
  lemma {:induction false} LayoutChangeAllowsASecondCrossing()
    returns (r: Routing, happenings: seq<Happening>)
    ensures Ordinary(happenings) && |happenings| == 3 && happenings[1].Inspected?
    ensures StartsByPointer(r, happenings, 0) && StartsByPointer(r, happenings, 2)
    ensures ChangesLayout(r, happenings, 1) && !Reenters(r, happenings, 1)
  {
    var small, large := Rect(Point(0, 0), Size(1920, 1080)), Rect(Point(0, 0), Size(2560, 1440));
    var layout := ScreenLayout(small, [EdgeBinding(RightEdge, "right-peer", LeftEdge)]);
    r := Routing(Fresh, Point(1919, 500), layout);
    var step := Captured(PointerMoved(1, 0));
    happenings := [step, Inspected(large, Point(2559, 720), true), step];
    GrowingDesktopCrossesTwice(r, happenings, "right-peer");
  }

  lemma {:induction false} GrowingDesktopCrossesTwice(r: Routing, happenings: seq<Happening>, peer: string)
    requires |happenings| == 3 && happenings[0] == happenings[2] == Captured(PointerMoved(1, 0))
    requires happenings[1].Inspected? && happenings[1].dispatched && happenings[1].bounds != r.layout.bounds
    requires r.core.control.Local? && r.layout.bindings == [EdgeBinding(RightEdge, peer, LeftEdge)]
    requires AtRightEdge(r.pointer, r.layout.bounds) && AtRightEdge(happenings[1].pointer, happenings[1].bounds)
    ensures StartsByPointer(r, happenings, 0) && StartsByPointer(r, happenings, 2)
    ensures ChangesLayout(r, happenings, 1)
  {
    StepRightCrosses(r, PointerMoved(1, 0), peer);
    assert At(r, happenings, 0) == r && At(r, happenings, 1) == Happen(r, happenings[0]).0;
    var r1 := At(r, happenings, 1);
    assert At(r, happenings, 2) == Happen(r1, happenings[1]).0;
    StepRightCrosses(At(r, happenings, 2), PointerMoved(1, 0), peer);
  }

  predicate AtRightEdge(p: Point, bounds: Rect) { bounds.Contains(p) && p.x + 1 == bounds.Right() }

  lemma {:induction false} StepRightCrosses(r: Routing, step: InputEvent, peer: string)
    requires r.core.control.Local? && step == PointerMoved(1, 0)
    requires r.layout.bindings == [EdgeBinding(RightEdge, peer, LeftEdge)]
    requires AtRightEdge(r.pointer, r.layout.bounds)
    ensures Happen(r, Captured(step)).1.Ok? && Happen(r, Captured(step)).0.layout == r.layout
    ensures exists a :: a in Happen(r, Captured(step)).1.value && a.StartRemoteSession? && a.crossing.Some?
    ensures Happen(r, Captured(step)).0.core.control.EnteringRemote?
  {
    StepOutCrossesExactly(r, RightEdge, 1, 0);
    assert Route(r, step).1.value[0] in Route(r, step).1.value;
  }

  // ---- Where the pointer goes ------------------------------------------------------------------

  // Control is local before each of the events.
  predicate StaysLocal(r: Routing, events: seq<InputEvent>)
    decreases |events|
  {
    events == [] || (r.core.control.Local? && StaysLocal(Route(r, events[0]).0, events[1..]))
  }

  // The movements among the events.
  function Movements(events: seq<InputEvent>): seq<(int, int)> {
    if events == [] then []
    else (if events[0].PointerMoved? then [(events[0].deltaX, events[0].deltaY)] else []) + Movements(events[1..])
  }

  // One coordinate along the movements: after each the closest i32 to where it ends.
  ghost function Walk(v: int, deltas: seq<int>): int
    decreases |deltas|
  {
    if deltas == [] then v else Walk(Nearest(v + deltas[0], I32_MIN, I32_MAX + 1), deltas[1..])
  }

  function Across(movements: seq<(int, int)>): seq<int> {
    seq(|movements|, i requires 0 <= i < |movements| => movements[i].0)
  }

  function Along(movements: seq<(int, int)>): seq<int> {
    seq(|movements|, i requires 0 <= i < |movements| => movements[i].1)
  }

  // As long as control is local, the tracked pointer follows the captured movements, each coordinate
  // as far as an i32 goes, and the machine remembers the point reached last.
  lemma {:induction false} PointerFollowsTheMovements(r: Routing, events: seq<InputEvent>)
    requires StaysLocal(r, events)
    ensures var end, moves := Drain(r, events).0, Movements(events);
      && end.pointer.x == Walk(r.pointer.x, Across(moves)) && end.pointer.y == Walk(r.pointer.y, Along(moves))
      && end.core.pointer == (if moves == [] then r.core.pointer else Some(end.pointer))
      && end.layout == r.layout
    decreases |events|
  {
    if events == [] {
    } else {
      var next := Route(r, events[0]).0;
      PointerFollowsTheMovements(next, events[1..]);
      var moves, rest := Movements(events), Movements(events[1..]);
      OneMovement(r, events[0]);
      if events[0].PointerMoved? {
        assert moves[1..] == rest;
        assert Across(moves)[1..] == Across(rest) && Along(moves)[1..] == Along(rest);
      } else {
        assert moves == rest;
      }
    }
  }

  lemma {:induction false} OneMovement(r: Routing, event: InputEvent)
    requires r.core.control.Local?
    ensures var next := Route(r, event).0;
      && next.layout == r.layout
      && if event.PointerMoved? then
           && next.core.pointer == Some(next.pointer)
           && next.pointer.x == Nearest(r.pointer.x + event.deltaX, I32_MIN, I32_MAX + 1)
           && next.pointer.y == Nearest(r.pointer.y + event.deltaY, I32_MIN, I32_MAX + 1)
         else next.core.pointer == r.core.pointer && next.pointer == r.pointer
  {
  }

  function Total(deltas: seq<int>): int { if deltas == [] then 0 else deltas[0] + Total(deltas[1..]) }

  // No partial sum leaves the range of an i32.
  predicate InRange(v: int, deltas: seq<int>)
    decreases |deltas|
  {
    I32_MIN <= v <= I32_MAX && (deltas == [] || InRange(v + deltas[0], deltas[1..]))
  }

  // Where nothing saturates, the walk is the sum.
  lemma {:induction false} WalkIsTheSum(v: int, deltas: seq<int>)
    requires InRange(v, deltas)
    ensures Walk(v, deltas) == v + Total(deltas)
    decreases |deltas|
  {
    if deltas == [] {
    } else {
      WalkIsTheSum(v + deltas[0], deltas[1..]);
    }
  }

  // The movement ends beyond this edge and within the range of the two edges beside it.
  predicate LeavesThrough(edge: ScreenEdge, p: Point, dx: int, dy: int, bounds: Rect) {
    match edge
    case LeftEdge => p.x + dx < bounds.Left() && bounds.Top() <= p.y + dy < bounds.Bottom()
    case RightEdge => p.x + dx >= bounds.Right() && bounds.Top() <= p.y + dy < bounds.Bottom()
    case TopEdge => p.y + dy < bounds.Top() && bounds.Left() <= p.x + dx < bounds.Right()
    case BottomEdge => p.y + dy >= bounds.Bottom() && bounds.Left() <= p.x + dx < bounds.Right()
  }

  // A captured movement straight out of the desktop starts the session of the edge it leaves through,
  // exactly if the edge is bound and does not already lie at the least i32, beyond which the tracked
  // pointer cannot go.
  lemma {:induction false} StepOutCrossesExactly(r: Routing, edge: ScreenEdge, dx: i32, dy: i32)
    requires r.core.control.Local? && r.layout.bounds.Contains(r.pointer)
    requires LeavesThrough(edge, r.pointer, dx, dy, r.layout.bounds)
    ensures var (next, response) := Route(r, PointerMoved(dx, dy));
      var binding := r.layout.BindingFor(edge);
      var stuck := (edge.LeftEdge? && r.layout.bounds.Left() == I32_MIN)
                || (edge.TopEdge? && r.layout.bounds.Top() == I32_MIN);
      var offset := if edge.LeftEdge? || edge.RightEdge? then r.pointer.y + dy else r.pointer.x + dx;
      && I32_MIN <= offset <= I32_MAX && next.layout == r.layout
      && if binding.None? || stuck then response == Ok([]) && next.core.control.Local?
         else
           && response == Ok([StartRemoteSession(
                binding.value.peerId,
                Some(EdgeCrossing(binding.value.peerId, edge, binding.value.remoteEdge, next.pointer, offset)))])
           && next.core.control == EnteringRemote(binding.value.peerId)
  {
    var bounds, next := r.layout.bounds, Moved(r.pointer, dx, dy);
    if !bounds.Contains(next) {
      LeavesOnTheFartherSide(r.pointer, next, bounds);
      assert SelectedEdge(r.pointer, next, bounds) == Some(edge);
      CrossingIsReportedExactly(r.pointer, next, r.layout);
    }
  }

  // An inspection takes over the desktop it found exactly if it dispatched the recovery; otherwise the
  // next one that finds the same desktop recovers again. The bindings stay.
  lemma {:induction false} FailedInspectionsAreRepeated(
    r: Routing, bounds: Rect, pointer: Point, dispatched: bool, again: Point, dispatchedAgain: bool)
    ensures var (first, response) := Inspect(r, bounds, pointer, dispatched);
      var (second, response') := Inspect(first, bounds, again, dispatchedAgain);
      && first.layout.bindings == r.layout.bindings
      && (bounds == r.layout.bounds <==> response == Ok([]))
      && (bounds != r.layout.bounds ==> response.Ok? && ReleaseLocalInputs in response.value)
      && (bounds == r.layout.bounds ==> first == r)
      && (bounds != r.layout.bounds && dispatched ==> first.pointer == pointer && first.layout.bounds == bounds)
      && (bounds != r.layout.bounds && !dispatched ==> first.pointer == r.pointer && first.layout == r.layout)
      && (response' == Ok([]) <==> bounds == r.layout.bounds || dispatched)
      && (bounds != r.layout.bounds ==> first.core == r.core.Reset(Local) == second.core)
  {
  }
}
