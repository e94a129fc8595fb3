// The crossing the user interface previews for a binding (apps/akraz/src/lib/layout/crossingTest.ts),
// and its agreement with the crossing the core detects.
module LayoutPreview {
  import opened Wrappers
  import opened Ints
  import opened Geometry
  import opened Layout

  datatype Preview = Preview(
    peerId: string, localEdge: ScreenEdge, remoteEdge: ScreenEdge, exitX: real, exitY: real, edgeOffset: real)

  function Midpoint(start: real, size: real): int { Round(start + size / 2.0) }

  function ClampReal(v: real, lo: real, hi: real): real {
    var atLeast := if v < lo then lo else v;
    if atLeast > hi then hi else atLeast
  }

  function PreviewEdgeCrossing(binding: EdgeBinding, topology: Topology): Option<Preview> {
    var peerId := Trim(binding.peerId);
    if peerId == "" || !IsUsable(Some(topology)) then None
    else
      var (x, y) := (topology.bounds.x.value, topology.bounds.y.value);
      var (width, height) := (topology.bounds.width.value, topology.bounds.height.value);
      var midX := ClampReal(Midpoint(x, width) as real, x, x + width - 1.0);
      var midY := ClampReal(Midpoint(y, height) as real, y, y + height - 1.0);
      Some(match binding.localEdge
        case LeftEdge => Preview(peerId, binding.localEdge, binding.remoteEdge, x - 1.0, midY, midY)
        case RightEdge => Preview(peerId, binding.localEdge, binding.remoteEdge, x + width, midY, midY)
        case TopEdge => Preview(peerId, binding.localEdge, binding.remoteEdge, midX, y - 1.0, midX)
        case BottomEdge => Preview(peerId, binding.localEdge, binding.remoteEdge, midX, y + height, midX))
  }

  // The desktop has integer bounds of positive size; one unit outside each edge is still an i32.
  predicate FitsCore(x: int, y: int, width: int, height: int) {
    && 0 < width && 0 < height
    && I32_MIN < x && x + width <= I32_MAX && I32_MIN < y && y + height <= I32_MAX
    && width <= I32_MAX && height <= I32_MAX
  }

  predicate HasBounds(topology: Topology, x: int, y: int, width: int, height: int) {
    topology.bounds == Bounds(Finite(x as real), Finite(y as real), Finite(width as real), Finite(height as real))
  }

  // The coordinate in the middle of [start, start + size), rounded up but kept inside.
  function Middle(start: int, size: int): int { start + if size == 1 then 0 else (size + 1) / 2 }

  lemma {:induction false} MidpointIsTheMiddle(start: int, size: int)
    requires size > 0
    ensures ClampReal(Midpoint(start as real, size as real) as real, start as real, start as real + size as real - 1.0)
         == Middle(start, size) as real
    ensures start <= Middle(start, size) < start + size
  {
    var half := (2 * start + size + 1) / 2;
    var v := start as real + size as real / 2.0 + 0.5;
    assert v == (2 * start + size + 1) as real / 2.0;
    assert 2 * half <= 2 * start + size + 1 < 2 * half + 2;
    assert half as real <= v < half as real + 1.0;
    assert v.Floor == half;
  }

  // The point just inside and the point just outside the middle of an edge.
  function Inside(edge: ScreenEdge, bounds: Rect): (p: (int, int))
    requires bounds.IsValid()
  {
    match edge
    case LeftEdge => (bounds.origin.x, Middle(bounds.origin.y, bounds.size.height))
    case RightEdge => (bounds.origin.x + bounds.size.width - 1, Middle(bounds.origin.y, bounds.size.height))
    case TopEdge => (Middle(bounds.origin.x, bounds.size.width), bounds.origin.y)
    case BottomEdge => (Middle(bounds.origin.x, bounds.size.width), bounds.origin.y + bounds.size.height - 1)
  }

  function StepOut(edge: ScreenEdge, p: (int, int)): (int, int) {
    match edge
    case LeftEdge => (p.0 - 1, p.1)
    case RightEdge => (p.0 + 1, p.1)
    case TopEdge => (p.0, p.1 - 1)
    case BottomEdge => (p.0, p.1 + 1)
  }

  // The preview is the crossing the core reports when the pointer makes one step from inside the
  // desktop through the middle of the bound edge. The peer id is the trimmed one.
  lemma {:induction false} PreviewAgreesWithTheCore(
    layout: ScreenLayout, binding: EdgeBinding, topology: Topology, x: int, y: int, width: int, height: int)
    requires FitsCore(x, y, width, height) && HasBounds(topology, x, y, width, height)
    requires layout.bounds == Rect(Point(x, y), Size(width, height))
    requires layout.BindingFor(binding.localEdge) == Some(binding) && Trim(binding.peerId) != ""
    ensures var from := Inside(binding.localEdge, layout.bounds);
      var to := StepOut(binding.localEdge, from);
      var offset := if binding.localEdge.LeftEdge? || binding.localEdge.RightEdge? then to.1 else to.0;
      && I32_MIN <= from.0 <= I32_MAX && I32_MIN <= from.1 <= I32_MAX
      && I32_MIN <= to.0 <= I32_MAX && I32_MIN <= to.1 <= I32_MAX
      && layout.bounds.Contains(Point(from.0, from.1))
      && DetectEdgeCrossing(Point(from.0, from.1), Point(to.0, to.1), layout)
         == Some(EdgeCrossing(binding.peerId, binding.localEdge, binding.remoteEdge, Point(to.0, to.1), offset))
      && PreviewEdgeCrossing(binding, topology)
         == Some(Preview(Trim(binding.peerId), binding.localEdge, binding.remoteEdge,
                         to.0 as real, to.1 as real, offset as real))
  {
    MidpointIsTheMiddle(x, width);
    MidpointIsTheMiddle(y, height);
    var from := Inside(binding.localEdge, layout.bounds);
    var to := StepOut(binding.localEdge, from);
    OnlyThisEdgeIsCrossed(binding.localEdge, layout.bounds);
  }

  lemma {:induction false} OnlyThisEdgeIsCrossed(edge: ScreenEdge, bounds: Rect)
    requires FitsCore(bounds.origin.x, bounds.origin.y, bounds.size.width, bounds.size.height)
    ensures var from := Inside(edge, bounds);
      var to := StepOut(edge, from);
      && I32_MIN <= from.0 <= I32_MAX && I32_MIN <= from.1 <= I32_MAX
      && I32_MIN <= to.0 <= I32_MAX && I32_MIN <= to.1 <= I32_MAX
      && bounds.Contains(Point(from.0, from.1)) && !bounds.Contains(Point(to.0, to.1))
      && SelectedEdge(Point(from.0, from.1), Point(to.0, to.1), bounds) == Some(edge)
  {
  }

  // In a layout the check does not block, every binding is previewed as the core will cross it.
  lemma {:induction false} UnblockedLayoutsCrossAsPreviewed(
    layout: ScreenLayout, trusted: seq<string>, topology: Topology, i: nat, x: int, y: int, width: int, height: int)
    requires FirstStartBlockingIssue(Analysis(layout.bindings, trusted, Some(topology))).None?
    requires FitsCore(x, y, width, height) && HasBounds(topology, x, y, width, height)
    requires layout.bounds == Rect(Point(x, y), Size(width, height)) && i < |layout.bindings|
    ensures var preview := PreviewEdgeCrossing(layout.bindings[i], topology);
      && preview.Some?
      && exists from: Point, to: Point ::
           && layout.bounds.Contains(from) && (to.x as real, to.y as real) == (preview.value.exitX, preview.value.exitY)
           && DetectEdgeCrossing(from, to, layout).Some?
           && var crossing := DetectEdgeCrossing(from, to, layout).value;
              && crossing.localEdge == preview.value.localEdge && crossing.remoteEdge == preview.value.remoteEdge
              && Trim(crossing.peerId) == preview.value.peerId
              && crossing.edgeOffset as real == preview.value.edgeOffset
  {
    var binding := layout.bindings[i];
    UnblockedLayoutsExactly(layout.bindings, trusted, Some(topology));
    UnblockedBindingsAreFound(layout.bindings, trusted, Some(topology));
    assert IsTrusted(binding, trusted);
    PreviewAgreesWithTheCore(layout, binding, topology, x, y, width, height);
    var from := Inside(binding.localEdge, layout.bounds);
    var to := StepOut(binding.localEdge, from);
    assert DetectEdgeCrossing(Point(from.0, from.1), Point(to.0, to.1), layout).Some?;
  }
}
