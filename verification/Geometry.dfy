// Edge-crossing geometry of the local desktop (crates/akraz-core/src/lib.rs).
module Geometry {
  import opened Wrappers
  import opened Ints

  datatype Point = Point(x: i32, y: i32)

  datatype Size = Size(width: i32, height: i32)

  datatype Rect = Rect(origin: Point, size: Size) {
    function Left(): i32 { origin.x }

    function Top(): i32 { origin.y }

    // Exclusive right and bottom coordinates; they saturate at the i32 limit.
    function Right(): i32 { SatAdd(origin.x, size.width) }

    function Bottom(): i32 { SatAdd(origin.y, size.height) }

    predicate IsValid() { size.width > 0 && size.height > 0 }

    predicate Contains(p: Point) {
      IsValid() && Left() <= p.x < Right() && Top() <= p.y < Bottom()
    }

    // The two ranges below are the ones the source hands to `Ord::clamp`, which panics on an
    // inverted range: the preconditions are that panic turned into a proof obligation.
    function ClampX(x: i32): i32
      requires IsValid() ==> Left() <= SatSub(Right(), 1)
    {
      if !IsValid() then Left() else Clamp(x, Left(), SatSub(Right(), 1))
    }

    function ClampY(y: i32): i32
      requires IsValid() ==> Top() <= SatSub(Bottom(), 1)
    {
      if !IsValid() then Top() else Clamp(y, Top(), SatSub(Bottom(), 1))
    }
  }

  function Clamp(v: i32, lo: i32, hi: i32): i32
    requires lo <= hi
  {
    if v < lo then lo else if v > hi then hi else v
  }

  datatype ScreenEdge = LeftEdge | RightEdge | TopEdge | BottomEdge {
    // Position in the order in which the source offers the edges.
    function Rank(): nat {
      match this case LeftEdge => 0 case RightEdge => 1 case TopEdge => 2 case BottomEdge => 3
    }
  }

  datatype EdgeBinding = EdgeBinding(localEdge: ScreenEdge, peerId: string, remoteEdge: ScreenEdge)

  datatype ScreenLayout = ScreenLayout(bounds: Rect, bindings: seq<EdgeBinding>) {
    function BindingFor(edge: ScreenEdge): Option<EdgeBinding> { FirstBinding(bindings, edge) }
  }

  function FirstBinding(bindings: seq<EdgeBinding>, edge: ScreenEdge): Option<EdgeBinding> {
    if bindings == [] then None
    else if bindings[0].localEdge == edge then Some(bindings[0])
    else FirstBinding(bindings[1..], edge)
  }

  datatype EdgeCrossing = EdgeCrossing(
    peerId: string, localEdge: ScreenEdge, remoteEdge: ScreenEdge, exit: Point, edgeOffset: i32)

  // A movement from `previous` to `next` leaves `bounds` through `edge`.
  predicate Crosses(edge: ScreenEdge, previous: Point, next: Point, bounds: Rect) {
    match edge
    case LeftEdge => previous.x >= bounds.Left() && next.x < bounds.Left()
    case RightEdge => previous.x < bounds.Right() && next.x >= bounds.Right()
    case TopEdge => previous.y >= bounds.Top() && next.y < bounds.Top()
    case BottomEdge => previous.y < bounds.Bottom() && next.y >= bounds.Bottom()
  }

  // How far past the edge the movement ends, saturated to an i32.
  function Overshoot(edge: ScreenEdge, next: Point, bounds: Rect): i32 {
    match edge
    case LeftEdge => SatSub(bounds.Left(), next.x)
    case RightEdge => SatSub(next.x, SatSub(bounds.Right(), 1))
    case TopEdge => SatSub(bounds.Top(), next.y)
    case BottomEdge => SatSub(next.y, SatSub(bounds.Bottom(), 1))
  }

  // `edge` is crossed, no crossed edge has a larger overshoot, and ties go to the earlier edge.
  predicate Wins(edge: ScreenEdge, previous: Point, next: Point, bounds: Rect) {
    && Crosses(edge, previous, next, bounds)
    && forall other: ScreenEdge :: Crosses(other, previous, next, bounds) ==>
         || Overshoot(other, next, bounds) < Overshoot(edge, next, bounds)
         || (Overshoot(other, next, bounds) == Overshoot(edge, next, bounds) && edge.Rank() <= other.Rank())
  }

  function SelectedEdge(previous: Point, next: Point, bounds: Rect): Option<ScreenEdge> {
    if Wins(LeftEdge, previous, next, bounds) then Some(LeftEdge)
    else if Wins(RightEdge, previous, next, bounds) then Some(RightEdge)
    else if Wins(TopEdge, previous, next, bounds) then Some(TopEdge)
    else if Wins(BottomEdge, previous, next, bounds) then Some(BottomEdge)
    else None
  }

  // The running choice of `select_crossed_edge`: replaced only by a strictly larger overshoot.
  method SelectCrossedEdge(selected: Option<(ScreenEdge, i32)>, edge: ScreenEdge, crossed: bool, overshoot: i32)
    returns (chosen: Option<(ScreenEdge, i32)>)
    ensures !crossed || (selected.Some? && selected.value.1 >= overshoot) ==> chosen == selected
    ensures crossed && (selected.None? || selected.value.1 < overshoot) ==> chosen == Some((edge, overshoot))
  {
    chosen := selected;
    if !crossed { return; }
    if selected.Some? && selected.value.1 >= overshoot { return; }
    chosen := Some((edge, overshoot));
  }

  method CrossedEdge(previous: Point, next: Point, bounds: Rect) returns (edge: Option<ScreenEdge>)
    ensures edge == SelectedEdge(previous, next, bounds)
    ensures edge.Some? ==> Wins(edge.value, previous, next, bounds)
    ensures edge.None? <==> forall e: ScreenEdge :: !Crosses(e, previous, next, bounds)
  {
    var selected: Option<(ScreenEdge, i32)> := None;
    selected := SelectCrossedEdge(selected, LeftEdge,
      previous.x >= bounds.Left() && next.x < bounds.Left(), SatSub(bounds.Left(), next.x));
    selected := SelectCrossedEdge(selected, RightEdge,
      previous.x < bounds.Right() && next.x >= bounds.Right(), SatSub(next.x, SatSub(bounds.Right(), 1)));
    selected := SelectCrossedEdge(selected, TopEdge,
      previous.y >= bounds.Top() && next.y < bounds.Top(), SatSub(bounds.Top(), next.y));
    selected := SelectCrossedEdge(selected, BottomEdge,
      previous.y < bounds.Bottom() && next.y >= bounds.Bottom(), SatSub(next.y, SatSub(bounds.Bottom(), 1)));
    assert forall e: ScreenEdge :: Crosses(e, previous, next, bounds) ==>
      selected.Some? && selected.value.1 >= Overshoot(e, next, bounds);
    edge := match selected case None => None case Some(pair) => Some(pair.0);
    if edge.Some? {
      WinnerIsSelected(edge.value, previous, next, bounds);
    }
  }

  // At most one edge wins.
  lemma {:induction false} WinnerIsSelected(edge: ScreenEdge, previous: Point, next: Point, bounds: Rect)
    requires Wins(edge, previous, next, bounds)
    ensures SelectedEdge(previous, next, bounds) == Some(edge)
  {
  }

  function DetectEdgeCrossing(previous: Point, next: Point, layout: ScreenLayout): Option<EdgeCrossing> {
    if !layout.bounds.Contains(previous) || layout.bounds.Contains(next) then None
    else
      match SelectedEdge(previous, next, layout.bounds)
      case None => None
      case Some(edge) =>
        match layout.BindingFor(edge)
        case None => None
        case Some(binding) =>
          var offset := match edge
            case LeftEdge => layout.bounds.ClampY(next.y)
            case RightEdge => layout.bounds.ClampY(next.y)
            case TopEdge => layout.bounds.ClampX(next.x)
            case BottomEdge => layout.bounds.ClampX(next.x);
          Some(EdgeCrossing(binding.peerId, edge, binding.remoteEdge, next, offset))
  }

  // Some edge is always selected for a movement out of the desktop.
  lemma {:induction false} LeavingSelectsAnEdge(previous: Point, next: Point, bounds: Rect)
    requires bounds.Contains(previous) && !bounds.Contains(next)
    ensures SelectedEdge(previous, next, bounds).Some?
    ensures Wins(SelectedEdge(previous, next, bounds).value, previous, next, bounds)
  {
  }

  // The lookup returns the first binding of the edge, and fails only when there is none.
  lemma {:induction false} FirstBindingIsFirst(bindings: seq<EdgeBinding>, edge: ScreenEdge) returns (index: nat)
    ensures index <= |bindings|
    ensures forall k :: 0 <= k < index ==> bindings[k].localEdge != edge
    ensures FirstBinding(bindings, edge) ==
      if index < |bindings| then Some(bindings[index]) else None
    ensures index < |bindings| ==> bindings[index].localEdge == edge
  {
    index := 0;
    if bindings != [] && bindings[0].localEdge != edge {
      var rest := FirstBindingIsFirst(bindings[1..], edge);
      index := rest + 1;
    }
  }

  // A crossing is reported exactly for a movement from inside to outside whose winning edge is
  // bound, and it names the first such binding, the point reached, and an offset on the edge.
  lemma {:induction false} CrossingIsReportedExactly(previous: Point, next: Point, layout: ScreenLayout)
    ensures DetectEdgeCrossing(previous, next, layout).Some? <==>
      && layout.bounds.Contains(previous) && !layout.bounds.Contains(next)
      && exists i :: 0 <= i < |layout.bindings| && Wins(layout.bindings[i].localEdge, previous, next, layout.bounds)
    ensures forall c :: DetectEdgeCrossing(previous, next, layout) == Some(c) ==>
      && Wins(c.localEdge, previous, next, layout.bounds)
      && layout.BindingFor(c.localEdge) == Some(EdgeBinding(c.localEdge, c.peerId, c.remoteEdge))
      && c.exit == next
      && if c.localEdge.LeftEdge? || c.localEdge.RightEdge?
         then c.edgeOffset == Nearest(next.y, layout.bounds.Top(), layout.bounds.Bottom())
         else c.edgeOffset == Nearest(next.x, layout.bounds.Left(), layout.bounds.Right())
  {
    if layout.bounds.Contains(previous) && !layout.bounds.Contains(next) {
      LeavingSelectsAnEdge(previous, next, layout.bounds);
      var edge := SelectedEdge(previous, next, layout.bounds).value;
      var _ := FirstBindingIsFirst(layout.bindings, edge);
    }
  }

  function Distance(a: int, b: int): nat { if a <= b then b - a else a - b }

  // The coordinate of the half-open range [lo, hi) closest to v.
  ghost function Nearest(v: int, lo: int, hi: int): (r: int)
    requires lo < hi
    ensures lo <= r < hi
    ensures forall w :: lo <= w < hi ==> Distance(v, r) <= Distance(v, w)
  {
    if v < lo then lo else if v >= hi then hi - 1 else v
  }

  // How far v lies outside [lo, hi), as far as an i32 can tell.
  ghost function Outside(v: int, lo: int, hi: int): nat
    requires lo < hi
  {
    var distance := Distance(v, Nearest(v, lo, hi));
    if distance <= I32_MAX then distance else I32_MAX
  }

  // A movement out of the desktop leaves it on the side on which it ends farther outside, and at a
  // corner that is equally far outside on both, to the left or to the right.
  lemma {:induction false} LeavesOnTheFartherSide(previous: Point, next: Point, bounds: Rect)
    requires bounds.Contains(previous) && !bounds.Contains(next)
    ensures var across := Outside(next.x, bounds.Left(), bounds.Right());
      var along := Outside(next.y, bounds.Top(), bounds.Bottom());
      && (across > 0 || along > 0)
      && SelectedEdge(previous, next, bounds) == Some(
           if across >= along then (if next.x < bounds.Left() then LeftEdge else RightEdge)
           else if next.y < bounds.Top() then TopEdge else BottomEdge)
  {
    LeavingSelectsAnEdge(previous, next, bounds);
    OvershootIsTheDistance(previous, next, bounds);
  }

  lemma {:induction false} OvershootIsTheDistance(previous: Point, next: Point, bounds: Rect)
    requires bounds.Contains(previous)
    ensures forall edge: ScreenEdge :: Crosses(edge, previous, next, bounds) ==>
      Overshoot(edge, next, bounds) ==
        if edge.LeftEdge? || edge.RightEdge? then Outside(next.x, bounds.Left(), bounds.Right())
        else Outside(next.y, bounds.Top(), bounds.Bottom())
    ensures Crosses(LeftEdge, previous, next, bounds) <==> next.x < bounds.Left()
    ensures Crosses(RightEdge, previous, next, bounds) <==> next.x >= bounds.Right()
    ensures Crosses(TopEdge, previous, next, bounds) <==> next.y < bounds.Top()
    ensures Crosses(BottomEdge, previous, next, bounds) <==> next.y >= bounds.Bottom()
  {
  }

  // A rectangle of positive size alone does not make the clamp range ordered: it is inverted
  // exactly when the origin already sits at the i32 limit.
  lemma {:induction false} ClampRangeInvertedExactlyAtTheLimit(r: Rect)
    requires r.IsValid()
    ensures r.Left() > SatSub(r.Right(), 1) <==> r.Left() == I32_MAX
    ensures r.Top() > SatSub(r.Bottom(), 1) <==> r.Top() == I32_MAX
    ensures r.Left() == I32_MAX || r.Top() == I32_MAX ==> forall p: Point :: !r.Contains(p)
  {
  }
}
