/** The region of interest of the monitoring page: the spatial gate applied
    to confirmed detections, and the arithmetic that keeps the region inside
    the frame while the operator drags or resizes it. */
module Roi {
  import opened Geometry

  /** Smallest side the operator can resize the region to (percent). */
  const MinSide: real := 10.0

  /** The region the page starts with. */
  const InitialRoi: Rect := Rect(20.0, 20.0, 60.0, 60.0)

  /** The invariant every edit keeps: inside the frame, sides at least
      `MinSide`. */
  predicate ValidRoi(r: Rect) {
    && 0.0 <= r.x && 0.0 <= r.y
    && MinSide <= r.width && MinSide <= r.height
    && r.x + r.width <= 100.0 && r.y + r.height <= 100.0
  }

  /** Editor hidden and the region spanning the whole width and height: the
      gate then admits every box. */
  predicate Bypass(roi: Rect, showRoiControl: bool) {
    !showRoiControl && roi.width == 100.0 && roi.height == 100.0
  }

  /** The gate: is the centre of `box` in the closed rectangle `roi`? */
  function IsInsideRoi(box: Rect, roi: Rect, showRoiControl: bool): (r: bool)
    ensures Bypass(roi, showRoiControl) ==> r
    ensures !r ==> (CentreX(box) < roi.x || roi.x + roi.width < CentreX(box) ||
                    CentreY(box) < roi.y || roi.y + roi.height < CentreY(box))
  {
    if Bypass(roi, showRoiControl) then true
    else
      var cx := CentreX(box);
      var cy := CentreY(box);
      roi.x <= cx <= roi.x + roi.width && roi.y <= cy <= roi.y + roi.height
  }

  /** With the bypass on, every box passes, wherever it is. */
  lemma BypassAdmitsAll(box: Rect, roi: Rect, showRoiControl: bool)
    requires Bypass(roi, showRoiControl)
    ensures IsInsideRoi(box, roi, showRoiControl)
  {
  }

  /** Without the bypass the gate is the closed-rectangle test of the centre,
      written here without division: twice each centre coordinate must lie
      between twice the region's edges. */
  lemma InsideIffCentreInRegion(box: Rect, roi: Rect, showRoiControl: bool)
    requires !Bypass(roi, showRoiControl)
    ensures IsInsideRoi(box, roi, showRoiControl) <==>
      && 2.0 * roi.x <= 2.0 * box.x + box.width <= 2.0 * (roi.x + roi.width)
      && 2.0 * roi.y <= 2.0 * box.y + box.height <= 2.0 * (roi.y + roi.height)
  {
  }

  /** Boundary points count as inside: a box centred on any corner of the
      region passes the gate. */
  lemma CornersAreInside(roi: Rect, w: real, h: real, right: bool, bottom: bool, showRoiControl: bool)
    requires roi.width >= 0.0 && roi.height >= 0.0
    ensures
      var cx := if right then roi.x + roi.width else roi.x;
      var cy := if bottom then roi.y + roi.height else roi.y;
      IsInsideRoi(Rect(cx - w / 2.0, cy - h / 2.0, w, h), roi, showRoiControl)
  {
  }

  /** A box of non-negative size lying wholly within the region passes. */
  lemma ContainedBoxIsInside(box: Rect, roi: Rect, showRoiControl: bool)
    requires box.width >= 0.0 && box.height >= 0.0
    requires roi.x <= box.x && box.x + box.width <= roi.x + roi.width
    requires roi.y <= box.y && box.y + box.height <= roi.y + roi.height
    ensures IsInsideRoi(box, roi, showRoiControl)
  {
  }

  /** A box whose centre is left of the region, above it, right of it or
      below it is refused unless the bypass is on. */
  lemma OutsideCentreIsRefused(box: Rect, roi: Rect, showRoiControl: bool)
    requires !Bypass(roi, showRoiControl)
    requires CentreX(box) < roi.x || CentreX(box) > roi.x + roi.width
          || CentreY(box) < roi.y || CentreY(box) > roi.y + roi.height
    ensures !IsInsideRoi(box, roi, showRoiControl)
  {
  }

  /** For a valid region the bypass fires only on the full frame, and there
      it changes the answer only for boxes whose centre is off the frame. */
  lemma BypassIsFullFrame(box: Rect, roi: Rect)
    requires ValidRoi(roi) && Bypass(roi, false)
    ensures roi == Rect(0.0, 0.0, 100.0, 100.0)
    ensures 0.0 <= CentreX(box) <= 100.0 && 0.0 <= CentreY(box) <= 100.0
        ==> IsInsideRoi(box, roi, true)
    ensures IsInsideRoi(box, roi, true)
        ==> 0.0 <= CentreX(box) <= 100.0 && 0.0 <= CentreY(box) <= 100.0
  {
  }

  // ---------------------------------------------------------------------
  // Drag and resize

  function Min(a: real, b: real): real { if a <= b then a else b }

  function Max(a: real, b: real): real { if a >= b then a else b }

  /** `max(lo, min(hi, v))`: `v` pinned into `[lo, hi]`. */
  function Clamp(lo: real, hi: real, v: real): (r: real)
    ensures lo <= hi ==> lo <= r <= hi
    ensures lo <= v <= hi ==> r == v
    ensures v <= lo ==> r == lo
    ensures lo <= hi <= v ==> r == hi
  {
    Max(lo, Min(hi, v))
  }

  datatype Gesture = Drag | Resize

  /** The region after the pointer moved by `dx`, `dy` percent since the
      gesture started on region `start`. */
  function Moved(g: Gesture, start: Rect, dx: real, dy: real): (r: Rect)
    ensures ValidRoi(start) ==> ValidRoi(r)
  {
    match g
    case Drag =>
      start.(x := Clamp(0.0, 100.0 - start.width, start.x + dx),
             y := Clamp(0.0, 100.0 - start.height, start.y + dy))
    case Resize =>
      start.(width := Clamp(MinSide, 100.0 - start.x, start.width + dx),
             height := Clamp(MinSide, 100.0 - start.y, start.height + dy))
  }

  /** Dragging keeps the size and follows the pointer while the region stays
      in the frame; past an edge it stops at that edge. */
  lemma DragKeepsSize(start: Rect, dx: real, dy: real)
    requires ValidRoi(start)
    ensures Moved(Drag, start, dx, dy).width == start.width
    ensures Moved(Drag, start, dx, dy).height == start.height
    ensures 0.0 <= start.x + dx <= 100.0 - start.width ==> Moved(Drag, start, dx, dy).x == start.x + dx
    ensures 0.0 <= start.y + dy <= 100.0 - start.height ==> Moved(Drag, start, dx, dy).y == start.y + dy
    ensures start.x + dx < 0.0 ==> Moved(Drag, start, dx, dy).x == 0.0
    ensures start.x + dx > 100.0 - start.width ==> Moved(Drag, start, dx, dy).x + start.width == 100.0
    ensures start.y + dy < 0.0 ==> Moved(Drag, start, dx, dy).y == 0.0
    ensures start.y + dy > 100.0 - start.height ==> Moved(Drag, start, dx, dy).y + start.height == 100.0
  {
  }

  /** Resizing keeps the top-left corner and follows the pointer while the
      sides stay between `MinSide` and the frame edge. */
  lemma ResizeKeepsCorner(start: Rect, dx: real, dy: real)
    requires ValidRoi(start)
    ensures Moved(Resize, start, dx, dy).x == start.x
    ensures Moved(Resize, start, dx, dy).y == start.y
    ensures MinSide <= start.width + dx <= 100.0 - start.x ==> Moved(Resize, start, dx, dy).width == start.width + dx
    ensures MinSide <= start.height + dy <= 100.0 - start.y ==> Moved(Resize, start, dx, dy).height == start.height + dy
    ensures start.width + dx < MinSide ==> Moved(Resize, start, dx, dy).width == MinSide
    ensures start.width + dx > 100.0 - start.x ==> Moved(Resize, start, dx, dy).x + Moved(Resize, start, dx, dy).width == 100.0
    ensures start.height + dy < MinSide ==> Moved(Resize, start, dx, dy).height == MinSide
    ensures start.height + dy > 100.0 - start.y ==> Moved(Resize, start, dx, dy).y + Moved(Resize, start, dx, dy).height == 100.0
  {
  }

  /** A move does not pile up on earlier moves of the same gesture: moving
      back to the starting point restores the starting region. */
  lemma MoveBackRestores(g: Gesture, start: Rect)
    requires ValidRoi(start)
    ensures Moved(g, start, 0.0, 0.0) == start
  {
  }
}
