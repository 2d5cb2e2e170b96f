/**
  The stretchers: a widget of fixed height holding a body and a horizontal split bar (the
  handle); dragging the handle changes the fixed height. BottomStretcher has the handle
  below the body, TopStretcher above it. The split bar's grip size comes from the style
  and is a parameter here.
*/
module Stretcher {
  import opened Wrappers

  type WidgetId = nat

  /** QWidget::setGeometry(x, y, w, h). */
  datatype Rect = Rect(x: int, y: int, w: int, h: int)

  /** Where resizeEvent puts the body (when there is one) and the handle. */
  datatype Layout = Layout(body: Option<Rect>, handle: Rect)

  datatype Button = LeftButton | RightButton | MiddleButton

  function Max(a: int, b: int): int
  {
    if a < b then b else a
  }

  /** The split bar that emits handleMoved with the drag distance. */
  class SplitBar {
    var hovering: bool
    var pressPos: int          // d_pos: the press coordinate along the drag axis, -1 before any
    var rubberBand: bool       // whether the rubber band exists
    const horizontal: bool

    constructor (hori: bool)
      ensures !hovering && pressPos == -1 && !rubberBand && horizontal == hori
    {
      hovering := false;
      pressPos := -1;
      rubberBand := false;
      horizontal := hori;
    }

    method EnterEvent()
      modifies this`hovering
      ensures hovering
    {
      hovering := true;
    }

    method LeaveEvent()
      modifies this`hovering
      ensures !hovering
    {
      hovering := false;
    }

    /** mousePressEvent at (x, y): the left button records the coordinate along the axis. */
    method MousePress(button: Button, x: int, y: int)
      modifies this`pressPos
      ensures pressPos == if button == LeftButton then (if horizontal then x else y) else old(pressPos)
    {
      if button == LeftButton {
        if horizontal {
          pressPos := x;
        } else {
          pressPos := y;
        }
      }
    }

    /** mouseMoveEvent with the left button held shows the rubber band. */
    method MouseMove(leftHeld: bool)
      modifies this`rubberBand
      ensures rubberBand == (old(rubberBand) || leftHeld)
    {
      if !leftHeld {
        return;
      }
      rubberBand := true;
    }

    /** mouseReleaseEvent at (x, y) in the bar's coordinates: the left button drops the
        rubber band and reports the distance from the press along the axis. */
    method MouseRelease(button: Button, x: int, y: int) returns (moved: Option<int>)
      modifies this`rubberBand
      ensures button != LeftButton ==> moved.None? && rubberBand == old(rubberBand)
      ensures button == LeftButton ==>
        !rubberBand && moved == Some((if horizontal then x else y) - pressPos)
    {
      if button != LeftButton {
        return None;
      }
      var pos := if horizontal then x - pressPos else y - pressPos;
      rubberBand := false;
      return Some(pos);
    }
  }

  /** The height onHandleMoved gives a BottomStretcher of height h with handle height g. */
  function BottomHeight(h: int, pos: int, g: int): (r: int)
    ensures r >= 100 && r >= pos + h - g
    ensures r == 100 || r == pos + h - g
  {
    Max(100, pos + h - g)
  }

  /** The height onHandleMoved gives a TopStretcher: never below the handle's own height. */
  function TopHeight(h: int, pos: int, g: int): (r: int)
    ensures r >= g && r >= h - pos + g
    ensures r == g || r == h - pos + g
  {
    Max(g, h - pos + g)
  }

  /** Dragging the bottom handle further down never leaves the stretcher smaller, and
      dragging the top handle further up never does either. */
  lemma HeightsFollowTheDrag(h: int, g: int, p: int, q: int)
    requires p <= q
    ensures BottomHeight(h, p, g) <= BottomHeight(h, q, g)
    ensures TopHeight(h, q, g) <= TopHeight(h, p, g)
  {
  }

  /** setBody(b) shared by both stretchers: the same body changes nothing; otherwise the
      old body is deleted when this stretcher is its parent, and b becomes the body. */
  function BodyReplaced(body: Option<WidgetId>, b: Option<WidgetId>, ownsBody: bool): (r: (Option<WidgetId>, Option<WidgetId>))
    ensures r.0 == b
    ensures r.1.Some? <==> b != body && body.Some? && ownsBody
    ensures r.1.Some? ==> r.1 == body
  {
    if b == body then (body, None)
    else if body.Some? && ownsBody then (b, body)
    else (b, None)
  }

  class BottomStretcher {
    var height: int                 // the fixed height
    var body: Option<WidgetId>
    const handle: SplitBar
    const grip: nat                 // the handle's fixed height, the style's grip size

    /** The handle is a vertical split bar, dragged up and down. */
    predicate Valid()
    {
      !handle.horizontal
    }

    /** A fixed height of 200, no body, a vertical split bar as handle. */
    constructor (gripSize: nat)
      ensures Valid() && height == 200 && body.None? && grip == gripSize
      ensures fresh(handle)
    {
      height := 200;
      body := None;
      handle := new SplitBar(false);
      grip := gripSize;
    }

    /** onHandleMoved(pos): the new fixed height, which is also reported by heightChanged. */
    method OnHandleMoved(pos: int) returns (reported: int)
      modifies this`height
      ensures height == BottomHeight(old(height), pos, grip) && reported == height
    {
      height := Max(100, pos + height - grip);
      reported := height;
    }

    /** setBody(b); answers the body deleted, if any. */
    method SetBody(b: Option<WidgetId>, ownsBody: bool) returns (deleted: Option<WidgetId>)
      modifies this`body
      ensures (body, deleted) == BodyReplaced(old(body), b, ownsBody)
    {
      if b == body {
        return None;
      }
      deleted := None;
      if body.Some? && ownsBody {
        deleted := body;
      }
      body := b;
    }

    /** resizeEvent for a widget of width w and height h: the body over rows [0, h - grip),
        the handle over rows [h - grip, h), both at full width. */
    function ResizeEvent(w: int, h: int): (r: Layout)
      reads this
      ensures r.body.Some? <==> body.Some?
      ensures r.body.Some? ==> r.body.value == Rect(0, 0, w, r.handle.y)
      ensures r.handle.x == 0 && r.handle.w == w && r.handle.h == grip
      ensures r.handle.y + r.handle.h == h
    {
      var bodyHeight := h - grip;
      Layout(if body.Some? then Some(Rect(0, 0, w, bodyHeight)) else None, Rect(0, bodyHeight, w, grip))
    }

    /** A release of the handle: the bar reports the drag and the stretcher follows it. */
    method HandleReleased(button: Button, x: int, y: int) returns (reported: Option<int>)
      requires Valid()
      modifies this`height, handle`rubberBand
      ensures button != LeftButton ==> reported.None? && height == old(height)
      ensures button == LeftButton ==>
        reported == Some(height) && height == BottomHeight(old(height), y - handle.pressPos, grip)
    {
      var moved := handle.MouseRelease(button, x, y);
      if moved.None? {
        return None;
      }
      var h := OnHandleMoved(moved.value);
      return Some(h);
    }
  }

  class TopStretcher {
    var height: int
    var body: Option<WidgetId>
    const handle: SplitBar
    const grip: nat

    predicate Valid()
    {
      !handle.horizontal
    }

    constructor (gripSize: nat)
      ensures Valid() && height == 200 && body.None? && grip == gripSize
      ensures fresh(handle)
    {
      height := 200;
      body := None;
      handle := new SplitBar(false);
      grip := gripSize;
    }

    method OnHandleMoved(pos: int) returns (reported: int)
      modifies this`height
      ensures height == TopHeight(old(height), pos, grip) && reported == height
    {
      height := Max(grip, height - pos + grip);
      reported := height;
    }

    method SetBody(b: Option<WidgetId>, ownsBody: bool) returns (deleted: Option<WidgetId>)
      modifies this`body
      ensures (body, deleted) == BodyReplaced(old(body), b, ownsBody)
    {
      if b == body {
        return None;
      }
      deleted := None;
      if body.Some? && ownsBody {
        deleted := body;
      }
      body := b;
    }

    /** resizeEvent: the handle over rows [0, grip), the body over rows [grip, h). */
    function ResizeEvent(w: int, h: int): (r: Layout)
      reads this
      ensures r.body.Some? <==> body.Some?
      ensures r.handle == Rect(0, 0, w, grip)
      ensures r.body.Some? ==> r.body.value.x == 0 && r.body.value.y == grip && r.body.value.w == w &&
                               r.body.value.y + r.body.value.h == h
    {
      var bodyHeight := h - grip;
      Layout(if body.Some? then Some(Rect(0, grip, w, bodyHeight)) else None, Rect(0, 0, w, grip))
    }

    method HandleReleased(button: Button, x: int, y: int) returns (reported: Option<int>)
      requires Valid()
      modifies this`height, handle`rubberBand
      ensures button != LeftButton ==> reported.None? && height == old(height)
      ensures button == LeftButton ==>
        reported == Some(height) && height == TopHeight(old(height), y - handle.pressPos, grip)
    {
      var moved := handle.MouseRelease(button, x, y);
      if moved.None? {
        return None;
      }
      var h := OnHandleMoved(moved.value);
      return Some(h);
    }
  }
}
