/**
  Controller: an event filter installed on a view that hands each event of the view to
  one overridable handler (a "calldown") and consumes the event when that handler says so.
  The handlers' answers are a parameter; the filter itself keeps no state.
*/
module Controller {
  import opened Wrappers

  datatype KeyCode = Tab | Backtab | OtherKey(code: nat)

  /** The event kinds Qt reports as property changes, all routed to changeEvent. */
  datatype ChangeKind =
    | ToolBarChange | ActivationChange | EnabledChange | FontChange | StyleChange
    | PaletteChange | WindowTitleChange | IconTextChange | ModifiedChange
    | MouseTrackingChange | ParentChange | WindowStateChange | LanguageChange

  datatype Event =
    | MouseButtonPress | MouseButtonRelease | MouseButtonDblClick | MouseMove | Wheel
    | KeyPress(key: KeyCode, ctrl: bool, alt: bool, shift: bool)
    | KeyRelease | ShortcutOverride | InputMethod | FocusIn | FocusOut | Enter | Leave
    | Show | Hide | Paint | Move | Resize | Close | Drop | DragEnter | DragMove | DragLeave
    | Change(kind: ChangeKind)
    | Timer
    | OtherEvent(code: nat)

  datatype Calldown =
    | MouseMoveEvent | MousePressEvent | MouseReleaseEvent | MouseDoubleClickEvent | WheelEvent
    | FocusNextPrevChild(next: bool)
    | KeyPressEvent | KeyReleaseEvent | InputMethodEvent | FocusInEvent | FocusOutEvent
    | EnterEvent | LeaveEvent | PaintEvent | MoveEvent | ResizeEvent | CloseEvent
    | DropEvent | DragEnterEvent | DragMoveEvent | DragLeaveEvent | ShowEvent | HideEvent
    | ChangeEvent | TickEvent

  /** The calldowns the filter invoked, in order, and whether it consumed the event. */
  datatype Outcome = Outcome(calls: seq<Calldown>, consumed: bool)

  predicate IsMouseOrWheel(e: Event)
  {
    e.MouseButtonPress? || e.MouseButtonRelease? || e.MouseButtonDblClick? || e.MouseMove? || e.Wheel?
  }

  /** The one calldown an event other than a key press, a shortcut override or an unlisted
      kind goes to. */
  function Handler(e: Event): Option<Calldown>
  {
    match e
    case MouseMove => Some(MouseMoveEvent)
    case MouseButtonPress => Some(MousePressEvent)
    case MouseButtonRelease => Some(MouseReleaseEvent)
    case MouseButtonDblClick => Some(MouseDoubleClickEvent)
    case Wheel => Some(WheelEvent)
    case KeyRelease => Some(KeyReleaseEvent)
    case InputMethod => Some(InputMethodEvent)
    case FocusIn => Some(FocusInEvent)
    case FocusOut => Some(FocusOutEvent)
    case Enter => Some(EnterEvent)
    case Leave => Some(LeaveEvent)
    case Show => Some(ShowEvent)
    case Hide => Some(HideEvent)
    case Paint => Some(PaintEvent)
    case Move => Some(MoveEvent)
    case Resize => Some(ResizeEvent)
    case Close => Some(CloseEvent)
    case Drop => Some(DropEvent)
    case DragEnter => Some(DragEnterEvent)
    case DragMove => Some(DragMoveEvent)
    case DragLeave => Some(DragLeaveEvent)
    case Change(_) => Some(ChangeEvent)
    case Timer => Some(TickEvent)
    case _ => None
  }

  /** The focus direction a key press asks for before keyPressEvent: Backtab or Shift+Tab
      backwards, Tab forwards, nothing with Ctrl or Alt held. */
  function FocusMove(e: Event): Option<bool>
    requires e.KeyPress?
  {
    if e.ctrl || e.alt then None
    else if e.key == Backtab || (e.key == Tab && e.shift) then Some(false)
    else if e.key == Tab then Some(true)
    else None
  }

  /** eventFilter(watched, event); watchedIsView says whether watched is the view and
      viewEnabled whether the view is enabled; answer gives each calldown's result. */
  function EventFilter(watchedIsView: bool, viewEnabled: bool, e: Event, answer: Calldown -> bool): (r: Outcome)
    ensures !watchedIsView ==> r == Outcome([], false)
    ensures !viewEnabled && IsMouseOrWheel(e) ==> r == Outcome([], false)
    ensures r.calls == [] ==> !r.consumed
    ensures watchedIsView && !(!viewEnabled && IsMouseOrWheel(e)) && Handler(e).Some? ==>
      r == Outcome([Handler(e).value], answer(Handler(e).value))
    ensures e.ShortcutOverride? || e.OtherEvent? ==> r == Outcome([], false)
    ensures watchedIsView && e.KeyPress? ==>
      match FocusMove(e)
      case None => r == Outcome([KeyPressEvent], answer(KeyPressEvent))
      case Some(next) =>
        if answer(FocusNextPrevChild(next)) then r == Outcome([FocusNextPrevChild(next)], false)
        else r == Outcome([FocusNextPrevChild(next), KeyPressEvent], answer(KeyPressEvent))
  {
    if !watchedIsView then Outcome([], false)
    else if !viewEnabled && IsMouseOrWheel(e) then Outcome([], false)
    else
      match e
      case KeyPress(key, ctrl, alt, shift) =>
        var focus :=
          if ctrl || alt then None
          else if key == Backtab || (key == Tab && shift) then Some(false)
          else if key == Tab then Some(true)
          else None;
        if focus.Some? && answer(FocusNextPrevChild(focus.value)) then
          Outcome([FocusNextPrevChild(focus.value)], false)
        else if focus.Some? then
          Outcome([FocusNextPrevChild(focus.value), KeyPressEvent], answer(KeyPressEvent))
        else Outcome([KeyPressEvent], answer(KeyPressEvent))
      case ShortcutOverride => Outcome([], false)
      case OtherEvent(_) => Outcome([], false)   // QObject::eventFilter
      case _ =>
        var h := Handler(e).value;
        Outcome([h], answer(h))
  }

  /** Every event reaches at most two calldowns, and the event is consumed only on the
      say-so of the last calldown invoked. */
  lemma ConsumedOnlyByLastCalldown(watchedIsView: bool, viewEnabled: bool, e: Event, answer: Calldown -> bool)
    ensures var r := EventFilter(watchedIsView, viewEnabled, e, answer);
      |r.calls| <= 2 && (r.consumed ==> answer(r.calls[|r.calls| - 1]))
  {
  }

  /** With the default calldowns, which all answer false, no event is ever consumed. */
  lemma DefaultCalldownsConsumeNothing(watchedIsView: bool, viewEnabled: bool, e: Event)
    ensures !EventFilter(watchedIsView, viewEnabled, e, c => false).consumed
  {
  }
}
