/** Mouse messages, buttons and hook verdicts shared by both low-level hook implementations. */
module Mouse {
  import opened Common

  /** Nanoseconds per millisecond: Go's time.Duration counts nanoseconds. */
  const Millisecond: int := 1_000_000

  /** The largest time.Duration; Go's Time.Sub saturates to it, e.g. when subtracting the zero time. */
  const MaxDuration: int := 0x7FFF_FFFF_FFFF_FFFF

  // Window message identifiers of the low-level mouse hook (winuser.h).
  const WmMouseMove: int := 0x0200
  const WmLButtonDown: int := 0x0201
  const WmLButtonUp: int := 0x0202
  const WmRButtonDown: int := 0x0204
  const WmRButtonUp: int := 0x0205

  /** The two buttons the hooks track. The engine keys its maps by the button-down message, except
      the last-up times, which it keys by the button-up message; each code names one button. */
  datatype Button = Left | Right

  /** The message a hook callback receives, decoded from its wParam. */
  datatype MouseEvent = ButtonDown(button: Button) | ButtonUp(button: Button) | MouseMove | Unhandled

  /** What the callback does with the message: hand it to the next hook, or return 1 to swallow it. */
  datatype Verdict = PassOn | Suppress

  /** Errors a hook's Start can report. */
  datatype HookError = AlreadyRunning | NotSupported

  /** Decodes a wParam; codes other than the five the hooks look at are Unhandled. */
  function EventOf(wParam: int): (e: MouseEvent)
    ensures e == ButtonDown(Left) <==> wParam == WmLButtonDown
    ensures e == ButtonDown(Right) <==> wParam == WmRButtonDown
    ensures e == ButtonUp(Left) <==> wParam == WmLButtonUp
    ensures e == ButtonUp(Right) <==> wParam == WmRButtonUp
    ensures e == MouseMove <==> wParam == WmMouseMove
  {
    if wParam == WmLButtonDown then ButtonDown(Left)
    else if wParam == WmRButtonDown then ButtonDown(Right)
    else if wParam == WmLButtonUp then ButtonUp(Left)
    else if wParam == WmRButtonUp then ButtonUp(Right)
    else if wParam == WmMouseMove then MouseMove
    else Unhandled
  }

  /** True when a timestamp is set and `now` lies less than `window` after it.
      An unset timestamp is Go's zero time, from which Sub saturates, so it is never within. */
  predicate Within(since: Option<int>, now: int, window: int)
  {
    since.Some? && now - since.value < window
  }

  /** Go's `now.Sub(since)`, with the zero time standing for "unset". */
  function Elapsed(since: Option<int>, now: int): int
  {
    match since
    case Some(t) => now - t
    case None => MaxDuration
  }
}
