/** The log messages of the application, as tagged records instead of formatted text. */
module LogLines {
  import opened Mouse

  datatype LogLine =
    // Debounce engine (internal/hooks/hook_windows.go)
    // A suppressed DOWN reports the interval it was measured by, the effective delay it fell
    // short of, and the new blocked total; intervals and delays are in nanoseconds.
    | RepeatedDownBlocked(button: Button, interval: int, delay: int, total: int)  // since the previous DOWN
    | HeldBounceBlocked(button: Button, interval: int, delay: int, total: int)    // since the press, while held
    | RapidClickBlocked(button: Button, interval: int, delay: int, total: int)    // since the last complete click
    | PressAllowed(button: Button)
    | SpuriousUpBlocked(button: Button, interval: int)  // since the previous accepted UP
    | ReleasedAfterDrag(button: Button, hold: int)
    | ReleasedAfterLongHold(button: Button, hold: int)
    | QuickRelease(button: Button, hold: int)
    | DragDetected(button: Button)
    | ShortClickSeen(hold: int, shortClicks: int)
    | DelayReduced(button: Button, delay: int)
    | DelayReset(button: Button, delay: int)
    | HookInstalled
    | HookInstallFailed
    | HookRemoved
    // Single-file filter (mouse_hook_windows.go)
    | DoubleClickBlocked(button: Button, interval: int, total: int)  // since the last allowed click
    | ClickAllowed(button: Button)
    // Stub hook (internal/hooks/hook_unsupported.go)
    | UnsupportedPlatform
    // Single-file application (main.go)
    | AppStarted
    | EnterDelayHint
    | InvalidDelay
    | StartingProtection(delayMs: int)
    | StoppingProtection
  {
    /** A line reporting a suppressed button-down, the lines that carry the running blocked
        count. A suppressed spurious up (SpuriousUpBlocked) is not counted and is not one of them. */
    predicate IsBlocked()
    {
      RepeatedDownBlocked? || HeldBounceBlocked? || RapidClickBlocked? || DoubleClickBlocked?
    }
  }
}
