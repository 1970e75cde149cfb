/** The mouse hook on platforms other than Windows: it has no state, refuses to start (telling
    the log why) and otherwise reports nothing. */
module UnsupportedHook {
  import opened Common
  import opened Mouse
  import opened LogLines
  import opened Channels

  /** Start: one "only supported on Windows" line goes to the log channel, and the result is
      always an error. The send is modelled as an offer, so a full channel keeps its contents. */
  method Start(delay: int, logChan: Channel<LogLine>) returns (err: Option<HookError>)
    requires logChan.Valid()
    modifies logChan
    ensures logChan.Valid() && logChan.closed == old(logChan.closed)
    ensures err == Some(NotSupported)
    ensures logChan.buf == Offered(old(logChan.buf), UnsupportedPlatform, logChan.capacity, logChan.closed)
  {
    var sent := logChan.Offer(UnsupportedPlatform);
    err := Some(NotSupported);
  }

  /** Stop always succeeds. */
  function Stop(): (err: Option<HookError>)
    ensures err == None
  {
    None
  }

  /** No click is ever blocked, so the count is always zero; resetting it has nothing to do. */
  function GetBlockedCount(): (n: int)
    ensures n == 0
  {
    0
  }

  function IsSupported(): (supported: bool)
    ensures !supported
  {
    false
  }
}
