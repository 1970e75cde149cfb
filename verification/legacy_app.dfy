/** The older single-window application: a delay field, Start and Stop buttons guarded by a
    running flag, and a log display fed from a 100-line queue that keeps the newest 100 lines. */
module LegacyApp {
  import opened Common
  import opened Mouse
  import opened LogLines
  import opened Channels
  import opened GoStrings
  import opened Logging
  import opened LegacyHook

  /** Capacity of the log queue and bound of the displayed history. */
  const LogCapacity: nat := 100
  /** The delay used when the field is left blank, and the field's initial text. */
  const DefaultDelayMs: int := 50
  const MinDelayMs: int := 1
  const MaxDelayMs: int := 5000

  /** The delay the Start button takes from the field's text: the text is trimmed, a blank field
      means 50, and anything that is not an integer in 1..5000 is refused. */
  function DelayFromInput(text: string): (r: Option<int>)
    ensures AllSpace(text) ==> r == Some(DefaultDelayMs)
    ensures r.Some? ==> MinDelayMs <= r.value <= MaxDelayMs
    ensures !AllSpace(text) ==>
              (r.Some? <==> Atoi(TrimSpace(text)).Some? && MinDelayMs <= Atoi(TrimSpace(text)).value <= MaxDelayMs)
    ensures !AllSpace(text) && r.Some? ==> r == Atoi(TrimSpace(text))
  {
    var trimmed := TrimSpace(text);
    var delayText := if trimmed == "" then "50" else trimmed;
    AtoiOfDefault();
    match Atoi(delayText)
    case Some(n) => if n < MinDelayMs || n > MaxDelayMs then None else Some(n)
    case None => None
  }

  /** A helper for the blank-field path of the Start button: the default text "50" parses to
      the default delay. */
  lemma AtoiOfDefault()
    ensures Atoi("50") == Some(DefaultDelayMs)
  {
    assert AllDigits("50");
    assert "5"[..0] == [] && DigitsValue("5") == 5;
    assert "50"[..1] == "5" && DigitsValue("50") == 50;
  }

  /** Any delay in range, typed in decimal with any white space around it, is read back. */
  lemma DelayFromInputRoundTrip(n: int, before: string, after: string)
    requires MinDelayMs <= n <= MaxDelayMs
    requires AllSpace(before) && AllSpace(after)
    ensures DelayFromInput(before + Itoa(n) + after) == Some(n)
  {
    var s := Itoa(n);
    assert IsDigit(s[0]) && IsDigit(s[|s| - 1]);
    TrimSpacePadded(before, s, after);
    AtoiItoa(n);
  }

  /** The window's state: the running flag, the delay field, the log queue and the displayed
      history; `hook` holds the package variables of the filter it drives. */
  class Window {
    var isRunning: bool
    var delayText: string
    const logChannel: Channel<LogLine>
    var logHistory: seq<LogLine>
    const hook: Filterer

    ghost predicate Valid()
      reads this, logChannel, hook
    {
      && logChannel.Valid() && logChannel.capacity == LogCapacity && !logChannel.closed
      && (hook.logChannel == null || hook.logChannel == logChannel)
      && (isRunning ==> hook.logChannel == logChannel)
      && |logHistory| <= LogCapacity
    }

    /** main, up to ShowAndRun: the field shows "50", nothing runs, and the two greeting lines
        are queued. */
    constructor ()
      ensures Valid() && fresh(logChannel) && fresh(hook)
      ensures !isRunning && delayText == "50" && logHistory == []
      ensures logChannel.buf == [AppStarted, EnterDelayHint]
      ensures hook.State() == InitialFilter() && hook.logChannel == null && !hook.hookInstalled
    {
      isRunning := false;
      delayText := "50";
      logHistory := [];
      hook := new Filterer();
      var ch := new Channel(LogCapacity);
      var sent := ch.Offer(AppStarted);
      sent := ch.Offer(EnterDelayHint);
      logChannel := ch;
    }

    /** The Start button. While running it does nothing. Otherwise a blank field is reset to
        "50"; a refused delay queues the error line and leaves the window stopped; an accepted
        one marks it running, queues the start line and starts the filter with that many
        milliseconds. */
    method StartPressed()
      requires Valid()
      modifies this`isRunning, this`delayText, logChannel, hook`delay, hook`logChannel
      ensures Valid()
      ensures old(isRunning) ==>
                && isRunning && delayText == old(delayText) && logChannel.buf == old(logChannel.buf)
                && hook.delay == old(hook.delay) && hook.logChannel == old(hook.logChannel)
      ensures !old(isRunning) ==>
                && delayText == (if AllSpace(old(delayText)) then "50" else old(delayText))
                && match DelayFromInput(old(delayText))
                   case None =>
                     && !isRunning
                     && logChannel.buf == Offered(old(logChannel.buf), InvalidDelay, LogCapacity, false)
                     && hook.delay == old(hook.delay) && hook.logChannel == old(hook.logChannel)
                   case Some(d) =>
                     && isRunning
                     && logChannel.buf == Offered(old(logChannel.buf), StartingProtection(d), LogCapacity, false)
                     && hook.delay == d * Millisecond && hook.logChannel == logChannel
    {
      if isRunning {
        return;
      }
      var text := TrimSpace(delayText);
      if text == "" {
        text := "50";
        delayText := "50";
      }
      var parsed := Atoi(text);
      if parsed.None? || parsed.value < MinDelayMs || parsed.value > MaxDelayMs {
        var sent := logChannel.Offer(InvalidDelay);
        return;
      }
      var delayMs := parsed.value;
      isRunning := true;
      var sent := logChannel.Offer(StartingProtection(delayMs));
      hook.StartHook(delayMs * Millisecond, logChannel);
    }

    /** The Stop button. When not running it does nothing. Otherwise the window is marked
        stopped, the stop line is queued, and the filter is removed (which queues its own line
        if a hook was installed). */
    method StopPressed()
      requires Valid()
      modifies this`isRunning, logChannel, hook`hookInstalled
      ensures Valid() && !isRunning && !logChannel.closed
      ensures !old(isRunning) ==> logChannel.buf == old(logChannel.buf) && hook.hookInstalled == old(hook.hookInstalled)
      ensures old(isRunning) ==>
                && !hook.hookInstalled
                && logChannel.buf == Delivered(old(logChannel.buf),
                                               [StoppingProtection] + (if old(hook.hookInstalled) then [HookRemoved] else []),
                                               LogCapacity, false)
    {
      if !isRunning {
        return;
      }
      isRunning := false;
      ghost var before := logChannel.buf;
      var sent := logChannel.Offer(StoppingProtection);
      ghost var wasInstalled := hook.hookInstalled;
      hook.StopHook();
      DeliveredConcat(before, [StoppingProtection], if wasInstalled then [HookRemoved] else [], LogCapacity, false);
    }

    /** One turn of the display loop: the oldest queued line, if any, is appended to the history,
        which then keeps only its newest 100 lines. */
    method ConsumeLog() returns (received: bool)
      requires Valid()
      modifies logChannel, this`logHistory
      ensures Valid()
      ensures received <==> old(logChannel.buf) != []
      ensures received ==> && logChannel.buf == old(logChannel.buf)[1..]
                           && logHistory == AppendBounded(old(logHistory), old(logChannel.buf)[0], LogCapacity)
      ensures !received ==> logChannel.buf == [] && logHistory == old(logHistory)
    {
      var m := logChannel.Receive();
      received := m.Some?;
      if m.Some? {
        logHistory := logHistory + [m.value];
        if |logHistory| > LogCapacity {
          logHistory := logHistory[1..];
        }
      }
    }
  }
}
