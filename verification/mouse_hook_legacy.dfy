/** The older single-file click filter: a button-down on the same button as the last allowed
    click, sooner than the delay after it, is swallowed; everything else is passed on. The
    package-level variables of the filter are the fields of one object. */
module LegacyHook {
  import opened Common
  import opened Mouse
  import opened LogLines
  import opened Channels

  /** The filter's per-event state: the last allowed click and the running blocked count. */
  datatype FilterState = FilterState(lastClickTime: Option<int>, lastClickButton: Option<Button>, blockedCount: int)

  datatype FilterResult = FilterResult(state: FilterState, verdict: Verdict, logs: seq<LogLine>)

  /** The state before the first event: Go's zero time, a zero wParam (no button) and no blocks. */
  function InitialFilter(): FilterState
  {
    FilterState(None, None, 0)
  }

  /** True when a down on `b` at `now` repeats the last allowed click too soon. */
  predicate IsRepeat(s: FilterState, delay: int, b: Button, now: int)
  {
    s.lastClickButton == Some(b) && Within(s.lastClickTime, now, delay)
  }

  /** A button-down. It is suppressed exactly when it repeats the last allowed click too soon;
      a suppressed down only counts (so the window stays anchored at the last allowed click),
      an allowed one becomes the new last click and the count is untouched. */
  function FilterDown(s: FilterState, delay: int, b: Button, now: int): (r: FilterResult)
    ensures r.verdict == Suppress <==> IsRepeat(s, delay, b, now)
    ensures r.verdict == Suppress ==>
              && r.state.lastClickTime == s.lastClickTime && r.state.lastClickButton == s.lastClickButton
              && r.state.blockedCount == s.blockedCount + 1
              && r.logs == [DoubleClickBlocked(b, Elapsed(s.lastClickTime, now), r.state.blockedCount)]
              && r.logs[0].interval < delay
    ensures r.verdict == PassOn ==>
              && r.state.lastClickTime == Some(now) && r.state.lastClickButton == Some(b)
              && r.state.blockedCount == s.blockedCount
              && r.logs == [ClickAllowed(b)]
  {
    if IsRepeat(s, delay, b, now) then
      var total := s.blockedCount + 1;
      FilterResult(s.(blockedCount := total), Suppress, [DoubleClickBlocked(b, Elapsed(s.lastClickTime, now), total)])
    else
      FilterResult(s.(lastClickTime := Some(now), lastClickButton := Some(b)), PassOn, [ClickAllowed(b)])
  }

  /** One invocation of the filter's LowLevelMouseProc: only button-downs (with a non-negative
      nCode) are looked at; ups, moves and other messages pass with nothing changed. */
  function Filter(s: FilterState, delay: int, nCode: int, wParam: int, now: int): (r: FilterResult)
    ensures nCode < 0 || !EventOf(wParam).ButtonDown? ==> r == FilterResult(s, PassOn, [])
    ensures r.state.blockedCount == s.blockedCount + (if r.verdict == Suppress then 1 else 0)
    ensures |r.logs| <= 1
  {
    if nCode >= 0 && EventOf(wParam).ButtonDown? then FilterDown(s, delay, EventOf(wParam).button, now)
    else FilterResult(s, PassOn, [])
  }

  /** An allowed down on `b` never stands in the way of a down on the other button: the filter
      only compares against the same button. */
  lemma OtherButtonPasses(s: FilterState, delay: int, b: Button, c: Button, now: int, later: int)
    requires b != c
    requires FilterDown(s, delay, b, now).verdict == PassOn
    ensures FilterDown(FilterDown(s, delay, b, now).state, delay, c, later).verdict == PassOn
  {
  }

  /** How many of the verdicts suppress. */
  function Suppressions(vs: seq<Verdict>): (n: nat)
    ensures n <= |vs|
  {
    if vs == [] then 0 else (if vs[0] == Suppress then 1 else 0) + Suppressions(vs[1..])
  }

  /** The downs of a bounce train on one button, fed to the filter in order: the final state and
      the verdict of each down. The count rises by the number of suppressed downs; a train
      with every down suppressed changes nothing else, and once any down is allowed the button
      of the last click is the train's. */
  function Train(s: FilterState, delay: int, b: Button, times: seq<int>): (r: (FilterState, seq<Verdict>))
    ensures |r.1| == |times|
    ensures r.0.blockedCount == s.blockedCount + Suppressions(r.1)
    ensures Suppressions(r.1) == |times| ==> r.0 == s.(blockedCount := s.blockedCount + |times|)
    ensures Suppressions(r.1) < |times| ==> r.0.lastClickButton == Some(b)
    decreases |times|
  {
    if times == [] then (s, [])
    else
      var first := FilterDown(s, delay, b, times[0]);
      var rest := Train(first.state, delay, b, times[1..]);
      (rest.0, [first.verdict] + rest.1)
  }

  /** Every down of a train that stays within the delay of the last allowed click on the same
      button is suppressed, and the train changes nothing but the count, which rises by its
      length: the window is measured from the last allowed click, not from the last bounce. */
  lemma {:induction false} TrainAnchoredAtLastClick(s: FilterState, delay: int, b: Button, t0: int, times: seq<int>)
    requires s.lastClickButton == Some(b) && s.lastClickTime == Some(t0)
    requires forall i :: 0 <= i < |times| ==> times[i] - t0 < delay
    ensures Train(s, delay, b, times).0 == s.(blockedCount := s.blockedCount + |times|)
    ensures forall i :: 0 <= i < |times| ==> Train(s, delay, b, times).1[i] == Suppress
    decreases |times|
  {
    if times != [] {
      var first := FilterDown(s, delay, b, times[0]);
      assert first.state == s.(blockedCount := s.blockedCount + 1);
      TrainAnchoredAtLastClick(first.state, delay, b, t0, times[1..]);
      var rest := Train(first.state, delay, b, times[1..]);
      forall i | 0 <= i < |times|
        ensures Train(s, delay, b, times).1[i] == Suppress
      {
        if i > 0 {
          assert Train(s, delay, b, times).1[i] == rest.1[i - 1];
        }
      }
    }
  }

  /** The package variables of mouse_hook_windows.go; `hookInstalled` stands for `hook != nil`. */
  class Filterer {
    var delay: int
    var lastClickTime: Option<int>
    var lastClickButton: Option<Button>
    var logChannel: Channel?<LogLine>
    var blockedCount: int
    var hookInstalled: bool

    ghost function State(): FilterState
      reads this
    {
      FilterState(lastClickTime, lastClickButton, blockedCount)
    }

    ghost function Pending(): seq<LogLine>
      reads this, logChannel
    {
      if logChannel == null then [] else logChannel.buf
    }

    /** The log channel now holds what offering `logs` to a channel holding `before` leaves in it. */
    ghost predicate LogsSent(before: seq<LogLine>, logs: seq<LogLine>)
      reads this, logChannel
    {
      logChannel != null ==>
        && |before| <= logChannel.capacity
        && logChannel.buf == Delivered(before, logs, logChannel.capacity, logChannel.closed)
    }

    /** The package variables at program start: all zero. */
    constructor ()
      ensures State() == InitialFilter() && delay == 0 && logChannel == null && !hookInstalled
    {
      delay := 0;
      lastClickTime := None;
      lastClickButton := None;
      logChannel := null;
      blockedCount := 0;
      hookInstalled := false;
    }

    /** sendLog: a non-blocking send that drops the line when the channel is full. */
    method SendLog(line: LogLine)
      requires logChannel != null ==> logChannel.Valid()
      modifies logChannel
      ensures logChannel != null ==> logChannel.Valid() && logChannel.closed == old(logChannel.closed)
      ensures LogsSent(old(Pending()), [line])
      ensures logChannel != null && |old(Pending())| == logChannel.capacity ==> Pending() == old(Pending())
    {
      if logChannel != null {
        var sent := logChannel.Offer(line);
      }
    }

    /** LowLevelMouseProc of the filter. */
    method MouseProc(nCode: int, wParam: int, now: int) returns (v: Verdict)
      requires logChannel != null ==> logChannel.Valid()
      modifies this`lastClickTime, this`lastClickButton, this`blockedCount, logChannel
      ensures logChannel != null ==> logChannel.Valid()
      ensures logChannel != null ==> logChannel.closed == old(logChannel.closed)
      ensures var r := Filter(old(State()), delay, nCode, wParam, now);
              State() == r.state && v == r.verdict && LogsSent(old(Pending()), r.logs)
    {
      if nCode < 0 {
        return PassOn;
      }
      var e := EventOf(wParam);
      if e.ButtonDown? {
        var b := e.button;
        if lastClickButton == Some(b) && lastClickTime.Some? && now - lastClickTime.value < delay {
          blockedCount := blockedCount + 1;
          SendLog(DoubleClickBlocked(b, now - lastClickTime.value, blockedCount));
          return Suppress;
        }
        lastClickTime, lastClickButton := Some(now), Some(b);
        SendLog(ClickAllowed(b));
      }
      return PassOn;
    }

    /** startHook: sets the delay and the log channel; installing the hook happens afterwards
        in a goroutine (see InstallFinished). The last click and the count are kept. */
    method StartHook(d: int, logChan: Channel?<LogLine>)
      modifies this`delay, this`logChannel
      ensures delay == d && logChannel == logChan
    {
      delay, logChannel := d, logChan;
    }

    /** The installer goroutine of startHook, once SetWindowsHookExW has returned: on success the
        handle is kept and the "installed" line sent, on failure only the "failed" line. */
    method InstallFinished(installed: bool)
      requires logChannel != null ==> logChannel.Valid()
      modifies this`hookInstalled, logChannel
      ensures logChannel != null ==> logChannel.Valid()
      ensures logChannel != null ==> logChannel.closed == old(logChannel.closed)
      ensures hookInstalled == installed
      ensures LogsSent(old(Pending()), [if installed then HookInstalled else HookInstallFailed])
    {
      if installed {
        hookInstalled := true;
        SendLog(HookInstalled);
      } else {
        hookInstalled := false;
        SendLog(HookInstallFailed);
      }
    }

    /** stopHook: removes an installed hook and sends the "removed" line; without a hook it does
        nothing at all. */
    method StopHook()
      requires logChannel != null ==> logChannel.Valid()
      modifies this`hookInstalled, logChannel
      ensures logChannel != null ==> logChannel.Valid() && logChannel.closed == old(logChannel.closed)
      ensures !hookInstalled
      ensures LogsSent(old(Pending()), if old(hookInstalled) then [HookRemoved] else [])
      ensures !old(hookInstalled) ==> Pending() == old(Pending())
    {
      if hookInstalled {
        hookInstalled := false;
        SendLog(HookRemoved);
      }
    }

    method GetBlockedCount() returns (n: int)
      ensures n == blockedCount
    {
      n := blockedCount;
    }

    method ResetBlockedCount()
      modifies this`blockedCount
      ensures State() == old(State()).(blockedCount := 0)
    {
      blockedCount := 0;
    }
  }
}
