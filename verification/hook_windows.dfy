/** The debounce engine of internal/hooks/hook_windows.go.

    The first half is a value-level specification of one callback invocation (ClickState and the
    Step functions) together with the properties the engine promises; the second half is the
    engine itself, a class whose fields are the Go struct's fields and whose methods are proved
    to update them exactly as the specification says. */
module Hooks {
  import opened Common
  import opened Mouse
  import opened LogLines
  import opened Channels

  /** Presses held for less than this are "short" (likely too little contact pressure). */
  const ShortClickLimit: int := 30 * Millisecond
  /** Releases after a hold longer than this are logged as long holds. */
  const LongHoldLimit: int := 200 * Millisecond
  /** Lower bound of the reduced adaptive delay. */
  const AdaptiveFloor: int := 20 * Millisecond
  /** Completed clicks remembered per button. */
  const HistoryCapacity: int := 10
  /** The pattern is analysed once this many clicks are remembered. */
  const AnalysisWindow: int := 5

  // ---------------------------------------------------------------------------------------------
  // Per-button maps

  /** One of the engine's per-button Go maps. All of them are keyed by the button-down message
      except lastUpTime, which is keyed by the button-up message; the up case maps each up code
      one-to-one onto its button, so every map is indexed by the button here. Every read treats a
      missing key as the zero value (false, the zero time, 0, an empty history), so a map is its
      pair of values with missing keys read as zero; an unset time is None. */
  datatype PerButton<T> = PerButton(left: T, right: T)
  {
    function Get(b: Button): T
    {
      if b == Left then left else right
    }

    function Set(b: Button, v: T): PerButton<T>
    {
      if b == Left then this.(left := v) else this.(right := v)
    }
  }

  /** `make(map[...]...)`: every button reads as `zero`. */
  function Empty<T>(zero: T): PerButton<T>
  {
    PerButton(zero, zero)
  }

  // ---------------------------------------------------------------------------------------------
  // Delays

  /** getEffectiveDelay: the per-button adaptive delay when one is set and positive, else the base. */
  function EffectiveDelay(adaptive: PerButton<int>, base: int, b: Button): (d: int)
    ensures adaptive.Get(b) > 0 ==> d == adaptive.Get(b)
    ensures adaptive.Get(b) <= 0 ==> d == base
  {
    if adaptive.Get(b) > 0 then adaptive.Get(b) else base
  }

  /** The delay used once the low-pressure pattern is detected: half the base, at least 20 ms.
      It is never below 20 ms, and for a base under 20 ms it is LARGER than the base.
      (Go divides toward zero and Dafny toward minus infinity; they differ only for a negative
      base, where both halves are below the floor and the result is the floor either way.) */
  function ReducedDelay(base: int): (d: int)
    ensures d >= AdaptiveFloor
    ensures d >= base / 2
    ensures d == base / 2 || d == AdaptiveFloor
    ensures base < AdaptiveFloor ==> d > base
    ensures base >= 2 * AdaptiveFloor ==> d <= base
  {
    if base / 2 < AdaptiveFloor then AdaptiveFloor else base / 2
  }

  /** What the loop over the last five remembered clicks counts: it tests the cumulative short-click
      counter, not a per-click flag, so every one of the five is counted or none is. */
  function WindowShortClicks(shortClickCount: int): int
  {
    if shortClickCount > 0 then AnalysisWindow else 0
  }

  /** `float64(shortClicks)/5.0 > 0.6` on the integers 0..5 (3/5.0 equals the double 0.6). */
  predicate MostlyShort(shortClicks: int)
  {
    shortClicks > 3
  }

  // ---------------------------------------------------------------------------------------------
  // The engine's state as a value

  /** The faulty-hardware detection fields: per button the times of the last completed clicks,
      the adaptive delay and the cumulative count of short clicks. */
  datatype Adaptation = Adaptation(
    clickPattern: PerButton<seq<int>>,
    adaptiveDelay: PerButton<int>,
    shortClickCount: PerButton<int>)

  datatype ClickState = ClickState(
    delay: int,
    lastCompleteClick: Option<int>,
    lastClickButton: Option<Button>,
    buttonPressed: PerButton<bool>,
    buttonPressTime: PerButton<Option<int>>,
    dragDetected: PerButton<bool>,
    adaptation: Adaptation,
    blockedCount: int,
    lastDownTime: PerButton<Option<int>>,
    lastDownBlocked: PerButton<bool>,
    lastUpTime: PerButton<Option<int>>)

  datatype StepResult = StepResult(state: ClickState, verdict: Verdict, logs: seq<LogLine>)

  datatype Adapted = Adapted(adaptation: Adaptation, logs: seq<LogLine>)

  function DelayOf(s: ClickState, b: Button): int
  {
    EffectiveDelay(s.adaptation.adaptiveDelay, s.delay, b)
  }

  /** The four outcomes of a button-down, in the order the source checks them. */
  datatype DownRule = RepeatedDown | HeldBounce | RapidClick | PressAccepted

  /** The line logged for a suppressed down: the interval the rule measured, the effective delay
      and the new blocked total. */
  function BlockedLine(rule: DownRule, b: Button, interval: int, delay: int, total: int): LogLine
  {
    match rule
    case RepeatedDown => RepeatedDownBlocked(b, interval, delay, total)
    case HeldBounce => HeldBounceBlocked(b, interval, delay, total)
    case RapidClick => RapidClickBlocked(b, interval, delay, total)
    case PressAccepted => PressAllowed(b)
  }

  /** The interval a later rule reports: since the press while held, else since the last
      complete click. */
  function LaterInterval(s: ClickState, rule: DownRule, b: Button, now: int): int
  {
    if rule == HeldBounce then Elapsed(s.buttonPressTime.Get(b), now) else Elapsed(s.lastCompleteClick, now)
  }

  /** The rules checked once a down is not within the delay of the previous down. */
  function LaterRuleOf(s: ClickState, b: Button, now: int): DownRule
  {
    var d := DelayOf(s, b);
    if s.buttonPressed.Get(b) && Within(s.buttonPressTime.Get(b), now, d) then HeldBounce
    else if Within(s.lastCompleteClick, now, d) && s.lastClickButton == Some(b) then RapidClick
    else PressAccepted
  }

  function DownRuleOf(s: ClickState, b: Button, now: int): DownRule
  {
    if Within(s.lastDownTime.Get(b), now, DelayOf(s, b)) then RepeatedDown else LaterRuleOf(s, b, now)
  }

  /** What a down does once it has passed the first check and its time has been recorded. */
  function PressStep(s: ClickState, b: Button, now: int): StepResult
  {
    var rule := LaterRuleOf(s, b, now);
    if rule == PressAccepted then
      var s' := s.(buttonPressed := s.buttonPressed.Set(b, true),
                   buttonPressTime := s.buttonPressTime.Set(b, Some(now)),
                   dragDetected := s.dragDetected.Set(b, false));
      StepResult(s', PassOn, [PressAllowed(b)])
    else
      var s' := s.(blockedCount := s.blockedCount + 1);
      StepResult(s', Suppress, [BlockedLine(rule, b, LaterInterval(s, rule, b, now), DelayOf(s, b), s'.blockedCount)])
  }

  /** A button-down. Every down moves lastDownTime to `now`, also a suppressed one, so a train of
      bounces keeps extending the window; every suppression adds exactly one to the blocked count;
      only an accepted press touches the pressed / press-time / drag state. */
  function DownStep(s: ClickState, b: Button, now: int): (r: StepResult)
    ensures r.state.lastDownTime == s.lastDownTime.Set(b, Some(now))
    ensures r.state.lastDownBlocked == s.lastDownBlocked.Set(b, Within(s.lastDownTime.Get(b), now, DelayOf(s, b)))
    ensures Within(s.lastDownTime.Get(b), now, DelayOf(s, b)) ==> r.verdict == Suppress
    ensures r.verdict == Suppress <==> DownRuleOf(s, b, now) != PressAccepted
    ensures r.state.blockedCount == s.blockedCount + (if r.verdict == Suppress then 1 else 0)
    ensures r.verdict == PassOn ==>
      && r.state.buttonPressed == s.buttonPressed.Set(b, true)
      && r.state.buttonPressTime == s.buttonPressTime.Set(b, Some(now))
      && r.state.dragDetected == s.dragDetected.Set(b, false)
    ensures r.verdict == Suppress ==>
      && r.state.buttonPressed == s.buttonPressed
      && r.state.buttonPressTime == s.buttonPressTime
      && r.state.dragDetected == s.dragDetected
    ensures (s.lastClickButton != Some(b) && !s.buttonPressed.Get(b)
             && !Within(s.lastDownTime.Get(b), now, DelayOf(s, b))) ==> r.verdict == PassOn
    ensures r.state.delay == s.delay && r.state.adaptation == s.adaptation && r.state.lastUpTime == s.lastUpTime
    ensures r.state.lastCompleteClick == s.lastCompleteClick && r.state.lastClickButton == s.lastClickButton
    ensures |r.logs| == 1
    ensures r.verdict == Suppress ==> r.logs[0].IsBlocked() && r.logs[0].total == r.state.blockedCount
    ensures DownRuleOf(s, b, now) == RepeatedDown ==>
            r.logs == [RepeatedDownBlocked(b, Elapsed(s.lastDownTime.Get(b), now), DelayOf(s, b), r.state.blockedCount)]
    ensures DownRuleOf(s, b, now) == HeldBounce ==>
            r.logs == [HeldBounceBlocked(b, Elapsed(s.buttonPressTime.Get(b), now), DelayOf(s, b), r.state.blockedCount)]
    ensures DownRuleOf(s, b, now) == RapidClick ==>
            r.logs == [RapidClickBlocked(b, Elapsed(s.lastCompleteClick, now), DelayOf(s, b), r.state.blockedCount)]
    ensures r.verdict == Suppress ==> r.logs[0].delay == DelayOf(s, b) && r.logs[0].interval < r.logs[0].delay
    ensures r.verdict == PassOn ==> r.logs == [PressAllowed(b)]
  {
    if Within(s.lastDownTime.Get(b), now, DelayOf(s, b)) then
      var s' := s.(lastDownBlocked := s.lastDownBlocked.Set(b, true),
                   lastDownTime := s.lastDownTime.Set(b, Some(now)),
                   blockedCount := s.blockedCount + 1);
      StepResult(s', Suppress, [BlockedLine(RepeatedDown, b, Elapsed(s.lastDownTime.Get(b), now), DelayOf(s, b), s'.blockedCount)])
    else
      PressStep(s.(lastDownTime := s.lastDownTime.Set(b, Some(now)),
                   lastDownBlocked := s.lastDownBlocked.Set(b, false)), b, now)
  }

  /** The history after remembering a click at `now`: appended, then the oldest dropped past ten. */
  function Remembered(history: seq<int>, now: int): (h: seq<int>)
    ensures |history| <= HistoryCapacity ==> |h| <= HistoryCapacity
    ensures |history| < HistoryCapacity ==> h == history + [now]
    ensures h == history + [now] || h == (history + [now])[1..]
    ensures h != [] && h[|h| - 1] == now
  {
    var g := history + [now];
    if |g| > HistoryCapacity then g[1..] else g
  }

  /** The adaptive delay the analysis aims at, given the cumulative short-click count. */
  function TargetDelay(base: int, shortClickCount: int): int
  {
    if MostlyShort(WindowShortClicks(shortClickCount)) then ReducedDelay(base) else base
  }

  /** The first half of detectFaultyHardware: the click is remembered, and counted (and logged)
      when it was short. */
  function Recorded(ad: Adaptation, b: Button, hold: int, now: int): Adapted
  {
    var short := hold < ShortClickLimit;
    var count := ad.shortClickCount.Get(b) + (if short then 1 else 0);
    Adapted(ad.(clickPattern := ad.clickPattern.Set(b, Remembered(ad.clickPattern.Get(b), now)),
                shortClickCount := if short then ad.shortClickCount.Set(b, count) else ad.shortClickCount),
            if short then [ShortClickSeen(hold, count)] else [])
  }

  /** The second half: once five clicks are remembered, the adaptive delay is set to the target
      (and the change logged) when it differs from it. */
  function Analysed(ad: Adaptation, base: int, b: Button): Adapted
  {
    var count := ad.shortClickCount.Get(b);
    var target := TargetDelay(base, count);
    if |ad.clickPattern.Get(b)| < AnalysisWindow || ad.adaptiveDelay.Get(b) == target then Adapted(ad, [])
    else
      var line := if MostlyShort(WindowShortClicks(count)) then DelayReduced(b, target) else DelayReset(b, target);
      Adapted(ad.(adaptiveDelay := ad.adaptiveDelay.Set(b, target)), [line])
  }

  /** detectFaultyHardware for one completed click of `b` held for `hold`, with base delay `base`.
      The history keeps the last ten click times; a hold under 30 ms bumps the cumulative
      short-click counter; once five or more clicks are remembered the adaptive delay becomes
      ReducedDelay(base) if the counter is positive and the base otherwise, and it is written and
      logged only when it changes. Only `b`'s entries change. */
  function AdaptiveStep(ad: Adaptation, base: int, b: Button, hold: int, now: int): (r: Adapted)
    ensures r.adaptation.clickPattern == ad.clickPattern.Set(b, Remembered(ad.clickPattern.Get(b), now))
    ensures r.adaptation.shortClickCount.Get(b) == ad.shortClickCount.Get(b) + (if hold < ShortClickLimit then 1 else 0)
    ensures hold >= ShortClickLimit ==> r.adaptation.shortClickCount == ad.shortClickCount
    ensures hold < ShortClickLimit ==>
            r.adaptation.shortClickCount == ad.shortClickCount.Set(b, ad.shortClickCount.Get(b) + 1)
    ensures |r.adaptation.clickPattern.Get(b)| < AnalysisWindow ==> r.adaptation.adaptiveDelay == ad.adaptiveDelay
    ensures |r.adaptation.clickPattern.Get(b)| >= AnalysisWindow ==>
            r.adaptation.adaptiveDelay.Get(b)
              == (if r.adaptation.shortClickCount.Get(b) > 0 then ReducedDelay(base) else base)
    ensures r.adaptation.adaptiveDelay == ad.adaptiveDelay
         || r.adaptation.adaptiveDelay == ad.adaptiveDelay.Set(b, r.adaptation.adaptiveDelay.Get(b))
    ensures r.adaptation.adaptiveDelay.Get(b) == ad.adaptiveDelay.Get(b) ==>
            r.adaptation.adaptiveDelay == ad.adaptiveDelay
    ensures |r.logs| == (if hold < ShortClickLimit then 1 else 0)
                      + (if r.adaptation.adaptiveDelay.Get(b) != ad.adaptiveDelay.Get(b) then 1 else 0)
    ensures r.logs
         == (if hold < ShortClickLimit then [ShortClickSeen(hold, r.adaptation.shortClickCount.Get(b))] else [])
          + (if r.adaptation.adaptiveDelay.Get(b) == ad.adaptiveDelay.Get(b) then []
             else if r.adaptation.shortClickCount.Get(b) > 0 then [DelayReduced(b, r.adaptation.adaptiveDelay.Get(b))]
             else [DelayReset(b, r.adaptation.adaptiveDelay.Get(b))])
  {
    var recorded := Recorded(ad, b, hold, now);
    var analysed := Analysed(recorded.adaptation, base, b);
    Adapted(analysed.adaptation, recorded.logs + analysed.logs)
  }

  /** The release line, chosen after the adaptive update. */
  function ReleaseLine(b: Button, hold: int, dragged: bool): LogLine
  {
    if dragged then ReleasedAfterDrag(b, hold)
    else if hold > LongHoldLimit then ReleasedAfterLongHold(b, hold)
    else QuickRelease(b, hold)
  }

  /** The hold duration of a release of `b` at `now`. */
  function HoldOf(s: ClickState, b: Button, now: int): int
  {
    Elapsed(s.buttonPressTime.Get(b), now)
  }

  /** A button-up. It is suppressed, without any state change, when its button is not pressed or
      when it follows the button's previous accepted up within the effective delay. Otherwise it
      records the up, the complete click and its button, releases the button, runs the adaptive
      update once with the hold duration, clears the drag flag, and never touches the blocked count. */
  function UpStep(s: ClickState, b: Button, now: int): (r: StepResult)
    ensures r.verdict == Suppress <==>
            !s.buttonPressed.Get(b) || Within(s.lastUpTime.Get(b), now, DelayOf(s, b))
    ensures r.verdict == Suppress ==> r.state == s && r.logs == [SpuriousUpBlocked(b, Elapsed(s.lastUpTime.Get(b), now))]
    ensures r.verdict == Suppress && s.buttonPressed.Get(b) ==> r.logs[0].interval < DelayOf(s, b)
    ensures r.state.blockedCount == s.blockedCount && r.state.delay == s.delay
    ensures r.verdict == PassOn ==>
      var a := AdaptiveStep(s.adaptation, s.delay, b, HoldOf(s, b, now), now);
      && r.state == s.(lastUpTime := s.lastUpTime.Set(b, Some(now)),
                       lastCompleteClick := Some(now),
                       lastClickButton := Some(b),
                       buttonPressed := s.buttonPressed.Set(b, false),
                       dragDetected := s.dragDetected.Set(b, false),
                       adaptation := a.adaptation)
      && r.logs == a.logs + [ReleaseLine(b, HoldOf(s, b, now), s.dragDetected.Get(b))]
  {
    if !s.buttonPressed.Get(b) || Within(s.lastUpTime.Get(b), now, DelayOf(s, b)) then
      StepResult(s, Suppress, [SpuriousUpBlocked(b, Elapsed(s.lastUpTime.Get(b), now))])
    else
      ReleaseStep(s.(lastUpTime := s.lastUpTime.Set(b, Some(now))), b, HoldOf(s, b, now), now)
  }

  /** What an accepted up does once its time is recorded, for a pressed button: the complete
      click and its button are recorded, the button is released, the adaptive update runs with
      the hold duration, the release is logged and the drag flag cleared. */
  function ReleaseStep(s: ClickState, b: Button, hold: int, now: int): StepResult
  {
    if s.buttonPressed.Get(b) then
      var a := AdaptiveStep(s.adaptation, s.delay, b, hold, now);
      var s' := s.(lastCompleteClick := Some(now),
                   lastClickButton := Some(b),
                   buttonPressed := s.buttonPressed.Set(b, false),
                   adaptation := a.adaptation,
                   dragDetected := s.dragDetected.Set(b, false));
      StepResult(s', PassOn, a.logs + [ReleaseLine(b, hold, s.dragDetected.Get(b))])
    else
      StepResult(s, PassOn, [])
  }

  /** The drag line for `b` if a move starts a drag of it. */
  function DragLines(s: ClickState, b: Button): seq<LogLine>
  {
    if s.buttonPressed.Get(b) && !s.dragDetected.Get(b) then [DragDetected(b)] else []
  }

  /** A move. It marks every pressed, not yet dragging button as dragging and logs that once;
      it changes nothing else and is always passed on. */
  function MoveStep(s: ClickState): (r: StepResult)
    ensures r.verdict == PassOn
    ensures r.state == s.(dragDetected := r.state.dragDetected)
    ensures r.state.dragDetected.Get(Left) == (s.dragDetected.Get(Left) || s.buttonPressed.Get(Left))
    ensures r.state.dragDetected.Get(Right) == (s.dragDetected.Get(Right) || s.buttonPressed.Get(Right))
    ensures r.logs == DragLines(s, Left) + DragLines(s, Right)
  {
    var d1 := if s.buttonPressed.Get(Left) && !s.dragDetected.Get(Left)
              then s.dragDetected.Set(Left, true) else s.dragDetected;
    var d2 := if s.buttonPressed.Get(Right) && !d1.Get(Right)
              then d1.Set(Right, true) else d1;
    StepResult(s.(dragDetected := d2), PassOn, DragLines(s, Left) + DragLines(s, Right))
  }

  /** One invocation of LowLevelMouseProc. A negative nCode and every message other than the
      four button messages and a move are passed on untouched; only button messages are ever
      suppressed, and only a suppressed button-down raises the blocked count (by one). */
  function Classify(s: ClickState, nCode: int, wParam: int, now: int): (r: StepResult)
    ensures nCode < 0 || EventOf(wParam) == Unhandled ==> r == StepResult(s, PassOn, [])
    ensures r.verdict == Suppress ==> nCode >= 0 && (EventOf(wParam).ButtonDown? || EventOf(wParam).ButtonUp?)
    ensures r.state.blockedCount
         == s.blockedCount + (if r.verdict == Suppress && EventOf(wParam).ButtonDown? then 1 else 0)
    ensures r.state.delay == s.delay
  {
    if nCode < 0 then StepResult(s, PassOn, [])
    else
      match EventOf(wParam)
      case ButtonDown(b) => DownStep(s, b, now)
      case ButtonUp(b) => UpStep(s, b, now)
      case MouseMove => MoveStep(s)
      case Unhandled => StepResult(s, PassOn, [])
  }

  // ---------------------------------------------------------------------------------------------
  // Lifecycle on the value level

  /** The state of a freshly allocated hook (`&windowsHook{}`): every field at its zero value. */
  function NewState(): ClickState
  {
    ClickState(0, None, None, Empty(false), Empty(None), Empty(false),
               Adaptation(Empty([]), Empty(0), Empty(0)), 0, Empty(None), Empty(false), Empty(None))
  }

  /** What Start does to the state: the base delay is set and every per-button map is replaced by
      an empty one; the blocked count and the last complete click (and its button) carry over. */
  function Restarted(s: ClickState, delay: int): (r: ClickState)
    ensures r.delay == delay
    ensures r.blockedCount == s.blockedCount
    ensures r.lastCompleteClick == s.lastCompleteClick && r.lastClickButton == s.lastClickButton
    ensures forall b :: !r.buttonPressed.Get(b) && !r.dragDetected.Get(b) && !r.lastDownBlocked.Get(b)
    ensures forall b :: r.lastDownTime.Get(b) == None && r.lastUpTime.Get(b) == None
                        && r.buttonPressTime.Get(b) == None
    ensures forall b :: r.adaptation.clickPattern.Get(b) == [] && r.adaptation.shortClickCount.Get(b) == 0
    ensures forall b :: DelayOf(r, b) == delay
  {
    ClickState(delay, s.lastCompleteClick, s.lastClickButton, Empty(false), Empty(None), Empty(false),
               Adaptation(Empty([]), Empty(0), Empty(0)), s.blockedCount, Empty(None), Empty(false), Empty(None))
  }

  // ---------------------------------------------------------------------------------------------
  // Invariants of the value-level engine

  /** Timestamps of `b` are consistent with an event at `now`: its last down is not after `now`,
      and when it is pressed its press time and last down are both set, the press no later than
      the down. */
  ghost predicate OrderedAt(s: ClickState, b: Button, now: int)
  {
    && (s.lastDownTime.Get(b).Some? ==> s.lastDownTime.Get(b).value <= now)
    && (s.buttonPressed.Get(b) ==>
          && s.buttonPressTime.Get(b).Some? && s.lastDownTime.Get(b).Some?
          && s.buttonPressTime.Get(b).value <= s.lastDownTime.Get(b).value)
  }

  ghost predicate Ordered(s: ClickState, now: int)
  {
    OrderedAt(s, Left, now) && OrderedAt(s, Right, now)
  }

  /** The history of `b` holds at most ten clicks and its adaptive delay is unset, the base delay
      or the reduced one. */
  ghost predicate HealthyAt(s: ClickState, b: Button)
  {
    && |s.adaptation.clickPattern.Get(b)| <= HistoryCapacity
    && (s.adaptation.adaptiveDelay.Get(b) == 0
        || s.adaptation.adaptiveDelay.Get(b) == s.delay
        || s.adaptation.adaptiveDelay.Get(b) == ReducedDelay(s.delay))
  }

  ghost predicate Healthy(s: ClickState)
  {
    HealthyAt(s, Left) && HealthyAt(s, Right)
  }

  lemma OrderedLater(s: ClickState, now: int, later: int)
    requires Ordered(s, now) && now <= later
    ensures Ordered(s, later)
  {
  }

  /** Every invocation keeps both invariants (for Ordered, when the event's time is `now`). */
  lemma StepKeepsInvariants(s: ClickState, nCode: int, wParam: int, now: int)
    requires Ordered(s, now) && Healthy(s)
    ensures Ordered(Classify(s, nCode, wParam, now).state, now)
    ensures Healthy(Classify(s, nCode, wParam, now).state)
  {
    if nCode >= 0 {
      match EventOf(wParam)
      case ButtonDown(b) =>
      case ButtonUp(b) =>
      case MouseMove =>
      case Unhandled =>
    }
  }

  /** With consistent timestamps the "bounce while held" rule never fires: once the first check
      (down within the delay of the previous down) has passed, the press, which is no later than
      that previous down, is at least as far in the past. */
  lemma HeldBounceUnreachable(s: ClickState, b: Button, now: int)
    requires Ordered(s, now)
    ensures DownRuleOf(s, b, now) != HeldBounce
  {
    if s.buttonPressed.Get(b) {
      assert s.buttonPressTime.Get(b).value <= s.lastDownTime.Get(b).value;
    }
  }

  /** One call of the low-level hook: its code, its message and the time it is made. */
  datatype HookCall = HookCall(nCode: int, wParam: int, time: int)

  /** The state after a sequence of calls. */
  function Run(s: ClickState, calls: seq<HookCall>): ClickState
    decreases |calls|
  {
    if calls == [] then s
    else Run(Classify(s, calls[0].nCode, calls[0].wParam, calls[0].time).state, calls[1..])
  }

  ghost predicate NonDecreasing(calls: seq<HookCall>)
  {
    forall i, j :: 0 <= i < j < |calls| ==> calls[i].time <= calls[j].time
  }

  /** The call is a button-down decided by the "bounce while held" rule. */
  predicate FiresHeldBounce(s: ClickState, c: HookCall)
  {
    c.nCode >= 0 && EventOf(c.wParam).ButtonDown?
    && DownRuleOf(s, EventOf(c.wParam).button, c.time) == HeldBounce
  }

  /** No call of the sequence, run from `s`, is decided by the "bounce while held" rule. */
  ghost predicate NeverHeldBounce(s: ClickState, calls: seq<HookCall>)
    decreases |calls|
  {
    calls == [] ||
    (!FiresHeldBounce(s, calls[0])
     && NeverHeldBounce(Classify(s, calls[0].nCode, calls[0].wParam, calls[0].time).state, calls[1..]))
  }

  lemma {:induction false} OrderedRunNeverHeldBounce(s: ClickState, calls: seq<HookCall>)
    requires NonDecreasing(calls)
    requires calls != [] ==> Ordered(s, calls[0].time)
    requires Healthy(s)
    ensures NeverHeldBounce(s, calls)
    ensures Healthy(Run(s, calls))
    decreases |calls|
  {
    if calls != [] {
      var c := calls[0];
      if c.nCode >= 0 && EventOf(c.wParam).ButtonDown? {
        HeldBounceUnreachable(s, EventOf(c.wParam).button, c.time);
      }
      StepKeepsInvariants(s, c.nCode, c.wParam, c.time);
      var next := Classify(s, c.nCode, c.wParam, c.time).state;
      if |calls| > 1 {
        OrderedLater(next, c.time, calls[1].time);
      }
      OrderedRunNeverHeldBounce(next, calls[1..]);
    }
  }

  /** After Start, whatever calls follow with non-decreasing times, the "bounce while held" rule
      never fires, and the effective delay of each button stays either the base delay or the
      reduced one. (There is no 20 ms floor: see EffectiveDelayBelowFloor.) */
  lemma {:induction false} AfterStart(s: ClickState, delay: int, calls: seq<HookCall>, b: Button)
    requires NonDecreasing(calls)
    ensures NeverHeldBounce(Restarted(s, delay), calls)
    ensures DelayOf(Run(Restarted(s, delay), calls), b) == delay
         || DelayOf(Run(Restarted(s, delay), calls), b) == ReducedDelay(delay)
  {
    OrderedRunNeverHeldBounce(Restarted(s, delay), calls);
    RunKeepsDelay(Restarted(s, delay), calls);
  }

  lemma {:induction false} RunKeepsDelay(s: ClickState, calls: seq<HookCall>)
    ensures Run(s, calls).delay == s.delay
    decreases |calls|
  {
    if calls != [] {
      RunKeepsDelay(Classify(s, calls[0].nCode, calls[0].wParam, calls[0].time).state, calls[1..]);
    }
  }

  /** A move right after a move changes nothing and logs nothing: drag detection logs at most
      once per press. */
  lemma MoveLogsOncePerPress(s: ClickState)
    ensures MoveStep(MoveStep(s).state) == StepResult(MoveStep(s).state, PassOn, [])
  {
    var t := MoveStep(s).state;
    assert t.dragDetected == t.dragDetected.Set(Left, true) || !t.buttonPressed.Get(Left);
  }

  /** The call is a button message on `b` that the engine accepts: an accepted down starts a new
      press of `b` and an accepted up ends the current one. */
  predicate EndsPress(s: ClickState, c: HookCall, b: Button)
  {
    c.nCode >= 0
    && (EventOf(c.wParam) == ButtonDown(b) || EventOf(c.wParam) == ButtonUp(b))
    && Classify(s, c.nCode, c.wParam, c.time).verdict == PassOn
  }

  /** `b` is pressed and its drag has already been logged. */
  predicate Dragging(s: ClickState, b: Button)
  {
    s.buttonPressed.Get(b) && s.dragDetected.Get(b)
  }

  /** Run from `s`, no call of the sequence logs a drag of `b` before one ends the press of `b`. */
  ghost predicate NoDragLogUntilPressEnds(s: ClickState, calls: seq<HookCall>, b: Button)
    decreases |calls|
  {
    calls == [] || EndsPress(s, calls[0], b) ||
    (var r := Classify(s, calls[0].nCode, calls[0].wParam, calls[0].time);
     DragDetected(b) !in r.logs && NoDragLogUntilPressEnds(r.state, calls[1..], b))
  }

  /** A call that does not end the press of a dragging button leaves it pressed and dragging, and
      logs no drag of it: suppressed downs and ups of `b`, and every call on the other button,
      leave `b`'s flags alone. */
  lemma DraggingStep(s: ClickState, c: HookCall, b: Button)
    requires Dragging(s, b) && !EndsPress(s, c, b)
    ensures var r := Classify(s, c.nCode, c.wParam, c.time);
            Dragging(r.state, b) && DragDetected(b) !in r.logs
  {
    if c.nCode >= 0 {
      match EventOf(c.wParam)
      case ButtonDown(other) =>
      case ButtonUp(other) =>
        if other != b && UpStep(s, other, c.time).verdict == PassOn {
          var a := AdaptiveStep(s.adaptation, s.delay, other, HoldOf(s, other, c.time), c.time);
          assert DragDetected(b) !in a.logs;
        }
      case MouseMove =>
      case Unhandled =>
    }
  }

  /** Once the drag of a pressed button has been logged, whatever calls follow, no further drag of
      it is logged until an accepted down or up of that button ends the press: a drag is logged at
      most once per press. */
  lemma {:induction false} DragLoggedOncePerPress(s: ClickState, calls: seq<HookCall>, b: Button)
    requires Dragging(s, b)
    ensures NoDragLogUntilPressEnds(s, calls, b)
    decreases |calls|
  {
    if calls != [] && !EndsPress(s, calls[0], b) {
      var c := calls[0];
      DraggingStep(s, c, b);
      DragLoggedOncePerPress(Classify(s, c.nCode, c.wParam, c.time).state, calls[1..], b);
    }
  }

  /** The effective delay is NOT bounded below by 20 ms: a base of 5 ms is used as it is. */
  lemma EffectiveDelayBelowFloor(s: ClickState)
    ensures DelayOf(Restarted(s, 5 * Millisecond), Left) == 5 * Millisecond < AdaptiveFloor
  {
  }

  /** Because the counter the analysis tests is cumulative, one short click since Start keeps the
      delay reduced on every later analysis, however long the later holds are. */
  lemma OneShortClickKeepsDelayReduced(ad: Adaptation, base: int, b: Button, hold: int, now: int)
    requires ad.shortClickCount.Get(b) > 0
    requires |ad.clickPattern.Get(b)| >= AnalysisWindow - 1
    ensures AdaptiveStep(ad, base, b, hold, now).adaptation.adaptiveDelay.Get(b) == ReducedDelay(base)
  {
  }

  /** Start does not clear the last complete click: a down right after a restart, on the button
      of the last click before Stop and within the new delay of it, is suppressed. */
  lemma RestartKeepsRapidClickWindow(s: ClickState, delay: int, b: Button, now: int)
    requires s.lastClickButton == Some(b) && Within(s.lastCompleteClick, now, delay)
    ensures DownStep(Restarted(s, delay), b, now).verdict == Suppress
    ensures DownRuleOf(Restarted(s, delay), b, now) == RapidClick
  {
  }

  // ---------------------------------------------------------------------------------------------
  // Worked scenarios (base delay 50 ms, left button)

  /** Down@0 passes, Up@10 passes, Down@20 is suppressed (20 ms after the previous down) with the
      blocked count at 1, Down@80 passes (60 ms after the suppressed down at 20). */
  lemma ScenarioRapidSecondPress()
    ensures var s0 := Restarted(NewState(), 50 * Millisecond);
            var r1 := Classify(s0, 0, WmLButtonDown, 0);
            var r2 := Classify(r1.state, 0, WmLButtonUp, 10 * Millisecond);
            var r3 := Classify(r2.state, 0, WmLButtonDown, 20 * Millisecond);
            var r4 := Classify(r3.state, 0, WmLButtonDown, 80 * Millisecond);
            && r1.verdict == PassOn && r2.verdict == PassOn
            && r3.verdict == Suppress && r3.state.blockedCount == 1
            && r3.logs == [RepeatedDownBlocked(Left, 20 * Millisecond, 50 * Millisecond, 1)]
            && r4.verdict == PassOn && r4.state.blockedCount == 1
  {
    var s0 := Restarted(NewState(), 50 * Millisecond);
    var r1 := Classify(s0, 0, WmLButtonDown, 0);
    assert r1.state.lastDownTime == Empty(None).Set(Left, Some(0));
    var r2 := Classify(r1.state, 0, WmLButtonUp, 10 * Millisecond);
    assert r2.state.lastDownTime == Empty(None).Set(Left, Some(0));
    assert r2.state.lastCompleteClick == Some(10 * Millisecond);
    assert DelayOf(r2.state, Left) == 50 * Millisecond;
    var r3 := Classify(r2.state, 0, WmLButtonDown, 20 * Millisecond);
    assert DownRuleOf(r2.state, Left, 20 * Millisecond) == RepeatedDown;
    assert r3.state.lastDownTime == Empty(None).Set(Left, Some(20 * Millisecond));
    assert DelayOf(r3.state, Left) == 50 * Millisecond;
    assert !r3.state.buttonPressed.Get(Left);
    assert DownRuleOf(r3.state, Left, 80 * Millisecond) == PressAccepted;
  }

  /** A click of the left button: a down at `t` and an up 10 ms later. */
  function LeftClick(s: ClickState, t: int): (StepResult, StepResult)
  {
    var down := Classify(s, 0, WmLButtonDown, t);
    (down, Classify(down.state, 0, WmLButtonUp, t + 10 * Millisecond))
  }

  /** One accepted short click, 100 ms after the previous one, from a state holding `k` earlier
      short clicks, none of them analysed into a change of delay. */
  lemma ShortClickStep(s: ClickState, k: nat, t: int)
    requires s.delay == 50 * Millisecond && s.blockedCount == 0
    requires k < AnalysisWindow && |s.adaptation.clickPattern.Get(Left)| == k
    requires s.adaptation.shortClickCount.Get(Left) == k
    requires s.adaptation.adaptiveDelay == Empty(0)
    requires !s.buttonPressed.Get(Left)
    requires k == 0 ==> s.lastDownTime == Empty(None) && s.lastUpTime == Empty(None) && s.lastCompleteClick == None
    requires k > 0 ==>
      && s.lastDownTime == Empty(None).Set(Left, Some(t - 100 * Millisecond))
      && s.lastUpTime == Empty(None).Set(Left, Some(t - 90 * Millisecond))
      && s.lastCompleteClick == Some(t - 90 * Millisecond)
    ensures var (down, up) := LeftClick(s, t);
            && down.verdict == PassOn && up.verdict == PassOn
            && up.state.delay == s.delay && up.state.blockedCount == 0
            && |up.state.adaptation.clickPattern.Get(Left)| == k + 1
            && up.state.adaptation.shortClickCount.Get(Left) == k + 1
            && !up.state.buttonPressed.Get(Left)
            && up.state.lastDownTime == Empty(None).Set(Left, Some(t))
            && up.state.lastUpTime == Empty(None).Set(Left, Some(t + 10 * Millisecond))
            && up.state.lastCompleteClick == Some(t + 10 * Millisecond)
            && (k + 1 < AnalysisWindow ==>
                  && up.state.adaptation.adaptiveDelay == Empty(0)
                  && up.logs == [ShortClickSeen(10 * Millisecond, k + 1), QuickRelease(Left, 10 * Millisecond)])
            && (k + 1 == AnalysisWindow ==>
                  && up.state.adaptation.adaptiveDelay == Empty(0).Set(Left, 25 * Millisecond)
                  && up.logs == [ShortClickSeen(10 * Millisecond, k + 1), DelayReduced(Left, 25 * Millisecond),
                                 QuickRelease(Left, 10 * Millisecond)])
  {
    var (down, up) := LeftClick(s, t);
    assert DelayOf(s, Left) == 50 * Millisecond;
    assert DownRuleOf(s, Left, t) == PressAccepted;
    assert down.state.buttonPressTime.Get(Left) == Some(t);
    assert DelayOf(down.state, Left) == 50 * Millisecond;
    assert HoldOf(down.state, Left, t + 10 * Millisecond) == 10 * Millisecond;
  }

  /** Five short clicks in a row: the fifth one's analysis halves the 50 ms delay to 25 ms and is
      the only one that logs a change of delay. */
  lemma ScenarioFiveShortClicks()
    ensures var s0 := Restarted(NewState(), 50 * Millisecond);
            var c1 := LeftClick(s0, 0);
            var c2 := LeftClick(c1.1.state, 100 * Millisecond);
            var c3 := LeftClick(c2.1.state, 200 * Millisecond);
            var c4 := LeftClick(c3.1.state, 300 * Millisecond);
            var c5 := LeftClick(c4.1.state, 400 * Millisecond);
            && c1.1.logs == [ShortClickSeen(10 * Millisecond, 1), QuickRelease(Left, 10 * Millisecond)]
            && c4.1.logs == [ShortClickSeen(10 * Millisecond, 4), QuickRelease(Left, 10 * Millisecond)]
            && c5.1.logs == [ShortClickSeen(10 * Millisecond, 5), DelayReduced(Left, 25 * Millisecond),
                             QuickRelease(Left, 10 * Millisecond)]
            && DelayOf(c5.1.state, Left) == 25 * Millisecond
            && c5.1.state.blockedCount == 0
  {
    var s0 := Restarted(NewState(), 50 * Millisecond);
    ShortClickStep(s0, 0, 0);
    var c1 := LeftClick(s0, 0);
    ShortClickStep(c1.1.state, 1, 100 * Millisecond);
    var c2 := LeftClick(c1.1.state, 100 * Millisecond);
    ShortClickStep(c2.1.state, 2, 200 * Millisecond);
    var c3 := LeftClick(c2.1.state, 200 * Millisecond);
    ShortClickStep(c3.1.state, 3, 300 * Millisecond);
    var c4 := LeftClick(c3.1.state, 300 * Millisecond);
    ShortClickStep(c4.1.state, 4, 400 * Millisecond);
  }

  // ---------------------------------------------------------------------------------------------
  // The engine

  /** windowsHook. The Go callback reaches it through a package-level variable that Start sets and
      Stop clears; here the callback is the method MouseProc, callable while the hook is running. */
  class WindowsHook {
    var delay: int
    var lastCompleteClick: Option<int>
    var lastClickButton: Option<Button>
    var buttonPressed: PerButton<bool>
    var buttonPressTime: PerButton<Option<int>>
    var dragDetected: PerButton<bool>
    var faultyClickPattern: PerButton<seq<int>>
    var adaptiveDelay: PerButton<int>
    var shortClickCount: PerButton<int>
    var logChannel: Channel?<LogLine>
    var blockedCount: int
    var isRunning: bool
    /** The Win32 hook handle is non-nil. */
    var hookInstalled: bool
    var lastDownTime: PerButton<Option<int>>
    var lastDownBlocked: PerButton<bool>
    var lastUpTime: PerButton<Option<int>>

    ghost function State(): ClickState
      reads this
    {
      ClickState(delay, lastCompleteClick, lastClickButton, buttonPressed, buttonPressTime, dragDetected,
                 Adaptation(faultyClickPattern, adaptiveDelay, shortClickCount), blockedCount,
                 lastDownTime, lastDownBlocked, lastUpTime)
    }

    /** The faulty-hardware detection fields. */
    ghost function Adaptive(): Adaptation
      reads this
    {
      Adaptation(faultyClickPattern, adaptiveDelay, shortClickCount)
    }

    /** The Win32 handle is only ever set while the hook is running. */
    ghost predicate Valid()
      reads this
    {
      hookInstalled ==> isRunning
    }

    /** The messages waiting in the log channel (none when there is no channel). */
    ghost function Pending(): seq<LogLine>
      reads this, logChannel
    {
      if logChannel == null then [] else logChannel.buf
    }

    /** The log channel now holds what offering `logs` to a channel holding `before` leaves in it. */
    ghost predicate LogsSent(before: seq<LogLine>, logs: seq<LogLine>)
      reads this, logChannel
    {
      logChannel != null ==>
        && |before| <= logChannel.capacity
        && logChannel.buf == Delivered(before, logs, logChannel.capacity, logChannel.closed)
    }

    /** newPlatformHook: every field at its zero value. */
    constructor ()
      ensures Valid() && State() == NewState()
      ensures !isRunning && !hookInstalled && logChannel == null
    {
      delay := 0;
      lastCompleteClick := None;
      lastClickButton := None;
      buttonPressed := Empty(false);
      buttonPressTime := Empty(None);
      dragDetected := Empty(false);
      faultyClickPattern := Empty([]);
      adaptiveDelay := Empty(0);
      shortClickCount := Empty(0);
      logChannel := null;
      blockedCount := 0;
      isRunning := false;
      hookInstalled := false;
      lastDownTime := Empty(None);
      lastDownBlocked := Empty(false);
      lastUpTime := Empty(None);
    }

    /** sendLog: a non-blocking send; the line is dropped when the channel is full (and a nil
        channel is never ready, so nothing is sent). */
    method SendLog(line: LogLine)
      requires logChannel != null ==> logChannel.Valid()
      modifies logChannel
      ensures logChannel != null ==> logChannel.Valid()
      ensures LogsSent(old(Pending()), [line])
      ensures logChannel != null ==> logChannel.closed == old(logChannel.closed)
      ensures State() == old(State())
    {
      if logChannel != null {
        var sent := logChannel.Offer(line);
      }
    }

    /** A suppressed button-down: one more blocked event, logged with the measured interval, the
        effective delay and the new total. */
    method Block(rule: DownRule, b: Button, interval: int, d: int) returns (v: Verdict)
      requires logChannel != null ==> logChannel.Valid()
      modifies this`blockedCount, logChannel
      ensures v == Suppress && blockedCount == old(blockedCount) + 1
      ensures (logChannel != null ==> logChannel.Valid() && logChannel.closed == old(logChannel.closed))
      ensures LogsSent(old(Pending()), [BlockedLine(rule, b, interval, d, blockedCount)])
    {
      blockedCount := blockedCount + 1;
      SendLog(BlockedLine(rule, b, interval, d, blockedCount));
      v := Suppress;
    }

    /** An accepted button-down: the button is marked pressed at `now`, not dragging, and the
        press is logged. */
    method Accept(b: Button, now: int) returns (v: Verdict)
      requires logChannel != null ==> logChannel.Valid()
      modifies this`buttonPressed, this`buttonPressTime, this`dragDetected, logChannel
      ensures v == PassOn
      ensures buttonPressed == old(buttonPressed).Set(b, true)
      ensures buttonPressTime == old(buttonPressTime).Set(b, Some(now))
      ensures dragDetected == old(dragDetected).Set(b, false)
      ensures (logChannel != null ==> logChannel.Valid() && logChannel.closed == old(logChannel.closed))
      ensures LogsSent(old(Pending()), [PressAllowed(b)])
    {
      buttonPressed, buttonPressTime, dragDetected :=
        buttonPressed.Set(b, true), buttonPressTime.Set(b, Some(now)), dragDetected.Set(b, false);
      SendLog(PressAllowed(b));
      v := PassOn;
    }

    /** The button-down case of LowLevelMouseProc. */
    method OnButtonDown(b: Button, now: int) returns (v: Verdict)
      requires logChannel != null ==> logChannel.Valid()
      modifies this, logChannel
      ensures logChannel == old(logChannel) && (logChannel != null ==> logChannel.Valid())
      ensures isRunning == old(isRunning) && hookInstalled == old(hookInstalled)
      ensures logChannel != null ==> logChannel.closed == old(logChannel.closed)
      ensures var r := DownStep(old(State()), b, now);
              State() == r.state && v == r.verdict && LogsSent(old(Pending()), r.logs)
    {
      var interval := Elapsed(lastDownTime.Get(b), now);
      if Within(lastDownTime.Get(b), now, EffectiveDelay(adaptiveDelay, delay, b)) {
        lastDownBlocked, lastDownTime := lastDownBlocked.Set(b, true), lastDownTime.Set(b, Some(now));
        v := Block(RepeatedDown, b, interval, EffectiveDelay(adaptiveDelay, delay, b));
        return;
      }
      lastDownTime, lastDownBlocked := lastDownTime.Set(b, Some(now)), lastDownBlocked.Set(b, false);
      v := CheckPress(b, now);
    }

    /** The rest of the button-down case, once the down's time is recorded. */
    method CheckPress(b: Button, now: int) returns (v: Verdict)
      requires logChannel != null ==> logChannel.Valid()
      modifies this, logChannel
      ensures logChannel == old(logChannel)
      ensures (logChannel != null ==> logChannel.Valid() && logChannel.closed == old(logChannel.closed))
      ensures isRunning == old(isRunning) && hookInstalled == old(hookInstalled)
      ensures var r := PressStep(old(State()), b, now);
              State() == r.state && v == r.verdict && LogsSent(old(Pending()), r.logs)
    {
      if buttonPressed.Get(b) {
        var timeSincePress := Elapsed(buttonPressTime.Get(b), now);
        var effectiveDelay := EffectiveDelay(adaptiveDelay, delay, b);
        if Within(buttonPressTime.Get(b), now, effectiveDelay) {
          v := Block(HeldBounce, b, timeSincePress, effectiveDelay);
          return;
        }
      }

      if Within(lastCompleteClick, now, EffectiveDelay(adaptiveDelay, delay, b)) && lastClickButton == Some(b) {
        var effectiveDelay := EffectiveDelay(adaptiveDelay, delay, b);
        v := Block(RapidClick, b, Elapsed(lastCompleteClick, now), effectiveDelay);
        return;
      }

      v := Accept(b, now);
    }

    /** The first half of detectFaultyHardware: remember the click, count it if it was short. */
    method RecordClick(b: Button, hold: int, now: int)
      requires logChannel != null ==> logChannel.Valid()
      modifies this`faultyClickPattern, this`adaptiveDelay, this`shortClickCount, logChannel
      ensures logChannel == old(logChannel) && (logChannel != null ==> logChannel.Valid())
      ensures logChannel != null ==> logChannel.closed == old(logChannel.closed)
      ensures var a := Recorded(old(Adaptive()), b, hold, now);
              Adaptive() == a.adaptation && LogsSent(old(Pending()), a.logs)
    {
      var history := faultyClickPattern.Get(b);
      history := history + [now];
      if |history| > HistoryCapacity {
        history := history[1..];
      }
      faultyClickPattern := faultyClickPattern.Set(b, history);

      if hold < ShortClickLimit {
        shortClickCount := shortClickCount.Set(b, shortClickCount.Get(b) + 1);
        SendLog(ShortClickSeen(hold, shortClickCount.Get(b)));
      }
    }

    /** The second half: count the short clicks among the last five remembered ones and move the
        adaptive delay to the reduced or the base delay. */
    method AnalysePattern(b: Button)
      requires logChannel != null ==> logChannel.Valid()
      modifies this`faultyClickPattern, this`adaptiveDelay, this`shortClickCount, logChannel
      ensures logChannel == old(logChannel) && (logChannel != null ==> logChannel.Valid())
      ensures logChannel != null ==> logChannel.closed == old(logChannel.closed)
      ensures var a := Analysed(old(Adaptive()), delay, b);
              Adaptive() == a.adaptation && LogsSent(old(Pending()), a.logs)
    {
      var history := faultyClickPattern.Get(b);
      if |history| >= AnalysisWindow {
        var count := shortClickCount.Get(b);
        var shortClicks := 0;
        var i := |history| - AnalysisWindow;
        while i < |history|
          invariant |history| - AnalysisWindow <= i <= |history|
          invariant shortClicks == if count > 0 then i - (|history| - AnalysisWindow) else 0
        {
          if count > 0 {
            shortClicks := shortClicks + 1;
          }
          i := i + 1;
        }

        if MostlyShort(shortClicks) {
          var newDelay := delay / 2;
          if newDelay < AdaptiveFloor {
            newDelay := AdaptiveFloor;
          }
          if adaptiveDelay.Get(b) != newDelay {
            adaptiveDelay := adaptiveDelay.Set(b, newDelay);
            SendLog(DelayReduced(b, newDelay));
          }
        } else {
          if adaptiveDelay.Get(b) != delay {
            adaptiveDelay := adaptiveDelay.Set(b, delay);
            SendLog(DelayReset(b, delay));
          }
        }
      }
    }

    /** detectFaultyHardware. */
    method DetectFaultyHardware(b: Button, hold: int, now: int)
      requires logChannel != null ==> logChannel.Valid()
      modifies this, logChannel
      ensures logChannel == old(logChannel) && (logChannel != null ==> logChannel.Valid())
      ensures logChannel != null ==> logChannel.closed == old(logChannel.closed)
      ensures isRunning == old(isRunning) && hookInstalled == old(hookInstalled)
      ensures var a := AdaptiveStep(old(Adaptive()), delay, b, hold, now);
              State() == old(State()).(adaptation := a.adaptation) && LogsSent(old(Pending()), a.logs)
    {
      ghost var before := Pending();
      ghost var recorded := Recorded(Adaptive(), b, hold, now);
      RecordClick(b, hold, now);
      ghost var analysed := Analysed(Adaptive(), delay, b);
      AnalysePattern(b);
      if logChannel != null {
        DeliveredConcat(before, recorded.logs, analysed.logs, logChannel.capacity, logChannel.closed);
      }
    }

    /** The button-up case of LowLevelMouseProc. */
    method OnButtonUp(b: Button, now: int) returns (v: Verdict)
      requires logChannel != null ==> logChannel.Valid()
      modifies this, logChannel
      ensures logChannel == old(logChannel) && (logChannel != null ==> logChannel.Valid())
      ensures isRunning == old(isRunning) && hookInstalled == old(hookInstalled)
      ensures logChannel != null ==> logChannel.closed == old(logChannel.closed)
      ensures var r := UpStep(old(State()), b, now);
              State() == r.state && v == r.verdict && LogsSent(old(Pending()), r.logs)
    {
      var hold := Elapsed(buttonPressTime.Get(b), now);
      if !buttonPressed.Get(b) || Within(lastUpTime.Get(b), now, EffectiveDelay(adaptiveDelay, delay, b)) {
        SendLog(SpuriousUpBlocked(b, Elapsed(lastUpTime.Get(b), now)));
        return Suppress;
      }
      lastUpTime := lastUpTime.Set(b, Some(now));
      v := CompleteClick(b, hold, now);
    }

    /** The rest of the button-up case, once the up's time is recorded. */
    method CompleteClick(b: Button, hold: int, now: int) returns (v: Verdict)
      requires logChannel != null ==> logChannel.Valid()
      modifies this, logChannel
      ensures logChannel == old(logChannel)
      ensures (logChannel != null ==> logChannel.Valid() && logChannel.closed == old(logChannel.closed))
      ensures isRunning == old(isRunning) && hookInstalled == old(hookInstalled)
      ensures var r := ReleaseStep(old(State()), b, hold, now);
              State() == r.state && v == r.verdict && LogsSent(old(Pending()), r.logs)
    {
      if buttonPressed.Get(b) {
        FinishClick(b, hold, now);
      }
      v := PassOn;
    }

    /** The release of a pressed button: the click is complete, the adaptive state learns
        from it, and the release is logged after what the adaptive update logs. */
    method FinishClick(b: Button, hold: int, now: int)
      requires logChannel != null ==> logChannel.Valid()
      requires buttonPressed.Get(b)
      modifies this, logChannel
      ensures logChannel == old(logChannel)
      ensures (logChannel != null ==> logChannel.Valid() && logChannel.closed == old(logChannel.closed))
      ensures isRunning == old(isRunning) && hookInstalled == old(hookInstalled)
      ensures var a := AdaptiveStep(old(Adaptive()), old(delay), b, hold, now);
              State() == old(State()).(lastCompleteClick := Some(now), lastClickButton := Some(b),
                                       buttonPressed := old(buttonPressed).Set(b, false),
                                       adaptation := a.adaptation,
                                       dragDetected := old(dragDetected).Set(b, false))
              && LogsSent(old(Pending()), a.logs + [ReleaseLine(b, hold, old(dragDetected).Get(b))])
    {
      ghost var before := Pending();
      var line := ReleaseLine(b, hold, dragDetected.Get(b));
      lastCompleteClick, lastClickButton, buttonPressed, dragDetected :=
        Some(now), Some(b), buttonPressed.Set(b, false), dragDetected.Set(b, false);
      ghost var a := AdaptiveStep(Adaptive(), delay, b, hold, now);
      DetectFaultyHardware(b, hold, now);
      SendLog(line);
      if logChannel != null {
        DeliveredConcat(before, a.logs, [line], logChannel.capacity, logChannel.closed);
      }
    }

    /** The move case of LowLevelMouseProc. */
    method OnMove() returns (v: Verdict)
      requires logChannel != null ==> logChannel.Valid()
      modifies this, logChannel
      ensures logChannel == old(logChannel) && (logChannel != null ==> logChannel.Valid())
      ensures isRunning == old(isRunning) && hookInstalled == old(hookInstalled)
      ensures logChannel != null ==> logChannel.closed == old(logChannel.closed)
      ensures var r := MoveStep(old(State()));
              State() == r.state && v == r.verdict && LogsSent(old(Pending()), r.logs)
    {
      ghost var before := Pending();
      ghost var s := State();
      if buttonPressed.Get(Left) && !dragDetected.Get(Left) {
        dragDetected := dragDetected.Set(Left, true);
        SendLog(DragDetected(Left));
      }
      assert LogsSent(before, DragLines(s, Left));
      ghost var mid := Pending();
      if buttonPressed.Get(Right) && !dragDetected.Get(Right) {
        dragDetected := dragDetected.Set(Right, true);
        SendLog(DragDetected(Right));
      }
      assert LogsSent(mid, DragLines(s, Right));
      if logChannel != null {
        DeliveredConcat(before, DragLines(s, Left), DragLines(s, Right), logChannel.capacity, logChannel.closed);
      }
      return PassOn;
    }

    /** LowLevelMouseProc while this hook is the registered one: returns whether the message is
        passed on (CallNextHookEx) or swallowed (return 1). */
    method MouseProc(nCode: int, wParam: int, now: int) returns (v: Verdict)
      requires Valid() && isRunning && (logChannel != null ==> logChannel.Valid())
      modifies this, logChannel
      ensures logChannel == old(logChannel) && (logChannel != null ==> logChannel.Valid())
      ensures isRunning == old(isRunning) && hookInstalled == old(hookInstalled)
      ensures logChannel != null ==> logChannel.closed == old(logChannel.closed)
      ensures var r := Classify(old(State()), nCode, wParam, now);
              State() == r.state && v == r.verdict && LogsSent(old(Pending()), r.logs)
    {
      if nCode < 0 {
        return PassOn;
      }
      match EventOf(wParam)
      case ButtonDown(b) =>
        v := OnButtonDown(b, now);
      case ButtonUp(b) =>
        v := OnButtonUp(b, now);
      case MouseMove =>
        v := OnMove();
      case Unhandled =>
        v := PassOn;
    }

    /** Every per-button map replaced by an empty one. */
    method ClearButtons()
      modifies this
      ensures State() == Restarted(old(State()), old(delay))
      ensures logChannel == old(logChannel) && isRunning == old(isRunning) && hookInstalled == old(hookInstalled)
    {
      buttonPressed, buttonPressTime, dragDetected := Empty(false), Empty(None), Empty(false);
      faultyClickPattern, adaptiveDelay, shortClickCount := Empty([]), Empty(0), Empty(0);
      lastDownTime, lastDownBlocked, lastUpTime := Empty(None), Empty(false), Empty(None);
    }

    /** Start: refused while running; otherwise sets the delay and the log channel, replaces every
        per-button map with an empty one and marks the hook running. The blocked count and the
        last complete click are kept. */
    method Start(d: int, logChan: Channel?<LogLine>) returns (err: Option<HookError>)
      requires Valid() && (logChan != null ==> logChan.Valid()) && (logChannel != null ==> logChannel.Valid())
      modifies this
      ensures Valid() && (logChannel != null ==> logChannel.Valid())
      ensures old(isRunning) ==> err == Some(AlreadyRunning) && unchanged(this)
      ensures !old(isRunning) ==>
        && err == None && isRunning && logChannel == logChan
        && hookInstalled == old(hookInstalled)
        && State() == Restarted(old(State()), d)
    {
      if isRunning {
        return Some(AlreadyRunning);
      }
      delay, logChannel, isRunning := d, logChan, true;
      ClearButtons();
      return None;
    }

    /** The installer goroutine started by Start, when SetWindowsHookExW succeeds: the handle is
        kept and the "installed" line is sent. */
    method HookInstallSucceeded()
      requires isRunning && (logChannel != null ==> logChannel.Valid())
      modifies this`hookInstalled, logChannel
      ensures Valid() && hookInstalled && (logChannel != null ==> logChannel.Valid())
      ensures logChannel != null ==> logChannel.closed == old(logChannel.closed)
      ensures LogsSent(old(Pending()), [HookInstalled])
    {
      hookInstalled := true;
      if logChannel != null {
        var sent := logChannel.Offer(HookInstalled);
      }
    }

    /** Stop: nothing when not running (so a second Stop does nothing); otherwise marks the hook
        stopped and, if the handle is set, removes it and sends the "removed" line. The
        per-button state is left as it is. */
    method Stop() returns (err: Option<HookError>)
      requires Valid() && (logChannel != null ==> logChannel.Valid())
      modifies this`isRunning, this`hookInstalled, logChannel
      ensures Valid() && (logChannel != null ==> logChannel.Valid()) && err == None && !isRunning && !hookInstalled
      ensures logChannel != null ==> logChannel.closed == old(logChannel.closed)
      ensures LogsSent(old(Pending()), if old(isRunning) && old(hookInstalled) then [HookRemoved] else [])
      ensures !old(isRunning) ==> Pending() == old(Pending())
    {
      if !isRunning {
        return None;
      }
      isRunning := false;
      if hookInstalled {
        hookInstalled := false;
        if logChannel != null {
          var sent := logChannel.Offer(HookRemoved);
        }
      }
      return None;
    }

    method GetBlockedCount() returns (n: int)
      ensures n == blockedCount
    {
      n := blockedCount;
    }

    method ResetBlockedCount()
      modifies this`blockedCount
      ensures blockedCount == 0
      ensures State() == old(State()).(blockedCount := 0)
    {
      blockedCount := 0;
    }

    method IsSupported() returns (supported: bool)
      ensures supported
    {
      supported := true;
    }
  }
}
