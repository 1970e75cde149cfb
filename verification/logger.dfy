/** The application logger: a bounded queue that producers send lines to without ever waiting,
    and a bounded history of the lines taken off it, newest last. */
module Logging {
  import opened Common
  import opened Channels

  /** Capacity of the logger's message queue. */
  const QueueCapacity: nat := 100
  /** History bound used when the caller asks for none (or a negative one). */
  const DefaultMaxEntries: int := 100

  /** Appends `entry` and, when that takes the history past `max`, drops the oldest entry. */
  function AppendBounded<T>(history: seq<T>, entry: T, max: nat): (r: seq<T>)
    ensures |history| <= max ==> |r| <= max
    ensures max > 0 ==> |r| > 0 && r[|r| - 1] == entry
    ensures r == history + [entry] || r == (history + [entry])[1..]
    ensures |history| < max ==> r == history + [entry]
  {
    var grown := history + [entry];
    if |grown| > max then grown[1..] else grown
  }

  /** The newest `max` elements of `s` (all of them when there are fewer). */
  function Newest<T>(s: seq<T>, max: nat): (r: seq<T>)
    ensures |r| == if |s| < max then |s| else max
  {
    if |s| <= max then s else s[|s| - max..]
  }

  /** The history after appending every element of `entries` in turn. */
  function AppendAll<T>(history: seq<T>, entries: seq<T>, max: nat): seq<T>
    decreases |entries|
  {
    if entries == [] then history
    else AppendAll(AppendBounded(history, entries[0], max), entries[1..], max)
  }

  /** Starting from an empty history, the history is always the newest `max` lines of everything
      appended so far, in the order they arrived: only the oldest lines are ever dropped. */
  lemma HistoryKeepsNewest<T>(entries: seq<T>, max: nat)
    requires max > 0
    ensures AppendAll([], entries, max) == Newest(entries, max)
  {
    AppendAllNewest([], [], entries, max);
    assert [] + entries == entries;
  }

  lemma {:induction false} AppendAllNewest<T>(seen: seq<T>, history: seq<T>, entries: seq<T>, max: nat)
    requires max > 0 && history == Newest(seen, max)
    ensures AppendAll(history, entries, max) == Newest(seen + entries, max)
    decreases |entries|
  {
    if entries == [] {
      assert seen + entries == seen;
    } else {
      var seen' := seen + [entries[0]];
      NewestStep(seen, entries[0], max);
      AppendAllNewest(seen', AppendBounded(history, entries[0], max), entries[1..], max);
      assert seen' + entries[1..] == seen + entries;
    }
  }

  lemma NewestStep<T>(seen: seq<T>, e: T, max: nat)
    requires max > 0
    ensures AppendBounded(Newest(seen, max), e, max) == Newest(seen + [e], max)
  {
    var s := seen + [e];
    if |seen| >= max {
      assert Newest(seen, max) + [e] == s[|s| - max - 1..];
      assert (s[|s| - max - 1..])[1..] == s[|s| - max..];
    }
  }

  class Logger {
    var logChannel: Channel<string>
    var logHistory: seq<string>
    var maxEntries: int
    /** The sync.Once of Stop has run. */
    var stopped: bool

    ghost predicate Valid()
      reads this, logChannel
    {
      && logChannel.Valid() && logChannel.capacity == QueueCapacity
      && logChannel.closed == stopped
      && maxEntries > 0 && |logHistory| <= maxEntries
    }

    /** NewLogger: a non-positive bound becomes the default; the queue holds 100 lines. */
    constructor (maxEntries: int)
      ensures Valid() && fresh(logChannel)
      ensures this.maxEntries == if maxEntries <= 0 then DefaultMaxEntries else maxEntries
      ensures logHistory == [] && logChannel.buf == [] && !stopped
    {
      this.maxEntries := if maxEntries <= 0 then DefaultMaxEntries else maxEntries;
      logChannel := new Channel(QueueCapacity);
      logHistory := [];
      stopped := false;
    }

    method GetChannel() returns (ch: Channel<string>)
      ensures ch == logChannel
    {
      ch := logChannel;
    }

    /** Stop: closes the queue the first time only; later calls do nothing. */
    method Stop()
      requires Valid()
      modifies this`stopped, logChannel
      ensures Valid() && stopped && logChannel.closed
      ensures logChannel.buf == old(logChannel.buf)
      ensures old(stopped) ==> unchanged(logChannel)
    {
      if !stopped {
        stopped := true;
        logChannel.Close();
      }
    }

    /** Clear: the history becomes empty (the display is told so). */
    method Clear()
      requires Valid()
      modifies this`logHistory
      ensures Valid() && logHistory == []
    {
      logHistory := logHistory[..0];
    }

    /** Log: the formatted line is queued at the tail, or dropped when the queue is full; it never
        waits. Sending after Stop would panic, so it is not allowed. */
    method Log(msg: string)
      requires Valid() && !stopped
      modifies logChannel
      ensures Valid()
      ensures |old(logChannel.buf)| < QueueCapacity ==> logChannel.buf == old(logChannel.buf) + [msg]
      ensures |old(logChannel.buf)| == QueueCapacity ==> logChannel.buf == old(logChannel.buf)
    {
      var sent := logChannel.Offer(msg);
    }

    /** addLogEntry: the line (with its time stamp, not modelled) goes to the end of the history,
        which then drops its oldest line if it has grown past the bound. */
    method AddLogEntry(msg: string)
      requires Valid()
      modifies this`logHistory
      ensures Valid()
      ensures logHistory == AppendBounded(old(logHistory), msg, maxEntries)
    {
      logHistory := logHistory + [msg];
      if |logHistory| > maxEntries {
        logHistory := logHistory[1..];
      }
    }

    /** One turn of the loop started by Start: the oldest queued line, if any, is taken off the
        queue and recorded in the history. */
    method ProcessNext() returns (received: bool)
      requires Valid()
      modifies logChannel, this`logHistory
      ensures Valid()
      ensures received <==> old(logChannel.buf) != []
      ensures received ==> && logChannel.buf == old(logChannel.buf)[1..]
                           && logHistory == AppendBounded(old(logHistory), old(logChannel.buf)[0], maxEntries)
      ensures !received ==> logChannel.buf == [] && logHistory == old(logHistory)
    {
      var m := logChannel.Receive();
      received := m.Some?;
      if m.Some? {
        AddLogEntry(m.value);
      }
    }
  }
}
