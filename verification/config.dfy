/** The application configuration: its defaults, the delay check, parsing a delay typed as text,
    and the repair of a configuration read back from disk. */
module AppConfig {
  import opened Common
  import opened GoStrings

  datatype Config = Config(
    delayMs: int,
    logLevel: string,
    maxLogLines: int,
    windowWidth: int,
    windowHeight: int,
    minimizeToTray: bool)

  /** Why a delay was refused: text that is not an integer, or an integer out of range. */
  datatype ConfigError = InvalidDelayFormat | DelayOutOfRange

  const MinDelayMs: int := 1
  const MaxDelayMs: int := 500
  /** The smallest delay a loaded configuration may keep; below it the default is restored. */
  const MinLoadedDelayMs: int := 5

  /** DefaultConfig: a 50 ms delay, log level "info", 100 log lines, a 500 by 450 window and
      minimising to the tray. The defaults pass the delay check. */
  function DefaultConfig(): (c: Config)
    ensures c.delayMs == 50 && c.logLevel == "info" && c.maxLogLines == 100
    ensures c.windowWidth == 500 && c.windowHeight == 450 && c.minimizeToTray
    ensures ValidateDelay(c) == None
  {
    Config(50, "info", 100, 500, 450, true)
  }

  /** ValidateDelay: the delay must lie in 1..500 milliseconds. */
  function ValidateDelay(c: Config): (err: Option<ConfigError>)
    ensures err == None <==> MinDelayMs <= c.delayMs <= MaxDelayMs
    ensures err != None ==> err == Some(DelayOutOfRange)
  {
    if c.delayMs < MinDelayMs || c.delayMs > MaxDelayMs then Some(DelayOutOfRange) else None
  }

  /** ParseDelay: empty text means the default delay; otherwise the text must be an integer
      (as strconv.Atoi reads it) in 1..500. */
  function ParseDelay(text: string): (r: Result<int, ConfigError>)
    ensures text == "" ==> r == Ok(DefaultConfig().delayMs)
    ensures r.Ok? ==> MinDelayMs <= r.value <= MaxDelayMs
    ensures text != "" && Atoi(text) == None ==> r == Err(InvalidDelayFormat)
    ensures text != "" && Atoi(text).Some? ==>
              if MinDelayMs <= Atoi(text).value <= MaxDelayMs then r == Ok(Atoi(text).value)
              else r == Err(DelayOutOfRange)
  {
    if text == "" then Ok(DefaultConfig().delayMs)
    else
      match Atoi(text)
      case None => Err(InvalidDelayFormat)
      case Some(n) => if n < MinDelayMs || n > MaxDelayMs then Err(DelayOutOfRange) else Ok(n)
  }

  /** Every delay in range survives being written out in decimal and parsed back. */
  lemma ParseDelayRoundTrip(n: int)
    requires MinDelayMs <= n <= MaxDelayMs
    ensures ParseDelay(Itoa(n)) == Ok(n)
  {
    AtoiItoa(n);
  }

  /** A parsed delay agrees with the delay check: putting it into any configuration passes. */
  lemma ParsedDelayValidates(text: string, c: Config)
    requires ParseDelay(text).Ok?
    ensures ValidateDelay(c.(delayMs := ParseDelay(text).value)) == None
  {
  }

  /** The configuration after the load-time repair: a delay outside 5..500 ms, a non-positive
      log-line limit or window size, and an empty log level are replaced by their defaults;
      every other field is kept, the tray flag always. */
  function Sanitized(c: Config): (r: Config)
    ensures MinLoadedDelayMs <= r.delayMs <= MaxDelayMs
    ensures r.maxLogLines > 0 && r.windowWidth > 0 && r.windowHeight > 0 && r.logLevel != ""
    ensures r.minimizeToTray == c.minimizeToTray
    ensures MinLoadedDelayMs <= c.delayMs <= MaxDelayMs ==> r.delayMs == c.delayMs
    ensures c.maxLogLines > 0 ==> r.maxLogLines == c.maxLogLines
    ensures c.windowWidth > 0 ==> r.windowWidth == c.windowWidth
    ensures c.windowHeight > 0 ==> r.windowHeight == c.windowHeight
    ensures c.logLevel != "" ==> r.logLevel == c.logLevel
    ensures r.delayMs != c.delayMs ==> r.delayMs == DefaultConfig().delayMs
    ensures r.maxLogLines != c.maxLogLines ==> r.maxLogLines == DefaultConfig().maxLogLines
    ensures r.windowWidth != c.windowWidth ==> r.windowWidth == DefaultConfig().windowWidth
    ensures r.windowHeight != c.windowHeight ==> r.windowHeight == DefaultConfig().windowHeight
    ensures r.logLevel != c.logLevel ==> r.logLevel == DefaultConfig().logLevel
  {
    var d := DefaultConfig();
    Config(
      if c.delayMs < MinLoadedDelayMs || c.delayMs > MaxDelayMs then d.delayMs else c.delayMs,
      if c.logLevel == "" then d.logLevel else c.logLevel,
      if c.maxLogLines <= 0 then d.maxLogLines else c.maxLogLines,
      if c.windowWidth <= 0 then d.windowWidth else c.windowWidth,
      if c.windowHeight <= 0 then d.windowHeight else c.windowHeight,
      c.minimizeToTray)
  }

  /** The defaults come through loading unchanged. */
  lemma DefaultsSurviveLoading()
    ensures Sanitized(DefaultConfig()) == DefaultConfig()
  {
  }

  /** A repaired configuration always passes the delay check. */
  lemma SanitizedValidates(c: Config)
    ensures ValidateDelay(Sanitized(c)) == None
  {
  }

  /** Repairing twice is repairing once. */
  lemma SanitizedIdempotent(c: Config)
    ensures Sanitized(Sanitized(c)) == Sanitized(c)
  {
  }

  /** LoadConfig after the file has been read and decoded: when reading or decoding failed the
      defaults are used, otherwise the decoded record is repaired field by field. */
  method LoadConfig(decoded: Option<Config>) returns (c: Config)
    ensures decoded == None ==> c == DefaultConfig()
    ensures decoded != None ==> c == Sanitized(decoded.value)
  {
    if decoded == None {
      return DefaultConfig();
    }
    c := decoded.value;
    if c.delayMs < MinLoadedDelayMs || c.delayMs > MaxDelayMs {
      c := c.(delayMs := DefaultConfig().delayMs);
    }
    if c.maxLogLines <= 0 {
      c := c.(maxLogLines := DefaultConfig().maxLogLines);
    }
    if c.windowWidth <= 0 {
      c := c.(windowWidth := DefaultConfig().windowWidth);
    }
    if c.windowHeight <= 0 {
      c := c.(windowHeight := DefaultConfig().windowHeight);
    }
    if c.logLevel == "" {
      c := c.(logLevel := DefaultConfig().logLevel);
    }
  }
}
