/** The application logger's persisted part: a capped buffer of entries kept
    under the `localStorage` key `application_logs`, and the gating of the
    four logging functions on the configured level. Console output is not
    modelled. */
module Logger {
  import opened Wrappers
  import opened WebStorage

  datatype LogLevel = Error | Warn | Info | Debug

  /** The buffer never keeps more than this many entries. */
  const MaxLogs: nat := 100

  /** Saving to `localStorage` is switched on. */
  const SaveLogs: bool := true

  /** All levels in development, warnings and errors otherwise. */
  function DefaultLogLevel(isDevelopment: bool): LogLevel
  {
    if isDevelopment then Debug else Warn
  }

  /** One saved entry; `data` is the JSON text of the optional argument. */
  datatype LogEntry = LogEntry(timestamp: string, level: LogLevel, message: string, data: Option<string>)

  /** The newest `cap` entries of `logs`, oldest first. */
  function Newest(logs: seq<LogEntry>, cap: nat): seq<LogEntry>
  {
    if |logs| <= cap then logs else logs[|logs| - cap..]
  }

  /** What `Newest` keeps: at most `cap` entries, the last ones, in order;
      nothing is dropped from a buffer within the cap. */
  lemma NewestKeepsLast(logs: seq<LogEntry>, cap: nat)
    ensures |Newest(logs, cap)| == if |logs| < cap then |logs| else cap
    ensures Newest(logs, cap) == logs[|logs| - |Newest(logs, cap)|..]
    ensures |logs| <= cap ==> Newest(logs, cap) == logs
    ensures cap > 0 && |logs| > 0 ==> Newest(logs, cap)[|Newest(logs, cap)| - 1] == logs[|logs| - 1]
  {
  }

  /** The trimming loop of `saveLog`: while the buffer is over the cap,
      remove its first (oldest) entry. */
  method DropOldest(logs: seq<LogEntry>) returns (kept: seq<LogEntry>)
    ensures kept == Newest(logs, MaxLogs)
    ensures |kept| <= MaxLogs
  {
    kept := logs;
    while |kept| > MaxLogs
      invariant |kept| >= MaxLogs || kept == logs
      invariant kept == logs[|logs| - |kept|..]
      decreases |kept|
    {
      kept := kept[1..];
    }
  }

  /** `logWarning` goes on unless the level is ERROR. */
  predicate WarningsOn(configured: LogLevel)
  {
    configured != Error
  }

  /** `logInfo` goes on unless the level is ERROR or WARN. */
  predicate InfoOn(configured: LogLevel)
  {
    !(configured == Error || configured == Warn)
  }

  /** `logDebug` goes on only at level DEBUG. */
  predicate DebugOn(configured: LogLevel)
  {
    configured == Debug
  }

  /** Whether a message of level `l` is recorded at level `configured`. */
  predicate Records(configured: LogLevel, l: LogLevel)
  {
    match l
    case Error => true
    case Warn => WarningsOn(configured)
    case Info => InfoOn(configured)
    case Debug => DebugOn(configured)
  }

  /** The verbosity of a level: ERROR is the least verbose. */
  function Verbosity(l: LogLevel): nat
  {
    match l
    case Error => 0
    case Warn => 1
    case Info => 2
    case Debug => 3
  }

  /** The gates are a threshold: a message is recorded exactly when its
      level is no more verbose than the configured one. */
  lemma GatingIsThreshold(configured: LogLevel, l: LogLevel)
    ensures Records(configured, l) <==> Verbosity(l) <= Verbosity(configured)
  {
  }

  class Log {
    /** `typeof window !== 'undefined'`: the code runs in a browser. */
    const hasWindow: bool
    /** The configured level (`DEFAULT_LOG_LEVEL`). */
    const level: LogLevel
    /** The `application_logs` key. */
    var applicationLogs: Slot<seq<LogEntry>>
    /** The browser refuses writes (`setItem` throws). */
    var quotaExceeded: bool

    constructor (hasWindow: bool, level: LogLevel, applicationLogs: Slot<seq<LogEntry>>, quotaExceeded: bool)
      ensures this.hasWindow == hasWindow && this.level == level
      ensures this.applicationLogs == applicationLogs && this.quotaExceeded == quotaExceeded
    {
      this.hasWindow := hasWindow;
      this.level := level;
      this.applicationLogs := applicationLogs;
      this.quotaExceeded := quotaExceeded;
    }

    /** `getLogs`: the stored entries; none without a window or when the
        stored text is missing or corrupt. */
    function GetLogs(): (logs: seq<LogEntry>)
      reads this
      ensures !hasWindow ==> logs == []
      ensures hasWindow && applicationLogs.Stored? ==> logs == applicationLogs.value
      ensures !applicationLogs.Stored? ==> logs == []
    {
      if hasWindow then applicationLogs.ReadOr([]) else []
    }

    /** `saveLog` can write: there is a window, saving is on, the stored
        text parses (or is missing) and the browser accepts the write. */
    predicate CanSave()
      reads this
    {
      hasWindow && SaveLogs && !applicationLogs.Corrupt? && !quotaExceeded
    }

    /** `saveLog`: reads the buffer, appends the entry, drops the oldest
        entries beyond `MaxLogs` and writes the buffer back. A corrupt
        buffer or a refused write is caught and changes nothing. */
    method SaveLog(entry: LogEntry)
      modifies this`applicationLogs
      ensures !old(CanSave()) ==> applicationLogs == old(applicationLogs)
      ensures old(CanSave()) ==> applicationLogs == Stored(Newest(old(GetLogs()) + [entry], MaxLogs))
      ensures old(CanSave()) ==> |GetLogs()| <= MaxLogs && GetLogs()[|GetLogs()| - 1] == entry
      ensures old(CanSave()) && |old(GetLogs())| < MaxLogs ==> GetLogs() == old(GetLogs()) + [entry]
    {
      if !hasWindow || !SaveLogs {
        return;
      }
      if applicationLogs.Corrupt? {
        return;
      }
      var logs := applicationLogs.ReadOr([]);
      logs := logs + [entry];
      logs := DropOldest(logs);
      NewestKeepsLast(old(GetLogs()) + [entry], MaxLogs);
      if !quotaExceeded {
        applicationLogs := Stored(logs);
      }
    }

    /** `logError`: always recorded. */
    method LogError(message: string, error: Option<string>, now: string)
      modifies this`applicationLogs
      ensures old(CanSave()) ==>
        applicationLogs == Stored(Newest(old(GetLogs()) + [LogEntry(now, Error, message, error)], MaxLogs))
      ensures !old(CanSave()) ==> applicationLogs == old(applicationLogs)
    {
      SaveLog(LogEntry(now, Error, message, error));
    }

    /** `logWarning`: recorded unless the level is ERROR. */
    method LogWarning(message: string, data: Option<string>, now: string)
      modifies this`applicationLogs
      ensures WarningsOn(level) && old(CanSave()) ==>
        applicationLogs == Stored(Newest(old(GetLogs()) + [LogEntry(now, Warn, message, data)], MaxLogs))
      ensures !WarningsOn(level) || !old(CanSave()) ==> applicationLogs == old(applicationLogs)
    {
      if level == Error {
        return;
      }
      SaveLog(LogEntry(now, Warn, message, data));
    }

    /** `logInfo`: recorded only at level INFO or DEBUG. */
    method LogInfo(message: string, data: Option<string>, now: string)
      modifies this`applicationLogs
      ensures InfoOn(level) && old(CanSave()) ==>
        applicationLogs == Stored(Newest(old(GetLogs()) + [LogEntry(now, Info, message, data)], MaxLogs))
      ensures !InfoOn(level) || !old(CanSave()) ==> applicationLogs == old(applicationLogs)
    {
      if level == Error || level == Warn {
        return;
      }
      SaveLog(LogEntry(now, Info, message, data));
    }

    /** `logDebug`: recorded only at level DEBUG. */
    method LogDebug(message: string, data: Option<string>, now: string)
      modifies this`applicationLogs
      ensures DebugOn(level) && old(CanSave()) ==>
        applicationLogs == Stored(Newest(old(GetLogs()) + [LogEntry(now, Debug, message, data)], MaxLogs))
      ensures !DebugOn(level) || !old(CanSave()) ==> applicationLogs == old(applicationLogs)
    {
      if level != Debug {
        return;
      }
      SaveLog(LogEntry(now, Debug, message, data));
    }

    /** `clearLogs`: removes the key, so `getLogs` returns nothing. */
    method ClearLogs()
      modifies this`applicationLogs
      ensures hasWindow ==> applicationLogs == Absent
      ensures !hasWindow ==> applicationLogs == old(applicationLogs)
      ensures GetLogs() == []
    {
      if !hasWindow {
        return;
      }
      applicationLogs := Absent;
    }
  }

  /** A buffer that already holds `MaxLogs` entries: saving one more drops
      the oldest entry and keeps the rest, the new entry last. */
  method FullBufferDropsOldest(logs: seq<LogEntry>, entry: LogEntry) returns (after: seq<LogEntry>)
    requires |logs| == MaxLogs
    ensures after == logs[1..] + [entry]
  {
    var log := new Log(true, Debug, Stored(logs), false);
    log.SaveLog(entry);
    after := log.GetLogs();
    assert (logs + [entry])[1..] == logs[1..] + [entry];
  }
}
