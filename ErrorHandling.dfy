/**
 * The error bookkeeping of `error_handler.py`: the bot's exception kinds and
 * how the decorators classify them, `safe_execute`, the `ErrorReporter` with
 * its per-type counters and five-minute suppression window, and the bounded
 * `RetryHandler.retry_sync` loop. Clock readings are integer microseconds;
 * calls to the wrapped function are a script of outcomes; `str.lower` is a
 * parameter.
 */
module ErrorHandling {
  import opened Common

  // ---------------------------------------------------------------------------
  // Exceptions and their classification
  // ---------------------------------------------------------------------------

  /**
   * The exception classes the handlers tell apart; `Other` is any other
   * `Exception` subclass, outside the bot's hierarchy.
   */
  datatype ExcKind =
    | BotError
    | TriliumConnectionError
    | TelegramConnectionError
    | MessageProcessingError
    | ConfigurationError
    | Other(className: string)

  /** An exception: its class and `str(e)`. */
  datatype Exc = Exc(kind: ExcKind, message: string)

  /** `isinstance(e, BotError)`. */
  predicate IsBotError(k: ExcKind) {
    !k.Other?
  }

  const UnknownErrorMessage: string := "处理消息时发生未知错误，请稍后重试"

  /** The `error_handler` decorator: bot errors pass through unchanged, anything else becomes a processing error. */
  function ErrorHandlerRaises(e: Exc): (r: Exc)
    ensures IsBotError(r.kind)
    ensures IsBotError(e.kind) <==> r == e
    ensures !IsBotError(e.kind) ==> r == Exc(MessageProcessingError, UnknownErrorMessage)
  {
    if IsBotError(e.kind) then e else Exc(MessageProcessingError, UnknownErrorMessage)
  }

  /** Passing through the decorator twice is passing through it once. */
  lemma ErrorHandlerIdempotent(e: Exc)
    ensures ErrorHandlerRaises(ErrorHandlerRaises(e)) == ErrorHandlerRaises(e)
  {
  }

  /** The error type `handle_trilium_error` reports: a connection error exactly when the lowered message says so. */
  function TriliumErrorType(lower: string -> string, message: string): (t: string)
    ensures t == "TriliumConnectionError" <==> Contains(lower(message), "connection")
    ensures t == "TriliumError" <==> !Contains(lower(message), "connection")
  {
    if Contains(lower(message), "connection") then "TriliumConnectionError" else "TriliumError"
  }

  /** What a wrapped call produced: a value, or an exception. */
  datatype Attempt<T> = Ok(value: T) | Fail(err: Exc)

  /** `safe_execute`: the call's value, or the default when it raised. */
  function SafeExecute<T>(call: Attempt<T>, defaultReturn: T): (r: T)
    ensures call.Ok? ==> r == call.value
    ensures call.Fail? ==> r == defaultReturn
  {
    match call
    case Ok(v) => v
    case Fail(_) => defaultReturn
  }

  // ---------------------------------------------------------------------------
  // ErrorReporter
  // ---------------------------------------------------------------------------

  const MicrosPerSecond: int := 1000000
  const SecondsPerDay: int := 86400
  /** The suppression window, in seconds. */
  const Window: int := 300

  /**
   * `timedelta.seconds` of a difference of `delta` microseconds: the whole
   * seconds, floored, reduced modulo one day (the days go to `.days`).
   */
  function SecondsField(delta: int): (s: int)
    ensures 0 <= s < SecondsPerDay
  {
    (delta / MicrosPerSecond) % SecondsPerDay
  }

  /** A report of `errorType` at `now` is suppressed: one was sent less than `Window` by the `.seconds` field ago. */
  predicate Suppressed(lastReport: map<string, int>, errorType: string, now: int) {
    errorType in lastReport && SecondsField(now - lastReport[errorType]) < Window
  }

  /** One logged error report. */
  datatype Report = Report(timestamp: int, errorType: string, message: string, count: nat)

  function CountOf(counts: map<string, nat>, errorType: string): nat {
    if errorType in counts then counts[errorType] else 0
  }

  /** The sum of the counts of `keys`, in order. */
  function SumIn(counts: map<string, nat>, keys: seq<string>): nat
    requires forall i :: 0 <= i < |keys| ==> keys[i] in counts
  {
    if |keys| == 0 then 0 else counts[keys[0]] + SumIn(counts, keys[1..])
  }

  /** Changing a key outside `keys` does not change their sum. */
  lemma {:induction false} SumInFrame(counts: map<string, nat>, keys: seq<string>, k: string, v: nat)
    requires forall i :: 0 <= i < |keys| ==> keys[i] in counts
    requires k !in keys
    ensures SumIn(counts[k := v], keys) == SumIn(counts, keys)
  {
    if |keys| > 0 {
      SumInFrame(counts, keys[1..], k, v);
    }
  }

  /** Raising the count of a listed key by one raises the sum by one. */
  lemma {:induction false} SumInBump(counts: map<string, nat>, keys: seq<string>, k: string)
    requires forall i :: 0 <= i < |keys| ==> keys[i] in counts
    requires NoDup(keys) && k in keys
    ensures SumIn(counts[k := counts[k] + 1], keys) == SumIn(counts, keys) + 1
  {
    if keys[0] == k {
      assert k !in keys[1..];
      SumInFrame(counts, keys[1..], k, counts[k] + 1);
    } else {
      SumInBump(counts, keys[1..], k);
    }
  }

  /** Listing a new key with count one raises the sum by one. */
  lemma {:induction false} SumInAdd(counts: map<string, nat>, keys: seq<string>, k: string)
    requires forall i :: 0 <= i < |keys| ==> keys[i] in counts
    requires k !in keys
    ensures SumIn(counts[k := 1], keys + [k]) == SumIn(counts, keys) + 1
  {
    if |keys| == 0 {
      assert [k][1..] == [];
    } else {
      assert (keys + [k])[1..] == keys[1..] + [k];
      SumInAdd(counts, keys[1..], k);
    }
  }

  /** `ErrorReporter`: counts per error type, the time each type was last reported, and the reports logged. */
  class ErrorReporter {
    var errorCounts: map<string, nat>
    var lastErrorReport: map<string, int>
    /** The keys of `errorCounts` in insertion order, the order `sum(...values())` visits them. */
    var keyOrder: seq<string>
    var log: seq<Report>
    /** How many times `ReportError` was called. */
    ghost var calls: nat

    ghost predicate Valid()
      reads this
    {
      && NoDup(keyOrder)
      && (forall i :: 0 <= i < |keyOrder| ==> keyOrder[i] in errorCounts)
      && (forall t :: t in errorCounts ==> t in keyOrder)
      && SumIn(errorCounts, keyOrder) == calls
    }

    constructor ()
      ensures Valid()
      ensures errorCounts == map[] && lastErrorReport == map[] && log == [] && calls == 0
    {
      errorCounts := map[];
      lastErrorReport := map[];
      keyOrder := [];
      log := [];
      calls := 0;
    }

    /** The sum of all counts: the `total_errors` of `get_error_stats`. */
    ghost function Total(): nat
      reads this
      requires Valid()
    {
      SumIn(errorCounts, keyOrder)
    }

    /**
     * `report_error` at clock reading `now`: always counts the error; logs a
     * report and records the time unless the type was reported within the window.
     */
    method ReportError(errorType: string, message: string, now: int)
      requires Valid()
      modifies this
      ensures Valid()
      ensures calls == old(calls) + 1
      ensures errorCounts == old(errorCounts)[errorType := CountOf(old(errorCounts), errorType) + 1]
      ensures Suppressed(old(lastErrorReport), errorType, now) ==>
        lastErrorReport == old(lastErrorReport) && log == old(log)
      ensures !Suppressed(old(lastErrorReport), errorType, now) ==>
        && lastErrorReport == old(lastErrorReport)[errorType := now]
        && log == old(log) + [Report(now, errorType, message, errorCounts[errorType])]
    {
      if errorType in errorCounts {
        SumInBump(errorCounts, keyOrder, errorType);
        errorCounts := errorCounts[errorType := errorCounts[errorType] + 1];
      } else {
        SumInAdd(errorCounts, keyOrder, errorType);
        errorCounts := errorCounts[errorType := 1];
        keyOrder := keyOrder + [errorType];
      }
      calls := calls + 1;
      if errorType in lastErrorReport && SecondsField(now - lastErrorReport[errorType]) < Window {
        return;
      }
      lastErrorReport := lastErrorReport[errorType := now];
      log := log + [Report(now, errorType, message, errorCounts[errorType])];
    }

    /** `get_error_stats`: a copy of the counts and their total, which is the number of `report_error` calls. */
    method GetErrorStats() returns (counts: map<string, nat>, total: nat)
      requires Valid()
      ensures counts == errorCounts
      ensures total == Total() && total == calls
    {
      counts := errorCounts;
      total := 0;
      var i := 0;
      while i < |keyOrder|
        invariant i <= |keyOrder|
        invariant total + SumIn(errorCounts, keyOrder[i..]) == SumIn(errorCounts, keyOrder)
      {
        assert keyOrder[i..][1..] == keyOrder[i + 1..];
        total := total + errorCounts[keyOrder[i]];
        i := i + 1;
      }
    }
  }

  /**
   * `handle_trilium_error`: report the failure under its classified type,
   * then raise a `TriliumConnectionError` that names the original message.
   */
  method HandleTriliumError(reporter: ErrorReporter, lower: string -> string, e: Exc, now: int) returns (raised: Exc)
    requires reporter.Valid()
    modifies reporter
    ensures reporter.Valid()
    ensures raised == Exc(TriliumConnectionError, "Trilium操作失败: " + e.message)
    ensures reporter.calls == old(reporter.calls) + 1
    ensures reporter.errorCounts == old(reporter.errorCounts)[TriliumErrorType(lower, e.message) :=
      CountOf(old(reporter.errorCounts), TriliumErrorType(lower, e.message)) + 1]
    ensures Suppressed(old(reporter.lastErrorReport), TriliumErrorType(lower, e.message), now) ==>
      reporter.lastErrorReport == old(reporter.lastErrorReport) && reporter.log == old(reporter.log)
    ensures !Suppressed(old(reporter.lastErrorReport), TriliumErrorType(lower, e.message), now) ==>
      && reporter.lastErrorReport == old(reporter.lastErrorReport)[TriliumErrorType(lower, e.message) := now]
      && reporter.log == old(reporter.log) + [Report(now, TriliumErrorType(lower, e.message), e.message,
                                                     reporter.errorCounts[TriliumErrorType(lower, e.message)])]
  {
    var errorType := if Contains(lower(e.message), "connection") then "TriliumConnectionError" else "TriliumError";
    reporter.ReportError(errorType, e.message, now);
    raised := Exc(TriliumConnectionError, "Trilium操作失败: " + e.message);
  }

  /** `handle_telegram_error`: report under `TelegramError`, then raise a `TelegramConnectionError`. */
  method HandleTelegramError(reporter: ErrorReporter, e: Exc, now: int) returns (raised: Exc)
    requires reporter.Valid()
    modifies reporter
    ensures reporter.Valid()
    ensures raised == Exc(TelegramConnectionError, "Telegram操作失败: " + e.message)
    ensures reporter.calls == old(reporter.calls) + 1
    ensures reporter.errorCounts == old(reporter.errorCounts)["TelegramError" :=
      CountOf(old(reporter.errorCounts), "TelegramError") + 1]
    ensures Suppressed(old(reporter.lastErrorReport), "TelegramError", now) ==>
      reporter.lastErrorReport == old(reporter.lastErrorReport) && reporter.log == old(reporter.log)
    ensures !Suppressed(old(reporter.lastErrorReport), "TelegramError", now) ==>
      && reporter.lastErrorReport == old(reporter.lastErrorReport)["TelegramError" := now]
      && reporter.log == old(reporter.log) + [Report(now, "TelegramError", e.message, reporter.errorCounts["TelegramError"])]
  {
    reporter.ReportError("TelegramError", e.message, now);
    raised := Exc(TelegramConnectionError, "Telegram操作失败: " + e.message);
  }

  // ---------------------------------------------------------------------------
  // The suppression window: as written and as intended
  // ---------------------------------------------------------------------------

  /** A report one day and ten seconds after the last one is suppressed, because `.seconds` drops the day. */
  lemma DayOldReportSuppressed(errorType: string, last: int)
    ensures Suppressed(map[errorType := last], errorType, last + (SecondsPerDay + 10) * MicrosPerSecond)
  {
    var delta := (SecondsPerDay + 10) * MicrosPerSecond;
    assert delta / MicrosPerSecond == SecondsPerDay + 10;
  }

  /** A report one second before the last one (clock stepped back) is not suppressed: `.seconds` reads 86399. */
  lemma EarlierReportNotSuppressed(errorType: string, last: int)
    ensures !Suppressed(map[errorType := last], errorType, last - MicrosPerSecond)
  {
    assert (-MicrosPerSecond) / MicrosPerSecond == -1;
  }

  /** The evidently intended window: `total_seconds() < 300`, so days count. */
  predicate SuppressedIntended(lastReport: map<string, int>, errorType: string, now: int) {
    errorType in lastReport && now - lastReport[errorType] < Window * MicrosPerSecond
  }

  /** Under the intended rule a report is suppressed exactly when less than five minutes have passed. */
  lemma IntendedWindow(lastReport: map<string, int>, errorType: string, now: int)
    requires errorType in lastReport && lastReport[errorType] <= now
    ensures SuppressedIntended(lastReport, errorType, now) <==> now - lastReport[errorType] < 300 * 1000000
    ensures now - lastReport[errorType] >= SecondsPerDay * MicrosPerSecond ==> !SuppressedIntended(lastReport, errorType, now)
  {
  }

  /** Within the first day after a report, the written rule and the intended rule agree. */
  lemma WindowsAgreeWithinADay(lastReport: map<string, int>, errorType: string, now: int)
    requires errorType in lastReport
    requires 0 <= now - lastReport[errorType] < SecondsPerDay * MicrosPerSecond
    ensures Suppressed(lastReport, errorType, now) <==> SuppressedIntended(lastReport, errorType, now)
  {
    var delta := now - lastReport[errorType];
    var secs := delta / MicrosPerSecond;
    assert 0 <= secs < SecondsPerDay;
    assert secs % SecondsPerDay == secs;
    assert secs < Window <==> delta < Window * MicrosPerSecond;
  }

  // ---------------------------------------------------------------------------
  // RetryHandler.retry_sync
  // ---------------------------------------------------------------------------

  /** `isinstance(e, (ConfigurationError, TelegramConnectionError))` is false. */
  predicate Retryable(e: Exc) {
    e.kind != ConfigurationError && e.kind != TelegramConnectionError
  }

  /** How `retry_sync` ends: a value, the last error re-raised, or `raise None` when it never called. */
  datatype RetryResult<T> = Returned(value: T) | Reraised(err: Exc) | RaisedNone

  /** What `time.sleep` raises for a negative length, inside the `try`. */
  const SleepError := Exc(Other("ValueError"), "sleep length must be non-negative")

  /**
   * What attempt `k` of `retry_sync` yields: from the second attempt on it
   * first sleeps `delay * k`, which raises before `func` is called when that
   * length is negative; otherwise it is `func`'s own outcome.
   */
  function AttemptOutcome<T>(delay: real, call: nat -> Attempt<T>, k: nat): (a: Attempt<T>)
    ensures k == 0 || delay >= 0.0 ==> a == call(k)
    ensures k > 0 && delay < 0.0 ==> a == Fail(SleepError) && Retryable(a.err)
  {
    if k > 0 && delay * k as real < 0.0 then Fail(SleepError) else call(k)
  }

  /** `RetryHandler`: its retry budget and base delay, set at construction. */
  class RetryHandler {
    const maxRetries: int
    const delay: real

    constructor (maxRetries: int, delay: real)
      ensures this.maxRetries == maxRetries && this.delay == delay
    {
      this.maxRetries := maxRetries;
      this.delay := delay;
    }

    /**
     * `retry_sync`. Attempt `k` (from 0) yields `AttemptOutcome(delay, call, k)`;
     * `attempts` is how many attempts were made, `calls` how many of them
     * reached `func`, and `waits` the sleeps requested between them.
     */
    method RetrySync<T>(call: nat -> Attempt<T>) returns (r: RetryResult<T>, attempts: nat, calls: nat, waits: seq<real>)
      ensures maxRetries < 0 <==> r.RaisedNone?
      ensures r.RaisedNone? ==> attempts == 0
      ensures attempts <= if maxRetries < 0 then 0 else maxRetries + 1
      ensures forall k :: 0 <= k < attempts - 1 ==>
        AttemptOutcome(delay, call, k).Fail? && Retryable(AttemptOutcome(delay, call, k).err)
      ensures r.Returned? ==> attempts >= 1 && AttemptOutcome(delay, call, attempts - 1) == Ok(r.value)
      ensures r.Reraised? ==> attempts >= 1 && AttemptOutcome(delay, call, attempts - 1) == Fail(r.err)
      ensures r.Reraised? ==> attempts == maxRetries + 1 || !Retryable(r.err)
      ensures calls == if delay >= 0.0 || attempts == 0 then attempts else 1
      ensures |waits| == (if attempts == 0 then 0 else attempts - 1)
      ensures forall k :: 0 <= k < |waits| ==> waits[k] == delay * (k + 1) as real
    {
      var attempt: nat := 0;
      var lastError: Option<Exc> := None;
      waits := [];
      attempts := 0;
      calls := 0;
      while attempt < maxRetries + 1
        invariant attempt == attempts
        invariant attempt <= if maxRetries < 0 then 0 else maxRetries + 1
        invariant forall k :: 0 <= k < attempts ==>
          AttemptOutcome(delay, call, k).Fail? && Retryable(AttemptOutcome(delay, call, k).err)
        invariant lastError.None? <==> attempts == 0
        invariant lastError.Some? ==> lastError == Some(AttemptOutcome(delay, call, attempts - 1).err)
        invariant calls == if delay >= 0.0 || attempts == 0 then attempts else 1
        invariant |waits| == (if attempts == 0 then 0 else attempts - 1)
        invariant forall k :: 0 <= k < |waits| ==> waits[k] == delay * (k + 1) as real
      {
        var outcome: Attempt<T>;
        if attempt > 0 && delay * attempt as real < 0.0 {
          waits := waits + [delay * attempt as real];
          outcome := Fail(SleepError);
        } else {
          if attempt > 0 {
            waits := waits + [delay * attempt as real];
          }
          outcome := call(attempt);
          calls := calls + 1;
        }
        attempts := attempts + 1;
        assert outcome == AttemptOutcome(delay, call, attempt);
        if outcome.Ok? {
          return Returned(outcome.value), attempts, calls, waits;
        }
        lastError := Some(outcome.err);
        if attempt == maxRetries {
          break;
        }
        if outcome.err.kind == ConfigurationError || outcome.err.kind == TelegramConnectionError {
          break;
        }
        attempt := attempt + 1;
      }
      if lastError.None? {
        return RaisedNone, attempts, calls, waits;
      }
      r := Reraised(lastError.value);
    }
  }
}
