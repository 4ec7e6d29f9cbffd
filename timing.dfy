/**
 * The transport's time arithmetic: the native delivery delay of a deferred message, the
 * time-to-be-received expiry test of a received message, and the peek-lock durations.
 * Instants and durations are .NET ticks (100 ns); an instant counts from 0001-01-01 UTC.
 */
module Timing {
  import opened Wrappers
  import opened Messages
  import Platform

  const TicksPerMillisecond: int := 10_000
  const TicksPerSecond: int := 10_000_000
  const TicksPerMinute: int := 600_000_000

  /** 1970-01-01T00:00:00Z in ticks. */
  const UnixEpochTicks: int := 621_355_968_000_000_000

  /** `DateTime.MaxValue` in ticks. */
  const MaxDateTimeTicks: int := 3_155_378_975_999_999_999

  /** The peek-lock duration and renewal interval a transport starts with: five and four minutes. */
  const DefaultPeekLockDuration: int := 5 * TicksPerMinute
  const DefaultPeekLockRenewalInterval: int := 4 * TicksPerMinute

  /** `Math.Ceiling(span.TotalSeconds)` of a span of `ticks`, for either sign. */
  function CeilingSeconds(ticks: int): (s: int)
    ensures (s - 1) * TicksPerSecond < ticks <= s * TicksPerSecond
  {
    -((-ticks) / TicksPerSecond)
  }

  /** `(int)span.TotalSeconds` of a span of `ticks`: whole seconds, rounded toward zero. */
  function WholeSeconds(ticks: int): (s: int)
    ensures ticks >= 0 ==> 0 <= s * TicksPerSecond <= ticks < s * TicksPerSecond + TicksPerSecond
    ensures ticks < 0 ==> s * TicksPerSecond - TicksPerSecond < ticks <= s * TicksPerSecond <= 0
  {
    if ticks >= 0 then ticks / TicksPerSecond else -((-ticks) / TicksPerSecond)
  }

  /**
   * The renewal interval `Initialize(peekLockDuration)` sets: four fifths of the duration
   * (the source multiplies the total minutes by 0.8), so the lock is renewed before it lapses.
   */
  function RenewalInterval(peekLockDuration: int): (interval: int)
    ensures peekLockDuration >= 0 ==> 0 <= 5 * interval <= 4 * peekLockDuration < 5 * interval + 5
    ensures peekLockDuration < 0 ==> 5 * interval - 5 < 4 * peekLockDuration <= 5 * interval <= 0
    ensures peekLockDuration > 0 ==> 0 <= interval < peekLockDuration
    ensures peekLockDuration == DefaultPeekLockDuration ==> interval == DefaultPeekLockRenewalInterval
  {
    var scaled := peekLockDuration * 4;
    if scaled >= 0 then scaled / 5 else -((-scaled) / 5)
  }

  /**
   * `GetDelaySeconds` as written: no delay when native deferral is off or the message has no
   * deferred-until header, else `ceil(deferredUntil - now)` in seconds, which is negative for an
   * instant in the past. An unparsable header is an error.
   */
  function DelaySecondsAsWritten(options: TransportOptions, headers: Headers, now: int, lib: Platform.Library): (r: Result<Option<int>, TransportError>)
    ensures r == Success(None) <==> !options.useNativeDeferredMessages || DeferredUntilHeader !in headers
    ensures r.Failure? <==>
      options.useNativeDeferredMessages && DeferredUntilHeader in headers && lib.parseInstant(headers[DeferredUntilHeader]).None?
    ensures r.Success? && r.value.Some? ==>
      var until := lib.parseInstant(headers[DeferredUntilHeader]).value;
      (r.value.value - 1) * TicksPerSecond < until - now <= r.value.value * TicksPerSecond
  {
    if !options.useNativeDeferredMessages then Success(None)
    else if DeferredUntilHeader !in headers then Success(None)
    else
      match lib.parseInstant(headers[DeferredUntilHeader])
      case None => Failure(MalformedHeader(DeferredUntilHeader, headers[DeferredUntilHeader]))
      case Some(until) => Success(Some(CeilingSeconds(until - now)))
  }

  /** A deferral at least a day in the past gives a delay of minus a day, not zero. */
  lemma PastDeferralGivesNegativeDelay(text: string, now: int, lib: Platform.Library)
    requires lib.parseInstant(text) == Some(now - 24 * 60 * 60 * TicksPerSecond)
    ensures DelaySecondsAsWritten(DefaultOptions, map[DeferredUntilHeader := text], now, lib) == Success(Some(-86400))
  {
  }

  /**
   * The delay a deferral should get: as written, but never below zero, so a message
   * deferred to an instant already past is delivered at once.
   */
  function DelaySeconds(options: TransportOptions, headers: Headers, now: int, lib: Platform.Library): (r: Result<Option<int>, TransportError>)
    ensures r.Success? && r.value.Some? ==> r.value.value >= 0
    ensures r.Success? <==> DelaySecondsAsWritten(options, headers, now, lib).Success?
    ensures r.Failure? ==> r == DelaySecondsAsWritten(options, headers, now, lib)
    ensures r.Success? ==>
      match DelaySecondsAsWritten(options, headers, now, lib).value
      case None => r.value.None?
      case Some(d) => r.value == Some(if d < 0 then 0 else d)
  {
    match DelaySecondsAsWritten(options, headers, now, lib)
    case Failure(e) => Failure(e)
    case Success(None) => Success(None)
    case Success(Some(d)) => Success(Some(if d < 0 then 0 else d))
  }

  /** For a deferral that is not in the past the corrected delay is the one the source computes. */
  lemma DelaySecondsAgreesForFutureDeferral(options: TransportOptions, headers: Headers, now: int, lib: Platform.Library)
    requires DeferredUntilHeader in headers
    requires lib.parseInstant(headers[DeferredUntilHeader]).Some?
    requires lib.parseInstant(headers[DeferredUntilHeader]).value >= now
    ensures DelaySeconds(options, headers, now, lib) == DelaySecondsAsWritten(options, headers, now, lib)
  {
  }

  /** The corrected delay of a message deferred to an instant already past is zero. */
  lemma DelaySecondsOfPastDeferralIsZero(headers: Headers, now: int, lib: Platform.Library)
    requires DeferredUntilHeader in headers
    requires lib.parseInstant(headers[DeferredUntilHeader]).Some?
    requires lib.parseInstant(headers[DeferredUntilHeader]).value <= now
    ensures DelaySeconds(DefaultOptions, headers, now, lib) == Success(Some(0))
  {
  }

  /**
   * `GetTimeFromUnixTimestamp`: the instant `SentTimestamp` milliseconds after the Unix epoch.
   * Text `long.Parse` refuses, and an instant outside the range of `DateTime`, are errors.
   */
  function TimeFromUnixTimestamp(text: string, lib: Platform.Library): (r: Result<int, TransportError>)
    ensures r.Success? <==>
      lib.parseInt64(text).Some? && 0 <= UnixEpochTicks + lib.parseInt64(text).value * TicksPerMillisecond <= MaxDateTimeTicks
    ensures r.Success? ==>
      r.value - UnixEpochTicks == lib.parseInt64(text).value * TicksPerMillisecond &&
      (r.value - UnixEpochTicks) / TicksPerMillisecond == lib.parseInt64(text).value
  {
    match lib.parseInt64(text)
    case None => Failure(MalformedHeader(SentTimestampAttribute, text))
    case Some(milliseconds) =>
      var ticks := UnixEpochTicks + milliseconds * TicksPerMillisecond;
      if 0 <= ticks <= MaxDateTimeTicks then Success(ticks) else Failure(TimestampOutOfRange(milliseconds))
  }

  /** `MessageIsExpiredUsingRebusSentTime`: more than `timeToBeReceived` has passed since the sent-time header, if there is one. */
  function IsExpiredUsingRebusSentTime(headers: Headers, timeToBeReceived: int, now: int, lib: Platform.Library): Result<bool, TransportError>
  {
    if SentTimeHeader !in headers then Success(false)
    else
      match lib.parseInstant(headers[SentTimeHeader])
      case None => Failure(MalformedHeader(SentTimeHeader, headers[SentTimeHeader]))
      case Some(sent) => Success(now - sent > timeToBeReceived)
  }

  /** `MessageIsExpiredUsingNativeSqsSentTimestamp`: the same test against the `SentTimestamp` attribute, if there is one. */
  function IsExpiredUsingNativeSentTimestamp(attributes: map<string, string>, timeToBeReceived: int, now: int, lib: Platform.Library): Result<bool, TransportError>
  {
    if SentTimestampAttribute !in attributes then Success(false)
    else
      var sent :- TimeFromUnixTimestamp(attributes[SentTimestampAttribute], lib);
      Success(now - sent > timeToBeReceived)
  }

  /**
   * `MessageIsExpired`: a message without a time-to-be-received header never expires; otherwise
   * the Rebus sent time is tried first and the SQS timestamp only when that did not find it expired.
   */
  function MessageIsExpired(headers: Headers, attributes: map<string, string>, now: int, lib: Platform.Library): (r: Result<bool, TransportError>)
    ensures TimeToBeReceivedHeader !in headers ==> r == Success(false)
  {
    if TimeToBeReceivedHeader !in headers then Success(false)
    else
      match lib.parseTimeSpan(headers[TimeToBeReceivedHeader])
      case None => Failure(MalformedHeader(TimeToBeReceivedHeader, headers[TimeToBeReceivedHeader]))
      case Some(timeToBeReceived) =>
        var byRebusTime :- IsExpiredUsingRebusSentTime(headers, timeToBeReceived, now, lib);
        if byRebusTime then Success(true) else IsExpiredUsingNativeSentTimestamp(attributes, timeToBeReceived, now, lib)
  }

  /** Every time value the expiry test would read can be read. */
  predicate TimesAreReadable(headers: Headers, attributes: map<string, string>, lib: Platform.Library)
  {
    TimeToBeReceivedHeader in headers ==>
      && lib.parseTimeSpan(headers[TimeToBeReceivedHeader]).Some?
      && (SentTimeHeader in headers ==> lib.parseInstant(headers[SentTimeHeader]).Some?)
      && (SentTimestampAttribute in attributes ==> TimeFromUnixTimestamp(attributes[SentTimestampAttribute], lib).Success?)
  }

  /**
   * The expiry rule on its own terms: the message has a time to be received, and more than that
   * has passed since the Rebus sent time or since the SQS sent timestamp, whichever are present.
   */
  predicate ExpiredByRule(headers: Headers, attributes: map<string, string>, now: int, lib: Platform.Library)
    requires TimesAreReadable(headers, attributes, lib)
  {
    && TimeToBeReceivedHeader in headers
    && var timeToBeReceived := lib.parseTimeSpan(headers[TimeToBeReceivedHeader]).value;
      || (SentTimeHeader in headers && now - lib.parseInstant(headers[SentTimeHeader]).value > timeToBeReceived)
      || (SentTimestampAttribute in attributes &&
          now - (UnixEpochTicks + lib.parseInt64(attributes[SentTimestampAttribute]).value * TicksPerMillisecond) > timeToBeReceived)
  }

  /** When every time value can be read, `MessageIsExpired` decides exactly the expiry rule. */
  lemma MessageIsExpiredMeansRule(headers: Headers, attributes: map<string, string>, now: int, lib: Platform.Library)
    requires TimesAreReadable(headers, attributes, lib)
    ensures MessageIsExpired(headers, attributes, now, lib) == Success(ExpiredByRule(headers, attributes, now, lib))
  {
    if TimeToBeReceivedHeader in headers && SentTimestampAttribute in attributes {
      var t := TimeFromUnixTimestamp(attributes[SentTimestampAttribute], lib);
      assert t.value == UnixEpochTicks + lib.parseInt64(attributes[SentTimestampAttribute]).value * TicksPerMillisecond;
    }
  }

  /** A message found expired by its Rebus sent time is expired whatever its SQS timestamp says, even if that cannot be read. */
  lemma RebusSentTimeDecidesFirst(headers: Headers, attributes: map<string, string>, now: int, lib: Platform.Library)
    requires TimeToBeReceivedHeader in headers && SentTimeHeader in headers
    requires lib.parseTimeSpan(headers[TimeToBeReceivedHeader]).Some?
    requires lib.parseInstant(headers[SentTimeHeader]).Some?
    requires now - lib.parseInstant(headers[SentTimeHeader]).value > lib.parseTimeSpan(headers[TimeToBeReceivedHeader]).value
    ensures MessageIsExpired(headers, attributes, now, lib) == Success(true)
  {
  }

  /** Once expired, a message stays expired: the test is monotone in the current time. */
  lemma ExpiryIsMonotone(headers: Headers, attributes: map<string, string>, now: int, later: int, lib: Platform.Library)
    requires TimesAreReadable(headers, attributes, lib)
    requires now <= later
    requires MessageIsExpired(headers, attributes, now, lib) == Success(true)
    ensures MessageIsExpired(headers, attributes, later, lib) == Success(true)
  {
    MessageIsExpiredMeansRule(headers, attributes, now, lib);
    MessageIsExpiredMeansRule(headers, attributes, later, lib);
  }
}
