/**
 * The background worker's `LicenseValidator`: the sliding one-hour window
 * of validation attempts, the cache-age predicates, the obfuscated license
 * cache and the control flow of `validateLicense` with its retry counter
 * and re-entrancy flag. Time is the parameter `now`; ExtensionPay, the
 * storage area and `JSON` are inputs.
 */
module License {
  import opened Wrappers
  import Base64

  const CACHE_DURATION: int := 24 * 60 * 60 * 1000
  const GRACE_PERIOD: int := 3 * 24 * 60 * 60 * 1000
  const ONE_HOUR: int := 60 * 60 * 1000
  const MAX_RETRIES: nat := 3
  const MIN_VALIDATION_INTERVAL: int := 60000
  const MAX_ATTEMPTS_PER_HOUR: nat := 20

  /** What ExtensionPay reports about the user; the other fields it returns are carried along untouched and play no part here. */
  datatype License = License(paid: bool, details: string)

  /** A decrypted cache entry with the `license_timestamp` stored beside it (`None` when absent). */
  datatype Cached = Cached(license: License, cacheTimestamp: Option<int>)

  /**
   * What `validateLicense` resolves to: nothing (the re-entrancy guard), the
   * cached entry, the freshly fetched license, or a `{ paid: false }`
   * object with its `rateLimited` and `error` markers.
   */
  datatype Reply = NoReply | CachedReply(cached: Cached) | FreshReply(license: License) | NotPaid(rateLimited: bool, error: bool)

  /** `cachedData.cacheTimestamp` is truthy: present and not zero. */
  predicate HasTimestamp(c: Cached) {
    c.cacheTimestamp.Some? && c.cacheTimestamp.value != 0
  }

  /** `isCacheValid`. */
  predicate IsCacheValid(c: Cached, now: int) {
    HasTimestamp(c) && now - c.cacheTimestamp.value < CACHE_DURATION
  }

  /** `isInGracePeriod`. */
  predicate IsInGracePeriod(c: Cached, now: int) {
    HasTimestamp(c) && now - c.cacheTimestamp.value < GRACE_PERIOD
  }

  /**
   * Both predicates are false without a timestamp; a valid cache is always
   * inside the grace period; and an entry that has aged out of either
   * window stays out as time moves on.
   */
  lemma CacheAgePredicates(c: Cached, now: int, later: int)
    requires now <= later
    ensures !HasTimestamp(c) ==> !IsCacheValid(c, now) && !IsInGracePeriod(c, now)
    ensures IsCacheValid(c, now) ==> IsInGracePeriod(c, now)
    ensures IsCacheValid(c, later) ==> IsCacheValid(c, now)
    ensures IsInGracePeriod(c, later) ==> IsInGracePeriod(c, now)
    ensures HasTimestamp(c) && c.cacheTimestamp.value + CACHE_DURATION <= now < c.cacheTimestamp.value + GRACE_PERIOD
      ==> !IsCacheValid(c, now) && IsInGracePeriod(c, now)
  {
  }

  /** The attempts `checkRateLimit` keeps: those strictly after `cutoff`, in their original order. */
  function Recent(times: seq<int>, cutoff: int): (r: seq<int>)
    ensures |r| <= |times|
    ensures forall i | 0 <= i < |r| :: r[i] > cutoff
    ensures forall t :: t in r <==> t in times && t > cutoff
  {
    if times == [] then []
    else if times[0] > cutoff then [times[0]] + Recent(times[1..], cutoff)
    else Recent(times[1..], cutoff)
  }

  /** Filtering distributes over concatenation, so the kept attempts stay in the order they were recorded. */
  lemma {:induction false} RecentConcat(a: seq<int>, b: seq<int>, cutoff: int)
    ensures Recent(a + b, cutoff) == Recent(a, cutoff) + Recent(b, cutoff)
    decreases |a|
  {
    if a != [] {
      assert (a + b)[0] == a[0];
      assert (a + b)[1..] == a[1..] + b;
      RecentConcat(a[1..], b, cutoff);
    } else {
      assert a + b == b;
    }
  }

  /** Filtering with a later cutoff after an earlier one is the same as filtering once with the later one. */
  lemma {:induction false} RecentNested(times: seq<int>, c1: int, c2: int)
    requires c1 <= c2
    ensures Recent(Recent(times, c1), c2) == Recent(times, c2)
    decreases |times|
  {
    if times != [] {
      RecentNested(times[1..], c1, c2);
    }
  }

  /** A fresh attempt at `now` is kept by every window that ends before it. */
  lemma RecentKeepsNewest(times: seq<int>, now: int, cutoff: int)
    requires cutoff < now
    ensures Recent(times + [now], cutoff) == Recent(times, cutoff) + [now]
  {
    RecentConcat(times, [now], cutoff);
  }

  /** `getCachedLicense`: no cache or an empty one is `null`, and so is an entry that fails to decrypt or to parse. */
  function ReadCache(stored: Option<string>, timestamp: Option<int>, parse: string -> Option<License>): (r: Option<Cached>)
    ensures r.Some? <==> stored.Some? && stored.value != [] && Base64.Decrypt(stored.value).Some?
                         && parse(Base64.Decrypt(stored.value).value).Some?
    ensures r.Some? ==> r.value == Cached(parse(Base64.Decrypt(stored.value).value).value, timestamp)
  {
    match stored
    case None => None
    case Some(encrypted) =>
      if encrypted == [] then None
      else match Base64.Decrypt(encrypted)
        case None => None
        case Some(json) =>
          match parse(json)
          case None => None
          case Some(license) => Some(Cached(license, timestamp))
  }

  /**
   * `cacheLicense` followed by `getCachedLicense` gives back the license and
   * the time it was written, whenever the JSON text of the license
   * survives `btoa` and parses back to the same license.
   */
  lemma CacheRoundTrip(license: License, now: int, stringify: License -> string, parse: string -> Option<License>)
    requires stringify(license) != [] && Base64.IsLatin1(stringify(license))
    requires parse(stringify(license)) == Some(license)
    ensures Base64.Encrypt(stringify(license)).Some?
    ensures ReadCache(Base64.Encrypt(stringify(license)), Some(now), parse) == Some(Cached(license, Some(now)))
  {
    var json := stringify(license);
    Base64.DecryptEncrypt(json);
    assert |Base64.Encrypt(json).value| == |Base64.Btoa(json).value| > 0;
  }

  /** The gate `validateLicense` passes before it touches the network. */
  datatype Gate = RateLimited | TooSoon | Proceed

  /** The gate, decided on the attempts left after the window has been pruned. */
  function GateFor(pruned: seq<int>, lastValidationTime: int, now: int, forceRefresh: bool): (g: Gate)
    ensures g == Proceed ==> |pruned| < MAX_ATTEMPTS_PER_HOUR
    ensures g == RateLimited <==> |pruned| >= MAX_ATTEMPTS_PER_HOUR
    ensures g == TooSoon <==> |pruned| < MAX_ATTEMPTS_PER_HOUR && now - lastValidationTime < MIN_VALIDATION_INTERVAL && !forceRefresh
    ensures g == Proceed <==> |pruned| < MAX_ATTEMPTS_PER_HOUR && (forceRefresh || now - lastValidationTime >= MIN_VALIDATION_INTERVAL)
  {
    if |pruned| >= MAX_ATTEMPTS_PER_HOUR then RateLimited
    else if now - lastValidationTime < MIN_VALIDATION_INTERVAL && !forceRefresh then TooSoon
    else Proceed
  }

  /** The outcome of the guarded part of `validateLicense`: the reply, whether the network was asked, what was written to the cache, and the retry bookkeeping. */
  datatype Outcome = Outcome(reply: Reply, fetched: bool, written: Option<string>, retryCount: nat, retryScheduled: bool)

  /**
   * The `catch` block: serve the cache inside its grace period, otherwise
   * schedule one more retry while fewer than `maxRetries` have been made and
   * answer with an error.
   */
  function Recover(cached: Option<Cached>, now: int, retryCount: nat): Outcome {
    if cached.Some? && IsInGracePeriod(cached.value, now) then Outcome(CachedReply(cached.value), true, None, retryCount, false)
    else if retryCount < MAX_RETRIES then Outcome(NotPaid(false, true), true, None, retryCount + 1, true)
    else Outcome(NotPaid(false, true), true, None, retryCount, false)
  }

  /**
   * Asking ExtensionPay (`fetch`, `None` when it throws) and caching the
   * answer; `btoa` throws on a JSON text with a character above 0xFF, which
   * also lands in the `catch` block.
   */
  function FetchAndCache(cached: Option<Cached>, fetch: Option<License>, stringify: License -> string, now: int, retryCount: nat): Outcome {
    match fetch
    case None => Recover(cached, now, retryCount)
    case Some(user) =>
      match Base64.Encrypt(stringify(user))
      case None => Recover(cached, now, retryCount)
      case Some(encrypted) => Outcome(FreshReply(user), true, Some(encrypted), 0, false)
  }

  /** The body of the `try` block as the source writes it: the grace-period shortcut comes before the network is tried. */
  function TryBlockAsWritten(forceRefresh: bool, cached: Option<Cached>, fetch: Option<License>, stringify: License -> string, now: int, retryCount: nat): Outcome {
    if !forceRefresh && cached.Some? && IsCacheValid(cached.value, now) then Outcome(CachedReply(cached.value), false, None, retryCount, false)
    else if cached.Some? && IsInGracePeriod(cached.value, now) then Outcome(CachedReply(cached.value), false, None, retryCount, false)
    else FetchAndCache(cached, fetch, stringify, now, retryCount)
  }

  /**
   * As written, a forced refresh is answered from a one-second-old cache
   * without asking ExtensionPay, although the same network would have
   * answered.
   */
  lemma ForceRefreshIgnoredAsWritten(c: Cached, user: License, stringify: License -> string, now: int, retryCount: nat)
    requires now == 1_000_000_000 && c.cacheTimestamp == Some(now - 1000)
    requires Base64.IsLatin1(stringify(user))
    ensures TryBlockAsWritten(true, Some(c), Some(user), stringify, now, retryCount).reply == CachedReply(c)
    ensures !TryBlockAsWritten(true, Some(c), Some(user), stringify, now, retryCount).fetched
    ensures TryBlock(true, Some(c), Some(user), stringify, now, retryCount).reply == FreshReply(user)
  {
  }

  /**
   * As written, a cache between one and three days old is served without
   * asking ExtensionPay, so the 24-hour cache lifetime never causes a
   * refresh before the grace period ends.
   */
  lemma ExpiredCacheServedAsWritten(c: Cached, user: License, stringify: License -> string, now: int, retryCount: nat)
    requires now == 1_000_000_000 && c.cacheTimestamp == Some(now - 2 * CACHE_DURATION)
    requires Base64.IsLatin1(stringify(user))
    ensures !IsCacheValid(c, now)
    ensures TryBlockAsWritten(false, Some(c), Some(user), stringify, now, retryCount).reply == CachedReply(c)
    ensures TryBlock(false, Some(c), Some(user), stringify, now, retryCount).reply == FreshReply(user)
  {
  }

  /** The body of the `try` block with the grace period kept for network failures, as its log message says. */
  function TryBlock(forceRefresh: bool, cached: Option<Cached>, fetch: Option<License>, stringify: License -> string, now: int, retryCount: nat): Outcome {
    if !forceRefresh && cached.Some? && IsCacheValid(cached.value, now) then Outcome(CachedReply(cached.value), false, None, retryCount, false)
    else FetchAndCache(cached, fetch, stringify, now, retryCount)
  }

  /**
   * What one guarded attempt promises: the network is asked exactly when
   * the cache cannot answer or a refresh is forced; success resets the
   * retry counter and writes the cache; the grace period is used only after
   * a failure; and the counter grows by one exactly when a retry is
   * scheduled, never past `maxRetries`.
   */
  lemma TryBlockSpec(forceRefresh: bool, cached: Option<Cached>, fetch: Option<License>, stringify: License -> string, now: int, retryCount: nat)
    requires retryCount <= MAX_RETRIES
    ensures var a := TryBlock(forceRefresh, cached, fetch, stringify, now, retryCount);
      && (a.fetched <==> forceRefresh || cached.None? || !IsCacheValid(cached.value, now))
      && (a.reply.FreshReply? <==> a.fetched && fetch.Some? && Base64.IsLatin1(stringify(fetch.value)))
      && (a.reply.FreshReply? ==>
            a.reply.license == fetch.value && a.retryCount == 0 && a.written == Base64.Encrypt(stringify(fetch.value)) && a.written.Some?)
      && (!a.reply.FreshReply? ==> a.written.None?)
      && (a.reply.CachedReply? ==> cached == Some(a.reply.cached))
      && (a.reply.CachedReply? && a.fetched ==> IsInGracePeriod(cached.value, now))
      && (a.reply.NotPaid? <==> a.fetched && !a.reply.FreshReply? && !(cached.Some? && IsInGracePeriod(cached.value, now)))
      && (a.retryScheduled <==> a.reply.NotPaid? && retryCount < MAX_RETRIES)
      && (!a.reply.FreshReply? ==> a.retryCount == retryCount + (if a.retryScheduled then 1 else 0))
      && a.retryCount <= MAX_RETRIES
      && a.reply != NoReply
      && (!a.fetched ==> a.reply == CachedReply(cached.value))
      && (a.fetched && !a.reply.FreshReply? && cached.Some? && IsInGracePeriod(cached.value, now) ==> a.reply == CachedReply(cached.value))
      && (a.reply.NotPaid? ==> a.reply == NotPaid(false, true))
  {
  }

  class LicenseValidator {
    var isValidating: bool
    var retryCount: nat
    var lastValidationTime: int
    var validationAttempts: seq<int>

    /** At most `maxRetries` retries are pending and at most `maxAttemptsPerHour` attempts are on record. */
    predicate Valid()
      reads this
    {
      retryCount <= MAX_RETRIES && |validationAttempts| <= MAX_ATTEMPTS_PER_HOUR
    }

    constructor()
      ensures Valid()
      ensures !isValidating && retryCount == 0 && lastValidationTime == 0 && validationAttempts == []
    {
      isValidating := false;
      retryCount := 0;
      lastValidationTime := 0;
      validationAttempts := [];
    }

    /** `checkRateLimit`: forget the attempts an hour old or older, then report whether another is allowed. */
    method CheckRateLimit(now: int) returns (allowed: bool)
      modifies this
      ensures validationAttempts == Recent(old(validationAttempts), now - ONE_HOUR)
      ensures allowed <==> |validationAttempts| < MAX_ATTEMPTS_PER_HOUR
      ensures isValidating == old(isValidating) && retryCount == old(retryCount) && lastValidationTime == old(lastValidationTime)
    {
      validationAttempts := Recent(validationAttempts, now - ONE_HOUR);
      allowed := |validationAttempts| < MAX_ATTEMPTS_PER_HOUR;
    }

    /** `recordValidationAttempt`. */
    method RecordValidationAttempt(now: int)
      modifies this
      ensures validationAttempts == old(validationAttempts) + [now]
      ensures isValidating == old(isValidating) && retryCount == old(retryCount) && lastValidationTime == old(lastValidationTime)
    {
      validationAttempts := validationAttempts + [now];
    }

    /**
     * `validateLicense(forceRefresh)` at time `now`, given what the cache
     * holds, what ExtensionPay answers and how the license is turned into
     * JSON. Returns the reply, the encrypted entry written to the cache (if
     * any) and whether a retry was scheduled.
     */
    method ValidateLicense(now: int, forceRefresh: bool, cached: Option<Cached>, fetch: Option<License>, stringify: License -> string)
      returns (reply: Reply, written: Option<string>, retryScheduled: bool)
      requires Valid()
      modifies this
      ensures Valid()
      ensures old(isValidating) ==>
        && reply == NoReply && written == None && !retryScheduled
        && isValidating && retryCount == old(retryCount) && lastValidationTime == old(lastValidationTime)
        && validationAttempts == old(validationAttempts)
      ensures !old(isValidating) ==> !isValidating
      ensures !old(isValidating) ==>
        var pruned := Recent(old(validationAttempts), now - ONE_HOUR);
        match GateFor(pruned, old(lastValidationTime), now, forceRefresh)
        case RateLimited =>
          && reply == (if cached.Some? then CachedReply(cached.value) else NotPaid(true, false))
          && written == None && !retryScheduled
          && validationAttempts == pruned && retryCount == old(retryCount) && lastValidationTime == old(lastValidationTime)
        case TooSoon =>
          && reply == (if cached.Some? then CachedReply(cached.value) else NotPaid(false, false))
          && written == None && !retryScheduled
          && validationAttempts == pruned && retryCount == old(retryCount) && lastValidationTime == old(lastValidationTime)
        case Proceed =>
          var a := TryBlock(forceRefresh, cached, fetch, stringify, now, old(retryCount));
          && reply == a.reply && written == a.written && retryScheduled == a.retryScheduled
          && validationAttempts == pruned + [now] && retryCount == a.retryCount && lastValidationTime == now
    {
      if isValidating {
        return NoReply, None, false;
      }
      var allowed := CheckRateLimit(now);
      if !allowed {
        reply := if cached.Some? then CachedReply(cached.value) else NotPaid(true, false);
        return reply, None, false;
      }
      if now - lastValidationTime < MIN_VALIDATION_INTERVAL && !forceRefresh {
        reply := if cached.Some? then CachedReply(cached.value) else NotPaid(false, false);
        return reply, None, false;
      }
      isValidating := true;
      lastValidationTime := now;
      RecordValidationAttempt(now);
      TryBlockSpec(forceRefresh, cached, fetch, stringify, now, retryCount);
      var a := TryBlock(forceRefresh, cached, fetch, stringify, now, retryCount);
      retryCount := a.retryCount;
      isValidating := false;
      return a.reply, a.written, a.retryScheduled;
    }
  }

  /**
   * Within any hour at most `maxAttemptsPerHour` validations reach the
   * `try` block: an attempt is recorded only after the pruned window held
   * fewer than that many.
   */
  lemma AttemptsStayBounded(attempts: seq<int>, lastValidationTime: int, now: int, forceRefresh: bool)
    requires GateFor(Recent(attempts, now - ONE_HOUR), lastValidationTime, now, forceRefresh) == Proceed
    ensures |Recent(attempts, now - ONE_HOUR) + [now]| <= MAX_ATTEMPTS_PER_HOUR
    ensures Recent(Recent(attempts, now - ONE_HOUR) + [now], now - ONE_HOUR) == Recent(attempts, now - ONE_HOUR) + [now]
  {
    RecentNested(attempts, now - ONE_HOUR, now - ONE_HOUR);
    RecentKeepsNewest(Recent(attempts, now - ONE_HOUR), now, now - ONE_HOUR);
  }
}
