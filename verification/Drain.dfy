/** How often a failing drain is retried and when it is reported stuck (internal/controller/drain.go). */
module Drain {
  import opened Nodes

  const SECOND := 1_000_000_000
  const DEFAULT_DRAIN_TIMEOUT_SECONDS := 3600
  const DEFAULT_DRAIN_RETRY_SECONDS := 30

  function EffectiveTimeout(timeoutSeconds: int): (t: int)
    ensures t > 0 && (timeoutSeconds > 0 ==> t == timeoutSeconds)
  {
    if timeoutSeconds <= 0 then DEFAULT_DRAIN_TIMEOUT_SECONDS else timeoutSeconds
  }

  function CalculateRetryInterval(timeoutSeconds: int, retrySeconds: int): (d: int)
    ensures d > 0 && (retrySeconds > 0 ==> d == retrySeconds * SECOND)
    ensures retrySeconds <= 0 ==> d >= 30 * SECOND && 12 * d > (EffectiveTimeout(timeoutSeconds) - 12) * SECOND
    ensures retrySeconds <= 0 ==> d == 30 * SECOND || 12 * d <= EffectiveTimeout(timeoutSeconds) * SECOND
    ensures retrySeconds <= 0 && timeoutSeconds <= 0 ==> d == 300 * SECOND
  {
    if retrySeconds > 0 then retrySeconds * SECOND
    else
      var calculated := EffectiveTimeout(timeoutSeconds) / 12;
      (if calculated < DEFAULT_DRAIN_RETRY_SECONDS then DEFAULT_DRAIN_RETRY_SECONDS else calculated) * SECOND
  }

  datatype DrainRetry = DrainRetry(requeueAfter: int, setDrainStuck: bool)

  function HandleDrainRetry(started: Stamp, now: int, timeoutSeconds: int, retrySeconds: int): DrainRetry
  {
    if !started.At? then
      DrainRetry(CalculateRetryInterval(timeoutSeconds, retrySeconds), false)
    else
      var elapsed := now - started.time;
      var timeout := EffectiveTimeout(timeoutSeconds) * SECOND;
      var interval := CalculateRetryInterval(EffectiveTimeout(timeoutSeconds), retrySeconds);
      if elapsed >= timeout then DrainRetry(interval, true)
      else
        var remaining := timeout - elapsed;
        var capped := if remaining < interval then remaining else interval;
        DrainRetry(if capped < 10 * SECOND then 10 * SECOND else capped, false)
  }

  /** Stuck exactly from the timeout on.  Before it the next attempt is made at the retry interval or at the
      timeout, whichever is sooner, but not within 10s, so never past the timeout by as much; from then on, and
      when no start is on record, at the interval. */
  lemma RetryReply(start: int, now: int, timeoutSeconds: int, retrySeconds: int)
    ensures var r, interval := HandleDrainRetry(At(start), now, timeoutSeconds, retrySeconds), CalculateRetryInterval(timeoutSeconds, retrySeconds);
      var deadline := (if timeoutSeconds > 0 then timeoutSeconds else 3600) * SECOND;
      && (r.setDrainStuck <==> now - start >= deadline)
      && (r.setDrainStuck ==> r.requeueAfter == interval)
      && (!r.setDrainStuck ==>
            && 10 * SECOND <= r.requeueAfter && now - start + r.requeueAfter < deadline + 10 * SECOND
            && (r.requeueAfter <= interval || r.requeueAfter == 10 * SECOND)
            && (r.requeueAfter >= interval || now - start + r.requeueAfter >= deadline))
    ensures forall started: Stamp | !started.At? ::
      HandleDrainRetry(started, now, timeoutSeconds, retrySeconds) == DrainRetry(CalculateRetryInterval(timeoutSeconds, retrySeconds), false)
  {
  }

  /** The reply to attempt `k` of a drain, at `elapsed` since the recorded start.  The first attempt
      records the start on the API server only, so it is answered as if nothing had started. */
  function ReplyTo(k: nat, elapsed: int, timeoutSeconds: int, retrySeconds: int): DrainRetry
  {
    HandleDrainRetry(if k == 0 then NoStamp else At(0), elapsed, timeoutSeconds, retrySeconds)
  }

  /** Attempts of one drain that keeps failing, each made no later than the previous reply asked
      for.  The recorded start is truncated to a second, hence the slack on the first. */
  ghost predicate OnTime(attempts: seq<int>, timeoutSeconds: int, retrySeconds: int)
  {
    && (attempts != [] ==> 0 <= attempts[0] < SECOND)
    && forall k | 0 < k < |attempts| ::
         attempts[k] <= attempts[k - 1] + ReplyTo(k - 1, attempts[k - 1], timeoutSeconds, retrySeconds).requeueAfter
  }

  /** A drain that keeps failing on schedule is reported stuck before the timeout plus 10 seconds. */
  lemma StuckBeforeDeadline(attempts: seq<int>, timeoutSeconds: int, retrySeconds: int) returns (k: nat)
    requires OnTime(attempts, timeoutSeconds, retrySeconds)
    requires CalculateRetryInterval(timeoutSeconds, retrySeconds) <= EffectiveTimeout(timeoutSeconds) * SECOND
    requires attempts != [] && attempts[|attempts| - 1] >= EffectiveTimeout(timeoutSeconds) * SECOND
    ensures 0 < k < |attempts|
    ensures ReplyTo(k, attempts[k], timeoutSeconds, retrySeconds).setDrainStuck
    ensures forall j | 0 <= j < k :: !ReplyTo(j, attempts[j], timeoutSeconds, retrySeconds).setDrainStuck
    ensures attempts[k] < (EffectiveTimeout(timeoutSeconds) + 10) * SECOND
  {
    var deadline := EffectiveTimeout(timeoutSeconds) * SECOND;
    k := 0;
    while attempts[k] < deadline
      invariant 0 <= k < |attempts|
      invariant forall j | 0 <= j < k :: attempts[j] < deadline
      decreases |attempts| - k
    {
      k := k + 1;
    }
    if k - 1 > 0 {
      RetryReply(0, attempts[k - 1], timeoutSeconds, retrySeconds);
    }
  }

  /** The elapsed time at attempt `k` when every retry is made exactly when asked. */
  function Elapsed(k: nat, first: int, timeoutSeconds: int, retrySeconds: int): int
  {
    if k == 0 then first
    else
      var e := Elapsed(k - 1, first, timeoutSeconds, retrySeconds);
      e + ReplyTo(k - 1, e, timeoutSeconds, retrySeconds).requeueAfter
  }

  lemma {:induction false} ElapsedGrows(k: nat, first: int, timeoutSeconds: int)
    requires 0 <= first
    ensures var e := Elapsed(k, first, timeoutSeconds, 0);
      e >= EffectiveTimeout(timeoutSeconds) * SECOND || e >= k * CalculateRetryInterval(timeoutSeconds, 0)
  {
    if k > 0 {
      ElapsedGrows(k - 1, first, timeoutSeconds);
      var d := CalculateRetryInterval(timeoutSeconds, 0);
      assert k * d == (k - 1) * d + d;
    }
  }

  /** With the automatic interval, 13 requeues reach the timeout. */
  lemma ThirteenRequeues(first: int, timeoutSeconds: int)
    requires 0 <= first
    ensures ReplyTo(13, Elapsed(13, first, timeoutSeconds, 0), timeoutSeconds, 0).setDrainStuck
  {
    ElapsedGrows(12, first, timeoutSeconds);
    var e := Elapsed(12, first, timeoutSeconds, 0);
    var timeout := EffectiveTimeout(timeoutSeconds) * SECOND;
    assert 12 * CalculateRetryInterval(timeoutSeconds, 0) > timeout - 12 * SECOND;
    assert Elapsed(13, first, timeoutSeconds, 0) == e + ReplyTo(12, e, timeoutSeconds, 0).requeueAfter;
    if e < timeout {
      assert timeout - e <= 12 * SECOND;
    }
  }
}
