/**
 * The backoff executor `retryWithBackoff` of src/fetch.ts.
 *
 * The fallible operation is modelled by the finite script of outcomes its
 * successive calls produce; `sleep` and the optional `onFailure` callback are
 * modelled by the effects they leave in a trace.
 */
module Backoff {
  import opened Common

  /** `RetryConfig`: delays are whole milliseconds, the factor a natural number. */
  datatype RetryConfig = RetryConfig(initialDelayMS: nat, maxRetries: int, backoffFactor: nat)

  /** `defaultRetryConfig`: start at one second, never give up, double each time. */
  const DefaultRetryConfig := RetryConfig(1000, -1, 2)

  /** The outcome of one call of the operation: it rejects or resolves. */
  datatype Attempt<+T> = Failed(reason: string) | Succeeded(value: T)

  /** What one step of the loop does that an observer can see. */
  datatype Effect = Execute | OnFailure(reason: string) | Sleep(ms: nat)

  function Pow(b: nat, n: nat): nat
  {
    if n == 0 then 1 else b * Pow(b, n - 1)
  }

  /** The loop guard is false once `n` attempts have failed. */
  predicate Exhausted(config: RetryConfig, n: nat)
  {
    config.maxRetries != -1 && n >= config.maxRetries
  }

  /** How many calls an always-failing operation gets when `maxRetries` is not -1. */
  function Limit(config: RetryConfig): nat
  {
    if config.maxRetries < 0 then 0 else config.maxRetries
  }

  /** Index of the first call that succeeds, or the script's length when none does. */
  function FirstSuccess<T>(attempts: seq<Attempt<T>>): (k: nat)
    ensures k <= |attempts|
    ensures forall i :: 0 <= i < k ==> attempts[i].Failed?
    ensures k < |attempts| ==> attempts[k].Succeeded?
  {
    if attempts == [] then 0
    else if attempts[0].Succeeded? then 0
    else 1 + FirstSuccess(attempts[1..])
  }

  predicate AllFailed<T>(attempts: seq<Attempt<T>>)
  {
    forall i :: 0 <= i < |attempts| ==> attempts[i].Failed?
  }

  /**
   * The script answers every call the loop can make: some call succeeds, or the
   * retry budget is finite and no longer than the script.  With `maxRetries`
   * equal to -1 and no success the loop never ends, which no finite script can
   * describe.
   */
  predicate Answers<T>(attempts: seq<Attempt<T>>, config: RetryConfig)
  {
    FirstSuccess(attempts) < |attempts| || (config.maxRetries != -1 && config.maxRetries <= |attempts|)
  }

  /** Effects of the failed call number `k` (counting from 0). */
  function FailureEffects(reason: string, k: nat, hasOnFailure: bool, config: RetryConfig): seq<Effect>
  {
    [Execute]
    + (if hasOnFailure then [OnFailure(reason)] else [])
    + [Sleep(Delay(config, k))]
  }

  /** Effects of a run of failed calls, the first one being call number 0. */
  function FailureTrace<T>(failed: seq<Attempt<T>>, hasOnFailure: bool, config: RetryConfig): seq<Effect>
    requires AllFailed(failed)
  {
    if failed == [] then []
    else
      var n := |failed| - 1;
      FailureTrace(failed[..n], hasOnFailure, config) + FailureEffects(failed[n].reason, n, hasOnFailure, config)
  }

  /**
   * What `retryWithBackoff` returns and the effects it leaves, in closed form:
   * every call before the first success fails, each failure is reported and
   * followed by a sleep of `initialDelayMS * backoffFactor^k`; the first success
   * ends the loop unless the budget ran out before it.
   */
  function Retry<T>(attempts: seq<Attempt<T>>, hasOnFailure: bool, config: RetryConfig): (Option<T>, seq<Effect>)
    requires Answers(attempts, config)
  {
    var k := FirstSuccess(attempts);
    if k < |attempts| && !Exhausted(config, k) then
      (Some(attempts[k].value), FailureTrace(attempts[..k], hasOnFailure, config) + [Execute])
    else
      (None, FailureTrace(attempts[..Limit(config)], hasOnFailure, config))
  }

  /** The delay slept after the failed call number `k`. */
  function Delay(config: RetryConfig, k: nat): nat
  {
    config.initialDelayMS * Pow(config.backoffFactor, k)
  }

  lemma DelayGrows(config: RetryConfig, k: nat)
    ensures Delay(config, k + 1) == Delay(config, k) * config.backoffFactor
  {
  }

  lemma FailureTraceStep<T>(attempts: seq<Attempt<T>>, n: nat, hasOnFailure: bool, config: RetryConfig)
    requires n < |attempts| && AllFailed(attempts[..n + 1])
    ensures AllFailed(attempts[..n])
    ensures FailureTrace(attempts[..n + 1], hasOnFailure, config)
      == FailureTrace(attempts[..n], hasOnFailure, config) + FailureEffects(attempts[n].reason, n, hasOnFailure, config)
  {
    assert attempts[..n + 1][..n] == attempts[..n];
  }

  /** The effects of a failed call, pushed one at a time as the loop does. */
  lemma FailureEffectsPushed(trace: seq<Effect>, reason: string, k: nat, hasOnFailure: bool, config: RetryConfig)
    ensures trace + FailureEffects(reason, k, hasOnFailure, config)
      == if hasOnFailure then trace + [Execute] + [OnFailure(reason)] + [Sleep(Delay(config, k))]
         else trace + [Execute] + [Sleep(Delay(config, k))]
  {
  }

  /** `retryWithBackoff(execute, onFailure, config)`. */
  method RetryWithBackoff<T>(attempts: seq<Attempt<T>>, hasOnFailure: bool, config: RetryConfig)
    returns (result: Option<T>, trace: seq<Effect>)
    requires Answers(attempts, config)
    ensures (result, trace) == Retry(attempts, hasOnFailure, config)
  {
    var retryDelay := config.initialDelayMS;
    var numRetries: nat := 0;
    trace := [];
    while config.maxRetries == -1 || numRetries < config.maxRetries
      invariant numRetries <= FirstSuccess(attempts)
      invariant config.maxRetries == -1 || numRetries <= Limit(config)
      invariant retryDelay == Delay(config, numRetries)
      invariant trace == FailureTrace(attempts[..numRetries], hasOnFailure, config)
      decreases |attempts| - numRetries
    {
      assert numRetries < |attempts|;
      trace := trace + [Execute];
      match attempts[numRetries]
      case Succeeded(v) =>
        assert numRetries == FirstSuccess(attempts);
        result := Some(v);
        return;
      case Failed(e) =>
        if hasOnFailure {
          trace := trace + [OnFailure(e)];
        }
        trace := trace + [Sleep(retryDelay)];
        FailureEffectsPushed(FailureTrace(attempts[..numRetries], hasOnFailure, config), e, numRetries, hasOnFailure, config);
        FailureTraceStep(attempts, numRetries, hasOnFailure, config);
        DelayGrows(config, numRetries);
        retryDelay := retryDelay * config.backoffFactor;
        numRetries := numRetries + 1;
    }
    assert numRetries == Limit(config);
    result := None;
  }

  /** Number of calls of the operation recorded in a trace. */
  function Executions(trace: seq<Effect>): nat
  {
    if trace == [] then 0
    else Executions(trace[..|trace| - 1]) + (if trace[|trace| - 1] == Execute then 1 else 0)
  }

  lemma {:induction false} ExecutionsAppend(a: seq<Effect>, b: seq<Effect>)
    ensures Executions(a + b) == Executions(a) + Executions(b)
    decreases |b|
  {
    if b != [] {
      var n := |b| - 1;
      assert (a + b)[..|a + b| - 1] == a + b[..n];
      ExecutionsAppend(a, b[..n]);
    } else {
      assert a + b == a;
    }
  }

  /** Each failed call makes exactly one call of the operation. */
  lemma {:induction false} FailureTraceExecutions<T>(failed: seq<Attempt<T>>, hasOnFailure: bool, config: RetryConfig)
    requires AllFailed(failed)
    ensures Executions(FailureTrace(failed, hasOnFailure, config)) == |failed|
    decreases |failed|
  {
    if failed != [] {
      var n := |failed| - 1;
      FailureTraceExecutions(failed[..n], hasOnFailure, config);
      var e := FailureEffects(failed[n].reason, n, hasOnFailure, config);
      ExecutionsAppend(FailureTrace(failed[..n], hasOnFailure, config), e);
      ExecutionsAppend([Execute], e[1..]);
      assert e == [Execute] + e[1..];
      if hasOnFailure {
        ExecutionsAppend(e[1..2], e[2..]);
        assert e[1..] == e[1..2] + e[2..];
      }
    }
  }

  /** Number of effects one failed call leaves. */
  function Width(hasOnFailure: bool): nat
  {
    if hasOnFailure then 3 else 2
  }

  /**
   * The trace of `n` failed calls is `n` blocks of equal width; block `j` is
   * the call, then (when a callback is given) the report of its error, then the
   * sleep of `initialDelayMS * backoffFactor^j` milliseconds.
   */
  lemma {:induction false} FailureTraceBlocks<T>(failed: seq<Attempt<T>>, hasOnFailure: bool, config: RetryConfig, j: nat)
    requires AllFailed(failed)
    requires j < |failed|
    ensures |FailureTrace(failed, hasOnFailure, config)| == |failed| * Width(hasOnFailure)
    ensures var w := Width(hasOnFailure);
      FailureTrace(failed, hasOnFailure, config)[j * w .. j * w + w]
        == FailureEffects(failed[j].reason, j, hasOnFailure, config)
    decreases |failed|
  {
    var n := |failed| - 1;
    var w := Width(hasOnFailure);
    var prefix := FailureTrace(failed[..n], hasOnFailure, config);
    var last := FailureEffects(failed[n].reason, n, hasOnFailure, config);
    assert |last| == w;
    if n == 0 {
      assert prefix == [];
    } else {
      FailureTraceBlocks(failed[..n], hasOnFailure, config, if j < n then j else 0);
      assert |prefix| == n * w;
    }
    assert |prefix + last| == |failed| * w;
    if j < n {
      assert j * w + w <= n * w;
      assert (prefix + last)[j * w .. j * w + w] == prefix[j * w .. j * w + w];
    } else {
      assert j * w == |prefix|;
      assert (prefix + last)[j * w .. j * w + w] == last;
    }
  }

  /**
   * Once a call succeeds within the budget its value is returned, the
   * operation has been called exactly `k + 1` times, and that successful call
   * is the last thing the loop did.
   */
  lemma SuccessEndsTheLoop<T>(attempts: seq<Attempt<T>>, hasOnFailure: bool, config: RetryConfig)
    requires Answers(attempts, config)
    requires FirstSuccess(attempts) < |attempts| && !Exhausted(config, FirstSuccess(attempts))
    ensures var k := FirstSuccess(attempts);
      var (result, trace) := Retry(attempts, hasOnFailure, config);
      result == Some(attempts[k].value)
      && Executions(trace) == k + 1
      && trace[|trace| - 1] == Execute
  {
    var k := FirstSuccess(attempts);
    FailureTraceExecutions(attempts[..k], hasOnFailure, config);
    ExecutionsAppend(FailureTrace(attempts[..k], hasOnFailure, config), [Execute]);
    assert Executions([Execute]) == 1 by {
      assert [Execute][..0] == [];
    }
  }

  /**
   * An operation that always fails, under `maxRetries = N >= 0`, is called
   * exactly `N` times and the result is `undefined`; with `N = 0` nothing at
   * all happens.
   */
  lemma AlwaysFailingIsCalledMaxRetriesTimes<T>(attempts: seq<Attempt<T>>, hasOnFailure: bool, config: RetryConfig)
    requires AllFailed(attempts)
    requires 0 <= config.maxRetries <= |attempts|
    ensures Answers(attempts, config)
    ensures var (result, trace) := Retry(attempts, hasOnFailure, config);
      result == None
      && Executions(trace) == config.maxRetries
      && (config.maxRetries == 0 ==> trace == [])
  {
    FailureTraceExecutions(attempts[..config.maxRetries], hasOnFailure, config);
  }

  /**
   * Under the default configuration the executor never gives up: when it
   * returns, it returns the value of the first successful call.
   */
  lemma DefaultConfigNeverGivesUp<T>(attempts: seq<Attempt<T>>, hasOnFailure: bool)
    requires Answers(attempts, DefaultRetryConfig)
    ensures FirstSuccess(attempts) < |attempts|
    ensures Retry(attempts, hasOnFailure, DefaultRetryConfig).0 == Some(attempts[FirstSuccess(attempts)].value)
  {
  }
}
