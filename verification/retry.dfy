/** The retry policy the three Jina API calls are decorated with
    (api_doc_generator/scraper.py:52-56, 89-93, 128-132): tenacity's
    `@retry(stop=stop_after_attempt(3),
    wait=wait_exponential(multiplier=1, min=4, max=10),
    retry=retry_if_exception_type((httpx.RequestError, JinaAPIError)))`
    without `reraise`. Inside each decorated call every failure surfaces as
    one of those two exception types (an `httpx.RequestError` is re-raised,
    anything else is wrapped in `JinaAPIError`), so every failed attempt is
    retried until the third, after which tenacity raises its own
    `RetryError`. The outcome of attempt `n` of a call is given by an
    oracle, and the sleeps are recorded instead of taken. */
module Retry {

  /** The exception a single attempt raises. */
  datatype ApiError = RequestError(message: string) | JinaApiError(message: string)

  /** The outcome of one attempt. */
  datatype Attempt<T> = Answer(value: T) | Raise(error: ApiError)

  /** The outcome of a decorated call: its value and the sleeps taken
      before it, or tenacity's `RetryError` carrying the last attempt's
      exception. */
  datatype Retried<T> =
    | Succeeded(value: T, attempts: nat, waits: seq<nat>)
    | GaveUp(lastError: ApiError, waits: seq<nat>)

  /** `stop_after_attempt(3)`. */
  const MaxAttempts: nat := 3

  function Pow2(n: nat): (p: nat)
    ensures p >= 1
  {
    if n == 0 then 1 else 2 * Pow2(n - 1)
  }

  /** `wait_exponential(multiplier=1, min=4, max=10)` after attempt `n`:
      `max(4, min(2 ** (n - 1), 10))` seconds. */
  function WaitAfter(n: nat): (w: nat)
    requires n >= 1
    ensures 4 <= w <= 10
  {
    var e := Pow2(n - 1);
    var capped := if e < 10 then e else 10;
    if capped < 4 then 4 else capped
  }

  /** Attempts `n`, `n + 1`, ... up to the third, sleeping after each
      failure that is not the last. */
  function RetryFrom<T>(call: nat -> Attempt<T>, n: nat, waits: seq<nat>): (r: Retried<T>)
    requires 1 <= n <= MaxAttempts
    decreases MaxAttempts - n
  {
    match call(n)
    case Answer(v) => Succeeded(v, n, waits)
    case Raise(e) =>
      if n == MaxAttempts then GaveUp(e, waits)
      else RetryFrom(call, n + 1, waits + [WaitAfter(n)])
  }

  /** A decorated call: `call(n)` is what attempt `n` does. */
  function CallWithRetry<T>(call: nat -> Attempt<T>): (r: Retried<T>)
    ensures r.Succeeded? ==>
              && 1 <= r.attempts <= MaxAttempts
              && call(r.attempts) == Answer(r.value)
              && (forall n :: 1 <= n < r.attempts ==> call(n).Raise?)
              && |r.waits| == r.attempts - 1
    ensures r.GaveUp? <==> (forall n :: 1 <= n <= MaxAttempts ==> call(n).Raise?)
    ensures r.GaveUp? ==> call(MaxAttempts) == Raise(r.lastError) && |r.waits| == MaxAttempts - 1
    ensures forall i :: 0 <= i < |r.waits| ==> r.waits[i] == WaitAfter(i + 1)
  {
    RetryFromSpec(call, 1, []);
    RetryFrom(call, 1, [])
  }

  /** What `RetryFrom` returns, in terms of the attempts' outcomes. */
  lemma {:induction false} RetryFromSpec<T>(call: nat -> Attempt<T>, n: nat, waits: seq<nat>)
    requires 1 <= n <= MaxAttempts
    requires |waits| == n - 1
    requires forall i :: 0 <= i < |waits| ==> waits[i] == WaitAfter(i + 1)
    decreases MaxAttempts - n
    ensures var r := RetryFrom(call, n, waits);
      && (r.Succeeded? ==>
            && n <= r.attempts <= MaxAttempts
            && call(r.attempts) == Answer(r.value)
            && (forall m :: n <= m < r.attempts ==> call(m).Raise?)
            && |r.waits| == r.attempts - 1)
      && (r.GaveUp? <==> (forall m :: n <= m <= MaxAttempts ==> call(m).Raise?))
      && (r.GaveUp? ==> call(MaxAttempts) == Raise(r.lastError) && |r.waits| == MaxAttempts - 1)
      && (forall i :: 0 <= i < |r.waits| ==> r.waits[i] == WaitAfter(i + 1))
  {
    if call(n).Raise? && n < MaxAttempts {
      var w := waits + [WaitAfter(n)];
      assert forall i :: 0 <= i < |w| ==> w[i] == WaitAfter(i + 1);
      RetryFromSpec(call, n + 1, w);
    }
  }

  /** The two sleeps tenacity takes before giving up are four seconds each:
      the exponential backoff never rises above its minimum within three
      attempts. */
  lemma WaitsBeforeGivingUp()
    ensures WaitAfter(1) == 4 && WaitAfter(2) == 4
  {
  }

  /** The backoff never shrinks from one attempt to the next, and reaches
      its cap from the fifth attempt on. */
  lemma {:induction false} WaitGrows(m: nat, n: nat)
    requires 1 <= m <= n
    ensures WaitAfter(m) <= WaitAfter(n)
    ensures n >= 5 ==> WaitAfter(n) == 10
  {
    Pow2Monotone(m - 1, n - 1);
    if n >= 5 {
      Pow2Monotone(4, n - 1);
    }
  }

  lemma {:induction false} Pow2Monotone(a: nat, b: nat)
    requires a <= b
    ensures Pow2(a) <= Pow2(b)
  {
    if a < b {
      Pow2Monotone(a, b - 1);
    }
  }

  /** A call that answers at once takes no sleep; a call that always fails
      is attempted exactly three times and sleeps four seconds twice. */
  lemma RetryExtremes<T>(call: nat -> Attempt<T>)
    ensures call(1).Answer? ==> CallWithRetry(call) == Succeeded(call(1).value, 1, [])
    ensures (forall n :: 1 <= n <= MaxAttempts ==> call(n).Raise?) ==>
              CallWithRetry(call) == GaveUp(call(3).error, [4, 4])
  {
    var r := CallWithRetry(call);
    if r.GaveUp? {
      WaitsBeforeGivingUp();
      assert r.waits == [4, 4];
    }
  }
}
