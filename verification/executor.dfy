/** `make_request`: one probe with bounded retries and linear backoff. The HTTP
    client is replaced by the sequence of what each attempt would observe. */
module Executor {
  import opened Results

  /** What one attempt observes: a response (any status), or a transport error or
      timeout. */
  datatype Attempt =
    | Response(status: int, contentLength: Option<nat>)
    | Failed(error: string)

  /** `(url, status, content_length)`. */
  datatype Reply<U> = Reply(url: U, status: int, contentLength: nat)

  /** The outcome of `make_request`, the sleeps (in milliseconds) it performed and
      how many attempts it made. */
  datatype Execution<U> = Execution(result: Result<Reply<U>, string>, sleeps: seq<nat>, attempts: nat)

  /** The first `k` backoff sleeps: 100 ms, 200 ms, ... */
  function Backoff(k: nat): (r: seq<nat>)
    ensures |r| == k
    ensures forall i :: 0 <= i < k ==> r[i] == 100 * (i + 1)
  {
    if k == 0 then [] else Backoff(k - 1) + [100 * k]
  }

  /** The index of the first response among the first `n` attempts, if any. */
  function FirstResponse(outcomes: seq<Attempt>, n: nat): (r: Option<nat>)
    requires n <= |outcomes|
    ensures r.None? <==> forall j :: 0 <= j < n ==> outcomes[j].Failed?
    ensures r.Some? ==> r.value < n && outcomes[r.value].Response?
    ensures r.Some? ==> forall j :: 0 <= j < r.value ==> outcomes[j].Failed?
  {
    if n == 0 then None
    else
      match FirstResponse(outcomes, n - 1)
      case Some(i) => Some(i)
      case None => if outcomes[n - 1].Response? then Some(n - 1) else None
  }

  /** What `make_request` does with `max_retries` and these attempt outcomes. */
  function Execute<U>(url: U, maxRetries: nat, outcomes: seq<Attempt>): (e: Execution<U>)
    requires |outcomes| > maxRetries
    ensures 1 <= e.attempts <= maxRetries + 1
    ensures forall j :: 0 <= j < e.attempts - 1 ==> outcomes[j].Failed?
    ensures e.sleeps == Backoff(e.attempts - 1)
    ensures e.result.Success? <==> outcomes[e.attempts - 1].Response?
    ensures e.result.Success? ==>
      var o := outcomes[e.attempts - 1];
      e.result.value == Reply(url, o.status, o.contentLength.GetOr(0))
    ensures e.result.Failure? ==>
      e.attempts == maxRetries + 1 && e.result.error == outcomes[maxRetries].error
  {
    match FirstResponse(outcomes, maxRetries + 1)
    case Some(i) =>
      Execution(Success(Reply(url, outcomes[i].status, outcomes[i].contentLength.GetOr(0))),
                Backoff(i), i + 1)
    case None =>
      Execution(Failure(outcomes[maxRetries].error), Backoff(maxRetries), maxRetries + 1)
  }

  /** `make_request`: for attempt 0..=max_retries, return on the first response;
      otherwise remember the error and, unless this was the last attempt, sleep
      100 * (attempt + 1) ms. When every attempt failed, the last error is returned. */
  method MakeRequest<U>(url: U, maxRetries: nat, outcomes: seq<Attempt>)
      returns (result: Result<Reply<U>, string>, sleeps: seq<nat>, attempts: nat)
    requires |outcomes| > maxRetries
    ensures Execution(result, sleeps, attempts) == Execute(url, maxRetries, outcomes)
  {
    var lastError: Option<string> := None;
    sleeps, attempts := [], 0;
    for attempt := 0 to maxRetries + 1
      invariant attempts == attempt
      invariant forall j :: 0 <= j < attempt ==> outcomes[j].Failed?
      invariant sleeps == Backoff(if attempt <= maxRetries then attempt else maxRetries)
      invariant attempt > 0 ==> lastError == Some(outcomes[attempt - 1].error)
    {
      attempts := attempts + 1;
      match outcomes[attempt]
      case Response(status, contentLength) =>
        result := Success(Reply(url, status, contentLength.GetOr(0)));
        return;
      case Failed(e) => {
        lastError := Some(e);
        if attempt < maxRetries {
          sleeps := sleeps + [100 * (attempt + 1)];
        }
      }
    }
    result := Failure(lastError.GetOr("All retry attempts failed"));
  }

  function TotalSleep(sleeps: seq<nat>): nat {
    if sleeps == [] then 0 else TotalSleep(sleeps[..|sleeps| - 1]) + sleeps[|sleeps| - 1]
  }

  /** The backoff sleeps of `k` failed attempts add up to 50 k (k + 1) ms. */
  lemma {:induction false} BackoffTotal(k: nat)
    ensures TotalSleep(Backoff(k)) == 50 * k * (k + 1)
  {
    if k > 0 {
      BackoffTotal(k - 1);
      assert Backoff(k)[..k - 1] == Backoff(k - 1);
      assert TotalSleep(Backoff(k)) == TotalSleep(Backoff(k - 1)) + 100 * k;
      assert 50 * (k - 1) * k + 100 * k == 50 * k * (k + 1) by {
        assert 50 * (k - 1) * k == 50 * k * k - 50 * k;
        assert 50 * k * (k + 1) == 50 * k * k + 50 * k;
      }
    }
  }

  /** With the configured two retries and every attempt failing: three attempts,
      sleeps of 100 ms and 200 ms, and the third attempt's error. */
  lemma AllAttemptsFail<U>(url: U, outcomes: seq<Attempt>)
    requires |outcomes| == 3
    requires forall j :: 0 <= j < 3 ==> outcomes[j].Failed?
    ensures var e := Execute(url, 2, outcomes);
      e.attempts == 3 && e.sleeps == [100, 200] && e.result == Failure(outcomes[2].error)
  {
    var e := Execute(url, 2, outcomes);
    assert e.result.Failure?;
    assert e.sleeps == Backoff(2);
  }
}
