/**
 * The control flow of `call_gemini_api` (app.py:13-27): a bounded retry loop
 * over the responses of a remote generation endpoint.
 *
 * The network is a `Transport`: the response the endpoint gives to attempt
 * number `k` (counting from 0). Sleeping is counted, not timed. Reaching the
 * end of the loop is the terminal failure that `st.stop()` turns into a halt
 * of the current action.
 */
module ApiClient {

  /** The default number of attempts (app.py:13). */
  const DefaultRetries: int := 5

  /** The status the endpoint uses to report an exhausted quota (app.py:18). */
  const QuotaExhausted: int := 429

  /** One HTTP response: its status code and its raw body. */
  datatype Response = Response(status: int, body: string)

  /**
   * `response.ok` of the HTTP library: false exactly for the client and
   * server error classes 400-599.
   */
  predicate IsOk(resp: Response) {
    !(400 <= resp.status < 600)
  }

  /** The response the endpoint gives to each attempt of one call. */
  type Transport = nat -> Response

  /**
   * How one call ended. `Returned` carries the body of the ok response;
   * `Exhausted` carries the last body seen (`last_response_text`). Both
   * report how many requests were posted and how many waits were made.
   */
  datatype CallOutcome =
    | Returned(body: string, attempts: nat, sleeps: nat)
    | Exhausted(lastBody: string, attempts: nat, sleeps: nat)

  /** The attempt number `k` is the first ok response of `post`. */
  ghost predicate FirstOkAt(post: Transport, k: nat) {
    IsOk(post(k)) && forall j | 0 <= j < k :: !IsOk(post(j))
  }

  /** The number of iterations of `range(retries)`. */
  function Attempts(retries: int): nat {
    if retries < 0 then 0 else retries
  }

  /**
   * The loop from iteration `attempt` on, having seen `last` and slept
   * `sleeps` times. Iterations `attempt` and later either all fail, or the
   * first ok one among them ends the loop.
   */
  function RetryFrom(post: Transport, attempt: nat, retries: nat, last: string, sleeps: nat): (r: CallOutcome)
    requires attempt <= retries
    ensures attempt <= r.attempts <= retries
    ensures forall j | attempt <= j < r.attempts - 1 :: !IsOk(post(j))
    ensures r.Returned? ==>
      && attempt < r.attempts
      && IsOk(post(r.attempts - 1))
      && r.body == post(r.attempts - 1).body
      && r.sleeps == sleeps + (r.attempts - 1 - attempt)
    ensures r.Exhausted? ==>
      && r.attempts == retries
      && r.sleeps == sleeps + (retries - attempt)
      && (forall j | attempt <= j < retries :: !IsOk(post(j)))
      && r.lastBody == (if attempt == retries then last else post(retries - 1).body)
    decreases retries - attempt
  {
    if attempt == retries then
      Exhausted(last, attempt, sleeps)
    else
      var resp := post(attempt);
      if resp.status == QuotaExhausted then
        // quota exhausted: wait `delay` seconds and try again
        RetryFrom(post, attempt + 1, retries, resp.body, sleeps + 1)
      else if !IsOk(resp) then
        // any other failure: wait the same delay and try again
        RetryFrom(post, attempt + 1, retries, resp.body, sleeps + 1)
      else
        Returned(resp.body, attempt + 1, sleeps)
  }

  /**
   * `call_gemini_api(payload, retries)`: the first ok response among the
   * first `retries` attempts is returned after one wait per earlier attempt;
   * if there is none, every attempt is made, each followed by a wait, and
   * the call fails with the last body seen (empty when no attempt is made).
   */
  function CallGeminiApi(post: Transport, retries: int): (r: CallOutcome)
    ensures r.Returned? <==> exists k | 0 <= k < Attempts(retries) :: IsOk(post(k))
    ensures r.Returned? ==>
      && 1 <= r.attempts <= Attempts(retries)
      && FirstOkAt(post, r.attempts - 1)
      && r.body == post(r.attempts - 1).body
      && r.sleeps == r.attempts - 1
    ensures r.Exhausted? ==>
      && r.attempts == r.sleeps == Attempts(retries)
      && r.lastBody == (if retries <= 0 then "" else post(retries - 1).body)
  {
    RetryFrom(post, 0, Attempts(retries), "", 0)
  }

  /** A first ok response at attempt `k` is returned after exactly `k + 1` attempts and `k` waits. */
  lemma RetrySucceedsAtFirstOk(post: Transport, retries: int, k: nat)
    requires k < retries
    requires FirstOkAt(post, k)
    ensures CallGeminiApi(post, retries) == Returned(post(k).body, k + 1, k)
  {
    assert IsOk(post(k));
  }

  /**
   * When none of the first `retries` responses is ok, the call posts exactly
   * `retries` requests, waits after each, and fails with the last body.
   */
  lemma RetryExhaustsWithoutOk(post: Transport, retries: int)
    requires forall j | 0 <= j < retries :: !IsOk(post(j))
    ensures CallGeminiApi(post, retries) ==
      Exhausted(if retries <= 0 then "" else post(retries - 1).body, Attempts(retries), Attempts(retries))
  {
  }

  /**
   * The call never looks past attempt `retries - 1`, and it only tells
   * statuses apart by whether they are ok: a 429 and any other failing
   * status take the same path. Two endpoints that agree on okness and body
   * for the first `retries` attempts give the same outcome.
   */
  lemma RetryDependsOnlyOnOkAndBody(p1: Transport, p2: Transport, retries: int)
    requires forall j | 0 <= j < retries :: IsOk(p1(j)) == IsOk(p2(j)) && p1(j).body == p2(j).body
    ensures CallGeminiApi(p1, retries) == CallGeminiApi(p2, retries)
  {
    var r1, r2 := CallGeminiApi(p1, retries), CallGeminiApi(p2, retries);
    if r1.Returned? {
      assert IsOk(p2(r1.attempts - 1));
    }
    if r2.Returned? {
      assert IsOk(p1(r2.attempts - 1));
    }
  }

  /** The retry loop of the default call on an endpoint that answers 429 four times and then succeeds. */
  lemma FourQuotaErrorsThenSuccess(okBody: string, quotaBody: string)
    ensures CallGeminiApi(k => if k < 4 then Response(QuotaExhausted, quotaBody) else Response(200, okBody), DefaultRetries)
      == Returned(okBody, 5, 4)
  {
    var post: Transport := k => if k < 4 then Response(QuotaExhausted, quotaBody) else Response(200, okBody);
    RetrySucceedsAtFirstOk(post, DefaultRetries, 4);
  }

  /** Five 429 answers exhaust the default call: five attempts, no sixth. */
  lemma FiveQuotaErrorsExhaust(quotaBody: string)
    ensures CallGeminiApi(k => Response(QuotaExhausted, quotaBody), DefaultRetries)
      == Exhausted(quotaBody, 5, 5)
  {
  }

  /** With no retries allowed the call fails at once with an empty body. */
  lemma ZeroRetriesFailAtOnce(post: Transport)
    ensures CallGeminiApi(post, 0) == Exhausted("", 0, 0)
  {
  }
}
