/** The browser-side API client: response classification into `ApiError`s,
    the retry wrapper with its doubling delay, and the service calls that go
    through it. A fetch is abstracted as a function from the attempt number
    to the response that attempt receives; waiting is a returned list of
    delays. */
module ApiClient {
  import opened Text

  // ---------------------------------------------------------------- errors

  /** What an attempt can throw: an `ApiError` carrying an HTTP status, any
      other `Error` (a network failure, an abort, a JSON syntax error), or a
      thrown value that is not an `Error` at all. */
  datatype Failure = ApiError(status: int, message: string) | OtherError(message: string) | NotAnError

  datatype Attempt<T> = Ok(value: T) | Threw(error: Failure)

  /** `error instanceof ApiError && error.status >= 500`. */
  predicate Retryable(e: Failure) {
    e.ApiError? && e.status >= 500
  }

  predicate RetryableAttempt<T>(a: Attempt<T>) {
    a.Threw? && Retryable(a.error)
  }

  // ---------------------------------------------------------------- responses

  /** A response body: not parsable as JSON, or a JSON value with its
      optional `message` member and the payload it decodes to. */
  datatype Body<T> = NotJson | Json(message: Option<string>, data: T)

  datatype Response<T> = Response(ok: bool, status: nat, statusText: string, body: Body<T>)

  const NetworkErrorMessage := "Network error occurred"

  /** The message of the `ApiError` thrown for a failed response. */
  function ErrorMessage<T>(r: Response<T>): (m: string)
    ensures r.body.NotJson? ==> m == NetworkErrorMessage
    ensures r.body.Json? && Truthy(r.body.message) ==> m == r.body.message.value
    ensures r.body.Json? && !Truthy(r.body.message) ==>
      m == "HTTP " + NatToString(r.status) + ": " + r.statusText
  {
    var message := if r.body.NotJson? then Some(NetworkErrorMessage) else r.body.message;
    if Truthy(message) then message.value
    else "HTTP " + NatToString(r.status) + ": " + r.statusText
  }

  /** `handleResponse`: a failed response throws an `ApiError` with its
      status; a successful one yields its decoded body, and a body that is
      not JSON throws a non-API error. */
  function HandleResponse<T>(r: Response<T>): (a: Attempt<T>)
    ensures !r.ok ==> a == Threw(ApiError(r.status, ErrorMessage(r)))
    ensures r.ok && r.body.Json? ==> a == Ok(r.body.data)
    ensures r.ok && r.body.NotJson? ==> a.Threw? && a.error.OtherError?
  {
    if !r.ok then Threw(ApiError(r.status, ErrorMessage(r)))
    else if r.body.NotJson? then Threw(OtherError("Unexpected token in JSON"))
    else Ok(r.body.data)
  }

  /** The retry predicate seen through the classification: exactly the
      failed responses with a 5xx status are retried. */
  lemma {:induction false} RetryableResponse<T>(r: Response<T>)
    ensures RetryableAttempt(HandleResponse(r)) <==> !r.ok && r.status >= 500
  {
  }

  // ---------------------------------------------------------------- retrying

  function Pow2(n: nat): nat {
    if n == 0 then 1 else 2 * Pow2(n - 1)
  }

  lemma {:induction false} DoubledDelay(delay: int, i: nat)
    ensures (delay * 2) * Pow2(i) == delay * Pow2(i + 1)
  {
    assert Pow2(i + 1) == 2 * Pow2(i);
  }

  /** The waits of a run started with twice the delay, behind one wait of
      the delay itself, are the doubling waits of the delay. */
  lemma {:induction false} PrependDelay(delay: int, w: seq<int>)
    requires forall i :: 0 <= i < |w| ==> w[i] == (delay * 2) * Pow2(i)
    ensures forall i :: 0 <= i < |[delay] + w| ==> ([delay] + w)[i] == delay * Pow2(i)
  {
    var waits := [delay] + w;
    forall i | 0 <= i < |waits| ensures waits[i] == delay * Pow2(i) {
      if i > 0 {
        assert waits[i] == w[i - 1];
        DoubledDelay(delay, i - 1);
      }
    }
  }

  function Max(a: int, b: int): int { if a < b then b else a }

  /** What a run of the wrapper did: its final outcome, how many attempts it
      made, and the delays it waited between them. */
  datatype Run<T> = Run(result: Attempt<T>, calls: nat, waits: seq<int>)

  /** `withRetry(fn, retries, delay)` starting at attempt `k`: the recursive
      definition, a further attempt after a retryable error while retries
      remain, the delay doubling each time. */
  function Retry<T>(attempt: nat -> Attempt<T>, k: nat, retries: int, delay: int): (o: Run<T>)
    decreases Max(retries, 0)
  {
    var a := attempt(k);
    if retries > 0 && RetryableAttempt(a) then
      var rest := Retry(attempt, k + 1, retries - 1, delay * 2);
      Run(rest.result, rest.calls + 1, [delay] + rest.waits)
    else Run(a, 1, [])
  }

  /** What a run does: at least one attempt and at most one more than the
      retries; it returns the last attempt's outcome; every earlier attempt
      threw a retryable error; it stopped on a non-retryable outcome or with
      the retries used up; and before the `i`-th retry it waited
      `delay * 2^i`. */
  lemma {:induction false} RetryShape<T>(attempt: nat -> Attempt<T>, k: nat, retries: int, delay: int)
    ensures var o := Retry(attempt, k, retries, delay);
      && 1 <= o.calls <= Max(retries, 0) + 1
      && o.result == attempt(k + o.calls - 1)
      && (forall i :: k <= i < k + o.calls - 1 ==> RetryableAttempt(attempt(i)))
      && (!RetryableAttempt(o.result) || o.calls == Max(retries, 0) + 1)
      && |o.waits| == o.calls - 1
      && (forall i :: 0 <= i < |o.waits| ==> o.waits[i] == delay * Pow2(i))
    decreases Max(retries, 0)
  {
    if retries > 0 && RetryableAttempt(attempt(k)) {
      RetryShape(attempt, k + 1, retries - 1, delay * 2);
      var rest := Retry(attempt, k + 1, retries - 1, delay * 2);
      PrependDelay(delay, rest.waits);
    }
  }

  /** A successful attempt is returned unchanged and ends the run: it is the
      first success there is. */
  lemma {:induction false} FirstSuccessReturned<T>(attempt: nat -> Attempt<T>, k: nat, retries: int, delay: int, j: nat)
    requires k <= j && attempt(j).Ok?
    requires forall i :: k <= i < j ==> RetryableAttempt(attempt(i))
    requires j - k <= Max(retries, 0)
    ensures Retry(attempt, k, retries, delay) == Run(attempt(j), j - k + 1, Retry(attempt, k, retries, delay).waits)
    decreases j - k
  {
    if j > k {
      FirstSuccessReturned(attempt, k + 1, retries - 1, delay * 2, j);
    }
  }

  const DefaultRetries := 2
  const DefaultDelay := 1000

  /** With the defaults and every attempt failing with a 5xx status, there
      are three attempts, waits of 1000 and 2000, and the last error thrown. */
  lemma {:induction false} AllServerErrors<T>(attempt: nat -> Attempt<T>)
    requires forall i :: RetryableAttempt(attempt(i))
    ensures Retry(attempt, 0, DefaultRetries, DefaultDelay) == Run(attempt(2), 3, [1000, 2000])
  {
    var o := Retry(attempt, 0, DefaultRetries, DefaultDelay);
    assert o.waits[0] == 1000 && o.waits[1] == 2000;
  }

  /** The wrapper as a loop over the attempts: a counter of retries left
      stepped down, the delay stepped up. */
  method WithRetry<T>(attempt: nat -> Attempt<T>, retries: int, delay: int) returns (o: Run<T>)
    ensures o == Retry(attempt, 0, retries, delay)
  {
    var k: nat := 0;
    var left := retries;
    var d := delay;
    var waits: seq<int> := [];
    var a := attempt(0);
    while left > 0 && RetryableAttempt(a)
      invariant a == attempt(k) && |waits| == k
      invariant left == retries - k
      invariant var rest := Retry(attempt, k, left, d);
        Retry(attempt, 0, retries, delay) == Run(rest.result, rest.calls + k, waits + rest.waits)
      decreases left
    {
      var rest := Retry(attempt, k + 1, left - 1, d * 2);
      RetryStep(attempt, k, left, d);
      assert waits + ([d] + rest.waits) == (waits + [d]) + rest.waits;
      waits := waits + [d];
      k := k + 1;
      left := left - 1;
      d := d * 2;
      a := attempt(k);
    }
    RetryStop(attempt, k, left, d);
    assert waits + [] == waits;
    o := Run(a, k + 1, waits);
  }

  /** One more attempt after a retryable error while retries remain. */
  lemma {:induction false} RetryStep<T>(attempt: nat -> Attempt<T>, k: nat, retries: int, delay: int)
    requires retries > 0 && RetryableAttempt(attempt(k))
    ensures var rest := Retry(attempt, k + 1, retries - 1, delay * 2);
      Retry(attempt, k, retries, delay) == Run(rest.result, rest.calls + 1, [delay] + rest.waits)
  {
  }

  /** The run stops at a success, a non-retryable error or no retries left. */
  lemma {:induction false} RetryStop<T>(attempt: nat -> Attempt<T>, k: nat, retries: int, delay: int)
    requires !(retries > 0 && RetryableAttempt(attempt(k)))
    ensures Retry(attempt, k, retries, delay) == Run(attempt(k), 1, [])
  {
  }

  // ---------------------------------------------------------------- services

  /** The six service methods, with the arguments that reach the URL. */
  datatype Service =
    | GetPosts(page: nat, limit: nat)
    | GetPost(slug: string)
    | GetTags
    | GetPostsByTag(tag: string, page: nat, limit: nat)
    | CreatePost
    | SendMessage

  datatype HttpRequest = HttpRequest(verb: string, url: string)

  const DefaultBase := "http://localhost:3001/api"

  /** `VITE_API_URL || 'http://localhost:3001/api'`. */
  function ApiBase(env: Option<string>): (b: string)
    ensures Truthy(env) ==> b == env.value
    ensures !Truthy(env) ==> b == DefaultBase
  {
    OrElse(env, Some(DefaultBase)).value
  }

  function Paging(page: nat, limit: nat): string {
    "?page=" + NatToString(page) + "&limit=" + NatToString(limit)
  }

  /** The request each service method sends. */
  function Endpoint(base: string, s: Service): (r: HttpRequest)
    ensures r.verb == "POST" <==> s.CreatePost? || s.SendMessage?
    ensures r.verb == "GET" <==> !(s.CreatePost? || s.SendMessage?)
    ensures |r.url| > |base| && r.url[..|base|] == base
  {
    var path := match s
      case GetPosts(page, limit) => "/blog" + Paging(page, limit)
      case GetPost(slug) => "/blog/" + slug
      case GetTags => "/blog/tags/all"
      case GetPostsByTag(tag, page, limit) => "/blog/tag/" + tag + Paging(page, limit)
      case CreatePost => "/blog"
      case SendMessage => "/contact";
    var verb := if s.CreatePost? || s.SendMessage? then "POST" else "GET";
    assert (base + path)[..|base|] == base;
    HttpRequest(verb, base + path)
  }

  /** Every attempt classifies the response that attempt received. */
  function Classified<T>(responses: nat -> Response<T>): nat -> Attempt<T> {
    (k: nat) => HandleResponse(responses(k))
  }

  /** A service call: each method wraps its fetch in `withRetry` with the
      default options, so the same request is sent once per attempt. */
  method Call<T>(base: string, s: Service, responses: nat -> Response<T>)
    returns (sent: seq<HttpRequest>, o: Run<T>)
    ensures o == Retry(Classified(responses), 0, DefaultRetries, DefaultDelay)
    ensures 1 <= |sent| <= 3 && |sent| == o.calls
    ensures forall i :: 0 <= i < |sent| ==> sent[i] == Endpoint(base, s)
  {
    o := WithRetry(Classified(responses), DefaultRetries, DefaultDelay);
    RetryShape(Classified(responses), 0, DefaultRetries, DefaultDelay);
    sent := seq(o.calls, _ => Endpoint(base, s));
  }

  /** A POST is not idempotent, yet a create or a message that keeps meeting
      5xx responses is sent three times. */
  lemma {:induction false} PostSentThrice<T>(responses: nat -> Response<T>)
    requires forall i :: !responses(i).ok && responses(i).status >= 500
    ensures Retry(Classified(responses), 0, DefaultRetries, DefaultDelay).calls == 3
  {
    forall i ensures RetryableAttempt(Classified(responses)(i)) {
      RetryableResponse(responses(i));
    }
    AllServerErrors(Classified(responses));
  }

  /** A client error (4xx), or any non-API error, is thrown at once. */
  lemma {:induction false} ClientErrorNotRetried<T>(responses: nat -> Response<T>)
    requires !responses(0).ok && responses(0).status < 500
    ensures Retry(Classified(responses), 0, DefaultRetries, DefaultDelay)
      == Run(Threw(ApiError(responses(0).status, ErrorMessage(responses(0)))), 1, [])
  {
  }
}
