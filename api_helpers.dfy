/** The client's fetch helpers: a retry loop with exponential backoff and the
    rules that turn errors into messages. `fetch` itself is a parameter giving the
    outcome of each successive call; the waits are returned as the list of delays
    in milliseconds instead of being slept. */
module ApiHelpers {
  import opened JsString

  /** `TypeError`, or any other kind of `Error`. */
  datatype ErrorKind = TypeErrorKind | OtherErrorKind

  /** A thrown JavaScript value: an `Error` object, a string, or anything else. */
  datatype Thrown = ErrorObject(kind: ErrorKind, message: string) | StringThrown(s: string) | OtherThrown

  datatype Response = Response(status: int, statusText: string)

  /** What one call of `fetch` does: resolve with a response or reject. */
  datatype FetchOutcome = Responded(response: Response) | Rejected(thrown: Thrown)

  /** The retry options a caller passes; `None` is an option left out. */
  datatype RetryConfig = RetryConfig(maxRetries: Option<int>, retryDelay: Option<int>, backoffMultiplier: Option<int>)

  datatype Config = Config(maxRetries: int, retryDelay: int, backoffMultiplier: int)

  datatype FetchResult = Returned(response: Response) | Threw(error: Thrown)

  const DEFAULT_RETRY_CONFIG := Config(3, 1000, 2)

  /** The defaults with the caller's options laid over them. */
  function Effective(rc: RetryConfig): (c: Config)
    ensures c.maxRetries == (if rc.maxRetries.Some? then rc.maxRetries.value else 3)
    ensures c.retryDelay == (if rc.retryDelay.Some? then rc.retryDelay.value else 1000)
    ensures c.backoffMultiplier == (if rc.backoffMultiplier.Some? then rc.backoffMultiplier.value else 2)
  {
    Config(
      if rc.maxRetries.Some? then rc.maxRetries.value else DEFAULT_RETRY_CONFIG.maxRetries,
      if rc.retryDelay.Some? then rc.retryDelay.value else DEFAULT_RETRY_CONFIG.retryDelay,
      if rc.backoffMultiplier.Some? then rc.backoffMultiplier.value else DEFAULT_RETRY_CONFIG.backoffMultiplier)
  }

  function Pow(b: int, e: nat): int
  {
    if e == 0 then 1 else b * Pow(b, e - 1)
  }

  /** How many calls the loop makes when every one of them fails. */
  function Attempts(c: Config): nat
  {
    if c.maxRetries < 0 then 0 else c.maxRetries + 1
  }

  /** `response.ok` or a client error: the loop hands the response back at once. */
  predicate Settles(o: FetchOutcome)
  {
    o.Responded? && ((200 <= o.response.status < 300) || (400 <= o.response.status < 500))
  }

  /** The error a failed call leaves behind: a server error described by its status,
      a rejected `Error` as it is, and any other rejection as a network error. */
  function AttemptError(o: FetchOutcome): (e: Thrown)
    ensures e.ErrorObject?
  {
    match o
    case Responded(r) => ErrorObject(OtherErrorKind, "Server error: " + IntToString(r.status) + " " + r.statusText)
    case Rejected(ErrorObject(k, m)) => ErrorObject(k, m)
    case Rejected(_) => ErrorObject(OtherErrorKind, "Network error")
  }

  const NO_ATTEMPT_ERROR := ErrorObject(OtherErrorKind, "Failed to fetch after retries")

  /** `fetchWithRetry`: calls `fetch` until a response settles or the attempts run
      out, waiting `retryDelay * backoffMultiplier^k` after failed attempt `k` except
      the last one; when all fail, the last attempt's error is thrown. */
  method FetchWithRetry(fetch: nat -> FetchOutcome, retryConfig: RetryConfig)
    returns (result: FetchResult, calls: nat, delays: seq<int>)
    ensures var c := Effective(retryConfig);
      calls <= Attempts(c)
      && (forall k :: 0 <= k < calls - 1 ==> !Settles(fetch(k)))
      && (result.Returned? <==> calls >= 1 && Settles(fetch(calls - 1)))
      && (result.Returned? ==> result.response == fetch(calls - 1).response)
      && (result.Threw? ==> (calls == Attempts(c)
        && result.error == if calls == 0 then NO_ATTEMPT_ERROR else AttemptError(fetch(calls - 1))))
      && |delays| == (if calls == 0 then 0 else calls - 1)
      && forall k :: 0 <= k < |delays| ==> delays[k] == c.retryDelay * Pow(c.backoffMultiplier, k)
  {
    var c := Effective(retryConfig);
    var lastError: Option<Thrown> := None;
    calls := 0;
    delays := [];
    var attempt: nat := 0;
    while attempt <= c.maxRetries
      invariant attempt == calls && calls <= Attempts(c)
      invariant forall k :: 0 <= k < attempt ==> !Settles(fetch(k))
      invariant attempt > 0 ==> lastError == Some(AttemptError(fetch(attempt - 1)))
      invariant attempt == 0 ==> lastError.None?
      invariant |delays| == (if attempt > 0 && attempt > c.maxRetries then attempt - 1 else attempt)
      invariant forall k :: 0 <= k < |delays| ==> delays[k] == c.retryDelay * Pow(c.backoffMultiplier, k)
      decreases c.maxRetries + 1 - attempt
    {
      var o := fetch(attempt);
      calls := calls + 1;
      if Settles(o) {
        return Returned(o.response), calls, delays;
      }
      lastError := Some(AttemptError(o));
      if attempt < c.maxRetries {
        delays := delays + [c.retryDelay * Pow(c.backoffMultiplier, attempt)];
      }
      attempt := attempt + 1;
    }
    result := Threw(if lastError.Some? then lastError.value else NO_ATTEMPT_ERROR);
  }

  /** With the defaults, an endlessly failing server is tried four times, waiting
      one, two and four seconds in between. */
  lemma DefaultSchedule()
    ensures Attempts(Effective(RetryConfig(None, None, None))) == 4
    ensures forall k :: 0 <= k < 3 ==>
      DEFAULT_RETRY_CONFIG.retryDelay * Pow(DEFAULT_RETRY_CONFIG.backoffMultiplier, k) == [1000, 2000, 4000][k]
  {
    assert Pow(2, 1) == 2 && Pow(2, 2) == 4;
  }

  // ---------------------------------------------------------------------------
  // Error messages

  /** The fields of a parsed JSON error body that can carry a message. */
  datatype ErrorBody = ErrorBody(error: Option<string>, message: Option<string>)

  /** `parseErrorResponse`; `body` is `None` when the body is not JSON, or is JSON
      whose fields cannot be read. */
  function ParseErrorResponse(status: int, body: Option<ErrorBody>): (r: string)
    ensures r != ""
    ensures body.Some? && Truthy(body.value.error) ==> r == body.value.error.value
    ensures body.Some? && !Truthy(body.value.error) && Truthy(body.value.message) ==> r == body.value.message.value
    ensures !(body.Some? && (Truthy(body.value.error) || Truthy(body.value.message))) ==>
      r == "Request failed with status " + IntToString(status)
  {
    if body.Some? && Truthy(body.value.error) then body.value.error.value
    else if body.Some? && Truthy(body.value.message) then body.value.message.value
    else "Request failed with status " + IntToString(status)
  }

  /** A body that is not JSON reads like one without `error` and `message`. */
  lemma InvalidJsonFallsBack(status: int)
    ensures ParseErrorResponse(status, None) == ParseErrorResponse(status, Some(ErrorBody(None, None)))
    ensures ParseErrorResponse(500, None) == "Request failed with status 500"
  {
    Status500Text();
  }

  lemma Status500Text()
    ensures IntToString(500) == "500"
  {
    assert NatToString(500) == NatToString(50) + [DigitChar(0)];
    assert NatToString(50) == NatToString(5) + [DigitChar(0)];
  }

  /** `getErrorMessage`. */
  function GetErrorMessage(e: Thrown): (r: string)
    ensures e.ErrorObject? ==> r == e.message
    ensures e.StringThrown? ==> r == e.s
    ensures e.OtherThrown? ==> r == "An unexpected error occurred"
  {
    match e
    case ErrorObject(_, m) => m
    case StringThrown(s) => s
    case OtherThrown => "An unexpected error occurred"
  }

  /** `isNetworkError`: a `TypeError` mentioning `fetch` or `network` in that exact
      case, any other `Error` mentioning `network` in any case, nothing else. */
  predicate IsNetworkError(e: Thrown)
    ensures IsNetworkError(e) ==> e.ErrorObject?
    ensures e.ErrorObject? && Contains(e.message, "network") ==> IsNetworkError(e)
  {
    LowerKeepsLowercase(if e.ErrorObject? then e.message else "", "network");
    match e
    case ErrorObject(TypeErrorKind, m) => Contains(m, "fetch") || Contains(m, "network")
    case ErrorObject(OtherErrorKind, m) => Contains(ToLower(m), "network")
    case _ => false
  }

  /** Lower-casing keeps every occurrence of a text without capital letters. */
  lemma LowerKeepsLowercase(s: string, sub: string)
    requires forall k :: 0 <= k < |sub| ==> !('A' <= sub[k] <= 'Z')
    ensures Contains(s, sub) ==> Contains(ToLower(s), sub)
  {
    if Contains(s, sub) {
      var i :| 0 <= i <= |s| - |sub| && OccursAt(s, sub, i);
      assert ToLower(s)[i..i + |sub|] == sub by {
        forall k | 0 <= k < |sub| ensures ToLower(s)[i + k] == sub[k] {
          assert s[i..i + |sub|][k] == s[i + k];
        }
      }
      assert OccursAt(ToLower(s), sub, i);
    }
  }

  /** A text lacks `sub` when it lacks one of the characters of `sub`. */
  lemma {:induction false} Absent(s: string, sub: string, j: nat)
    requires j < |sub| && sub[j] !in s
    ensures !Contains(s, sub)
  {
    forall i | 0 <= i <= |s| - |sub| ensures !OccursAt(s, sub, i) {
      assert s[i + j] in s;
      assert s[i..i + |sub|][j] == s[i + j];
    }
  }

  /** The rejection the loop records for a thrown non-`Error` is a network error. */
  lemma NonErrorRejectionIsNetworkError(t: Thrown)
    requires !t.ErrorObject?
    ensures IsNetworkError(AttemptError(Rejected(t)))
    ensures GetErrorMessage(AttemptError(Rejected(t))) == "Network error"
  {
    assert ToLower("Network error")[..7] == "network";
    assert OccursAt(ToLower("Network error"), "network", 0);
  }

  /** The `TypeError` rule is case-sensitive while the other rule is not, so the
      same message can be a network error as an `Error` and not as a `TypeError`. */
  lemma NetworkErrorCase()
    ensures IsNetworkError(ErrorObject(OtherErrorKind, "Network error"))
    ensures !IsNetworkError(ErrorObject(TypeErrorKind, "Network error"))
    ensures IsNetworkError(ErrorObject(TypeErrorKind, "fetch failed"))
    ensures !IsNetworkError(ErrorObject(OtherErrorKind, "Something else"))
    ensures !IsNetworkError(StringThrown("error string")) && !IsNetworkError(OtherThrown)
  {
    assert ToLower("Network error")[..7] == "network";
    assert OccursAt(ToLower("Network error"), "network", 0);
    Absent("Network error", "fetch", 0);
    Absent("Network error", "network", 0);
    assert "fetch failed"[..5] == "fetch";
    assert OccursAt("fetch failed", "fetch", 0);
    Absent(ToLower("Something else"), "network", 3);
  }
}
