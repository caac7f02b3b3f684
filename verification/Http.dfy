/**
 One logical call to the service: what an answer is classified as (api/probe.py),
 what is worth asking again and after how long (api/retry.py), and how many
 requests a call makes (api/client.py).
 */
module Http {
  import opened Common
  import opened Calendar

  // ---------------------------------------------------------------------------
  // Answers
  // ---------------------------------------------------------------------------

  datatype Department = Department(id: int, name: string)

  datatype TimeSlot = TimeSlot(start: Clock, end: Option<Clock>)

  /** A parsed body, as what each of the three parsers makes of it; `None` where the
      parser does not recognise the shape. */
  datatype Payload = Payload(
    departments: Option<seq<Department>>,
    days: Option<seq<Date>>,
    slots: Option<seq<TimeSlot>>)

  const NULL_PAYLOAD := Payload(None, None, None)

  datatype Body = Empty | Parsed(payload: Payload) | ParsedNull | Unparsable

  /** The Retry-After header (section 10.2.3 of RFC 9110): a delay or a moment. */
  datatype RetryAfter = Absent | Seconds(delay: int) | Until(moment: real) | Unusable

  datatype Reply =
    | TimedOut
    | Dropped
    | Answered(status: int, jsonType: bool, body: Body, retryAfter: RetryAfter)

  datatype Kind =
    | Json | Redirect | Unauthorized | Forbidden | RateLimited | NoContent | NonJson | BadJson | HttpError
    | Timeout | NetworkError

  datatype Outcome = Outcome(kind: Kind, status: Option<int>, payload: Payload, retryAfter: RetryAfter)

  function Classify(status: int, jsonType: bool, body: Body): Kind {
    if status == 401 then Unauthorized
    else if status == 403 then Forbidden
    else if status == 429 then RateLimited
    else if 300 <= status < 400 then Redirect
    else if status < 400 && body.Empty? then NoContent
    else if body.Parsed? || (jsonType && body.ParsedNull?) then (if status < 400 then Json else HttpError)
    else if status >= 400 then HttpError
    else if jsonType then BadJson
    else NonJson
  }

  function Perform(reply: Reply): Outcome {
    match reply
    case TimedOut => Outcome(Timeout, None, NULL_PAYLOAD, Absent)
    case Dropped => Outcome(NetworkError, None, NULL_PAYLOAD, Absent)
    case Answered(status, jsonType, body, retryAfter) =>
      Outcome(Classify(status, jsonType, body), Some(status),
              if body.Parsed? then body.payload else NULL_PAYLOAD, retryAfter)
  }

  /** The session itself was refused. */
  predicate Refused(reply: Reply) { reply.Answered? && (reply.status == 401 || reply.status == 403) }

  const AUTH_REQUIRED_KINDS := {Unauthorized, Forbidden}

  // ---------------------------------------------------------------------------
  // Retrying
  // ---------------------------------------------------------------------------

  datatype RetryConfig = RetryConfig(
    maxAttempts: int,
    initialBackoff: real,
    maxBackoff: real,
    multiplier: real,
    maxRetryAfter: real)

  const RETRYABLE_STATUSES := {429, 500, 502, 503, 504}

  predicate IsRetryable(outcome: Outcome) {
    match outcome.status
    case None => outcome.kind == Timeout || outcome.kind == NetworkError
    case Some(status) => status in RETRYABLE_STATUSES
  }

  function Min(a: real, b: real): real { if a <= b then a else b }

  function Max(a: real, b: real): real { if a <= b then b else a }

  function Power(x: real, n: nat): real { if n == 0 then 1.0 else x * Power(x, n - 1) }

  function BackoffFor(config: RetryConfig, attempt: nat): real {
    Min(config.initialBackoff * Power(config.multiplier, if attempt == 0 then 0 else attempt - 1), config.maxBackoff)
  }

  function ReadRetryAfter(header: RetryAfter, now: real): Option<real> {
    match header
    case Absent => None
    case Unusable => None
    case Seconds(delay) => Some(Max(delay as real, 0.0))
    case Until(moment) => Some(Max(moment - now, 0.0))
  }

  function WaitFor(outcome: Outcome, attempt: nat, config: RetryConfig, now: real): real {
    if outcome.kind == RateLimited && ReadRetryAfter(outcome.retryAfter, now).Some?
    then Min(ReadRetryAfter(outcome.retryAfter, now).value, config.maxRetryAfter)
    else BackoffFor(config, attempt)
  }

  function LongestWait(config: RetryConfig): real { Max(config.maxBackoff, config.maxRetryAfter) }

  lemma WaitIsBounded(outcome: Outcome, attempt: nat, config: RetryConfig, now: real)
    ensures WaitFor(outcome, attempt, config, now) <= LongestWait(config)
  {
  }

  // ---------------------------------------------------------------------------
  // One call
  // ---------------------------------------------------------------------------

  /** The answers a process gets, one per physical request, in order. */
  type Replies = nat -> Reply

  datatype Endpoint = DepartmentsCall | DaysCall(department: int) | SlotsCall(department: int, date: Date)

  datatype ApiCall = ApiCall(endpoint: Endpoint, outcome: Outcome, attempts: nat) {
    predicate Ok() { outcome.kind == Json }
  }

  function AttemptLimit(config: RetryConfig): nat { if config.maxAttempts < 1 then 1 else config.maxAttempts }

  /** How many requests the call starting with request `k` makes, having made `made`. */
  function AttemptsFrom(replies: Replies, k: nat, config: RetryConfig, made: nat): (n: nat)
    requires 1 <= made <= AttemptLimit(config)
    ensures made <= n <= AttemptLimit(config)
    decreases AttemptLimit(config) - made
  {
    if made < AttemptLimit(config) && IsRetryable(Perform(replies(k + made - 1)))
    then AttemptsFrom(replies, k, config, made + 1)
    else made
  }

  function Attempts(replies: Replies, k: nat, config: RetryConfig): nat { AttemptsFrom(replies, k, config, 1) }

  /** The call that starts with request `k`. */
  function CallAt(replies: Replies, k: nat, config: RetryConfig, endpoint: Endpoint): ApiCall {
    var n := Attempts(replies, k, config);
    ApiCall(endpoint, Perform(replies(k + n - 1)), n)
  }

  /** A call stops at its first final answer, or when its attempts are used up. */
  lemma {:induction false} AttemptsStop(replies: Replies, k: nat, config: RetryConfig, made: nat)
    requires 1 <= made <= AttemptLimit(config)
    ensures var n := AttemptsFrom(replies, k, config, made);
            && (forall i :: k + made - 1 <= i < k + n - 1 ==> IsRetryable(Perform(replies(i))))
            && (n < AttemptLimit(config) ==> !IsRetryable(Perform(replies(k + n - 1))))
    decreases AttemptLimit(config) - made
  {
    if made < AttemptLimit(config) && IsRetryable(Perform(replies(k + made - 1))) {
      AttemptsStop(replies, k, config, made + 1);
    }
  }

  /** A 401 or 403 ends its call, and decides its kind. */
  lemma RefusalEndsCall(replies: Replies, k: nat, config: RetryConfig, endpoint: Endpoint, kind: Kind)
    requires kind in AUTH_REQUIRED_KINDS
    ensures var call := CallAt(replies, k, config, endpoint);
            call.outcome.kind == kind <==>
            exists i :: k <= i < k + call.attempts && Perform(replies(i)).kind == kind
  {
    var call := CallAt(replies, k, config, endpoint);
    AttemptsStop(replies, k, config, 1);
    var last := k + call.attempts - 1;
    forall i | k <= i < last ensures Perform(replies(i)).kind != kind {
      assert IsRetryable(Perform(replies(i)));
    }
    assert call.outcome == Perform(replies(last));
  }

  lemma RefusedMeans(reply: Reply)
    ensures Refused(reply) <==> Perform(reply).kind in AUTH_REQUIRED_KINDS
    ensures (reply.Answered? && reply.status == 403) <==> Perform(reply).kind == Forbidden
  {
  }
}
