/**
 * The unary retry interceptor. A call is repeated while it fails with a connect error
 * whose code says the failure may be transient (Unknown, Internal, Unavailable, Aborted);
 * any other outcome ends the retries at once. After the last allowed retry a still
 * retryable error is wrapped with "retry failed after N attempts".
 */
module ApiRetry {
  import opened Wrappers
  import opened Strings

  datatype Code =
    | Canceled | Unknown | InvalidArgument | DeadlineExceeded | NotFound | AlreadyExists
    | PermissionDenied | ResourceExhausted | FailedPrecondition | Aborted | OutOfRange
    | Unimplemented | Internal | Unavailable | DataLoss | Unauthenticated

  /** An error value and its wrap chain. */
  datatype Error =
    | ConnectError(code: Code, message: string)
    | Wrapped(message: string, cause: Error)
    | PlainError(message: string)

  /** The text of an error: a wrapper prefixes its message to its cause's text. */
  function ErrorText(e: Error): string {
    match e
    case ConnectError(_, m) => m
    case Wrapped(m, c) => m + ": " + ErrorText(c)
    case PlainError(m) => m
  }

  /** errors.As(err, &connErr): the code of the first connect error in the wrap chain. */
  function ConnectCode(e: Error): (r: Option<Code>)
    ensures e.ConnectError? ==> r == Some(e.code)
    ensures e.PlainError? ==> r.None?
  {
    match e
    case ConnectError(code, _) => Some(code)
    case Wrapped(_, c) => ConnectCode(c)
    case PlainError(_) => None
  }

  predicate RetryableCode(c: Code) {
    c in {Unknown, Internal, Unavailable, Aborted}
  }

  /** noNeedRetry; `None` stands for a nil error. */
  predicate NoNeedRetry(err: Option<Error>) {
    match err
    case None => true
    case Some(e) => ConnectCode(e).None? || !RetryableCode(ConnectCode(e).value)
  }

  /** Wrapping never changes whether an error is retryable. */
  lemma RetryableThroughWraps(msg: string, e: Error)
    ensures NoNeedRetry(Some(Wrapped(msg, e))) == NoNeedRetry(Some(e))
  {
  }

  /** An error wrapped by the messages `msgs`, outermost first. */
  function Wraps(msgs: seq<string>, e: Error): Error {
    if msgs == [] then e else Wrapped(msgs[0], Wraps(msgs[1..], e))
  }

  /** The messages of an error's wrappers, outermost first. */
  function WrapMessages(e: Error): seq<string> {
    match e
    case Wrapped(m, c) => [m] + WrapMessages(c)
    case _ => []
  }

  /** The innermost error of a wrap chain. */
  function Innermost(e: Error): (r: Error)
    ensures !r.Wrapped?
  {
    match e
    case Wrapped(_, c) => Innermost(c)
    case _ => e
  }

  /** Every error is its innermost error under its wrappers. */
  lemma {:induction false} ChainShape(e: Error)
    ensures e == Wraps(WrapMessages(e), Innermost(e))
  {
    match e
    case Wrapped(m, c) =>
      ChainShape(c);
      assert ([m] + WrapMessages(c))[1..] == WrapMessages(c);
    case _ =>
  }

  /** A connect error under any wrappers is retried exactly for UNKNOWN, INTERNAL, UNAVAILABLE and ABORTED. */
  lemma {:induction false} WrappedConnectRetried(msgs: seq<string>, c: Code, m: string)
    ensures NoNeedRetry(Some(Wraps(msgs, ConnectError(c, m)))) <==> c !in {Unknown, Internal, Unavailable, Aborted}
    decreases |msgs|
  {
    if msgs != [] {
      WrappedConnectRetried(msgs[1..], c, m);
      RetryableThroughWraps(msgs[0], Wraps(msgs[1..], ConnectError(c, m)));
    }
  }

  /** An error with no connect error in its chain is never retried, however it is wrapped. */
  lemma {:induction false} WrappedPlainNotRetried(msgs: seq<string>, m: string)
    ensures NoNeedRetry(Some(Wraps(msgs, PlainError(m))))
    decreases |msgs|
  {
    if msgs != [] {
      WrappedPlainNotRetried(msgs[1..], m);
      RetryableThroughWraps(msgs[0], Wraps(msgs[1..], PlainError(m)));
    }
  }

  /** uint64(retryMax): a negative count wraps around to a huge one. */
  function MaxRetries(retryMax: int): (n: nat)
    requires MinInt64 <= retryMax <= MaxInt64
    ensures retryMax >= 0 ==> n == retryMax
    ensures retryMax < 0 ==> n > MaxInt64
  {
    if retryMax >= 0 then retryMax else retryMax + 0x1_0000_0000_0000_0000
  }

  /**
   * backoff.RetryWithData over a call whose k-th outcome is `outcome(k)`, from attempt `k` on:
   * a success or a non-retryable error (made permanent by the operation) ends it, as does
   * the attempt after the last allowed retry. Returns the final error and the attempt count.
   */
  function RetryFrom(outcome: nat -> Option<Error>, maxRetries: nat, k: nat): (r: (Option<Error>, nat))
    requires k <= maxRetries
    ensures k < r.1 <= maxRetries + 1
    ensures r.0 == outcome(r.1 - 1)
    ensures forall j :: k <= j < r.1 - 1 ==> !NoNeedRetry(outcome(j))
    ensures NoNeedRetry(r.0) || r.1 == maxRetries + 1
    decreases maxRetries - k
  {
    if NoNeedRetry(outcome(k)) || k == maxRetries then (outcome(k), k + 1)
    else RetryFrom(outcome, maxRetries, k + 1)
  }

  /** The error the interceptor returns, and the number of attempts made. */
  function Intercept(outcome: nat -> Option<Error>, retryMax: int): (r: (Option<Error>, nat))
    requires MinInt64 <= retryMax <= MaxInt64
    ensures 1 <= r.1 <= MaxRetries(retryMax) + 1
    ensures NoNeedRetry(outcome(r.1 - 1)) ==> r.0 == outcome(r.1 - 1)
    ensures !NoNeedRetry(outcome(r.1 - 1)) ==>
      r.1 == MaxRetries(retryMax) + 1 &&
      r.0 == Some(Wrapped("retry failed after " + FormatInt(retryMax) + " attempts", outcome(r.1 - 1).value))
  {
    var (final, attempts) := RetryFrom(outcome, MaxRetries(retryMax), 0);
    if NoNeedRetry(final) then (final, attempts)
    else (Some(Wrapped("retry failed after " + FormatInt(retryMax) + " attempts", final.value)), attempts)
  }

  /** A call that keeps failing with a retryable error is tried retryMax + 1 times, and the last error is wrapped. */
  lemma ExhaustedRetries(outcome: nat -> Option<Error>, retryMax: nat)
    requires retryMax <= MaxInt64
    requires forall k :: !NoNeedRetry(outcome(k))
    ensures var r := Intercept(outcome, retryMax);
      r.1 == retryMax + 1 && r.0.Some? &&
      ErrorText(r.0.value) == "retry failed after " + FormatInt(retryMax) + " attempts: " + ErrorText(outcome(retryMax).value)
  {
  }

  /** A first outcome that needs no retry is returned unchanged after one attempt. */
  lemma FirstNonRetryableReturned(outcome: nat -> Option<Error>, retryMax: int)
    requires MinInt64 <= retryMax <= MaxInt64
    requires NoNeedRetry(outcome(0))
    ensures Intercept(outcome, retryMax) == (outcome(0), 1)
  {
  }
}
