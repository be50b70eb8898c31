/** The response and error envelopes: `ApiError`, `ApiResponse`, the error
    handler that maps a failure to the JSON error body, and the reply a
    request handler produces. */
module Envelope {
  import opened Values

  /** JavaScript `null`: the only value `ApiError.data` can hold. */
  datatype Null = Null

  /** The stack trace of an error: either the one given to the constructor or
      the one the runtime captures (whose text the model does not track). */
  datatype Trace = Captured | Supplied(text: string)

  const DefaultErrorMessage := "Something went wrong"
  const DefaultSuccessMessage := "Success"
  const InternalErrorMessage := "Internal Server Error"

  /** The fields of an `ApiError` instance. */
  datatype ApiError = ApiError(
    statusCode: int,
    message: string,
    data: Null,
    success: bool,
    errors: seq<string>,
    stack: Trace)

  /** `new ApiError(statusCode, message?, errors?, stack?)`: an omitted
      argument takes its default; a supplied empty stack falls back to the
      captured one. */
  function NewApiError(statusCode: int, message: Option<string> := None,
                       errors: Option<seq<string>> := None,
                       stack: Option<string> := None): (e: ApiError)
    ensures e.statusCode == statusCode
    ensures message.Some? ==> e.message == message.value
    ensures message.None? ==> e.message == DefaultErrorMessage
    ensures !e.success
    ensures e.errors == (if errors.Some? then errors.value else [])
    ensures e.stack.Supplied? <==> Given(stack)
    ensures e.stack.Supplied? ==> e.stack.text == stack.value
  {
    ApiError(
      statusCode,
      if message.Some? then message.value else DefaultErrorMessage,
      Null,
      false,
      if errors.Some? then errors.value else [],
      if Given(stack) then Supplied(stack.value) else Captured)
  }

  /** The fields of an `ApiResponse` instance. */
  datatype ApiResponse<T> = ApiResponse(statusCode: int, data: T, message: string, success: bool)

  /** `new ApiResponse(statusCode, data, message?)`: the envelope reports
      success exactly for status codes below 400. */
  function NewApiResponse<T>(statusCode: int, data: T, message: Option<string> := None): (r: ApiResponse<T>)
    ensures r.statusCode == statusCode && r.data == data
    ensures r.success <==> statusCode < 400
    ensures message.Some? ==> r.message == message.value
    ensures message.None? ==> r.message == DefaultSuccessMessage
  {
    ApiResponse(statusCode, data, if message.Some? then message.value else DefaultSuccessMessage,
                statusCode < 400)
  }

  /** Anything a handler can throw: an `ApiError`, or another `Error` (a
      library or schema failure) with its message and stack. */
  datatype Failure = Api(error: ApiError) | Internal(message: string, stack: Trace)
  {
    function Message(): string
    {
      match this
      case Api(e) => e.message
      case Internal(m, _) => m
    }

    function Stack(): Trace
    {
      match this
      case Api(e) => e.stack
      case Internal(_, s) => s
    }
  }

  /** `throw new ApiError(statusCode, message)`, the form every handler uses. */
  function Fail(statusCode: int, message: string): (f: Failure)
    ensures f.Api? && f.error.statusCode == statusCode && f.Message() == message
    ensures !f.error.success && f.error.errors == [] && f.error.stack == Captured
  {
    Api(NewApiError(statusCode, Some(message)))
  }

  /** One validation step of a handler: whether it passes, and what the
      handler throws when it does not. */
  datatype Check = Check(passes: bool, failure: Failure)

  /** What a handler that runs `cs` in order, stopping at the first that
      does not pass, throws: the failure of that first one, or nothing. */
  function FirstFailure(cs: seq<Check>): (f: Option<Failure>)
    ensures f.None? <==> forall i :: 0 <= i < |cs| ==> cs[i].passes
    ensures f.Some? ==> exists i :: 0 <= i < |cs| && !cs[i].passes && cs[i].failure == f.value
  {
    if cs == [] then None
    else if !cs[0].passes then Some(cs[0].failure)
    else
      var rest := FirstFailure(cs[1..]);
      assert forall i :: 1 <= i < |cs| ==> cs[i] == cs[1..][i - 1];
      rest
  }

  /** When every step before `k` passes and step `k` does not, the handler
      throws step `k`'s failure. */
  lemma {:induction false} FirstFailureAt(cs: seq<Check>, k: nat)
    requires k < |cs| && !cs[k].passes
    requires forall j :: 0 <= j < k ==> cs[j].passes
    ensures FirstFailure(cs) == Some(cs[k].failure)
  {
    if k > 0 {
      assert cs[0].passes;
      FirstFailureAt(cs[1..], k - 1);
    }
  }

  /** Running `a` and then `b` throws what `a` throws, or else what `b`
      throws. */
  lemma {:induction false} FirstFailureAppend(a: seq<Check>, b: seq<Check>)
    ensures FirstFailure(a + b) == if FirstFailure(a).Some? then FirstFailure(a) else FirstFailure(b)
  {
    if a == [] {
      assert a + b == b;
    } else {
      assert (a + b)[0] == a[0];
      assert (a + b)[1..] == a[1..] + b;
      FirstFailureAppend(a[1..], b);
    }
  }

  /** What a request handler ends with: a JSON response sent with an HTTP
      status, or a failure passed on to the error handler. */
  datatype Reply<T> = Sent(status: int, body: ApiResponse<T>) | Thrown(failure: Failure)

  /** The outcome of a middleware or helper: a value to continue with, or a
      failure. */
  datatype Result<T> = Ok(value: T) | Err(failure: Failure)

  /** `res.status(status).json(new ApiResponse(code, data, message))`. */
  function Send<T>(status: int, code: int, data: T, message: Option<string> := None): (r: Reply<T>)
    requires code < 400
    ensures r.Sent? && r.status == status && r.body.statusCode == code
    ensures r.body.data == data && r.body.success
  {
    Sent(status, NewApiResponse(code, data, message))
  }

  /** The JSON body the error handler writes. */
  datatype ErrorBody = ErrorBody(success: bool, message: string, statusCode: int, stack: Option<Trace>)

  /** The error handler: the HTTP status is an `ApiError`'s own status code
      and 500 for any other error, the body repeats that status, never reports
      success, falls back to a generic message when the error has none, and
      carries the stack only when `NODE_ENV` is "development". */
  function HandleError(err: Failure, nodeEnv: string): (res: (int, ErrorBody))
    ensures err.Api? ==> res.0 == err.error.statusCode
    ensures err.Internal? ==> res.0 == 500
    ensures res.1.statusCode == res.0 && !res.1.success
    ensures err.Message() != "" ==> res.1.message == err.Message()
    ensures err.Message() == "" ==> res.1.message == InternalErrorMessage
    ensures res.1.stack.Some? <==> nodeEnv == "development"
    ensures res.1.stack.Some? ==> res.1.stack.value == err.Stack()
  {
    var status := if err.Api? then err.error.statusCode else 500;
    var message := if err.Message() != "" then err.Message() else InternalErrorMessage;
    (status, ErrorBody(false, message, status,
                       if nodeEnv == "development" then Some(err.Stack()) else None))
  }
}
