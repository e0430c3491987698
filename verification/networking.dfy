/** The two fetchers (`RecipeURLSessionManager`, async, and
    `URLSessionManager`, completion-handler based), each as a pure classifier
    from what the transport did to data or an `APIError`. */
module Networking {
  import opened Wrappers
  import opened Platform

  /** A Swift `Error` value as `as? URLError` sees it: a `URLError` (including
      an `NSError` of `NSURLErrorDomain`, which bridges to one), the app's own
      `APIError`, or any other error, one that does not bridge to `URLError`
      (an `NSError` of another domain, a `CancellationError`, ...). */
  datatype Thrown = URLError(code: int) | API(error: APIError) | Foreign(code: int)

  /** `APIError`. The two wrapping cases carry any `Error`. */
  datatype APIError =
    | InvalidURL
    | NetworkError(cause: Thrown)
    | InvalidResponse
    | DecodingError(cause: Thrown)
    | UnknownError

  /** The `URLResponse` a request produced: an `HTTPURLResponse` with its
      status code, or a response of some other kind. */
  datatype Response = HTTPResponse(statusCode: int) | OtherResponse

  /** `(200...299).contains(statusCode)`. */
  predicate IsSuccessStatus(statusCode: int) {
    200 <= statusCode <= 299
  }

  /** The `guard let httpResponse = response as? HTTPURLResponse, ...` test
      both fetchers apply. */
  predicate Accepted(response: Response) {
    response.HTTPResponse? && IsSuccessStatus(response.statusCode)
  }

  // ---------------------------------------------------------------------
  // RecipeURLSessionManager.fetchData (async throws)
  // ---------------------------------------------------------------------

  /** What `try await session.data(for:)` did: returned data and a response,
      or threw. */
  datatype Transport = Delivered(data: Bytes, response: Response) | TransportThrew(error: Thrown)

  /** The `do` block: await the transport, then throw `invalidResponse`
      unless the response is HTTP with a 2xx status. */
  function DoBlock(t: Transport): (r: Result<Bytes, Thrown>)
    ensures r.Success? <==> t.Delivered? && Accepted(t.response)
    ensures r.Success? ==> r.value == t.data
    ensures t.TransportThrew? ==> r == Failure(t.error)
  {
    match t
    case TransportThrew(e) => Failure(e)
    case Delivered(data, response) =>
      if Accepted(response) then Success(data) else Failure(API(InvalidResponse))
  }

  /** The `catch` block: a `URLError` becomes `networkError` wrapping it,
      anything else (including the `invalidResponse` the `do` block threw)
      becomes `unknownError`. */
  function CatchBlock(e: Thrown): (r: APIError)
    ensures r.NetworkError? <==> e.URLError?
    ensures r.NetworkError? ==> r.cause == e
    ensures !e.URLError? ==> r == UnknownError
  {
    if e.URLError? then NetworkError(e) else UnknownError
  }

  /** `RecipeURLSessionManager.fetchData(from:)`. `urlValid` is whether
      `URL(string:)` parses the string; when it does not, no request is made,
      so the transport outcome is never consulted. */
  function FetchDataAsync(urlValid: bool, t: Transport): (r: Result<Bytes, APIError>)
    ensures !urlValid ==> r == Failure(InvalidURL)
    ensures urlValid && t.Delivered? && Accepted(t.response) ==> r == Success(t.data)
    ensures urlValid && t.Delivered? && !Accepted(t.response) ==> r == Failure(UnknownError)
    ensures urlValid && t.TransportThrew? && t.error.URLError? ==> r == Failure(NetworkError(t.error))
    ensures urlValid && t.TransportThrew? && !t.error.URLError? ==> r == Failure(UnknownError)
  {
    if !urlValid then Failure(InvalidURL)
    else
      match DoBlock(t)
      case Success(data) => Success(data)
      case Failure(e) => Failure(CatchBlock(e))
  }

  /** As written, the async fetcher never reports `invalidResponse`: the
      error it throws for a bad status is caught by its own `catch` and
      replaced by `unknownError`. */
  lemma InvalidResponseNeverEscapes(urlValid: bool, t: Transport)
    ensures FetchDataAsync(urlValid, t) != Failure(InvalidResponse)
    ensures urlValid && t.Delivered? && !Accepted(t.response) ==> FetchDataAsync(urlValid, t) == Failure(UnknownError)
  {
  }

  /** The async fetcher reports a network error exactly when the transport
      threw a `URLError`, and then wraps that same error. */
  lemma AsyncNetworkErrorIffURLError(urlValid: bool, t: Transport, cause: Thrown)
    ensures FetchDataAsync(urlValid, t) == Failure(NetworkError(cause))
            <==> urlValid && t == TransportThrew(cause) && cause.URLError?
  {
  }

  // ---------------------------------------------------------------------
  // URLSessionManager.fetchData (completion handler)
  // ---------------------------------------------------------------------

  /** The three optionals the data task hands its closure. */
  datatype TaskReply = TaskReply(data: Option<Bytes>, response: Option<Response>, error: Option<Thrown>)

  /** What `fetchData(from:completion:)` did: whether it started a data task,
      and the values it passed to `completion`, in call order. */
  datatype Completion = Completion(taskStarted: bool, calls: seq<Result<Bytes, APIError>>)

  /** The data task's closure. Its guards are tried in order: a transport
      error first, then the response, then the data. */
  function ClassifyReply(reply: TaskReply): (r: Result<Bytes, APIError>)
    ensures reply.error.Some? ==> r == Failure(NetworkError(reply.error.value))
    ensures r.Success? <==> reply.error.None? && reply.response.Some? && Accepted(reply.response.value) && reply.data.Some?
    ensures r.Success? ==> r.value == reply.data.value
  {
    if reply.error.Some? then Failure(NetworkError(reply.error.value))
    else if !(reply.response.Some? && Accepted(reply.response.value)) then Failure(InvalidResponse)
    else if reply.data.None? then Failure(UnknownError)
    else Success(reply.data.value)
  }

  /** `URLSessionManager.fetchData(from:completion:)`. */
  function FetchDataWithCompletion(urlValid: bool, reply: TaskReply): (c: Completion)
    ensures |c.calls| == 1
    ensures c.taskStarted <==> urlValid
    ensures !urlValid ==> c.calls[0] == Failure(InvalidURL)
    ensures urlValid ==> c.calls == [ClassifyReply(reply)]
  {
    if !urlValid then Completion(false, [Failure(InvalidURL)])
    else Completion(true, [ClassifyReply(reply)])
  }

  /** Without a transport error, a missing or non-2xx response is reported as
      `invalidResponse` whatever data arrived, and a 2xx response without data
      as `unknownError`. */
  lemma CompletionResponseChecks(reply: TaskReply)
    requires reply.error.None?
    ensures !(reply.response.Some? && Accepted(reply.response.value)) ==> ClassifyReply(reply) == Failure(InvalidResponse)
    ensures reply.response.Some? && Accepted(reply.response.value) && reply.data.None? ==> ClassifyReply(reply) == Failure(UnknownError)
  {
  }

  /** The two fetchers agree on every outcome except two: a bad status is
      `invalidResponse` for the completion-handler fetcher but `unknownError`
      for the async one, and a transport error other than `URLError` is a
      `networkError` for the former but `unknownError` for the latter. */
  lemma FetchersAgreeExceptOnErrors(urlValid: bool, data: Bytes, response: Response, thrown: Thrown)
    ensures FetchDataWithCompletion(urlValid, TaskReply(Some(data), Some(response), None)).calls[0]
            == (if urlValid && !Accepted(response) then Failure(InvalidResponse)
                else FetchDataAsync(urlValid, Delivered(data, response)))
    ensures FetchDataWithCompletion(urlValid, TaskReply(None, None, Some(thrown))).calls[0]
            == (if urlValid && !thrown.URLError? then Failure(NetworkError(thrown))
                else FetchDataAsync(urlValid, TransportThrew(thrown)))
  {
  }
}
