/**
 * What one Execute call does, as a function of the outside world it talks
 * to. JSON encoding and decoding and the HTTP exchange are foreign code; each
 * is a parameter (a field of Collaborators) that may fail.
 */
module Execution {
  import opened Wrappers
  import opened GqlErrors

  newtype byte = x: int | 0 <= x < 256

  /** Raw bytes: a request body, a response body, or an undecoded JSON value. */
  type Bytes = seq<byte>

  /** A GraphQL variable value. */
  datatype Value =
    | Null
    | Boolean(b: bool)
    | Number(n: int)
    | Text(s: string)
    | List(items: seq<Value>)
    | Object(fields: map<string, Value>)

  /** The request the caller hands to Execute. */
  datatype Request = Request(query: string, variables: map<string, Value>, operationName: string)

  /**
   * The decoded response envelope. Each field holds the raw JSON of "data" or
   * "errors", or None when the field is absent or JSON null.
   */
  datatype Envelope = Envelope(data: Option<Bytes>, errors: Option<Bytes>)

  /** The request that goes out on the wire. */
  datatype HttpRequest = HttpRequest(verb: string, url: string, header: map<string, string>, body: Bytes)

  /** An error raised by foreign code (encoder, request builder, transport, decoder). */
  datatype Fault = Fault(message: string)

  /** What Execute returns when it fails. */
  datatype ExecError =
    | LibraryError(fault: Fault)
    | ServerErrors(errs: Errors)

  /** The text of a returned error (its Error method). */
  function ExecErrorText(e: ExecError): (r: string)
    ensures e.LibraryError? ==> r == e.fault.message
    ensures e.ServerErrors? && e.errs == [] ==> r == ""
    ensures e.ServerErrors? && |e.errs| == 1 ==> r == e.errs[0].message
  {
    match e
    case LibraryError(f) => f.message
    case ServerErrors(errs) => CombinedMessage(errs)
  }

  /**
   * The foreign code Execute relies on, with `T` the type of the caller's
   * decode target. `decodeData` yields the target after the attempt (a
   * failing decode may already have written part of it) and the error, if any.
   */
  datatype Collaborators<!T> = Collaborators(
    encode: Request -> Result<Bytes, Fault>,
    newRequest: (string, string) -> Option<Fault>,
    exchange: HttpRequest -> Result<Bytes, Fault>,
    decodeEnvelope: Bytes -> Result<Envelope, Fault>,
    decodeData: (Bytes, T) -> (T, Option<Fault>),
    decodeErrors: Bytes -> Result<Errors, Fault>)

  /** The only HTTP method Execute uses. */
  const Post: string := "POST"

  /** The request Execute sends: none when encoding or building it failed. */
  function Outbound<T>(c: Collaborators<T>, endpoint: string, headers: map<string, string>, r: Request): (sent: seq<HttpRequest>)
    ensures |sent| <= 1
    ensures sent != [] ==>
      && sent[0].verb == "POST" && sent[0].url == endpoint && sent[0].header == headers
      && c.encode(r) == Ok(sent[0].body)
    ensures sent == [] <==> c.encode(r).Err? || c.newRequest(Post, endpoint).Some?
  {
    match c.encode(r)
    case Err(_) => []
    case Ok(payload) =>
      if c.newRequest(Post, endpoint).Some? then []
      else [HttpRequest(Post, endpoint, headers, payload)]
  }

  /** The first four steps, which stop at the first fault: encode, build, send, decode the envelope. */
  function Prelude<T>(c: Collaborators<T>, endpoint: string, headers: map<string, string>, r: Request): (res: Result<Envelope, Fault>)
    ensures Outbound(c, endpoint, headers, r) == [] ==> res.Err?
    ensures res.Ok? ==>
      var sent := Outbound(c, endpoint, headers, r);
      |sent| == 1 && c.exchange(sent[0]).Ok? && res == c.decodeEnvelope(c.exchange(sent[0]).value)
  {
    match c.encode(r)
    case Err(f) => Err(f)
    case Ok(payload) =>
      match c.newRequest(Post, endpoint)
      case Some(f) => Err(f)
      case None =>
        match c.exchange(HttpRequest(Post, endpoint, headers, payload))
        case Err(f) => Err(f)
        case Ok(body) => c.decodeEnvelope(body)
  }

  /** The last two steps: decode "data" into the target, then look at "errors". */
  function Settle<T>(c: Collaborators<T>, env: Envelope, before: T): (out: (T, Option<ExecError>))
    ensures env.data.None? ==> out.0 == before
    ensures out.1.None? <==> env.errors.None? && (env.data.Some? ==> c.decodeData(env.data.value, before).1.None?)
    ensures out.1.Some? && out.1.value.ServerErrors? ==> env.errors.Some?
  {
    var (after, fault) := if env.data.Some? then c.decodeData(env.data.value, before) else (before, None);
    if fault.Some? then (after, Some(LibraryError(fault.value)))
    else if env.errors.Some? then
      match c.decodeErrors(env.errors.value)
      case Err(f) => (after, Some(LibraryError(f)))
      case Ok(errs) => (after, Some(ServerErrors(errs)))
    else (after, None)
  }

  /** One Execute call: the target afterwards and the returned error. */
  function Run<T>(c: Collaborators<T>, endpoint: string, headers: map<string, string>, r: Request, before: T): (out: (T, Option<ExecError>))
    ensures out.0 != before ==> Prelude(c, endpoint, headers, r).Ok? && Prelude(c, endpoint, headers, r).value.data.Some?
    ensures out.1.Some? && out.1.value.ServerErrors? ==> Prelude(c, endpoint, headers, r).Ok? && Prelude(c, endpoint, headers, r).value.errors.Some?
    ensures Outbound(c, endpoint, headers, r) == [] ==> out.0 == before && out.1.Some? && out.1.value.LibraryError?
  {
    match Prelude(c, endpoint, headers, r)
    case Err(f) => (before, Some(LibraryError(f)))
    case Ok(env) => Settle(c, env, before)
  }

  /** An encoding failure is returned as is; nothing is sent and the target is untouched. */
  lemma EncodeFailureStops<T>(c: Collaborators<T>, endpoint: string, headers: map<string, string>, r: Request, before: T)
    requires c.encode(r).Err?
    ensures Outbound(c, endpoint, headers, r) == []
    ensures Run(c, endpoint, headers, r, before) == (before, Some(LibraryError(c.encode(r).error)))
  {
  }

  /** A request-construction failure is returned as is; nothing is sent and the target is untouched. */
  lemma RequestFailureStops<T>(c: Collaborators<T>, endpoint: string, headers: map<string, string>, r: Request, before: T)
    requires c.encode(r).Ok? && c.newRequest(Post, endpoint).Some?
    ensures Outbound(c, endpoint, headers, r) == []
    ensures Run(c, endpoint, headers, r, before) == (before, Some(LibraryError(c.newRequest(Post, endpoint).value)))
  {
  }

  /**
   * Once encoding and construction succeed, exactly one POST goes to the
   * endpoint, carrying the encoded body and every current header.
   */
  lemma SentRequest<T>(c: Collaborators<T>, endpoint: string, headers: map<string, string>, r: Request)
    requires c.encode(r).Ok? && c.newRequest(Post, endpoint).None?
    ensures |Outbound(c, endpoint, headers, r)| == 1
    ensures Outbound(c, endpoint, headers, r)[0] == HttpRequest("POST", endpoint, headers, c.encode(r).value)
  {
  }

  /** A transport failure is returned as is; the target is untouched. */
  lemma TransportFailureStops<T>(c: Collaborators<T>, endpoint: string, headers: map<string, string>, r: Request, before: T)
    requires c.encode(r).Ok? && c.newRequest(Post, endpoint).None?
    requires c.exchange(Outbound(c, endpoint, headers, r)[0]).Err?
    ensures Run(c, endpoint, headers, r, before) == (before, Some(LibraryError(c.exchange(Outbound(c, endpoint, headers, r)[0]).error)))
  {
  }

  /** A malformed envelope is returned as is; the target is untouched. */
  lemma EnvelopeFailureStops<T>(c: Collaborators<T>, endpoint: string, headers: map<string, string>, r: Request, before: T, body: Bytes)
    requires c.encode(r).Ok? && c.newRequest(Post, endpoint).None?
    requires c.exchange(Outbound(c, endpoint, headers, r)[0]) == Ok(body)
    requires c.decodeEnvelope(body).Err?
    ensures Run(c, endpoint, headers, r, before) == (before, Some(LibraryError(c.decodeEnvelope(body).error)))
  {
  }

  /** A failing "data" decode is returned whatever "errors" holds. */
  lemma DataFailureWins<T>(c: Collaborators<T>, env: Envelope, before: T)
    requires env.data.Some? && c.decodeData(env.data.value, before).1.Some?
    ensures Settle(c, env, before) == (c.decodeData(env.data.value, before).0, Some(LibraryError(c.decodeData(env.data.value, before).1.value)))
  {
  }

  /**
   * A present "errors" field, even an empty array, becomes the returned
   * failure, after "data" has been written to the target.
   */
  lemma ErrorsBecomeFailure<T>(c: Collaborators<T>, env: Envelope, before: T, errs: Errors)
    requires env.data.Some? ==> c.decodeData(env.data.value, before).1.None?
    requires env.errors.Some? && c.decodeErrors(env.errors.value) == Ok(errs)
    ensures Settle(c, env, before).1 == Some(ServerErrors(errs))
    ensures Settle(c, env, before).0 == if env.data.Some? then c.decodeData(env.data.value, before).0 else before
  {
  }

  /** A failing "errors" decode is returned as is, after "data" has been written to the target. */
  lemma ErrorsDecodeFailureStops<T>(c: Collaborators<T>, env: Envelope, before: T, f: Fault)
    requires env.data.Some? ==> c.decodeData(env.data.value, before).1.None?
    requires env.errors.Some? && c.decodeErrors(env.errors.value) == Err(f)
    ensures Settle(c, env, before).1 == Some(LibraryError(f))
    ensures Settle(c, env, before).0 == if env.data.Some? then c.decodeData(env.data.value, before).0 else before
  {
  }

  /** With neither field present the call succeeds and the target is left alone. */
  lemma NeitherFieldSucceeds<T>(c: Collaborators<T>, before: T)
    ensures Settle(c, Envelope(None, None), before) == (before, None)
  {
  }

  /**
   * Execute returns no error exactly when the first four steps succeed,
   * "errors" is absent, and "data" is absent or decodes cleanly.
   */
  lemma SucceedsIff<T>(c: Collaborators<T>, endpoint: string, headers: map<string, string>, r: Request, before: T)
    ensures Run(c, endpoint, headers, r, before).1.None? <==>
      var p := Prelude(c, endpoint, headers, r);
      && p.Ok?
      && p.value.errors.None?
      && (p.value.data.Some? ==> c.decodeData(p.value.data.value, before).1.None?)
  {
  }

  /** The target changes only through decoding a present "data" field. */
  lemma TargetOnlyFromData<T>(c: Collaborators<T>, endpoint: string, headers: map<string, string>, r: Request, before: T)
    ensures
      var p := Prelude(c, endpoint, headers, r);
      Run(c, endpoint, headers, r, before).0 ==
        if p.Ok? && p.value.data.Some? then c.decodeData(p.value.data.value, before).0 else before
  {
  }

  /**
   * A server that answers with only an "errors" array holding one error
   * "field not found": Execute fails with exactly that text and the target
   * keeps its value.
   */
  lemma FieldNotFoundScenario<T>(c: Collaborators<T>, endpoint: string, headers: map<string, string>, r: Request, before: T,
                                 body: Bytes, raw: Bytes, e: Error)
    requires c.encode(r).Ok? && c.newRequest(Post, endpoint).None?
    requires c.exchange(Outbound(c, endpoint, headers, r)[0]) == Ok(body)
    requires c.decodeEnvelope(body) == Ok(Envelope(None, Some(raw)))
    requires c.decodeErrors(raw) == Ok([e]) && e.message == "field not found"
    ensures Run(c, endpoint, headers, r, before).0 == before
    ensures Run(c, endpoint, headers, r, before).1.Some?
    ensures ExecErrorText(Run(c, endpoint, headers, r, before).1.value) == "field not found"
  {
  }
}
