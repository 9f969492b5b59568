/**
 * The HTTP client (doRequest, main.go:319-366) with the transport replaced by
 * an oracle: a Server answers each request, given every request sent before it,
 * with either a transport failure or a status code and a body.
 */
module Http {
  import opened Optional
  import opened Releases

  datatype Method = Get | Post | Delete

  /** What a request carries: nothing, a release serialised as JSON, or the bytes of a local file. */
  datatype Payload = NoPayload | ReleasePayload(release: Release) | FilePayload(path: string, size: int)

  datatype Request = Request(verb: Method, url: string, contentType: string, payload: Payload)

  /** What the remote side does with a request. */
  datatype Reply = TransportFailure | Answer(status: int, body: Body)

  /** The remote API: its answer may depend on the whole history of earlier requests. */
  type Server = (seq<Request>, Request) -> Reply

  /** The error doRequest reports: a transport failure, or a status outside the success set with its body. */
  datatype HttpError = TransportError | StatusError(status: int, body: Body)

  /** doRequest's pair of results: the body (nil when absent) and the error (nil on success). */
  datatype Response = Response(data: Option<Body>, err: Option<HttpError>)

  const STATUS_OK := 200
  const STATUS_CREATED := 201
  const STATUS_NO_CONTENT := 204

  /**
   * How doRequest turns a reply into its results: 200, 201 and 204 succeed;
   * any other status is an error that still hands back the body; a transport
   * failure hands back no body at all.
   */
  function Classify(reply: Reply): (r: Response)
    ensures r.err.None? <==> reply.Answer? && reply.status in {200, 201, 204}
    ensures r.data.Some? <==> reply.Answer?
    ensures reply.Answer? ==> r.data.value == reply.body
    ensures reply.Answer? && r.err.Some? ==> r.err.value == StatusError(reply.status, reply.body)
    ensures reply.TransportFailure? ==> r.err == Some(TransportError)
  {
    match reply
    case TransportFailure => Response(None, Some(TransportError))
    case Answer(status, body) =>
      if status != STATUS_OK && status != STATUS_NO_CONTENT && status != STATUS_CREATED then
        Response(Some(body), Some(StatusError(status, body)))
      else
        Response(Some(body), None)
  }
}
