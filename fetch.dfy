/**
 * The status-code decision of the HTTP helper `FetchData` (fetch/fetch.go).
 * Building and sending the request is not modelled; a response arrives as
 * its status code and the outcome of reading its body.
 */
module Fetch {
  import opened Wrappers

  type Bytes = seq<bv8>

  /**
   * The request descriptor handed to the helper (`verb` is its HTTP method). `wantErrCodes` is Go's
   * `WantErrCodes []int`: `None` is a nil slice, `Some([])` a non-nil empty one.
   * Headers, API keys and the JSON body are not part of the model.
   */
  datatype FetcherParams = FetcherParams(
    verb: string,
    url: string,
    params: map<string, string>,
    useProxy: bool,
    wantErrCodes: Option<seq<int>>)

  datatype FetchError =
    | TransportError                 // proxy, URL, encoding or connection failure
    | Not200Status(code: int)        // "failed to get 200 status code"
    | UnwantedStatus(code: int)      // "failed to get wanted status code"
    | ReadError                      // the body could not be read

  /** A response once the request was sent: its status and the result of reading its body. */
  datatype Response = Response(statusCode: int, body: Result<Bytes, FetchError>)

  /**
   * Whether a response status passes the check of fetch/fetch.go:103-109,
   * written as the source writes it: rejected when there is no accepted list
   * and the status is not 200, or when there is a list and it lacks the status.
   */
  predicate StatusAccepted(wantErrCodes: Option<seq<int>>, statusCode: int)
  {
    !((wantErrCodes.None? && statusCode != 200)
      || (wantErrCodes.Some? && statusCode !in wantErrCodes.value))
  }

  /** With no accepted list, exactly status 200 passes. */
  lemma DefaultAcceptsOnly200(statusCode: int)
    ensures StatusAccepted(None, statusCode) <==> statusCode == 200
  {
  }

  /** With a list, exactly its members pass; 200 gets no special treatment. */
  lemma ListAcceptsItsMembers(codes: seq<int>, statusCode: int)
    ensures StatusAccepted(Some(codes), statusCode) <==> statusCode in codes
  {
  }

  /** A non-nil empty list rejects every status. */
  lemma EmptyListRejectsAll(statusCode: int)
    ensures !StatusAccepted(Some([]), statusCode)
  {
  }

  /**
   * `FetchData` from the moment the response is in: a rejected status gives
   * no bytes and an error, and the body is not read; otherwise the body's
   * read outcome is returned.
   */
  function CheckResponse(fp: FetcherParams, resp: Response): (r: Result<Bytes, FetchError>)
    ensures r.Success? <==> StatusAccepted(fp.wantErrCodes, resp.statusCode) && resp.body.Success?
    ensures r.Success? ==> r.value == resp.body.value
    ensures !StatusAccepted(fp.wantErrCodes, resp.statusCode) ==>
      r == Failure(if fp.wantErrCodes.None? then Not200Status(resp.statusCode)
                   else UnwantedStatus(resp.statusCode))
  {
    if fp.wantErrCodes.None? && resp.statusCode != 200 then
      Failure(Not200Status(resp.statusCode))
    else if fp.wantErrCodes.Some? && resp.statusCode !in fp.wantErrCodes.value then
      Failure(UnwantedStatus(resp.statusCode))
    else
      resp.body
  }

  /** A rejected response's outcome does not depend on its body: the body is never read. */
  lemma RejectedBodyNotRead(fp: FetcherParams, code: int, b1: Result<Bytes, FetchError>, b2: Result<Bytes, FetchError>)
    requires !StatusAccepted(fp.wantErrCodes, code)
    ensures CheckResponse(fp, Response(code, b1)) == CheckResponse(fp, Response(code, b2))
    ensures CheckResponse(fp, Response(code, b1)).Failure?
  {
  }
}
