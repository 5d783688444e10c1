/** The parts of the Swifter HTTP server's request and response types that the engine uses. */
module Swifter {
  import opened Wrappers

  /** An incoming request as the transport has parsed it (`httpMethod` is Swifter's `method`). */
  datatype HttpRequest = HttpRequest(httpMethod: string, path: string, params: map<string, string>)

  /**
   * `HttpResponse.raw(statusCode, reasonPhrase, headers, writer)`. The body is the text
   * the writer writes; `None` when there is no writer. A nil header dictionary is empty.
   */
  datatype HttpResponse = Raw(
    statusCode: int,
    reasonPhrase: string,
    headers: map<string, string>,
    body: Option<string>)
}
