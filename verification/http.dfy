/** The HTTP surface shared by both workers and the Pages function: a response is a
    status code plus an abstract body; CORS headers and content types are not modelled. */
module Http {
  import opened Wrappers
  import opened Json

  /** An inbound request: its method, `new URL(request.url).pathname`, and its body as
      `request.json()` would parse it (`None` when that rejects). */
  datatype Request = Request(verb: string, path: string, body: Option<Json>)

  /** The JSON (or empty) body a handler answers with. */
  datatype Body =
    | NoContent
    | ErrorBody(error: string)
    | Shortened(shortUrl: string, longUrl: string)
    | RedirectTo(location: string)
    | SuccessBody
    | Speedometer(version: string, deployTimestamp: string, commitSummary: string,
                  totalRedirects: int, averageRedirectMs: real)

  datatype Response = Response(status: nat, body: Body)

  const Ok: nat := 200
  const NoContentStatus: nat := 204
  const Found: nat := 302
  const BadRequest: nat := 400
  const NotFound: nat := 404
  const ServerError: nat := 500

  /** The generic answer of every `catch` block: a failed `request.json()`, or a property
      read on a JSON `null` body. */
  const InternalError: Response := Response(ServerError, ErrorBody("Internal server error"))

  /** The fallback of both workers' routers. */
  const RouteNotFound: Response := Response(NotFound, ErrorBody("Not found"))
}
