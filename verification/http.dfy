/** The shape of the JSON responses the two request handlers send. */
module Http {

  /** The JSON bodies the handlers produce: `{summary}`, `{error}` or `{success, message}`. */
  datatype Body =
    | SummaryBody(summary: string)
    | ErrorBody(error: string)
    | SuccessBody(success: bool, message: string)

  /** `res.status(status).json(body)`. */
  datatype Response = Response(status: nat, body: Body)

  /** A response with an `{error}` body. */
  function Fail(status: nat, error: string): Response {
    Response(status, ErrorBody(error))
  }
}
