/**
 * The response objects that both Lambda handlers return to API Gateway:
 * a status code, a header map and an optional JSON body.
 */
module Http {

  /** The JSON body of a response; `NoBody` when the handler sets none. */
  datatype Body =
    | NoBody
    | ErrorBody(error: string)        // `{"error": ...}`
    | ShortUrlBody(shortUrl: string)  // `{"shortUrl": ...}`

  datatype Response = Response(statusCode: int, headers: map<string, string>, body: Body)
}
