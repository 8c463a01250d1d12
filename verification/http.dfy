/**
 * The outcome of one outbound HTTP call, as the vendor adapters observe it
 * through Laravel's HTTP client: a status code with a decoded JSON body (Null
 * when the body is not JSON), or an exception raised before any response.
 */
module Http {
  import opened Php

  datatype Response =
    | Response(code: int, body: Value)
    | Thrown(message: string)

  /** `$response->successful()`: a 2xx status. */
  predicate Successful(r: Response) {
    r.Response? && 200 <= r.code < 300
  }

  /** `$response->json()` for a call that produced a response. */
  function Body(r: Response): Value {
    if r.Response? then r.body else Null
  }
}
