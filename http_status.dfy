/** The HTTP status codes (`org.springframework.http.HttpStatus`) the gateway reads or answers with. */
module HttpStatus {
  const HTTP_OK: int := 200
  const HTTP_BAD_REQUEST: int := 400
  const HTTP_NOT_FOUND: int := 404
  const HTTP_UNPROCESSABLE_ENTITY: int := 422
  const HTTP_SERVICE_UNAVAILABLE: int := 503
}
