/** Spring's `HttpStatus`, shared by the service's errors and the handler's responses. */
module Http {

  /** An HTTP status, by its numeric value. */
  datatype HttpStatus = HttpStatus(value: int)

  const BAD_REQUEST := HttpStatus(400)
}
