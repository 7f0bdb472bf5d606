/** The shape of a route handler's answer: a JSON body on success, or an error status and message. */
module Http {

  datatype Response<+T> = Ok(body: T) | Error(status: int, message: string)

  const BadRequest := 400
  const NotFound := 404
  const Conflict := 409
  const InternalError := 500
}
