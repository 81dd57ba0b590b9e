/** The HTTP replies the controllers send: a status code and a message. */
module Http {

  const OK := 200
  const CreatedStatus := 201
  const BadRequest := 400
  const Unauthorized := 401
  const NotFound := 404
  const ServerError := 500

  /** `res.status(status).json({ message })`; a plain `res.json(...)` has status 200. */
  datatype Reply = Reply(status: nat, message: string)
}
