/** What a route handler sends back: a status code with a JSON body, or a JSON
    `{ error }` object. */
module Http {

  datatype ApiError = ApiError(status: int, message: string)

  /** `res.json(body)` (200), `res.status(201).json(body)`, `res.status(204).send()`,
      or `res.status(e.status).json({ error: e.message })`. */
  datatype Reply<+T> = Ok(body: T) | Created(body: T) | NoContent | Err(error: ApiError)

  /** The status code a reply is sent with. */
  function StatusCode<T>(r: Reply<T>): (code: int)
    ensures r.Err? ==> code == r.error.status
    ensures r.Ok? ==> code == 200
    ensures r.Created? ==> code == 201
    ensures r.NoContent? ==> code == 204
    ensures !r.Err? ==> 200 <= code < 300
  {
    match r
    case Ok(_) => 200
    case Created(_) => 201
    case NoContent => 204
    case Err(e) => e.status
  }

  // Middleware
  const UNAUTHORIZED := ApiError(401, "Unauthorized")
  const INVALID_TOKEN := ApiError(401, "Invalid token")
  const FORBIDDEN := ApiError(403, "Forbidden. Admin access required.")

  // Events
  const EVENT_NOT_FOUND := ApiError(404, "Event not found")
  const FULL_CAPACITY := ApiError(400, "Event is at full capacity")
  const ALREADY_REGISTERED := ApiError(400, "Already registered for this event")
  const REGISTRATION_NOT_FOUND := ApiError(404, "Registration not found")

  // Accounts
  const CREDENTIALS_REQUIRED := ApiError(400, "Email and password are required")
  const EMAIL_IN_USE := ApiError(400, "Email already in use")
  const INVALID_CREDENTIALS := ApiError(401, "Invalid credentials")

  /** The catch-all answer when the store throws (a missing row for update or
      delete, a foreign-key violation). */
  const INTERNAL_ERROR := ApiError(500, "Internal server error")
}
