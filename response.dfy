/** The JSON envelope every endpoint answers with. Writing to the gin context is modelled
    by returning the status code together with the body that would be written. */
module Response {
  import opened Models

  /** The values that travel in the envelope's `data` and `error` fields; `Null` is Go's nil,
      which `omitempty` leaves out of the JSON. */
  datatype Json =
    | Null
    | Str(s: string)
    | UserJson(user: UserResponse)
    | AuthJson(auth: AuthResponse)
    | UserList(users: seq<UserResponse>)
    | ErrorMap(fields: map<string, string>)

  datatype PaginationMeta = PaginationMeta(currentPage: int, perPage: int, total: int, totalPages: int)

  /** `Response` and `PaginatedResponse` of the source. */
  datatype Body =
    | Envelope(success: bool, message: string, data: Json, error: Json)
    | PagedEnvelope(success: bool, message: string, data: Json, pagination: PaginationMeta)

  datatype Reply = Reply(status: int, body: Body)

  const STATUS_OK: int := 200
  const STATUS_CREATED: int := 201
  const STATUS_BAD_REQUEST: int := 400
  const STATUS_UNAUTHORIZED: int := 401
  const STATUS_FORBIDDEN: int := 403
  const STATUS_NOT_FOUND: int := 404
  const STATUS_INTERNAL_SERVER_ERROR: int := 500

  function Success(message: string, data: Json): (r: Reply)
    ensures r.status == 200 && r.body.Envelope?
    ensures r.body.success && r.body.message == message && r.body.data == data && r.body.error == Null
  {
    Reply(STATUS_OK, Envelope(true, message, data, Null))
  }

  function Created(message: string, data: Json): (r: Reply)
    ensures r.status == 201 && r.body.Envelope?
    ensures r.body.success && r.body.message == message && r.body.data == data && r.body.error == Null
  {
    Reply(STATUS_CREATED, Envelope(true, message, data, Null))
  }

  function BadRequest(message: string, err: Json): (r: Reply)
    ensures r.status == 400 && r.body.Envelope?
    ensures !r.body.success && r.body.message == message && r.body.data == Null && r.body.error == err
  {
    Reply(STATUS_BAD_REQUEST, Envelope(false, message, Null, err))
  }

  function Unauthorized(message: string): (r: Reply)
    ensures r.status == 401 && r.body.Envelope?
    ensures !r.body.success && r.body.message == message && r.body.data == Null && r.body.error == Null
  {
    Reply(STATUS_UNAUTHORIZED, Envelope(false, message, Null, Null))
  }

  function Forbidden(message: string): (r: Reply)
    ensures r.status == 403 && r.body.Envelope?
    ensures !r.body.success && r.body.message == message && r.body.data == Null && r.body.error == Null
  {
    Reply(STATUS_FORBIDDEN, Envelope(false, message, Null, Null))
  }

  function NotFound(message: string): (r: Reply)
    ensures r.status == 404 && r.body.Envelope?
    ensures !r.body.success && r.body.message == message && r.body.data == Null && r.body.error == Null
  {
    Reply(STATUS_NOT_FOUND, Envelope(false, message, Null, Null))
  }

  function InternalServerError(message: string, err: Json): (r: Reply)
    ensures r.status == 500 && r.body.Envelope?
    ensures !r.body.success && r.body.message == message && r.body.data == Null && r.body.error == err
  {
    Reply(STATUS_INTERNAL_SERVER_ERROR, Envelope(false, message, Null, err))
  }

  function Paginated(message: string, data: Json, pagination: PaginationMeta): (r: Reply)
    ensures r.status == 200 && r.body.PagedEnvelope?
    ensures r.body.success && r.body.message == message && r.body.data == data
    ensures r.body.pagination == pagination
  {
    Reply(STATUS_OK, PagedEnvelope(true, message, data, pagination))
  }

  /** A reply reports success exactly when its status is in the 2xx range. */
  predicate Consistent(r: Reply) {
    r.body.success <==> 200 <= r.status < 300
  }

  /** Every helper produces a consistent envelope, whatever its arguments. */
  lemma HelpersConsistent(message: string, data: Json, err: Json, meta: PaginationMeta)
    ensures Consistent(Success(message, data)) && Consistent(Created(message, data))
    ensures Consistent(BadRequest(message, err)) && Consistent(Unauthorized(message))
    ensures Consistent(Forbidden(message)) && Consistent(NotFound(message))
    ensures Consistent(InternalServerError(message, err)) && Consistent(Paginated(message, data, meta))
  {
  }
}
