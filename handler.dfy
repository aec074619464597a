/** The HTTP handlers of the auth and user routes: what each writes for a given request
    (status and envelope), which service call it makes, and the page arithmetic of the user
    list. The gin context is replaced by the handler's inputs (path parameter, query values,
    decoded body) and its returned reply. */
module Handler {
  import opened Errors
  import opened Models
  import opened Strconv
  import opened Response
  import opened Validator
  import opened Request
  import opened Repository
  import opened Service

  const REGISTERED: string := "User registered successfully"
  const LOGGED_IN: string := "Login successful"
  const USER_CREATED: string := "User created successfully"
  const FETCH_FAILED: string := "Failed to fetch users"
  const USERS_RETRIEVED: string := "Users retrieved successfully"
  const INVALID_ID: string := "Invalid user ID"
  const USER_RETRIEVED: string := "User retrieved successfully"
  const USER_UPDATED: string := "User updated successfully"
  const USER_DELETED: string := "User deleted successfully"

  /** gin's DefaultQuery: the query value when the key is present (even if empty), else the default. */
  function QueryOr(query: Option<string>, default: string): (s: string)
    ensures query.None? ==> s == default
    ensures query.Some? ==> s == query.value
  {
    if query.Some? then query.value else default
  }

  /** The page number GetAll works with: the parsed `page` query, raised to 1 when below 1. */
  function PageNumber(query: Option<string>): (page: Int64)
    ensures page >= 1
    ensures Atoi(QueryOr(query, "1")).0 >= 1 ==> page == Atoi(QueryOr(query, "1")).0
    ensures Atoi(QueryOr(query, "1")).0 < 1 ==> page == 1
  {
    var n := Atoi(QueryOr(query, "1")).0;
    if n < 1 then 1 else n
  }

  /** The page size GetAll works with: the parsed `per_page` query when it lies in 1..100,
      and 10 (not the nearer bound) otherwise. */
  function PerPageNumber(query: Option<string>): (perPage: Int64)
    ensures 1 <= perPage <= 100
    ensures 1 <= Atoi(QueryOr(query, "10")).0 <= 100 ==> perPage == Atoi(QueryOr(query, "10")).0
    ensures !(1 <= Atoi(QueryOr(query, "10")).0 <= 100) ==> perPage == 10
  {
    var n := Atoi(QueryOr(query, "10")).0;
    if n < 1 || n > 100 then 10 else n
  }

  /** Without query values the first page of ten is listed. */
  lemma DefaultPaging()
    ensures PageNumber(None) == 1 && PerPageNumber(None) == 10
  {
    AtoiOfDecimal(1);
    AtoiOfDecimal(10);
    assert Decimal(1) == "1";
    assert Decimal(10) == "10";
  }

  /** A query value that is not a number (and does not start with more digits than a uint64
      holds) counts as absent: Atoi's value on a syntax error is 0. */
  lemma MalformedQueryUsesDefaults(s: string)
    requires Unsigned(s) == [] || !AllDigits(Unsigned(s))
    requires Value(LeadingDigits(Unsigned(s))) <= MAX_UINT64
    ensures PageNumber(Some(s)) == 1 && PerPageNumber(Some(s)) == 10
  {
  }

  /** A page query of only digits beyond the int64 range is read as the largest int64 (the
      error is ignored); the offset (page - 1) * perPage then wraps to a negative number, which
      the store treats as no offset, so the first page is listed under that page number. */
  lemma HugePageListsFirstPage(s: string, live: seq<User>)
    requires s != [] && AllDigits(s) && Value(s) > MAX_INT64
    ensures PageNumber(Some(s)) == MAX_INT64
    ensures Offset(MAX_INT64, 10) == -20
    ensures Page(live, 10, Offset(MAX_INT64, 10)) == Page(live, 10, 0)
  {
    assert IsDigit(s[0]);
    assert Unsigned(s) == s;
  }

  /** The number of pages: the smallest n whose n pages of `perPage` hold `total` records. */
  function TotalPages(total: nat, perPage: nat): (n: nat)
    requires perPage >= 1
    ensures n * perPage >= total
    ensures n == 0 || (n - 1) * perPage < total
    decreases total
  {
    if total == 0 then 0
    else if total <= perPage then 1
    else 1 + TotalPages(total - perPage, perPage)
  }

  /** Only one n is the smallest cover. */
  lemma SmallestCoverUnique(n: nat, m: nat, total: nat, perPage: nat)
    requires perPage >= 1
    requires n * perPage >= total && (n == 0 || (n - 1) * perPage < total)
    requires m * perPage >= total && (m == 0 || (m - 1) * perPage < total)
    ensures n == m
  {
    if n < m {
      MultiplyOrdered(n, m - 1, perPage);
    } else if m < n {
      MultiplyOrdered(m, n - 1, perPage);
    }
  }

  /** The handler's division with a round-up step computes the number of pages. */
  lemma DivisionRoundsUp(total: nat, perPage: nat)
    requires perPage >= 1
    ensures total / perPage + (if total % perPage > 0 then 1 else 0) == TotalPages(total, perPage)
  {
    var q, r := total / perPage, total % perPage;
    assert total == q * perPage + r;
    var n := q + (if r > 0 then 1 else 0);
    assert n * perPage == q * perPage + (if r > 0 then perPage else 0);
    if n > 0 {
      assert (n - 1) * perPage == n * perPage - perPage;
    }
    SmallestCoverUnique(n, TotalPages(total, perPage), total, perPage);
  }

  /** Register's reply for the service's result. */
  function RegisterReply(res: Result<AuthResponse>): (reply: Reply)
    ensures res.Err? ==> reply == BadRequest(Text(res.error), Null)
    ensures res.Ok? ==> reply == Created(REGISTERED, AuthJson(res.value))
  {
    if res.Err? then BadRequest(Text(res.error), Null) else Created(REGISTERED, AuthJson(res.value))
  }

  /** Login's reply for the service's result: the error text passes through unchanged. */
  function LoginReply(res: Result<AuthResponse>): (reply: Reply)
    ensures res.Err? ==> reply == BadRequest(Text(res.error), Null)
    ensures res.Ok? ==> reply == Success(LOGGED_IN, AuthJson(res.value))
  {
    if res.Err? then BadRequest(Text(res.error), Null) else Success(LOGGED_IN, AuthJson(res.value))
  }

  /** User creation: service errors are 400. */
  function CreateReply(res: Result<UserResponse>): (reply: Reply)
    ensures res.Err? ==> reply == BadRequest(Text(res.error), Null)
    ensures res.Ok? ==> reply == Created(USER_CREATED, UserJson(res.value))
  {
    if res.Err? then BadRequest(Text(res.error), Null) else Created(USER_CREATED, UserJson(res.value))
  }

  /** Update: service errors, "user not found" included, are 400. */
  function UpdateReply(res: Result<UserResponse>): (reply: Reply)
    ensures res.Err? ==> reply == BadRequest(Text(res.error), Null)
    ensures res.Ok? ==> reply == Success(USER_UPDATED, UserJson(res.value))
  {
    if res.Err? then BadRequest(Text(res.error), Null) else Success(USER_UPDATED, UserJson(res.value))
  }

  /** Delete: every service error, storage errors included, is 404. */
  function DeleteReply(res: Result<()>): (reply: Reply)
    ensures res.Err? ==> reply == NotFound(Text(res.error))
    ensures res.Ok? ==> reply == Success(USER_DELETED, Null)
  {
    if res.Err? then NotFound(Text(res.error)) else Success(USER_DELETED, Null)
  }

  /** Every reply a handler maps a service result to reports success exactly on a 2xx status. */
  lemma RepliesConsistent(auth: Result<AuthResponse>, user: Result<UserResponse>, done: Result<()>)
    ensures Consistent(RegisterReply(auth)) && Consistent(LoginReply(auth))
    ensures Consistent(CreateReply(user)) && Consistent(UpdateReply(user)) && Consistent(DeleteReply(done))
  {
  }

  class AuthHandler {
    const service: AuthService
    const isEmail: string -> bool

    constructor (service: AuthService, isEmail: string -> bool)
      ensures this.service == service && this.isEmail == isEmail
    {
      this.service := service;
      this.isEmail := isEmail;
    }

    /** POST /auth/register: a refused body is answered by the validator and the service is
        not called; otherwise the service's result is mapped by RegisterReply. */
    method Register(body: Bind<RegisterRequest>, now: Time) returns (reply: Reply, ghost served: Option<Result<AuthResponse>>)
      requires service.repo.Valid()
      modifies service.repo
      ensures service.repo.Valid() && service.repo.faults == old(service.repo.faults)
      ensures !Admits(body, RegisterFields, isEmail) ==>
        reply == Refusal(body, RegisterFields, isEmail) && served == None
        && service.repo.rows == old(service.repo.rows)
      ensures Admits(body, RegisterFields, isEmail) ==>
        served.Some? && reply == RegisterReply(served.value) && service.RegisterOutcome(body.value, now, served.value)
    {
      var admitted := BindAndValidate(body, RegisterFields, isEmail);
      if admitted.Refused? {
        return admitted.reply, None;
      }
      var res := service.Register(admitted.value, now);
      return RegisterReply(res), Some(res);
    }

    /** POST /auth/login: a refused body is answered by the validator; otherwise the reply is
        LoginReply of the service's login, and the store is only read. */
    method Login(body: Bind<LoginRequest>) returns (reply: Reply)
      requires service.repo.Valid()
      ensures !Admits(body, LoginFields, isEmail) ==> reply == Refusal(body, LoginFields, isEmail)
      ensures Admits(body, LoginFields, isEmail) ==> reply == LoginReply(service.Login(body.value))
    {
      var admitted := BindAndValidate(body, LoginFields, isEmail);
      if admitted.Refused? {
        return admitted.reply;
      }
      return LoginReply(service.Login(admitted.value));
    }

    /** An unknown e-mail and a wrong password produce the very same reply. */
    lemma LoginFailuresLookAlike(unknown: LoginRequest, wrong: LoginRequest)
      requires service.repo.Valid() && FindByEmailOp !in service.repo.faults && UniqueEmails(service.repo.rows)
      requires forall u | u in Live(service.repo.rows) :: u.email != unknown.email
      requires exists u | u in Live(service.repo.rows) ::
        u.email == wrong.email && !service.bcrypt.matches(u.password, wrong.password)
      ensures LoginReply(service.Login(unknown)) == LoginReply(service.Login(wrong))
                == BadRequest(INVALID_CREDENTIALS, Null)
    {
      service.UnknownEmailLooksLikeWrongPassword(unknown, wrong);
    }
  }

  class UserHandler {
    const service: UserService
    const isEmail: string -> bool

    constructor (service: UserService, isEmail: string -> bool)
      ensures this.service == service && this.isEmail == isEmail
    {
      this.service := service;
      this.isEmail := isEmail;
    }

    /** POST /users. */
    method Create(body: Bind<CreateUserRequest>, now: Time) returns (reply: Reply, ghost served: Option<Result<UserResponse>>)
      requires service.repo.Valid()
      modifies service.repo
      ensures service.repo.Valid() && service.repo.faults == old(service.repo.faults)
      ensures !Admits(body, CreateUserFields, isEmail) ==>
        reply == Refusal(body, CreateUserFields, isEmail) && served == None
        && service.repo.rows == old(service.repo.rows)
      ensures Admits(body, CreateUserFields, isEmail) ==>
        served.Some? && reply == CreateReply(served.value) && service.CreateOutcome(body.value, now, served.value)
    {
      var admitted := BindAndValidate(body, CreateUserFields, isEmail);
      if admitted.Refused? {
        return admitted.reply, None;
      }
      var res := service.Create(admitted.value, now);
      return CreateReply(res), Some(res);
    }

    /** GET /users: page and page size from the query, normalised; a service error is a 500;
        otherwise the page of users with its pagination meta. */
    method GetAll(pageQuery: Option<string>, perPageQuery: Option<string>) returns (reply: Reply)
      ensures var page := PageNumber(pageQuery);
        var perPage := PerPageNumber(perPageQuery);
        var found := service.repo.FindAll(perPage, Offset(page, perPage));
        && (found.Err? ==> reply == InternalServerError(FETCH_FAILED, Str(Text(found.error))))
        && (found.Ok? ==> reply == Paginated(USERS_RETRIEVED, UserList(Responses(found.value.0)),
                                             PaginationMeta(page, perPage, found.value.1,
                                                            TotalPages(found.value.1, perPage))))
    {
      var page: Int64 := Atoi(QueryOr(pageQuery, "1")).0;
      var perPage: Int64 := Atoi(QueryOr(perPageQuery, "10")).0;
      if page < 1 {
        page := 1;
      }
      if perPage < 1 || perPage > 100 {
        perPage := 10;
      }
      assert page == PageNumber(pageQuery) && perPage == PerPageNumber(perPageQuery);
      var result := service.GetAll(page, perPage);
      if result.Err? {
        return InternalServerError(FETCH_FAILED, Str(Text(result.error)));
      }
      var users, total := result.value.0, result.value.1;
      var totalPages := total / perPage;
      if total % perPage > 0 {
        totalPages := totalPages + 1;
      }
      DivisionRoundsUp(total, perPage);
      assert totalPages == TotalPages(total, perPage);
      return Paginated(USERS_RETRIEVED, UserList(users), PaginationMeta(page, perPage, total, totalPages));
    }

    /** GET /users/:id: an ID that is not a 32-bit decimal is a 400 and the service is not
        asked; a service error is a 404 with the error's text. */
    function GetByID(param: string): (reply: Reply)
      requires service.repo.Valid()
      reads service.repo
      ensures ParseUint32(param).None? ==> reply == BadRequest(INVALID_ID, Null)
      ensures ParseUint32(param).Some? && service.GetByID(ParseUint32(param).value).Err? ==>
        reply == NotFound(Text(service.GetByID(ParseUint32(param).value).error))
      ensures ParseUint32(param).Some? && service.GetByID(ParseUint32(param).value).Ok? ==>
        reply == Success(USER_RETRIEVED, UserJson(service.GetByID(ParseUint32(param).value).value))
    {
      match ParseUint32(param)
      case None => BadRequest(INVALID_ID, Null)
      case Some(id) =>
        match service.GetByID(id)
        case Err(e) => NotFound(Text(e))
        case Ok(user) => Success(USER_RETRIEVED, UserJson(user))
    }

    /** PUT /users/:id: the ID is checked before the body; neither failure reaches the service. */
    method Update(param: string, body: Bind<UpdateUserRequest>, now: Time)
      returns (reply: Reply, ghost served: Option<Result<UserResponse>>)
      requires service.repo.Valid()
      modifies service.repo
      ensures service.repo.Valid() && service.repo.faults == old(service.repo.faults)
      ensures ParseUint32(param).None? ==>
        reply == BadRequest(INVALID_ID, Null) && served == None && service.repo.rows == old(service.repo.rows)
      ensures ParseUint32(param).Some? && !Admits(body, UpdateUserFields, isEmail) ==>
        reply == Refusal(body, UpdateUserFields, isEmail) && served == None
        && service.repo.rows == old(service.repo.rows)
      ensures ParseUint32(param).Some? && Admits(body, UpdateUserFields, isEmail) ==>
        served.Some? && reply == UpdateReply(served.value)
        && service.UpdateOutcome(ParseUint32(param).value, body.value, now, served.value)
    {
      var id := ParseUint32(param);
      if id.None? {
        return BadRequest(INVALID_ID, Null), None;
      }
      var admitted := BindAndValidate(body, UpdateUserFields, isEmail);
      if admitted.Refused? {
        return admitted.reply, None;
      }
      var res := service.Update(id.value, admitted.value, now);
      return UpdateReply(res), Some(res);
    }

    /** DELETE /users/:id. */
    method Delete(param: string, now: Time) returns (reply: Reply, ghost served: Option<Result<()>>)
      requires service.repo.Valid()
      modifies service.repo
      ensures service.repo.Valid() && service.repo.faults == old(service.repo.faults)
      ensures ParseUint32(param).None? ==>
        reply == BadRequest(INVALID_ID, Null) && served == None && service.repo.rows == old(service.repo.rows)
      ensures ParseUint32(param).Some? ==>
        served.Some? && reply == DeleteReply(served.value) && service.DeleteOutcome(ParseUint32(param).value, now, served.value)
    {
      var id := ParseUint32(param);
      if id.None? {
        return BadRequest(INVALID_ID, Null), None;
      }
      var res := service.Delete(id.value, now);
      return DeleteReply(res), Some(res);
    }
  }
}
