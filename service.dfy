/** The service layer: registration and login (AuthService) and user management
    (UserService), both written against the user repository. bcrypt and the token package
    are supplied as functions; `now` stands for the clock the store reads when it stamps a
    record. */
module Service {
  import opened Errors
  import opened Models
  import opened Crypto
  import opened Strconv
  import opened Request
  import opened Repository

  /** The "not found" translation of GetByID, Update and Delete: record-not-found becomes
      "user not found", every other error passes through. */
  function UserNotFound(e: Error): (r: Error)
    ensures e == RecordNotFound ==> r == Failure(USER_NOT_FOUND)
    ensures e != RecordNotFound ==> r == e
  {
    if e == RecordNotFound then Failure(USER_NOT_FOUND) else e
  }

  /** The record a new user is inserted as, before the store assigns ID and timestamps. */
  function NewUser(email: string, hash: string, name: string): (u: User)
    ensures u.email == email && u.password == hash && u.name == name && IsLive(u)
  {
    User(0, email, hash, name, 0, 0, None)
  }

  class AuthService {
    const repo: UserRepository
    const jwtSecret: string
    const jwtExpiry: string
    const bcrypt: Bcrypt
    const jwt: Jwt

    constructor (repo: UserRepository, jwtSecret: string, jwtExpiry: string, bcrypt: Bcrypt, jwt: Jwt)
      ensures this.repo == repo && this.jwtSecret == jwtSecret && this.jwtExpiry == jwtExpiry
      ensures this.bcrypt == bcrypt && this.jwt == jwt
    {
      this.repo := repo;
      this.jwtSecret := jwtSecret;
      this.jwtExpiry := jwtExpiry;
      this.bcrypt := bcrypt;
      this.jwt := jwt;
    }

    /** generateToken: an expiry that does not parse fails before anything is signed;
        otherwise the token is signed for the user's ID and e-mail only. */
    function GenerateToken(u: User): (r: Result<string>)
      ensures jwt.parseDuration(jwtExpiry).Err? ==> r == Err(jwt.parseDuration(jwtExpiry).error)
      ensures jwt.parseDuration(jwtExpiry).Ok? ==>
        r == jwt.generate(u.id, u.email, jwtSecret, jwt.parseDuration(jwtExpiry).value)
    {
      match jwt.parseDuration(jwtExpiry)
      case Err(e) => Err(e)
      case Ok(ttl) => jwt.generate(u.id, u.email, jwtSecret, ttl)
    }

    /** The token is computed from the record's ID and e-mail only: two records that agree
        there get the same token (or the same error). */
    lemma TokenDependsOnIdentity(u: User, v: User)
      requires u.id == v.id && u.email == v.email
      ensures GenerateToken(u) == GenerateToken(v)
    {
    }

    /** The outcome of Register, case by case over the store before the call: a known e-mail,
        a failing lookup, a failing hash and a failing insert each leave the rows as they were
        with their own error; otherwise the new row is appended with the next ID and the
        result is the signed token, or the token error with the row kept. */
    twostate predicate RegisterOutcome(req: RegisterRequest, now: Time, new r: Result<AuthResponse>)
      requires old(repo.Valid())
      reads repo
    {
      var found := old(repo.FindByEmail(req.email));
      var hashed := bcrypt.generate(req.password);
      && (found.Ok? ==> r == Err(Failure(EMAIL_EXISTS)) && repo.rows == old(repo.rows))
      && (found.Err? && found.error != RecordNotFound ==> r == Err(found.error) && repo.rows == old(repo.rows))
      && (found == Err(RecordNotFound) && hashed.Err? ==> r == Err(hashed.error) && repo.rows == old(repo.rows))
      && (found == Err(RecordNotFound) && hashed.Ok? && CreateOp in old(repo.faults) ==>
            r == Err(Failure(old(repo.faults)[CreateOp])) && repo.rows == old(repo.rows))
      && (found == Err(RecordNotFound) && hashed.Ok? && CreateOp !in old(repo.faults) ==>
            var created := User(|old(repo.rows)| + 1, req.email, hashed.value, req.name, now, now, None);
            && repo.rows == old(repo.rows) + [created]
            && (GenerateToken(created).Err? ==> r == Err(GenerateToken(created).error))
            && (GenerateToken(created).Ok? ==>
                  r == Ok(AuthResponse(ToUserResponse(created), GenerateToken(created).value))))
    }

    /** Register: refuse a known e-mail, hash, insert, sign. Every failure before the insert
        leaves the store as it was; a token failure after it does not undo the insert. */
    method Register(req: RegisterRequest, now: Time) returns (r: Result<AuthResponse>)
      requires repo.Valid()
      modifies repo
      ensures repo.Valid() && repo.faults == old(repo.faults)
      ensures RegisterOutcome(req, now, r)
      ensures r.Ok? ==> |repo.rows| == |old(repo.rows)| + 1
      ensures r.Ok? && FindByIdOp !in repo.faults ==> repo.FindByID(r.value.user.id).Ok?
      ensures UniqueEmails(old(repo.rows)) ==> UniqueEmails(repo.rows)
    {
      var existing := repo.FindByEmail(req.email);
      if existing.Ok? {
        return Err(Failure(EMAIL_EXISTS));
      }
      if existing.error != RecordNotFound {
        return Err(existing.error);
      }
      var hashed := bcrypt.generate(req.password);
      if hashed.Err? {
        return Err(hashed.error);
      }
      ghost var before := repo.rows;
      var created := repo.Create(NewUser(req.email, hashed.value, req.name), now);
      if created.Err? {
        return Err(created.error);
      }
      if UniqueEmails(before) {
        UniqueAfterAppend(before, created.value);
      }
      var token := GenerateToken(created.value);
      if token.Err? {
        return Err(token.error);
      }
      return Ok(AuthResponse(ToUserResponse(created.value), token.value));
    }

    /** Login: look the e-mail up, check the password, sign. An unknown e-mail and a wrong
        password give the same "invalid credentials" error; any other lookup error passes
        through. Login reads the store and never changes it. */
    function Login(req: LoginRequest): (r: Result<AuthResponse>)
      requires repo.Valid()
      reads repo
      ensures FindByEmailOp in repo.faults ==> r == Err(Failure(repo.faults[FindByEmailOp]))
      ensures FindByEmailOp !in repo.faults && (forall u | u in Live(repo.rows) :: u.email != req.email) ==>
        r == Err(Failure(INVALID_CREDENTIALS))
      ensures repo.FindByEmail(req.email).Ok? ==>
        var u := repo.FindByEmail(req.email).value;
        && (!bcrypt.matches(u.password, req.password) ==> r == Err(Failure(INVALID_CREDENTIALS)))
        && (bcrypt.matches(u.password, req.password) && GenerateToken(u).Err? ==> r == Err(GenerateToken(u).error))
        && (bcrypt.matches(u.password, req.password) && GenerateToken(u).Ok? ==>
              r == Ok(AuthResponse(ToUserResponse(u), GenerateToken(u).value)))
      ensures r.Ok? ==> exists u | u in Live(repo.rows) ::
        u.email == req.email && bcrypt.matches(u.password, req.password)
        && r.value.user == ToUserResponse(u) && GenerateToken(u) == Ok(r.value.token)
    {
      match repo.FindByEmail(req.email)
      case Err(e) => if e == RecordNotFound then Err(Failure(INVALID_CREDENTIALS)) else Err(e)
      case Ok(u) =>
        if !bcrypt.matches(u.password, req.password) then Err(Failure(INVALID_CREDENTIALS))
        else
          match GenerateToken(u)
          case Err(e) => Err(e)
          case Ok(token) => Ok(AuthResponse(ToUserResponse(u), token))
    }

    /** An unknown e-mail and a wrong password cannot be told apart by the error. */
    lemma UnknownEmailLooksLikeWrongPassword(unknown: LoginRequest, wrong: LoginRequest)
      requires repo.Valid() && FindByEmailOp !in repo.faults && UniqueEmails(repo.rows)
      requires forall u | u in Live(repo.rows) :: u.email != unknown.email
      requires exists u | u in Live(repo.rows) ::
        u.email == wrong.email && !bcrypt.matches(u.password, wrong.password)
      ensures Login(unknown) == Login(wrong) == Err(Failure(INVALID_CREDENTIALS))
    {
      var u :| u in Live(repo.rows) && u.email == wrong.email && !bcrypt.matches(u.password, wrong.password);
      LiveEmailDetermines(repo.rows, u, repo.FindByEmail(wrong.email).value);
    }
  }

  /** The page's offset as Go computes it: (page - 1) * perPage in int arithmetic. */
  function Offset(page: Int64, perPage: Int64): (r: Int64)
    ensures MIN_INT64 <= (page - 1) * perPage <= MAX_INT64 ==> r == (page - 1) * perPage
    ensures (r - (page - 1) * perPage) % TWO_64 == 0
  {
    var skipped := Wrap64(page - 1);
    ScaleCongruence(skipped, page - 1, perPage);
    ChainCongruence(Wrap64(skipped * perPage), skipped * perPage, (page - 1) * perPage);
    Wrap64(skipped * perPage)
  }

  /** With the handler's bounds (page at least 1, perPage in 1..100) and a page small enough
      not to overflow, the offset skips exactly the earlier pages. */
  lemma OffsetSkipsEarlierPages(page: Int64, perPage: Int64)
    requires 1 <= page && 1 <= perPage <= 100 && page <= MAX_INT64 / 100
    ensures 0 <= Offset(page, perPage) == (page - 1) * perPage
  {
    MultiplyOrdered(perPage, 100, page - 1);
  }

  /** The response views of a list of records, element by element. */
  function Responses(users: seq<User>): (views: seq<UserResponse>)
    ensures |views| == |users|
    ensures forall i | 0 <= i < |users| :: views[i] == ToUserResponse(users[i])
  {
    seq(|users|, i requires 0 <= i < |users| => ToUserResponse(users[i]))
  }

  /** The partial update applied to a fetched record: a non-empty e-mail or name replaces
      the stored one, an empty one leaves it; nothing else is touched (there is no password
      field in an update request, so the hash is never changed). */
  function Edit(stored: User, req: UpdateUserRequest): (u: User)
    ensures u.email == (if req.email == "" then stored.email else req.email)
    ensures u.name == (if req.name == "" then stored.name else req.name)
    ensures u.id == stored.id && u.password == stored.password && u.deletedAt == stored.deletedAt
    ensures u.createdAt == stored.createdAt && u.updatedAt == stored.updatedAt
  {
    var withEmail := if req.email != "" then stored.(email := req.email) else stored;
    if req.name != "" then withEmail.(name := req.name) else withEmail
  }

  /** Saving a record over a live one keeps e-mails unique when its e-mail is the stored one,
      or when the lookup of its e-mail finds nothing or finds the record itself. */
  lemma SaveKeepsUnique(repo: UserRepository, id: nat, v: User)
    requires repo.Valid() && FindByEmailOp !in repo.faults && UniqueEmails(repo.rows) && repo.HasLive(id)
    requires v.email == repo.rows[id - 1].email
          || (repo.FindByEmail(v.email).Ok? ==> repo.FindByEmail(v.email).value.id == id)
    ensures UniqueEmails(repo.rows[id - 1 := v])
  {
    var rows := repo.rows;
    forall j | 0 <= j < |rows| && j != id - 1 && IsLive(rows[j])
      ensures rows[j].email != v.email
    {
      assert rows[j] in Live(rows);
      var found := repo.FindByEmail(rows[j].email);
      LiveEmailDetermines(rows, rows[j], found.value);
      assert found.value.id != id;
    }
    UniqueAfterReplace(rows, id - 1, v);
  }

  class UserService {
    const repo: UserRepository
    const bcrypt: Bcrypt

    constructor (repo: UserRepository, bcrypt: Bcrypt)
      ensures this.repo == repo && this.bcrypt == bcrypt
    {
      this.repo := repo;
      this.bcrypt := bcrypt;
    }

    /** The outcome of Create: Register's cases, with the new record's view in place of a token. */
    twostate predicate CreateOutcome(req: CreateUserRequest, now: Time, new r: Result<UserResponse>)
      requires old(repo.Valid())
      reads repo
    {
      var found := old(repo.FindByEmail(req.email));
      var hashed := bcrypt.generate(req.password);
      && (found.Ok? ==> r == Err(Failure(EMAIL_EXISTS)) && repo.rows == old(repo.rows))
      && (found.Err? && found.error != RecordNotFound ==> r == Err(found.error) && repo.rows == old(repo.rows))
      && (found == Err(RecordNotFound) && hashed.Err? ==> r == Err(hashed.error) && repo.rows == old(repo.rows))
      && (found == Err(RecordNotFound) && hashed.Ok? && CreateOp in old(repo.faults) ==>
            r == Err(Failure(old(repo.faults)[CreateOp])) && repo.rows == old(repo.rows))
      && (found == Err(RecordNotFound) && hashed.Ok? && CreateOp !in old(repo.faults) ==>
            var created := User(|old(repo.rows)| + 1, req.email, hashed.value, req.name, now, now, None);
            repo.rows == old(repo.rows) + [created] && r == Ok(ToUserResponse(created)))
    }

    /** Create: as Register, without a token. */
    method Create(req: CreateUserRequest, now: Time) returns (r: Result<UserResponse>)
      requires repo.Valid()
      modifies repo
      ensures repo.Valid() && repo.faults == old(repo.faults)
      ensures CreateOutcome(req, now, r)
      ensures UniqueEmails(old(repo.rows)) ==> UniqueEmails(repo.rows)
    {
      var existing := repo.FindByEmail(req.email);
      if existing.Ok? {
        return Err(Failure(EMAIL_EXISTS));
      }
      if existing.error != RecordNotFound {
        return Err(existing.error);
      }
      var hashed := bcrypt.generate(req.password);
      if hashed.Err? {
        return Err(hashed.error);
      }
      ghost var before := repo.rows;
      var created := repo.Create(NewUser(req.email, hashed.value, req.name), now);
      if created.Err? {
        return Err(created.error);
      }
      if UniqueEmails(before) {
        UniqueAfterAppend(before, created.value);
      }
      return Ok(ToUserResponse(created.value));
    }

    /** GetByID: the live record's view, "user not found" when there is none, any other
        lookup error unchanged. */
    function GetByID(id: nat): (r: Result<UserResponse>)
      requires repo.Valid()
      reads repo
      ensures FindByIdOp in repo.faults ==> r == Err(Failure(repo.faults[FindByIdOp]))
      ensures FindByIdOp !in repo.faults ==>
        (r == Err(Failure(USER_NOT_FOUND)) <==> forall u | u in Live(repo.rows) :: u.id != id)
      ensures r.Ok? ==> exists u | u in Live(repo.rows) :: u.id == id && r.value == ToUserResponse(u)
      ensures FindByIdOp !in repo.faults && (exists u | u in Live(repo.rows) :: u.id == id) ==> r.Ok?
    {
      match repo.FindByID(id)
      case Err(e) => Err(UserNotFound(e))
      case Ok(u) => Ok(ToUserResponse(u))
    }

    /** GetAll: one page of live records, limit perPage and offset (page - 1) * perPage,
        converted one by one in order; the total is passed through. */
    method GetAll(page: Int64, perPage: Int64) returns (r: Result<(seq<UserResponse>, nat)>)
      ensures var found := repo.FindAll(perPage, Offset(page, perPage));
        && (found.Err? ==> r == Err(found.error))
        && (found.Ok? ==> r == Ok((Responses(found.value.0), found.value.1)))
    {
      var found := repo.FindAll(perPage, Offset(page, perPage));
      if found.Err? {
        return Err(found.error);
      }
      var users := found.value.0;
      var views: seq<UserResponse> := [];
      var i := 0;
      while i < |users|
        invariant 0 <= i <= |users|
        invariant views == Responses(users[..i])
      {
        views := views + [ToUserResponse(users[i])];
        i := i + 1;
      }
      assert users[..i] == users;
      return Ok((views, found.value.1));
    }

    /** The outcome of Update, case by case over the store before the call: a failed fetch,
        an e-mail taken by another ID and a failing save leave the rows as they were with their
        own error; otherwise the edited record, stamped `now`, replaces the stored one. */
    twostate predicate UpdateOutcome(id: nat, req: UpdateUserRequest, now: Time, new r: Result<UserResponse>)
      requires old(repo.Valid())
      reads repo
    {
      var fetched := old(repo.FindByID(id));
      var taken := old(EmailTaken(id, req.email));
      && (fetched.Err? ==> r == Err(UserNotFound(fetched.error)) && repo.rows == old(repo.rows))
      && (fetched.Ok? && taken ==> r == Err(Failure(EMAIL_EXISTS)) && repo.rows == old(repo.rows))
      && (fetched.Ok? && !taken && UpdateOp in old(repo.faults) ==>
            r == Err(Failure(old(repo.faults)[UpdateOp])) && repo.rows == old(repo.rows))
      && (fetched.Ok? && !taken && UpdateOp !in old(repo.faults) ==>
            var saved := Edit(fetched.value, req).(updatedAt := now);
            r == Ok(ToUserResponse(saved)) && repo.rows == old(repo.rows)[id - 1 := saved])
    }

    /** Update: fetch, refuse an e-mail held by another user ID, overwrite the non-empty
        fields, save the whole record. A failing e-mail lookup does not block the update. */
    method Update(id: nat, req: UpdateUserRequest, now: Time) returns (r: Result<UserResponse>)
      requires repo.Valid()
      modifies repo
      ensures repo.Valid() && repo.faults == old(repo.faults)
      ensures UpdateOutcome(id, req, now, r)
      ensures FindByEmailOp !in repo.faults && UniqueEmails(old(repo.rows)) ==> UniqueEmails(repo.rows)
    {
      var fetched := repo.FindByID(id);
      if fetched.Err? {
        return Err(UserNotFound(fetched.error));
      }
      var user := fetched.value;
      if req.email != "" {
        var existing := repo.FindByEmail(req.email);
        if existing.Ok? && existing.value.id != id {
          return Err(Failure(EMAIL_EXISTS));
        }
        user := user.(email := req.email);
      }
      if req.name != "" {
        user := user.(name := req.name);
      }
      if FindByEmailOp !in repo.faults && UniqueEmails(repo.rows) {
        SaveKeepsUnique(repo, id, user.(updatedAt := now));
      }
      var saved := repo.Update(user, now);
      if saved.Err? {
        return Err(saved.error);
      }
      return Ok(ToUserResponse(saved.value));
    }

    /** The e-mail check of Update: a non-empty e-mail that the lookup finds on a record
        with a different ID. */
    predicate EmailTaken(id: nat, email: string): (taken: bool)
      requires repo.Valid()
      reads repo
      ensures taken ==> email != "" && exists u | u in Live(repo.rows) :: u.email == email && u.id != id
      ensures (forall u | u in Live(repo.rows) && u.email == email :: u.id == id) ==> !taken
      ensures FindByEmailOp in repo.faults ==> !taken
      ensures (&& FindByEmailOp !in repo.faults && email != ""
               && (exists u | u in Live(repo.rows) :: u.email == email)
               && (forall u | u in Live(repo.rows) && u.email == email :: u.id != id)) ==> taken
    {
      email != "" && repo.FindByEmail(email).Ok? && repo.FindByEmail(email).value.id != id
    }

    /** The outcome of Delete: a failed fetch and a failing delete leave the rows as they
        were with their own error; otherwise the record with the ID is marked deleted at `now`. */
    twostate predicate DeleteOutcome(id: nat, now: Time, new r: Result<()>)
      requires old(repo.Valid())
      reads repo
    {
      var fetched := old(repo.FindByID(id));
      && (fetched.Err? ==> r == Err(UserNotFound(fetched.error)) && repo.rows == old(repo.rows))
      && (fetched.Ok? && DeleteOp in old(repo.faults) ==>
            r == Err(Failure(old(repo.faults)[DeleteOp])) && repo.rows == old(repo.rows))
      && (fetched.Ok? && DeleteOp !in old(repo.faults) ==>
            r == Ok(()) && repo.rows == old(repo.rows)[id - 1 := old(repo.rows)[id - 1].(deletedAt := Some(now))])
    }

    /** Delete: "user not found" (and nothing deleted) when no live record has the ID;
        otherwise the record is soft-deleted and no longer counted. */
    method Delete(id: nat, now: Time) returns (r: Result<()>)
      requires repo.Valid()
      modifies repo
      ensures repo.Valid() && repo.faults == old(repo.faults)
      ensures DeleteOutcome(id, now, r)
      ensures old(repo.FindByID(id)).Ok? && DeleteOp !in repo.faults ==>
        && |Live(repo.rows)| == |Live(old(repo.rows))| - 1
        && forall u | u in Live(repo.rows) :: u.id != id
    {
      var fetched := repo.FindByID(id);
      if fetched.Err? {
        return Err(UserNotFound(fetched.error));
      }
      r := repo.Delete(id, now);
    }
  }
}
