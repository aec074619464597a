# go-clean-boiler: authentication and user management, modelled in Dafny

This project models the request-handling core of go-clean-boiler, a Go (gin + gorm) REST service. Clients register and log in under `/auth` and receive a JWT. Behind a bearer-token gate they manage user records under `/users`.

The model covers these parts:

- **Registration and login** (`Service.AuthService`). Registration refuses a known e-mail, then hashes the password, inserts the record and signs a token. Login looks the e-mail up, checks the password and signs a token.
- **The bearer-token gate** (`Middleware.Authenticate`) and the lookup of the authenticated user ID (`Middleware.GetUserID`).
- **User management** (`Service.UserService`): create, get one, list a page, partial update and soft delete.
- **The user repository** (`Repository.UserRepository`). The gorm/PostgreSQL repository is re-modelled as an in-memory table with these rules:
  - IDs are assigned 1, 2, 3, …
  - A delete stamps `deletedAt`.
  - Every query skips deleted rows.
  - A per-operation fault map makes a query fail with a storage error.
- **The HTTP handlers.** Each handler returns its reply (status and JSON envelope) instead of writing to a gin context. This covers:
  - the page / per_page normalisation and the total-pages arithmetic of the user list;
  - the 32-bit decimal ID parsing;
  - the mapping of each service error to a status.
- **The request layer.** This covers:
  - the response envelope helpers;
  - the validation gate in front of every body-reading handler, including go-playground's evaluation of the tags the request types use;
  - the formatting of field errors into a map.
- **Configuration**: defaults, key/environment resolution, the seven environment overrides, and the PostgreSQL DSN string.

Outside collaborators are inputs to the model:

- bcrypt's hash and compare, and the token package's parse/sign/validate, are function values (module `Crypto`).
- The e-mail syntax check is a `string -> bool` parameter.
- What the environment and config file hold is a `Config.Source`.
- The clock the store reads when it stamps a record is a `now` parameter.
- JSON decoding is a `Validator.Bind` value: either a decoded request or an error.

Go's integer behaviour is modelled explicitly:

- `strconv.Atoi`'s value on error: 0 for a syntax error, the int64 bound for a range error.
- `strconv.ParseUint(s, 10, 32)`.
- int64 wrap-around in the offset `(page - 1) * perPage`.

Three behaviours of the code are worth stating plainly, because the model follows them:

- **Uniqueness of e-mails.** E-mails are kept unique only by a look-up at write time, and that look-up can be skipped: `UserService.Update` (internal/service/user_service.go:102-109) sets the new e-mail whenever the look-up returns an error, not only when it finds nothing. In the model, `Repository.UniqueEmails` is an invariant that the write paths preserve. For Update it holds only when the e-mail look-up does not fail.
- **A token failure keeps the new record.** `Register` (internal/service/auth_service.go:59-67) inserts the record before it signs the token, and returns the token error without removing the record. `Service.AuthService.RegisterOutcome` states exactly that.
- **A huge page number wraps.** The handler accepts any page of at least 1, and `(page - 1) * perPage` is computed in int64. The page 9223372036854775807 with ten per page gives the offset -20, which skips nothing, so that page lists the first ten users. `Handler.HugePageListsFirstPage` states this.

## Model

| member | source | states |
|---|---|---|
| Errors.Text | internal/handler/user_handler.go:107 | the text `err.Error()` gives for a service error: "record not found" for gorm's sentinel, and the error's own message for every other error |
| Models.ToUserResponse | internal/service/user_service.go:136-144 | the view carries the record's ID, e-mail, name and both timestamps unchanged |
| Models.PasswordNeverExposed | internal/service/user_service.go:136-144 | two records that differ only in password hash or deletion mark have the same view, so the view never reveals the hash |
| Strconv.ParseUint32 | internal/handler/user_handler.go:99 | an ID is accepted exactly when it is a non-empty all-digit string whose value is at most 2^32-1, and the result is that value |
| Strconv.ParseUint32OfDecimal | internal/handler/user_handler.go:99 | every 32-bit number written in decimal is accepted and read back as itself |
| Strconv.Atoi | internal/handler/user_handler.go:58-59 | the ok flag holds exactly when an optional sign is followed by digits whose signed value fits in int64, and then the value is that number; otherwise the value is 0 on a syntax error, and the int64 bound on the sign's side (the minimum after "-", the maximum otherwise) when the value is out of range or the leading digits already pass the largest uint64, even if a non-digit follows |
| Strconv.ScaleCongruence | internal/service/user_service.go:77 | numbers equal modulo 2^64 stay equal modulo 2^64 when both are multiplied by the same factor |
| Strconv.ChainCongruence | internal/service/user_service.go:77 | equality modulo 2^64 is transitive |
| Strconv.AtoiOfDecimal | internal/handler/user_handler.go:58-59 | every int64 written in decimal, with or without a minus sign, parses back to itself |
| Strconv.Wrap64 | internal/service/user_service.go:77 | the result agrees with the input modulo 2^64 and equals it when it lies in the int64 range |
| Response.Success | pkg/response/response.go:34-40 | status 200, success true, message and data as given, no error |
| Response.Created | pkg/response/response.go:43-49 | status 201, success true, message and data as given, no error |
| Response.BadRequest | pkg/response/response.go:52-58 | status 400, success false, message as given, error field set to the argument, no data |
| Response.Unauthorized | pkg/response/response.go:61-66 | status 401, success false, message as given, neither data nor error |
| Response.Forbidden | pkg/response/response.go:69-74 | status 403, success false, message as given, neither data nor error |
| Response.NotFound | pkg/response/response.go:77-82 | status 404, success false, message as given, neither data nor error |
| Response.InternalServerError | pkg/response/response.go:85-91 | status 500, success false, message as given, error field set to the argument |
| Response.Paginated | pkg/response/response.go:94-101 | status 200, success true, message and data as given, pagination meta carried unchanged |
| Response.HelpersConsistent | pkg/response/response.go:34-101 | every helper sets success true exactly when its status is 2xx |
| Validator.Validate | pkg/validator/validator.go:16-18 | at most as many errors as fields, and no errors exactly when every field passes its tags |
| Validator.ErrorFor | pkg/validator/validator.go:16-18 | a failing field is reported under its own name with the tag that fails first |
| Validator.ValidateStep | pkg/validator/validator.go:16-18 | the first field's error, when it fails, comes before the errors of the other fields, in field order |
| Validator.ValidateCountsFailures | pkg/validator/validator.go:16-18 | one error per failing field: the number of errors equals the number of failing fields |
| Validator.ValidateReportsEveryFailure | pkg/validator/validator.go:16-18 | every failing field's error, by its first failing tag, is among the reported errors |
| Validator.ReportedIsFailure | pkg/validator/validator.go:16-18 | each reported error is the error of some failing field |
| Validator.ReportsFailureShift | pkg/validator/validator.go:16-18 | an error of a failing field in the tail is an error of a failing field of the whole list |
| Validator.ValidateReportsOnlyFailures | pkg/validator/validator.go:16-18 | no reported error belongs to a passing field: every one is some failing field's error |
| Validator.FormatErrorMessage | pkg/validator/validator.go:49-64 | required, email, min, max and eqfield map to their fixed messages (min/max/eqfield followed by the tag's parameter); every other tag maps to "Invalid value" |
| Validator.FieldMessages | pkg/validator/validator.go:41-43 | the keys are exactly the failing field names |
| Validator.LastErrorWins | pkg/validator/validator.go:41-43 | a later error for a field overwrites an earlier one: each field maps to the message of its last error |
| Validator.FormatValidationErrors | pkg/validator/validator.go:37-47 | an error that is not a validation-error list gives the empty map; otherwise the map built error by error equals FieldMessages of the list |
| Validator.Refusal | pkg/validator/validator.go:22-31 | a refused body gets a 400: "Invalid request body" with the decoder's text when it did not decode, otherwise "Validation failed" with the field-message map |
| Validator.BindAndValidate | pkg/validator/validator.go:21-34 | a decode failure is refused before validation; a failing field is refused with the map; the handler proceeds with the decoded value exactly when the body decodes and validates |
| Request.RegisterValidity | internal/dto/request/auth_request.go:4-8 | a registration is valid exactly when the e-mail is non-empty and well-formed, the password has at least 6 characters and the name at least 2 |
| Request.LoginValidity | internal/dto/request/auth_request.go:11-14 | a login is valid exactly when the e-mail is non-empty and well-formed and the password is non-empty, with no minimum length |
| Request.MissingEmailReportedAsRequired | internal/dto/request/auth_request.go:5 | an empty e-mail is reported under Email with the "required" tag, not as a format error |
| Request.ShortPasswordReportsMinimum | internal/dto/request/auth_request.go:6 | with a valid e-mail, a non-empty password shorter than 6 is reported first, with tag "min" and parameter "6", which formats as "Minimum length is 6" |
| Request.CreateUserValidity | internal/dto/request/user_request.go:4-8 | the same constraints as registration, and the same errors field for field |
| Request.UpdateUserValidity | internal/dto/request/user_request.go:11-14 | an update is valid exactly when its e-mail is empty or well-formed and its name is empty or at least 2 characters |
| Repository.Live | internal/repository/postgres/user_repository.go:49 | the live rows are exactly the rows of the table that are not soft-deleted |
| Repository.LiveCountReplace | internal/repository/postgres/user_repository.go:67-70 | replacing one row changes the live count only by the liveness of the old and new row |
| Repository.FirstWithEmail | internal/repository/postgres/user_repository.go:36 | the position found is the first live row whose e-mail is exactly the argument, and no earlier row matches |
| Repository.Page | internal/repository/postgres/user_repository.go:54 | at most `limit` rows (none when negative), skipping the first `offset` (none when at most 0), in order |
| Repository.LiveEmailDetermines | internal/repository/postgres/user_repository.go:34-41 | while e-mails are unique among live rows, a live row is determined by its e-mail |
| Repository.UserRepository.constructor | internal/repository/postgres/user_repository.go:14-16 | a new repository starts with an empty table and no faults |
| Repository.UserRepository.FindByID | internal/repository/postgres/user_repository.go:24-31 | a fault is reported as a storage error; a found record is live with that ID; otherwise record-not-found, and then no live record has that ID |
| Repository.UserRepository.FindByEmail | internal/repository/postgres/user_repository.go:34-41 | a found record is live, has exactly that e-mail and the smallest such ID; otherwise record-not-found exactly when no live record has the e-mail |
| Repository.UserRepository.FindAll | internal/repository/postgres/user_repository.go:44-60 | a count failure, then a find failure, is reported; on success the total is the live count, independent of limit and offset, and the rows are that page of the live rows |
| Repository.UserRepository.Create | internal/repository/postgres/user_repository.go:19-21 | the record is appended with the next ID, which no earlier row has, and both timestamps are "now"; FindByID then finds it |
| Repository.UserRepository.Update | internal/repository/postgres/user_repository.go:63-65 | the whole stored record with that ID is replaced (with a new updatedAt) and every other row is unchanged |
| Repository.UserRepository.Delete | internal/repository/postgres/user_repository.go:67-70 | the record is stamped as deleted, no live record has the ID afterwards, and the live count drops by one |
| Service.NewUser | internal/service/auth_service.go:53-57 | the record inserted for a registration carries the request's e-mail and name and the hash as password, and is not marked deleted |
| Service.UserNotFound | internal/service/user_service.go:66-69 | record-not-found becomes "user not found"; every other error passes through unchanged |
| Service.AuthService.GenerateToken | internal/service/auth_service.go:116-124 | an expiry that does not parse fails with its error before anything is signed; otherwise the token is signed for the user's ID and e-mail with the configured secret |
| Service.AuthService.TokenDependsOnIdentity | internal/service/auth_service.go:123 | the token depends on the user's ID and e-mail only |
| Service.AuthService.constructor | internal/service/auth_service.go:27-33 | the service holds the given repository, secret and expiry (and the supplied bcrypt and token functions) |
| Service.AuthService.RegisterOutcome | internal/service/auth_service.go:36-79 | the result and the new table of a registration, case by case over the table before it: each failure with its own error and the table unchanged, or one appended record and its token (or the token error, with the record kept) |
| Service.AuthService.Register | internal/service/auth_service.go:36-79 | its outcome is RegisterOutcome; known e-mail gives "email already exists", and any other lookup, hash or insert error is returned; in each of these cases the table is unchanged. Otherwise exactly one record is appended with the request's e-mail and name and the hash as password, and the token is signed for it. A token failure is returned and the record stays. E-mail uniqueness is preserved |
| Service.AuthService.Login | internal/service/auth_service.go:82-113 | a lookup fault passes through; an unknown e-mail and a wrong password give "invalid credentials"; a token error passes through; a success returns the view of the live record with that e-mail and a matching password, and that record's token; the table is only read |
| Service.AuthService.UnknownEmailLooksLikeWrongPassword | internal/service/auth_service.go:86-95 | Login with an unknown e-mail and Login with a wrong password return the identical error |
| Service.Offset | internal/service/user_service.go:77 | the offset is (page - 1) * perPage whenever that fits in an int64; in every case it agrees with (page - 1) * perPage modulo 2^64, as Go's wrapping int64 arithmetic gives |
| Service.OffsetSkipsEarlierPages | internal/service/user_service.go:77-78 | for a page from 1 to MAX_INT64 / 100 and a page size in 1..100 the offset is non-negative and skips exactly the earlier pages; larger pages are not covered, because the product may wrap |
| Handler.HugePageListsFirstPage | internal/handler/user_handler.go:58-63 | an all-digit page query above the int64 range is read as page MAX_INT64, whose offset with ten per page wraps to -20, which lists the same users as the first page |
| Service.Responses | internal/service/user_service.go:83-86 | one view per record, same length and same order |
| Service.Edit | internal/service/user_service.go:101-113 | a non-empty e-mail or name replaces the stored one, and an empty one keeps it; ID, password hash, timestamps and the deletion mark are untouched |
| Service.SaveKeepsUnique | internal/service/user_service.go:102-115 | saving a record whose e-mail is its own, or which the lookup does not find on another ID, keeps e-mails unique |
| Service.UserService.constructor | internal/service/user_service.go:27-29 | the service holds the given repository (and the supplied bcrypt functions) |
| Service.UserService.CreateOutcome | internal/service/user_service.go:32-60 | Register's cases, with the new record's view as the result in place of a token |
| Service.UserService.Create | internal/service/user_service.go:32-60 | its outcome is CreateOutcome: as Register: a known e-mail and each failure leave the table unchanged; otherwise exactly one new record with the hash as password, returned as its view; e-mail uniqueness is preserved |
| Service.UserService.GetByID | internal/service/user_service.go:63-73 | a fault passes through; otherwise "user not found" exactly when no live record has the ID, and a live ID always succeeds; a success is the view of the live record with that ID |
| Service.UserService.GetAll | internal/service/user_service.go:76-89 | queries with limit perPage and the computed offset; an error passes through; otherwise each record is converted in order and the total is passed through unchanged |
| Service.UserService.EmailTaken | internal/service/user_service.go:102-107 | an update's e-mail is refused exactly when it is non-empty and the lookup finds it on a live record with another ID: never when every live holder of the e-mail has this ID, never when the lookup fails, and always when the lookup works and all live holders have other IDs |
| Service.UserService.UpdateOutcome | internal/service/user_service.go:92-120 | the result and new table of an update, case by case: a failed fetch, a taken e-mail and a failing save each leave the table unchanged with their own error; otherwise the edited record stamped with the time replaces the stored one |
| Service.UserService.Update | internal/service/user_service.go:92-120 | its outcome is UpdateOutcome; a missing ID gives "user not found"; an e-mail held by another ID gives "email already exists" and writes nothing, while the user's own e-mail is accepted; a failing e-mail lookup does not block; otherwise the edited record is saved over the stored one; e-mail uniqueness is preserved when the lookup does not fail |
| Service.UserService.DeleteOutcome | internal/service/user_service.go:123-133 | the result and new table of a delete: a failed fetch or a failing delete leaves the table unchanged with its error; otherwise exactly the record with the ID is marked deleted at the given time |
| Service.UserService.Delete | internal/service/user_service.go:123-133 | its outcome is DeleteOutcome; a missing ID gives "user not found" and deletes nothing; otherwise the record is soft-deleted, no live record has the ID and the live count drops by one |
| Middleware.SplitFirstSpace | internal/middleware/auth.go:22 | no split exactly when the header has no space; otherwise the part before the first space, a space and the rest rebuild the header |
| Middleware.SplitAtFirstSpace | internal/middleware/auth.go:22 | a space-free prefix followed by a space splits there, and the rest may hold further spaces |
| Middleware.BearerPrefix | internal/middleware/auth.go:22-29 | the scheme is exactly "Bearer" exactly when the header starts with "Bearer ", and then the token is everything after those seven characters |
| Middleware.Authenticate | internal/middleware/auth.go:12-45 | an empty header is refused with "Authorization header required"; a header without a space or with any other scheme is refused with "Invalid authorization header format"; every validation failure is refused with "Invalid or expired token"; otherwise the request continues with user_id and user_email set to the claims |
| Middleware.AuthenticateOutcomes | internal/middleware/auth.go:14-43 | every outcome is a 401 refusal with one of the three messages, or a continuation carrying the claims |
| Middleware.SchemeIsCaseSensitive | internal/middleware/auth.go:23 | "bearer …", "Token …" and a bare "Bearer" are refused as an invalid format |
| Middleware.GetUserID | internal/middleware/auth.go:48-54 | (0, false) when no user_id is set, otherwise the stored ID and true |
| Middleware.GateThenUserID | internal/middleware/auth.go:40-54 | after the gate lets a request through, GetUserID returns the token's user ID |
| Handler.QueryOr | internal/handler/user_handler.go:58-59 | an absent query parameter reads as the default; a present one, even an empty one, is used as it is |
| Handler.PageNumber | internal/handler/user_handler.go:58-63 | the page is at least 1: the parsed query when at least 1, and 1 otherwise |
| Handler.PerPageNumber | internal/handler/user_handler.go:59-66 | the page size lies in 1..100: the parsed query when in range, and 10 (not the nearer bound) otherwise |
| Handler.DefaultPaging | internal/handler/user_handler.go:58-59 | without query values the first page of ten is requested |
| Handler.MalformedQueryUsesDefaults | internal/handler/user_handler.go:58-66 | a non-numeric query value yields page 1 and page size 10 |
| Handler.TotalPages | internal/handler/user_handler.go:74-77 | the smallest n whose n pages hold the total |
| Handler.SmallestCoverUnique | internal/handler/user_handler.go:74-77 | only one n is the smallest cover |
| Handler.DivisionRoundsUp | internal/handler/user_handler.go:74-77 | integer division plus one for a remainder equals TotalPages, that is ceil(total / perPage) |
| Handler.RegisterReply | internal/handler/auth_handler.go:36-42 | a service error is a 400 with the error's text as message; a success is a 201 "User registered successfully" with the auth response |
| Handler.LoginReply | internal/handler/auth_handler.go:61-67 | a service error is a 400 with the error's text; a success is a 200 "Login successful" |
| Handler.CreateReply | internal/handler/user_handler.go:39-45 | a service error is a 400 with its text; a success is a 201 "User created successfully" |
| Handler.UpdateReply | internal/handler/user_handler.go:138-144 | every service error, "user not found" included, is a 400 with its text; a success is a 200 "User updated successfully" |
| Handler.DeleteReply | internal/handler/user_handler.go:163-168 | every service error, storage errors included, is a 404 with its text; a success is a 200 "User deleted successfully" |
| Handler.RepliesConsistent | internal/handler/user_handler.go:39-168 | every reply a handler maps a service result to reports success exactly on a 2xx status |
| Handler.AuthHandler.constructor | internal/handler/auth_handler.go:16-18 | the handler holds the given auth service |
| Handler.AuthHandler.Register | internal/handler/auth_handler.go:29-43 | a refused body is answered by the validator, the service is not called and the table is unchanged; otherwise the reply is RegisterReply of the served result, and that result and the new table are the service's RegisterOutcome for the decoded request |
| Handler.AuthHandler.Login | internal/handler/auth_handler.go:54-68 | a refused body is answered by the validator; otherwise the reply is LoginReply of the service's login |
| Handler.AuthHandler.LoginFailuresLookAlike | internal/handler/auth_handler.go:61-65 | an unknown e-mail and a wrong password produce the identical 400 "invalid credentials" reply |
| Handler.UserHandler.constructor | internal/handler/user_handler.go:18-20 | the handler holds the given user service |
| Handler.UserHandler.Create | internal/handler/user_handler.go:32-46 | a refused body never reaches the service and changes nothing; otherwise the reply is CreateReply of the served result, and that result and the new table are the service's CreateOutcome |
| Handler.UserHandler.GetAll | internal/handler/user_handler.go:57-87 | the service is asked for the normalised page and page size; its error is a 500 "Failed to fetch users" with the error's text; otherwise the page of views with meta (page, perPage, total, TotalPages(total, perPage)) |
| Handler.UserHandler.GetByID | internal/handler/user_handler.go:98-112 | an ID that is not a 32-bit decimal is a 400 "Invalid user ID" and the service is not asked; a service error is a 404 with its text; otherwise a 200 with the view |
| Handler.UserHandler.Update | internal/handler/user_handler.go:126-145 | the ID is checked before the body, and neither failure reaches the service or changes the table; otherwise the reply is UpdateReply of the served result, and that result and the new table are the service's UpdateOutcome for the parsed ID |
| Handler.UserHandler.Delete | internal/handler/user_handler.go:156-169 | a bad ID is a 400 and nothing is deleted; otherwise the reply is DeleteReply of the served result, and that result and the new table are the service's DeleteOutcome for the parsed ID |
| Config.GetString | pkg/config/config.go:73-100 | a supplied value wins over the registered default; a key with neither reads as "" |
| Config.GetInt | pkg/config/config.go:86-87 | a supplied value wins over the registered default |
| Config.GetDuration | pkg/config/config.go:88 | a supplied value wins over the registered default |
| Config.Overridden | pkg/config/config.go:104-124 | a non-empty environment override replaces the configured value; an empty or unset one leaves it |
| Config.Load | pkg/config/config.go:48-127 | each field is read from its setting; APP_PORT, DB_HOST, DB_PORT, DB_USER, DB_PASSWORD, DB_NAME and JWT_SECRET override their fields when non-empty; the other fields keep the configured value; no error is ever reported |
| Config.NothingSetMeansDefaults | pkg/config/config.go:129-153 | with nothing supplied, every setting reads as its registered default (port "8080", env "development", DB port "5432", 25 connections, 5 minutes, 24 hours, "debug", …) and no override is set |
| Config.WordsOfJoin | pkg/config/config.go:157-158 | splitting a space-joined list of space-free words at spaces gives the words back |
| Config.DsnPairs | pkg/config/config.go:156-166 | when no field holds a space, the DSN is exactly the six pairs host=, port=, user=, password=, dbname=, sslmode= with the config's values, in that order |

## Left out

- bcrypt and the token package (pkg/jwt) are function values supplied from outside. Their internals are not part of this model, so no round trip or expiry property is stated about them.
- Crypto.Bcrypt.generate and Crypto.Jwt.generate are functions of their arguments, so bcrypt's random salt and the token package's own clock (the expiry it computes from the current time) are not modelled. Service.AuthService.TokenDependsOnIdentity therefore holds for one fixed token function; two logins at different times in the running program would get different tokens.
- JSON decoding (`ShouldBindJSON`) is an input (decoded value or error text); go-playground's e-mail syntax check is a parameter; string lengths for `min` are counted in characters, where go-playground counts runes (the model has no encoding).
- gorm and PostgreSQL mechanics:
  - SQL is not modelled.
  - Auto-increment is modelled as ID = row position + 1.
  - Timestamps are always set to the `now` parameter. On Create gorm sets them only when zero, which the services never rely on; on Save it always stamps updatedAt with the current time, as the model does.
  - Whether an error is record-not-found is a constructor test. gorm uses `errors.Is`.
- Repository.UserRepository.Create: the supplied ID is replaced by the next one, and the deletion mark is stored as given. gorm would honour a non-zero ID, but the services only insert fresh records, built by Service.NewUser with no deletion mark.
- Repository.UserRepository.Update: on an ID with no live row it returns record-not-found and changes nothing. gorm's Save would insert instead. The services only save a record they have just fetched.
- Repository.UserRepository.FindAll: the live rows come back in ID order. The query itself promises no order.
- Storage failures are a deterministic per-operation fault map rather than nondeterministic errors.
- Concurrency is not modelled:
  - the check-then-create race on duplicate e-mails;
  - the database's own uniqueness constraint;
  - interleaving of requests.
- viper and godotenv are not modelled: file lookup, `AutomaticEnv`, type casting between values, and the missing-file warning written to the log. The values they resolve are the input `Config.Source`.
- Config.Load: the registered defaults are stated by the lemma Config.NothingSetMeansDefaults rather than in Load's own contract.
- Config.GetDSN: the string is built with no `ensures`. Its format is stated by Config.DsnPairs, for fields without spaces.
- The gin context (headers, `c.Set`, `c.Abort`, `c.Next`, `c.JSON`) becomes inputs and returned values such as `Reply` and `Middleware.Outcome`.
- Handler methods that change the store return a ghost `served` value. It names the service result that their reply is mapped from.
- The route table (internal/router/router.go) is not modelled. The model assumes all `/users` routes are behind the token gate and `/auth` routes are public.
- Not part of this model:
  - cmd/api/main.go (wiring);
  - pkg/database/database.go (connection and pool setup);
  - pkg/logger/logger.go;
  - internal/middleware/cors.go;
  - internal/middleware/error.go (panic recovery);
  - the internal/domain package, whose User record is re-declared as `Models.User`.
- Middleware.GetUserID: requires that a value stored under `user_id` is an unsigned ID. The Go code type-asserts it to `uint` and would panic on any other value; only the token gate sets that key, and it always stores a `uint`.
- Go's `uint` user IDs are `nat`; the 32-bit bound is enforced where the handlers parse IDs.
