/** The cryptographic and time-based collaborators, which are not part of this model:
    bcrypt and the token package are supplied from outside as functions. Being functions,
    they give the same result for the same arguments: bcrypt's random salt and the token
    package's own reading of the clock are not represented. */
module Crypto {
  import opened Errors
  import opened Models

  /** bcrypt as the services call it: `generate` is GenerateFromPassword at the default cost
      and `matches(hash, plain)` holds when CompareHashAndPassword returns no error. */
  datatype Bcrypt = Bcrypt(
    generate: string -> Result<string>,
    matches: (string, string) -> bool)

  /** The token package: ParseDuration, GenerateToken(userID, email, secret, ttl) and
      ValidateToken(token, secret). */
  datatype Jwt = Jwt(
    parseDuration: string -> Result<Duration>,
    generate: (nat, string, string, Duration) -> Result<string>,
    validate: (string, string) -> Result<Claims>)
}
