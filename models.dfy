/** The user record the repository stores and the views of it that leave the service layer. */
module Models {
  import opened Errors

  /** Timestamps are opaque: the model only copies and compares them. */
  type Time = int

  /** time.Duration, in nanoseconds. */
  type Duration = int

  /** A stored user record (gorm.Model fields plus the application's own). `deletedAt` is the
      soft-delete marker: a record with `deletedAt == Some(_)` is invisible to every query. */
  datatype User = User(
    id: nat,
    email: string,
    password: string,
    name: string,
    createdAt: Time,
    updatedAt: Time,
    deletedAt: Option<Time>)

  /** The user as the API shows it: no password hash, no soft-delete marker. */
  datatype UserResponse = UserResponse(id: nat, email: string, name: string, createdAt: Time, updatedAt: Time)

  /** A user together with a freshly issued bearer token. */
  datatype AuthResponse = AuthResponse(user: UserResponse, token: string)

  /** The claims a validated token carries that the request gate uses. */
  datatype Claims = Claims(userId: nat, email: string)

  /** The response view of a stored user: it copies the identifying fields and timestamps. */
  function ToUserResponse(u: User): (v: UserResponse)
    ensures v.id == u.id && v.email == u.email && v.name == u.name
    ensures v.createdAt == u.createdAt && v.updatedAt == u.updatedAt
  {
    UserResponse(u.id, u.email, u.name, u.createdAt, u.updatedAt)
  }

  /** The view never depends on the stored password hash (nor on the soft-delete marker):
      two records that differ only there look the same to any client. */
  lemma PasswordNeverExposed(u: User, otherHash: string, otherMark: Option<Time>)
    ensures ToUserResponse(u.(password := otherHash, deletedAt := otherMark)) == ToUserResponse(u)
  {
  }
}
