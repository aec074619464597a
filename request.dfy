/** The request bodies and their `validate` tags, as field lists for the validator. */
module Request {
  import opened Errors
  import opened Validator

  datatype RegisterRequest = RegisterRequest(email: string, password: string, name: string)
  datatype LoginRequest = LoginRequest(email: string, password: string)
  datatype CreateUserRequest = CreateUserRequest(email: string, password: string, name: string)
  /** No password field: an update can never reach the stored hash. */
  datatype UpdateUserRequest = UpdateUserRequest(email: string, name: string)

  /** email: required,email; password: required,min=6; name: required,min=2 */
  function RegisterFields(r: RegisterRequest): seq<Field> {
    [ Field("Email", r.email, [Required, Email]),
      Field("Password", r.password, [Required, Min(6)]),
      Field("Name", r.name, [Required, Min(2)]) ]
  }

  /** email: required,email; password: required */
  function LoginFields(r: LoginRequest): seq<Field> {
    [ Field("Email", r.email, [Required, Email]),
      Field("Password", r.password, [Required]) ]
  }

  /** email: required,email; password: required,min=6; name: required,min=2 */
  function CreateUserFields(r: CreateUserRequest): seq<Field> {
    [ Field("Email", r.email, [Required, Email]),
      Field("Password", r.password, [Required, Min(6)]),
      Field("Name", r.name, [Required, Min(2)]) ]
  }

  /** email: omitempty,email; name: omitempty,min=2 */
  function UpdateUserFields(r: UpdateUserRequest): seq<Field> {
    [ Field("Email", r.email, [OmitEmpty, Email]),
      Field("Name", r.name, [OmitEmpty, Min(2)]) ]
  }

  /** A required field with one more tag is valid when it is non-empty and passes that tag. */
  lemma RequiredThen(v: string, t: Tag, isEmail: string -> bool)
    ensures FirstFailure(v, [Required, t], isEmail).None? <==> v != "" && Passes(t, v, isEmail)
    ensures v == "" ==> FirstFailure(v, [Required, t], isEmail) == Some(Required)
    ensures v != "" && !Passes(t, v, isEmail) ==> FirstFailure(v, [Required, t], isEmail) == Some(t)
  {
    assert [Required, t][1..] == [t];
    assert [t][1..] == [];
    assert FirstFailure(v, [t], isEmail).None? <==> Passes(t, v, isEmail) || (t.OmitEmpty? && v == "");
    assert v != "" ==> FirstFailure(v, [Required, t], isEmail) == FirstFailure(v, [t], isEmail);
  }

  lemma RequiredOnly(v: string, isEmail: string -> bool)
    ensures FirstFailure(v, [Required], isEmail).None? <==> v != ""
  {
    assert [Required][1..] == [];
  }

  /** An optional field with one more tag is valid when it is empty or passes that tag. */
  lemma OmitEmptyThen(v: string, t: Tag, isEmail: string -> bool)
    ensures FirstFailure(v, [OmitEmpty, t], isEmail).None? <==> v == "" || Passes(t, v, isEmail)
  {
    assert [OmitEmpty, t][1..] == [t];
    assert [t][1..] == [];
    assert FirstFailure(v, [t], isEmail).None? <==> Passes(t, v, isEmail) || (t.OmitEmpty? && v == "");
    assert v != "" ==> FirstFailure(v, [OmitEmpty, t], isEmail) == FirstFailure(v, [t], isEmail);
  }

  /** Three fields are valid exactly when each of them is. */
  lemma ThreeFields(a: Field, b: Field, c: Field, isEmail: string -> bool)
    ensures Validate([a, b, c], isEmail) == [] <==>
      FieldValid(a, isEmail) && FieldValid(b, isEmail) && FieldValid(c, isEmail)
  {
    var fs := [a, b, c];
    assert fs[0] == a && fs[1] == b && fs[2] == c;
  }

  lemma TwoFields(a: Field, b: Field, isEmail: string -> bool)
    ensures Validate([a, b], isEmail) == [] <==> FieldValid(a, isEmail) && FieldValid(b, isEmail)
  {
    var fs := [a, b];
    assert fs[0] == a && fs[1] == b;
  }

  /** A registration passes validation exactly when the e-mail is present and well formed,
      the password has at least 6 characters and the name at least 2. */
  lemma RegisterValidity(r: RegisterRequest, isEmail: string -> bool)
    ensures Validate(RegisterFields(r), isEmail) == [] <==>
      r.email != "" && isEmail(r.email) && |r.password| >= 6 && |r.name| >= 2
  {
    ThreeFields(RegisterFields(r)[0], RegisterFields(r)[1], RegisterFields(r)[2], isEmail);
    RequiredThen(r.email, Email, isEmail);
    RequiredThen(r.password, Min(6), isEmail);
    RequiredThen(r.name, Min(2), isEmail);
  }

  /** A login passes validation exactly when the e-mail is present and well formed and the
      password is not empty: there is no minimum password length at login. */
  lemma LoginValidity(r: LoginRequest, isEmail: string -> bool)
    ensures Validate(LoginFields(r), isEmail) == [] <==>
      r.email != "" && isEmail(r.email) && r.password != ""
  {
    TwoFields(LoginFields(r)[0], LoginFields(r)[1], isEmail);
    RequiredThen(r.email, Email, isEmail);
    RequiredOnly(r.password, isEmail);
  }

  /** Creating a user is held to the same rules as registering. */
  lemma CreateUserValidity(r: CreateUserRequest, isEmail: string -> bool)
    ensures Validate(CreateUserFields(r), isEmail) == [] <==>
      r.email != "" && isEmail(r.email) && |r.password| >= 6 && |r.name| >= 2
    ensures Validate(CreateUserFields(r), isEmail) ==
      Validate(RegisterFields(RegisterRequest(r.email, r.password, r.name)), isEmail)
  {
    ThreeFields(CreateUserFields(r)[0], CreateUserFields(r)[1], CreateUserFields(r)[2], isEmail);
    RequiredThen(r.email, Email, isEmail);
    RequiredThen(r.password, Min(6), isEmail);
    RequiredThen(r.name, Min(2), isEmail);
  }

  /** An update may leave out the e-mail or the name; what it gives must be well formed. */
  lemma UpdateUserValidity(r: UpdateUserRequest, isEmail: string -> bool)
    ensures Validate(UpdateUserFields(r), isEmail) == [] <==>
      (r.email == "" || isEmail(r.email)) && (r.name == "" || |r.name| >= 2)
  {
    TwoFields(UpdateUserFields(r)[0], UpdateUserFields(r)[1], isEmail);
    OmitEmptyThen(r.email, Email, isEmail);
    OmitEmptyThen(r.name, Min(2), isEmail);
  }

  /** An empty e-mail is reported as missing, not as malformed, and first among the errors. */
  lemma MissingEmailReportedAsRequired(r: RegisterRequest, isEmail: string -> bool)
    requires r.email == ""
    ensures var errs := Validate(RegisterFields(r), isEmail);
      |errs| >= 1 && errs[0] == FieldError("Email", "required", "")
      && FormatErrorMessage(errs[0]) == "This field is required"
  {
  }

  /** A password that is too short is reported with the minimum from the tag. */
  lemma ShortPasswordReportsMinimum(r: RegisterRequest, isEmail: string -> bool)
    requires r.email != "" && isEmail(r.email) && 0 < |r.password| < 6
    ensures var errs := Validate(RegisterFields(r), isEmail);
      |errs| >= 1 && errs[0] == FieldError("Password", "min", "6")
      && FormatErrorMessage(errs[0]) == "Minimum length is 6"
  {
    var fs := RegisterFields(r);
    RequiredThen(r.email, Email, isEmail);
    RequiredThen(r.password, Min(6), isEmail);
    assert fs[1..][1..] == [fs[2]];
    assert Validate(fs, isEmail) == Validate(fs[1..], isEmail);
    assert TagParam(Min(6)) == "6";
  }
}
