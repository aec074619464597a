/** Request validation as pkg/validator drives it: go-playground's evaluation of the `validate`
    tags the request types use, the formatting of its field errors into a map, and the
    bind-then-validate gate in front of every handler that reads a body. */
module Validator {
  import opened Errors
  import Strconv
  import opened Response

  /** The validation tags that occur on the request types (`min=n` carries its parameter). */
  datatype Tag = Required | Email | Min(n: nat) | OmitEmpty

  /** One struct field as the validator sees it: Go field name, value, tags in order. */
  datatype Field = Field(name: string, value: string, tags: seq<Tag>)

  /** A go-playground FieldError, through the three accessors the formatter uses:
      Field(), Tag() and Param(). */
  datatype FieldError = FieldError(field: string, tag: string, param: string)

  /** The error validate.Struct returns: its ValidationErrors list, or an error of another type. */
  datatype StructError = ValidationErrors(errors: seq<FieldError>) | OtherError(text: string)

  /** What ShouldBindJSON did with the body: the decoded request, or its error text. */
  datatype Bind<T> = Bound(value: T) | BindError(text: string)

  /** Whether the handler may go on with the decoded request, or the response already written. */
  datatype Admission<T> = Proceed(value: T) | Refused(reply: Reply)

  const INVALID_BODY: string := "Invalid request body"
  const VALIDATION_FAILED: string := "Validation failed"

  function TagName(t: Tag): string {
    match t
    case Required => "required"
    case Email => "email"
    case Min(_) => "min"
    case OmitEmpty => "omitempty"
  }

  function TagParam(t: Tag): string {
    if t.Min? then Strconv.Decimal(t.n) else ""
  }

  /** Whether one tag accepts a string value. String length is counted in characters
      (go-playground counts runes). The e-mail syntax check is supplied from outside. */
  predicate Passes(t: Tag, value: string, isEmail: string -> bool) {
    match t
    case Required => value != ""
    case Email => isEmail(value)
    case Min(n) => |value| >= n
    case OmitEmpty => true
  }

  /** The first tag the value fails; `omitempty` on an empty value skips the remaining tags. */
  function FirstFailure(value: string, tags: seq<Tag>, isEmail: string -> bool): Option<Tag>
  {
    if tags == [] then None
    else if tags[0].OmitEmpty? && value == "" then None
    else if !Passes(tags[0], value, isEmail) then Some(tags[0])
    else FirstFailure(value, tags[1..], isEmail)
  }

  predicate FieldValid(f: Field, isEmail: string -> bool) {
    FirstFailure(f.value, f.tags, isEmail).None?
  }

  /** validate.Struct's field errors: at most one per field (its first failing tag), in field order. */
  function Validate(fields: seq<Field>, isEmail: string -> bool): (errs: seq<FieldError>)
    ensures |errs| <= |fields|
    ensures errs == [] <==> forall i | 0 <= i < |fields| :: FieldValid(fields[i], isEmail)
  {
    if fields == [] then []
    else
      var rest := Validate(fields[1..], isEmail);
      assert forall i | 1 <= i < |fields| :: fields[i] == fields[1..][i - 1];
      match FirstFailure(fields[0].value, fields[0].tags, isEmail)
      case None => rest
      case Some(t) => [FieldError(fields[0].name, TagName(t), TagParam(t))] + rest
  }

  /** The error go-playground reports for a failing field: its name and first failing tag. */
  function ErrorFor(f: Field, isEmail: string -> bool): (e: FieldError)
    requires !FieldValid(f, isEmail)
    ensures e.field == f.name && e.tag == TagName(FirstFailure(f.value, f.tags, isEmail).value)
  {
    var t := FirstFailure(f.value, f.tags, isEmail).value;
    FieldError(f.name, TagName(t), TagParam(t))
  }

  /** The number of fields that fail their tags. */
  function FailingCount(fields: seq<Field>, isEmail: string -> bool): nat {
    if fields == [] then 0
    else (if FieldValid(fields[0], isEmail) then 0 else 1) + FailingCount(fields[1..], isEmail)
  }

  /** One step of Validate: the first field's error, if it fails, before the others'. */
  lemma ValidateStep(fields: seq<Field>, isEmail: string -> bool)
    requires fields != []
    ensures Validate(fields, isEmail) ==
      (if FieldValid(fields[0], isEmail) then [] else [ErrorFor(fields[0], isEmail)])
      + Validate(fields[1..], isEmail)
  {
  }

  /** Validate reports exactly as many errors as there are failing fields. */
  lemma {:induction false} ValidateCountsFailures(fields: seq<Field>, isEmail: string -> bool)
    ensures |Validate(fields, isEmail)| == FailingCount(fields, isEmail)
  {
    if fields != [] {
      ValidateStep(fields, isEmail);
      ValidateCountsFailures(fields[1..], isEmail);
    }
  }

  /** Every failing field is reported by its first failing tag. */
  lemma {:induction false} ValidateReportsEveryFailure(fields: seq<Field>, isEmail: string -> bool)
    ensures forall i | 0 <= i < |fields| && !FieldValid(fields[i], isEmail) ::
              ErrorFor(fields[i], isEmail) in Validate(fields, isEmail)
  {
    if fields != [] {
      var tail := fields[1..];
      ValidateStep(fields, isEmail);
      ValidateReportsEveryFailure(tail, isEmail);
      forall i | 1 <= i < |fields| && !FieldValid(fields[i], isEmail)
        ensures ErrorFor(fields[i], isEmail) in Validate(fields, isEmail)
      {
        assert fields[i] == tail[i - 1];
      }
    }
  }

  /** Whether `e` is the report of one of the failing fields. */
  predicate ReportsFailure(fields: seq<Field>, isEmail: string -> bool, e: FieldError) {
    exists i | 0 <= i < |fields| :: !FieldValid(fields[i], isEmail) && e == ErrorFor(fields[i], isEmail)
  }

  /** A failing field of the tail is a failing field of the whole list. */
  lemma ReportsFailureShift(fields: seq<Field>, isEmail: string -> bool, e: FieldError)
    requires fields != [] && ReportsFailure(fields[1..], isEmail, e)
    ensures ReportsFailure(fields, isEmail, e)
  {
    var j :| 0 <= j < |fields[1..]| && !FieldValid(fields[1..][j], isEmail) && e == ErrorFor(fields[1..][j], isEmail);
    assert fields[1..][j] == fields[j + 1];
  }

  /** The k-th reported error is some failing field's report. */
  lemma {:induction false} ReportedIsFailure(fields: seq<Field>, isEmail: string -> bool, k: nat)
    requires k < |Validate(fields, isEmail)|
    ensures ReportsFailure(fields, isEmail, Validate(fields, isEmail)[k])
  {
    ValidateStep(fields, isEmail);
    var errs := Validate(fields, isEmail);
    var rest := Validate(fields[1..], isEmail);
    if FieldValid(fields[0], isEmail) {
      assert errs == rest;
      ReportedIsFailure(fields[1..], isEmail, k);
      ReportsFailureShift(fields, isEmail, errs[k]);
    } else if k == 0 {
      assert errs[0] == ErrorFor(fields[0], isEmail);
    } else {
      assert errs == [ErrorFor(fields[0], isEmail)] + rest;
      assert errs[k] == rest[k - 1];
      ReportedIsFailure(fields[1..], isEmail, k - 1);
      ReportsFailureShift(fields, isEmail, errs[k]);
    }
  }

  /** Every reported error is some failing field's report. */
  lemma ValidateReportsOnlyFailures(fields: seq<Field>, isEmail: string -> bool)
    ensures forall k | 0 <= k < |Validate(fields, isEmail)| ::
              ReportsFailure(fields, isEmail, Validate(fields, isEmail)[k])
  {
    forall k | 0 <= k < |Validate(fields, isEmail)|
      ensures ReportsFailure(fields, isEmail, Validate(fields, isEmail)[k])
    {
      ReportedIsFailure(fields, isEmail, k);
    }
  }

  /** formatErrorMessage: the human-readable message for one failing field. */
  function FormatErrorMessage(e: FieldError): (msg: string)
    ensures e.tag == "required" ==> msg == "This field is required"
    ensures e.tag == "email" ==> msg == "Invalid email format"
    ensures e.tag == "min" ==> msg == "Minimum length is " + e.param
    ensures e.tag == "max" ==> msg == "Maximum length is " + e.param
    ensures e.tag == "eqfield" ==> msg == "Must match " + e.param
    ensures e.tag !in {"required", "email", "min", "max", "eqfield"} ==> msg == "Invalid value"
  {
    if e.tag == "required" then "This field is required"
    else if e.tag == "email" then "Invalid email format"
    else if e.tag == "min" then "Minimum length is " + e.param
    else if e.tag == "max" then "Maximum length is " + e.param
    else if e.tag == "eqfield" then "Must match " + e.param
    else "Invalid value"
  }

  /** Whether `errs[i]` is the last error reported for its field. */
  predicate LastForField(errs: seq<FieldError>, i: nat)
    requires i < |errs|
  {
    forall j | i < j < |errs| :: errs[j].field != errs[i].field
  }

  /** The map the errors are written into one after another: one key per failing field. */
  function FieldMessages(errs: seq<FieldError>): (m: map<string, string>)
    ensures forall f :: f in m <==> exists i | 0 <= i < |errs| :: errs[i].field == f
  {
    if errs == [] then map[]
    else
      var init := errs[..|errs| - 1];
      var last := errs[|errs| - 1];
      assert forall i | 0 <= i < |init| :: init[i] == errs[i];
      FieldMessages(init)[last.field := FormatErrorMessage(last)]
  }

  /** A later error for a field overwrites an earlier one: each field's message is that of
      its last error. */
  lemma {:induction false} LastErrorWins(errs: seq<FieldError>, i: nat)
    requires i < |errs| && LastForField(errs, i)
    ensures errs[i].field in FieldMessages(errs)
    ensures FieldMessages(errs)[errs[i].field] == FormatErrorMessage(errs[i])
    decreases |errs|
  {
    var n := |errs|;
    var init := errs[..n - 1];
    var last := errs[n - 1];
    assert FieldMessages(errs) == FieldMessages(init)[last.field := FormatErrorMessage(last)];
    if i < n - 1 {
      assert last.field != errs[i].field;
      assert init[i] == errs[i];
      assert LastForField(init, i) by {
        forall j | i < j < |init| ensures init[j].field != init[i].field {
          assert init[j] == errs[j];
        }
      }
      LastErrorWins(init, i);
    }
  }

  /** FormatValidationErrors: a map from field name to message, filled in error order;
      an error that is not a ValidationErrors list gives the empty map. */
  method FormatValidationErrors(err: StructError) returns (m: map<string, string>)
    ensures err.OtherError? ==> m == map[]
    ensures err.ValidationErrors? ==> m == FieldMessages(err.errors)
  {
    m := map[];
    if err.ValidationErrors? {
      var errs := err.errors;
      var i := 0;
      while i < |errs|
        invariant 0 <= i <= |errs|
        invariant m == FieldMessages(errs[..i])
      {
        assert errs[..i + 1][..i] == errs[..i];
        m := m[errs[i].field := FormatErrorMessage(errs[i])];
        i := i + 1;
      }
      assert errs[..i] == errs;
    }
  }

  /** Whether a bound body gets past BindAndValidate: it decoded and every field is valid. */
  predicate Admits<T>(bound: Bind<T>, fields: T -> seq<Field>, isEmail: string -> bool) {
    bound.Bound? && Validate(fields(bound.value), isEmail) == []
  }

  /** The 400 reply BindAndValidate writes for a body it refuses. */
  function Refusal<T>(bound: Bind<T>, fields: T -> seq<Field>, isEmail: string -> bool): (r: Reply)
    requires !Admits(bound, fields, isEmail)
    ensures r.status == STATUS_BAD_REQUEST && !r.body.success && r.body.Envelope?
    ensures bound.BindError? ==> r == BadRequest(INVALID_BODY, Str(bound.text))
    ensures bound.Bound? ==>
      r == BadRequest(VALIDATION_FAILED, ErrorMap(FieldMessages(Validate(fields(bound.value), isEmail))))
  {
    if bound.BindError? then BadRequest(INVALID_BODY, Str(bound.text))
    else BadRequest(VALIDATION_FAILED, ErrorMap(FieldMessages(Validate(fields(bound.value), isEmail))))
  }

  /** BindAndValidate: a body that does not decode is refused with 400 "Invalid request body"
      and the decoder's error, before any validation; a decoded body with failing fields is
      refused with 400 "Validation failed" and the field map. Only a body that decodes and
      validates goes on, and then nothing has been written. */
  method BindAndValidate<T>(bound: Bind<T>, fields: T -> seq<Field>, isEmail: string -> bool)
    returns (a: Admission<T>)
    ensures bound.BindError? ==> a == Refused(BadRequest(INVALID_BODY, Str(bound.text)))
    ensures bound.Bound? && Validate(fields(bound.value), isEmail) != [] ==>
              a == Refused(BadRequest(VALIDATION_FAILED, ErrorMap(FieldMessages(Validate(fields(bound.value), isEmail)))))
    ensures a.Proceed? <==> Admits(bound, fields, isEmail)
    ensures a.Proceed? ==> a.value == bound.value
    ensures a.Refused? ==> a.reply == Refusal(bound, fields, isEmail)
  {
    if bound.BindError? {
      return Refused(BadRequest(INVALID_BODY, Str(bound.text)));
    }
    var errs := Validate(fields(bound.value), isEmail);
    if errs != [] {
      var m := FormatValidationErrors(ValidationErrors(errs));
      return Refused(BadRequest(VALIDATION_FAILED, ErrorMap(m)));
    }
    return Proceed(bound.value);
  }
}
