/** The request gate in front of the user routes: the `Authorization: Bearer <token>` check of
    section 2.1 of RFC 6750 as this program implements it (case-sensitive scheme, split at the
    first space), and the lookup of the authenticated user's ID. Writing to the gin context is
    modelled by returning either the keys the next stage sees or the reply that aborts. */
module Middleware {
  import opened Errors
  import opened Models
  import opened Response

  /** The values the gate stores in the context. */
  datatype Value = UintValue(n: nat) | StringValue(s: string)

  /** Either the next stage runs with these context keys, or the chain is aborted with this reply. */
  datatype Outcome = Continue(keys: map<string, Value>) | Reject(reply: Reply)

  const HEADER_REQUIRED: string := "Authorization header required"
  const INVALID_FORMAT: string := "Invalid authorization header format"
  const INVALID_TOKEN: string := "Invalid or expired token"
  const USER_ID_KEY: string := "user_id"
  const USER_EMAIL_KEY: string := "user_email"

  /** strings.SplitN(s, " ", 2): None for the one-element result (no space), otherwise the
      text before the first space and everything after it. */
  function SplitFirstSpace(s: string): (r: Option<(string, string)>)
    ensures r.None? <==> ' ' !in s
    ensures r.Some? ==> r.value.0 + " " + r.value.1 == s && ' ' !in r.value.0
  {
    if s == [] then None
    else if s[0] == ' ' then Some(([], s[1..]))
    else
      match SplitFirstSpace(s[1..])
      case None => None
      case Some((before, after)) => Some(([s[0]] + before, after))
  }

  /** A text with no space, followed by a space, splits exactly there. */
  lemma {:induction false} SplitAtFirstSpace(before: string, after: string)
    requires ' ' !in before
    ensures SplitFirstSpace(before + " " + after) == Some((before, after))
  {
    var s := before + " " + after;
    if before == [] {
      assert s[0] == ' ' && s[1..] == after;
    } else {
      assert before[0] in before;
      assert s[0] == before[0] && s[1..] == before[1..] + " " + after;
      SplitAtFirstSpace(before[1..], after);
      assert [before[0]] + before[1..] == before;
    }
  }

  /** A header starting with "Bearer " splits into "Bearer" and everything after those
      seven characters. */
  lemma BearerHeaderSplits(header: string)
    requires |header| >= 7 && header[..7] == "Bearer "
    ensures SplitFirstSpace(header) == Some(("Bearer", header[7..]))
  {
    var rest := header[7..];
    assert header == "Bearer" + " " + rest by {
      assert header == header[..7] + header[7..];
    }
    assert ' ' !in "Bearer";
    SplitAtFirstSpace("Bearer", rest);
  }

  /** Conversely, a header whose text before the first space is "Bearer" starts with "Bearer ". */
  lemma BearerSplitHeader(header: string)
    requires SplitFirstSpace(header).Some? && SplitFirstSpace(header).value.0 == "Bearer"
    ensures |header| >= 7 && header[..7] == "Bearer "
  {
    var parts := SplitFirstSpace(header);
    var scheme, after := parts.value.0, parts.value.1;
    assert header == scheme + " " + after;
    PrefixOfJoin(scheme + " ", after);
  }

  lemma PrefixOfJoin(a: string, b: string)
    ensures (a + b)[..|a|] == a
  {
  }

  /** The scheme check: the header splits into "Bearer" and a token exactly when it starts
      with "Bearer " — and the token is everything after those seven characters. */
  lemma BearerPrefix(header: string)
    ensures (SplitFirstSpace(header).Some? && SplitFirstSpace(header).value.0 == "Bearer")
            <==> |header| >= 7 && header[..7] == "Bearer "
    ensures |header| >= 7 && header[..7] == "Bearer " ==> SplitFirstSpace(header).value.1 == header[7..]
  {
    if |header| >= 7 && header[..7] == "Bearer " {
      BearerHeaderSplits(header);
    }
    if SplitFirstSpace(header).Some? && SplitFirstSpace(header).value.0 == "Bearer" {
      BearerSplitHeader(header);
    }
  }

  /** AuthMiddleware for one request: `header` is the Authorization header ("" when absent),
      `validate` the token check under `secret`, `keys` the context before the gate. */
  function Authenticate(header: string, secret: string, validate: (string, string) -> Result<Claims>,
                        keys: map<string, Value>): (r: Outcome)
    ensures header == "" ==> r == Reject(Unauthorized(HEADER_REQUIRED))
    ensures header != "" && !(|header| >= 7 && header[..7] == "Bearer ") ==>
      r == Reject(Unauthorized(INVALID_FORMAT))
    ensures |header| >= 7 && header[..7] == "Bearer " && validate(header[7..], secret).Err? ==>
      r == Reject(Unauthorized(INVALID_TOKEN))
    ensures |header| >= 7 && header[..7] == "Bearer " && validate(header[7..], secret).Ok? ==>
      var claims := validate(header[7..], secret).value;
      r == Continue(keys[USER_ID_KEY := UintValue(claims.userId)][USER_EMAIL_KEY := StringValue(claims.email)])
  {
    BearerPrefix(header);
    if header == "" then Reject(Unauthorized(HEADER_REQUIRED))
    else
      var parts := SplitFirstSpace(header);
      if parts.None? || parts.value.0 != "Bearer" then Reject(Unauthorized(INVALID_FORMAT))
      else
        match validate(parts.value.1, secret)
        case Err(_) => Reject(Unauthorized(INVALID_TOKEN))
        case Ok(claims) =>
          Continue(keys[USER_ID_KEY := UintValue(claims.userId)][USER_EMAIL_KEY := StringValue(claims.email)])
  }

  /** Whatever the header, a rejection is a 401 with no data, and the chain goes on only
      with the token's user ID and e-mail in the context. */
  lemma AuthenticateOutcomes(header: string, secret: string, validate: (string, string) -> Result<Claims>,
                             keys: map<string, Value>)
    ensures var r := Authenticate(header, secret, validate, keys);
      && (r.Reject? ==> r.reply.status == STATUS_UNAUTHORIZED && !r.reply.body.success
                        && r.reply.body.message in {HEADER_REQUIRED, INVALID_FORMAT, INVALID_TOKEN})
      && (r.Continue? ==>
            exists c :: && validate(header[7..], secret) == Ok(c)
                        && r.keys[USER_ID_KEY] == UintValue(c.userId)
                        && r.keys[USER_EMAIL_KEY] == StringValue(c.email))
  {
  }

  /** The scheme is matched case-sensitively, another scheme is refused, and a scheme
      without a space is no scheme. */
  lemma SchemeIsCaseSensitive(token: string, secret: string, validate: (string, string) -> Result<Claims>,
                              keys: map<string, Value>)
    ensures Authenticate("bearer " + token, secret, validate, keys) == Reject(Unauthorized(INVALID_FORMAT))
    ensures Authenticate("Token " + token, secret, validate, keys) == Reject(Unauthorized(INVALID_FORMAT))
    ensures Authenticate("Bearer", secret, validate, keys) == Reject(Unauthorized(INVALID_FORMAT))
  {
    assert ("bearer " + token)[..7] == "bearer ";
    if |"Token " + token| >= 7 {
      assert ("Token " + token)[0] == 'T';
    }
  }

  /** GetUserID: (0, false) when the gate has not run; otherwise the stored ID. The source
      type-asserts the value to uint, so a non-ID value under the key is not allowed. */
  function GetUserID(keys: map<string, Value>): (r: (nat, bool))
    requires USER_ID_KEY in keys ==> keys[USER_ID_KEY].UintValue?
    ensures USER_ID_KEY !in keys ==> r == (0, false)
    ensures USER_ID_KEY in keys ==> r == (keys[USER_ID_KEY].n, true)
  {
    if USER_ID_KEY !in keys then (0, false) else (keys[USER_ID_KEY].n, true)
  }

  /** After the gate lets a request through, GetUserID returns the token's user ID. */
  lemma GateThenUserID(header: string, secret: string, validate: (string, string) -> Result<Claims>,
                       keys: map<string, Value>)
    requires Authenticate(header, secret, validate, keys).Continue?
    ensures GetUserID(Authenticate(header, secret, validate, keys).keys)
            == (validate(header[7..], secret).value.userId, true)
  {
  }
}
