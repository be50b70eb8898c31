/** The authentication middleware: where the access token is taken from, how
    it is resolved to a user, and the admin-only gate. */
module AuthMiddleware {
  import opened Values
  import opened Strings
  import opened Envelope
  import opened Tables
  import opened Records

  const BearerPrefix := "Bearer "
  const NoTokenMessage := "Unauthorized Request - No token provided. Please include token in Authorization header as 'Bearer <token>' or send accessToken in cookies."
  const UserNotFoundMessage := "Invalid Access Token - User not found"
  const InvalidTokenMessage := "Invalid access token"
  const NoUserMessage := "Unauthorized Request"
  const AdminOnlyMessage := "Forbidden: Admin access required"

  /** The token `verifyJWT` goes on with: a non-empty `accessToken` cookie
      wins; otherwise a non-empty `Authorization` header gives the text after
      a case-sensitive "Bearer " prefix, or the whole header, trimmed;
      otherwise the (empty or absent) cookie value. */
  function ExtractToken(cookie: Option<string>, header: Option<string>): (token: Option<string>)
    ensures Given(cookie) ==> token == cookie
    ensures !Given(cookie) && Given(header) && StartsWith(header.value, BearerPrefix) ==>
              token == Some(Trim(header.value[|BearerPrefix|..]))
    ensures !Given(cookie) && Given(header) && !StartsWith(header.value, BearerPrefix) ==>
              token == Some(Trim(header.value))
    ensures !Given(cookie) && !Given(header) ==> !Given(token)
  {
    if Given(cookie) then cookie
    else if Given(header) then
      var h := header.value;
      Some(if StartsWith(h, BearerPrefix) then Trim(h[|BearerPrefix|..]) else Trim(h))
    else cookie
  }

  /** A token sent as "Bearer <token>" with whitespace around it is
      recovered exactly when no cookie carries one. */
  lemma BearerHeaderRoundTrip(t: string, pad: string)
    requires t != [] && Trimmed(t) && AllSpace(pad)
    ensures ExtractToken(None, Some(BearerPrefix + pad + t + pad)) == Some(t)
  {
    var h := BearerPrefix + pad + t + pad;
    assert h[..|BearerPrefix|] == BearerPrefix;
    assert h[|BearerPrefix|..] == pad + t + pad;
    TrimOfPadded(pad, t, pad);
  }

  /** A bare token (one that does not itself start with "Bearer ") with
      whitespace around it is recovered too, when the cookie is empty. */
  lemma BareHeaderRoundTrip(t: string, pad: string)
    requires t != [] && Trimmed(t) && AllSpace(pad)
    requires !StartsWith(t, BearerPrefix)
    ensures ExtractToken(Some(""), Some(pad + t + pad)) == Some(t)
  {
    var h := pad + t + pad;
    TrimOfPadded(pad, t, pad);
    if pad == [] {
      assert h == t;
    } else {
      assert h[0] == pad[0] && IsSpace(h[0]);
      assert !IsSpace(BearerPrefix[0]);
      assert |BearerPrefix| <= |h| ==> h[..|BearerPrefix|][0] != BearerPrefix[0];
    }
  }

  /** The failure `verifyJWT` reports for an error that is not an `ApiError`:
      401 with that error's message, or a generic one when it has none. */
  function Unauthorized(message: string): (f: Failure)
    ensures f.Api? && f.error.statusCode == 401
    ensures f.Message() == (if message == "" then InvalidTokenMessage else message)
  {
    Fail(401, if message == "" then InvalidTokenMessage else message)
  }

  /** `verifyJWT`: resolves the request's token to the user it names and
      attaches that user, without password or token, to the request. */
  function VerifyJwt(env: Env, users: Table<User>, cookie: Option<string>, header: Option<string>): (r: Result<Profile>)
    requires forall id :: id in users.docs ==> users.docs[id].id == id
    ensures r.Err? ==> r.failure.Api? && r.failure.error.statusCode == 401
    ensures !Given(ExtractToken(cookie, header)) ==> r == Err(Fail(401, NoTokenMessage))
    ensures Given(ExtractToken(cookie, header)) && env.verify(ExtractToken(cookie, header).value).VerifiedWithoutId? ==>
              r == Err(Fail(401, UserNotFoundMessage))
    ensures r.Ok? <==>
              && Given(ExtractToken(cookie, header))
              && env.verify(ExtractToken(cookie, header).value).Verified?
              && env.validId(env.verify(ExtractToken(cookie, header).value).subject)
              && env.verify(ExtractToken(cookie, header).value).subject in users.docs
    ensures r.Ok? ==> var id := env.verify(ExtractToken(cookie, header).value).subject;
              r.value == ProfileOf(id, users.docs[id].record, false)
  {
    var token := ExtractToken(cookie, header);
    if !Given(token) then Err(Fail(401, NoTokenMessage))
    else
      match env.verify(token.value)
      case Rejected(message) => Err(Unauthorized(message))
      // `findById(undefined)` looks up `_id: null` and finds nobody
      case VerifiedWithoutId => Err(Fail(401, UserNotFoundMessage))
      case Verified(id) =>
        if !env.validId(id) then Err(Unauthorized(env.castMessage(id)))
        else if id !in users.docs then Err(Fail(401, UserNotFoundMessage))
        else Ok(ProfileOf(id, users.docs[id].record, false))
  }

  /** `verifyAdmin`: 401 when no user is attached, 403 unless the user's role
      is "admin", otherwise the request continues with the same user. */
  function VerifyAdmin(user: Option<Profile>): (r: Result<Profile>)
    ensures user.None? ==> r == Err(Fail(401, NoUserMessage))
    ensures user.Some? && !IsAdmin(user.value) ==> r == Err(Fail(403, AdminOnlyMessage))
    ensures r.Ok? <==> user.Some? && IsAdmin(user.value)
    ensures r.Ok? ==> r.value == user.value
  {
    if user.None? then Err(Fail(401, NoUserMessage))
    else if !IsAdmin(user.value) then Err(Fail(403, AdminOnlyMessage))
    else Ok(user.value)
  }
}
