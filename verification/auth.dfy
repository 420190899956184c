/** The authentication middleware: bearer-token extraction from the `Authorization`
    header, classification of verification failures into replies, and the role gate.
    Token verification is cryptography behind a library call and is a parameter. */
module Auth {
  import opened Wrappers
  import opened Text
  import opened Accounts

  /** What `jwt.verify` does with a token: yields the payload's user id, or throws one of
      `JsonWebTokenError`, `TokenExpiredError` or some other error. */
  datatype Verification = Verified(userId: Id) | Malformed | Expired | Failed

  /** A middleware decision: call `next()` with this user on the request, or reply. */
  datatype Gate = Pass(user: PublicUser) | Deny(status: int, error: string)

  const BearerPrefix: string := "Bearer "
  const NoToken: string := "Access denied, No token provided"
  const InvalidToken: string := "Invalid token"
  const TokenExpired: string := "Token expired"
  const AuthFailed: string := "Authentication failed"
  const AuthRequired: string := "Authentication required"

  /** The token of an `Authorization` header: absent unless the header starts with
      "Bearer "; otherwise the header with its first "Bearer " removed, trimmed, and
      absent when that leaves nothing. */
  function BearerToken(header: Option<string>): (r: Option<string>)
    ensures r.Some? <==>
      header.Some? && StartsWith(header.value, BearerPrefix) && !IsBlank(header.value[|BearerPrefix|..])
    ensures r.Some? ==> r.value == Trim(header.value[|BearerPrefix|..]) && r.value != [] && IsTrimmed(r.value)
  {
    if header.None? || header.value == "" || !StartsWith(header.value, BearerPrefix) then None
    else
      ReplacePrefix(header.value, BearerPrefix);
      var token := Trim(ReplaceFirst(header.value, BearerPrefix, ""));
      if token == "" then None else Some(token)
  }

  /** A header built from a token in the usual way gives that token back. */
  lemma BearerRoundTrip(token: string)
    requires token != [] && IsTrimmed(token)
    ensures BearerToken(Some(BearerPrefix + token)) == Some(token)
  {
    var h := BearerPrefix + token;
    assert h[..|BearerPrefix|] == BearerPrefix;
    assert h[|BearerPrefix|..] == token;
  }

  /** What `authenticate` does once it holds a token: `next()` with the looked-up user,
      without its password; 401 "Invalid token" for a malformed token or one whose user
      does not exist; 401 "Token expired"; 500 for any other verification failure. */
  function Admit(token: string, verify: string -> Verification, db: Users): (r: Gate)
    ensures r.Pass? <==> verify(token).Verified? && verify(token).userId in db
    ensures r.Pass? ==> r.user == Expose(verify(token).userId, db[verify(token).userId])
    ensures r == Deny(401, InvalidToken) <==>
      verify(token) == Malformed || (verify(token).Verified? && verify(token).userId !in db)
    ensures r == Deny(401, TokenExpired) <==> verify(token) == Expired
    ensures r.Deny? && r.status == 500 <==> verify(token) == Failed
    ensures r.Deny? ==> r.status == 401 || r.status == 500
  {
    match verify(token)
    case Verified(id) => if id in db then Pass(Expose(id, db[id])) else Deny(401, InvalidToken)
    case Malformed => Deny(401, InvalidToken)
    case Expired => Deny(401, TokenExpired)
    case Failed => Deny(500, AuthFailed)
  }

  /** `authenticate`: 401 with no usable token; otherwise the token decides, as `Admit`
      describes. */
  function Authenticate(header: Option<string>, verify: string -> Verification, db: Users): (r: Gate)
    ensures BearerToken(header).None? ==> r == Deny(401, NoToken)
    ensures r.Pass? <==>
      BearerToken(header).Some? && verify(BearerToken(header).value).Verified?
      && verify(BearerToken(header).value).userId in db
    ensures r.Pass? ==> var id := verify(BearerToken(header).value).userId; r.user == Expose(id, db[id])
    ensures r.Deny? ==> r.status == 401 || r.status == 500
    ensures r.Deny? && r.status == 500 <==>
      BearerToken(header).Some? && verify(BearerToken(header).value) == Failed
    ensures r == Deny(401, TokenExpired) <==>
      BearerToken(header).Some? && verify(BearerToken(header).value) == Expired
    ensures r == Deny(401, InvalidToken) <==>
      BearerToken(header).Some? &&
      (verify(BearerToken(header).value) == Malformed ||
       (verify(BearerToken(header).value).Verified? && verify(BearerToken(header).value).userId !in db))
  {
    match BearerToken(header)
    case None => Deny(401, NoToken)
    case Some(token) => Admit(token, verify, db)
  }

  /** The reply `authorize(...roles)` sends to a user whose role is not listed. */
  function RoleDenied(roles: seq<string>): string
  {
    "Access denied. Required roles: " + Join(roles, ", ")
  }

  /** `authorize(...roles)`: 401 without a user on the request, 403 when its role is not
      among `roles`, otherwise `next()` with the same user. */
  function Authorize(roles: seq<string>, user: Option<PublicUser>): (r: Gate)
    ensures r.Pass? <==> user.Some? && user.value.role in roles
    ensures r.Pass? ==> r.user == user.value
    ensures user.None? ==> r == Deny(401, AuthRequired)
    ensures user.Some? && user.value.role !in roles ==> r == Deny(403, RoleDenied(roles))
  {
    if user.None? then Deny(401, AuthRequired)
    else if user.value.role !in roles then Deny(403, RoleDenied(roles))
    else Pass(user.value)
  }

  /** `authenticate` followed by `authorize(...roles)`, as a protected route mounts them. */
  function Protect(header: Option<string>, verify: string -> Verification, db: Users,
                   roles: seq<string>): (r: Gate)
    ensures Authenticate(header, verify, db).Deny? ==> r == Authenticate(header, verify, db)
    ensures r.Pass? <==> Authenticate(header, verify, db).Pass? && Authenticate(header, verify, db).user.role in roles
    ensures r.Pass? ==> r.user == Authenticate(header, verify, db).user
  {
    match Authenticate(header, verify, db)
    case Deny(s, e) => Deny(s, e)
    case Pass(u) => Authorize(roles, Some(u))
  }

  /** Behind `authenticate`, the role gate never answers 401: a request either fails
      authentication with that reply, or reaches the role check with a user and then
      passes exactly when that user's stored role is allowed, and gets 403 otherwise. */
  lemma ProtectedRoute(header: Option<string>, verify: string -> Verification, db: Users, roles: seq<string>)
    ensures Authenticate(header, verify, db).Pass? ==>
      var id := verify(BearerToken(header).value).userId;
      && (Protect(header, verify, db, roles).Deny? ==> Protect(header, verify, db, roles) == Deny(403, RoleDenied(roles)))
      && (Protect(header, verify, db, roles).Pass? <==> db[id].role in roles)
    ensures Authenticate(header, verify, db).Deny? ==>
      Protect(header, verify, db, roles) == Authenticate(header, verify, db)
  {
    var a := Authenticate(header, verify, db);
    if a.Pass? {
      var id := verify(BearerToken(header).value).userId;
      assert a.user.role == db[id].role;
    }
  }

  /** Allowing more roles never turns away a user the smaller set let through. */
  lemma AuthorizeMonotone(small: seq<string>, large: seq<string>, user: Option<PublicUser>)
    requires forall role :: role in small ==> role in large
    ensures Authorize(small, user).Pass? ==> Authorize(large, user).Pass?
  {
  }
}
