/** The authentication middleware of middleware/auth.js: which token `protect` takes
    from a request, what it answers without one or with one that does not verify, and the
    role check of `restrictTo`. Verifying a token (`jwt.verify` with the server's secret)
    is an oracle from the token to the decoded payload, or to nothing when it throws. */
module Auth {
  import opened Text
  import opened UserModel

  /** The decoded payload of a token; `restrictTo` reads only its role, which a payload
      may lack. */
  datatype Claims = Claims(id: string, role: Option<string>)

  /** A JavaScript string value in a test position: present and non-empty. */
  predicate Truthy(v: Option<string>) {
    v.Some? && v.value != ""
  }

  /** The header names the Bearer scheme: present, non-empty, starting with "Bearer". */
  predicate BearerHeader(authorization: Option<string>) {
    Truthy(authorization) && StartsWith(authorization.value, "Bearer")
  }

  /** The `token` variable of `protect` after its two tests: the second space-separated
      piece of a Bearer header (`undefined` when there is none), otherwise the cookie
      token when it is truthy, otherwise `undefined`. */
  function SelectToken(authorization: Option<string>, cookieToken: Option<string>): Option<string> {
    if BearerHeader(authorization) then
      var pieces := Split(authorization.value, ' ');
      if |pieces| > 1 then Some(pieces[1]) else None
    else if Truthy(cookieToken) then cookieToken
    else None
  }

  /** A token taken from a Bearer header has no space in it. */
  lemma BearerTokenHasNoSpace(authorization: Option<string>, cookieToken: Option<string>)
    requires BearerHeader(authorization)
    ensures SelectToken(authorization, cookieToken).Some? ==> ' ' !in SelectToken(authorization, cookieToken).value
  {
    SplitJoin(authorization.value, ' ');
  }

  /** A Bearer header takes precedence: the cookie does not matter. */
  lemma HeaderTakesPrecedence(authorization: Option<string>, cookie1: Option<string>, cookie2: Option<string>)
    requires BearerHeader(authorization)
    ensures SelectToken(authorization, cookie1) == SelectToken(authorization, cookie2)
  {
  }

  /** `Bearer <t>` gives `t`. */
  lemma BearerTokenSelected(t: string, cookieToken: Option<string>)
    requires ' ' !in t
    ensures SelectToken(Some("Bearer " + t), cookieToken) == Some(t)
  {
    assert "Bearer " + t == "Bearer" + [' '] + t;
    assert ' ' !in "Bearer";
    SplitAfterPiece("Bearer", t, ' ');
    SplitWithoutSeparator(t, ' ');
    assert StartsWith("Bearer " + t, "Bearer") by {
      assert ("Bearer " + t)[..6] == "Bearer";
    }
  }

  datatype ProtectResult =
    | Authorized(user: Claims)             // `req.user` set, `next()` called
    | Unauthorized(status: nat, message: string)

  const NoTokenMessage := "Not authorized to access this route"
  const InvalidTokenMessage := "Invalid or expired token"

  /** `protect`: 401 without a truthy token, 401 when the token does not verify, and the
      decoded payload otherwise. */
  function Protect(authorization: Option<string>, cookieToken: Option<string>,
                   verify: string -> Option<Claims>): (r: ProtectResult)
    ensures var token := SelectToken(authorization, cookieToken);
      && (!Truthy(token) ==> r == Unauthorized(401, NoTokenMessage))
      && (Truthy(token) && verify(token.value).None? ==> r == Unauthorized(401, InvalidTokenMessage))
      && (Truthy(token) && verify(token.value).Some? ==> r == Authorized(verify(token.value).value))
  {
    var token := SelectToken(authorization, cookieToken);
    if !Truthy(token) then Unauthorized(401, NoTokenMessage)
    else match verify(token.value)
      case None => Unauthorized(401, InvalidTokenMessage)
      case Some(claims) => Authorized(claims)
  }

  /** A request lets its handler run only with a token that verifies: the payload
      handed on is the decoded token, and every refusal is a 401. */
  lemma ProtectAuthorizesOnlyVerified(authorization: Option<string>, cookieToken: Option<string>,
                                      verify: string -> Option<Claims>)
    ensures Protect(authorization, cookieToken, verify).Authorized? <==>
      exists t :: SelectToken(authorization, cookieToken) == Some(t) && t != "" && verify(t).Some?
    ensures Protect(authorization, cookieToken, verify).Unauthorized? ==>
      Protect(authorization, cookieToken, verify).status == 401
  {
    var token := SelectToken(authorization, cookieToken);
    if Truthy(token) && verify(token.value).Some? {
      assert token == Some(token.value);
    }
  }

  /** A header that starts with "Bearer" but holds no space (just "Bearer", say) yields
      no token, so the request is refused even when it carries a valid cookie. */
  lemma BareBearerRefused(h: string, cookieToken: Option<string>, verify: string -> Option<Claims>)
    requires StartsWith(h, "Bearer") && ' ' !in h
    ensures SelectToken(Some(h), cookieToken) == None
    ensures Protect(Some(h), cookieToken, verify) == Unauthorized(401, NoTokenMessage)
  {
    SplitWithoutSeparator(h, ' ');
  }

  /** "Bearer " with nothing after it yields the empty token, which is refused too. */
  lemma EmptyBearerRefused(cookieToken: Option<string>, verify: string -> Option<Claims>)
    ensures Protect(Some("Bearer "), cookieToken, verify) == Unauthorized(401, NoTokenMessage)
  {
    BearerTokenSelected("", cookieToken);
    assert "Bearer " + "" == "Bearer ";
  }

  /** Without a Bearer header the cookie decides. */
  lemma CookieUsedWithoutBearer(authorization: Option<string>, t: string, verify: string -> Option<Claims>)
    requires !BearerHeader(authorization) && t != ""
    ensures SelectToken(authorization, Some(t)) == Some(t)
    ensures Protect(authorization, Some(t), verify) ==
      if verify(t).Some? then Authorized(verify(t).value) else Unauthorized(401, InvalidTokenMessage)
  {
  }

  datatype RestrictResult =
    | Next
    | Forbidden(status: nat, message: string)   // `next(new APIError(message, 403))`

  /** `restrictTo(...roles)` applied to the authenticated user. */
  function RestrictTo(roles: seq<string>, user: Claims): (r: RestrictResult)
    ensures r.Next? <==> user.role.Some? && user.role.value in roles
    ensures r.Forbidden? ==> r == Forbidden(403, NoTokenMessage)
  {
    if user.role.Some? && user.role.value in roles then Next
    else Forbidden(403, NoTokenMessage)
  }

  /** Naming more roles never shuts out a user who was let through. */
  lemma RestrictToMonotone(roles: seq<string>, more: seq<string>, user: Claims)
    requires forall x :: x in roles ==> x in more
    requires RestrictTo(roles, user).Next?
    ensures RestrictTo(more, user).Next?
  {
  }
}
