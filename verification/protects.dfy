/** The two guards in front of protected routes: `isAuth` reads a bearer
    token from the Authorization header and loads the user it names;
    `isRole(...roles)` lets the request through only for the listed roles.
    Verifying the token (`jwt.verify`) and loading the user
    (`User.findById`) are calls into code outside this model, so both are
    parameters. */
module Protects {
  import opened Wrappers
  import opened Js
  import Text
  import ErrorHandler

  /** The fields of a stored user the guards and controllers read. */
  datatype User = User(id: string, role: string)

  const NoTokenMessage: string := "Not authorized to access this route. Or token expire"
  const BadTokenMessage: string := "Not authorized to access this route. Or token is expire"

  /** The token: only when the header is present and starts with `Bearer`,
      the second field of the header split on single spaces; `None` stands
      for a missing or empty token, both of which the guard treats as
      absent. */
  function ExtractToken(header: Option<string>): (r: Option<string>)
    ensures r.Some? ==> header.Some? && Text.StartsWith(header.value, "Bearer")
    ensures r.Some? ==> r.value != "" && ' ' !in r.value
    ensures r.Some? <==> header.Some? && Text.StartsWith(header.value, "Bearer")
                         && |Text.Split(header.value, ' ')| > 1 && Text.Split(header.value, ' ')[1] != ""
    ensures r.Some? ==> r.value == Text.Split(header.value, ' ')[1]
  {
    match header
    case None => None
    case Some(h) =>
      if !Text.StartsWith(h, "Bearer") then None
      else
        var fields := Text.Split(h, ' ');
        if |fields| > 1 && fields[1] != "" then Some(fields[1]) else None
  }

  /** `isAuth`: 403 when there is no token, before anything else is
      tried; 403 when the token does not verify or the lookup throws (both
      inside one `try`); otherwise the request goes on with whatever the
      lookup found, `None` standing for `null`. */
  function IsAuth(header: Option<string>,
                  verify: string -> Option<string>,
                  findById: string -> Result<Option<User>, JsError>): (r: Result<Option<User>, JsError>)
    ensures ExtractToken(header).None? ==> r == Err(ErrorResponse(NoTokenMessage, 403))
    ensures r.Err? ==> r.error.statusCode == Some(403)
    ensures r.Ok? <==> (ExtractToken(header).Some? && verify(ExtractToken(header).value).Some?
                        && findById(verify(ExtractToken(header).value).value).Ok?)
    ensures r.Ok? ==> r.value == findById(verify(ExtractToken(header).value).value).value
  {
    match ExtractToken(header)
    case None => Err(ErrorResponse(NoTokenMessage, 403))
    case Some(token) =>
      match verify(token)
      case None => Err(ErrorResponse(BadTokenMessage, 403))
      case Some(id) =>
        match findById(id)
        case Err(_) => Err(ErrorResponse(BadTokenMessage, 403))
        case Ok(user) => Ok(user)
  }

  /** `isRole(...roles)`: through when the user's role is one of `roles`,
      403 naming the role otherwise. A request whose token named a user
      that no longer exists reaches the guard with `null` and the property
      read throws a TypeError. */
  function IsRole(roles: seq<string>, user: Option<User>): (r: Result<(), JsError>)
    ensures user.Some? ==> (r.Ok? <==> user.value.role in roles)
    ensures user.Some? && r.Err? ==> r.error.statusCode == Some(403)
    ensures user.None? ==> r.Err? && r.error.name == "TypeError"
  {
    match user
    case None => Err(TypeError("Cannot read properties of null (reading 'role')", Undefined))
    case Some(u) =>
      if u.role in roles then Ok(())
      else Err(ErrorResponse("User role " + u.role + " is not authorized to access this route", 403))
  }

  /** The two guards in a row, as a protected route that names roles
      runs them: a token whose user no longer exists passes `isAuth` with
      `null` and then makes `isRole` throw, which the client sees as a 500,
      not a 403; a present user goes through exactly when their role is
      listed and is otherwise refused with 403. */
  lemma AuthThenRole(header: Option<string>, verify: string -> Option<string>,
                     findById: string -> Result<Option<User>, JsError>, roles: seq<string>)
    requires IsAuth(header, verify, findById).Ok?
    ensures var user := IsAuth(header, verify, findById).value;
      user.None? ==> IsRole(roles, user).Err? && ErrorHandler.Handle(IsRole(roles, user).error).status == 500
    ensures var user := IsAuth(header, verify, findById).value;
      user.Some? ==> (IsRole(roles, user).Ok? <==> user.value.role in roles)
                     && (IsRole(roles, user).Err? ==> ErrorHandler.Handle(IsRole(roles, user).error).status == 403)
  {
    var user := IsAuth(header, verify, findById).value;
    if user.None? {
      ErrorHandler.TypeErrorIs500("Cannot read properties of null (reading 'role')");
    } else if user.value.role !in roles {
      var m := "User role " + user.value.role + " is not authorized to access this route";
      ErrorHandler.ApplicationErrorPassesThrough(m, 403);
    }
  }

  /** The header `Bearer <token>` hands over exactly the token, for any
      token without spaces. */
  lemma {:induction false} BearerRoundTrip(token: string)
    requires token != "" && ' ' !in token
    ensures ExtractToken(Some("Bearer " + token)) == Some(token)
  {
    var h := "Bearer " + token;
    assert h == "Bearer" + [' '] + token;
    assert "Bearer" + [' '] + token == Text.Join(["Bearer", token], [' ']);
    Text.JoinSplitRoundTrip(["Bearer", token], ' ');
    assert h[..6] == "Bearer";
  }

  /** Without a space after `Bearer` there is no second field and so no
      token; a doubled space gives an empty second field, also no token. */
  lemma NoSpaceNoToken(rest: string)
    requires ' ' !in rest
    ensures ExtractToken(Some("Bearer" + rest)) == None
  {
    var h := "Bearer" + rest;
    assert ' ' !in h by {
      assert forall k :: 0 <= k < |h| ==> h[k] == (if k < 6 then "Bearer"[k] else rest[k - 6]);
    }
    Text.SplitNoSeparator(h, ' ');
  }

  /** A header that does not start with `Bearer`, however short, gives no
      token. */
  lemma OtherSchemeNoToken(h: string)
    requires !Text.StartsWith(h, "Bearer")
    ensures ExtractToken(Some(h)) == None
  {
  }

  /** The no-token answer does not depend on the verifier or the store:
      neither is consulted. */
  lemma NoTokenIgnoresVerifier(header: Option<string>,
                               verify1: string -> Option<string>, verify2: string -> Option<string>,
                               find1: string -> Result<Option<User>, JsError>,
                               find2: string -> Result<Option<User>, JsError>)
    requires ExtractToken(header).None?
    ensures IsAuth(header, verify1, find1) == IsAuth(header, verify2, find2)
  {
  }
}
