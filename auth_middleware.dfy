/** `JWTAuthMiddleware`: the `Authorization` header check, the extraction of
    the bearer token (section 2.1 of RFC 6750), its verification and the
    role gate, over a gin request context. Token verification is a
    parameter: it yields the token's claims or nothing. */
module AuthMiddleware {
  import opened Wrappers

  const BearerPrefix: string := "Bearer "
  const StatusUnauthorized := 401
  const StatusForbidden := 403

  /** The part of `utils.TokenClaims` the middleware reads. */
  datatype Claims = Claims(userID: string, role: string)

  datatype Reason = MissingHeader | NotBearer | InvalidToken | NoPermission

  /** What the middleware does with a request: let it through with the
      token's claims, or answer with a status and, or not, abort the
      handler chain. */
  datatype Verdict =
    | Pass(claims: Claims)
    | Reject(status: int, reason: Reason, aborted: bool)

  /** The header starts with exactly `Bearer `: the scheme is matched
      case-sensitively, and a header of fewer than 7 characters never
      matches. */
  predicate BearerFormat(header: string) {
    |header| >= |BearerPrefix| && header[..|BearerPrefix|] == BearerPrefix
  }

  /** The token is what follows the 7-character prefix. */
  function TokenOf(header: string): (t: string)
    requires BearerFormat(header)
    ensures BearerPrefix + t == header
  {
    header[|BearerPrefix|..]
  }

  /** The claims' role satisfies the required roles: there are none, or it
      is one of them. */
  predicate RoleAllowed(role: string, requireRoles: seq<string>) {
    |requireRoles| == 0 || role in requireRoles
  }

  /** The middleware's decision, as the code is written. */
  function Gate(header: string, verify: string -> Option<Claims>, requireRoles: seq<string>): (v: Verdict)
    ensures v.Pass? <==> BearerFormat(header) && verify(TokenOf(header)).Some?
                         && RoleAllowed(verify(TokenOf(header)).value.role, requireRoles)
    ensures v.Pass? ==> v.claims == verify(TokenOf(header)).value
  {
    if header == "" then Reject(StatusUnauthorized, MissingHeader, true)
    else if !BearerFormat(header) then Reject(StatusUnauthorized, NotBearer, false)
    else
      var claims := verify(TokenOf(header));
      if claims.None? then Reject(StatusUnauthorized, InvalidToken, true)
      else if !RoleAllowed(claims.value.role, requireRoles) then Reject(StatusForbidden, NoPermission, true)
      else Pass(claims.value)
  }

  /** An empty header is answered 401 and the chain is aborted. */
  lemma EmptyHeaderRejected(verify: string -> Option<Claims>, requireRoles: seq<string>)
    ensures Gate("", verify, requireRoles) == Reject(StatusUnauthorized, MissingHeader, true)
  {
  }

  /** A non-empty header not in the Bearer format is answered 401, but the
      chain is not aborted. */
  lemma NotBearerNotAborted(header: string, verify: string -> Option<Claims>, requireRoles: seq<string>)
    requires header != "" && !BearerFormat(header)
    ensures Gate(header, verify, requireRoles) == Reject(StatusUnauthorized, NotBearer, false)
  {
  }

  /** The scheme is matched case-sensitively, although section 2.1 of
      RFC 7235 makes authentication schemes case-insensitive: a lower-case
      `bearer` is refused whatever the token. */
  lemma LowerCaseSchemeRefused(token: string, verify: string -> Option<Claims>, requireRoles: seq<string>)
    ensures Gate("bearer " + token, verify, requireRoles) == Reject(StatusUnauthorized, NotBearer, false)
  {
    var h := "bearer " + token;
    assert h[0] == 'b' && BearerPrefix[0] == 'B';
    assert h[..|BearerPrefix|][0] == 'b';
  }

  /** A token that does not verify is answered 401 with an abort; the roles
      play no part. */
  lemma InvalidTokenRejected(header: string, verify: string -> Option<Claims>, requireRoles: seq<string>)
    requires BearerFormat(header) && verify(TokenOf(header)).None?
    ensures Gate(header, verify, requireRoles) == Reject(StatusUnauthorized, InvalidToken, true)
  {
  }

  /** With no required roles every verified token passes. */
  lemma NoRolesEveryTokenPasses(header: string, verify: string -> Option<Claims>)
    requires BearerFormat(header) && verify(TokenOf(header)).Some?
    ensures Gate(header, verify, []) == Pass(verify(TokenOf(header)).value)
  {
  }

  /** With required roles a verified token passes exactly when its role is
      one of them, and is otherwise answered 403 with an abort. */
  lemma RoleGate(header: string, verify: string -> Option<Claims>, requireRoles: seq<string>)
    requires BearerFormat(header) && verify(TokenOf(header)).Some? && |requireRoles| > 0
    ensures verify(TokenOf(header)).value.role in requireRoles ==> Gate(header, verify, requireRoles) == Pass(verify(TokenOf(header)).value)
    ensures verify(TokenOf(header)).value.role !in requireRoles ==> Gate(header, verify, requireRoles) == Reject(StatusForbidden, NoPermission, true)
  {
  }

  /** The corrected decision: every refusal aborts the chain. */
  function GateCorrected(header: string, verify: string -> Option<Claims>, requireRoles: seq<string>): (v: Verdict)
    ensures v.Reject? ==> v.aborted
  {
    match Gate(header, verify, requireRoles)
    case Pass(c) => Pass(c)
    case Reject(status, reason, _) => Reject(status, reason, true)
  }

  /** The correction changes nothing but the abort: the same requests pass
      with the same claims, and refusals keep their status and reason. */
  lemma GateCorrectedAgrees(header: string, verify: string -> Option<Claims>, requireRoles: seq<string>)
    ensures GateCorrected(header, verify, requireRoles).Pass? == Gate(header, verify, requireRoles).Pass?
    ensures Gate(header, verify, requireRoles).Pass? ==> GateCorrected(header, verify, requireRoles) == Gate(header, verify, requireRoles)
    ensures Gate(header, verify, requireRoles).Reject? ==>
      GateCorrected(header, verify, requireRoles).status == Gate(header, verify, requireRoles).status
      && GateCorrected(header, verify, requireRoles).reason == Gate(header, verify, requireRoles).reason
  {
  }

  /** As written, a request with `Authorization: Basic abc` is answered 401
      and yet runs on to the protected handler; corrected, it is aborted. */
  lemma BasicHeaderRunsOn(verify: string -> Option<Claims>, requireRoles: seq<string>)
    ensures Gate("Basic abc", verify, requireRoles) == Reject(StatusUnauthorized, NotBearer, false)
    ensures GateCorrected("Basic abc", verify, requireRoles) == Reject(StatusUnauthorized, NotBearer, true)
  {
    assert "Basic abc"[0] == 'B' && "Basic abc"[1] == 'a' && BearerPrefix[1] == 'e';
    assert !BearerFormat("Basic abc") by {
      assert "Basic abc"[..|BearerPrefix|][1] == 'a';
    }
  }

  /** The part of a gin context the middleware touches: the response
      status, the abort flag and the request-scoped keys. */
  class Context {
    var status: int
    var aborted: bool
    var keys: map<string, string>

    constructor ()
      ensures status == 200 && !aborted && keys == map[]
    {
      status := 200;
      aborted := false;
      keys := map[];
    }

    /** Gin goes on to the next handler unless the chain was aborted. */
    predicate RunsOn()
      reads this
    {
      !aborted
    }
  }

  /** The role loop: sets the flag on the first role equal to the claims'
      role. */
  method RoleIsValid(role: string, requireRoles: seq<string>) returns (roleIsValid: bool)
    ensures roleIsValid <==> role in requireRoles
  {
    roleIsValid := false;
    var i := 0;
    while i < |requireRoles|
      invariant 0 <= i <= |requireRoles|
      invariant !roleIsValid && role !in requireRoles[..i]
    {
      if role == requireRoles[i] {
        roleIsValid := true;
        return;
      }
      i := i + 1;
    }
  }

  /** The handler the middleware installs, run on one request. */
  method JWTAuthMiddleware(ctx: Context, authHeader: string, verify: string -> Option<Claims>, requireRoles: seq<string>)
    modifies ctx
    ensures Gate(authHeader, verify, requireRoles).Pass? ==>
      && ctx.keys == old(ctx.keys)["userID" := Gate(authHeader, verify, requireRoles).claims.userID]["role" := Gate(authHeader, verify, requireRoles).claims.role]
      && ctx.status == old(ctx.status) && ctx.aborted == old(ctx.aborted)
    ensures Gate(authHeader, verify, requireRoles).Reject? ==>
      && ctx.status == Gate(authHeader, verify, requireRoles).status
      && ctx.aborted == (old(ctx.aborted) || Gate(authHeader, verify, requireRoles).aborted)
      && ctx.keys == old(ctx.keys)
  {
    if authHeader == "" {
      ctx.status := StatusUnauthorized;
      ctx.aborted := true;
      return;
    }
    if |authHeader| < 7 || authHeader[..7] != BearerPrefix {
      ctx.status := StatusUnauthorized;
      return;
    }
    var tokenString := authHeader[|BearerPrefix|..];
    var claims := verify(tokenString);
    if claims.None? {
      ctx.status := StatusUnauthorized;
      ctx.aborted := true;
      return;
    }
    var roleIsValid := RoleIsValid(claims.value.role, requireRoles);
    if !roleIsValid && |requireRoles| > 0 {
      ctx.status := StatusForbidden;
      ctx.aborted := true;
      return;
    }
    ctx.keys := ctx.keys["userID" := claims.value.userID];
    ctx.keys := ctx.keys["role" := claims.value.role];
  }
}
