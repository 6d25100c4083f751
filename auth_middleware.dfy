/** The bearer-token middleware of backend/middleware/auth.js. Token
    verification (`jwt.verify` with the server secret) is the parameter
    `verify`: it yields the decoded claims, or None when verification throws. */
module AuthMiddleware {
  import opened Base
  import opened Text

  const BearerPrefix := "Bearer "

  /** What the middleware does with a request: call `next()` with `req.user`
      set, or answer with an error status. */
  datatype Decision = Next(user: Claims) | Reject(failure: Failure)

  /** `req.header('Authorization')?.replace('Bearer ', '')`. */
  function ExtractToken(header: Option<string>): (t: Option<string>)
    ensures header.None? <==> t.None?
    // a header that begins with the prefix loses exactly that prefix
    ensures header.Some? && StartsWith(header.value, BearerPrefix) ==>
              t == Some(header.value[|BearerPrefix|..])
    // a header without the prefix anywhere is the token itself
    ensures header.Some? && (forall j :: !OccursAt(header.value, BearerPrefix, j)) ==> t == header
  {
    match header
    case None => None
    case Some(h) =>
      assert StartsWith(h, BearerPrefix) ==>
               FirstOccurrence(h, BearerPrefix, 0) && h[..0] + "" + h[|BearerPrefix|..] == h[|BearerPrefix|..];
      Some(ReplaceFirst(h, BearerPrefix, ""))
  }

  /** `requiredRole && ...`: an absent or empty required role switches the
      role check off. */
  predicate RoleRequired(requiredRole: Option<string>)
  {
    requiredRole.Some? && Truthy(requiredRole.value)
  }

  /** The middleware returned by `authMiddleware(requiredRole)`, applied to a
      request with the given Authorization header. */
  function Authenticate(header: Option<string>, requiredRole: Option<string>,
                        verify: string -> Option<Claims>): (d: Decision)
    // no header, or nothing left after removing the prefix: 401
    ensures (ExtractToken(header) == None || ExtractToken(header) == Some(""))
            <==> d == Reject(Unauthorized("No token provided"))
    // a token that fails verification: 401, next is not called
    ensures (ExtractToken(header).Some? && ExtractToken(header).value != ""
             && verify(ExtractToken(header).value).None?)
            <==> d == Reject(Unauthorized("Invalid token"))
    // otherwise the request passes exactly when the role check is off or
    // the role equals the required one ignoring case; req.user is the claim
    ensures d.Next? <==>
              ExtractToken(header).Some? && ExtractToken(header).value != ""
              && verify(ExtractToken(header).value).Some?
              && (RoleRequired(requiredRole) ==>
                    var role := verify(ExtractToken(header).value).value.role;
                    role.Some? && SameIgnoringCase(role.value, requiredRole.value))
    ensures d.Next? ==> Some(d.user) == verify(ExtractToken(header).value)
    // a verified claim whose role is absent or differs from the required
    // one: 403 naming the required role
    ensures (ExtractToken(header).Some? && ExtractToken(header).value != ""
             && verify(ExtractToken(header).value).Some? && RoleRequired(requiredRole)
             && var role := verify(ExtractToken(header).value).value.role;
                !(role.Some? && SameIgnoringCase(role.value, requiredRole.value)))
            <==> (RoleRequired(requiredRole) && d == Reject(Forbidden("Requires " + requiredRole.value + " role")))
    ensures d.Reject? && d.failure.Forbidden? ==>
              RoleRequired(requiredRole) && d == Reject(Forbidden("Requires " + requiredRole.value + " role"))
  {
    match ExtractToken(header)
    case None => Reject(Unauthorized("No token provided"))
    case Some(token) =>
      if token == "" then Reject(Unauthorized("No token provided"))
      else
        match verify(token)
        case None => Reject(Unauthorized("Invalid token"))
        case Some(user) =>
          if !RoleRequired(requiredRole) then Next(user)
          else
            var forbidden := Reject(Forbidden("Requires " + requiredRole.value + " role"));
            match user.role
            case None => forbidden
            case Some(role) =>
              ToLowerEqualIff(role, requiredRole.value);
              if ToLower(role) != ToLower(requiredRole.value) then forbidden else Next(user)
  }

  /** A header of the form `Bearer <t>` yields the token `t`. */
  lemma BearerHeaderToken(t: string)
    ensures ExtractToken(Some(BearerPrefix + t)) == Some(t)
  {
    var h := BearerPrefix + t;
    assert h[0..|BearerPrefix|] == BearerPrefix;
    assert FirstOccurrence(h, BearerPrefix, 0);
    assert h[..0] + "" + h[|BearerPrefix|..] == t;
  }

  /** A header without the prefix is taken as the token itself. */
  lemma RawHeaderToken(h: string)
    requires forall j :: !OccursAt(h, BearerPrefix, j)
    ensures ExtractToken(Some(h)) == Some(h)
  {
  }

  /** The removal is not anchored at the start of the header: the first
      occurrence is cut out wherever it stands. */
  lemma UnanchoredRemoval()
    ensures ExtractToken(Some("xBearer abc")) == Some("xabc")
  {
    var h := "xBearer abc";
    assert !OccursAt(h, BearerPrefix, 0) by { assert h[0] != BearerPrefix[0]; }
    assert h[1..1 + |BearerPrefix|] == BearerPrefix;
    assert FirstOccurrence(h, BearerPrefix, 1);
    assert h[..1] + "" + h[1 + |BearerPrefix|..] == "xabc";
  }

  /** How a request fares in the middleware slot of a route: answered or
      passed on by the middleware, or left without any answer. */
  datatype Mounted = Handled(decision: Decision) | Stalled

  /** `router.get(path, authMiddleware, handler)`: Express calls the factory
      itself as the middleware. It binds the request to `requiredRole` and
      returns the inner middleware without calling it, so neither `next()`
      runs nor a response is sent, whatever the request carries. */
  function MountedUncalled(header: Option<string>, verify: string -> Option<Claims>): (m: Mounted)
    ensures !m.Handled?
  {
    Stalled
  }

  /** `router.get(path, authMiddleware(), handler)`: the middleware without a
      required role. */
  function MountedCalled(header: Option<string>, verify: string -> Option<Claims>): (m: Mounted)
    ensures m.Handled? && m.decision == Authenticate(header, None, verify)
  {
    Handled(Authenticate(header, None, verify))
  }

  /** With the factory called, a verified bearer token reaches the handler
      with its claims; mounted uncalled, the same request stalls. */
  lemma UncalledStallsValidRequest(t: string, verify: string -> Option<Claims>)
    requires t != "" && verify(t).Some?
    ensures MountedCalled(Some(BearerPrefix + t), verify) == Handled(Next(verify(t).value))
    ensures MountedUncalled(Some(BearerPrefix + t), verify) == Stalled
  {
    BearerHeaderToken(t);
  }
}
