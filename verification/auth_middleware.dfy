/** backend/middleware/authMiddleware.js: bearer-token extraction and the role gates.
    A middleware either calls `next()` (possibly after setting `req.user`) or
    answers the request itself. */
module AuthMiddleware {
  import opened Wrappers
  import opened Helpers
  import Text

  /** The outcome of one middleware: continue with a user, or answer now. */
  datatype Gate = Next(user: Claims) | Deny(response: Response<()>)

  /** `authHeader && authHeader.split(" ")[1]`, then the `!token` test: the second
      space-separated part of the header, when there is a non-empty one. */
  function BearerToken(header: Option<string>): (token: Option<string>)
    ensures token.Some? ==> token.value != "" && ' ' !in token.value
    ensures token.Some? ==> Truthy(header)
  {
    if !Truthy(header) then None
    else
      var parts := Text.Split(header.value, ' ');
      if |parts| < 2 || parts[1] == "" then None else Some(parts[1])
  }

  /** Whatever word precedes the space, the token is what follows it: the scheme
      name ("Bearer") is never checked. */
  lemma BearerTokenOfScheme(scheme: string, token: string)
    requires ' ' !in scheme && ' ' !in token && token != ""
    ensures BearerToken(Some(scheme + " " + token)) == Some(token)
  {
    var parts := [scheme, token];
    assert Text.Join(parts, ' ') == scheme + " " + token by {
      assert Text.Join(parts[1..], ' ') == token;
    }
    Text.SplitJoin(parts, ' ');
  }

  /** A header with no space in it carries no token. */
  lemma NoSpaceNoToken(header: string)
    requires ' ' !in header
    ensures BearerToken(Some(header)).None?
  {
  }

  /** `authenticateToken`: 401 without a token, 401 when verification fails,
      otherwise the decoded claims become `req.user`. */
  function AuthenticateToken(header: Option<string>, verify: string -> Option<Claims>): (g: Gate)
    ensures g.Next? <==> BearerToken(header).Some? && verify(BearerToken(header).value).Some?
    ensures g.Next? ==> g.user == verify(BearerToken(header).value).value
    ensures g.Deny? ==> g.response.code == 401 && g.response.status == Error
  {
    match BearerToken(header)
    case None => Deny(Reply(401, "Access token required. Please login."))
    case Some(token) =>
      match verify(token)
      case None => Deny(Reply(401, "Invalid or expired token. Please login again."))
      case Some(claims) => Next(claims)
  }

  /** `requireAdmin`. */
  function RequireAdmin(user: Option<Claims>): (g: Gate)
    ensures g.Next? <==> user.Some? && user.value.role == Admin
    ensures g.Next? ==> g.user == user.value
    ensures g.Deny? ==> g.response.code == 403
  {
    if user.None? || user.value.role != Admin then Deny(Reply(403, "Admin access required."))
    else Next(user.value)
  }

  /** `requireStaffOrAdmin`. */
  function RequireStaffOrAdmin(user: Option<Claims>): (g: Gate)
    ensures g.Next? <==> user.Some? && user.value.role in {Admin, Staff}
    ensures g.Next? ==> g.user == user.value
    ensures g.Deny? ==> g.response.code == 403
  {
    if user.None? || (user.value.role != Admin && user.value.role != Staff) then
      Deny(Reply(403, "Admin or staff access required."))
    else Next(user.value)
  }

  /** `requireOwnerOrAdmin`: `resourceUserId` is `parseInt(req.params.userId)`,
      None when that is NaN (NaN equals nothing). */
  function RequireOwnerOrAdmin(user: Option<Claims>, resourceUserId: Option<int>): (g: Gate)
    ensures user.None? ==> g.Deny? && g.response.code == 401
    ensures user.Some? ==> (g.Next? <==> user.value.role == Admin || Some(user.value.userId) == resourceUserId)
    ensures user.Some? && g.Deny? ==> g.response.code == 403
  {
    if user.None? then Deny(Reply(401, "Access token required."))
    else if user.value.role == Admin then Next(user.value)
    else if resourceUserId == Some(user.value.userId) then Next(user.value)
    else Deny(Reply(403, "You do not have access to this resource."))
  }

  /** The admin gate is strictly narrower than the staff-or-admin gate. */
  lemma AdminGateNarrower(user: Option<Claims>)
    ensures RequireAdmin(user).Next? ==> RequireStaffOrAdmin(user).Next?
    ensures user.Some? && user.value.role == Staff ==>
              RequireStaffOrAdmin(user).Next? && RequireAdmin(user).Deny?
  {
  }
}
