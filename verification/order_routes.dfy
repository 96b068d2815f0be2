/** backend/routes/orderRoutes.js: the order endpoints under `/api/orders`, their
    middleware chains, and Express's first-registered-first-matched dispatch.
    A path is the list of its segments after the mount point; a trailing slash
    adds no segment, since the router is not strict about it. */
module OrderRoutes {
  import opened Wrappers
  import opened Helpers
  import AuthMiddleware
  import Text

  datatype Verb = Get | Post | Put | Delete

  /** A path segment pattern: a literal word, matched ignoring case as the
      router does by default, or a `:param` that takes any non-empty segment. */
  datatype Segment = Lit(word: string) | Param

  datatype Handler = CreateOrder | GetMyOrders | GetAllOrders | GetOrderStats
                   | GetOrderById | UpdateOrderStatus | DeleteOrder

  /** The role gate after `authenticateToken`, if any. */
  datatype Guard = AnyUser | StaffOrAdmin | AdminOnly

  datatype Route = Route(verb: Verb, pattern: seq<Segment>, guard: Guard, handler: Handler)

  /** The routes in registration order. */
  function Routes(): seq<Route> {
    [ Route(Post, [], AnyUser, CreateOrder),
      Route(Get, [Lit("my-orders")], AnyUser, GetMyOrders),
      Route(Get, [], StaffOrAdmin, GetAllOrders),
      Route(Get, [Lit("stats")], AdminOnly, GetOrderStats),
      Route(Get, [Param], AnyUser, GetOrderById),
      Route(Put, [Param, Lit("status")], StaffOrAdmin, UpdateOrderStatus),
      Route(Delete, [Param], AdminOnly, DeleteOrder) ]
  }

  /** The literals are ASCII, and a case-insensitive regular expression without
      the unicode flag never folds a non-ASCII character onto an ASCII one, so
      folding ASCII letters alone decides the match. */
  predicate SegmentMatches(s: Segment, word: string) {
    match s
    case Lit(w) => Text.ToLower(w) == Text.ToLower(word)
    case Param => word != ""
  }

  /** The literals of the routes are already lower case. */
  lemma LowerLiterals()
    ensures Text.ToLower("my-orders") == "my-orders"
    ensures Text.ToLower("stats") == "stats"
    ensures Text.ToLower("status") == "status"
  {
    assert Text.ToLower("my-orders") == "my-orders";
    assert Text.ToLower("stats") == "stats";
    assert Text.ToLower("status") == "status";
  }

  predicate Matches(r: Route, verb: Verb, path: seq<string>) {
    r.verb == verb && |r.pattern| == |path|
    && forall i :: 0 <= i < |path| ==> SegmentMatches(r.pattern[i], path[i])
  }

  /** The first route in `routes` that matches. */
  function FirstMatch(routes: seq<Route>, verb: Verb, path: seq<string>): (r: Option<nat>)
    ensures r.None? <==> forall k :: 0 <= k < |routes| ==> !Matches(routes[k], verb, path)
    ensures r.Some? ==> r.value < |routes| && Matches(routes[r.value], verb, path)
    ensures r.Some? ==> forall k :: 0 <= k < r.value ==> !Matches(routes[k], verb, path)
  {
    if |routes| == 0 then None
    else if Matches(routes[0], verb, path) then Some(0)
    else match FirstMatch(routes[1..], verb, path)
      case None => None
      case Some(k) => Some(k + 1)
  }

  /** The route Express runs for a request, if any. */
  function Dispatch(verb: Verb, path: seq<string>): (r: Option<Route>)
    ensures r.Some? ==> r.value in Routes() && Matches(r.value, verb, path)
    ensures r.None? <==> forall k :: 0 <= k < |Routes()| ==> !Matches(Routes()[k], verb, path)
  {
    match FirstMatch(Routes(), verb, path)
    case None => None
    case Some(k) => Some(Routes()[k])
  }

  predicate Permits(g: Guard, role: Role) {
    match g
    case AnyUser => true
    case StaffOrAdmin => role == Staff || role == Admin
    case AdminOnly => role == Admin
  }

  /** What happens to a request: it reaches a handler as a user, is refused
      with a status code, or matches no order route. */
  datatype Outcome = Handled(handler: Handler, user: Claims) | Refused(code: int) | NoRoute

  /** The middleware chain of the matched route. */
  function RunGuard(g: Guard, user: Claims): AuthMiddleware.Gate {
    match g
    case AnyUser => AuthMiddleware.Next(user)
    case StaffOrAdmin => AuthMiddleware.RequireStaffOrAdmin(Some(user))
    case AdminOnly => AuthMiddleware.RequireAdmin(Some(user))
  }

  /** Every order route authenticates first (401), then applies its role gate (403). */
  function Serve(verb: Verb, path: seq<string>, header: Option<string>,
                 verify: string -> Option<Claims>): (r: Outcome)
    ensures r.NoRoute? <==> Dispatch(verb, path).None?
    ensures Dispatch(verb, path).Some? && AuthMiddleware.AuthenticateToken(header, verify).Deny? ==>
              r == Refused(401)
    ensures r.Handled? ==>
              && r.handler == Dispatch(verb, path).value.handler
              && AuthMiddleware.AuthenticateToken(header, verify) == AuthMiddleware.Next(r.user)
              && Permits(Dispatch(verb, path).value.guard, r.user.role)
    ensures Dispatch(verb, path).Some? && AuthMiddleware.AuthenticateToken(header, verify).Next? ==>
              var u := AuthMiddleware.AuthenticateToken(header, verify).user;
              if Permits(Dispatch(verb, path).value.guard, u.role)
              then r == Handled(Dispatch(verb, path).value.handler, u)
              else r == Refused(403)
  {
    match Dispatch(verb, path)
    case None => NoRoute
    case Some(route) =>
      match AuthMiddleware.AuthenticateToken(header, verify)
      case Deny(resp) => Refused(resp.code)
      case Next(user) =>
        match RunGuard(route.guard, user)
        case Deny(resp) => Refused(resp.code)
        case Next(u) => Handled(route.handler, u)
  }

  /** A route that matches, with none before it matching, is the one dispatched. */
  lemma DispatchAt(verb: Verb, path: seq<string>, k: nat)
    requires k < |Routes()| && Matches(Routes()[k], verb, path)
    requires forall j :: 0 <= j < k ==> !Matches(Routes()[j], verb, path)
    ensures Dispatch(verb, path) == Some(Routes()[k])
  {
  }

  /** `/my-orders` is registered before `/:id`, so it is not read as an order id. */
  lemma MyOrdersRoute()
    ensures Dispatch(Get, ["my-orders"]) == Some(Routes()[1])
    ensures Dispatch(Get, ["my-orders"]).value.handler == GetMyOrders
  {
    LowerLiterals();
    assert Matches(Routes()[1], Get, ["my-orders"]);
    DispatchAt(Get, ["my-orders"], 1);
  }

  /** `/stats` is registered before `/:id`, so it is not read as an order id. */
  lemma StatsRoute()
    ensures Dispatch(Get, ["stats"]) == Some(Routes()[3])
    ensures Dispatch(Get, ["stats"]).value.handler == GetOrderStats
  {
    var rs := Routes();
    LowerLiterals();
    assert rs[1].pattern == [Lit("my-orders")];
    assert "my-orders"[0] != "stats"[0];
    assert !SegmentMatches(rs[1].pattern[0], ["stats"][0]);
    assert Matches(rs[3], Get, ["stats"]);
    DispatchAt(Get, ["stats"], 3);
  }

  /** The literal routes take their words in any letter case. */
  lemma CaseInsensitiveRoutes(word: string)
    requires Text.ToLower(word) == "stats"
    ensures Dispatch(Get, [word]) == Some(Routes()[3])
  {
    var rs := Routes();
    LowerLiterals();
    assert "my-orders"[0] != "stats"[0];
    assert !SegmentMatches(rs[1].pattern[0], [word][0]);
    assert Matches(rs[3], Get, [word]);
    DispatchAt(Get, [word], 3);
  }

  /** Every other non-empty single segment, that is one that is not "my-orders"
      or "stats" in some letter case, is read as an order id. */
  lemma OrderIdRoute(word: string)
    requires word != "" && Text.ToLower(word) != "my-orders" && Text.ToLower(word) != "stats"
    ensures Dispatch(Get, [word]) == Some(Routes()[4])
    ensures Dispatch(Get, [word]).value.handler == GetOrderById
  {
    var rs := Routes();
    LowerLiterals();
    assert rs[1].pattern == [Lit("my-orders")] && rs[3].pattern == [Lit("stats")];
    assert !SegmentMatches(rs[1].pattern[0], [word][0]);
    assert !SegmentMatches(rs[3].pattern[0], [word][0]);
    assert Matches(rs[4], Get, [word]);
    DispatchAt(Get, [word], 4);
  }

  /** `GET /` and `POST /` reach different handlers with different gates. */
  lemma RootRoutes()
    ensures Dispatch(Post, []) == Some(Routes()[0])
    ensures Dispatch(Get, []) == Some(Routes()[2])
    ensures Dispatch(Post, []).value.handler == CreateOrder && Dispatch(Post, []).value.guard == AnyUser
    ensures Dispatch(Get, []).value.handler == GetAllOrders && Dispatch(Get, []).value.guard == StaffOrAdmin
  {
    var rs := Routes();
    assert Matches(rs[0], Post, []);
    DispatchAt(Post, [], 0);
    assert Matches(rs[2], Get, []);
    DispatchAt(Get, [], 2);
  }

  /** `PUT /:id/status` and `DELETE /:id` each have one route. */
  lemma WriteRoutes(id: string)
    requires id != ""
    ensures Dispatch(Put, [id, "status"]) == Some(Routes()[5])
    ensures Dispatch(Delete, [id]) == Some(Routes()[6])
    ensures Dispatch(Put, [id, "status"]).value.handler == UpdateOrderStatus
    ensures Dispatch(Delete, [id]).value.handler == DeleteOrder
  {
    var rs := Routes();
    LowerLiterals();
    assert Matches(rs[5], Put, [id, "status"]);
    DispatchAt(Put, [id, "status"], 5);
    assert Matches(rs[6], Delete, [id]);
    DispatchAt(Delete, [id], 6);
  }

  /** Past authentication, a dispatched request reaches its handler exactly
      when the route's gate admits the user's role. */
  lemma Admitted(verb: Verb, path: seq<string>, header: Option<string>, verify: string -> Option<Claims>)
    requires Dispatch(verb, path).Some? && AuthMiddleware.AuthenticateToken(header, verify).Next?
    ensures Serve(verb, path, header, verify).Handled?
            <==> Permits(Dispatch(verb, path).value.guard, AuthMiddleware.AuthenticateToken(header, verify).user.role)
  {
  }

  /** The access matrix, open part: any authenticated user may place an order,
      list their own orders and ask for one order by id. */
  lemma OpenRoutes(header: Option<string>, verify: string -> Option<Claims>, id: string)
    requires AuthMiddleware.AuthenticateToken(header, verify).Next?
    requires id != "" && Text.ToLower(id) != "my-orders" && Text.ToLower(id) != "stats"
    ensures Serve(Post, [], header, verify).Handled?
    ensures Serve(Get, ["my-orders"], header, verify).Handled?
    ensures Serve(Get, [id], header, verify).Handled?
  {
    RootRoutes();
    Admitted(Post, [], header, verify);
    MyOrdersRoute();
    Admitted(Get, ["my-orders"], header, verify);
    OrderIdRoute(id);
    Admitted(Get, [id], header, verify);
  }

  /** The access matrix, staff part: listing all orders and changing a status
      are refused to customers only. */
  lemma StaffRoutes(header: Option<string>, verify: string -> Option<Claims>, id: string)
    requires AuthMiddleware.AuthenticateToken(header, verify).Next?
    requires id != ""
    ensures var role := AuthMiddleware.AuthenticateToken(header, verify).user.role;
            && (Serve(Get, [], header, verify).Handled? <==> role != Customer)
            && (Serve(Put, [id, "status"], header, verify).Handled? <==> role != Customer)
  {
    RootRoutes();
    Admitted(Get, [], header, verify);
    WriteRoutes(id);
    Admitted(Put, [id, "status"], header, verify);
  }

  /** The access matrix, admin part: statistics and deletion are for admins only. */
  lemma AdminRoutes(header: Option<string>, verify: string -> Option<Claims>, id: string)
    requires AuthMiddleware.AuthenticateToken(header, verify).Next?
    requires id != ""
    ensures var role := AuthMiddleware.AuthenticateToken(header, verify).user.role;
            && (Serve(Get, ["stats"], header, verify).Handled? <==> role == Admin)
            && (Serve(Delete, [id], header, verify).Handled? <==> role == Admin)
  {
    StatsRoute();
    Admitted(Get, ["stats"], header, verify);
    WriteRoutes(id);
    Admitted(Delete, [id], header, verify);
  }

  /** No order route answers an unauthenticated request with anything but 401. */
  lemma AllRoutesAuthenticate(verb: Verb, path: seq<string>, verify: string -> Option<Claims>)
    requires Dispatch(verb, path).Some?
    ensures Serve(verb, path, None, verify) == Refused(401)
  {
  }
}
