/** The server's route table: for each (method, path) pattern, the handler it dispatches to,
    whether it authenticates with the `jwt` strategy, and the role check run before the handler.
    hapi serves a request with the most specific route whose method and path pattern match it;
    no two routes of this table match the same request (`RoutesDisjoint`), so that route is also
    the first match in table order, which is what `Lookup` returns. */
module Routes {
  import opened Common
  import opened Tables
  import opened Jwt
  import opened Auth
  import Accounts

  datatype Method = Get | Post | Put | Delete

  /** One segment of a path pattern: a literal, or a `{param}` matching any non-empty segment. */
  datatype Segment = Lit(text: string) | Param(name: string)

  /** Every handler of the backend, whether routed or not. */
  datatype Handler =
    | RegisterUser | Login | ForgotPassword | VerifyOtp | ResetPassword | GetProfile | UpdateProfile
    | GetLoginHistory | DeleteLoginHistoryByUserId | DeleteAllLoginHistory
    | HandleEditText | GetFeatureUsage | GetLatestRunningText | SaveTextTemplate | GetTemplates
    | HandleDateTime | GetDateTime | HandleEditTime | GetTime
    | ReceiveSensorTemperature | SaveManualTemperature | HandleTemperature | GetTemperature
    | DeleteFeatureUsageById | DeleteAllFeatureUsage | HandleSettingSpeedRunningText

  /** A route: its `pre` list is the allowed roles of its `requireRole` check, when it has one. */
  datatype Route = Route(verb: Method, path: seq<Segment>, handler: Handler, auth: AuthSetting,
                         pre: Option<seq<string>>)

  const Api := Lit("api")
  const AuthPart := Lit("auth")
  const Feature := Lit("feature")
  const Id := Param("id")
  const JwtAuth := Named("jwt")
  const ProfileRoles := ["dosen", "mahasiswa", "staff"]

  const RegisterUserRoute := Route(Post, [Lit("register")], RegisterUser, Off, None)
  const LoginRoute := Route(Post, [Api, AuthPart, Lit("login")], Login, Off, None)
  const ForgotPasswordRoute := Route(Post, [Api, AuthPart, Lit("forgot-password")], ForgotPassword, Off, None)
  const VerifyOtpRoute := Route(Post, [Api, AuthPart, Lit("verify-otp")], VerifyOtp, Off, None)
  const ResetPasswordRoute := Route(Post, [Api, AuthPart, Lit("reset-password")], ResetPassword, Off, None)
  const GetProfileRoute := Route(Get, [Api, AuthPart, Lit("profile")], GetProfile, JwtAuth, Some(ProfileRoles))
  const UpdateProfileRoute := Route(Put, [Api, AuthPart, Lit("update-profile")], UpdateProfile, JwtAuth, None)
  const GetLoginHistoryRoute := Route(Get, [Api, AuthPart, Lit("login-history")], GetLoginHistory, JwtAuth, None)
  const DeleteLoginHistoryByUserIdRoute := Route(Delete, [Api, AuthPart, Lit("login-history"), Id], DeleteLoginHistoryByUserId, JwtAuth, None)
  const HandleEditTextRoute := Route(Post, [Api, Feature, Lit("edit-text")], HandleEditText, JwtAuth, None)
  const GetFeatureUsageRoute := Route(Get, [Api, Feature, Lit("usage")], GetFeatureUsage, JwtAuth, None)
  const GetLatestRunningTextRoute := Route(Get, [Api, Feature, Lit("running-text")], GetLatestRunningText, Off, None)
  const SaveTextTemplateRoute := Route(Post, [Api, Feature, Lit("template")], SaveTextTemplate, JwtAuth, None)
  const GetTemplatesRoute := Route(Get, [Api, Feature, Lit("template")], GetTemplates, JwtAuth, None)
  const HandleDateTimeRoute := Route(Post, [Api, Feature, Lit("edit-date")], HandleDateTime, JwtAuth, None)
  const GetDateTimeRoute := Route(Get, [Api, Feature, Lit("get-date")], GetDateTime, Off, None)
  const HandleEditTimeRoute := Route(Post, [Api, Feature, Lit("edit-time")], HandleEditTime, JwtAuth, None)
  const GetTimeRoute := Route(Get, [Api, Feature, Lit("get-time")], GetTime, Off, None)
  const ReceiveSensorTemperatureRoute := Route(Post, [Api, Feature, Lit("temperature"), Lit("sensor")], ReceiveSensorTemperature, Off, None)
  const GetTemperatureRoute := Route(Get, [Api, Feature, Lit("get-temperature")], GetTemperature, Off, None)
  const HandleTemperatureRoute := Route(Post, [Api, Feature, Lit("temperature"), Lit("manual")], HandleTemperature, JwtAuth, None)
  const DeleteFeatureUsageByIdRoute := Route(Delete, [Api, Lit("feature-usage"), Id], DeleteFeatureUsageById, JwtAuth, None)
  const DeleteAllFeatureUsageRoute := Route(Delete, [Api, Lit("feature-usage")], DeleteAllFeatureUsage, JwtAuth, None)
  const HandleSettingSpeedRunningTextRoute := Route(Get, [Api, Lit("running-text"), Lit("speed")], HandleSettingSpeedRunningText, Off, None)

  /** `authRoutes`: the route at each position of the table. */
  function RouteAt(i: int): Route
  {
    if i == 0 then RegisterUserRoute
    else if i == 1 then LoginRoute
    else if i == 2 then ForgotPasswordRoute
    else if i == 3 then VerifyOtpRoute
    else if i == 4 then ResetPasswordRoute
    else if i == 5 then GetProfileRoute
    else if i == 6 then UpdateProfileRoute
    else if i == 7 then GetLoginHistoryRoute
    else if i == 8 then DeleteLoginHistoryByUserIdRoute
    else if i == 9 then HandleEditTextRoute
    else if i == 10 then GetFeatureUsageRoute
    else if i == 11 then GetLatestRunningTextRoute
    else if i == 12 then SaveTextTemplateRoute
    else if i == 13 then GetTemplatesRoute
    else if i == 14 then HandleDateTimeRoute
    else if i == 15 then GetDateTimeRoute
    else if i == 16 then HandleEditTimeRoute
    else if i == 17 then GetTimeRoute
    else if i == 18 then ReceiveSensorTemperatureRoute
    else if i == 19 then GetTemperatureRoute
    else if i == 20 then HandleTemperatureRoute
    else if i == 21 then DeleteFeatureUsageByIdRoute
    else if i == 22 then DeleteAllFeatureUsageRoute
    else HandleSettingSpeedRunningTextRoute
  }

  function AuthRoutes(): seq<Route> { seq(24, RouteAt) }

  /** The handlers reachable without a token. */
  const PublicHandlers: set<Handler> := {RegisterUser, Login, ForgotPassword, VerifyOtp, ResetPassword,
    GetLatestRunningText, GetDateTime, GetTime, ReceiveSensorTemperature, GetTemperature,
    HandleSettingSpeedRunningText}

  predicate SegmentMatches(pattern: Segment, segment: string) {
    match pattern
    case Lit(t) => segment == t
    case Param(_) => segment != ""
  }

  /** A request path, already split at '/', matches a pattern segment by segment. */
  predicate PathMatches(pattern: seq<Segment>, path: seq<string>) {
    |pattern| == |path| && forall k :: 0 <= k < |path| ==> SegmentMatches(pattern[k], path[k])
  }

  function RouteFor(m: Method, path: seq<string>): Route -> bool {
    (r: Route) => r.verb == m && PathMatches(r.path, path)
  }

  /** The position in `authRoutes` of the route serving the request, if any. */
  function Lookup(m: Method, path: seq<string>): (k: Option<nat>)
    ensures k.Some? ==>
      (k.value < |AuthRoutes()| && AuthRoutes()[k.value].verb == m && PathMatches(AuthRoutes()[k.value].path, path))
    ensures k.None? <==> forall j :: 0 <= j < |AuthRoutes()| ==> !RouteFor(m, path)(AuthRoutes()[j])
  {
    FirstWhere(AuthRoutes(), RouteFor(m, path))
  }

  predicate RequiresToken(r: Route) {
    EffectiveStrategy(r.auth).Some?
  }

  /** What happens to a request before its handler runs. */
  datatype Outcome =
    | Proceed(handler: Handler, credentials: Option<Claims>)
    | NotFound
    | Unauthorized
    | Refused(reply: Reply)

  /** Authentication and the `pre` role check of one route. `verified` is the payload of a
      token whose signature and expiry the strategy accepted, and `None` when the request has
      no such token. */
  function Admit(r: Route, verified: Option<Claims>): (o: Outcome)
    ensures !RequiresToken(r) ==> o == Proceed(r.handler, None)
    ensures RequiresToken(r) && ValidateUser(verified).Invalid? ==> o == Unauthorized
    ensures o.Proceed? && RequiresToken(r) ==> o.credentials == verified && ValidateUser(verified).Valid?
    ensures o.Refused? <==>
      (RequiresToken(r) && ValidateUser(verified).Valid? && r.pre.Some? &&
       Accounts.RequireRole(r.pre.value, verified.value.role).Forbidden?)
    ensures o.Refused? ==> o.reply.code == 403
  {
    if !RequiresToken(r) then Proceed(r.handler, None)
    else match ValidateUser(verified)
      case Invalid => Unauthorized
      case Valid(c) =>
        if r.pre.None? then Proceed(r.handler, Some(c))
        else match Accounts.RequireRole(r.pre.value, c.role)
          case Continue => Proceed(r.handler, Some(c))
          case Forbidden(reply) => Refused(reply)
  }

  /** The whole pre-handler pipeline: route lookup, then authentication and role check. */
  function Dispatch(m: Method, path: seq<string>, verified: Option<Claims>): (o: Outcome)
    ensures o == NotFound <==> Lookup(m, path).None?
    ensures o.Proceed? ==> exists k :: 0 <= k < |AuthRoutes()| && RouteFor(m, path)(AuthRoutes()[k]) && o.handler == AuthRoutes()[k].handler
  {
    match Lookup(m, path)
    case None => NotFound
    case Some(k) => Admit(AuthRoutes()[k], verified)
  }

  /** Two segment patterns some request segment matches both of. */
  predicate SegmentsOverlap(a: Segment, b: Segment) {
    match (a, b)
    case (Lit(s), Lit(t)) => s == t
    case (Lit(s), Param(_)) => s != ""
    case (Param(_), Lit(t)) => t != ""
    case (Param(_), Param(_)) => true
  }

  /** Two path patterns of the same length that agree segment by segment. */
  predicate PatternsOverlap(p: seq<Segment>, q: seq<Segment>) {
    |p| == |q| && forall k :: 0 <= k < |p| ==> SegmentsOverlap(p[k], q[k])
  }

  /** A path matched by two patterns shows that they overlap. */
  lemma MatchBothOverlap(p: seq<Segment>, q: seq<Segment>, path: seq<string>)
    requires PathMatches(p, path) && PathMatches(q, path)
    ensures PatternsOverlap(p, q)
  {
    forall k | 0 <= k < |p| ensures SegmentsOverlap(p[k], q[k]) {
      assert SegmentMatches(p[k], path[k]) && SegmentMatches(q[k], path[k]);
    }
  }

  /** Routes with the same method never have overlapping path patterns. */
  lemma NoOverlap(i: nat, j: nat)
    requires i < j < |AuthRoutes()|
    ensures AuthRoutes()[i].verb != AuthRoutes()[j].verb || !PatternsOverlap(AuthRoutes()[i].path, AuthRoutes()[j].path)
  {
    var p, q := AuthRoutes()[i].path, AuthRoutes()[j].path;
    if AuthRoutes()[i].verb == AuthRoutes()[j].verb && |p| == |q| {
      // Routes sharing a method and a length differ in their last literal.
      assert !SegmentsOverlap(p[|p| - 1], q[|q| - 1]);
    }
  }

  /** No request matches two routes of the table, so the order of the table never decides
      which handler serves a request. */
  lemma RoutesDisjoint(m: Method, path: seq<string>, i: nat, j: nat)
    requires i < j < |AuthRoutes()|
    ensures !(RouteFor(m, path)(AuthRoutes()[i]) && RouteFor(m, path)(AuthRoutes()[j]))
  {
    if RouteFor(m, path)(AuthRoutes()[i]) && RouteFor(m, path)(AuthRoutes()[j]) {
      MatchBothOverlap(AuthRoutes()[i].path, AuthRoutes()[j].path, path);
      NoOverlap(i, j);
    }
  }

  /** Exactly the eleven listed handlers are served without a token; every other route uses `jwt`. */
  lemma PublicRoutesAreExactlyTheListed()
    ensures |AuthRoutes()| == 24
    ensures forall i :: 0 <= i < 24 ==> (!RequiresToken(AuthRoutes()[i]) <==> AuthRoutes()[i].handler in PublicHandlers)
  {
    forall i | 0 <= i < 24 ensures !RequiresToken(AuthRoutes()[i]) <==> AuthRoutes()[i].handler in PublicHandlers {
      if i == 0 {} else if i == 1 {} else if i == 2 {} else if i == 3 {} else if i == 4 {} else if i == 5 {} else if i == 6 {} else if i == 7 {} else if i == 8 {} else if i == 9 {} else if i == 10 {} else if i == 11 {} else if i == 12 {} else if i == 13 {} else if i == 14 {} else if i == 15 {} else if i == 16 {} else if i == 17 {} else if i == 18 {} else if i == 19 {} else if i == 20 {} else if i == 21 {} else if i == 22 {} else {}
    }
  }

  lemma PublicHandlersRouted()
    ensures forall h :: h in PublicHandlers ==> exists i :: 0 <= i < |AuthRoutes()| && AuthRoutes()[i].handler == h
  {
    forall h | h in PublicHandlers ensures exists i :: 0 <= i < |AuthRoutes()| && AuthRoutes()[i].handler == h {
      var i := if h == RegisterUser then 0 else if h == Login then 1 else if h == ForgotPassword then 2
        else if h == VerifyOtp then 3 else if h == ResetPassword then 4 else if h == GetLatestRunningText then 11
        else if h == GetDateTime then 15 else if h == GetTime then 17 else if h == ReceiveSensorTemperature then 18
        else if h == GetTemperature then 19 else 23;
      assert AuthRoutes()[i].handler == h;
    }
  }

  /** Among all handlers, only `jwt` ever authenticates a route. */
  lemma TokenRoutesUseJwt()
    ensures forall i :: 0 <= i < 24 && RequiresToken(AuthRoutes()[i]) ==> EffectiveStrategy(AuthRoutes()[i].auth) == Some("jwt")
  {
  }

  /** No route dispatches to `saveManualTemperature` or to `deleteAllLoginHistory`. */
  lemma UnroutedHandlers()
    ensures forall i :: 0 <= i < 24 ==>
      AuthRoutes()[i].handler != SaveManualTemperature && AuthRoutes()[i].handler != DeleteAllLoginHistory
  {
  }

  /** The manual temperature form is served by `handleTemperature`, which also updates the display. */
  lemma ManualTemperatureRoute()
    ensures Lookup(Post, ["api", "feature", "temperature", "manual"]) == Some(20)
    ensures AuthRoutes()[20].handler == HandleTemperature && RequiresToken(AuthRoutes()[20])
  {
    var path := ["api", "feature", "temperature", "manual"];
    forall j | 0 <= j < 20 ensures !RouteFor(Post, path)(AuthRoutes()[j]) {
      if AuthRoutes()[j].verb == Post && |AuthRoutes()[j].path| == 4 {
        assert j == 18;
        assert AuthRoutes()[j].path[3].text[0] != path[3][0];
      }
    }
    FirstWhereUnique(AuthRoutes(), RouteFor(Post, path), 20);
  }

  /** `DELETE /api/auth/login-history` (what the client's "delete all" sends) matches no route. */
  lemma NoDeleteAllLoginHistoryRoute()
    ensures Lookup(Delete, ["api", "auth", "login-history"]).None?
    ensures forall v :: Dispatch(Delete, ["api", "auth", "login-history"], v) == NotFound
  {
    var path := ["api", "auth", "login-history"];
    forall j | 0 <= j < 24 ensures !RouteFor(Delete, path)(AuthRoutes()[j]) {
      if j == 21 {
        assert |path[1]| != |"feature-usage"|;
      }
      else if j == 0 {} else if j == 1 {} else if j == 2 {} else if j == 3 {} else if j == 4 {} else if j == 5 {} else if j == 6 {} else if j == 7 {} else if j == 8 {} else if j == 9 {} else if j == 10 {} else if j == 11 {} else if j == 12 {} else if j == 13 {} else if j == 14 {} else if j == 15 {} else if j == 16 {} else if j == 17 {} else if j == 18 {} else if j == 19 {} else if j == 20 {} else if j == 21 {} else if j == 22 {} else {}
    }
  }

  /** `POST /api/auth/reset-password` reaches its handler with or without a token. */
  lemma ResetPasswordIsPublic(verified: Option<Claims>)
    ensures Dispatch(Post, ["api", "auth", "reset-password"], verified) == Proceed(ResetPassword, None)
  {
    var path := ["api", "auth", "reset-password"];
    forall j | 0 <= j < 4 ensures !RouteFor(Post, path)(AuthRoutes()[j]) {
      if j > 0 {
        assert |AuthRoutes()[j].path[2].text| != |path[2]|;
      }
    }
    FirstWhereUnique(AuthRoutes(), RouteFor(Post, path), 4);
  }

  /** `GET /api/auth/profile` is served by route 5, the only one with a role check. */
  lemma ProfileRoute()
    ensures Lookup(Get, ["api", "auth", "profile"]) == Some(5)
  {
    var path := ["api", "auth", "profile"];
    forall j | 0 <= j < 5 ensures !RouteFor(Get, path)(AuthRoutes()[j]) {
    }
    FirstWhereUnique(AuthRoutes(), RouteFor(Get, path), 5);
  }

  /** `GET /api/auth/profile` continues exactly for a valid token whose role is an account
      status; a valid `admin` token is refused with 403. */
  lemma ProfileRoleGate(verified: Option<Claims>)
    ensures var o := Dispatch(Get, ["api", "auth", "profile"], verified);
      && (o.Proceed? <==> ValidateUser(verified).Valid? && verified.value.role.value in ProfileRoles)
      && (ValidateUser(verified).Valid? && verified.value.role == Some("admin") ==> o == Refused(Reply(403, Accounts.AccessDenied)))
  {
    ProfileRoute();
    assert AuthRoutes()[5] == GetProfileRoute;
    ProfileAdmission(verified);
  }

  lemma ProfileAdmission(verified: Option<Claims>)
    ensures var o := Admit(GetProfileRoute, verified);
      && (o.Proceed? <==> ValidateUser(verified).Valid? && verified.value.role.value in ProfileRoles)
      && (ValidateUser(verified).Valid? && verified.value.role == Some("admin") ==> o == Refused(Reply(403, Accounts.AccessDenied)))
  {
    assert "admin"[0] != "dosen"[0] && "admin"[0] != "mahasiswa"[0] && "admin"[0] != "staff"[0];
  }

  /** Every route that needs a token turns away a request without an acceptable one with 401. */
  lemma TokenRoutesNeedValidToken(m: Method, path: seq<string>, verified: Option<Claims>)
    requires Lookup(m, path).Some? && RequiresToken(AuthRoutes()[Lookup(m, path).value])
    requires ValidateUser(verified).Invalid?
    ensures Dispatch(m, path, verified) == Unauthorized
  {
  }

  /** The `{id}` segment hapi matches is never empty, so the delete handlers' 400 branch for a
      missing id cannot be reached through the router. */
  lemma DeleteRoutesCarryId(k: nat, path: seq<string>)
    requires k < 24 && PathMatches(AuthRoutes()[k].path, path)
    requires AuthRoutes()[k].handler == DeleteLoginHistoryByUserId || AuthRoutes()[k].handler == DeleteFeatureUsageById
    ensures |path| >= 3 && path[|path| - 1] != ""
  {
    DeleteHandlersRoutes(k);
    if k == 8 {
      assert AuthRoutes()[k] == DeleteLoginHistoryByUserIdRoute;
      assert SegmentMatches(Id, path[3]);
    } else {
      assert AuthRoutes()[k] == DeleteFeatureUsageByIdRoute;
      assert SegmentMatches(Id, path[2]);
    }
  }

  /** The two delete-by-id handlers are served by routes 8 and 21 only. */
  lemma DeleteHandlersRoutes(k: nat)
    requires k < 24
    requires AuthRoutes()[k].handler == DeleteLoginHistoryByUserId || AuthRoutes()[k].handler == DeleteFeatureUsageById
    ensures k == 8 || k == 21
  {
    var j := k;
    if j == 0 {} else if j == 1 {} else if j == 2 {} else if j == 3 {} else if j == 4 {} else if j == 5 {} else if j == 6 {} else if j == 7 {} else if j == 8 {} else if j == 9 {} else if j == 10 {} else if j == 11 {} else if j == 12 {} else if j == 13 {} else if j == 14 {} else if j == 15 {} else if j == 16 {} else if j == 17 {} else if j == 18 {} else if j == 19 {} else if j == 20 {} else if j == 21 {} else if j == 22 {} else {}
  }
}
