/** The `validate` callback of the server's `jwt` authentication strategy, which is
    also the server's default strategy: it runs on every route that does not switch
    authentication off, after the signature and expiry of the token were checked. */
module Auth {
  import opened Common
  import opened Jwt

  datatype Validation = Invalid | Valid(credentials: Claims)

  /** JavaScript truthiness of a numeric claim: present and not 0. */
  predicate IdTruthy(id: Option<int>) {
    id.Some? && id.value != 0
  }

  /** `validateUser`: a payload is accepted when it has a truthy `id` and a truthy `role`,
      and then becomes the request's credentials unchanged. */
  function ValidateUser(decoded: Option<Claims>): (v: Validation)
    ensures v.Valid? ==> decoded == Some(v.credentials)
    ensures v.Valid? ==> v.credentials.id.Some? && v.credentials.role.Some? && v.credentials.role.value != ""
  {
    match decoded
    case None => Invalid
    case Some(c) => if !IdTruthy(c.id) || !Truthy(c.role) then Invalid else Valid(c)
  }

  /** A payload without an id, with id 0, without a role or with an empty role is refused. */
  lemma RefusedPayloads(c: Claims)
    ensures c.id.None? || c.id == Some(0) || c.role.None? || c.role == Some("") ==> ValidateUser(Some(c)) == Invalid
    ensures ValidateUser(None) == Invalid
  {
  }

  /** Only `id` and `role` are inspected: the names and the times never decide acceptance. */
  lemma OnlyIdAndRoleChecked(c: Claims, first: Option<string>, last: Option<string>, iat: Option<int>, exp: Option<int>)
    ensures ValidateUser(Some(c)).Valid?
        <==> ValidateUser(Some(c.(firstName := first, lastName := last, iat := iat, exp := exp))).Valid?
  {
  }

  /** Any role string passes, not only the three account statuses: role checks are left to the routes. */
  lemma AnyRoleAccepted(c: Claims, role: string)
    requires IdTruthy(c.id) && role != ""
    ensures ValidateUser(Some(c.(role := Some(role)))) == Valid(c.(role := Some(role)))
  {
  }

  /** Every token the login handler issues for a stored user (ids start at 1, and the role
      is a non-empty account status) is accepted, with exactly its claims as credentials. */
  lemma IssuedTokenAccepted(id: int, first: string, last: string, role: string, nowMs: int)
    requires id >= 1 && role != ""
    ensures ValidateUser(Some(Issue(id, first, last, role, nowMs))) == Valid(Issue(id, first, last, role, nowMs))
  {
  }

  /** A route's `auth` option: `false`, a named strategy, or absent. */
  datatype AuthSetting = Off | Named(strategy: string) | Unset

  /** `server.auth.default('jwt')`: the strategy used by routes that do not name one. */
  const DefaultStrategy := "jwt"

  /** The strategy a route authenticates with, if any. */
  function EffectiveStrategy(setting: AuthSetting): (s: Option<string>)
    ensures s.None? <==> setting == Off
    ensures setting.Named? ==> s == Some(setting.strategy)
  {
    match setting
    case Off => None
    case Named(n) => Some(n)
    case Unset => Some(DefaultStrategy)
  }

  /** Because `jwt` is the default, leaving `auth` out of a route's options means it needs a token. */
  lemma DefaultStrategyRequiresToken()
    ensures EffectiveStrategy(Unset) == Some("jwt")
  {
  }
}
