/** The payload of the tokens the backend signs at login and reads back on every
    protected request. Signing and signature checking (HS256) are outside the model:
    a token is represented by its decoded payload. */
module Jwt {
  import opened Common

  /** A decoded payload; a claim the token lacks is `None`. `iat` and `exp` are in seconds. */
  datatype Claims = Claims(
    id: Option<int>,
    firstName: Option<string>,
    lastName: Option<string>,
    role: Option<string>,
    iat: Option<int>,
    exp: Option<int>)

  /** `expiresIn: "2h"`, in seconds. */
  const LifetimeSeconds: int := 2 * 60 * 60

  /** The payload `jwt.sign({ id, first_name, last_name, role }, key, { expiresIn: "2h" })`
      produces at clock `nowMs` (milliseconds): `iat` is the clock in whole seconds and
      `exp` lies two hours after it. */
  function Issue(id: int, firstName: string, lastName: string, role: string, nowMs: int): (c: Claims)
    ensures c.id == Some(id) && c.role == Some(role)
    ensures c.firstName == Some(firstName) && c.lastName == Some(lastName)
    ensures c.iat.Some? && c.exp.Some? && c.exp.value == c.iat.value + LifetimeSeconds
    ensures c.iat.value * 1000 <= nowMs < c.iat.value * 1000 + 1000
  {
    var iat := nowMs / 1000;
    Claims(Some(id), Some(firstName), Some(lastName), Some(role), Some(iat), Some(iat + LifetimeSeconds))
  }
}
