/** The client's own token checks: `validateToken`, `isTokenExpired` and `handleAuthError`.
    The client never checks the signature; it reads the `exp` claim (section 4.1.4 of RFC 7519)
    out of the token's second `.`-separated segment and compares it with the clock. */
module TokenValidation {
  import opened Common
  import opened Jwt

  /** What `JSON.parse(atob(segment))` yields for a segment: a payload object, or an exception
      (a segment that is not base64, does not decode to JSON, or decodes to `null`). */
  datatype Decoded = Throws | Payload(claims: Claims)

  /** The segment `token.split('.')[1]`, or `None` when the token has no `.`. In that case
      `atob` receives `undefined`, i.e. the nine characters "undefined", and throws because a
      base64 text never has a length of 1 modulo 4. */
  function PayloadSegment(token: string): (seg: Option<string>)
    ensures seg.None? <==> '.' !in token
    ensures seg.Some? ==> '.' !in seg.value
  {
    var parts := Split(token, '.');
    SplitManyIffSep(token, '.');
    if |parts| > 1 then Some(parts[1]) else None
  }

  /** The decoded payload of a token, `decode` standing for `atob` followed by `JSON.parse`. */
  function ReadPayload(token: string, decode: string -> Decoded): Decoded {
    match PayloadSegment(token)
    case None => Throws
    case Some(seg) => decode(seg)
  }

  /** `payload.exp && payload.exp < Date.now() / 1000`, as a truth value: a present, non-zero
      `exp` (in seconds) that lies before the clock `nowMs` (in milliseconds). */
  predicate PastExpiry(c: Claims, nowMs: int) {
    c.exp.Some? && c.exp.value != 0 && c.exp.value * 1000 < nowMs
  }

  /** `validateToken(token)`: `token` is the stored value, `None` when nothing is stored. */
  function ValidateToken(token: Option<string>, decode: string -> Decoded, nowMs: int): (ok: bool)
    ensures !Truthy(token) ==> !ok
    ensures Truthy(token) && ReadPayload(token.value, decode).Throws? ==> !ok
    ensures Truthy(token) && ReadPayload(token.value, decode).Payload? ==>
      (ok <==> !PastExpiry(ReadPayload(token.value, decode).claims, nowMs))
  {
    if !Truthy(token) then false
    else match ReadPayload(token.value, decode)
      case Throws => false
      case Payload(c) => if PastExpiry(c, nowMs) then false else true
  }

  /** `isTokenExpired(token)`, taken as a truth value (for an `exp` that is absent or 0 the
      function returns that falsy value itself). */
  function IsTokenExpired(token: Option<string>, decode: string -> Decoded, nowMs: int): (expired: bool)
    ensures !Truthy(token) ==> expired
    ensures Truthy(token) && ReadPayload(token.value, decode).Throws? ==> expired
    ensures Truthy(token) && ReadPayload(token.value, decode).Payload? ==>
      (expired <==> PastExpiry(ReadPayload(token.value, decode).claims, nowMs))
  {
    if !Truthy(token) then true
    else match ReadPayload(token.value, decode)
      case Throws => true
      case Payload(c) => PastExpiry(c, nowMs)
  }

  /** The two checks always agree: a token is valid exactly when it is not expired. */
  lemma ValidIffNotExpired(token: Option<string>, decode: string -> Decoded, nowMs: int)
    ensures ValidateToken(token, decode, nowMs) == !IsTokenExpired(token, decode, nowMs)
  {
  }

  /** A payload without `exp`, or with `exp` 0, never expires, whatever the clock says. */
  lemma NoExpNeverExpires(token: string, decode: string -> Decoded, nowMs: int)
    requires token != "" && ReadPayload(token, decode).Payload?
    requires ReadPayload(token, decode).claims.exp in {None, Some(0)}
    ensures ValidateToken(Some(token), decode, nowMs)
    ensures !IsTokenExpired(Some(token), decode, nowMs)
  {
  }

  /** Of `header.payload.signature`, only the payload segment is read. */
  lemma {:induction false} SecondSegmentRead(header: string, payload: string, signature: string)
    requires '.' !in header && '.' !in payload
    ensures PayloadSegment(header + "." + payload + "." + signature) == Some(payload)
  {
    var tail := payload + "." + signature;
    assert header + "." + payload + "." + signature == header + ['.'] + tail;
    SplitAfterHead(header, '.', tail);
    assert tail == payload + ['.'] + signature;
    SplitAfterHead(payload, '.', signature);
  }

  /** The signature is never checked: two tokens that differ only in their signature, or only
      in their header, get the same verdict from both checks. */
  lemma SignatureIgnored(h1: string, h2: string, payload: string, s1: string, s2: string,
                         decode: string -> Decoded, nowMs: int)
    requires '.' !in h1 && '.' !in h2 && '.' !in payload
    ensures var t1, t2 := h1 + "." + payload + "." + s1, h2 + "." + payload + "." + s2;
      && ValidateToken(Some(t1), decode, nowMs) == ValidateToken(Some(t2), decode, nowMs)
      && IsTokenExpired(Some(t1), decode, nowMs) == IsTokenExpired(Some(t2), decode, nowMs)
  {
    SecondSegmentRead(h1, payload, s1);
    SecondSegmentRead(h2, payload, s2);
  }

  /** A token the backend issued at `issuedMs` (a clock after the epoch) passes the client
      check up to its `exp` instant and fails after it: it is valid for at least the first
      7199 seconds after issue, and no longer than two hours. */
  lemma IssuedTokenWindow(id: int, first: string, last: string, role: string, issuedMs: int,
                          header: string, payload: string, signature: string,
                          decode: string -> Decoded, nowMs: int)
    requires issuedMs >= 0
    requires '.' !in header && '.' !in payload
    requires decode(payload) == Payload(Issue(id, first, last, role, issuedMs))
    ensures var ok := ValidateToken(Some(header + "." + payload + "." + signature), decode, nowMs);
      && (ok <==> nowMs <= Issue(id, first, last, role, issuedMs).exp.value * 1000)
      && (nowMs <= issuedMs + (LifetimeSeconds - 1) * 1000 ==> ok)
      && (nowMs > issuedMs + LifetimeSeconds * 1000 ==> !ok)
  {
    SecondSegmentRead(header, payload, signature);
    var c := Issue(id, first, last, role, issuedMs);
    assert c.exp.value >= LifetimeSeconds;
  }

  /** The browser state `handleAuthError` touches. */
  datatype Browser = Browser(storage: map<string, string>, location: string, alerts: seq<string>)

  const SessionExpired: string := "Sesi anda telah berakhir, silakan login kembali"
  const TokenKey: string := "token"

  /** `handleAuthError(navigate, showAlert)`: optionally alerts, always drops the stored token
      and goes to the login page "/". */
  function HandleAuthError(b: Browser, showAlert: bool): (r: Browser)
    ensures TokenKey !in r.storage
    ensures forall k :: k != TokenKey ==> (k in r.storage <==> k in b.storage)
    ensures forall k :: k != TokenKey && k in b.storage ==> r.storage[k] == b.storage[k]
    ensures r.location == "/"
    ensures r.alerts == if showAlert then b.alerts + [SessionExpired] else b.alerts
  {
    var alerts := if showAlert then b.alerts + [SessionExpired] else b.alerts;
    Browser(b.storage - {TokenKey}, "/", alerts)
  }

  /** `localStorage.getItem("token")`: `None` (null) when nothing is stored. */
  function StoredToken(b: Browser): Option<string> {
    if TokenKey in b.storage then Some(b.storage[TokenKey]) else None
  }

  /** After `handleAuthError` no token is stored, so every later check fails. */
  lemma NoTokenAfterAuthError(b: Browser, showAlert: bool, decode: string -> Decoded, nowMs: int)
    ensures StoredToken(HandleAuthError(b, showAlert)) == None
    ensures !ValidateToken(StoredToken(HandleAuthError(b, showAlert)), decode, nowMs)
    ensures IsTokenExpired(StoredToken(HandleAuthError(b, showAlert)), decode, nowMs)
  {
  }
}
