/**
 * Bearer-token authentication (`src/auth.js`). Signing and verifying a token are
 * the JWT library's business; here they are oracles passed in as functions.
 */
module Auth {
  import opened Base

  /** The claims a token carries: `{ userId, email }`. */
  datatype Claims = Claims(userId: int, email: string)

  /** What the JWT library's `verify` does with a token: decode it, or throw (expired, malformed, bad signature). */
  datatype Verdict = Verified(payload: Claims) | Rejected

  const AuthenticationRequired := "Authentication required"
  const InvalidToken := "Invalid token"
  const InvalidOrExpired := "Invalid or expired token"
  const Bearer := "Bearer "
  const AuthorizationHeader := "authorization"

  /** `generateToken(userId, email)`: sign the claims `{ userId, email }` (with the process-wide key and a 7-day expiry). */
  function GenerateToken(sign: Claims -> string, userId: int, email: string): (token: string)
  {
    sign(Claims(userId, email))
  }

  /** `verifyToken(token)`: the verifier's payload, or the error `Invalid token` whatever the verifier's reason. */
  function VerifyToken(verify: string -> Verdict, token: string): (r: Result<Claims, string>)
    ensures r.Success? <==> verify(token).Verified?
    ensures r.Success? ==> r.value == verify(token).payload
    ensures r.Failure? ==> r.error == InvalidToken
  {
    match verify(token)
    case Verified(payload) => Success(payload)
    case Rejected => Failure(InvalidToken)
  }

  predicate OccursAt(s: string, pat: string, k: int) {
    0 <= k && k + |pat| <= |s| && s[k..k + |pat|] == pat
  }

  /** The first index at or after `from` where `pat` occurs in `s` (`s.indexOf(pat, from)`). */
  function IndexOfFrom(s: string, pat: string, from: nat): (r: Option<nat>)
    decreases |s| - from
    ensures r.Some? ==> from <= r.value && OccursAt(s, pat, r.value)
    ensures forall k :: from <= k && (r.None? || k < r.value) ==> !OccursAt(s, pat, k)
  {
    if from + |pat| > |s| then None
    else if s[from..from + |pat|] == pat then Some(from)
    else IndexOfFrom(s, pat, from + 1)
  }

  /** `s.replace(pat, rep)` with a string pattern: only the first occurrence is replaced. */
  function ReplaceFirst(s: string, pat: string, rep: string): (r: string)
    ensures (forall k :: !OccursAt(s, pat, k)) ==> r == s
    ensures forall k :: OccursAt(s, pat, k) && (forall j :: 0 <= j < k ==> !OccursAt(s, pat, j)) ==>
              r == s[..k] + rep + s[k + |pat|..]
  {
    match IndexOfFrom(s, pat, 0)
    case None => s
    case Some(k) => s[..k] + rep + s[k + |pat|..]
  }

  /**
   * `getTokenFromContext(context)`: the Authorization header (or `''` when it is
   * missing) with its first `"Bearer "` removed, wherever it occurs.
   */
  function GetTokenFromContext(headers: map<string, string>): (token: string)
    ensures AuthorizationHeader !in headers ==> token == ""
    ensures AuthorizationHeader in headers && (forall k :: !OccursAt(headers[AuthorizationHeader], Bearer, k)) ==>
              token == headers[AuthorizationHeader]
  {
    var header := if AuthorizationHeader in headers then headers[AuthorizationHeader] else "";
    ReplaceFirst(header, Bearer, "")
  }

  /**
   * `authenticate(context)`: an empty token fails with `Authentication required`
   * without consulting the verifier; any other token is handed to `verifyToken`.
   */
  function Authenticate(verify: string -> Verdict, headers: map<string, string>): (r: Result<Claims, string>)
    ensures GetTokenFromContext(headers) == "" ==> r == Failure(AuthenticationRequired)
    ensures GetTokenFromContext(headers) != "" ==> r == VerifyToken(verify, GetTokenFromContext(headers))
  {
    var token := GetTokenFromContext(headers);
    if token == "" then Failure(AuthenticationRequired) else VerifyToken(verify, token)
  }

  /** A header `"Bearer " + t` yields exactly `t`. */
  lemma BearerPrefixStripped(t: string)
    ensures GetTokenFromContext(map[AuthorizationHeader := Bearer + t]) == t
  {
    var h := Bearer + t;
    assert OccursAt(h, Bearer, 0) by { assert h[..|Bearer|] == Bearer; }
    assert h[|Bearer|..] == t;
  }

  /** The header with nothing after the prefix (`"Bearer "`) counts as no token at all. */
  lemma BareBearerRequiresAuthentication(verify: string -> Verdict)
    ensures Authenticate(verify, map[AuthorizationHeader := Bearer]) == Failure(AuthenticationRequired)
  {
    BearerPrefixStripped("");
    assert Bearer + "" == Bearer;
  }

  /** Not only a prefix: `"x Bearer y"` becomes `"x y"`. */
  lemma BearerRemovedAnywhere()
    ensures GetTokenFromContext(map[AuthorizationHeader := "x Bearer y"]) == "x y"
  {
    var h := "x Bearer y";
    assert OccursAt(h, Bearer, 2) by { assert h[2..9] == Bearer; }
    assert !OccursAt(h, Bearer, 0) by { assert h[0] != 'B'; }
    assert !OccursAt(h, Bearer, 1) by { assert h[1] != 'B'; }
    assert h[..2] + "" + h[9..] == "x y";
  }

  /**
   * Issue then authenticate: when the verifier accepts what the signer issues, a
   * request carrying `"Bearer " + generateToken(userId, email)` authenticates as
   * `{ userId, email }`.
   */
  lemma IssuedTokenAuthenticates(sign: Claims -> string, verify: string -> Verdict, userId: int, email: string)
    requires forall c :: sign(c) != "" && verify(sign(c)) == Verified(c)
    ensures Authenticate(verify, map[AuthorizationHeader := Bearer + GenerateToken(sign, userId, email)])
            == Success(Claims(userId, email))
  {
    BearerPrefixStripped(GenerateToken(sign, userId, email));
  }

  /** The parts of an Express request `expressAuth` reads and writes. */
  class Request {
    var headers: map<string, string>
    var user: Option<Claims>

    constructor (headers: map<string, string>)
      ensures this.headers == headers && user.None?
    {
      this.headers := headers;
      user := None;
    }
  }

  /** The parts of an Express response `expressAuth` writes: `res.status(code).json({ error })`. */
  class Response {
    var status: Option<int>
    var error: Option<string>

    constructor ()
      ensures status.None? && error.None?
    {
      status := None;
      error := None;
    }
  }

  /**
   * `expressAuth(req, res, next)`: on an empty token answer 401 `Authentication
   * required`; on a token the verifier rejects answer 401 `Invalid or expired
   * token`; otherwise set `req.user` to the payload and call `next` (the result
   * says whether `next` was called, once).
   */
  method ExpressAuth(verify: string -> Verdict, req: Request, res: Response) returns (calledNext: bool)
    modifies req, res
    ensures req.headers == old(req.headers)
    ensures calledNext <==> Authenticate(verify, req.headers).Success?
    ensures calledNext ==> req.user == Some(Authenticate(verify, req.headers).value)
                           && res.status == old(res.status) && res.error == old(res.error)
    ensures !calledNext ==> req.user == old(req.user) && res.status == Some(401)
    ensures GetTokenFromContext(req.headers) == "" ==> res.error == Some(AuthenticationRequired) && !calledNext
    ensures GetTokenFromContext(req.headers) != "" && !calledNext ==> res.error == Some(InvalidOrExpired)
  {
    var header := if AuthorizationHeader in req.headers then req.headers[AuthorizationHeader] else "";
    var token := ReplaceFirst(header, Bearer, "");
    if token == "" {
      res.status, res.error := Some(401), Some(AuthenticationRequired);
      return false;
    }
    var verified := VerifyToken(verify, token);
    if verified.Failure? {
      res.status, res.error := Some(401), Some(InvalidOrExpired);
      return false;
    }
    req.user := Some(verified.value);
    return true;
  }
}
