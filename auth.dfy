/**
 * The two Express guards: `requireAuth`, which reads a bearer token from the
 * Authorization header and verifies it, and `requireUserType`, which admits
 * only the listed user types. JWT verification is an oracle passed in.
 */
module Auth {
  import opened Base

  /** The claims signed into a token. */
  datatype AuthPayload = AuthPayload(sub: string, password: string, userType: string)

  /** A guard's verdict: answer with a status and an error, or call `next`. */
  datatype Verdict = Reject(status: int, error: string) | Accept(payload: AuthPayload)

  const MissingBearer := Reject(401, "Missing bearer token")
  const InvalidToken := Reject(500, "Invalid token")

  predicate StartsWith(s: string, prefix: string)
  {
    |prefix| <= |s| && s[..|prefix|] == prefix
  }

  /** `slice(7)`: the text after the first seven characters, or nothing. */
  function TokenOf(header: string): (token: string)
    ensures |header| >= 7 ==> header == header[..7] + token
    ensures |header| < 7 ==> token == ""
  {
    if |header| >= 7 then header[7..] else ""
  }

  /**
   * `requireAuth`'s decision: no header, or one not starting with "Bearer",
   * is 401; a token the verifier refuses is 500; otherwise the decoded claims.
   */
  function AuthDecision(header: Option<string>, verify: string -> Option<AuthPayload>): (v: Verdict)
    ensures v == MissingBearer <==> header.None? || !StartsWith(header.value, "Bearer")
    ensures v == InvalidToken <==>
              header.Some? && StartsWith(header.value, "Bearer") && verify(TokenOf(header.value)).None?
    ensures v.Accept? <==>
              header.Some? && StartsWith(header.value, "Bearer") && verify(TokenOf(header.value)).Some?
    ensures v.Accept? ==> v.payload == verify(TokenOf(header.value)).value
  {
    if header.None? || !StartsWith(header.value, "Bearer") then MissingBearer
    else match verify(TokenOf(header.value))
      case None => InvalidToken
      case Some(p) => Accept(p)
  }

  /** The token of the conventional "Bearer <token>" header is exactly `<token>`. */
  lemma ConventionalHeader(token: string, verify: string -> Option<AuthPayload>)
    ensures TokenOf("Bearer " + token) == token
    ensures AuthDecision(Some("Bearer " + token), verify) ==
              if verify(token).Some? then Accept(verify(token).value) else InvalidToken
  {
    assert ("Bearer " + token)[..6] == "Bearer";
    assert ("Bearer " + token)[7..] == token;
  }

  /**
   * The prefix check has no space: "Bearer" glued to the token passes it and
   * loses the token's first character, and the verifier sees the rest.
   */
  lemma GluedPrefixDropsACharacter(c: char, rest: string)
    ensures StartsWith("Bearer" + [c] + rest, "Bearer")
    ensures TokenOf("Bearer" + [c] + rest) == rest
  {
    assert ("Bearer" + [c] + rest)[..6] == "Bearer";
    assert ("Bearer" + [c] + rest)[7..] == rest;
  }

  /** `requireUserType(...types)`: no claims is 401, a type not listed is 403. */
  function UserTypeDecision(types: seq<string>, auth: Option<AuthPayload>): (v: Verdict)
    ensures auth.None? <==> v == Reject(401, "Unauthenticated")
    ensures v == Reject(403, "Forbidden") <==> auth.Some? && auth.value.userType !in types
    ensures v.Accept? <==> auth.Some? && auth.value.userType in types
    ensures v.Accept? ==> v.payload == auth.value
  {
    if auth.None? then Reject(401, "Unauthenticated")
    else if auth.value.userType !in types then Reject(403, "Forbidden")
    else Accept(auth.value)
  }

  /** No listed type admits nobody; listing more types never admits fewer requests. */
  lemma UserTypeListMonotone(types: seq<string>, more: seq<string>, auth: Option<AuthPayload>)
    requires forall t :: t in types ==> t in more
    ensures UserTypeDecision([], auth).Reject?
    ensures UserTypeDecision(types, auth).Accept? ==> UserTypeDecision(more, auth).Accept?
  {
  }

  /** The parts of the Express request and response the guards touch. */
  class Exchange {
    /** `req.auth`, absent until `requireAuth` sets it. */
    var auth: Option<AuthPayload>
    /** `res.status(...).json({ error })`, when a guard answered. */
    var response: Option<(int, string)>
    /** How many times `next()` was called. */
    var nextCalls: nat

    constructor ()
      ensures auth.None? && response.None? && nextCalls == 0
    {
      auth := None;
      response := None;
      nextCalls := 0;
    }

    /** `requireAuth`: answer, or set `req.auth` and call `next` once. */
    method RequireAuth(header: Option<string>, verify: string -> Option<AuthPayload>)
      modifies this
      ensures match AuthDecision(header, verify)
              case Reject(status, error) =>
                response == Some((status, error)) && auth == old(auth) && nextCalls == old(nextCalls)
              case Accept(p) =>
                auth == Some(p) && response == old(response) && nextCalls == old(nextCalls) + 1
    {
      match AuthDecision(header, verify)
      case Reject(status, error) =>
        response := Some((status, error));
      case Accept(p) =>
        auth := Some(p);
        nextCalls := nextCalls + 1;
    }

    /** `requireUserType(...types)` on this request. */
    method RequireUserType(types: seq<string>)
      modifies this`response, this`nextCalls
      ensures match UserTypeDecision(types, auth)
              case Reject(status, error) => response == Some((status, error)) && nextCalls == old(nextCalls)
              case Accept(_) => response == old(response) && nextCalls == old(nextCalls) + 1
    {
      match UserTypeDecision(types, auth)
      case Reject(status, error) =>
        response := Some((status, error));
      case Accept(_) =>
        nextCalls := nextCalls + 1;
    }
  }

  /**
   * `requireAuth` then `requireUserType` on a fresh request: the handler is
   * reached exactly when the header carries a bearer token the verifier
   * accepts and whose claims name a listed type.
   */
  method GuardedRoute(header: Option<string>, verify: string -> Option<AuthPayload>, types: seq<string>)
    returns (reached: bool)
    ensures reached <==> && AuthDecision(header, verify).Accept?
                         && AuthDecision(header, verify).payload.userType in types
  {
    var ex := new Exchange();
    ex.RequireAuth(header, verify);
    if ex.nextCalls == 1 {
      ex.RequireUserType(types);
    }
    reached := ex.nextCalls == 2;
  }
}
