/**
 * The two authentication middlewares: the main server's `AuthMiddleware`
 * and the vent app's `JWTAuth`. Both read the `Authorization` header and
 * either abort the request with 401 or let it continue with the user's id
 * stored in the request context. Token verification is a library call and
 * comes in as a parameter.
 *
 * Go compares and slices the header byte-wise; "Bearer " is ASCII, so its
 * bytes open the header exactly when its characters do, and the model
 * works on characters.
 */
module Auth {
  import opened Wrappers
  import opened Text

  const Unauthorized := 401
  const BearerPrefix := "Bearer "

  /** What a middleware does with the request: abort with a status and an
      error message, or pass it on with the context keys it has set. */
  datatype Outcome = Abort(status: int, error: string) | Continue(context: map<string, string>)

  // ---------------------------------------------------------------------
  // The main server's middleware
  // ---------------------------------------------------------------------

  const MissingHeader := "Authorization header missing or invalid"
  const InvalidAccessToken := "Invalid or expired access token"
  /** The key `AuthMiddleware` stores the user's id under. */
  const MiddlewareUserKey := "userID"

  /** `strings.TrimPrefix(s, p)`. */
  function TrimPrefix(s: string, p: string): (r: string)
    ensures HasPrefix(s, p) ==> p + r == s
    ensures !HasPrefix(s, p) ==> r == s
  {
    if HasPrefix(s, p) then s[|p|..] else s
  }

  /** `AuthMiddleware`; `verify` is `VerifyJWT`, giving the token's user id
      or nothing when the token is invalid or expired. */
  function AuthMiddleware(header: string, verify: string -> Option<string>): Outcome
  {
    if header == "" || !HasPrefix(header, BearerPrefix) then Abort(Unauthorized, MissingHeader)
    else
      var token := TrimPrefix(header, BearerPrefix);
      match verify(token)
      case None => Abort(Unauthorized, InvalidAccessToken)
      case Some(id) => Continue(map[MiddlewareUserKey := id])
  }

  /** A header without the "Bearer " prefix, the empty one included, is
      refused before any verification. */
  lemma AuthRequiresBearer(header: string, verify: string -> Option<string>)
    ensures !HasPrefix(header, BearerPrefix) <==> AuthMiddleware(header, verify) == Abort(Unauthorized, MissingHeader)
  {
  }

  /** With the prefix, exactly the text after it is verified: a rejected
      token aborts with 401, an accepted one continues with its user id
      under "userID" and nothing else in the context. */
  lemma AuthVerifiesRest(token: string, verify: string -> Option<string>)
    ensures verify(token).None? ==>
              AuthMiddleware(BearerPrefix + token, verify) == Abort(Unauthorized, InvalidAccessToken)
    ensures verify(token).Some? ==>
              AuthMiddleware(BearerPrefix + token, verify) == Continue(map[MiddlewareUserKey := verify(token).value])
  {
    var h := BearerPrefix + token;
    assert HasPrefix(h, BearerPrefix) && h[|BearerPrefix|..] == token;
  }

  /** Every request the middleware lets through carries a verified user id,
      under "userID" only. */
  lemma AuthContinuesOnlyVerified(header: string, verify: string -> Option<string>)
    ensures AuthMiddleware(header, verify).Continue? <==>
              HasPrefix(header, BearerPrefix) && verify(header[|BearerPrefix|..]).Some?
    ensures AuthMiddleware(header, verify).Continue? ==>
              AuthMiddleware(header, verify).context.Keys == {MiddlewareUserKey}
              && AuthMiddleware(header, verify).context[MiddlewareUserKey] == verify(header[|BearerPrefix|..]).value
  {
  }

  // ---------------------------------------------------------------------
  // Where the handlers look for the user
  // ---------------------------------------------------------------------

  /** The key the post and comment handlers read the user's id from. */
  const PostHandlerUserKey := "user_id"

  /** The user the post and comment handlers see, as written: they look
      under "user_id". */
  function PostHandlerUser(context: map<string, string>): Option<string>
  {
    if PostHandlerUserKey in context then Some(context[PostHandlerUserKey]) else None
  }

  /** The user they evidently mean to see: the one the middleware in front
      of them stored, under "userID" (where the question and answer handlers
      look). */
  function PostHandlerUserCorrected(context: map<string, string>): Option<string>
  {
    if MiddlewareUserKey in context then Some(context[MiddlewareUserKey]) else None
  }

  /** As written, no request that passes `AuthMiddleware` shows a user to
      the post and comment handlers, so they answer 401 to every
      authenticated request. */
  lemma PostHandlersSeeNoUser(header: string, verify: string -> Option<string>)
    requires AuthMiddleware(header, verify).Continue?
    ensures PostHandlerUser(AuthMiddleware(header, verify).context).None?
  {
    assert PostHandlerUserKey != MiddlewareUserKey by {
      assert PostHandlerUserKey[4] != MiddlewareUserKey[4];
    }
  }

  /** Read under the middleware's key, the handlers see exactly the verified
      user. */
  lemma CorrectedHandlersSeeVerifiedUser(token: string, verify: string -> Option<string>)
    requires verify(token).Some?
    ensures PostHandlerUserCorrected(AuthMiddleware(BearerPrefix + token, verify).context) == verify(token)
  {
    AuthVerifiesRest(token, verify);
  }

  // ---------------------------------------------------------------------
  // The vent app's middleware
  // ---------------------------------------------------------------------

  const InvalidAuthHeader := "invalid auth header"
  const InvalidToken := "invalid token"
  /** `ContextUserIDKey`. */
  const VentUserKey := "user_id"

  /** A claim's value, as far as the middleware distinguishes it. */
  datatype Claim = StringClaim(s: string) | OtherClaim

  /** What `ParseToken` gives: an error, nil claims, or the claims. */
  datatype Parsed = ParseError | NilClaims | Claims(claims: map<string, Claim>)

  /** The token after "Bearer ", or "" when the header is not longer than
      the prefix or does not start with it. */
  function BearerToken(header: string): (token: string)
    ensures token != "" <==> |header| > |BearerPrefix| && HasPrefix(header, BearerPrefix)
  {
    if |header| > 7 && header[..7] == BearerPrefix then header[7..] else ""
  }

  /** `JWTAuth`: an absent header passes through; otherwise the token must
      be there and parse; the user id is set only from a string "sub"
      claim. */
  function JWTAuth(header: string, parse: string -> Parsed): Outcome
  {
    if header == "" then Continue(map[])
    else
      var token := BearerToken(header);
      if token == "" then Abort(Unauthorized, InvalidAuthHeader)
      else
        match parse(token)
        case ParseError => Abort(Unauthorized, InvalidToken)
        case NilClaims => Abort(Unauthorized, InvalidToken)
        case Claims(cs) =>
          if "sub" in cs && cs["sub"].StringClaim? then Continue(map[VentUserKey := cs["sub"].s])
          else Continue(map[])
  }

  /** A request without the header goes on without a user. */
  lemma VentPassesAnonymous(parse: string -> Parsed)
    ensures JWTAuth("", parse) == Continue(map[])
  {
  }

  /** A present header is refused as malformed exactly when it is not
      "Bearer " followed by at least one character; "Bearer " alone is
      refused. */
  lemma VentHeaderRule(header: string, parse: string -> Parsed)
    ensures JWTAuth(header, parse) == Abort(Unauthorized, InvalidAuthHeader) <==>
              header != "" && !(|header| > |BearerPrefix| && HasPrefix(header, BearerPrefix))
    ensures JWTAuth(BearerPrefix, parse) == Abort(Unauthorized, InvalidAuthHeader)
  {
  }

  /** "Bearer " followed by a token hands exactly that token to the parser:
      a failed parse aborts, and the user id is set exactly when "sub" is a
      string claim. */
  lemma VentParsesRest(token: string, parse: string -> Parsed)
    requires token != ""
    ensures var r := JWTAuth(BearerPrefix + token, parse);
            && (r.Abort? <==> !parse(token).Claims?)
            && (r.Abort? ==> r == Abort(Unauthorized, InvalidToken))
            && (r.Continue? ==>
                  (VentUserKey in r.context <==> "sub" in parse(token).claims && parse(token).claims["sub"].StringClaim?)
                  && r.context.Keys <= {VentUserKey})
            && (r.Continue? && VentUserKey in r.context ==> r.context[VentUserKey] == parse(token).claims["sub"].s)
  {
    var h := BearerPrefix + token;
    assert h[..7] == BearerPrefix && h[7..] == token;
  }
}
