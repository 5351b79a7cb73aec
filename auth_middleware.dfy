/** The access gate put in front of protected routes: it reads the bearer token from the
    Authorization header, verifies it with the access-token secret, and either answers 401 or lets
    the request through with the token's payload attached. */
module AuthMiddleware {
  import opened Common
  import Strings
  import AuthService

  const Unauthorized := (401, "Unauthorized")
  const AccessTokenExpired := (401, "Access token expired")
  const SignatureRejected := (401, "Unauthorized, token signature usuccessfuly verified")

  /** What the gate does to one request: the response it writes (status and message), how many
      times it calls `next`, and the subject it stores in `req.user`. */
  datatype Gate = Gate(response: Option<(int, string)>, nextCalls: nat, user: Option<AuthService.UserId>)

  /** `verifyToken` for the given Authorization header ("" when absent) and the verifier of the
      access-token secret. Every request gets exactly one outcome: one response or one call of
      `next`, never both; `req.user` is set exactly when `next` is called. */
  function VerifyToken(authorization: string, verify: AuthService.Token -> AuthService.Verdict): (g: Gate)
    ensures g.response.Some? <==> g.nextCalls == 0
    ensures g.nextCalls <= 1
    ensures g.user.Some? <==> g.nextCalls == 1
    ensures g.response.Some? ==> g.response.value.0 == 401
  {
    var token := Strings.SecondWord(authorization);
    if authorization == "" || token == "" then Gate(Some(Unauthorized), 0, None)
    else match verify(token)
      case Expired => Gate(Some(AccessTokenExpired), 0, None)
      case BadSignature => Gate(Some(SignatureRejected), 0, None)
      case Valid(subject) => Gate(None, 1, Some(subject))
  }

  /** The four outcomes: no header, or a header without a second word (such as "Bearer" alone), is
      refused as unauthorized; an expired token and any other failed verification get their own
      messages; a valid token passes with its subject. A request passes exactly when the header's
      second word verifies. */
  lemma GateOutcomes(authorization: string, verify: AuthService.Token -> AuthService.Verdict)
    ensures var g := VerifyToken(authorization, verify); var token := Strings.SecondWord(authorization);
      (authorization == "" ==> g == Gate(Some(Unauthorized), 0, None))
      && (token == "" ==> g == Gate(Some(Unauthorized), 0, None))
      && (authorization != "" && token != "" && verify(token).Expired? ==> g.response == Some(AccessTokenExpired))
      && (authorization != "" && token != "" && verify(token).BadSignature? ==> g.response == Some(SignatureRejected))
      && (g.nextCalls == 1 <==> authorization != "" && token != "" && verify(token).Valid?)
      && (g.nextCalls == 1 ==> g.user == Some(verify(token).subject))
  {
  }

  /** The gate lets a request through exactly when the recovery route would find its access token
      still valid and stay silent: the two read the same word of the same header. */
  lemma GateAgreesWithRecovery(users: AuthService.Users, authorization: string, cookie: AuthService.Token,
                               verifyAccess: AuthService.Token -> AuthService.Verdict,
                               verifyRefresh: AuthService.Token -> AuthService.Verdict, newToken: AuthService.Token)
    requires AuthService.OwnersUnique(users)
    ensures VerifyToken(authorization, verifyAccess).nextCalls == 1 <==>
      AuthService.AccessExpiry(users, authorization, cookie, verifyAccess, verifyRefresh, newToken).reply.NoReply?
  {
  }
}
