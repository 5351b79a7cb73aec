/** The refresh-token session state machine of the authentication service. Every user record keeps a
    list of the refresh tokens it has been issued; login, logout, refreshing on landing and recovering
    from an expired access token each read that list and write it back once, set or clear the
    refresh-token cookie, and end in one reply.

    Signing and verifying are abstract: a verifier is a function from a token to its verdict under one
    secret, and a newly signed refresh token is a parameter the caller guarantees to be on no list.
    Every request is one atomic step over the store of users. */
module AuthService {
  import opened Common
  import Lists
  import Strings

  type UserId = string

  /** A signed token. The empty string stands for a missing cookie or header (the one falsy string). */
  type Token = string

  /** What verifying a token under one secret yields: the id it was signed for, or the error. */
  datatype Verdict = Valid(subject: UserId) | Expired | BadSignature

  /** The fields of a user record the authentication flows read or write. */
  datatype User = User(email: string, isAccountVerified: bool, password: string, refreshToken: seq<Token>)

  /** The users collection, by id (the unique `_id` index). */
  type Users = map<UserId, User>

  /** What a flow does to the `refreshToken` cookie of the response. */
  datatype Cookie = KeepCookie | ClearCookie | SetCookie(token: Token)

  /** How a request ends: a JSON body with status 200, a bare 204, an error passed to the error
      handler, or no response at all. `accessFor` is the subject a new access token is signed for. */
  datatype Reply =
    | LoggedIn(id: UserId, user: User, accessFor: UserId)
    | Refreshed(accessFor: UserId)
    | NoContent
    | Failed(error: Error)
    | NoReply

  /** The store after a request, the cookie action and the reply. */
  datatype Outcome = Outcome(users: Users, cookie: Cookie, reply: Reply)

  const NoSuchEmail := AppError(404, "There is no user with this email address")
  const NotVerified := AppError(403, "Email not verified. Please check your email for the verification link.")
  const BadPassword := AppError(400, "Failed to log in! Please check your credentials.")
  const NoUserDetected := AppError(401, "No user detected")
  const TokenExpired := AppError(401, "Refresh token expired")
  const Forbidden := AppError(403, "")
  const NoAccessToken := AppError(401, "No access token provided.")
  const MissingRefreshToken := AppError(401, "Missing refresh token")
  const ReuseDetected := AppError(403, "Detected attempted refresh token reuse!")

  /** User u holds token t on its list. */
  predicate Holds(users: Users, u: UserId, t: Token)
  {
    u in users && t in users[u].refreshToken
  }

  /** No token is on two users' lists, so looking a user up by a token is unambiguous. */
  ghost predicate OwnersUnique(users: Users)
  {
    forall u, v, t :: u in users && v in users && t in users[u].refreshToken && t in users[v].refreshToken ==> u == v
  }

  /** No two users share an email address (the unique index on `email`). */
  ghost predicate EmailsUnique(users: Users)
  {
    forall u, v :: u in users && v in users && users[u].email == users[v].email ==> u == v
  }

  /** A newly signed refresh token: a real token, on nobody's list yet. */
  ghost predicate Fresh(users: Users, t: Token)
  {
    t != "" && forall u :: u in users ==> t !in users[u].refreshToken
  }

  /** `getUser({ refreshToken: t })`: the user whose list holds t, or null. */
  function Owner(users: Users, t: Token): (r: Option<UserId>)
    requires OwnersUnique(users)
    ensures r.None? <==> forall u :: u in users ==> t !in users[u].refreshToken
    ensures r.Some? ==> Holds(users, r.value, t)
  {
    if exists u :: u in users && t in users[u].refreshToken then
      var u :| u in users && t in users[u].refreshToken;
      Some(u)
    else None
  }

  /** `getUser({ email })`: the user with that email address, or null. */
  function UserByEmail(users: Users, email: string): (r: Option<UserId>)
    requires EmailsUnique(users)
    ensures r.None? <==> forall u :: u in users ==> users[u].email != email
    ensures r.Some? ==> r.value in users && users[r.value].email == email
  {
    if exists u :: u in users && users[u].email == email then
      var u :| u in users && users[u].email == email;
      Some(u)
    else None
  }

  /** `updateUser(u, { refreshToken: list })`: user u's list becomes `list`, every other record and
      every other field stays; an id with no record changes nothing. */
  function SetTokens(users: Users, u: UserId, list: seq<Token>): (r: Users)
    ensures r.Keys == users.Keys
    ensures u in users ==> r[u] == users[u].(refreshToken := list)
    ensures forall v :: v in users && v != u ==> r[v] == users[v]
  {
    if u in users then users[u := users[u].(refreshToken := list)] else users
  }

  /** `checkUserCredentials`: the user with the email, provided the account is verified and the
      password matches the stored hash (`matches` stands for bcrypt's comparison). The checks run in
      that order, and the error is that of the first one that fails. */
  function Credentials(users: Users, email: string, password: string, matches: (string, string) -> bool): (r: Result<UserId>)
    requires EmailsUnique(users)
    ensures r == Err(NoSuchEmail) <==> forall u :: u in users ==> users[u].email != email
    ensures r == Err(NotVerified) <==>
      exists u :: u in users && users[u].email == email && !users[u].isAccountVerified
    ensures r == Err(BadPassword) <==>
      exists u :: u in users && users[u].email == email && users[u].isAccountVerified && !matches(password, users[u].password)
    ensures r.Ok? <==>
      exists u :: u in users && users[u].email == email && users[u].isAccountVerified && matches(password, users[u].password)
    ensures r.Ok? ==> r.value in users && users[r.value].email == email
  {
    match UserByEmail(users, email)
    case None => Err(NoSuchEmail)
    case Some(u) =>
      if !users[u].isAccountVerified then Err(NotVerified)
      else if !matches(password, users[u].password) then Err(BadPassword)
      else Ok(u)
  }

  /** The list a login keeps before appending the new token: the old list without every copy of the
      cookie's token, or the whole old list when there is no cookie. */
  function KeptAtLogin(list: seq<Token>, cookie: Token): seq<Token>
  {
    if cookie == "" then list else Lists.Without(list, cookie)
  }

  /** `loginUserFromRoute`: check the credentials, then issue a token pair. */
  function Login(users: Users, cookie: Token, email: string, password: string, matches: (string, string) -> bool, newToken: Token): Outcome
    requires EmailsUnique(users)
  {
    match Credentials(users, email, password, matches)
    case Err(e) => Outcome(users, KeepCookie, Failed(e))
    case Ok(u) =>
      Outcome(SetTokens(users, u, KeptAtLogin(users[u].refreshToken, cookie) + [newToken]), SetCookie(newToken),
        LoggedIn(u, users[u].(refreshToken := []), u))
  }

  /** `logoutUserFromRoute`. */
  function Logout(users: Users, cookie: Token): Outcome
    requires OwnersUnique(users)
  {
    if cookie == "" then Outcome(users, KeepCookie, NoContent)
    else match Owner(users, cookie)
      case None => Outcome(users, ClearCookie, NoContent)
      case Some(u) => Outcome(SetTokens(users, u, Lists.Without(users[u].refreshToken, cookie)), ClearCookie, NoContent)
  }

  /** `handleFaultyRefreshToken`: write the kept list, clear the cookie, fail with 401. */
  function Faulty(users: Users, u: UserId, kept: seq<Token>): Outcome
  {
    Outcome(SetTokens(users, u, kept), ClearCookie, Failed(TokenExpired))
  }

  /** `handleProperRefreshToken`: write the kept list plus a new token, set the cookie to it, and
      answer with an access token for u. */
  function Proper(users: Users, u: UserId, kept: seq<Token>, newToken: Token): Outcome
  {
    Outcome(SetTokens(users, u, kept + [newToken]), SetCookie(newToken), Refreshed(u))
  }

  /** `flushUserRefreshTokens`, for a token on nobody's list: the cookie is cleared and the request is
      refused; a token that still verifies has its subject's whole list emptied. */
  function Flush(users: Users, t: Token, verify: Token -> Verdict): Outcome
  {
    match verify(t)
    case Valid(s) => Outcome(SetTokens(users, s, []), ClearCookie, Failed(Forbidden))
    case _ => Outcome(users, ClearCookie, Failed(Forbidden))
  }

  /** `handleRefreshToken`, for the token t held by user u; `kept` is u's list without t. */
  function CheckHeld(users: Users, u: UserId, t: Token, kept: seq<Token>, verify: Token -> Verdict, newToken: Token): Outcome
  {
    match verify(t)
    case Valid(s) => if s != u then Outcome(users, KeepCookie, Failed(Forbidden)) else Proper(users, u, kept, newToken)
    case _ => Faulty(users, u, kept)
  }

  /** `extractRefreshToken`: the cookie's token; a request without one is refused with 401. */
  function ExtractRefreshToken(cookie: Token): (r: Result<Token>)
    ensures r.Err? <==> cookie == ""
    ensures r.Err? ==> r.error == NoUserDetected
    ensures r.Ok? ==> r.value == cookie
  {
    if cookie == "" then Err(NoUserDetected) else Ok(cookie)
  }

  /** `handleRefreshTokenFromRoute`: refreshing the session from the cookie when a page loads. */
  function Refresh(users: Users, cookie: Token, verify: Token -> Verdict, newToken: Token): Outcome
    requires OwnersUnique(users)
  {
    match ExtractRefreshToken(cookie)
    case Err(e) => Outcome(users, KeepCookie, Failed(e))
    case Ok(t) =>
      match Owner(users, t)
      case None => Flush(users, t, verify)
      case Some(u) => CheckHeld(users, u, t, Lists.Without(users[u].refreshToken, t), verify, newToken)
  }

  /** `getAccessToken`: the second space-separated word of the Authorization header. */
  function AccessToken(authorization: string): (r: Result<Token>)
    ensures r.Err? <==> authorization == "" || Strings.SecondWord(authorization) == ""
    ensures r.Err? ==> r.error == NoAccessToken
    ensures r.Ok? ==> r.value != "" && r.value == Strings.Split(authorization, " ")[1]
  {
    if authorization == "" then Err(NoAccessToken)
    else
      var t := Strings.SecondWord(authorization);
      if t == "" then Err(NoAccessToken) else Ok(t)
  }

  /** The inner verification of `handleAccessTokenExpiry`, on the refresh token t. */
  function Recover(users: Users, t: Token, verify: Token -> Verdict, newToken: Token): Outcome
    requires OwnersUnique(users)
  {
    match verify(t)
    case Valid(_) =>
      (match Owner(users, t)
       case None => Outcome(users, ClearCookie, Failed(ReuseDetected))
       case Some(u) => Proper(users, u, Lists.Without(users[u].refreshToken, t), newToken))
    case _ =>
      match Owner(users, t)
      case None => Outcome(users, KeepCookie, Failed(RuntimeError))
      case Some(u) => Faulty(users, u, Lists.Without(users[u].refreshToken, t))
  }

  /** `handleAccessTokenExpiryFromRoute`: a client whose access token was refused asks for a new pair. */
  function AccessExpiry(users: Users, authorization: string, cookie: Token,
                        verifyAccess: Token -> Verdict, verifyRefresh: Token -> Verdict, newToken: Token): Outcome
    requires OwnersUnique(users)
  {
    match AccessToken(authorization)
    case Err(e) => Outcome(users, KeepCookie, Failed(e))
    case Ok(t) => Expiry(users, t, cookie, verifyAccess, verifyRefresh, newToken)
  }

  /** `handleAccessTokenExpiry` on the access token t: a token that still verifies gets no answer;
      otherwise the refresh cookie is needed and checked. */
  function Expiry(users: Users, t: Token, cookie: Token,
                  verifyAccess: Token -> Verdict, verifyRefresh: Token -> Verdict, newToken: Token): Outcome
    requires OwnersUnique(users)
  {
    if verifyAccess(t).Valid? then Outcome(users, KeepCookie, NoReply)
    else if cookie == "" then Outcome(users, KeepCookie, Failed(MissingRefreshToken))
    else Recover(users, cookie, verifyRefresh, newToken)
  }


  // ---------------------------------------------------------------------------------------------
  // Properties of the flows

  /** Writing a list that takes no token from another user's list keeps token owners unique. */
  lemma SetTokensKeepsOwnersUnique(users: Users, u: UserId, list: seq<Token>)
    requires OwnersUnique(users)
    requires forall t :: t in list ==> forall v :: v in users && v != u ==> t !in users[v].refreshToken
    ensures OwnersUnique(SetTokens(users, u, list))
  {
  }

  /** A login either fails at its first failed check and changes nothing, or rewrites only the user's
      own list: every copy of the cookie's token goes, every other old token stays (the old list is
      kept whole when there is no cookie, so other devices stay logged in), and exactly one new
      token is added. The reply never carries the stored list. */
  lemma {:induction false} LoginSession(users: Users, cookie: Token, email: string, password: string,
                                        matches: (string, string) -> bool, newToken: Token)
    requires EmailsUnique(users) && Fresh(users, newToken) && newToken != cookie
    ensures var o := Login(users, cookie, email, password, matches, newToken);
      match Credentials(users, email, password, matches)
      case Err(e) => o == Outcome(users, KeepCookie, Failed(e))
      case Ok(u) =>
        var old_, new_ := users[u].refreshToken, o.users[u].refreshToken;
        o.cookie == SetCookie(newToken) && o.reply == LoggedIn(u, o.reply.user, u) && o.reply.user.refreshToken == []
        && o.users.Keys == users.Keys && (forall v :: v in users && v != u ==> o.users[v] == users[v])
        && (cookie == "" ==> new_ == old_ + [newToken])
        && (cookie != "" ==> cookie !in new_)
        && (forall k :: 0 <= k < |old_| && old_[k] != cookie ==> old_[k] in new_)
        && multiset(new_)[newToken] == 1
        && new_[|new_| - 1] == newToken
  {
    match Credentials(users, email, password, matches)
    case Err(_) =>
    case Ok(u) =>
      var old_ := users[u].refreshToken;
      var kept := KeptAtLogin(old_, cookie);
      assert newToken !in old_;
      assert multiset(kept + [newToken])[newToken] == multiset(kept)[newToken] + 1;
  }

  /** Logout always answers 204. Without a cookie nothing is looked up or changed; with an unknown
      token nothing is written; otherwise the owner's list loses every copy of the token, keeps its
      other entries in order, and no other list changes. Afterwards nobody holds the token. */
  lemma LogoutAlwaysNoContent(users: Users, cookie: Token)
    requires OwnersUnique(users)
    ensures var o := Logout(users, cookie);
      o.reply == NoContent && o.users.Keys == users.Keys
      && (cookie == "" ==> o == Outcome(users, KeepCookie, NoContent))
      && (cookie != "" ==> o.cookie == ClearCookie && forall v :: v in o.users ==> cookie !in o.users[v].refreshToken)
      && (Owner(users, cookie).None? ==> o.users == users)
      && (cookie != "" && Owner(users, cookie).Some? ==>
            var u := Owner(users, cookie).value;
            o.users[u].refreshToken == Lists.Without(users[u].refreshToken, cookie)
            && forall v :: v in users && v != u ==> o.users[v] == users[v])
      && OwnersUnique(o.users)
  {
    if cookie != "" {
      match Owner(users, cookie)
      case None =>
      case Some(u) =>
        var list := Lists.Without(users[u].refreshToken, cookie);
        SetTokensKeepsOwnersUnique(users, u, list);
    }
  }

  /** Logging out twice with the same cookie leaves the store as the first logout left it. */
  lemma {:induction false} LogoutIdempotent(users: Users, cookie: Token)
    requires OwnersUnique(users)
    ensures OwnersUnique(Logout(users, cookie).users)
    ensures Logout(Logout(users, cookie).users, cookie).users == Logout(users, cookie).users
  {
    LogoutAlwaysNoContent(users, cookie);
    var once := Logout(users, cookie).users;
    if cookie != "" {
      assert Owner(once, cookie).None?;
    }
  }

  /** A refresh on landing succeeds exactly when the cookie's token is on some user's list and
      verifies for that same user. The token is then used up: the owner's list loses it, gains exactly
      one new token at its end, and keeps its other entries; no other list changes. */
  lemma RefreshSucceedsIff(users: Users, cookie: Token, verify: Token -> Verdict, newToken: Token)
    requires OwnersUnique(users) && Fresh(users, newToken)
    ensures var o := Refresh(users, cookie, verify, newToken);
      o.reply.Refreshed? <==>
        cookie != "" && Owner(users, cookie).Some? && verify(cookie) == Valid(Owner(users, cookie).value)
    ensures var o := Refresh(users, cookie, verify, newToken);
      o.reply.Refreshed? ==>
        var u := o.reply.accessFor;
        Holds(users, u, cookie) && o.cookie == SetCookie(newToken)
        && o.users[u].refreshToken == Lists.Without(users[u].refreshToken, cookie) + [newToken]
        && cookie !in o.users[u].refreshToken
        && multiset(o.users[u].refreshToken)[newToken] == 1
        && o.users.Keys == users.Keys && (forall v :: v in users && v != u ==> o.users[v] == users[v])
  {
    var o := Refresh(users, cookie, verify, newToken);
    if o.reply.Refreshed? {
      var u := o.reply.accessFor;
      var kept := Lists.Without(users[u].refreshToken, cookie);
      assert newToken !in kept;
      assert multiset(kept + [newToken])[newToken] == multiset(kept)[newToken] + 1;
    }
  }

  /** A token on a user's list that does not verify (expired or forged) is removed from that list with
      every copy, the cookie is cleared and the request fails with 401; one that verifies for another
      user is refused with 403 and nothing is written and the cookie is left. No new token is issued
      in either case. */
  lemma RefreshHeldButRejected(users: Users, cookie: Token, verify: Token -> Verdict, newToken: Token)
    requires OwnersUnique(users) && cookie != "" && Owner(users, cookie).Some?
    ensures var o := Refresh(users, cookie, verify, newToken); var u := Owner(users, cookie).value;
      !verify(cookie).Valid? ==>
        o.users == SetTokens(users, u, Lists.Without(users[u].refreshToken, cookie))
        && o.cookie == ClearCookie && o.reply == Failed(TokenExpired)
        && forall v :: v in o.users ==> newToken !in o.users[v].refreshToken || Holds(users, v, newToken)
    ensures var o := Refresh(users, cookie, verify, newToken); var u := Owner(users, cookie).value;
      verify(cookie).Valid? && verify(cookie).subject != u ==>
        o == Outcome(users, KeepCookie, Failed(Forbidden))
  {
  }

  /** Without a cookie the refresh is refused with 401. A token on nobody's list is always refused
      with 403 and its cookie cleared; if it still verifies, its subject's whole list is emptied (every
      session of that user ends), and if not, no list changes. */
  lemma RefreshUnknownToken(users: Users, cookie: Token, verify: Token -> Verdict, newToken: Token)
    requires OwnersUnique(users)
    ensures cookie == "" ==> Refresh(users, cookie, verify, newToken) == Outcome(users, KeepCookie, Failed(NoUserDetected))
    ensures cookie != "" && Owner(users, cookie).None? ==>
      var o := Refresh(users, cookie, verify, newToken);
      o.reply == Failed(Forbidden) && o.cookie == ClearCookie
      && (verify(cookie).Valid? ==> var s := verify(cookie).subject;
            (s in users ==> o.users[s].refreshToken == []) && forall v :: v in users && v != s ==> o.users[v] == users[v])
      && (!verify(cookie).Valid? ==> o.users == users)
  {
  }

  /** A login keeps the token owners unique, given that the new token is on no list. */
  lemma LoginKeepsOwnersUnique(users: Users, cookie: Token, email: string, password: string,
                               matches: (string, string) -> bool, newToken: Token)
    requires OwnersUnique(users) && EmailsUnique(users) && Fresh(users, newToken)
    ensures OwnersUnique(Login(users, cookie, email, password, matches, newToken).users)
  {
    var login := Credentials(users, email, password, matches);
    if login.Ok? {
      var u := login.value;
      KeptPlusNewKeepsOwnersUnique(users, u, KeptAtLogin(users[u].refreshToken, cookie), newToken);
    }
  }

  /** A refresh on landing keeps the token owners unique, given that the new token is on no list. */
  lemma RefreshKeepsOwnersUnique(users: Users, cookie: Token, verify: Token -> Verdict, newToken: Token)
    requires OwnersUnique(users) && Fresh(users, newToken)
    ensures OwnersUnique(Refresh(users, cookie, verify, newToken).users)
  {
    if cookie != "" {
      var found := Owner(users, cookie);
      if found.None? {
        if verify(cookie).Valid? {
          SetTokensKeepsOwnersUnique(users, verify(cookie).subject, []);
        }
      } else {
        var u := found.value;
        var kept := Lists.Without(users[u].refreshToken, cookie);
        KeptPlusNewKeepsOwnersUnique(users, u, kept, newToken);
        SetTokensKeepsOwnersUnique(users, u, kept);
      }
    }
  }

  /** Recovery from an expired access token keeps the token owners unique, given that the new token
      is on no list. */
  lemma AccessExpiryKeepsOwnersUnique(users: Users, authorization: string, cookie: Token,
                                      verifyAccess: Token -> Verdict, verifyRefresh: Token -> Verdict, newToken: Token)
    requires OwnersUnique(users) && Fresh(users, newToken)
    ensures OwnersUnique(AccessExpiry(users, authorization, cookie, verifyAccess, verifyRefresh, newToken).users)
  {
    var found := Owner(users, cookie);
    if found.Some? {
      var u := found.value;
      var kept := Lists.Without(users[u].refreshToken, cookie);
      KeptPlusNewKeepsOwnersUnique(users, u, kept, newToken);
      SetTokensKeepsOwnersUnique(users, u, kept);
    }
  }

  /** Writing a sub-list of a user's own list plus a new token keeps token owners unique. */
  lemma KeptPlusNewKeepsOwnersUnique(users: Users, u: UserId, kept: seq<Token>, newToken: Token)
    requires OwnersUnique(users) && Fresh(users, newToken) && u in users
    requires forall k :: 0 <= k < |kept| ==> kept[k] in users[u].refreshToken
    ensures OwnersUnique(SetTokens(users, u, kept + [newToken]))
  {
    var list := kept + [newToken];
    forall t | t in list ensures forall v :: v in users && v != u ==> t !in users[v].refreshToken {
      if t != newToken {
        var k :| 0 <= k < |kept| && kept[k] == t;
      }
    }
    SetTokensKeepsOwnersUnique(users, u, list);
  }

  /** A refresh token is single-use: presenting it again after a successful refresh finds it on no
      list, clears the cookie, refuses with 403, and ends every session of its owner, including the one
      the first refresh just started. */
  lemma {:induction false} RefreshReplayWipes(users: Users, cookie: Token, verify: Token -> Verdict,
                                              newToken: Token, nextToken: Token)
    requires OwnersUnique(users) && Fresh(users, newToken)
    requires Refresh(users, cookie, verify, newToken).reply.Refreshed?
    ensures var o := Refresh(users, cookie, verify, newToken); var u := o.reply.accessFor;
      OwnersUnique(o.users)
      && Refresh(o.users, cookie, verify, nextToken)
         == Outcome(o.users[u := o.users[u].(refreshToken := [])], ClearCookie, Failed(Forbidden))
  {
    RefreshSucceedsIff(users, cookie, verify, newToken);
    RefreshKeepsOwnersUnique(users, cookie, verify, newToken);
    var o := Refresh(users, cookie, verify, newToken);
    assert Owner(o.users, cookie).None?;
  }

  /** The guards of the recovery route: no header or no second word gives 401 "No access token
      provided."; an access token that still verifies gets no response at all; a refused access token
      without a refresh cookie gives 401 "Missing refresh token". None of them changes the store or
      the cookie. */
  lemma ExpiryGuards(users: Users, authorization: string, cookie: Token,
                     verifyAccess: Token -> Verdict, verifyRefresh: Token -> Verdict, newToken: Token)
    requires OwnersUnique(users)
    ensures var o := AccessExpiry(users, authorization, cookie, verifyAccess, verifyRefresh, newToken);
      (authorization == "" || Strings.SecondWord(authorization) == "" ==>
         o == Outcome(users, KeepCookie, Failed(NoAccessToken)))
      && (authorization != "" && Strings.SecondWord(authorization) != ""
          && verifyAccess(Strings.SecondWord(authorization)).Valid? ==>
         o == Outcome(users, KeepCookie, NoReply))
      && (authorization != "" && Strings.SecondWord(authorization) != "" && cookie == ""
          && !verifyAccess(Strings.SecondWord(authorization)).Valid? ==>
         o == Outcome(users, KeepCookie, Failed(MissingRefreshToken)))
  {
  }

  /** Recovery with a refresh cookie, once the access token is refused. A refresh token that does not
      verify and is on nobody's list makes the lookup dereference null, which the error handler turns
      into a 500; one on a list is removed from it with every copy (401). A token that verifies but is
      on nobody's list is refused with 403 and, unlike on landing, no list is emptied. A token that
      verifies and is on a list is rotated for its holder, whoever it was signed for. */
  lemma RecoverBranches(users: Users, t: Token, verify: Token -> Verdict, newToken: Token)
    requires OwnersUnique(users) && Fresh(users, newToken)
    ensures var o := Recover(users, t, verify, newToken);
      !verify(t).Valid? && Owner(users, t).None? ==>
        o == Outcome(users, KeepCookie, Failed(RuntimeError)) && ErrorResponse(o.reply.error) == (500, "Something went wrong")
    ensures var o := Recover(users, t, verify, newToken);
      !verify(t).Valid? && Owner(users, t).Some? ==>
        var u := Owner(users, t).value;
        o.users == SetTokens(users, u, Lists.Without(users[u].refreshToken, t))
        && t !in o.users[u].refreshToken && o.cookie == ClearCookie && o.reply == Failed(TokenExpired)
    ensures var o := Recover(users, t, verify, newToken);
      verify(t).Valid? && Owner(users, t).None? ==> o == Outcome(users, ClearCookie, Failed(ReuseDetected))
    ensures var o := Recover(users, t, verify, newToken);
      verify(t).Valid? && Owner(users, t).Some? ==>
        var u := Owner(users, t).value;
        o.reply == Refreshed(u) && o.cookie == SetCookie(newToken)
        && o.users == SetTokens(users, u, Lists.Without(users[u].refreshToken, t) + [newToken])
        && t !in o.users[u].refreshToken
  {
    if Owner(users, t).Some? {
      assert newToken != t;
    }
  }

  /** A stolen token that still verifies, replayed after it has left every list, is refused with 403
      on both routes; on landing its subject loses every session, on the recovery route nothing is
      written. */
  lemma ReuseHandledDifferently(users: Users, authorization: string, cookie: Token,
                                verifyAccess: Token -> Verdict, verifyRefresh: Token -> Verdict, newToken: Token)
    requires OwnersUnique(users) && cookie != "" && Owner(users, cookie).None? && verifyRefresh(cookie).Valid?
    requires AccessToken(authorization).Ok? && !verifyAccess(AccessToken(authorization).value).Valid?
    ensures var s := verifyRefresh(cookie).subject; var landing := Refresh(users, cookie, verifyRefresh, newToken);
      landing.reply == Failed(Forbidden) && landing.cookie == ClearCookie
      && (s in users ==> landing.users[s].refreshToken == [])
    ensures AccessExpiry(users, authorization, cookie, verifyAccess, verifyRefresh, newToken)
      == Outcome(users, ClearCookie, Failed(ReuseDetected))
  {
  }

  // ---------------------------------------------------------------------------------------------
  // The service, step by step over the stored users

  /** The service over the users collection. Each method follows the helper of the same name and
      ends in the state and reply the flow above describes. */
  class AuthService {
    var users: Users

    constructor (initial: Users)
      ensures users == initial
    {
      users := initial;
    }

    /** `userService.updateUser(u, { refreshToken: list })`. */
    method UpdateUser(u: UserId, list: seq<Token>)
      modifies this
      ensures users == SetTokens(old(users), u, list)
    {
      if u in users {
        users := users[u := users[u].(refreshToken := list)];
      }
    }

    /** `issueAccessRefreshTokens`: stores the user's new list, and returns the user with an empty
        list together with the cookie to set. */
    method IssueAccessRefreshTokens(u: UserId, cookie: Token, newToken: Token) returns (user: User, c: Cookie)
      requires u in users
      modifies this
      ensures users == SetTokens(old(users), u, KeptAtLogin(old(users)[u].refreshToken, cookie) + [newToken])
      ensures user == old(users)[u].(refreshToken := []) && c == SetCookie(newToken)
    {
      user := users[u];
      var kept := if cookie == "" then user.refreshToken else Lists.Without(user.refreshToken, cookie);
      UpdateUser(u, kept + [newToken]);
      user := user.(refreshToken := []);
      c := SetCookie(newToken);
    }

    /** `loginUserFromRoute`. */
    method LoginUserFromRoute(cookie: Token, email: string, password: string, matches: (string, string) -> bool,
                              newToken: Token) returns (c: Cookie, reply: Reply)
      requires EmailsUnique(users)
      modifies this
      ensures Outcome(users, c, reply) == Login(old(users), cookie, email, password, matches, newToken)
    {
      var found := Credentials(users, email, password, matches);
      if found.Err? {
        return KeepCookie, Failed(found.error);
      }
      var user;
      user, c := IssueAccessRefreshTokens(found.value, cookie, newToken);
      reply := LoggedIn(found.value, user, found.value);
    }

    /** `logoutUser`: the status is always 204. */
    method LogoutUser(cookie: Token) returns (c: Cookie, status: int)
      requires OwnersUnique(users)
      modifies this
      ensures Outcome(users, c, NoContent) == Logout(old(users), cookie) && status == 204
    {
      if cookie == "" {
        return KeepCookie, 204;
      }
      var found := Owner(users, cookie);
      if found.None? {
        return ClearCookie, 204;
      }
      var u := found.value;
      UpdateUser(u, Lists.Without(users[u].refreshToken, cookie));
      return ClearCookie, 204;
    }

    /** `logoutUserFromRoute`. */
    method LogoutUserFromRoute(cookie: Token) returns (c: Cookie, reply: Reply)
      requires OwnersUnique(users)
      modifies this
      ensures Outcome(users, c, reply) == Logout(old(users), cookie)
    {
      var status;
      c, status := LogoutUser(cookie);
      reply := NoContent;
    }

    /** `handleFaultyRefreshToken`. */
    method HandleFaultyRefreshToken(u: UserId, kept: seq<Token>) returns (c: Cookie, e: Error)
      modifies this
      ensures Outcome(users, c, Failed(e)) == Faulty(old(users), u, kept)
    {
      UpdateUser(u, kept);
      c := ClearCookie;
      e := TokenExpired;
    }

    /** `handleProperRefreshToken`: returns the subject of the new access token. */
    method HandleProperRefreshToken(u: UserId, kept: seq<Token>, newToken: Token) returns (c: Cookie, accessFor: UserId)
      modifies this
      ensures Outcome(users, c, Refreshed(accessFor)) == Proper(old(users), u, kept, newToken)
    {
      accessFor := u;
      UpdateUser(u, kept + [newToken]);
      c := SetCookie(newToken);
    }

    /** `flushUserRefreshTokens`: always refuses with 403 after clearing the cookie. */
    method FlushUserRefreshTokens(t: Token, verify: Token -> Verdict) returns (c: Cookie, e: Error)
      modifies this
      ensures Outcome(users, c, Failed(e)) == Flush(old(users), t, verify)
    {
      c := ClearCookie;
      var verdict := verify(t);
      if verdict.Valid? {
        UpdateUser(verdict.subject, []);
      }
      e := Forbidden;
    }

    /** `handleRefreshToken`, for the token t held by u. */
    method HandleRefreshToken(u: UserId, t: Token, kept: seq<Token>, verify: Token -> Verdict, newToken: Token)
      returns (c: Cookie, reply: Reply)
      modifies this
      ensures Outcome(users, c, reply) == CheckHeld(old(users), u, t, kept, verify, newToken)
    {
      var verdict := verify(t);
      if !verdict.Valid? {
        var e;
        c, e := HandleFaultyRefreshToken(u, kept);
        return c, Failed(e);
      }
      if verdict.subject != u {
        return KeepCookie, Failed(Forbidden);
      }
      var accessFor;
      c, accessFor := HandleProperRefreshToken(u, kept, newToken);
      reply := Refreshed(accessFor);
    }

    /** `handleRefreshTokenFromRoute`. */
    method HandleRefreshTokenFromRoute(cookie: Token, verify: Token -> Verdict, newToken: Token)
      returns (c: Cookie, reply: Reply)
      requires OwnersUnique(users)
      modifies this
      ensures Outcome(users, c, reply) == Refresh(old(users), cookie, verify, newToken)
    {
      var extracted := ExtractRefreshToken(cookie);
      if extracted.Err? {
        return KeepCookie, Failed(extracted.error);
      }
      var t := extracted.value;
      var found := Owner(users, t);
      if found.None? {
        var e;
        c, e := FlushUserRefreshTokens(t, verify);
        return c, Failed(e);
      }
      var u := found.value;
      c, reply := HandleRefreshToken(u, t, Lists.Without(users[u].refreshToken, t), verify, newToken);
    }

    /** `handleAccessTokenExpiry` on the access token t. */
    method HandleAccessTokenExpiry(t: Token, cookie: Token, verifyAccess: Token -> Verdict,
                                   verifyRefresh: Token -> Verdict, newToken: Token) returns (c: Cookie, reply: Reply)
      requires OwnersUnique(users)
      modifies this
      ensures Outcome(users, c, reply) == Expiry(old(users), t, cookie, verifyAccess, verifyRefresh, newToken)
    {
      if verifyAccess(t).Valid? {
        return KeepCookie, NoReply;
      }
      if cookie == "" {
        return KeepCookie, Failed(MissingRefreshToken);
      }
      var found := Owner(users, cookie);
      if !verifyRefresh(cookie).Valid? {
        if found.None? {
          return KeepCookie, Failed(RuntimeError);
        }
        var u := found.value;
        var e;
        c, e := HandleFaultyRefreshToken(u, Lists.Without(users[u].refreshToken, cookie));
        return c, Failed(e);
      }
      if found.None? {
        return ClearCookie, Failed(ReuseDetected);
      }
      var u := found.value;
      var accessFor;
      c, accessFor := HandleProperRefreshToken(u, Lists.Without(users[u].refreshToken, cookie), newToken);
      reply := Refreshed(accessFor);
    }

    /** `handleAccessTokenExpiryFromRoute`. */
    method HandleAccessTokenExpiryFromRoute(authorization: string, cookie: Token, verifyAccess: Token -> Verdict,
                                            verifyRefresh: Token -> Verdict, newToken: Token) returns (c: Cookie, reply: Reply)
      requires OwnersUnique(users)
      modifies this
      ensures Outcome(users, c, reply) == AccessExpiry(old(users), authorization, cookie, verifyAccess, verifyRefresh, newToken)
    {
      var token := AccessToken(authorization);
      if token.Err? {
        return KeepCookie, Failed(token.error);
      }
      c, reply := HandleAccessTokenExpiry(token.value, cookie, verifyAccess, verifyRefresh, newToken);
    }
  }
}
