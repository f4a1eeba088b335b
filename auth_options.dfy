/** The next-auth configuration of the web client
    (todopalm-web/src/lib/util/authOptions.tsx): the credentials `authorize`
    step, the `signIn`, `session` and `jwt` callbacks. Every backend answer is an
    input; the clock is `nowMs`. */
module AuthOptions {
  import opened Common
  import JwtMiddleware

  /** The four fields the callbacks move between the backend's answer, the user,
      the token and the session. */
  datatype AuthFields = AuthFields(
    accessToken: Option<string>, refreshToken: Option<string>, expiresAt: Option<int>, id: Option<string>)

  datatype Credentials = Credentials(email: string, name: string, password: string)

  /** `fetch`'s answer: its status and its parsed JSON body. */
  datatype FetchReply<T> = FetchReply(status: int, body: T)
  {
    /** `Response.ok` */
    predicate Ok() { 200 <= status <= 299 }
  }

  /** authorize: no credentials give no user; otherwise the login endpoint is
      called, and its body is the user exactly when the answer is ok (a 401 in
      particular gives no user). */
  function Authorize(credentials: Option<Credentials>, login: FetchReply<AuthFields>): (user: Option<AuthFields>)
    ensures user.Some? <==> credentials.Some? && login.Ok()
    ensures user.Some? ==> user.value == login.body
    ensures login.status == 401 ==> user.None?
  {
    if credentials.None? then None
    else if login.status == 401 then None
    else if login.Ok() then Some(login.body)
    else None
  }

  /** The Google endpoint as `signIn` sees it: an exception (from `fetch` or from
      reading the body) or an answer. */
  datatype GoogleCall = Threw | Answered(reply: FetchReply<AuthFields>)

  /** The user object next-auth hands to the callbacks; `signIn` writes the
      backend's fields onto it. */
  class SignInUser {
    var fields: AuthFields

    constructor (fields: AuthFields)
      ensures this.fields == fields
    {
      this.fields := fields;
    }
  }

  /** The `signIn` callback. The credentials provider is accepted as it is; the
      Google provider is accepted exactly when the backend answers ok, and then the
      user carries the backend's four fields; any other or no provider is accepted
      unchanged. */
  method SignIn(provider: Option<string>, user: SignInUser, google: GoogleCall) returns (accepted: bool)
    modifies user
    ensures provider == Some("credentials") ==> accepted && user.fields == old(user.fields)
    ensures provider == Some("google") ==>
      (accepted <==> google.Answered? && google.reply.Ok()) &&
      (if accepted then user.fields == google.reply.body else user.fields == old(user.fields))
    ensures provider != Some("credentials") && provider != Some("google") ==> accepted && user.fields == old(user.fields)
  {
    if provider == Some("credentials") {
      return true;
    }
    if provider == Some("google") {
      if google.Threw? || !google.reply.Ok() {
        return false;
      }
      user.fields := google.reply.body;
      return true;
    }
    return true;
  }

  /** The session next-auth builds; `expires` is next-auth's own field. */
  datatype Session = Session(expires: string, fields: AuthFields)

  /** The `session` callback copies exactly the four fields of the token and keeps
      the rest of the session. */
  function SessionCallback(session: Session, token: AuthFields): (r: Session)
    ensures r.expires == session.expires
    ensures r.fields.accessToken == token.accessToken && r.fields.refreshToken == token.refreshToken
    ensures r.fields.expiresAt == token.expiresAt && r.fields.id == token.id
  {
    session.(fields := token)
  }

  /** The refresh endpoint's answer; a field the body lacks is None. */
  datatype Refreshed = Refreshed(accessToken: Option<string>, refreshToken: Option<string>, expiresAt: Option<int>)

  /** `token?.expiresAt && Math.floor(Date.now() / 1000) > token.expiresAt` */
  predicate ShouldRefresh(token: AuthFields, nowMs: int)
  {
    TruthyNumber(token.expiresAt) && JwtMiddleware.EpochSeconds(nowMs) > token.expiresAt.value
  }

  /** The token after the refresh answer: replaced only when the answer is ok and
      carries both tokens, and then all three of access token, refresh token and
      expiry come from the answer. */
  function ApplyRefresh(token: AuthFields, reply: FetchReply<Refreshed>): AuthFields
  {
    if reply.Ok() && Truthy(reply.body.accessToken) && Truthy(reply.body.refreshToken) then
      token.(accessToken := reply.body.accessToken, refreshToken := reply.body.refreshToken,
             expiresAt := reply.body.expiresAt)
    else token
  }

  /** The `jwt` callback: copy the user's fields when a user is present, then
      refresh when the expiry has passed. */
  function JwtCallback(token: AuthFields, user: Option<AuthFields>, nowMs: int, reply: FetchReply<Refreshed>): AuthFields
  {
    var t := if user.Some? then user.value else token;
    if ShouldRefresh(t, nowMs) then ApplyRefresh(t, reply) else t
  }

  /** Before its expiry second has passed (or without an expiry) the token is
      returned as it is, whatever the refresh endpoint would say. */
  lemma NoRefreshBeforeExpiry(token: AuthFields, nowMs: int, reply: FetchReply<Refreshed>)
    requires !ShouldRefresh(token, nowMs)
    ensures JwtCallback(token, None, nowMs, reply) == token
  {
  }

  /** A refresh never changes the user id; a failed or incomplete answer leaves the
      token as it was; a complete answer replaces the three fields together. */
  lemma RefreshOutcomes(token: AuthFields, nowMs: int, reply: FetchReply<Refreshed>)
    requires ShouldRefresh(token, nowMs)
    ensures JwtCallback(token, None, nowMs, reply).id == token.id
    ensures !reply.Ok() ==> JwtCallback(token, None, nowMs, reply) == token
    ensures !Truthy(reply.body.accessToken) || !Truthy(reply.body.refreshToken) ==>
      JwtCallback(token, None, nowMs, reply) == token
    ensures reply.Ok() && Truthy(reply.body.accessToken) && Truthy(reply.body.refreshToken) ==>
      JwtCallback(token, None, nowMs, reply) ==
        AuthFields(reply.body.accessToken, reply.body.refreshToken, reply.body.expiresAt, token.id)
  {
  }

  /** At sign-in the token takes the user's four fields, and is refreshed at once
      only if the user's expiry has already passed. */
  lemma SignInCopiesUser(token: AuthFields, user: AuthFields, nowMs: int, reply: FetchReply<Refreshed>)
    requires !ShouldRefresh(user, nowMs)
    ensures JwtCallback(token, Some(user), nowMs, reply) == user
  {
  }

  /** An expiry the backend issues with a fresh access token is one hour ahead, so
      the token just refreshed does not ask for another refresh for that hour;
      the expiry is tested strictly, so the refresh starts one second after it. */
  lemma FreshExpiryDefersRefresh(token: AuthFields, secrets: JwtMiddleware.Secrets, userId: Id, issuedMs: int, nowMs: int)
    requires token.expiresAt == Some(JwtMiddleware.GenerateAccessToken(secrets, userId, issuedMs).expiresAt)
    ensures ShouldRefresh(token, nowMs) <==>
      token.expiresAt.value != 0 &&
      JwtMiddleware.EpochSeconds(nowMs) > JwtMiddleware.EpochSeconds(issuedMs) + JwtMiddleware.ACCESS_LIFETIME
  {
  }

  /** The token next-auth keeps between requests; the `jwt` callback overwrites its
      fields in place. */
  class SessionToken {
    var fields: AuthFields

    constructor (fields: AuthFields)
      ensures this.fields == fields
    {
      this.fields := fields;
    }

    /** One run of the `jwt` callback. `requested` is the refresh token sent to the
        refresh endpoint, when one is sent; `reply` is that endpoint's answer. */
    method Jwt(user: Option<AuthFields>, nowMs: int, reply: FetchReply<Refreshed>) returns (requested: Option<Option<string>>)
      modifies this
      ensures fields == JwtCallback(old(fields), user, nowMs, reply)
      ensures requested.Some? <==> ShouldRefresh(if user.Some? then user.value else old(fields), nowMs)
      ensures requested.Some? ==> requested.value == (if user.Some? then user.value else old(fields)).refreshToken
    {
      if user.Some? {
        fields := fields.(accessToken := user.value.accessToken, refreshToken := user.value.refreshToken,
                          expiresAt := user.value.expiresAt, id := user.value.id);
      }
      requested := None;
      if TruthyNumber(fields.expiresAt) && JwtMiddleware.EpochSeconds(nowMs) > fields.expiresAt.value {
        requested := Some(fields.refreshToken);
        if !reply.Ok() {
          return;
        }
        var data := reply.body;
        if Truthy(data.accessToken) && Truthy(data.refreshToken) {
          fields := fields.(accessToken := data.accessToken);
          fields := fields.(refreshToken := data.refreshToken);
          fields := fields.(expiresAt := data.expiresAt);
        }
      }
    }
  }
}
