/** The user handlers' own logic: reading the user id the middleware put
    into the request context, the lifetime left to a token from its exp
    claim, sign-out (which blacklists the token for that lifetime), and the
    profile handlers, which never send the password back. JSON binding and
    the mapping of repository errors to statuses are kept only as far as
    these handlers decide them. */
module UserHandler {
  import opened Common
  import opened Uuid
  import opened Ds
  import ApiTypes
  import Text
  import Jwt
  import Blacklist
  import Repository
  import Middleware

  const MsgNoUserId: string := "user_id not found in context"
  const MsgUserIdNotString: string := "user_id is not a string"
  const MsgBadUserId: string := "invalid user_id format"
  const MsgNoExp: string := "exp not present in token"
  const MsgBadExpNumber: string := "invalid exp number"
  const MsgExpType: string := "unsupported exp type"
  const MsgExpired: string := "token already expired"

  /** A handler's answer: a status with the user it sends back, or the panic
      of the header extraction. */
  datatype Reply = Reply(code: int, user: Option<User>) | Panic

  /** getUserIDFromContext: the context's user_id must be present, a string
      and a UUID. */
  function GetUserIDFromContext(v: Option<Jwt.Value>): (r: Result<Uuid>)
    ensures v.None? ==> r == Err(Invalid(MsgNoUserId))
    ensures v.Some? && !v.value.Str? ==> r == Err(Invalid(MsgUserIdNotString))
    ensures v.Some? && v.value.Str? ==> (r.Ok? <==> Parse(v.value.s).Some?)
    ensures r.Err? && v.Some? && v.value.Str? ==> r.error == Invalid(MsgBadUserId)
    ensures r.Ok? ==> v.Some? && v.value.Str? && Parse(v.value.s) == Some(r.value)
  {
    match v
    case None => Err(Invalid(MsgNoUserId))
    case Some(value) =>
      if !value.Str? then Err(Invalid(MsgUserIdNotString))
      else match Parse(value.s)
        case None => Err(Invalid(MsgBadUserId))
        case Some(id) => Ok(id)
  }

  /** The id a token carries comes back out of the context unchanged. */
  lemma UserIdRoundTrip(u: Uuid)
    ensures GetUserIDFromContext(Some(Jwt.Str(ToString(u)))) == Ok(u)
  {
    ParseToString(u);
  }

  /** Go's int64(f): the integer part, rounding toward zero. */
  function TruncateTowardZero(f: real): (i: int)
    ensures f >= 0.0 ==> i as real <= f < i as real + 1.0
    ensures f < 0.0 ==> i as real - 1.0 < f <= i as real
  {
    if f >= 0.0 then f.Floor else -((-f).Floor)
  }

  /** The whole Unix seconds of an exp claim, or why there are none. */
  function ExpSeconds(v: Jwt.Value): (r: Result<int>)
    ensures v.Int? ==> r == Ok(v.i)
    ensures v.Float? ==> r == Ok(TruncateTowardZero(v.f))
    ensures v.Number? ==> (r.Ok? <==> Text.ParseInt64(v.text).Some?)
    ensures v.Number? && r.Ok? ==> r.value == Text.ParseInt64(v.text).value
    ensures v.Number? && r.Err? ==> r.error == Invalid(MsgBadExpNumber)
    ensures !v.Int? && !v.Float? && !v.Number? ==> r == Err(Invalid(MsgExpType))
  {
    match v
    case Float(f) => Ok(TruncateTowardZero(f))
    case Int(i) => Ok(i)
    case Number(text) =>
      (match Text.ParseInt64(text)
       case None => Err(Invalid(MsgBadExpNumber))
       case Some(i) => Ok(i))
    case _ => Err(Invalid(MsgExpType))
  }

  /** getTokenTTLFromClaims: the time from now until the exp instant; an
      absent or unreadable exp or an instant already past is an error. */
  function GetTokenTTLFromClaims(claims: Jwt.Claims, now: Time): (r: Result<Duration>)
    ensures "exp" !in claims ==> r == Err(Invalid(MsgNoExp))
    ensures r.Ok? <==>
      "exp" in claims && ExpSeconds(claims["exp"]).Ok? && ExpSeconds(claims["exp"]).value * Second >= now
    ensures r.Ok? ==> r.value >= 0 && r.value + now == ExpSeconds(claims["exp"]).value * Second
    ensures "exp" in claims && ExpSeconds(claims["exp"]).Ok? && r.Err? ==> r.error == Invalid(MsgExpired)
  {
    if "exp" !in claims then Err(Invalid(MsgNoExp))
    else match ExpSeconds(claims["exp"])
      case Err(e) => Err(e)
      case Ok(exp) =>
        var ttl := exp * Second - now;
        if ttl < 0 then Err(Invalid(MsgExpired)) else Ok(ttl)
  }

  /** A token signed at `issued` has, at that instant, just under an hour
      to live: the hour, less the fraction of a second the expiry drops. */
  lemma {:induction false} FreshTokenTTL(u: Uuid, isModerator: bool, issued: Time)
    ensures var r := GetTokenTTLFromClaims(Repository.TokenClaims(u, isModerator, issued), issued);
      r.Ok? && Hour - Second < r.value <= Hour
  {
    var x := issued + Hour;
    assert x == (x / Second) * Second + x % Second;
    assert 0 <= x % Second < Second;
  }

  /** The lifetime shrinks one for one as the clock advances, until it is
      used up. */
  lemma TTLCountsDown(claims: Jwt.Claims, now: Time, later: Time)
    requires now <= later
    requires GetTokenTTLFromClaims(claims, later).Ok?
    ensures GetTokenTTLFromClaims(claims, now) == Ok(GetTokenTTLFromClaims(claims, later).value + (later - now))
  {
  }

  /** A float exp reads as the same whole seconds as the integer it
      truncates to. */
  lemma FloatExpTruncated(claims: Jwt.Claims, now: Time, seconds: nat, fraction: real)
    requires 0.0 <= fraction < 1.0
    ensures GetTokenTTLFromClaims(claims["exp" := Jwt.Float(seconds as real + fraction)], now)
         == GetTokenTTLFromClaims(claims["exp" := Jwt.Int(seconds)], now)
  {
    assert TruncateTowardZero(seconds as real + fraction) == seconds;
  }

  /** SignOut: the token of a bearer header is verified; a token whose
      lifetime cannot be worked out is answered as signed out without being
      blacklisted; otherwise it is blacklisted until it expires. */
  method SignOut(repo: Repository.Repository, header: string, verify: Jwt.Verifier, now: Time, storeFails: bool)
    returns (r: Reply)
    modifies repo`blacklist
    ensures r == Panic <==> header == Middleware.BearerPrefix
    ensures r != Reply(200, None) ==> repo.blacklist == old(repo.blacklist)
    ensures r.Reply? ==> r.user.None?
    ensures r.Reply? ==> r.code == 200 || r.code == 401 || r.code == 500
    ensures r.Reply? ==> Middleware.ExtractTokenFromHeader(header).Some?
    ensures r.Reply? ==> var token := Middleware.ExtractTokenFromHeader(header).value;
      && (r.code == 401 <==> token == "" || verify(token).None?)
      && (r.code == 500 <==>
            (&& token != "" && verify(token).Some? && storeFails
             && GetTokenTTLFromClaims(verify(token).value, now).Ok?
             && GetTokenTTLFromClaims(verify(token).value, now).value > 0))
    ensures r == Reply(200, None) ==> var token := Middleware.ExtractTokenFromHeader(header).value;
      && token != "" && verify(token).Some?
      && var ttl := GetTokenTTLFromClaims(verify(token).value, now);
      repo.blacklist == if ttl.Ok? && ttl.value > 0
        then old(repo.blacklist)[Blacklist.KeyForToken(repo.digest, token) := Blacklist.Entry("1", now + ttl.value)]
        else old(repo.blacklist)
    ensures r == Reply(200, None) && repo.blacklist != old(repo.blacklist) ==>
      var token := Middleware.ExtractTokenFromHeader(header).value;
      var ttl := GetTokenTTLFromClaims(verify(token).value, now).value;
      forall t, allowedRole :: now <= t < now + ttl ==>
        Middleware.ModeratorMiddleware(repo, allowedRole, header, verify, t, false) == Middleware.Abort(401)
  {
    Middleware.ExtractPanicsOnlyOnBareBearer(header);
    var extracted := Middleware.ExtractTokenFromHeader(header);
    if extracted.None? {
      return Panic;
    }
    var token := extracted.value;
    if token == "" {
      return Reply(401, None);
    }
    var claims := verify(token);
    if claims.None? {
      return Reply(401, None);
    }
    var ttl := GetTokenTTLFromClaims(claims.value, now);
    if ttl.Err? {
      return Reply(200, None);
    }
    var err := repo.AddTokenToBlacklist(token, ttl.value, now, storeFails);
    if err.Some? {
      return Reply(500, None);
    }
    return Reply(200, None);
  }

  /** GetProfile: the signed-in user, without the password. */
  function GetProfile(repo: Repository.Repository, userId: Option<Jwt.Value>): (r: Reply)
    reads repo`users
    ensures r.Reply?
    ensures r.user.Some? <==> r.code == 200
    ensures r.user.Some? ==> r.user.value.password == ""
    ensures GetUserIDFromContext(userId).Err? ==> r == Reply(401, None)
    ensures r.code == 200 ==>
      var id := GetUserIDFromContext(userId).value;
      id != Nil && id in repo.users && r.user.value == repo.users[id].(password := "")
    ensures r.code == 404 <==>
      GetUserIDFromContext(userId).Ok? && GetUserIDFromContext(userId).value != Nil
      && GetUserIDFromContext(userId).value !in repo.users
  {
    match GetUserIDFromContext(userId)
    case Err(_) => Reply(401, None)
    case Ok(id) =>
      match repo.GetUserByID(id)
      case Err(e) => if e == NotFound then Reply(404, None) else Reply(500, None)
      case Ok(user) => Reply(200, Some(user.(password := "")))
  }

  /** The profile of a stored user, reached through the id the middleware
      put into the context. */
  lemma ProfileOfStoredUser(repo: Repository.Repository, u: Uuid)
    requires u != Nil && u in repo.users
    ensures GetProfile(repo, Some(Jwt.Str(ToString(u)))) == Reply(200, Some(repo.users[u].(password := "")))
  {
    UserIdRoundTrip(u);
  }

  /** ChangeProfile: overwrites the signed-in user's login, password and
      moderator flag and answers with the new row, without the password;
      the stored row keeps it. */
  method ChangeProfile(repo: Repository.Repository, userId: Option<Jwt.Value>, json: ApiTypes.UserJSON)
    returns (r: Reply)
    requires repo.Valid()
    modifies repo`users
    ensures repo.Valid()
    ensures r.Reply?
    ensures r.user.Some? <==> r.code == 200
    ensures r.user.Some? ==> r.user.value.password == ""
    ensures r.code != 200 ==> repo.users == old(repo.users)
    ensures GetUserIDFromContext(userId).Err? ==> r == Reply(401, None)
    ensures r.code == 200 ==>
      var id := GetUserIDFromContext(userId).value;
      && id in old(repo.users)
      && repo.users == old(repo.users)[id := User(id, json.login, json.password, json.isModerator && old(repo.users)[id].isModerator)]
      && r.user == Some(repo.users[id].(password := ""))
    ensures r.code == 404 <==>
      GetUserIDFromContext(userId).Ok? && GetUserIDFromContext(userId).value != Nil
      && GetUserIDFromContext(userId).value !in old(repo.users)
  {
    var id := GetUserIDFromContext(userId);
    if id.Err? {
      return Reply(401, None);
    }
    var res := repo.UpdateUserProfile(id.value, json);
    if res.Err? {
      if res.error == NotFound {
        return Reply(404, None);
      }
      return Reply(500, None);
    }
    return Reply(200, Some(res.value.(password := "")));
  }

  /** From sign-in to handler: a token signed for a user and not revoked
      passes the middleware (unless the route wants a moderator and the user
      is not one), and the handler reads back the same user. */
  lemma SignedTokenReachesHandler(repo: Repository.Repository, allowedRole: bool, token: string,
                                  verify: Jwt.Verifier, u: Uuid, isModerator: bool, issued: Time, now: Time)
    requires token != "" && ' ' !in token
    requires verify(token) == Some(Repository.TokenClaims(u, isModerator, issued))
    requires repo.IsTokenBlacklisted(token, now, false) == Ok(false)
    requires !allowedRole || isModerator
    ensures Middleware.ModeratorMiddleware(repo, allowedRole, "Bearer " + token, verify, now, false)
         == Middleware.Next(ToString(u))
    ensures GetUserIDFromContext(Some(Jwt.Str(ToString(u)))) == Ok(u)
  {
    Middleware.ValidTokenAdmitted(repo, allowedRole, token, verify, now, ToString(u), isModerator);
    UserIdRoundTrip(u);
  }
}
