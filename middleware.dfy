/** The HTTP middlewares in front of the handlers: the bearer-token
    extraction, the mandatory check (ModeratorMiddleware), the optional check
    (WithOptionalAuthCheck) and the CORS headers. A middleware either lets
    the chain go on with the user id it put into the request context, or
    aborts it with a status code; an index out of range in Go is a panic. */
module Middleware {
  import opened Common
  import Text
  import Jwt
  import Repository

  const BearerPrefix: string := "Bearer"

  /** What a middleware does with the request. */
  datatype Outcome =
    | Next(userId: string)
    | Abort(code: int)
    | Panic

  /** extractTokenFromHeader on the Authorization header: "" when the header
      is empty or its first space-separated field is not "Bearer", otherwise
      the second field; None stands for the panic of indexing a split with a
      single field. */
  function ExtractTokenFromHeader(header: string): (r: Option<string>)
    ensures r.Some? && r.value != "" ==> ' ' !in r.value
    ensures header == "" || Text.Split(header, ' ')[0] != BearerPrefix ==> r == Some("")
    ensures (header != "" && Text.Split(header, ' ')[0] == BearerPrefix && |Text.Split(header, ' ')| >= 2) ==>
      r == Some(Text.Split(header, ' ')[1])
  {
    if header == "" then Some("")
    else
      var parts := Text.Split(header, ' ');
      if parts[0] != BearerPrefix then Some("")
      else if |parts| < 2 then None
      else Some(parts[1])
  }

  /** A well-formed bearer header gives back its token. */
  lemma ExtractBearerToken(token: string)
    requires ' ' !in token
    ensures ExtractTokenFromHeader("Bearer " + token) == Some(token)
  {
    assert "Bearer " + token == BearerPrefix + [' '] + token;
    Text.SplitField(BearerPrefix, ' ', token);
    Text.SplitNoSep(token, ' ');
  }

  /** The extraction panics on exactly one header: "Bearer" with nothing
      after it. */
  lemma ExtractPanicsOnlyOnBareBearer(header: string)
    ensures ExtractTokenFromHeader(header).None? <==> header == BearerPrefix
  {
    if header == BearerPrefix {
      Text.SplitNoSep(header, ' ');
    }
    if header != "" {
      var parts := Text.Split(header, ' ');
      Text.JoinSplit(header, ' ');
      assert |parts| == 1 ==> Text.Join(parts, ' ') == parts[0];
    }
  }

  /** ModeratorMiddleware(allowedRole): the decision on one request, in the
      order of the source: token present, token valid, string user_id,
      not blacklisted (a store error aborts with 500), boolean is_moderator,
      and the moderator flag when allowedRole is set. */
  function ModeratorMiddleware(repo: Repository.Repository, allowedRole: bool, header: string,
                               verify: Jwt.Verifier, now: Time, storeFails: bool): (r: Outcome)
    reads repo`blacklist
    ensures r == Panic <==> header == BearerPrefix
    ensures r.Next? ==> ExtractTokenFromHeader(header).Some?
    ensures r.Next? ==>
      var token := ExtractTokenFromHeader(header).value;
      && token != ""
      && verify(token).Some?
      && "user_id" in verify(token).value && verify(token).value["user_id"] == Jwt.Str(r.userId)
      && repo.IsTokenBlacklisted(token, now, storeFails) == Ok(false)
      && "is_moderator" in verify(token).value && verify(token).value["is_moderator"].Bool?
      && (allowedRole ==> verify(token).value["is_moderator"] == Jwt.Bool(true))
    ensures ExtractTokenFromHeader(header) == Some("") ==> r == Abort(401)
    ensures ExtractTokenFromHeader(header).Some? && ExtractTokenFromHeader(header).value != "" ==>
      var token := ExtractTokenFromHeader(header).value;
      && (verify(token).None? ==> r == Abort(401))
      && ((verify(token).Some? && ("user_id" !in verify(token).value || !verify(token).value["user_id"].Str?))
            ==> r == Abort(401))
      && ((verify(token).Some? && "user_id" in verify(token).value && verify(token).value["user_id"].Str?
           && storeFails) ==> r == Abort(500))
    ensures r.Abort? ==> r.code == 401 || r.code == 403 || r.code == 500
    ensures r == Abort(500) ==> storeFails
    ensures r == Abort(403) ==>
      && ExtractTokenFromHeader(header).Some?
      && var token := ExtractTokenFromHeader(header).value;
      && allowedRole && verify(token).Some? && "is_moderator" in verify(token).value
      && verify(token).value["is_moderator"] == Jwt.Bool(false)
  {
    ExtractPanicsOnlyOnBareBearer(header);
    match ExtractTokenFromHeader(header)
    case None => Panic
    case Some(token) =>
      if token == "" then Abort(401)
      else match verify(token)
        case None => Abort(401)
        case Some(claims) =>
          if "user_id" !in claims || !claims["user_id"].Str? then Abort(401)
          else match repo.IsTokenBlacklisted(token, now, storeFails)
            case Err(_) => Abort(500)
            case Ok(blacklisted) =>
              if blacklisted then Abort(401)
              else if "is_moderator" !in claims || !claims["is_moderator"].Bool? then Abort(401)
              else if allowedRole && !claims["is_moderator"].b then Abort(403)
              else Next(claims["user_id"].s)
  }

  /** A token in the blacklist is refused with 401, however valid its
      signature and claims. */
  lemma BlacklistedTokenRejected(repo: Repository.Repository, allowedRole: bool, token: string,
                                 verify: Jwt.Verifier, now: Time)
    requires token != "" && ' ' !in token
    requires repo.IsTokenBlacklisted(token, now, false) == Ok(true)
    ensures ModeratorMiddleware(repo, allowedRole, "Bearer " + token, verify, now, false) == Abort(401)
  {
    ExtractBearerToken(token);
  }

  /** A valid, unrevoked token whose claims carry a string user id and a
      moderator flag passes, with that id, unless the route wants a
      moderator and the flag is false (403). */
  lemma ValidTokenAdmitted(repo: Repository.Repository, allowedRole: bool, token: string,
                           verify: Jwt.Verifier, now: Time, userId: string, isModerator: bool)
    requires token != "" && ' ' !in token
    requires verify(token).Some?
    requires "user_id" in verify(token).value && verify(token).value["user_id"] == Jwt.Str(userId)
    requires "is_moderator" in verify(token).value && verify(token).value["is_moderator"] == Jwt.Bool(isModerator)
    requires repo.IsTokenBlacklisted(token, now, false) == Ok(false)
    ensures ModeratorMiddleware(repo, allowedRole, "Bearer " + token, verify, now, false)
         == if allowedRole && !isModerator then Abort(403) else Next(userId)
  {
    ExtractBearerToken(token);
  }

  /** The user id WithOptionalAuthCheck writes for a user_id claim: a string
      as is, a float as %.0f, anything else as %v. */
  function ClaimText(v: Jwt.Value): (s: string)
    requires !v.Null?
    ensures v.Str? ==> s == v.s
    ensures v.Int? ==> s == Text.IntToString(v.i)
    ensures v.Float? ==> s == Text.FormatFixed0(v.f)
  {
    match v
    case Str(s) => s
    case Float(f) => Text.FormatFixed0(f)
    case Bool(b) => if b then "true" else "false"
    case Int(i) => Text.IntToString(i)
    case Number(t) => t
    case Other(repr) => repr
  }

  /** WithOptionalAuthCheck: anonymous access goes on with user_id "", and
      only a blacklist store error stops the request. The token is whatever
      follows "Bearer "; the blacklist is consulted before the signature. */
  function WithOptionalAuthCheck(repo: Repository.Repository, header: string,
                                 verify: Jwt.Verifier, now: Time, storeFails: bool): (r: Outcome)
    reads repo`blacklist
    ensures !r.Panic?
    ensures r.Abort? <==> Text.HasPrefix(header, "Bearer ") && storeFails
    ensures r.Abort? ==> r.code == 500
    ensures r.Next? && r.userId != "" ==> Text.HasPrefix(header, "Bearer ")
    ensures r.Next? && r.userId != "" ==>
      var token := header[7..];
      && repo.IsTokenBlacklisted(token, now, storeFails) == Ok(false)
      && verify(token).Some? && "user_id" in verify(token).value
  {
    if header == "" || !Text.HasPrefix(header, "Bearer ") then Next("")
    else
      var token := header[7..];
      match repo.IsTokenBlacklisted(token, now, storeFails)
      case Err(_) => Abort(500)
      case Ok(blacklisted) =>
        if blacklisted then Next("")
        else match verify(token)
          case None => Next("")
          case Some(claims) =>
            if "user_id" !in claims || claims["user_id"].Null? then Next("")
            else
              Next(ClaimText(claims["user_id"]))
  }

  /** On a well-formed bearer header the two checks agree: whenever the
      mandatory check lets a request through, the optional one does too, with
      the same user id. */
  lemma ChecksAgree(repo: Repository.Repository, token: string, verify: Jwt.Verifier, now: Time, storeFails: bool)
    requires ' ' !in token
    requires ModeratorMiddleware(repo, false, "Bearer " + token, verify, now, storeFails).Next?
    ensures WithOptionalAuthCheck(repo, "Bearer " + token, verify, now, storeFails)
         == ModeratorMiddleware(repo, false, "Bearer " + token, verify, now, storeFails)
  {
    ExtractBearerToken(token);
    assert ("Bearer " + token)[7..] == token;
  }

  /** A blacklisted token counts as no token at all for the optional check. */
  lemma BlacklistedTokenAnonymous(repo: Repository.Repository, token: string, verify: Jwt.Verifier, now: Time)
    requires repo.IsTokenBlacklisted(token, now, false) == Ok(true)
    ensures WithOptionalAuthCheck(repo, "Bearer " + token, verify, now, false) == Next("")
  {
    assert ("Bearer " + token)[7..] == token;
  }

  // ---- CORS ---------------------------------------------------------------

  const AllowedOrigins: seq<string> := [
    "http://localhost:3000",
    "tauri://localhost",
    "http://tauri.localhost",
    "http://localhost:8080",
    "http://localhost:9000",
    "http://*:9000"
  ]

  const AllowOrigin: string := "Access-Control-Allow-Origin"

  /** The headers the CORS middleware always ends up setting. */
  const CorsHeaders: map<string, string> := map[
    AllowOrigin := "*",
    "Access-Control-Allow-Credentials" := "true",
    "Access-Control-Allow-Headers" :=
      "Content-Type, Content-Length, Accept-Encoding, X-CSRF-Token, Authorization, Accept, Origin, Cache-Control, X-Requested-With",
    "Access-Control-Allow-Methods" := "POST, OPTIONS, GET, PUT, DELETE, PATCH",
    "Access-Control-Expose-Headers" := "Content-Length, Authorization"
  ]

  /** CORSMiddleware on one request: the origin is echoed when it is in the
      allowed list, then overwritten with "*" together with the other CORS
      headers; an OPTIONS request is aborted with 204. */
  method Cors(headers: map<string, string>, requestMethod: string, origin: string)
    returns (out: map<string, string>, abort: Option<int>)
    ensures out == headers + CorsHeaders
    ensures out[AllowOrigin] == "*"
    ensures abort == (if requestMethod == "OPTIONS" then Some(204) else None)
  {
    out := headers;
    var i := 0;
    while i < |AllowedOrigins|
      invariant 0 <= i <= |AllowedOrigins|
      invariant out == headers || (out == headers[AllowOrigin := origin] && origin in AllowedOrigins)
    {
      if origin == AllowedOrigins[i] {
        out := out[AllowOrigin := origin];
        break;
      }
      i := i + 1;
    }
    out := out[AllowOrigin := "*"];
    out := out["Access-Control-Allow-Credentials" := CorsHeaders["Access-Control-Allow-Credentials"]];
    out := out["Access-Control-Allow-Headers" := CorsHeaders["Access-Control-Allow-Headers"]];
    out := out["Access-Control-Allow-Methods" := CorsHeaders["Access-Control-Allow-Methods"]];
    out := out["Access-Control-Expose-Headers" := CorsHeaders["Access-Control-Expose-Headers"]];
    if requestMethod == "OPTIONS" {
      return out, Some(204);
    }
    return out, None;
  }
}
