# Paint-order service: a verified model of its repository and access layer

The service takes orders for paint. A customer browses a catalog of paints,
which are deleted softly. The customer collects paints into a draft request,
giving each line an area and a number of layers, and then forms the request.
A moderator completes or rejects a formed request. Completing it recomputes
how many litres of each paint the order needs:
area × hiding power × layers / 1000.

The repository exists in two snapshots of the same Go module:

- **The new snapshot** (`ssr_immemory/`) has UUID users and signs sessions
  as JWTs. Signing out revokes a token: its SHA-256 digest goes into a
  blacklist in a key-value store with a time to live. Two middlewares check
  the bearer token: a mandatory one and an optional one.
- **The old snapshot** (root `internal/`) has integer users. The signed-in
  user is one process-wide field of the repository.

## How the model is laid out

**State.** The tables of the new snapshot live in one class,
`Repository.Repository`. Each table is a map from primary key to row, with
an id sequence beside it:

- paints, paint requests, request lines and users;
- the key-value blacklist;
- the set of objects in the image bucket.

The paint operations come from the root `internal/app/repository/paint.go`,
the only paint repository in the module. They sit in the same class because
the new moderation path reads paints. The old snapshot's user store and
session field form the class `OldRepository.OldRepository`.

**Errors.** Errors are a `Result`/`Option` datatype over `Common.Error`:

- The sentinels `NotFound`, `AlreadyExists`, `NotAllowed` and `NoDraft` are
  distinct constructors.
- A validation message is `Invalid(text)`, with the source's own Russian
  text.
- The ORM's unwrapped not-found error is `RecordNotFound`.
- A database or store failure is `Store(text)`.

**ORM update semantics.** An ORM update from a struct skips zero-valued
fields, so it is modelled as a merge (`Ds.MergeRequest`, `Ds.MergeLine`,
`Ds.MergePaint`, `OldRepository.MergeProfile`). An update from a map writes
every column (the new `UpdateUserProfile`). The updated values are written
back into the Go struct the call was made on. So `FormRequest`,
`ChangeRequest` and `ModerateRequest` return the row as updated.

**What becomes a parameter:**

- Time is an integer count of nanoseconds (`Common.Time`), and the clock is
  a parameter `now`.
- SHA-256 is the function-typed field `digest` of the repository.
- JWT verification is a function parameter `verify`, from token text to
  the claims of a valid token.
- The failure of the object store or of the key-value store is a boolean
  parameter.
- The id the database generates for a new user is a parameter.
- Paint quantities are `real`.

**Modules:**

- `Ds`, `OldDs`, `ApiTypes` and `OldApiTypes`: records and JSON.
- `Hex`, `Uuid`, `Text` and `Listing`: helpers standing for Go library calls
  and for `ORDER BY id` over a table.
- `Blacklist` and `Jwt`: the key-value store and the claims.
- `MinioClient`: image object naming.
- `Repository` and `OldRepository`: the repositories.
- `Middleware` and `UserHandler`: the access layer.
- `AddPaintAsWritten`: the self-recursive add-to-request path as written.

**Behaviour of the code worth noting:**

- Deleting a draft goes through `FormRequest`, so it also stamps the form
  date.
- The old `UpdateUserProfile` can never change a user's moderator flag. A
  requested `true` is forced to `false` for a non-moderator, and the ORM then
  skips that `false` as a zero value.

## Model

| member | source | states |
|---|---|---|
| Ds.NewRequestDefaults | ssr_immemory/internal/app/ds/paint_request.go:10-17 | a request inserted with only a creator and a time is a draft with min_layers 1, that creation time, no form or finish date and no moderator |
| Ds.NewLineDefaults | internal/app/ds/requests_paint.go:7-9 | a line inserted with zero values stores area 0, layers 1 and quantity 0 |
| Ds.CascadeRequestDelete | internal/app/ds/requests_paint.go:10 | deleting a request removes exactly the lines referencing it, leaves the others unchanged and keeps the (request, paint) pairs unique |
| Ds.MergeZero | internal/app/repository/paint.go:79 | an update from the all-zero record writes nothing, for requests, lines and paints |
| Ds.MergeIdempotent | internal/app/repository/paint.go:79 | repeating the same struct update changes nothing more |
| Ds.MergeRequestCompose | ssr_immemory/internal/app/repository/paint_request.go:135-141 | two struct updates in a row equal one update with the later non-zero fields over the earlier |
| ApiTypes.PaintRoundTrip | ssr_immemory/internal/app/api_types/paint_json.go:14-33 | a paint survives ToJSON then FromJSON except that its id becomes 0 |
| ApiTypes.PaintJsonRoundTrip | ssr_immemory/internal/app/api_types/paint_json.go:14-33 | a paint JSON survives FromJSON then ToJSON except that its id becomes 0 |
| ApiTypes.PaintRequestToJSONFields | ssr_immemory/internal/app/api_types/paint_request_json.go:19-44 | each date is absent exactly when its column is null and otherwise carries the stored time; the moderator login is absent exactly when it is empty; id, status, creator login, min_layers and creation date are copied |
| ApiTypes.RequestsPaintRoundTrip | internal/app/api_types/requests_paint_json.go:14-31 | a line keeps its area, layers and quantity through JSON and loses its three ids |
| ApiTypes.UserRoundTrip | ssr_immemory/internal/app/api_types/user_json.go:15-30 | a user keeps login, password and moderator flag through JSON; the id becomes the Nil UUID |
| ApiTypes.UserJsonRoundTrip | ssr_immemory/internal/app/api_types/user_json.go:15-30 | a user JSON survives FromJSON then ToJSON with the Nil UUID as id |
| OldApiTypes.Int64OfUint64 | internal/app/api_types/user_json.go:15 | int(uint) keeps ids up to 2^63-1 and wraps larger ones to negative values; the result is an int64 |
| OldApiTypes.Int64OfUint64Injective | internal/app/api_types/user_json.go:15 | distinct uint ids give distinct JSON ids |
| OldApiTypes.UserRoundTrip | internal/app/api_types/user_json.go:13-28 | an old user keeps login, password and moderator flag through JSON; the id becomes 0 |
| OldDs.LoadPersist | internal/app/ds/paint_request.go:8-18 | a request read back from the table has every persisted column and min_layers 0, whatever it was set to |
| OldDs.PersistLoad | internal/app/ds/paint_request.go:8-18 | loading a row and saving it again writes the same row |
| OldDs.InsertedStatus | internal/app/ds/paint_request.go:10 | an empty status takes the column default 'черновик', and a given status is kept |
| Hex.Encode | ssr_immemory/internal/app/repository/repository.go:62 | the encoding has two lower-case hex digits per byte |
| Hex.DecodeEncode | ssr_immemory/internal/app/repository/repository.go:62 | decoding the encoding gives the bytes back |
| Hex.EncodeInjective | ssr_immemory/internal/app/repository/repository.go:62 | two byte strings have the same encoding exactly when they are equal |
| Uuid.ToString | ssr_immemory/internal/app/repository/user.go:103 | the text of a UUID has 36 characters |
| Uuid.Parse | ssr_immemory/internal/app/handler/user.go:242 | only texts of length 32, 36, 38 or 45 can parse |
| Uuid.ParseToString | ssr_immemory/internal/app/handler/user.go:242 | parsing the text written for a UUID gives that UUID back |
| Text.Split | ssr_immemory/internal/app/handler/middleware.go:183 | a split has at least one field and no field contains the separator |
| Text.JoinSplit | ssr_immemory/internal/app/handler/middleware.go:183 | joining the fields of a split gives the text back |
| Text.SplitField | ssr_immemory/internal/app/handler/middleware.go:183-187 | a first field without the separator is the first field of the split, and the rest is split separately |
| Text.Contains | internal/app/repository/paint.go:43 | a substring test holds exactly when the needle occurs at some position |
| Text.FoldString | internal/app/repository/paint.go:43 | case folding works character by character and keeps the length |
| Text.NatToString | internal/app/minioClient/minio.go:45 | the decimal text of a number is non-empty, all digits, and has no leading zero except for 0 itself |
| Text.DigitsValueOfNatToString | internal/app/minioClient/minio.go:45 | the decimal text reads back as the number |
| Text.ParseInt64 | ssr_immemory/internal/app/handler/user.go:262-267 | a parsed number is within int64 |
| Text.ParseIntToString | ssr_immemory/internal/app/handler/user.go:262-267 | every int64 written in decimal parses back to itself |
| Text.RoundHalfEven | ssr_immemory/internal/app/handler/middleware.go:165 | the rounded integer is within one half of the value, strictly unless the value lies halfway, and a halfway value rounds to the even integer |
| Listing.SelectIds | internal/app/repository/paint.go:19 | the selected ids are exactly the stored keys whose rows pass the filter, in ascending order |
| Listing.SelectRows | internal/app/repository/paint.go:19 | the selected rows are the rows of those ids, in the same order, and every passing row is among them |
| Listing.SelectCount | ssr_immemory/internal/app/repository/paint_request.go:192 | the selection has as many ids as there are passing keys |
| Listing.SelectSame | internal/app/repository/paint.go:41-48 | two filters that agree on every stored row select the same ids |
| Blacklist.KeyForToken | ssr_immemory/internal/app/repository/repository.go:60-63 | the key is "blacklist:" followed by two hex digits per digest byte |
| Blacklist.KeyForTokenInjective | ssr_immemory/internal/app/repository/repository.go:60-63 | two tokens share a key exactly when they share a digest |
| MinioClient.Ext | internal/app/minioClient/minio.go:31 | the extension is empty or a suffix of the path that starts with '.', has no other '.' and has no '/'; it is empty only when every '.' of the path is followed by a '/', i.e. the last element has no '.' |
| MinioClient.ExtForContentType | internal/app/minioClient/minio.go:32-43 | a guessed extension starts with '.' and has at least two characters |
| MinioClient.ImageExt | internal/app/minioClient/minio.go:31-43 | the file name's own extension wins whenever it has one; otherwise image/jpeg gives .jpg, image/png .png, image/gif .gif and anything else .bin |
| MinioClient.UploadPaintImage | internal/app/minioClient/minio.go:23-52 | the upload succeeds exactly when the transfer does, and then returns exactly "paint_" + the decimal id + the image extension |
| MinioClient.ObjectNameDeterminesId | internal/app/minioClient/minio.go:45 | distinct paints never share an object name, whatever files were uploaded |
| Repository.CalculatePaintQuantity | ssr_immemory/internal/app/repository/paint_request.go:172-180 | the result is an error exactly when area ≤ 0 (checked first) or layers ≤ 0; otherwise quantity × 1000 = area × hiding power × layers |
| Repository.QuantityPositive | ssr_immemory/internal/app/repository/paint_request.go:172-180 | a paint that covers at all needs a positive quantity for every accepted line |
| Repository.QuantityAdditiveInLayers | ssr_immemory/internal/app/repository/paint_request.go:179 | the quantity for l1 + l2 layers is the sum of the quantities for l1 and for l2 |
| Repository.LinesError | ssr_immemory/internal/app/repository/paint_request.go:125-132 | there is no error exactly when every line has a non-zero area and at least min_layers layers; an error is one of the two messages |
| Repository.FormOutcome | ssr_immemory/internal/app/repository/paint_request.go:110-146 | forming succeeds exactly on a draft that is being deleted, or whose min_layers > 0 and whose every line passes; a non-draft gives "cannot be"; the result has the new status (when given) and the form date |
| Repository.ModeratedRow | ssr_immemory/internal/app/repository/paint_request.go:226-233 | moderation writes the status, the finish date and the moderator, and nothing else |
| Repository.NewLine | internal/app/repository/paint.go:113-140 | the line the corrected AddPaintToRequest inserts (as the temp-repo copy of the new snapshot writes it) has the pair, area and layers (0 becomes 1) given, with quantity area × hiding power × layers / 1000 |
| Repository.QuantitiesKeepLinesValid | ssr_immemory/internal/app/repository/paint_request.go:252-254 | changing nothing but quantities keeps the line table's keys, references and unique pairs |
| Repository.InsertLineKeepsLinesValid | internal/app/ds/requests_paint.go:5-6 | inserting a line for a new pair under the next id keeps the pairs unique |
| Repository.ModerationKeepsRequestsValid | ssr_immemory/internal/app/repository/paint_request.go:226-233 | finishing a formed request keeps every request consistent and each creator's draft unique |
| Repository.RequestRewriteKeepsLinesValid | ssr_immemory/internal/app/repository/paint_request.go:226-233 | rewriting a request row keeps every line's reference to it |
| Repository.Repository.constructor | ssr_immemory/internal/app/repository/repository.go:32-55 | a new repository has empty tables, an empty bucket and an empty blacklist, and is valid |
| Repository.Repository.GetPaint | internal/app/repository/paint.go:30-40 | a paint is found exactly when the id is stored and not soft-deleted; otherwise NotFound |
| Repository.Repository.GetPaints | internal/app/repository/paint.go:17-28 | the result is an error exactly when no live paint exists; otherwise exactly the live paints, stored as they are, by ascending id |
| Repository.Repository.GetPaintsByTitle | internal/app/repository/paint.go:41-48 | exactly the live paints whose case-folded title contains the case-folded query, by ascending id |
| Repository.Repository.EmptyTitleListsCatalog | internal/app/repository/paint.go:17-48 | searching for the empty title gives the whole live catalog (or nothing when GetPaints fails) |
| Repository.Repository.CreatePaint | internal/app/repository/paint.go:50-63 | hiding power ≤ 0, then an empty title, are refused with nothing written; otherwise the paint is stored under the next id, and GetPaint finds it unless it was created deleted |
| Repository.Repository.ChangePaint | internal/app/repository/paint.go:64-84 | a negative id, a missing or deleted paint, and hiding power ≤ 0 are refused in that order with nothing written; otherwise the JSON's non-zero fields overwrite the paint, id kept |
| Repository.Repository.DeletePaint | internal/app/repository/paint.go:86-111 | a live paint's photo object is removed first; a failed removal leaves the paint live; on success the paint is marked deleted and GetPaint no longer finds it |
| Repository.Repository.UploadImage | internal/app/repository/paint.go:163-183 | a missing or deleted paint gives GetPaint's error; on success only the photo changes, to the object name "paint_<id><ext>", which is added to the bucket |
| Repository.Repository.GetPaintRequests | ssr_immemory/internal/app/repository/paint_request.go:17-34 | exactly the stored requests that are neither draft nor deleted, created after from and before to + 24h (each only when set), and of the status when given, by ascending id |
| Repository.Repository.ListingHidesDraftsAndDeleted | ssr_immemory/internal/app/repository/paint_request.go:19 | no listed request is a draft or deleted, and asking for either status lists nothing |
| Repository.Repository.RequestLineIds | ssr_immemory/internal/app/repository/paint_request.go:38 | the ascending ids of exactly the lines of the request |
| Repository.Repository.GetRequestPaints | ssr_immemory/internal/app/repository/paint_request.go:36-43 | exactly the stored lines of the request |
| Repository.Repository.LineOf | ssr_immemory/internal/app/repository/requests_paint.go:31 | the line of a (request, paint) pair is absent exactly when no line has that pair; otherwise it is the stored line |
| Repository.Repository.LineOfStored | internal/app/ds/requests_paint.go:5-6 | by the unique index, the lookup of a stored line's pair gives that line |
| Repository.Repository.GetSinglePaintRequest | ssr_immemory/internal/app/repository/paint_request.go:92-108 | a negative id is invalid, a missing id NotFound, a deleted request NotAllowed; otherwise the stored request |
| Repository.Repository.CheckCurrentRequestDraft | ssr_immemory/internal/app/repository/paint_request.go:62-71 | NoDraft exactly when the creator has no draft; otherwise a stored draft of that creator |
| Repository.Repository.GetPaintCount | ssr_immemory/internal/app/repository/paint_request.go:182-198 | 0 for the Nil creator or one without a draft, otherwise the number of lines of the draft |
| Repository.Repository.LineCount | ssr_immemory/internal/app/repository/paint_request.go:192 | the count of a request's line ids equals the number of its lines |
| Repository.Repository.GetRequestDraft | ssr_immemory/internal/app/repository/paint_request.go:73-90 | an existing draft is returned unchanged; otherwise a draft with that creator and time is inserted under the next id; created is true either way, and afterwards the draft is the creator's current one |
| Repository.Repository.FormRequest | ssr_immemory/internal/app/repository/paint_request.go:110-147 | the result is FormOutcome of the request found and its lines; only on success is the request row replaced; the tables stay valid |
| Repository.Repository.ChangeRequest | ssr_immemory/internal/app/repository/paint_request.go:149-169 | a negative id and min_layers ≤ 0 are refused before any lookup; a missing or deleted request is NotFound; otherwise only min_layers is written, whatever the status |
| Repository.Repository.ModerationTarget | ssr_immemory/internal/app/repository/paint_request.go:200-219 | the guards in source order: a status other than completed or rejected is refused; then the nil id, an unknown user (NotFound), a stored non-moderator (NotAllowed); then GetSinglePaintRequest's error; then a request not formed; it proceeds exactly when all pass |
| Repository.Repository.LineQuantity | ssr_immemory/internal/app/repository/paint_request.go:244-251 | a line's quantity exists exactly when its paint is live and its area and layers are positive, and then equals area × hiding power × layers / 1000 |
| Repository.Repository.Recompute | ssr_immemory/internal/app/repository/paint_request.go:243-258 | the quantity pass keeps the keys, changes only quantities, and leaves lines outside the pass unchanged |
| Repository.Repository.RecomputeOutcome | ssr_immemory/internal/app/repository/paint_request.go:243-258 | the pass succeeds exactly when every line has a quantity, and then every line holds it; otherwise its error is that of one of the lines |
| Repository.Repository.ModerateRequest | ssr_immemory/internal/app/repository/paint_request.go:200-262 | a wrong status, a non-moderator actor (NotAllowed) and a request not formed are refused with nothing written; otherwise the request row is finished first; a rejection returns it; a completion runs the quantity pass and fails with its error after the row write |
| Repository.Repository.FinishRequest | ssr_immemory/internal/app/repository/paint_request.go:221-261 | the writes of an accepted moderation: the finished row, then on completion the quantity pass; the tables stay valid |
| Repository.Repository.RecomputeQuantities | ssr_immemory/internal/app/repository/paint_request.go:243-258 | the lines and error after the loop are those of the quantity pass, and the line table stays valid |
| Repository.Repository.RecomputeLoop | ssr_immemory/internal/app/repository/paint_request.go:243-258 | the loop writes each line's quantity in turn and stops at the first failing line, giving exactly the quantity pass |
| Repository.Repository.DeletePaintFromRequest | ssr_immemory/internal/app/repository/requests_paint.go:12-27 | NotFound exactly when the request does not exist, whatever its status; otherwise exactly the pair's line is removed (or nothing, if there is none) and every other line is unchanged |
| Repository.Repository.ChangeRequestPaint | ssr_immemory/internal/app/repository/requests_paint.go:29-39 | NotFound exactly when the pair has no line; otherwise the JSON's non-zero area, layers and quantity are written into it, the ids are kept, and the re-read line is returned |
| Repository.Repository.AddPaintToRequest | internal/app/repository/paint.go:113-140 | a missing paint (deleted ones count) and then a missing request are NotFound; an existing pair is AlreadyExists with nothing written; otherwise, corrected, the line is inserted under the next id |
| Repository.Repository.GetUserByID | ssr_immemory/internal/app/repository/user.go:16-30 | the Nil UUID is refused; otherwise a user is found exactly when stored, else NotFound |
| Repository.Repository.GetUserByLogin | ssr_immemory/internal/app/repository/user.go:32-46 | an empty login is refused; NotFound exactly when no user has the login; otherwise a stored user with it |
| Repository.Repository.LoginLookup | ssr_immemory/internal/app/repository/user.go:32-46 | every stored user is found by their login |
| Repository.Repository.CreateUser | ssr_immemory/internal/app/repository/user.go:48-69 | an empty login, then an empty password, then a taken login are refused with nothing written; otherwise the user, moderator flag as given, is stored under the generated id and found by login |
| Repository.Repository.SignIn | ssr_immemory/internal/app/repository/user.go:71-113 | empty fields are refused; success exactly when a user has that login and the same password; an unknown login and a wrong password give the same error; the claims carry the user's id, stored moderator flag and exp one hour on |
| Repository.Repository.UpdateUserProfile | ssr_immemory/internal/app/repository/user.go:115-140 | the Nil id is refused, a missing user is NotFound; otherwise login, password and flag are all written, empty ones included, except that a non-moderator cannot become one |
| Repository.Repository.IsTokenBlacklisted | ssr_immemory/internal/app/repository/repository.go:73-80 | a store failure is an error; otherwise true exactly when the token's key is present now |
| Repository.Repository.AddTokenToBlacklist | ssr_immemory/internal/app/repository/repository.go:65-71 | ttl ≤ 0 writes nothing and succeeds; otherwise only the token's key is set with that ttl, so the token reads as blacklisted until now + ttl and not after |
| Middleware.ExtractTokenFromHeader | ssr_immemory/internal/app/handler/middleware.go:176-188 | "" for an empty header or a first field other than "Bearer"; otherwise the second space-separated field whenever there is one; a token contains no space |
| Middleware.ExtractBearerToken | ssr_immemory/internal/app/handler/middleware.go:176-188 | "Bearer <token>" gives the token back |
| Middleware.ExtractPanicsOnlyOnBareBearer | ssr_immemory/internal/app/handler/middleware.go:183-187 | the indexing panics on exactly one header: "Bearer" alone |
| Middleware.ModeratorMiddleware | ssr_immemory/internal/app/handler/middleware.go:50-107 | it panics exactly on "Bearer"; a missing token, an unverified token or a non-string user_id gives 401; past those, a failing blacklist store gives 500; 403 only when the route requires a moderator and the claim is false; it lets a request through only with a non-empty, verified, unrevoked token carrying a string user_id and a boolean is_moderator, true when the route requires it; aborts are 401, 403 or 500, and 500 only on a store failure |
| Middleware.BlacklistedTokenRejected | ssr_immemory/internal/app/handler/middleware.go:83-91 | a blacklisted token is refused with 401 however valid it is |
| Middleware.ValidTokenAdmitted | ssr_immemory/internal/app/handler/middleware.go:93-105 | a valid unrevoked token passes with its user id, except for 403 when the route requires a moderator and the flag is false |
| Middleware.ClaimText | ssr_immemory/internal/app/handler/middleware.go:160-168 | a string claim is kept as is, a float written with %.0f, an integer in decimal |
| Middleware.WithOptionalAuthCheck | ssr_immemory/internal/app/handler/middleware.go:109-173 | it never panics and aborts (500) exactly on a "Bearer " header with a failing store; a non-empty user id needs a verified, unrevoked token with a user_id claim |
| Middleware.ChecksAgree | ssr_immemory/internal/app/handler/middleware.go:50-173 | whenever the mandatory check admits a bearer token, the optional one admits it with the same user id |
| Middleware.BlacklistedTokenAnonymous | ssr_immemory/internal/app/handler/middleware.go:122-131 | a blacklisted token makes the optional check go on anonymously |
| Middleware.Cors | ssr_immemory/internal/app/handler/middleware.go:16-48 | the five CORS headers are set over the incoming ones, Allow-Origin ends as "*", and OPTIONS is aborted with 204 |
| UserHandler.GetUserIDFromContext | ssr_immemory/internal/app/handler/user.go:231-248 | a missing, non-string or non-UUID user_id gives its own error; otherwise the parsed UUID |
| UserHandler.UserIdRoundTrip | ssr_immemory/internal/app/handler/user.go:231-248 | the id a token carries comes back out of the context unchanged |
| UserHandler.TruncateTowardZero | ssr_immemory/internal/app/handler/user.go:259 | int64(f) drops the fraction toward zero |
| UserHandler.ExpSeconds | ssr_immemory/internal/app/handler/user.go:256-270 | an int exp is taken as is, a float one truncated, a json.Number gives the value of its int64 parse, and an unparsable one the number error; anything else is unsupported |
| UserHandler.GetTokenTTLFromClaims | ssr_immemory/internal/app/handler/user.go:250-278 | an absent exp is an error; success exactly when exp can be read and is not in the past, with ttl ≥ 0 and now + ttl = exp; a past exp is "token already expired" |
| UserHandler.FreshTokenTTL | ssr_immemory/internal/app/repository/user.go:105 | a token just signed has more than an hour less a second, and at most an hour, to live |
| UserHandler.TTLCountsDown | ssr_immemory/internal/app/handler/user.go:272-277 | the ttl shrinks one for one as the clock advances |
| UserHandler.FloatExpTruncated | ssr_immemory/internal/app/handler/user.go:258-259 | a float exp s + f with 0 ≤ f < 1 counts as the integer exp s |
| UserHandler.SignOut | ssr_immemory/internal/app/handler/user.go:190-228 | panic exactly on "Bearer"; 401 exactly for no token or an invalid one; 200 without a blacklist entry when the ttl cannot be worked out or is 0; otherwise the token is blacklisted for its ttl (500 on store failure) and the mandatory check then refuses it with 401 until it expires |
| UserHandler.GetProfile | ssr_immemory/internal/app/handler/user.go:117-137 | 401 on a bad context id, 404 exactly for an unknown user, and otherwise 200 with the stored user and the password blanked |
| UserHandler.ProfileOfStoredUser | ssr_immemory/internal/app/handler/user.go:117-137 | a stored user reached through the token's id gets their own profile without the password |
| UserHandler.ChangeProfile | ssr_immemory/internal/app/handler/user.go:152-178 | 401 on a bad context id, 404 exactly for an unknown user; on 200 the stored row is overwritten (the password kept in the table) and the answer blanks the password; nothing changes otherwise |
| UserHandler.SignedTokenReachesHandler | ssr_immemory/internal/app/handler/middleware.go:50-107 | a token signed for a user and not revoked passes the mandatory check with that user's id, and the handler reads the same user back |
| AddPaintAsWritten.AddPaintStep | internal/app/repository/paint.go:113-139 | one call either returns an error or, exactly for an existing paint and request without a line for the pair, calls itself again |
| AddPaintAsWritten.RunAsWritten | internal/app/repository/paint.go:113-139 | a call as written that returns at all returns an error |
| AddPaintAsWritten.AsWrittenNeverAdds | internal/app/repository/paint.go:139 | for an existing paint and request without a line for the pair, no depth of nested calls ever returns, so the line is never added |
| OldRepository.MergeProfile | internal/app/repository/user.go:138 | the struct update keeps the id, writes a non-empty login or password, and sets the flag only when true |
| OldRepository.MergeProfileIdempotent | internal/app/repository/user.go:138 | the empty update changes nothing, and repeating an update changes nothing more |
| OldRepository.OldRepository.constructor | internal/app/repository/repository.go:25-41 | a new repository has no users and nobody signed in (userId 0) |
| OldRepository.OldRepository.SetUserID | internal/app/repository/repository.go:47-49 | after SetUserID(id), GetUserID() is id |
| OldRepository.OldRepository.SignOut | internal/app/repository/repository.go:51-53 | sign-out sets GetUserID() to 0 and can change nothing else |
| OldRepository.OldRepository.GetUserByID | internal/app/repository/user.go:12-26 | id 0 is refused; a user is found exactly when stored; a missing one is the ORM's own not-found error, not the sentinel |
| OldRepository.OldRepository.GetUserByLogin | internal/app/repository/user.go:28-42 | an empty login is refused; NotFound exactly when no user has the login; otherwise a stored user with it |
| OldRepository.OldRepository.LoginLookup | internal/app/repository/user.go:28-42 | every stored user is found by their login |
| OldRepository.OldRepository.CreateUser | internal/app/repository/user.go:44-87 | an empty login, then an empty password, then a taken login are refused with nothing written; otherwise the user is stored under the next id and found by login |
| OldRepository.OldRepository.SignIn | internal/app/repository/user.go:89-115 | empty fields are refused; success exactly when a user has that login and password; an unknown login and a wrong password give the same error; success makes that user the session user, and failure leaves it |
| OldRepository.OldRepository.UpdateUserProfile | internal/app/repository/user.go:117-145 | id 0 is refused and a missing user is the ORM's not-found error; otherwise the merged row is written and read back, and the moderator flag never changes |

## Left out

- Database failures other than constraint violations are not modelled. The
  in-memory tables cannot fail; for the users table, a violated unique
  index or column length is `Store`. Only sentinel errors and validation messages are modelled; the
  formatted text of wrapped errors is not.
- Column lengths outside the users table are not checked: a request's
  `status` (varchar(20)) and a paint's `title` and `photo` (varchar(255) and
  varchar(500) in ssr_immemory(2)/temp-repo/internal/app/ds/paint.go:9-12)
  are stored whatever their length, where the database would
  refuse an over-long value.
- `ILIKE` is modelled as a substring test on case-folded text (ASCII and
  Cyrillic letters fold; other scripts do not). Its `%` and `_` wildcards
  inside the query are taken literally.
- Lists without `ORDER BY` (the lines of a request) are modelled in
  ascending id order.
- Paint quantities and hiding powers are exact reals. The rounding to
  decimal(8,2) and decimal(10,2) columns and float64 arithmetic are not
  modelled.
- `ON DELETE SET NULL` from a paint to its lines is not modelled. Paints are
  only ever soft-deleted, so the cascade never fires.
- JWT signing and verification are the parameter `verify`. SHA-256 is the
  parameter `digest`, with SHA-256 as defined in FIPS 180-4 not modelled.
- UserHandler.GetTokenTTLFromClaims: `time.Until` is exact nanosecond
  arithmetic. Go's saturation at the int64 duration range, the int64
  overflow of a huge float `exp`, and the key-value store rounding the ttl
  to milliseconds are not modelled.
- Concurrency is not modelled. The check-then-act races in GetRequestDraft
  and AddPaintToRequest do not arise in a sequential model.
- GetRequestPaintsList (ssr_immemory/internal/app/repository/paint_request.go:45-60)
  is not modelled. It looks lines up by the creator's UUID as a request id,
  which no data can satisfy.
- GetModeratorAndCreatorLogin, NewRepository's connections, the MinIO and
  Redis clients, and the entry points are not modelled.
- The HTTP handlers other than the user handlers' own logic are not
  modelled: JSON binding, routing, and the error-to-status mapping of the
  paint and request handlers.
- UserHandler.SignOut: the 400 answer for claims that are not a map is not
  modelled. The JWT library always hands back map claims here.
- UserHandler.ChangeProfile: the 400 answer for an unreadable JSON body is
  not modelled. The body comes in already decoded.
- Repository.Repository.UpdateUserProfile: an update of a row to the values
  it already has counts as a write; the database's no-op update is not
  distinguished.
- OldRepository.OldRepository.CreateUser: the id sequence is advanced only
  by a stored user. A PostgreSQL sequence also skips the value of a failed
  insert.
- Repository.Repository.UploadImage: an earlier photo object of the paint
  stays in the bucket. The model records only the new name being added,
  as the source does.
- AddPaintAsWritten.RunAsWritten: the endless self-call is cut off after
  `fuel` nested calls. In Go it ends with a stack overflow, which the model
  shows as `None` for every bound.
- OldRepository.OldRepository.GetUserID has no contract of its own. It is
  a read of the field, and SetUserID and SignIn state what it returns.
- The sentinel errors being distinct is not a separate lemma. They are
  distinct constructors of `Common.Error`.

## Findings

| source | as written | input that shows it | evidently intended | confidence | as-written member | corrected member |
|---|---|---|---|---|---|---|
| internal/app/repository/paint.go:139 | after the paint, the request and the absence of a line for the pair are checked, AddPaintToRequest calls itself with the same arguments instead of inserting, so it recurses until the stack overflows | any stored paint and stored request with no line for that (request, paint) pair | insert the line with area, layers and quantity area × hiding power × layers / 1000, as the other snapshot's AddPaintToRequest does (ssr_immemory(2)/temp-repo/internal/app/repository/paint.go:61-71) | high, not executed | AddPaintAsWritten.AsWrittenNeverAdds | Repository.Repository.AddPaintToRequest |
