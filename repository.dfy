/** The repository of the new snapshot: the tables of paints, paint
    requests, request lines and users, the token blacklist in the key-value
    store and the set of objects in the image bucket, with the operations the
    handlers call on them. Each table is a map from primary key to row; the
    next* counters are the id sequences. Only constraint violations of the
    database are modelled as its errors; failures of the object store and of
    the key-value store are inputs. */
module Repository {
  import opened Common
  import opened Uuid
  import opened Ds
  import opened ApiTypes
  import Listing
  import Text
  import Blacklist
  import Jwt
  import MinioClient

  const MsgBadRequestId: string := "неверное id, должно быть >= 0"
  const MsgChangeBadId: string := "неправильное id, должно быть >= 0"
  const MsgBadMinLayers: string := "неправильное минимальное количество слоев"
  const MsgNoMinLayers: string := "вы не указали минимальное количество слоев"
  const MsgNoArea: string := "вы не указали площадь для краски"
  const MsgBadArea: string := "неправильная площадь"
  const MsgBadLayers: string := "неправильное количество слоев"
  const MsgBadStatus: string := "неверный статус"
  const MsgEmptyCatalog: string := "массив пустой"
  const MsgBadHidingPower: string := "неправильная укрывистость"
  const MsgEmptyTitle: string := "название не может быть пустым"
  const MsgBadPaintId: string := "id должно быть >= 0"
  const MsgNilUserId: string := "неверный id: не может быть пустым"
  const MsgEmptyLogin: string := "логин не может быть пустым"
  const MsgLoginRequired: string := "логин обязателен для заполнения"
  const MsgPasswordRequired: string := "пароль обязателен для заполнения"
  const MsgWrongCredentials: string := "неверный логин или пароль"
  const MsgBadProfileId: string := "неверный id пользователя"
  const MsgCreateUserFailed: string := "ошибка при создании пользователя"
  const MsgUpdateProfileFailed: string := "ошибка при обновлении профиля"
  const MsgRemoveFailed: string := "remove object failed"
  const MsgStoreFailed: string := "key-value store failed"

  function MsgCannotBe(status: string): string {
    "эта заявка не может быть " + status
  }

  function MsgFewLayers(minLayers: int): string {
    "количество слоев для краски должно быть не менее " + Text.IntToString(minLayers)
  }

  /** Litres of paint for a line: area times hiding power times layers,
      over 1000; a non-positive area or layer count is refused, area first. */
  function CalculatePaintQuantity(hidingPower: real, area: real, layers: int): (r: Result<real>)
    ensures r.Ok? <==> area > 0.0 && layers > 0
    ensures area <= 0.0 ==> r == Err(Invalid(MsgBadArea))
    ensures area > 0.0 && layers <= 0 ==> r == Err(Invalid(MsgBadLayers))
    ensures r.Ok? ==> r.value * 1000.0 == area * hidingPower * layers as real
  {
    if area <= 0.0 then Err(Invalid(MsgBadArea))
    else if layers <= 0 then Err(Invalid(MsgBadLayers))
    else Ok(area * hidingPower * layers as real / 1000.0)
  }

  /** A paint that covers at all needs a positive amount for any accepted line. */
  lemma QuantityPositive(hidingPower: real, area: real, layers: int)
    requires hidingPower > 0.0 && area > 0.0 && layers > 0
    ensures CalculatePaintQuantity(hidingPower, area, layers).Ok?
    ensures CalculatePaintQuantity(hidingPower, area, layers).value > 0.0
  {
    var q := CalculatePaintQuantity(hidingPower, area, layers).value;
    assert area * hidingPower > 0.0;
    assert area * hidingPower * layers as real > 0.0;
  }

  /** The quantity is additive in layers: painting l1 + l2 layers takes what
      painting l1 layers and then l2 more takes. */
  lemma QuantityAdditiveInLayers(hidingPower: real, area: real, l1: int, l2: int)
    requires area > 0.0 && l1 > 0 && l2 > 0
    ensures CalculatePaintQuantity(hidingPower, area, l1 + l2).value
         == CalculatePaintQuantity(hidingPower, area, l1).value + CalculatePaintQuantity(hidingPower, area, l2).value
  {
    var c := area * hidingPower;
    assert c * (l1 + l2) as real == c * l1 as real + c * l2 as real;
  }

  /** Request invariants that the operations keep: a request that left the
      draft state has a form date, and the finish date and the moderator are
      set together. */
  predicate RequestConsistent(r: PaintRequest) {
    && (r.status != Draft ==> r.dateForm.valid)
    && (r.dateFinish.valid <==> r.moderatorId.valid)
  }

  /** Keys are ids below the sequence; a stored paint has a title and a
      positive hiding power. */
  ghost predicate PaintsValid(paints: map<nat, Paint>, nextPaintId: nat) {
    forall k :: k in paints ==>
      k < nextPaintId && paints[k].id == k && paints[k].title != "" && paints[k].hidingPower > 0.0
  }

  /** Keys are ids below the sequence, every request is consistent, and
      each creator has at most one draft. */
  ghost predicate RequestsValid(requests: map<nat, PaintRequest>, nextRequestId: nat) {
    && (forall k :: k in requests ==> k < nextRequestId && requests[k].id == k && RequestConsistent(requests[k]))
    && DraftsUnique(requests)
  }

  /** Keys are ids below the sequence; lines reference existing requests and
      paints and are unique per (request, paint). */
  ghost predicate LinesValid(lines: map<nat, RequestsPaint>, nextLineId: nat,
                             requests: map<nat, PaintRequest>, paints: map<nat, Paint>) {
    && (forall k :: k in lines ==>
          k < nextLineId && lines[k].id == k && lines[k].requestId in requests && lines[k].paintId in paints)
    && LinePairsUnique(lines)
  }

  /** Users are stored under their ids, fit their columns and have unique
      logins. */
  ghost predicate UsersValid(users: map<Uuid, User>) {
    && (forall u :: u in users ==> users[u].id == u && UserFits(users[u]))
    && LoginsUnique(users)
  }

  /** Changing nothing but quantities keeps the lines table valid. */
  lemma QuantitiesKeepLinesValid(ls: map<nat, RequestsPaint>, ls': map<nat, RequestsPaint>, nextLineId: nat,
                                 requests: map<nat, PaintRequest>, paints: map<nat, Paint>)
    requires LinesValid(ls, nextLineId, requests, paints)
    requires ls'.Keys == ls.Keys
    requires forall k :: k in ls ==> ls'[k] == ls[k].(quantity := ls'[k].quantity)
    ensures LinesValid(ls', nextLineId, requests, paints)
  {
    forall a, b | a in ls' && b in ls' && a != b
      ensures ls'[a].requestId != ls'[b].requestId || ls'[a].paintId != ls'[b].paintId
    {
      assert ls'[a].requestId == ls[a].requestId && ls'[a].paintId == ls[a].paintId;
      assert ls'[b].requestId == ls[b].requestId && ls'[b].paintId == ls[b].paintId;
    }
  }

  /** The line AddPaintToRequest inserts: the pair, the area and the layers
      given, and the quantity area * hiding power * layers / 1000; a zero
      layer count takes the column default of 1. */
  function NewLine(requestId: nat, paintId: nat, area: real, layers: int, hidingPower: real, id: nat): (l: RequestsPaint)
    ensures l.id == id && l.requestId == requestId && l.paintId == paintId && l.area == area
    ensures l.layers == (if layers == 0 then 1 else layers)
    ensures l.quantity == area * hidingPower * layers as real / 1000.0
  {
    InsertedLine(ZeroLine.(requestId := requestId, paintId := paintId, area := area, layers := layers,
                           quantity := area * hidingPower * layers as real / 1000.0), id)
  }

  /** Inserting a line for a new pair under the next id keeps the lines
      table valid. */
  lemma InsertLineKeepsLinesValid(ls: map<nat, RequestsPaint>, nextLineId: nat,
                                  requests: map<nat, PaintRequest>, paints: map<nat, Paint>, row: RequestsPaint)
    requires LinesValid(ls, nextLineId, requests, paints)
    requires row.id == nextLineId && row.requestId in requests && row.paintId in paints
    requires forall k :: k in ls ==> !(ls[k].requestId == row.requestId && ls[k].paintId == row.paintId)
    ensures LinesValid(ls[row.id := row], nextLineId + 1, requests, paints)
  {
    var ls' := ls[row.id := row];
    forall a, b | a in ls' && b in ls' && a != b
      ensures ls'[a].requestId != ls'[b].requestId || ls'[a].paintId != ls'[b].paintId
    {
      if a != row.id && b != row.id {
        assert ls'[a] == ls[a] && ls'[b] == ls[b];
      }
    }
  }

  /** Finishing a formed request keeps the requests table valid. */
  lemma ModerationKeepsRequestsValid(requests: map<nat, PaintRequest>, nextRequestId: nat, rid: nat,
                                     status: string, moderator: Uuid, now: Time)
    requires RequestsValid(requests, nextRequestId)
    requires rid in requests && requests[rid].status == Formed
    requires status == Completed || status == Rejected
    ensures RequestsValid(requests[rid := ModeratedRow(requests[rid], status, moderator, now)], nextRequestId)
  {
  }

  /** Rewriting a request in place keeps the lines that reference it valid. */
  lemma RequestRewriteKeepsLinesValid(lines: map<nat, RequestsPaint>, nextLineId: nat,
                                      requests: map<nat, PaintRequest>, paints: map<nat, Paint>,
                                      rid: nat, row: PaintRequest)
    requires LinesValid(lines, nextLineId, requests, paints)
    requires rid in requests
    ensures LinesValid(lines, nextLineId, requests[rid := row], paints)
  {
  }

  /** Each creator has at most one draft. */
  ghost predicate DraftsUnique(requests: map<nat, PaintRequest>) {
    forall a, b ::
      (a in requests && b in requests && requests[a].status == Draft && requests[b].status == Draft
       && requests[a].creatorId == requests[b].creatorId) ==> a == b
  }

  /** The WHERE clause of the request list: neither deleted nor a draft,
      created strictly after from and strictly before the day after to (each
      bound only when it is not the zero time), and of the given status when
      one is given. */
  predicate Listed(r: PaintRequest, from: Time, to: Time, status: string) {
    && r.status != Deleted && r.status != Draft
    && (from != ZeroTime ==> r.dateCreate > from)
    && (to != ZeroTime ==> r.dateCreate < to + 24 * Hour)
    && (status != "" ==> r.status == status)
  }

  function ListedFilter(from: Time, to: Time, status: string): PaintRequest -> bool {
    (r: PaintRequest) => Listed(r, from, to, status)
  }

  function DraftOf(creator: Uuid): PaintRequest -> bool {
    (r: PaintRequest) => r.creatorId == creator && r.status == Draft
  }

  function OfRequest(rid: nat): RequestsPaint -> bool {
    (l: RequestsPaint) => l.requestId == rid
  }

  function OfPair(rid: nat, pid: nat): RequestsPaint -> bool {
    (l: RequestsPaint) => l.requestId == rid && l.paintId == pid
  }

  predicate Live(p: Paint) {
    !p.isDelete
  }

  /** title ILIKE '%' || t || '%' on a live paint. */
  predicate TitleMatches(t: string, p: Paint) {
    !p.isDelete && Text.Contains(Text.FoldString(p.title), Text.FoldString(t))
  }

  function TitleFilter(t: string): Paint -> bool {
    (p: Paint) => TitleMatches(t, p)
  }

  /** The checks FormRequest makes on the lines of a request, in order: the
      first line without an area, or with fewer layers than the request's
      minimum, gives the error. */
  function LinesError(ls: seq<RequestsPaint>, minLayers: int): (e: Option<Error>)
    ensures e.None? <==> forall i :: 0 <= i < |ls| ==> ls[i].area != 0.0 && ls[i].layers >= minLayers
    ensures e.Some? ==> e.value == Invalid(MsgNoArea) || e.value == Invalid(MsgFewLayers(minLayers))
  {
    if ls == [] then None
    else if ls[0].area == 0.0 then Some(Invalid(MsgNoArea))
    else if ls[0].layers < minLayers then Some(Invalid(MsgFewLayers(minLayers)))
    else LinesError(ls[1..], minLayers)
  }

  /** The update FormRequest writes: the status when it is not empty, and the
      form date. */
  function FormedRow(r: PaintRequest, status: string, now: Time): PaintRequest {
    MergeRequest(r, ZeroRequest.(status := status, dateForm := NullTime(now, true)))
  }

  /** What FormRequest returns for the request it found (or the error finding
      it gave) and that request's lines. */
  function FormOutcome(found: Result<PaintRequest>, status: string, ls: seq<RequestsPaint>, now: Time): (res: Result<PaintRequest>)
    ensures found.Err? ==> res == found
    ensures found.Ok? && found.value.status != Draft ==> res == Err(Invalid(MsgCannotBe(status)))
    ensures res.Ok? <==>
      && found.Ok? && found.value.status == Draft
      && (status == Deleted
          || (found.value.minLayers > 0
              && forall i :: 0 <= i < |ls| ==> ls[i].area != 0.0 && ls[i].layers >= found.value.minLayers))
    ensures res.Ok? ==> res.value == found.value.(status := if status == "" then Draft else status,
                                                  dateForm := NullTime(now, true))
  {
    match found
    case Err(e) => Err(e)
    case Ok(r) =>
      if r.status != Draft then Err(Invalid(MsgCannotBe(status)))
      else if status != Deleted && r.minLayers <= 0 then Err(Invalid(MsgNoMinLayers))
      else if status != Deleted && LinesError(ls, r.minLayers).Some? then Err(LinesError(ls, r.minLayers).value)
      else Ok(FormedRow(r, status, now))
  }

  /** The update ModerateRequest writes: status, finish date and moderator. */
  function ModeratedRow(r: PaintRequest, status: string, moderator: Uuid, now: Time): (row: PaintRequest)
    requires status != ""
    ensures row == r.(status := status, dateFinish := NullTime(now, true), moderatorId := NullUuid(moderator, true))
  {
    MergeRequest(r, ZeroRequest.(status := status, dateFinish := NullTime(now, true),
                                 moderatorId := NullUuid(moderator, true)))
  }

  /** The update of a line's quantity (skipped when the quantity is zero). */
  function WithQuantity(l: RequestsPaint, q: real): RequestsPaint {
    MergeLine(l, ZeroLine.(quantity := q))
  }

  /** The claims GenerateToken signs: authorized, the user's id as text, the
      moderator flag, and an expiry one hour from now in whole Unix seconds. */
  function TokenClaims(userId: Uuid, isModerator: bool, now: Time): Jwt.Claims {
    map["authorized" := Jwt.Bool(true),
        "user_id" := Jwt.Str(ToString(userId)),
        "is_moderator" := Jwt.Bool(isModerator),
        "exp" := Jwt.Int((now + Hour) / Second)]
  }

  class Repository {
    var paints: map<nat, Paint>
    var nextPaintId: nat
    var requests: map<nat, PaintRequest>
    var nextRequestId: nat
    var lines: map<nat, RequestsPaint>
    var nextLineId: nat
    var users: map<Uuid, User>
    /** Key-value store: key to value and expiry. */
    var blacklist: map<string, Blacklist.Entry>
    /** Object names in the image bucket. */
    var objects: set<string>
    /** SHA-256 of a token's bytes. */
    const digest: string -> seq<bv8>

    ghost predicate Valid()
      reads this
    {
      && PaintsValid(paints, nextPaintId)
      && RequestsValid(requests, nextRequestId)
      && LinesValid(lines, nextLineId, requests, paints)
      && UsersValid(users)
    }

    /** An empty database and bucket. */
    constructor (digest: string -> seq<bv8>)
      ensures Valid()
      ensures this.digest == digest
      ensures paints == map[] && requests == map[] && lines == map[] && users == map[]
      ensures blacklist == map[] && objects == {}
    {
      this.digest := digest;
      paints, requests, lines, users := map[], map[], map[], map[];
      nextPaintId, nextRequestId, nextLineId := 1, 1, 1;
      blacklist, objects := map[], {};
    }

    // ---- paints -----------------------------------------------------------

    /** GetPaint: the live paint with that id. */
    function GetPaint(id: int): (r: Result<Paint>)
      reads this`paints
      ensures r.Ok? <==> 0 <= id && id in paints && !paints[id].isDelete
      ensures r.Ok? ==> r.value == paints[id]
      ensures r.Err? ==> r.error == NotFound
    {
      if 0 <= id && id in paints && !paints[id].isDelete then Ok(paints[id]) else Err(NotFound)
    }

    /** GetPaints: the live catalog by id, or an error when it is empty. */
    function GetPaints(): (r: Result<seq<Paint>>)
      reads this
      requires Valid()
      ensures r.Err? <==> forall k :: k in paints ==> paints[k].isDelete
      ensures r.Err? ==> r.error == Invalid(MsgEmptyCatalog)
      ensures r.Ok? ==> forall i :: 0 <= i < |r.value| ==>
        r.value[i].id in paints && paints[r.value[i].id] == r.value[i] && !r.value[i].isDelete
      ensures r.Ok? ==> forall k :: k in paints && !paints[k].isDelete ==> paints[k] in r.value
      ensures r.Ok? ==> forall i, j :: 0 <= i < j < |r.value| ==> r.value[i].id < r.value[j].id
    {
      var ps := Listing.SelectRows(paints, nextPaintId, Live);
      if |ps| == 0 then
        Err(Invalid(MsgEmptyCatalog))
      else
        assert Live(paints[Listing.SelectIds(paints, nextPaintId, Live)[0]]);
        Ok(ps)
    }

    /** GetPaintsByTitle: live paints whose title contains the text, ignoring
        case, by id. */
    function GetPaintsByTitle(title: string): (ps: seq<Paint>)
      reads this
      requires Valid()
      ensures forall i :: 0 <= i < |ps| ==> ps[i].id in paints && paints[ps[i].id] == ps[i] && TitleMatches(title, ps[i])
      ensures forall k :: k in paints && TitleMatches(title, paints[k]) ==> paints[k] in ps
      ensures forall i, j :: 0 <= i < j < |ps| ==> ps[i].id < ps[j].id
    {
      Listing.SelectRows(paints, nextPaintId, TitleFilter(title))
    }

    /** Searching for the empty title lists the whole live catalog. */
    lemma EmptyTitleListsCatalog()
      requires Valid()
      ensures GetPaints().Ok? ==> GetPaintsByTitle("") == GetPaints().value
      ensures GetPaints().Err? ==> GetPaintsByTitle("") == []
    {
      forall k | k in paints
        ensures TitleFilter("")(paints[k]) == Live(paints[k])
      {
        var t := Text.FoldString(paints[k].title);
        assert Text.FoldString("") == "";
        assert Text.MatchAt(t, "", 0);
      }
      Listing.SelectSame(paints, nextPaintId, TitleFilter(""), Live);
    }

    /** CreatePaint: a paint with a positive hiding power and a title is
        stored under the next id. */
    method CreatePaint(json: PaintJSON) returns (res: Result<Paint>)
      requires Valid()
      modifies this`paints, this`nextPaintId
      ensures Valid()
      ensures json.hidingPower <= 0.0 ==> res == Err(Invalid(MsgBadHidingPower))
      ensures json.hidingPower > 0.0 && json.title == "" ==> res == Err(Invalid(MsgEmptyTitle))
      ensures res.Ok? <==> json.hidingPower > 0.0 && json.title != ""
      ensures res.Ok? ==> res.value == PaintFromJSON(json).(id := old(nextPaintId))
      ensures res.Ok? ==> paints == old(paints)[res.value.id := res.value] && nextPaintId == old(nextPaintId) + 1
      ensures res.Err? ==> paints == old(paints) && nextPaintId == old(nextPaintId)
      ensures res.Ok? && !json.isDelete ==> GetPaint(res.value.id) == res
    {
      var p := PaintFromJSON(json);
      if p.hidingPower <= 0.0 {
        return Err(Invalid(MsgBadHidingPower));
      }
      if p.title == "" {
        return Err(Invalid(MsgEmptyTitle));
      }
      var row := p.(id := nextPaintId);
      paints := paints[nextPaintId := row];
      nextPaintId := nextPaintId + 1;
      return Ok(row);
    }

    /** ChangePaint: on a live paint, with a positive hiding power, writes the
        JSON's non-zero fields. */
    method ChangePaint(id: int, json: PaintJSON) returns (res: Result<Paint>)
      requires Valid()
      modifies this`paints
      ensures Valid()
      ensures id < 0 ==> res == Err(Invalid(MsgBadPaintId))
      ensures 0 <= id && old(GetPaint(id)).Err? ==> res == Err(NotFound)
      ensures res.Ok? <==> 0 <= id && old(GetPaint(id)).Ok? && json.hidingPower > 0.0
      ensures res.Ok? ==> res.value == MergePaint(old(paints)[id], PaintFromJSON(json))
      ensures res.Ok? ==> res.value.id == id && res.value.hidingPower == json.hidingPower
      ensures res.Ok? ==> paints == old(paints)[id := res.value]
      ensures res.Err? ==> paints == old(paints)
    {
      if id < 0 {
        return Err(Invalid(MsgBadPaintId));
      }
      var found := GetPaint(id);
      if found.Err? {
        return Err(NotFound);
      }
      if json.hidingPower <= 0.0 {
        return Err(Invalid(MsgBadHidingPower));
      }
      var row := MergePaint(found.value, PaintFromJSON(json));
      paints := paints[id := row];
      return Ok(row);
    }

    /** DeletePaint: removes the live paint's image from the bucket, then
        marks the paint deleted. */
    method DeletePaint(id: int, removeFails: bool) returns (err: Option<Error>)
      requires Valid()
      modifies this`paints, this`objects
      ensures Valid()
      ensures id < 0 ==> err == Some(Invalid(MsgBadPaintId))
      ensures 0 <= id && old(GetPaint(id)).Err? ==> err == Some(NotFound)
      ensures old(GetPaint(id)).Ok? && old(paints)[id].photo != "" && removeFails ==> err == Some(Store(MsgRemoveFailed))
      ensures err.None? <==> old(GetPaint(id)).Ok? && (old(paints)[id].photo == "" || !removeFails)
      ensures err.None? ==> paints == old(paints)[id := old(paints)[id].(isDelete := true)]
      ensures err.None? ==> objects == old(objects) - {old(paints)[id].photo} || old(paints)[id].photo == ""
      ensures err.None? && old(paints)[id].photo == "" ==> objects == old(objects)
      ensures err.None? ==> GetPaint(id).Err?
      ensures err.Some? ==> paints == old(paints) && objects == old(objects)
    {
      if id < 0 {
        return Some(Invalid(MsgBadPaintId));
      }
      var found := GetPaint(id);
      if found.Err? {
        return Some(NotFound);
      }
      var p := found.value;
      if p.photo != "" {
        if removeFails {
          return Some(Store(MsgRemoveFailed));
        }
        objects := objects - {p.photo};
      }
      paints := paints[id := p.(isDelete := true)];
      return None;
    }

    /** UploadImage: stores the image of a live paint as "paint_<id><ext>"
        and points the paint's photo at it. */
    method UploadImage(paintId: int, fileName: string, contentType: string, uploadFails: bool)
      returns (res: Result<Paint>)
      requires Valid()
      modifies this`paints, this`objects
      ensures Valid()
      ensures old(GetPaint(paintId)).Err? ==> res == old(GetPaint(paintId))
      ensures res.Ok? <==> old(GetPaint(paintId)).Ok? && !uploadFails
      ensures res.Ok? ==> var name := MinioClient.ObjectName(paintId, fileName, contentType);
        && res.value == old(paints)[paintId].(photo := name)
        && paints == old(paints)[paintId := res.value]
        && objects == old(objects) + {name}
      ensures res.Ok? ==> GetPaint(paintId) == res && res.value.photo in objects
      ensures res.Err? ==> paints == old(paints) && objects == old(objects)
    {
      var found := GetPaint(paintId);
      if found.Err? {
        return found;
      }
      var upload := MinioClient.UploadPaintImage(found.value.id, fileName, contentType, uploadFails);
      if upload.Err? {
        return Err(upload.error);
      }
      objects := objects + {upload.value};
      var row := found.value.(photo := upload.value);
      paints := paints[paintId := row];
      return Ok(row);
    }

    // ---- requests ---------------------------------------------------------

    /** GetPaintRequests: formed, completed and rejected requests in the
        date window and of the status asked for, by id. */
    function GetPaintRequests(from: Time, to: Time, status: string): (rs: seq<PaintRequest>)
      reads this
      requires Valid()
      ensures forall i :: 0 <= i < |rs| ==>
        rs[i].id in requests && requests[rs[i].id] == rs[i] && Listed(rs[i], from, to, status)
      ensures forall k :: k in requests && Listed(requests[k], from, to, status) ==> requests[k] in rs
      ensures forall i, j :: 0 <= i < j < |rs| ==> rs[i].id < rs[j].id
    {
      Listing.SelectRows(requests, nextRequestId, ListedFilter(from, to, status))
    }

    /** Neither drafts nor deleted requests are ever listed, whatever the
        filter asks for. */
    lemma ListingHidesDraftsAndDeleted(from: Time, to: Time, status: string)
      requires Valid()
      ensures forall r :: r in GetPaintRequests(from, to, status) ==> r.status != Draft && r.status != Deleted
      ensures GetPaintRequests(from, to, Draft) == [] && GetPaintRequests(from, to, Deleted) == []
    {
      var rs := GetPaintRequests(from, to, status);
      forall r | r in rs ensures r.status != Draft && r.status != Deleted {
        var i :| 0 <= i < |rs| && rs[i] == r;
      }
      var d := GetPaintRequests(from, to, Draft);
      assert |d| > 0 ==> Listed(d[0], from, to, Draft);
      var x := GetPaintRequests(from, to, Deleted);
      assert |x| > 0 ==> Listed(x[0], from, to, Deleted);
    }

    /** The ids of a request's lines, ascending. */
    function RequestLineIds(rid: nat): (ids: seq<nat>)
      reads this`lines, this`nextLineId
      ensures forall i :: 0 <= i < |ids| ==> ids[i] in lines && lines[ids[i]].requestId == rid
      ensures forall i, j :: 0 <= i < j < |ids| ==> ids[i] < ids[j]
      ensures forall k :: k in lines && k < nextLineId && lines[k].requestId == rid ==> k in ids
    {
      Listing.SelectIds(lines, nextLineId, OfRequest(rid))
    }

    /** GetRequestPaints: the lines of a request. */
    function GetRequestPaints(rid: nat): (ls: seq<RequestsPaint>)
      reads this
      requires Valid()
      ensures forall i :: 0 <= i < |ls| ==> ls[i].id in lines && lines[ls[i].id] == ls[i] && ls[i].requestId == rid
      ensures forall k :: k in lines && lines[k].requestId == rid ==> lines[k] in ls
    {
      Listing.SelectRows(lines, nextLineId, OfRequest(rid))
    }

    /** The line for a (request, paint) pair; the unique index allows one. */
    function LineOf(rid: nat, pid: nat): (l: Option<RequestsPaint>)
      reads this
      requires Valid()
      ensures l.None? <==> forall k :: k in lines ==> !(lines[k].requestId == rid && lines[k].paintId == pid)
      ensures l.Some? ==>
        l.value.id in lines && lines[l.value.id] == l.value && l.value.requestId == rid && l.value.paintId == pid
    {
      var ls := Listing.SelectRows(lines, nextLineId, OfPair(rid, pid));
      if |ls| == 0 then
        None
      else
        Some(ls[0])
    }

    /** The line of a pair is the one line stored for it. */
    lemma LineOfStored(k: nat)
      requires Valid() && k in lines
      ensures LineOf(lines[k].requestId, lines[k].paintId) == Some(lines[k])
    {
      var l := LineOf(lines[k].requestId, lines[k].paintId);
      assert l.Some?;
      assert l.value.id == k;
    }

    /** GetSinglePaintRequest: a request that exists and is not deleted. */
    function GetSinglePaintRequest(id: int): (r: Result<PaintRequest>)
      reads this`requests
      ensures id < 0 ==> r == Err(Invalid(MsgBadRequestId))
      ensures 0 <= id && id !in requests ==> r == Err(NotFound)
      ensures 0 <= id && id in requests && requests[id].status == Deleted ==> r == Err(NotAllowed)
      ensures r.Ok? <==> 0 <= id && id in requests && requests[id].status != Deleted
      ensures r.Ok? ==> r.value == requests[id]
    {
      if id < 0 then Err(Invalid(MsgBadRequestId))
      else if id !in requests then Err(NotFound)
      else if requests[id].status == Deleted then Err(NotAllowed)
      else Ok(requests[id])
    }

    /** CheckCurrentRequestDraft: the creator's draft, or NoDraft. */
    function CheckCurrentRequestDraft(creator: Uuid): (r: Result<PaintRequest>)
      reads this
      requires Valid()
      ensures r.Err? <==> forall k :: k in requests ==> !(requests[k].creatorId == creator && requests[k].status == Draft)
      ensures r.Err? ==> r.error == NoDraft
      ensures r.Ok? ==>
        r.value.id in requests && requests[r.value.id] == r.value && r.value.status == Draft && r.value.creatorId == creator
    {
      var ds := Listing.SelectRows(requests, nextRequestId, DraftOf(creator));
      if |ds| == 0 then
        Err(NoDraft)
      else
        Ok(ds[0])
    }

    /** GetPaintCount: the number of lines in the creator's draft, 0 for the
        Nil user or one without a draft. */
    function GetPaintCount(creator: Uuid): (n: nat)
      reads this
      requires Valid()
      ensures creator == Nil || CheckCurrentRequestDraft(creator).Err? ==> n == 0
      ensures creator != Nil && CheckCurrentRequestDraft(creator).Ok? ==>
        n == |set k | k in lines && lines[k].requestId == CheckCurrentRequestDraft(creator).value.id|
    {
      if creator == Nil then 0
      else match CheckCurrentRequestDraft(creator)
        case Err(_) => 0
        case Ok(d) =>
          LineCount(d.id);
          |RequestLineIds(d.id)|
    }

    /** A request's line ids are as many as its lines. */
    lemma LineCount(rid: nat)
      requires Valid()
      ensures |RequestLineIds(rid)| == |set k | k in lines && lines[k].requestId == rid|
    {
      Listing.SelectCount(lines, nextLineId, OfRequest(rid));
      var a := Listing.Selected(lines, nextLineId, OfRequest(rid));
      var b := set k | k in lines && lines[k].requestId == rid;
      forall k ensures k in a <==> k in b {
        if k in b {
          assert k < nextLineId;
        }
      }
      assert a == b;
    }

    /** GetRequestDraft: the creator's draft, created on first use. */
    method GetRequestDraft(creator: Uuid, now: Time) returns (r: PaintRequest, created: bool)
      requires Valid()
      modifies this`requests, this`nextRequestId
      ensures Valid()
      ensures created
      ensures old(CheckCurrentRequestDraft(creator)).Ok? ==>
        r == old(CheckCurrentRequestDraft(creator)).value && requests == old(requests)
        && nextRequestId == old(nextRequestId)
      ensures old(CheckCurrentRequestDraft(creator)).Err? ==>
        r == InsertedRequest(ZeroRequest.(status := Draft, creatorId := creator, dateCreate := now), old(nextRequestId), now)
        && requests == old(requests)[r.id := r] && nextRequestId == old(nextRequestId) + 1
      ensures CheckCurrentRequestDraft(creator) == Ok(r)
    {
      var current := CheckCurrentRequestDraft(creator);
      if current.Ok? {
        return current.value, true;
      }
      r := InsertedRequest(ZeroRequest.(status := Draft, creatorId := creator, dateCreate := now), nextRequestId, now);
      requests := requests[nextRequestId := r];
      nextRequestId := nextRequestId + 1;
      created := true;
      var after := CheckCurrentRequestDraft(creator);
      assert after.Ok? && after.value.id == r.id;
    }

    /** FormRequest: a draft whose lines all have an area and enough layers
        (unchecked when it is being deleted) takes the status given and a
        form date. */
    method FormRequest(id: int, status: string, now: Time) returns (res: Result<PaintRequest>)
      requires Valid()
      modifies this`requests
      ensures Valid()
      ensures var found := old(GetSinglePaintRequest(id));
        res == FormOutcome(found, status, if found.Ok? then old(GetRequestPaints(found.value.id)) else [], now)
      ensures res.Ok? ==> requests == old(requests)[res.value.id := res.value]
      ensures res.Err? ==> requests == old(requests)
    {
      var found := GetSinglePaintRequest(id);
      if found.Err? {
        return found;
      }
      var r := found.value;
      if r.status != Draft {
        return Err(Invalid(MsgCannotBe(status)));
      }
      if status != Deleted {
        if r.minLayers <= 0 {
          return Err(Invalid(MsgNoMinLayers));
        }
        var ls := GetRequestPaints(r.id);
        var i := 0;
        while i < |ls|
          invariant 0 <= i <= |ls|
          invariant LinesError(ls, r.minLayers) == LinesError(ls[i..], r.minLayers)
        {
          assert ls[i..][1..] == ls[i + 1..];
          if ls[i].area == 0.0 {
            return Err(Invalid(MsgNoArea));
          }
          if ls[i].layers < r.minLayers {
            return Err(Invalid(MsgFewLayers(r.minLayers)));
          }
          i := i + 1;
        }
      }
      var row := FormedRow(r, status, now);
      requests := requests[r.id := row];
      return Ok(row);
    }

    /** ChangeRequest: sets the minimum number of layers of a request that is
        not deleted; nothing else is taken from the JSON. */
    method ChangeRequest(id: int, json: PaintRequestJSON) returns (res: Result<PaintRequest>)
      requires Valid()
      modifies this`requests
      ensures Valid()
      ensures id < 0 ==> res == Err(Invalid(MsgChangeBadId))
      ensures 0 <= id && json.minLayers <= 0 ==> res == Err(Invalid(MsgBadMinLayers))
      ensures res.Ok? <==> 0 <= id && json.minLayers > 0 && id in old(requests) && old(requests)[id].status != Deleted
      ensures 0 <= id && json.minLayers > 0 && res.Err? ==> res.error == NotFound
      ensures res.Ok? ==> res.value == old(requests)[id].(minLayers := json.minLayers)
      ensures res.Ok? ==> requests == old(requests)[id := res.value]
      ensures res.Err? ==> requests == old(requests)
    {
      if id < 0 {
        return Err(Invalid(MsgChangeBadId));
      }
      if json.minLayers <= 0 {
        return Err(Invalid(MsgBadMinLayers));
      }
      if id !in requests || requests[id].status == Deleted {
        return Err(NotFound);
      }
      var row := MergeRequest(requests[id], PaintRequestFromJSON(json));
      requests := requests[id := row];
      return Ok(row);
    }

    /** The checks ModerateRequest makes before writing anything: a final
        status, a moderator, and a formed request. */
    function ModerationTarget(id: int, status: string, moderatorId: Uuid): (r: Result<PaintRequest>)
      reads this
      requires Valid()
      ensures status != Completed && status != Rejected ==> r == Err(Invalid(MsgBadStatus))
      ensures (status == Completed || status == Rejected) && moderatorId == Nil ==> r == Err(Invalid(MsgNilUserId))
      ensures (status == Completed || status == Rejected) && moderatorId != Nil && moderatorId !in users ==>
        r == Err(NotFound)
      ensures ((status == Completed || status == Rejected) && moderatorId != Nil && moderatorId in users
               && !users[moderatorId].isModerator) ==> r == Err(NotAllowed)
      ensures ((status == Completed || status == Rejected) && moderatorId != Nil && moderatorId in users
               && users[moderatorId].isModerator && GetSinglePaintRequest(id).Err?) ==> r == GetSinglePaintRequest(id)
      ensures ((status == Completed || status == Rejected) && moderatorId != Nil && moderatorId in users
               && users[moderatorId].isModerator && GetSinglePaintRequest(id).Ok?
               && requests[id].status != Formed) ==> r == Err(Invalid(MsgCannotBe(status)))
      ensures r.Ok? <==>
        && (status == Completed || status == Rejected)
        && moderatorId != Nil && moderatorId in users && users[moderatorId].isModerator
        && 0 <= id && id in requests && requests[id].status == Formed
      ensures r.Ok? ==> r.value == requests[id]
    {
      if status != Completed && status != Rejected then Err(Invalid(MsgBadStatus))
      else match GetUserByID(moderatorId)
        case Err(e) => Err(e)
        case Ok(user) =>
          if !user.isModerator then Err(NotAllowed)
          else match GetSinglePaintRequest(id)
            case Err(e) => Err(e)
            case Ok(r) => if r.status != Formed then Err(Invalid(MsgCannotBe(status))) else Ok(r)
    }

    /** The quantity ModerateRequest computes for one line: from the live
        paint it references. */
    function LineQuantity(l: RequestsPaint): (q: Result<real>)
      reads this`paints
      ensures q.Ok? <==> l.paintId in paints && !paints[l.paintId].isDelete && l.area > 0.0 && l.layers > 0
      ensures q.Ok? ==> q.value * 1000.0 == l.area * paints[l.paintId].hidingPower * l.layers as real
    {
      match GetPaint(l.paintId)
      case Err(e) => Err(e)
      case Ok(p) => CalculatePaintQuantity(p.hidingPower, l.area, l.layers)
    }

    /** The quantity pass of ModerateRequest over the given lines, in order:
        each line gets its quantity until the first line whose quantity
        cannot be computed, where the pass stops with that line's error. */
    function Recompute(ls: map<nat, RequestsPaint>, ids: seq<nat>): (out: (map<nat, RequestsPaint>, Option<Error>))
      reads this`paints
      requires forall i :: 0 <= i < |ids| ==> ids[i] in ls
      requires forall i, j :: 0 <= i < j < |ids| ==> ids[i] < ids[j]
      ensures out.0.Keys == ls.Keys
      ensures forall k :: k in ls ==> out.0[k] == ls[k].(quantity := out.0[k].quantity)
      ensures forall k :: k in ls && k !in ids ==> out.0[k] == ls[k]
      decreases |ids|
    {
      if ids == [] then (ls, None)
      else
        match LineQuantity(ls[ids[0]])
        case Err(e) => (ls, Some(e))
        case Ok(q) =>
          var next := ls[ids[0] := WithQuantity(ls[ids[0]], q)];
          assert forall i :: 0 <= i < |ids[1..]| ==> ids[1..][i] == ids[i + 1];
          Recompute(next, ids[1..])
    }

    /** What the quantity pass computes: it succeeds exactly when every line
        has a quantity, and then every line holds its quantity; otherwise the
        error is that of one of the lines. */
    lemma {:induction false} RecomputeOutcome(ls: map<nat, RequestsPaint>, ids: seq<nat>)
      requires forall i :: 0 <= i < |ids| ==> ids[i] in ls
      requires forall i, j :: 0 <= i < j < |ids| ==> ids[i] < ids[j]
      ensures var out := Recompute(ls, ids);
        && (out.1.None? <==> forall i :: 0 <= i < |ids| ==> LineQuantity(ls[ids[i]]).Ok?)
        && (out.1.None? ==> forall i :: 0 <= i < |ids| ==>
              out.0[ids[i]] == WithQuantity(ls[ids[i]], LineQuantity(ls[ids[i]]).value))
        && (out.1.Some? ==> exists i :: 0 <= i < |ids| && LineQuantity(ls[ids[i]]) == Err(out.1.value))
      decreases |ids|
    {
      if ids != [] {
        var q := LineQuantity(ls[ids[0]]);
        if q.Ok? {
          var next := ls[ids[0] := WithQuantity(ls[ids[0]], q.value)];
          var tail := ids[1..];
          assert forall i :: 0 <= i < |tail| ==> tail[i] == ids[i + 1];
          assert forall i :: 0 <= i < |tail| ==> next[tail[i]] == ls[tail[i]];
          RecomputeOutcome(next, tail);
          assert ids[0] !in tail;
        }
      }
    }

    /** ModerateRequest: a moderator completes or rejects a formed request;
        on completion each line's quantity is recomputed. The request row is
        written first, so a line whose quantity cannot be computed leaves
        the request finished, the earlier lines updated and the call failed. */
    method ModerateRequest(id: int, status: string, moderatorId: Uuid, now: Time) returns (res: Result<PaintRequest>)
      requires Valid()
      modifies this`requests, this`lines
      ensures Valid()
      ensures old(ModerationTarget(id, status, moderatorId)).Err? ==>
        res == old(ModerationTarget(id, status, moderatorId)) && requests == old(requests) && lines == old(lines)
      ensures status != Completed && status != Rejected ==> res == Err(Invalid(MsgBadStatus))
      ensures ((status == Completed || status == Rejected) && moderatorId in old(users) && moderatorId != Nil
               && !old(users)[moderatorId].isModerator) ==> res == Err(NotAllowed) && requests == old(requests)
      ensures ((status == Completed || status == Rejected) && moderatorId != Nil && moderatorId in old(users)
               && old(users)[moderatorId].isModerator && 0 <= id && id in old(requests)
               && old(requests)[id].status != Formed && old(requests)[id].status != Deleted) ==>
        res == Err(Invalid(MsgCannotBe(status))) && requests == old(requests)
      ensures old(ModerationTarget(id, status, moderatorId)).Ok? ==>
        var r := old(ModerationTarget(id, status, moderatorId)).value;
        var row := ModeratedRow(r, status, moderatorId, now);
        && requests == old(requests)[r.id := row]
        && (status == Rejected ==> res == Ok(row) && lines == old(lines))
        && (status == Completed ==>
              var out := old(Recompute(lines, RequestLineIds(r.id)));
              lines == out.0 && res == (if out.1.Some? then Err(out.1.value) else Ok(row)))
    {
      var target := ModerationTarget(id, status, moderatorId);
      if target.Err? {
        return target;
      }
      res := FinishRequest(target.value, status, moderatorId, now);
    }

    /** The writes of ModerateRequest once the request and the moderator are
        accepted: the request row first, then on completion the quantities. */
    method FinishRequest(r: PaintRequest, status: string, moderatorId: Uuid, now: Time) returns (res: Result<PaintRequest>)
      requires Valid()
      requires r.id in requests && requests[r.id] == r && r.status == Formed
      requires status == Completed || status == Rejected
      modifies this`requests, this`lines
      ensures Valid()
      ensures var row := ModeratedRow(r, status, moderatorId, now);
        && requests == old(requests)[r.id := row]
        && (status == Rejected ==> res == Ok(row) && lines == old(lines))
        && (status == Completed ==>
              var out := old(Recompute(lines, RequestLineIds(r.id)));
              lines == out.0 && res == (if out.1.Some? then Err(out.1.value) else Ok(row)))
    {
      var row := ModeratedRow(r, status, moderatorId, now);
      ModerationKeepsRequestsValid(requests, nextRequestId, r.id, status, moderatorId, now);
      RequestRewriteKeepsLinesValid(lines, nextLineId, requests, paints, r.id, row);
      requests := requests[r.id := row];
      if status == Completed {
        var ids := RequestLineIds(r.id);
        var err := RecomputeQuantities(ids);
        if err.Some? {
          return Err(err.value);
        }
      }
      return Ok(row);
    }

    /** The quantity pass of ModerateRequest, which keeps the lines table
        valid since only quantities change. */
    method RecomputeQuantities(ids: seq<nat>) returns (err: Option<Error>)
      requires forall i :: 0 <= i < |ids| ==> ids[i] in lines
      requires forall i, j :: 0 <= i < j < |ids| ==> ids[i] < ids[j]
      requires LinesValid(lines, nextLineId, requests, paints)
      modifies this`lines
      ensures (lines, err) == old(Recompute(lines, ids))
      ensures LinesValid(lines, nextLineId, requests, paints)
    {
      ghost var before := lines;
      err := RecomputeLoop(ids);
      QuantitiesKeepLinesValid(before, lines, nextLineId, requests, paints);
    }

    /** The loop of ModerateRequest over a request's lines: each line's
        quantity is written in turn; the first line whose quantity cannot be
        computed ends the loop with its error. */
    method RecomputeLoop(ids: seq<nat>) returns (err: Option<Error>)
      requires forall i :: 0 <= i < |ids| ==> ids[i] in lines
      requires forall i, j :: 0 <= i < j < |ids| ==> ids[i] < ids[j]
      modifies this`lines
      ensures (lines, err) == old(Recompute(lines, ids))
    {
      var i := 0;
      while i < |ids|
        invariant 0 <= i <= |ids|
        invariant lines.Keys == old(lines).Keys
        invariant Recompute(lines, ids[i..]) == old(Recompute(lines, ids))
      {
        var l := lines[ids[i]];
        var paint := GetPaint(l.paintId);
        if paint.Err? {
          return Some(paint.error);
        }
        var q := CalculatePaintQuantity(paint.value.hidingPower, l.area, l.layers);
        if q.Err? {
          return Some(q.error);
        }
        assert ids[i..][1..] == ids[i + 1..];
        lines := lines[ids[i] := WithQuantity(l, q.value)];
        i := i + 1;
      }
      return None;
    }

    /** DeletePaintFromRequest: removes the line of that paint from an
        existing request (of any status). */
    method DeletePaintFromRequest(requestId: nat, paintId: nat) returns (res: Result<PaintRequest>)
      requires Valid()
      modifies this`lines
      ensures Valid()
      ensures res.Ok? <==> requestId in old(requests)
      ensures res.Err? ==> res.error == NotFound && lines == old(lines)
      ensures res.Ok? ==> res.value == old(requests)[requestId]
      ensures res.Ok? ==> forall k :: k in lines <==> k in old(lines) && !(old(lines)[k].requestId == requestId && old(lines)[k].paintId == paintId)
      ensures forall k :: k in lines ==> lines[k] == old(lines)[k]
      ensures res.Ok? ==> LineOf(requestId, paintId).None?
    {
      if requestId !in requests {
        return Err(NotFound);
      }
      lines := map k | k in lines && !(lines[k].requestId == requestId && lines[k].paintId == paintId) :: lines[k];
      return Ok(requests[requestId]);
    }

    /** ChangeRequestPaint: writes the JSON's non-zero area, layers and
        quantity into the line of that (request, paint) pair. */
    method ChangeRequestPaint(requestId: nat, paintId: nat, json: RequestsPaintJSON) returns (res: Result<RequestsPaint>)
      requires Valid()
      modifies this`lines
      ensures Valid()
      ensures res.Ok? <==> old(LineOf(requestId, paintId)).Some?
      ensures res.Err? ==> res.error == NotFound && lines == old(lines)
      ensures res.Ok? ==> res.value == MergeLine(old(LineOf(requestId, paintId)).value, RequestsPaintFromJSON(json))
      ensures res.Ok? ==> res.value.requestId == requestId && res.value.paintId == paintId
      ensures res.Ok? ==> lines == old(lines)[res.value.id := res.value]
      ensures res.Ok? ==> LineOf(requestId, paintId) == Some(res.value)
    {
      var found := LineOf(requestId, paintId);
      if found.None? {
        return Err(NotFound);
      }
      var row := MergeLine(found.value, RequestsPaintFromJSON(json));
      lines := lines[row.id := row];
      assert LinePairsUnique(lines) by {
        assert forall k :: k in lines ==> lines[k].requestId == old(lines)[k].requestId && lines[k].paintId == old(lines)[k].paintId;
      }
      LineOfStored(row.id);
      return Ok(row);
    }

    /** AddPaintToRequest, as it evidently should end: after finding the paint
        (deleted or not) and the request and no line for the pair, a line is
        inserted with the quantity area * hiding power * layers / 1000. */
    method AddPaintToRequest(requestId: int, paintId: int, area: real, layers: int) returns (err: Option<Error>)
      requires Valid()
      modifies this`lines, this`nextLineId
      ensures Valid()
      ensures !(0 <= paintId && paintId in paints) ==> err == Some(NotFound)
      ensures 0 <= paintId && paintId in paints && !(0 <= requestId && requestId in requests) ==> err == Some(NotFound)
      ensures err.None? <==>
        0 <= paintId && paintId in paints && 0 <= requestId && requestId in requests && old(LineOf(requestId, paintId)).None?
      ensures (0 <= paintId && paintId in paints && 0 <= requestId && requestId in requests
               && old(LineOf(requestId, paintId)).Some?) ==> err == Some(AlreadyExists)
      ensures err.None? ==>
        var row := NewLine(requestId, paintId, area, layers, paints[paintId].hidingPower, old(nextLineId));
        && lines == old(lines)[row.id := row]
        && nextLineId == old(nextLineId) + 1
        && LineOf(requestId, paintId) == Some(row)
      ensures err.Some? ==> lines == old(lines) && nextLineId == old(nextLineId)
    {
      if !(0 <= paintId && paintId in paints) {
        return Some(NotFound);
      }
      if !(0 <= requestId && requestId in requests) {
        return Some(NotFound);
      }
      if LineOf(requestId, paintId).Some? {
        return Some(AlreadyExists);
      }
      var row := NewLine(requestId, paintId, area, layers, paints[paintId].hidingPower, nextLineId);
      InsertLineKeepsLinesValid(lines, nextLineId, requests, paints, row);
      lines := lines[row.id := row];
      nextLineId := nextLineId + 1;
      LineOfStored(row.id);
      return None;
    }

    // ---- users ------------------------------------------------------------

    /** GetUserByID. */
    function GetUserByID(id: Uuid): (r: Result<User>)
      reads this`users
      ensures id == Nil ==> r == Err(Invalid(MsgNilUserId))
      ensures id != Nil ==> (r.Ok? <==> id in users)
      ensures r.Ok? ==> r.value == users[id]
      ensures id != Nil && r.Err? ==> r.error == NotFound
    {
      if id == Nil then Err(Invalid(MsgNilUserId))
      else if id in users then Ok(users[id])
      else Err(NotFound)
    }

    /** GetUserByLogin: the login is unique, so at most one user matches. */
    function GetUserByLogin(login: string): (r: Result<User>)
      reads this`users
      requires LoginsUnique(users)
      ensures login == "" ==> r == Err(Invalid(MsgEmptyLogin))
      ensures login != "" ==> (r.Err? <==> forall id :: id in users ==> users[id].login != login)
      ensures login != "" && r.Err? ==> r.error == NotFound
      ensures r.Ok? ==> r.value in users.Values && r.value.login == login
    {
      if login == "" then Err(Invalid(MsgEmptyLogin))
      else if exists id :: id in users && users[id].login == login then
        var id :| id in users && users[id].login == login;
        Ok(users[id])
      else Err(NotFound)
    }

    /** A stored user is found by its login. */
    lemma LoginLookup(id: Uuid)
      requires UsersValid(users) && id in users && users[id].login != ""
      ensures GetUserByLogin(users[id].login) == Ok(users[id])
    {
    }

    /** CreateUser: a user with a login and a password and a login nobody
        has is stored under the id the database generates. */
    method CreateUser(json: UserJSON, generatedId: Uuid) returns (res: Result<User>)
      requires Valid()
      modifies this`users
      ensures Valid()
      ensures json.login == "" ==> res == Err(Invalid(MsgLoginRequired))
      ensures json.login != "" && json.password == "" ==> res == Err(Invalid(MsgPasswordRequired))
      ensures json.login != "" && json.password != "" && old(GetUserByLogin(json.login)).Ok? ==> res == Err(AlreadyExists)
      ensures res.Ok? <==>
        (json.login != "" && json.password != "" && old(GetUserByLogin(json.login)).Err?
         && generatedId !in old(users) && UserFits(UserFromJSON(json)))
      ensures res.Ok? ==> res.value == UserFromJSON(json).(id := generatedId) && users == old(users)[generatedId := res.value]
      ensures res.Ok? ==> GetUserByLogin(json.login) == Ok(res.value)
      ensures res.Err? ==> users == old(users)
    {
      var u := UserFromJSON(json);
      if u.login == "" {
        return Err(Invalid(MsgLoginRequired));
      }
      if u.password == "" {
        return Err(Invalid(MsgPasswordRequired));
      }
      var existing := GetUserByLogin(u.login);
      if existing.Ok? {
        return Err(AlreadyExists);
      }
      var row := u.(id := generatedId);
      if generatedId in users || !UserFits(row) {
        return Err(Store(MsgCreateUserFailed));
      }
      users := users[generatedId := row];
      LoginLookup(generatedId);
      return Ok(row);
    }

    /** SignIn: the claims of a token for the user with that login and
        password. */
    function SignIn(json: UserJSON, now: Time): (r: Result<Jwt.Claims>)
      reads this`users
      requires LoginsUnique(users)
      ensures json.login == "" ==> r == Err(Invalid(MsgLoginRequired))
      ensures json.login != "" && json.password == "" ==> r == Err(Invalid(MsgPasswordRequired))
      ensures r.Ok? <==>
        (json.login != "" && json.password != ""
         && exists id :: id in users && users[id].login == json.login && users[id].password == json.password)
      ensures json.login != "" && json.password != "" && r.Err? ==> r.error == Invalid(MsgWrongCredentials)
      ensures r.Ok? ==>
        exists id :: id in users && users[id].login == json.login && r.value == TokenClaims(users[id].id, users[id].isModerator, now)
    {
      if json.login == "" then Err(Invalid(MsgLoginRequired))
      else if json.password == "" then Err(Invalid(MsgPasswordRequired))
      else match GetUserByLogin(json.login)
        case Err(_) => Err(Invalid(MsgWrongCredentials))
        case Ok(user) =>
          if user.password != json.password then Err(Invalid(MsgWrongCredentials))
          else Ok(TokenClaims(user.id, user.isModerator, now))
    }

    /** UpdateUserProfile: login, password and moderator flag are all written
        (empty or false included), except that a user who is not a moderator
        cannot become one. */
    method UpdateUserProfile(id: Uuid, json: UserJSON) returns (res: Result<User>)
      requires Valid()
      modifies this`users
      ensures Valid()
      ensures id == Nil ==> res == Err(Invalid(MsgBadProfileId))
      ensures id != Nil && id !in old(users) ==> res == Err(NotFound)
      ensures id != Nil && id in old(users) ==>
        var row := User(id, json.login, json.password, json.isModerator && old(users)[id].isModerator);
        if UserFits(row) && forall k :: k in old(users) && k != id ==> old(users)[k].login != json.login
        then res == Ok(row) && users == old(users)[id := row]
        else res == Err(Store(MsgUpdateProfileFailed))
      ensures res.Ok? && res.value.isModerator ==> old(users)[id].isModerator
      ensures res.Err? ==> users == old(users)
    {
      if id == Nil {
        return Err(Invalid(MsgBadProfileId));
      }
      var current := GetUserByID(id);
      if current.Err? {
        return current;
      }
      var updates := UserFromJSON(json);
      if updates.isModerator && !current.value.isModerator {
        updates := updates.(isModerator := false);
      }
      var row := current.value.(login := updates.login, password := updates.password, isModerator := updates.isModerator);
      if !UserFits(row) || exists k :: k in users && k != id && users[k].login == row.login {
        return Err(Store(MsgUpdateProfileFailed));
      }
      users := users[id := row];
      return GetUserByID(id);
    }

    // ---- token blacklist --------------------------------------------------

    /** IsTokenBlacklisted: whether the token's key exists now. */
    function IsTokenBlacklisted(token: string, now: Time, storeFails: bool): (r: Result<bool>)
      reads this`blacklist
      ensures r.Ok? <==> !storeFails
      ensures r == Ok(true) <==> !storeFails && Blacklist.Present(blacklist, Blacklist.KeyForToken(digest, token), now)
    {
      if storeFails then Err(Store(MsgStoreFailed))
      else Ok(Blacklist.Present(blacklist, Blacklist.KeyForToken(digest, token), now))
    }

    /** AddTokenToBlacklist: for a positive ttl, stores the token's key with
        that time to live; a token that has run out needs no entry. */
    method AddTokenToBlacklist(token: string, ttl: Duration, now: Time, storeFails: bool) returns (err: Option<Error>)
      modifies this`blacklist
      ensures ttl <= 0 ==> err.None? && blacklist == old(blacklist)
      ensures ttl > 0 && storeFails ==> err == Some(Store(MsgStoreFailed)) && blacklist == old(blacklist)
      ensures ttl > 0 && !storeFails ==>
        err.None? && blacklist == old(blacklist)[Blacklist.KeyForToken(digest, token) := Blacklist.Entry("1", now + ttl)]
      ensures ttl > 0 && !storeFails ==> forall t :: now <= t < now + ttl ==> IsTokenBlacklisted(token, t, false) == Ok(true)
      ensures ttl > 0 && !storeFails ==> !Blacklist.Present(blacklist, Blacklist.KeyForToken(digest, token), now + ttl)
    {
      if ttl <= 0 {
        return None;
      }
      if storeFails {
        return Some(Store(MsgStoreFailed));
      }
      var key := Blacklist.KeyForToken(digest, token);
      blacklist := blacklist[key := Blacklist.Entry("1", now + ttl)];
      return None;
    }
  }
}
