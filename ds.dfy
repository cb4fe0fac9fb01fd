/** The persisted records of the new snapshot and the schema rules their
    column tags declare: defaults applied on insert, nullable columns, the
    unique (request, paint) pair of a line, the unique and bounded login, and
    the cascade from a request to its lines. */
module Ds {
  import opened Common
  import opened Uuid

  /** sql.NullTime: the time means something only when valid is set. */
  datatype NullTime = NullTime(time: Time, valid: bool)

  /** uuid.NullUUID. */
  datatype NullUuid = NullUuid(uuid: Uuid, valid: bool)

  /** sql.NullTime{}: Go's zero instant, not valid. */
  const NullTimeNone: NullTime := NullTime(ZeroTime, false)
  const NullUuidNone: NullUuid := NullUuid(Nil, false)

  /** A catalog paint; isDelete is the soft-delete flag. */
  datatype Paint = Paint(
    id: nat,
    title: string,
    description: string,
    hidingPower: real,
    photo: string,
    isDelete: bool)

  /** A paint request (cart or order). */
  datatype PaintRequest = PaintRequest(
    id: nat,
    status: string,
    dateCreate: Time,
    dateForm: NullTime,
    dateFinish: NullTime,
    creatorId: Uuid,
    moderatorId: NullUuid,
    minLayers: int)

  /** One line of a request: a paint with its area, layers and quantity. */
  datatype RequestsPaint = RequestsPaint(
    id: nat,
    requestId: nat,
    paintId: nat,
    area: real,
    layers: int,
    quantity: real)

  datatype User = User(id: Uuid, login: string, password: string, isModerator: bool)

  /** Go's zero PaintRequest{}: what a struct literal leaves in unnamed fields. */
  const ZeroRequest: PaintRequest :=
    PaintRequest(0, "", ZeroTime, NullTimeNone, NullTimeNone, Nil, NullUuidNone, 0)

  const ZeroLine: RequestsPaint := RequestsPaint(0, 0, 0, 0.0, 0, 0.0)

  const ZeroPaint: Paint := Paint(0, "", "", 0.0, "", false)

  /** The row a request insert stores: the new id, and for each zero-valued
      column with a default, the default (status 'черновик', min_layers 1,
      date_create the insert time). */
  function InsertedRequest(r: PaintRequest, id: nat, now: Time): PaintRequest
  {
    r.(id := id,
       status := if r.status == "" then Draft else r.status,
       minLayers := if r.minLayers == 0 then 1 else r.minLayers,
       dateCreate := if r.dateCreate == ZeroTime then now else r.dateCreate)
  }

  /** The row a line insert stores: area and quantity default to 0, which a
      zero value already is, and layers defaults to 1. */
  function InsertedLine(l: RequestsPaint, id: nat): RequestsPaint
  {
    l.(id := id, layers := if l.layers == 0 then 1 else l.layers)
  }

  /** A request inserted with nothing but its creator and time set is a draft
      with at least one required layer and no form, finish or moderator. */
  lemma NewRequestDefaults(creator: Uuid, id: nat, now: Time)
    ensures var row := InsertedRequest(ZeroRequest.(creatorId := creator), id, now);
      && row.status == Draft && row.minLayers == 1 && row.dateCreate == now
      && !row.dateForm.valid && !row.dateFinish.valid && !row.moderatorId.valid
      && row.creatorId == creator
  {
  }

  /** A line inserted with zero area, layers and quantity stores 0, 1 and 0. */
  lemma NewLineDefaults(requestId: nat, paintId: nat, id: nat)
    ensures var row := InsertedLine(ZeroLine.(requestId := requestId, paintId := paintId), id);
      row.area == 0.0 && row.layers == 1 && row.quantity == 0.0
  {
  }

  /** The unique index idx_request_paint over (request_id, paint_id). */
  ghost predicate LinePairsUnique(lines: map<nat, RequestsPaint>) {
    forall a, b :: a in lines && b in lines && a != b ==>
      lines[a].requestId != lines[b].requestId || lines[a].paintId != lines[b].paintId
  }

  /** ON DELETE CASCADE from a request to its lines: removing request rid
      removes exactly the lines that reference it. */
  function CascadeRequestDelete(lines: map<nat, RequestsPaint>, rid: nat): (rest: map<nat, RequestsPaint>)
    ensures forall k :: k in rest <==> k in lines && lines[k].requestId != rid
    ensures forall k :: k in rest ==> rest[k] == lines[k]
    ensures LinePairsUnique(lines) ==> LinePairsUnique(rest)
  {
    map k | k in lines && lines[k].requestId != rid :: lines[k]
  }

  /** login varchar(50) and password varchar(100): longer values are refused
      by the database. */
  predicate UserFits(u: User) {
    |u.login| <= 50 && |u.password| <= 100
  }

  /** The unique index on login. */
  ghost predicate LoginsUnique(users: map<Uuid, User>) {
    forall a, b :: a in users && b in users && a != b ==> users[a].login != users[b].login
  }

  /** The update an ORM `Updates(struct)` call performs on a request: each
      column whose value in upd is non-zero is written, every zero-valued
      one is skipped; the primary key is never written. */
  function MergeRequest(r: PaintRequest, upd: PaintRequest): PaintRequest {
    r.(status := if upd.status != "" then upd.status else r.status,
       dateCreate := if upd.dateCreate != ZeroTime then upd.dateCreate else r.dateCreate,
       dateForm := if upd.dateForm != NullTimeNone then upd.dateForm else r.dateForm,
       dateFinish := if upd.dateFinish != NullTimeNone then upd.dateFinish else r.dateFinish,
       creatorId := if upd.creatorId != Nil then upd.creatorId else r.creatorId,
       moderatorId := if upd.moderatorId != NullUuidNone then upd.moderatorId else r.moderatorId,
       minLayers := if upd.minLayers != 0 then upd.minLayers else r.minLayers)
  }

  /** `Updates(struct)` on a line: area, layers and quantity when non-zero. */
  function MergeLine(l: RequestsPaint, upd: RequestsPaint): RequestsPaint {
    l.(requestId := if upd.requestId != 0 then upd.requestId else l.requestId,
       paintId := if upd.paintId != 0 then upd.paintId else l.paintId,
       area := if upd.area != 0.0 then upd.area else l.area,
       layers := if upd.layers != 0 then upd.layers else l.layers,
       quantity := if upd.quantity != 0.0 then upd.quantity else l.quantity)
  }

  /** `Updates(struct)` on a paint: non-empty texts, a non-zero hiding power,
      and the delete flag only when it is set. */
  function MergePaint(p: Paint, upd: Paint): Paint {
    p.(title := if upd.title != "" then upd.title else p.title,
       description := if upd.description != "" then upd.description else p.description,
       hidingPower := if upd.hidingPower != 0.0 then upd.hidingPower else p.hidingPower,
       photo := if upd.photo != "" then upd.photo else p.photo,
       isDelete := upd.isDelete || p.isDelete)
  }

  /** Updating with the zero record writes nothing. */
  lemma MergeZero(r: PaintRequest, l: RequestsPaint, p: Paint)
    ensures MergeRequest(r, ZeroRequest) == r
    ensures MergeLine(l, ZeroLine) == l
    ensures MergePaint(p, ZeroPaint) == p
  {
  }

  /** Repeating an update changes nothing more. */
  lemma MergeIdempotent(r: PaintRequest, ur: PaintRequest, l: RequestsPaint, ul: RequestsPaint, p: Paint, up: Paint)
    ensures MergeRequest(MergeRequest(r, ur), ur) == MergeRequest(r, ur)
    ensures MergeLine(MergeLine(l, ul), ul) == MergeLine(l, ul)
    ensures MergePaint(MergePaint(p, up), up) == MergePaint(p, up)
  {
  }

  /** Two updates in a row are one update with the later non-zero values
      laid over the earlier ones. */
  lemma MergeRequestCompose(r: PaintRequest, u1: PaintRequest, u2: PaintRequest)
    ensures MergeRequest(MergeRequest(r, u1), u2) == MergeRequest(r, MergeRequest(u1, u2))
  {
  }
}
