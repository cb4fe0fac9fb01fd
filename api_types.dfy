/** The JSON shapes of the API and their conversions to and from records. The
    FromJSON direction decides which fields a create or update can set: a
    field it does not copy stays at Go's zero value. */
module ApiTypes {
  import opened Common
  import opened Uuid
  import opened Ds

  datatype PaintJSON = PaintJSON(
    id: nat, title: string, description: string, hidingPower: real, photo: string, isDelete: bool)

  /** Optional fields (*time.Time, *string) are Option. */
  datatype PaintRequestJSON = PaintRequestJSON(
    id: nat,
    status: string,
    dateCreate: Option<Time>,
    dateForm: Option<Time>,
    dateFinish: Option<Time>,
    creatorLogin: string,
    moderatorLogin: Option<string>,
    minLayers: int)

  datatype RequestsPaintJSON = RequestsPaintJSON(
    id: nat, requestId: nat, paintId: nat, area: real, layers: int, quantity: real)

  datatype UserJSON = UserJSON(id: Uuid, login: string, password: string, isModerator: bool)

  function PaintToJSON(p: Paint): PaintJSON {
    PaintJSON(p.id, p.title, p.description, p.hidingPower, p.photo, p.isDelete)
  }

  /** Every field but the id. */
  function PaintFromJSON(j: PaintJSON): Paint {
    Paint(0, j.title, j.description, j.hidingPower, j.photo, j.isDelete)
  }

  /** The paint survives a trip through JSON except for its id. */
  lemma PaintRoundTrip(p: Paint)
    ensures PaintFromJSON(PaintToJSON(p)) == p.(id := 0)
  {
  }

  /** The JSON survives a trip through the record except for its id. */
  lemma PaintJsonRoundTrip(j: PaintJSON)
    ensures PaintToJSON(PaintFromJSON(j)) == j.(id := 0)
  {
  }

  function NullTimeToJSON(t: NullTime): Option<Time> {
    if t.valid then Some(t.time) else None
  }

  function PaintRequestToJSON(r: PaintRequest, creatorLogin: string, moderatorLogin: string): PaintRequestJSON {
    PaintRequestJSON(
      r.id, r.status, Some(r.dateCreate),
      NullTimeToJSON(r.dateForm), NullTimeToJSON(r.dateFinish),
      creatorLogin,
      if moderatorLogin != "" then Some(moderatorLogin) else None,
      r.minLayers)
  }

  /** What the JSON of a request shows: each date is absent exactly when its
      column is null and then carries the stored time; the moderator login is
      absent exactly when none was given; the id, status, creator login,
      min_layers and creation date are copied as they are. */
  lemma PaintRequestToJSONFields(r: PaintRequest, creatorLogin: string, moderatorLogin: string)
    ensures var j := PaintRequestToJSON(r, creatorLogin, moderatorLogin);
      && (j.dateForm.None? <==> !r.dateForm.valid)
      && (j.dateForm.Some? ==> j.dateForm.value == r.dateForm.time)
      && (j.dateFinish.None? <==> !r.dateFinish.valid)
      && (j.dateFinish.Some? ==> j.dateFinish.value == r.dateFinish.time)
      && (j.moderatorLogin.None? <==> moderatorLogin == "")
      && (j.moderatorLogin.Some? ==> j.moderatorLogin.value == moderatorLogin)
      && j.id == r.id && j.status == r.status && j.creatorLogin == creatorLogin
      && j.minLayers == r.minLayers && j.dateCreate == Some(r.dateCreate)
  {
  }

  /** Only min_layers is taken over; the rest is the zero record. */
  function PaintRequestFromJSON(j: PaintRequestJSON): PaintRequest {
    ZeroRequest.(minLayers := j.minLayers)
  }

  function RequestsPaintToJSON(l: RequestsPaint): RequestsPaintJSON {
    RequestsPaintJSON(l.id, l.requestId, l.paintId, l.area, l.layers, l.quantity)
  }

  /** Area, layers and quantity only; both ids stay zero. */
  function RequestsPaintFromJSON(j: RequestsPaintJSON): RequestsPaint {
    ZeroLine.(area := j.area, layers := j.layers, quantity := j.quantity)
  }

  /** A line survives a trip through JSON in its area, layers and quantity and
      loses its three ids. */
  lemma RequestsPaintRoundTrip(l: RequestsPaint)
    ensures RequestsPaintFromJSON(RequestsPaintToJSON(l)) == l.(id := 0, requestId := 0, paintId := 0)
  {
  }

  function UserToJSON(u: User): UserJSON {
    UserJSON(u.id, u.login, u.password, u.isModerator)
  }

  /** Login, password and the moderator flag; the id stays Nil. */
  function UserFromJSON(j: UserJSON): User {
    User(Nil, j.login, j.password, j.isModerator)
  }

  /** A user survives a trip through JSON except for the id, password and
      moderator flag included. */
  lemma UserRoundTrip(u: User)
    ensures UserFromJSON(UserToJSON(u)) == u.(id := Nil)
  {
  }

  lemma UserJsonRoundTrip(j: UserJSON)
    ensures UserToJSON(UserFromJSON(j)) == j.(id := Nil)
  {
  }
}
