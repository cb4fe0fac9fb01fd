/** The persisted records of the old snapshot: integer user ids, a nullable
    integer moderator id, and a min_layers field that the ORM is told to
    ignore, so it is never written to or read from the table. */
module OldDs {
  import opened Common

  /** Go's uint (64 bits). */
  type Uint64 = x: int | 0 <= x < 0x1_0000_0000_0000_0000

  /** sql.NullInt64. */
  datatype NullInt64 = NullInt64(int64: int, valid: bool)

  datatype NullTime = NullTime(time: Time, valid: bool)

  datatype User = User(id: Uint64, login: string, password: string, isModerator: bool)

  /** The in-memory record, minLayers included. */
  datatype PaintRequest = PaintRequest(
    id: Uint64,
    status: string,
    dateCreate: Time,
    dateForm: NullTime,
    dateFinish: NullTime,
    creatorId: Uint64,
    moderatorId: NullInt64,
    minLayers: int)

  /** The table row: the same columns without min_layers. */
  datatype PaintRequestRow = PaintRequestRow(
    id: Uint64,
    status: string,
    dateCreate: Time,
    dateForm: NullTime,
    dateFinish: NullTime,
    creatorId: Uint64,
    moderatorId: NullInt64)

  /** What saving a request writes. */
  function Persist(r: PaintRequest): PaintRequestRow {
    PaintRequestRow(r.id, r.status, r.dateCreate, r.dateForm, r.dateFinish, r.creatorId, r.moderatorId)
  }

  /** What loading a row gives: minLayers keeps Go's zero value. */
  function Load(row: PaintRequestRow): PaintRequest {
    PaintRequest(row.id, row.status, row.dateCreate, row.dateForm, row.dateFinish, row.creatorId, row.moderatorId, 0)
  }

  /** A request that went through the table comes back with every persisted
      column intact and minLayers 0, whatever it was set to. */
  lemma LoadPersist(r: PaintRequest)
    ensures Load(Persist(r)) == r.(minLayers := 0)
    ensures Load(Persist(r)).minLayers == 0
  {
  }

  /** Loading and saving again writes the row unchanged. */
  lemma PersistLoad(row: PaintRequestRow)
    ensures Persist(Load(row)) == row
  {
  }

  /** Status default on insert, as in the new snapshot. */
  function InsertedStatus(status: string): (s: string)
    ensures s != ""
    ensures status == "" ==> s == Draft
    ensures status != "" ==> s == status
  {
    if status == "" then Draft else status
  }
}
