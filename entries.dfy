/** The backend's records: the document stored per lap (`LapEntry`), the
    bodies of the create and update requests, the response every lap
    endpoint returns, and the HTTP errors the handlers raise. */
module Entries {
  import opened Results

  /** A stored lap: `lapTimeMs` is kept beside the display text so that the
      store can sort on it. `id` and `createdAt` come from `uuid4` and the
      clock and are opaque here. */
  datatype LapEntry = LapEntry(
    id: string,
    driverName: string,
    team: Option<string>,
    lapTimeMs: int,
    lapTimeDisplay: string,
    createdAt: string)

  /** The body of a create request. */
  datatype LapEntryCreate = LapEntryCreate(driverName: string, team: Option<string>, lapTimeDisplay: string)

  /** The body of an update request: `None` leaves the field as it is. */
  datatype LapEntryUpdate = LapEntryUpdate(
    driverName: Option<string>,
    team: Option<string>,
    lapTimeDisplay: Option<string>)

  /** A lap as the API returns it, with its place and gap on the board
      (`rank` 0 and `gap` "" outside the listing). */
  datatype LapEntryResponse = LapEntryResponse(
    id: string,
    driverName: string,
    team: Option<string>,
    lapTimeMs: int,
    lapTimeDisplay: string,
    createdAt: string,
    rank: int,
    gap: string)

  /** An `HTTPException`: a status code and its detail text. */
  datatype HttpError = HttpError(status: int, detail: string)

  const LapNotFound: string := "Lap entry not found"

  /** The response built from a stored lap. */
  function ToResponse(e: LapEntry, rank: int, gap: string): LapEntryResponse
  {
    LapEntryResponse(e.id, e.driverName, e.team, e.lapTimeMs, e.lapTimeDisplay, e.createdAt, rank, gap)
  }

  /** A response carries the stored lap's own fields unchanged. */
  predicate Carries(r: LapEntryResponse, e: LapEntry)
  {
    r.id == e.id && r.driverName == e.driverName && r.team == e.team &&
    r.lapTimeMs == e.lapTimeMs && r.lapTimeDisplay == e.lapTimeDisplay && r.createdAt == e.createdAt
  }
}
