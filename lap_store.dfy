/** The lap handlers over the store: `create_lap_entry`, `get_lap_entry`,
    `update_lap_entry`, `delete_lap_entry` and `delete_all_laps`. The store
    itself (a MongoDB collection) is a map from lap id to stored lap. */
module LapStore {
  import opened Results
  import opened LapTime
  import opened Entries
  import opened Leaderboard

  /** The keys of the handler's `update_data` dictionary: the stored
      fields an update may write. */
  datatype Field = DriverNameKey | TeamKey | LapTimeMsKey | LapTimeDisplayKey

  /** A value in `update_data`: text for the names and the display, a whole
      number for the milliseconds. */
  datatype FieldValue = Text(text: string) | Millis(ms: int)

  /** What a `$set` of `data` does to a stored lap: every named field takes
      the given value, every other field is kept. */
  function SetFields(e: LapEntry, data: map<Field, FieldValue>): (r: LapEntry)
    ensures r.id == e.id && r.createdAt == e.createdAt
    ensures data == map[] ==> r == e
    ensures LapTimeMsKey !in data && LapTimeDisplayKey !in data ==>
      r.lapTimeMs == e.lapTimeMs && r.lapTimeDisplay == e.lapTimeDisplay
  {
    e.(driverName := if DriverNameKey in data && data[DriverNameKey].Text? then data[DriverNameKey].text else e.driverName,
       team := if TeamKey in data && data[TeamKey].Text? then Some(data[TeamKey].text) else e.team,
       lapTimeMs := if LapTimeMsKey in data && data[LapTimeMsKey].Millis? then data[LapTimeMsKey].ms else e.lapTimeMs,
       lapTimeDisplay := if LapTimeDisplayKey in data && data[LapTimeDisplayKey].Text? then data[LapTimeDisplayKey].text
                         else e.lapTimeDisplay)
  }

  /** The lap an update leads to, field by field: a field given in the
      update replaces the stored one, an absent one leaves it; a new display
      text brings its own milliseconds, and one that does not parse fails
      the whole update with status 400. */
  function Updated(e: LapEntry, u: LapEntryUpdate): (r: Result<LapEntry, HttpError>)
    ensures r.Err? <==> u.lapTimeDisplay.Some? && ParseLapTime(u.lapTimeDisplay.value).Err?
    ensures r.Err? ==> r.error == HttpError(400, InvalidTimeFormat)
  {
    if u.lapTimeDisplay.Some? && ParseLapTime(u.lapTimeDisplay.value).Err? then
      Err(HttpError(400, ParseLapTime(u.lapTimeDisplay.value).error))
    else
      Ok(LapEntry(
        e.id,
        u.driverName.GetOr(e.driverName),
        if u.team.Some? then u.team else e.team,
        if u.lapTimeDisplay.Some? then ParseLapTime(u.lapTimeDisplay.value).value else e.lapTimeMs,
        u.lapTimeDisplay.GetOr(e.lapTimeDisplay),
        e.createdAt))
  }

  /** `data` holds exactly the fields `u` gives, under the handler's keys,
      with the milliseconds of a new display text beside it. */
  predicate HoldsUpdate(data: map<Field, FieldValue>, u: LapEntryUpdate)
  {
    (DriverNameKey in data) == u.driverName.Some? &&
    (u.driverName.Some? ==> data[DriverNameKey] == Text(u.driverName.value)) &&
    (TeamKey in data) == u.team.Some? &&
    (u.team.Some? ==> data[TeamKey] == Text(u.team.value)) &&
    (LapTimeMsKey in data) == u.lapTimeDisplay.Some? &&
    (LapTimeDisplayKey in data) == u.lapTimeDisplay.Some? &&
    (u.lapTimeDisplay.Some? ==>
      ParseLapTime(u.lapTimeDisplay.value).Ok? &&
      data[LapTimeMsKey] == Millis(ParseLapTime(u.lapTimeDisplay.value).value) &&
      data[LapTimeDisplayKey] == Text(u.lapTimeDisplay.value)) &&
    data.Keys <= {DriverNameKey, TeamKey, LapTimeMsKey, LapTimeDisplayKey}
  }

  /** The part of `update_lap_entry` that builds `update_data` field by
      field; a display text that does not parse ends it with status 400. */
  method BuildUpdateData(update: LapEntryUpdate) returns (r: Result<map<Field, FieldValue>, HttpError>)
    ensures r.Err? <==> update.lapTimeDisplay.Some? && ParseLapTime(update.lapTimeDisplay.value).Err?
    ensures r.Err? ==> r.error == HttpError(400, InvalidTimeFormat)
    ensures r.Ok? ==> HoldsUpdate(r.value, update)
    ensures r.Ok? ==> (r.value == map[] <==> update == LapEntryUpdate(None, None, None))
  {
    var updateData: map<Field, FieldValue> := map[];
    if update.driverName.Some? {
      updateData := updateData[DriverNameKey := Text(update.driverName.value)];
    }
    if update.team.Some? {
      updateData := updateData[TeamKey := Text(update.team.value)];
    }
    if update.lapTimeDisplay.Some? {
      var parsed := ParseLapTime(update.lapTimeDisplay.value);
      if parsed.Err? {
        return Err(HttpError(400, parsed.error));
      }
      updateData := updateData[LapTimeMsKey := Millis(parsed.value)];
      updateData := updateData[LapTimeDisplayKey := Text(update.lapTimeDisplay.value)];
    }
    r := Ok(updateData);
  }

  /** Written with `$set`, the `update_data` of an update gives the lap
      `Updated` describes. */
  lemma SetUpdateData(e: LapEntry, u: LapEntryUpdate, data: map<Field, FieldValue>)
    requires HoldsUpdate(data, u)
    ensures Updated(e, u).Ok? && SetFields(e, data) == Updated(e, u).value
  {
  }

  /** An update keeps the lap's identity and its creation time. */
  lemma UpdateKeepsIdentity(e: LapEntry, u: LapEntryUpdate)
    requires Updated(e, u).Ok?
    ensures Updated(e, u).value.id == e.id && Updated(e, u).value.createdAt == e.createdAt
  {
  }

  /** A stored time stays the parse of its display text through an update:
      the two change together or not at all. */
  lemma UpdateKeepsTimeConsistent(e: LapEntry, u: LapEntryUpdate)
    requires ParseLapTime(e.lapTimeDisplay) == Ok(e.lapTimeMs)
    requires Updated(e, u).Ok?
    ensures var n := Updated(e, u).value;
      ParseLapTime(n.lapTimeDisplay) == Ok(n.lapTimeMs) &&
      (n.lapTimeDisplay == e.lapTimeDisplay ==> n.lapTimeMs == e.lapTimeMs)
  {
  }

  /** `None` means "unchanged", so no update can take a team away. */
  lemma UpdateCannotClearTeam(e: LapEntry, u: LapEntryUpdate)
    requires e.team.Some? && Updated(e, u).Ok?
    ensures Updated(e, u).value.team.Some?
    ensures u.team.None? ==> Updated(e, u).value.team == e.team
  {
  }

  /** An update that names no field leaves the lap as it is. */
  lemma EmptyUpdateChangesNothing(e: LapEntry)
    ensures Updated(e, LapEntryUpdate(None, None, None)) == Ok(e)
  {
  }

  /** A listing of the store: every stored lap exactly once, fastest first. */
  ghost predicate IsSortedListing(entries: map<string, LapEntry>, found: seq<LapEntry>)
  {
    SortedByTime(found) &&
    (forall i, j :: 0 <= i < j < |found| ==> found[i] != found[j]) &&
    (forall i :: 0 <= i < |found| ==> found[i] in entries.Values) &&
    (forall id :: id in entries ==> entries[id] in found)
  }

  /** The lap placed first on the board has the smallest time in the store. */
  lemma LeaderIsFastest(entries: map<string, LapEntry>, found: seq<LapEntry>)
    requires IsSortedListing(entries, found) && |found| > 0
    ensures found[0].lapTimeMs in (set id | id in entries :: entries[id].lapTimeMs)
    ensures forall id :: id in entries ==> found[0].lapTimeMs <= entries[id].lapTimeMs
  {
    assert found[0] in entries.Values;
    forall id | id in entries ensures found[0].lapTimeMs <= entries[id].lapTimeMs {
      var j :| 0 <= j < |found| && found[j] == entries[id];
      if j > 0 {
        assert found[0].lapTimeMs <= found[j].lapTimeMs;
      }
    }
  }

  /** The whole numbers a BSON document holds: a signed 64-bit integer.
      The driver raises `OverflowError` on a larger Python `int`. */
  predicate FitsInt64(n: int)
  {
    -0x8000_0000_0000_0000 <= n < 0x8000_0000_0000_0000
  }

  /** What FastAPI answers when a handler raises an exception it does not
      catch. */
  const InternalServerError: HttpError := HttpError(500, "Internal Server Error")

  /** Every lap is filed under its own id, its stored milliseconds are the
      parse of its display text, and they fit in a BSON integer. */
  ghost predicate Consistent(entries: map<string, LapEntry>)
  {
    forall id :: id in entries ==>
      entries[id].id == id && ParseLapTime(entries[id].lapTimeDisplay) == Ok(entries[id].lapTimeMs) &&
      FitsInt64(entries[id].lapTimeMs)
  }

  /** Filing a consistent lap under its id keeps the store consistent. */
  lemma StoreLap(entries: map<string, LapEntry>, e: LapEntry)
    requires Consistent(entries) && ParseLapTime(e.lapTimeDisplay) == Ok(e.lapTimeMs)
    requires FitsInt64(e.lapTimeMs)
    ensures Consistent(entries[e.id := e])
  {
  }

  /** What the handler writes for an update of a stored lap is the lap
      `Updated` describes, filed under the same id, with a time that matches
      its display text whenever the stored one did; an empty `update_data`
      leaves the store as it is. */
  lemma UpdateStep(entries: map<string, LapEntry>, lapId: string, u: LapEntryUpdate, data: map<Field, FieldValue>)
    requires lapId in entries && entries[lapId].id == lapId && HoldsUpdate(data, u)
    ensures var e, n := entries[lapId], SetFields(entries[lapId], data);
      Updated(e, u) == Ok(n) && n.id == lapId &&
      (ParseLapTime(e.lapTimeDisplay) == Ok(e.lapTimeMs) ==> ParseLapTime(n.lapTimeDisplay) == Ok(n.lapTimeMs))
    ensures data == map[] ==> entries[lapId := SetFields(entries[lapId], data)] == entries
  {
    var e := entries[lapId];
    SetUpdateData(e, u, data);
    if ParseLapTime(e.lapTimeDisplay) == Ok(e.lapTimeMs) {
      UpdateKeepsTimeConsistent(e, u);
    }
    if data == map[] {
      assert SetFields(e, data) == e;
    }
  }

  /** The store of laps, keyed by lap id. */
  class LapStore {
    var entries: map<string, LapEntry>

    /** The store's invariant. */
    ghost predicate Valid()
      reads this
    {
      Consistent(entries)
    }

    constructor ()
      ensures Valid() && entries == map[]
    {
      entries := map[];
    }

    /** Files a lap under its id, as `insert_one` and `update_one` do. A
        time outside the BSON integer range cannot be encoded: the driver
        raises and nothing is written. */
    method Write(e: LapEntry) returns (written: bool)
      requires Valid() && ParseLapTime(e.lapTimeDisplay) == Ok(e.lapTimeMs)
      modifies this
      ensures Valid() && written == FitsInt64(e.lapTimeMs)
      ensures entries == if written then old(entries)[e.id := e] else old(entries)
    {
      if !FitsInt64(e.lapTimeMs) {
        return false;
      }
      StoreLap(entries, e);
      entries := entries[e.id := e];
      written := true;
    }

    /** `create_lap_entry`: parse the display text; on failure answer 400
        and store nothing. Otherwise store the lap under the fresh `id` and
        answer it with place 0 and an empty gap, unless its time is beyond
        a BSON integer: then `insert_one` raises, the answer is 500 and
        nothing is stored. */
    method CreateLapEntry(id: string, createdAt: string, entry: LapEntryCreate)
      returns (r: Result<LapEntryResponse, HttpError>)
      requires Valid() && id !in entries
      modifies this
      ensures Valid()
      ensures ParseLapTime(entry.lapTimeDisplay).Err? ==>
        r == Err(HttpError(400, InvalidTimeFormat)) && entries == old(entries)
      ensures ParseLapTime(entry.lapTimeDisplay).Ok? && !FitsInt64(ParseLapTime(entry.lapTimeDisplay).value) ==>
        r == Err(InternalServerError) && entries == old(entries)
      ensures ParseLapTime(entry.lapTimeDisplay).Ok? && FitsInt64(ParseLapTime(entry.lapTimeDisplay).value) ==>
        var stored := LapEntry(id, entry.driverName, entry.team, ParseLapTime(entry.lapTimeDisplay).value,
                               entry.lapTimeDisplay, createdAt);
        entries == old(entries)[id := stored] && r == Ok(ToResponse(stored, 0, ""))
    {
      var parsed := ParseLapTime(entry.lapTimeDisplay);
      if parsed.Err? {
        return Err(HttpError(400, parsed.error));
      }
      var lapEntry := LapEntry(id, entry.driverName, entry.team, parsed.value, entry.lapTimeDisplay, createdAt);
      var written := Write(lapEntry);
      if !written {
        return Err(InternalServerError);
      }
      r := Ok(ToResponse(lapEntry, 0, ""));
    }

    /** `get_lap_entry`: the stored lap with place 0 and an empty gap, or 404. */
    method GetLapEntry(lapId: string) returns (r: Result<LapEntryResponse, HttpError>)
      requires Valid()
      ensures r.Ok? <==> lapId in entries
      ensures r.Ok? ==> r.value.rank == 0 && r.value.gap == "" && Carries(r.value, entries[lapId])
      ensures r.Err? ==> r.error == HttpError(404, LapNotFound)
    {
      if lapId !in entries {
        return Err(HttpError(404, LapNotFound));
      }
      r := Ok(ToResponse(entries[lapId], 0, ""));
    }

    /** `update_lap_entry`: 404 for an unknown id; otherwise collect the
        given fields into `update_data` (the milliseconds with the display
        text), answer 400 without writing if the new text does not parse,
        write them in one `$set` if there are any, and answer the lap as
        stored afterwards. A new time beyond a BSON integer makes
        `update_one` raise: the answer is 500 and nothing is written. */
    method UpdateLapEntry(lapId: string, update: LapEntryUpdate) returns (r: Result<LapEntryResponse, HttpError>)
      requires Valid()
      modifies this
      ensures Valid()
      ensures lapId !in old(entries) ==> r == Err(HttpError(404, LapNotFound)) && entries == old(entries)
      ensures lapId in old(entries) && Updated(old(entries)[lapId], update).Err? ==>
        r == Err(HttpError(400, InvalidTimeFormat)) && entries == old(entries)
      ensures lapId in old(entries) && Updated(old(entries)[lapId], update).Ok? ==>
        var n := Updated(old(entries)[lapId], update).value;
        (!FitsInt64(n.lapTimeMs) ==> r == Err(InternalServerError) && entries == old(entries)) &&
        (FitsInt64(n.lapTimeMs) ==> entries == old(entries)[lapId := n] && r == Ok(ToResponse(n, 0, "")))
    {
      if lapId !in entries {
        return Err(HttpError(404, LapNotFound));
      }
      var entry := entries[lapId];
      var built := BuildUpdateData(update);
      if built.Err? {
        return Err(built.error);
      }
      var updateData := built.value;
      UpdateStep(entries, lapId, update, updateData);
      if updateData != map[] {
        var written := Write(SetFields(entry, updateData));
        if !written {
          return Err(InternalServerError);
        }
      }
      r := Ok(ToResponse(entries[lapId], 0, ""));
    }

    /** `delete_lap_entry`: remove the lap, or answer 404 and change nothing. */
    method DeleteLapEntry(lapId: string) returns (r: Result<string, HttpError>)
      requires Valid()
      modifies this
      ensures Valid()
      ensures lapId in old(entries) ==>
        r == Ok("Lap entry deleted successfully") && entries == old(entries) - {lapId}
      ensures lapId !in old(entries) ==> r == Err(HttpError(404, LapNotFound)) && entries == old(entries)
    {
      if lapId !in entries {
        return Err(HttpError(404, LapNotFound));
      }
      entries := entries - {lapId};
      r := Ok("Lap entry deleted successfully");
    }

    /** `delete_all_laps`: empty the store. */
    method DeleteAllLaps() returns (message: string)
      modifies this
      ensures Valid() && entries == map[]
      ensures message == "All lap entries deleted successfully"
    {
      entries := map[];
      message := "All lap entries deleted successfully";
    }
  }
}
