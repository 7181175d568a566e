/** The session store and the runner's use of it, updating the two tables
    statement by statement. With no other client in between, each method computes
    the function of SessionSpec.dfy of its name. */
module SessionStore {
  import opened Wrappers
  import opened SessionSpec

  class SessionTables {
    var sessions: map<string, Row>
    var aliases: map<string, string>

    ghost function Model(): Store
      reads this
    {
      Store(sessions, aliases)
    }

    constructor ()
      ensures Model() == Store(map[], map[]) && StoreOk(Model())
    {
      sessions, aliases := map[], map[];
    }

    method FetchSession(key: string, ext: string) returns (record: Option<SessionRecord>)
      ensures record == Fetch(Model(), key, ext)
    {
      record := None;
      if key in sessions {
        var row := sessions[key];
        record := Some(SessionRecord(key, ext, row.claudeId, row.identity, "", row.created, row.lastUsed, false));
      }
    }

    method TouchSession(key: string, now: int)
      modifies this`sessions
      ensures Model() == Touch(old(Model()), key, now)
    {
      if key in sessions {
        sessions := sessions[key := sessions[key].(lastUsed := now)];
      }
    }

    method InsertSession(key: string, row: Row) returns (inserted: bool)
      modifies this`sessions
      ensures (Model(), inserted) == Insert(old(Model()), key, row)
    {
      inserted := key !in sessions;
      if inserted {
        sessions := sessions[key := row];
      }
    }

    method RotateSession(key: string, claudeId: string, now: int)
      modifies this`sessions
      ensures Model() == Rotate(old(Model()), key, claudeId, now)
    {
      if key in sessions {
        sessions := sessions[key := sessions[key].(claudeId := claudeId, created := now, lastUsed := now)];
      }
    }

    method UpsertSessionAlias(ext: string, key: string)
      modifies this`aliases
      ensures Model() == UpsertAlias(old(Model()), ext, key)
    {
      aliases := aliases[ext := key];
    }

    /** `rival` is the row that another client stores under the key between the
        fetch and the insert, if one does. Losing that race is the same as having
        come after it. */
    method GetOrCreate(key: string, id: Identity, ext: string, now: int, uuid: string, rival: Option<Row>)
      returns (result: Result<SessionRecord, SessionError>)
      modifies this`sessions
      ensures var seen := if key in old(sessions) || rival.None? then old(Model())
                          else Insert(old(Model()), key, rival.value).0;
              (Model(), result) == GetOrCreateByKey(seen, key, id, ext, now, uuid)
    {
      var fetched := FetchSession(key, ext);
      if fetched.Some? {
        var error := IdentityError(fetched.value, id);
        if error.Some? {
          return Err(error.value);
        }
        TouchSession(key, now);
        return Ok(fetched.value.(lastUsed := now));
      }
      if rival.Some? {
        var _ := InsertSession(key, rival.value);
      }
      var inserted := InsertSession(key, Row(uuid, id, now, now));
      if !inserted {
        fetched := FetchSession(key, ext);
        assert fetched.Some?;
        var error := IdentityError(fetched.value, id);
        if error.Some? {
          return Err(error.value);
        }
        TouchSession(key, now);
        return Ok(fetched.value.(lastUsed := now));
      }
      result := Ok(NewRecord(key, ext, id, uuid, now));
    }

    method ResetKey(key: string, id: Identity, ext: string, now: int, uuid: string)
      returns (result: Result<SessionRecord, SessionError>)
      modifies this`sessions
      ensures (Model(), result) == ResetByKey(old(Model()), key, id, ext, now, uuid)
    {
      var existing := FetchSession(key, ext);
      if existing.None? {
        return Err(NoSession(ext, id));
      }
      var error := IdentityError(existing.value, id);
      if error.Some? {
        return Err(error.value);
      }
      RotateSession(key, uuid, now);
      result := Ok(NewRecord(key, ext, id, uuid, now));
    }

    method ValidateBinding(ext: string, id: Identity) returns (error: Option<SessionError>)
      ensures error == BindingError(Model(), ext, id)
    {
      if ext !in aliases || aliases[ext] == SessionKey(id) {
        return None;
      }
      var existing := FetchSession(aliases[ext], ext);
      if existing.None? {
        return Some(NoSession(ext, id));
      }
      error := Some(SessionConflict(ext, existing.value.identity.platform, existing.value.identity.conversation,
                                    existing.value.userId));
    }

    method BindExternalId(ext: string, id: Identity) returns (error: Option<SessionError>)
      modifies this`aliases
      ensures (Model(), error) == BindExternal(old(Model()), ext, id)
    {
      error := ValidateBinding(ext, id);
      if error.Some? {
        return;
      }
      var record := FetchSession(SessionKey(id), ext);
      if record.None? {
        return Some(NoSession(ext, id));
      }
      error := IdentityError(record.value, id);
      if error.None? {
        UpsertSessionAlias(ext, SessionKey(id));
      }
    }

    method GetOrCreateBoundSession(ext: string, id: Identity, now: int, uuid: string)
      returns (result: Result<SessionRecord, SessionError>)
      modifies this
      ensures (Model(), result) == GetOrCreateBound(old(Model()), ext, id, now, uuid)
    {
      var error := ValidateBinding(ext, id);
      if error.Some? {
        return Err(error.value);
      }
      result := GetOrCreate(SessionKey(id), id, ext, now, uuid, None);
      if result.Ok? {
        UpsertSessionAlias(ext, SessionKey(id));
      }
    }

    method ResetBoundSession(ext: string, id: Identity, now: int, uuid: string)
      returns (result: Result<SessionRecord, SessionError>)
      modifies this
      ensures (Model(), result) == ResetBound(old(Model()), ext, id, now, uuid)
    {
      result := ResetKey(SessionKey(id), id, ext, now, uuid);
      if result.Ok? {
        UpsertSessionAlias(ext, SessionKey(id));
      }
    }

    method LoadRuntimeSession(req: Request, now: int, uuid: string)
      returns (result: Result<SessionRecord, SessionError>)
      modifies this
      ensures (Model(), result) == LoadRuntime(old(Model()), req, now, uuid)
      ensures old(StoreOk(Model())) ==> StoreOk(Model()) && Keeps(old(Model()), Model())
      ensures old(StoreOk(Model())) && result.Err? ==> Model() == old(Model())
    {
      ghost var before := Model();
      if StoreOk(before) {
        LoadBehaves(before, req, now, uuid);
      }
      if !Blank(req.sessionId) {
        var error := ValidateBinding(req.sessionId, req.identity);
        if error.Some? {
          return Err(error.value);
        }
      }
      var key := SessionKey(req.identity);
      result := GetOrCreate(key, req.identity, key, now, uuid, None);
      if result.Ok? && !Blank(req.sessionId) {
        var error := BindExternalId(req.sessionId, req.identity);
        if error.Some? {
          result := Err(error.value);
        }
      }
    }

    method ResetRuntimeSession(req: Request, now: int, uuid: string)
      returns (result: Result<SessionRecord, SessionError>)
      modifies this
      ensures (Model(), result) == ResetRuntime(old(Model()), req, now, uuid)
      ensures old(StoreOk(Model())) ==> StoreOk(Model()) && Keeps(old(Model()), Model())
      ensures old(StoreOk(Model())) && result.Err? ==> Model() == old(Model())
    {
      ghost var before := Model();
      if StoreOk(before) {
        ResetBehaves(before, req, now, uuid);
      }
      if !Blank(req.sessionId) {
        var error := ValidateBinding(req.sessionId, req.identity);
        if error.Some? {
          return Err(error.value);
        }
      }
      var key := SessionKey(req.identity);
      result := ResetKey(key, req.identity, key, now, uuid);
      if result.Ok? && !Blank(req.sessionId) {
        var error := BindExternalId(req.sessionId, req.identity);
        if error.Some? {
          result := Err(error.value);
        }
      }
    }
  }
}
