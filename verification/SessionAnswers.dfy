/** What the session procedures answer: whom a refusal names, what the bound
    procedures write, and what a lookup finds. */
module SessionAnswers {
  import opened Wrappers
  import opened Text
  import opened SessionSpec

  /** The refusal under `ext` that names the conversation `id`. */
  ghost predicate Names(result: Result<SessionRecord, SessionError>, ext: string, id: Identity) {
    result == Err(SessionConflict(ext, id.platform, id.conversation, ""))
  }

  /** The external id belongs to another session. */
  ghost predicate AliasTaken(st: Store, req: Request) {
    req.sessionId in st.aliases && st.aliases[req.sessionId] != SessionKey(req.identity)
  }

  /** Whose session the external id names. */
  ghost function AliasHolder(st: Store, ext: string): Identity
    requires StoreOk(st) && ext in st.aliases
  {
    st.sessions[st.aliases[ext]].identity
  }

  /** Only the alias of the request, if it names one, comes to name its session. */
  ghost predicate BindsOnly(st: Store, st': Store, req: Request) {
    if AllWhite(req.sessionId) then st'.aliases == st.aliases
    else st'.aliases == st.aliases[req.sessionId := SessionKey(req.identity)]
  }

  // ------------------------------------------------------ runtime procedures

  /** Loading: the row touched or inserted, the alias, and the record; or a refusal
      that names the holder of the external id, else the holder of the key. */
  lemma LoadExactly(st: Store, req: Request, now: int, uuid: string)
    requires StoreOk(st)
    ensures var (st', result) := LoadRuntime(st, req, now, uuid);
            var key := SessionKey(req.identity);
            if !AllWhite(req.sessionId) && AliasTaken(st, req) then
              st' == st && Names(result, req.sessionId, AliasHolder(st, req.sessionId))
            else if key in st.sessions && st.sessions[key].identity != req.identity then
              st' == st && Names(result, key, st.sessions[key].identity)
            else
              && BindsOnly(st, st', req)
              && (if key in st.sessions
                  then st'.sessions == st.sessions[key := st.sessions[key].(lastUsed := now)]
                  else st'.sessions == st.sessions[key := Row(uuid, req.identity, now, now)])
              && result == Ok(SessionRecord(key, key, st'.sessions[key].claudeId, req.identity, "",
                                            st'.sessions[key].created, now, key !in st.sessions))
  {
    TrimExactly(req.sessionId);
    LoadWrites(st, req, now, uuid);
  }

  /** Resetting: the row rotated, the alias, and the record as new; or a refusal,
      which names the conversation itself when it has no session. */
  lemma ResetExactly(st: Store, req: Request, now: int, uuid: string)
    requires StoreOk(st)
    ensures var (st', result) := ResetRuntime(st, req, now, uuid);
            var key := SessionKey(req.identity);
            if !AllWhite(req.sessionId) && AliasTaken(st, req) then
              st' == st && Names(result, req.sessionId, AliasHolder(st, req.sessionId))
            else if key !in st.sessions then
              st' == st && Names(result, key, req.identity)
            else if st.sessions[key].identity != req.identity then
              st' == st && Names(result, key, st.sessions[key].identity)
            else
              && BindsOnly(st, st', req)
              && st'.sessions == st.sessions[key := Row(uuid, req.identity, now, now)]
              && result == Ok(SessionRecord(key, key, uuid, req.identity, "", now, now, true))
  {
    TrimExactly(req.sessionId);
    ResetRuntimeWrites(st, req, now, uuid);
  }

  // ------------------------------------------------------ bound procedures

  /** Creating a bound session: the row and the alias, or a refusal and nothing. */
  lemma BoundExactly(st: Store, req: Request, now: int, uuid: string)
    requires StoreOk(st)
    ensures var (st', result) := GetOrCreateBound(st, req.sessionId, req.identity, now, uuid);
            var key := SessionKey(req.identity);
            if AliasTaken(st, req) then
              st' == st && Names(result, req.sessionId, AliasHolder(st, req.sessionId))
            else if key in st.sessions && st.sessions[key].identity != req.identity then
              st' == st && Names(result, req.sessionId, st.sessions[key].identity)
            else
              && st'.aliases == st.aliases[req.sessionId := key]
              && (if key in st.sessions
                  then st'.sessions == st.sessions[key := st.sessions[key].(lastUsed := now)]
                  else st'.sessions == st.sessions[key := Row(uuid, req.identity, now, now)])
              && result == Ok(SessionRecord(key, req.sessionId, st'.sessions[key].claudeId, req.identity, "",
                                            st'.sessions[key].created, now, key !in st.sessions))
  {
  }

  /** Binding: the alias and nothing else, or a refusal and nothing. */
  lemma BindExactly(st: Store, req: Request)
    requires StoreOk(st)
    ensures var (st', error) := BindExternal(st, req.sessionId, req.identity);
            var key, ext := SessionKey(req.identity), req.sessionId;
            && st'.sessions == st.sessions
            && if AliasTaken(st, req) then
                 st' == st && error.Some? && Names(Err(error.value), ext, AliasHolder(st, ext))
               else if key !in st.sessions then
                 st' == st && error.Some? && Names(Err(error.value), ext, req.identity)
               else if st.sessions[key].identity != req.identity then
                 st' == st && error.Some? && Names(Err(error.value), ext, st.sessions[key].identity)
               else
                 st'.aliases == st.aliases[ext := key] && error == None
  {
  }

  /** Resetting a bound session: the row rotated and the alias moved to it, taken or not. */
  lemma ResetBoundExactly(st: Store, req: Request, now: int, uuid: string)
    requires StoreOk(st)
    ensures var (st', result) := ResetBound(st, req.sessionId, req.identity, now, uuid);
            var key, ext := SessionKey(req.identity), req.sessionId;
            if key !in st.sessions then
              st' == st && Names(result, ext, req.identity)
            else if st.sessions[key].identity != req.identity then
              st' == st && Names(result, ext, st.sessions[key].identity)
            else
              && st'.sessions == st.sessions[key := Row(uuid, req.identity, now, now)]
              && st'.aliases == st.aliases[ext := key]
              && result == Ok(SessionRecord(key, ext, uuid, req.identity, "", now, now, true))
  {
  }

  // ----------------------------------------------------------------- lookup

  /** A lookup finds a session exactly when its argument is a bound external id or,
      unbound, a session key: the session it names, as it is stored and not new. */
  lemma GetSessionExactly(st: Store, ext: string)
    requires StoreOk(st)
    ensures GetSession(st, ext).Some? <==> ext in st.aliases || ext in st.sessions
    ensures GetSession(st, ext).Some? ==>
              var r := GetSession(st, ext).value;
              && (if ext in st.aliases then r.key == st.aliases[ext] else r.key == ext)
              && r.key in st.sessions && r.externalId == ext && !r.isNew && r.userId == ""
              && Row(r.claudeId, r.identity, r.created, r.lastUsed) == st.sessions[r.key]
  {
  }

  /** So a conversation's session is also found by its key, after any successful
      load, unless some external id is spelled like the key. */
  lemma LoadThenGetByKey(st: Store, req: Request, now: int, uuid: string)
    requires StoreOk(st) && LoadRuntime(st, req, now, uuid).1.Ok?
    ensures var (st', result) := LoadRuntime(st, req, now, uuid);
            var key := SessionKey(req.identity);
            GetSession(st', key) == Some(result.value.(isNew := false)) <==>
              (key in st'.aliases ==> st'.aliases[key] == key)
  {
    LoadWrites(st, req, now, uuid);
    LoadBehaves(st, req, now, uuid);
    GetSessionExactly(LoadRuntime(st, req, now, uuid).0, SessionKey(req.identity));
  }
}
