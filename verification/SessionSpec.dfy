/** The session tables as values: the SQL statements, and the procedures the
    runtime composes from them when no other client interferes. */
module SessionSpec {
  import opened Wrappers
  import opened Text

  /** Who a session belongs to. */
  datatype Identity = Identity(platform: string, account: string, conversation: string)

  datatype Row = Row(claudeId: string, identity: Identity, created: int, lastUsed: int)

  /** `runner_sessions` by session key, `runner_session_aliases` by external id. */
  datatype Store = Store(sessions: map<string, Row>, aliases: map<string, string>)

  datatype SessionRecord = SessionRecord(
    key: string,
    externalId: string,
    claudeId: string,
    identity: Identity,
    userId: string,
    created: int,
    lastUsed: int,
    isNew: bool)

  datatype SessionError = SessionConflict(externalId: string, platform: string, conversation: string, userId: string)

  datatype Request = Request(identity: Identity, sessionId: string)

  function SessionKey(id: Identity): string {
    "conversation::" + id.platform + "::" + id.account + "::" + id.conversation
  }

  predicate Blank(sessionId: string) {
    Trim(sessionId) == []
  }

  // ------------------------------------------------------------- statements

  function Fetch(st: Store, key: string, ext: string): Option<SessionRecord> {
    if key !in st.sessions then None
    else
      var row := st.sessions[key];
      Some(SessionRecord(key, ext, row.claudeId, row.identity, "", row.created, row.lastUsed, false))
  }

  /** INSERT ... ON CONFLICT(session_key) DO NOTHING. */
  function Insert(st: Store, key: string, row: Row): (Store, bool) {
    if key in st.sessions then (st, false) else (st.(sessions := st.sessions[key := row]), true)
  }

  function Touch(st: Store, key: string, now: int): Store {
    if key !in st.sessions then st
    else st.(sessions := st.sessions[key := st.sessions[key].(lastUsed := now)])
  }

  function Rotate(st: Store, key: string, claudeId: string, now: int): Store {
    if key !in st.sessions then st
    else st.(sessions := st.sessions[key := st.sessions[key].(claudeId := claudeId, created := now, lastUsed := now)])
  }

  function LookupAlias(st: Store, ext: string): Option<string> {
    if ext in st.aliases then Some(st.aliases[ext]) else None
  }

  function UpsertAlias(st: Store, ext: string, key: string): Store {
    st.(aliases := st.aliases[ext := key])
  }

  // ------------------------------------------------------------- procedures

  function NewRecord(key: string, ext: string, id: Identity, claudeId: string, now: int): SessionRecord {
    SessionRecord(key, ext, claudeId, id, "", now, now, true)
  }

  function IdentityError(record: SessionRecord, id: Identity): Option<SessionError> {
    if record.identity == id then None
    else Some(SessionConflict(record.externalId, record.identity.platform, record.identity.conversation, record.userId))
  }

  function NoSession(ext: string, id: Identity): SessionError {
    SessionConflict(ext, id.platform, id.conversation, "")
  }

  function GetOrCreateByKey(st: Store, key: string, id: Identity, ext: string, now: int, uuid: string):
    (Store, Result<SessionRecord, SessionError>)
  {
    match Fetch(st, key, ext)
    case Some(record) =>
      if IdentityError(record, id).Some? then (st, Err(IdentityError(record, id).value))
      else (Touch(st, key, now), Ok(record.(lastUsed := now)))
    case None =>
      (Insert(st, key, Row(uuid, id, now, now)).0, Ok(NewRecord(key, ext, id, uuid, now)))
  }

  function ResetByKey(st: Store, key: string, id: Identity, ext: string, now: int, uuid: string):
    (Store, Result<SessionRecord, SessionError>)
  {
    match Fetch(st, key, ext)
    case None => (st, Err(NoSession(ext, id)))
    case Some(record) =>
      if IdentityError(record, id).Some? then (st, Err(IdentityError(record, id).value))
      else (Rotate(st, key, uuid, now), Ok(NewRecord(key, ext, id, uuid, now)))
  }

  /** The error, if any, that forbids binding the external id to this conversation. */
  function BindingError(st: Store, ext: string, id: Identity): Option<SessionError> {
    match LookupAlias(st, ext)
    case None => None
    case Some(bound) =>
      if bound == SessionKey(id) then None
      else
        match Fetch(st, bound, ext)
        case None => Some(NoSession(ext, id))
        case Some(existing) =>
          Some(SessionConflict(ext, existing.identity.platform, existing.identity.conversation, existing.userId))
  }

  function BindExternal(st: Store, ext: string, id: Identity): (Store, Option<SessionError>) {
    if BindingError(st, ext, id).Some? then (st, BindingError(st, ext, id))
    else
      match Fetch(st, SessionKey(id), ext)
      case None => (st, Some(NoSession(ext, id)))
      case Some(record) =>
        if IdentityError(record, id).Some? then (st, IdentityError(record, id))
        else (UpsertAlias(st, ext, SessionKey(id)), None)
  }

  /** The tail both runtime procedures share: bind the alias, then return the record. */
  function BindAndReturn(st: Store, req: Request, result: Result<SessionRecord, SessionError>):
    (Store, Result<SessionRecord, SessionError>)
  {
    if result.Err? || Blank(req.sessionId) then (st, result)
    else
      var (st', error) := BindExternal(st, req.sessionId, req.identity);
      (st', if error.Some? then Err(error.value) else result)
  }

  function LoadRuntime(st: Store, req: Request, now: int, uuid: string): (Store, Result<SessionRecord, SessionError>) {
    var error := BindingError(st, req.sessionId, req.identity);
    if !Blank(req.sessionId) && error.Some? then (st, Err(error.value))
    else
      var key := SessionKey(req.identity);
      var (st1, result) := GetOrCreateByKey(st, key, req.identity, key, now, uuid);
      BindAndReturn(st1, req, result)
  }

  function ResetRuntime(st: Store, req: Request, now: int, uuid: string): (Store, Result<SessionRecord, SessionError>) {
    var error := BindingError(st, req.sessionId, req.identity);
    if !Blank(req.sessionId) && error.Some? then (st, Err(error.value))
    else
      var key := SessionKey(req.identity);
      var (st1, result) := ResetByKey(st, key, req.identity, key, now, uuid);
      BindAndReturn(st1, req, result)
  }

  function GetOrCreateBound(st: Store, ext: string, id: Identity, now: int, uuid: string):
    (Store, Result<SessionRecord, SessionError>)
  {
    if BindingError(st, ext, id).Some? then (st, Err(BindingError(st, ext, id).value))
    else
      var (st1, result) := GetOrCreateByKey(st, SessionKey(id), id, ext, now, uuid);
      if result.Err? then (st1, result) else (UpsertAlias(st1, ext, SessionKey(id)), result)
  }

  /** Unlike the others, this one binds the alias without asking whether it is taken. */
  function ResetBound(st: Store, ext: string, id: Identity, now: int, uuid: string):
    (Store, Result<SessionRecord, SessionError>)
  {
    var (st1, result) := ResetByKey(st, SessionKey(id), id, ext, now, uuid);
    if result.Err? then (st1, result) else (UpsertAlias(st1, ext, SessionKey(id)), result)
  }

  function GetSession(st: Store, ext: string): Option<SessionRecord> {
    match LookupAlias(st, ext)
    case Some(key) => Fetch(st, key, ext)
    case None => Fetch(st, ext, ext)
  }

  // -------------------------------------------------------------- invariant

  ghost predicate StoreOk(st: Store) {
    && (forall k | k in st.sessions :: k == SessionKey(st.sessions[k].identity))
    && (forall e | e in st.aliases :: st.aliases[e] in st.sessions)
  }

  /** Nothing is forgotten: sessions keep their key and identity, aliases their session. */
  ghost predicate Keeps(st: Store, st': Store) {
    && (forall k | k in st.sessions :: k in st'.sessions && st'.sessions[k].identity == st.sessions[k].identity)
    && (forall e | e in st.aliases :: e in st'.aliases && st'.aliases[e] == st.aliases[e])
  }

  // ------------------------------------------------------ runs of procedures

  datatype Call =
    | Load(req: Request)
    | Reset(req: Request)
    | Bound(req: Request)
    | Bind(req: Request)

  function Perform(st: Store, call: Call, now: int, uuid: string): (Store, Result<SessionRecord, SessionError>) {
    match call
    case Load(req) => LoadRuntime(st, req, now, uuid)
    case Reset(req) => ResetRuntime(st, req, now, uuid)
    case Bound(req) => GetOrCreateBound(st, req.sessionId, req.identity, now, uuid)
    case Bind(req) =>
      var (st', error) := BindExternal(st, req.sessionId, req.identity);
      (st', if error.Some? then Err(error.value)
      else Ok(NewRecord(SessionKey(req.identity), req.sessionId, req.identity, "", now).(isNew := false)))
  }

  /** Whether the request's external id may name its conversation. */
  ghost predicate AliasFree(st: Store, req: Request) {
    req.sessionId in st.aliases ==> st.aliases[req.sessionId] == SessionKey(req.identity)
  }

  /** No other conversation's session sits under the request's key. */
  ghost predicate KeyFree(st: Store, req: Request) {
    var key := SessionKey(req.identity);
    key in st.sessions ==> st.sessions[key].identity == req.identity
  }

  /** When a call succeeds. */
  ghost predicate Accepts(st: Store, call: Call) {
    match call
    case Load(req) => (Blank(req.sessionId) || AliasFree(st, req)) && KeyFree(st, req)
    case Reset(req) =>
      (Blank(req.sessionId) || AliasFree(st, req)) && KeyFree(st, req) && SessionKey(req.identity) in st.sessions
    case Bound(req) => AliasFree(st, req) && KeyFree(st, req)
    case Bind(req) => AliasFree(st, req) && KeyFree(st, req) && SessionKey(req.identity) in st.sessions
  }

  lemma BindingErrorExactly(st: Store, req: Request)
    ensures BindingError(st, req.sessionId, req.identity).None? <==> AliasFree(st, req)
  {
  }

  /** Binding after the session was written cannot fail, so nothing is half done. */
  lemma BindAfterWrite(st: Store, req: Request)
    requires AliasFree(st, req) && SessionKey(req.identity) in st.sessions && KeyFree(st, req)
    ensures BindExternal(st, req.sessionId, req.identity) ==
            (UpsertAlias(st, req.sessionId, SessionKey(req.identity)), None)
  {
  }

  function WriteRow(st: Store, id: Identity, row: Row): Store {
    st.(sessions := st.sessions[SessionKey(id) := row])
  }

  function WriteAlias(st: Store, req: Request): Store {
    if Blank(req.sessionId) then st else UpsertAlias(st, req.sessionId, SessionKey(req.identity))
  }

  lemma RowKeeps(st: Store, req: Request, row: Row)
    requires StoreOk(st) && KeyFree(st, req) && row.identity == req.identity
    ensures StoreOk(WriteRow(st, req.identity, row)) && Keeps(st, WriteRow(st, req.identity, row))
  {
  }

  lemma AliasKeeps(st: Store, req: Request)
    requires StoreOk(st) && AliasFree(st, req) && SessionKey(req.identity) in st.sessions
    ensures StoreOk(UpsertAlias(st, req.sessionId, SessionKey(req.identity)))
    ensures Keeps(st, UpsertAlias(st, req.sessionId, SessionKey(req.identity)))
  {
  }

  /** The row a successful `get_or_create_by_key` leaves under the key. */
  function LoadedRow(st: Store, id: Identity, now: int, uuid: string): Row {
    var key := SessionKey(id);
    if key in st.sessions then st.sessions[key].(lastUsed := now) else Row(uuid, id, now, now)
  }

  lemma GetOrCreateWrites(st: Store, id: Identity, ext: string, now: int, uuid: string)
    ensures var (st', result) := GetOrCreateByKey(st, SessionKey(id), id, ext, now, uuid);
            if KeyFree(st, Request(id, ext)) then
              var row := LoadedRow(st, id, now, uuid);
              && st' == WriteRow(st, id, row)
              && result == Ok(SessionRecord(SessionKey(id), ext, row.claudeId, id, "", row.created, now,
                                            SessionKey(id) !in st.sessions))
            else st' == st && result.Err?
  {
  }

  lemma ResetWrites(st: Store, id: Identity, ext: string, now: int, uuid: string)
    ensures var (st', result) := ResetByKey(st, SessionKey(id), id, ext, now, uuid);
            if SessionKey(id) in st.sessions && KeyFree(st, Request(id, ext)) then
              && st' == WriteRow(st, id, Row(uuid, id, now, now))
              && result == Ok(NewRecord(SessionKey(id), ext, id, uuid, now))
            else st' == st && result.Err?
  {
  }

  lemma LoadWrites(st: Store, req: Request, now: int, uuid: string)
    ensures var (st', result) := LoadRuntime(st, req, now, uuid);
            if Accepts(st, Load(req)) then
              var row := LoadedRow(st, req.identity, now, uuid);
              && st' == WriteAlias(WriteRow(st, req.identity, row), req)
              && result == Ok(SessionRecord(SessionKey(req.identity), SessionKey(req.identity), row.claudeId,
                                            req.identity, "", row.created, now,
                                            SessionKey(req.identity) !in st.sessions))
            else st' == st && result.Err?
  {
    var key := SessionKey(req.identity);
    BindingErrorExactly(st, req);
    GetOrCreateWrites(st, req.identity, key, now, uuid);
    if Accepts(st, Load(req)) && !Blank(req.sessionId) {
      BindAfterWrite(GetOrCreateByKey(st, key, req.identity, key, now, uuid).0, req);
    }
  }

  lemma ResetRuntimeWrites(st: Store, req: Request, now: int, uuid: string)
    ensures var (st', result) := ResetRuntime(st, req, now, uuid);
            if Accepts(st, Reset(req)) then
              && st' == WriteAlias(WriteRow(st, req.identity, Row(uuid, req.identity, now, now)), req)
              && result == Ok(NewRecord(SessionKey(req.identity), SessionKey(req.identity), req.identity, uuid, now))
            else st' == st && result.Err?
  {
    var key := SessionKey(req.identity);
    BindingErrorExactly(st, req);
    ResetWrites(st, req.identity, key, now, uuid);
    if Accepts(st, Reset(req)) && !Blank(req.sessionId) {
      BindAfterWrite(ResetByKey(st, key, req.identity, key, now, uuid).0, req);
    }
  }

  ghost predicate Behaves(st: Store, call: Call, now: int, uuid: string) {
    var (st', result) := Perform(st, call, now, uuid);
    && (result.Ok? <==> Accepts(st, call))
    && (result.Err? ==> st' == st)
    && StoreOk(st')
    && Keeps(st, st')
  }

  lemma WritesKeep(st: Store, req: Request, row: Row)
    requires StoreOk(st) && KeyFree(st, req) && row.identity == req.identity && AliasFree(st, req)
    ensures var st' := UpsertAlias(WriteRow(st, req.identity, row), req.sessionId, SessionKey(req.identity));
            StoreOk(st') && Keeps(st, st')
  {
    RowKeeps(st, req, row);
    AliasKeeps(WriteRow(st, req.identity, row), req);
  }

  lemma LoadBehaves(st: Store, req: Request, now: int, uuid: string)
    requires StoreOk(st)
    ensures Behaves(st, Load(req), now, uuid)
  {
    LoadWrites(st, req, now, uuid);
    if Accepts(st, Load(req)) {
      var row := LoadedRow(st, req.identity, now, uuid);
      RowKeeps(st, req, row);
      if !Blank(req.sessionId) {
        WritesKeep(st, req, row);
      }
    }
  }

  lemma ResetBehaves(st: Store, req: Request, now: int, uuid: string)
    requires StoreOk(st)
    ensures Behaves(st, Reset(req), now, uuid)
  {
    ResetRuntimeWrites(st, req, now, uuid);
    if Accepts(st, Reset(req)) {
      var row := Row(uuid, req.identity, now, now);
      RowKeeps(st, req, row);
      if !Blank(req.sessionId) {
        WritesKeep(st, req, row);
      }
    }
  }

  lemma BoundBehaves(st: Store, req: Request, now: int, uuid: string)
    requires StoreOk(st)
    ensures Behaves(st, Bound(req), now, uuid)
  {
    BindingErrorExactly(st, req);
    GetOrCreateWrites(st, req.identity, req.sessionId, now, uuid);
    if Accepts(st, Bound(req)) {
      WritesKeep(st, req, LoadedRow(st, req.identity, now, uuid));
    }
  }

  lemma BindBehaves(st: Store, req: Request, now: int, uuid: string)
    requires StoreOk(st)
    ensures Behaves(st, Bind(req), now, uuid)
  {
    BindingErrorExactly(st, req);
    if Accepts(st, Bind(req)) {
      AliasKeeps(st, req);
    }
  }

  /** Every call succeeds exactly when its alias and its key are free for it, a
      refused call leaves both tables as they were (in particular rotates
      nothing), and no call loses a session or moves an alias. */
  lemma CallBehaves(st: Store, call: Call, now: int, uuid: string)
    requires StoreOk(st)
    ensures Behaves(st, call, now, uuid)
  {
    match call
    case Load(req) => LoadBehaves(st, req, now, uuid);
    case Reset(req) => ResetBehaves(st, req, now, uuid);
    case Bound(req) => BoundBehaves(st, req, now, uuid);
    case Bind(req) => BindBehaves(st, req, now, uuid);
  }

  datatype TimedCall = TimedCall(call: Call, now: int, uuid: string)

  function AfterCalls(st: Store, calls: seq<TimedCall>): Store
    decreases |calls|
  {
    if calls == [] then st
    else AfterCalls(Perform(st, calls[0].call, calls[0].now, calls[0].uuid).0, calls[1..])
  }

  lemma {:induction false} CallsKeepStore(st: Store, calls: seq<TimedCall>)
    requires StoreOk(st)
    ensures StoreOk(AfterCalls(st, calls)) && Keeps(st, AfterCalls(st, calls))
    decreases |calls|
  {
    if calls != [] {
      CallBehaves(st, calls[0].call, calls[0].now, calls[0].uuid);
      CallsKeepStore(Perform(st, calls[0].call, calls[0].now, calls[0].uuid).0, calls[1..]);
    }
  }

  /** After a successful load the external id names exactly the record returned,
      which is new just when the conversation had no session before. */
  lemma LoadThenGet(st: Store, req: Request, now: int, uuid: string)
    requires StoreOk(st) && !Blank(req.sessionId) && LoadRuntime(st, req, now, uuid).1.Ok?
    ensures var (st', result) := LoadRuntime(st, req, now, uuid);
            && GetSession(st', req.sessionId) == Some(result.value.(externalId := req.sessionId, isNew := false))
            && (result.value.isNew <==> SessionKey(req.identity) !in st.sessions)
  {
    LoadWrites(st, req, now, uuid);
  }

  /** A successful reset changes the claude id and dates of its own row and
      nothing else in the session table; the identity stays. */
  lemma ResetRotatesOnlyItsRow(st: Store, req: Request, now: int, uuid: string)
    requires StoreOk(st) && ResetRuntime(st, req, now, uuid).1.Ok?
    ensures var (st', result) := ResetRuntime(st, req, now, uuid);
            var key := SessionKey(req.identity);
            && key in st.sessions
            && st'.sessions == st.sessions[key := Row(uuid, st.sessions[key].identity, now, now)]
            && result.value.claudeId == uuid && result.value.isNew && result.value.identity == req.identity
  {
    ResetRuntimeWrites(st, req, now, uuid);
  }

  /** `reset_bound_session` keeps aliases in place exactly when the alias was free for it. */
  lemma ResetBoundMovesAliasExactly(st: Store, req: Request, now: int, uuid: string)
    requires StoreOk(st) && ResetBound(st, req.sessionId, req.identity, now, uuid).1.Ok?
    ensures StoreOk(ResetBound(st, req.sessionId, req.identity, now, uuid).0)
    ensures Keeps(st, ResetBound(st, req.sessionId, req.identity, now, uuid).0) <==> AliasFree(st, req)
  {
    var st' := ResetBound(st, req.sessionId, req.identity, now, uuid).0;
    assert st'.aliases[req.sessionId] == SessionKey(req.identity);
  }
}
