/** Any number of concurrent `execute` calls against one database, interleaved
    between single SQL statements: loading the session, binding its alias,
    launching claude, and the one retry with a rotated id. */
module ExecMachine {
  import opened Wrappers
  import opened SessionSpec
  import opened Retry

  /** The first attempt, and the attempt after the session was found missing. */
  datatype Phase = First | Again

  /** What a call does next. */
  datatype Pc =
    | CheckAlias(phase: Phase)
    | FetchRow
    | InsertRow
    | RefetchRow
    | TouchRow(record: SessionRecord)
    | ResetFetch
    | RotateRow
    | BindCheck(phase: Phase, record: SessionRecord)
    | BindFetch(phase: Phase, record: SessionRecord)
    | BindWrite(phase: Phase, record: SessionRecord)
    | Launch(phase: Phase, record: SessionRecord)
    | Await(phase: Phase, record: SessionRecord)
    | Finished
    | Refused(error: SessionError)
    | Failed
    | Panicked

  /** A claude process started: with `--session-id` when `isNew`, else with `--resume`. */
  datatype Started = Started(key: string, claudeId: string, isNew: bool)

  /** `loaded` is what loading the session returned; `started` lists the processes launched. */
  datatype Exec = Exec(req: Request, pc: Pc, loaded: Option<SessionRecord>, started: seq<Started>)

  /** Who stored a claude id, for which conversation, and whether by rotation. */
  datatype Issue = Issue(owner: nat, identity: Identity, rotated: bool)

  /** `issued` and `created` are history: every id ever stored, and the id each
      session was first created with. */
  datatype Machine = Machine(
    store: Store,
    execs: map<nat, Exec>,
    issued: map<string, Issue>,
    created: map<string, string>)

  datatype Event =
    | Begin(p: nat, req: Request)
    | Act(p: nat, now: int, uuid: string, response: Option<Response>)

  const EMPTY: Machine := Machine(Store(map[], map[]), map[], map[], map[])

  predicate Final(pc: Pc) {
    pc.Finished? || pc.Refused? || pc.Failed? || pc.Panicked?
  }

  /** UUIDs are fresh: none has been stored before. */
  predicate Enabled(m: Machine, e: Event) {
    match e
    case Begin(p, _) => p !in m.execs
    case Act(p, _, uuid, _) => p in m.execs && !Final(m.execs[p].pc) && uuid !in m.issued
  }

  // ------------------------------------------------------- one statement

  datatype Effect = Effect(store: Store, exec: Exec, issue: Option<Issue>)

  function Goto(st: Store, x: Exec, pc: Pc): Effect {
    Effect(st, x.(pc := pc), None)
  }

  function LoadedAs(st: Store, x: Exec, record: SessionRecord, pc: Pc): Effect {
    Effect(st, x.(pc := pc, loaded := Some(record)), None)
  }

  function ReadRow(st: Store, x: Exec, absent: Pc): Effect {
    var key := SessionKey(x.req.identity);
    match Fetch(st, key, key)
    case None => Goto(st, x, absent)
    case Some(record) =>
      if IdentityError(record, x.req.identity).Some? then
        Goto(st, x, Refused(IdentityError(record, x.req.identity).value))
      else LoadedAs(st, x, record, TouchRow(record))
  }

  function CheckBinding(st: Store, x: Exec, next: Pc): Effect {
    var error := BindingError(st, x.req.sessionId, x.req.identity);
    Goto(st, x, if !Blank(x.req.sessionId) && error.Some? then Refused(error.value) else next)
  }

  /** The row must be there and carry the request's identity. */
  function CheckRow(st: Store, x: Exec, ext: string, next: Pc): Effect {
    match Fetch(st, SessionKey(x.req.identity), ext)
    case None => Goto(st, x, Refused(NoSession(ext, x.req.identity)))
    case Some(record) =>
      Goto(st, x, if IdentityError(record, x.req.identity).Some?
                  then Refused(IdentityError(record, x.req.identity).value) else next)
  }

  function Statement(st: Store, p: nat, x: Exec, now: int, uuid: string, response: Option<Response>): Effect {
    var id := x.req.identity;
    var key := SessionKey(id);
    match x.pc
    case CheckAlias(phase) => CheckBinding(st, x, if phase.First? then FetchRow else ResetFetch)
    case FetchRow => ReadRow(st, x, InsertRow)
    case InsertRow =>
      var (st', inserted) := Insert(st, key, Row(uuid, id, now, now));
      var record := NewRecord(key, key, id, uuid, now);
      if inserted then
        Effect(st', x.(pc := BindCheck(First, record), loaded := Some(record)), Some(Issue(p, id, false)))
      else Goto(st', x, RefetchRow)
    case RefetchRow => ReadRow(st, x, Panicked)
    case TouchRow(record) => Goto(Touch(st, key, now), x, BindCheck(First, record.(lastUsed := now)))
    case ResetFetch => CheckRow(st, x, key, RotateRow)
    case RotateRow =>
      Effect(Rotate(st, key, uuid, now), x.(pc := BindCheck(Again, NewRecord(key, key, id, uuid, now))),
             if key in st.sessions then Some(Issue(p, id, true)) else None)
    case BindCheck(phase, record) =>
      if Blank(x.req.sessionId) then Goto(st, x, Launch(phase, record))
      else CheckBinding(st, x, BindFetch(phase, record))
    case BindFetch(phase, record) => CheckRow(st, x, x.req.sessionId, BindWrite(phase, record))
    case BindWrite(phase, record) => Goto(UpsertAlias(st, x.req.sessionId, key), x, Launch(phase, record))
    case Launch(phase, record) =>
      if response.None? then Goto(st, x, Failed)
      else Effect(st, x.(pc := Await(phase, record),
                         started := x.started + [Started(record.key, record.claudeId, record.isNew)]), None)
    case Await(phase, record) =>
      if response.None? then Goto(st, x, Failed)
      else if phase.First? && ShouldRetry(response.value, record.isNew) then Goto(st, x, CheckAlias(Again))
      else Goto(st, x, Finished)
    case _ => Goto(st, x, x.pc)
  }

  function Next(m: Machine, e: Event): Machine
    requires Enabled(m, e)
  {
    match e
    case Begin(p, req) => m.(execs := m.execs[p := Exec(req, CheckAlias(First), None, [])])
    case Act(p, now, uuid, response) =>
      var x := m.execs[p];
      var Effect(store, x', issue) := Statement(m.store, p, x, now, uuid, response);
      Machine(store, m.execs[p := x'],
              if issue.Some? then m.issued[uuid := issue.value] else m.issued,
              if issue.Some? && !issue.value.rotated then m.created[SessionKey(x.req.identity) := uuid] else m.created)
  }

  // -------------------------------------------------------------- invariant

  /** The id was stored for this very conversation; a new one by this very call. */
  ghost predicate Owns(issued: map<string, Issue>, p: nat, req: Request, claudeId: string, isNew: bool) {
    && claudeId in issued && issued[claudeId].identity == req.identity
    && (isNew ==> issued[claudeId].owner == p)
  }

  ghost predicate RecordOk(issued: map<string, Issue>, p: nat, req: Request, r: SessionRecord) {
    && r.key == SessionKey(req.identity) && r.identity == req.identity
    && Owns(issued, p, req, r.claudeId, r.isNew)
  }

  ghost predicate StartedOk(issued: map<string, Issue>, p: nat, req: Request, started: seq<Started>) {
    forall i | 0 <= i < |started| ::
      started[i].key == SessionKey(req.identity) && Owns(issued, p, req, started[i].claudeId, started[i].isNew)
  }

  /** One launch; or a resumed launch followed by one under a different, new id. */
  ghost predicate AtMostOneRetry(started: seq<Started>) {
    && |started| <= 2
    && (|started| == 2 ==> !started[0].isNew && started[1].isNew && started[1].claudeId != started[0].claudeId)
  }

  /** The launches already made, given what the call does next. */
  ghost predicate LaunchesFit(pc: Pc, started: seq<Started>) {
    match pc
    case CheckAlias(First) => started == []
    case FetchRow => started == []
    case InsertRow => started == []
    case RefetchRow => started == []
    case TouchRow(_) => started == []
    case CheckAlias(Again) => |started| == 1 && !started[0].isNew
    case ResetFetch => |started| == 1 && !started[0].isNew
    case RotateRow => |started| == 1 && !started[0].isNew
    case BindCheck(phase, r) => PhaseFits(phase, r, started)
    case BindFetch(phase, r) => PhaseFits(phase, r, started)
    case BindWrite(phase, r) => PhaseFits(phase, r, started)
    case Launch(phase, r) => PhaseFits(phase, r, started)
    case Await(phase, r) =>
      && |started| == (if phase.First? then 1 else 2) && AtMostOneRetry(started)
      && started[|started| - 1] == Started(r.key, r.claudeId, r.isNew)
    case _ => AtMostOneRetry(started)
  }

  ghost predicate PhaseFits(phase: Phase, r: SessionRecord, started: seq<Started>) {
    match phase
    case First => started == []
    case Again => |started| == 1 && !started[0].isNew && r.isNew && r.claudeId != started[0].claudeId
  }

  function RecordOf(pc: Pc): Option<SessionRecord> {
    match pc
    case TouchRow(r) => Some(r)
    case BindCheck(_, r) => Some(r)
    case BindFetch(_, r) => Some(r)
    case BindWrite(_, r) => Some(r)
    case Launch(_, r) => Some(r)
    case Await(_, r) => Some(r)
    case _ => None
  }

  /** The call goes on knowing that its conversation's row exists and is its own. */
  ghost predicate RowOwned(st: Store, req: Request) {
    var key := SessionKey(req.identity);
    key in st.sessions && st.sessions[key].identity == req.identity
  }

  predicate StillLoading(pc: Pc) {
    pc == CheckAlias(First) || pc.FetchRow? || pc.InsertRow? || pc.RefetchRow?
  }

  ghost predicate LoadedOk(issued: map<string, Issue>, p: nat, x: Exec) {
    && (StillLoading(x.pc) ==> x.loaded.None?)
    && (x.loaded.Some? ==>
          && RecordOk(issued, p, x.req, x.loaded.value)
          && (x.loaded.value.isNew ==> !issued[x.loaded.value.claudeId].rotated))
  }

  /** What the next step may rely on. */
  ghost predicate PcOk(st: Store, issued: map<string, Issue>, p: nat, req: Request, pc: Pc) {
    && !pc.Panicked?
    && (pc.RefetchRow? ==> SessionKey(req.identity) in st.sessions)
    && (pc.RotateRow? || RecordOf(pc).Some? ==> RowOwned(st, req))
    && (RecordOf(pc).Some? ==> RecordOk(issued, p, req, RecordOf(pc).value))
  }

  ghost predicate ExecOk(st: Store, issued: map<string, Issue>, p: nat, x: Exec) {
    && PcOk(st, issued, p, x.req, x.pc)
    && LoadedOk(issued, p, x)
    && StartedOk(issued, p, x.req, x.started)
    && LaunchesFit(x.pc, x.started)
  }

  ghost predicate RowsIssued(st: Store, issued: map<string, Issue>) {
    forall k | k in st.sessions ::
      st.sessions[k].claudeId in issued && issued[st.sessions[k].claudeId].identity == st.sessions[k].identity
  }

  /** The call that created session `k` returned, as new, the id it was created with. */
  ghost predicate CreatorOk(m: Machine, k: string) {
    && k in m.created && m.created[k] in m.issued
    && var issue := m.issued[m.created[k]];
    && !issue.rotated && SessionKey(issue.identity) == k && issue.owner in m.execs
    && var loaded := m.execs[issue.owner].loaded;
    && loaded.Some? && loaded.value.isNew && loaded.value.claudeId == m.created[k]
  }

  /** Every stored id belongs to a created session; one not rotated in created it. */
  ghost predicate IssueOk(m: Machine, u: string)
    requires u in m.issued
  {
    var k := SessionKey(m.issued[u].identity);
    k in m.created && (!m.issued[u].rotated ==> m.created[k] == u)
  }

  ghost predicate CreatedOk(m: Machine) {
    && m.created.Keys == m.store.sessions.Keys
    && (forall k | k in m.created :: CreatorOk(m, k))
    && (forall u | u in m.issued :: IssueOk(m, u))
  }

  ghost predicate Invariant(m: Machine) {
    && StoreOk(m.store)
    && RowsIssued(m.store, m.issued)
    && CreatedOk(m)
    && forall p | p in m.execs :: ExecOk(m.store, m.issued, p, m.execs[p])
  }

  // ------------------------------------------------ what a statement keeps

  /** Rows stay, with their identity; what was issued stays as it was. */
  ghost predicate Extends(st: Store, issued: map<string, Issue>, st': Store, issued': map<string, Issue>) {
    && (forall k | k in st.sessions :: k in st'.sessions && st'.sessions[k].identity == st.sessions[k].identity)
    && forall u | u in issued :: u in issued' && issued'[u] == issued[u]
  }

  function Log(issued: map<string, Issue>, uuid: string, issue: Option<Issue>): map<string, Issue> {
    if issue.Some? then issued[uuid := issue.value] else issued
  }

  lemma ExecOkGrows(st: Store, issued: map<string, Issue>, st': Store, issued': map<string, Issue>, p: nat, x: Exec)
    requires ExecOk(st, issued, p, x) && Extends(st, issued, st', issued')
    ensures ExecOk(st', issued', p, x)
  {
  }

  ghost predicate StoreKept(st: Store, issued: map<string, Issue>, st': Store, issued': map<string, Issue>) {
    StoreOk(st') && RowsIssued(st', issued') && Extends(st, issued, st', issued')
  }

  lemma InsertStore(st: Store, issued: map<string, Issue>, p: nat, id: Identity, now: int, uuid: string)
    requires StoreOk(st) && RowsIssued(st, issued) && uuid !in issued && SessionKey(id) !in st.sessions
    ensures StoreKept(st, issued, Insert(st, SessionKey(id), Row(uuid, id, now, now)).0,
                      issued[uuid := Issue(p, id, false)])
  {
  }

  lemma RotateStore(st: Store, issued: map<string, Issue>, p: nat, req: Request, now: int, uuid: string)
    requires StoreOk(st) && RowsIssued(st, issued) && uuid !in issued && RowOwned(st, req)
    ensures StoreKept(st, issued, Rotate(st, SessionKey(req.identity), uuid, now),
                      issued[uuid := Issue(p, req.identity, true)])
  {
  }

  lemma TouchStore(st: Store, issued: map<string, Issue>, key: string, now: int)
    requires StoreOk(st) && RowsIssued(st, issued)
    ensures StoreKept(st, issued, Touch(st, key, now), issued)
  {
  }

  /** What a statement writes: four of them write one row or one alias, the rest nothing. */
  ghost predicate Writes(st: Store, p: nat, x: Exec, now: int, uuid: string, st': Store, issue: Option<Issue>) {
    var id, key := x.req.identity, SessionKey(x.req.identity);
    match x.pc
    case InsertRow =>
      if key in st.sessions then st' == st && issue == None
      else st' == Insert(st, key, Row(uuid, id, now, now)).0 && issue == Some(Issue(p, id, false))
    case TouchRow(_) => st' == Touch(st, key, now) && issue == None
    case RotateRow =>
      && st' == Rotate(st, key, uuid, now)
      && issue == if key in st.sessions then Some(Issue(p, id, true)) else None
    case BindWrite(_, _) => st' == UpsertAlias(st, x.req.sessionId, key) && issue == None
    case _ => st' == st && issue == None
  }

  lemma StatementWrites(st: Store, p: nat, x: Exec, now: int, uuid: string, response: Option<Response>)
    ensures var e := Statement(st, p, x, now, uuid, response);
            Writes(st, p, x, now, uuid, e.store, e.issue) && e.exec.req == x.req
  {
  }

  lemma AliasStore(st: Store, issued: map<string, Issue>, req: Request)
    requires StoreOk(st) && RowsIssued(st, issued) && RowOwned(st, req)
    ensures StoreKept(st, issued, UpsertAlias(st, req.sessionId, SessionKey(req.identity)), issued)
  {
  }

  lemma WritesKeepStore(st: Store, issued: map<string, Issue>, p: nat, x: Exec, now: int, uuid: string,
                        st': Store, issue: Option<Issue>)
    requires StoreOk(st) && RowsIssued(st, issued) && uuid !in issued
    requires x.pc.RotateRow? || x.pc.BindWrite? ==> RowOwned(st, x.req)
    requires Writes(st, p, x, now, uuid, st', issue)
    ensures StoreKept(st, issued, st', Log(issued, uuid, issue))
  {
    match x.pc
    case InsertRow =>
      if SessionKey(x.req.identity) !in st.sessions {
        InsertStore(st, issued, p, x.req.identity, now, uuid);
      }
    case RotateRow => RotateStore(st, issued, p, x.req, now, uuid);
    case TouchRow(_) => TouchStore(st, issued, SessionKey(x.req.identity), now);
    case BindWrite(_, _) => AliasStore(st, issued, x.req);
    case _ =>
  }

  lemma StatementStore(st: Store, issued: map<string, Issue>, p: nat, x: Exec, now: int, uuid: string,
                       response: Option<Response>)
    requires StoreOk(st) && RowsIssued(st, issued) && PcOk(st, issued, p, x.req, x.pc) && uuid !in issued
    ensures var e := Statement(st, p, x, now, uuid, response);
            StoreKept(st, issued, e.store, Log(issued, uuid, e.issue))
  {
    var e := Statement(st, p, x, now, uuid, response);
    StatementWrites(st, p, x, now, uuid, response);
    WritesKeepStore(st, issued, p, x, now, uuid, e.store, e.issue);
  }

  /** The statement leaves its own call in order. */
  ghost predicate StatementOk(st: Store, issued: map<string, Issue>, p: nat, x: Exec, now: int, uuid: string,
                              response: Option<Response>)
  {
    var e := Statement(st, p, x, now, uuid, response);
    ExecOk(e.store, Log(issued, uuid, e.issue), p, e.exec)
  }

  /** A step that only moves on to `pc`. */
  lemma GotoKeeps(st: Store, issued: map<string, Issue>, p: nat, x: Exec, pc: Pc)
    requires ExecOk(st, issued, p, x) && PcOk(st, issued, p, x.req, pc) && LaunchesFit(pc, x.started)
    requires StillLoading(pc) ==> StillLoading(x.pc)
    ensures ExecOk(st, issued, p, x.(pc := pc))
  {
  }

  lemma ReadRowKeeps(st: Store, issued: map<string, Issue>, p: nat, x: Exec, absent: Pc)
    requires RowsIssued(st, issued) && StoreOk(st) && ExecOk(st, issued, p, x)
    requires x.started == [] && x.loaded.None?
    requires absent == InsertRow || (absent == Panicked && SessionKey(x.req.identity) in st.sessions)
    ensures ExecOk(st, issued, p, ReadRow(st, x, absent).exec)
  {
    var e := ReadRow(st, x, absent);
    if e.exec.pc.TouchRow? {
      assert RecordOk(issued, p, x.req, e.exec.pc.record);
    }
  }

  lemma FetchKeeps(st: Store, issued: map<string, Issue>, p: nat, x: Exec, now: int, uuid: string,
                   response: Option<Response>)
    requires RowsIssued(st, issued) && StoreOk(st) && ExecOk(st, issued, p, x)
    requires x.pc.FetchRow? || x.pc.RefetchRow?
    ensures StatementOk(st, issued, p, x, now, uuid, response)
  {
    ReadRowKeeps(st, issued, p, x, if x.pc.FetchRow? then InsertRow else Panicked);
  }

  lemma InsertKeeps(st: Store, issued: map<string, Issue>, p: nat, x: Exec, now: int, uuid: string,
                    response: Option<Response>)
    requires ExecOk(st, issued, p, x) && x.pc.InsertRow? && uuid !in issued
    ensures StatementOk(st, issued, p, x, now, uuid, response)
  {
  }

  lemma RotateKeeps(st: Store, issued: map<string, Issue>, p: nat, x: Exec, now: int, uuid: string,
                    response: Option<Response>)
    requires ExecOk(st, issued, p, x) && x.pc.RotateRow? && uuid !in issued
    ensures StatementOk(st, issued, p, x, now, uuid, response)
  {
    assert Owns(issued, p, x.req, x.started[0].claudeId, false);
    assert x.started[0].claudeId != uuid;
  }

  lemma LaunchKeeps(st: Store, issued: map<string, Issue>, p: nat, x: Exec, now: int, uuid: string,
                    response: Option<Response>)
    requires ExecOk(st, issued, p, x) && x.pc.Launch?
    ensures StatementOk(st, issued, p, x, now, uuid, response)
  {
    var r := x.pc.record;
    assert Owns(issued, p, x.req, r.claudeId, r.isNew);
  }

  lemma AwaitKeeps(st: Store, issued: map<string, Issue>, p: nat, x: Exec, now: int, uuid: string,
                   response: Option<Response>)
    requires ExecOk(st, issued, p, x) && x.pc.Await?
    ensures StatementOk(st, issued, p, x, now, uuid, response)
  {
    GotoKeeps(st, issued, p, x, Statement(st, p, x, now, uuid, response).exec.pc);
  }

  lemma MoveKeeps(st: Store, issued: map<string, Issue>, p: nat, x: Exec, now: int, uuid: string,
                  response: Option<Response>)
    requires ExecOk(st, issued, p, x)
    requires x.pc.CheckAlias? || x.pc.ResetFetch? || x.pc.BindCheck? || x.pc.BindFetch?
    ensures StatementOk(st, issued, p, x, now, uuid, response)
  {
    GotoKeeps(st, issued, p, x, Statement(st, p, x, now, uuid, response).exec.pc);
  }

  lemma WriteKeeps(st: Store, issued: map<string, Issue>, p: nat, x: Exec, now: int, uuid: string,
                   response: Option<Response>)
    requires ExecOk(st, issued, p, x) && (x.pc.TouchRow? || x.pc.BindWrite?)
    ensures StatementOk(st, issued, p, x, now, uuid, response)
  {
    var e := Statement(st, p, x, now, uuid, response);
    GotoKeeps(st, issued, p, x, e.exec.pc);
    ExecOkGrows(st, issued, e.store, issued, p, e.exec);
  }

  lemma StatementExec(st: Store, issued: map<string, Issue>, p: nat, x: Exec, now: int, uuid: string,
                      response: Option<Response>)
    requires StoreOk(st) && RowsIssued(st, issued) && ExecOk(st, issued, p, x) && uuid !in issued && !Final(x.pc)
    ensures StatementOk(st, issued, p, x, now, uuid, response)
  {
    if x.pc.FetchRow? || x.pc.RefetchRow? {
      FetchKeeps(st, issued, p, x, now, uuid, response);
    } else if x.pc.InsertRow? {
      InsertKeeps(st, issued, p, x, now, uuid, response);
    } else if x.pc.RotateRow? {
      RotateKeeps(st, issued, p, x, now, uuid, response);
    } else if x.pc.TouchRow? || x.pc.BindWrite? {
      WriteKeeps(st, issued, p, x, now, uuid, response);
    } else if x.pc.Launch? {
      LaunchKeeps(st, issued, p, x, now, uuid, response);
    } else if x.pc.Await? {
      AwaitKeeps(st, issued, p, x, now, uuid, response);
    } else {
      MoveKeeps(st, issued, p, x, now, uuid, response);
    }
  }

  /** What was issued by a statement, and what its call has loaded. */
  ghost predicate IssueFits(st: Store, p: nat, x: Exec, uuid: string, e: Effect) {
    var key := SessionKey(x.req.identity);
    && (x.loaded.Some? ==> e.exec.loaded == x.loaded)
    && e.exec.req == x.req
    && match e.issue
       case None => e.store.sessions.Keys == st.sessions.Keys
       case Some(issue) =>
         && issue.owner == p && issue.identity == x.req.identity
         && e.store.sessions.Keys == st.sessions.Keys + {key}
         && (issue.rotated <==> key in st.sessions)
         && (!issue.rotated ==>
               e.exec.loaded.Some? && e.exec.loaded.value.isNew && e.exec.loaded.value.claudeId == uuid)
  }

  /** What a call has loaded stays; an insert that stores its row loads it as new. */
  lemma StatementLoads(st: Store, issued: map<string, Issue>, p: nat, x: Exec, now: int, uuid: string,
                       response: Option<Response>)
    requires ExecOk(st, issued, p, x)
    ensures var x' := Statement(st, p, x, now, uuid, response).exec;
            && (x.loaded.Some? ==> x'.loaded == x.loaded)
            && (x.pc.InsertRow? && SessionKey(x.req.identity) !in st.sessions ==>
                  x'.loaded.Some? && x'.loaded.value.isNew && x'.loaded.value.claudeId == uuid)
  {
  }

  lemma StatementIssue(st: Store, issued: map<string, Issue>, p: nat, x: Exec, now: int, uuid: string,
                       response: Option<Response>)
    requires ExecOk(st, issued, p, x)
    ensures IssueFits(st, p, x, uuid, Statement(st, p, x, now, uuid, response))
  {
    StatementLoads(st, issued, p, x, now, uuid, response);
    StatementWrites(st, p, x, now, uuid, response);
    WritesFit(st, p, x, now, uuid, Statement(st, p, x, now, uuid, response));
  }

  lemma WritesFit(st: Store, p: nat, x: Exec, now: int, uuid: string, e: Effect)
    requires Writes(st, p, x, now, uuid, e.store, e.issue) && e.exec.req == x.req
    requires x.loaded.Some? ==> e.exec.loaded == x.loaded
    requires x.pc.InsertRow? && SessionKey(x.req.identity) !in st.sessions ==>
               e.exec.loaded.Some? && e.exec.loaded.value.isNew && e.exec.loaded.value.claudeId == uuid
    ensures IssueFits(st, p, x, uuid, e)
  {
  }

  /** The machine after call `p` executed a statement with effect `e`. */
  ghost predicate Steps(m: Machine, p: nat, uuid: string, e: Effect, m': Machine) {
    && p in m.execs && uuid !in m.issued && IssueFits(m.store, p, m.execs[p], uuid, e)
    && m'.store == e.store && m'.execs == m.execs[p := e.exec]
    && m'.issued == Log(m.issued, uuid, e.issue)
    && m'.created == if e.issue.Some? && !e.issue.value.rotated
                     then m.created[SessionKey(m.execs[p].req.identity) := uuid] else m.created
  }

  lemma CreatorKept(m: Machine, p: nat, uuid: string, e: Effect, m': Machine, k: string)
    requires CreatedOk(m) && Steps(m, p, uuid, e, m') && k in m'.created
    ensures CreatorOk(m', k)
  {
    if k in m.created {
      assert CreatorOk(m, k);
    }
  }

  lemma IssueKept(m: Machine, p: nat, uuid: string, e: Effect, m': Machine, u: string)
    requires CreatedOk(m) && Steps(m, p, uuid, e, m') && u in m'.issued
    ensures IssueOk(m', u)
  {
    if u in m.issued {
      assert IssueOk(m, u);
    }
  }

  lemma CreatedKept(m: Machine, p: nat, uuid: string, e: Effect, m': Machine)
    requires CreatedOk(m) && Steps(m, p, uuid, e, m')
    ensures CreatedOk(m')
  {
    forall k | k in m'.created ensures CreatorOk(m', k) {
      CreatorKept(m, p, uuid, e, m', k);
    }
    forall u | u in m'.issued ensures IssueOk(m', u) {
      IssueKept(m, p, uuid, e, m', u);
    }
  }

  lemma ActKeepsInvariant(m: Machine, e: Event)
    requires Invariant(m) && e.Act? && Enabled(m, e)
    ensures Invariant(Next(m, e))
  {
    var x, m' := m.execs[e.p], Next(m, e);
    var effect := Statement(m.store, e.p, x, e.now, e.uuid, e.response);
    StatementStore(m.store, m.issued, e.p, x, e.now, e.uuid, e.response);
    StatementExec(m.store, m.issued, e.p, x, e.now, e.uuid, e.response);
    StatementIssue(m.store, m.issued, e.p, x, e.now, e.uuid, e.response);
    CreatedKept(m, e.p, e.uuid, effect, m');
    forall p | p in m'.execs ensures ExecOk(m'.store, m'.issued, p, m'.execs[p]) {
      if p != e.p {
        ExecOkGrows(m.store, m.issued, m'.store, m'.issued, p, m.execs[p]);
      }
    }
  }

  lemma BeginKeepsCreated(m: Machine, p: nat, x: Exec)
    requires CreatedOk(m) && p !in m.execs
    ensures CreatedOk(m.(execs := m.execs[p := x]))
  {
    var m' := m.(execs := m.execs[p := x]);
    forall k | k in m'.created ensures CreatorOk(m', k) {
      assert CreatorOk(m, k);
    }
    forall u | u in m'.issued ensures IssueOk(m', u) {
      assert IssueOk(m, u);
    }
  }

  lemma BeginKeepsInvariant(m: Machine, e: Event)
    requires Invariant(m) && e.Begin? && Enabled(m, e)
    ensures Invariant(Next(m, e))
  {
    BeginKeepsCreated(m, e.p, Exec(e.req, CheckAlias(First), None, []));
  }

  // ------------------------------------------------------------------- runs

  ghost predicate Feasible(m: Machine, es: seq<Event>)
    decreases |es|
  {
    es != [] ==> Enabled(m, es[0]) && Feasible(Next(m, es[0]), es[1..])
  }

  function After(m: Machine, es: seq<Event>): Machine
    requires Feasible(m, es)
    decreases |es|
  {
    if es == [] then m else After(Next(m, es[0]), es[1..])
  }

  lemma StepKeepsInvariant(m: Machine, e: Event)
    requires Invariant(m) && Enabled(m, e)
    ensures Invariant(Next(m, e))
  {
    if e.Act? {
      ActKeepsInvariant(m, e);
    } else {
      BeginKeepsInvariant(m, e);
    }
  }

  lemma {:induction false} RunKeepsInvariant(m: Machine, es: seq<Event>)
    requires Invariant(m) && Feasible(m, es)
    ensures Invariant(After(m, es))
    decreases |es|
  {
    if es != [] {
      StepKeepsInvariant(m, es[0]);
      RunKeepsInvariant(Next(m, es[0]), es[1..]);
    }
  }

  /** Every state some interleaving of the calls reaches, from empty tables. */
  ghost predicate Reachable(es: seq<Event>, m: Machine) {
    Feasible(EMPTY, es) && After(EMPTY, es) == m
  }

  lemma ReachableInvariant(es: seq<Event>, m: Machine)
    requires Reachable(es, m)
    ensures Invariant(m)
  {
    RunKeepsInvariant(EMPTY, es);
  }

  // ------------------------------------------------------------ main results

  /** Whatever a call is doing, it has launched at most twice, and twice only as
      a resume that was retried under a different, newly stored id. */
  lemma LaunchShape(pc: Pc, started: seq<Started>)
    requires LaunchesFit(pc, started)
    ensures AtMostOneRetry(started)
  {
  }

  /** A launch uses an id stored earlier for exactly the request's conversation; a
      `--session-id` launch one that this very call stored. */
  lemma LaunchesUseIssuedIds(es: seq<Event>, m: Machine, p: nat, i: nat)
    requires Reachable(es, m) && p in m.execs && i < |m.execs[p].started|
    ensures var l := m.execs[p].started[i];
            && l.claudeId in m.issued
            && m.issued[l.claudeId].identity == m.execs[p].req.identity
            && l.key == SessionKey(m.execs[p].req.identity)
            && (l.isNew ==> m.issued[l.claudeId].owner == p)
    ensures AtMostOneRetry(m.execs[p].started)
  {
    ReachableInvariant(es, m);
    assert ExecOk(m.store, m.issued, p, m.execs[p]);
    assert Owns(m.issued, p, m.execs[p].req, m.execs[p].started[i].claudeId, m.execs[p].started[i].isNew);
    LaunchShape(m.execs[p].pc, m.execs[p].started);
  }

  /** Each claude id is created at most once: no two launches, by the same call or
      by different calls, use `--session-id` with the same id. */
  lemma NoSessionIdLaunchedTwice(es: seq<Event>, m: Machine, p: nat, i: nat, q: nat, j: nat)
    requires Reachable(es, m) && p in m.execs && q in m.execs
    requires i < |m.execs[p].started| && j < |m.execs[q].started|
    requires m.execs[p].started[i].isNew && m.execs[q].started[j].isNew
    requires m.execs[p].started[i].claudeId == m.execs[q].started[j].claudeId
    ensures p == q && i == j
  {
    LaunchesUseIssuedIds(es, m, p, i);
    LaunchesUseIssuedIds(es, m, q, j);
  }

  /** Read as claude reads it, the command opens a session under this id. */
  ghost predicate Opens(command: seq<string>, claudeId: string) {
    ReadCommand(command).Some? && ReadCommand(command).value.session == Some((claudeId, true))
  }

  /** So the command line of a launch opens a session if and only if the launch is
      a new one, and no other command line, whatever its prompts, opens the same. */
  lemma NewCommandsDiffer(es: seq<Event>, m: Machine, p: nat, i: nat, q: nat, j: nat,
                          a: string, b: string, c: string, d: string)
    requires Reachable(es, m) && p in m.execs && q in m.execs && (p != q || i != j)
    requires i < |m.execs[p].started| && j < |m.execs[q].started|
    ensures var x, y := m.execs[p].started[i], m.execs[q].started[j];
            && (Opens(BuildCommand(a, b, x.claudeId, x.isNew), x.claudeId) <==> x.isNew)
            && (x.isNew ==> !Opens(BuildCommand(c, d, y.claudeId, y.isNew), x.claudeId))
  {
    var x, y := m.execs[p].started[i], m.execs[q].started[j];
    CommandReadsBack(a, b, x.claudeId, x.isNew);
    CommandReadsBack(c, d, y.claudeId, y.isNew);
    if x.isNew && y.isNew && x.claudeId == y.claudeId {
      NoSessionIdLaunchedTwice(es, m, p, i, q, j);
    }
  }

  /** Conversations never share a claude session, even when their keys collide:
      two launches of one id were asked for by the same conversation. */
  lemma SessionsAreNotShared(es: seq<Event>, m: Machine, p: nat, i: nat, q: nat, j: nat)
    requires Reachable(es, m) && p in m.execs && q in m.execs
    requires i < |m.execs[p].started| && j < |m.execs[q].started|
    requires m.execs[p].started[i].claudeId == m.execs[q].started[j].claudeId
    ensures m.execs[p].req.identity == m.execs[q].req.identity
  {
    LaunchesUseIssuedIds(es, m, p, i);
    LaunchesUseIssuedIds(es, m, q, j);
  }

  /** The call `p` loaded session `key`. */
  ghost predicate LoadedKey(m: Machine, p: nat, key: string) {
    p in m.execs && m.execs[p].loaded.Some? && SessionKey(m.execs[p].req.identity) == key
  }

  /** However the callers interleave, exactly one of them sees a session as new;
      and as long as no id of the session is rotated, all of them get the same id. */
  lemma OneCreatorPerSession(es: seq<Event>, m: Machine, key: string, p: nat)
    requires Reachable(es, m) && LoadedKey(m, p, key)
    ensures CreatorOk(m, key)
    ensures var creator := m.issued[m.created[key]].owner;
            LoadedKey(m, creator, key) && (m.execs[p].loaded.value.isNew <==> p == creator)
    ensures (forall u | u in m.issued && SessionKey(m.issued[u].identity) == key :: !m.issued[u].rotated) ==>
              m.execs[p].loaded.value.claudeId == m.created[key]
  {
    ReachableInvariant(es, m);
    assert ExecOk(m.store, m.issued, p, m.execs[p]);
    var id := m.execs[p].loaded.value.claudeId;
    assert IssueOk(m, id);
    assert CreatorOk(m, key);
    var creator := m.issued[m.created[key]].owner;
    assert ExecOk(m.store, m.issued, creator, m.execs[creator]);
  }

  /** The insert that lost a race always finds the winner's row: the expectation
      "session should exist after insert conflict" never fails. */
  lemma ConflictFindsRow(es: seq<Event>, m: Machine, p: nat)
    requires Reachable(es, m) && p in m.execs
    ensures !m.execs[p].pc.Panicked?
    ensures m.execs[p].pc.RefetchRow? ==> SessionKey(m.execs[p].req.identity) in m.store.sessions
  {
    ReachableInvariant(es, m);
    assert ExecOk(m.store, m.issued, p, m.execs[p]);
  }
}
