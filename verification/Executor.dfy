/** One `execute` call from load to answer, with no other call in between: which
    claude commands it launches and when it retries. */
module Executor {
  import opened Wrappers
  import opened SessionSpec
  import opened SessionStore
  import opened Retry

  /** What becomes of one launch: the history grant may fail, or creating the
      process; its output may be lost; or it answers. */
  datatype Attempt = NoGrant | NotCreated | Lost | Answered(response: Response)

  /** The surroundings of the call: clock and id of the load and of the reset, the
      container, and the two launches. */
  datatype World = World(
    now: int, uuid: string,
    resetNow: int, resetUuid: string,
    containerUp: bool,
    first: Attempt,
    second: Attempt)

  datatype ExecError =
    | SessionFailed(error: SessionError)
    | ContainerUnavailable
    | HistoryGrantFailed
    | ExecCreateFailed
    | ExecFailed

  datatype Prompt = Prompt(prompt: string, system: string)

  function CommandFor(prompt: Prompt, record: SessionRecord): seq<string> {
    BuildCommand(prompt.prompt, prompt.system, record.claudeId, record.isNew)
  }

  /** The commands one launch adds, and its answer. */
  function LaunchOnce(prompt: Prompt, record: SessionRecord, attempt: Attempt):
    (seq<seq<string>>, Result<Response, ExecError>)
  {
    match attempt
    case NoGrant => ([], Err(HistoryGrantFailed))
    case NotCreated => ([], Err(ExecCreateFailed))
    case Lost => ([CommandFor(prompt, record)], Err(ExecFailed))
    case Answered(response) => ([CommandFor(prompt, record)], Ok(response))
  }

  function Execute(st: Store, req: Request, prompt: Prompt, w: World):
    (Store, seq<seq<string>>, Result<Response, ExecError>)
  {
    var (st1, loaded) := LoadRuntime(st, req, w.now, w.uuid);
    match loaded
    case Err(error) => (st1, [], Err(SessionFailed(error)))
    case Ok(record) =>
      if !w.containerUp then (st1, [], Err(ContainerUnavailable))
      else
        var (commands, first) := LaunchOnce(prompt, record, w.first);
        if first.Err? || !ShouldRetry(first.value, record.isNew) then (st1, commands, first)
        else
          var (st2, reset) := ResetRuntime(st1, req, w.resetNow, w.resetUuid);
          match reset
          case Err(error) => (st2, commands, Err(SessionFailed(error)))
          case Ok(renewed) =>
            var (more, second) := LaunchOnce(prompt, renewed, w.second);
            (st2, commands + more, second)
  }

  class DockerRunner {
    const tables: SessionTables

    constructor (tables: SessionTables)
      ensures this.tables == tables
    {
      this.tables := tables;
    }

    method ExecuteRequest(req: Request, prompt: Prompt, w: World)
      returns (commands: seq<seq<string>>, result: Result<Response, ExecError>)
      modifies tables
      ensures (tables.Model(), commands, result) == Execute(old(tables.Model()), req, prompt, w)
      ensures old(StoreOk(tables.Model())) ==> StoreOk(tables.Model()) && Keeps(old(tables.Model()), tables.Model())
    {
      ghost var before := tables.Model();
      commands := [];
      var loaded := tables.LoadRuntimeSession(req, w.now, w.uuid);
      if loaded.Err? {
        return [], Err(SessionFailed(loaded.error));
      }
      if !w.containerUp {
        return [], Err(ContainerUnavailable);
      }
      if w.first.NoGrant? {
        return [], Err(HistoryGrantFailed);
      }
      if w.first.NotCreated? {
        return [], Err(ExecCreateFailed);
      }
      commands := [CommandFor(prompt, loaded.value)];
      if w.first.Lost? {
        return commands, Err(ExecFailed);
      }
      if ShouldRetry(w.first.response, loaded.value.isNew) {
        var renewed := tables.ResetRuntimeSession(req, w.resetNow, w.resetUuid);
        if renewed.Err? {
          return commands, Err(SessionFailed(renewed.error));
        }
        var (more, second) := LaunchOnce(prompt, renewed.value, w.second);
        return commands + more, second;
      }
      result := Ok(w.first.response);
    }
  }

  /** Once loading has succeeded, the reset of the retry is never refused. */
  lemma RetryIsNeverRefused(st: Store, req: Request, now: int, uuid: string, resetNow: int, resetUuid: string)
    requires StoreOk(st) && LoadRuntime(st, req, now, uuid).1.Ok?
    ensures var st1 := LoadRuntime(st, req, now, uuid).0;
            && StoreOk(st1)
            && ResetRuntime(st1, req, resetNow, resetUuid).1.Ok?
            && ResetRuntime(st1, req, resetNow, resetUuid).1.value.identity ==
               LoadRuntime(st, req, now, uuid).1.value.identity
  {
    LoadWrites(st, req, now, uuid);
    LoadBehaves(st, req, now, uuid);
    var st1 := LoadRuntime(st, req, now, uuid).0;
    ResetBehaves(st1, req, resetNow, resetUuid);
    ResetRuntimeWrites(st1, req, resetNow, resetUuid);
  }

  /** A retry is asked for: a resumed session was launched, answered in time, and
      reported the session missing. */
  predicate RetryAsked(st: Store, req: Request, w: World) {
    && SessionKey(req.identity) in st.sessions && w.containerUp && w.first.Answered?
    && ShouldRetry(w.first.response, false)
  }

  /** The result of a call whose last launch went like this. */
  ghost predicate Answers(attempt: Attempt, result: Result<Response, ExecError>) {
    match attempt
    case NoGrant => result == Err(HistoryGrantFailed)
    case NotCreated => result == Err(ExecCreateFailed)
    case Lost => result == Err(ExecFailed)
    case Answered(response) => result == Ok(response)
  }

  predicate Starts(attempt: Attempt) {
    attempt.Lost? || attempt.Answered?
  }

  /** Read as claude reads it, the command opens or resumes this session with this prompt. */
  ghost predicate Tells(command: seq<string>, prompt: Prompt, claudeId: string, isNew: bool) {
    match ReadCommand(command)
    case None => false
    case Some(r) =>
      && r.program == "claude" && r.prints && r.skipsPermissions && r.dirs == ["/workspace", "/state/claude-prompt"]
      && r.system == Some(prompt.system) && r.prompt == Some(prompt.prompt) && r.session == Some((claudeId, isNew))
  }

  lemma CommandTells(prompt: Prompt, claudeId: string, isNew: bool)
    ensures Tells(BuildCommand(prompt.prompt, prompt.system, claudeId, isNew), prompt, claudeId, isNew)
  {
    CommandReadsBack(prompt.prompt, prompt.system, claudeId, isNew);
  }

  /** Before anything is launched: a refused session or a missing container ends the call. */
  lemma RefusedExactly(st: Store, req: Request, prompt: Prompt, w: World)
    requires !Accepts(st, Load(req)) || !w.containerUp
    ensures var (st', commands, result) := Execute(st, req, prompt, w);
            && commands == [] && st' == LoadRuntime(st, req, w.now, w.uuid).0
            && (!Accepts(st, Load(req)) ==>
                  st' == st && result.Err? && result.error.SessionFailed?
                  && LoadRuntime(st, req, w.now, w.uuid).1 == Err(result.error.error))
            && (Accepts(st, Load(req)) ==> result == Err(ContainerUnavailable))
  {
    LoadWrites(st, req, w.now, w.uuid);
  }

  /** The ordinary call: one launch of the stored id, resumed, or of a new one, opened
      when the conversation had no session; and what becomes of it is the answer. */
  lemma ExecuteExactly(st: Store, req: Request, prompt: Prompt, w: World)
    requires Accepts(st, Load(req)) && w.containerUp && !RetryAsked(st, req, w)
    ensures var (st', commands, result) := Execute(st, req, prompt, w);
            var key := SessionKey(req.identity);
            && st' == LoadRuntime(st, req, w.now, w.uuid).0
            && Answers(w.first, result)
            && |commands| == (if Starts(w.first) then 1 else 0)
            && (Starts(w.first) ==>
                  if key in st.sessions then Tells(commands[0], prompt, st.sessions[key].claudeId, false)
                  else Tells(commands[0], prompt, w.uuid, true))
  {
    LoadWrites(st, req, w.now, w.uuid);
    var record := LoadRuntime(st, req, w.now, w.uuid).1.value;
    CommandTells(prompt, record.claudeId, record.isNew);
  }

  /** When a retry is asked for, the session's id is rotated, whatever becomes of
      the second launch; the second launch opens a new session under that id and
      what becomes of it is the answer. */
  lemma RetryExactly(st: Store, req: Request, prompt: Prompt, w: World)
    requires StoreOk(st) && Accepts(st, Load(req)) && RetryAsked(st, req, w)
    ensures var (st', commands, result) := Execute(st, req, prompt, w);
            var key := SessionKey(req.identity);
            && |commands| == (if Starts(w.second) then 2 else 1)
            && Tells(commands[0], prompt, st.sessions[key].claudeId, false)
            && (Starts(w.second) ==> Tells(commands[1], prompt, w.resetUuid, true))
            && key in st'.sessions
            && st'.sessions[key] == Row(w.resetUuid, st.sessions[key].identity, w.resetNow, w.resetNow)
            && Answers(w.second, result)
  {
    LoadWrites(st, req, w.now, w.uuid);
    RetryIsNeverRefused(st, req, w.now, w.uuid, w.resetNow, w.resetUuid);
    ResetRuntimeWrites(LoadRuntime(st, req, w.now, w.uuid).0, req, w.resetNow, w.resetUuid);
    CommandTells(prompt, LoadRuntime(st, req, w.now, w.uuid).1.value.claudeId, false);
    CommandTells(prompt, w.resetUuid, true);
  }
}
