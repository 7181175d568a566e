/** With nobody in between, the statements of one call add up to the sequential
    procedures: the interleaved machine and SessionSpec.dfy model one program. */
module Alone {
  import opened Wrappers
  import opened SessionSpec
  import opened Retry
  import opened ExecMachine
  import opened Executor

  function Rank(pc: Pc): nat {
    match pc
    case CheckAlias(_) => 8
    case FetchRow => 7
    case ResetFetch => 7
    case InsertRow => 6
    case RotateRow => 6
    case RefetchRow => 5
    case TouchRow(_) => 4
    case BindCheck(_, _) => 3
    case BindFetch(_, _) => 2
    case BindWrite(_, _) => 1
    case _ => 0
  }

  /** Runs the call's statements one after the other until it launches or gives up. */
  function Settle(st: Store, p: nat, x: Exec, now: int, uuid: string): (Store, Pc)
    decreases Rank(x.pc)
  {
    if Rank(x.pc) == 0 then (st, x.pc)
    else
      var e := Statement(st, p, x, now, uuid, None);
      if Rank(e.exec.pc) < Rank(x.pc) then Settle(e.store, p, e.exec, now, uuid) else (st, x.pc)
  }

  /** How a sequential result shows up as the call's next step. */
  function Outcome(phase: Phase, result: Result<SessionRecord, SessionError>): Pc {
    match result
    case Ok(record) => Launch(phase, record)
    case Err(error) => Refused(error)
  }

  lemma SettleStep(st: Store, p: nat, x: Exec, now: int, uuid: string)
    requires var e := Statement(st, p, x, now, uuid, None); Rank(e.exec.pc) < Rank(x.pc)
    ensures var e := Statement(st, p, x, now, uuid, None);
            Settle(st, p, x, now, uuid) == Settle(e.store, p, e.exec, now, uuid)
  {
  }

  lemma SettleBind(st: Store, p: nat, x: Exec, phase: Phase, record: SessionRecord, now: int, uuid: string)
    requires x.pc == BindCheck(phase, record)
    ensures var (st', result) := BindAndReturn(st, x.req, Ok(record));
            Settle(st, p, x, now, uuid) == (st', Outcome(phase, result))
  {
    var e1 := Statement(st, p, x, now, uuid, None);
    SettleStep(st, p, x, now, uuid);
    if e1.exec.pc.BindFetch? {
      var e2 := Statement(st, p, e1.exec, now, uuid, None);
      SettleStep(st, p, e1.exec, now, uuid);
      if e2.exec.pc.BindWrite? {
        SettleStep(st, p, e2.exec, now, uuid);
      }
    }
  }

  lemma SettleFetch(st: Store, p: nat, x: Exec, now: int, uuid: string)
    requires x.pc.FetchRow?
    ensures var key := SessionKey(x.req.identity);
            var (st1, result) := GetOrCreateByKey(st, key, x.req.identity, key, now, uuid);
            var (st', final) := BindAndReturn(st1, x.req, result);
            Settle(st, p, x, now, uuid) == (st', Outcome(First, final))
  {
    var e1 := Statement(st, p, x, now, uuid, None);
    if e1.exec.pc.TouchRow? || e1.exec.pc.InsertRow? {
      var e2 := Statement(st, p, e1.exec, now, uuid, None);
      SettleBind(e2.store, p, e2.exec, First, e2.exec.pc.record, now, uuid);
    }
  }

  lemma SettleRotate(st: Store, p: nat, x: Exec, now: int, uuid: string)
    requires x.pc.ResetFetch?
    ensures var key := SessionKey(x.req.identity);
            var (st1, result) := ResetByKey(st, key, x.req.identity, key, now, uuid);
            var (st', final) := BindAndReturn(st1, x.req, result);
            Settle(st, p, x, now, uuid) == (st', Outcome(Again, final))
  {
    var e1 := Statement(st, p, x, now, uuid, None);
    if e1.exec.pc.RotateRow? {
      var e2 := Statement(st, p, e1.exec, now, uuid, None);
      SettleBind(e2.store, p, e2.exec, Again, e2.exec.pc.record, now, uuid);
    }
  }

  /** Loading, and resetting for the retry, come out as the sequential procedures
      say: same tables, and a launch with the record or the same refusal. */
  lemma AloneIsSequential(st: Store, p: nat, x: Exec, now: int, uuid: string)
    ensures x.pc == CheckAlias(First) ==>
              Settle(st, p, x, now, uuid) ==
              (LoadRuntime(st, x.req, now, uuid).0, Outcome(First, LoadRuntime(st, x.req, now, uuid).1))
    ensures x.pc == CheckAlias(Again) ==>
              Settle(st, p, x, now, uuid) ==
              (ResetRuntime(st, x.req, now, uuid).0, Outcome(Again, ResetRuntime(st, x.req, now, uuid).1))
  {
    if x.pc.CheckAlias? {
      var e1 := Statement(st, p, x, now, uuid, None);
      if e1.exec.pc.FetchRow? {
        SettleFetch(st, p, e1.exec, now, uuid);
      } else if e1.exec.pc.ResetFetch? {
        SettleRotate(st, p, e1.exec, now, uuid);
      }
    }
  }

  // -------------------------------------------------------------- a whole call

  /** One launch and its answer, as the machine takes them. */
  function Launched(st: Store, p: nat, x: Exec, attempt: Attempt): Exec
    requires x.pc.Launch?
  {
    var started := if Starts(attempt) then Some(Response("", "", false)) else None;
    var x1 := Statement(st, p, x, 0, "", started).exec;
    if !Starts(attempt) then x1
    else Statement(st, p, x1, 0, "", if attempt.Answered? then Some(attempt.response) else None).exec
  }

  /** A call that nobody interrupts, from its begin to its end. */
  function WholeCall(st: Store, p: nat, req: Request, w: World): (Store, Exec) {
    var (st1, pc1) := Settle(st, p, Exec(req, CheckAlias(First), None, []), w.now, w.uuid);
    var x1 := Exec(req, pc1, None, []);
    if !pc1.Launch? then (st1, x1)
    else
      var x2 := Launched(st1, p, x1, w.first);
      if x2.pc != CheckAlias(Again) then (st1, x2)
      else
        var (st3, pc3) := Settle(st1, p, x2, w.resetNow, w.resetUuid);
        var x3 := x2.(pc := pc3);
        if !pc3.Launch? then (st3, x3) else (st3, Launched(st3, p, x3, w.second))
  }

  lemma LaunchedExactly(st: Store, p: nat, x: Exec, phase: Phase, r: SessionRecord, attempt: Attempt)
    requires x.pc == Launch(phase, r)
    ensures var x' := Launched(st, p, x, attempt);
            && x'.req == x.req
            && x'.started == (if Starts(attempt) then x.started + [Started(r.key, r.claudeId, r.isNew)] else x.started)
            && x'.pc == if !attempt.Answered? then Failed
                        else if phase.First? && ShouldRetry(attempt.response, r.isNew) then CheckAlias(Again)
                        else Finished
  {
  }

  /** The commands are those of the processes started. */
  ghost predicate Commands(commands: seq<seq<string>>, started: seq<Started>, prompt: Prompt) {
    && |commands| == |started|
    && forall i | 0 <= i < |started| ::
         commands[i] == BuildCommand(prompt.prompt, prompt.system, started[i].claudeId, started[i].isNew)
  }

  /** How the result of a call shows at its end. */
  ghost predicate Ends(pc: Pc, result: Result<Response, ExecError>) {
    && (pc.Finished? <==> result.Ok?)
    && (pc.Failed? <==> result.Err? && !result.error.SessionFailed?)
    && (result.Err? && result.error.SessionFailed? ==> pc == Refused(result.error.error))
  }

  ghost predicate SameCall(st: Store, p: nat, req: Request, prompt: Prompt, w: World) {
    var (st', x) := WholeCall(st, p, req, w);
    var (st'', commands, result) := Execute(st, req, prompt, w);
    st' == st'' && Commands(commands, x.started, prompt) && Ends(x.pc, result)
  }

  /** Whether the loaded session's launch is to be retried. */
  predicate Retried(st: Store, req: Request, w: World) {
    var loaded := LoadRuntime(st, req, w.now, w.uuid).1;
    loaded.Ok? && w.first.Answered? && ShouldRetry(w.first.response, loaded.value.isNew)
  }

  lemma OneLaunchIsExecute(st: Store, p: nat, req: Request, prompt: Prompt, w: World)
    requires w.containerUp && !Retried(st, req, w)
    ensures SameCall(st, p, req, prompt, w)
  {
    AloneIsSequential(st, p, Exec(req, CheckAlias(First), None, []), w.now, w.uuid);
    var (st1, loaded) := LoadRuntime(st, req, w.now, w.uuid);
    if loaded.Ok? {
      LaunchedExactly(st1, p, Exec(req, Launch(First, loaded.value), None, []), First, loaded.value, w.first);
    }
  }

  /** The machine's side of a retried call: a refusal of the reset, or the second launch. */
  lemma WholeRetry(st: Store, p: nat, req: Request, w: World) returns (x2: Exec)
    requires Retried(st, req, w)
    ensures var (st1, loaded) := LoadRuntime(st, req, w.now, w.uuid);
            var (st3, renewed) := ResetRuntime(st1, req, w.resetNow, w.resetUuid);
            && x2.req == req && x2.started == [Started(loaded.value.key, loaded.value.claudeId, loaded.value.isNew)]
            && WholeCall(st, p, req, w) ==
               (st3, if renewed.Ok? then Launched(st3, p, x2.(pc := Launch(Again, renewed.value)), w.second)
                     else x2.(pc := Refused(renewed.error)))
  {
    AloneIsSequential(st, p, Exec(req, CheckAlias(First), None, []), w.now, w.uuid);
    var (st1, loaded) := LoadRuntime(st, req, w.now, w.uuid);
    var x1 := Exec(req, Launch(First, loaded.value), None, []);
    LaunchedExactly(st1, p, x1, First, loaded.value, w.first);
    x2 := Launched(st1, p, x1, w.first);
    AloneIsSequential(st1, p, x2, w.resetNow, w.resetUuid);
  }

  /** The sequential side of it. */
  lemma ExecuteRetried(st: Store, req: Request, prompt: Prompt, w: World)
    requires w.containerUp && Retried(st, req, w)
    ensures var (st1, loaded) := LoadRuntime(st, req, w.now, w.uuid);
            var (st3, renewed) := ResetRuntime(st1, req, w.resetNow, w.resetUuid);
            Execute(st, req, prompt, w) ==
            if renewed.Err? then (st3, [CommandFor(prompt, loaded.value)], Err(SessionFailed(renewed.error)))
            else
              var (more, second) := LaunchOnce(prompt, renewed.value, w.second);
              (st3, [CommandFor(prompt, loaded.value)] + more, second)
  {
  }

  lemma SecondLaunch(st: Store, p: nat, x: Exec, r: SessionRecord, attempt: Attempt, prompt: Prompt, first: seq<string>)
    requires x.pc == Launch(Again, r) && |x.started| == 1
    requires first == BuildCommand(prompt.prompt, prompt.system, x.started[0].claudeId, x.started[0].isNew)
    ensures var (more, second) := LaunchOnce(prompt, r, attempt);
            var x' := Launched(st, p, x, attempt);
            Commands([first] + more, x'.started, prompt) && Ends(x'.pc, second)
  {
    LaunchedExactly(st, p, x, Again, r, attempt);
  }

  lemma RetryIsExecute(st: Store, p: nat, req: Request, prompt: Prompt, w: World)
    requires w.containerUp && Retried(st, req, w)
    ensures SameCall(st, p, req, prompt, w)
  {
    var x2 := WholeRetry(st, p, req, w);
    ExecuteRetried(st, req, prompt, w);
    var (st1, loaded) := LoadRuntime(st, req, w.now, w.uuid);
    var (st3, renewed) := ResetRuntime(st1, req, w.resetNow, w.resetUuid);
    if renewed.Ok? {
      SecondLaunch(st3, p, x2.(pc := Launch(Again, renewed.value)), renewed.value, w.second, prompt,
                   CommandFor(prompt, loaded.value));
    }
  }

  /** Alone, a whole call of the interleaved machine is `Execute`: same tables, same
      commands, same end, with or without the retry. */
  lemma WholeCallIsExecute(st: Store, p: nat, req: Request, prompt: Prompt, w: World)
    requires w.containerUp
    ensures var (st', x) := WholeCall(st, p, req, w);
            var (st'', commands, result) := Execute(st, req, prompt, w);
            st' == st'' && Commands(commands, x.started, prompt) && Ends(x.pc, result)
  {
    if Retried(st, req, w) {
      RetryIsExecute(st, p, req, prompt, w);
    } else {
      OneLaunchIsExecute(st, p, req, prompt, w);
    }
  }
}
