/** The run scheduler with its workers: a transition system whose atomic steps
    are the two mutex-protected blocks of the server, `submit` and the end of
    `run_task`, in any interleaving. */
module RunSystem {
  import opened Wrappers
  import opened SchedulerSpec

  /** A submitted run: its summary, and the event and request it carries unread. */
  datatype Run = Run(task: Task, request: string)

  /** `inflight` holds one entry per worker that has been spawned and has not
      reached its completion block. The last four fields are history: every
      submission by task id, the tasks let in, the tasks finished, in order,
      and the terminal records of the finished tasks. */
  datatype System = System(
    sched: Scheduler,
    payloads: map<string, Run>,
    inflight: multiset<Run>,
    submitted: map<string, Run>,
    admitted: seq<Task>,
    finished: seq<Task>,
    terminals: seq<Terminal>)

  datatype Event =
    | Submit(run: Run)
    | Complete(run: Run, state: TerminalState, summary: Option<string>)

  function InitSystem(maxConcurrent: nat, maxQueueDepth: nat): System {
    System(Init(maxConcurrent, maxQueueDepth), map[], multiset{}, map[], [], [], [])
  }

  /** A submission draws a fresh task id; any worker in flight may complete. */
  predicate Enabled(s: System, e: Event) {
    match e
    case Submit(run) => run.task.id !in s.submitted
    case Complete(run, _, _) => run in s.inflight
  }

  /** The payloads of the promoted tasks; a task without a payload is dropped. */
  function Claim(promoted: seq<Task>, payloads: map<string, Run>): (seq<Run>, map<string, Run>) {
    if promoted == [] then ([], payloads)
    else
      var id := promoted[0].id;
      var (rest, left) := Claim(promoted[1..], payloads - {id});
      (if id in payloads then [payloads[id]] + rest else rest, left)
  }

  ghost function AfterSubmit(s: System, run: Run): System {
    var (sched, admission) := Admit(s.sched, run.task);
    var s1 := s.(sched := sched, submitted := s.submitted[run.task.id := run]);
    match admission
    case StartNow => s1.(inflight := s.inflight + multiset{run}, admitted := s.admitted + [run.task])
    case Queued(_) => s1.(payloads := s.payloads[run.task.id := run], admitted := s.admitted + [run.task])
    case QueueFull => s1
  }

  function AfterComplete(s: System, run: Run, state: TerminalState, summary: Option<string>): System {
    var (sched, promoted) := Finish(s.sched, run.task.conv, state, summary);
    var (woken, left) := Claim(promoted, s.payloads);
    s.(sched := sched, payloads := left,
       inflight := s.inflight - multiset{run} + multiset(woken),
       finished := s.finished + [run.task],
       terminals := s.terminals + [Terminal(run.task.id, run.task.conv, state, summary)])
  }

  ghost function Next(s: System, e: Event): System {
    match e
    case Submit(run) => AfterSubmit(s, run)
    case Complete(run, state, summary) => AfterComplete(s, run, state, summary)
  }

  // -------------------------------------------------------------- invariant

  /** The run holds its conversation's slot. */
  ghost predicate Holds(s: System, run: Run) {
    && RunningOf(s.sched, run.task.conv) == [run.task]
    && run.task.id in s.submitted && s.submitted[run.task.id] == run
  }

  ghost predicate Waits(s: System, id: string) {
    && id in s.submitted
    && s.submitted[id].task in QueueOf(s.sched, s.submitted[id].task.conv)
  }

  ghost predicate Known(s: System, t: Task) {
    t.id in s.submitted && s.submitted[t.id].task == t
  }

  ghost predicate Registered(s: System) {
    && (forall id | id in s.submitted :: s.submitted[id].task.id == id)
    && (forall i | 0 <= i < |s.admitted| :: Known(s, s.admitted[i]))
    && NoDup(s.admitted)
  }

  /** The workers in flight are exactly the values of `running`, one each. */
  ghost predicate WorkersExact(s: System) {
    forall run :: s.inflight[run] == if Holds(s, run) then 1 else 0
  }

  /** The payload table holds exactly the queued tasks, each with what was submitted for it. */
  ghost predicate PayloadsExact(s: System) {
    forall id ::
      && (id in s.payloads <==> Waits(s, id))
      && (id in s.payloads ==> s.payloads[id] == s.submitted[id])
  }

  function ForConv(tasks: seq<Task>, c: string): seq<Task> {
    if tasks == [] then []
    else
      var last := tasks[|tasks| - 1];
      ForConv(tasks[..|tasks| - 1], c) + if last.conv == c then [last] else []
  }

  /** What was let in for `c`, in order, is what finished, then what runs, then what waits. */
  ghost predicate HistoryOf(s: System, c: string) {
    ForConv(s.admitted, c) == ForConv(s.finished, c) + RunningOf(s.sched, c) + QueueOf(s.sched, c)
  }

  function LastN<T>(xs: seq<T>, n: nat): seq<T> {
    if |xs| <= n then xs else xs[|xs| - n..]
  }

  ghost predicate Bookkeeping(s: System) {
    && Registered(s)
    && WorkersExact(s)
    && PayloadsExact(s)
    && (forall c :: HistoryOf(s, c))
  }

  ghost predicate Invariant(s: System) {
    && Valid(s.sched)
    && Bookkeeping(s)
    && s.sched.recent == LastN(s.terminals, TERMINAL_HISTORY_CAPACITY)
  }

  // -------------------------------------- consequences of the history law

  lemma ForConvSnoc(tasks: seq<Task>, t: Task, c: string)
    ensures ForConv(tasks + [t], c) == ForConv(tasks, c) + if t.conv == c then [t] else []
  {
    assert (tasks + [t])[..|tasks|] == tasks;
  }

  lemma {:induction false} ForConvMembers(tasks: seq<Task>, c: string)
    ensures forall i | 0 <= i < |ForConv(tasks, c)| :: ForConv(tasks, c)[i] in tasks && ForConv(tasks, c)[i].conv == c
  {
    if tasks != [] {
      ForConvMembers(tasks[..|tasks| - 1], c);
    }
  }

  lemma {:induction false} ForConvNoDup(tasks: seq<Task>, c: string)
    requires NoDup(tasks)
    ensures NoDup(ForConv(tasks, c))
  {
    if tasks != [] {
      ForConvNoDup(tasks[..|tasks| - 1], c);
      ForConvMembers(tasks[..|tasks| - 1], c);
    }
  }

  /** Everything running or waiting was submitted; nothing is there twice. */
  lemma LineFacts(s: System, c: string)
    requires Registered(s) && HistoryOf(s, c)
    ensures forall i | 0 <= i < |QueueOf(s.sched, c)| ::
              Known(s, QueueOf(s.sched, c)[i]) && QueueOf(s.sched, c)[i].conv == c
    ensures forall i | 0 <= i < |RunningOf(s.sched, c)| ::
              Known(s, RunningOf(s.sched, c)[i]) && RunningOf(s.sched, c)[i] !in QueueOf(s.sched, c)
    ensures NoDup(QueueOf(s.sched, c))
  {
    var all, fin := ForConv(s.admitted, c), ForConv(s.finished, c);
    var run, queue := RunningOf(s.sched, c), QueueOf(s.sched, c);
    ForConvMembers(s.admitted, c);
    ForConvNoDup(s.admitted, c);
    forall i | 0 <= i < |queue| ensures queue[i] == all[|fin| + |run| + i] {
    }
    forall i | 0 <= i < |run| ensures run[i] == all[|fin| + i] {
    }
  }

  // ----------------------------------------------------------------- submit

  /** The step of a submission, seen from the tables it touches. */
  ghost predicate Joins(s: System, run: Run, a: Admission, s': System) {
    && run.task.id !in s.submitted
    && s'.submitted == s.submitted[run.task.id := run]
    && s'.inflight == s.inflight + (if a.StartNow? then multiset{run} else multiset{})
    && s'.payloads == (if a.Queued? then s.payloads[run.task.id := run] else s.payloads)
    && s'.admitted == s.admitted + (if a.QueueFull? then [] else [run.task])
    && s'.finished == s.finished && s'.terminals == s.terminals
    && forall d :: AdmitEffect(s.sched, run.task, a, s'.sched, d)
  }

  lemma SubmitJoins(s: System, run: Run)
    requires TasksAtHome(s.sched) && Enabled(s, Submit(run))
    ensures Joins(s, run, Admit(s.sched, run.task).1, AfterSubmit(s, run))
  {
    forall d ensures AdmitEffect(s.sched, run.task, Admit(s.sched, run.task).1, Admit(s.sched, run.task).0, d) {
      AdmitHasEffect(s.sched, run.task, d);
    }
  }

  lemma JoinRegistered(s: System, run: Run, a: Admission, s': System)
    requires Registered(s) && Joins(s, run, a, s')
    ensures Registered(s')
  {
    forall i | 0 <= i < |s.admitted| ensures Known(s', s.admitted[i]) && s.admitted[i] != run.task {
      assert Known(s, s.admitted[i]);
    }
  }

  lemma JoinWorkers(s: System, run: Run, a: Admission, s': System, r: Run)
    requires Registered(s) && HistoryOf(s, r.task.conv) && Joins(s, run, a, s')
    requires s.inflight[r] == if Holds(s, r) then 1 else 0
    ensures s'.inflight[r] == if Holds(s', r) then 1 else 0
  {
    assert AdmitEffect(s.sched, run.task, a, s'.sched, r.task.conv);
    if r == run {
      LineFacts(s, r.task.conv);
      assert r.task !in RunningOf(s.sched, r.task.conv);
    }
  }

  lemma JoinPayloads(s: System, run: Run, a: Admission, s': System, id: string)
    requires Bookkeeping(s) && Joins(s, run, a, s')
    ensures id in s'.payloads <==> Waits(s', id)
    ensures id in s'.payloads ==> s'.payloads[id] == s'.submitted[id]
  {
    assert id in s.payloads <==> Waits(s, id);
    assert HistoryOf(s, run.task.conv);
    LineFacts(s, run.task.conv);
    if id == run.task.id {
      assert AdmitEffect(s.sched, run.task, a, s'.sched, run.task.conv);
    } else if id in s.submitted {
      assert AdmitEffect(s.sched, run.task, a, s'.sched, s.submitted[id].task.conv);
      assert s.submitted[id].task != run.task;
    }
  }

  lemma AppendToLine<T>(fin: seq<T>, run: seq<T>, queue: seq<T>, added: seq<T>)
    ensures fin + run + queue + added == fin + run + (queue + added)
    ensures run + queue == [] ==> fin + run + queue + added == fin + added + queue
  {
  }

  lemma JoinHistory(s: System, run: Run, a: Admission, s': System, c: string)
    requires HistoryOf(s, c) && Joins(s, run, a, s')
    ensures HistoryOf(s', c)
  {
    assert AdmitEffect(s.sched, run.task, a, s'.sched, c);
    var added := if c == run.task.conv && !a.QueueFull? then [run.task] else [];
    assert ForConv(s'.admitted, c) == ForConv(s.admitted, c) + added by {
      if a.QueueFull? {
        assert s.admitted + [] == s.admitted;
      } else {
        ForConvSnoc(s.admitted, run.task, c);
      }
    }
    AppendToLine(ForConv(s.finished, c), RunningOf(s.sched, c), QueueOf(s.sched, c), added);
  }

  lemma JoinKeepsBookkeeping(s: System, run: Run, a: Admission, s': System)
    requires Bookkeeping(s) && Joins(s, run, a, s')
    ensures Bookkeeping(s')
  {
    JoinRegistered(s, run, a, s');
    forall r ensures s'.inflight[r] == if Holds(s', r) then 1 else 0 {
      assert HistoryOf(s, r.task.conv);
      JoinWorkers(s, run, a, s', r);
    }
    forall id
      ensures (id in s'.payloads <==> Waits(s', id)) && (id in s'.payloads ==> s'.payloads[id] == s'.submitted[id])
    {
      JoinPayloads(s, run, a, s', id);
    }
    forall c ensures HistoryOf(s', c) {
      assert HistoryOf(s, c);
      JoinHistory(s, run, a, s', c);
    }
  }

  lemma SubmitKeepsInvariant(s: System, run: Run)
    requires Invariant(s) && Enabled(s, Submit(run))
    ensures Invariant(AfterSubmit(s, run))
  {
    AdmitKeepsValid(s.sched, run.task);
    SubmitJoins(s, run);
    JoinKeepsBookkeeping(s, run, Admit(s.sched, run.task).1, AfterSubmit(s, run));
  }

  // --------------------------------------------------------------- complete

  /** The completion step when `next` is promoted, seen from the tables it touches. */
  ghost predicate Leaves(s: System, run: Run, next: Option<Task>, s': System) {
    && Holds(s, run)
    && s'.submitted == s.submitted && s'.admitted == s.admitted
    && s'.finished == s.finished + [run.task]
    && (forall d :: FinishEffect(s.sched, run.task.conv, next, s'.sched, d))
    && match next
       case None => s'.payloads == s.payloads && s'.inflight == s.inflight - multiset{run}
       case Some(t) =>
         && t.id in s.payloads && s.payloads[t.id].task == t
         && s'.payloads == s.payloads - {t.id}
         && s'.inflight == s.inflight - multiset{run} + multiset{s.payloads[t.id]}
  }

  /** Every worker in flight holds its conversation's slot. */
  lemma WorkerHolds(s: System, run: Run)
    requires WorkersExact(s) && run in s.inflight
    ensures Holds(s, run) && run.task.conv in s.sched.running && s.sched.running[run.task.conv] == run.task
  {
    assert s.inflight[run] == if Holds(s, run) then 1 else 0;
  }

  lemma NextUpWaits(s: System, c: string)
    requires Valid(s.sched) && Bookkeeping(s) && NextUp(s.sched, c).Some?
    ensures var t := NextUp(s.sched, c).value;
            t.id in s.payloads && s.payloads[t.id].task == t
  {
    var t := NextUp(s.sched, c).value;
    if c !in s.sched.queued {
      assert s.sched.ready[0] in s.sched.ready;
    }
    assert t == QueueOf(s.sched, t.conv)[0];
    assert HistoryOf(s, t.conv);
    LineFacts(s, t.conv);
    assert Waits(s, t.id);
  }

  lemma ClaimOne(t: Task, payloads: map<string, Run>)
    requires t.id in payloads
    ensures Claim([t], payloads) == ([payloads[t.id]], payloads - {t.id})
  {
    assert [t][1..] == [];
    assert [payloads[t.id]] + [] == [payloads[t.id]];
  }

  lemma FinishHasEffect(sched: Scheduler, c: string, state: TerminalState, summary: Option<string>)
    requires Valid(sched) && c in sched.running
    ensures forall d :: FinishEffect(sched, c, NextUp(sched, c), Finish(sched, c, state, summary).0, d)
    ensures Finish(sched, c, state, summary).1 == (if NextUp(sched, c).Some? then [NextUp(sched, c).value] else [])
    ensures Valid(Finish(sched, c, state, summary).0)
  {
    FinishClosedForm(sched, c, state, summary);
    FinishKeepsValidExactly(sched, c, state, summary);
    var sched' := Finish(sched, c, state, summary).0;
    forall d ensures FinishEffect(sched, c, NextUp(sched, c), sched', d) {
      HandoverHasEffect(sched, c, sched', d);
    }
  }

  /** No promoted task is dropped for want of a payload. */
  lemma CompleteLeaves(s: System, run: Run, state: TerminalState, summary: Option<string>)
    requires Valid(s.sched) && Bookkeeping(s) && run in s.inflight
    ensures Leaves(s, run, NextUp(s.sched, run.task.conv), AfterComplete(s, run, state, summary))
  {
    var c := run.task.conv;
    WorkerHolds(s, run);
    FinishHasEffect(s.sched, c, state, summary);
    if NextUp(s.sched, c).Some? {
      NextUpWaits(s, c);
      ClaimOne(NextUp(s.sched, c).value, s.payloads);
    }
  }

  lemma LeaveRegistered(s: System, run: Run, next: Option<Task>, s': System)
    requires Registered(s) && Leaves(s, run, next, s')
    ensures Registered(s')
  {
    forall i | 0 <= i < |s.admitted| ensures Known(s', s.admitted[i]) {
      assert Known(s, s.admitted[i]);
    }
  }

  lemma ShiftLine<T>(fin: seq<T>, x: T, queue: seq<T>)
    ensures fin + [x] + [] + queue == fin + [x] + queue
    ensures fin + [] + ([x] + queue) == fin + [x] + queue
    ensures fin + [] == fin
  {
  }

  lemma LeaveHistory(s: System, run: Run, next: Option<Task>, s': System, c: string)
    requires HistoryOf(s, c) && Leaves(s, run, next, s')
    ensures HistoryOf(s', c)
  {
    assert FinishEffect(s.sched, run.task.conv, next, s'.sched, c);
    ForConvSnoc(s.finished, run.task, c);
    var fin, queue' := ForConv(s.finished, c), QueueOf(s'.sched, c);
    if c == run.task.conv {
      if next.Some? && next.value.conv == c {
        assert fin + [run.task] + ([next.value] + queue') == fin + [run.task] + [next.value] + queue';
      } else {
        ShiftLine(fin, run.task, queue');
      }
    } else {
      if next.Some? && next.value.conv == c {
        ShiftLine(fin, next.value, queue');
      } else {
        ShiftLine(fin, run.task, queue');
      }
    }
  }

  lemma LeaveWorkers(s: System, run: Run, next: Option<Task>, s': System, r: Run)
    requires Registered(s) && HistoryOf(s, r.task.conv) && Leaves(s, run, next, s')
    requires s.inflight[run] == 1
    requires s.inflight[r] == if Holds(s, r) then 1 else 0
    requires next.Some? ==> Known(s, next.value) && s.payloads[next.value.id] == s.submitted[next.value.id]
    ensures s'.inflight[r] == if Holds(s', r) then 1 else 0
  {
    assert FinishEffect(s.sched, run.task.conv, next, s'.sched, r.task.conv);
    if next.Some? && next.value.conv == r.task.conv {
      LineFacts(s, r.task.conv);
      assert next.value == QueueOf(s.sched, r.task.conv)[0];
      assert next.value !in RunningOf(s.sched, r.task.conv);
    }
  }

  lemma TailMembers<T>(x: T, xs: seq<T>, t: T)
    requires NoDup([x] + xs)
    ensures t in xs <==> t in [x] + xs && t != x
  {
    assert forall i | 0 <= i < |xs| :: ([x] + xs)[i + 1] == xs[i] && xs[i] != ([x] + xs)[0];
  }

  lemma LeavePayloads(s: System, run: Run, next: Option<Task>, s': System, id: string)
    requires Registered(s) && PayloadsExact(s) && Leaves(s, run, next, s')
    requires id in s.submitted ==> HistoryOf(s, s.submitted[id].task.conv)
    ensures id in s'.payloads <==> Waits(s', id)
    ensures id in s'.payloads ==> s'.payloads[id] == s'.submitted[id]
  {
    assert id in s.payloads <==> Waits(s, id);
    if id in s.submitted {
      var t := s.submitted[id].task;
      assert FinishEffect(s.sched, run.task.conv, next, s'.sched, t.conv);
      if next.Some? && next.value.conv == t.conv {
        assert NoDup(QueueOf(s.sched, t.conv)) by {
          LineFacts(s, t.conv);
        }
        TailMembers(next.value, QueueOf(s'.sched, t.conv), t);
      }
    }
  }

  lemma LeaveKeepsBookkeeping(s: System, run: Run, next: Option<Task>, s': System)
    requires Bookkeeping(s) && run in s.inflight && Leaves(s, run, next, s')
    ensures Bookkeeping(s')
  {
    LeaveRegistered(s, run, next, s');
    if next.Some? {
      assert next.value.id in s.payloads;
    }
    assert s.inflight[run] == if Holds(s, run) then 1 else 0;
    forall r ensures s'.inflight[r] == if Holds(s', r) then 1 else 0 {
      assert HistoryOf(s, r.task.conv);
      LeaveWorkers(s, run, next, s', r);
    }
    forall id
      ensures (id in s'.payloads <==> Waits(s', id)) && (id in s'.payloads ==> s'.payloads[id] == s'.submitted[id])
    {
      LeavePayloads(s, run, next, s', id);
    }
    forall c ensures HistoryOf(s', c) {
      assert HistoryOf(s, c);
      LeaveHistory(s, run, next, s', c);
    }
  }

  lemma LastNSnoc<T>(xs: seq<T>, x: T, n: nat)
    requires 0 < n
    ensures var ys := LastN(xs, n) + [x]; LastN(xs + [x], n) == if |ys| > n then ys[1..] else ys
  {
  }

  lemma CompleteKeepsInvariant(s: System, run: Run, state: TerminalState, summary: Option<string>)
    requires Invariant(s) && run in s.inflight
    ensures Invariant(AfterComplete(s, run, state, summary))
  {
    var c := run.task.conv;
    CompleteLeaves(s, run, state, summary);
    LeaveKeepsBookkeeping(s, run, NextUp(s.sched, c), AfterComplete(s, run, state, summary));
    WorkerHolds(s, run);
    FinishHasEffect(s.sched, c, state, summary);
    FinishClosedForm(s.sched, c, state, summary);
    LastNSnoc(s.terminals, Terminal(run.task.id, c, state, summary), TERMINAL_HISTORY_CAPACITY);
  }

  lemma StepKeepsInvariant(s: System, e: Event)
    requires Invariant(s) && Enabled(s, e)
    ensures Invariant(Next(s, e))
  {
    match e
    case Submit(run) => SubmitKeepsInvariant(s, run);
    case Complete(run, state, summary) => CompleteKeepsInvariant(s, run, state, summary);
  }

  // ------------------------------------------------------------------- runs

  /** Every event of the run is enabled when it happens. */
  ghost predicate Feasible(s: System, es: seq<Event>)
    decreases |es|
  {
    es != [] ==> Enabled(s, es[0]) && Feasible(Next(s, es[0]), es[1..])
  }

  ghost function After(s: System, es: seq<Event>): System
    decreases |es|
  {
    if es == [] then s else After(Next(s, es[0]), es[1..])
  }

  lemma {:induction false} RunKeepsInvariant(s: System, es: seq<Event>)
    requires Invariant(s) && Feasible(s, es)
    ensures Invariant(After(s, es))
    decreases |es|
  {
    if es != [] {
      StepKeepsInvariant(s, es[0]);
      RunKeepsInvariant(Next(s, es[0]), es[1..]);
    }
  }

  lemma {:induction false} RunAppend(s: System, es: seq<Event>, fs: seq<Event>)
    ensures After(s, es + fs) == After(After(s, es), fs)
    ensures Feasible(s, es + fs) <==> Feasible(s, es) && Feasible(After(s, es), fs)
    decreases |es|
  {
    if es == [] {
      assert es + fs == fs;
    } else {
      assert (es + fs)[1..] == es[1..] + fs;
      RunAppend(Next(s, es[0]), es[1..], fs);
    }
  }

  lemma InitInvariant(maxConcurrent: nat, maxQueueDepth: nat)
    ensures Invariant(InitSystem(maxConcurrent, maxQueueDepth))
  {
  }

  /** Every state that some interleaving of submissions and completions reaches. */
  ghost predicate Reachable(maxConcurrent: nat, maxQueueDepth: nat, es: seq<Event>, s: System) {
    var s0 := InitSystem(maxConcurrent, maxQueueDepth);
    Feasible(s0, es) && After(s0, es) == s
  }

  lemma ReachableInvariant(maxConcurrent: nat, maxQueueDepth: nat, es: seq<Event>, s: System)
    requires Reachable(maxConcurrent, maxQueueDepth, es, s)
    ensures Invariant(s)
  {
    InitInvariant(maxConcurrent, maxQueueDepth);
    RunKeepsInvariant(InitSystem(maxConcurrent, maxQueueDepth), es);
  }
}
