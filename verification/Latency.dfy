/** When a waiting task starts: exact promotion counts, ready-queue order,
    draining, and starvation when admissions keep coming. */
module Latency {
  import opened Wrappers
  import opened SchedulerSpec
  import opened RunSystem

  /** The tasks of one conversation that are not finished: the running one, then the queue. */
  function Line(s: System, c: string): seq<Task> {
    RunningOf(s.sched, c) + QueueOf(s.sched, c)
  }

  ghost predicate Admits(s: System, e: Event) {
    e.Submit? && !Admit(s.sched, e.run.task).1.QueueFull?
  }

  // ------------------------------------------------------- effect of a step

  predicate Ends(e: Event, c: string) {
    e.Complete? && e.run.task.conv == c
  }

  /** What any step does to the line of conversation `c`. */
  ghost predicate LineStep(s: System, e: Event, s': System, c: string) {
    if Ends(e, c) then
      && Line(s, c) == [e.run.task] + Line(s', c)
      && RunningOf(s.sched, c) == [e.run.task]
      && (RunningOf(s'.sched, c) == [] ==> Line(s', c) == [])
    else
      && Line(s', c) == Line(s, c) + (if Admits(s, e) && e.run.task.conv == c then [e.run.task] else [])
      && |RunningOf(s.sched, c)| <= |RunningOf(s'.sched, c)|
  }

  lemma SubmitMovesLine(s: System, run: Run, c: string)
    requires TasksAtHome(s.sched)
    ensures LineStep(s, Submit(run), AfterSubmit(s, run), c)
  {
    AdmitHasEffect(s.sched, run.task, c);
  }

  lemma CompleteMovesLine(s: System, e: Event, next: Option<Task>, s': System, c: string)
    requires e.Complete? && Leaves(s, e.run, next, s')
    ensures LineStep(s, e, s', c)
  {
    assert FinishEffect(s.sched, e.run.task.conv, next, s'.sched, c);
  }

  lemma StepMovesLine(s: System, e: Event, c: string)
    requires Invariant(s) && Enabled(s, e)
    ensures LineStep(s, e, Next(s, e), c)
  {
    match e
    case Submit(run) => SubmitMovesLine(s, run, c);
    case Complete(run, state, summary) =>
      CompleteLeaves(s, run, state, summary);
      CompleteMovesLine(s, e, NextUp(s.sched, run.task.conv), AfterComplete(s, run, state, summary), c);
  }

  lemma FinishedGrows(s: System, es: seq<Event>)
    ensures s.finished <= After(s, es).finished
    decreases |es|
  {
    if es != [] {
      FinishedGrows(Next(s, es[0]), es[1..]);
    }
  }

  // --------------------------------------------- behind a busy conversation

  function Completions(es: seq<Event>, c: string): nat {
    if es == [] then 0
    else (if Ends(es[0], c) then 1 else 0) + Completions(es[1..], c)
  }

  /** The task stands at place `i` of its conversation's line. */
  ghost predicate StandsAt(s: System, c: string, i: int, t: Task) {
    0 <= i < |Line(s, c)| && Line(s, c)[i] == t
  }

  lemma PlaceStep(s: System, e: Event, s': System, c: string, p: nat, t: Task)
    requires LineStep(s, e, s', c) && StandsAt(s, c, p, t)
    ensures !Ends(e, c) ==> StandsAt(s', c, p, t) && (RunningOf(s.sched, c) != [] ==> RunningOf(s'.sched, c) != [])
    ensures Ends(e, c) && p == 0 ==> t == e.run.task
    ensures Ends(e, c) && p > 0 ==> StandsAt(s', c, p - 1, t) && RunningOf(s'.sched, c) != []
  {
  }

  /** Each completion of its own conversation, and nothing else, moves a task
      up one place: from place `p` to `q`, or past the front. After the first
      such completion the line has a running task at its front. */
  lemma {:induction false} PlaceInLine(s: System, es: seq<Event>, c: string, p: nat, q: int, t: Task)
    requires Invariant(s) && Feasible(s, es) && StandsAt(s, c, p, t)
    requires q == p - Completions(es, c)
    ensures if q >= 0 then StandsAt(After(s, es), c, q, t) else t in After(s, es).finished
    ensures q >= 0 && (q < p || RunningOf(s.sched, c) != []) ==> RunningOf(After(s, es).sched, c) != []
    decreases |es|
  {
    if es != [] {
      var s1 := Next(s, es[0]);
      StepKeepsInvariant(s, es[0]);
      StepMovesLine(s, es[0], c);
      PlaceStep(s, es[0], s1, c, p, t);
      if !Ends(es[0], c) {
        PlaceInLine(s1, es[1..], c, p, q, t);
      } else if p > 0 {
        PlaceInLine(s1, es[1..], c, p - 1, q, t);
      } else {
        FinishedGrows(s1, es[1..]);
        assert s1.finished[|s.finished|] == es[0].run.task;
      }
    }
  }

  /** The conversation runs or has tasks waiting: the test that `tasks_ahead` makes. */
  predicate Busy(s: System, c: string) {
    c in s.sched.running || c in s.sched.queued
  }

  lemma SubmitStandsAt(s: System, run: Run)
    requires TasksAtHome(s.sched) && Busy(s, run.task.conv)
    requires Admit(s.sched, run.task).1.Queued?
    ensures var k := Admit(s.sched, run.task).1.tasksAhead;
            1 <= k && StandsAt(AfterSubmit(s, run), run.task.conv, k, run.task)
  {
    AdmitHasEffect(s.sched, run.task, run.task.conv);
  }

  lemma StandingTables(s: System, run: Run, i: int)
    requires Invariant(s) && StandsAt(s, run.task.conv, i, run.task)
    requires run.task.id in s.submitted && s.submitted[run.task.id] == run
    requires i == 0 ==> RunningOf(s.sched, run.task.conv) != []
    ensures if i == 0 then Holds(s, run) && run in s.inflight
            else run.task in QueueOf(s.sched, run.task.conv) && run.task.id in s.payloads
  {
    var running := RunningOf(s.sched, run.task.conv);
    if i == 0 {
      assert running[0] == run.task;
      assert s.inflight[run] == if Holds(s, run) then 1 else 0;
    } else {
      assert QueueOf(s.sched, run.task.conv)[i - |running|] == run.task;
      assert Waits(s, run.task.id);
    }
  }

  /** `q` completions of its own conversation short of running; negative once it is done. */
  ghost predicate Awaits(s: System, run: Run, q: int) {
    if q > 0 then run.task in QueueOf(s.sched, run.task.conv) && run.task.id in s.payloads
    else if q == 0 then Holds(s, run) && run in s.inflight
    else run.task in s.finished
  }

  lemma AwaitsAfter(s: System, run: Run, es: seq<Event>, k: nat, q: int)
    requires Invariant(s) && Feasible(s, es) && StandsAt(s, run.task.conv, k, run.task) && 1 <= k
    requires run.task.id in s.submitted && s.submitted[run.task.id] == run
    requires q == k - Completions(es, run.task.conv)
    ensures Awaits(After(s, es), run, q)
  {
    PlaceInLine(s, es, run.task.conv, k, q, run.task);
    RunKeepsInvariant(s, es);
    SubmittedGrows(s, es, run.task.id);
    if q >= 0 {
      StandingTables(After(s, es), run, q);
    }
  }

  /** A task queued behind its own conversation, running or itself waiting for a
      slot, with `k` tasks ahead runs after exactly `k` further completions of that
      conversation: not before, not after, whatever the others do meanwhile. */
  lemma QueuedBehindBusy(s: System, run: Run, es: seq<Event>, q: int)
    requires Invariant(s) && Enabled(s, Submit(run)) && Busy(s, run.task.conv)
    requires Admit(s.sched, run.task).1.Queued?
    requires Feasible(Next(s, Submit(run)), es)
    requires q == Admit(s.sched, run.task).1.tasksAhead - Completions(es, run.task.conv)
    ensures Awaits(After(Next(s, Submit(run)), es), run, q)
    ensures Admit(s.sched, run.task).1.tasksAhead >= 1
  {
    StepKeepsInvariant(s, Submit(run));
    SubmitStandsAt(s, run);
    AwaitsAfter(Next(s, Submit(run)), run, es, Admit(s.sched, run.task).1.tasksAhead, q);
  }

  lemma SubmittedGrows(s: System, es: seq<Event>, id: string)
    requires Feasible(s, es) && id in s.submitted
    ensures id in After(s, es).submitted && After(s, es).submitted[id] == s.submitted[id]
    decreases |es|
  {
    if es != [] {
      SubmittedGrows(Next(s, es[0]), es[1..], id);
    }
  }

  // ----------------------------------------------------- ready-queue order

  /** One for a completion that frees its slot, its conversation having nothing queued. */
  function FreesBy(s: System, e: Event): nat {
    if e.Complete? && e.run.task.conv !in s.sched.queued then 1 else 0
  }

  ghost function Freed(s: System, es: seq<Event>): nat
    decreases |es|
  {
    if es == [] then 0 else FreesBy(s, es[0]) + Freed(Next(s, es[0]), es[1..])
  }

  /** `t` is the head task of the conversation at place `p` of the ready queue. */
  ghost predicate ReadyAt(s: System, p: int, t: Task) {
    && 0 <= p < |s.sched.ready| && s.sched.ready[p] == t.conv
    && QueueOf(s.sched, t.conv) != [] && QueueOf(s.sched, t.conv)[0] == t
  }

  /** Let in and no longer waiting. */
  ghost predicate Started(s: System, t: Task) {
    t in s.admitted && t !in QueueOf(s.sched, t.conv)
  }

  lemma SubmitKeepsReadyAt(s: System, run: Run, p: int, t: Task)
    requires TasksAtHome(s.sched) && ReadyAt(s, p, t)
    ensures ReadyAt(AfterSubmit(s, run), p, t)
  {
    AdmitHasEffect(s.sched, run.task, t.conv);
  }

  lemma HandoverMovesReady(s: Scheduler, c: string, s': Scheduler, p: nat)
    requires Valid(s) && c in s.running && HandsOver(s, c, s') && p < |s.ready|
    ensures c in s.queued ==>
              s'.ready == s.ready && NextUp(s, c).Some? && NextUp(s, c).value.conv == c && c != s.ready[p]
    ensures c !in s.queued ==> NextUp(s, c).Some? && NextUp(s, c).value == QueueOf(s, s.ready[0])[0]
    ensures c !in s.queued ==> NextUp(s, c).value.conv == s.ready[0]
    ensures c !in s.queued && p > 0 ==> s.ready[p] != s.ready[0] && p - 1 < |s'.ready| && s'.ready[p - 1] == s.ready[p]
  {
    assert s.ready[p] in s.ready;
    assert s.ready[0] in s.ready;
  }

  lemma CompleteMovesReadyAt(s: System, e: Event, p: int, t: Task)
    requires Invariant(s) && e.Complete? && Enabled(s, e) && ReadyAt(s, p, t)
    ensures FreesBy(s, e) == 0 ==> ReadyAt(Next(s, e), p, t)
    ensures FreesBy(s, e) == 1 && p > 0 ==> ReadyAt(Next(s, e), p - 1, t)
    ensures FreesBy(s, e) == 1 && p == 0 ==> NextUp(s.sched, e.run.task.conv) == Some(t)
  {
    var c := e.run.task.conv;
    var s' := Next(s, e);
    WorkerHolds(s, e.run);
    FinishClosedForm(s.sched, c, e.state, e.summary);
    HandoverMovesReady(s.sched, c, s'.sched, p);
    HandoverHasEffect(s.sched, c, s'.sched, t.conv);
  }

  lemma PromotionStarts(s: System, e: Event, t: Task)
    requires Invariant(s) && e.Complete? && Enabled(s, e)
    requires NextUp(s.sched, e.run.task.conv) == Some(t)
    ensures Started(Next(s, e), t)
  {
    StepMovesLine(s, e, t.conv);
    CompleteLeaves(s, e.run, e.state, e.summary);
    var s' := Next(s, e);
    assert FinishEffect(s.sched, e.run.task.conv, Some(t), s'.sched, t.conv);
    StepKeepsInvariant(s, e);
    RunningStarted(s', t);
  }

  lemma RunningStarted(s: System, t: Task)
    requires Registered(s) && HistoryOf(s, t.conv) && RunningOf(s.sched, t.conv) == [t]
    ensures Started(s, t)
  {
    LineFacts(s, t.conv);
    ForConvMembers(s.admitted, t.conv);
    assert RunningOf(s.sched, t.conv)[0] == t;
    assert ForConv(s.admitted, t.conv)[|ForConv(s.finished, t.conv)|] == t;
  }

  lemma SubmitKeepsStarted(s: System, run: Run, t: Task)
    requires TasksAtHome(s.sched) && Registered(s) && Enabled(s, Submit(run)) && Started(s, t)
    ensures Started(AfterSubmit(s, run), t)
  {
    AdmitHasEffect(s.sched, run.task, t.conv);
    var i :| 0 <= i < |s.admitted| && s.admitted[i] == t;
    assert Known(s, s.admitted[i]);
  }

  lemma LeaveKeepsStarted(s: System, run: Run, next: Option<Task>, s': System, t: Task)
    requires Leaves(s, run, next, s') && Started(s, t)
    ensures Started(s', t)
  {
    assert FinishEffect(s.sched, run.task.conv, next, s'.sched, t.conv);
  }

  /** A task that has started never waits again. */
  lemma StartedStays(s: System, e: Event, t: Task)
    requires Invariant(s) && Enabled(s, e) && Started(s, t)
    ensures Started(Next(s, e), t)
  {
    match e
    case Submit(run) => SubmitKeepsStarted(s, run, t);
    case Complete(run, state, summary) =>
      CompleteLeaves(s, run, state, summary);
      LeaveKeepsStarted(s, run, NextUp(s.sched, run.task.conv), AfterComplete(s, run, state, summary), t);
  }

  lemma {:induction false} StartedForever(s: System, es: seq<Event>, t: Task)
    requires Invariant(s) && Feasible(s, es) && Started(s, t)
    ensures Started(After(s, es), t)
    decreases |es|
  {
    if es != [] {
      StepKeepsInvariant(s, es[0]);
      StartedStays(s, es[0], t);
      StartedForever(Next(s, es[0]), es[1..], t);
    }
  }

  /** Place `p` in the ready queue; past the front means started. */
  ghost predicate Progress(s: System, p: int, t: Task) {
    if p >= 0 then ReadyAt(s, p, t) else Started(s, t)
  }

  lemma CompleteMovesReady(s: System, e: Event, p: int, p1: int, t: Task)
    requires Invariant(s) && e.Complete? && Enabled(s, e) && ReadyAt(s, p, t)
    requires p1 == p - FreesBy(s, e)
    ensures Progress(Next(s, e), p1, t)
  {
    CompleteMovesReadyAt(s, e, p, t);
    if FreesBy(s, e) == 1 && p == 0 {
      PromotionStarts(s, e, t);
    }
  }

  lemma StepMovesReady(s: System, e: Event, p: int, p1: int, t: Task)
    requires Invariant(s) && Enabled(s, e) && Progress(s, p, t)
    requires p1 == p - FreesBy(s, e)
    ensures Progress(Next(s, e), p1, t)
  {
    if p < 0 {
      StartedStays(s, e, t);
    } else if e.Submit? {
      SubmitKeepsReadyAt(s, e.run, p, t);
    } else {
      CompleteMovesReady(s, e, p, p1, t);
    }
  }

  /** Each completion that frees its slot, and nothing else, moves a ready
      conversation up one place: from `p` to `q`, or past the front. */
  lemma {:induction false} ReadyOrder(s: System, es: seq<Event>, p: int, q: int, t: Task)
    requires Invariant(s) && Feasible(s, es) && Progress(s, p, t)
    requires q == p - Freed(s, es)
    ensures Progress(After(s, es), q, t)
    decreases |es|
  {
    if es != [] {
      StepKeepsInvariant(s, es[0]);
      var p1 := p - FreesBy(s, es[0]);
      StepMovesReady(s, es[0], p, p1, t);
      ReadyOrder(Next(s, es[0]), es[1..], p1, q, t);
    }
  }

  /** The task at place `p` of the ready queue starts exactly with the
      `p + 1`-st completion that frees its slot. */
  lemma ReadyStartsExactly(s: System, es: seq<Event>, p: nat, t: Task)
    requires Invariant(s) && Feasible(s, es) && ReadyAt(s, p, t)
    ensures Started(After(s, es), t) <==> Freed(s, es) > p
  {
    ReadyOrder(s, es, p, p - Freed(s, es), t);
  }

  /** Ready conversations start in the order they became ready. */
  lemma ReadyIsFifo(s: System, es: seq<Event>, p: nat, q: nat, t: Task, u: Task)
    requires Invariant(s) && Feasible(s, es) && p < q && ReadyAt(s, p, t) && ReadyAt(s, q, u)
    ensures Started(After(s, es), u) ==> Started(After(s, es), t)
  {
    ReadyStartsExactly(s, es, p, t);
    ReadyStartsExactly(s, es, q, u);
  }
}
