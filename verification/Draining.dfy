/** What happens when no further task is let in: everything drains, one task per
    completion, and a ready task starts within the waiting count. */
module Draining {
  import opened SchedulerSpec
  import opened RunSystem
  import opened Latency

  ghost function Load(s: System): nat {
    |s.sched.running| + Waiting(s.sched.queued)
  }

  /** No event of the run lets a task in. */
  ghost predicate Quiet(s: System, es: seq<Event>)
    decreases |es|
  {
    es != [] ==> !Admits(s, es[0]) && Quiet(Next(s, es[0]), es[1..])
  }

  function CompletesBy(e: Event): nat {
    if e.Complete? then 1 else 0
  }

  function CompletionCount(es: seq<Event>): nat {
    if es == [] then 0 else CompletesBy(es[0]) + CompletionCount(es[1..])
  }

  // ------------------------------------------------------------------ drain

  lemma QuietStepLoad(s: System, e: Event)
    requires Invariant(s) && Enabled(s, e) && !Admits(s, e)
    ensures Load(Next(s, e)) == Load(s) - CompletesBy(e)
  {
    if e.Complete? {
      WorkerHolds(s, e.run);
      FinishClosedForm(s.sched, e.run.task.conv, e.state, e.summary);
      HandoverCounts(s.sched, e.run.task.conv, Next(s, e).sched);
    }
  }

  /** Without admissions the load drops by exactly one per completion. */
  lemma {:induction false} LoadDrains(s: System, es: seq<Event>)
    requires Invariant(s) && Feasible(s, es) && Quiet(s, es)
    ensures Load(After(s, es)) + CompletionCount(es) == Load(s)
    decreases |es|
  {
    if es != [] {
      StepKeepsInvariant(s, es[0]);
      QuietStepLoad(s, es[0]);
      LoadDrains(Next(s, es[0]), es[1..]);
    }
  }

  lemma WaitingZero(queued: map<string, seq<Task>>)
    requires forall c | c in queued :: queued[c] != []
    ensures Waiting(queued) == 0 <==> queued == map[]
  {
    if queued != map[] {
      var c :| c in queued;
      WaitingWithout(queued, c);
    }
  }

  /** A running conversation has its worker in flight. */
  lemma WorkerOf(s: System, c: string) returns (run: Run)
    requires Bookkeeping(s) && TasksAtHome(s.sched) && c in s.sched.running
    ensures run in s.inflight && run.task == s.sched.running[c] && run.task.conv == c
  {
    assert HistoryOf(s, c);
    LineFacts(s, c);
    var t := RunningOf(s.sched, c)[0];
    assert Known(s, t);
    run := s.submitted[t.id];
    assert Holds(s, run);
    assert s.inflight[run] == 1;
  }

  /** While any task runs or waits, some worker is in flight: no deadlock. */
  lemma LoadHasWorker(s: System)
    requires Invariant(s) && Load(s) > 0
    ensures exists run :: run in s.inflight
  {
    WaitingZero(s.sched.queued);
    assert forall c | c in s.sched.queued && c !in s.sched.running :: c in s.sched.ready;
    var c :| c in s.sched.running;
    var run := WorkerOf(s, c);
  }

  ghost predicate Idle(s: System) {
    && s.sched.running == map[] && s.sched.queued == map[] && s.sched.ready == []
    && s.payloads == map[] && s.inflight == multiset{}
  }

  lemma NoLoadIsIdle(s: System)
    requires Invariant(s)
    ensures Load(s) == 0 <==> Idle(s)
  {
    if Load(s) == 0 {
      WaitingZero(s.sched.queued);
      forall run ensures run !in s.inflight {
        assert s.inflight[run] == if Holds(s, run) then 1 else 0;
      }
      forall id ensures id !in s.payloads {
        assert id in s.payloads <==> Waits(s, id);
      }
    }
  }

  /** With nothing more let in, the scheduler is idle after exactly as many
      completions as tasks were running or waiting, in whatever order they come. */
  lemma IdleAfterExactly(s: System, es: seq<Event>)
    requires Invariant(s) && Feasible(s, es) && Quiet(s, es)
    ensures CompletionCount(es) <= Load(s)
    ensures Idle(After(s, es)) <==> CompletionCount(es) == Load(s)
  {
    RunKeepsInvariant(s, es);
    LoadDrains(s, es);
    NoLoadIsIdle(After(s, es));
  }

  // ------------------------------------------ bounded wait without admissions

  /** `t` heads a ready conversation. */
  ghost predicate InReady(s: System, t: Task) {
    t.conv in s.sched.ready && QueueOf(s.sched, t.conv) != [] && QueueOf(s.sched, t.conv)[0] == t
  }

  ghost predicate StartedOr(s: System, w: int, t: Task) {
    Started(s, t) || (InReady(s, t) && Waiting(s.sched.queued) == w)
  }

  lemma QuietStepWait(s: System, e: Event, w: int, t: Task)
    requires Invariant(s) && Enabled(s, e) && !Admits(s, e) && StartedOr(s, w, t)
    ensures StartedOr(Next(s, e), w - CompletesBy(e), t)
  {
    if Started(s, t) {
      StartedStays(s, e, t);
    } else if e.Complete? {
      var p :| 0 <= p < |s.sched.ready| && s.sched.ready[p] == t.conv;
      StepMovesReady(s, e, p, p - FreesBy(s, e), t);
      WorkerHolds(s, e.run);
      FinishClosedForm(s.sched, e.run.task.conv, e.state, e.summary);
      HandoverCounts(s.sched, e.run.task.conv, Next(s, e).sched);
    }
  }

  lemma {:induction false} QuietWait(s: System, es: seq<Event>, w: int, v: int, t: Task)
    requires Invariant(s) && Feasible(s, es) && Quiet(s, es) && StartedOr(s, w, t)
    requires v == w - CompletionCount(es)
    ensures StartedOr(After(s, es), v, t)
    decreases |es|
  {
    if es != [] {
      StepKeepsInvariant(s, es[0]);
      QuietStepWait(s, es[0], w, t);
      QuietWait(Next(s, es[0]), es[1..], w - CompletesBy(es[0]), v, t);
    }
  }

  lemma SubmitIdleConversation(s: System, run: Run)
    requires Valid(s.sched) && Admit(s.sched, run.task).1.Queued?
    requires run.task.conv !in s.sched.running && run.task.conv !in s.sched.queued
    ensures InReady(AfterSubmit(s, run), run.task)
    ensures Waiting(AfterSubmit(s, run).sched.queued) == Waiting(s.sched.queued) + 1
    ensures Admit(s.sched, run.task).1.tasksAhead == |s.sched.running| + Waiting(s.sched.queued) >=
            Waiting(s.sched.queued) + 1
  {
    WaitingUpdate(s.sched.queued, run.task.conv, [run.task]);
    assert QueueOf(s.sched, run.task.conv) + [run.task] == [run.task];
  }

  /** A task queued for an idle conversation starts, if nothing more is let in,
      within one completion more than the tasks waiting before it, whichever
      runs complete; the `tasks_ahead` it was told is never less than that. */
  lemma IdleConversationWait(s: System, run: Run, es: seq<Event>)
    requires Invariant(s) && Enabled(s, Submit(run)) && Admit(s.sched, run.task).1.Queued?
    requires run.task.conv !in s.sched.running && run.task.conv !in s.sched.queued
    requires Feasible(Next(s, Submit(run)), es) && Quiet(Next(s, Submit(run)), es)
    ensures Admit(s.sched, run.task).1.tasksAhead >= Waiting(s.sched.queued) + 1
    ensures CompletionCount(es) >= Waiting(s.sched.queued) + 1 ==> Started(After(Next(s, Submit(run)), es), run.task)
  {
    var s1 := Next(s, Submit(run));
    SubmitIdleConversation(s, run);
    StepKeepsInvariant(s, Submit(run));
    var w := Waiting(s.sched.queued) + 1;
    QuietWait(s1, es, w, w - CompletionCount(es), run.task);
    RunKeepsInvariant(s1, es);
    WaitingZero(After(s1, es).sched.queued);
  }
}
