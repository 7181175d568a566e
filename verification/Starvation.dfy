/** What can happen when tasks keep coming: a ready task may wait through any
    number of completions, and exactly when it may. */
module Starvation {
  import opened Wrappers
  import opened SchedulerSpec
  import opened RunSystem
  import opened Latency
  import opened Draining

  lemma {:induction false} LongerThanAll(ids: set<string>) returns (n: nat)
    ensures forall id | id in ids :: |id| < n
    decreases |ids|
  {
    if ids == {} {
      n := 0;
    } else {
      var id :| id in ids;
      var m := LongerThanAll(ids - {id});
      n := if m <= |id| then |id| + 1 else m;
    }
  }

  lemma FreshRun(s: System, c: string) returns (run: Run)
    ensures Enabled(s, Submit(run)) && run.task.conv == c
  {
    var n := LongerThanAll(s.submitted.Keys);
    run := Run(Task(seq(n, _ => 'x'), c, "", None), "");
  }

  /** A running task whose conversation has a task queued or may queue one. */
  ghost predicate CanHog(s: System, run: Run) {
    && run in s.inflight
    && (run.task.conv in s.sched.queued || Waiting(s.sched.queued) < s.sched.maxQueueDepth)
  }

  lemma HogSubmits(s: System, hog: Run, next: Run)
    requires Invariant(s) && CanHog(s, hog) && hog.task.conv !in s.sched.queued
    requires Enabled(s, Submit(next)) && next.task.conv == hog.task.conv
    ensures var s1 := Next(s, Submit(next)); hog in s1.inflight && hog.task.conv in s1.sched.queued
  {
    WorkerHolds(s, hog);
  }

  /** Its own next task takes the slot over, and there is room in the queue afterwards. */
  lemma HogFinishes(s: System, hog: Run) returns (next: Run)
    requires Invariant(s) && hog in s.inflight && hog.task.conv in s.sched.queued
    ensures CanHog(Next(s, Complete(hog, Completed, None)), next)
  {
    var c := hog.task.conv;
    WorkerHolds(s, hog);
    CompleteLeaves(s, hog, Completed, None);
    FinishClosedForm(s.sched, c, Completed, None);
    HandoverCounts(s.sched, c, Next(s, Complete(hog, Completed, None)).sched);
    next := s.payloads[NextUp(s.sched, c).value.id];
    assert next in multiset{next};
  }

  ghost predicate StarvedBy(s: System, es: seq<Event>, n: nat, p: nat, t: Task) {
    Feasible(s, es) && CompletionCount(es) == n && ReadyAt(After(s, es), p, t)
  }

  /** In some run the task keeps its place through `n` completions. */
  ghost predicate Starves(s: System, n: nat, p: nat, t: Task) {
    exists es :: StarvedBy(s, es, n, p, t)
  }

  lemma StarvesNow(s: System, p: nat, t: Task)
    requires ReadyAt(s, p, t)
    ensures Starves(s, 0, p, t)
  {
    assert StarvedBy(s, [], 0, p, t);
  }

  lemma {:induction false} CountsAdd(es: seq<Event>, fs: seq<Event>)
    ensures CompletionCount(es + fs) == CompletionCount(es) + CompletionCount(fs)
  {
    if es == [] {
      assert es + fs == fs;
    } else {
      assert (es + fs)[1..] == es[1..] + fs;
      CountsAdd(es[1..], fs);
    }
  }

  /** Some run with exactly one completion goes from `s` to `s'`. */
  ghost predicate Leads(s: System, s': System) {
    exists es :: OneCompletion(s, es, s')
  }

  ghost predicate OneCompletion(s: System, es: seq<Event>, s': System) {
    Feasible(s, es) && CompletionCount(es) == 1 && After(s, es) == s'
  }

  lemma StarvesLater(s: System, s': System, n: nat, m: nat, p: nat, t: Task)
    requires Leads(s, s') && Starves(s', m, p, t) && n == 1 + m
    ensures Starves(s, n, p, t)
  {
    var es :| OneCompletion(s, es, s');
    var rest :| StarvedBy(s', rest, m, p, t);
    RunAppend(s, es, rest);
    CountsAdd(es, rest);
    assert StarvedBy(s, es + rest, n, p, t);
  }

  /** The ready task in its place, and a running task that can hold its slot. */
  ghost predicate Hogged(s: System, hog: Run, p: nat, t: Task) {
    Invariant(s) && CanHog(s, hog) && ReadyAt(s, p, t)
  }

  /** What one step of the hog leaves. */
  ghost predicate StillHogged(s: System, e: Event, hog: Run, p: nat, t: Task) {
    Enabled(s, e) && Hogged(Next(s, e), hog, p, t)
  }

  lemma HogCompletes(s: System, hog: Run, p: nat, t: Task) returns (next: Run)
    requires Hogged(s, hog, p, t) && hog.task.conv in s.sched.queued
    ensures StillHogged(s, Complete(hog, Completed, None), next, p, t)
  {
    var e := Complete(hog, Completed, None);
    next := HogFinishes(s, hog);
    StepMovesReady(s, e, p, p, t);
    StepKeepsInvariant(s, e);
  }

  lemma HogQueues(s: System, hog: Run, p: nat, t: Task) returns (next: Run)
    requires Hogged(s, hog, p, t) && hog.task.conv !in s.sched.queued
    ensures StillHogged(s, Submit(next), hog, p, t) && hog.task.conv in Next(s, Submit(next)).sched.queued
  {
    next := FreshRun(s, hog.task.conv);
    HogSubmits(s, hog, next);
    StepMovesReady(s, Submit(next), p, p, t);
    StepKeepsInvariant(s, Submit(next));
  }

  lemma OneEvent(s: System, e: Event)
    requires e.Complete? && Enabled(s, e)
    ensures Leads(s, Next(s, e))
  {
    OneEventLeads(s, e, [e]);
  }

  lemma OneEventLeads(s: System, e: Event, es: seq<Event>)
    requires e.Complete? && Enabled(s, e) && |es| == 1 && es[0] == e
    ensures Leads(s, Next(s, e))
  {
    var rest := es[1..];
    assert Feasible(Next(s, e), rest) && After(Next(s, e), rest) == Next(s, e) && CompletionCount(rest) == 0;
    assert OneCompletion(s, es, Next(s, e));
  }

  lemma SubmitFirst(s: System, e: Event, s': System)
    requires e.Submit? && Enabled(s, e) && Leads(Next(s, e), s')
    ensures Leads(s, s')
  {
    var es :| OneCompletion(Next(s, e), es, s');
    assert ([e] + es)[1..] == es;
    assert OneCompletion(s, [e] + es, s');
  }

  /** The hog, with a task queued first if it has none, hands its slot on to its own conversation. */
  lemma HogRound(s: System, hog: Run, p: nat, t: Task) returns (s': System, next: Run)
    requires Hogged(s, hog, p, t)
    ensures Leads(s, s') && Hogged(s', next, p, t)
  {
    var f := Complete(hog, Completed, None);
    if hog.task.conv in s.sched.queued {
      next := HogCompletes(s, hog, p, t);
      OneEvent(s, f);
      s' := Next(s, f);
    } else {
      var e := HogQueues(s, hog, p, t);
      var s1 := Next(s, Submit(e));
      next := HogCompletes(s1, hog, p, t);
      OneEvent(s1, f);
      s' := Next(s1, f);
      SubmitFirst(s, Submit(e), s');
    }
  }

  /** As long as one running conversation has a task queued or may queue one, it
      can take every completed slot again, and a ready task keeps its place
      through any number of completions. */
  lemma ReadyTaskCanStarve(s: System, hog: Run, p: nat, t: Task, n: nat)
    requires Hogged(s, hog, p, t)
    ensures Starves(s, n, p, t)
  {
    assert Hoggable(s, p, t);
    HoggableStarves(s, p, t, n);
  }

  ghost predicate Hoggable(s: System, p: nat, t: Task) {
    exists hog :: Hogged(s, hog, p, t)
  }

  lemma HoggableRound(s: System, p: nat, t: Task) returns (s': System)
    requires Hoggable(s, p, t)
    ensures Hoggable(s', p, t)
    ensures forall m: nat, n: nat | n == m + 1 && Starves(s', m, p, t) :: Starves(s, n, p, t)
  {
    var hog :| Hogged(s, hog, p, t);
    var s1, next := HogRound(s, hog, p, t);
    s' := s1;
    assert Hogged(s', next, p, t);
    forall m: nat, n: nat | n == m + 1 && Starves(s', m, p, t) ensures Starves(s, n, p, t) {
      StarvesLater(s, s', n, m, p, t);
    }
  }

  lemma HoggableReady(s: System, p: nat, t: Task)
    requires Hoggable(s, p, t)
    ensures Starves(s, 0, p, t)
  {
    StarvesNow(s, p, t);
  }

  lemma {:induction false} HoggableStarves(s: System, p: nat, t: Task, n: nat)
    requires Hoggable(s, p, t)
    ensures Starves(s, n, p, t)
    decreases n
  {
    if n == 0 {
      HoggableReady(s, p, t);
    } else {
      var s' := HoggableRound(s, p, t);
      HoggableStarves(s', p, t, n - 1);
    }
  }

  // ------------------------------------------------------ exactly when it can

  ghost predicate WaitsThrough(s: System, es: seq<Event>, n: nat, t: Task) {
    Feasible(s, es) && CompletionCount(es) == n && !Started(After(s, es), t)
  }

  ghost predicate MayWait(s: System, n: nat, t: Task) {
    exists es :: WaitsThrough(s, es, n, t)
  }

  /** Any number of completions may pass before the task starts. */
  ghost predicate Unbounded(s: System, t: Task) {
    forall n: nat :: MayWait(s, n, t)
  }

  /** The queue is full and no running conversation has anything in it. */
  ghost predicate NobodyCanHog(s: System) {
    && Waiting(s.sched.queued) == s.sched.maxQueueDepth
    && forall c | c in s.sched.running :: c !in s.sched.queued
  }

  lemma ReadyMeansFull(s: System, e: Event)
    requires Valid(s.sched) && s.sched.ready != [] && NobodyCanHog(s) && e.Submit?
    ensures !Admits(s, e) && Next(s, e).sched == s.sched
  {
    AdmissionExactly(s.sched, e.run.task);
  }

  /** Then the head of the ready queue starts with the very next completion,
      whatever is submitted meanwhile. */
  lemma {:induction false} HeadStartsNext(s: System, es: seq<Event>, t: Task)
    requires Invariant(s) && NobodyCanHog(s) && ReadyAt(s, 0, t)
    requires Feasible(s, es) && CompletionCount(es) > 0
    ensures Started(After(s, es), t)
    decreases |es|
  {
    var e := es[0];
    StepKeepsInvariant(s, e);
    if e.Submit? {
      ReadyMeansFull(s, e);
      HeadStartsNext(Next(s, e), es[1..], t);
    } else {
      WorkerHolds(s, e.run);
      CompleteMovesReadyAt(s, e, 0, t);
      PromotionStarts(s, e, t);
      StartedForever(Next(s, e), es[1..], t);
    }
  }

  lemma StarvedWaits(s: System, n: nat, p: nat, t: Task)
    requires Starves(s, n, p, t)
    ensures MayWait(s, n, t)
  {
    var es :| StarvedBy(s, es, n, p, t);
    assert WaitsThrough(s, es, n, t);
  }

  lemma ReadyHasRunner(s: System) returns (run: Run)
    requires Invariant(s) && s.sched.ready != []
    ensures run in s.inflight && run.task.conv in s.sched.running
  {
    var c :| c in s.sched.running;
    run := WorkerOf(s, c);
  }

  /** Behind another ready task: once that one has started there is room in the queue. */
  lemma FirstGoes(s: System, p: nat, t: Task) returns (s': System, hog: Run)
    requires Invariant(s) && NobodyCanHog(s) && p > 0 && ReadyAt(s, p, t)
    ensures Leads(s, s') && Hogged(s', hog, p - 1, t)
  {
    var run := ReadyHasRunner(s);
    var e := Complete(run, Completed, None);
    CompleteMovesReadyAt(s, e, p, t);
    StepKeepsInvariant(s, e);
    CompletionMakesRoom(s, run);
    s' := Next(s, e);
    hog := ReadyHasRunner(s');
    OneEvent(s, e);
  }

  lemma HogWaits(s: System, hog: Run, p: nat, t: Task, n: nat)
    requires Hogged(s, hog, p, t)
    ensures MayWait(s, n, t)
  {
    ReadyTaskCanStarve(s, hog, p, t, n);
    StarvedWaits(s, n, p, t);
  }

  lemma WaitsLater(s: System, s': System, n: nat, m: nat, t: Task)
    requires Leads(s, s') && MayWait(s', m, t) && n == 1 + m
    ensures MayWait(s, n, t)
  {
    var es :| OneCompletion(s, es, s');
    var rest :| WaitsThrough(s', rest, m, t);
    RunAppend(s, es, rest);
    CountsAdd(es, rest);
    assert WaitsThrough(s, es + rest, n, t);
  }

  lemma WaitsBehindFirst(s: System, p: nat, t: Task, m: nat) returns (s': System)
    requires Invariant(s) && NobodyCanHog(s) && p > 0 && ReadyAt(s, p, t)
    ensures Leads(s, s') && MayWait(s', m, t)
  {
    var s1, hog := FirstGoes(s, p, t);
    var q: nat := p - 1;
    HogWaits(s1, hog, q, t, m);
    s' := s1;
  }

  lemma StarveSecond(s: System, p: nat, t: Task, n: nat)
    requires Invariant(s) && NobodyCanHog(s) && p > 0 && ReadyAt(s, p, t)
    ensures MayWait(s, n, t)
  {
    if n == 0 {
      StarvesNow(s, p, t);
      StarvedWaits(s, 0, p, t);
    } else {
      var s' := WaitsBehindFirst(s, p, t, n - 1);
      WaitsLater(s, s', n, n - 1, t);
    }
  }

  lemma CompletionMakesRoom(s: System, run: Run)
    requires Invariant(s) && run in s.inflight && s.sched.ready != []
    ensures var s' := Next(s, Complete(run, Completed, None));
            Waiting(s'.sched.queued) < s'.sched.maxQueueDepth
  {
    var c := run.task.conv;
    WorkerHolds(s, run);
    FinishClosedForm(s.sched, c, Completed, None);
    HandoverCounts(s.sched, c, Next(s, Complete(run, Completed, None)).sched);
  }

  lemma SomebodyHogs(s: System) returns (hog: Run)
    requires Invariant(s) && s.sched.ready != [] && !NobodyCanHog(s)
    ensures CanHog(s, hog)
  {
    if Waiting(s.sched.queued) < s.sched.maxQueueDepth {
      hog := ReadyHasRunner(s);
    } else {
      var c :| c in s.sched.running && c in s.sched.queued;
      hog := WorkerOf(s, c);
    }
  }

  lemma WaitsLong(s: System, p: nat, t: Task, n: nat)
    requires Invariant(s) && ReadyAt(s, p, t) && !(p == 0 && NobodyCanHog(s))
    ensures MayWait(s, n, t)
  {
    if NobodyCanHog(s) {
      StarveSecond(s, p, t, n);
    } else {
      var hog := SomebodyHogs(s);
      HogWaits(s, hog, p, t, n);
    }
  }

  /** A ready task may have to wait through any number of completions, unless it
      is the head of the ready queue, the queue is full, and no running
      conversation has anything queued. */
  lemma WaitUnboundedExactly(s: System, p: nat, t: Task)
    requires Invariant(s) && ReadyAt(s, p, t)
    ensures Unbounded(s, t) <==> !(p == 0 && NobodyCanHog(s))
  {
    if p == 0 && NobodyCanHog(s) {
      if MayWait(s, 1, t) {
        var es :| WaitsThrough(s, es, 1, t);
        HeadStartsNext(s, es, t);
      }
    } else {
      forall n: nat ensures MayWait(s, n, t) {
        WaitsLong(s, p, t, n);
      }
    }
  }

  /** Seen before the call: the wait of a task queued for an idle conversation is
      bounded exactly when it takes the last place of the queue, no conversation
      is ready before it, and no running conversation has anything queued. */
  lemma IdleWaitUnboundedExactly(s: System, run: Run)
    requires Invariant(s) && Enabled(s, Submit(run)) && Admit(s.sched, run.task).1.Queued?
    requires !Busy(s, run.task.conv)
    ensures Unbounded(Next(s, Submit(run)), run.task) <==>
              !(&& s.sched.ready == [] && Waiting(s.sched.queued) + 1 == s.sched.maxQueueDepth
                && forall c | c in s.sched.running :: c !in s.sched.queued)
  {
    var s1 := Next(s, Submit(run));
    SubmitIdleConversation(s, run);
    StepKeepsInvariant(s, Submit(run));
    assert s1.sched.ready == s.sched.ready + [run.task.conv];
    WaitUnboundedExactly(s1, |s.sched.ready|, run.task);
  }

  const FIRST: Run := Run(Task("1", "qq:group:1", "", None), "")
  const SECOND: Run := Run(Task("2", "qq:group:2", "", None), "")

  lemma TwoSubmissions()
    ensures var s1 := Next(InitSystem(1, 2), Submit(FIRST));
            && Enabled(InitSystem(1, 2), Submit(FIRST)) && Enabled(s1, Submit(SECOND))
            && Admit(s1.sched, SECOND.task).1 == Queued(1)
            && CanHog(Next(s1, Submit(SECOND)), FIRST)
            && ReadyAt(Next(s1, Submit(SECOND)), 0, SECOND.task)
  {
    var s1 := Next(InitSystem(1, 2), Submit(FIRST));
    assert "qq:group:1"[9] != "qq:group:2"[9] && "1"[0] != "2"[0];
    assert s1.sched.running == map["qq:group:1" := FIRST.task];
    WaitingUpdate(s1.sched.queued, SECOND.task.conv, [SECOND.task]);
    assert [] + [SECOND.task] == [SECOND.task];
  }

  /** The promise of `tasks_ahead` to a task queued for an idle conversation is
      conditional: with one slot and two queue places, a task told that one task
      is ahead may still be waiting after any number of completions. */
  lemma ToldOneAheadYetStarves(n: nat)
    ensures var s1 := Next(InitSystem(1, 2), Submit(FIRST));
            && Admit(s1.sched, SECOND.task).1 == Queued(1)
            && Starves(Next(s1, Submit(SECOND)), n, 0, SECOND.task)
  {
    var s1 := Next(InitSystem(1, 2), Submit(FIRST));
    TwoSubmissions();
    InitInvariant(1, 2);
    StepKeepsInvariant(InitSystem(1, 2), Submit(FIRST));
    StepKeepsInvariant(s1, Submit(SECOND));
    ReadyTaskCanStarve(Next(s1, Submit(SECOND)), FIRST, 0, SECOND.task, n);
  }
}
