/** What `tasks_ahead` is worth when nothing more is let in: exactly when the
    number told bounds the completions, of whatever conversation, before the start. */
module Promise {
  import opened Wrappers
  import opened SchedulerSpec
  import opened RunSystem
  import opened Latency
  import opened Draining

  /** Without admissions the task has started after `k` completions, whichever they are. */
  ghost predicate BoundsQuietWait(s: System, t: Task, k: nat) {
    forall es :: Feasible(s, es) && Quiet(s, es) && CompletionCount(es) >= k ==> Started(After(s, es), t)
  }

  ghost predicate NoOtherRuns(s: System, c: string) {
    forall d | d in s.sched.running :: d == c
  }

  // ------------------------------------------------ alone, the number bounds

  /** `p` completions short of its start, all of them its own conversation's. */
  ghost predicate OwnTurns(s: System, c: string, p: int, t: Task) {
    if p >= 1 then NoOtherRuns(s, c) && StandsAt(s, c, p, t) else Started(s, t)
  }

  lemma FrontStarted(s: System, c: string, t: Task)
    requires Invariant(s) && StandsAt(s, c, 0, t) && RunningOf(s.sched, c) != []
    ensures Started(s, t)
  {
    assert RunningOf(s.sched, c)[0] == t;
    assert HistoryOf(s, t.conv);
    RunningStarted(s, t);
  }

  /** The only running conversation keeps its slot while it has tasks waiting. */
  lemma OwnTurnEnds(s: System, e: Event, c: string, p: nat, t: Task)
    requires Invariant(s) && Enabled(s, e) && e.Complete?
    requires NoOtherRuns(s, c) && StandsAt(s, c, p, t) && 1 <= p
    ensures NoOtherRuns(Next(s, e), c) && StandsAt(Next(s, e), c, p - 1, t) && RunningOf(Next(s, e).sched, c) != []
  {
    WorkerHolds(s, e.run);
    StepMovesLine(s, e, c);
    PlaceStep(s, e, Next(s, e), c, p, t);
    FinishClosedForm(s.sched, c, e.state, e.summary);
  }

  lemma QuietStepTurn(s: System, e: Event, c: string, p: int, p1: int, t: Task)
    requires Invariant(s) && Enabled(s, e) && !Admits(s, e) && OwnTurns(s, c, p, t)
    requires p1 == p - CompletesBy(e)
    ensures OwnTurns(Next(s, e), c, p1, t)
  {
    if p < 1 {
      StartedStays(s, e, t);
    } else if e.Complete? {
      OwnTurnEnds(s, e, c, p, t);
      if p == 1 {
        StepKeepsInvariant(s, e);
        FrontStarted(Next(s, e), c, t);
      }
    }
  }

  lemma {:induction false} QuietTurns(s: System, es: seq<Event>, c: string, p: int, q: int, t: Task)
    requires Invariant(s) && Feasible(s, es) && Quiet(s, es) && OwnTurns(s, c, p, t)
    requires q == p - CompletionCount(es)
    ensures OwnTurns(After(s, es), c, q, t)
    decreases |es|
  {
    if es != [] {
      var p1 := p - CompletesBy(es[0]);
      StepKeepsInvariant(s, es[0]);
      QuietStepTurn(s, es[0], c, p, p1, t);
      QuietTurns(Next(s, es[0]), es[1..], c, p1, q, t);
    }
  }

  // ------------------------------- with another run, it is one short at least

  ghost predicate QuietRun(s: System, es: seq<Event>, n: nat) {
    Feasible(s, es) && Quiet(s, es) && CompletionCount(es) == n
  }

  lemma QuietPrepend(s: System, e: Event, rest: seq<Event>, m: nat)
    requires Enabled(s, e) && e.Complete? && QuietRun(Next(s, e), rest, m)
    ensures QuietRun(s, [e] + rest, m + 1)
  {
    assert ([e] + rest)[1..] == rest;
  }

  lemma OneMore(s: System) returns (e: Event)
    requires Invariant(s) && Load(s) > 0
    ensures e.Complete? && Enabled(s, e) && Invariant(Next(s, e)) && Load(Next(s, e)) == Load(s) - 1
  {
    LoadHasWorker(s);
    var run :| run in s.inflight;
    e := Complete(run, Completed, None);
    StepKeepsInvariant(s, e);
    QuietStepLoad(s, e);
  }

  lemma {:induction false} SomeCompletions(s: System, n: nat) returns (es: seq<Event>)
    requires Invariant(s) && n <= Load(s)
    ensures QuietRun(s, es, n)
    decreases n
  {
    if n == 0 {
      es := [];
    } else {
      var e := OneMore(s);
      var rest := SomeCompletions(Next(s, e), n - 1);
      QuietPrepend(s, e, rest, n - 1);
      es := [e] + rest;
    }
  }

  lemma OwnAreSome(es: seq<Event>, c: string)
    ensures Completions(es, c) <= CompletionCount(es)
  {
  }

  lemma LineWithinLoad(s: System, c: string)
    ensures |QueueOf(s.sched, c)| <= Waiting(s.sched.queued)
  {
    if c in s.sched.queued {
      WaitingWithout(s.sched.queued, c);
    }
  }

  lemma OtherEnds(s: System, d: string, k: nat) returns (e: Event, rest: seq<Event>)
    requires Invariant(s) && d in s.sched.running && k < Load(s)
    ensures e.Complete? && e.run.task.conv == d && Enabled(s, e) && QuietRun(Next(s, e), rest, k)
  {
    var x := WorkerOf(s, d);
    e := Complete(x, Completed, None);
    StepKeepsInvariant(s, e);
    QuietStepLoad(s, e);
    rest := SomeCompletions(Next(s, e), k);
  }

  /** Another conversation's completion first, then any: one own completion is missing. */
  lemma OtherFirst(s: System, c: string, d: string, k: nat) returns (es: seq<Event>)
    requires Invariant(s) && d in s.sched.running && d != c && 1 <= k <= Load(s)
    ensures QuietRun(s, es, k) && Completions(es, c) < k
  {
    var e, rest := OtherEnds(s, d, k - 1);
    QuietPrepend(s, e, rest, k - 1);
    OwnAreSome(rest, c);
    es := [e] + rest;
    assert es[1..] == rest;
  }

  lemma WaitsBeyond(s: System, run: Run, d: string) returns (es: seq<Event>)
    requires Invariant(s) && Enabled(s, Submit(run)) && Admit(s.sched, run.task).1.Queued?
    requires Busy(s, run.task.conv) && d in s.sched.running && d != run.task.conv
    ensures var s1 := Next(s, Submit(run));
            QuietRun(s1, es, Admit(s.sched, run.task).1.tasksAhead) && !Started(After(s1, es), run.task)
  {
    var k := Admit(s.sched, run.task).1.tasksAhead;
    var s1 := Next(s, Submit(run));
    StepKeepsInvariant(s, Submit(run));
    LineWithinLoad(s1, run.task.conv);
    es := OtherFirst(s1, run.task.conv, d, k);
    QueuedBehindBusy(s, run, es, k - Completions(es, run.task.conv));
  }

  /** The number told bounds the wait exactly when the conversation was idle or
      is the only one running. */
  lemma ToldBoundsWaitExactly(s: System, run: Run)
    requires Invariant(s) && Enabled(s, Submit(run)) && Admit(s.sched, run.task).1.Queued?
    ensures BoundsQuietWait(Next(s, Submit(run)), run.task, Admit(s.sched, run.task).1.tasksAhead) <==>
              !Busy(s, run.task.conv) || NoOtherRuns(s, run.task.conv)
  {
    var k, s1 := Admit(s.sched, run.task).1.tasksAhead, Next(s, Submit(run));
    if Busy(s, run.task.conv) && !NoOtherRuns(s, run.task.conv) {
      var d :| d in s.sched.running && d != run.task.conv;
      var es := WaitsBeyond(s, run, d);
    } else {
      forall es | Feasible(s1, es) && Quiet(s1, es) && CompletionCount(es) >= k
        ensures Started(After(s1, es), run.task)
      {
        if Busy(s, run.task.conv) {
          StepKeepsInvariant(s, Submit(run));
          SubmitStandsAt(s, run);
          QuietTurns(s1, es, run.task.conv, k, k - CompletionCount(es), run.task);
        } else {
          IdleQuietWait(s, run, es);
        }
      }
    }
  }

  lemma IdleQuietWait(s: System, run: Run, es: seq<Event>)
    requires Invariant(s) && Enabled(s, Submit(run)) && Admit(s.sched, run.task).1.Queued?
    requires !Busy(s, run.task.conv)
    requires Feasible(Next(s, Submit(run)), es) && Quiet(Next(s, Submit(run)), es)
    requires CompletionCount(es) >= Admit(s.sched, run.task).1.tasksAhead
    ensures Started(After(Next(s, Submit(run)), es), run.task)
  {
    IdleConversationWait(s, run, es);
  }

  /** So it never does when the conversation itself still waits for a slot. */
  lemma WaitingConversationIsToldTooLittle(s: System, run: Run)
    requires Invariant(s) && Enabled(s, Submit(run)) && Admit(s.sched, run.task).1.Queued?
    requires run.task.conv in s.sched.queued && run.task.conv !in s.sched.running
    ensures !BoundsQuietWait(Next(s, Submit(run)), run.task, Admit(s.sched, run.task).1.tasksAhead)
  {
    ToldBoundsWaitExactly(s, run);
    assert run.task.conv in s.sched.ready;
    var d :| d in s.sched.running;
  }

  // ------------------------------------------- the exact wait when idle before

  /** `t` is the only task of its conversation and stands last in the ready queue;
      `n` other tasks wait. */
  ghost predicate LastOf(s: System, t: Task, n: nat) {
    && s.sched.ready != [] && s.sched.ready[|s.sched.ready| - 1] == t.conv
    && QueueOf(s.sched, t.conv) == [t] && Waiting(s.sched.queued) == n + 1
  }

  /** A run that does not free the last task's place: one whose conversation has
      more tasks, or any one while another conversation heads the ready queue. */
  ghost predicate Spares(s: System, c: string, t: Task) {
    s.sched.ready != [] && c in s.sched.running && (c in s.sched.queued || s.sched.ready[0] != t.conv)
  }

  lemma WaitingOnly(queued: map<string, seq<Task>>, c: string)
    requires forall d | d in queued :: d == c
    ensures Waiting(queued) == if c in queued then |queued[c]| else 0
  {
    if c in queued {
      WaitingWithout(queued, c);
      assert queued - {c} == map[];
    } else {
      assert queued == map[];
    }
  }

  /** While others wait, some completion lets one of them in and not `t`. */
  lemma SomeSpares(s: System, t: Task, n: nat) returns (c: string)
    requires Valid(s.sched) && LastOf(s, t, n) && n > 0
    ensures s.sched.ready != [] && Spares(s, c, t)
  {
    assert t.conv in s.sched.ready;
    if d :| d in s.sched.running && d in s.sched.queued {
      c := d;
    } else {
      c :| c in s.sched.running;
      if s.sched.ready[0] == t.conv {
        assert |s.sched.ready| == 1;
        forall d | d in s.sched.queued ensures d == t.conv {
          assert d in s.sched.ready;
        }
        WaitingOnly(s.sched.queued, t.conv);
      }
    }
  }

  lemma SparedHandover(s: Scheduler, c: string, s': Scheduler, t: Task)
    requires Valid(s) && c in s.running && HandsOver(s, c, s')
    requires s.ready != [] && s.ready[|s.ready| - 1] == t.conv && (c in s.queued || s.ready[0] != t.conv)
    ensures s'.ready != [] && s'.ready[|s'.ready| - 1] == t.conv && QueueOf(s', t.conv) == QueueOf(s, t.conv)
    ensures NextUp(s, c).Some?
  {
    assert t.conv in s.ready;
    assert s.ready[0] in s.ready;
    HandoverHasEffect(s, c, s', t.conv);
  }

  lemma SpareStep(s: System, t: Task, n: nat) returns (e: Event)
    requires Invariant(s) && LastOf(s, t, n) && n > 0
    ensures e.Complete? && Enabled(s, e) && Invariant(Next(s, e)) && LastOf(Next(s, e), t, n - 1)
  {
    var c := SomeSpares(s, t, n);
    var run := WorkerOf(s, c);
    e := Complete(run, Completed, None);
    StepKeepsInvariant(s, e);
    FinishClosedForm(s.sched, c, Completed, None);
    SparedHandover(s.sched, c, Next(s, e).sched, t);
    HandoverCounts(s.sched, c, Next(s, e).sched);
  }

  /** In some run exactly `k` completions pass, with nothing let in, before `t` starts. */
  ghost predicate WaitsQuietly(s: System, t: Task, k: nat) {
    exists es :: QuietRun(s, es, k) && !Started(After(s, es), t)
  }

  lemma WaitsNow(s: System, t: Task, n: nat)
    requires LastOf(s, t, n)
    ensures WaitsQuietly(s, t, 0)
  {
    var es: seq<Event> := [];
    assert t in QueueOf(s.sched, t.conv);
    assert QuietRun(s, es, 0) && !Started(After(s, es), t);
  }

  lemma WaitsLonger(s: System, e: Event, t: Task, k: nat)
    requires Enabled(s, e) && e.Complete? && WaitsQuietly(Next(s, e), t, k)
    ensures WaitsQuietly(s, t, k + 1)
  {
    var rest :| QuietRun(Next(s, e), rest, k) && !Started(After(Next(s, e), rest), t);
    QuietPrepend(s, e, rest, k);
    assert ([e] + rest)[1..] == rest;
  }

  lemma {:induction false} LastWaits(s: System, t: Task, n: nat, k: nat)
    requires Invariant(s) && LastOf(s, t, n) && k <= n
    ensures WaitsQuietly(s, t, k)
    decreases k
  {
    if k == 0 {
      WaitsNow(s, t, n);
    } else {
      var e := SpareStep(s, t, n);
      LastWaits(Next(s, e), t, n - 1, k - 1);
      WaitsLonger(s, e, t, k - 1);
    }
  }

  lemma IdleIsLast(s: System, run: Run)
    requires Invariant(s) && Enabled(s, Submit(run)) && Admit(s.sched, run.task).1.Queued?
    requires !Busy(s, run.task.conv)
    ensures LastOf(Next(s, Submit(run)), run.task, Waiting(s.sched.queued))
  {
    SubmitIdleConversation(s, run);
    assert Next(s, Submit(run)).sched.ready == s.sched.ready + [run.task.conv];
    assert QueueOf(s.sched, run.task.conv) + [run.task] == [run.task];
  }

  /** A task queued for an idle conversation starts, with nothing more let in, within
      `k` completions for certain exactly when `k` exceeds the number of tasks that
      waited before it. */
  lemma IdleWaitExactly(s: System, run: Run, k: nat)
    requires Invariant(s) && Enabled(s, Submit(run)) && Admit(s.sched, run.task).1.Queued?
    requires !Busy(s, run.task.conv)
    ensures BoundsQuietWait(Next(s, Submit(run)), run.task, k) <==> k > Waiting(s.sched.queued)
  {
    var s1 := Next(s, Submit(run));
    if k > Waiting(s.sched.queued) {
      forall es | Feasible(s1, es) && Quiet(s1, es) && CompletionCount(es) >= k
        ensures Started(After(s1, es), run.task)
      {
        IdleConversationWait(s, run, es);
      }
    } else {
      StepKeepsInvariant(s, Submit(run));
      IdleIsLast(s, run);
      LastWaits(s1, run.task, Waiting(s.sched.queued), k);
      var es :| QuietRun(s1, es, k) && !Started(After(s1, es), run.task);
    }
  }
}
