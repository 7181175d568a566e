/** Safety of every run of the scheduler, from the start, in any interleaving. */
module Safety {
  import opened Wrappers
  import opened SchedulerSpec
  import opened RunSystem

  /** The ids of all tasks waiting in some queue. */
  ghost predicate QueuedId(s: Scheduler, id: string) {
    exists c, i :: c in s.queued && 0 <= i < |s.queued[c]| && s.queued[c][i].id == id
  }

  lemma PayloadKeysAreQueuedIds(s: System, id: string)
    requires Invariant(s)
    ensures id in s.payloads <==> QueuedId(s.sched, id)
  {
    assert id in s.payloads <==> Waits(s, id);
    if id in s.payloads {
      var t := s.submitted[id].task;
      var i :| 0 <= i < |QueueOf(s.sched, t.conv)| && QueueOf(s.sched, t.conv)[i] == t;
      assert s.sched.queued[t.conv][i].id == id;
    }
    if QueuedId(s.sched, id) {
      var c, i :| c in s.sched.queued && 0 <= i < |s.sched.queued[c]| && s.sched.queued[c][i].id == id;
      assert HistoryOf(s, c);
      LineFacts(s, c);
      var t := QueueOf(s.sched, c)[i];
      assert Known(s, t);
      assert Waits(s, id);
    }
  }

  ghost function ConvsOf(runs: set<Run>): set<string> {
    set r | r in runs :: r.task.conv
  }

  ghost predicate OneEach(runs: set<Run>) {
    forall q, r | q in runs && r in runs && q.task.conv == r.task.conv :: q == r
  }

  lemma {:induction false} OneEachCount(runs: set<Run>)
    requires OneEach(runs)
    ensures |ConvsOf(runs)| == |runs|
    decreases |runs|
  {
    if runs != {} {
      var r :| r in runs;
      OneEachCount(runs - {r});
      assert ConvsOf(runs) == ConvsOf(runs - {r}) + {r.task.conv};
    }
  }

  lemma WorkersAreOneEach(s: System) returns (runs: set<Run>)
    requires Invariant(s)
    ensures s.inflight == multiset(runs) && OneEach(runs) && ConvsOf(runs) == s.sched.running.Keys
  {
    runs := set r | r in s.inflight;
    forall r ensures s.inflight[r] == multiset(runs)[r] && (r in runs ==> Holds(s, r)) {
      assert s.inflight[r] == if Holds(s, r) then 1 else 0;
    }
    forall c | c in s.sched.running ensures c in ConvsOf(runs) {
      assert HistoryOf(s, c);
      LineFacts(s, c);
      var t := RunningOf(s.sched, c)[0];
      assert Known(s, t) && t.conv == c;
      assert Holds(s, s.submitted[t.id]);
      assert s.inflight[s.submitted[t.id]] == 1;
      assert s.submitted[t.id] in runs;
    }
    forall q, r | q in runs && r in runs && q.task.conv == r.task.conv ensures q == r {
      assert [q.task][0] == [r.task][0];
    }
  }

  ghost predicate Limited(s: System, maxConcurrent: nat, maxQueueDepth: nat) {
    s.sched.maxConcurrent == maxConcurrent && s.sched.maxQueueDepth == maxQueueDepth
  }

  lemma FinishKeepsLimits(sched: Scheduler, c: string, state: TerminalState, summary: Option<string>)
    requires Valid(sched) && c in sched.running
    ensures var sched' := Finish(sched, c, state, summary).0;
            sched'.maxConcurrent == sched.maxConcurrent && sched'.maxQueueDepth == sched.maxQueueDepth
  {
    FinishClosedForm(sched, c, state, summary);
  }

  lemma AdmitKeepsLimits(sched: Scheduler, t: Task)
    ensures var sched' := Admit(sched, t).0;
            sched'.maxConcurrent == sched.maxConcurrent && sched'.maxQueueDepth == sched.maxQueueDepth
  {
  }

  lemma StepKeepsLimits(s: System, e: Event, maxConcurrent: nat, maxQueueDepth: nat)
    requires Valid(s.sched) && WorkersExact(s) && Enabled(s, e) && Limited(s, maxConcurrent, maxQueueDepth)
    ensures Limited(Next(s, e), maxConcurrent, maxQueueDepth)
  {
    match e
    case Submit(run) => AdmitKeepsLimits(s.sched, run.task);
    case Complete(run, state, summary) =>
      WorkerHolds(s, run);
      FinishKeepsLimits(s.sched, run.task.conv, state, summary);
  }

  lemma {:induction false} LimitsStay(s: System, es: seq<Event>, maxConcurrent: nat, maxQueueDepth: nat)
    requires Invariant(s) && Feasible(s, es) && Limited(s, maxConcurrent, maxQueueDepth)
    ensures Limited(After(s, es), maxConcurrent, maxQueueDepth)
    decreases |es|
  {
    if es != [] {
      StepKeepsInvariant(s, es[0]);
      StepKeepsLimits(s, es[0], maxConcurrent, maxQueueDepth);
      LimitsStay(Next(s, es[0]), es[1..], maxConcurrent, maxQueueDepth);
    }
  }

  /** The limits in force are the configured ones, with at least one slot. */
  lemma LimitsAreConfigured(maxConcurrent: nat, maxQueueDepth: nat, es: seq<Event>, s: System)
    requires Reachable(maxConcurrent, maxQueueDepth, es, s)
    ensures s.sched.maxConcurrent == if maxConcurrent < 1 then 1 else maxConcurrent
    ensures s.sched.maxQueueDepth == maxQueueDepth
  {
    InitInvariant(maxConcurrent, maxQueueDepth);
    LimitsStay(InitSystem(maxConcurrent, maxQueueDepth), es,
               if maxConcurrent < 1 then 1 else maxConcurrent, maxQueueDepth);
  }

  /** In every reachable state a task starts at once exactly when fewer workers are
      in flight than configured and none of them serves its conversation; it is
      refused exactly when it cannot start and as many tasks wait as configured. */
  lemma EveryAdmission(maxConcurrent: nat, maxQueueDepth: nat, es: seq<Event>, s: System, t: Task)
    requires Reachable(maxConcurrent, maxQueueDepth, es, s)
    ensures var free := |s.inflight| < (if maxConcurrent < 1 then 1 else maxConcurrent) &&
                        forall r | r in s.inflight :: r.task.conv != t.conv;
            && (Admit(s.sched, t).1.StartNow? <==> free)
            && (Admit(s.sched, t).1.QueueFull? <==> !free && Waiting(s.sched.queued) == maxQueueDepth)
  {
    ReachableInvariant(maxConcurrent, maxQueueDepth, es, s);
    LimitsAreConfigured(maxConcurrent, maxQueueDepth, es, s);
    AdmissionExactly(s.sched, t);
    var runs := WorkersAreOneEach(s);
    OneEachCount(runs);
    assert (exists r :: r in s.inflight && r.task.conv == t.conv) <==> t.conv in s.sched.running by {
      assert forall r :: r in s.inflight <==> r in runs;
      if t.conv in s.sched.running {
        assert t.conv in ConvsOf(runs);
      }
    }
  }

  /** In every reachable state the workers in flight are the running tasks, one
      per conversation and never more than the limit; the side table holds the
      queued tasks' payloads and nothing else; each conversation's history is
      its finished, running and waiting tasks in the order they came; queue and
      slots are within bounds, and no slot idles while a conversation is ready. */
  lemma EveryRunIsSafe(maxConcurrent: nat, maxQueueDepth: nat, es: seq<Event>, s: System)
    requires Reachable(maxConcurrent, maxQueueDepth, es, s)
    ensures forall r | r in s.inflight ::
              s.inflight[r] == 1 && r.task.conv in s.sched.running && s.sched.running[r.task.conv] == r.task
    ensures |s.inflight| == |s.sched.running| <= if maxConcurrent < 1 then 1 else maxConcurrent
    ensures forall id :: id in s.payloads <==> QueuedId(s.sched, id)
    ensures forall c :: HistoryOf(s, c)
    ensures forall c :: c in s.sched.ready <==> c in s.sched.queued && c !in s.sched.running
    ensures NoDup(s.sched.ready)
    ensures Waiting(s.sched.queued) <= maxQueueDepth
    ensures (|s.inflight| < if maxConcurrent < 1 then 1 else maxConcurrent) ==> s.sched.ready == []
    ensures s.sched.recent == LastN(s.terminals, 16)
  {
    ReachableInvariant(maxConcurrent, maxQueueDepth, es, s);
    LimitsAreConfigured(maxConcurrent, maxQueueDepth, es, s);
    var runs := WorkersAreOneEach(s);
    OneEachCount(runs);
    forall r | r in s.inflight
      ensures s.inflight[r] == 1 && r.task.conv in s.sched.running && s.sched.running[r.task.conv] == r.task
    {
      WorkerHolds(s, r);
    }
    forall id ensures id in s.payloads <==> QueuedId(s.sched, id) {
      PayloadKeysAreQueuedIds(s, id);
    }
  }

  /** Each promoted task is handed to a worker with the run submitted for it. */
  ghost predicate Woken(s: System, promoted: seq<Task>, woken: seq<Run>) {
    && |woken| == |promoted|
    && forall i | 0 <= i < |promoted| ::
         promoted[i].id in s.submitted && woken[i] == s.submitted[promoted[i].id] && woken[i].task == promoted[i]
  }

  lemma PromotedAreWoken(s: System, c: string, promoted: seq<Task>)
    requires Valid(s.sched) && Bookkeeping(s)
    requires promoted == if NextUp(s.sched, c).Some? then [NextUp(s.sched, c).value] else []
    ensures Woken(s, promoted, Claim(promoted, s.payloads).0)
  {
    if NextUp(s.sched, c).Some? {
      NextUpWaits(s, c);
      ClaimOne(NextUp(s.sched, c).value, s.payloads);
    }
  }

  /** A completion in a reachable state is always that of the task recorded as
      running; what it promotes is at most one task, whose submitted run is
      found in the side table and spawned. No promoted task is lost. */
  lemma EveryCompletionIsItsOwn(maxConcurrent: nat, maxQueueDepth: nat, es: seq<Event>, s: System,
                                run: Run, state: TerminalState, summary: Option<string>)
    requires Reachable(maxConcurrent, maxQueueDepth, es, s) && run in s.inflight
    ensures run.task.conv in s.sched.running && s.sched.running[run.task.conv] == run.task
    ensures var promoted := Finish(s.sched, run.task.conv, state, summary).1;
            |promoted| <= 1 && Woken(s, promoted, Claim(promoted, s.payloads).0)
  {
    ReachableInvariant(maxConcurrent, maxQueueDepth, es, s);
    WorkerHolds(s, run);
    FinishHasEffect(s.sched, run.task.conv, state, summary);
    PromotedAreWoken(s, run.task.conv, Finish(s.sched, run.task.conv, state, summary).1);
  }

  /** Never in the way of a run: not admitted, so neither waiting nor running nor in flight. */
  ghost predicate Absent(s: System, run: Run) {
    && run.task.id in s.submitted && s.submitted[run.task.id] == run
    && run.task !in s.admitted
  }

  lemma {:induction false} AbsentForever(s: System, es: seq<Event>, run: Run)
    requires Feasible(s, es) && Absent(s, run)
    ensures Absent(After(s, es), run)
    decreases |es|
  {
    if es != [] {
      AbsentForever(Next(s, es[0]), es[1..], run);
    }
  }

  lemma AbsentNeverRuns(s: System, run: Run)
    requires Invariant(s) && Absent(s, run)
    ensures run !in s.inflight && run.task.id !in s.payloads
    ensures run.task !in RunningOf(s.sched, run.task.conv) && run.task !in QueueOf(s.sched, run.task.conv)
  {
    var c := run.task.conv;
    var all, fin := ForConv(s.admitted, c), ForConv(s.finished, c);
    assert HistoryOf(s, c);
    ForConvMembers(s.admitted, c);
    forall i | 0 <= i < |RunningOf(s.sched, c)| ensures RunningOf(s.sched, c)[i] != run.task {
      assert all[|fin| + i] == RunningOf(s.sched, c)[i];
    }
    forall i | 0 <= i < |QueueOf(s.sched, c)| ensures QueueOf(s.sched, c)[i] != run.task {
      assert all[|fin| + |RunningOf(s.sched, c)| + i] == QueueOf(s.sched, c)[i];
    }
    assert s.inflight[run] == if Holds(s, run) then 1 else 0;
    assert [run.task][0] == run.task;
    assert run.task.id in s.payloads <==> Waits(s, run.task.id);
  }

  /** A submission answered with QueueFull never waits and never runs, at any later time. */
  lemma RejectedNeverRuns(s: System, run: Run, es: seq<Event>)
    requires Invariant(s) && Enabled(s, Submit(run)) && Admit(s.sched, run.task).1.QueueFull?
    requires Feasible(Next(s, Submit(run)), es)
    ensures var s' := After(Next(s, Submit(run)), es);
            run !in s'.inflight && run.task.id !in s'.payloads && run.task !in s'.admitted
  {
    var s1 := Next(s, Submit(run));
    StepKeepsInvariant(s, Submit(run));
    forall i | 0 <= i < |s.admitted| ensures s.admitted[i] != run.task {
      assert Known(s, s.admitted[i]);
    }
    AbsentForever(s1, es, run);
    RunKeepsInvariant(s1, es);
    AbsentNeverRuns(After(s1, es), run);
  }
}
