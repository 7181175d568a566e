/** The server's scheduler object: the state and the side table behind one mutex.
    Its two methods are the locked blocks, each one step of RunSystem.dfy. */
module RunScheduling {
  import opened Wrappers
  import opened SchedulerSpec
  import opened Scheduling
  import opened RunSystem

  /** The completion step, assembled from its parts. */
  lemma CompleteFromParts(s: System, run: Run, terminal: TerminalState, summary: Option<string>,
                          promoted: seq<Task>, woken: seq<Run>, s': System)
    requires (s'.sched, promoted) == Finish(s.sched, run.task.conv, terminal, summary)
    requires (woken, s'.payloads) == Claim(promoted, s.payloads)
    requires s'.inflight == s.inflight - multiset{run} + multiset(woken)
    requires s'.submitted == s.submitted && s'.admitted == s.admitted
    requires s'.finished == s.finished + [run.task]
    requires s'.terminals == s.terminals + [Terminal(run.task.id, run.task.conv, terminal, summary)]
    ensures s' == AfterComplete(s, run, terminal, summary)
  {
  }

  lemma SubmitKeeps(s: System, run: Run)
    ensures Invariant(s) && run.task.id !in s.submitted ==> Invariant(AfterSubmit(s, run))
  {
    if Invariant(s) && run.task.id !in s.submitted {
      SubmitKeepsInvariant(s, run);
    }
  }

  lemma CompleteKeeps(s: System, run: Run, terminal: TerminalState, summary: Option<string>)
    ensures Invariant(s) && run in s.inflight ==> Invariant(AfterComplete(s, run, terminal, summary))
  {
    if Invariant(s) && run in s.inflight {
      CompleteKeepsInvariant(s, run, terminal, summary);
    }
  }

  class RunScheduler {
    const state: SchedulerState
    var queuedPayloads: map<string, Run>
    ghost var inflight: multiset<Run>
    ghost var submitted: map<string, Run>
    ghost var admitted: seq<Task>
    ghost var finished: seq<Task>
    ghost var terminals: seq<Terminal>

    ghost function Model(): System
      reads this, state
    {
      System(state.Model(), queuedPayloads, inflight, submitted, admitted, finished, terminals)
    }

    constructor (maxConcurrent: nat, maxQueueDepth: nat)
      ensures Model() == InitSystem(maxConcurrent, maxQueueDepth) && Invariant(Model())
      ensures state.maxConcurrent == (if maxConcurrent < 1 then 1 else maxConcurrent)
      ensures state.maxQueueDepth == maxQueueDepth
      ensures fresh(state)
    {
      state := new SchedulerState(maxConcurrent, maxQueueDepth);
      queuedPayloads := map[];
      inflight, submitted, admitted, finished, terminals := multiset{}, map[], [], [], [];
      new;
      InitInvariant(maxConcurrent, maxQueueDepth);
    }

    /** The locked block of `submit`. The caller spawns `startNow`. */
    method SubmitRun(run: Run) returns (feedback: Admission, startNow: Option<Run>)
      modifies this, state
      ensures Model() == AfterSubmit(old(Model()), run)
      ensures feedback == Admit(old(state.Model()), run.task).1
      ensures startNow == if feedback.StartNow? then Some(run) else None
      ensures old(Invariant(Model())) && run.task.id !in old(submitted) ==> Invariant(Model())
    {
      ghost var before := Model();
      startNow := None;
      feedback := state.AdmitTask(run.task);
      match feedback {
        case StartNow =>
          startNow := Some(run);
          inflight, admitted := inflight + multiset{run}, admitted + [run.task];
        case Queued(_) =>
          queuedPayloads := queuedPayloads[run.task.id := run];
          admitted := admitted + [run.task];
        case QueueFull =>
      }
      submitted := submitted[run.task.id := run];
      SubmitKeeps(before, run);
    }

    /** Takes the payloads of the promoted tasks out of the side table, skipping
        a task that has none. */
    method ClaimPayloads(promoted: seq<Task>) returns (runs: seq<Run>)
      modifies this`queuedPayloads
      ensures (runs, queuedPayloads) == Claim(promoted, old(queuedPayloads))
    {
      runs := [];
      var i := 0;
      while i < |promoted|
        invariant 0 <= i <= |promoted|
        invariant runs + Claim(promoted[i..], queuedPayloads).0 == Claim(promoted, old(queuedPayloads)).0
        invariant Claim(promoted[i..], queuedPayloads).1 == Claim(promoted, old(queuedPayloads)).1
      {
        var id := promoted[i].id;
        assert promoted[i..][1..] == promoted[i + 1..];
        ghost var left := queuedPayloads - {id};
        if id in queuedPayloads {
          runs := runs + [queuedPayloads[id]];
          queuedPayloads := queuedPayloads - {id};
        }
        assert queuedPayloads == left;
        i := i + 1;
      }
      assert promoted[i..] == [] && runs + [] == runs;
    }

    /** The locked block that ends `run_task`. The caller spawns `woken`. */
    method CompleteRun(run: Run, terminal: TerminalState, summary: Option<string>) returns (woken: seq<Run>)
      modifies this, state
      ensures Model() == AfterComplete(old(Model()), run, terminal, summary)
      ensures woken == Claim(Finish(old(state.Model()), run.task.conv, terminal, summary).1, old(queuedPayloads)).0
      ensures old(Invariant(Model())) && run in old(inflight) ==> Invariant(Model())
    {
      ghost var before := Model();
      var promoted := state.FinishRun(run.task.conv, terminal, summary);
      woken := ClaimPayloads(promoted);
      inflight := inflight - multiset{run} + multiset(woken);
      finished := finished + [run.task];
      terminals := terminals + [Terminal(run.task.id, run.task.conv, terminal, summary)];
      ghost var after := Model();
      CompleteFromParts(before, run, terminal, summary, promoted, woken, after);
      CompleteKeeps(before, run, terminal, summary);
    }
  }
}
