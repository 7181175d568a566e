/** The scheduler and the session calls as one system: the workers in flight make
    the calls. A worker makes one call at a time, for its own conversation, and
    completes its task only when it has no call left unfinished. */
module Joint {
  import opened SessionSpec
  import opened ExecMachine
  import opened AliasRace
  import opened Exclusive
  import R = RunSystem
  import KeyEncoding

  /** `workers` says which worker made each call. */
  datatype Joint = Joint(sys: R.System, machine: Machine, workers: map<nat, R.Run>)

  datatype JointEvent =
    | Schedule(step: R.Event)
    | Call(p: nat, run: R.Run, req: Request)
    | Statement(act: Event)

  function InitJoint(maxConcurrent: nat, maxQueueDepth: nat): Joint {
    Joint(R.InitSystem(maxConcurrent, maxQueueDepth), EMPTY, map[])
  }

  /** The worker has a call that is not finished. */
  ghost predicate Calling(j: Joint, run: R.Run) {
    exists p :: Unfinished(j.machine, p) && p in j.workers && j.workers[p] == run
  }

  ghost predicate MayHappen(j: Joint, e: JointEvent) {
    match e
    case Schedule(step) => R.Enabled(j.sys, step) && (step.Complete? ==> !Calling(j, step.run))
    case Call(p, run, req) =>
      && run in j.sys.inflight && !Calling(j, run) && Enabled(j.machine, Begin(p, req))
      && run.task.conv == KeyEncoding.ConversationKey(req.identity.account, req.identity.conversation)
    case Statement(act) => act.Act? && Enabled(j.machine, act)
  }

  ghost function NextJoint(j: Joint, e: JointEvent): Joint
    requires MayHappen(j, e)
  {
    match e
    case Schedule(step) => j.(sys := R.Next(j.sys, step))
    case Call(p, run, req) => j.(machine := Next(j.machine, Begin(p, req)), workers := j.workers[p := run])
    case Statement(act) => j.(machine := Next(j.machine, act))
  }

  // -------------------------------------------------------------- invariant

  /** Each unfinished call is made by a worker in flight, for its conversation. */
  ghost predicate Serves(j: Joint) {
    forall p | Unfinished(j.machine, p) :: Served(j, p)
  }

  ghost predicate Served(j: Joint, p: nat)
    requires p in j.machine.execs
  {
    var id := j.machine.execs[p].req.identity;
    && p in j.workers && j.workers[p] in j.sys.inflight
    && j.workers[p].task.conv == KeyEncoding.ConversationKey(id.account, id.conversation)
  }

  /** No worker has two unfinished calls. */
  ghost predicate OneEach(j: Joint) {
    forall p, q | Unfinished(j.machine, p) && Unfinished(j.machine, q) && p in j.workers && q in j.workers ::
      j.workers[p] == j.workers[q] ==> p == q
  }

  ghost predicate JointInvariant(j: Joint) {
    && R.Invariant(j.sys) && Invariant(j.machine)
    && Serves(j) && OneEach(j) && AllCarryStored(j.machine)
  }

  lemma SameWorker(s: R.System, r: R.Run, r': R.Run)
    requires R.Invariant(s) && r in s.inflight && r' in s.inflight && r.task.conv == r'.task.conv
    ensures r == r'
  {
    R.WorkerHolds(s, r);
    R.WorkerHolds(s, r');
  }

  /** The scheduler keeps the calls of one conversation apart. */
  lemma ScheduledCallsDoNotOverlap(j: Joint)
    requires R.Invariant(j.sys) && Serves(j) && OneEach(j)
    ensures NoOverlap(j.machine)
  {
    var m := j.machine;
    forall p, q | Unfinished(m, p) && Unfinished(m, q) && m.execs[p].req.identity == m.execs[q].req.identity
      ensures p == q
    {
      assert Served(j, p) && Served(j, q);
      SameWorker(j.sys, j.workers[p], j.workers[q]);
    }
  }

  // ------------------------------------------------------------------- steps

  /** Only the worker that completes leaves. */
  lemma OthersStayInFlight(s: R.System, e: R.Event, run: R.Run)
    requires R.Invariant(s) && R.Enabled(s, e) && run in s.inflight && (e.Complete? ==> e.run != run)
    ensures run in R.Next(s, e).inflight
  {
    if e.Complete? {
      R.CompleteLeaves(s, e.run, e.state, e.summary);
    }
  }

  lemma ScheduleKeeps(j: Joint, e: R.Event)
    requires JointInvariant(j) && MayHappen(j, Schedule(e))
    ensures JointInvariant(NextJoint(j, Schedule(e)))
  {
    var j' := NextJoint(j, Schedule(e));
    R.StepKeepsInvariant(j.sys, e);
    forall p | Unfinished(j'.machine, p) ensures Served(j', p) {
      assert Unfinished(j.machine, p) && Served(j, p);
      OthersStayInFlight(j.sys, e, j.workers[p]);
    }
  }

  lemma CallServes(j: Joint, p: nat, run: R.Run, req: Request)
    requires Serves(j) && OneEach(j) && MayHappen(j, Call(p, run, req))
    ensures Serves(NextJoint(j, Call(p, run, req))) && OneEach(NextJoint(j, Call(p, run, req)))
  {
    var j' := NextJoint(j, Call(p, run, req));
    forall q | Unfinished(j'.machine, q) ensures Served(j', q) {
      if q != p {
        assert Unfinished(j.machine, q) && Served(j, q);
      }
    }
    forall q | Unfinished(j.machine, q) && q in j.workers ensures j.workers[q] != run {
      assert !Calling(j, run);
    }
  }

  lemma CallKeeps(j: Joint, p: nat, run: R.Run, req: Request)
    requires JointInvariant(j) && MayHappen(j, Call(p, run, req))
    ensures JointInvariant(NextJoint(j, Call(p, run, req)))
  {
    CallServes(j, p, run, req);
    StepKeepsInvariant(j.machine, Begin(p, req));
  }

  lemma StatementServes(j: Joint, e: Event)
    requires Serves(j) && OneEach(j) && MayHappen(j, Statement(e))
    ensures Serves(NextJoint(j, Statement(e))) && OneEach(NextJoint(j, Statement(e)))
  {
    var j', x := NextJoint(j, Statement(e)), j.machine.execs[e.p];
    StatementWrites(j.machine.store, e.p, x, e.now, e.uuid, e.response);
    forall p | Unfinished(j'.machine, p) ensures Unfinished(j.machine, p) && Served(j', p) {
      assert Unfinished(j.machine, p) && Served(j, p);
    }
  }

  lemma StatementKeeps(j: Joint, e: Event)
    requires JointInvariant(j) && MayHappen(j, Statement(e))
    ensures JointInvariant(NextJoint(j, Statement(e)))
  {
    ScheduledCallsDoNotOverlap(j);
    StatementServes(j, e);
    StepKeepsInvariant(j.machine, e);
    StepCarriesStored(j.machine, e);
  }

  lemma JointStepKeeps(j: Joint, e: JointEvent)
    requires JointInvariant(j) && MayHappen(j, e)
    ensures JointInvariant(NextJoint(j, e))
  {
    match e
    case Schedule(step) => ScheduleKeeps(j, step);
    case Call(p, run, req) => CallKeeps(j, p, run, req);
    case Statement(act) => StatementKeeps(j, act);
  }

  // -------------------------------------------------------------------- runs

  ghost predicate JointRun(j: Joint, es: seq<JointEvent>, j': Joint)
    decreases |es|
  {
    if es == [] then j' == j
    else MayHappen(j, es[0]) && JointRun(NextJoint(j, es[0]), es[1..], j')
  }

  lemma {:induction false} JointRunKeeps(j: Joint, es: seq<JointEvent>, j': Joint)
    requires JointInvariant(j) && JointRun(j, es, j')
    ensures JointInvariant(j')
    decreases |es|
  {
    if es != [] {
      JointStepKeeps(j, es[0]);
      JointRunKeeps(NextJoint(j, es[0]), es[1..], j');
    }
  }

  lemma JointReachable(maxConcurrent: nat, maxQueueDepth: nat, es: seq<JointEvent>, j: Joint)
    requires JointRun(InitJoint(maxConcurrent, maxQueueDepth), es, j)
    ensures JointInvariant(j)
  {
    R.InitInvariant(maxConcurrent, maxQueueDepth);
    JointRunKeeps(InitJoint(maxConcurrent, maxQueueDepth), es, j);
  }

  /** In every run of scheduler and calls together, calls of one conversation never
      overlap, and a call about to launch has the id stored at that moment. */
  lemma ScheduledLaunchesUseStoredId(maxConcurrent: nat, maxQueueDepth: nat, es: seq<JointEvent>, j: Joint)
    requires JointRun(InitJoint(maxConcurrent, maxQueueDepth), es, j)
    ensures NoOverlap(j.machine)
    ensures forall p | p in j.machine.execs && j.machine.execs[p].pc.Launch? ::
              StoredAs(j.machine, SessionKey(j.machine.execs[p].req.identity), j.machine.execs[p].pc.record.claudeId)
  {
    JointReachable(maxConcurrent, maxQueueDepth, es, j);
    ScheduledCallsDoNotOverlap(j);
    forall p | p in j.machine.execs && j.machine.execs[p].pc.Launch?
      ensures StoredAs(j.machine, SessionKey(j.machine.execs[p].req.identity), j.machine.execs[p].pc.record.claudeId)
    {
      assert CarriesStored(j.machine.store, j.machine.execs[p]);
    }
  }
}
