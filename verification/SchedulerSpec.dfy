/** The in-memory run scheduler as a value: what one `admit` and one `finish`
    compute, and the invariant that ties the five tables together.

    The class in Scheduler.dfy updates its fields in place and is proved to
    compute exactly these functions. */
module SchedulerSpec {
  import opened Wrappers

  datatype Task = Task(id: string, conv: string, actor: string, trigger: Option<string>)

  datatype Admission = StartNow | Queued(tasksAhead: nat) | QueueFull

  datatype TerminalState = Completed | Failed

  datatype Terminal = Terminal(taskId: string, conv: string, state: TerminalState, summary: Option<string>)

  datatype Scheduler = Scheduler(
    maxConcurrent: nat,
    maxQueueDepth: nat,
    running: map<string, Task>,
    queued: map<string, seq<Task>>,
    ready: seq<string>,
    recent: seq<Terminal>)

  const TERMINAL_HISTORY_CAPACITY: nat := 16

  function Init(maxConcurrent: nat, maxQueueDepth: nat): Scheduler {
    Scheduler(if maxConcurrent < 1 then 1 else maxConcurrent, maxQueueDepth, map[], map[], [], [])
  }

  // ---------------------------------------------------------------- waiting

  /** Sum of the queue lengths, over the map's entries in some order. */
  ghost function Waiting(queued: map<string, seq<Task>>): nat {
    if queued == map[] then 0
    else
      var c :| c in queued;
      |queued[c]| + Waiting(queued - {c})
  }

  /** The order does not matter: any key may be taken out first. */
  lemma {:induction false} WaitingWithout(queued: map<string, seq<Task>>, c: string)
    requires c in queued
    ensures Waiting(queued) == |queued[c]| + Waiting(queued - {c})
    decreases |queued|
  {
    var d :| d in queued && Waiting(queued) == |queued[d]| + Waiting(queued - {d});
    if d != c {
      WaitingWithout(queued - {d}, c);
      WaitingWithout(queued - {c}, d);
      assert queued - {d} - {c} == queued - {c} - {d};
    }
  }

  lemma WaitingUpdate(queued: map<string, seq<Task>>, c: string, q: seq<Task>)
    ensures Waiting(queued[c := q]) == Waiting(queued - {c}) + |q|
    ensures Waiting(queued) == Waiting(queued - {c}) + if c in queued then |queued[c]| else 0
  {
    WaitingWithout(queued[c := q], c);
    assert queued[c := q] - {c} == queued - {c};
    if c in queued {
      WaitingWithout(queued, c);
    } else {
      assert queued - {c} == queued;
    }
  }

  // ------------------------------------------------------------------ admit

  function QueueOf(s: Scheduler, c: string): seq<Task> {
    if c in s.queued then s.queued[c] else []
  }

  predicate CanStartNow(s: Scheduler, c: string) {
    |s.running| < s.maxConcurrent && c !in s.running && QueueOf(s, c) == []
  }

  ghost function TasksAhead(s: Scheduler, c: string): nat {
    if c in s.running || c in s.queued
    then (if c in s.running then 1 else 0) + |QueueOf(s, c)|
    else |s.running| + Waiting(s.queued)
  }

  function Start(s: Scheduler, t: Task): Scheduler {
    s.(running := s.running[t.conv := t])
  }

  ghost function Enqueue(s: Scheduler, t: Task): Scheduler {
    var s1 := s.(queued := s.queued[t.conv := QueueOf(s, t.conv) + [t]]);
    if QueueOf(s, t.conv) == [] && t.conv !in s.running && t.conv !in s.ready
    then s1.(ready := s.ready + [t.conv])
    else s1
  }

  ghost function Admit(s: Scheduler, t: Task): (Scheduler, Admission) {
    if CanStartNow(s, t.conv) then (Start(s, t), StartNow)
    else if Waiting(s.queued) >= s.maxQueueDepth then (s, QueueFull)
    else (Enqueue(s, t), Queued(TasksAhead(s, t.conv)))
  }

  // ----------------------------------------------------------------- finish

  /** Pops the head of one conversation's queue and drops an emptied queue. */
  function PopNext(s: Scheduler, c: string): (Scheduler, Option<Task>) {
    if c !in s.queued then (s, None)
    else if |s.queued[c]| <= 1 then
      (s.(queued := s.queued - {c}), if s.queued[c] == [] then None else Some(s.queued[c][0]))
    else (s.(queued := s.queued[c := s.queued[c][1..]]), Some(s.queued[c][0]))
  }

  function PushTerminal(s: Scheduler, terminal: Terminal): Scheduler {
    var recent := s.recent + [terminal];
    s.(recent := if |recent| > TERMINAL_HISTORY_CAPACITY then recent[1..] else recent)
  }

  /** The conversation gives up its slot, if it holds one. */
  function Release(s: Scheduler, c: string, state: TerminalState, summary: Option<string>): Scheduler {
    if c !in s.running then s
    else
      var done := s.running[c];
      PushTerminal(s.(running := s.running - {c}), Terminal(done.id, done.conv, state, summary))
  }

  /** The conversation's own queue goes first, with no capacity test. */
  function PromoteSame(s: Scheduler, c: string): (Scheduler, seq<Task>) {
    var (s1, next) := PopNext(s, c);
    if next.None? then (s1, []) else (Start(s1, next.value), [next.value])
  }

  /** Fills free slots from the ready queue. */
  function Fill(s: Scheduler): (Scheduler, seq<Task>)
    decreases |s.ready|
  {
    if |s.running| >= s.maxConcurrent || s.ready == [] then (s, [])
    else
      var c := s.ready[0];
      var s1 := s.(ready := s.ready[1..]);
      if c in s1.running then Fill(s1)
      else
        var (s2, next) := PopNext(s1, c);
        if next.None? then Fill(s2)
        else
          var (s3, more) := Fill(Start(s2, next.value));
          (s3, [next.value] + more)
  }

  function Finish(s: Scheduler, c: string, state: TerminalState, summary: Option<string>): (Scheduler, seq<Task>) {
    var (s1, own) := PromoteSame(Release(s, c, state, summary), c);
    var (s2, more) := Fill(s1);
    (s2, own + more)
  }

  // -------------------------------------------------------------- invariant

  ghost predicate NoDup<T>(xs: seq<T>) {
    forall i, j | 0 <= i < j < |xs| :: xs[i] != xs[j]
  }

  ghost predicate TasksAtHome(s: Scheduler) {
    && (forall c | c in s.running :: s.running[c].conv == c)
    && (forall c | c in s.queued :: s.queued[c] != [])
    && (forall c, i | c in s.queued && 0 <= i < |s.queued[c]| :: s.queued[c][i].conv == c)
  }

  /** The ready queue lists, once each, the conversations with queued work and no run. */
  ghost predicate ReadyExact(s: Scheduler) {
    && NoDup(s.ready)
    && (forall c :: c in s.ready <==> c in s.queued && c !in s.running)
  }

  ghost predicate WithinLimits(s: Scheduler) {
    && 1 <= s.maxConcurrent
    && |s.running| <= s.maxConcurrent
    && Waiting(s.queued) <= s.maxQueueDepth
    && |s.recent| <= TERMINAL_HISTORY_CAPACITY
  }

  /** A slot is never left free while some conversation could use it. */
  ghost predicate WorkConserving(s: Scheduler) {
    |s.running| < s.maxConcurrent ==> s.ready == []
  }

  ghost predicate Valid(s: Scheduler) {
    TasksAtHome(s) && ReadyExact(s) && WithinLimits(s) && WorkConserving(s)
  }

  lemma StartKeepsValid(s: Scheduler, t: Task)
    requires Valid(s) && CanStartNow(s, t.conv)
    ensures Valid(Start(s, t))
  {
    assert (Start(s, t)).running.Keys == s.running.Keys + {t.conv};
    assert |s.running.Keys + {t.conv}| == |s.running.Keys| + 1;
  }

  lemma EnqueueKeepsReady(s: Scheduler, t: Task)
    requires ReadyExact(s) && TasksAtHome(s)
    ensures ReadyExact(Enqueue(s, t)) && TasksAtHome(Enqueue(s, t))
  {
  }

  lemma EnqueueKeepsValid(s: Scheduler, t: Task)
    requires Valid(s) && !CanStartNow(s, t.conv) && Waiting(s.queued) < s.maxQueueDepth
    ensures Valid(Enqueue(s, t))
  {
    EnqueueKeepsReady(s, t);
    WaitingUpdate(s.queued, t.conv, QueueOf(s, t.conv) + [t]);
  }

  lemma AdmitKeepsValid(s: Scheduler, t: Task)
    requires Valid(s)
    ensures Valid(Admit(s, t).0)
  {
    if CanStartNow(s, t.conv) {
      StartKeepsValid(s, t);
    } else if Waiting(s.queued) < s.maxQueueDepth {
      EnqueueKeepsValid(s, t);
    }
  }

  /** In every valid state an idle conversation with a free slot starts at once,
      whatever its queue was tested for; a task is refused exactly when it cannot
      start and the queues together are full. */
  lemma AdmissionExactly(s: Scheduler, t: Task)
    requires Valid(s)
    ensures Admit(s, t).1.StartNow? <==> |s.running| < s.maxConcurrent && t.conv !in s.running
    ensures Admit(s, t).1.QueueFull? <==>
              (|s.running| == s.maxConcurrent || t.conv in s.running) && Waiting(s.queued) == s.maxQueueDepth
  {
    assert t.conv in s.ready <==> t.conv in s.queued && t.conv !in s.running;
  }

  // ------------------------------------------------- finish in closed form

  /** Which task a `finish` of a running conversation starts: the conversation's
      own next task, else the head task of the first ready conversation. */
  ghost function NextUp(s: Scheduler, c: string): Option<Task>
    requires Valid(s)
  {
    if c in s.queued then Some(s.queued[c][0])
    else if s.ready != [] then Some(s.queued[s.ready[0]][0])
    else None
  }

  /** The queues once task `t`, the head of its queue, has been taken. */
  ghost function WithoutHead(queued: map<string, seq<Task>>, c: string): map<string, seq<Task>>
    requires c in queued && queued[c] != []
  {
    if |queued[c]| == 1 then queued - {c} else queued[c := queued[c][1..]]
  }

  /** The closed form: the finished run leaves, `NextUp` takes its slot. */
  ghost predicate HandsOver(s: Scheduler, c: string, s': Scheduler)
    requires Valid(s) && c in s.running
  {
    && s'.maxConcurrent == s.maxConcurrent && s'.maxQueueDepth == s.maxQueueDepth
    && var freed := s.running - {c};
    match NextUp(s, c)
    case None => s'.running == freed && s'.queued == s.queued && s'.ready == []
    case Some(t) =>
      && s'.running == freed[t.conv := t]
      && t.conv in s.queued
      && s'.queued == WithoutHead(s.queued, t.conv)
      && s'.ready == if c in s.queued then s.ready else s.ready[1..]
  }

  lemma FillFull(s: Scheduler)
    requires |s.running| >= s.maxConcurrent || s.ready == []
    ensures Fill(s) == (s, [])
  {
  }

  lemma FillOne(s: Scheduler)
    requires |s.running| + 1 == s.maxConcurrent && s.ready != []
    requires s.ready[0] in s.queued && s.ready[0] !in s.running
    requires s.queued[s.ready[0]] != [] && s.queued[s.ready[0]][0].conv == s.ready[0]
    ensures Fill(s).0 == s.(ready := s.ready[1..],
                            queued := WithoutHead(s.queued, s.ready[0]),
                            running := s.running[s.ready[0] := s.queued[s.ready[0]][0]])
    ensures Fill(s).1 == [s.queued[s.ready[0]][0]]
  {
    var s1 := s.(ready := s.ready[1..]);
    var (s2, next) := PopNext(s1, s.ready[0]);
    var s3 := Start(s2, next.value);
    assert |s3.running| == |s.running| + 1;
    FillFull(s3);
  }

  lemma FinishOwn(s: Scheduler, c: string, state: TerminalState, summary: Option<string>)
    requires |s.running| >= s.maxConcurrent || s.ready == []
    requires c in s.queued && s.queued[c] != [] && s.queued[c][0].conv == c && c in s.running
    ensures var (s', promoted) := Finish(s, c, state, summary);
            && promoted == [s.queued[c][0]]
            && s' == Release(s, c, state, summary).(
                       running := (s.running - {c})[c := s.queued[c][0]],
                       queued := WithoutHead(s.queued, c))
  {
    var (s1, own) := PromoteSame(Release(s, c, state, summary), c);
    assert s1.running.Keys == s.running.Keys;
    assert |s1.running.Keys| == |s.running.Keys|;
    FillFull(s1);
  }

  lemma FinishOther(s: Scheduler, c: string, state: TerminalState, summary: Option<string>)
    requires c in s.running && c !in s.queued
    ensures var s0 := Release(s, c, state, summary);
            && |s0.running| + 1 == |s.running|
            && Finish(s, c, state, summary) == Fill(s0)
  {
    var s0 := Release(s, c, state, summary);
    assert s0.running.Keys == s.running.Keys - {c};
    assert |s0.running.Keys| == |s.running.Keys| - 1;
    var (s2, more) := Fill(s0);
    assert [] + more == more;
  }

  /** Although `finish` loops and returns a list, called on a running
      conversation it starts exactly `NextUp`: at most one task. */
  lemma FinishClosedForm(s: Scheduler, c: string, state: TerminalState, summary: Option<string>)
    requires Valid(s) && c in s.running
    ensures var (s', promoted) := Finish(s, c, state, summary);
            && HandsOver(s, c, s')
            && s'.recent == Release(s, c, state, summary).recent
            && promoted == (if NextUp(s, c).Some? then [NextUp(s, c).value] else [])
  {
    if c in s.queued {
      FinishOwn(s, c, state, summary);
    } else {
      FinishOther(s, c, state, summary);
      var s0 := Release(s, c, state, summary);
      if s.ready == [] {
        FillFull(s0);
      } else {
        assert s.ready[0] in s.ready;
        FillOne(s0);
      }
    }
  }

  lemma HandoverTasks(s: Scheduler, c: string, s': Scheduler)
    requires Valid(s) && c in s.running && HandsOver(s, c, s')
    ensures TasksAtHome(s')
  {
    if NextUp(s, c).Some? && c !in s.queued {
      assert s.ready[0] in s.ready;
    }
  }

  lemma HandoverCounts(s: Scheduler, c: string, s': Scheduler)
    requires Valid(s) && c in s.running && HandsOver(s, c, s')
    ensures |s'.running| == |s.running| - if NextUp(s, c).Some? then 0 else 1
    ensures Waiting(s'.queued) == Waiting(s.queued) - if NextUp(s, c).Some? then 1 else 0
  {
    var freed := s.running - {c};
    assert freed.Keys == s.running.Keys - {c};
    assert |freed.Keys| == |s.running.Keys| - 1;
    if NextUp(s, c).Some? {
      var t := NextUp(s, c).value;
      if c !in s.queued {
        assert s.ready[0] in s.ready;
      }
      assert t.conv !in freed;
      assert s'.running.Keys == freed.Keys + {t.conv};
      WaitingUpdate(s.queued, t.conv, s.queued[t.conv][1..]);
    }
  }

  lemma HandoverReady(s: Scheduler, c: string, s': Scheduler)
    requires Valid(s) && c in s.running && HandsOver(s, c, s')
    ensures ReadyExact(s')
  {
    if c !in s.queued && s.ready != [] {
      assert s.ready[0] in s.ready;
      assert s.ready == [s.ready[0]] + s'.ready;
    }
    forall d ensures d in s'.ready <==> d in s'.queued && d !in s'.running {
      assert d in s.ready <==> d in s.queued && d !in s.running;
    }
  }

  lemma HandoverKeepsValid(s: Scheduler, c: string, s': Scheduler)
    requires Valid(s) && c in s.running && HandsOver(s, c, s')
    requires |s'.recent| <= TERMINAL_HISTORY_CAPACITY
    ensures Valid(s')
  {
    HandoverTasks(s, c, s');
    HandoverCounts(s, c, s');
    HandoverReady(s, c, s');
  }

  /** A `finish` keeps the invariant exactly when its conversation is running or
      has nothing queued. For a conversation that is queued but not running the
      promotion, which tests no capacity, would start one run too many. */
  lemma FinishKeepsValidExactly(s: Scheduler, c: string, state: TerminalState, summary: Option<string>)
    requires Valid(s)
    ensures Valid(Finish(s, c, state, summary).0) <==> (c in s.running || c !in s.queued)
    ensures !(c in s.running || c !in s.queued) ==>
              |Finish(s, c, state, summary).0.running| > s.maxConcurrent
  {
    if c in s.running {
      FinishClosedForm(s, c, state, summary);
      HandoverKeepsValid(s, c, Finish(s, c, state, summary).0);
    } else if c !in s.queued {
      FillFull(s);
    } else {
      assert c in s.ready;
      var (s1, own) := PromoteSame(s, c);
      assert s1.running == s.running[c := s.queued[c][0]];
      FillFull(s1);
    }
  }

  // ------------------------------------------- effect on each conversation

  function RunningOf(s: Scheduler, c: string): seq<Task> {
    if c in s.running then [s.running[c]] else []
  }

  /** What an admission does to conversation `d`. */
  ghost predicate AdmitEffect(s: Scheduler, t: Task, a: Admission, s': Scheduler, d: string) {
    && RunningOf(s', d) == (if a.StartNow? && d == t.conv then [t] else RunningOf(s, d))
    && QueueOf(s', d) == QueueOf(s, d) + (if a.Queued? && d == t.conv then [t] else [])
    && (a.StartNow? && d == t.conv ==> RunningOf(s, d) == [] && QueueOf(s, d) == [])
  }

  lemma AdmitHasEffect(s: Scheduler, t: Task, d: string)
    requires TasksAtHome(s)
    ensures AdmitEffect(s, t, Admit(s, t).1, Admit(s, t).0, d)
  {
  }

  /** What the end of `c`'s run does to conversation `d` when `next` is started. */
  ghost predicate FinishEffect(s: Scheduler, c: string, next: Option<Task>, s': Scheduler, d: string) {
    if next.Some? && next.value.conv == d then
      && RunningOf(s', d) == [next.value]
      && QueueOf(s, d) == [next.value] + QueueOf(s', d)
      && (d == c || RunningOf(s, d) == [])
    else
      && RunningOf(s', d) == (if d == c then [] else RunningOf(s, d))
      && QueueOf(s', d) == QueueOf(s, d)
      && (d == c ==> QueueOf(s, d) == [])
  }

  lemma HandoverHasEffect(s: Scheduler, c: string, s': Scheduler, d: string)
    requires Valid(s) && c in s.running && HandsOver(s, c, s')
    ensures FinishEffect(s, c, NextUp(s, c), s', d)
  {
    if c !in s.queued && s.ready != [] {
      assert s.ready[0] in s.ready;
    }
  }
}
