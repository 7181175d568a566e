/** The scheduler's tables as an object whose methods update them in place. Each
    method is proved to compute the function of SchedulerSpec.dfy of its name. */
module Scheduling {
  import opened Wrappers
  import opened SchedulerSpec
  import opened Listing

  datatype Snapshot = Snapshot(
    activeCount: nat,
    maxConcurrent: nat,
    waitingCount: nat,
    maxQueueDepth: nat,
    running: seq<Task>,
    recentTerminal: seq<Terminal>)

  class SchedulerState {
    const maxConcurrent: nat
    const maxQueueDepth: nat
    var running: map<string, Task>
    var queued: map<string, seq<Task>>
    var ready: seq<string>
    var recent: seq<Terminal>

    ghost function Model(): Scheduler
      reads this
    {
      Scheduler(maxConcurrent, maxQueueDepth, running, queued, ready, recent)
    }

    constructor (maxConcurrent: nat, maxQueueDepth: nat)
      ensures Model() == Init(maxConcurrent, maxQueueDepth) && Valid(Model())
      ensures this.maxConcurrent == (if maxConcurrent < 1 then 1 else maxConcurrent)
      ensures this.maxQueueDepth == maxQueueDepth
      ensures running == map[] && queued == map[] && ready == [] && recent == []
    {
      this.maxConcurrent := if maxConcurrent < 1 then 1 else maxConcurrent;
      this.maxQueueDepth := maxQueueDepth;
      running := map[];
      queued := map[];
      ready := [];
      recent := [];
    }

    /** The sum over the map's entries, in whatever order they come. */
    method WaitingCount() returns (n: nat)
      ensures n == Waiting(queued)
    {
      n := 0;
      var rest := queued;
      while rest != map[]
        invariant n + Waiting(rest) == Waiting(queued)
        decreases |rest|
      {
        var c :| c in rest;
        WaitingWithout(rest, c);
        n := n + |rest[c]|;
        rest := rest - {c};
      }
    }

    method TasksAheadFor(c: string) returns (n: nat)
      ensures n == TasksAhead(Model(), c)
    {
      if c in running || c in queued {
        n := if c in running then 1 else 0;
        if c in queued {
          n := n + |queued[c]|;
        }
      } else {
        var w := WaitingCount();
        n := |running| + w;
      }
    }

    method PushReadyConversation(c: string)
      modifies this`ready
      ensures ready == old(ready) + if c in old(ready) then [] else [c]
    {
      if c !in ready {
        ready := ready + [c];
      }
    }

    method PopReadyConversation() returns (c: Option<string>)
      modifies this`ready
      ensures old(ready) == [] ==> c.None? && ready == []
      ensures old(ready) != [] ==> c == Some(old(ready)[0]) && ready == old(ready)[1..]
    {
      if ready == [] {
        c := None;
      } else {
        c := Some(ready[0]);
        ready := ready[1..];
      }
    }

    method PopNextForConversation(c: string) returns (next: Option<Task>)
      modifies this`queued
      ensures (Model(), next) == PopNext(old(Model()), c)
    {
      if c !in queued {
        return None;
      }
      next := None;
      if queued[c] != [] {
        next := Some(queued[c][0]);
        queued := queued[c := queued[c][1..]];
      }
      if queued[c] == [] {
        queued := queued - {c};
      }
      assert queued == PopNext(old(Model()), c).0.queued;
    }

    method PushTerminalSummary(terminal: Terminal)
      modifies this`recent
      ensures Model() == PushTerminal(old(Model()), terminal)
    {
      recent := recent + [terminal];
      if |recent| > TERMINAL_HISTORY_CAPACITY {
        recent := recent[1..];
      }
    }

    method AdmitTask(t: Task) returns (a: Admission)
      modifies this
      ensures (Model(), a) == Admit(old(Model()), t)
      ensures old(Valid(Model())) ==> Valid(Model())
    {
      ghost var before := Model();
      if Valid(before) {
        AdmitKeepsValid(before, t);
      }
      if CanStart(t.conv) {
        running := running[t.conv := t];
        return StartNow;
      }
      var waiting := WaitingCount();
      if waiting >= maxQueueDepth {
        return QueueFull;
      }
      var ahead := TasksAheadFor(t.conv);
      var wasEmpty := t.conv !in queued || queued[t.conv] == [];
      queued := queued[t.conv := (if t.conv in queued then queued[t.conv] else []) + [t]];
      if wasEmpty && t.conv !in running {
        PushReadyConversation(t.conv);
      }
      a := Queued(ahead);
      assert Model() == Enqueue(before, t);
    }

    predicate CanStart(c: string)
      reads this
      ensures CanStart(c) <==> CanStartNow(Model(), c)
    {
      |running| < maxConcurrent && c !in running && (c !in queued || queued[c] == [])
    }

    /** Any conversation may be named; the invariant survives exactly when it is
        running or has nothing queued. */
    method FinishRun(c: string, state: TerminalState, summary: Option<string>) returns (promoted: seq<Task>)
      modifies this
      ensures (Model(), promoted) == Finish(old(Model()), c, state, summary)
      ensures old(Valid(Model())) ==> (Valid(Model()) <==> c in old(running) || c !in old(queued))
    {
      ghost var before := Model();
      if Valid(before) {
        FinishKeepsValidExactly(before, c, state, summary);
      }
      if c in running {
        var finished := running[c];
        running := running - {c};
        PushTerminalSummary(Terminal(finished.id, finished.conv, state, summary));
      }
      assert Model() == Release(before, c, state, summary);
      promoted := [];
      var own := PopNextForConversation(c);
      if own.Some? {
        running := running[own.value.conv := own.value];
        promoted := [own.value];
      }
      assert Model() == PromoteSame(Release(before, c, state, summary), c).0;
      assert promoted == PromoteSame(Release(before, c, state, summary), c).1;
      promoted := FillSlots(promoted);
    }

    method FillSlots(already: seq<Task>) returns (promoted: seq<Task>)
      modifies this
      ensures Model() == Fill(old(Model())).0
      ensures promoted == already + Fill(old(Model())).1
    {
      promoted := already;
      while |running| < maxConcurrent
        invariant Fill(Model()).0 == Fill(old(Model())).0
        invariant promoted + Fill(Model()).1 == already + Fill(old(Model())).1
        decreases |ready|
      {
        var c := PopReadyConversation();
        if c.None? {
          break;
        }
        if c.value in running {
          continue;
        }
        var next := PopNextForConversation(c.value);
        if next.None? {
          continue;
        }
        running := running[next.value.conv := next.value];
        promoted := promoted + [next.value];
      }
    }

    method TakeSnapshot() returns (snapshot: Snapshot)
      ensures snapshot.activeCount == |running| && snapshot.waitingCount == Waiting(queued)
      ensures snapshot.maxConcurrent == maxConcurrent && snapshot.maxQueueDepth == maxQueueDepth
      ensures TasksAtHome(Model()) ==> IsListing(snapshot.running, running)
      ensures snapshot.recentTerminal == recent
    {
      var listing: seq<Task> := [];
      var left := running.Keys;
      while left != {}
        invariant left <= running.Keys
        invariant TasksAtHome(Model()) ==> ListsAll(listing, running, running.Keys - left)
        decreases left
      {
        var c :| c in left;
        if TasksAtHome(Model()) {
          InsertLists(listing, running, running.Keys - left, c);
        }
        listing := Insert(listing, running[c]);
        left := left - {c};
        assert running.Keys - left == running.Keys - (left + {c}) + {c};
      }
      assert running.Keys - left == running.Keys;
      var waiting := WaitingCount();
      snapshot := Snapshot(|running|, maxConcurrent, waiting, maxQueueDepth, listing, recent);
    }
  }
}
