/** The status snapshot's listing of running tasks: sorted by conversation key,
    hence independent of the order in which the hash map yields its values. */
module Listing {
  import opened SchedulerSpec

  /** Lexicographic order of strings. */
  predicate Less(a: string, b: string) {
    if b == [] then false
    else if a == [] then true
    else a[0] < b[0] || (a[0] == b[0] && Less(a[1..], b[1..]))
  }

  /** The strings agree up to `i`, where `a` has the smaller character. */
  predicate FirstDiffers(a: string, b: string, i: int) {
    0 <= i < |a| && i < |b| && a[..i] == b[..i] && a[i] < b[i]
  }

  lemma DiffersBehind(x: char, a: string, b: string, i: nat)
    ensures FirstDiffers([x] + a, [x] + b, i + 1) <==> FirstDiffers(a, b, i)
    ensures !FirstDiffers([x] + a, [x] + b, 0)
  {
    var s, t := [x] + a, [x] + b;
    if i < |a| && i < |b| {
      assert s[..i + 1] == [x] + a[..i] && t[..i + 1] == [x] + b[..i];
      assert s[..i + 1][1..] == a[..i] && t[..i + 1][1..] == b[..i];
    }
  }

  lemma DiffersAtOnce(a: string, b: string)
    requires a != [] && b != [] && a[0] != b[0]
    ensures (exists i :: FirstDiffers(a, b, i)) <==> a[0] < b[0]
  {
    assert a[..0] == b[..0];
    if a[0] < b[0] {
      assert FirstDiffers(a, b, 0);
    }
    forall i | 0 < i < |a| && i < |b| ensures !FirstDiffers(a, b, i) {
      assert a[..i][0] == a[0] && b[..i][0] == b[0];
    }
  }

  /** It is the dictionary order: a proper prefix comes first, else the first
      difference decides. */
  lemma {:induction false} LessExactly(a: string, b: string)
    ensures Less(a, b) <==> a < b || exists i :: FirstDiffers(a, b, i)
  {
    if a != [] && b != [] {
      assert a == [a[0]] + a[1..] && b == [b[0]] + b[1..];
      if a[0] == b[0] {
        LessExactly(a[1..], b[1..]);
        if i :| FirstDiffers(a[1..], b[1..], i) {
          DiffersBehind(a[0], a[1..], b[1..], i);
        }
        if i :| FirstDiffers(a, b, i) {
          DiffersBehind(a[0], a[1..], b[1..], if i > 0 then i - 1 else 0);
        }
      } else {
        DiffersAtOnce(a, b);
      }
    }
  }

  lemma {:induction false} LessTotal(a: string, b: string)
    ensures (Less(a, b) && !Less(b, a) && a != b) || (Less(b, a) && !Less(a, b) && a != b) || (a == b && !Less(a, b))
  {
    if a != [] && b != [] {
      LessTotal(a[1..], b[1..]);
      assert a == [a[0]] + a[1..] && b == [b[0]] + b[1..];
    }
  }

  lemma {:induction false} LessTransitive(a: string, b: string, c: string)
    requires Less(a, b) && Less(b, c)
    ensures Less(a, c)
  {
    if a != [] && a[0] == b[0] && b[0] == c[0] {
      LessTransitive(a[1..], b[1..], c[1..]);
    }
  }

  ghost predicate Sorted(tasks: seq<Task>) {
    forall i, j | 0 <= i < j < |tasks| :: Less(tasks[i].conv, tasks[j].conv)
  }

  ghost predicate IsListing(tasks: seq<Task>, running: map<string, Task>) {
    && Sorted(tasks)
    && (forall i | 0 <= i < |tasks| :: tasks[i].conv in running && running[tasks[i].conv] == tasks[i])
    && (forall c | c in running :: running[c] in tasks)
  }

  lemma HeadsAgree(xs: seq<Task>, ys: seq<Task>, running: map<string, Task>)
    requires IsListing(xs, running) && IsListing(ys, running) && running != map[]
    ensures xs != [] && ys != [] && xs[0] == ys[0]
  {
    var c :| c in running;
    assert running[c] in xs && running[c] in ys;
    var i :| 0 <= i < |ys| && ys[i] == running[xs[0].conv];
    var j :| 0 <= j < |xs| && xs[j] == running[ys[0].conv];
    LessTotal(xs[0].conv, ys[0].conv);
  }

  /** There is one listing: whatever order the table was walked in, it is this one. */
  lemma {:induction false} ListingUnique(xs: seq<Task>, ys: seq<Task>, running: map<string, Task>)
    requires forall c | c in running :: running[c].conv == c
    requires IsListing(xs, running) && IsListing(ys, running)
    ensures xs == ys
    decreases |running|
  {
    if running == map[] {
      assert xs == [] && ys == [];
    } else {
      HeadsAgree(xs, ys, running);
      TailListing(xs, running);
      TailListing(ys, running);
      assert (running - {xs[0].conv}).Keys == running.Keys - {xs[0].conv};
      ListingUnique(xs[1..], ys[1..], running - {xs[0].conv});
      assert xs == [xs[0]] + xs[1..] && ys == [ys[0]] + ys[1..];
    }
  }

  lemma TailListing(xs: seq<Task>, running: map<string, Task>)
    requires forall c | c in running :: running[c].conv == c
    requires IsListing(xs, running) && xs != []
    ensures IsListing(xs[1..], running - {xs[0].conv})
  {
    LessTotal(xs[0].conv, xs[0].conv);
    forall i | 0 <= i < |xs[1..]| ensures xs[1..][i].conv != xs[0].conv {
      assert Less(xs[0].conv, xs[i + 1].conv);
    }
    forall c | c in running - {xs[0].conv} ensures running[c] in xs[1..] {
      assert running[c] in xs;
    }
  }

  function Insert(tasks: seq<Task>, t: Task): (r: seq<Task>)
    ensures |r| == |tasks| + 1
  {
    if tasks == [] || Less(t.conv, tasks[0].conv) then [t] + tasks
    else [tasks[0]] + Insert(tasks[1..], t)
  }

  lemma {:induction false} InsertMembers(tasks: seq<Task>, t: Task, u: Task)
    ensures u in Insert(tasks, t) <==> u == t || u in tasks
  {
    if !(tasks == [] || Less(t.conv, tasks[0].conv)) {
      InsertMembers(tasks[1..], t, u);
      assert tasks == [tasks[0]] + tasks[1..];
    }
  }

  lemma {:induction false} InsertSorted(tasks: seq<Task>, t: Task)
    requires Sorted(tasks) && forall i | 0 <= i < |tasks| :: tasks[i].conv != t.conv
    ensures Sorted(Insert(tasks, t))
  {
    if tasks == [] {
    } else if Less(t.conv, tasks[0].conv) {
      forall i | 0 <= i < |tasks| ensures Less(t.conv, tasks[i].conv) {
        if i > 0 {
          LessTransitive(t.conv, tasks[0].conv, tasks[i].conv);
        }
      }
    } else {
      InsertSorted(tasks[1..], t);
      var rest := Insert(tasks[1..], t);
      forall i | 0 <= i < |rest| ensures Less(tasks[0].conv, rest[i].conv) {
        InsertMembers(tasks[1..], t, rest[i]);
        LessTotal(t.conv, tasks[0].conv);
        if rest[i] in tasks[1..] {
          var j :| 0 <= j < |tasks[1..]| && tasks[1..][j] == rest[i];
          assert tasks[j + 1] == rest[i];
        }
      }
    }
  }

  /** A sorted listing of the tasks of some of the conversations. */
  ghost predicate ListsAll(tasks: seq<Task>, running: map<string, Task>, convs: set<string>) {
    && Sorted(tasks)
    && forall t :: t in tasks <==> t.conv in convs && t.conv in running && running[t.conv] == t
  }

  lemma InsertLists(tasks: seq<Task>, running: map<string, Task>, convs: set<string>, c: string)
    requires ListsAll(tasks, running, convs) && c !in convs && c in running && running[c].conv == c
    ensures ListsAll(Insert(tasks, running[c]), running, convs + {c})
  {
    forall i | 0 <= i < |tasks| ensures tasks[i].conv != c {
      assert tasks[i] in tasks;
    }
    InsertSorted(tasks, running[c]);
    forall u ensures u in Insert(tasks, running[c]) <==> u == running[c] || u in tasks {
      InsertMembers(tasks, running[c], u);
    }
  }
}
