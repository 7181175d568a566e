/** Overlapping calls: one of them may launch with an id that another has replaced,
    exactly when another one is for the same conversation. */
module Overlap {
  import opened Wrappers
  import opened SessionSpec
  import opened Retry
  import opened ExecMachine
  import opened AliasRace
  import opened Exclusive

  /** The call stands before a launch with an id that is no longer stored. */
  ghost predicate LaunchesStale(m: Machine, p: nat) {
    && p in m.execs && m.execs[p].pc.Launch?
    && !StoredAs(m, SessionKey(m.execs[p].req.identity), m.execs[p].pc.record.claudeId)
  }

  ghost predicate Run(m: Machine, es: seq<Event>, calls: map<nat, Request>, m': Machine) {
    Feasible(m, es) && OnlyBegins(es, calls) && After(m, es) == m'
  }

  ghost predicate Asked(m: Machine, calls: map<nat, Request>) {
    forall p | p in m.execs :: p in calls && m.execs[p].req == calls[p]
  }

  lemma StepAsked(m: Machine, e: Event, calls: map<nat, Request>)
    requires Asked(m, calls) && Enabled(m, e)
    requires e.Begin? ==> e.p in calls && calls[e.p] == e.req
    ensures Asked(Next(m, e), calls)
  {
    if e.Act? {
      StatementWrites(m.store, e.p, m.execs[e.p], e.now, e.uuid, e.response);
    }
  }

  // --------------------------------------------------- building a run in parts

  ghost predicate Leads(m: Machine, calls: map<nat, Request>, m': Machine) {
    exists es :: Run(m, es, calls, m')
  }

  lemma ActLeads(m: Machine, e: Event, calls: map<nat, Request>)
    requires Enabled(m, e) && (e.Begin? ==> e.p in calls && calls[e.p] == e.req)
    ensures Leads(m, calls, Next(m, e))
  {
    RunOne(m, e);
    assert Run(m, [e], calls, Next(m, e));
  }

  lemma LeadsOn(m: Machine, calls: map<nat, Request>, m1: Machine, m2: Machine)
    requires Leads(m, calls, m1) && Leads(m1, calls, m2)
    ensures Leads(m, calls, m2)
  {
    var es :| Run(m, es, calls, m1);
    var fs :| Run(m1, fs, calls, m2);
    RunAppend(m, es, fs);
    assert Run(m, es + fs, calls, m2);
  }

  function At(m: Machine, p: nat, x: Exec): Machine {
    m.(execs := m.execs[p := x])
  }

  /** A statement without a new id; it may write an alias. */
  ghost predicate Moves(st: Store, p: nat, x: Exec, response: Option<Response>, st': Store, x': Exec) {
    !Final(x.pc) && Statement(st, p, x, 0, "z", response) == Effect(st', x', None)
  }

  lemma MoveLeads(m: Machine, calls: map<nat, Request>, p: nat, x: Exec, response: Option<Response>, st': Store,
                  x': Exec)
    requires "z" !in m.issued && Moves(m.store, p, x, response, st', x')
    ensures Leads(At(m, p, x), calls, At(m.(store := st'), p, x'))
  {
    var m1, e := At(m, p, x), Act(p, 0, "z", response);
    assert m.execs[p := x][p := x'] == m.execs[p := x'];
    assert Next(m1, e) == At(m.(store := st'), p, x');
    ActLeads(m1, e, calls);
  }

  lemma StayLeads(m: Machine, calls: map<nat, Request>, p: nat, x: Exec, response: Option<Response>, x': Exec)
    requires "z" !in m.issued && Moves(m.store, p, x, response, m.store, x')
    ensures Leads(At(m, p, x), calls, At(m, p, x'))
  {
    MoveLeads(m, calls, p, x, response, m.store, x');
    assert m.(store := m.store) == m;
  }

  // ------------------------------------------------------- the parts of a call

  ghost predicate HasRow(st: Store, id: Identity, claudeId: string) {
    SessionKey(id) in st.sessions && st.sessions[SessionKey(id)] == Row(claudeId, id, 0, 0)
  }

  /** The row is there and the request's external id is free for it. */
  ghost predicate Open(st: Store, req: Request, claudeId: string) {
    HasRow(st, req.identity, claudeId) && AliasFree(st, req)
  }

  /** A session as `FetchRow` finds it. */
  function Found(id: Identity, claudeId: string): SessionRecord {
    SessionRecord(SessionKey(id), SessionKey(id), claudeId, id, "", 0, 0, false)
  }

  /** The tables once the request's external id is bound. */
  function Bound(st: Store, req: Request): Store {
    if Blank(req.sessionId) then st else UpsertAlias(st, req.sessionId, SessionKey(req.identity))
  }

  lemma BlankBinds(st: Store, p: nat, x: Exec, phase: Phase, r: SessionRecord)
    requires x.pc == BindCheck(phase, r) && Blank(x.req.sessionId)
    ensures Moves(st, p, x, None, st, x.(pc := Launch(phase, r)))
  {
  }

  lemma ChecksAndFetches(st: Store, p: nat, x: Exec, phase: Phase, r: SessionRecord, u: string)
    requires x.pc == BindCheck(phase, r) && !Blank(x.req.sessionId) && Open(st, x.req, u)
    ensures Moves(st, p, x, None, st, x.(pc := BindFetch(phase, r)))
    ensures Moves(st, p, x.(pc := BindFetch(phase, r)), None, st, x.(pc := BindWrite(phase, r)))
  {
  }

  lemma WritesBound(st: Store, p: nat, x: Exec, phase: Phase, r: SessionRecord)
    requires x.pc == BindWrite(phase, r) && !Blank(x.req.sessionId)
    ensures Moves(st, p, x, None, Bound(st, x.req), x.(pc := Launch(phase, r)))
  {
  }

  lemma BindingLeads(m: Machine, calls: map<nat, Request>, p: nat, x: Exec, phase: Phase, r: SessionRecord, u: string)
    requires "z" !in m.issued && x.pc == BindCheck(phase, r) && Open(m.store, x.req, u)
    ensures Leads(At(m, p, x), calls, At(m.(store := Bound(m.store, x.req)), p, x.(pc := Launch(phase, r))))
  {
    var b, c := x.(pc := BindFetch(phase, r)), x.(pc := BindWrite(phase, r));
    if Blank(x.req.sessionId) {
      BlankBinds(m.store, p, x, phase, r);
      MoveLeads(m, calls, p, x, None, m.store, x.(pc := Launch(phase, r)));
    } else {
      ChecksAndFetches(m.store, p, x, phase, r, u);
      StayLeads(m, calls, p, x, None, b);
      StayLeads(m, calls, p, b, None, c);
      WritesBound(m.store, p, c, phase, r);
      MoveLeads(m, calls, p, c, None, Bound(m.store, x.req), x.(pc := Launch(phase, r)));
      LeadsOn(At(m, p, x), calls, At(m, p, b), At(m, p, c));
      LeadsOn(At(m, p, x), calls, At(m, p, c), At(m.(store := Bound(m.store, x.req)), p, x.(pc := Launch(phase, r))));
    }
  }

  lemma MovesToFetch(st: Store, p: nat, req: Request, u: string)
    requires Open(st, req, u)
    ensures Moves(st, p, Exec(req, CheckAlias(First), None, []), None, st, Exec(req, FetchRow, None, []))
  {
  }

  lemma MovesToTouch(st: Store, p: nat, req: Request, u: string)
    requires HasRow(st, req.identity, u)
    ensures var r := Found(req.identity, u);
            && Moves(st, p, Exec(req, FetchRow, None, []), None, st, Exec(req, TouchRow(r), Some(r), []))
            && Moves(st, p, Exec(req, TouchRow(r), Some(r), []), None, st, Exec(req, BindCheck(First, r), Some(r), []))
  {
    assert Touch(st, SessionKey(req.identity), 0) == st;
  }

  /** A call that finds the session's row comes to its launch. */
  lemma ResumeLeads(m: Machine, calls: map<nat, Request>, p: nat, req: Request, u: string)
    requires "z" !in m.issued && Open(m.store, req, u)
    ensures var r := Found(req.identity, u);
            Leads(At(m, p, Exec(req, CheckAlias(First), None, [])), calls,
                  At(m.(store := Bound(m.store, req)), p, Exec(req, Launch(First, r), Some(r), [])))
  {
    var r := Found(req.identity, u);
    var a, b := Exec(req, CheckAlias(First), None, []), Exec(req, FetchRow, None, []);
    var c, d := Exec(req, TouchRow(r), Some(r), []), Exec(req, BindCheck(First, r), Some(r), []);
    MovesToFetch(m.store, p, req, u);
    MovesToTouch(m.store, p, req, u);
    StayLeads(m, calls, p, a, None, b);
    StayLeads(m, calls, p, b, None, c);
    StayLeads(m, calls, p, c, None, d);
    BindingLeads(m, calls, p, d, First, r, u);
    LeadsOn(At(m, p, a), calls, At(m, p, b), At(m, p, c));
    LeadsOn(At(m, p, a), calls, At(m, p, c), At(m, p, d));
    LeadsOn(At(m, p, a), calls, At(m, p, d), At(m.(store := Bound(m.store, req)), p, d.(pc := Launch(First, r))));
  }

  const MISSING: Response := Response(MISSING_SESSION, "", false)

  lemma MissingAsksRetry()
    ensures ShouldRetry(MISSING, false)
  {
    RetryReadsRawStreams(MISSING, false);
    assert MISSING_SESSION[0..] == MISSING_SESSION;
    ContainsExactly(MISSING_SESSION, MISSING_SESSION);
  }

  lemma MovesToAwait(st: Store, p: nat, req: Request, r: SessionRecord, response: Response)
    ensures Moves(st, p, Exec(req, Launch(First, r), Some(r), []), Some(response), st,
                  Exec(req, Await(First, r), Some(r), [Started(r.key, r.claudeId, r.isNew)]))
  {
    var before: seq<Started> := [];
    assert before + [Started(r.key, r.claudeId, r.isNew)] == [Started(r.key, r.claudeId, r.isNew)];
  }

  lemma MovesToRetry(st: Store, p: nat, req: Request, r: SessionRecord, started: seq<Started>, response: Response)
    requires ShouldRetry(response, r.isNew)
    ensures Moves(st, p, Exec(req, Await(First, r), Some(r), started), Some(response), st,
                  Exec(req, CheckAlias(Again), Some(r), started))
  {
  }

  lemma MovesToRotate(st: Store, p: nat, req: Request, u: string, r: SessionRecord, started: seq<Started>)
    requires Open(st, req, u)
    ensures Moves(st, p, Exec(req, CheckAlias(Again), Some(r), started), None, st,
                  Exec(req, ResetFetch, Some(r), started))
    ensures Moves(st, p, Exec(req, ResetFetch, Some(r), started), None, st, Exec(req, RotateRow, Some(r), started))
  {
  }

  /** A resumed launch that finds the session missing comes to the rotation. */
  lemma RetryLeads(m: Machine, calls: map<nat, Request>, p: nat, req: Request, u: string)
    requires "z" !in m.issued && Open(m.store, req, u)
    ensures var r := Found(req.identity, u);
            Leads(At(m, p, Exec(req, Launch(First, r), Some(r), [])), calls,
                  At(m, p, Exec(req, RotateRow, Some(r), [Started(r.key, u, false)])))
  {
    var r := Found(req.identity, u);
    var started := [Started(r.key, u, false)];
    var a, b := Exec(req, Launch(First, r), Some(r), []), Exec(req, Await(First, r), Some(r), started);
    var c, d := Exec(req, CheckAlias(Again), Some(r), started), Exec(req, ResetFetch, Some(r), started);
    var e := Exec(req, RotateRow, Some(r), started);
    MovesToAwait(m.store, p, req, r, MISSING);
    MissingAsksRetry();
    MovesToRetry(m.store, p, req, r, started, MISSING);
    MovesToRotate(m.store, p, req, u, r, started);
    StayLeads(m, calls, p, a, Some(MISSING), b);
    StayLeads(m, calls, p, b, Some(MISSING), c);
    StayLeads(m, calls, p, c, None, d);
    StayLeads(m, calls, p, d, None, e);
    LeadsOn(At(m, p, a), calls, At(m, p, b), At(m, p, c));
    LeadsOn(At(m, p, a), calls, At(m, p, c), At(m, p, d));
    LeadsOn(At(m, p, a), calls, At(m, p, d), At(m, p, e));
  }

  lemma RotationLeads(m: Machine, calls: map<nat, Request>, p: nat, req: Request, u: string, v: string, x: Exec)
    requires v !in m.issued && HasRow(m.store, req.identity, u) && x.req == req && x.pc == RotateRow
    ensures var m1 := At(m, p, x);
            && Enabled(m1, Step(p, v)) && Leads(m1, calls, Next(m1, Step(p, v)))
            && StoredAs(Next(m1, Step(p, v)), SessionKey(req.identity), v)
            && forall q | q in m.execs && q != p ::
                 q in Next(m1, Step(p, v)).execs && Next(m1, Step(p, v)).execs[q] == m.execs[q]
  {
    ActLeads(At(m, p, x), Step(p, v), calls);
  }

  // ------------------------------------------------------------ the whole run

  /** The creator of a session, from its begin to its launch. */
  lemma CreatorAtLaunch(p: nat, a: Request, calls: map<nat, Request>) returns (m: Machine)
    requires p in calls && calls[p] == a
    ensures Leads(EMPTY, calls, m) && p in m.execs && m.execs[p] == Created(a, "x", Launch(First, NewRecordOf(a, "x")))
    ensures m.issued.Keys == {"x"} && m.execs.Keys == {p} && HasRow(m.store, a.identity, "x")
    ensures forall s | s in m.store.aliases :: m.store.aliases[s] == SessionKey(a.identity)
  {
    var r := NewRecordOf(a, "x");
    var x0, x1 := Exec(a, InsertRow, None, []), Created(a, "x", BindCheck(First, r));
    var m0, m1 := EMPTY.(execs := EMPTY.execs[p := x0]), WithCreated(EMPTY, p, a, "x", BindCheck(First, r));
    ToInsert(EMPTY, p, a, "x");
    assert Run(EMPTY, [Begin(p, a), Step(p, "x"), Step(p, "x")], calls, m0);
    StepCreates(m0, p, a, "x");
    CreatedOver(EMPTY, p, a, "x", x0, BindCheck(First, r));
    ActLeads(m0, Step(p, "x"), calls);
    LeadsOn(EMPTY, calls, m0, m1);
    m := CreatorBinds(m1, p, a, x1, r, calls);
    LeadsOn(EMPTY, calls, m1, m);
  }

  lemma CreatorBinds(m1: Machine, p: nat, a: Request, x1: Exec, r: SessionRecord, calls: map<nat, Request>)
    returns (m: Machine)
    requires m1 == WithCreated(EMPTY, p, a, "x", BindCheck(First, r)) && r == NewRecordOf(a, "x")
    requires x1 == Created(a, "x", BindCheck(First, r))
    ensures Leads(m1, calls, m) && p in m.execs && m.execs[p] == Created(a, "x", Launch(First, r))
    ensures m.issued.Keys == {"x"} && m.execs.Keys == {p} && HasRow(m.store, a.identity, "x")
    ensures forall s | s in m.store.aliases :: m.store.aliases[s] == SessionKey(a.identity)
  {
    assert m1.execs[p := x1] == m1.execs;
    assert At(m1, p, x1) == m1;
    assert "x"[0] != "z"[0];
    BindingLeads(m1, calls, p, x1, First, r, "x");
    m := At(m1.(store := Bound(m1.store, a)), p, x1.(pc := Launch(First, r)));
  }

  /** A second call of the conversation, from its begin to the rotation. */
  lemma OtherRotates(m: Machine, q: nat, b: Request, calls: map<nat, Request>) returns (m': Machine)
    requires "z" !in m.issued && "y" !in m.issued && q !in m.execs && q in calls && calls[q] == b
    requires Open(m.store, b, "x")
    ensures Leads(m, calls, m') && StoredAs(m', SessionKey(b.identity), "y")
    ensures forall p | p in m.execs :: p in m'.execs && m'.execs[p] == m.execs[p]
  {
    var r := Found(b.identity, "x");
    var bound := m.(store := Bound(m.store, b));
    var x := Exec(b, RotateRow, Some(r), [Started(r.key, "x", false)]);
    var begun := At(m, q, Exec(b, CheckAlias(First), None, []));
    var launch := At(bound, q, Exec(b, Launch(First, r), Some(r), []));
    var rotate := At(bound, q, x);
    ActLeads(m, Begin(q, b), calls);
    ResumeLeads(m, calls, q, b, "x");
    RetryLeads(bound, calls, q, b, "x");
    RotationLeads(bound, calls, q, b, "x", "y", x);
    m' := Next(rotate, Step(q, "y"));
    LeadsOn(m, calls, begun, launch);
    LeadsOn(m, calls, launch, rotate);
    LeadsOn(m, calls, rotate, m');
  }

  /** Some interleaving of the calls brings call `p` to launch with a replaced id. */
  ghost predicate MayGoStale(calls: map<nat, Request>, p: nat) {
    exists es :: Feasible(EMPTY, es) && OnlyBegins(es, calls) && LaunchesStale(After(EMPTY, es), p)
  }

  ghost predicate SameConversation(calls: map<nat, Request>, p: nat, q: nat) {
    p in calls && q in calls && p != q && calls[p].identity == calls[q].identity
  }

  lemma SameConversationGoesStale(calls: map<nat, Request>, p: nat, q: nat)
    requires SameConversation(calls, p, q)
    ensures MayGoStale(calls, p)
  {
    assert "x"[0] != "y"[0] && "x"[0] != "z"[0];
    var m := CreatorAtLaunch(p, calls[p], calls);
    var m' := OtherRotates(m, q, calls[q], calls);
    LeadsOn(EMPTY, calls, m, m');
    var es :| Run(EMPTY, es, calls, m');
    assert LaunchesStale(After(EMPTY, es), p);
  }

  // ------------------------------------------- without another, no harm either

  /** No other call is for the conversation of `p`. */
  ghost predicate OnlyOne(calls: map<nat, Request>, p: nat) {
    forall q :: !SameConversation(calls, p, q)
  }

  lemma StepOnlyOneCarries(m: Machine, e: Event, calls: map<nat, Request>, p: nat)
    requires Invariant(m) && Enabled(m, e) && Asked(m, calls) && OnlyOne(calls, p)
    requires e.Begin? ==> e.p in calls && calls[e.p] == e.req
    requires p in m.execs ==> CarriesStored(m.store, m.execs[p])
    ensures p in Next(m, e).execs ==> CarriesStored(Next(m, e).store, Next(m, e).execs[p])
  {
    if e.Act? && p in m.execs {
      if e.p == p {
        OwnAfter(m, e);
      } else {
        assert !SameConversation(calls, p, e.p);
        RowsOwned(m, e.p);
        RowsOwned(m, p);
        OtherAfter(m, e, p);
      }
    }
  }

  lemma {:induction false} RunOnlyOneCarries(m: Machine, es: seq<Event>, calls: map<nat, Request>, p: nat)
    requires Invariant(m) && Feasible(m, es) && OnlyBegins(es, calls) && Asked(m, calls) && OnlyOne(calls, p)
    requires p in m.execs ==> CarriesStored(m.store, m.execs[p])
    ensures p in After(m, es).execs ==> CarriesStored(After(m, es).store, After(m, es).execs[p])
    decreases |es|
  {
    if es != [] {
      StepKeepsInvariant(m, es[0]);
      StepAsked(m, es[0], calls);
      StepOnlyOneCarries(m, es[0], calls, p);
      RunOnlyOneCarries(Next(m, es[0]), es[1..], calls, p);
    }
  }

  /** Among any calls, one of them may come to launch with an id that another has
      meanwhile replaced, exactly when another one is for the same conversation:
      it resumes the session just created, finds it missing and rotates the id. */
  lemma GoesStaleExactly(calls: map<nat, Request>, p: nat)
    requires p in calls
    ensures MayGoStale(calls, p) <==> exists q :: SameConversation(calls, p, q)
  {
    if exists q :: SameConversation(calls, p, q) {
      var q :| SameConversation(calls, p, q);
      SameConversationGoesStale(calls, p, q);
    } else {
      forall es | Feasible(EMPTY, es) && OnlyBegins(es, calls) ensures !LaunchesStale(After(EMPTY, es), p) {
        RunOnlyOneCarries(EMPTY, es, calls, p);
      }
    }
  }
}
