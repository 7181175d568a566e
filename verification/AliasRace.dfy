/** Two facts about interleaved calls that one call cannot show: every id a call
    uses was the stored one when it fetched or wrote it, and aliases stay put
    exactly as long as callers agree on what each external id names. */
module AliasRace {
  import opened Wrappers
  import opened SessionSpec
  import opened Retry
  import opened ExecMachine

  // ------------------------------------------------ ids come from the table

  ghost predicate StoredAs(m: Machine, key: string, id: string) {
    key in m.store.sessions && m.store.sessions[key].claudeId == id
  }

  /** The statements that take an id from the table, or put one there: a fetch, an
      insert, a rotation. */
  predicate TakesId(pc: Pc) {
    pc.FetchRow? || pc.RefetchRow? || pc.InsertRow? || pc.RotateRow?
  }

  /** At a fetch, insert or rotation of `p` in this run, `id` was the stored id of `key`. */
  ghost predicate StoredDuring(m: Machine, es: seq<Event>, p: nat, key: string, id: string)
    requires Feasible(m, es)
    decreases |es|
  {
    es != [] &&
    (|| (es[0].Act? && es[0].p == p && TakesId(m.execs[p].pc) && StoredAs(Next(m, es[0]), key, id))
     || StoredDuring(Next(m, es[0]), es[1..], p, key, id))
  }

  /** The call `p` goes on with a record of session `key` under `id`. */
  ghost predicate Holds(m: Machine, p: nat, key: string, id: string) {
    p in m.execs && CarriesId(m.execs[p].pc, key, id)
  }

  ghost predicate CarriesId(pc: Pc, key: string, id: string) {
    RecordOf(pc).Some? && RecordOf(pc).value.key == key && RecordOf(pc).value.claudeId == id
  }

  lemma RecordCarried(st: Store, p: nat, x: Exec, now: int, uuid: string, response: Option<Response>,
                      key: string, id: string)
    requires !TakesId(x.pc) && CarriesId(Statement(st, p, x, now, uuid, response).exec.pc, key, id)
    ensures CarriesId(x.pc, key, id)
  {
  }

  lemma RecordFetched(st: Store, p: nat, x: Exec, now: int, uuid: string, response: Option<Response>,
                      key: string, id: string)
    requires x.pc.FetchRow? || x.pc.RefetchRow?
    requires CarriesId(Statement(st, p, x, now, uuid, response).exec.pc, key, id)
    ensures Statement(st, p, x, now, uuid, response).store == st
    ensures key in st.sessions && st.sessions[key].claudeId == id
  {
  }

  lemma RecordWritten(st: Store, p: nat, x: Exec, now: int, uuid: string, response: Option<Response>,
                      key: string, id: string)
    requires x.pc.InsertRow? || (x.pc.RotateRow? && RowOwned(st, x.req))
    requires CarriesId(Statement(st, p, x, now, uuid, response).exec.pc, key, id)
    ensures var st' := Statement(st, p, x, now, uuid, response).store;
            key in st'.sessions && st'.sessions[key].claudeId == id
  {
  }

  lemma StatementRecord(st: Store, p: nat, x: Exec, now: int, uuid: string, response: Option<Response>,
                        key: string, id: string)
    requires x.pc.RotateRow? ==> RowOwned(st, x.req)
    requires CarriesId(Statement(st, p, x, now, uuid, response).exec.pc, key, id)
    ensures var st' := Statement(st, p, x, now, uuid, response).store;
            CarriesId(x.pc, key, id) || (key in st'.sessions && st'.sessions[key].claudeId == id)
  {
    if x.pc.FetchRow? || x.pc.RefetchRow? {
      RecordFetched(st, p, x, now, uuid, response, key, id);
    } else if x.pc.InsertRow? || x.pc.RotateRow? {
      RecordWritten(st, p, x, now, uuid, response, key, id);
    } else {
      RecordCarried(st, p, x, now, uuid, response, key, id);
    }
  }

  lemma RecordIsRead(m: Machine, e: Event, p: nat, key: string, id: string)
    requires Invariant(m) && Enabled(m, e) && Holds(Next(m, e), p, key, id)
    ensures Holds(m, p, key, id) || (e.Act? && e.p == p && TakesId(m.execs[p].pc) && StoredAs(Next(m, e), key, id))
  {
    if e.Act? && e.p == p && !TakesId(m.execs[p].pc) {
      RecordCarried(m.store, p, m.execs[p], e.now, e.uuid, e.response, key, id);
    } else if e.Act? && e.p == p {
      assert PcOk(m.store, m.issued, p, m.execs[p].req, m.execs[p].pc);
      StatementRecord(m.store, p, m.execs[p], e.now, e.uuid, e.response, key, id);
    }
  }

  lemma {:induction false} HeldWasStored(m: Machine, es: seq<Event>, p: nat, key: string, id: string)
    requires Invariant(m) && Feasible(m, es) && Holds(After(m, es), p, key, id)
    ensures Holds(m, p, key, id) || StoredDuring(m, es, p, key, id)
    decreases |es|
  {
    if es != [] {
      StepKeepsInvariant(m, es[0]);
      HeldWasStored(Next(m, es[0]), es[1..], p, key, id);
      if Holds(Next(m, es[0]), p, key, id) {
        RecordIsRead(m, es[0], p, key, id);
      }
    }
  }

  /** Whatever resets are interleaved, a call that goes on with a session record
      fetched, inserted or rotated in exactly that id, as the one stored then. */
  lemma EveryRecordWasStored(es: seq<Event>, m: Machine, p: nat, key: string, id: string)
    requires Reachable(es, m) && Holds(m, p, key, id)
    ensures StoredDuring(EMPTY, es, p, key, id)
  {
    HeldWasStored(EMPTY, es, p, key, id);
  }

  // --------------------------------------------------- agreement on aliases

  /** Every request names the conversation that `names` gives to its external id. */
  ghost predicate Agreed(names: string -> string, req: Request) {
    Blank(req.sessionId) || SessionKey(req.identity) == names(req.sessionId)
  }

  ghost predicate ExecAgreed(names: string -> string, x: Exec) {
    Agreed(names, x.req) && (x.pc.BindFetch? || x.pc.BindWrite? ==> !Blank(x.req.sessionId))
  }

  ghost predicate AliasesAgreed(names: string -> string, st: Store) {
    forall a | a in st.aliases :: st.aliases[a] == names(a)
  }

  ghost predicate AllAgreed(names: string -> string, m: Machine) {
    && (forall p | p in m.execs :: ExecAgreed(names, m.execs[p]))
    && AliasesAgreed(names, m.store)
  }

  /** A binding is only begun for an external id that is not blank. */
  lemma StatementBinds(st: Store, p: nat, x: Exec, now: int, uuid: string, response: Option<Response>)
    ensures var pc := Statement(st, p, x, now, uuid, response).exec.pc;
            && (pc.BindFetch? ==> !Blank(x.req.sessionId) || x.pc.BindFetch?)
            && (pc.BindWrite? ==> x.pc.BindFetch? || x.pc.BindWrite?)
  {
  }

  /** Only the last statement of a binding writes an alias. */
  lemma WritesAliases(st: Store, p: nat, x: Exec, now: int, uuid: string, st': Store, issue: Option<Issue>)
    requires Writes(st, p, x, now, uuid, st', issue)
    ensures st'.aliases ==
            if x.pc.BindWrite? then st.aliases[x.req.sessionId := SessionKey(x.req.identity)] else st.aliases
  {
  }

  lemma WritesAgree(names: string -> string, st: Store, x: Exec, st': Store)
    requires ExecAgreed(names, x) && AliasesAgreed(names, st)
    requires st'.aliases ==
             if x.pc.BindWrite? then st.aliases[x.req.sessionId := SessionKey(x.req.identity)] else st.aliases
    ensures AliasesAgreed(names, st') && st.aliases.Keys <= st'.aliases.Keys
  {
  }

  lemma StatementAgrees(names: string -> string, st: Store, p: nat, x: Exec, now: int, uuid: string,
                        response: Option<Response>)
    requires ExecAgreed(names, x) && AliasesAgreed(names, st)
    ensures var e := Statement(st, p, x, now, uuid, response);
            ExecAgreed(names, e.exec) && AliasesAgreed(names, e.store) && st.aliases.Keys <= e.store.aliases.Keys
  {
    var e := Statement(st, p, x, now, uuid, response);
    StatementBinds(st, p, x, now, uuid, response);
    StatementWrites(st, p, x, now, uuid, response);
    WritesAliases(st, p, x, now, uuid, e.store, e.issue);
    WritesAgree(names, st, x, e.store);
  }

  lemma StepAgrees(names: string -> string, m: Machine, e: Event)
    requires AllAgreed(names, m) && Enabled(m, e) && (e.Begin? ==> Agreed(names, e.req))
    ensures AllAgreed(names, Next(m, e))
    ensures forall a | a in m.store.aliases :: a in Next(m, e).store.aliases
  {
    if e.Act? {
      StatementAgrees(names, m.store, e.p, m.execs[e.p], e.now, e.uuid, e.response);
    }
  }

  /** If all callers agree on what each external id names, no interleaving moves an alias. */
  lemma {:induction false} AgreedAliasesStay(names: string -> string, m: Machine, es: seq<Event>)
    requires AllAgreed(names, m) && Feasible(m, es)
    requires forall i | 0 <= i < |es| && es[i].Begin? :: Agreed(names, es[i].req)
    ensures AllAgreed(names, After(m, es))
    ensures forall a | a in m.store.aliases ::
              a in After(m, es).store.aliases && After(m, es).store.aliases[a] == m.store.aliases[a]
    decreases |es|
  {
    if es != [] {
      StepAgrees(names, m, es[0]);
      AgreedAliasesStay(names, Next(m, es[0]), es[1..]);
    }
  }

  // ----------------------------------------------------------- and the race

  lemma {:induction false} RunAppend(m: Machine, es: seq<Event>, fs: seq<Event>)
    requires Feasible(m, es) && Feasible(After(m, es), fs)
    ensures Feasible(m, es + fs) && After(m, es + fs) == After(After(m, es), fs)
    decreases |es|
  {
    if es == [] {
      assert es + fs == fs;
    } else {
      assert (es + fs)[1..] == es[1..] + fs;
      RunAppend(Next(m, es[0]), es[1..], fs);
    }
  }

  lemma RunOne(m: Machine, e: Event)
    requires Enabled(m, e)
    ensures Feasible(m, [e]) && After(m, [e]) == Next(m, e)
  {
    assert [e][1..] == [];
    assert Feasible(Next(m, e), []);
  }

  function Step(p: nat, uuid: string): Event {
    Act(p, 0, uuid, None)
  }

  /** The exec of a call that has created its session. */
  function Created(req: Request, uuid: string, pc: Pc): Exec {
    var key := SessionKey(req.identity);
    Exec(req, pc, Some(NewRecord(key, key, req.identity, uuid, 0)), [])
  }

  /** The machine once call `p` has created its session and stands at `pc`. */
  function WithCreated(m: Machine, p: nat, req: Request, uuid: string, pc: Pc): Machine {
    var key := SessionKey(req.identity);
    Machine(m.store.(sessions := m.store.sessions[key := Row(uuid, req.identity, 0, 0)]),
            m.execs[p := Created(req, uuid, pc)],
            m.issued[uuid := Issue(p, req.identity, false)],
            m.created[key := uuid])
  }

  lemma ToInsert(m: Machine, p: nat, req: Request, uuid: string)
    requires p !in m.execs && uuid !in m.issued && SessionKey(req.identity) !in m.store.sessions
    requires req.sessionId !in m.store.aliases
    ensures var es := [Begin(p, req), Step(p, uuid), Step(p, uuid)];
            Feasible(m, es) && After(m, es) == m.(execs := m.execs[p := Exec(req, InsertRow, None, [])])
  {
    var m1 := Next(m, Begin(p, req));
    var m2 := Next(m1, Step(p, uuid));
    assert m2 == m.(execs := m.execs[p := Exec(req, FetchRow, None, [])]);
    var m3 := Next(m2, Step(p, uuid));
    assert m3 == m.(execs := m.execs[p := Exec(req, InsertRow, None, [])]);
    RunOne(m, Begin(p, req));
    RunOne(m1, Step(p, uuid));
    RunOne(m2, Step(p, uuid));
    RunAppend(m, [Begin(p, req)], [Step(p, uuid)]);
    RunAppend(m, [Begin(p, req)] + [Step(p, uuid)], [Step(p, uuid)]);
    assert [Begin(p, req)] + [Step(p, uuid)] + [Step(p, uuid)] == [Begin(p, req), Step(p, uuid), Step(p, uuid)];
  }

  lemma StepCreates(m: Machine, p: nat, req: Request, uuid: string)
    requires p in m.execs && m.execs[p] == Exec(req, InsertRow, None, [])
    requires uuid !in m.issued && SessionKey(req.identity) !in m.store.sessions
    ensures var key := SessionKey(req.identity);
            && Enabled(m, Step(p, uuid))
            && Next(m, Step(p, uuid)) ==
               WithCreated(m, p, req, uuid, BindCheck(First, NewRecord(key, key, req.identity, uuid, 0)))
  {
  }

  /** What a created session's call has in hand. */
  function NewRecordOf(req: Request, uuid: string): SessionRecord {
    NewRecord(SessionKey(req.identity), SessionKey(req.identity), req.identity, uuid, 0)
  }

  lemma StepChecks(m: Machine, p: nat, req: Request, uuid: string, next: string)
    requires next !in m.issued && next != uuid
    requires !Blank(req.sessionId) && req.sessionId !in m.store.aliases
    ensures var record := NewRecordOf(req, uuid);
            var m1 := WithCreated(m, p, req, uuid, BindCheck(First, record));
            && Enabled(m1, Step(p, next))
            && Next(m1, Step(p, next)) == WithCreated(m, p, req, uuid, BindFetch(First, record))
  {
  }

  lemma StepFetches(m: Machine, p: nat, req: Request, uuid: string, next: string)
    requires next !in m.issued && next != uuid
    ensures var record := NewRecordOf(req, uuid);
            var m1 := WithCreated(m, p, req, uuid, BindFetch(First, record));
            && Enabled(m1, Step(p, next))
            && Next(m1, Step(p, next)) == WithCreated(m, p, req, uuid, BindWrite(First, record))
  {
  }

  lemma ToBindWrite(m: Machine, p: nat, req: Request, uuid: string, next: string)
    requires p in m.execs && m.execs[p] == Exec(req, InsertRow, None, [])
    requires uuid !in m.issued && next !in m.issued && next != uuid
    requires SessionKey(req.identity) !in m.store.sessions
    requires !Blank(req.sessionId) && req.sessionId !in m.store.aliases
    ensures var es := [Step(p, uuid), Step(p, next), Step(p, next)];
            Feasible(m, es) && After(m, es) == WithCreated(m, p, req, uuid, BindWrite(First, NewRecordOf(req, uuid)))
  {
    StepCreates(m, p, req, uuid);
    StepChecks(m, p, req, uuid, next);
    StepFetches(m, p, req, uuid, next);
    var m1 := Next(m, Step(p, uuid));
    var m2 := Next(m1, Step(p, next));
    RunOne(m, Step(p, uuid));
    RunOne(m1, Step(p, next));
    RunOne(m2, Step(p, next));
    RunAppend(m, [Step(p, uuid)], [Step(p, next)]);
    RunAppend(m, [Step(p, uuid)] + [Step(p, next)], [Step(p, next)]);
    assert [Step(p, uuid)] + [Step(p, next)] + [Step(p, next)] == [Step(p, uuid), Step(p, next), Step(p, next)];
  }

  function Prologue(req: Request, p: nat, uuid: string): seq<Event> {
    [Begin(p, req), Step(p, uuid), Step(p, uuid)] + [Step(p, uuid), Step(p, "z"), Step(p, "z")]
  }

  /** The first entry of a call in the table is overwritten. */
  lemma CreatedOver(m: Machine, p: nat, req: Request, uuid: string, x: Exec, pc: Pc)
    ensures WithCreated(m.(execs := m.execs[p := x]), p, req, uuid, pc) == WithCreated(m, p, req, uuid, pc)
  {
    assert m.execs[p := x][p := Created(req, uuid, pc)] == m.execs[p := Created(req, uuid, pc)];
  }

  lemma RunPrologue(m: Machine, p: nat, req: Request, uuid: string)
    requires p !in m.execs && uuid !in m.issued && "z" !in m.issued && uuid != "z"
    requires SessionKey(req.identity) !in m.store.sessions
    requires !Blank(req.sessionId) && req.sessionId !in m.store.aliases
    ensures && Feasible(m, Prologue(req, p, uuid))
            && After(m, Prologue(req, p, uuid)) ==
               WithCreated(m, p, req, uuid, BindWrite(First, NewRecordOf(req, uuid)))
  {
    var x := Exec(req, InsertRow, None, []);
    ToInsert(m, p, req, uuid);
    ToBindWrite(m.(execs := m.execs[p := x]), p, req, uuid, "z");
    CreatedOver(m, p, req, uuid, x, BindWrite(First, NewRecordOf(req, uuid)));
    RunAppend(m, [Begin(p, req), Step(p, uuid), Step(p, uuid)], [Step(p, uuid), Step(p, "z"), Step(p, "z")]);
  }

  ghost predicate AtBindWrite(m: Machine, p: nat, req: Request) {
    p in m.execs && m.execs[p].pc.BindWrite? && m.execs[p].req == req
  }

  lemma WriteAliasStep(m: Machine, p: nat, req: Request)
    requires AtBindWrite(m, p, req) && "z" !in m.issued
    ensures Enabled(m, Step(p, "z"))
    ensures Next(m, Step(p, "z")).store.aliases == m.store.aliases[req.sessionId := SessionKey(req.identity)]
    ensures Next(m, Step(p, "z")).issued == m.issued
    ensures forall q | q in m.execs && q != p ::
              q in Next(m, Step(p, "z")).execs && Next(m, Step(p, "z")).execs[q] == m.execs[q]
  {
  }

  /** Only the calls in `calls` begin, each with its request. */
  ghost predicate OnlyBegins(es: seq<Event>, calls: map<nat, Request>) {
    forall i | 0 <= i < |es| && es[i].Begin? :: es[i].p in calls && calls[es[i].p] == es[i].req
  }

  /** The last event of the run takes the alias away from the session it named. */
  ghost predicate Moved(es: seq<Event>, ext: string) {
    && es != [] && Feasible(EMPTY, es[..|es| - 1]) && Feasible(EMPTY, es)
    && var before, after := After(EMPTY, es[..|es| - 1]).store.aliases, After(EMPTY, es).store.aliases;
       ext in before && !(ext in after && after[ext] == before[ext])
  }

  /** Two of the calls give one external id to different sessions. */
  ghost predicate Disagree(calls: map<nat, Request>, p: nat, q: nat) {
    && p in calls && q in calls
    && calls[p].sessionId == calls[q].sessionId && !Blank(calls[p].sessionId)
    && SessionKey(calls[p].identity) != SessionKey(calls[q].identity)
  }

  lemma BothReachBindWrite(calls: map<nat, Request>, p: nat, q: nat) returns (es: seq<Event>)
    requires Disagree(calls, p, q)
    ensures Feasible(EMPTY, es) && OnlyBegins(es, calls)
    ensures var m := After(EMPTY, es); AtBindWrite(m, p, calls[p]) && AtBindWrite(m, q, calls[q]) && "z" !in m.issued
  {
    var a, b := calls[p], calls[q];
    RunPrologue(EMPTY, p, a, "x");
    var m1 := After(EMPTY, Prologue(a, p, "x"));
    RunPrologue(m1, q, b, "y");
    RunAppend(EMPTY, Prologue(a, p, "x"), Prologue(b, q, "y"));
    es := Prologue(a, p, "x") + Prologue(b, q, "y");
  }

  lemma LastTwo(es: seq<Event>, e: Event, f: Event, ext: string)
    requires Feasible(EMPTY, es) && Enabled(After(EMPTY, es), e) && Enabled(Next(After(EMPTY, es), e), f)
    requires var before := Next(After(EMPTY, es), e);
             ext in before.store.aliases && !(ext in Next(before, f).store.aliases &&
                                              Next(before, f).store.aliases[ext] == before.store.aliases[ext])
    ensures Moved(es + [e] + [f], ext)
  {
    var m2 := After(EMPTY, es);
    RunOne(m2, e);
    RunAppend(EMPTY, es, [e]);
    RunOne(Next(m2, e), f);
    RunAppend(EMPTY, es + [e], [f]);
    var all := es + [e] + [f];
    assert all[..|all| - 1] == es + [e];
  }

  /** Checking an alias and writing it are two statements: two calls that disagree
      may both pass the check, and the second then moves the alias of the first. */
  lemma DisagreementMovesAlias(calls: map<nat, Request>, p: nat, q: nat)
    requires Disagree(calls, p, q)
    ensures exists es :: OnlyBegins(es, calls) && Moved(es, calls[p].sessionId)
  {
    var es := BothReachBindWrite(calls, p, q);
    var m2 := After(EMPTY, es);
    WriteAliasStep(m2, p, calls[p]);
    WriteAliasStep(Next(m2, Step(p, "z")), q, calls[q]);
    LastTwo(es, Step(p, "z"), Step(q, "z"), calls[p].sessionId);
    assert OnlyBegins(es + [Step(p, "z")] + [Step(q, "z")], calls);
  }

  /** The session that the calls give to an external id. */
  ghost function NameFor(calls: map<nat, Request>, ext: string): string {
    if exists p :: p in calls && calls[p].sessionId == ext then
      var p :| p in calls && calls[p].sessionId == ext;
      SessionKey(calls[p].identity)
    else ""
  }

  lemma AllAgree(calls: map<nat, Request>, p: nat)
    requires p in calls && forall p, q :: !Disagree(calls, p, q)
    ensures Agreed(ext => NameFor(calls, ext), calls[p])
  {
    var ext := calls[p].sessionId;
    var q :| q in calls && calls[q].sessionId == ext && NameFor(calls, ext) == SessionKey(calls[q].identity);
    assert !Disagree(calls, p, q);
  }

  lemma AgreementKeepsAlias(calls: map<nat, Request>, es: seq<Event>, ext: string)
    requires OnlyBegins(es, calls) && forall p, q :: !Disagree(calls, p, q)
    ensures !Moved(es, ext)
  {
    if Moved(es, ext) {
      var names := ext => NameFor(calls, ext);
      var before, last := es[..|es| - 1], es[|es| - 1];
      forall i | 0 <= i < |es| && es[i].Begin? ensures Agreed(names, es[i].req) {
        AllAgree(calls, es[i].p);
      }
      AgreedAliasesStay(names, EMPTY, before);
      FeasibleLast(EMPTY, before, last, es);
      StepAgrees(names, After(EMPTY, before), last);
    }
  }

  lemma {:induction false} FeasibleLast(m: Machine, before: seq<Event>, last: Event, es: seq<Event>)
    requires es == before + [last] && Feasible(m, es) && Feasible(m, before)
    ensures Enabled(After(m, before), last) && After(m, es) == Next(After(m, before), last)
    decreases |es|
  {
    if before != [] {
      assert es[1..] == before[1..] + [last];
      FeasibleLast(Next(m, before[0]), before[1..], last, es[1..]);
    }
  }

  /** Some interleaving of the calls moves an alias exactly when two of them give
      one external id to different sessions. */
  lemma AliasMovesExactly(calls: map<nat, Request>)
    ensures (exists es, ext :: OnlyBegins(es, calls) && Moved(es, ext)) <==> (exists p, q :: Disagree(calls, p, q))
  {
    if exists p, q :: Disagree(calls, p, q) {
      var p, q :| Disagree(calls, p, q);
      DisagreementMovesAlias(calls, p, q);
    } else {
      forall es, ext | OnlyBegins(es, calls) ensures !Moved(es, ext) {
        AgreementKeepsAlias(calls, es, ext);
      }
    }
  }
}
