/** Calls of one conversation that do not overlap always go on with the id that is
    stored at that moment. */
module Exclusive {
  import opened Wrappers
  import opened SessionSpec
  import opened Retry
  import opened ExecMachine
  import opened AliasRace

  predicate Unfinished(m: Machine, p: nat) {
    p in m.execs && !Final(m.execs[p].pc)
  }

  /** No two unfinished calls are for the same conversation. */
  ghost predicate NoOverlap(m: Machine) {
    forall p, q | Unfinished(m, p) && Unfinished(m, q) && m.execs[p].req.identity == m.execs[q].req.identity :: p == q
  }

  ghost predicate NeverOverlaps(m: Machine, es: seq<Event>)
    requires Feasible(m, es)
    decreases |es|
  {
    NoOverlap(m) && (es != [] ==> NeverOverlaps(Next(m, es[0]), es[1..]))
  }

  /** The record the call carries, if any, has the id stored for its session. */
  ghost predicate CarriesStored(st: Store, x: Exec) {
    var key := SessionKey(x.req.identity);
    RecordOf(x.pc).Some? ==> key in st.sessions && st.sessions[key].claudeId == RecordOf(x.pc).value.claudeId
  }

  ghost predicate AllCarryStored(m: Machine) {
    forall p | p in m.execs :: CarriesStored(m.store, m.execs[p])
  }

  // ------------------------------------------------------------- one statement

  /** Only a rotation changes the stored id of a session. */
  lemma WritesId(st: Store, p: nat, x: Exec, now: int, uuid: string, st': Store, issue: Option<Issue>, key: string)
    requires Writes(st, p, x, now, uuid, st', issue) && key in st.sessions
    requires !(x.pc.RotateRow? && key == SessionKey(x.req.identity))
    ensures key in st'.sessions && st'.sessions[key].claudeId == st.sessions[key].claudeId
  {
  }

  lemma OwnCarriesStored(st: Store, p: nat, x: Exec, now: int, uuid: string, response: Option<Response>)
    requires CarriesStored(st, x) && (x.pc.RotateRow? ==> RowOwned(st, x.req))
    requires RecordOf(x.pc).Some? ==> RecordOf(x.pc).value.key == SessionKey(x.req.identity)
    requires var pc := Statement(st, p, x, now, uuid, response).exec.pc;
             RecordOf(pc).Some? ==> RecordOf(pc).value.key == SessionKey(x.req.identity)
    ensures var e := Statement(st, p, x, now, uuid, response); CarriesStored(e.store, e.exec)
  {
    var e := Statement(st, p, x, now, uuid, response);
    var key := SessionKey(x.req.identity);
    StatementWrites(st, p, x, now, uuid, response);
    if RecordOf(e.exec.pc).Some? {
      var id := RecordOf(e.exec.pc).value.claudeId;
      StatementRecord(st, p, x, now, uuid, response, key, id);
      if CarriesId(x.pc, key, id) {
        WritesId(st, p, x, now, uuid, e.store, e.issue, key);
      }
    }
  }

  /** A call of another conversation, even one with the same key, does not rotate this one's row. */
  lemma OtherCarriesStored(st: Store, p: nat, x: Exec, now: int, uuid: string, st': Store, issue: Option<Issue>,
                           y: Exec)
    requires Writes(st, p, x, now, uuid, st', issue) && CarriesStored(st, y)
    requires x.pc.RotateRow? ==> RowOwned(st, x.req)
    requires RecordOf(y.pc).Some? ==> RowOwned(st, y.req)
    requires RecordOf(y.pc).Some? ==> x.req.identity != y.req.identity
    ensures CarriesStored(st', y)
  {
    if RecordOf(y.pc).Some? {
      WritesId(st, p, x, now, uuid, st', issue, SessionKey(y.req.identity));
    }
  }

  lemma OwnAfter(m: Machine, e: Event)
    requires Invariant(m) && Enabled(m, e) && e.Act? && CarriesStored(m.store, m.execs[e.p])
    ensures CarriesStored(Next(m, e).store, Next(m, e).execs[e.p])
  {
    var x := m.execs[e.p];
    assert ExecOk(m.store, m.issued, e.p, x);
    StatementExec(m.store, m.issued, e.p, x, e.now, e.uuid, e.response);
    StatementWrites(m.store, e.p, x, e.now, e.uuid, e.response);
    OwnCarriesStored(m.store, e.p, x, e.now, e.uuid, e.response);
  }

  lemma RowsOwned(m: Machine, p: nat)
    requires Invariant(m) && p in m.execs
    ensures m.execs[p].pc.RotateRow? || RecordOf(m.execs[p].pc).Some? ==> RowOwned(m.store, m.execs[p].req)
  {
    assert PcOk(m.store, m.issued, p, m.execs[p].req, m.execs[p].pc);
  }

  lemma OthersDiffer(m: Machine, p: nat, q: nat)
    requires NoOverlap(m) && Unfinished(m, p) && q in m.execs && q != p
    ensures RecordOf(m.execs[q].pc).Some? ==> m.execs[p].req.identity != m.execs[q].req.identity
  {
    assert RecordOf(m.execs[q].pc).Some? ==> Unfinished(m, q);
  }

  lemma OtherAfter(m: Machine, e: Event, q: nat)
    requires Enabled(m, e) && e.Act? && q in m.execs && q != e.p && CarriesStored(m.store, m.execs[q])
    requires m.execs[e.p].pc.RotateRow? ==> RowOwned(m.store, m.execs[e.p].req)
    requires RecordOf(m.execs[q].pc).Some? ==> RowOwned(m.store, m.execs[q].req)
    requires RecordOf(m.execs[q].pc).Some? ==> m.execs[e.p].req.identity != m.execs[q].req.identity
    ensures CarriesStored(Next(m, e).store, Next(m, e).execs[q])
  {
    var x, y := m.execs[e.p], m.execs[q];
    var effect := Statement(m.store, e.p, x, e.now, e.uuid, e.response);
    StatementWrites(m.store, e.p, x, e.now, e.uuid, e.response);
    OtherCarriesStored(m.store, e.p, x, e.now, e.uuid, effect.store, effect.issue, y);
  }

  lemma StepCarriesStored(m: Machine, e: Event)
    requires Invariant(m) && Enabled(m, e) && NoOverlap(m) && AllCarryStored(m)
    ensures AllCarryStored(Next(m, e))
  {
    if e.Act? {
      OwnAfter(m, e);
      RowsOwned(m, e.p);
      forall q | q in m.execs && q != e.p ensures CarriesStored(Next(m, e).store, Next(m, e).execs[q]) {
        RowsOwned(m, q);
        OthersDiffer(m, e.p, q);
        OtherAfter(m, e, q);
      }
    }
  }

  lemma {:induction false} RunCarriesStored(m: Machine, es: seq<Event>)
    requires Invariant(m) && Feasible(m, es) && NeverOverlaps(m, es) && AllCarryStored(m)
    ensures AllCarryStored(After(m, es))
    decreases |es|
  {
    if es != [] {
      StepKeepsInvariant(m, es[0]);
      StepCarriesStored(m, es[0]);
      RunCarriesStored(Next(m, es[0]), es[1..]);
    }
  }

  /** If calls of one conversation never overlap, every launch, resumed or new, is
      made with the id that is stored for the conversation at that very moment. */
  lemma LaunchesUseStoredId(es: seq<Event>, m: Machine, p: nat)
    requires Reachable(es, m) && NeverOverlaps(EMPTY, es)
    requires p in m.execs && m.execs[p].pc.Launch?
    ensures StoredAs(m, SessionKey(m.execs[p].req.identity), m.execs[p].pc.record.claudeId)
  {
    RunCarriesStored(EMPTY, es);
    assert CarriesStored(m.store, m.execs[p]);
  }
}
