/** Every step of the system keeps the invariant of module Cluster, and so does every run. */
module ClusterProofs {
  import opened Types
  import opened Keys
  import opened Store
  import opened Outbox
  import opened Relay
  import opened Fencing
  import opened Node
  import opened NodeProofs
  import opened Cluster

  // ---- Facts that survive progress ----

  lemma ReachedKept(s: Sys, s': Sys, ms: set<Id>, key: Key, version: nat)
    requires Progress(s, s') && AllReached(s, ms, key, version)
    ensures AllReached(s', ms, key, version)
  {
    forall m | m in ms ensures Reached(s', m, key, version) {
      assert Reached(s, m, key, version);
    }
  }

  lemma RelayKept(s: Sys, s': Sys, n: Id, r: Relaying)
    requires Progress(s, s') && RelayOk(s, n, r)
    ensures RelayOk(s', n, r)
  {
    match r
    case Idle =>
    case Claimed(e) =>
    case Announced(e) =>
    case Sending(e, members, handled, acked) => ReachedKept(s, s', handled + acked, e.key, e.version);
    case Sent(_, _, _) => OrderKept(s, s', Ordered(n, r));
  }

  lemma OrderKept(s: Sys, s': Sys, o: Order)
    requires Progress(s, s') && OrderOk(s, o)
    ensures OrderOk(s', o)
  {
    if o.ok { ReachedKept(s, s', o.members, o.e.key, o.e.version); }
  }

  lemma LateKept(s: Sys, s': Sys)
    requires LateOk(s) && Progress(s, s') && s'.late <= s.late
    ensures LateOk(s')
  {
    forall o | o in s'.late ensures OrderOk(s', o) {
      OrderKept(s, s', o);
    }
  }

  lemma LedgerKept(s: Sys, s': Sys, id: nat, d: Delivery)
    requires Progress(s, s') && LedgerOk(s, id, d)
    ensures LedgerOk(s', id, d)
  {
    ReachedKept(s, s', d.members, d.key, d.version);
  }

  /** Relays other than n, and the ledger, are unaffected by whatever made progress. */
  lemma RelaysKept(s: Sys, s': Sys, n: Id)
    requires RelaysOk(s) && Progress(s, s') && s'.relays.Keys <= s.relays.Keys + {n}
    requires forall m :: m in s'.relays && m != n ==> s'.relays[m] == s.relays[m]
    requires n in s'.relays ==> RelayOk(s', n, s'.relays[n])
    ensures RelaysOk(s')
  {
    forall m | m in s'.relays && m != n ensures RelayOk(s', m, s'.relays[m]) {
      RelayKept(s, s', m, s.relays[m]);
    }
  }

  lemma AccountKept(s: Sys, s': Sys)
    requires Accounted(s) && Progress(s, s') && s'.ledger == s.ledger && |s'.db.journal| == |s.db.journal|
    requires forall id :: 1 <= id <= |s.db.journal| ==> (Pending(s.db, id) <==> Pending(s'.db, id))
    ensures Accounted(s')
  {
    forall id | id in s'.ledger ensures LedgerOk(s', id, s'.ledger[id]) {
      LedgerKept(s, s', id, s.ledger[id]);
    }
  }

  // ---- One process moves ----

  lemma NodeProgress(cfg: Config, s: Sys, n: Id, op: NodeOp)
    requires n in s.nodes && Enabled(s.db, s.nodes[n], op)
    ensures Progress(s, UpdateNode(cfg, s, n, op))
  {
    hide Invalidate, Horizon, Promise, FillFlight, ReadFlight, LookupFlight, RebarrierFlight, FlightKey;
  }

  /** A process step leaves store, ledger and all other processes as they were. */
  lemma UpdateNodeKeeps(cfg: Config, s: Sys, n: Id, op: NodeOp)
    requires SysOk(cfg, s) && n in s.nodes && Enabled(s.db, s.nodes[n], op)
    ensures SysOk(cfg, UpdateNode(cfg, s, n, op)) && Progress(s, UpdateNode(cfg, s, n, op))
  {
    hide NodeOk, RowsOk, EventsOk;
    var s' := UpdateNode(cfg, s, n, op);
    NodeProgress(cfg, s, n, op);
    NodeStepKeeps(cfg, s.db, s.nodes[n], op);
    forall m | m in s'.relays ensures RelayOk(s', m, s'.relays[m]) {
      RelayKept(s, s', m, s.relays[m]);
    }
    LateKept(s, s');
    AccountKept(s, s');
  }

  /** An event's notification is always within the horizon, so handling it counts. */
  lemma NotifyReaches(cfg: Config, s: Sys, m: Id, e: Event)
    requires SysOk(cfg, s) && m in s.nodes && EventOk(s.db, e) && KeyOk(e.key)
    ensures Reached(UpdateNode(cfg, s, m, Notify(e.key, e.version)), m, e.key, e.version)
  {
    NoticeCommitted(s.db, e.id);
  }

  lemma SetRelayKeeps(cfg: Config, s: Sys, n: Id, r: Relaying)
    requires SysOk(cfg, s) && RelayOk(s, n, r)
    ensures SysOk(cfg, SetRelay(s, n, r)) && Progress(s, SetRelay(s, n, r))
  {
    hide NodeOk, RowsOk, EventsOk;
    var s' := SetRelay(s, n, r);
    assert RelayOk(s', n, r) by { RelayKept(s, s', n, r); }
    RelaysKept(s, s', n);
    LateKept(s, s');
    AccountKept(s, s');
  }

  // ---- The store moves ----

  lemma NodesGrow(cfg: Config, s: Sys, s': Sys)
    requires NodesOk(cfg, s) && s'.nodes == s.nodes && Grows(s.db, s'.db)
    ensures NodesOk(cfg, s')
  {
    forall n | n in s'.nodes ensures NodeOk(cfg, s'.db, s'.nodes[n]) {
      StoreGrowthKeeps(cfg, s.db, s'.db, s.nodes[n]);
    }
  }

  /** Inserted events are pending; only completions change what is pending, and purging nothing. */
  lemma StorePending(db: Db, op: DbOp)
    requires QueueOk(db) && !op.Finish?
    ensures forall id :: 1 <= id <= |db.journal| ==> (Pending(Step(db, op), id) <==> Pending(db, id))
    ensures forall id :: |db.journal| < id <= |Step(db, op).journal| ==> Pending(Step(db, op), id)
  {
    forall id | 1 <= id <= |db.journal| ensures Pending(Step(db, op), id) <==> Pending(db, id) {
      if id in db.queue {
        StepEvolves(db, op, id);
      } else {
        GoneStaysGone(db, op, id);
      }
    }
  }

  lemma StoreStepKeeps(cfg: Config, s: Sys, op: DbOp)
    requires SysOk(cfg, s) && !op.Finish?
    ensures SysOk(cfg, s.(db := Step(s.db, op))) && Progress(s, s.(db := Step(s.db, op)))
  {
    hide NodeOk, RowsOk, EventsOk;
    var s' := s.(db := Step(s.db, op));
    StepKeeps(s.db, op);
    NodesGrow(cfg, s, s');
    StorePending(s.db, op);
    forall m | m in s'.relays ensures RelayOk(s', m, s'.relays[m]) {
      RelayKept(s, s', m, s.relays[m]);
    }
    LateKept(s, s');
    forall id | id in s'.ledger ensures LedgerOk(s', id, s'.ledger[id]) {
      LedgerKept(s, s', id, s.ledger[id]);
    }
  }

  lemma ClaimedOk(s: Sys, n: Id, id: nat, locked: set<nat>)
    requires QueueOk(s.db) && ClaimWins(s.db, Claim(id, LEASE, locked))
    ensures var row := s.db.queue[id];
      RelayOk(s.(db := Step(s.db, Claim(id, LEASE, locked))), n,
              Claimed(Event(id, row.key, row.version, row.attempts + 1)))
  {
  }

  lemma ClaimKeeps(cfg: Config, s: Sys, n: Id, id: nat, locked: set<nat>)
    requires SysOk(cfg, s) && SysEnabled(s, RelayClaim(n, id, locked))
    ensures SysOk(cfg, ClaimEvent(s, n, id)) && Progress(s, ClaimEvent(s, n, id))
  {
    hide NodeOk, RowsOk, EventsOk, QueueOk, RelayOk, LedgerOk, Pending;
    var op := Claim(id, LEASE, locked);
    StoreStepKeeps(cfg, s, op);
    ClaimedOk(s, n, id, locked);
    var m := s.(db := Step(s.db, op));
    var row := s.db.queue[id];
    SetRelayKeeps(cfg, m, n, Claimed(Event(id, row.key, row.version, row.attempts + 1)));
  }

  /** Completing an event touches that row only, and a success ends its waiting. */
  lemma FinishPending(db: Db, op: DbOp)
    requires QueueOk(db) && op.Finish?
    ensures forall id :: Pending(Step(db, op), id) <==> Pending(db, id) && !(id == op.id && op.ok && FinishWins(db, op))
    ensures Step(db, op).journal == db.journal
  {
  }

  /** Fulfilling a justified order, at once or late, keeps everything consistent. */
  lemma FulfilKeeps(cfg: Config, s: Sys, o: Order)
    requires SysOk(cfg, s) && OrderOk(s, o)
    ensures SysOk(cfg, Fulfil(s, o)) && Progress(s, Fulfil(s, o))
  {
    hide NodeOk, RowsOk, EventsOk, Accounted, OrderOk;
    var s' := Fulfil(s, o);
    StepKeeps(s.db, Completion(o.e, o.ok));
    FinishPending(s.db, Completion(o.e, o.ok));
    NodesGrow(cfg, s, s');
    forall m | m in s'.relays ensures RelayOk(s', m, s'.relays[m]) {
      RelayKept(s, s', m, s.relays[m]);
    }
    LateKept(s, s');
    FinishAccounts(s, o);
  }

  lemma FinishAccounts(s: Sys, o: Order)
    requires QueueOk(s.db) && Accounted(s) && OrderOk(s, o)
    ensures Accounted(Fulfil(s, o))
  {
    var s' := Fulfil(s, o);
    FinishPending(s.db, Completion(o.e, o.ok));
    forall id | id in s'.ledger ensures LedgerOk(s', id, s'.ledger[id]) {
      if id in s.ledger && s'.ledger[id] == s.ledger[id] { LedgerKept(s, s', id, s.ledger[id]); }
      else { ReachedKept(s, s', o.members, o.e.key, o.e.version); }
    }
  }

  lemma FinishKeeps(cfg: Config, s: Sys, n: Id)
    requires SysOk(cfg, s) && SysEnabled(s, RelayFinish(n))
    ensures SysOk(cfg, SysNext(cfg, s, RelayFinish(n))) && Progress(s, SysNext(cfg, s, RelayFinish(n)))
  {
    hide NodeOk, DbOk, Accounted, Fulfil, OrderOk;
    assert RelayOk(s, n, s.relays[n]);
    SetRelayKeeps(cfg, s, n, Idle);
    OrderKept(s, SetRelay(s, n, Idle), Ordered(n, s.relays[n]));
    FulfilKeeps(cfg, SetRelay(s, n, Idle), Ordered(n, s.relays[n]));
  }

  lemma TimeoutKeeps(cfg: Config, s: Sys, n: Id)
    requires SysOk(cfg, s) && SysEnabled(s, RelayTimeout(n))
    ensures SysOk(cfg, SysNext(cfg, s, RelayTimeout(n))) && Progress(s, SysNext(cfg, s, RelayTimeout(n)))
  {
    hide NodeOk, DbOk, Accounted, OrderOk;
    var s' := SysNext(cfg, s, RelayTimeout(n));
    assert RelayOk(s, n, s.relays[n]);
    RelaysKept(s, s', n);
    forall o | o in s'.late ensures OrderOk(s', o) {
      OrderKept(s, s', o);
    }
    AccountKept(s, s');
  }

  lemma LateFinishKeeps(cfg: Config, s: Sys, o: Order)
    requires SysOk(cfg, s) && SysEnabled(s, LateFinish(o))
    ensures SysOk(cfg, SysNext(cfg, s, LateFinish(o))) && Progress(s, SysNext(cfg, s, LateFinish(o)))
  {
    hide NodeOk, DbOk, Accounted, OrderOk, Fulfil;
    var s' := s.(late := s.late - {o});
    LateKept(s, s');
    OrderKept(s, s', o);
    forall m | m in s'.relays ensures RelayOk(s', m, s'.relays[m]) {
      RelayKept(s, s', m, s.relays[m]);
    }
    AccountKept(s, s');
    FulfilKeeps(cfg, s', o);
  }

  // ---- The relay moves ----

  lemma AnnounceKeeps(cfg: Config, s: Sys, n: Id)
    requires SysOk(cfg, s) && SysEnabled(s, RelayAnnounce(n))
    ensures SysOk(cfg, SysNext(cfg, s, RelayAnnounce(n))) && Progress(s, SysNext(cfg, s, RelayAnnounce(n)))
  {
    hide NodeOk, RowsOk, EventsOk;
    var e := s.relays[n].e;
    assert RelayOk(s, n, s.relays[n]);
    UpdateNodeKeeps(cfg, s, n, Notify(e.key, e.version));
    NotifyReaches(cfg, s, n, e);
    SetRelayKeeps(cfg, UpdateNode(cfg, s, n, Notify(e.key, e.version)), n, Announced(e));
  }

  lemma HandledReached(s: Sys, n: Id, r: Relaying, m: Id)
    requires r.Sending? && RelayOk(s, n, r) && Reached(s, m, r.e.key, r.e.version)
    ensures RelayOk(s, n, AfterHandle(r, m))
  {
  }

  lemma HandleKeeps(cfg: Config, s: Sys, n: Id, m: Id)
    requires SysOk(cfg, s) && SysEnabled(s, RelayHandle(n, m))
    ensures SysOk(cfg, SysNext(cfg, s, RelayHandle(n, m))) && Progress(s, SysNext(cfg, s, RelayHandle(n, m)))
  {
    hide NodeOk, RowsOk, EventsOk, QueueOk;
    var r := s.relays[n];
    assert RelayOk(s, n, r);
    var u := UpdateNode(cfg, s, m, Notify(r.e.key, r.e.version));
    UpdateNodeKeeps(cfg, s, m, Notify(r.e.key, r.e.version));
    NotifyReaches(cfg, s, m, r.e);
    RelayKept(s, u, n, r);
    HandledReached(u, n, r, m);
    SetRelayKeeps(cfg, u, n, AfterHandle(r, m));
  }

  lemma RelayOnlyKeeps(cfg: Config, s: Sys, a: Label)
    requires SysOk(cfg, s) && SysEnabled(s, a)
    requires a.RelayCapture? || a.RelayAck? || a.RelayConclude? || a.RelayDrop?
    ensures SysOk(cfg, SysNext(cfg, s, a)) && Progress(s, SysNext(cfg, s, a))
  {
    hide NodeOk, RowsOk, EventsOk;
    assert RelayOk(s, a.n, s.relays[a.n]);
    var s' := SysNext(cfg, s, a);
    assert s' == SetRelay(s, a.n, s'.relays[a.n]);
    SetRelayKeeps(cfg, s, a.n, s'.relays[a.n]);
  }

  lemma RestartProcessKeeps(cfg: Config, s: Sys, n: Id)
    requires SysOk(cfg, s) && SysEnabled(s, ProcessRestart(n))
    ensures SysOk(cfg, SysNext(cfg, s, ProcessRestart(n))) && Progress(s, SysNext(cfg, s, ProcessRestart(n)))
  {
    hide NodeOk, RowsOk, EventsOk;
    UpdateNodeKeeps(cfg, s, n, Restart);
    SetRelayKeeps(cfg, UpdateNode(cfg, s, n, Restart), n, Idle);
  }

  lemma DiscoverKeeps(cfg: Config, s: Sys, n: Id, members: set<Id>)
    requires SysOk(cfg, s)
    ensures var s' := s.(views := s.views[n := members]); SysOk(cfg, s') && Progress(s, s')
  {
    hide NodeOk, RowsOk, EventsOk;
    var s' := s.(views := s.views[n := members]);
    forall m | m in s'.relays ensures RelayOk(s', m, s'.relays[m]) {
      RelayKept(s, s', m, s.relays[m]);
    }
    LateKept(s, s');
    AccountKept(s, s');
  }

  /** One lemma for every step of the system. */
  lemma SysStepKeeps(cfg: Config, s: Sys, a: Label)
    requires SysOk(cfg, s) && SysEnabled(s, a)
    ensures SysOk(cfg, SysNext(cfg, s, a)) && Progress(s, SysNext(cfg, s, a))
  {
    hide SysOk, Progress;
    match a
    case StoreStep(op) => StoreStepKeeps(cfg, s, op);
    case NodeStep(n, op) => UpdateNodeKeeps(cfg, s, n, op);
    case Discover(n, members) => DiscoverKeeps(cfg, s, n, members);
    case RelayClaim(n, id, locked) => ClaimKeeps(cfg, s, n, id, locked);
    case RelayAnnounce(n) => AnnounceKeeps(cfg, s, n);
    case RelayCapture(_) => RelayOnlyKeeps(cfg, s, a);
    case RelayHandle(n, m) => HandleKeeps(cfg, s, n, m);
    case RelayAck(_, _) => RelayOnlyKeeps(cfg, s, a);
    case RelayConclude(_, _) => RelayOnlyKeeps(cfg, s, a);
    case RelayFinish(n) => FinishKeeps(cfg, s, n);
    case RelayTimeout(n) => TimeoutKeeps(cfg, s, n);
    case LateFinish(o) => LateFinishKeeps(cfg, s, o);
    case RelayDrop(_) => RelayOnlyKeeps(cfg, s, a);
    case ProcessRestart(n) => RestartProcessKeeps(cfg, s, n);
  }

  lemma InitialOk(cfg: Config, s: Sys)
    requires Initial(s)
    ensures SysOk(cfg, s)
  {
    forall n | n in s.nodes ensures NodeOk(cfg, s.db, s.nodes[n]) {
      assert s.nodes[n] == NewNode();
    }
    forall n | n in s.relays ensures RelayOk(s, n, s.relays[n]) {
      assert n in s.nodes;
    }
  }

  // ---- Runs ----

  datatype Run = Run(states: seq<Sys>, labels: seq<Label>)

  ghost predicate IsRun(cfg: Config, r: Run) {
    && |r.states| == |r.labels| + 1
    && forall i :: 0 <= i < |r.labels| ==>
         SysEnabled(r.states[i], r.labels[i]) && r.states[i + 1] == SysNext(cfg, r.states[i], r.labels[i])
  }

  lemma {:induction false} RunOk(cfg: Config, r: Run, i: nat)
    requires IsRun(cfg, r) && SysOk(cfg, r.states[0]) && i < |r.states|
    ensures SysOk(cfg, r.states[i])
  {
    hide SysOk, SysNext, SysEnabled;
    if i > 0 {
      RunOk(cfg, r, i - 1);
      SysStepKeeps(cfg, r.states[i - 1], r.labels[i - 1]);
    }
  }

  lemma {:induction false} RunProgress(cfg: Config, r: Run, i: nat, j: nat)
    requires IsRun(cfg, r) && SysOk(cfg, r.states[0]) && i <= j < |r.states|
    ensures Progress(r.states[i], r.states[j])
    decreases j
  {
    hide SysOk, SysNext, SysEnabled;
    if i < j {
      RunProgress(cfg, r, i, j - 1);
      RunOk(cfg, r, j - 1);
      SysStepKeeps(cfg, r.states[j - 1], r.labels[j - 1]);
      ProgressTransitive(r.states[i], r.states[j - 1], r.states[j]);
    }
  }

  lemma ProgressTransitive(a: Sys, b: Sys, c: Sys)
    requires Progress(a, b) && Progress(b, c)
    ensures Progress(a, c)
  {
    forall m, k | m in a.nodes ensures Notified(a.nodes[m], k) <= Notified(c.nodes[m], k) {
      assert m in b.nodes;
      assert Notified(a.nodes[m], k) <= Notified(b.nodes[m], k) <= Notified(c.nodes[m], k);
    }
  }
}
