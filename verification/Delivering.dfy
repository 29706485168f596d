/** A relay that is left alone gets an event through: the steps from claim to delivery. */
module Delivering {
  import opened Types
  import opened Keys
  import opened Store
  import opened Outbox
  import opened Relay
  import opened Fencing
  import opened Node
  import opened Cluster
  import opened ClusterProofs
  import opened Runs

  function Last(r: Run): Sys
    requires |r.states| > 0
  {
    r.states[|r.states| - 1]
  }

  /** The relay stands here, and the tables, views and processes are as listed. */
  predicate Stands(s: Sys, n: Id, relay: Relaying, db: Db, views: map<Id, set<Id>>, nodes: set<Id>) {
    n in s.relays && s.relays[n] == relay && s.db == db && s.views == views && s.nodes.Keys == nodes
  }

  lemma ClaimStep(cfg: Config, s: Sys, n: Id, id: nat, locked: set<nat>)
    requires n in s.relays && s.relays[n].Idle? && ClaimWins(s.db, Claim(id, LEASE, locked))
    ensures SysEnabled(s, RelayClaim(n, id, locked))
    ensures var row := s.db.queue[id];
      Stands(SysNext(cfg, s, RelayClaim(n, id, locked)), n, Claimed(Event(id, row.key, row.version, row.attempts + 1)),
             ClaimRow(s.db, id, LEASE), s.views, s.nodes.Keys)
  {
    hide ClaimWins;
  }

  lemma AnnounceStep(cfg: Config, s: Sys, n: Id, e: Event)
    requires n in s.relays && s.relays[n] == Claimed(e) && n in s.nodes && KeyOk(e.key)
    ensures SysEnabled(s, RelayAnnounce(n))
    ensures Stands(SysNext(cfg, s, RelayAnnounce(n)), n, Announced(e), s.db, s.views, s.nodes.Keys)
  {
    hide Next, KeyOk;
  }

  lemma CaptureStep(cfg: Config, s: Sys, n: Id, e: Event)
    requires n in s.relays && s.relays[n] == Announced(e) && n in s.views
    ensures SysEnabled(s, RelayCapture(n))
    ensures Stands(SysNext(cfg, s, RelayCapture(n)), n, Sending(e, s.views[n], {}, {}), s.db, s.views, s.nodes.Keys)
  {
  }

  lemma HandleStep(cfg: Config, s: Sys, n: Id, m: Id, e: Event, ms: set<Id>, handled: set<Id>, acked: set<Id>)
    requires n in s.relays && s.relays[n] == Sending(e, ms, handled, acked) && m in ms && m != n && m in s.nodes
    requires KeyOk(e.key)
    ensures SysEnabled(s, RelayHandle(n, m))
    ensures Stands(SysNext(cfg, s, RelayHandle(n, m)), n, Sending(e, ms, handled + {m}, acked),
                   s.db, s.views, s.nodes.Keys)
  {
    hide Next, KeyOk;
  }

  lemma AckStep(cfg: Config, s: Sys, n: Id, m: Id, e: Event, ms: set<Id>, handled: set<Id>, acked: set<Id>)
    requires n in s.relays && s.relays[n] == Sending(e, ms, handled, acked) && m in handled
    ensures SysEnabled(s, RelayAck(n, m))
    ensures Stands(SysNext(cfg, s, RelayAck(n, m)), n, Sending(e, ms, handled, acked + {m}),
                   s.db, s.views, s.nodes.Keys)
  {
  }

  /** The members still to be told, one after the other. */
  lemma {:induction false} TellAll(cfg: Config, r: Run, n: Id, e: Event, ms: set<Id>, told: set<Id>, rest: set<Id>)
    returns (q: Run)
    requires IsRun(cfg, r) && KeyOk(e.key) && n in Last(r).relays && Last(r).relays[n] == Sending(e, ms, told, told)
    requires rest <= ms && n !in rest && rest <= Last(r).nodes.Keys
    ensures IsRun(cfg, q) && r.states <= q.states && r.labels <= q.labels
    ensures Stands(Last(q), n, Sending(e, ms, told + rest, told + rest), Last(r).db, Last(r).views, Last(r).nodes.Keys)
    decreases rest
  {
    hide SysNext, SysEnabled, KeyOk;
    if rest == {} {
      q := r;
      assert told + rest == told;
    } else {
      var m :| m in rest;
      HandleStep(cfg, Last(r), n, m, e, ms, told, told);
      ExtendIsRun(cfg, r, RelayHandle(n, m));
      var a := Extend(cfg, r, RelayHandle(n, m));
      AckStep(cfg, Last(a), n, m, e, ms, told + {m}, told);
      ExtendIsRun(cfg, a, RelayAck(n, m));
      var b := Extend(cfg, a, RelayAck(n, m));
      q := TellAll(cfg, b, n, e, ms, told + {m}, rest - {m});
      assert told + {m} + (rest - {m}) == told + rest;
    }
  }

  /** Conclude and finish while the lease still runs: the row is delivered and the ledger says by whom. */
  lemma FinishStep(cfg: Config, s: Sys, n: Id, e: Event, ms: set<Id>, told: set<Id>)
    requires n in s.relays && s.relays[n] == Sending(e, ms, told, told) && ms != {} && ms - {n} <= told
    requires e.id > 0 && e.attempt > 0 && e.id in s.db.queue && s.db.queue[e.id].attempts == e.attempt
    requires s.db.queue[e.id].delivered.None?
    requires s.db.queue[e.id].leased.Some? && s.db.queue[e.id].leased.value > s.db.clock
    ensures SysEnabled(s, RelayConclude(n, true))
    ensures var t := SysNext(cfg, s, RelayConclude(n, true));
      && SysEnabled(t, RelayFinish(n))
      && var u := SysNext(cfg, t, RelayFinish(n));
         && n in u.relays && u.relays[n].Idle? && e.id in u.db.queue
         && u.db.queue[e.id] == s.db.queue[e.id].(delivered := Some(s.db.clock), leased := None)
         && e.id in u.ledger && u.ledger[e.id] == Delivery(e.key, e.version, n, ms)
  {
    hide Execute, ClaimWins, PurgeWins;
  }

  /** The relay has claimed the event, told its own cache and captured its view. */
  lemma ClaimAndCapture(cfg: Config, r: Run, n: Id, id: nat, locked: set<nat>) returns (q: Run, e: Event)
    requires IsRun(cfg, r)
    requires var s := Last(r);
      && n in s.nodes && n in s.relays && s.relays[n].Idle? && n in s.views
      && ClaimWins(s.db, Claim(id, LEASE, locked)) && KeyOk(s.db.queue[id].key)
    ensures IsRun(cfg, q) && r.states <= q.states && r.labels <= q.labels
    ensures var s := Last(r);
      && e == Event(id, s.db.queue[id].key, s.db.queue[id].version, s.db.queue[id].attempts + 1)
      && Stands(Last(q), n, Sending(e, s.views[n], {}, {}), ClaimRow(s.db, id, LEASE), s.views, s.nodes.Keys)
  {
    hide SysNext, SysEnabled, KeyOk, ClaimRow;
    var s := Last(r);
    var row := s.db.queue[id];
    e := Event(id, row.key, row.version, row.attempts + 1);
    ClaimStep(cfg, s, n, id, locked);
    ExtendIsRun(cfg, r, RelayClaim(n, id, locked));
    var a := Extend(cfg, r, RelayClaim(n, id, locked));
    AnnounceStep(cfg, Last(a), n, e);
    ExtendIsRun(cfg, a, RelayAnnounce(n));
    var b := Extend(cfg, a, RelayAnnounce(n));
    CaptureStep(cfg, Last(b), n, e);
    ExtendIsRun(cfg, b, RelayCapture(n));
    q := Extend(cfg, b, RelayCapture(n));
  }

  /**
   * From any consistent state in which a relay is idle and knows a non-empty view of running processes,
   * every event that a claim would take can be delivered: there is a run that ends with the row marked
   * delivered at that time and the whole view on record.
   */
  lemma EventCanBeDelivered(cfg: Config, r: Run, n: Id, id: nat, locked: set<nat>) returns (q: Run)
    requires IsRun(cfg, r) && SysOk(cfg, Last(r))
    requires var s := Last(r);
      && n in s.nodes && n in s.relays && s.relays[n].Idle? && n in s.views && s.views[n] != {}
      && s.views[n] - {n} <= s.nodes.Keys && ClaimWins(s.db, Claim(id, LEASE, locked)) && KeyOk(s.db.queue[id].key)
    ensures IsRun(cfg, q) && r.states <= q.states && r.labels <= q.labels
    ensures var s, t := Last(r), Last(q);
      && id in t.db.queue && t.db.queue[id].delivered == Some(s.db.clock) && t.db.queue[id].leased.None?
      && id in t.ledger && t.ledger[id] == Delivery(s.db.queue[id].key, s.db.queue[id].version, n, s.views[n])
  {
    hide SysNext, SysEnabled, KeyOk, NodesOk, RelaysOk, LateOk, Accounted, RowsOk, EventsOk;
    var ms := Last(r).views[n];
    var a, e := ClaimAndCapture(cfg, r, n, id, locked);
    var b := TellAll(cfg, a, n, e, ms, {}, ms - {n});
    FinishStep(cfg, Last(b), n, e, ms, {} + (ms - {n}));
    ExtendIsRun(cfg, b, RelayConclude(n, true));
    var c := Extend(cfg, b, RelayConclude(n, true));
    ExtendIsRun(cfg, c, RelayFinish(n));
    q := Extend(cfg, c, RelayFinish(n));
  }
}
