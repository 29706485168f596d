/**
 * The whole system: the store with its outbox, any number of cache processes with their own
 * membership views, and one relay per process that claims, broadcasts and finishes events.
 * Processes stop and restart at any point, responses get lost, views change at any time, and a
 * statement whose caller stopped waiting may still commit later (`late`).
 *
 * `ledger` is a history variable: which captured snapshot justified finishing an event.
 */
module Cluster {
  import opened Types
  import opened Keys
  import opened Store
  import opened Outbox
  import opened Relay
  import opened Fencing
  import opened Node

  type Id = Text

  datatype Relaying =
    | Idle
    | Claimed(e: Event)
    | Announced(e: Event)                                                      // own cache invalidated
    | Sending(e: Event, members: set<Id>, handled: set<Id>, acked: set<Id>)    // snapshot captured
    | Sent(e: Event, members: set<Id>, ok: bool)

  /** The completion a relay asks the store for after sending. */
  datatype Order = Order(sender: Id, e: Event, members: set<Id>, ok: bool)

  datatype Delivery = Delivery(key: Key, version: nat, sender: Id, members: set<Id>)

  datatype Sys = Sys(
    db: Db, nodes: map<Id, Node>, relays: map<Id, Relaying>, views: map<Id, set<Id>>,
    late: set<Order>, ledger: map<nat, Delivery>)

  datatype Label =
    | StoreStep(op: DbOp)
    | NodeStep(n: Id, step: NodeOp)
    | Discover(n: Id, members: set<Id>)
    | RelayClaim(n: Id, id: nat, locked: set<nat>)
    | RelayAnnounce(n: Id)
    | RelayCapture(n: Id)
    | RelayHandle(n: Id, m: Id)
    | RelayAck(n: Id, m: Id)
    | RelayConclude(n: Id, ok: bool)
    | RelayFinish(n: Id)
    | RelayTimeout(n: Id)
    | LateFinish(o: Order)
    | RelayDrop(n: Id)
    | ProcessRestart(n: Id)

  predicate Initial(s: Sys) {
    && s.db == EmptyDb
    && s.relays.Keys == s.nodes.Keys && s.views.Keys == s.nodes.Keys
    && (forall n :: n in s.nodes ==> s.nodes[n] == NewNode() && s.relays[n] == Idle)
    && s.late == {} && s.ledger == map[]
  }

  /** Every snapshot member other than the sender acknowledged, and the snapshot is not empty. */
  predicate Complete(n: Id, r: Relaying) {
    r.Sending? && r.members != {} && r.members - {n} <= r.acked
  }

  predicate SysEnabled(s: Sys, a: Label) {
    match a
    case StoreStep(op) => !op.Finish?
    case NodeStep(n, op) => n in s.nodes && !op.Restart? && Enabled(s.db, s.nodes[n], op)
    case Discover(n, _) => n in s.views
    case RelayClaim(n, id, locked) =>
      n in s.relays && s.relays[n].Idle? && ClaimWins(s.db, Claim(id, LEASE, locked))
    case RelayAnnounce(n) => n in s.relays && n in s.nodes && s.relays[n].Claimed? && KeyOk(s.relays[n].e.key)
    case RelayCapture(n) => n in s.relays && n in s.views && s.relays[n].Announced?
    case RelayHandle(n, m) =>
      n in s.relays && s.relays[n].Sending? && m in s.relays[n].members && m != n && m in s.nodes
      && KeyOk(s.relays[n].e.key)
    case RelayAck(n, m) => n in s.relays && s.relays[n].Sending? && m in s.relays[n].handled
    case RelayConclude(n, ok) =>
      n in s.relays && (s.relays[n].Claimed? || s.relays[n].Announced? || s.relays[n].Sending?)
      && (ok ==> Complete(n, s.relays[n]))
    case RelayFinish(n) => n in s.relays && s.relays[n].Sent?
    case RelayTimeout(n) => n in s.relays && s.relays[n].Sent?
    case LateFinish(o) => o in s.late
    case RelayDrop(n) => n in s.relays
    case ProcessRestart(n) => n in s.nodes && n in s.relays
  }

  function UpdateNode(cfg: Config, s: Sys, n: Id, op: NodeOp): Sys
    requires n in s.nodes && Enabled(s.db, s.nodes[n], op)
  {
    s.(nodes := s.nodes[n := Next(cfg, s.db, s.nodes[n], op)])
  }

  function SetRelay(s: Sys, n: Id, r: Relaying): Sys {
    s.(relays := s.relays[n := r])
  }

  function ClaimEvent(s: Sys, n: Id, id: nat): Sys
    requires id in s.db.queue
  {
    var row := s.db.queue[id];
    SetRelay(s.(db := ClaimRow(s.db, id, LEASE)), n, Claimed(Event(id, row.key, row.version, row.attempts + 1)))
  }

  function Completion(e: Event, ok: bool): DbOp {
    Finish(e.id, e.attempt, ok, RetryDelay(e.attempt))
  }

  function Ordered(n: Id, r: Relaying): Order
    requires r.Sent?
  {
    Order(n, r.e, r.members, r.ok)
  }

  /** Finish; a lost lease affects no row and records nothing. */
  function Fulfil(s: Sys, o: Order): Sys {
    var op := Completion(o.e, o.ok);
    s.(db := Step(s.db, op),
       ledger := if o.ok && FinishWins(s.db, op)
                 then s.ledger[o.e.id := Delivery(o.e.key, o.e.version, o.sender, o.members)]
                 else s.ledger)
  }

  function AfterHandle(r: Relaying, m: Id): Relaying
    requires r.Sending?
  {
    r.(handled := r.handled + {m})
  }

  function AfterAck(r: Relaying, m: Id): Relaying
    requires r.Sending?
  {
    r.(acked := r.acked + {m})
  }

  function Concluded(r: Relaying, ok: bool): Relaying
    requires !r.Idle?
  {
    Sent(r.e, if r.Sending? then r.members else {}, ok)
  }

  function SysNext(cfg: Config, s: Sys, a: Label): Sys
    requires SysEnabled(s, a)
  {
    match a
    case StoreStep(op) => s.(db := Step(s.db, op))
    case NodeStep(n, op) => UpdateNode(cfg, s, n, op)
    case Discover(n, members) => s.(views := s.views[n := members])
    case RelayClaim(n, id, _) => ClaimEvent(s, n, id)
    case RelayAnnounce(n) =>
      SetRelay(UpdateNode(cfg, s, n, Notify(s.relays[n].e.key, s.relays[n].e.version)), n, Announced(s.relays[n].e))
    case RelayCapture(n) => SetRelay(s, n, Sending(s.relays[n].e, s.views[n], {}, {}))
    case RelayHandle(n, m) =>
      SetRelay(UpdateNode(cfg, s, m, Notify(s.relays[n].e.key, s.relays[n].e.version)), n, AfterHandle(s.relays[n], m))
    case RelayAck(n, m) => SetRelay(s, n, AfterAck(s.relays[n], m))
    case RelayConclude(n, ok) => SetRelay(s, n, Concluded(s.relays[n], ok))
    case RelayFinish(n) => Fulfil(SetRelay(s, n, Idle), Ordered(n, s.relays[n]))
    case RelayTimeout(n) => SetRelay(s, n, Idle).(late := s.late + {Ordered(n, s.relays[n])})
    case LateFinish(o) => Fulfil(s.(late := s.late - {o}), o)
    case RelayDrop(n) => SetRelay(s, n, Idle)
    case ProcessRestart(n) => SetRelay(UpdateNode(cfg, s, n, Restart), n, Idle)
  }

  // ---- Invariant ----

  predicate EventOk(db: Db, e: Event) {
    1 <= e.id <= |db.journal| && db.journal[e.id - 1] == Notice(e.key, e.version)
  }

  /** Process m has handled a notification of at least this version of the key. */
  predicate Reached(s: Sys, m: Id, key: Key, version: nat) {
    m in s.nodes && Notified(s.nodes[m], key) >= version
  }

  /** Process n holds no entry for the key older than this version. */
  predicate HoldsAtLeast(s: Sys, n: Id, key: Key, version: nat) {
    n in s.nodes && (key in s.nodes[n].local.resident ==> s.nodes[n].local.resident[key].version >= version)
  }

  predicate AllReached(s: Sys, ms: set<Id>, key: Key, version: nat) {
    forall m :: m in ms ==> Reached(s, m, key, version)
  }

  predicate RelayOk(s: Sys, n: Id, r: Relaying) {
    match r
    case Idle => true
    case Claimed(e) => EventOk(s.db, e)
    case Announced(e) => EventOk(s.db, e) && Reached(s, n, e.key, e.version)
    case Sending(e, members, handled, acked) =>
      EventOk(s.db, e) && Reached(s, n, e.key, e.version) && AllReached(s, handled + acked, e.key, e.version)
    case Sent(_, _, _) => OrderOk(s, Ordered(n, r))
  }

  predicate OrderOk(s: Sys, o: Order) {
    EventOk(s.db, o.e) &&
    (o.ok ==>
      o.members != {} && Reached(s, o.sender, o.e.key, o.e.version) && AllReached(s, o.members, o.e.key, o.e.version))
  }

  predicate LedgerOk(s: Sys, id: nat, d: Delivery) {
    && 1 <= id <= |s.db.journal| && s.db.journal[id - 1] == Notice(d.key, d.version)
    && d.members != {}
    && Reached(s, d.sender, d.key, d.version) && AllReached(s, d.members, d.key, d.version)
  }

  predicate Pending(db: Db, id: nat) {
    id in db.queue && db.queue[id].delivered.None?
  }

  predicate NodesOk(cfg: Config, s: Sys) {
    forall n :: n in s.nodes ==> NodeOk(cfg, s.db, s.nodes[n])
  }

  predicate RelaysOk(s: Sys) {
    forall n :: n in s.relays ==> RelayOk(s, n, s.relays[n])
  }

  predicate LateOk(s: Sys) {
    forall o :: o in s.late ==> OrderOk(s, o)
  }

  predicate Accounted(s: Sys) {
    && (forall id :: id in s.ledger ==> LedgerOk(s, id, s.ledger[id]))
    && (forall id :: 1 <= id <= |s.db.journal| ==> (id in s.ledger <==> !Pending(s.db, id)))
  }

  ghost predicate SysOk(cfg: Config, s: Sys) {
    DbOk(s.db) && NodesOk(cfg, s) && RelaysOk(s) && LateOk(s) && Accounted(s)
  }

  /** What can only move forward: processes, events, and how far each process was notified. */
  ghost predicate Progress(s: Sys, s': Sys) {
    && s'.nodes.Keys == s.nodes.Keys
    && s.db.journal <= s'.db.journal
    && (forall m, k :: m in s.nodes ==> Notified(s.nodes[m], k) <= Notified(s'.nodes[m], k))
  }
}
