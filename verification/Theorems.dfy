/** What every run of the system guarantees, from empty tables and empty caches. */
module Theorems {
  import opened Types
  import opened Keys
  import opened Store
  import opened Outbox
  import opened Relay
  import opened Fencing
  import opened Node
  import opened NodeProofs
  import opened Cluster
  import opened ClusterProofs
  import opened Provenance
  import opened Forgetting

  ghost predicate Execution(cfg: Config, r: Run) {
    IsRun(cfg, r) && Initial(r.states[0])
  }

  lemma ExecutionOk(cfg: Config, r: Run, i: nat)
    requires Execution(cfg, r) && i < |r.states|
    ensures SysOk(cfg, r.states[0]) && SysOk(cfg, r.states[i])
  {
    InitialOk(cfg, r.states[0]);
    RunOk(cfg, r, i);
  }

  /** A step during which process n completes InvalidateVersion(key, version), from whatever origin. */
  predicate Notifies(s: Sys, a: Label, n: Id, key: Key, version: nat) {
    SysEnabled(s, a) &&
    match a
    case NodeStep(m, Notify(k, v)) => m == n && k == key && v == version
    case RelayAnnounce(m) => m == n && s.relays[m].e.key == key && s.relays[m].e.version == version
    case RelayHandle(m, x) => x == n && s.relays[m].e.key == key && s.relays[m].e.version == version
    case _ => false
  }

  /** What that notification is worth: the horizon when it is applied, else what is known up to the horizon. */
  function Promised(s: Sys, n: Id, key: Key, version: nat): (p: nat)
    requires n in s.nodes
    ensures version <= Horizon(s.db, key) ==> p >= version
    ensures Advances(s.nodes[n].local, key, version) ==> p == Horizon(s.db, key)
  {
    Promise(s.db, s.nodes[n].local, key, version)
  }

  lemma NotifiesCounts(cfg: Config, s: Sys, a: Label, n: Id, key: Key, version: nat)
    requires Notifies(s, a, n, key, version)
    ensures n in s.nodes && Reached(SysNext(cfg, s, a), n, key, Promised(s, n, key, version))
  {
    hide Invalidate, Horizon, Known, Advances;
  }

  lemma ReachedHolds(cfg: Config, s: Sys, n: Id, key: Key, version: nat)
    requires NodesOk(cfg, s) && Reached(s, n, key, version)
    ensures HoldsAtLeast(s, n, key, version)
  {
    hide LocalOk, FlightsOk, CallersOk, PairsOk, NotifiedOk, Committed;
  }

  /**
   * Once a notification has been handled, no later state of the run holds an entry older than what it
   * promised, which is at least its version when that is within the horizon, and the whole horizon when
   * it was applied or forced: not through loads, retries, evictions, other notifications, retired
   * floors, restarts, nor any interleaving of these.
   */
  lemma NeverStaleAgain(cfg: Config, r: Run, i: nat, j: nat, n: Id, key: Key, version: nat)
    requires IsRun(cfg, r) && SysOk(cfg, r.states[0]) && i < j < |r.states|
    requires Notifies(r.states[i], r.labels[i], n, key, version)
    ensures n in r.states[i].nodes
    ensures Reached(r.states[j], n, key, Promised(r.states[i], n, key, version))
    ensures HoldsAtLeast(r.states[j], n, key, Promised(r.states[i], n, key, version))
    ensures version <= Horizon(r.states[i].db, key) ==> HoldsAtLeast(r.states[j], n, key, version)
  {
    hide SysNext, DbOk, RelaysOk, LateOk, Accounted, NodeOk, Notifies, Promise;
    NotifiesCounts(cfg, r.states[i], r.labels[i], n, key, version);
    RunProgress(cfg, r, i + 1, j);
    RunOk(cfg, r, j);
    var p := Promised(r.states[i], n, key, version);
    assert Reached(r.states[i + 1], n, key, p);
    ReachedHolds(cfg, r.states[j], n, key, p);
  }

  // ---- The same guarantee, exactly ----

  /** In every continuation, the notification keeps entries below the bound out for good. */
  ghost predicate Lasting(cfg: Config, s: Sys, n: Id, key: Key, version: nat, bound: nat) {
    forall r: Run, j: nat ::
      IsRun(cfg, r) && r.states[0] == s && 0 < j < |r.states| && r.labels[0] == NodeStep(n, Notify(key, version)) ==>
        HoldsAtLeast(r.states[j], n, key, bound)
  }

  lemma PromisesLast(cfg: Config, s: Sys, n: Id, key: Key, version: nat, bound: nat)
    requires SysOk(cfg, s) && n in s.nodes && KeyOk(key) && bound <= Promised(s, n, key, version)
    ensures Lasting(cfg, s, n, key, version, bound)
  {
    hide SysNext, SysOk, Promised;
    forall r: Run, j: nat | IsRun(cfg, r) && r.states[0] == s && 0 < j < |r.states|
                            && r.labels[0] == NodeStep(n, Notify(key, version))
      ensures HoldsAtLeast(r.states[j], n, key, bound)
    {
      assert SysEnabled(r.states[0], r.labels[0]);
      NeverStaleAgain(cfg, r, 0, j, n, key, version);
    }
  }

  lemma NothingBeyondLasts(cfg: Config, s: Sys, n: Id, key: Key, version: nat, bound: nat)
    requires SysOk(cfg, s) && n in s.nodes && n in s.relays && KeyOk(key) && bound > Horizon(s.db, key)
    ensures !Lasting(cfg, s, n, key, version, bound)
  {
    hide SysOk, HoldsAtLeast;
    var r := BeyondHorizonFails(cfg, s, n, key, version, bound);
    assert !HoldsAtLeast(r.states[|r.states| - 1], n, key, bound);
  }

  /**
   * Exactly what a notification promises for good. Its own version: if and only if that does not lie
   * beyond what readers can already see, which a caller can check against the row before sending it.
   * And when it is applied or forced: every version up to the horizon and none beyond.
   */
  lemma NotificationLastsExactly(cfg: Config, s: Sys, n: Id, key: Key, version: nat, bound: nat)
    requires SysOk(cfg, s) && n in s.nodes && n in s.relays && KeyOk(key)
    ensures Lasting(cfg, s, n, key, version, version) <==> version <= Horizon(s.db, key)
    ensures Advances(s.nodes[n].local, key, version) ==>
      (Lasting(cfg, s, n, key, version, bound) <==> bound <= Horizon(s.db, key))
  {
    hide SysOk, Lasting, Advances, Horizon;
    if version <= Horizon(s.db, key) {
      PromisesLast(cfg, s, n, key, version, version);
    } else {
      NothingBeyondLasts(cfg, s, n, key, version, version);
    }
    if bound <= Promised(s, n, key, version) {
      PromisesLast(cfg, s, n, key, version, bound);
    }
    if bound > Horizon(s.db, key) {
      NothingBeyondLasts(cfg, s, n, key, version, bound);
    }
  }

  /** The step of process n that a system step contains, if any. */
  function OpOf(s: Sys, a: Label, n: Id): Option<NodeOp>
    requires SysEnabled(s, a)
  {
    match a
    case NodeStep(m, op) => if m == n then Some(op) else None
    case RelayAnnounce(m) => if m == n then Some(Notify(s.relays[m].e.key, s.relays[m].e.version)) else None
    case RelayHandle(m, x) => if x == n then Some(Notify(s.relays[m].e.key, s.relays[m].e.version)) else None
    case ProcessRestart(m) => if m == n then Some(Restart) else None
    case _ => None
  }

  lemma NodeMoves(cfg: Config, s: Sys, a: Label, n: Id)
    requires SysEnabled(s, a) && n in s.nodes
    ensures n in SysNext(cfg, s, a).nodes
    ensures OpOf(s, a, n).None? ==> SysNext(cfg, s, a).nodes[n] == s.nodes[n]
    ensures OpOf(s, a, n).Some? ==>
      && Enabled(s.db, s.nodes[n], OpOf(s, a, n).value)
      && SysNext(cfg, s, a).nodes[n] == Next(cfg, s.db, s.nodes[n], OpOf(s, a, n).value)
  {
    hide Next, Step, KeyOk;
  }

  // ---- Reads that start after a notification ----

  lemma CallerPersists(cfg: Config, db: Db, n: Node, op: NodeOp, c: nat)
    requires Enabled(db, n, op) && c in n.callers
    ensures var n' := Next(cfg, db, n, op);
      c in n'.callers && n'.callers[c].key == n.callers[c].key && n'.callers[c].since == n.callers[c].since
  {
  }

  predicate Calls(s: Sys, n: Id, c: nat, key: Key, since: nat) {
    n in s.nodes && c in s.nodes[n].callers
    && s.nodes[n].callers[c].key == key && s.nodes[n].callers[c].since == since
  }

  lemma CallStep(cfg: Config, s: Sys, a: Label, n: Id, c: nat, key: Key, since: nat)
    requires SysEnabled(s, a) && Calls(s, n, c, key, since)
    ensures Calls(SysNext(cfg, s, a), n, c, key, since)
  {
    hide Next, SysNext, SysEnabled, Enabled;
    NodeMoves(cfg, s, a, n);
    if OpOf(s, a, n).Some? {
      CallerPersists(cfg, s.db, s.nodes[n], OpOf(s, a, n).value, c);
    }
  }

  lemma {:induction false} CallPersists(cfg: Config, r: Run, i: nat, j: nat, n: Id, c: nat, key: Key, since: nat)
    requires IsRun(cfg, r) && i <= j < |r.states| && Calls(r.states[i], n, c, key, since)
    ensures Calls(r.states[j], n, c, key, since)
    decreases j
  {
    hide SysNext, SysEnabled, Calls;
    if i < j {
      CallPersists(cfg, r, i, j - 1, n, c, key, since);
      CallStep(cfg, r.states[j - 1], r.labels[j - 1], n, c, key, since);
    }
  }

  /** The caller's result, when it is a value. */
  predicate Got(s: Sys, n: Id, c: nat, view: View) {
    n in s.nodes && c in s.nodes[n].callers && s.nodes[n].callers[c].stage == Answered(Value(view))
  }

  /**
   * A Get that starts after a notification returned fails or yields at least what was promised, for a
   * forced one the horizon at that time, whether it hits, starts a flight or joins one already running.
   */
  lemma GetAfterNotification(
      cfg: Config, r: Run, i: nat, j: nat, l: nat, n: Id, c: nat, key: Key, version: nat, view: View)
    requires Execution(cfg, r) && i < j < l < |r.states|
    requires Notifies(r.states[i], r.labels[i], n, key, version)
    requires r.labels[j] == NodeStep(n, Start(c, key))
    requires Got(r.states[l], n, c, view)
    ensures n in r.states[i].nodes && view.version >= Promised(r.states[i], n, key, version)
    ensures version <= Horizon(r.states[i].db, key) ==> view.version >= version
  {
    hide Promise, Notifies;
    hide RowsOk, EventsOk, QueueOk, RelaysOk, LateOk, Accounted, PairsOk, FlightsOk, EntriesOk, LocalOk;
    ExecutionOk(cfg, r, l);
    NeverStaleAgain(cfg, r, i, j, n, key, version);
    var since := Notified(r.states[j].nodes[n], key);
    assert SysEnabled(r.states[j], r.labels[j]);
    assert Calls(r.states[j + 1], n, c, key, since);
    CallPersists(cfg, r, j + 1, l, n, c, key, since);
    assert NodeOk(cfg, r.states[l].db, r.states[l].nodes[n]);
    assert CallerOk(cfg, r.states[l].db, r.states[l].nodes[n], r.states[l].nodes[n].callers[c]);
  }

  /** Whatever the caller gets is at least the minimum it captured itself, even after that floor was retired. */
  lemma GetHonoursItsFence(cfg: Config, r: Run, l: nat, n: Id, c: nat, view: View)
    requires Execution(cfg, r) && l < |r.states| && Got(r.states[l], n, c, view)
    ensures view.version >= r.states[l].nodes[n].callers[c].asked
  {
    hide RowsOk, EventsOk, QueueOk, RelaysOk, LateOk, Accounted, PairsOk, FlightsOk, EntriesOk, LocalOk;
    ExecutionOk(cfg, r, l);
    assert NodeOk(cfg, r.states[l].db, r.states[l].nodes[n]);
    assert CallerOk(cfg, r.states[l].db, r.states[l].nodes[n], r.states[l].nodes[n].callers[c]);
  }

  // ---- Flights ----

  function MinimumOf(f: Flight): nat {
    match f.stage
    case First => f.fence.minimum
    case Loading(_, fence) => fence.minimum
    case Fetched(_, fence, _) => fence.minimum
    case Rejected(m) => m
    case Rechecking(fence) => fence.minimum
    case Finished(_) => f.fence.minimum
  }

  /** Between attempts a flight's minimum never falls, whatever happens to the floor table. */
  lemma FlightMinimumNeverFalls(cfg: Config, db: Db, n: Node, op: NodeOp, f: Text)
    requires f in n.flights && f == FlightKey(n.flights[f].fence, n.flights[f].key)
    requires FlightOk(cfg, db, n, n.flights[f]) && Enabled(db, n, op)
    ensures var n' := Next(cfg, db, n, op);
      f in n'.flights && !n'.flights[f].stage.Finished? ==>
        MinimumOf(n.flights[f]) <= MinimumOf(n'.flights[f]) && n.flights[f].fence == n'.flights[f].fence
  {
    hide Invalidate, Committed, Harmless, Horizon, Promise, Hit, Live, KeyOk, Answer, Cut;
  }

  /** Flight f of process n is running in every state from i to j: it is one and the same flight. */
  predicate Runs(r: Run, i: nat, j: nat, n: Id, f: Text) {
    forall m :: i <= m <= j && m < |r.states| ==> Flying(r.states[m], n, f)
  }

  predicate Flying(s: Sys, n: Id, f: Text) {
    n in s.nodes && f in s.nodes[n].flights && !s.nodes[n].flights[f].stage.Finished?
  }

  lemma FlightStepMinimum(cfg: Config, s: Sys, a: Label, n: Id, f: Text)
    requires SysOk(cfg, s) && SysEnabled(s, a) && Flying(s, n, f) && Flying(SysNext(cfg, s, a), n, f)
    ensures MinimumOf(s.nodes[n].flights[f]) <= MinimumOf(SysNext(cfg, s, a).nodes[n].flights[f])
  {
    hide DbOk, RelaysOk, LateOk, Accounted, PairsOk, CallersOk, EntriesOk, LocalOk, FlightOk;
    hide Next, SysNext, SysEnabled, Enabled, MinimumOf;
    var node := s.nodes[n];
    assert NodeOk(cfg, s.db, node);
    NodeMoves(cfg, s, a, n);
    if OpOf(s, a, n).Some? {
      FlightMinimumNeverFalls(cfg, s.db, node, OpOf(s, a, n).value, f);
    }
  }

  /** Over every run, a flight's minimum never falls while it is running, even if its floor is retired. */
  lemma {:induction false} FlightMinimumRises(cfg: Config, r: Run, i: nat, j: nat, n: Id, f: Text)
    requires Execution(cfg, r) && i <= j < |r.states| && Runs(r, i, j, n, f)
    ensures Flying(r.states[i], n, f) && Flying(r.states[j], n, f)
    ensures MinimumOf(r.states[i].nodes[n].flights[f]) <= MinimumOf(r.states[j].nodes[n].flights[f])
    decreases j
  {
    hide SysOk, SysNext, SysEnabled, Flying;
    if i < j {
      FlightMinimumRises(cfg, r, i, j - 1, n, f);
      ExecutionOk(cfg, r, j - 1);
      assert Flying(r.states[j], n, f) && r.states[j] == SysNext(cfg, r.states[j - 1], r.labels[j - 1]);
      FlightStepMinimum(cfg, r.states[j - 1], r.labels[j - 1], n, f);
    }
  }

  /** At most two source loads; a returned value is committed and covers every floor any attempt saw. */
  lemma FlightDiscipline(cfg: Config, r: Run, i: nat, n: Id, f: Text)
    requires Execution(cfg, r) && i < |r.states| && n in r.states[i].nodes && f in r.states[i].nodes[n].flights
    ensures var flight := r.states[i].nodes[n].flights[f];
      && flight.loads <= 2
      && (flight.stage.Finished? && flight.stage.reply.Value? ==>
            var v := flight.stage.reply.view;
            && Committed(r.states[i].db, flight.key, v)
            && v.version >= flight.fence.minimum
            && forall o :: o in flight.observed ==> v.version >= o)
  {
    hide RowsOk, EventsOk, QueueOk, RelaysOk, LateOk, Accounted, PairsOk, CallersOk, EntriesOk, LocalOk;
    ExecutionOk(cfg, r, i);
    assert NodeOk(cfg, r.states[i].db, r.states[i].nodes[n]);
    assert FlightOk(cfg, r.states[i].db, r.states[i].nodes[n], r.states[i].nodes[n].flights[f]);
  }

  // ---- Durable delivery ----

  lemma LedgerHolds(cfg: Config, s: Sys, id: nat, d: Delivery)
    requires NodesOk(cfg, s) && LedgerOk(s, id, d)
    ensures forall m :: m in d.members + {d.sender} ==> HoldsAtLeast(s, m, d.key, d.version)
  {
    forall m | m in d.members + {d.sender} ensures HoldsAtLeast(s, m, d.key, d.version) {
      assert Reached(s, m, d.key, d.version);
      ReachedHolds(cfg, s, m, d.key, d.version);
    }
  }

  /**
   * In every state of every run, each committed event is either still queued for delivery or was finished
   * by a relay that first notified its own cache, then captured its whole non-empty membership view, and
   * then had every other member of that snapshot handle the event and acknowledge it. In the second case
   * neither the sender nor any of those members holds an older version in that or any later state;
   * purging changes nothing.
   */
  lemma EventsAreNotLost(cfg: Config, r: Run, i: nat, j: nat, id: nat)
    requires Execution(cfg, r) && i <= j < |r.states| && 1 <= id <= |r.states[i].db.journal|
    ensures var e := r.states[i].db.journal[id - 1];
      if Pending(r.states[i].db, id) then id !in r.states[i].ledger else
      (id in r.states[i].ledger && var d := r.states[i].ledger[id];
       && d.key == e.key && d.version == e.version && d.members != {}
       && Justified(r, i, id, d)
       && forall m :: m in d.members + {d.sender} ==> HoldsAtLeast(r.states[j], m, e.key, e.version))
  {
    hide DbOk, NodesOk, RelaysOk, LateOk, Justified, RelaysTraced, LateTraced, Progress;
    ExecutionOk(cfg, r, i);
    ExecutionOk(cfg, r, j);
    if !Pending(r.states[i].db, id) {
      var d := r.states[i].ledger[id];
      assert LedgerOk(r.states[i], id, d);
      RunTraced(cfg, r, i);
      RunProgress(cfg, r, i, j);
      LedgerKept(r.states[i], r.states[j], id, d);
      LedgerHolds(cfg, r.states[j], id, d);
    }
  }

  // ---- Integrity of what is cached, read and overwritten ----

  /** Every cached entry is a row the store committed under that key and version, at or above its floor. */
  lemma EntriesAreCommitted(cfg: Config, r: Run, i: nat, n: Id, key: Key)
    requires Execution(cfg, r) && i < |r.states| && n in r.states[i].nodes
    requires key in r.states[i].nodes[n].local.resident
    ensures var v := r.states[i].nodes[n].local.resident[key];
      Committed(r.states[i].db, key, v) && v.version >= Floor(r.states[i].nodes[n].local, key)
  {
    ExecutionOk(cfg, r, i);
    assert NodeOk(cfg, r.states[i].db, r.states[i].nodes[n]);
  }

  lemma StoreMoves(cfg: Config, s: Sys, a: Label)
    requires SysOk(cfg, s) && SysEnabled(s, a)
    ensures SysNext(cfg, s, a).db == Step(s.db, StoreOp(s, a))
  {
    hide SysOk;
  }

  /** The database statement a system step executes; a zero tick when there is none. */
  function StoreOp(s: Sys, a: Label): DbOp
    requires SysEnabled(s, a)
  {
    match a
    case StoreStep(op) => op
    case RelayClaim(_, id, locked) => Claim(id, LEASE, locked)
    case RelayFinish(n) => Completion(s.relays[n].e, s.relays[n].ok)
    case LateFinish(o) => Completion(o.e, o.ok)
    case _ => Tick(0)
  }

  ghost function StoreOps(cfg: Config, r: Run): (ops: seq<DbOp>)
    requires IsRun(cfg, r)
    ensures |ops| == |r.labels|
  {
    seq(|r.labels|, i requires 0 <= i < |r.labels| => StoreOp(r.states[i], r.labels[i]))
  }

  /** The store inside any run is a run of the store, so its fencing results apply to the system. */
  lemma {:induction false} StoreProjects(cfg: Config, r: Run, i: nat)
    requires IsRun(cfg, r) && SysOk(cfg, r.states[0]) && i < |r.states|
    ensures r.states[i].db == At(r.states[0].db, StoreOps(cfg, r), i)
  {
    if i > 0 {
      StoreProjects(cfg, r, i - 1);
      RunOk(cfg, r, i - 1);
      StoreMoves(cfg, r.states[i - 1], r.labels[i - 1]);
    }
  }

  lemma {:induction false} CommittedStays(cfg: Config, r: Run, i: nat, j: nat, key: Key, view: View)
    requires IsRun(cfg, r) && SysOk(cfg, r.states[0]) && i <= j < |r.states| && Committed(r.states[i].db, key, view)
    ensures Committed(r.states[j].db, key, view)
    decreases j
  {
    hide NodesOk, RelaysOk, LateOk, Accounted, SysNext, SysEnabled;
    if i < j {
      CommittedStays(cfg, r, i, j - 1, key, view);
      RunOk(cfg, r, j - 1);
      StoreMoves(cfg, r.states[j - 1], r.labels[j - 1]);
      StepKeeps(r.states[j - 1].db, StoreOp(r.states[j - 1], r.labels[j - 1]));
      CommittedGrows(r.states[j - 1].db, r.states[j].db, key, view);
    }
  }

  lemma CurrentRowIs(db: Db, key: Key, view: View)
    requires RowsOk(db) && Committed(db, key, view) && Generation(db, key) == view.version
    ensures key in db.rows && db.rows[key] == Row(view.bytes, view.version, false)
  {
  }

  /**
   * A conditional write that succeeds with the version of a value read from any cache
   * overwrites exactly the bytes its caller read, however long ago that was.
   */
  lemma ConditionalWriteReplacesWhatWasRead(
      cfg: Config, r: Run, i: nat, j: nat, n: Id, c: nat, view: View, w: Write)
    requires Execution(cfg, r) && i <= j < |r.labels|
    requires Got(r.states[i], n, c, view)
    requires r.labels[j] == StoreStep(WriteRow(w)) && (w.PutIf? || w.DeleteIf?)
    requires w.key == r.states[i].nodes[n].callers[c].key && w.expected == view.version
    requires Execute(r.states[j].db, w).1.Applied?
    ensures w.key in r.states[j].db.rows
    ensures r.states[j].db.rows[w.key] == Row(view.bytes, view.version, false)
  {
    hide EventsOk, QueueOk, RelaysOk, LateOk, Accounted, PairsOk, FlightsOk, EntriesOk, LocalOk;
    ExecutionOk(cfg, r, i);
    ExecutionOk(cfg, r, j);
    assert NodeOk(cfg, r.states[i].db, r.states[i].nodes[n]);
    assert CallerOk(cfg, r.states[i].db, r.states[i].nodes[n], r.states[i].nodes[n].callers[c]);
    CommittedStays(cfg, r, i, j, w.key, view);
    CurrentRowIs(r.states[j].db, w.key, view);
  }

  /** Across the whole system, one positive expected version is honoured at most once per key. */
  lemma OneWinnerPerVersion(cfg: Config, r: Run, i: nat, j: nat, key: Key, expected: int)
    requires Execution(cfg, r) && i < j < |r.labels|
    requires Supersedes(r.states[i].db, StoreOp(r.states[i], r.labels[i]), key, expected)
    ensures !Supersedes(r.states[j].db, StoreOp(r.states[j], r.labels[j]), key, expected)
  {
    ExecutionOk(cfg, r, 0);
    StoreProjects(cfg, r, i);
    StoreProjects(cfg, r, j);
    ExpectedVersionWinsOnce(r.states[0].db, StoreOps(cfg, r), i, j, key, expected);
  }
}
