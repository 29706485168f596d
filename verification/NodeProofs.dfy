/** Every step of a cache process keeps the invariant of module Node. */
module NodeProofs {
  import opened Types
  import opened Keys
  import opened Store
  import opened Fencing
  import opened Node

  lemma CommittedGrows(db: Db, db': Db, key: Key, view: View)
    requires Grows(db, db') && Committed(db, key, view)
    ensures Committed(db', key, view)
  {
  }

  /** The store moving on leaves every process consistent. */
  lemma StoreGrowthKeeps(cfg: Config, db: Db, db': Db, n: Node)
    requires NodeOk(cfg, db, n) && Grows(db, db')
    ensures NodeOk(cfg, db', n)
  {
    forall k | k in n.local.resident ensures Committed(db', k, n.local.resident[k]) {
      CommittedGrows(db, db', k, n.local.resident[k]);
    }
    forall f | f in n.flights ensures FlightOk(cfg, db', n, n.flights[f]) {
      var s := n.flights[f].stage;
      if s.Fetched? { CommittedGrows(db, db', n.flights[f].key, s.view); }
      if s.Finished? && s.reply.Value? { CommittedGrows(db, db', n.flights[f].key, s.reply.view); }
    }
    forall c | c in n.callers ensures CallerOk(cfg, db', n, n.callers[c]) {
      var s := n.callers[c].stage;
      if s.Answered? && s.reply.Value? { CommittedGrows(db, db', n.callers[c].key, s.reply.view); }
    }
    forall k | k in n.notified ensures n.notified[k] <= Horizon(db', k) {
      assert Horizon(db, k) <= Horizon(db', k);
    }
  }

  /** A live row is what the history holds at its own version, and it lies on the horizon. */
  lemma LiveRowCommitted(db: Db, key: Key)
    requires RowsOk(db) && Live(db, key)
    ensures Committed(db, key, View(db.rows[key].value, db.rows[key].version))
    ensures db.rows[key].version == Horizon(db, key)
  {
  }

  /** Replacing one flight by a consistent one with the same identity. */
  lemma FlightStep(cfg: Config, db: Db, n: Node, f: Text, flight: Flight)
    requires NodeOk(cfg, db, n) && f in n.flights
    requires flight.key == n.flights[f].key && flight.fence == n.flights[f].fence && flight.born == n.flights[f].born
    requires FlightOk(cfg, db, n, flight)
    ensures NodeOk(cfg, db, SetFlight(n, f, flight))
  {
    hide StageOk, Committed;
    var n' := SetFlight(n, f, flight);
    forall g | g in n'.flights ensures FlightOk(cfg, db, n', n'.flights[g]) {
      FlightFrame(cfg, db, n, n', n'.flights[g]);
    }
    forall c | c in n'.callers ensures CallerOk(cfg, db, n', n'.callers[c]) {
      assert CallerOk(cfg, db, n, n.callers[c]);
    }
  }

  /** A flight's consistency depends on the shared state only through floors, epochs and notifications. */
  lemma FlightFrame(cfg: Config, db: Db, n: Node, n': Node, f: Flight)
    requires FlightOk(cfg, db, n, f)
    requires n'.local.floors == n.local.floors && n'.local.epochs == n.local.epochs && n'.notified == n.notified
    ensures FlightOk(cfg, db, n', f)
  {
  }

  /** Replacing one caller by a consistent one that holds no new fence. */
  lemma CallerStep(cfg: Config, db: Db, n: Node, c: nat, caller: Caller)
    requires NodeOk(cfg, db, n) && CallerOk(cfg, db, n, caller) && !caller.stage.Fenced?
    ensures NodeOk(cfg, db, n.(callers := n.callers[c := caller]))
  {
    hide StageOk, Committed;
    var n' := n.(callers := n.callers[c := caller]);
    forall g | g in n'.flights ensures FlightOk(cfg, db, n', n'.flights[g]) {
      FlightFrame(cfg, db, n, n', n'.flights[g]);
    }
    forall d | d in n'.callers ensures CallerOk(cfg, db, n', n'.callers[d]) {
      CallerFrame(cfg, db, n, n', n'.callers[d]);
    }
  }

  lemma CallerFrame(cfg: Config, db: Db, n: Node, n': Node, c: Caller)
    requires CallerOk(cfg, db, n, c)
    requires n'.local.floors == n.local.floors && n'.local.epochs == n.local.epochs && n'.notified == n.notified
    requires n'.flights == n.flights
    ensures CallerOk(cfg, db, n', c)
  {
  }

  lemma StartKeeps(cfg: Config, db: Db, n: Node, op: NodeOp)
    requires NodeOk(cfg, db, n) && Enabled(db, n, op) && (op.Start? || op.Lookup? || op.Abort?)
    ensures NodeOk(cfg, db, Next(cfg, db, n, op))
  {
    var n' := Next(cfg, db, n, op);
    CallerStep(cfg, db, n, op.c, n'.callers[op.c]);
  }

  /** Capturing a fence: earlier holders of the same fence already guarantee what was notified. */
  lemma CapturePairs(cfg: Config, db: Db, n: Node, c: nat)
    requires NodeOk(cfg, db, n) && Enabled(db, n, Capture(c))
    ensures PairsOk(CaptureFence(cfg, n, c))
  {
    hide StageOk, Committed;
    var n' := CaptureFence(cfg, n, c);
    forall f, d | f in n'.flights && d in n'.callers
      ensures Compatible(n'.flights[f].key, n'.flights[f].fence, n'.flights[f].born, n'.callers[d])
    {
      assert FlightOk(cfg, db, n, n.flights[f]);
    }
    forall a, d | a in n'.callers && d in n'.callers && n'.callers[a].stage.Fenced?
      ensures Compatible(n'.callers[a].key, n'.callers[a].stage.fence, n'.callers[a].stage.born, n'.callers[d])
    {
      if a != c { assert CallerOk(cfg, db, n, n.callers[a]); }
      if d != c { assert CallerOk(cfg, db, n, n.callers[d]); }
    }
  }

  lemma CaptureKeeps(cfg: Config, db: Db, n: Node, c: nat)
    requires NodeOk(cfg, db, n) && Enabled(db, n, Capture(c))
    ensures NodeOk(cfg, db, Next(cfg, db, n, Capture(c)))
  {
    hide StageOk, Committed, PairsOk;
    var n' := CaptureFence(cfg, n, c);
    forall g | g in n'.flights ensures FlightOk(cfg, db, n', n'.flights[g]) {
      FlightFrame(cfg, db, n, n', n'.flights[g]);
    }
    forall d | d in n'.callers ensures CallerOk(cfg, db, n', n'.callers[d]) {
      if d != c { CallerFrame(cfg, db, n, n', n'.callers[d]); } else { assert CallerOk(cfg, db, n, n.callers[c]); }
    }
    CapturePairs(cfg, db, n, c);
  }

  lemma JoinKeeps(cfg: Config, db: Db, n: Node, c: nat)
    requires NodeOk(cfg, db, n) && Enabled(db, n, Join(c))
    ensures NodeOk(cfg, db, Next(cfg, db, n, Join(c)))
  {
    var caller := n.callers[c];
    var f := FlightKey(caller.stage.fence, caller.key);
    assert CallerOk(cfg, db, n, caller);
    if f in n.flights {
      FlightKeyInjective(n.flights[f].fence, n.flights[f].key, caller.stage.fence, caller.key);
      assert Compatible(n.flights[f].key, n.flights[f].fence, n.flights[f].born, caller);
      CallerStep(cfg, db, n, c, caller.(stage := Waiting(caller.stage.fence)));
    } else {
      LaunchKeeps(cfg, db, n, c);
    }
  }

  /** Registering a flight keeps every other caller consistent. */
  lemma LaunchCaller(cfg: Config, db: Db, n: Node, f: Text, flight: Flight, c: Caller)
    requires CallerOk(cfg, db, n, c) && f !in n.flights
    ensures CallerOk(cfg, db, SetFlight(n, f, flight), c)
  {
  }

  lemma LaunchPairs(cfg: Config, db: Db, n: Node, c: nat)
    requires NodeOk(cfg, db, n) && Enabled(db, n, Join(c))
    requires FlightKey(n.callers[c].stage.fence, n.callers[c].key) !in n.flights
    ensures PairsOk(JoinFlight(n, c))
  {
    var n', caller := JoinFlight(n, c), n.callers[c];
    forall g, d | g in n'.flights && d in n'.callers
      ensures Compatible(n'.flights[g].key, n'.flights[g].fence, n'.flights[g].born, n'.callers[d])
    {
      assert Compatible(caller.key, caller.stage.fence, caller.stage.born, n.callers[d]);
      assert g in n.flights ==> Compatible(n.flights[g].key, n.flights[g].fence, n.flights[g].born, n.callers[d]);
    }
  }

  lemma LaunchKeeps(cfg: Config, db: Db, n: Node, c: nat)
    requires NodeOk(cfg, db, n) && Enabled(db, n, Join(c))
    requires FlightKey(n.callers[c].stage.fence, n.callers[c].key) !in n.flights
    ensures NodeOk(cfg, db, JoinFlight(n, c))
  {
    var n', caller := JoinFlight(n, c), n.callers[c];
    var f := FlightKey(caller.stage.fence, caller.key);
    assert CallerOk(cfg, db, n, caller);
    assert FlightOk(cfg, db, n, Launch(caller));
    forall g | g in n'.flights
      ensures g == FlightKey(n'.flights[g].fence, n'.flights[g].key) && FlightOk(cfg, db, n', n'.flights[g])
    {
      FlightFrame(cfg, db, n, n', n'.flights[g]);
    }
    forall d | d in n'.callers ensures CallerOk(cfg, db, n', n'.callers[d]) {
      if d != c {
        LaunchCaller(cfg, db, n, f, Launch(caller), n.callers[d]);
        CallerFrame(cfg, db, SetFlight(n, f, Launch(caller)), n', n.callers[d]);
      }
    }
    LaunchPairs(cfg, db, n, c);
  }

  lemma LookupKeeps(cfg: Config, db: Db, n: Node, f: Text)
    requires NodeOk(cfg, db, n) && Enabled(db, n, FlightLookup(f))
    ensures NodeOk(cfg, db, Next(cfg, db, n, FlightLookup(f)))
  {
    assert FlightOk(cfg, db, n, n.flights[f]);
    FlightStep(cfg, db, n, f, LookupFlight(n, n.flights[f]));
  }

  /** A source read taken after the fence sees everything notified before the read. */
  lemma ReadKeeps(cfg: Config, db: Db, n: Node, f: Text)
    requires DbOk(db) && NodeOk(cfg, db, n) && Enabled(db, n, Read(f))
    ensures NodeOk(cfg, db, Next(cfg, db, n, Read(f)))
  {
    var flight := n.flights[f];
    assert FlightOk(cfg, db, n, flight);
    if Live(db, flight.key) {
      LiveRowCommitted(db, flight.key);
    }
    FlightStep(cfg, db, n, f, ReadFlight(db, flight));
  }

  /** The heart of the design: a fill that passes the check is never older than what was notified. */
  lemma FillIsCurrent(cfg: Config, db: Db, n: Node, f: Text)
    requires NodeOk(cfg, db, n) && f in n.flights && n.flights[f].stage.Fetched?
    requires var s := n.flights[f].stage; FillValid(cfg, n.local, n.flights[f].key, s.fence, s.view)
    ensures n.flights[f].stage.view.version >= Notified(n, n.flights[f].key)
  {
    assert FlightOk(cfg, db, n, n.flights[f]);
  }

  lemma FillStepKeeps(cfg: Config, db: Db, n: Node, f: Text, kept: set<Key>)
    requires NodeOk(cfg, db, n) && Enabled(db, n, Fill(f, kept))
    ensures NodeOk(cfg, db, Next(cfg, db, n, Fill(f, kept)))
  {
    hide Harmless, PairsOk, CallersOk;
    var flight := n.flights[f];
    assert FlightOk(cfg, db, n, flight);
    FlightStep(cfg, db, n, f, FillFlight(n, flight));
    var m := SetFlight(n, f, FillFlight(n, flight));
    var s := flight.stage;
    if FillValid(cfg, n.local, flight.key, s.fence, s.view) {
      FillIsCurrent(cfg, db, n, f);
      FillKeeps(cfg, n.local, flight.key, s.fence, s.view, kept);
      ResidentStep(cfg, db, m, Insert(n.local, flight.key, s.view, kept));
    }
  }

  /** Changing only which consistent entries are resident. */
  lemma ResidentStep(cfg: Config, db: Db, n: Node, l: Local)
    requires NodeOk(cfg, db, n) && LocalOk(cfg, l)
    requires l.floors == n.local.floors && l.epochs == n.local.epochs
    requires forall k :: k in l.resident ==>
      Committed(db, k, l.resident[k]) && l.resident[k].version >= Notified(n, k)
    ensures NodeOk(cfg, db, n.(local := l))
  {
    hide StageOk;
    var n' := n.(local := l);
    forall g | g in n'.flights ensures FlightOk(cfg, db, n', n'.flights[g]) {
      FlightFrame(cfg, db, n, n', n'.flights[g]);
    }
    forall d | d in n'.callers ensures CallerOk(cfg, db, n', n'.callers[d]) {
      CallerFrame(cfg, db, n, n', n'.callers[d]);
    }
  }

  lemma RebarrierKeeps(cfg: Config, db: Db, n: Node, f: Text)
    requires NodeOk(cfg, db, n) && Enabled(db, n, Rebarrier(f))
    ensures NodeOk(cfg, db, Next(cfg, db, n, Rebarrier(f)))
  {
    assert FlightOk(cfg, db, n, n.flights[f]);
    FlightStep(cfg, db, n, f, RebarrierFlight(cfg, n, n.flights[f]));
  }

  lemma FailKeeps(cfg: Config, db: Db, n: Node, f: Text, why: Failure)
    requires NodeOk(cfg, db, n) && Enabled(db, n, FlightFail(f, why))
    ensures NodeOk(cfg, db, Next(cfg, db, n, FlightFail(f, why)))
  {
    assert FlightOk(cfg, db, n, n.flights[f]);
    FlightStep(cfg, db, n, f, n.flights[f].(stage := Finished(Failed(why))));
  }

  /** A waiter is handed a value that reaches its own starting point and its captured minimum. */
  lemma DeliverCaller(cfg: Config, db: Db, n: Node, f: Text, c: nat)
    requires NodeOk(cfg, db, n) && Enabled(db, n, Deliver(f)) && c in n.callers
    ensures CallerOk(cfg, db, Next(cfg, db, n, Deliver(f)), Answer(n.callers, f, n.flights[f].stage.reply)[c])
  {
    hide EntriesOk, LocalOk, PairsOk;
    assert CallerOk(cfg, db, n, n.callers[c]);
    assert FlightOk(cfg, db, n, n.flights[f]);
  }

  lemma DeliverKeeps(cfg: Config, db: Db, n: Node, f: Text)
    requires NodeOk(cfg, db, n) && Enabled(db, n, Deliver(f))
    ensures NodeOk(cfg, db, Next(cfg, db, n, Deliver(f)))
  {
    hide StageOk, Committed, CallerOk, FlightOk;
    var n' := Next(cfg, db, n, Deliver(f));
    forall g | g in n'.flights ensures FlightOk(cfg, db, n', n'.flights[g]) {
      FlightFrame(cfg, db, n, n', n.flights[g]);
    }
    forall c | c in n'.callers ensures CallerOk(cfg, db, n', n'.callers[c]) {
      DeliverCaller(cfg, db, n, f, c);
    }
    assert PairsOk(n') by {
      assert forall c :: c in n'.callers && n'.callers[c].stage.Fenced? ==> n'.callers[c] == n.callers[c];
    }
  }

  /** A notification keeps every running piece of work harmless, including by retiring floors. */
  lemma NotifyHarmless(cfg: Config, db: Db, n: Node, k: Key, v: nat, key: Key, e: nat, x: nat)
    requires LocalOk(cfg, n.local) && KeyOk(k) && Harmless(cfg, n, key, e, x)
    ensures Harmless(cfg, Next(cfg, db, n, Notify(k, v)), key, e, x)
  {
    InvalidateEffect(cfg, n.local, k, v);
  }

  lemma NotifyFlight(cfg: Config, db: Db, n: Node, k: Key, v: nat, f: Flight)
    requires LocalOk(cfg, n.local) && KeyOk(k) && FlightOk(cfg, db, n, f)
    ensures FlightOk(cfg, db, Next(cfg, db, n, Notify(k, v)), f)
  {
    InvalidateEffect(cfg, n.local, k, v);
    NotifyHarmless(cfg, db, n, k, v, f.key, f.fence.epoch, f.born);
    if f.stage.Fetched? {
      NotifyHarmless(cfg, db, n, k, v, f.key, f.stage.fence.epoch, f.stage.view.version);
    }
  }

  lemma NotifyCaller(cfg: Config, db: Db, n: Node, k: Key, v: nat, c: Caller)
    requires LocalOk(cfg, n.local) && KeyOk(k) && CallerOk(cfg, db, n, c)
    ensures CallerOk(cfg, db, Next(cfg, db, n, Notify(k, v)), c)
  {
    if c.stage.Fenced? {
      NotifyHarmless(cfg, db, n, k, v, c.key, c.stage.fence.epoch, c.stage.born);
    }
  }

  lemma NotifyEntries(cfg: Config, db: Db, n: Node, k: Key, v: nat)
    requires NodeOk(cfg, db, n) && KeyOk(k)
    ensures var n' := Next(cfg, db, n, Notify(k, v)); NotifiedOk(db, n') && EntriesOk(db, n')
  {
    hide Committed, FlightsOk, CallersOk, PairsOk;
    var n' := Next(cfg, db, n, Notify(k, v));
    InvalidateEffect(cfg, n.local, k, v);
    forall j | j in n'.local.resident
      ensures Committed(db, j, n'.local.resident[j]) && n'.local.resident[j].version >= Notified(n', j)
    {
      assert j != k ==> j in n'.local.resident - {k} && n'.local.resident[j] == (n'.local.resident - {k})[j];
    }
  }

  lemma NotifyKeeps(cfg: Config, db: Db, n: Node, k: Key, v: nat)
    requires NodeOk(cfg, db, n) && KeyOk(k)
    ensures NodeOk(cfg, db, Next(cfg, db, n, Notify(k, v)))
  {
    hide FlightOk, CallerOk, EntriesOk, NotifiedOk, LocalOk, Invalidate, Compatible;
    var n' := Next(cfg, db, n, Notify(k, v));
    InvalidateKeeps(cfg, n.local, k, v);
    NotifyEntries(cfg, db, n, k, v);
    forall f | f in n'.flights ensures FlightOk(cfg, db, n', n'.flights[f]) {
      NotifyFlight(cfg, db, n, k, v, n.flights[f]);
    }
    forall c | c in n'.callers ensures CallerOk(cfg, db, n', n'.callers[c]) {
      NotifyCaller(cfg, db, n, k, v, n.callers[c]);
    }
  }

  lemma ShedKeeps(cfg: Config, db: Db, n: Node, keys: set<Key>)
    requires NodeOk(cfg, db, n)
    ensures NodeOk(cfg, db, Next(cfg, db, n, Shed(keys)))
  {
    ResidentStep(cfg, db, n, n.local.(resident := n.local.resident - keys));
  }

  lemma RestartKeeps(cfg: Config, db: Db, n: Node)
    requires NodeOk(cfg, db, n)
    ensures NodeOk(cfg, db, Next(cfg, db, n, Restart))
  {
    var n' := Next(cfg, db, n, Restart);
    forall c | c in n'.callers ensures CallerOk(cfg, db, n', n'.callers[c]) {
      assert CallerOk(cfg, db, n, n.callers[c]);
    }
  }

  lemma NodeStepKeeps(cfg: Config, db: Db, n: Node, op: NodeOp)
    requires DbOk(db) && NodeOk(cfg, db, n) && Enabled(db, n, op)
    ensures NodeOk(cfg, db, Next(cfg, db, n, op))
  {
    hide NodeOk, Next, DbOk;
    match op
    case Start(_, _) => StartKeeps(cfg, db, n, op);
    case Lookup(_) => StartKeeps(cfg, db, n, op);
    case Abort(_, _) => StartKeeps(cfg, db, n, op);
    case Capture(c) => CaptureKeeps(cfg, db, n, c);
    case Join(c) => JoinKeeps(cfg, db, n, c);
    case FlightLookup(f) => LookupKeeps(cfg, db, n, f);
    case FlightFail(f, why) => FailKeeps(cfg, db, n, f, why);
    case Read(f) => ReadKeeps(cfg, db, n, f);
    case Fill(f, kept) => FillStepKeeps(cfg, db, n, f, kept);
    case Rebarrier(f) => RebarrierKeeps(cfg, db, n, f);
    case Deliver(f) => DeliverKeeps(cfg, db, n, f);
    case Notify(k, v) => NotifyKeeps(cfg, db, n, k, v);
    case Shed(keys) => ShedKeeps(cfg, db, n, keys);
    case Restart => RestartKeeps(cfg, db, n);
  }
}
