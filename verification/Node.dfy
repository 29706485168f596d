/**
 * One cache process as a transition system: callers of Get, singleflight entries, source
 * loads with one retry, notifications, expiry and restart, interleaved in any order.
 *
 * Critical sections are atomic steps; a source read is the instant of its snapshot, which
 * lies after the fence was captured and before the fill is checked. Fields listed as history
 * (`notified`, `since`, `asked`, `born`, `observed`, `loads`) are never read by a step.
 */
module Node {
  import opened Types
  import opened Keys
  import opened Decimal
  import opened Store
  import opened Fencing

  datatype Failure = NotFound | Stale | Overloaded | Canceled | BadKey | SourceFailed

  datatype Reply = Value(view: View) | Failed(why: Failure)

  datatype Stage =
    | First                                             // before the flight's first lookup
    | Loading(attempt: nat, fence: Fence)               // inside loadSource, source not yet read
    | Fetched(attempt: nat, fence: Fence, view: View)   // source read, fill not yet checked
    | Rejected(minimum: nat)                            // stale on the first attempt
    | Rechecking(fence: Fence)                          // new barrier captured, second lookup pending
    | Finished(reply: Reply)

  /** History: born is what had been notified when the fence was captured. */
  datatype Flight = Flight(
    key: Key, fence: Fence, stage: Stage, born: nat, observed: set<nat>, loads: nat)

  datatype CallerStage =
    | Asking
    | Missed
    | Fenced(fence: Fence, born: nat)
    | Waiting(fence: Fence)
    | Answered(reply: Reply)

  /** History: since is what had been notified when Get was called, asked the minimum it captured. */
  datatype Caller = Caller(key: Key, since: nat, asked: nat, stage: CallerStage)

  datatype Node = Node(
    local: Local, flights: map<Text, Flight>, callers: map<nat, Caller>, notified: map<Key, nat>)

  function NewNode(): Node {
    Node(Fresh(), map[], map[], map[])
  }

  datatype NodeOp =
    | Start(c: nat, key: Key)
    | Lookup(c: nat)
    | Abort(c: nat, why: Failure)
    | Capture(c: nat)
    | Join(c: nat)
    | FlightLookup(f: Text)
    | FlightFail(f: Text, why: Failure)
    | Read(f: Text)
    | Fill(f: Text, kept: set<Key>)
    | Rebarrier(f: Text)
    | Deliver(f: Text)
    | Notify(key: Key, version: nat)
    | Shed(keys: set<Key>)
    | Restart

  // ---- The singleflight key ----

  function FlightKey(fence: Fence, key: Key): Text {
    Format(fence.epoch) + [COLON] + (Format(fence.minimum) + [COLON] + key)
  }

  /** Distinct fences or keys never share a flight, whatever bytes the key contains. */
  lemma FlightKeyInjective(a: Fence, k: Key, b: Fence, m: Key)
    requires FlightKey(a, k) == FlightKey(b, m)
    ensures a == b && k == m
  {
    FieldInjective(a.epoch, Format(a.minimum) + [COLON] + k, b.epoch, Format(b.minimum) + [COLON] + m);
    FieldInjective(a.minimum, k, b.minimum, m);
  }

  // ---- Steps ----

  function Notified(n: Node, key: Key): nat {
    if key in n.notified then n.notified[key] else 0
  }

  /**
   * What a notification is worth. One that is applied drops the entry and ends the epoch of every
   * running load, so all that can follow was read later; a replay leaves its floor at the known version.
   */
  function Promise(db: Db, l: Local, key: Key, version: nat): (p: nat)
    ensures version <= Horizon(db, key) ==> p >= version
    ensures p <= Horizon(db, key)
  {
    if Advances(l, key, version) then Horizon(db, key) else Min(Known(l, key), Horizon(db, key))
  }

  predicate Hit(n: Node, key: Key, minimum: nat) {
    key in n.local.resident && n.local.resident[key].version >= minimum
  }

  predicate Enabled(db: Db, n: Node, op: NodeOp) {
    match op
    case Start(c, _) => c !in n.callers
    case Lookup(c) => c in n.callers && n.callers[c].stage.Asking? && KeyOk(n.callers[c].key)
    case Abort(c, _) => c in n.callers && !n.callers[c].stage.Answered?
    case Capture(c) => c in n.callers && n.callers[c].stage.Missed?
    case Join(c) => c in n.callers && n.callers[c].stage.Fenced?
    case FlightLookup(f) => f in n.flights && (n.flights[f].stage.First? || n.flights[f].stage.Rechecking?)
    case FlightFail(f, _) => f in n.flights && !n.flights[f].stage.Finished?
    case Read(f) => f in n.flights && n.flights[f].stage.Loading?
    case Fill(f, _) => f in n.flights && n.flights[f].stage.Fetched?
    case Rebarrier(f) => f in n.flights && n.flights[f].stage.Rejected?
    case Deliver(f) => f in n.flights && n.flights[f].stage.Finished?
    case Notify(k, _) => KeyOk(k)
    case Shed(_) => true
    case Restart => true
  }

  function LookupFlight(n: Node, f: Flight): Flight
    requires f.stage.First? || f.stage.Rechecking?
  {
    var fence := if f.stage.First? then f.fence else f.stage.fence;
    if Hit(n, f.key, fence.minimum) then f.(stage := Finished(Value(n.local.resident[f.key])))
    else f.(stage := Loading(if f.stage.First? then 0 else 1, fence))
  }

  /** GetVersioned: a tombstone or an unknown key is not found. */
  function ReadFlight(db: Db, f: Flight): Flight
    requires f.stage.Loading?
  {
    var counted := f.(loads := f.loads + 1);
    if Live(db, f.key) then
      counted.(stage := Fetched(f.stage.attempt, f.stage.fence,
                                View(db.rows[f.key].value, db.rows[f.key].version)))
    else counted.(stage := Finished(Failed(NotFound)))
  }

  /** The tail of loadSource: stale values are refused, a changed epoch only prevents the fill. */
  function FillFlight(n: Node, f: Flight): Flight
    requires f.stage.Fetched?
  {
    var minimum := FillMinimum(n.local, f.key, f.stage.fence);
    var seen := f.(observed := f.observed + {Known(n.local, f.key)});
    if f.stage.view.version >= minimum then seen.(stage := Finished(Value(f.stage.view)))
    else if f.stage.attempt == 0 then seen.(stage := Rejected(minimum))
    else seen.(stage := Finished(Failed(Stale)))
  }

  function RebarrierFlight(cfg: Config, n: Node, f: Flight): Flight
    requires f.stage.Rejected?
  {
    var next := Barrier(cfg, n.local, f.key);
    f.(stage := Rechecking(next.(minimum := Max(next.minimum, f.stage.minimum))),
       observed := f.observed + {next.minimum})
  }

  function SetCaller(n: Node, c: nat, stage: CallerStage): Node
    requires c in n.callers
  {
    n.(callers := n.callers[c := n.callers[c].(stage := stage)])
  }

  function SetFlight(n: Node, f: Text, flight: Flight): Node {
    n.(flights := n.flights[f := flight])
  }

  predicate WaitsOn(caller: Caller, f: Text) {
    caller.stage.Waiting? && FlightKey(caller.stage.fence, caller.key) == f
  }

  /** Every waiter of a finished flight gets its result. */
  function Answer(callers: map<nat, Caller>, f: Text, reply: Reply): map<nat, Caller> {
    map c | c in callers ::
      if WaitsOn(callers[c], f) then callers[c].(stage := Answered(reply)) else callers[c]
  }

  /** A process exit ends every unanswered call without a value. */
  function Cut(callers: map<nat, Caller>): map<nat, Caller> {
    map c | c in callers ::
      if callers[c].stage.Answered? then callers[c] else callers[c].(stage := Answered(Failed(Canceled)))
  }

  function LookupCaller(n: Node, c: nat): Node
    requires c in n.callers
  {
    var k := n.callers[c].key;
    SetCaller(n, c, if Hit(n, k, 0) then Answered(Value(n.local.resident[k])) else Missed)
  }

  function CaptureFence(cfg: Config, n: Node, c: nat): Node
    requires c in n.callers
  {
    var caller := n.callers[c];
    var fence := Barrier(cfg, n.local, caller.key);
    var held := Fenced(fence, Notified(n, caller.key));
    n.(callers := n.callers[c := Caller(caller.key, caller.since, fence.minimum, held)])
  }

  /** DoChan: wait on the registered flight of this fence and key, or register it. */
  function JoinFlight(n: Node, c: nat): Node
    requires c in n.callers && n.callers[c].stage.Fenced?
  {
    var caller := n.callers[c];
    var f := FlightKey(caller.stage.fence, caller.key);
    var joined := SetCaller(n, c, Waiting(caller.stage.fence));
    if f in n.flights then joined else SetFlight(joined, f, Launch(caller))
  }

  function Launch(caller: Caller): Flight
    requires caller.stage.Fenced?
  {
    var fence := caller.stage.fence;
    Flight(caller.key, fence, First, caller.stage.born, {fence.minimum}, 0)
  }

  function CheckAndFill(cfg: Config, n: Node, f: Text, kept: set<Key>): Node
    requires f in n.flights && n.flights[f].stage.Fetched?
  {
    var flight := n.flights[f];
    var checked := SetFlight(n, f, FillFlight(n, flight));
    if FillValid(cfg, n.local, flight.key, flight.stage.fence, flight.stage.view)
    then checked.(local := Insert(n.local, flight.key, flight.stage.view, kept))
    else checked
  }

  function Next(cfg: Config, db: Db, n: Node, op: NodeOp): Node
    requires Enabled(db, n, op)
  {
    match op
    case Start(c, k) => n.(callers := n.callers[c := Caller(k, Notified(n, k), 0, Asking)])
    case Lookup(c) => LookupCaller(n, c)
    case Abort(c, why) => SetCaller(n, c, Answered(Failed(why)))
    case Capture(c) => CaptureFence(cfg, n, c)
    case Join(c) => JoinFlight(n, c)
    case FlightLookup(f) => SetFlight(n, f, LookupFlight(n, n.flights[f]))
    case FlightFail(f, why) => SetFlight(n, f, n.flights[f].(stage := Finished(Failed(why))))
    case Read(f) => SetFlight(n, f, ReadFlight(db, n.flights[f]))
    case Fill(f, kept) => CheckAndFill(cfg, n, f, kept)
    case Rebarrier(f) => SetFlight(n, f, RebarrierFlight(cfg, n, n.flights[f]))
    case Deliver(f) => n.(flights := n.flights - {f}, callers := Answer(n.callers, f, n.flights[f].stage.reply))
    case Notify(k, v) =>
      n.(local := Invalidate(cfg, n.local, k, v),
         notified := n.notified[k := Max(Notified(n, k), Promise(db, n.local, k, v))])
    case Shed(keys) => n.(local := n.local.(resident := n.local.resident - keys))
    case Restart =>
      n.(local := Fresh(), flights := map[], callers := Cut(n.callers))
  }

  // ---- Invariant ----

  /** The bytes and version are a row the store committed for the key, not a tombstone. */
  predicate Committed(db: Db, key: Key, view: View) {
    && key in db.log
    && 1 <= view.version <= |db.log[key]|
    && db.log[key][view.version - 1] == Row(view.bytes, view.version, false)
  }

  /**
   * The fencing argument in one place: work fenced at epoch e that knows nothing newer than
   * version x is harmless, because its epoch is over or a floor still covers what was notified.
   */
  predicate Harmless(cfg: Config, n: Node, key: Key, e: nat, x: nat) {
    && e <= Epoch(cfg, n.local, key)
    && (e == Epoch(cfg, n.local, key) && x < Notified(n, key) ==> Floor(n.local, key) >= Notified(n, key))
  }

  predicate AllAtMost(observed: set<nat>, bound: nat) {
    forall o :: o in observed ==> o <= bound
  }

  predicate StageOk(cfg: Config, db: Db, n: Node, f: Flight) {
    match f.stage
    case First => f.loads == 0 && AllAtMost(f.observed, f.fence.minimum)
    case Loading(a, fc) =>
      a <= 1 && f.loads == a && fc.epoch <= Epoch(cfg, n.local, f.key) && fc.minimum >= f.fence.minimum
      && AllAtMost(f.observed, fc.minimum)
    case Fetched(a, fc, v) =>
      a <= 1 && f.loads == a + 1 && fc.minimum >= f.fence.minimum && AllAtMost(f.observed, fc.minimum)
      && Committed(db, f.key, v) && v.version >= f.born && Harmless(cfg, n, f.key, fc.epoch, v.version)
    case Rejected(m) => f.loads == 1 && m >= f.fence.minimum && AllAtMost(f.observed, m)
    case Rechecking(fc) =>
      f.loads == 1 && fc.epoch <= Epoch(cfg, n.local, f.key) && fc.minimum >= f.fence.minimum
      && AllAtMost(f.observed, fc.minimum)
    case Finished(Value(v)) =>
      Committed(db, f.key, v) && v.version >= f.born && v.version >= f.fence.minimum
      && AllAtMost(f.observed, v.version)
    case Finished(Failed(_)) => true
  }

  predicate FlightOk(cfg: Config, db: Db, n: Node, f: Flight) {
    && f.loads <= 2
    && f.born <= Notified(n, f.key)
    && Harmless(cfg, n, f.key, f.fence.epoch, f.born)
    && StageOk(cfg, db, n, f)
  }

  /** What every value returned by a flight with this fence and birth is known to reach. */
  function Bound(fence: Fence, born: nat): nat {
    Max(fence.minimum, born)
  }

  predicate CallerOk(cfg: Config, db: Db, n: Node, c: Caller) {
    c.since <= Notified(n, c.key) &&
    match c.stage
    case Asking => c.asked == 0
    case Missed => c.asked == 0
    case Fenced(fc, born) =>
      c.asked == fc.minimum && c.since <= born <= Notified(n, c.key) && Harmless(cfg, n, c.key, fc.epoch, born)
    case Waiting(fc) =>
      var f := FlightKey(fc, c.key);
      c.asked == fc.minimum && f in n.flights && n.flights[f].key == c.key && n.flights[f].fence == fc
      && Bound(fc, n.flights[f].born) >= c.since
    case Answered(Value(v)) => Committed(db, c.key, v) && v.version >= c.since && v.version >= c.asked
    case Answered(Failed(_)) => true
  }

  /** Two holders of one fence: what the one may rely on, the other guarantees. */
  predicate Compatible(key: Key, fence: Fence, born: nat, c: Caller) {
    c.stage.Fenced? && c.key == key && c.stage.fence == fence ==> Bound(fence, born) >= c.stage.born
  }

  predicate PairsOk(n: Node) {
    && (forall f, c :: f in n.flights && c in n.callers ==>
          Compatible(n.flights[f].key, n.flights[f].fence, n.flights[f].born, n.callers[c]))
    && (forall c, d :: c in n.callers && d in n.callers && n.callers[c].stage.Fenced? ==>
          Compatible(n.callers[c].key, n.callers[c].stage.fence, n.callers[c].stage.born, n.callers[d]))
  }

  predicate EntriesOk(db: Db, n: Node) {
    forall k :: k in n.local.resident ==>
      Committed(db, k, n.local.resident[k]) && n.local.resident[k].version >= Notified(n, k)
  }

  predicate FlightsOk(cfg: Config, db: Db, n: Node) {
    forall f :: f in n.flights ==>
      f == FlightKey(n.flights[f].fence, n.flights[f].key) && FlightOk(cfg, db, n, n.flights[f])
  }

  predicate CallersOk(cfg: Config, db: Db, n: Node) {
    forall c :: c in n.callers ==> CallerOk(cfg, db, n, n.callers[c])
  }

  predicate NotifiedOk(db: Db, n: Node) {
    forall k :: k in n.notified ==> n.notified[k] <= Horizon(db, k)
  }

  predicate NodeOk(cfg: Config, db: Db, n: Node) {
    LocalOk(cfg, n.local) && NotifiedOk(db, n) && EntriesOk(db, n) &&
    FlightsOk(cfg, db, n) && CallersOk(cfg, db, n) && PairsOk(n)
  }
}
