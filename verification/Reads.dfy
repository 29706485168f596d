/** What Get answers: on a hit, alone on a miss, as a waiter of a flight, and after a rejected load. */
module Reads {
  import opened Types
  import opened Keys
  import opened Store
  import opened Fencing
  import opened Node
  import opened Cluster
  import opened ClusterProofs
  import opened Runs

  // ---- Waiters and hits ----

  /**
   * A flight that is delivered leaves the table, and exactly its waiters are answered, with exactly what
   * it finished with; nobody else's call changes.
   */
  lemma DeliverAnswers(cfg: Config, db: Db, n: Node, f: Text, c: nat)
    requires f in n.flights && n.flights[f].stage.Finished? && c in n.callers
    ensures var n', was := Next(cfg, db, n, Deliver(f)), n.callers[c];
      && f !in n'.flights && n'.local == n.local && c in n'.callers
      && (was.stage.Waiting? && FlightKey(was.stage.fence, was.key) == f ==>
            n'.callers[c] == Caller(was.key, was.since, was.asked, Answered(n.flights[f].stage.reply)))
      && (!was.stage.Waiting? || FlightKey(was.stage.fence, was.key) != f ==> n'.callers[c] == was)
  {
    hide FlightKey;
  }

  /** A resident key is answered at once with its entry, whatever its floor; nothing is loaded. */
  lemma GetHits(cfg: Config, db: Db, n: Node, key: Key) returns (n': Node, c: nat)
    requires key in n.local.resident && KeyOk(key)
    ensures c !in n.callers && Plays(cfg, db, n, [Start(c, key)] + [Lookup(c)], n')
    ensures c in n'.callers && n'.callers[c].stage == Answered(Value(n.local.resident[key])) && n'.flights == n.flights
  {
    c := Unused(n.callers.Keys);
    var a := Next(cfg, db, n, Start(c, key));
    PlayOneMore(cfg, db, n, [], n, Start(c, key));
    assert [] + [Start(c, key)] == [Start(c, key)];
    n' := Next(cfg, db, a, Lookup(c));
    PlayOneMore(cfg, db, n, [Start(c, key)], a, Lookup(c));
  }

  /** A flight whose key has become resident in a new enough version ends with that entry, without a load. */
  lemma FlightHits(cfg: Config, db: Db, n: Node, f: Text)
    requires f in n.flights && (n.flights[f].stage.First? || n.flights[f].stage.Rechecking?)
    ensures var flight, n' := n.flights[f], Next(cfg, db, n, FlightLookup(f));
      var fence := if flight.stage.First? then flight.fence else flight.stage.fence;
      && f in n'.flights && n'.flights[f].loads == flight.loads
      && n'.flights[f].stage ==
           if flight.key in n.local.resident && n.local.resident[flight.key].version >= fence.minimum
           then Finished(Value(n.local.resident[flight.key]))
           else Loading(if flight.stage.First? then 0 else 1, fence)
  {
  }

  // ---- A miss, alone ----

  /** No entry, and no flight under the fence a read would capture now. */
  predicate Absent(cfg: Config, n: Node, key: Key) {
    key !in n.local.resident && FlightKey(Barrier(cfg, n.local, key), key) !in n.flights
  }

  /** A caller waits on the flight it registered, which stands at this stage. */
  predicate Waits(n: Node, c: nat, key: Key, fence: Fence, stage: Stage) {
    var f := FlightKey(fence, key);
    && c in n.callers && n.callers[c].key == key && n.callers[c].stage == CallerStage.Waiting(fence)
    && f in n.flights && n.flights[f].key == key && n.flights[f].stage == stage
  }

  lemma AskAndMiss(cfg: Config, db: Db, n: Node, key: Key, c: nat) returns (o: Node)
    requires key !in n.local.resident && c !in n.callers && KeyOk(key)
    ensures Plays(cfg, db, n, [Start(c, key)] + [Lookup(c)], o)
    ensures o.local == n.local && o.flights == n.flights && c in o.callers
    ensures o.callers[c].key == key && o.callers[c].stage == Missed
  {
    var a := Next(cfg, db, n, Start(c, key));
    PlayOneMore(cfg, db, n, [], n, Start(c, key));
    assert [] + [Start(c, key)] == [Start(c, key)];
    o := Next(cfg, db, a, Lookup(c));
    PlayOneMore(cfg, db, n, [Start(c, key)], a, Lookup(c));
  }

  lemma FenceAndLaunch(cfg: Config, db: Db, n: Node, ops: seq<NodeOp>, m: Node, c: nat, key: Key) returns (o: Node)
    requires Plays(cfg, db, n, ops, m) && Absent(cfg, m, key) && c in m.callers
    requires m.callers[c].key == key && m.callers[c].stage == Missed
    ensures Plays(cfg, db, n, ops + [Capture(c)] + [Join(c)], o) && o.local == m.local
    ensures var fence := Barrier(cfg, m.local, key);
      Waits(o, c, key, fence, First) && o.flights[FlightKey(fence, key)].fence == fence
  {
    hide FlightKey;
    var a := Next(cfg, db, m, Capture(c));
    PlayOneMore(cfg, db, n, ops, m, Capture(c));
    assert a.callers[c].stage.Fenced? && a.callers[c].stage.fence == Barrier(cfg, m.local, key);
    PlayOneMore(cfg, db, n, ops + [Capture(c)], a, Join(c));
    o := Next(cfg, db, a, Join(c));
  }

  /** One step of the flight: the local state may change, caller and flight stay together. */
  lemma LookStep(cfg: Config, db: Db, m: Node, c: nat, key: Key, fence: Fence, stage: Stage)
    requires Waits(m, c, key, fence, stage) && key !in m.local.resident
    requires stage == Rechecking(fence) || (stage.First? && m.flights[FlightKey(fence, key)].fence == fence)
    ensures var op := FlightLookup(FlightKey(fence, key));
      && Enabled(db, m, op) && Next(cfg, db, m, op).local == m.local
      && Waits(Next(cfg, db, m, op), c, key, fence, Loading(if stage.First? then 0 else 1, fence))
  {
    hide FlightKey;
  }

  lemma ReadStep(cfg: Config, db: Db, m: Node, c: nat, key: Key, fence: Fence, attempt: nat)
    requires Waits(m, c, key, fence, Loading(attempt, fence))
    ensures var op := Read(FlightKey(fence, key));
      && Enabled(db, m, op) && Next(cfg, db, m, op).local == m.local
      && Waits(Next(cfg, db, m, op), c, key, fence,
           if key in db.rows && !db.rows[key].deleted
           then Fetched(attempt, fence, View(db.rows[key].value, db.rows[key].version))
           else Finished(Failed(NotFound)))
  {
    hide FlightKey;
  }

  /** With nothing new known since the fence, a load is cached and returned, retried, or given up as stale. */
  lemma FillStep(cfg: Config, db: Db, m: Node, c: nat, key: Key, fence: Fence, attempt: nat, view: View)
    requires Waits(m, c, key, fence, Fetched(attempt, fence, view))
    requires key !in m.local.resident && fence == Barrier(cfg, m.local, key)
    ensures var op := Fill(FlightKey(fence, key), m.local.resident.Keys + {key});
      && Enabled(db, m, op)
      && Next(cfg, db, m, op).local ==
           (if view.version >= fence.minimum then m.local.(resident := m.local.resident[key := view]) else m.local)
      && Waits(Next(cfg, db, m, op), c, key, fence,
           if view.version >= fence.minimum then Finished(Value(view))
           else if attempt == 0 then Rejected(fence.minimum) else Finished(Failed(Stale)))
  {
    hide FlightKey;
    var kept := m.local.resident.Keys + {key};
    assert Restrict(m.local.resident[key := view], kept) == m.local.resident[key := view];
  }

  lemma RebarrierStep(cfg: Config, db: Db, m: Node, c: nat, key: Key, fence: Fence)
    requires Waits(m, c, key, fence, Rejected(fence.minimum)) && fence == Barrier(cfg, m.local, key)
    ensures var op := Rebarrier(FlightKey(fence, key));
      && Enabled(db, m, op) && Next(cfg, db, m, op).local == m.local
      && Waits(Next(cfg, db, m, op), c, key, fence, Rechecking(fence))
  {
    hide FlightKey;
  }

  lemma DeliverStep(cfg: Config, db: Db, m: Node, c: nat, key: Key, fence: Fence, reply: Reply)
    requires Waits(m, c, key, fence, Finished(reply))
    ensures var op := Deliver(FlightKey(fence, key));
      && Enabled(db, m, op) && Next(cfg, db, m, op).local == m.local
      && c in Next(cfg, db, m, op).callers && Next(cfg, db, m, op).callers[c].stage == Answered(reply)
  {
    hide FlightKey;
    DeliverAnswers(cfg, db, m, FlightKey(fence, key), c);
  }

  /** Looking, reading and checking once more. */
  lemma Attempt(cfg: Config, db: Db, n: Node, ops: seq<NodeOp>, m: Node, c: nat, key: Key, fence: Fence, stage: Stage)
    returns (ops': seq<NodeOp>, o: Node)
    requires Plays(cfg, db, n, ops, m) && Waits(m, c, key, fence, stage) && key !in m.local.resident
    requires stage == Rechecking(fence) || (stage.First? && m.flights[FlightKey(fence, key)].fence == fence)
    requires fence == Barrier(cfg, m.local, key)
    ensures Plays(cfg, db, n, ops', o)
    ensures Waits(o, c, key, fence, AfterAttempt(db, key, fence.minimum, stage.First?))
    ensures o.local == if Current(db, key, fence.minimum)
      then m.local.(resident := m.local.resident[key := RowView(db, key)]) else m.local
  {
    hide Plays, Waits, Next, Enabled, FlightKey;
    var f, attempt := FlightKey(fence, key), if stage.First? then 0 else 1;
    LookStep(cfg, db, m, c, key, fence, stage);
    PlayOneMore(cfg, db, n, ops, m, FlightLookup(f));
    var a := Next(cfg, db, m, FlightLookup(f));
    ReadStep(cfg, db, a, c, key, fence, attempt);
    PlayOneMore(cfg, db, n, ops + [FlightLookup(f)], a, Read(f));
    o := Next(cfg, db, a, Read(f));
    ops' := ops + [FlightLookup(f)] + [Read(f)];
    if key in db.rows && !db.rows[key].deleted {
      var kept := o.local.resident.Keys + {key};
      FillStep(cfg, db, o, c, key, fence, attempt, RowView(db, key));
      PlayOneMore(cfg, db, n, ops', o, Fill(f, kept));
      ops', o := ops' + [Fill(f, kept)], Next(cfg, db, o, Fill(f, kept));
    }
  }

  function RowView(db: Db, key: Key): View
    requires key in db.rows
  {
    View(db.rows[key].value, db.rows[key].version)
  }

  /** The key has a live row no older than the minimum. */
  predicate Current(db: Db, key: Key, minimum: nat) {
    key in db.rows && !db.rows[key].deleted && db.rows[key].version >= minimum
  }

  function AfterAttempt(db: Db, key: Key, minimum: nat, first: bool): Stage {
    if key !in db.rows || db.rows[key].deleted then Finished(Failed(NotFound))
    else if db.rows[key].version >= minimum then Finished(Value(RowView(db, key)))
    else if first then Rejected(minimum) else Finished(Failed(Stale))
  }

  /**
   * A Get that misses and runs undisturbed is answered with the bytes and version of the live row, which
   * it leaves in the cache; not found for a tombstone or an unknown key; and stale, after one retry, only
   * if the row is older than the floor retained for the key.
   */
  lemma GetAlone(cfg: Config, db: Db, n: Node, key: Key) returns (ops: seq<NodeOp>, n': Node, c: nat)
    requires Absent(cfg, n, key) && KeyOk(key)
    ensures Plays(cfg, db, n, ops, n') && c !in n.callers && c in n'.callers
    ensures n'.callers[c].stage == Answered(
      if key !in db.rows || db.rows[key].deleted then Failed(NotFound)
      else if db.rows[key].version < Floor(n.local, key) then Failed(Stale)
      else Value(View(db.rows[key].value, db.rows[key].version)))
    ensures n'.local == if Current(db, key, Floor(n.local, key))
      then n.local.(resident := n.local.resident[key := View(db.rows[key].value, db.rows[key].version)]) else n.local
  {
    hide Plays, Waits, Next, Enabled, FlightKey;
    c := Unused(n.callers.Keys);
    var fence := Barrier(cfg, n.local, key);
    var f := FlightKey(fence, key);
    var m := AskAndMiss(cfg, db, n, key, c);
    ops := [Start(c, key)] + [Lookup(c)];
    m := FenceAndLaunch(cfg, db, n, ops, m, c, key);
    ops := ops + [Capture(c)] + [Join(c)];
    ops, m := Attempt(cfg, db, n, ops, m, c, key, fence, First);
    var stage := AfterAttempt(db, key, fence.minimum, true);
    if stage.Rejected? {
      RebarrierStep(cfg, db, m, c, key, fence);
      PlayOneMore(cfg, db, n, ops, m, Rebarrier(f));
      ops, m := ops + [Rebarrier(f)], Next(cfg, db, m, Rebarrier(f));
      ops, m := Attempt(cfg, db, n, ops, m, c, key, fence, Rechecking(fence));
      stage := AfterAttempt(db, key, fence.minimum, false);
    }
    DeliverStep(cfg, db, m, c, key, fence, stage.reply);
    PlayOneMore(cfg, db, n, ops, m, Deliver(f));
    ops, n' := ops + [Deliver(f)], Next(cfg, db, m, Deliver(f));
  }

  /** After a rejection the flight goes on from the newest epoch and at least the rejected minimum. */
  lemma RetryFence(cfg: Config, db: Db, n: Node, f: Text)
    requires f in n.flights && n.flights[f].stage.Rejected?
    ensures var flight, n' := n.flights[f], Next(cfg, db, n, Rebarrier(f));
      && f in n'.flights && n'.flights[f].stage.Rechecking?
      && var fence := n'.flights[f].stage.fence;
         && fence.epoch == n.local.epochs[cfg.bucket(flight.key)]
         && fence.minimum == Max(flight.stage.minimum, Known(n.local, flight.key))
  {
  }

  // ---- In the system ----

  /** Every run in which process n has neither entry nor flight for a valid key goes on to such an answer. */
  lemma GetInRun(cfg: Config, r: Run, n: Id, key: Key) returns (q: Run, c: nat)
    requires IsRun(cfg, r) && n in r.states[|r.states| - 1].nodes && KeyOk(key)
    requires Absent(cfg, r.states[|r.states| - 1].nodes[n], key)
    ensures IsRun(cfg, q) && r.states <= q.states && r.labels <= q.labels
    ensures var s, t := r.states[|r.states| - 1], q.states[|q.states| - 1];
      && n in t.nodes && c !in s.nodes[n].callers && c in t.nodes[n].callers
      && t.nodes[n].callers[c].stage == Answered(
           if key !in s.db.rows || s.db.rows[key].deleted then Failed(NotFound)
           else if s.db.rows[key].version < Floor(s.nodes[n].local, key) then Failed(Stale)
           else Value(View(s.db.rows[key].value, s.db.rows[key].version)))
  {
    hide Plays, Absent, SysNext, SysEnabled;
    var s := r.states[|r.states| - 1];
    var ops, n';
    ops, n', c := GetAlone(cfg, s.db, s.nodes[n], key);
    q := PlayInRun(cfg, r, n, ops, n');
  }
}
