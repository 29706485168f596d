/**
 * How a promise beyond the horizon is broken: runs after which a process holds an entry older than
 * the version it was notified of, once through a restart and once by retiring the floor.
 */
module Forgetting {
  import opened Types
  import opened Keys
  import opened Store
  import opened Outbox
  import opened Floors
  import opened Fencing
  import opened Node
  import opened NodeProofs
  import opened Cluster
  import opened ClusterProofs
  import opened Runs
  import opened Reads

  lemma PutRevives(db: Db, key: Key)
    requires KeyOk(key) && !Live(db, key)
    ensures var db' := Step(db, WriteRow(Put(key, []))); Live(db', key) && Generation(db', key) == Horizon(db, key)
  {
  }

  /** For a key without a live row, one write: the row then lies on the old horizon. */
  lemma Revive(cfg: Config, r: Run, key: Key) returns (q: Run)
    requires IsRun(cfg, r) && KeyOk(key)
    ensures IsRun(cfg, q) && r.states <= q.states && r.labels <= q.labels && (NoRestart(r) ==> NoRestart(q))
    ensures var s, t := r.states[|r.states| - 1], q.states[|q.states| - 1];
      t.nodes == s.nodes && Live(t.db, key) && Generation(t.db, key) == Horizon(s.db, key)
  {
    hide Step;
    q := r;
    var s := r.states[|r.states| - 1];
    if !Live(s.db, key) {
      PutRevives(s.db, key);
      ExtendIsRun(cfg, r, StoreStep(WriteRow(Put(key, []))));
      q := Extend(cfg, r, StoreStep(WriteRow(Put(key, []))));
    }
  }

  // ---- Through a restart ----

  lemma NotifyMoves(cfg: Config, s: Sys, n: Id, key: Key, version: nat)
    requires n in s.nodes && n in s.relays && KeyOk(key)
    ensures SysEnabled(s, NodeStep(n, Notify(key, version)))
    ensures var t := SysNext(cfg, s, NodeStep(n, Notify(key, version)));
      && SysEnabled(t, ProcessRestart(n))
      && var u := SysNext(cfg, t, ProcessRestart(n));
         u.db == s.db && n in u.nodes && u.nodes[n].local == Fresh() && u.nodes[n].flights == map[]
  {
    hide Invalidate;
  }

  /** The run that notifies the process and then restarts it. */
  lemma NotifiedThenRestarted(cfg: Config, s: Sys, n: Id, key: Key, version: nat) returns (r: Run)
    requires n in s.nodes && n in s.relays && KeyOk(key)
    ensures IsRun(cfg, r) && |r.labels| > 0 && r.states[0] == s && r.labels[0] == NodeStep(n, Notify(key, version))
    ensures var t := r.states[|r.states| - 1];
      t.db == s.db && n in t.nodes && t.nodes[n].local == Fresh() && t.nodes[n].flights == map[]
  {
    hide SysNext, SysEnabled;
    var notify := NodeStep(n, Notify(key, version));
    NotifyMoves(cfg, s, n, key, version);
    ExtendIsRun(cfg, Run([s], []), notify);
    var q := Extend(cfg, Run([s], []), notify);
    ExtendIsRun(cfg, q, ProcessRestart(n));
    r := Extend(cfg, q, ProcessRestart(n));
  }

  /** Whatever was notified, nothing beyond the horizon can be promised: some continuation holds less. */
  lemma BeyondHorizonFails(cfg: Config, s: Sys, n: Id, key: Key, version: nat, bound: nat) returns (r: Run)
    requires SysOk(cfg, s) && n in s.nodes && n in s.relays && KeyOk(key) && bound > Horizon(s.db, key)
    ensures IsRun(cfg, r) && |r.labels| > 0 && r.states[0] == s && r.labels[0] == NodeStep(n, Notify(key, version))
    ensures !HoldsAtLeast(r.states[|r.states| - 1], n, key, bound)
  {
    hide SysOk, SysNext, SysEnabled, Plays, FlightKey;
    r := NotifiedThenRestarted(cfg, s, n, key, version);
    r := Revive(cfg, r, key);
    var t := r.states[|r.states| - 1];
    var ops, n', _ := GetAlone(cfg, t.db, t.nodes[n], key);
    r := PlayInRun(cfg, r, n, ops, n');
  }

  // ---- Without a restart, by retiring the floor ----

  predicate Others(keys: seq<Key>, key: Key) {
    && key !in keys && (forall i, j :: 0 <= i < j < |keys| ==> keys[i] != keys[j])
    && (forall i :: 0 <= i < |keys| ==> KeyOk(keys[i]))
  }

  /** One applied notification of another key. */
  lemma FloodOne(cfg: Config, db: Db, n: Node, key: Key, keys: seq<Key>, k: Key)
    requires TableOk(n.local.floors, cfg.capacity) && key !in n.local.resident && Newest(n.local.floors, keys)
    requires KeyOk(k) && k != key && k !in keys && |keys| < cfg.capacity
    ensures var m := Next(cfg, db, n, Notify(k, Known(n.local, k) + 1));
      && m.flights == n.flights && key !in m.local.resident && TableOk(m.local.floors, cfg.capacity)
      && Newest(m.local.floors, keys + [k]) && Epoch(cfg, m.local, key) >= Epoch(cfg, n.local, key)
      && (Floor(m.local, key) == Floor(n.local, key) || Epoch(cfg, m.local, key) > Epoch(cfg, n.local, key))
  {
    hide Newest, TableOk;
    var v := Known(n.local, k) + 1;
    InvalidateEffect(cfg, n.local, k, v);
    NewestGrows(n.local.floors, cfg.capacity, keys, k, v);
    var m := Next(cfg, db, n, Notify(k, v));
    assert key !in m.local.resident - {k};
  }

  /** Notifying other keys leaves the key's floor alone or retires it together with its epoch. */
  lemma {:induction false} Flood(cfg: Config, db: Db, n: Node, key: Key, keys: seq<Key>)
    returns (ops: seq<NodeOp>, m: Node)
    requires TableOk(n.local.floors, cfg.capacity) && key !in n.local.resident
    requires Others(keys, key) && |keys| <= cfg.capacity
    ensures Plays(cfg, db, n, ops, m)
    ensures m.flights == n.flights && key !in m.local.resident && TableOk(m.local.floors, cfg.capacity)
    ensures Newest(m.local.floors, keys) && Epoch(cfg, m.local, key) >= Epoch(cfg, n.local, key)
    ensures Floor(m.local, key) == Floor(n.local, key) || Epoch(cfg, m.local, key) > Epoch(cfg, n.local, key)
    decreases |keys|
  {
    hide Next, TableOk, Plays;
    if keys == [] {
      ops, m := [], n;
      assert Newest(n.local.floors, keys);
      NothingPlayed(cfg, db, n);
    } else {
      var front, k := keys[..|keys| - 1], keys[|keys| - 1];
      assert keys == front + [k];
      ops, m := Flood(cfg, db, n, key, front);
      var op := Notify(k, Known(m.local, k) + 1);
      FloodOne(cfg, db, m, key, front, k);
      PlayOneMore(cfg, db, n, ops, m, op);
      ops, m := ops + [op], Next(cfg, db, m, op);
    }
  }

  lemma NothingPlayed(cfg: Config, db: Db, n: Node)
    ensures Plays(cfg, db, n, [], n)
  {
  }

  /** After the flood the floor is gone, and no flight carries the epoch that replaced it. */
  lemma FloodForgets(cfg: Config, db: Db, n: Node, key: Key, keys: seq<Key>) returns (ops: seq<NodeOp>, m: Node)
    requires NodeOk(cfg, db, n) && key !in n.local.resident && Floor(n.local, key) > 0
    requires Others(keys, key) && |keys| == cfg.capacity
    ensures Plays(cfg, db, n, ops, m) && Absent(cfg, m, key) && Floor(m.local, key) == 0
  {
    hide Plays, Others, FlightKey, CallersOk, PairsOk, EntriesOk, NotifiedOk;
    ops, m := Flood(cfg, db, n, key, keys);
    assert key !in keys by { OthersExclude(keys, key); }
    FullOfOthers(m.local.floors, cfg.capacity, keys, key);
    var f := FlightKey(Barrier(cfg, m.local, key), key);
    if f in n.flights {
      assert FlightOk(cfg, db, n, n.flights[f]);
      FlightKeyInjective(n.flights[f].fence, n.flights[f].key, Barrier(cfg, m.local, key), key);
      assert false;
    }
  }

  lemma OthersExclude(keys: seq<Key>, key: Key)
    requires Others(keys, key)
    ensures key !in keys
  {
  }

  /** A notification beyond the horizon removes the entry and leaves a floor. */
  lemma NotifyBeyond(cfg: Config, s: Sys, n: Id, key: Key, version: nat)
    requires SysOk(cfg, s) && n in s.nodes && KeyOk(key) && version > Horizon(s.db, key)
    ensures var t := SysNext(cfg, s, NodeStep(n, Notify(key, version)));
      && t.db == s.db && n in t.nodes && NodeOk(cfg, t.db, t.nodes[n])
      && key !in t.nodes[n].local.resident && Floor(t.nodes[n].local, key) > 0
  {
    hide EventsOk, QueueOk, RelaysOk, LateOk, Accounted, FlightsOk, CallersOk, PairsOk, Invalidate;
    var node := s.nodes[n];
    assert NodeOk(cfg, s.db, node);
    NodeStepKeeps(cfg, s.db, node, Notify(key, version));
    InvalidateEffect(cfg, node.local, key, version);
    var l' := Invalidate(cfg, node.local, key, version);
    if key in l'.resident {
      WithinHorizon(s.db, key, l'.resident[key]);
    }
  }

  lemma WithinHorizon(db: Db, key: Key, view: View)
    requires RowsOk(db) && Committed(db, key, view)
    ensures view.version <= Horizon(db, key)
  {
  }

  /**
   * Within one process lifetime: once as many other keys as the table holds have been notified, the
   * floor is retired, and a load brings back a row older than the notified version.
   */
  lemma BeyondHorizonFailsByRetirement(cfg: Config, s: Sys, n: Id, key: Key, version: nat, keys: seq<Key>)
    returns (r: Run)
    requires SysOk(cfg, s) && n in s.nodes && KeyOk(key) && version > Horizon(s.db, key)
    requires Others(keys, key) && |keys| == cfg.capacity
    ensures IsRun(cfg, r) && |r.labels| > 0 && r.states[0] == s && r.labels[0] == NodeStep(n, Notify(key, version))
    ensures NoRestart(r) && !HoldsAtLeast(r.states[|r.states| - 1], n, key, version)
  {
    hide Plays, Others, Absent;
    r := NotifiedAndRevived(cfg, s, n, key, version);
    var t := r.states[|r.states| - 1];
    var flood, m := FloodForgets(cfg, t.db, t.nodes[n], key, keys);
    r := PlayInRun(cfg, r, n, flood, m);
    var u := r.states[|r.states| - 1];
    var ops, n', _ := GetAlone(cfg, u.db, u.nodes[n], key);
    r := PlayInRun(cfg, r, n, ops, n');
  }

  lemma NotifiedAndRevived(cfg: Config, s: Sys, n: Id, key: Key, version: nat) returns (r: Run)
    requires SysOk(cfg, s) && n in s.nodes && KeyOk(key) && version > Horizon(s.db, key)
    ensures IsRun(cfg, r) && |r.labels| > 0 && r.states[0] == s && r.labels[0] == NodeStep(n, Notify(key, version))
    ensures NoRestart(r)
    ensures var t := r.states[|r.states| - 1];
      && n in t.nodes && NodeOk(cfg, t.db, t.nodes[n]) && key !in t.nodes[n].local.resident
      && Floor(t.nodes[n].local, key) > 0 && Live(t.db, key) && Generation(t.db, key) == Horizon(s.db, key)
  {
    hide SysNext, NodeOk, DbOk;
    var notify := NodeStep(n, Notify(key, version));
    NotifyBeyond(cfg, s, n, key, version);
    ExtendIsRun(cfg, Run([s], []), notify);
    r := Extend(cfg, Run([s], []), notify);
    r := Revive(cfg, r, key);
    RunOk(cfg, r, |r.states| - 1);
  }
}
