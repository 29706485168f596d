/**
 * The cache group that updates its fields in place performs steps of the process model: each of
 * its critical sections ends in a state that a short series of steps reaches too, the extra ones
 * being the lapse of an entry that expired, and so keeps the invariant of the process model.
 */
module Refinement {
  import opened Types
  import opened Keys
  import opened Store
  import opened Fencing
  import opened Recency
  import opened Group
  import opened Node
  import opened NodeProofs

  /** The process whose cache holds the entries of this recency order. */
  ghost predicate Serves(n: Node, s: Items) {
    DistinctKeys(s) && n.local.resident == ResidentOf(s)
  }

  /** Expiry noticed by a look at one key sheds that key or nothing. */
  lemma LapseIsShed(cfg: Config, db: Db, n: Node, s: Items, key: Key, now: nat) returns (shed: set<Key>)
    requires Serves(n, s)
    ensures shed <= {key}
    ensures Next(cfg, db, n, Shed(shed)) == n.(local := Lapsed(n.local, s, key, now))
    ensures Serves(Next(cfg, db, n, Shed(shed)), ExpireKey(s, key, now))
  {
    hide ExpireKey, ResidentOf;
    ResidentLapsed(s, key, now);
    shed := if ExpireKey(s, key, now) == s then {} else {key};
    assert n.local.resident - {} == n.local.resident;
  }

  /** What InvalidateVersion leaves in the object is what shedding, notifying and shedding leave. */
  lemma InvalidationIsSteps(
      cfg: Config, db: Db, n: Node, s: Items, key: Key, version: nat, now: nat, later: nat, l': Local)
    returns (before: set<Key>, after: set<Key>)
    requires Serves(n, s) && KeyOk(key) && Invalidated(cfg, n.local, s, key, version, now, later, l')
    ensures before <= {key} && after <= {key}
    ensures var a := Next(cfg, db, n, Shed(before));
      var b := Next(cfg, db, a, Notify(key, version));
      Next(cfg, db, b, Shed(after)).local == l'
  {
    hide ExpireKey, ResidentOf, Invalidate;
    before := LapseIsShed(cfg, db, n, s, key, now);
    var seen := ExpireKey(s, key, now);
    after := if ExpireKey(seen, key, later) == seen then {} else {key};
    var m := Invalidate(cfg, Lapsed(n.local, s, key, now), key, version);
    assert m.resident - {} == m.resident;
  }

  /** The object after InvalidateVersion is as consistent as the one before. */
  lemma InvalidationKeepsPromises(
      cfg: Config, db: Db, n: Node, s: Items, key: Key, version: nat, now: nat, later: nat, l': Local)
    returns (n': Node)
    requires DbOk(db) && NodeOk(cfg, db, n)
    requires Serves(n, s) && KeyOk(key) && Invalidated(cfg, n.local, s, key, version, now, later, l')
    ensures NodeOk(cfg, db, n') && n'.local == l' && n'.flights == n.flights && n'.callers == n.callers
    ensures version <= Horizon(db, key) ==> Notified(n', key) >= version
  {
    hide NodeOk, Invalidate, Invalidated;
    var before, after := InvalidationIsSteps(cfg, db, n, s, key, version, now, later, l');
    var a := Next(cfg, db, n, Shed(before));
    NodeStepKeeps(cfg, db, n, Shed(before));
    var b := Next(cfg, db, a, Notify(key, version));
    NodeStepKeeps(cfg, db, a, Notify(key, version));
    NodeStepKeeps(cfg, db, b, Shed(after));
    n' := Next(cfg, db, b, Shed(after));
  }

  /**
   * The end of loadSource on the object is shedding followed by the flight's own fill step, and the
   * reported verdict and minimum are what the flight goes on with.
   */
  lemma FillIsSteps(cfg: Config, db: Db, n: Node, f: Text, s: Items, now: nat, minimum: nat, stale: bool, l': Local)
    returns (before: set<Key>)
    requires Serves(n, s) && f in n.flights && n.flights[f].stage.Fetched?
    requires var flight := n.flights[f];
      Checked(cfg, n.local, s, flight.key, flight.stage.fence, flight.stage.view, now, minimum, stale, l')
    ensures before <= {n.flights[f].key}
    ensures var n' := Next(cfg, db, Next(cfg, db, n, Shed(before)), Fill(f, l'.resident.Keys));
      && n'.local == l' && f in n'.flights
      && n'.flights[f].stage ==
           if !stale then Finished(Value(n.flights[f].stage.view))
           else if n.flights[f].stage.attempt == 0 then Rejected(minimum) else Finished(Failed(Stale))
  {
    hide ExpireKey, ResidentOf;
    before := LapseIsShed(cfg, db, n, s, n.flights[f].key, now);
  }

  lemma ResidentCons(item: Item, s: Items)
    ensures ResidentOf([item] + s) == ResidentOf(s)[item.key := item.view]
  {
    assert ([item] + s)[1..] == s;
  }

  /** Refreshing recency is invisible to the process model. */
  lemma TouchIsInvisible(s: Items, key: Key)
    requires DistinctKeys(s)
    ensures DistinctKeys(Touch(s, key)) && ResidentOf(Touch(s, key)) == ResidentOf(s)
  {
    hide DropKey, LookupItem, ResidentOf;
    if LookupItem(s, key).Some? {
      var _ := LookupFinds(s, key);
      var d, item := DropKey(s, key), LookupItem(s, key).value;
      DropKeyDistinct(s, key);
      ResidentDropped(s, key);
      ResidentLookup(s, key);
      ResidentCons(item, d);
      assert (ResidentOf(s) - {key})[key := item.view] == ResidentOf(s);
    }
  }

  lemma SweepOneSheds(s: Items, i: nat, now: nat)
    requires DistinctKeys(s) && i < |s| && Expired(s[i], now)
    ensures DistinctKeys(RemoveAt(s, i)) && ResidentOf(RemoveAt(s, i)) == ResidentOf(s) - {s[i].key}
  {
    DropKeyAt(s, i);
    DropKeyDistinct(s, s[i].key);
    ResidentDropped(s, s[i].key);
  }

  /** Some entry of the order with this key has expired. */
  ghost predicate ExpiredIn(s: Items, key: Key, now: nat) {
    exists i :: 0 <= i < |s| && s[i].key == key && Expired(s[i], now)
  }

  lemma StillExpiredIn(s: Items, i: nat, key: Key, now: nat)
    requires i < |s| && ExpiredIn(RemoveAt(s, i), key, now)
    ensures ExpiredIn(s, key, now)
  {
    var r := RemoveAt(s, i);
    var j :| 0 <= j < |r| && r[j].key == key && Expired(r[j], now);
    assert r[j] == s[if j < i then j else j + 1];
  }

  lemma {:induction false} SweepSheds(s: Items, p: nat, now: nat, checks: nat) returns (shed: set<Key>)
    requires DistinctKeys(s) && p <= |s|
    ensures DistinctKeys(Sweep(s, p, now, checks).0)
    ensures ResidentOf(Sweep(s, p, now, checks).0) == ResidentOf(s) - shed
    ensures forall k :: k in shed ==> ExpiredIn(s, k, now)
    decreases checks
  {
    hide ResidentOf, DistinctKeys, ExpiredIn;
    shed := {};
    if checks > 0 && s != [] {
      var i := (if p == 0 then |s| else p) - 1;
      var r := SweepOne(s, p, now);
      if Expired(s[i], now) {
        SweepOneSheds(s, i, now);
        shed := SweepSheds(r.0, r.1, now, checks - 1);
        forall k | k in shed ensures ExpiredIn(s, k, now) { StillExpiredIn(s, i, k, now); }
        IsExpiredIn(s, i, now);
        assert ResidentOf(s) - {s[i].key} - shed == ResidentOf(s) - (shed + {s[i].key});
        shed := shed + {s[i].key};
      } else {
        shed := SweepSheds(r.0, r.1, now, checks - 1);
      }
    } else {
      assert ResidentOf(s) - {} == ResidentOf(s);
    }
  }

  lemma IsExpiredIn(s: Items, i: nat, now: nat)
    requires i < |s| && Expired(s[i], now)
    ensures ExpiredIn(s, s[i].key, now)
  {
  }

  /** Maintenance is a shed of expired entries and nothing else. */
  lemma MaintenanceIsShed(cfg: Config, db: Db, n: Node, s: Items, p: nat, now: nat, checks: nat)
    returns (shed: set<Key>)
    requires Serves(n, s) && p <= |s|
    ensures Serves(Next(cfg, db, n, Shed(shed)), Sweep(s, p, now, checks).0)
    ensures forall k :: k in shed ==> ExpiredIn(s, k, now)
  {
    hide ResidentOf, DistinctKeys, ExpiredIn, Sweep;
    shed := SweepSheds(s, p, now, checks);
  }
}
