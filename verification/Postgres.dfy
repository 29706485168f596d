/** The store object: each method runs one statement against the tables it holds. */
module Postgres {
  import opened Types
  import opened Keys
  import opened Store
  import opened Outbox

  datatype ReadResult = Found(value: Bytes, version: nat) | Missing | BadKey

  datatype ClaimResult = Taken(event: Event) | NoneDue | BadLease

  datatype FinishResult = Owned | LeaseLost | BadCompletion

  class ProductStore {
    var rows: map<Key, Row>
    var queue: map<nat, Queued>
    var clock: nat
    ghost var log: map<Key, seq<Row>>
    var nextId: nat
    ghost var journal: seq<Notice>

    ghost predicate Valid()
      reads this
    {
      DbOk(Tables()) && nextId == |journal| + 1
    }

    ghost function Tables(): Db
      reads this
    {
      Db(rows, queue, clock, log, journal)
    }

    constructor ()
      ensures Valid() && Tables() == EmptyDb
    {
      rows, queue, clock, log, nextId, journal := map[], map[], 0, map[], 1, [];
    }

    method GetVersioned(key: Key) returns (r: ReadResult)
      requires Valid()
      ensures r.BadKey? <==> !KeyOk(key)
      ensures r.Found? <==> KeyOk(key) && key in rows && !rows[key].deleted
      ensures r.Found? ==> r.value == rows[key].value && r.version == rows[key].version
      ensures r.Found? <==> KeyOk(key) && Live(Tables(), key)
    {
      if !KeyOk(key) {
        return BadKey;
      }
      if key in rows && !rows[key].deleted {
        r := Found(rows[key].value, rows[key].version);
      } else {
        r := Missing;
      }
    }

    /** The data-modifying statement: row and event in one transaction. */
    method Commit(key: Key, value: Bytes, deleted: bool) returns (version: nat)
      requires Valid()
      modifies this
      ensures Valid() && Tables() == Change(old(Tables()), key, value, deleted)
      ensures version == Generation(Tables(), key) == Generation(old(Tables()), key) + 1
    {
      hide RowsOk, EventsOk, QueueOk;
      ChangeKeepsRows(Tables(), key, value, deleted);
      ChangeKeepsEvents(Tables(), key, value, deleted);
      ChangeKeepsQueue(Tables(), key, value, deleted);
      version := if key in rows then rows[key].version + 1 else 1;
      var row := Row(value, version, deleted);
      log := log[key := History(Tables(), key) + [row]];
      rows := rows[key := row];
      queue := queue[nextId := Queued(key, version, clock, None, 0, None)];
      nextId := nextId + 1;
      journal := journal + [Notice(key, version)];
    }

    method Put(key: Key, value: Bytes) returns (r: WriteResult)
      requires Valid()
      modifies this
      ensures Valid() && (Tables(), r) == Execute(old(Tables()), Write.Put(key, value))
      ensures r.Applied? <==> KeyOk(key) && |value| <= MAX_VALUE_BYTES
      ensures r.Applied? ==>
        && r.version == (if key in old(rows) then old(rows)[key].version else 0) + 1
        && rows == old(rows)[key := Row(value, r.version, false)]
        && queue == old(queue)[old(nextId) := Queued(key, r.version, clock, None, 0, None)]
    {
      hide DbOk, KeyOk;
      if !KeyOk(key) || |value| > MAX_VALUE_BYTES {
        return Invalid;
      }
      var version := Commit(key, value, false);
      r := Applied(version);
    }

    /** Zero creates an absent or deleted key; a positive version replaces exactly that generation. */
    method PutIfVersion(key: Key, value: Bytes, expected: int) returns (r: WriteResult)
      requires Valid()
      modifies this
      ensures Valid() && (Tables(), r) == Execute(old(Tables()), PutIf(key, value, expected))
      ensures r.Invalid? <==> !KeyOk(key) || |value| > MAX_VALUE_BYTES || expected < 0
      ensures r.Applied? <==>
        && !r.Invalid?
        && if expected == 0 then key !in old(rows) || old(rows)[key].deleted
           else key in old(rows) && old(rows)[key].version == expected && !old(rows)[key].deleted
      ensures r.Applied? ==>
        && r.version == (if key in old(rows) then old(rows)[key].version else 0) + 1
        && rows == old(rows)[key := Row(value, r.version, false)]
        && queue == old(queue)[old(nextId) := Queued(key, r.version, clock, None, 0, None)]
      ensures !r.Applied? ==> Tables() == old(Tables())
    {
      hide DbOk, KeyOk;
      if !KeyOk(key) || |value| > MAX_VALUE_BYTES || expected < 0 {
        return Invalid;
      }
      var matches: bool;
      if expected == 0 {
        matches := key !in rows || rows[key].deleted;
      } else {
        matches := key in rows && rows[key].version == expected && !rows[key].deleted;
      }
      if !matches {
        return Refused;
      }
      var version := Commit(key, value, false);
      r := Applied(version);
    }

    method Delete(key: Key) returns (r: WriteResult)
      requires Valid()
      modifies this
      ensures Valid() && (Tables(), r) == Execute(old(Tables()), Write.Delete(key))
      ensures r.Applied? <==> KeyOk(key) && key in old(rows) && !old(rows)[key].deleted
      ensures r.Applied? ==>
        && r.version == old(rows)[key].version + 1 && rows == old(rows)[key := Row([], r.version, true)]
        && queue == old(queue)[old(nextId) := Queued(key, r.version, clock, None, 0, None)]
      ensures !r.Applied? ==> Tables() == old(Tables())
    {
      hide DbOk, KeyOk;
      if !KeyOk(key) {
        return Invalid;
      }
      if key !in rows || rows[key].deleted {
        return Unchanged;
      }
      var version := Commit(key, [], true);
      r := Applied(version);
    }

    method DeleteIfVersion(key: Key, expected: int) returns (r: WriteResult)
      requires Valid()
      modifies this
      ensures Valid() && (Tables(), r) == Execute(old(Tables()), DeleteIf(key, expected))
      ensures r.Invalid? <==> !KeyOk(key) || expected <= 0
      ensures r.Applied? <==>
        !r.Invalid? && key in old(rows) && old(rows)[key].version == expected && !old(rows)[key].deleted
      ensures r.Applied? ==>
        && r.version == expected + 1 && rows == old(rows)[key := Row([], r.version, true)]
        && queue == old(queue)[old(nextId) := Queued(key, r.version, clock, None, 0, None)]
      ensures !r.Applied? ==> Tables() == old(Tables())
    {
      hide DbOk, KeyOk;
      if !KeyOk(key) || expected <= 0 {
        return Invalid;
      }
      if key !in rows || rows[key].version != expected || rows[key].deleted {
        return Refused;
      }
      var version := Commit(key, [], true);
      r := Applied(version);
    }

    /** Claim: of the due rows that nobody has locked, the one available first, or nothing if there is none. */
    method Claim(lease: nat, locked: set<nat>) returns (r: ClaimResult)
      requires Valid()
      modifies this`queue
      ensures Valid() && (r.BadLease? <==> lease == 0 || lease > MINUTE)
      ensures r.NoneDue? ==> forall id :: id in queue ==>
        || queue[id].delivered.Some? || queue[id].available > clock
        || (queue[id].leased.Some? && queue[id].leased.value > clock) || id in locked
      ensures r.Taken? ==> var id, was := r.event.id, old(queue);
        && id in was && id !in locked && was[id].delivered.None? && was[id].available <= clock
        && (was[id].leased.None? || was[id].leased.value <= clock)
        && (forall j :: (j in was && j !in locked && was[j].delivered.None? && was[j].available <= clock
                         && (was[j].leased.None? || was[j].leased.value <= clock)) ==>
              was[id].available < was[j].available || (was[id].available == was[j].available && id <= j))
        && r.event == Event(id, was[id].key, was[id].version, was[id].attempts + 1)
        && queue == was[id := was[id].(attempts := was[id].attempts + 1, leased := Some(clock + lease))]
      ensures r.Taken? ==>
        && ClaimWins(old(Tables()), DbOp.Claim(r.event.id, lease, locked))
        && Tables() == Step(old(Tables()), DbOp.Claim(r.event.id, lease, locked))
      ensures !r.Taken? ==> Tables() == old(Tables())
    {
      hide RowsOk, EventsOk, Execute, PurgeWins, FinishWins;
      if lease == 0 || lease > MINUTE {
        return BadLease;
      }
      ghost var db := Tables();
      var id := FirstClaimable(locked);
      if id.None? {
        forall j | j in queue && j !in locked ensures
          || queue[j].delivered.Some? || queue[j].available > clock
          || (queue[j].leased.Some? && queue[j].leased.value > clock)
        {
          assert !Claimable(db, j);
        }
        return NoneDue;
      }
      assert ClaimWins(db, DbOp.Claim(id.value, lease, locked));
      ClaimExact(db, id.value, lease, locked);
      StepKeeps(db, DbOp.Claim(id.value, lease, locked));
      var row := queue[id.value];
      queue := queue[id.value := row.(attempts := row.attempts + 1, leased := Some(clock + lease))];
      r := Taken(Event(id.value, row.key, row.version, row.attempts + 1));
    }

    method FirstClaimable(locked: set<nat>) returns (id: Option<nat>)
      ensures id.Some? ==> Claimable(Tables(), id.value) && id.value !in locked
      ensures id.Some? ==>
        forall j :: j in queue && Claimable(Tables(), j) && j !in locked ==> Earlier(queue, id.value, j)
      ensures id.None? ==> forall j :: Claimable(Tables(), j) ==> j in locked
    {
      var candidates := set i | i in queue && queue[i].delivered.None? && queue[i].available <= clock
        && (queue[i].leased.None? || queue[i].leased.value <= clock) && i !in locked;
      assert forall j :: Claimable(Tables(), j) && j !in locked ==> j in candidates;
      if candidates == {} {
        return None;
      }
      ghost var some := FirstExists(queue, candidates);
      var first :| first in candidates && First(queue, candidates, first);
      id := Some(first);
      forall j | j in queue && Claimable(Tables(), j) && j !in locked ensures Earlier(queue, first, j) {
        assert j in candidates;
        FirstPrecedes(queue, candidates, first, j);
      }
    }

    /** Finish: owned exactly when this token still holds an unexpired lease on an undelivered row. */
    method Finish(event: Event, ok: bool, retry: nat) returns (r: FinishResult)
      requires Valid()
      modifies this`queue
      ensures Valid() && Tables() == Step(old(Tables()), DbOp.Finish(event.id, event.attempt, ok, retry))
      ensures r.BadCompletion? <==> event.id == 0 || event.attempt == 0 || retry > MINUTE
      ensures r.Owned? <==> var was := old(queue);
        && !r.BadCompletion? && event.id in was && was[event.id].attempts == event.attempt
        && was[event.id].delivered.None? && was[event.id].leased.Some? && was[event.id].leased.value > clock
      ensures r.Owned? <==> FinishWins(old(Tables()), DbOp.Finish(event.id, event.attempt, ok, retry))
      ensures r.Owned? ==> var was := old(queue)[event.id];
        queue == old(queue)[event.id :=
          if ok then was.(delivered := Some(clock), leased := None)
          else was.(available := clock + retry, leased := None)]
      ensures !r.Owned? ==> Tables() == old(Tables())
    {
      hide RowsOk, EventsOk, Execute, PurgeWins, ClaimWins;
      StepKeeps(Tables(), DbOp.Finish(event.id, event.attempt, ok, retry));
      if event.id == 0 || event.attempt == 0 || retry > MINUTE {
        return BadCompletion;
      }
      r := LeaseLost;
      if event.id in queue {
        var row := queue[event.id];
        if row.attempts == event.attempt && row.delivered.None? && row.leased.Some? && row.leased.value > clock {
          queue := queue[event.id := row.(delivered := if ok then Some(clock) else None,
                                          available := if ok then row.available else clock + retry,
                                          leased := None)];
          r := Owned;
        }
      }
    }

    /** PurgeDelivered: one batch of the oldest rows delivered before the retention horizon. */
    method PurgeDelivered(retention: nat, limit: int, locked: set<nat>) returns (removed: Option<nat>)
      requires Valid()
      modifies this`queue
      ensures Valid()
      ensures removed.None? <==> retention < HOUR || limit < 1 || limit > 1000
      ensures removed.None? ==> Tables() == old(Tables())
      ensures removed.Some? ==>
        var ids := old(queue).Keys - queue.Keys;
        && removed.value == |ids| && PurgeWins(old(Tables()), Purge(ids, retention, limit, locked))
        && Tables() == Step(old(Tables()), Purge(ids, retention, limit, locked))
        && queue == old(queue) - ids && PurgedOldest(old(queue), clock, ids, retention, limit, locked)
    {
      hide PurgedOldest;
      hide PurgeWins, Ahead, DbOk, Execute, ClaimWins, FinishWins;
      if retention < HOUR || limit < 1 || limit > 1000 {
        return None;
      }
      ghost var db := Tables();
      var rows := set i | i in queue && queue[i].delivered.Some? && queue[i].delivered.value + retention < clock
        && i !in locked;
      var ids := SelectOldest(queue, rows, limit);
      OldestPurged(db, rows, ids, retention, limit, locked);
      PurgedRows(db, ids, retention, limit, locked);
      assert db.queue.Keys - (db.queue - ids).Keys == ids;
      StepKeeps(db, Purge(ids, retention, limit, locked));
      queue := queue - ids;
      removed := Some(|ids|);
    }
  }

  // ---- Retention ----

  predicate Oldest(queue: map<nat, Queued>, ids: set<nat>, id: nat) {
    id in ids && forall j :: j in ids && j != id ==> DeliveredEarlier(queue, id, j)
  }

  predicate AllDelivered(queue: map<nat, Queued>, ids: set<nat>) {
    forall i :: i in ids ==> i in queue && queue[i].delivered.Some?
  }

  /** A non-empty set of delivered rows has an oldest one. */
  lemma {:induction false} OldestExists(queue: map<nat, Queued>, ids: set<nat>) returns (id: nat)
    requires ids != {} && AllDelivered(queue, ids)
    ensures Oldest(queue, ids, id)
    decreases ids
  {
    var x :| x in ids;
    id := x;
    if ids != {x} {
      var y := OldestExists(queue, ids - {x});
      id := if DeliveredEarlier(queue, x, y) then x else y;
    }
    forall j | j in ids && j != id ensures DeliveredEarlier(queue, id, j) {
      assert j == x || j in ids - {x};
    }
  }

  predicate Ahead(queue: map<nat, Queued>, ids: set<nat>, rest: set<nat>) {
    forall i, j :: i in ids && j in rest ==> DeliveredEarlier(queue, i, j)
  }

  lemma AheadStart(queue: map<nat, Queued>, rest: set<nat>)
    ensures Ahead(queue, {}, rest)
  {
  }

  lemma AheadGrows(queue: map<nat, Queued>, ids: set<nat>, rest: set<nat>, id: nat)
    requires Ahead(queue, ids, rest) && Oldest(queue, rest, id)
    ensures Ahead(queue, ids + {id}, rest - {id})
  {
    hide DeliveredEarlier;
  }

  /** ORDER BY delivered_at, id LIMIT limit. */
  method SelectOldest(queue: map<nat, Queued>, rows: set<nat>, limit: nat) returns (ids: set<nat>)
    requires AllDelivered(queue, rows)
    ensures ids <= rows && |ids| == Min(limit, |rows|)
    ensures Ahead(queue, ids, rows - ids)
  {
    hide Ahead, DeliveredEarlier;
    AheadStart(queue, rows);
    ids := {};
    var rest := rows;
    while |ids| < limit && rest != {}
      invariant ids + rest == rows && ids !! rest && |ids| <= limit
      invariant Ahead(queue, ids, rest)
      decreases |rest|
    {
      ghost var some := OldestExists(queue, rest);
      var id :| id in rest && Oldest(queue, rest, id);
      AheadGrows(queue, ids, rest, id);
      ids, rest := ids + {id}, rest - {id};
    }
    assert rows - ids == rest && |rows| == |ids| + |rest|;
  }

  /**
   * In the rows' own fields: only rows delivered longer ago than the retention go, none of them locked,
   * and a row that could have gone too stays only when the batch is full of earlier ones.
   */
  predicate PurgedOldest(
    was: map<nat, Queued>, now: nat, ids: set<nat>, retention: nat, limit: int, locked: set<nat>)
  {
    && |ids| <= limit
    && (forall i :: i in ids ==>
          i in was && was[i].delivered.Some? && was[i].delivered.value + retention < now && i !in locked)
    && (forall j :: (j in was && was[j].delivered.Some? && was[j].delivered.value + retention < now
                     && j !in locked && j !in ids) ==> |ids| == limit)
    && (forall i, j :: (i in ids && j in was && was[j].delivered.Some? && was[j].delivered.value + retention < now
                        && j !in locked && j !in ids) ==>
          || was[i].delivered.value < was[j].delivered.value
          || (was[i].delivered.value == was[j].delivered.value && i < j))
  }

  lemma PurgedRows(db: Db, ids: set<nat>, retention: nat, limit: nat, locked: set<nat>)
    requires PurgeWins(db, Purge(ids, retention, limit, locked))
    ensures PurgedOldest(db.queue, db.clock, ids, retention, limit, locked)
  {
    forall i, j | i in ids && j in db.queue && Expendable(db, j, retention) && j !in locked && j !in ids
      ensures |ids| == limit && DeliveredEarlier(db.queue, i, j)
    {
    }
    assert forall j :: j in db.queue && Expendable(db, j, retention) && j !in locked && j !in ids ==> |ids| == limit;
    forall j | j in db.queue && db.queue[j].delivered.Some? && db.queue[j].delivered.value + retention < db.clock
               && j !in locked && j !in ids
      ensures |ids| == limit
    {
      assert Expendable(db, j, retention);
    }
    forall i, j | i in ids && j in db.queue && db.queue[j].delivered.Some?
                  && db.queue[j].delivered.value + retention < db.clock && j !in locked && j !in ids
      ensures DeliveredEarlier(db.queue, i, j)
    {
      assert Expendable(db, j, retention);
    }
  }

  /** Taking the oldest expendable rows first satisfies the statement's ordering and limit. */
  lemma OldestPurged(db: Db, rows: set<nat>, ids: set<nat>, retention: nat, limit: nat, locked: set<nat>)
    requires retention >= HOUR && 1 <= limit <= 1000
    requires forall j :: j in rows <==> Expendable(db, j, retention) && j !in locked
    requires ids <= rows && |ids| == Min(limit, |rows|) && Ahead(db.queue, ids, rows - ids)
    ensures PurgeWins(db, Purge(ids, retention, limit, locked))
  {
    hide DeliveredEarlier, Expendable;
    forall j | j in db.queue && Expendable(db, j, retention) && j !in locked && j !in ids
      ensures |ids| == limit && forall i :: i in ids ==> DeliveredEarlier(db.queue, i, j)
    {
      assert j in rows - ids;
      assert |rows| == |ids| + |rows - ids| && |rows - ids| > 0;
    }
  }

  predicate First(queue: map<nat, Queued>, ids: set<nat>, id: nat) {
    id in ids && forall j :: j in ids ==> Earlier(queue, id, j)
  }

  lemma FirstPrecedes(queue: map<nat, Queued>, ids: set<nat>, id: nat, j: nat)
    requires First(queue, ids, id) && j in ids
    ensures Earlier(queue, id, j)
  {
  }

  /** A non-empty set of rows has a first one in claim order. */
  lemma {:induction false} FirstExists(queue: map<nat, Queued>, ids: set<nat>) returns (id: nat)
    requires ids != {} && forall i :: i in ids ==> i in queue
    ensures First(queue, ids, id)
    decreases ids
  {
    var x :| x in ids;
    id := x;
    if ids != {x} {
      var y := FirstExists(queue, ids - {x});
      id := if Earlier(queue, x, y) then x else y;
    }
    forall j | j in ids ensures Earlier(queue, id, j) {
      assert j == x || j in ids - {x};
    }
  }
}
