/** The purge loop of the outbox worker: whole batches until one comes back short or time is up. */
module Maintenance {
  import opened Types
  import opened Store
  import opened Outbox
  import opened Relay
  import opened Postgres

  /** The rows delivered longer ago than the retention period. */
  function Overdue(db: Db): set<nat> {
    set id | id in db.queue && Expendable(db, id, RETENTION)
  }

  lemma PurgedBatch(db: Db, ids: set<nat>, locked: set<nat>)
    requires PurgeWins(db, Purge(ids, RETENTION, PURGE_BATCH, locked))
    ensures var db' := Step(db, Purge(ids, RETENTION, PURGE_BATCH, locked));
      ids <= Overdue(db) && Overdue(db') == Overdue(db) - ids
    ensures |ids| <= PURGE_BATCH && (|ids| < PURGE_BATCH ==> Overdue(db) - ids <= locked)
  {
    forall i | i in ids ensures i in Overdue(db) {
      assert Expendable(db, i, RETENTION);
    }
    if |ids| < PURGE_BATCH {
      forall j | j in Overdue(db) - ids ensures j in locked {
        assert Expendable(db, j, RETENTION);
      }
    }
  }

  /** One batch; the rows it removed are returned for the specification. */
  method PurgeBatch(store: ProductStore, locked: set<nat>) returns (n: nat, ghost ids: set<nat>)
    requires store.Valid()
    modifies store`queue
    ensures store.Valid() && store.queue == old(store.queue) - ids
    ensures ids <= Overdue(old(store.Tables())) && Overdue(store.Tables()) == Overdue(old(store.Tables())) - ids
    ensures n == |ids| <= PURGE_BATCH && (n < PURGE_BATCH ==> Overdue(store.Tables()) <= locked)
  {
    hide PurgeWins, DbOk, Execute, ClaimWins, FinishWins, Overdue;
    ghost var db := store.Tables();
    var removed := store.PurgeDelivered(RETENTION, PURGE_BATCH, locked);
    n, ids := removed.value, db.queue.Keys - store.queue.Keys;
    PurgedBatch(db, ids, locked);
  }

  /**
   * maintain: only rows past their retention go. The loop ends with the first batch that comes back
   * short (`last`), and then every row still overdue was locked by another transaction during it; a
   * loop that ends at its deadline instead has removed nothing but full batches. `locked` lists what
   * other transactions hold, batch by batch, as far as the deadline allows.
   */
  method Maintain(store: ProductStore, locked: seq<set<nat>>)
    returns (removed: nat, last: Option<nat>, ghost gone: set<nat>)
    requires store.Valid()
    modifies store`queue
    ensures store.Valid() && store.queue == old(store.queue) - gone
    ensures gone <= Overdue(old(store.Tables())) && removed == |gone|
    ensures last.Some? ==> last.value < |locked| && Overdue(store.Tables()) <= locked[last.value]
    ensures last.None? ==>
      removed == |locked| * PURGE_BATCH && |locked| <= |Overdue(old(store.Tables()))| / PURGE_BATCH
  {
    hide *;
    removed, last, gone := 0, None, {};
    ghost var all := Overdue(store.Tables());
    for b := 0 to |locked|
      invariant store.Valid() && store.queue == old(store.queue) - gone
      invariant gone <= all && removed == |gone| == b * PURGE_BATCH
      invariant Overdue(store.Tables()) == all - gone
    {
      ghost var ids;
      var n;
      n, ids := PurgeBatch(store, locked[b]);
      BothRemoved(old(store.queue), all, gone, ids);
      gone := gone + ids;
      removed := removed + n;
      if n < PURGE_BATCH {
        last := Some(b);
        return;
      }
    }
    WithinAll(|locked|, gone, all);
  }

  lemma BothRemoved(queue: map<nat, Queued>, all: set<nat>, a: set<nat>, b: set<nat>)
    requires a <= all && b <= all - a
    ensures queue - a - b == queue - (a + b) && all - a - b == all - (a + b)
    ensures a + b <= all && |a + b| == |a| + |b|
  {
  }

  lemma WithinAll(batches: nat, gone: set<nat>, all: set<nat>)
    requires gone <= all && |gone| == batches * PURGE_BATCH
    ensures batches <= |all| / PURGE_BATCH
  {
    assert |all| == |gone| + |all - gone|;
  }
}
