/**
 * The outbox as a lease queue: Claim, Finish and PurgeDelivered as atomic statements beside
 * the writes that insert events, and a clock that never runs backwards.
 */
module Outbox {
  import opened Types
  import opened Store

  // Milliseconds.
  const SECOND := 1000
  const MINUTE := 60 * SECOND
  const HOUR := 60 * MINUTE

  /** A claimed event; the attempt number is the lease token. */
  datatype Event = Event(id: nat, key: Key, version: nat, attempt: nat)

  datatype DbOp =
    | WriteRow(w: Write)
    | Claim(id: nat, lease: nat, locked: set<nat>)
    | Finish(id: nat, attempt: nat, ok: bool, retry: nat)
    | Purge(ids: set<nat>, retention: nat, limit: nat, locked: set<nat>)
    | Tick(elapsed: nat)

  predicate Claimable(db: Db, id: nat) {
    && id in db.queue
    && db.queue[id].delivered.None?
    && db.queue[id].available <= db.clock
    && (db.queue[id].leased.None? || db.queue[id].leased.value <= db.clock)
  }

  /** ORDER BY available_at, id. */
  predicate Earlier(queue: map<nat, Queued>, a: nat, b: nat) {
    a in queue && b in queue &&
    (queue[a].available < queue[b].available || (queue[a].available == queue[b].available && a <= b))
  }

  /** The first claimable row that no other transaction has locked (SKIP LOCKED, LIMIT 1). */
  predicate ClaimWins(db: Db, op: DbOp) {
    && op.Claim?
    && 0 < op.lease <= MINUTE
    && Claimable(db, op.id) && op.id !in op.locked
    && (forall j :: j in db.queue && Claimable(db, j) && j !in op.locked ==> Earlier(db.queue, op.id, j))
  }

  predicate FinishWins(db: Db, op: DbOp) {
    && op.Finish?
    && op.id > 0 && op.attempt > 0 && op.retry <= MINUTE
    && op.id in db.queue
    && db.queue[op.id].attempts == op.attempt
    && db.queue[op.id].delivered.None?
    && db.queue[op.id].leased.Some? && db.queue[op.id].leased.value > db.clock
  }

  predicate Expendable(db: Db, id: nat, retention: nat) {
    id in db.queue && db.queue[id].delivered.Some? && db.queue[id].delivered.value + retention < db.clock
  }

  /** Old delivered rows only, the oldest unlocked ones first, at most `limit` of them. */
  predicate PurgeWins(db: Db, op: DbOp) {
    && op.Purge?
    && op.retention >= HOUR && 1 <= op.limit <= 1000
    && |op.ids| <= op.limit
    && (forall i :: i in op.ids ==> Expendable(db, i, op.retention) && i !in op.locked)
    && (forall j :: j in db.queue && Expendable(db, j, op.retention) && j !in op.locked && j !in op.ids ==>
          |op.ids| == op.limit && forall i :: i in op.ids ==> DeliveredEarlier(db.queue, i, j))
  }

  /** ORDER BY delivered_at, id. */
  predicate DeliveredEarlier(queue: map<nat, Queued>, i: nat, j: nat) {
    && i in queue && queue[i].delivered.Some?
    && j in queue && queue[j].delivered.Some?
    && (queue[i].delivered.value < queue[j].delivered.value
        || (queue[i].delivered.value == queue[j].delivered.value && i < j))
  }

  function ClaimRow(db: Db, id: nat, lease: nat): Db
    requires id in db.queue
  {
    var row := db.queue[id];
    db.(queue := db.queue[id := row.(attempts := row.attempts + 1, leased := Some(db.clock + lease))])
  }

  function FinishRow(db: Db, id: nat, ok: bool, retry: nat): Db
    requires id in db.queue
  {
    var row := db.queue[id];
    db.(queue := db.queue[id := row.(delivered := if ok then Some(db.clock) else None,
                                     available := if ok then row.available else db.clock + retry,
                                     leased := None)])
  }

  /** A statement whose condition fails affects no row. */
  function Step(db: Db, op: DbOp): Db {
    match op
    case WriteRow(w) => Execute(db, w).0
    case Claim(id, lease, _) => if ClaimWins(db, op) then ClaimRow(db, id, lease) else db
    case Finish(id, _, ok, retry) => if FinishWins(db, op) then FinishRow(db, id, ok, retry) else db
    case Purge(ids, _, _, _) => if PurgeWins(db, op) then db.(queue := db.queue - ids) else db
    case Tick(elapsed) => db.(clock := db.clock + elapsed)
  }

  lemma StepKeepsQueue(db: Db, op: DbOp)
    requires QueueOk(db)
    ensures QueueOk(Step(db, op)) && db.journal <= Step(db, op).journal && db.clock <= Step(db, op).clock
  {
    if op.WriteRow? && WellFormed(op.w) && Permitted(db, op.w) {
      ChangeKeepsQueue(db, op.w.key, Stored(op.w), op.w.Delete? || op.w.DeleteIf?);
    }
  }

  lemma StepKeeps(db: Db, op: DbOp)
    requires DbOk(db)
    ensures DbOk(Step(db, op)) && Grows(db, Step(db, op))
  {
    if op.WriteRow? {
      WriteKeeps(db, op.w);
    } else {
      StepKeepsQueue(db, op);
      QueueOpKeeps(db, op);
    }
  }

  /** Claims, completions, purges and time leave the product rows and the event history alone. */
  lemma QueueOpFrame(db: Db, op: DbOp)
    requires !op.WriteRow?
    ensures var db' := Step(db, op);
      db'.rows == db.rows && db'.log == db.log && db'.journal == db.journal && db'.clock >= db.clock
  {
  }

  lemma QueueOpKeeps(db: Db, op: DbOp)
    requires RowsOk(db) && EventsOk(db) && !op.WriteRow?
    ensures RowsOk(Step(db, op)) && EventsOk(Step(db, op)) && Grows(db, Step(db, op))
  {
    QueueOpFrame(db, op);
    SameHistory(db, Step(db, op));
  }

  lemma SameHistory(db: Db, db': Db)
    requires RowsOk(db) && EventsOk(db)
    requires db'.rows == db.rows && db'.log == db.log && db'.journal == db.journal && db'.clock >= db.clock
    ensures RowsOk(db') && EventsOk(db') && Grows(db, db')
  {
    forall k ensures VersionsOf(db'.journal, k) == UpTo(Generation(db', k)) {
      assert VersionsOf(db.journal, k) == UpTo(Generation(db, k));
    }
  }

  /** The state before statement i of a run. */
  function At(db: Db, ops: seq<DbOp>, i: nat): Db
    requires i <= |ops|
  {
    if i == 0 then db else Step(At(db, ops, i - 1), ops[i - 1])
  }

  lemma {:induction false} RunKeeps(db: Db, ops: seq<DbOp>, i: nat)
    requires DbOk(db) && i <= |ops|
    ensures DbOk(At(db, ops, i))
  {
    if i > 0 {
      RunKeeps(db, ops, i - 1);
      StepKeeps(At(db, ops, i - 1), ops[i - 1]);
    }
  }

  lemma {:induction false} RunKeepsQueue(db: Db, ops: seq<DbOp>, i: nat)
    requires QueueOk(db) && i <= |ops|
    ensures QueueOk(At(db, ops, i))
  {
    if i > 0 {
      RunKeepsQueue(db, ops, i - 1);
      StepKeepsQueue(At(db, ops, i - 1), ops[i - 1]);
    }
  }

  /** How one statement can change one outbox row that already exists. */
  predicate RowEvolves(db: Db, op: DbOp, db': Db, id: nat)
    requires id in db.queue
  {
    if id !in db'.queue then PurgeWins(db, op) && db.queue[id].delivered.Some?
    else
      var a, b := db.queue[id], db'.queue[id];
      || a == b
      || (op.Claim? && op.id == id && ClaimWins(db, op)
          && b == a.(attempts := a.attempts + 1, leased := Some(db.clock + op.lease)))
      || (op.Finish? && op.id == id && FinishWins(db, op)
          && b == if op.ok then a.(delivered := Some(db.clock), leased := None)
                  else a.(available := db.clock + op.retry, leased := None))
  }

  lemma StepEvolves(db: Db, op: DbOp, id: nat)
    requires QueueOk(db) && id in db.queue
    ensures RowEvolves(db, op, Step(db, op), id)
  {
  }

  /** Ids are never reused: a row that is gone after having been inserted stays gone. */
  predicate Gone(db: Db, id: nat) {
    1 <= id <= |db.journal| && id !in db.queue
  }

  lemma GoneStaysGone(db: Db, op: DbOp, id: nat)
    requires QueueOk(db) && Gone(db, id)
    ensures Gone(Step(db, op), id)
  {
  }

  // ---- Fencing over whole runs ----

  predicate Claims(db: Db, ops: seq<DbOp>, i: nat, id: nat) {
    i < |ops| && ClaimWins(At(db, ops, i), ops[i]) && ops[i].id == id
  }

  predicate Finishes(db: Db, ops: seq<DbOp>, i: nat, id: nat) {
    i < |ops| && FinishWins(At(db, ops, i), ops[i]) && ops[i].id == id
  }

  /** The token a winning claim hands out. */
  function Token(db: Db, ops: seq<DbOp>, i: nat): nat
    requires i < |ops| && ClaimWins(At(db, ops, i), ops[i])
  {
    At(db, ops, i).queue[ops[i].id].attempts + 1
  }

  predicate Leased(db: Db, id: nat, token: nat, until: nat) {
    && id in db.queue && db.queue[id].leased == Some(until)
    && db.queue[id].attempts == token && db.queue[id].delivered.None?
  }

  /** Until somebody finishes it, a lease keeps its row to its holder or has run out. */
  lemma {:induction false} LeaseHeld(db: Db, ops: seq<DbOp>, i: nat, j: nat, id: nat)
    requires QueueOk(db) && Claims(db, ops, i, id) && i < j <= |ops|
    requires forall m :: i < m < j ==> !Finishes(db, ops, m, id)
    ensures var until := At(db, ops, i).clock + ops[i].lease;
      until <= At(db, ops, j).clock || Leased(At(db, ops, j), id, Token(db, ops, i), until)
  {
    if j > i + 1 {
      LeaseHeld(db, ops, i, j - 1, id);
      assert !Finishes(db, ops, j - 1, id);
      RunKeepsQueue(db, ops, j - 1);
      StepKeepsQueue(At(db, ops, j - 1), ops[j - 1]);
      if id in At(db, ops, j - 1).queue {
        StepEvolves(At(db, ops, j - 1), ops[j - 1], id);
      }
    }
  }

  /** An unfinished, unexpired lease excludes every other claim of its row. */
  lemma LeaseExcludes(db: Db, ops: seq<DbOp>, i: nat, j: nat, id: nat)
    requires QueueOk(db) && Claims(db, ops, i, id) && Claims(db, ops, j, id) && i < j
    requires forall m :: i < m < j ==> !Finishes(db, ops, m, id)
    ensures At(db, ops, i).clock + ops[i].lease <= At(db, ops, j).clock
  {
    LeaseHeld(db, ops, i, j, id);
  }

  predicate AttemptsReach(db: Db, id: nat, a: nat) {
    Gone(db, id) || (id in db.queue && db.queue[id].attempts >= a)
  }

  lemma {:induction false} AttemptsGrow(db: Db, ops: seq<DbOp>, i: nat, j: nat, id: nat, a: nat)
    requires QueueOk(db) && i <= j <= |ops| && AttemptsReach(At(db, ops, i), id, a)
    ensures AttemptsReach(At(db, ops, j), id, a)
    decreases j
  {
    if i < j {
      AttemptsGrow(db, ops, i, j - 1, id, a);
      RunKeepsQueue(db, ops, j - 1);
      AttemptsStep(At(db, ops, j - 1), ops[j - 1], id, a);
    }
  }

  lemma AttemptsStep(db: Db, op: DbOp, id: nat, a: nat)
    requires QueueOk(db) && AttemptsReach(db, id, a)
    ensures AttemptsReach(Step(db, op), id, a)
  {
    if id in db.queue {
      StepEvolves(db, op, id);
      StepKeepsQueue(db, op);
    } else {
      GoneStaysGone(db, op, id);
    }
  }

  /** Tokens of one row strictly increase from claim to claim. */
  lemma TokensIncrease(db: Db, ops: seq<DbOp>, i: nat, j: nat, id: nat)
    requires QueueOk(db) && Claims(db, ops, i, id) && Claims(db, ops, j, id) && i < j
    ensures Token(db, ops, i) < Token(db, ops, j)
  {
    AttemptsGrow(db, ops, i + 1, j, id, Token(db, ops, i));
  }

  /** Only the newest token of a row can finish it. */
  lemma FinishNeedsNewestToken(db: Db, ops: seq<DbOp>, i: nat, j: nat, id: nat)
    requires QueueOk(db) && Claims(db, ops, i, id) && Finishes(db, ops, j, id) && i < j
    ensures Token(db, ops, i) <= ops[j].attempt
  {
    AttemptsGrow(db, ops, i + 1, j, id, Token(db, ops, i));
  }

  predicate Spent(db: Db, id: nat, token: nat) {
    || Gone(db, id)
    || (id in db.queue && (db.queue[id].delivered.Some? || db.queue[id].attempts > token
                           || (db.queue[id].attempts == token && db.queue[id].leased.None?)))
  }

  lemma SpentStep(db: Db, op: DbOp, id: nat, token: nat)
    requires QueueOk(db) && (Spent(db, id, token) || (FinishWins(db, op) && op.id == id && op.attempt == token))
    ensures Spent(Step(db, op), id, token)
  {
    if id in db.queue {
      StepEvolves(db, op, id);
      StepKeepsQueue(db, op);
    } else {
      GoneStaysGone(db, op, id);
    }
  }

  lemma {:induction false} TokenSpent(db: Db, ops: seq<DbOp>, i: nat, j: nat, id: nat)
    requires QueueOk(db) && Finishes(db, ops, i, id) && i < j <= |ops|
    ensures Spent(At(db, ops, j), id, ops[i].attempt)
  {
    if j > i + 1 {
      TokenSpent(db, ops, i, j - 1, id);
    }
    RunKeepsQueue(db, ops, j - 1);
    SpentStep(At(db, ops, j - 1), ops[j - 1], id, ops[i].attempt);
  }

  /** A token finishes at most once. */
  lemma FinishOnce(db: Db, ops: seq<DbOp>, i: nat, j: nat, id: nat)
    requires QueueOk(db) && Finishes(db, ops, i, id) && Finishes(db, ops, j, id) && i < j
    ensures ops[i].attempt < ops[j].attempt
  {
    TokenSpent(db, ops, i, j, id);
    FinishAfterSpent(At(db, ops, j), ops[j], ops[i].attempt);
  }

  lemma FinishAfterSpent(db: Db, op: DbOp, token: nat)
    requires FinishWins(db, op) && Spent(db, op.id, token)
    ensures token < op.attempt
  {
  }

  predicate Delivered(db: Db, id: nat, when: nat) {
    Gone(db, id) || (id in db.queue && db.queue[id].delivered == Some(when))
  }

  lemma DeliveredStep(db: Db, op: DbOp, id: nat, when: nat)
    requires QueueOk(db)
    requires Delivered(db, id, when) || (FinishWins(db, op) && op.id == id && op.ok && when == db.clock)
    ensures Delivered(Step(db, op), id, when)
  {
    if id in db.queue {
      StepEvolves(db, op, id);
      StepKeepsQueue(db, op);
    } else {
      GoneStaysGone(db, op, id);
    }
  }

  /** Delivery is final: the row stays delivered or is purged, and no later statement gets hold of it. */
  lemma {:induction false} DeliveredIsFinal(db: Db, ops: seq<DbOp>, i: nat, j: nat, id: nat)
    requires QueueOk(db) && Finishes(db, ops, i, id) && ops[i].ok && i < j <= |ops|
    ensures Delivered(At(db, ops, j), id, At(db, ops, i).clock)
    ensures !Claims(db, ops, j, id) && !Finishes(db, ops, j, id)
  {
    if j > i + 1 {
      DeliveredIsFinal(db, ops, i, j - 1, id);
    }
    RunKeepsQueue(db, ops, j - 1);
    DeliveredStep(At(db, ops, j - 1), ops[j - 1], id, At(db, ops, i).clock);
  }

  /** Purging needs delivery: an event that was never finished as delivered is still queued. */
  lemma {:induction false} PendingIsKept(db: Db, ops: seq<DbOp>, i: nat, j: nat, id: nat)
    requires QueueOk(db) && i <= j <= |ops|
    requires id in At(db, ops, i).queue && At(db, ops, i).queue[id].delivered.None?
    requires forall m :: i <= m < j ==> !(Finishes(db, ops, m, id) && ops[m].ok)
    ensures id in At(db, ops, j).queue && At(db, ops, j).queue[id].delivered.None?
    decreases j
  {
    if i < j {
      PendingIsKept(db, ops, i, j - 1, id);
      RunKeepsQueue(db, ops, j - 1);
      assert !(Finishes(db, ops, j - 1, id) && ops[j - 1].ok);
      StepEvolves(At(db, ops, j - 1), ops[j - 1], id);
    }
  }

  // ---- When a row is due again ----

  /** Undelivered, unleased and not available before this time. */
  predicate Resting(db: Db, id: nat, attempts: nat, due: nat) {
    id in db.queue && db.queue[id].delivered.None? && db.queue[id].leased.None?
    && db.queue[id].attempts == attempts && db.queue[id].available == due
  }

  lemma RestingStep(db: Db, op: DbOp, id: nat, attempts: nat, due: nat)
    requires QueueOk(db) && Resting(db, id, attempts, due) && db.clock < due
    ensures Resting(Step(db, op), id, attempts, due)
  {
    StepEvolves(db, op, id);
  }

  lemma FailedRests(db: Db, op: DbOp, id: nat)
    requires QueueOk(db) && FinishWins(db, op) && op.id == id && !op.ok
    ensures Resting(Step(db, op), id, op.attempt, db.clock + op.retry)
  {
  }

  /** A delivery reported as failed rests for the whole delay it was given, and is due right after it. */
  lemma {:induction false} RetryRests(db: Db, ops: seq<DbOp>, i: nat, j: nat, id: nat)
    requires QueueOk(db) && Finishes(db, ops, i, id) && !ops[i].ok && i < j <= |ops|
    requires At(db, ops, j - 1).clock < At(db, ops, i).clock + ops[i].retry || j == i + 1
    ensures Resting(At(db, ops, j), id, ops[i].attempt, At(db, ops, i).clock + ops[i].retry)
  {
    hide Resting, Step;
    RunKeepsQueue(db, ops, j - 1);
    if j == i + 1 {
      FailedRests(At(db, ops, i), ops[i], id);
    } else {
      ClockRises(db, ops, j - 2, j - 1);
      RetryRests(db, ops, i, j - 1, id);
      RestingStep(At(db, ops, j - 1), ops[j - 1], id, ops[i].attempt, At(db, ops, i).clock + ops[i].retry);
    }
  }

  lemma {:induction false} ClockRises(db: Db, ops: seq<DbOp>, i: nat, j: nat)
    requires i <= j <= |ops|
    ensures At(db, ops, i).clock <= At(db, ops, j).clock
    decreases j
  {
    if i < j {
      ClockRises(db, ops, i, j - 1);
    }
  }

  /** No claim of a failed row wins before its delay is over. */
  lemma RetryWaits(db: Db, ops: seq<DbOp>, i: nat, j: nat, id: nat)
    requires QueueOk(db) && Finishes(db, ops, i, id) && !ops[i].ok && Claims(db, ops, j, id) && i < j
    ensures At(db, ops, j).clock >= At(db, ops, i).clock + ops[i].retry
  {
    if At(db, ops, j).clock < At(db, ops, i).clock + ops[i].retry {
      ClockRises(db, ops, j - 1, j);
      RetryRests(db, ops, i, j, id);
    }
  }

  /** Nothing claimed or finished the row between the two states. */
  predicate Untouched(db: Db, ops: seq<DbOp>, i: nat, j: nat, id: nat) {
    forall m :: i <= m < j ==> !Claims(db, ops, m, id) && !Finishes(db, ops, m, id)
  }

  lemma {:induction false} RowStays(db: Db, ops: seq<DbOp>, i: nat, j: nat, id: nat)
    requires QueueOk(db) && i <= j <= |ops| && Untouched(db, ops, i, j, id)
    requires id in At(db, ops, i).queue && At(db, ops, i).queue[id].delivered.None?
    ensures id in At(db, ops, j).queue && At(db, ops, j).queue[id] == At(db, ops, i).queue[id]
    decreases j
  {
    if i < j {
      RowStays(db, ops, i, j - 1, id);
      RunKeepsQueue(db, ops, j - 1);
      assert !Claims(db, ops, j - 1, id) && !Finishes(db, ops, j - 1, id);
      StepEvolves(At(db, ops, j - 1), ops[j - 1], id);
    }
  }

  /** A claim that is abandoned does not keep its row: it can be taken again once the lease is over. */
  lemma AbandonedComesBack(db: Db, ops: seq<DbOp>, i: nat, j: nat, id: nat)
    requires QueueOk(db) && Claims(db, ops, i, id) && i < j <= |ops| && Untouched(db, ops, i + 1, j, id)
    requires At(db, ops, j).clock >= At(db, ops, i).clock + ops[i].lease
    ensures id in At(db, ops, j).queue
    ensures var row, now := At(db, ops, j).queue[id], At(db, ops, j).clock;
      row.delivered.None? && row.available <= now && row.leased.Some? && row.leased.value <= now
    ensures At(db, ops, j).queue[id].attempts == Token(db, ops, i)
  {
    RunKeepsQueue(db, ops, i);
    StepEvolves(At(db, ops, i), ops[i], id);
    RowStays(db, ops, i + 1, j, id);
  }

  /** A failed delivery can be taken again once its delay is over, however often it failed. */
  lemma FailedComesBack(db: Db, ops: seq<DbOp>, i: nat, j: nat, id: nat)
    requires QueueOk(db) && Finishes(db, ops, i, id) && !ops[i].ok && i < j <= |ops|
    requires Untouched(db, ops, i + 1, j, id) && At(db, ops, j).clock >= At(db, ops, i).clock + ops[i].retry
    ensures id in At(db, ops, j).queue
    ensures var row, now := At(db, ops, j).queue[id], At(db, ops, j).clock;
      row.delivered.None? && row.available <= now && row.leased.None?
  {
    RunKeepsQueue(db, ops, i);
    FailedRests(At(db, ops, i), ops[i], id);
    RowStays(db, ops, i + 1, j, id);
  }

  /**
   * A claim wins for exactly one row: of those undelivered, due, without a running lease and not locked
   * by others, the one available first, the lower id deciding. The number of attempts plays no part.
   */
  lemma ClaimExact(db: Db, id: nat, lease: nat, locked: set<nat>)
    requires id in db.queue && 0 < lease <= MINUTE
    ensures ClaimWins(db, Claim(id, lease, locked)) <==>
      && db.queue[id].delivered.None? && db.queue[id].available <= db.clock && id !in locked
      && (db.queue[id].leased.None? || db.queue[id].leased.value <= db.clock)
      && forall j :: (j in db.queue && j !in locked && db.queue[j].delivered.None? && db.queue[j].available <= db.clock
                      && (db.queue[j].leased.None? || db.queue[j].leased.value <= db.clock)) ==>
           || db.queue[id].available < db.queue[j].available
           || (db.queue[id].available == db.queue[j].available && id <= j)
  {
    if ClaimWins(db, Claim(id, lease, locked)) {
      forall j | j in db.queue && j !in locked && db.queue[j].delivered.None? && db.queue[j].available <= db.clock
                 && (db.queue[j].leased.None? || db.queue[j].leased.value <= db.clock)
        ensures Earlier(db.queue, id, j)
      {
        assert Claimable(db, j);
      }
    }
  }

  // ---- Conditional writes over whole runs ----

  /** A conditional write or delete of `key` that named a positive expected version and was applied. */
  predicate Supersedes(db: Db, op: DbOp, key: Key, expected: int) {
    && op.WriteRow? && (op.w.PutIf? || op.w.DeleteIf?)
    && op.w.key == key && op.w.expected == expected > 0
    && Execute(db, op.w).1.Applied?
  }

  lemma {:induction false} GenerationGrows(db: Db, ops: seq<DbOp>, i: nat, j: nat, key: Key)
    requires i <= j <= |ops|
    ensures Generation(At(db, ops, i), key) <= Generation(At(db, ops, j), key)
    decreases j
  {
    if i < j {
      GenerationGrows(db, ops, i, j - 1, key);
    }
  }

  lemma SupersedesAdvances(db: Db, op: DbOp, key: Key, expected: int)
    requires Supersedes(db, op, key, expected)
    ensures Generation(db, key) == expected && Generation(Step(db, op), key) == expected + 1
  {
  }

  /** One ETag wins at most once per key, also across deletion and recreation. */
  lemma ExpectedVersionWinsOnce(db: Db, ops: seq<DbOp>, i: nat, j: nat, key: Key, expected: int)
    requires i < j < |ops|
    requires Supersedes(At(db, ops, i), ops[i], key, expected)
    ensures !Supersedes(At(db, ops, j), ops[j], key, expected)
  {
    hide Supersedes, Step;
    SupersedesAdvances(At(db, ops, i), ops[i], key, expected);
    GenerationGrows(db, ops, i + 1, j, key);
    if Supersedes(At(db, ops, j), ops[j], key, expected) {
      SupersedesAdvances(At(db, ops, j), ops[j], key, expected);
    }
  }
}
