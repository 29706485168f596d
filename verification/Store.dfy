/**
 * The authoritative PostgreSQL store: rows with generations and tombstones, and the
 * outbox rows written by the same statements. Each SQL statement is one atomic step.
 *
 * `log` and `journal` are history variables: no step reads them. `log[k]` lists every
 * row ever committed for k; `journal[id - 1]` is the event inserted with that id, kept
 * after the outbox row itself has been purged.
 */
module Store {
  import opened Types
  import opened Keys

  const MAX_VALUE_BYTES := 1_048_576

  datatype Row = Row(value: Bytes, version: nat, deleted: bool)

  datatype Notice = Notice(key: Key, version: nat)

  datatype Queued = Queued(
    key: Key, version: nat, available: nat, leased: Option<nat>, attempts: nat, delivered: Option<nat>)

  datatype Db = Db(
    rows: map<Key, Row>, queue: map<nat, Queued>, clock: nat,
    log: map<Key, seq<Row>>, journal: seq<Notice>)

  const EmptyDb := Db(map[], map[], 0, map[], [])

  datatype Write =
    | Put(key: Key, value: Bytes)
    | PutIf(key: Key, value: Bytes, expected: int)
    | Delete(key: Key)
    | DeleteIf(key: Key, expected: int)

  datatype WriteResult = Applied(version: nat) | Unchanged | Refused | Invalid

  function History(db: Db, key: Key): seq<Row> {
    if key in db.log then db.log[key] else []
  }

  /** The current generation of a key; tombstones keep theirs, unknown keys have generation zero. */
  function Generation(db: Db, key: Key): nat {
    if key in db.rows then db.rows[key].version else 0
  }

  predicate Live(db: Db, key: Key) {
    key in db.rows && !db.rows[key].deleted
  }

  /** The least version that a read of the key can return now or at any later time. */
  function Horizon(db: Db, key: Key): nat {
    if Live(db, key) then Generation(db, key) else Generation(db, key) + 1
  }

  predicate ValueOk(key: Key, value: Bytes) {
    KeyOk(key) && |value| <= MAX_VALUE_BYTES
  }

  /** One statement: write the row, and insert the event in the same transaction. */
  function Change(db: Db, key: Key, value: Bytes, deleted: bool): Db {
    var row := Row(value, Generation(db, key) + 1, deleted);
    db.(rows := db.rows[key := row],
        queue := db.queue[|db.journal| + 1 := Queued(key, row.version, db.clock, None, 0, None)],
        log := db.log[key := History(db, key) + [row]],
        journal := db.journal + [Notice(key, row.version)])
  }

  predicate Permitted(db: Db, w: Write) {
    match w
    case Put(_, _) => true
    case PutIf(k, _, e) => if e == 0 then !Live(db, k) else Live(db, k) && Generation(db, k) == e
    case Delete(k) => Live(db, k)
    case DeleteIf(k, e) => Live(db, k) && Generation(db, k) == e
  }

  predicate WellFormed(w: Write) {
    match w
    case Put(k, v) => ValueOk(k, v)
    case PutIf(k, v, e) => ValueOk(k, v) && e >= 0
    case Delete(k) => KeyOk(k)
    case DeleteIf(k, e) => KeyOk(k) && e > 0
  }

  function Stored(w: Write): Bytes {
    if w.Put? || w.PutIf? then w.value else []
  }

  /** The whole effect of one write statement together with what its caller is told. */
  function Execute(db: Db, w: Write): (Db, WriteResult) {
    if !WellFormed(w) then (db, Invalid)
    else if Permitted(db, w) then
      (Change(db, w.key, Stored(w), w.Delete? || w.DeleteIf?), Applied(Generation(db, w.key) + 1))
    else if w.Delete? then (db, Unchanged)
    else (db, Refused)
  }

  /** The versions of the events appended for one key, in insertion order. */
  function VersionsOf(journal: seq<Notice>, key: Key): seq<nat> {
    if journal == [] then []
    else
      var front, last := journal[..|journal| - 1], journal[|journal| - 1];
      VersionsOf(front, key) + if last.key == key then [last.version] else []
  }

  function UpTo(n: nat): seq<nat> {
    seq(n, i => i + 1)
  }

  /** Generations of one key count up from one without gaps, and the row is the newest of them. */
  predicate Chronicle(history: seq<Row>, row: Row) {
    && |history| == row.version > 0
    && history[|history| - 1] == row
    && (forall i :: 0 <= i < |history| ==> history[i].version == i + 1)
  }

  predicate RowsOk(db: Db) {
    && db.log.Keys == db.rows.Keys
    && (forall k :: k in db.log ==> Chronicle(db.log[k], db.rows[k]))
  }

  /** Every outbox row is the journalled event with its id. */
  predicate QueueOk(db: Db) {
    forall id :: id in db.queue ==>
      1 <= id <= |db.journal| && db.journal[id - 1] == Notice(db.queue[id].key, db.queue[id].version)
  }

  /** The events of a key are versions 1..n, once each and in order. */
  ghost predicate EventsOk(db: Db) {
    forall k {:trigger VersionsOf(db.journal, k)} :: VersionsOf(db.journal, k) == UpTo(Generation(db, k))
  }

  ghost predicate DbOk(db: Db) {
    RowsOk(db) && EventsOk(db) && QueueOk(db)
  }

  /** Histories only grow, and what readers can still see only moves forward. */
  ghost predicate Grows(db: Db, db': Db) {
    && (forall k :: k in db.log ==> k in db'.log && db.log[k] <= db'.log[k])
    && (forall k :: Horizon(db, k) <= Horizon(db', k))
    && db.journal <= db'.journal
    && db.clock <= db'.clock
  }

  lemma ChangeKeepsRows(db: Db, key: Key, value: Bytes, deleted: bool)
    requires RowsOk(db)
    ensures RowsOk(Change(db, key, value, deleted))
  {
    var db' := Change(db, key, value, deleted);
    assert Chronicle(db'.log[key], db'.rows[key]) by {
      assert key in db.log ==> Chronicle(db.log[key], db.rows[key]);
    }
  }

  lemma ChangeKeepsEvents(db: Db, key: Key, value: Bytes, deleted: bool)
    requires EventsOk(db)
    ensures EventsOk(Change(db, key, value, deleted))
  {
    var db' := Change(db, key, value, deleted);
    assert db'.journal[..|db'.journal| - 1] == db.journal;
    forall k ensures VersionsOf(db'.journal, k) == UpTo(Generation(db', k)) {
      assert VersionsOf(db.journal, k) == UpTo(Generation(db, k));
      if k == key {
        assert UpTo(Generation(db, k)) + [Generation(db, k) + 1] == UpTo(Generation(db', k));
      }
    }
  }

  lemma ChangeKeepsQueue(db: Db, key: Key, value: Bytes, deleted: bool)
    requires QueueOk(db)
    ensures QueueOk(Change(db, key, value, deleted))
  {
  }

  lemma ChangeGrows(db: Db, key: Key, value: Bytes, deleted: bool)
    requires RowsOk(db)
    ensures Grows(db, Change(db, key, value, deleted))
  {
  }

  /**
   * Any write keeps the store consistent: for every key the events ever appended are
   * exactly versions 1..n once each in order, n being the row's generation. A write
   * that is not applied appends nothing and changes nothing.
   */
  lemma WriteKeeps(db: Db, w: Write)
    requires DbOk(db)
    ensures DbOk(Execute(db, w).0) && Grows(db, Execute(db, w).0)
    ensures !Execute(db, w).1.Applied? ==> Execute(db, w).0 == db
    ensures Execute(db, w).1.Applied? ==>
      && Generation(Execute(db, w).0, w.key) == Generation(db, w.key) + 1 == Execute(db, w).1.version
      && Live(Execute(db, w).0, w.key) == (w.Put? || w.PutIf?)
      && Execute(db, w).0.journal == db.journal + [Notice(w.key, Execute(db, w).1.version)]
  {
    if WellFormed(w) && Permitted(db, w) {
      ChangeKeepsRows(db, w.key, Stored(w), w.Delete? || w.DeleteIf?);
      ChangeKeepsEvents(db, w.key, Stored(w), w.Delete? || w.DeleteIf?);
      ChangeKeepsQueue(db, w.key, Stored(w), w.Delete? || w.DeleteIf?);
      ChangeGrows(db, w.key, Stored(w), w.Delete? || w.DeleteIf?);
    }
  }

  /** What each write leaves in the row, and what it leaves alone. */
  lemma WriteStores(db: Db, w: Write)
    requires Execute(db, w).1.Applied?
    ensures var db', version := Execute(db, w).0, (if w.key in db.rows then db.rows[w.key].version else 0) + 1;
      && Execute(db, w).1.version == version
      && db'.rows == db.rows[w.key :=
           if w.Put? || w.PutIf? then Row(w.value, version, false) else Row([], version, true)]
      && db'.queue == db.queue[|db.journal| + 1 := Queued(w.key, version, db.clock, None, 0, None)]
      && db'.clock == db.clock
  {
  }

  /** A journalled event is a committed generation, so its version is within every reader's horizon. */
  lemma NoticeCommitted(db: Db, id: nat)
    requires DbOk(db) && 1 <= id <= |db.journal|
    ensures 1 <= db.journal[id - 1].version <= Generation(db, db.journal[id - 1].key)
    ensures db.journal[id - 1].version <= Horizon(db, db.journal[id - 1].key)
  {
    var e := db.journal[id - 1];
    Occurs(db.journal, id - 1);
    assert VersionsOf(db.journal, e.key) == UpTo(Generation(db, e.key));
  }

  lemma {:induction false} Occurs(journal: seq<Notice>, i: nat)
    requires i < |journal|
    ensures journal[i].version in VersionsOf(journal, journal[i].key)
  {
    if i < |journal| - 1 {
      Occurs(journal[..|journal| - 1], i);
    }
  }

  /** The state reached by a sequence of writes. */
  function After(db: Db, ws: seq<Write>): Db {
    if ws == [] then db else Execute(After(db, ws[..|ws| - 1]), ws[|ws| - 1]).0
  }

  lemma {:induction false} HistoryFromEmpty(ws: seq<Write>)
    ensures DbOk(After(EmptyDb, ws))
    ensures forall k {:trigger VersionsOf(After(EmptyDb, ws).journal, k)} ::
      VersionsOf(After(EmptyDb, ws).journal, k) == UpTo(Generation(After(EmptyDb, ws), k))
  {
    if ws != [] {
      HistoryFromEmpty(ws[..|ws| - 1]);
      WriteKeeps(After(EmptyDb, ws[..|ws| - 1]), ws[|ws| - 1]);
    }
  }
}
