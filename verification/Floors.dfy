/**
 * The bounded table of version floors, as a sequence ordered by when each record was
 * last inserted or advanced: index 0 is the most recent, the last index the oldest.
 */
module Floors {
  import opened Types

  datatype Record = Record(key: Key, version: nat)

  type Table = seq<Record>

  predicate Has(t: Table, key: Key) {
    exists i :: 0 <= i < |t| && t[i].key == key
  }

  /** The floor retained for a key, zero when none is. */
  function Find(t: Table, key: Key): nat {
    if t == [] then 0 else if t[0].key == key then t[0].version else Find(t[1..], key)
  }

  function Without(t: Table, key: Key): Table {
    if t == [] then [] else if t[0].key == key then t[1..] else [t[0]] + Without(t[1..], key)
  }

  predicate Distinct(t: Table) {
    forall i, j :: 0 <= i < j < |t| ==> t[i].key != t[j].key
  }

  predicate TableOk(t: Table, capacity: nat) {
    |t| <= capacity && Distinct(t) && forall i :: 0 <= i < |t| ==> t[i].version > 0
  }

  datatype Outcome = Outcome(table: Table, retired: Option<Key>)

  /** rememberVersionLocked: advance, keep, or insert after retiring the oldest record. */
  function Remember(t: Table, capacity: nat, key: Key, version: nat): Outcome
    requires capacity > 0
  {
    if version == 0 then Outcome(t, None)
    else if Has(t, key) then
      Outcome(if version > Find(t, key) then [Record(key, version)] + Without(t, key) else t, None)
    else if |t| == capacity then
      Outcome([Record(key, version)] + t[..|t| - 1], Some(t[|t| - 1].key))
    else
      Outcome([Record(key, version)] + t, None)
  }

  lemma {:induction false} FindAt(t: Table, i: nat)
    requires Distinct(t) && i < |t|
    ensures Find(t, t[i].key) == t[i].version
  {
    if i > 0 {
      assert t[1..][i - 1] == t[i];
      FindAt(t[1..], i - 1);
    }
  }

  lemma {:induction false} FindAbsent(t: Table, key: Key)
    requires !Has(t, key)
    ensures Find(t, key) == 0
  {
    if t != [] {
      assert t[0].key != key;
      FindAbsent(t[1..], key);
    }
  }

  lemma {:induction false} FindPrefix(t: Table, key: Key)
    requires t != [] && t[|t| - 1].key != key
    ensures Find(t[..|t| - 1], key) == Find(t, key)
  {
    if |t| > 1 && t[0].key != key {
      assert t[..|t| - 1][1..] == t[1..][..|t[1..]| - 1];
      FindPrefix(t[1..], key);
    }
  }

  /** Removing one key keeps every other record, in order. */
  lemma {:induction false} WithoutKeeps(t: Table, key: Key)
    requires Distinct(t)
    ensures Distinct(Without(t, key)) && !Has(Without(t, key), key)
    ensures forall k :: k != key ==> Find(Without(t, key), k) == Find(t, k)
    ensures forall i :: 0 <= i < |Without(t, key)| ==> Without(t, key)[i] in t
    ensures |Without(t, key)| == |t| - (if Has(t, key) then 1 else 0)
  {
    if t != [] {
      WithoutKeeps(t[1..], key);
      if t[0].key != key {
        assert Has(t, key) == Has(t[1..], key) by {
          if Has(t, key) {
            var i :| 0 <= i < |t| && t[i].key == key;
            assert t[1..][i - 1].key == key;
          }
        }
      } else {
        assert Without(t, key) == t[1..];
      }
    }
  }

  /**
   * What one Remember does to every key: the remembered key's floor becomes the maximum,
   * exactly the oldest record can disappear and is reported, every other floor is unchanged.
   */
  lemma RememberEffect(t: Table, capacity: nat, key: Key, version: nat)
    requires capacity > 0 && TableOk(t, capacity)
    ensures TableOk(Remember(t, capacity, key, version).table, capacity)
    ensures Find(Remember(t, capacity, key, version).table, key) == Max(Find(t, key), version)
    ensures var r := Remember(t, capacity, key, version).retired;
      && (r.Some? ==> r.value != key && |t| == capacity && t[|t| - 1].key == r.value
                      && Find(Remember(t, capacity, key, version).table, r.value) == 0)
      && forall k :: k != key && r != Some(k) ==> Find(Remember(t, capacity, key, version).table, k) == Find(t, k)
  {
    var o := Remember(t, capacity, key, version);
    if version == 0 {
    } else if Has(t, key) {
      WithoutKeeps(t, key);
      var rest := Without(t, key);
      if version > Find(t, key) {
        assert o.table[1..] == rest;
        forall i | 0 <= i < |rest| ensures rest[i].key != key && rest[i].version > 0 {
          assert rest[i] in t;
        }
      }
    } else {
      FindAbsent(t, key);
      InsertEffect(t, capacity, key, version);
    }
  }

  /**
   * Which record goes where: a replay leaves the order alone, news about a recorded key moves only its
   * record to the front, a new key goes to the front, and only a full table loses its last record.
   */
  lemma RememberOrder(t: Table, capacity: nat, key: Key, version: nat)
    requires capacity > 0 && TableOk(t, capacity)
    ensures var o := Remember(t, capacity, key, version);
      && (version == 0 ==> o == Outcome(t, None))
      && (forall i :: 0 <= i < |t| && t[i].key == key && version > 0 ==>
            o == Outcome(if version > t[i].version then [Record(key, version)] + (t[..i] + t[i + 1..]) else t, None))
      && ((forall i :: 0 <= i < |t| ==> t[i].key != key) && version > 0 ==>
            o == if |t| < capacity then Outcome([Record(key, version)] + t, None)
                 else Outcome([Record(key, version)] + t[..|t| - 1], Some(t[|t| - 1].key)))
  {
    forall i | 0 <= i < |t| && t[i].key == key
      ensures Has(t, key) && Find(t, key) == t[i].version && Without(t, key) == t[..i] + t[i + 1..]
    {
      FindAt(t, i);
      WithoutAt(t, i);
    }
  }

  lemma InsertEffect(t: Table, capacity: nat, key: Key, version: nat)
    requires capacity > 0 && TableOk(t, capacity) && version > 0 && !Has(t, key)
    ensures TableOk(Remember(t, capacity, key, version).table, capacity)
    ensures Find(Remember(t, capacity, key, version).table, key) == version
    ensures var r := Remember(t, capacity, key, version).retired;
      && (r.Some? ==> r.value != key && |t| == capacity && t[|t| - 1].key == r.value
                      && Find(Remember(t, capacity, key, version).table, r.value) == 0)
      && forall k :: k != key && r != Some(k) ==> Find(Remember(t, capacity, key, version).table, k) == Find(t, k)
  {
    var o := Remember(t, capacity, key, version);
    assert forall i :: 0 <= i < |t| ==> t[i].key != key;
    if |t| == capacity {
      var front := t[..|t| - 1];
      assert o.table[1..] == front;
      assert !Has(front, t[|t| - 1].key);
      FindAbsent(front, t[|t| - 1].key);
      forall k | k != t[|t| - 1].key ensures Find(front, k) == Find(t, k) {
        FindPrefix(t, k);
      }
    } else {
      assert o.table[1..] == t;
    }
  }

  /** Positions in a table with distinct keys determine what Without removes. */
  lemma {:induction false} WithoutAt(t: Table, i: nat)
    requires Distinct(t) && i < |t|
    ensures Without(t, t[i].key) == t[..i] + t[i + 1..]
  {
    if i > 0 {
      assert t[1..][i - 1] == t[i];
      WithoutAt(t[1..], i - 1);
      assert t[1..][..i - 1] == t[1..i] && t[1..][i..] == t[i + 1..];
      assert [t[0]] + t[1..i] == t[..i];
    }
  }

  // ---- Retirement ----

  /** The newest records are those of these keys, the last of them first. */
  predicate Newest(t: Table, keys: seq<Key>) {
    |keys| <= |t| && forall j :: 0 <= j < |keys| ==> t[j].key == keys[|keys| - 1 - j]
  }

  /** Advancing or inserting one more key puts it in front of the others. */
  lemma NewestGrows(t: Table, capacity: nat, keys: seq<Key>, key: Key, version: nat)
    requires TableOk(t, capacity) && Newest(t, keys) && |keys| < capacity && key !in keys && version > Find(t, key)
    ensures Newest(Remember(t, capacity, key, version).table, keys + [key])
  {
    hide Find, Without, Remember, Has, Newest;
    RememberOrder(t, capacity, key, version);
    NewestApart(t, keys, key);
    if i :| 0 <= i < |t| && t[i].key == key {
      FindAt(t, i);
      NewestCons(t, t[..i] + t[i + 1..], keys, Record(key, version));
    } else if |t| < capacity {
      NewestCons(t, t, keys, Record(key, version));
    } else {
      NewestCons(t, t[..|t| - 1], keys, Record(key, version));
    }
  }

  lemma NewestApart(t: Table, keys: seq<Key>, key: Key)
    requires Newest(t, keys) && key !in keys
    ensures |keys| <= |t| && forall i :: 0 <= i < |t| && t[i].key == key ==> i >= |keys|
  {
    forall i | 0 <= i < |keys| ensures t[i].key != key {
      assert t[i].key == keys[|keys| - 1 - i];
    }
  }

  lemma NewestCons(t: Table, rest: Table, keys: seq<Key>, r: Record)
    requires Newest(t, keys) && |keys| <= |rest| && forall j :: 0 <= j < |keys| ==> rest[j] == t[j]
    ensures Newest([r] + rest, keys + [r.key])
  {
  }

  /** Once as many other keys as fit are newer, the table holds nothing else. */
  lemma FullOfOthers(t: Table, capacity: nat, keys: seq<Key>, key: Key)
    requires TableOk(t, capacity) && Newest(t, keys) && |keys| == capacity && key !in keys
    ensures Find(t, key) == 0
  {
    FindAbsent(t, key);
  }
}
