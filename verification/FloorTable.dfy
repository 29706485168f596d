/** versionFloors as the source keeps it: an index into a list ordered by last advance, updated in place. */
module FloorTable {
  import opened Types
  import opened Lists
  import Floors

  class Element {
    const key: Key
    var version: nat

    constructor (key: Key, version: nat)
      ensures this.key == key && this.version == version
    {
      this.key := key;
      this.version := version;
    }
  }

  class VersionFloors {
    const capacity: nat
    var entries: map<Key, Element>
    var advanced: seq<Element>
    var evictions: nat
    ghost var records: Floors.Table   // the table these fields represent

    /** Index and list are in bijection and within capacity, and represent `records`. */
    ghost predicate Valid()
      reads this, advanced
    {
      && Floors.TableOk(records, capacity) && capacity > 0
      && |entries| == |advanced| == |records|
      && (forall i :: 0 <= i < |advanced| ==>
            && records[i] == Floors.Record(advanced[i].key, advanced[i].version)
            && advanced[i].key in entries && entries[advanced[i].key] == advanced[i])
    }

    constructor (capacity: nat)
      requires capacity > 0
      ensures Valid() && records == [] && this.capacity == capacity && evictions == 0
    {
      this.capacity := capacity;
      entries, advanced, evictions, records := map[], [], 0, [];
    }

    /** The index has no key beyond the list's: both have the same number of distinct keys. */
    lemma IndexIsExact(key: Key)
      requires Valid() && key in entries
      ensures entries[key] in advanced && entries[key].key == key
    {
      var t := records;
      var keys := seq(|t|, i requires 0 <= i < |t| => t[i].key);
      assert forall i :: 0 <= i < |keys| ==> keys[i] == advanced[i].key;
      Exhausts(keys, entries.Keys);
      var i :| 0 <= i < |keys| && keys[i] == key;
      assert advanced[i].key == key;
    }

    /** The index answers for the table. */
    lemma Represents(key: Key)
      requires Valid()
      ensures Floors.Has(records, key) <==> key in entries
      ensures key in entries ==> entries[key] in advanced && entries[key].key == key
      ensures key in entries ==> Floors.Find(records, key) == entries[key].version
      ensures key !in entries ==> Floors.Find(records, key) == 0
    {
      if key in entries {
        IndexIsExact(key);
        var i := IndexOf(advanced, entries[key]);
        assert records[i].key == key;
        Floors.FindAt(records, i);
      } else {
        assert forall i :: 0 <= i < |records| ==> records[i].key == advanced[i].key;
        Floors.FindAbsent(records, key);
      }
    }

    method Lookup(key: Key) returns (version: nat)
      requires Valid()
      ensures version == Floors.Find(records, key)
      ensures version == if key in entries then entries[key].version else 0
    {
      Represents(key);
      version := if key in entries then entries[key].version else 0;
    }

    /** rememberVersionLocked, up to the epoch bump its caller performs for the retired key. */
    method Remember(key: Key, version: int) returns (retired: Option<Key>)
      requires Valid()
      modifies this, advanced
      ensures Valid()
      ensures forall e :: e in advanced && e !in old(advanced) ==> fresh(e)
      ensures var o := Floors.Remember(old(records), capacity, key, Max(version, 0));
        records == o.table && retired == o.retired
      ensures evictions == old(evictions) + if retired.Some? then 1 else 0
    {
      Represents(key);
      retired := None;
      if version <= 0 {
      } else if key in entries {
        if version > entries[key].version {
          Advance(key, version);
        }
      } else {
        if |entries| == capacity {
          retired := RetireOldest();
        }
        Insert(key, version);
      }
    }

    method Insert(key: Key, version: nat)
      requires Valid() && key !in entries && version > 0 && |entries| < capacity
      modifies this
      ensures Valid() && evictions == old(evictions)
      ensures records == [Floors.Record(key, version)] + old(records)
      ensures |advanced| > 0 && fresh(advanced[0]) && advanced[1..] == old(advanced)
    {
      var e := new Element(key, version);
      assert forall i :: 0 <= i < |records| ==> records[i].key == advanced[i].key != key;
      entries := entries[key := e];
      advanced := [e] + advanced;
      records := [Floors.Record(key, version)] + records;
    }

    method Advance(key: Key, version: nat)
      requires Valid() && key in entries && entries[key] in advanced && entries[key].key == key
      requires version > entries[key].version
      modifies this, entries[key]
      ensures Valid() && evictions == old(evictions)
      ensures forall e :: e in advanced ==> e in old(advanced)
      ensures records == [Floors.Record(key, version)] + Floors.Without(old(records), key)
    {
      hide Floors.Without, IndexOf;
      var e := entries[key];
      ghost var i := IndexOf(advanced, e);
      AdvanceTable(i, version);
      assert forall j :: 0 <= j < |advanced| && j != i ==> records[j].key == advanced[j].key != key;
      ghost var was, order := advanced, records;
      e.version := version;
      advanced := [e] + Removed(advanced, e);
      records := [Floors.Record(key, version)] + (records[..i] + records[i + 1..]);
      forall j | 0 < j < |advanced|
        ensures records[j] == Floors.Record(advanced[j].key, advanced[j].version)
        ensures advanced[j].key in entries && entries[advanced[j].key] == advanced[j]
      {
        var m := if j <= i then j - 1 else j;
        assert advanced[j] == was[m] && records[j] == order[m];
      }
    }

    lemma AdvanceTable(i: nat, version: nat)
      requires Valid() && i < |records| && version > records[i].version
      ensures Floors.Without(records, records[i].key) == records[..i] + records[i + 1..]
      ensures Floors.TableOk([Floors.Record(records[i].key, version)] + (records[..i] + records[i + 1..]), capacity)
    {
      Floors.WithoutAt(records, i);
      Floors.FindAt(records, i);
      Floors.RememberEffect(records, capacity, records[i].key, version);
    }

    method RetireOldest() returns (forgotten: Option<Key>)
      requires Valid() && |entries| == capacity
      modifies this
      ensures Valid() && evictions == old(evictions) + 1 && |records| == |old(records)| - 1
      ensures records == old(records)[..|records|] && advanced == old(advanced)[..|records|]
      ensures forgotten == Some(old(records)[|records|].key) && entries == old(entries) - {forgotten.value}
    {
      var e := advanced[|advanced| - 1];
      forgotten := Some(e.key);
      assert (entries - {e.key}).Keys == entries.Keys - {e.key};
      assert forall i :: 0 <= i < |advanced| - 1 ==> records[i].key == advanced[i].key != e.key;
      entries := entries - {e.key};
      advanced := advanced[..|advanced| - 1];
      records := records[..|records| - 1];
      evictions := evictions + 1;
    }
  }
}
