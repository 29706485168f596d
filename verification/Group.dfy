/**
 * The cache group as the source keeps it: a lazily created LRU behind a byte limit, the floor
 * table and the epoch array, updated in place. Each critical section is proved to perform the
 * corresponding step function of module Fencing; clock readings are parameters.
 */
module Group {
  import opened Types
  import opened Keys
  import opened Fencing
  import opened Recency
  import opened Lru
  import Floors
  import opened FloorTable
  import opened Protocol

  /** What the recency order makes available to lookups. */
  function ResidentOf(s: Items): map<Key, View> {
    if s == [] then map[] else ResidentOf(s[1..])[s[0].key := s[0].view]
  }

  lemma {:induction false} ResidentLookup(s: Items, key: Key)
    ensures key in ResidentOf(s) <==> LookupItem(s, key).Some?
    ensures key in ResidentOf(s) ==> ResidentOf(s)[key] == LookupItem(s, key).value.view
  {
    if s != [] {
      ResidentLookup(s[1..], key);
    }
  }

  lemma {:induction false} LookupDropped(s: Items, key: Key, other: Key)
    requires key != other
    ensures LookupItem(DropKey(s, key), other) == LookupItem(s, other)
  {
    if s != [] && s[0].key != key {
      LookupDropped(s[1..], key, other);
    }
  }

  lemma {:induction false} LookupPrefix(t: Items, s: Items, key: Key)
    requires t <= s && LookupItem(t, key).Some?
    ensures LookupItem(s, key) == LookupItem(t, key)
  {
    if t[0].key != key {
      LookupPrefix(t[1..], s[1..], key);
    }
  }

  /** Dropping a key drops exactly that key from what is resident. */
  lemma ResidentDropped(s: Items, key: Key)
    requires DistinctKeys(s)
    ensures ResidentOf(DropKey(s, key)) == ResidentOf(s) - {key}
  {
    DropKeyDistinct(s, key);
    forall k ensures k in ResidentOf(DropKey(s, key)) <==> k in ResidentOf(s) && k != key
             ensures k in ResidentOf(DropKey(s, key)) ==> ResidentOf(DropKey(s, key))[k] == ResidentOf(s)[k]
    {
      ResidentLookup(DropKey(s, key), k);
      ResidentLookup(s, k);
      if k != key {
        LookupDropped(s, key, k);
      }
    }
  }

  /** Insertion with eviction is a restriction of plain insertion. */
  lemma ResidentAdded(s: Items, item: Item, capacity: nat)
    requires DistinctKeys(s)
    ensures var r := ResidentOf(AddItem(s, item, capacity));
      r == Restrict(ResidentOf(s)[item.key := item.view], r.Keys)
  {
    var full := [item] + DropKey(s, item.key);
    TrimIsLongestFit(full, capacity);
    var t := Trim(full, capacity);
    forall k | k in ResidentOf(t)
      ensures k in ResidentOf(s)[item.key := item.view]
      ensures ResidentOf(t)[k] == ResidentOf(s)[item.key := item.view][k]
    {
      ResidentLookup(t, k);
      LookupPrefix(t, full, k);
      ResidentLookup(s, k);
      if k != item.key {
        assert full[1..] == DropKey(s, item.key);
        LookupDropped(s, item.key, k);
      }
    }
  }

  /** cache.add: oversized or already expired values are not stored and displace their predecessor. */
  function CacheAdd(s: Items, item: Item, capacity: nat, now: nat): Items {
    if Weight(item) > capacity || Expired(item, now) then DropKey(s, item.key)
    else AddItem(s, item, capacity)
  }

  lemma CacheAddResident(s: Items, item: Item, capacity: nat, now: nat)
    requires DistinctKeys(s)
    ensures var r := ResidentOf(CacheAdd(s, item, capacity, now));
      r == Restrict(ResidentOf(s)[item.key := item.view], r.Keys)
  {
    if Weight(item) > capacity || Expired(item, now) {
      ResidentDropped(s, item.key);
    } else {
      ResidentAdded(s, item, capacity);
    }
  }

  /** A value that fits and has not expired is stored at the front: it is never its own victim. */
  lemma CacheAddKeepsItsOwn(s: Items, item: Item, capacity: nat, now: nat)
    requires Weight(item) <= capacity && !Expired(item, now)
    ensures CacheAdd(s, item, capacity, now) != [] && CacheAdd(s, item, capacity, now)[0] == item
  {
    AddedSurvives(s, item, capacity);
  }

  /** The version of the key's entry, zero when there is none or its time has come. */
  predicate LiveVersion(s: Items, key: Key, now: nat, version: nat) {
    && (forall j :: 0 <= j < |s| && s[j].key == key ==>
          version == if s[j].expireAt.Some? && s[j].expireAt.value <= now then 0 else s[j].view.version)
    && ((forall j :: 0 <= j < |s| ==> s[j].key != key) ==> version == 0)
  }

  /** What is known of a key, in the fields of its record and of its entry. */
  lemma KnownExact(l: Local, s: Items, key: Key, now: nat, version: nat)
    requires DistinctKeys(s) && LiveVersion(s, key, now, version)
    ensures Known(Lapsed(l, s, key, now), key) == Max(Floors.Find(l.floors, key), version)
  {
    hide ResidentOf, ExpireKey, LookupItem;
    ExpireKeyExact(s, key, now);
    var r := ExpireKey(s, key, now);
    ResidentLookup(r, key);
    LookupExact(r, key);
    if i :| 0 <= i < |s| && s[i].key == key {
      if s[i].expireAt.Some? && s[i].expireAt.value <= now {
        assert forall j :: 0 <= j < |r| ==> r[j].key != key;
      }
    }
  }

  const CLEANUP_BUDGET := 2   // milliseconds

  /** The byte-limited cache around the lazily created LRU. */
  class LocalCache {
    const cacheBytes: nat
    var lru: Cache?

    ghost predicate Valid()
      reads this, lru, if lru == null then {} else set e | e in lru.ll
    {
      lru != null ==> lru.Valid() && lru.bytesTotal == cacheBytes
    }

    ghost function Order(): Items
      reads this, lru
    {
      if lru == null then [] else lru.items
    }

    constructor (cacheBytes: nat)
      ensures Valid() && Order() == [] && this.cacheBytes == cacheBytes && lru == null
    {
      this.cacheBytes, lru := cacheBytes, null;
    }

    method Remove(key: Key)
      requires Valid()
      modifies lru
      ensures Valid() && Order() == DropKey(old(Order()), key) && IsWithout(old(Order()), key, Order())
      ensures lru != null ==> forall x :: x in lru.ll ==> x in old(lru.ll)
    {
      if lru != null {
        lru.Remove(key);
      }
    }

    method Version(key: Key, now: nat) returns (version: nat)
      requires Valid()
      modifies lru
      ensures Valid() && Order() == ExpireKey(old(Order()), key, now)
      ensures lru != null ==> forall x :: x in lru.ll ==> x in old(lru.ll)
      ensures version == if key in ResidentOf(Order()) then ResidentOf(Order())[key].version else 0
    {
      version := 0;
      if lru != null {
        var found := lru.Peek(key, now);
        if found.Some? {
          version := found.value.version;
        }
      }
      ResidentLookup(Order(), key);
    }

    method Get(key: Key, now: nat) returns (found: Option<View>)
      requires Valid()
      modifies lru
      ensures Valid() && Order() == Touch(ExpireKey(old(Order()), key, now), key)
      ensures var seen := ResidentOf(ExpireKey(old(Order()), key, now));
        found == if key in seen then Some(seen[key]) else None
      ensures forall j :: 0 <= j < |old(Order())| && old(Order())[j].key == key ==> var e := old(Order())[j];
        found == if e.expireAt.Some? && e.expireAt.value <= now then None else Some(e.view)
      ensures (forall j :: 0 <= j < |old(Order())| ==> old(Order())[j].key != key) ==> found.None?
    {
      ResidentLookup(ExpireKey(Order(), key, now), key);
      found := None;
      if lru != null {
        found := lru.Get(key, now);
      }
    }

    /** add, with the clock read once for the deadline and once for the check against it. */
    method Add(key: Key, view: View, until: Option<nat>, ttl: nat, now: nat, later: nat) returns (expires: Option<nat>)
      requires Valid()
      modifies this, lru, if lru == null then {} else set e | e in lru.ll
      ensures Valid() && (old(lru) == null || lru == old(lru)) && (lru != old(lru) ==> fresh(lru))
      ensures lru != null ==>
        forall x :: x in lru.ll ==> fresh(x) || (old(lru) != null && x in old(lru.ll))
      ensures var deadline := if until.Some? && until.value < now + ttl then until.value else now + ttl;
        && Order() == CacheAdd(old(Order()), Item(key, view, Some(deadline)), cacheBytes, later)
        && (|key| + |view.bytes| > cacheBytes ==> expires == None)
        && (|key| + |view.bytes| <= cacheBytes && deadline > later ==> expires == Some(deadline))
        && (|key| + |view.bytes| <= cacheBytes && deadline <= later ==> expires == until)
        && if |key| + |view.bytes| <= cacheBytes && deadline > later
           then Order() != [] && Order()[0] == Item(key, view, Some(deadline))
           else IsWithout(old(Order()), key, Order())
    {
      hide DropKey, Trim;
      ghost var end := if until.Some? && until.value < now + ttl then until.value else now + ttl;
      ghost var stored := Item(key, view, Some(end));
      if Weight(stored) <= cacheBytes && !Expired(stored, later) {
        CacheAddKeepsItsOwn(Order(), stored, cacheBytes, later);
      }
      if |key| + |view.bytes| > cacheBytes {
        Remove(key);
        return None;
      }
      var deadline := now + ttl;
      if until.Some? && until.value < deadline {
        deadline := until.value;
      }
      if deadline <= later {
        Remove(key);
        return until;
      }
      if lru == null {
        lru := new Cache(cacheBytes);
      }
      lru.AddUntil(key, view, Some(deadline));
      expires := Some(deadline);
    }

    /** cleanExpired; `locked` says that another holder has the mutex, `ticks` when the budget runs out. */
    method CleanExpired(locked: bool, now: nat, limit: int, ticks: nat) returns (checked: nat, removed: nat, busy: bool)
      requires Valid()
      modifies lru
      ensures Valid() && busy == locked
      ensures busy || lru == null ==> Order() == old(Order()) && checked == removed == 0
      ensures !busy && lru != null ==>
        && checked == (if limit <= 0 then 0 else Min(Min(limit, |old(Order())|), ticks))
        && Order() == Sweep(old(Order()), old(lru.CursorAt()), now, checked).0
        && removed == |old(Order())| - |Order()|
    {
      checked, removed, busy := 0, 0, locked;
      if !busy && lru != null {
        checked, removed := lru.PruneExpired(now, limit, CLEANUP_BUDGET, ticks);
      }
    }
  }

  /** Reading the resident version removes an entry that has expired. */
  function Lapsed(l: Local, s: Items, key: Key, now: nat): Local {
    l.(resident := ResidentOf(ExpireKey(s, key, now)))
  }

  /** The outcome of InvalidateVersion with its two looks at the resident entry. */
  predicate Invalidated(cfg: Config, l: Local, s: Items, key: Key, version: nat, now: nat, later: nat, l': Local) {
    var seen := ExpireKey(s, key, now);
    var m := Invalidate(cfg, Lapsed(l, s, key, now), key, version);
    && l'.floors == m.floors && l'.epochs == m.epochs
    && l'.resident == if ExpireKey(seen, key, later) == seen then m.resident else m.resident - {key}
  }

  /** The outcome of the check and fill at the end of loadSource. */
  predicate Checked(cfg: Config, l: Local, s: Items, key: Key, fence: Fence, view: View, now: nat,
                    minimum: nat, stale: bool, l': Local)
  {
    var seen := Lapsed(l, s, key, now);
    && minimum == FillMinimum(seen, key, fence)
    && (stale <==> view.version < minimum)
    && l' == if FillValid(cfg, seen, key, fence, view) then Insert(seen, key, view, l'.resident.Keys) else seen
  }

  class CacheGroup {
    const cfg: Config
    const mainCache: LocalCache
    const floors: VersionFloors
    const epochs: array<nat>

    ghost predicate Valid()
      reads this, mainCache, mainCache.lru, floors, floors.advanced, epochs
      reads if mainCache.lru == null then {} else set e | e in mainCache.lru.ll
    {
      && mainCache.Valid()
      && floors.Valid() && floors.capacity == cfg.capacity
      && epochs.Length == STRIPES
    }

    /** The state of module Fencing that this object represents. */
    ghost function Abs(): Local
      requires epochs.Length == STRIPES
      reads mainCache, mainCache.lru, floors, epochs
    {
      Local(ResidentOf(mainCache.Order()), floors.records, epochs[..])
    }

    constructor (cfg: Config, capacity: nat)
      requires capacity > 0
      ensures Valid() && Abs() == Fresh() && this.cfg == cfg && fresh(mainCache) && fresh(floors) && fresh(epochs)
    {
      this.cfg := cfg;
      mainCache := new LocalCache(capacity);
      floors := new VersionFloors(cfg.capacity);
      epochs := new nat[STRIPES](_ => 0);
      new;
      assert epochs[..] == seq(STRIPES, _ => 0);
    }

    /** knownVersionLocked. */
    method KnownVersion(key: Key, now: nat) returns (known: nat)
      requires Valid()
      modifies mainCache.lru
      ensures Valid() && floors.records == old(floors.records) && epochs[..] == old(epochs[..])
      ensures mainCache.Order() == ExpireKey(old(mainCache.Order()), key, now)
      ensures mainCache.lru != null ==> forall x :: x in mainCache.lru.ll ==> x in old(mainCache.lru.ll)
      ensures known == Known(Abs(), key)
    {
      var floor := floors.Lookup(key);
      var resident := mainCache.Version(key, now);
      known := Max(floor, resident);
    }

    /** readBarrier. */
    method ReadBarrier(key: Key, now: nat) returns (fence: Fence)
      requires Valid()
      modifies mainCache.lru
      ensures Valid() && Abs() == Lapsed(old(Abs()), old(mainCache.Order()), key, now)
      ensures fence == Barrier(cfg, Abs(), key)
    {
      var known := KnownVersion(key, now);
      fence := Fence(epochs[cfg.bucket(key)], known);
    }

    method BumpEpoch(key: Key)
      requires epochs.Length == STRIPES
      modifies epochs
      ensures epochs[..] == Bump(cfg, old(epochs[..]), key)
    {
      var b := cfg.bucket(key);
      epochs[b] := epochs[b] + 1;
    }

    /** rememberVersionLocked, including the bump for a retired record. */
    method RememberVersion(key: Key, version: nat)
      requires Valid()
      modifies floors, floors.advanced, epochs
      ensures Valid() && forall e :: e in floors.advanced && e !in old(floors.advanced) ==> fresh(e)
      ensures Abs() == Fencing.RememberVersion(cfg, old(Abs()), key, version)
      ensures RetiredStripe(cfg, old(Abs()), key, version, epochs[..])
    {
      hide ResidentOf, DistinctKeys, Floors.TableOk, Floors.Remember, RetiredStripe;
      var retired := floors.Remember(key, version);
      if retired.Some? {
        BumpEpoch(retired.value);
      }
      RememberStripes(cfg, old(Abs()), key, version);
    }

    /**
     * InvalidateVersion. The two looks at the resident entry happen at `now` and `later`; an entry
     * that lapses in between disappears as well, which is the only difference the delay makes.
     */
    method InvalidateVersion(key: Key, version: int, now: nat, later: nat) returns (ok: bool)
      requires Valid()
      modifies mainCache.lru, floors, floors.advanced, epochs
      ensures Valid() && (ok <==> KeyOk(key) && version >= 0)
      ensures !ok ==> Abs() == old(Abs())
      ensures ok ==> Invalidated(cfg, old(Abs()), old(mainCache.Order()), key, version, now, later, Abs())
      ensures ok ==>
        NotifiedStripes(cfg, Lapsed(old(Abs()), old(mainCache.Order()), key, now), key, version, epochs[..])
    {
      hide ResidentOf, ExpireKey, Known, Advances, Fencing.RememberVersion, Bump, DistinctKeys, Floors.TableOk;
      hide NotifiedStripes, RetiredStripe;
      ok := KeyOk(key) && version >= 0;
      if !ok {
        return;
      }
      var known := KnownVersion(key, now);
      Record(key, version, known);
      DropStale(key, version, Max(known, version), later);
      InvalidateStripes(cfg, Lapsed(old(Abs()), old(mainCache.Order()), key, now), key, version);
    }

    /**
     * The member's handler: parse the header, invalidate, and only then answer 204 with the accepted
     * version echoed. Any other answer means that nothing was done.
     */
    method HandleInvalidation(header: seq<Text>, key: Key, now: nat, later: nat) returns (r: Response)
      requires Valid()
      modifies mainCache.lru, floors, floors.advanced, epochs
      ensures Valid() && (r.status == 204 <==> ParseHeader(header).Some? && KeyOk(key))
      ensures r.status == 204 ==>
        && r.headers == SendHeader(ParseHeader(header).value)
        && Invalidated(cfg, old(Abs()), old(mainCache.Order()), key, ParseHeader(header).value, now, later, Abs())
      ensures r.status != 204 ==> Abs() == old(Abs()) && r == Response(400, [])
    {
      hide Invalidated, ParseHeader, SendHeader, KeyOk, ResidentOf, DistinctKeys, Floors.TableOk;
      var version := ParseHeader(header);
      var ok := false;
      if version.Some? {
        ok := InvalidateVersion(key, version.value, now, later);
      }
      r := if ok then Response(204, SendHeader(version.value)) else Response(400, []);
    }

    /** The first part of InvalidateVersion: floor and epoch. */
    method Record(key: Key, version: nat, known: nat)
      requires Valid() && known == Known(Abs(), key)
      modifies floors, floors.advanced, epochs
      ensures Valid()
      ensures floors.records == Invalidate(cfg, old(Abs()), key, version).floors
      ensures epochs[..] == Invalidate(cfg, old(Abs()), key, version).epochs
    {
      hide ResidentOf, DistinctKeys, Floors.TableOk, Floors.Remember, Known, RetiredStripe;
      RememberVersion(key, Max(known, version));
      if version == 0 || version > known {
        BumpEpoch(key);
      }
    }

    /** The last part of InvalidateVersion: remove the entry unless it is new enough. */
    method DropStale(key: Key, version: nat, minimum: nat, later: nat)
      requires mainCache.Valid() && minimum >= version
      modifies mainCache.lru
      ensures mainCache.Valid()
      ensures mainCache.lru != null ==> forall x :: x in mainCache.lru.ll ==> x in old(mainCache.lru.ll)
      ensures var seen, r := old(mainCache.Order()), ResidentOf(old(mainCache.Order()));
        var left := if version == 0 || (if key in r then r[key].version else 0) < minimum then r - {key} else r;
        ResidentOf(mainCache.Order()) == if ExpireKey(seen, key, later) == seen then left else left - {key}
    {
      hide ResidentOf, DropKey, LookupItem, IsWithout;
      ghost var seen := mainCache.Order();
      ResidentDropped(seen, key);
      ResidentLapsed(seen, key, later);
      if version == 0 {
        mainCache.Remove(key);
      } else {
        var resident := mainCache.Version(key, later);
        ResidentDropped(mainCache.Order(), key);
        if resident < minimum {
          mainCache.Remove(key);
        }
      }
    }

    /**
     * The end of loadSource: the value is compared with what is known now, and inserted only
     * when the fence's epoch still stands. `minimum` is reported on every outcome.
     */
    method CheckAndFill(key: Key, fence: Fence, view: View, ttl: nat, now: nat, later: nat)
      returns (minimum: nat, stale: bool, filled: bool)
      requires Valid()
      modifies mainCache, mainCache.lru, if mainCache.lru == null then {} else set e | e in mainCache.lru.ll
      ensures Valid()
      ensures Checked(cfg, old(Abs()), old(mainCache.Order()), key, fence, view, now, minimum, stale, Abs())
      ensures filled <==> FillValid(cfg, Lapsed(old(Abs()), old(mainCache.Order()), key, now), key, fence, view)
      // A value that may fill and fits is in front of the order from now on.
      ensures filled && |key| + |view.bytes| <= mainCache.cacheBytes && now + ttl > later ==>
        mainCache.Order() != [] && mainCache.Order()[0] == Item(key, view, Some(now + ttl))
    {
      hide ResidentOf, ExpireKey, DistinctKeys, Floors.TableOk, Known, IsWithout;
      var known := KnownVersion(key, now);
      minimum := Max(fence.minimum, known);
      stale := view.version < minimum;
      filled := fence.epoch == epochs[cfg.bucket(key)] && !stale;
      if filled {
        ghost var s := mainCache.Order();
        CacheAddResident(s, Item(key, view, Some(now + ttl)), mainCache.cacheBytes, later);
        var _ := mainCache.Add(key, view, None, ttl, now, later);
      }
    }
  }

  lemma ResidentLapsed(s: Items, key: Key, now: nat)
    requires DistinctKeys(s)
    ensures DistinctKeys(ExpireKey(s, key, now))
    ensures ResidentOf(ExpireKey(s, key, now))
         == if ExpireKey(s, key, now) == s then ResidentOf(s) else ResidentOf(s) - {key}
  {
    DropKeyDistinct(s, key);
    ResidentDropped(s, key);
  }
}
