/**
 * What the LRU means: entries in order of last use, index 0 the most recent, together with
 * the expiry sweep that walks from the oldest entry towards the newest and wraps around.
 */
module Recency {
  import opened Types
  import opened Fencing

  /** An entry; no expiry time means it never expires. */
  datatype Item = Item(key: Key, view: View, expireAt: Option<nat>)

  type Items = seq<Item>

  predicate DistinctKeys(s: Items) {
    forall i, j :: 0 <= i < j < |s| ==> s[i].key != s[j].key
  }

  function Weight(i: Item): nat {
    |i.key| + |i.view.bytes|
  }

  function Total(s: Items): nat {
    if s == [] then 0 else Total(s[..|s| - 1]) + Weight(s[|s| - 1])
  }

  predicate Expired(i: Item, now: nat) {
    i.expireAt.Some? && i.expireAt.value <= now
  }

  function RemoveAt(s: Items, i: nat): (r: Items)
    requires i < |s|
    ensures |r| == |s| - 1
  {
    s[..i] + s[i + 1..]
  }

  function DropKey(s: Items, key: Key): Items {
    if s == [] then [] else if s[0].key == key then s[1..] else [s[0]] + DropKey(s[1..], key)
  }

  function LookupItem(s: Items, key: Key): Option<Item> {
    if s == [] then None else if s[0].key == key then Some(s[0]) else LookupItem(s[1..], key)
  }

  /** Peek: an expired entry is removed when it is looked at. */
  function ExpireKey(s: Items, key: Key, now: nat): Items {
    var i := LookupItem(s, key);
    if i.Some? && Expired(i.value, now) then DropKey(s, key) else s
  }

  /** A successful read moves the entry to the front and changes nothing else. */
  function Touch(s: Items, key: Key): Items {
    var i := LookupItem(s, key);
    if i.Some? then [i.value] + DropKey(s, key) else s
  }

  /** Eviction from the back until the total fits; zero means unlimited. */
  function Trim(s: Items, capacity: nat): Items {
    if capacity == 0 || Total(s) <= capacity || s == [] then s else Trim(s[..|s| - 1], capacity)
  }

  function AddItem(s: Items, item: Item, capacity: nat): Items {
    Trim([item] + DropKey(s, item.key), capacity)
  }

  // ---- Removal, totals and positions ----

  lemma {:induction false} TotalAppend(a: Items, b: Items)
    ensures Total(a + b) == Total(a) + Total(b)
  {
    if b == [] {
      assert a + b == a;
    } else {
      assert (a + b)[..|a + b| - 1] == a + b[..|b| - 1];
      TotalAppend(a, b[..|b| - 1]);
    }
  }

  lemma TotalOne(i: Item)
    ensures Total([i]) == Weight(i)
  {
    assert [i][..0] == [];
  }

  lemma TotalCons(i: Item, s: Items)
    ensures Total([i] + s) == |i.key| + |i.view.bytes| + Total(s)
  {
    TotalAppend([i], s);
    TotalOne(i);
  }

  lemma SplitAt(s: Items, i: nat)
    requires i < |s|
    ensures s == s[..i] + ([s[i]] + s[i + 1..])
  {
  }

  lemma TotalRemoveAt(s: Items, i: nat)
    requires i < |s|
    ensures Total(s) == Total(RemoveAt(s, i)) + Weight(s[i])
  {
    hide Total;
    SplitAt(s, i);
    var a, b := s[..i], s[i + 1..];
    TotalAppend(a, [s[i]] + b);
    TotalCons(s[i], b);
    TotalAppend(a, b);
  }

  lemma RemoveAtPositions(s: Items, i: nat)
    requires i < |s|
    ensures forall j :: 0 <= j < |s| - 1 ==> RemoveAt(s, i)[j] == s[if j < i then j else j + 1]
    ensures DistinctKeys(s) ==> DistinctKeys(RemoveAt(s, i))
  {
  }

  /** Moving one entry to the front permutes the positions and changes neither keys nor total. */
  lemma Fronted(s: Items, i: nat)
    requires i < |s| && DistinctKeys(s)
    ensures var f := [s[i]] + RemoveAt(s, i);
      && |f| == |s| && DistinctKeys(f) && Total(f) == Total(s)
      && forall j :: 0 <= j < |s| ==> f[j] == s[if j == 0 then i else if j <= i then j - 1 else j]
  {
    RemoveAtPositions(s, i);
    TotalRemoveAt(s, i);
    TotalCons(s[i], RemoveAt(s, i));
  }

  lemma FirstReplaced(s: Items, item: Item)
    requires s != [] && DistinctKeys(s) && s[0].key == item.key
    ensures var r := [item] + s[1..];
      && |r| == |s| && DistinctKeys(r) && Total(r) == Total(s) - Weight(s[0]) + Weight(item)
      && r[0] == item && forall j :: 0 < j < |s| ==> r[j] == s[j]
  {
    assert s == [s[0]] + s[1..];
    TotalCons(s[0], s[1..]);
    TotalCons(item, s[1..]);
  }

  lemma RemoveFirst(s: Items)
    requires s != []
    ensures RemoveAt(s, 0) == s[1..]
  {
  }

  lemma RemoveAtTail(s: Items, i: nat)
    requires 0 < i < |s|
    ensures RemoveAt(s, i) == [s[0]] + RemoveAt(s[1..], i - 1)
  {
    assert s[1..][..i - 1] == s[1..i] && s[1..][i..] == s[i + 1..];
    assert s[..i] == [s[0]] + s[1..i];
  }

  lemma {:induction false} DropKeyAt(s: Items, i: nat)
    requires DistinctKeys(s) && i < |s|
    ensures DropKey(s, s[i].key) == RemoveAt(s, i) && LookupItem(s, s[i].key) == Some(s[i])
  {
    hide RemoveAt;
    if i == 0 {
      RemoveFirst(s);
    } else {
      assert s[1..][i - 1] == s[i];
      DropKeyAt(s[1..], i - 1);
      RemoveAtTail(s, i);
    }
  }

  lemma {:induction false} DropKeyAbsent(s: Items, key: Key)
    requires forall i :: 0 <= i < |s| ==> s[i].key != key
    ensures DropKey(s, key) == s && LookupItem(s, key) == None
  {
    if s != [] {
      DropKeyAbsent(s[1..], key);
    }
  }

  /** Looking a key up finds it exactly when some entry carries it. */
  lemma {:induction false} LookupFinds(s: Items, key: Key) returns (i: nat)
    requires LookupItem(s, key).Some?
    ensures i < |s| && s[i].key == key && s[i] == LookupItem(s, key).value
  {
    if s[0].key == key {
      i := 0;
    } else {
      i := LookupFinds(s[1..], key);
      i := i + 1;
    }
  }

  lemma DropKeyDistinct(s: Items, key: Key)
    requires DistinctKeys(s)
    ensures DistinctKeys(DropKey(s, key)) && LookupItem(DropKey(s, key), key) == None
    ensures forall i :: 0 <= i < |DropKey(s, key)| ==> DropKey(s, key)[i].key != key
  {
    hide DropKey, LookupItem;
    var d := DropKey(s, key);
    if i :| 0 <= i < |s| && s[i].key == key {
      DropKeyAt(s, i);
      RemoveAtPositions(s, i);
      forall j | 0 <= j < |d| ensures d[j].key != key {
        assert d[j] == s[if j < i then j else j + 1];
      }
    } else {
      DropKeyAbsent(s, key);
    }
    DropKeyAbsent(d, key);
  }

  // ---- What lookups, expiry and recency do, entry by entry ----

  /** The same entries in the same places, but for the one with this key. */
  predicate IsWithout(s: Items, key: Key, rest: Items) {
    && (forall i :: 0 <= i < |s| && s[i].key == key ==> rest == s[..i] + s[i + 1..])
    && ((forall i :: 0 <= i < |s| ==> s[i].key != key) ==> rest == s)
  }

  lemma DropKeyExact(s: Items, key: Key)
    requires DistinctKeys(s)
    ensures IsWithout(s, key, DropKey(s, key))
  {
    hide DropKey, LookupItem;
    if i :| 0 <= i < |s| && s[i].key == key {
      DropKeyAt(s, i);
    } else {
      DropKeyAbsent(s, key);
    }
  }

  /** An entry is lost to a look at its key exactly if its time has come; everything else stays in place. */
  lemma ExpireKeyExact(s: Items, key: Key, now: nat)
    requires DistinctKeys(s)
    ensures forall i :: 0 <= i < |s| && s[i].key == key ==>
      ExpireKey(s, key, now) ==
        if s[i].expireAt.Some? && s[i].expireAt.value <= now then s[..i] + s[i + 1..] else s
    ensures (forall i :: 0 <= i < |s| ==> s[i].key != key) ==> ExpireKey(s, key, now) == s
    ensures var r := ExpireKey(s, key, now);
      DistinctKeys(r) &&
      forall i :: 0 <= i < |r| && r[i].key == key ==> r[i].expireAt.None? || r[i].expireAt.value > now
  {
    hide DropKey, LookupItem;
    DropKeyDistinct(s, key);
    if i :| 0 <= i < |s| && s[i].key == key {
      DropKeyAt(s, i);
    } else {
      DropKeyAbsent(s, key);
    }
  }

  lemma LookupExact(s: Items, key: Key)
    requires DistinctKeys(s)
    ensures forall i :: 0 <= i < |s| && s[i].key == key ==> LookupItem(s, key) == Some(s[i])
    ensures (forall i :: 0 <= i < |s| ==> s[i].key != key) ==> LookupItem(s, key) == None
  {
    hide DropKey, LookupItem;
    if i :| 0 <= i < |s| && s[i].key == key {
      DropKeyAt(s, i);
    } else {
      DropKeyAbsent(s, key);
    }
  }

  /** Touching an entry moves it to the front of the others, which keep their order. */
  lemma TouchExact(s: Items, key: Key)
    requires DistinctKeys(s)
    ensures forall i :: 0 <= i < |s| && s[i].key == key ==> Touch(s, key) == [s[i]] + (s[..i] + s[i + 1..])
    ensures (forall i :: 0 <= i < |s| ==> s[i].key != key) ==> Touch(s, key) == s
  {
    hide DropKey, LookupItem;
    LookupExact(s, key);
    if i :| 0 <= i < |s| && s[i].key == key {
      DropKeyAt(s, i);
    } else {
      DropKeyAbsent(s, key);
    }
  }

  // ---- Eviction ----

  /** Eviction keeps a prefix that fits and could not have kept one entry more. */
  lemma {:induction false} TrimIsLongestFit(s: Items, capacity: nat)
    ensures var t := Trim(s, capacity);
      && t <= s
      && (capacity == 0 ==> t == s)
      && (capacity > 0 ==> Total(t) <= capacity)
      && (|t| < |s| ==> Total(s[..|t| + 1]) > capacity > 0)
  {
    if capacity != 0 && Total(s) > capacity && s != [] {
      var f := s[..|s| - 1];
      TrimIsLongestFit(f, capacity);
      var t := Trim(f, capacity);
      assert t <= s;
      if |t| < |f| {
        assert f[..|t| + 1] == s[..|t| + 1];
      } else {
        assert s[..|t| + 1] == s;
      }
    }
  }

  /** An entry that fits on its own is never evicted by its own insertion. */
  lemma AddedSurvives(s: Items, item: Item, capacity: nat)
    requires Weight(item) <= capacity || capacity == 0
    ensures AddItem(s, item, capacity) != [] && AddItem(s, item, capacity)[0] == item
  {
    var full := [item] + DropKey(s, item.key);
    TrimIsLongestFit(full, capacity);
    assert full[..1] == [item];
    TotalOne(item);
  }

  // ---- The expiry sweep ----

  /** One check. The cursor is the position after the entry to check; zero means start at the back. */
  function SweepOne(s: Items, p: nat, now: nat): (r: (Items, nat))
    requires s != [] && p <= |s|
    ensures r.1 <= |r.0|
  {
    var i := (if p == 0 then |s| else p) - 1;
    (if Expired(s[i], now) then RemoveAt(s, i) else s, i)
  }

  function Sweep(s: Items, p: nat, now: nat, checks: nat): (r: (Items, nat))
    requires p <= |s|
    ensures r.1 <= |r.0|
    decreases checks
  {
    if checks == 0 || s == [] then (s, p)
    else
      var r := SweepOne(s, p, now);
      Sweep(r.0, r.1, now, checks - 1)
  }

  /** The unexpired entries, in their order. */
  function Alive(s: Items, now: nat): Items {
    if s == [] then []
    else Alive(s[..|s| - 1], now) + if Expired(s[|s| - 1], now) then [] else [s[|s| - 1]]
  }

  /** Exactly the entries without a deadline or with one still ahead are alive. */
  lemma {:induction false} AliveExact(s: Items, now: nat, x: Item)
    ensures x in Alive(s, now) <==> x in s && (x.expireAt.None? || x.expireAt.value > now)
  {
    if s != [] {
      var front, last := s[..|s| - 1], s[|s| - 1];
      AliveExact(front, now, x);
      assert s == front + [last];
    }
  }

  lemma {:induction false} AliveAppend(a: Items, b: Items, now: nat)
    ensures Alive(a + b, now) == Alive(a, now) + Alive(b, now)
  {
    if b == [] {
      assert a + b == a;
    } else {
      assert (a + b)[..|a + b| - 1] == a + b[..|b| - 1];
      AliveAppend(a, b[..|b| - 1], now);
    }
  }

  lemma AliveOne(i: Item, now: nat)
    ensures Alive([i], now) == if Expired(i, now) then [] else [i]
  {
    assert [i][..0] == [];
  }

  lemma {:induction false} SweepCompose(s: Items, p: nat, now: nat, a: nat, b: nat)
    requires p <= |s|
    ensures var m := Sweep(s, p, now, a); Sweep(s, p, now, a + b) == Sweep(m.0, m.1, now, b)
    decreases a
  {
    if a > 0 && s != [] {
      var r := SweepOne(s, p, now);
      SweepCompose(r.0, r.1, now, a - 1, b);
    }
  }

  lemma SweepNone(s: Items, q: nat, now: nat)
    requires q <= |s|
    ensures Sweep(s, q, now, 0) == (s, q)
    ensures s == s[..q] + Alive(s[q..q], now) + s[q..]
  {
    assert s[q..q] == [];
    assert s[..q] + [] + s[q..] == s;
  }

  lemma SweepNext(s: Items, p: nat, now: nat, checks: nat)
    requires p <= |s| && Sweep(s, p, now, checks).0 != []
    ensures var m := Sweep(s, p, now, checks); Sweep(s, p, now, checks + 1) == SweepOne(m.0, m.1, now)
  {
    SweepCompose(s, p, now, checks, 1);
  }

  lemma SweepOneShape(s: Items, q: nat, now: nat)
    requires 0 < q <= |s|
    ensures SweepOne(s, q, now) == (s[..q - 1] + Alive([s[q - 1]], now) + s[q..], q - 1)
  {
    AliveOne(s[q - 1], now);
    assert s[..q - 1] + [s[q - 1]] + s[q..] == s;
    assert s[..q - 1] + [] + s[q..] == RemoveAt(s, q - 1);
  }

  /** Filtering the entry below a stretch and then the stretch filters the longer stretch. */
  lemma StretchJoin(s: Items, q: nat, now: nat, m: nat)
    requires 0 < m <= q <= |s|
    ensures var r := s[..q - 1] + Alive([s[q - 1]], now) + s[q..];
      r[..q - m] + Alive(r[q - m..q - 1], now) + r[q - 1..] == s[..q - m] + Alive(s[q - m..q], now) + s[q..]
  {
    var last, mid := Alive([s[q - 1]], now), s[q - m..q - 1];
    var r := s[..q - 1] + last + s[q..];
    assert r[..q - m] == s[..q - m] && r[q - m..q - 1] == mid && r[q - 1..] == last + s[q..];
    assert s[q - m..q] == mid + [s[q - 1]];
    AliveAppend(mid, [s[q - 1]], now);
    assert s[..q - m] + Alive(mid, now) + (last + s[q..]) == s[..q - m] + (Alive(mid, now) + last) + s[q..];
  }

  lemma SweepStretchStep(s: Items, q: nat, now: nat, m: nat)
    requires 0 < m <= q <= |s|
    ensures Sweep(s, q, now, m) == Sweep(s[..q - 1] + Alive([s[q - 1]], now) + s[q..], q - 1, now, m - 1)
  {
    hide SweepOne, Alive;
    SweepOneShape(s, q, now);
  }

  /** Between two wraps the sweep filters the stretch below its cursor and leaves the rest alone. */
  lemma {:induction false} SweepStretch(s: Items, q: nat, now: nat, m: nat)
    requires m <= q <= |s|
    ensures Sweep(s, q, now, m) == (s[..q - m] + Alive(s[q - m..q], now) + s[q..], q - m)
    decreases m
  {
    hide Sweep, Alive;
    if m == 0 {
      SweepNone(s, q, now);
    } else {
      SweepStretchStep(s, q, now, m);
      var r := s[..q - 1] + Alive([s[q - 1]], now) + s[q..];
      SweepStretch(r, q - 1, now, m - 1);
      StretchJoin(s, q, now, m);
    }
  }

  lemma SweepFromNil(s: Items, now: nat, m: nat)
    ensures Sweep(s, 0, now, m).0 == Sweep(s, |s|, now, m).0
  {
  }

  lemma SweepStretchAll(s: Items, q: nat, now: nat)
    requires q <= |s|
    ensures Sweep(s, q, now, q) == (Alive(s[..q], now) + s[q..], 0)
  {
    SweepStretch(s, q, now, q);
    assert s[..0] + Alive(s[..q], now) + s[q..] == Alive(s[..q], now) + s[q..];
  }

  lemma SweepTail(a: Items, tail: Items, now: nat)
    ensures Sweep(a + tail, 0, now, |tail|).0 == a + Alive(tail, now)
  {
    var b := a + tail;
    SweepFromNil(b, now, |tail|);
    SweepStretch(b, |b|, now, |tail|);
    assert b[..|b| - |tail|] == a && b[|b| - |tail|..|b|] == tail && b[|b|..] == [];
  }

  lemma SweepWrap(s: Items, p: nat, now: nat, head: Items, tail: Items)
    requires 0 < p == |head| && s == head + tail
    ensures Sweep(s, p, now, p + |tail|).0 == Alive(head, now) + Alive(tail, now)
  {
    SweepStretchAll(s, p, now);
    assert s[..p] == head && s[p..] == tail;
    SweepCompose(s, p, now, p, |tail|);
    SweepTail(Alive(head, now), tail, now);
  }

  /** As many checks as there are entries visit every entry, from any cursor position. */
  lemma SweepAll(s: Items, p: nat, now: nat)
    requires p <= |s|
    ensures Sweep(s, p, now, |s|).0 == Alive(s, now)
  {
    hide Sweep, Alive;
    if p == 0 {
      SweepTail([], s, now);
      assert [] + s == s;
    } else {
      var head, tail := s[..p], s[p..];
      assert s == head + tail;
      SweepWrap(s, p, now, head, tail);
      AliveAppend(head, tail, now);
    }
  }

  lemma AliveRemove(s: Items, i: nat, now: nat)
    requires i < |s| && Expired(s[i], now)
    ensures Alive(RemoveAt(s, i), now) == Alive(s, now)
  {
    hide Alive;
    SplitAt(s, i);
    var a, b := s[..i], s[i + 1..];
    AliveAppend(a, [s[i]] + b, now);
    AliveAppend([s[i]], b, now);
    AliveOne(s[i], now);
    AliveAppend(a, b, now);
  }

  /** A sweep never loses an unexpired entry nor reorders one. */
  lemma {:induction false} SweepKeepsAlive(s: Items, p: nat, now: nat, m: nat)
    requires p <= |s|
    ensures Alive(Sweep(s, p, now, m).0, now) == Alive(s, now)
    ensures |Sweep(s, p, now, m).0| <= |s|
    decreases m
  {
    hide Alive;
    if m > 0 && s != [] {
      var i := (if p == 0 then |s| else p) - 1;
      var r := SweepOne(s, p, now);
      SweepKeepsAlive(r.0, r.1, now, m - 1);
      if Expired(s[i], now) {
        AliveRemove(s, i, now);
      }
    }
  }

  lemma {:induction false} AliveLength(s: Items, now: nat)
    ensures |Alive(s, now)| <= |s|
    ensures |Alive(s, now)| == |s| ==> Alive(s, now) == s
  {
    if s != [] {
      var front, last := s[..|s| - 1], s[|s| - 1];
      AliveLength(front, now);
      if Expired(last, now) {
        assert Alive(s, now) == Alive(front, now);
      } else {
        assert |Alive(s, now)| == |Alive(front, now)| + 1;
        assert s == front + [last];
      }
    }
  }

  lemma {:induction false} AliveIdempotent(s: Items, now: nat)
    ensures Alive(Alive(s, now), now) == Alive(s, now)
  {
    if s != [] {
      var front, last := s[..|s| - 1], s[|s| - 1];
      AliveIdempotent(front, now);
      if Expired(last, now) {
        assert Alive(s, now) == Alive(front, now);
      } else {
        AliveOne(last, now);
        AliveAppend(Alive(front, now), [last], now);
      }
    }
  }

  /** Once only unexpired entries are left, sweeping changes nothing. */
  lemma SweepStable(s: Items, p: nat, now: nat, m: nat)
    requires p <= |s| && Alive(s, now) == s
    ensures Sweep(s, p, now, m).0 == s
  {
    hide Sweep, Alive;
    SweepKeepsAlive(s, p, now, m);
    AliveLength(Sweep(s, p, now, m).0, now);
  }

  lemma SweepEnough(s: Items, p: nat, now: nat, m: nat)
    requires p <= |s| <= m
    ensures Sweep(s, p, now, m).0 == Alive(s, now)
  {
    hide Sweep, Alive;
    SweepAll(s, p, now);
    SweepCompose(s, p, now, |s|, m - |s|);
    AliveIdempotent(s, now);
    var r := Sweep(s, p, now, |s|);
    SweepStable(r.0, r.1, now, m - |s|);
  }

  /** `calls` maintenance passes, each checking at most `limit` entries and at most the current length. */
  function Passes(s: Items, p: nat, now: nat, limit: nat, calls: nat): (r: (Items, nat))
    requires p <= |s|
    ensures r.1 <= |r.0|
    decreases calls
  {
    if calls == 0 then (s, p)
    else
      var r := Sweep(s, p, now, Min(limit, |s|));
      Passes(r.0, r.1, now, limit, calls - 1)
  }

  lemma {:induction false} PassesStable(s: Items, p: nat, now: nat, limit: nat, calls: nat)
    requires p <= |s| && Alive(s, now) == s
    ensures Passes(s, p, now, limit, calls).0 == s
    decreases calls
  {
    if calls > 0 {
      SweepStable(s, p, now, Min(limit, |s|));
      var r := Sweep(s, p, now, Min(limit, |s|));
      PassesStable(r.0, r.1, now, limit, calls - 1);
    }
  }

  lemma OneFewer(calls: nat, limit: nat)
    requires calls > 0
    ensures calls * limit == limit + (calls - 1) * limit
  {
  }

  /** After `done` checks, further passes finish the job as soon as checks add up to the length. */
  lemma {:induction false} PassesFinish(s: Items, p: nat, now: nat, limit: nat, calls: nat, done: nat)
    requires p <= |s| && done + calls * limit >= |s|
    ensures var m := Sweep(s, p, now, done); Passes(m.0, m.1, now, limit, calls).0 == Alive(s, now)
    decreases calls
  {
    hide Sweep, Alive;
    var m := Sweep(s, p, now, done);
    if calls == 0 {
      SweepEnough(s, p, now, done);
    } else if limit <= |m.0| {
      SweepCompose(s, p, now, done, limit);
      OneFewer(calls, limit);
      PassesFinish(s, p, now, limit, calls - 1, done + limit);
    } else {
      SweepKeepsAlive(s, p, now, done);
      SweepAll(m.0, m.1, now);
      AliveIdempotent(m.0, now);
      var r := Sweep(m.0, m.1, now, |m.0|);
      PassesStable(r.0, r.1, now, limit, calls - 1);
    }
  }

  /**
   * From any cursor position, ceil(n / limit) uninterrupted passes remove exactly the entries
   * expired at `now` and keep the survivors in order.
   */
  lemma PassesClean(s: Items, p: nat, now: nat, limit: nat)
    requires p <= |s| && limit > 0
    ensures Passes(s, p, now, limit, (|s| + limit - 1) / limit).0 == Alive(s, now)
  {
    var c := (|s| + limit - 1) / limit;
    CeilingCovers(|s|, limit);
    PassesFinish(s, p, now, limit, c, 0);
  }

  lemma CeilingCovers(n: nat, limit: nat)
    requires limit > 0
    ensures (n + limit - 1) / limit * limit >= n
  {
    var a := n + limit - 1;
    assert a == a / limit * limit + a % limit;
  }
}
