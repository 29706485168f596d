/**
 * The LRU as the source keeps it: a list of elements, an index into it, a running byte count
 * and a cursor that survives between maintenance passes, all updated in place.
 */
module Lru {
  import opened Types
  import opened Lists
  import opened Fencing
  import opened Recency

  class Element {
    const key: Key
    var view: View
    var expireAt: Option<nat>

    constructor (key: Key, view: View, expireAt: Option<nat>)
      ensures this.key == key && this.view == view && this.expireAt == expireAt
    {
      this.key, this.view, this.expireAt := key, view, expireAt;
    }
  }

  class Cache {
    const bytesTotal: nat
    var byteNow: int
    var ll: seq<Element>
    var index: map<Key, Element>
    var cursor: Element?
    var evictions: nat
    ghost var items: Items   // the recency order these fields represent

    /** List and index are in bijection, and list, sizes and expiry represent `items`. */
    ghost predicate Linked()
      reads this, ll
    {
      && DistinctKeys(items)
      && |index| == |ll| == |items|
      && (forall i :: 0 <= i < |ll| ==>
            && items[i] == Item(ll[i].key, ll[i].view, ll[i].expireAt)
            && ll[i].key in index && index[ll[i].key] == ll[i])
      && byteNow == Total(items)
    }

    /** The cursor is nil or an element of the list. */
    ghost predicate Valid()
      reads this, ll
    {
      Linked() && (cursor == null || cursor in ll)
    }

    /** The cursor as a position: one past the element it points at, zero for nil. */
    ghost function CursorAt(): (p: nat)
      requires cursor == null || cursor in ll
      reads this
      ensures p <= |ll|
      ensures (p == 0 <==> cursor == null) && (p > 0 ==> ll[p - 1] == cursor)
    {
      if cursor == null then 0 else IndexOf(ll, cursor) + 1
    }

    constructor (bytesTotal: nat)
      ensures Valid() && items == [] && this.bytesTotal == bytesTotal && ll == []
    {
      this.bytesTotal := bytesTotal;
      byteNow, ll, index, cursor, evictions, items := 0, [], map[], null, 0, [];
    }

    /** The index has no key beyond the list's, so it answers for the recency order. */
    lemma Represents(key: Key) returns (i: nat)
      requires Linked()
      ensures key in index ==> index[key] in ll && i == IndexOf(ll, index[key]) && ll[i].key == key
      ensures key in index ==> LookupItem(items, key) == Some(items[i]) && DropKey(items, key) == RemoveAt(items, i)
      ensures key !in index ==> LookupItem(items, key) == None && DropKey(items, key) == items
      ensures key !in index ==> forall j :: 0 <= j < |items| ==> items[j].key != key
    {
      i := 0;
      if key in index {
        i := IndexIsExact(key);
        ElementsUnique();
        assert i == IndexOf(ll, index[key]);
        DropKeyAt(items, i);
      } else {
        assert forall j :: 0 <= j < |items| ==> items[j].key == ll[j].key;
        DropKeyAbsent(items, key);
      }
    }

    lemma IndexIsExact(key: Key) returns (i: nat)
      requires Linked() && key in index
      ensures i < |ll| && ll[i] == index[key] && ll[i].key == key
    {
      var s := items;
      var keys := seq(|s|, j requires 0 <= j < |s| => s[j].key);
      assert forall j :: 0 <= j < |keys| ==> keys[j] == ll[j].key;
      Exhausts(keys, index.Keys);
      i :| 0 <= i < |keys| && keys[i] == key;
      assert ll[i].key == key;
    }

    /** RemoveElement: a cursor on the removed element steps to its predecessor. */
    method RemoveElement(e: Element)
      requires Valid() && e in ll
      modifies this
      ensures Valid() && evictions == old(evictions) + 1
      ensures ll == Removed(old(ll), e) && forall x :: x in ll ==> x in old(ll)
      ensures items == RemoveAt(old(items), IndexOf(old(ll), e))
      ensures CursorAt() == if old(CursorAt()) > IndexOf(old(ll), e) then old(CursorAt()) - 1 else old(CursorAt())
    {
      hide Linked, RemoveAt;
      if cursor == e {
        StepBack();
      }
      Unlink(e);
    }

    method Remove(key: Key)
      requires Valid()
      modifies this
      ensures Valid() && items == DropKey(old(items), key) && IsWithout(old(items), key, items)
      ensures forall x :: x in ll ==> x in old(ll)
    {
      ghost var i := Represents(key);
      DropKeyExact(items, key);
      if key in index {
        RemoveElement(index[key]);
      }
    }

    /** Peek: looking at an expired entry removes it; recency stays as it was. */
    method Peek(key: Key, now: nat) returns (found: Option<View>)
      requires Valid()
      modifies this
      ensures Valid() && items == ExpireKey(old(items), key, now)
      ensures forall x :: x in ll ==> x in old(ll)
      ensures found.Some? <==> LookupItem(items, key).Some?
      ensures found.Some? ==> found.value == LookupItem(items, key).value.view && key in index
      // In the entries' own fields: an unexpired entry is found and stays, an expired one is cut out.
      ensures forall j :: 0 <= j < |old(items)| && old(items)[j].key == key ==> var e := old(items)[j];
        if e.expireAt.Some? && e.expireAt.value <= now
        then found.None? && items == old(items)[..j] + old(items)[j + 1..]
        else found == Some(e.view) && items == old(items)
      ensures (forall j :: 0 <= j < |old(items)| ==> old(items)[j].key != key) ==> found.None? && items == old(items)
      ensures forall j :: 0 <= j < |items| && items[j].key == key ==>
        items[j].expireAt.None? || items[j].expireAt.value > now
    {
      hide DropKey, LookupItem, Total;
      ghost var i := Represents(key);
      ExpireKeyExact(items, key, now);
      LookupExact(items, key);
      found := None;
      if key in index {
        var e := index[key];
        if e.expireAt.Some? && e.expireAt.value <= now {
          DropKeyDistinct(items, key);
          RemoveElement(e);
        } else {
          found := Some(e.view);
        }
      }
    }

    /** Get: a hit moves the entry to the front and nothing else. */
    method Get(key: Key, now: nat) returns (found: Option<View>)
      requires Valid()
      modifies this
      ensures Valid() && items == Touch(ExpireKey(old(items), key, now), key)
      ensures forall x :: x in ll ==> x in old(ll)
      ensures var seen := LookupItem(ExpireKey(old(items), key, now), key);
        found == if seen.Some? then Some(seen.value.view) else None
      // In the entries' own fields: an unexpired entry is found and comes to the front of the others.
      ensures forall j :: 0 <= j < |old(items)| && old(items)[j].key == key ==> var e := old(items)[j];
        var others := old(items)[..j] + old(items)[j + 1..];
        if e.expireAt.Some? && e.expireAt.value <= now then found.None? && items == others
        else found == Some(e.view) && items == [e] + others
      ensures (forall j :: 0 <= j < |old(items)| ==> old(items)[j].key != key) ==> found.None? && items == old(items)
    {
      ghost var was := items;
      ExpireKeyExact(items, key, now);
      TouchExact(ExpireKey(items, key, now), key);
      found := Peek(key, now);
      ghost var i := Represents(key);
      if found.Some? {
        MoveToFront(index[key]);
      }
    }

    method MoveToFront(e: Element)
      requires Valid() && e in ll
      modifies this`ll, this`items
      ensures Valid() && ll == [e] + Removed(old(ll), e)
      ensures forall x :: x in ll <==> x in old(ll)
      ensures var i := IndexOf(old(ll), e); items == [old(items)[i]] + RemoveAt(old(items), i)
    {
      ElementsUnique();
      FrontMembers(ll, e);
      Relink(e);
    }

    method Relink(e: Element)
      requires Linked() && e in ll
      modifies this`ll, this`items
      ensures Linked() && ll == [e] + Removed(old(ll), e)
      ensures var i := IndexOf(old(ll), e); items == [old(items)[i]] + RemoveAt(old(items), i)
    {
      ghost var i := IndexOf(ll, e);
      ghost var was, order := ll, items;
      Fronted(items, i);
      ll := [e] + Removed(ll, e);
      items := [items[i]] + RemoveAt(items, i);
      forall j | 0 <= j < |ll|
        ensures items[j] == Item(ll[j].key, ll[j].view, ll[j].expireAt)
        ensures ll[j].key in index && index[ll[j].key] == ll[j]
      {
        var m := if j == 0 then i else if j <= i then j - 1 else j;
        assert ll[j] == was[m] && items[j] == order[m];
      }
    }

    /** RemoveOldest: the last element goes; an empty list stays as it is. */
    method RemoveOldest()
      requires Valid()
      modifies this
      ensures Valid() && (old(ll) == [] ==> items == [] && ll == [])
      ensures old(ll) != [] ==> items == old(items)[..|old(items)| - 1] && ll == old(ll)[..|old(ll)| - 1]
    {
      if ll != [] {
        ElementsUnique();
        RemoveElement(ll[|ll| - 1]);
      }
    }

    method PushFront(key: Key, view: View, expireAt: Option<nat>)
      requires Valid() && key !in index
      modifies this
      ensures Valid() && items == [Item(key, view, expireAt)] + old(items)
      ensures |ll| > 0 && fresh(ll[0]) && ll[1..] == old(ll)
    {
      hide Total;
      var e := new Element(key, view, expireAt);
      assert forall j :: 0 <= j < |items| ==> items[j].key == ll[j].key != key;
      TotalCons(Item(key, view, expireAt), items);
      ll := [e] + ll;
      index := index[key := e];
      byteNow := byteNow + |key| + |view.bytes|;
      items := [Item(key, view, expireAt)] + items;
    }

    method ReplaceFront(key: Key, view: View, expireAt: Option<nat>)
      requires Linked() && ll != [] && ll[0].key == key
      modifies this`byteNow, this`items, ll[0]
      ensures Linked() && items == [Item(key, view, expireAt)] + old(items)[1..]
    {
      hide Total;
      var e := ll[0];
      ghost var order := items;
      FirstReplaced(items, Item(key, view, expireAt));
      byteNow := byteNow - (|e.view.bytes| - |view.bytes|);
      e.view := view;
      e.expireAt := expireAt;
      items := [Item(key, view, expireAt)] + items[1..];
      forall j | 0 <= j < |ll|
        ensures items[j] == Item(ll[j].key, ll[j].view, ll[j].expireAt)
        ensures ll[j].key in index && index[ll[j].key] == ll[j]
      {
        assert j > 0 ==> order[j].key != order[0].key && ll[j] != e;
      }
    }

    /** AddUntil: insert or refresh at the front, then evict from the back while over capacity. */
    method AddUntil(key: Key, view: View, expireAt: Option<nat>)
      requires Valid()
      modifies this, ll
      ensures Valid() && items == AddItem(old(items), Item(key, view, expireAt), bytesTotal)
      ensures forall x :: x in ll && x !in old(ll) ==> fresh(x)
    {
      Place(key, view, expireAt);
      ghost var full := items;
      while bytesTotal != 0 && byteNow > bytesTotal
        invariant Valid() && Trim(items, bytesTotal) == Trim(full, bytesTotal)
        invariant forall x :: x in ll && x !in old(ll) ==> fresh(x)
        decreases |ll|
      {
        assert items != [];
        RemoveOldest();
      }
    }

    method Place(key: Key, view: View, expireAt: Option<nat>)
      requires Valid()
      modifies this, ll
      ensures Valid() && items == [Item(key, view, expireAt)] + DropKey(old(items), key)
      ensures forall x :: x in ll && x !in old(ll) ==> fresh(x)
    {
      hide Total, DropKey;
      ghost var i := Represents(key);
      if key in index {
        MoveToFront(index[key]);
        ReplaceFront(key, view, expireAt);
      } else {
        PushFront(key, view, expireAt);
      }
    }

    /**
     * PruneExpired: at most `limit` checks and at most `ticks` of them before the time budget
     * runs out, continuing from where the previous pass stopped.
     */
    method PruneExpired(now: nat, limit: int, budget: int, ticks: nat) returns (checked: nat, removed: nat)
      requires Valid()
      modifies this
      ensures Valid()
      ensures checked == if limit <= 0 || budget <= 0 then 0 else Min(Min(limit, |old(items)|), ticks)
      ensures (items, CursorAt()) == Sweep(old(items), old(CursorAt()), now, checked)
      ensures removed == |old(items)| - |items|
      ensures forall x :: x in ll ==> x in old(ll)
    {
      hide Linked, Sweep, SweepOne;
      var length := Len();
      SweepNone(items, CursorAt(), now);
      checked, removed := 0, 0;
      if limit <= 0 || budget <= 0 {
        return;
      }
      var bound := Min(Min(limit, length), ticks);
      ghost var start, p := items, CursorAt();
      while checked < bound
        invariant Valid() && checked <= bound && removed <= checked && |items| == |start| - removed
        invariant (items, CursorAt()) == Sweep(start, p, now, checked)
        invariant forall x :: x in ll ==> x in old(ll)
      {
        SweepNext(start, p, now, checked);
        var gone := CheckOne(now);
        checked := checked + 1;
        removed := removed + if gone then 1 else 0;
      }
    }

    method Len() returns (length: nat)
      requires Valid()
      ensures length == |items| == |ll|
    {
      length := |ll|;
    }

    /** One check of the sweep on a non-empty list. */
    method CheckOne(now: nat) returns (gone: bool)
      requires Valid() && items != []
      modifies this
      ensures Valid()
      ensures items == SweepOne(old(items), old(CursorAt()), now).0
      ensures CursorAt() == SweepOne(old(items), old(CursorAt()), now).1
      ensures |items| == |old(items)| - if gone then 1 else 0
      ensures forall x :: x in ll ==> x in old(ll)
    {
      var current := TakeCursor();
      gone := current.expireAt.Some? && current.expireAt.value <= now;
      assert gone == Expired(items[IndexOf(ll, current)], now);
      if gone {
        RemoveElement(current);
      }
    }

    /** The element to check next; the cursor has already moved past it. */
    method TakeCursor() returns (current: Element)
      requires Valid() && ll != []
      modifies this`cursor
      ensures Valid() && current in ll && IndexOf(ll, current) == CursorAt()
      ensures CursorAt() == (if old(CursorAt()) == 0 then |ll| else old(CursorAt())) - 1
    {
      Rewind();
      current := cursor;
      ElementsUnique();
      IndexUnique(ll, CursorAt() - 1);
      StepBack();
    }

    /** A nil cursor starts over at the oldest element. */
    method Rewind()
      requires Valid() && ll != []
      modifies this`cursor
      ensures Valid() && CursorAt() == if old(CursorAt()) == 0 then |ll| else old(CursorAt())
    {
      ElementsUnique();
      if cursor == null {
        cursor := ll[|ll| - 1];
      }
    }

    /** The cursor moves to the previous element, nil at the front. */
    method StepBack()
      requires Valid() && cursor != null
      modifies this`cursor
      ensures Valid() && cursor != old(cursor) && CursorAt() == old(CursorAt()) - 1
    {
      ElementsUnique();
      var i := IndexOf(ll, cursor);
      cursor := if i == 0 then null else ll[i - 1];
    }

    method Unlink(e: Element)
      requires Valid() && e in ll && cursor != e
      modifies this
      ensures Valid() && evictions == old(evictions) + 1
      ensures ll == Removed(old(ll), e) && items == RemoveAt(old(items), IndexOf(old(ll), e))
      ensures CursorAt() == if old(CursorAt()) > IndexOf(old(ll), e) then old(CursorAt()) - 1 else old(CursorAt())
    {
      ghost var i, p, before := IndexOf(ll, e), CursorAt(), ll;
      ElementsUnique();
      Splice(e);
      CursorMoves(before, i, p);
    }

    method Splice(e: Element)
      requires Linked() && e in ll
      modifies this`ll, this`index, this`byteNow, this`evictions, this`items
      ensures Linked() && evictions == old(evictions) + 1
      ensures ll == Removed(old(ll), e) && items == RemoveAt(old(items), IndexOf(old(ll), e))
    {
      hide Total;
      ghost var i := IndexOf(ll, e);
      ghost var was, order := ll, items;
      assert items[i] == Item(e.key, e.view, e.expireAt);
      TotalRemoveAt(items, i);
      RemoveAtPositions(items, i);
      assert (index - {e.key}).Keys == index.Keys - {e.key};
      index := index - {e.key};
      byteNow := byteNow - (|e.key| + |e.view.bytes|);
      evictions := evictions + 1;
      ll := Removed(ll, e);
      items := RemoveAt(items, i);
      forall j | 0 <= j < |ll|
        ensures items[j] == Item(ll[j].key, ll[j].view, ll[j].expireAt)
        ensures ll[j].key in index && index[ll[j].key] == ll[j]
      {
        var m := if j < i then j else j + 1;
        assert ll[j] == was[m] && items[j] == order[m] && order[m].key != order[i].key;
      }
    }

    /** Removing position i shifts a cursor that lay above that position. */
    lemma CursorMoves(before: seq<Element>, i: nat, p: nat)
      requires Unique(before) && i < |before| && p <= |before| && p != i + 1
      requires ll == before[..i] + before[i + 1..] && cursor == if p == 0 then null else before[p - 1]
      ensures cursor == null || cursor in ll
      ensures CursorAt() == if p > i then p - 1 else p
    {
      var q := if p > i then p - 1 else p;
      if q > 0 {
        assert ll[q - 1] == cursor;
        assert Unique(ll);
      }
    }

    lemma ElementsUnique()
      requires Linked()
      ensures Unique(ll)
    {
      assert forall i :: 0 <= i < |ll| ==> items[i].key == ll[i].key;
    }
  }
}
