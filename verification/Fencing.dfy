/**
 * The state a cache group guards with epochMu: resident entries, version floors and epoch
 * stripes, with the three critical sections over it (readBarrier, InvalidateVersion and the
 * check-and-fill at the end of loadSource) as functions.
 *
 * The hash that picks a stripe is a parameter: every result holds for every such hash.
 */
module Fencing {
  import opened Types
  import opened Floors

  const STRIPES := 256

  type Stripe = i: nat | i < STRIPES
  type Epochs = e: seq<nat> | |e| == STRIPES witness seq(STRIPES, _ => 0)
  type Capacity = n: nat | n > 0 witness 1

  datatype Config = Config(capacity: Capacity, bucket: Key -> Stripe)

  datatype View = View(bytes: Bytes, version: nat)

  datatype Fence = Fence(epoch: nat, minimum: nat)

  datatype Local = Local(resident: map<Key, View>, floors: Table, epochs: Epochs)

  function Fresh(): Local {
    Local(map[], [], seq(STRIPES, _ => 0))
  }

  function Epoch(cfg: Config, l: Local, key: Key): nat {
    l.epochs[cfg.bucket(key)]
  }

  function Floor(l: Local, key: Key): nat {
    Find(l.floors, key)
  }

  function ResidentVersion(l: Local, key: Key): nat {
    if key in l.resident then l.resident[key].version else 0
  }

  /** knownVersionLocked. */
  function Known(l: Local, key: Key): nat {
    Max(Floor(l, key), ResidentVersion(l, key))
  }

  function Bump(cfg: Config, e: Epochs, key: Key): Epochs {
    e[cfg.bucket(key) := e[cfg.bucket(key)] + 1]
  }

  /** rememberVersionLocked: retiring a record also bumps the stripe of the forgotten key. */
  function RememberVersion(cfg: Config, l: Local, key: Key, version: nat): Local {
    var o := Remember(l.floors, cfg.capacity, key, version);
    l.(floors := o.table,
       epochs := if o.retired.Some? then Bump(cfg, l.epochs, o.retired.value) else l.epochs)
  }

  /** A notification that is not just a replay; version zero is the forced form. */
  predicate Advances(l: Local, key: Key, version: nat) {
    version == 0 || version > Known(l, key)
  }

  /** InvalidateVersion. */
  function Invalidate(cfg: Config, l: Local, key: Key, version: nat): Local {
    var known := Known(l, key);
    var minimum := Max(known, version);
    var r := RememberVersion(cfg, l, key, minimum);
    Local(if version == 0 || ResidentVersion(l, key) < minimum then l.resident - {key} else l.resident,
          r.floors,
          if Advances(l, key, version) then Bump(cfg, r.epochs, key) else r.epochs)
  }

  function Barrier(cfg: Config, l: Local, key: Key): Fence {
    Fence(Epoch(cfg, l, key), Known(l, key))
  }

  function FillMinimum(l: Local, key: Key, fence: Fence): nat {
    Max(fence.minimum, Known(l, key))
  }

  predicate FillValid(cfg: Config, l: Local, key: Key, fence: Fence, view: View) {
    fence.epoch == Epoch(cfg, l, key) && view.version >= FillMinimum(l, key, fence)
  }

  function Restrict(m: map<Key, View>, kept: set<Key>): map<Key, View> {
    map k | k in m && k in kept :: m[k]
  }

  /** cache.add under a byte limit: whatever survives admission and eviction is `kept`. */
  function Insert(l: Local, key: Key, view: View, kept: set<Key>): Local {
    l.(resident := Restrict(l.resident[key := view], kept))
  }

  predicate LocalOk(cfg: Config, l: Local) {
    && TableOk(l.floors, cfg.capacity)
    && (forall k :: k in l.resident ==> l.resident[k].version >= Floor(l, k))
  }

  /** Every effect of InvalidateVersion that other keys and running loads can notice. */
  lemma InvalidateEffect(cfg: Config, l: Local, key: Key, version: nat)
    requires TableOk(l.floors, cfg.capacity)
    ensures var l' := Invalidate(cfg, l, key, version);
      && TableOk(l'.floors, cfg.capacity)
      && Floor(l', key) == Max(Known(l, key), version)
      && (Advances(l, key, version) ==> Epoch(cfg, l', key) > Epoch(cfg, l, key) && key !in l'.resident)
      && (key in l'.resident ==> key in l.resident && l'.resident[key] == l.resident[key]
                                 && l'.resident[key].version >= Floor(l', key))
      && (forall k :: Epoch(cfg, l', k) >= Epoch(cfg, l, k))
      && (forall k :: k != key ==>
            Floor(l', k) == Floor(l, k) || (Floor(l', k) == 0 && Epoch(cfg, l', k) > Epoch(cfg, l, k)))
      && l'.resident - {key} == l.resident - {key}
  {
    RememberEffect(l.floors, cfg.capacity, key, Max(Known(l, key), version));
  }

  /** A record goes exactly when another key needs its place: the one at the end of a full table. */
  predicate Retires(t: Table, capacity: nat, key: Key, version: nat) {
    version > 0 && (forall j :: 0 <= j < |t| ==> t[j].key != key) && |t| == capacity > 0
  }

  /** Stripe by stripe: only that of a retired record has moved, by one. */
  predicate RetiredStripe(cfg: Config, l: Local, key: Key, version: nat, now: seq<nat>) {
    var t := l.floors;
    |now| == STRIPES && forall i :: 0 <= i < STRIPES ==>
      now[i] == l.epochs[i] + if Retires(t, cfg.capacity, key, version) && i == cfg.bucket(t[|t| - 1].key) then 1 else 0
  }

  /**
   * Stripe by stripe: one more for that of a retired record, one more for the key's own when the
   * notification is forced or newer than what is known, and every other stripe as it was.
   */
  predicate NotifiedStripes(cfg: Config, l: Local, key: Key, version: nat, now: seq<nat>) {
    var t, known := l.floors, Max(Find(l.floors, key), if key in l.resident then l.resident[key].version else 0);
    |now| == STRIPES && forall i :: 0 <= i < STRIPES ==>
      now[i] == l.epochs[i]
        + (if Retires(t, cfg.capacity, key, Max(known, version)) && i == cfg.bucket(t[|t| - 1].key) then 1 else 0)
        + (if i == cfg.bucket(key) && (version == 0 || version > known) then 1 else 0)
  }

  lemma RememberStripes(cfg: Config, l: Local, key: Key, version: nat)
    ensures RetiredStripe(cfg, l, key, version, RememberVersion(cfg, l, key, version).epochs)
  {
  }

  lemma InvalidateStripes(cfg: Config, l: Local, key: Key, version: nat)
    ensures NotifiedStripes(cfg, l, key, version, Invalidate(cfg, l, key, version).epochs)
  {
  }

  /** A notification leaves the loads of every key in another stripe alone: what could fill still can. */
  lemma OtherStripesUnaffected(cfg: Config, l: Local, key: Key, version: nat, other: Key, fence: Fence, view: View)
    requires TableOk(l.floors, cfg.capacity) && cfg.bucket(other) != cfg.bucket(key)
    requires |l.floors| == cfg.capacity ==> cfg.bucket(other) != cfg.bucket(l.floors[|l.floors| - 1].key)
    ensures Barrier(cfg, Invalidate(cfg, l, key, version), other) == Barrier(cfg, l, other)
    ensures FillValid(cfg, Invalidate(cfg, l, key, version), other, fence, view)
       <==> FillValid(cfg, l, other, fence, view)
  {
    var l' := Invalidate(cfg, l, key, version);
    RememberEffect(l.floors, cfg.capacity, key, Max(Known(l, key), version));
    assert other in l'.resident <==> other in l'.resident - {key};
    assert other in l.resident <==> other in l.resident - {key};
  }

  lemma InvalidateKeeps(cfg: Config, l: Local, key: Key, version: nat)
    requires LocalOk(cfg, l)
    ensures LocalOk(cfg, Invalidate(cfg, l, key, version))
  {
    InvalidateEffect(cfg, l, key, version);
    var l' := Invalidate(cfg, l, key, version);
    forall k | k in l'.resident ensures l'.resident[k].version >= Floor(l', k) {
      if k != key {
        assert k in l'.resident - {key};
        assert l'.resident[k] == (l'.resident - {key})[k] == (l.resident - {key})[k];
      }
    }
  }

  /** A fill keeps residents at or above their floors and never lowers a resident version. */
  lemma FillKeeps(cfg: Config, l: Local, key: Key, fence: Fence, view: View, kept: set<Key>)
    requires LocalOk(cfg, l) && FillValid(cfg, l, key, fence, view)
    ensures LocalOk(cfg, Insert(l, key, view, kept))
    ensures forall k :: k in l.resident && k in Insert(l, key, view, kept).resident ==>
      Insert(l, key, view, kept).resident[k].version >= l.resident[k].version
  {
  }

  // ---- Notifications for one key, in any order ----

  function InvalidateAll(cfg: Config, l: Local, key: Key, versions: seq<nat>): Local {
    if versions == [] then l
    else Invalidate(cfg, InvalidateAll(cfg, l, key, versions[..|versions| - 1]), key, versions[|versions| - 1])
  }

  function Greatest(versions: seq<nat>): nat {
    if versions == [] then 0 else Max(Greatest(versions[..|versions| - 1]), versions[|versions| - 1])
  }

  /** The outcome of a series of notifications depends only on the greatest version in it. */
  lemma {:induction false} InvalidateAllClosedForm(cfg: Config, l: Local, key: Key, versions: seq<nat>)
    requires LocalOk(cfg, l) && 0 !in versions
    ensures var l' := InvalidateAll(cfg, l, key, versions);
      && LocalOk(cfg, l')
      && Known(l', key) == Max(Known(l, key), Greatest(versions))
      && (key in l'.resident <==> (key in l.resident && l.resident[key].version >= Greatest(versions)))
      && (key in l'.resident ==> l'.resident[key] == l.resident[key])
  {
    if versions != [] {
      var front, last := versions[..|versions| - 1], versions[|versions| - 1];
      InvalidateAllClosedForm(cfg, l, key, front);
      var m := InvalidateAll(cfg, l, key, front);
      InvalidateKeeps(cfg, m, key, last);
      InvalidateEffect(cfg, m, key, last);
      assert last in versions;
    }
  }

  lemma {:induction false} GreatestIsGreatest(versions: seq<nat>)
    ensures forall v :: v in versions ==> v <= Greatest(versions)
    ensures versions != [] ==> Greatest(versions) in versions
  {
    if versions != [] {
      var front, last := versions[..|versions| - 1], versions[|versions| - 1];
      GreatestIsGreatest(front);
      assert versions == front + [last];
      assert forall v :: v in versions <==> v in front || v == last;
    }
  }

  /** Any two orders of the same notifications leave the same known version and the same residency. */
  lemma NotificationsCommute(cfg: Config, l: Local, key: Key, vs: seq<nat>, ws: seq<nat>)
    requires LocalOk(cfg, l) && 0 !in vs && multiset(vs) == multiset(ws)
    ensures Known(InvalidateAll(cfg, l, key, vs), key) == Known(InvalidateAll(cfg, l, key, ws), key)
    ensures key in InvalidateAll(cfg, l, key, vs).resident <==> key in InvalidateAll(cfg, l, key, ws).resident
  {
    forall v ensures v in vs <==> v in ws {
      assert v in multiset(vs) <==> v in multiset(ws);
    }
    GreatestIsGreatest(vs);
    GreatestIsGreatest(ws);
    assert |vs| == |multiset(vs)| == |multiset(ws)| == |ws|;
    InvalidateAllClosedForm(cfg, l, key, vs);
    InvalidateAllClosedForm(cfg, l, key, ws);
  }
}
