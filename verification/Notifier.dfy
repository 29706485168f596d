/** Notifying one member over the wire, and the verdict with which a relay finishes an event. */
module Notifier {
  import opened Types
  import opened Lists
  import opened Keys
  import opened Decimal
  import opened Fencing
  import Recency
  import opened Group
  import opened Protocol
  import opened Outbox
  import opened Fanout
  import opened Cluster

  /** What becomes of one request; a foreign answer comes from something that did not act on this cache. */
  datatype Wire = Answered | RequestLost | AnswerLost | Foreign(r: Response)

  /** The member performed this invalidation between the two states. */
  ghost predicate Performed(g: CacheGroup, l: Local, s: seq<Recency.Item>, key: Key, version: nat, now: nat, later: nat)
    requires g.epochs.Length == STRIPES
    reads g.mainCache, g.mainCache.lru, g.floors, g.epochs
  {
    Invalidated(g.cfg, l, s, key, version, now, later, g.Abs())
  }

  predicate Arrives(wire: Wire) {
    wire.Answered? || wire.AnswerLost?
  }

  /**
   * Client.InvalidateVersion: an answer of this member is counted exactly if the member has performed
   * the invalidation with that version; any other answer needs status 204 and, for a positive version,
   * that version echoed in its canonical spelling.
   */
  method InvalidateMember(member: CacheGroup, key: Key, version: int, wire: Wire, now: nat, later: nat)
    returns (ok: bool)
    requires member.Valid() && version <= MAX_INT64
    modifies member.mainCache.lru, member.floors, member.floors.advanced, member.epochs
    ensures member.Valid() && (ok ==> version >= 0 && (wire.Answered? || wire.Foreign?))
    ensures wire.Answered? ==> (ok <==> version >= 0 && KeyOk(key))
    ensures wire.Foreign? && version >= 0 ==>
      (ok <==> wire.r.status == 204 && (version > 0 ==> wire.r.headers == [Format(version)]))
    ensures version >= 0 && KeyOk(key) && Arrives(wire) ==>
      Performed(member, old(member.Abs()), old(member.mainCache.Order()), key, version, now, later)
    ensures version < 0 || !KeyOk(key) || !Arrives(wire) ==> member.Abs() == old(member.Abs())
  {
    hide ParseHeader, KeyOk, Invalidated, Format;
    if version < 0 || wire.RequestLost? {
      return false;
    }
    HeaderExact(SendHeader(version), version);
    var r: Response;
    if wire.Foreign? {
      r := wire.r;
      HeaderExact(r.headers, version);
    } else {
      r := member.HandleInvalidation(SendHeader(version), key, now, later);
    }
    ok := !wire.AnswerLost? && Acknowledges(version, r);
  }

  // ---- The sender's verdict ----

  function Snapshot(members: seq<Id>): set<Id> {
    set m | m in members
  }

  /**
   * outboxSender: its own cache first, then the captured snapshot through the pool. It succeeds exactly
   * when discovery is ready, the key is valid and the relay's broadcast of this snapshot is complete.
   */
  method Send(ready: bool, group: CacheGroup, e: Event, members: seq<Id>, self: Id,
              p: Pool, ghost steps: seq<PoolStep>, now: nat, later: nat)
    returns (ok: bool, lines: seq<(Id, Status)>)
    requires group.Valid() && Unique(members)
    requires PoolRun(|Targets(members, self)|, steps) == Some(p) && Drained(|Targets(members, self)|, p)
    modifies group.mainCache.lru, group.floors, group.floors.advanced, group.epochs
    ensures group.Valid()
    ensures ready && KeyOk(e.key) ==>
      && Performed(group, old(group.Abs()), old(group.mainCache.Order()), e.key, e.version, now, later)
      && exists complete :: Reports(members, self, lines, complete)
    ensures !ready || !KeyOk(e.key) ==> group.Abs() == old(group.Abs()) && !ok
    ensures ready && KeyOk(e.key) ==>
      (ok <==> Complete(self, Sending(e, Snapshot(members), AckedBy(lines), AckedBy(lines))))
  {
    hide KeyOk, Invalidated, Reports, AckedBy, PoolRun;
    ok, lines := false, [];
    if !ready {
      return;
    }
    var valid := group.InvalidateVersion(e.key, e.version, now, later);
    if !valid {
      return;
    }
    var complete;
    lines, complete := Report(members, self, p, steps);
    CompleteExact(members, self, lines, complete);
    ok := complete && |members| > 0;
    assert |members| > 0 <==> Snapshot(members) != {} by {
      if |members| > 0 { assert members[0] in Snapshot(members); }
    }
  }
}
