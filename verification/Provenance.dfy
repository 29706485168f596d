/**
 * Where a finished delivery comes from: the steps of the run that announced the event, captured
 * the snapshot, handled it at every member, received every acknowledgement and finished it.
 */
module Provenance {
  import opened Outbox
  import opened Fencing
  import opened Node
  import opened Cluster
  import opened ClusterProofs

  // ---- Steps of one relay for one event ----

  predicate RelayAt(r: Run, i: nat, a: Label, n: Id) {
    i < |r.labels| && i < |r.states| && r.labels[i] == a && n in r.states[i].relays
  }

  /** Step b notifies the relay's own cache of the event it has claimed. */
  predicate AnnouncedAt(r: Run, b: nat, n: Id, e: Event) {
    RelayAt(r, b, RelayAnnounce(n), n) && r.states[b].relays[n] == Claimed(e)
  }

  /** Step c captures these members, the relay's whole view at that moment. */
  predicate CapturedAt(r: Run, c: nat, n: Id, e: Event, members: set<Id>) {
    && RelayAt(r, c, RelayCapture(n), n) && r.states[c].relays[n] == Announced(e)
    && n in r.states[c].views && r.states[c].views[n] == members
  }

  predicate HandledAt(r: Run, h: nat, n: Id, m: Id, e: Event) {
    RelayAt(r, h, RelayHandle(n, m), n) && r.states[h].relays[n].Sending? && r.states[h].relays[n].e == e
  }

  predicate AckedAt(r: Run, a: nat, n: Id, m: Id, e: Event) {
    RelayAt(r, a, RelayAck(n, m), n) && r.states[a].relays[n].Sending? && r.states[a].relays[n].e == e
  }

  /** Step f completes the order, at once or after its relay stopped waiting, and still owns the lease. */
  predicate FinishedAt(r: Run, f: nat, o: Order) {
    && f < |r.labels| && f < |r.states| && FinishWins(r.states[f].db, Completion(o.e, o.ok))
    && (r.labels[f] == LateFinish(o)
        || (RelayAt(r, f, RelayFinish(o.sender), o.sender)
            && r.states[f].relays[o.sender] == Sent(o.e, o.members, o.ok)))
  }

  // ---- Evidence before step i ----

  ghost predicate Announcement(r: Run, i: nat, n: Id, e: Event) {
    exists b: nat :: b < i && AnnouncedAt(r, b, n, e)
  }

  ghost predicate Handling(r: Run, c: nat, i: nat, n: Id, m: Id, e: Event) {
    exists h :: c < h < i && HandledAt(r, h, n, m, e)
  }

  /** The member handled the event after step c, and its answer arrived after that. */
  ghost predicate Acknowledgement(r: Run, c: nat, i: nat, n: Id, m: Id, e: Event) {
    exists a :: c < a < i && AckedAt(r, a, n, m, e) && Handling(r, c, a, n, m, e)
  }

  ghost predicate Captured(r: Run, c: nat, i: nat, n: Id, e: Event, members: set<Id>) {
    c < i && CapturedAt(r, c, n, e, members) && Announcement(r, c, n, e)
  }

  ghost predicate AllHandled(r: Run, c: nat, i: nat, n: Id, e: Event, ms: set<Id>) {
    forall m :: m in ms ==> Handling(r, c, i, n, m, e)
  }

  ghost predicate AllAcknowledged(r: Run, c: nat, i: nat, n: Id, e: Event, ms: set<Id>) {
    forall m :: m in ms ==> Acknowledgement(r, c, i, n, m, e)
  }

  /**
   * The sender notified itself, then captured exactly these members as its whole non-empty view,
   * then every other one of them handled the event and acknowledged it, all before step i.
   */
  ghost predicate Broadcast(r: Run, i: nat, n: Id, e: Event, members: set<Id>) {
    members != {} &&
    exists c :: Captured(r, c, i, n, e, members) && AllAcknowledged(r, c, i, n, e, members - {n})
  }

  ghost predicate Traced(r: Run, i: nat, n: Id, relay: Relaying) {
    match relay
    case Idle => true
    case Claimed(_) => true
    case Announced(e) => Announcement(r, i, n, e)
    case Sending(e, members, handled, acked) =>
      exists c :: Captured(r, c, i, n, e, members) && AllHandled(r, c, i, n, e, handled)
                  && AllAcknowledged(r, c, i, n, e, acked)
    case Sent(e, members, ok) => ok ==> Broadcast(r, i, n, e, members)
  }

  ghost predicate RelaysTraced(r: Run, i: nat)
    requires i < |r.states|
  {
    forall n :: n in r.states[i].relays ==> Traced(r, i, n, r.states[i].relays[n])
  }

  ghost predicate LateTraced(r: Run, i: nat)
    requires i < |r.states|
  {
    forall o :: o in r.states[i].late && o.ok ==> Broadcast(r, i, o.sender, o.e, o.members)
  }

  /** A recorded delivery was finished at some step f by the order its broadcast justified. */
  ghost predicate Justified(r: Run, i: nat, id: nat, d: Delivery) {
    exists f, e :: FinishedBy(r, f, i, id, e, d)
  }

  ghost predicate FinishedBy(r: Run, f: nat, i: nat, id: nat, e: Event, d: Delivery) {
    && f < i && e.id == id && e.key == d.key && e.version == d.version
    && FinishedAt(r, f, Order(d.sender, e, d.members, true)) && Broadcast(r, f, d.sender, e, d.members)
  }

  ghost predicate LedgerTraced(r: Run, i: nat)
    requires i < |r.states|
  {
    forall id :: id in r.states[i].ledger ==> Justified(r, i, id, r.states[i].ledger[id])
  }

  // ---- Evidence stays ----

  lemma AcknowledgedStays(r: Run, c: nat, i: nat, j: nat, n: Id, e: Event, ms: set<Id>)
    requires i <= j && AllAcknowledged(r, c, i, n, e, ms)
    ensures AllAcknowledged(r, c, j, n, e, ms)
  {
    hide AckedAt, Handling;
    forall m | m in ms ensures Acknowledgement(r, c, j, n, m, e) {
      assert Acknowledgement(r, c, i, n, m, e);
    }
  }

  lemma HandledStays(r: Run, c: nat, i: nat, j: nat, n: Id, e: Event, ms: set<Id>)
    requires i <= j && AllHandled(r, c, i, n, e, ms)
    ensures AllHandled(r, c, j, n, e, ms)
  {
    hide HandledAt;
    forall m | m in ms ensures Handling(r, c, j, n, m, e) {
      assert Handling(r, c, i, n, m, e);
    }
  }

  lemma BroadcastStays(r: Run, i: nat, j: nat, n: Id, e: Event, members: set<Id>)
    requires i <= j && Broadcast(r, i, n, e, members)
    ensures Broadcast(r, j, n, e, members)
  {
    hide CapturedAt, Announcement, AllAcknowledged;
    var c :| Captured(r, c, i, n, e, members) && AllAcknowledged(r, c, i, n, e, members - {n});
    AcknowledgedStays(r, c, i, j, n, e, members - {n});
    assert Captured(r, c, j, n, e, members);
  }

  lemma TracedStays(r: Run, i: nat, n: Id, relay: Relaying)
    requires Traced(r, i, n, relay)
    ensures Traced(r, i + 1, n, relay)
  {
    hide CapturedAt, AnnouncedAt, AllAcknowledged, AllHandled, Broadcast;
    match relay
    case Idle =>
    case Claimed(_) =>
    case Announced(_) =>
    case Sending(e, members, handled, acked) =>
      var c :| Captured(r, c, i, n, e, members) && AllHandled(r, c, i, n, e, handled)
               && AllAcknowledged(r, c, i, n, e, acked);
      HandledStays(r, c, i, i + 1, n, e, handled);
      AcknowledgedStays(r, c, i, i + 1, n, e, acked);
      assert Captured(r, c, i + 1, n, e, members);
    case Sent(e, members, ok) =>
      if ok { BroadcastStays(r, i, i + 1, n, e, members); }
  }

  // ---- The steps of a relay ----

  lemma CaptureTraced(r: Run, i: nat, n: Id, e: Event, members: set<Id>)
    requires Traced(r, i, n, Announced(e)) && CapturedAt(r, i, n, e, members)
    ensures Traced(r, i + 1, n, Sending(e, members, {}, {}))
  {
    hide CapturedAt, Announcement;
    assert Captured(r, i, i + 1, n, e, members);
    assert AllHandled(r, i, i + 1, n, e, {}) && AllAcknowledged(r, i, i + 1, n, e, {});
  }

  lemma HandleTraced(r: Run, i: nat, n: Id, m: Id, relay: Relaying)
    requires relay.Sending? && Traced(r, i, n, relay) && HandledAt(r, i, n, m, relay.e)
    ensures Traced(r, i + 1, n, AfterHandle(relay, m))
  {
    hide CapturedAt, Announcement, HandledAt, AllAcknowledged;
    var e := relay.e;
    var c :| Captured(r, c, i, n, e, relay.members) && AllHandled(r, c, i, n, e, relay.handled)
             && AllAcknowledged(r, c, i, n, e, relay.acked);
    HandledStays(r, c, i, i + 1, n, e, relay.handled);
    AcknowledgedStays(r, c, i, i + 1, n, e, relay.acked);
    assert Handling(r, c, i + 1, n, m, e);
    assert AllHandled(r, c, i + 1, n, e, relay.handled + {m});
    assert Captured(r, c, i + 1, n, e, relay.members);
  }

  lemma AckTraced(r: Run, i: nat, n: Id, m: Id, relay: Relaying)
    requires relay.Sending? && Traced(r, i, n, relay) && AckedAt(r, i, n, m, relay.e) && m in relay.handled
    ensures Traced(r, i + 1, n, AfterAck(relay, m))
  {
    hide CapturedAt, Announcement, AckedAt, Handling;
    var e := relay.e;
    var c :| Captured(r, c, i, n, e, relay.members) && AllHandled(r, c, i, n, e, relay.handled)
             && AllAcknowledged(r, c, i, n, e, relay.acked);
    HandledStays(r, c, i, i + 1, n, e, relay.handled);
    AcknowledgedStays(r, c, i, i + 1, n, e, relay.acked);
    assert Acknowledgement(r, c, i + 1, n, m, e);
    assert AllAcknowledged(r, c, i + 1, n, e, relay.acked + {m});
    assert Captured(r, c, i + 1, n, e, relay.members);
  }

  /** A relay concludes with success only over a complete broadcast. */
  lemma ConcludeTraced(r: Run, i: nat, n: Id, relay: Relaying, ok: bool)
    requires !relay.Idle? && Traced(r, i, n, relay) && (ok ==> Complete(n, relay))
    ensures Traced(r, i + 1, n, Concluded(relay, ok))
  {
    hide CapturedAt, Announcement, Acknowledgement;
    if ok {
      var e := relay.e;
      var c :| Captured(r, c, i, n, e, relay.members) && AllHandled(r, c, i, n, e, relay.handled)
               && AllAcknowledged(r, c, i, n, e, relay.acked);
      AcknowledgedStays(r, c, i, i + 1, n, e, relay.acked);
      assert AllAcknowledged(r, c, i + 1, n, e, relay.members - {n});
      assert Captured(r, c, i + 1, n, e, relay.members);
    }
  }

  // ---- Over a step of the system ----

  /** What a step leaves in relay n: the same, or the result of one of the relay's own steps. */
  lemma RelayMoves(cfg: Config, s: Sys, a: Label, n: Id)
    requires SysEnabled(s, a) && n in SysNext(cfg, s, a).relays
    ensures n in s.relays
    ensures var was, now := s.relays[n], SysNext(cfg, s, a).relays[n];
      || now == was || now.Idle? || now.Claimed?
      || (a == RelayAnnounce(n) && was.Claimed? && now == Announced(was.e))
      || (a == RelayCapture(n) && was.Announced? && n in s.views && now == Sending(was.e, s.views[n], {}, {}))
      || (exists m :: a == RelayHandle(n, m) && was.Sending? && now == AfterHandle(was, m))
      || (exists m :: a == RelayAck(n, m) && was.Sending? && m in was.handled && now == AfterAck(was, m))
      || (exists ok :: a == RelayConclude(n, ok) && !was.Idle? && (ok ==> Complete(n, was))
                       && now == Concluded(was, ok))
  {
    hide Next, Step, Complete;
  }

  lemma RelayTracedStep(cfg: Config, r: Run, i: nat, n: Id)
    requires IsRun(cfg, r) && i < |r.labels| && RelaysTraced(r, i) && n in r.states[i + 1].relays
    ensures Traced(r, i + 1, n, r.states[i + 1].relays[n])
  {
    hide SysNext, SysEnabled, Traced, Complete;
    var s, a := r.states[i], r.labels[i];
    assert SysEnabled(s, a) && r.states[i + 1] == SysNext(cfg, s, a);
    RelayMoves(cfg, s, a, n);
    var was, now := s.relays[n], r.states[i + 1].relays[n];
    assert Traced(r, i, n, was);
    if now == was {
      TracedStays(r, i, n, was);
    } else if now.Idle? || now.Claimed? {
      Untraced(r, i + 1, n, now);
    } else if a == RelayAnnounce(n) {
      AnnounceTraced(r, i, n, was.e);
    } else if a == RelayCapture(n) {
      CaptureTraced(r, i, n, was.e, s.views[n]);
    } else if m :| a == RelayHandle(n, m) && now == AfterHandle(was, m) {
      HandleTraced(r, i, n, m, was);
    } else if m :| a == RelayAck(n, m) && m in was.handled && now == AfterAck(was, m) {
      AckTraced(r, i, n, m, was);
    } else {
      ConcludeTraced(r, i, n, was, a.ok);
    }
  }

  lemma Untraced(r: Run, i: nat, n: Id, relay: Relaying)
    requires relay.Idle? || relay.Claimed?
    ensures Traced(r, i, n, relay)
  {
  }

  lemma AnnounceTraced(r: Run, i: nat, n: Id, e: Event)
    requires AnnouncedAt(r, i, n, e)
    ensures Traced(r, i + 1, n, Announced(e))
  {
  }

  lemma SentTraced(r: Run, i: nat, n: Id, relay: Relaying)
    requires relay.Sent? && relay.ok && Traced(r, i, n, relay)
    ensures Broadcast(r, i, n, relay.e, relay.members)
  {
  }

  /** Only a relay that has sent adds a late order. */
  lemma LateMoves(cfg: Config, s: Sys, a: Label, o: Order)
    requires SysEnabled(s, a) && o in SysNext(cfg, s, a).late
    ensures o in s.late || (o.sender in s.relays && s.relays[o.sender] == Sent(o.e, o.members, o.ok))
  {
    hide Next, Step;
  }

  lemma LateTracedStep(cfg: Config, r: Run, i: nat)
    requires IsRun(cfg, r) && i < |r.labels| && RelaysTraced(r, i) && LateTraced(r, i)
    ensures LateTraced(r, i + 1)
  {
    hide SysNext, SysEnabled, Traced, Broadcast;
    var s, a := r.states[i], r.labels[i];
    assert SysEnabled(s, a) && r.states[i + 1] == SysNext(cfg, s, a);
    forall o | o in r.states[i + 1].late && o.ok ensures Broadcast(r, i + 1, o.sender, o.e, o.members) {
      LateMoves(cfg, s, a, o);
      if o !in s.late {
        SentTraced(r, i, o.sender, s.relays[o.sender]);
      }
      BroadcastStays(r, i, i + 1, o.sender, o.e, o.members);
    }
  }

  /** Only a winning completion changes the ledger. */
  lemma LedgerMoves(cfg: Config, s: Sys, a: Label, id: nat) returns (e: Event)
    requires SysEnabled(s, a) && id in SysNext(cfg, s, a).ledger
    ensures var d := SysNext(cfg, s, a).ledger[id];
      || (id in s.ledger && s.ledger[id] == d)
      || (var o := Order(d.sender, e, d.members, true);
          && e.id == id && e.key == d.key && e.version == d.version && FinishWins(s.db, Completion(e, true))
          && ((a == LateFinish(o) && o in s.late)
              || (a == RelayFinish(o.sender) && o.sender in s.relays
                  && s.relays[o.sender] == Sent(e, d.members, true))))
  {
    hide Next, Step, FinishWins;
    e := match a
         case RelayFinish(n) => s.relays[n].e
         case LateFinish(o) => o.e
         case _ => Event(0, [], 0, 0);
  }

  lemma JustifiedStep(cfg: Config, r: Run, i: nat, id: nat)
    requires IsRun(cfg, r) && i < |r.labels| && RelaysTraced(r, i) && LateTraced(r, i) && LedgerTraced(r, i)
    requires id in r.states[i + 1].ledger
    ensures Justified(r, i + 1, id, r.states[i + 1].ledger[id])
  {
    hide SysNext, SysEnabled, Traced, Broadcast, FinishWins;
    var s, a := r.states[i], r.labels[i];
    assert SysEnabled(s, a) && r.states[i + 1] == SysNext(cfg, s, a);
    var e := LedgerMoves(cfg, s, a, id);
    var d := r.states[i + 1].ledger[id];
    if id in s.ledger && s.ledger[id] == d {
      JustifiedStays(r, i, id, d);
    } else {
      if a.RelayFinish? { SentTraced(r, i, d.sender, s.relays[d.sender]); }
      assert FinishedBy(r, i, i + 1, id, e, d);
    }
  }

  lemma LedgerTracedStep(cfg: Config, r: Run, i: nat)
    requires IsRun(cfg, r) && i < |r.labels| && RelaysTraced(r, i) && LateTraced(r, i) && LedgerTraced(r, i)
    ensures LedgerTraced(r, i + 1)
  {
    hide SysNext, SysEnabled, Justified;
    var t := r.states[i + 1];
    forall id | id in t.ledger ensures Justified(r, i + 1, id, t.ledger[id]) {
      JustifiedStep(cfg, r, i, id);
    }
  }

  lemma JustifiedStays(r: Run, i: nat, id: nat, d: Delivery)
    requires Justified(r, i, id, d)
    ensures Justified(r, i + 1, id, d)
  {
    hide FinishedAt, Broadcast;
    var f, e :| FinishedBy(r, f, i, id, e, d);
    assert FinishedBy(r, f, i + 1, id, e, d);
  }

  /** In every state of every run from the start, everything relays, orders and ledger claim has happened. */
  lemma {:induction false} RunTraced(cfg: Config, r: Run, i: nat)
    requires IsRun(cfg, r) && Initial(r.states[0]) && i < |r.states|
    ensures RelaysTraced(r, i) && LateTraced(r, i) && LedgerTraced(r, i)
  {
    hide SysNext, SysEnabled;
    if i == 0 {
      forall n | n in r.states[0].relays ensures Traced(r, 0, n, r.states[0].relays[n]) {
        assert n in r.states[0].nodes;
      }
    } else {
      RunTraced(cfg, r, i - 1);
      forall n | n in r.states[i].relays ensures Traced(r, i, n, r.states[i].relays[n]) {
        RelayTracedStep(cfg, r, i - 1, n);
      }
      LateTracedStep(cfg, r, i - 1);
      LedgerTracedStep(cfg, r, i - 1);
    }
  }
}
