/**
 * The source limiter under any schedule: loads take a slot at once, or queue for one, or are
 * refused; a queued load holds its queue place until it has a slot or gives up.
 */
module Limiter {
  import opened Types

  datatype Exit = Overloaded | CanceledWaiting | CanceledEarly | Loaded | SourceFailed | StaleValue

  datatype Load =
    | Arriving
    | Turned              // no slot was free at the first try
    | Waiting             // holds a queue place
    | Promoted            // holds a slot, still holds its queue place
    | Running             // holds a slot
    | Gone(exit: Exit)

  datatype Limits = Limits(limit: nat, maxPending: nat)

  /** Channel occupancies and where every load is. */
  datatype State = State(slots: nat, waiting: nat, loads: map<nat, Load>)

  datatype Action =
    | Arrive(t: nat)
    | Refuse(t: nat)                 // the context was already done
    | TrySlot(t: nat)
    | TryQueue(t: nat)
    | Promote(t: nat)
    | LeaveQueue(t: nat)
    | GiveUp(t: nat)
    | Release(t: nat, exit: Exit)    // any return of loadSource after acquire

  predicate Can(c: Limits, s: State, a: Action) {
    match a
    case Arrive(t) => t !in s.loads
    case Refuse(t) => t in s.loads && s.loads[t].Arriving?
    case TrySlot(t) => t in s.loads && s.loads[t].Arriving?
    case TryQueue(t) => t in s.loads && s.loads[t].Turned?
    case Promote(t) => t in s.loads && s.loads[t].Waiting? && s.slots < c.limit
    case LeaveQueue(t) => t in s.loads && s.loads[t].Promoted? && s.waiting > 0
    case GiveUp(t) => t in s.loads && s.loads[t].Waiting? && s.waiting > 0
    case Release(t, exit) => t in s.loads && s.loads[t].Running? && s.slots > 0 && !exit.Overloaded?
  }

  function Move(s: State, t: nat, to: Load): State {
    s.(loads := s.loads[t := to])
  }

  function Do(c: Limits, s: State, a: Action): State
    requires Can(c, s, a)
  {
    match a
    case Arrive(t) => Move(s, t, Arriving)
    case Refuse(t) => Move(s, t, Gone(CanceledEarly))
    case TrySlot(t) => if s.slots < c.limit then Move(s, t, Running).(slots := s.slots + 1) else Move(s, t, Turned)
    case TryQueue(t) =>
      if s.waiting < c.maxPending then Move(s, t, Waiting).(waiting := s.waiting + 1) else Move(s, t, Gone(Overloaded))
    case Promote(t) => Move(s, t, Promoted).(slots := s.slots + 1)
    case LeaveQueue(t) => Move(s, t, Running).(waiting := s.waiting - 1)
    case GiveUp(t) => Move(s, t, Gone(CanceledWaiting)).(waiting := s.waiting - 1)
    case Release(t, exit) => Move(s, t, Gone(exit)).(slots := s.slots - 1)
  }

  function HoldingSlot(s: State): set<nat> {
    set t | t in s.loads && (s.loads[t].Running? || s.loads[t].Promoted?)
  }

  function HoldingPlace(s: State): set<nat> {
    set t | t in s.loads && (s.loads[t].Waiting? || s.loads[t].Promoted?)
  }

  /** Occupancy is exactly what the loads hold, and both bounds are respected. */
  predicate Ok(c: Limits, s: State) {
    && s.slots == |HoldingSlot(s)| && s.slots <= c.limit
    && s.waiting == |HoldingPlace(s)| && s.waiting <= c.maxPending
  }

  const Idle := State(0, 0, map[])

  function Slots(l: Load): nat {
    if l.Running? || l.Promoted? then 1 else 0
  }

  function Places(l: Load): nat {
    if l.Waiting? || l.Promoted? then 1 else 0
  }

  /** Moving one load changes the holders by exactly what that load takes or gives back. */
  lemma MoveSlots(s: State, t: nat, to: Load)
    ensures |HoldingSlot(Move(s, t, to))|
         == |HoldingSlot(s)| - (if t in s.loads then Slots(s.loads[t]) else 0) + Slots(to)
  {
    var others := HoldingSlot(s) - {t};
    assert HoldingSlot(Move(s, t, to)) == if Slots(to) == 1 then others + {t} else others;
    assert t in HoldingSlot(s) ==> HoldingSlot(s) == others + {t};
    assert t !in HoldingSlot(s) ==> HoldingSlot(s) == others;
  }

  lemma MovePlaces(s: State, t: nat, to: Load)
    ensures |HoldingPlace(Move(s, t, to))|
         == |HoldingPlace(s)| - (if t in s.loads then Places(s.loads[t]) else 0) + Places(to)
  {
    var others := HoldingPlace(s) - {t};
    assert HoldingPlace(Move(s, t, to)) == if Places(to) == 1 then others + {t} else others;
    assert t in HoldingPlace(s) ==> HoldingPlace(s) == others + {t};
    assert t !in HoldingPlace(s) ==> HoldingPlace(s) == others;
  }

  lemma DoKeeps(c: Limits, s: State, a: Action)
    requires Ok(c, s) && Can(c, s, a)
    ensures Ok(c, Do(c, s, a))
  {
    var s' := Do(c, s, a);
    var to := s'.loads[a.t];
    MoveSlots(s, a.t, to);
    MovePlaces(s, a.t, to);
    assert s'.loads == Move(s, a.t, to).loads;
    assert HoldingSlot(s') == HoldingSlot(Move(s, a.t, to));
    assert HoldingPlace(s') == HoldingPlace(Move(s, a.t, to));
  }

  /** The state after a schedule, when every action of it was possible. */
  function Schedule(c: Limits, acts: seq<Action>): Option<State> {
    if acts == [] then Some(Idle)
    else
      var s := Schedule(c, acts[..|acts| - 1]);
      if s.Some? && Can(c, s.value, acts[|acts| - 1]) then Some(Do(c, s.value, acts[|acts| - 1])) else None
  }

  lemma {:induction false} ScheduleOk(c: Limits, acts: seq<Action>)
    requires Schedule(c, acts).Some?
    ensures Ok(c, Schedule(c, acts).value)
  {
    if acts == [] {
      assert HoldingSlot(Idle) == {} && HoldingPlace(Idle) == {};
    } else {
      ScheduleOk(c, acts[..|acts| - 1]);
      DoKeeps(c, Schedule(c, acts[..|acts| - 1]).value, acts[|acts| - 1]);
    }
  }

  // ---- Who gets in ----

  /** A free slot is granted at once, a free queue place too, and otherwise the load is turned away. */
  lemma GrantedWhenFree(c: Limits, s: State, t: nat)
    requires t in s.loads
    ensures s.loads[t].Arriving? ==> var s' := Do(c, s, TrySlot(t));
      if s.slots < c.limit then s'.loads[t] == Running && s'.slots == s.slots + 1
      else s'.loads[t] == Turned && s'.slots == s.slots
    ensures s.loads[t].Turned? ==> var s' := Do(c, s, TryQueue(t));
      if s.waiting < c.maxPending then s'.loads[t] == Waiting && s'.waiting == s.waiting + 1
      else s'.loads[t] == Gone(Overloaded) && s'.waiting == s.waiting
    ensures s.loads[t].Waiting? && s.slots < c.limit ==>
      Can(c, s, Promote(t)) && Do(c, s, Promote(t)).loads[t] == Promoted && Do(c, s, Promote(t)).slots == s.slots + 1
  {
  }

  /** Before action j of a schedule. */
  function Before(c: Limits, acts: seq<Action>, j: nat): Option<State>
    requires j <= |acts|
  {
    Schedule(c, acts[..j])
  }

  /** At action i the load found every slot taken. */
  predicate SlotsFull(c: Limits, acts: seq<Action>, i: nat, t: nat) {
    i < |acts| && acts[i] == TrySlot(t) && Before(c, acts, i).Some? && Before(c, acts, i).value.slots == c.limit
  }

  /** At action j it found every queue place taken too. */
  predicate QueueFull(c: Limits, acts: seq<Action>, j: nat, t: nat) {
    j < |acts| && acts[j] == TryQueue(t) && Before(c, acts, j).Some? && Before(c, acts, j).value.waiting == c.maxPending
  }

  lemma LoadMoves(c: Limits, s: State, a: Action, t: nat)
    requires Ok(c, s) && Can(c, s, a) && t in Do(c, s, a).loads
    ensures Do(c, s, a).loads[t].Turned? ==>
      (t in s.loads && s.loads[t].Turned?) || (a == TrySlot(t) && s.slots == c.limit)
    ensures Do(c, s, a).loads[t] == Gone(Overloaded) ==>
      || (t in s.loads && s.loads[t] == Gone(Overloaded))
      || (t in s.loads && s.loads[t].Turned? && a == TryQueue(t) && s.waiting == c.maxPending)
  {
  }

  lemma {:induction false} TurnedWhenFull(c: Limits, acts: seq<Action>, t: nat) returns (i: nat)
    requires Schedule(c, acts).Some? && t in Schedule(c, acts).value.loads && Schedule(c, acts).value.loads[t].Turned?
    ensures SlotsFull(c, acts, i, t)
    decreases |acts|
  {
    i := 0;
    if acts != [] {
      var front, last := acts[..|acts| - 1], acts[|acts| - 1];
      ScheduleOk(c, front);
      var s := Schedule(c, front).value;
      LoadMoves(c, s, last, t);
      if t in s.loads && s.loads[t].Turned? {
        i := TurnedWhenFull(c, front, t);
        assert front[..i] == acts[..i] && front[i] == acts[i];
      } else {
        i := |acts| - 1;
      }
    }
  }

  /** A load is refused as overloaded only after it found all slots and then all queue places taken. */
  lemma {:induction false} OverloadedWhenFull(c: Limits, acts: seq<Action>, t: nat) returns (i: nat, j: nat)
    requires Schedule(c, acts).Some?
    requires t in Schedule(c, acts).value.loads && Schedule(c, acts).value.loads[t] == Gone(Overloaded)
    ensures i < j && SlotsFull(c, acts, i, t) && QueueFull(c, acts, j, t)
    decreases |acts|
  {
    i, j := 0, 0;
    if acts != [] {
      var front, last := acts[..|acts| - 1], acts[|acts| - 1];
      ScheduleOk(c, front);
      var s := Schedule(c, front).value;
      LoadMoves(c, s, last, t);
      if t in s.loads && s.loads[t] == Gone(Overloaded) {
        i, j := OverloadedWhenFull(c, front, t);
        assert front[..j] == acts[..j] && front[j] == acts[j];
      } else {
        i := TurnedWhenFull(c, front, t);
        j := |acts| - 1;
      }
      assert front[..i] == acts[..i] && front[i] == acts[i];
    }
  }

  predicate AllGone(s: State) {
    forall t :: t in s.loads ==> s.loads[t].Gone?
  }

  /** A load that holds something can give it back at once. */
  predicate Unblocked(c: Limits, s: State, t: nat)
    requires t in s.loads
  {
    && (s.loads[t].Running? ==> Can(c, s, Release(t, Loaded)))
    && (s.loads[t].Waiting? ==> Can(c, s, GiveUp(t)))
    && (s.loads[t].Promoted? ==> Can(c, s, LeaveQueue(t)))
  }

  lemma HoldersUnblocked(c: Limits, s: State, t: nat)
    requires Ok(c, s) && t in s.loads
    ensures Unblocked(c, s, t)
  {
    assert Slots(s.loads[t]) == 1 ==> t in HoldingSlot(s);
    assert Places(s.loads[t]) == 1 ==> t in HoldingPlace(s);
  }

  /**
   * Under every schedule: running loads and queued loads respect their limits, slot occupancy is
   * the number of loads holding a slot, no holder is ever blocked from giving back what it took,
   * and once all loads have left, whatever their exits, nothing is occupied.
   */
  lemma EveryScheduleIsBounded(c: Limits, acts: seq<Action>)
    requires Schedule(c, acts).Some?
    ensures var s := Schedule(c, acts).value;
      && Ok(c, s)
      && (forall t :: t in s.loads ==> Unblocked(c, s, t))
      && (AllGone(s) ==> s.slots == 0 && s.waiting == 0)
  {
    var s := Schedule(c, acts).value;
    ScheduleOk(c, acts);
    forall t | t in s.loads ensures Unblocked(c, s, t) {
      HoldersUnblocked(c, s, t);
    }
    if AllGone(s) {
      assert HoldingSlot(s) == {} && HoldingPlace(s) == {};
    }
  }
}
