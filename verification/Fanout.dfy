/**
 * Directory.InvalidateVersion: one captured snapshot, a bounded pool of workers taking job
 * indices from a channel in any order, and a report that is complete only if all answered.
 */
module Fanout {
  import opened Types
  import opened Lists

  datatype Status = Acked | Failed | Unversioned | TimedOut

  // ---- The targets and the verdict ----

  function Targets(members: seq<Text>, self: Text): seq<Text> {
    if members == [] then []
    else Targets(members[..|members| - 1], self)
         + if members[|members| - 1] != self then [members[|members| - 1]] else []
  }

  /** The loop over the snapshot: one report line per member other than the sender, in snapshot order. */
  method CollectTargets(members: seq<Text>, self: Text) returns (targets: seq<Text>)
    ensures targets == Targets(members, self)
    ensures forall m :: m in targets <==> m in members && m != self
  {
    targets := [];
    for i := 0 to |members|
      invariant targets == Targets(members[..i], self)
      invariant forall m :: m in targets <==> m in members[..i] && m != self
    {
      assert members[..i + 1] == members[..i] + [members[i]];
      assert members[..i + 1][..i] == members[..i];
      if members[i] != self {
        targets := targets + [members[i]];
      }
    }
    assert members[..|members|] == members;
  }

  /** The fold over the results. */
  method Verdict(results: seq<Status>) returns (complete: bool)
    ensures complete <==> forall i :: 0 <= i < |results| ==> results[i] == Acked
  {
    complete := true;
    for i := 0 to |results|
      invariant complete <==> forall j :: 0 <= j < i ==> results[j] == Acked
    {
      if results[i] != Acked {
        complete := false;
      }
    }
  }

  // ---- The pool ----

  /** `next` is the next index the sender will hand out; `calls` counts requests per target (history). */
  datatype Pool = Pool(next: nat, busy: map<nat, nat>, status: seq<Option<Status>>, calls: seq<nat>)

  function Workers(targets: nat): nat {
    Min(8, targets)
  }

  function Launched(targets: nat): Pool {
    Pool(0, map[], seq(targets, _ => None), seq(targets, _ => 0))
  }

  datatype PoolStep = Take(w: nat) | Finish(w: nat, s: Status)

  predicate PoolCan(n: nat, p: Pool, a: PoolStep) {
    match a
    case Take(w) => w < Workers(n) && w !in p.busy && p.next < n && p.next < |p.calls|
    case Finish(w, _) => w in p.busy && p.busy[w] < |p.status|
  }

  function PoolDo(n: nat, p: Pool, a: PoolStep): Pool
    requires PoolCan(n, p, a)
  {
    match a
    case Take(w) => Pool(p.next + 1, p.busy[w := p.next], p.status, p.calls[p.next := p.calls[p.next] + 1])
    case Finish(w, s) => Pool(p.next, p.busy - {w}, p.status[p.busy[w] := Some(s)], p.calls)
  }

  predicate PoolOk(n: nat, p: Pool) {
    && |p.status| == |p.calls| == n && p.next <= n
    && (forall w :: w in p.busy ==> w < Workers(n) && p.busy[w] < p.next && p.status[p.busy[w]].None?)
    && (forall v, w :: v in p.busy && w in p.busy && v != w ==> p.busy[v] != p.busy[w])
    && (forall i :: 0 <= i < n ==> p.calls[i] == if i < p.next then 1 else 0)
    && (forall i :: p.next <= i < n ==> p.status[i].None?)
    && (forall i :: 0 <= i < p.next && p.status[i].None? ==> InHand(p, i))
  }

  predicate InHand(p: Pool, i: nat) {
    exists w :: w in p.busy && p.busy[w] == i
  }

  lemma TakeInHand(n: nat, p: Pool, w: nat, i: nat)
    requires PoolOk(n, p) && PoolCan(n, p, Take(w)) && i <= p.next && (i < p.next ==> p.status[i].None?)
    ensures InHand(PoolDo(n, p, Take(w)), i)
  {
    var q := PoolDo(n, p, Take(w));
    if i == p.next {
      assert q.busy[w] == i;
    } else {
      assert InHand(p, i);
      var v :| v in p.busy && p.busy[v] == i;
      assert v in q.busy && q.busy[v] == i;
    }
  }

  lemma TakeKeeps(n: nat, p: Pool, w: nat)
    requires PoolOk(n, p) && PoolCan(n, p, Take(w))
    ensures PoolOk(n, PoolDo(n, p, Take(w)))
  {
    hide InHand, Workers;
    var q := PoolDo(n, p, Take(w));
    forall i | 0 <= i < q.next && q.status[i].None? ensures InHand(q, i) {
      TakeInHand(n, p, w, i);
    }
    forall u, v | u in q.busy && v in q.busy && u != v ensures q.busy[u] != q.busy[v] {
      assert u != w ==> u in p.busy && q.busy[u] == p.busy[u] < p.next;
      assert v != w ==> v in p.busy && q.busy[v] == p.busy[v] < p.next;
    }
  }

  lemma FinishKeeps(n: nat, p: Pool, w: nat, s: Status)
    requires PoolOk(n, p) && PoolCan(n, p, Finish(w, s))
    ensures PoolOk(n, PoolDo(n, p, Finish(w, s)))
  {
    var q := PoolDo(n, p, Finish(w, s));
    forall i | 0 <= i < q.next && q.status[i].None? ensures InHand(q, i) {
      assert InHand(p, i);
      var v :| v in p.busy && p.busy[v] == i;
      assert v != w && v in q.busy && q.busy[v] == i;
    }
  }

  /** What remains to be done; every step uses some of it up, so the pool terminates. */
  function Remaining(n: nat, p: Pool): int {
    2 * (n - p.next) + |p.busy|
  }

  predicate Drained(n: nat, p: Pool) {
    p.next == n && p.busy == map[]
  }

  lemma PoolStepShrinks(n: nat, p: Pool, a: PoolStep)
    requires PoolOk(n, p) && PoolCan(n, p, a)
    ensures 0 <= Remaining(n, PoolDo(n, p, a)) < Remaining(n, p)
  {
    if a.Finish? {
      assert (p.busy - {a.w}).Keys == p.busy.Keys - {a.w};
    }
  }

  /** Until it is drained the pool can always take a step: no schedule gets stuck. */
  lemma PoolNeverStuck(n: nat, p: Pool) returns (a: PoolStep)
    requires PoolOk(n, p) && !Drained(n, p)
    ensures PoolCan(n, p, a)
  {
    if p.busy != map[] {
      var w :| w in p.busy.Keys;
      a := Finish(w, Acked);
    } else {
      a := Take(0);
    }
  }

  function PoolRun(n: nat, steps: seq<PoolStep>): Option<Pool> {
    if steps == [] then Some(Launched(n))
    else
      var p := PoolRun(n, steps[..|steps| - 1]);
      if p.Some? && PoolCan(n, p.value, steps[|steps| - 1]) then Some(PoolDo(n, p.value, steps[|steps| - 1])) else None
  }

  lemma {:induction false} PoolRunOk(n: nat, steps: seq<PoolStep>)
    requires PoolRun(n, steps).Some?
    ensures PoolOk(n, PoolRun(n, steps).value)
    ensures |steps| + Remaining(n, PoolRun(n, steps).value) <= 2 * n
  {
    if steps != [] {
      var front, last := steps[..|steps| - 1], steps[|steps| - 1];
      PoolRunOk(n, front);
      var p := PoolRun(n, front).value;
      PoolStepShrinks(n, p, last);
      if last.Take? { TakeKeeps(n, p, last.w); } else { FinishKeeps(n, p, last.w, last.s); }
    }
  }

  /**
   * Whatever the schedule: at most two steps per target, and when the pool has drained every
   * target was called exactly once and has a status.
   */
  lemma EveryTargetHandledOnce(n: nat, steps: seq<PoolStep>)
    requires PoolRun(n, steps).Some?
    ensures |steps| <= 2 * n
    ensures var p := PoolRun(n, steps).value;
      && |p.calls| == |p.status| == n
      && (Drained(n, p) ==> forall i :: 0 <= i < n ==> p.calls[i] == 1 && p.status[i].Some?)
  {
    PoolRunOk(n, steps);
    var p := PoolRun(n, steps).value;
    if Drained(n, p) {
      assert forall i :: 0 <= i < n ==> !InHand(p, i);
    }
  }

  /** Step j is the end of the request for target i, with this outcome. */
  predicate Ends(n: nat, steps: seq<PoolStep>, j: nat, i: nat, s: Status) {
    && j < |steps| && steps[j].Finish? && steps[j].s == s && PoolRun(n, steps[..j]).Some?
    && steps[j].w in PoolRun(n, steps[..j]).value.busy && PoolRun(n, steps[..j]).value.busy[steps[j].w] == i
  }

  /** The status recorded for a target is the outcome of the request some worker made for that target. */
  lemma {:induction false} StatusIsTheOutcome(n: nat, steps: seq<PoolStep>, i: nat) returns (j: nat)
    requires PoolRun(n, steps).Some? && i < |PoolRun(n, steps).value.status|
    requires PoolRun(n, steps).value.status[i].Some?
    ensures Ends(n, steps, j, i, PoolRun(n, steps).value.status[i].value)
    decreases |steps|
  {
    j := 0;
    if steps != [] {
      var front, last := steps[..|steps| - 1], steps[|steps| - 1];
      var p := PoolRun(n, front).value;
      if last.Finish? && p.busy[last.w] == i {
        j := |steps| - 1;
      } else {
        j := StatusIsTheOutcome(n, front, i);
        assert front[..j] == steps[..j] && front[j] == steps[j];
      }
    }
  }

  lemma {:induction false} RangeBounds(keys: set<nat>, n: nat)
    requires forall k :: k in keys ==> k < n
    ensures |keys| <= n
    decreases n
  {
    if n > 0 {
      RangeBounds(keys - {n - 1}, n - 1);
      assert keys <= (keys - {n - 1}) + {n - 1};
    } else {
      assert keys == {};
    }
  }

  /** However many members there are, no more than eight requests are under way at once. */
  lemma AtMostEightAtOnce(n: nat, steps: seq<PoolStep>)
    requires PoolRun(n, steps).Some?
    ensures |PoolRun(n, steps).value.busy| <= 8 && |PoolRun(n, steps).value.busy| <= n
  {
    PoolRunOk(n, steps);
    RangeBounds(PoolRun(n, steps).value.busy.Keys, Workers(n));
  }

  /** A line for the sender, then one per target; complete exactly if all of them are acknowledged. */
  ghost predicate Reports(members: seq<Text>, self: Text, lines: seq<(Text, Status)>, complete: bool) {
    var targets := Targets(members, self);
    && |lines| == |targets| + 1 && lines[0] == (self, Acked)
    && (forall i :: 0 <= i < |targets| ==> lines[i + 1].0 == targets[i])
    && (complete <==> forall i :: 0 < i < |lines| ==> lines[i].1 == Acked)
  }

  /** The report once the pool has drained, after any schedule. */
  method Report(members: seq<Text>, self: Text, p: Pool, ghost steps: seq<PoolStep>)
    returns (lines: seq<(Text, Status)>, complete: bool)
    requires PoolRun(|Targets(members, self)|, steps) == Some(p) && Drained(|Targets(members, self)|, p)
    ensures Reports(members, self, lines, complete)
    ensures |p.status| == |lines| - 1 && forall i :: 0 < i < |lines| ==> p.status[i - 1] == Some(lines[i].1)
  {
    EveryTargetHandledOnce(|Targets(members, self)|, steps);
    var targets := CollectTargets(members, self);
    lines := [(self, Acked)];
    var results := [Acked];
    for i := 0 to |targets|
      invariant |lines| == |results| == i + 1 && lines[0] == (self, Acked)
      invariant forall j :: 0 <= j <= i ==> results[j] == lines[j].1
      invariant forall j :: 0 < j <= i ==> lines[j].0 == targets[j - 1] && p.status[j - 1] == Some(lines[j].1)
    {
      lines := lines + [(targets[i], p.status[i].value)];
      results := results + [p.status[i].value];
    }
    complete := Verdict(results);
    assert complete <==> forall i :: 0 < i < |lines| ==> results[i] == Acked;
  }

  lemma {:induction false} TargetsAre(members: seq<Text>, self: Text)
    ensures forall m :: m in Targets(members, self) <==> m in members && m != self
    ensures Unique(members) ==> Unique(Targets(members, self))
  {
    if members != [] {
      var front, last := members[..|members| - 1], members[|members| - 1];
      TargetsAre(front, self);
      assert members == front + [last];
      if Unique(members) {
        assert last !in front;
      }
    }
  }

  /** The members whose line says so. */
  function AckedBy(lines: seq<(Text, Status)>): set<Text> {
    set i | 0 < i < |lines| && lines[i].1 == Acked :: lines[i].0
  }

  /** For a snapshot without repeated identities: complete exactly if every other member acknowledged. */
  lemma CompleteExact(members: seq<Text>, self: Text, lines: seq<(Text, Status)>, complete: bool)
    requires Unique(members) && Reports(members, self, lines, complete)
    ensures complete <==> (set m | m in members) - {self} <= AckedBy(lines)
    ensures AckedBy(lines) <= (set m | m in members) - {self}
  {
    var targets := Targets(members, self);
    TargetsAre(members, self);
    forall m | m in AckedBy(lines) ensures m in members && m != self {
      var i :| 0 < i < |lines| && lines[i].1 == Acked && lines[i].0 == m;
      assert lines[i - 1 + 1].0 == targets[i - 1];
    }
    if complete {
      forall m | m in members && m != self ensures m in AckedBy(lines) {
        var i :| 0 <= i < |targets| && targets[i] == m;
        assert lines[i + 1].0 == m && lines[i + 1].1 == Acked;
      }
    }
    if (set m | m in members) - {self} <= AckedBy(lines) {
      forall i | 0 < i < |lines| ensures lines[i].1 == Acked {
        var m := lines[i].0;
        assert lines[i - 1 + 1].0 == targets[i - 1];
        assert m in targets && m in AckedBy(lines);
        var j :| 0 < j < |lines| && lines[j].1 == Acked && lines[j].0 == m;
        assert lines[j - 1 + 1].0 == targets[j - 1];
      }
    }
  }
}
