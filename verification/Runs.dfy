/** Building runs of the system out of steps of one process. */
module Runs {
  import opened Store
  import opened Fencing
  import opened Node
  import opened Cluster
  import opened ClusterProofs

  function Extend(cfg: Config, r: Run, a: Label): Run
    requires |r.states| > 0 && SysEnabled(r.states[|r.states| - 1], a)
  {
    Run(r.states + [SysNext(cfg, r.states[|r.states| - 1], a)], r.labels + [a])
  }

  lemma ExtendIsRun(cfg: Config, r: Run, a: Label)
    requires IsRun(cfg, r) && SysEnabled(r.states[|r.states| - 1], a)
    ensures IsRun(cfg, Extend(cfg, r, a))
  {
    var q := Extend(cfg, r, a);
    forall i | 0 <= i < |q.labels|
      ensures SysEnabled(q.states[i], q.labels[i]) && q.states[i + 1] == SysNext(cfg, q.states[i], q.labels[i])
    {
      if i < |r.labels| { assert q.labels[i] == r.labels[i]; }
    }
  }

  predicate NoRestart(r: Run) {
    forall i :: 0 <= i < |r.labels| ==> !r.labels[i].ProcessRestart?
  }

  ghost predicate Plays(cfg: Config, db: Db, n: Node, ops: seq<NodeOp>, n': Node)
    decreases |ops|
  {
    if ops == [] then n == n'
    else !ops[0].Restart? && Enabled(db, n, ops[0]) && Plays(cfg, db, Next(cfg, db, n, ops[0]), ops[1..], n')
  }

  /** Process steps played on one node are steps of the system. */
  lemma {:induction false} PlayInRun(cfg: Config, r: Run, n: Id, ops: seq<NodeOp>, n': Node) returns (q: Run)
    requires IsRun(cfg, r) && n in r.states[|r.states| - 1].nodes
    requires var s := r.states[|r.states| - 1]; Plays(cfg, s.db, s.nodes[n], ops, n')
    ensures IsRun(cfg, q) && r.states <= q.states && r.labels <= q.labels && (NoRestart(r) ==> NoRestart(q))
    ensures var s, t := r.states[|r.states| - 1], q.states[|q.states| - 1];
      t.db == s.db && n in t.nodes && t.nodes[n] == n'
    decreases |ops|
  {
    hide Next, Enabled;
    if ops == [] {
      q := r;
    } else {
      ExtendIsRun(cfg, r, NodeStep(n, ops[0]));
      q := PlayInRun(cfg, Extend(cfg, r, NodeStep(n, ops[0])), n, ops[1..], n');
    }
  }

  lemma {:induction false} PlayOneMore(cfg: Config, db: Db, n: Node, ops: seq<NodeOp>, m: Node, op: NodeOp)
    requires Plays(cfg, db, n, ops, m) && !op.Restart? && Enabled(db, m, op)
    ensures Plays(cfg, db, n, ops + [op], Next(cfg, db, m, op))
    decreases |ops|
  {
    if ops == [] {
      assert [op][1..] == [];
    } else {
      assert (ops + [op])[1..] == ops[1..] + [op];
      PlayOneMore(cfg, db, Next(cfg, db, n, ops[0]), ops[1..], m, op);
    }
  }

  /** Some number is not in a finite set. */
  lemma {:induction false} Unused(used: set<nat>) returns (c: nat)
    ensures forall u :: u in used ==> u < c
    decreases used
  {
    if used == {} {
      c := 0;
    } else {
      var u :| u in used;
      var d := Unused(used - {u});
      assert forall x :: x in used ==> x == u || x in used - {u};
      c := if u < d then d else u + 1;
    }
  }
}
