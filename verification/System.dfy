/** The whole system: one controller and a host machine per node, interleaved.

Every machine runs the handlers of AgentProcess; the controller, the pods and people move as in Protocol.  What
the machines do to their nodes and what the protocol's agents may do are shown to agree over whole
runs, so the bound and the drain guarantee hold of the system. */
module System {
  import opened Order
  import opened Nodes
  import opened NodeUpdate
  import opened Refinement
  import P = Protocol
  import M = AgentMachine

  datatype Sys = Sys(cluster: P.Cluster, machines: map<string, M.Machine>)

  datatype Move = Runs(name: string, act: M.Act) | Other(step: P.Step)

  /** Every node reads as its machine has it. */
  ghost predicate InStep(s: Sys)
  {
    && s.machines.Keys == s.cluster.nodes.Keys
    && forall k | k in s.machines :: Agrees(s.cluster, k, s.machines[k])
  }

  ghost predicate Agrees(c: P.Cluster, k: string, m: M.Machine)
  {
    Shows(c, k, m) && Refinement.Orderly(m)
  }

  /** A node with the annotations its machine writes. */
  function Annotated(n: Node, m: M.Machine): Node
  {
    var f := FaceOfMachine(m);
    n.(current := f.current, state := f.state, rebootPending := f.rebootPending, forceReboot := f.forceReboot)
  }

  /** The shortcut mark comes off a node that has settled. */
  function Unmarked(shortcut: set<string>, n: Node, a: P.Agent): set<string>
  {
    if n.desired == n.current && a.working.None? then shortcut - {n.name} else shortcut
  }

  ghost predicate Possible(s: Sys, pool: Pool, rmcs: M.RMCs, move: Move)
  {
    match move
    case Runs(name, act) =>
      name in s.machines && name in s.cluster.nodes && M.Enabled(rmcs, s.machines[name], act) && IsAgentStep(act)
    case Other(step) =>
      && !step.AgentStep? && !step.StaleStep? && P.Enabled(s.cluster, pool, step)
      // a target is a name, and does not change in the middle of a startup
      && (step.ProcessNext? ==> s.cluster.target != "")
      && (step.ProcessNext? && s.cluster.worklist[0].name in s.machines && s.machines[s.cluster.worklist[0].name].pc.Reporting? ==>
            s.machines[s.cluster.worklist[0].name].desired == s.cluster.target)
  }

  /** A machine that finds on its node what the controller and people have written there. */
  function Told(m: M.Machine, n: Node): M.Machine
  {
    m.(desired := n.desired, forceReboot := n.forceReboot)
  }

  function ToldAll(ms: map<string, M.Machine>, nodes: map<string, Node>): map<string, M.Machine>
  {
    map k | k in ms :: if k in nodes then Told(ms[k], nodes[k]) else ms[k]
  }

  ghost function Next(s: Sys, pool: Pool, rmcs: M.RMCs, move: Move): Sys
    requires Possible(s, pool, rmcs, move)
  {
    match move
    case Runs(name, act) =>
      var m', c := M.Next(rmcs, s.machines[name], act), s.cluster;
      var n', a' := Annotated(c.nodes[name], m'), AgentOf(m');
      Sys(if ActOf(rmcs, s.machines[name], act).None? then c
          else c.(nodes := c.nodes[name := n'], agents := c.agents[name := a'], shortcut := Unmarked(c.shortcut, n', a')),
          s.machines[name := m'])
    case Other(step) =>
      var c' := P.Next(s.cluster, pool, step);
      Sys(c', ToldAll(s.machines, c'.nodes))
  }

  /** Where the machine's step is none of the protocol's, it leaves the node and the agent alone; else the
      node it writes is the one the protocol's agent writes. */
  lemma MachineMoveIsAStep(s: Sys, pool: Pool, rmcs: M.RMCs, name: string, act: M.Act)
    requires P.Shape(s.cluster) && InStep(s) && Possible(s, pool, rmcs, Runs(name, act))
    ensures var c', it := Next(s, pool, rmcs, Runs(name, act)).cluster, ActOf(rmcs, s.machines[name], act);
      if it.None? then c' == s.cluster
      else P.Enabled(s.cluster, pool, P.AgentStep(name, it.value)) && c' == P.Next(s.cluster, pool, P.AgentStep(name, it.value))
  {
    var m, n := s.machines[name], s.cluster.nodes[name];
    assert Agrees(s.cluster, name, m);
    StepMatches(rmcs, n, m, act);
    var it := ActOf(rmcs, m, act);
    if it.Some? {
      var m' := M.Next(rmcs, m, act);
      AnnotatedIsWritten(n, AgentOf(m), it.value, m');
      WrittenIsMoved(s.cluster, pool, name, it.value, Annotated(n, m'), AgentOf(m'));
    }
  }

  lemma WrittenIsMoved(c: P.Cluster, pool: Pool, name: string, act: P.AgentAct, n': Node, a': P.Agent)
    requires name in c.nodes && name in c.agents && c.nodes[name].name == name && P.AgentEnabled(c.nodes[name], c.agents[name], act)
    requires n' == P.AgentWrites(c.nodes[name], c.agents[name], act) && a' == P.AgentMemory(c.nodes[name].desired, c.agents[name], act)
    ensures P.Enabled(c, pool, P.AgentStep(name, act))
    ensures P.Next(c, pool, P.AgentStep(name, act))
         == c.(nodes := c.nodes[name := n'], agents := c.agents[name := a'], shortcut := Unmarked(c.shortcut, n', a'))
  {
  }

  lemma MachineMoveAgrees(s: Sys, pool: Pool, rmcs: M.RMCs, name: string, act: M.Act)
    requires InStep(s) && Possible(s, pool, rmcs, Runs(name, act))
    ensures Agrees(Next(s, pool, rmcs, Runs(name, act)).cluster, name, M.Next(rmcs, s.machines[name], act))
  {
    var m, n := s.machines[name], s.cluster.nodes[name];
    assert Agrees(s.cluster, name, m);
    StepKeepsOrderly(rmcs, m, act);
    StepMatches(rmcs, n, m, act);
    var it := ActOf(rmcs, m, act);
    if it.Some? {
      AnnotatedIsWritten(n, AgentOf(m), it.value, M.Next(rmcs, m, act));
    }
  }

  lemma MachineMoveKeepsInStep(s: Sys, pool: Pool, rmcs: M.RMCs, name: string, act: M.Act)
    requires InStep(s) && Possible(s, pool, rmcs, Runs(name, act))
    ensures InStep(Next(s, pool, rmcs, Runs(name, act)))
  {
    var s' := Next(s, pool, rmcs, Runs(name, act));
    MachineMoveAgrees(s, pool, rmcs, name, act);
    forall k | k in s'.machines ensures Agrees(s'.cluster, k, s'.machines[k]) {
      assert Agrees(s.cluster, k, s.machines[k]);
    }
  }

  lemma AnnotatedIsWritten(n: Node, a: P.Agent, act: P.AgentAct, m': M.Machine)
    requires P.AgentEnabled(n, a, act) && P.FaceOf(P.AgentWrites(n, a, act)) == FaceOfMachine(m')
    ensures P.AgentWrites(n, a, act) == Annotated(n, m')
    ensures P.FaceOf(Annotated(n, m')) == FaceOfMachine(m')
  {
  }

  lemma ToldShows(n: Node, n': Node, m: M.Machine, target: string)
    requires P.FaceOf(n) == FaceOfMachine(m) && Refinement.Orderly(m) && target != ""
    requires P.FaceOf(n') == P.FaceOf(n).(desired := n'.desired, forceReboot := n'.forceReboot)
    requires n'.desired == n.desired || n'.desired == target
    requires m.pc.Reporting? ==> n'.desired == n.desired
    ensures P.FaceOf(n') == FaceOfMachine(Told(m, n')) && Refinement.Orderly(Told(m, n'))
    ensures AgentOf(Told(m, n')) == AgentOf(m)
  {
  }

  lemma OtherMoveAgrees(s: Sys, pool: Pool, rmcs: M.RMCs, step: P.Step, k: string)
    requires InStep(s) && Possible(s, pool, rmcs, Other(step)) && k in s.machines
    ensures var c' := P.Next(s.cluster, pool, step);
      k in c'.nodes && Agrees(c', k, Told(s.machines[k], c'.nodes[k]))
  {
    var c, c' := s.cluster, P.Next(s.cluster, pool, step);
    assert Agrees(c, k, s.machines[k]);
    if step.ProcessNext? && c.worklist[0].name == k {
      var pool' := pool.(hasLastSuccessfulRevision := step.hasLastSuccessfulRevision);
      P.ControllerLeavesFaces(c.worklist[0], c.nodes[k], c.target, pool', step.io);
      ToldShows(c.nodes[k], c'.nodes[k], s.machines[k], c.target);
    } else {
      ToldShows(c.nodes[k], c'.nodes[k], s.machines[k], "any");
    }
  }

  lemma OtherMoveKeepsInStep(s: Sys, pool: Pool, rmcs: M.RMCs, step: P.Step)
    requires P.Shape(s.cluster) && InStep(s) && Possible(s, pool, rmcs, Other(step))
    ensures InStep(Next(s, pool, rmcs, Other(step)))
  {
    var c' := P.Next(s.cluster, pool, step);
    P.StepKeepsShape(s.cluster, pool, step);
    forall k | k in s.machines ensures k in c'.nodes && Agrees(c', k, Told(s.machines[k], c'.nodes[k])) {
      OtherMoveAgrees(s, pool, rmcs, step, k);
    }
    AllTold(s, c');
  }

  lemma AllTold(s: Sys, c': P.Cluster)
    requires s.machines.Keys == c'.nodes.Keys
    requires forall k | k in s.machines :: Agrees(c', k, Told(s.machines[k], c'.nodes[k]))
    ensures InStep(Sys(c', ToldAll(s.machines, c'.nodes)))
  {
  }

  /** Machines and nodes stay in step. */
  lemma MoveKeepsInStep(s: Sys, pool: Pool, rmcs: M.RMCs, move: Move)
    requires P.Shape(s.cluster) && InStep(s) && Possible(s, pool, rmcs, move)
    ensures P.Shape(Next(s, pool, rmcs, move).cluster) && InStep(Next(s, pool, rmcs, move))
  {
    match move
    case Runs(name, act) =>
      MachineMoveIsAStep(s, pool, rmcs, name, act);
      MachineMoveKeepsInStep(s, pool, rmcs, name, act);
      var it := ActOf(rmcs, s.machines[name], act);
      if it.Some? {
        P.StepKeepsShape(s.cluster, pool, P.AgentStep(name, it.value));
      }
    case Other(step) =>
      OtherMoveKeepsInStep(s, pool, rmcs, step);
      P.StepKeepsShape(s.cluster, pool, step);
  }

  ghost predicate IsRun(run: seq<Sys>, moves: seq<Move>, pool: Pool, rmcs: M.RMCs)
  {
    && |run| == |moves| + 1
    && forall i | 0 <= i < |moves| :: Possible(run[i], pool, rmcs, moves[i]) && run[i + 1] == Next(run[i], pool, rmcs, moves[i])
  }

  lemma {:induction false} StaysInStep(run: seq<Sys>, moves: seq<Move>, pool: Pool, rmcs: M.RMCs)
    requires IsRun(run, moves, pool, rmcs) && P.Shape(run[0].cluster) && InStep(run[0])
    ensures forall i | 0 <= i < |run| :: P.Shape(run[i].cluster) && InStep(run[i])
  {
    var i := 0;
    while i < |moves|
      invariant 0 <= i <= |moves|
      invariant forall j | 0 <= j <= i :: P.Shape(run[j].cluster) && InStep(run[j])
    {
      MoveKeepsInStep(run[i], pool, rmcs, moves[i]);
      i := i + 1;
    }
  }

  /** Every run of the system is a run of the protocol, seen from its nodes. */
  lemma {:induction false} SystemIsARun(run: seq<Sys>, moves: seq<Move>, pool: Pool, rmcs: M.RMCs)
    returns (clusters: seq<P.Cluster>, steps: seq<P.Step>)
    requires IsRun(run, moves, pool, rmcs) && P.Shape(run[0].cluster) && InStep(run[0])
    ensures P.Leads(clusters, steps, pool, run[0].cluster, run[|moves|].cluster)
  {
    StaysInStep(run, moves, pool, rmcs);
    clusters, steps := [run[0].cluster], [];
    var i := 0;
    while i < |moves|
      invariant 0 <= i <= |moves|
      invariant P.Leads(clusters, steps, pool, run[0].cluster, run[i].cluster)
    {
      var s := run[i];
      if moves[i].Runs? {
        MachineMoveIsAStep(s, pool, rmcs, moves[i].name, moves[i].act);
        var it := ActOf(rmcs, s.machines[moves[i].name], moves[i].act);
        if it.Some? {
          var step := P.AgentStep(moves[i].name, it.value);
          P.OneStepLater(clusters, steps, pool, run[0].cluster, s.cluster, step);
          clusters, steps := clusters + [P.Next(s.cluster, pool, step)], steps + [step];
        }
      } else {
        var step := moves[i].step;
        P.OneStepLater(clusters, steps, pool, run[0].cluster, s.cluster, step);
        clusters, steps := clusters + [P.Next(s.cluster, pool, step)], steps + [step];
      }
      i := i + 1;
    }
  }

  /** The bound and the drain guarantee, of the system: controller, hosts, crashes and reboots. */
  lemma SystemIsBoundedAndSafe(run: seq<Sys>, moves: seq<Move>, pool: Pool, rmcs: M.RMCs)
    requires IsRun(run, moves, pool, rmcs) && InStep(run[0]) && P.Safe(run[0].cluster) && run[0].cluster.worklist == []
    ensures |P.Unavailable(run[|moves|].cluster.nodes)|
         <= P.Max(|P.Unavailable(run[0].cluster.nodes)|, P.Budget(run[0].cluster, pool))
    ensures P.Safe(run[|moves|].cluster)
  {
    var clusters, steps := SystemIsARun(run, moves, pool, rmcs);
    P.RollingBound(clusters, steps, pool);
    P.ApplyOnlyWhenDrained(clusters, steps, pool);
  }
}
