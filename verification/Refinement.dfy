/** The agent of the cluster protocol is the agent of the host machine.

Module Protocol models an agent by what it may write to its node; module AgentMachine models the
host, its files and its reboots behind those writes; module AgentProcess proves that the handlers
are runs of that machine.  Here every step of the machine is a step of the protocol's agent, or
none, so the bound and the drain guarantee hold of agents that run those handlers. */
module Refinement {
  import opened Order
  import opened Nodes
  import opened Config
  import Apply
  import NodeUpdate
  import P = Protocol
  import M = AgentMachine

  /** A startup is one step of the protocol, taken when its report is written, so until then the node
      still reads as awaiting its reboot. */
  function FaceOfMachine(m: M.Machine): P.Face
  {
    P.Face(m.desired, m.current, m.state, m.paused, m.rebootPending || m.pc.Reporting?, m.forceReboot)
  }

  function AgentOf(m: M.Machine): P.Agent
  {
    P.Agent(if m.pc.Working? then Some(m.pc.rev) else None, m.pendingReboot)
  }

  /** What the machine's invariant and an atomic startup give. */
  predicate Orderly(m: M.Machine)
  {
    && (m.pc.Down? || m.pc.Reporting? ==> m.pendingReboot == "")
    && (m.pc.Reporting? ==> m.pc.rev == m.desired && m.desired != "" && !m.rebootPending)
  }

  /** Steps of the agent and its host; the controller's and people's edits are steps of the protocol's other
      parties. */
  predicate IsAgentStep(act: M.Act)
  {
    !act.SetDesired? && !act.SetForceReboot?
  }

  /** The protocol act a machine step amounts to; None for a step that writes nothing to the node. */
  function ActOf(rmcs: M.RMCs, m: M.Machine, act: M.Act): Option<P.AgentAct>
    requires M.Enabled(rmcs, m, act) && IsAgentStep(act)
  {
    match act
    case Begin => Some(P.Begin)
    case FetchFailed(told) => if told then Some(P.FetchFailed) else None
    case WriteFile(fault, told) =>
      if Apply.ApplyFile(m.files, m.pc.todo[0], fault).ok then None else Some(P.Finish(P.Failure(P.NoWrites, told)))
    case Finish(units, needsReboot, w, told) =>
      var spec := rmcs[m.pc.rev].reboot;
      if units.UnitsFailed? then Some(P.Finish(P.Failure(P.NoWrites, told)))
      else if (!m.pc.changed && units.UnitsUnchanged?) || !needsReboot then Some(P.Finish(P.Success(told)))
      else if M.HandleRebootFails(m, true, spec, w) then Some(P.Finish(P.Failure(RebootOf(m, true, spec, w), told)))
      else Some(P.Finish(P.RebootAwaited(RebootOf(m, true, spec, w))))
    case Recheck(w) =>
      Some(P.Recheck(RebootOf(m, rmcs[m.desired].reboot.required, rmcs[m.desired].reboot, w)))
    case Crash => Some(P.Crash(m.pc.Reporting?))
    case HostReboot => Some(P.Crash(m.pc.Reporting?))
    case Startup(readOk, clearOk, idleOk) =>
      if readOk && M.SeesReboot(m, clearOk) && m.desired != "" then None
      else Some(P.Restart(readOk && M.SeesReboot(m, clearOk), false, idleOk))
    case FinishReport(told, idleOk) => Some(P.Restart(true, told, idleOk))
    case _ => None
  }

  /** The writes around a reboot, as the protocol has them. */
  function RebootOf(m: M.Machine, required: bool, spec: RebootSpec, w: M.Writes): P.RebootWrites
  {
    if !required then P.NoWrites
    else if M.MayReboot(m, spec) then P.Execute(w.stateOk, w.forceOk, w.pendingOk)
    else if w.pendingOk then P.MarkPending
    else P.NoWrites
  }

  /** The agent leaves the annotations of the other parties alone. */
  lemma AnnotationsOnly(n: Node, a: P.Agent, act: P.AgentAct)
    requires P.AgentEnabled(n, a, act)
    ensures P.FaceOf(P.AgentWrites(n, a, act)) == P.Annotate(P.FaceOf(n), a, act)
  {
    var f, f' := P.FaceOf(n), P.Annotate(P.FaceOf(n), a, act);
    assert f'.desired == f.desired && f'.paused == f.paused;
  }

  lemma MachineReboot(m: M.Machine, required: bool, spec: RebootSpec, w: M.Writes)
    requires !m.pc.Reporting?
    ensures var m' := M.HandleReboot(m, required, spec, w);
      && FaceOfMachine(m') == P.WriteReboot(FaceOfMachine(m), RebootOf(m, required, spec, w))
      && m'.pc == m.pc && m'.pendingReboot == m.pendingReboot
  {
  }

  /** The machine's side: the annotations and the memory change as the act says, or not at all. */
  ghost predicate MachineFollows(rmcs: M.RMCs, m: M.Machine, act: M.Act)
    requires M.Enabled(rmcs, m, act) && IsAgentStep(act)
  {
    var m', it := M.Next(rmcs, m, act), ActOf(rmcs, m, act);
    if it.None? then FaceOfMachine(m') == FaceOfMachine(m) && AgentOf(m') == AgentOf(m)
    else
      && (it.value.Finish? ==> m.pc.Working?)
      && FaceOfMachine(m') == P.Annotate(FaceOfMachine(m), AgentOf(m), it.value)
      && AgentOf(m') == P.AgentMemory(m.desired, AgentOf(m), it.value)
  }

  lemma MachineEnd(rmcs: M.RMCs, m: M.Machine, act: M.Act)
    requires M.Enabled(rmcs, m, act) && act.Finish?
    requires act.units.UnitsFailed? || (!m.pc.changed && act.units.UnitsUnchanged?) || !act.needsReboot
    ensures MachineFollows(rmcs, m, act)
  {
    var rest := m.(pc := M.Resting);
    assert FaceOfMachine(rest) == FaceOfMachine(m);
    if act.units.UnitsFailed? {
      assert M.Next(rmcs, m, act) == M.ReportError(rest, act.told);
    } else {
      var done := rest.(pendingReboot := "");
      assert M.Next(rmcs, m, act) == if act.told then M.SetDone(done, m.pc.rev) else done;
    }
  }

  lemma MachineRebootEnd(rmcs: M.RMCs, m: M.Machine, act: M.Act)
    requires M.Enabled(rmcs, m, act) && act.Finish?
    requires !act.units.UnitsFailed? && (m.pc.changed || act.units.UnitsChanged?) && act.needsReboot
    ensures MachineFollows(rmcs, m, act)
  {
    var rest, spec := m.(pc := M.Resting), rmcs[m.pc.rev].reboot;
    assert FaceOfMachine(rest) == FaceOfMachine(m);
    MachineReboot(rest, true, spec, act.w);
    assert RebootOf(rest, true, spec, act.w) == RebootOf(m, true, spec, act.w);
    assert M.HandleRebootFails(rest, true, spec, act.w) == M.HandleRebootFails(m, true, spec, act.w);
  }

  lemma MachineRebootSeen(rmcs: M.RMCs, m: M.Machine, act: M.Act)
    requires M.Enabled(rmcs, m, act) && act.Startup? && act.readOk && M.SeesReboot(m, act.clearOk) && Orderly(m)
    ensures MachineFollows(rmcs, m, act)
  {
    assert FaceOfMachine(M.Next(rmcs, m, act)).rebootPending == (m.desired != "");
  }

  lemma MachineStartup(rmcs: M.RMCs, m: M.Machine, act: M.Act)
    requires M.Enabled(rmcs, m, act) && act.Startup? && !(act.readOk && M.SeesReboot(m, act.clearOk)) && Orderly(m)
    ensures MachineFollows(rmcs, m, act)
  {
    assert FaceOfMachine(M.Next(rmcs, m, act)).rebootPending == m.rebootPending;
  }

  lemma MachineReport(rmcs: M.RMCs, m: M.Machine, act: M.Act)
    requires M.Enabled(rmcs, m, act) && act.FinishReport? && Orderly(m)
    ensures MachineFollows(rmcs, m, act)
  {
  }

  lemma MachineWrite(rmcs: M.RMCs, m: M.Machine, act: M.Act)
    requires M.Enabled(rmcs, m, act) && act.WriteFile?
    ensures MachineFollows(rmcs, m, act)
  {
  }

  lemma MachineStep(rmcs: M.RMCs, m: M.Machine, act: M.Act)
    requires M.Enabled(rmcs, m, act) && IsAgentStep(act) && Orderly(m)
    ensures MachineFollows(rmcs, m, act)
  {
    match act
    case WriteFile(_, _) => MachineWrite(rmcs, m, act);
    case Finish(units, needsReboot, _, _) =>
      if units.UnitsFailed? || (!m.pc.changed && units.UnitsUnchanged?) || !needsReboot {
        MachineEnd(rmcs, m, act);
      } else {
        MachineRebootEnd(rmcs, m, act);
      }
    case Recheck(w) => MachineReboot(m, rmcs[m.desired].reboot.required, rmcs[m.desired].reboot, w);
    case Startup(readOk, clearOk, _) =>
      if readOk && M.SeesReboot(m, clearOk) {
        MachineRebootSeen(rmcs, m, act);
      } else {
        MachineStartup(rmcs, m, act);
      }
    case FinishReport(_, _) => MachineReport(rmcs, m, act);
    case _ =>
  }

  /** A startup, or the loss of the process, leaves no awaited revision in memory. */
  lemma ProcessComesAndGoes(rmcs: M.RMCs, m: M.Machine, act: M.Act)
    requires M.Enabled(rmcs, m, act) && (act.Startup? || act.Crash? || act.HostReboot?) && Orderly(m)
    ensures Orderly(M.Next(rmcs, m, act))
  {
    if act.Startup? && act.readOk && M.SeesReboot(m, act.clearOk) && m.desired != "" {
      assert M.Next(rmcs, m, act) == m.(rebootPending := false, pc := M.Reporting(m.desired));
    }
  }

  lemma ApplyEndsResting(rmcs: M.RMCs, m: M.Machine, act: M.Act)
    requires M.Enabled(rmcs, m, act) && act.Finish?
    ensures M.Next(rmcs, m, act).pc == M.Resting
  {
    MachineReboot(m.(pc := M.Resting), true, rmcs[m.pc.rev].reboot, act.w);
  }

  /** A process that is up stays up, and does not go back to its startup. */
  lemma ProcessStays(rmcs: M.RMCs, m: M.Machine, act: M.Act)
    requires M.Enabled(rmcs, m, act) && IsAgentStep(act)
    requires !act.Startup? && !act.Crash? && !act.HostReboot? && !act.Tick?
    ensures var m' := M.Next(rmcs, m, act);
      !m'.pc.Down? && !m'.pc.Reporting?
  {
    match act
    case Finish(_, _, _, _) => ApplyEndsResting(rmcs, m, act);
    case Recheck(w) => MachineReboot(m, rmcs[m.desired].reboot.required, rmcs[m.desired].reboot, w);
    case WriteFile(fault, told) =>
      if Apply.ApplyFile(m.files, m.pc.todo[0], fault).ok {
      } else {
      }
    case _ =>
  }

  lemma StepKeepsOrderly(rmcs: M.RMCs, m: M.Machine, act: M.Act)
    requires M.Enabled(rmcs, m, act) && IsAgentStep(act) && Orderly(m)
    ensures Orderly(M.Next(rmcs, m, act))
  {
    if act.Startup? || act.Crash? || act.HostReboot? {
      ProcessComesAndGoes(rmcs, m, act);
    } else if !act.Tick? {
      ProcessStays(rmcs, m, act);
    }
  }

  /** Every step of a machine is a step of the protocol's agent on a node that reads as the machine
      has it, or none, and the node goes on reading so. */
  lemma StepMatches(rmcs: M.RMCs, n: Node, m: M.Machine, act: M.Act)
    requires M.Enabled(rmcs, m, act) && IsAgentStep(act) && Orderly(m) && P.FaceOf(n) == FaceOfMachine(m)
    ensures var m', a, it := M.Next(rmcs, m, act), AgentOf(m), ActOf(rmcs, m, act);
      if it.None? then P.FaceOf(n) == FaceOfMachine(m') && AgentOf(m') == a
      else
        && P.AgentEnabled(n, a, it.value)
        && P.FaceOf(P.AgentWrites(n, a, it.value)) == FaceOfMachine(m')
        && P.AgentMemory(n.desired, a, it.value) == AgentOf(m')
  {
    MachineStep(rmcs, m, act);
    var it := ActOf(rmcs, m, act);
    if it.Some? {
      assert P.AgentEnabled(n, AgentOf(m), it.value);
      AnnotationsOnly(n, AgentOf(m), it.value);
    }
  }

  /** The cluster shows a node as its machine has it. */
  ghost predicate Shows(c: P.Cluster, name: string, m: M.Machine)
  {
    name in c.nodes && name in c.agents && P.FaceOf(c.nodes[name]) == FaceOfMachine(m) && c.agents[name] == AgentOf(m)
  }

  /** So a cluster whose node is run by a machine makes the machine's step its own. */
  lemma ClusterFollows(c: P.Cluster, pool: NodeUpdate.Pool, rmcs: M.RMCs, name: string, m: M.Machine, act: M.Act)
    returns (steps: seq<P.Step>, c': P.Cluster)
    requires Shows(c, name, m) && Orderly(m) && M.Enabled(rmcs, m, act) && IsAgentStep(act)
    ensures Shows(c', name, M.Next(rmcs, m, act)) && Orderly(M.Next(rmcs, m, act))
    ensures if steps == [] then c' == c else |steps| == 1 && P.Enabled(c, pool, steps[0]) && c' == P.Next(c, pool, steps[0])
  {
    StepKeepsOrderly(rmcs, m, act);
    StepMatches(rmcs, c.nodes[name], m, act);
    var it := ActOf(rmcs, m, act);
    if it.None? {
      steps, c' := [], c;
    } else {
      steps := [P.AgentStep(name, it.value)];
      assert P.Enabled(c, pool, steps[0]);
      c' := P.Next(c, pool, steps[0]);
    }
  }

  /** And a handler, being a sequence of machine steps, is a run of the cluster. */
  lemma {:induction false} HandlerIsARun(c: P.Cluster, pool: NodeUpdate.Pool, rmcs: M.RMCs, name: string, m: M.Machine, acts: seq<M.Act>)
    returns (run: seq<P.Cluster>, steps: seq<P.Step>)
    requires Shows(c, name, m) && Orderly(m)
    requires forall i | 0 <= i < |acts| :: IsAgentStep(acts[i])
    requires M.Exec(rmcs, m, acts).Some?
    ensures P.IsRun(run, steps, pool) && run[0] == c
    ensures Shows(run[|run| - 1], name, M.Exec(rmcs, m, acts).value)
    decreases |acts|
  {
    if acts == [] {
      run, steps := [c], [];
    } else {
      var first, c' := ClusterFollows(c, pool, rmcs, name, m, acts[0]);
      run, steps := HandlerIsARun(c', pool, rmcs, name, M.Next(rmcs, m, acts[0]), acts[1..]);
      if first != [] {
        run, steps := RunOneEarlier(c, pool, first[0], run, steps);
      }
    }
  }

  lemma RunOneEarlier(c: P.Cluster, pool: NodeUpdate.Pool, step: P.Step, run: seq<P.Cluster>, steps: seq<P.Step>)
    returns (run': seq<P.Cluster>, steps': seq<P.Step>)
    requires P.IsRun(run, steps, pool) && P.Enabled(c, pool, step) && run[0] == P.Next(c, pool, step)
    ensures run' == [c] + run && steps' == [step] + steps && P.IsRun(run', steps', pool)
  {
    run', steps' := [c] + run, [step] + steps;
    forall i | 0 <= i < |steps'| ensures P.Enabled(run'[i], pool, steps'[i]) && run'[i + 1] == P.Next(run'[i], pool, steps'[i]) {
      if i > 0 {
        assert run'[i] == run[i - 1] && steps'[i] == steps[i - 1] && run'[i + 1] == run[i];
      }
    }
  }
}
