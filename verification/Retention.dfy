/** What deleting old rendered configs means for a rollout that goes on. */
module Retention {
  import opened Order
  import opened Nodes
  import opened NodeUpdate
  import opened Protocol
  import Cleanup

  /** Nobody runs, wants or is applying a revision. */
  ghost predicate Unwanted(c: Cluster, rev: string)
  {
    && (c.worklist != [] ==> c.target != rev)
    && (forall k | k in c.nodes :: c.nodes[k].desired != rev && c.nodes[k].current != rev)
    && (forall k | k in c.agents :: c.agents[k].working != Some(rev))
  }

  lemma ProcessedWants(seen: Node, live: Node, target: string, pool: Pool, io: Io)
    ensures var n := Processed(seen, live, target, pool, io);
      (n.desired == live.desired || n.desired == target) && n.current == live.current
  {
    if TakesShortcut(seen, pool) {
    } else if seen.desired != target {
    } else {
    }
  }

  lemma AgentWants(n: Node, a: Agent, desired: string, act: AgentAct, rev: string)
    requires act.Finish? ==> a.working.Some?
    requires n.desired != rev && n.current != rev && desired != rev && a.working != Some(rev)
    ensures var n', a' := AgentWrites(n, a, act), AgentMemory(desired, a, act);
      n'.desired != rev && n'.current != rev && a'.working != Some(rev)
  {
    if act.Recheck? {
      RebootFrame(FaceOf(n), act.reboot);
    } else if act.Finish? && act.outcome.Failure? {
      RebootFrame(FaceOf(n), act.outcome.reboot);
    } else if act.Finish? && act.outcome.RebootAwaited? {
      RebootFrame(FaceOf(n), act.outcome.reboot);
    }
  }

  lemma StepKeepsUnwanted(c: Cluster, pool: Pool, step: Step, rev: string)
    requires Unwanted(c, rev) && Enabled(c, pool, step)
    requires step.StartReconcile? ==> step.target != rev
    requires step.StaleStep? && !step.act.FetchFailed? ==> step.seen.desired != rev
    ensures Unwanted(Next(c, pool, step), rev)
  {
    match step
    case ProcessNext(lsr, io) =>
      var seen := c.worklist[0];
      ProcessedWants(seen, c.nodes[seen.name], c.target, pool.(hasLastSuccessfulRevision := lsr), io);
    case AgentStep(name, act) => AgentWants(c.nodes[name], c.agents[name], c.nodes[name].desired, act, rev);
    case StaleStep(name, seen, act) =>
      AgentWants(c.nodes[name], c.agents[name], if act.FetchFailed? then c.nodes[name].desired else seen.desired, act, rev);
    case _ =>
  }

  /** A config that a cleanup deleted is never again the revision of a node, desired or current, for as long
      as the target stays: not in any run, unless some agent was applying it when it went.  Stale events may
      be of any age; one that names a deleted config fails to fetch it. */
  lemma {:induction false} DeletedStaysUnwanted(
    run: seq<Cluster>, steps: seq<Step>, pool: Pool, listing: seq<Node>, target: string,
    rmcs: seq<Cleanup.Rendered>, limit: int, gone: set<Cleanup.Rendered>, failed: Option<Cleanup.Rendered>, r: Cleanup.Rendered)
    requires IsRun(run, steps, pool)
    requires forall i | 0 <= i < |steps| && steps[i].StaleStep? && !steps[i].act.FetchFailed? :: steps[i].seen.desired != r.name
    requires IsListing(listing, run[0].nodes) && Cleanup.IsCleanup(rmcs, target, listing, limit, gone, failed)
    requires r in gone && r.name != ""
    requires run[0].worklist != [] ==> run[0].target == target
    requires forall i | 0 <= i < |steps| :: steps[i].StartReconcile? ==> steps[i].target == target
    requires forall k | k in run[0].agents :: run[0].agents[k].working != Some(r.name)
    ensures forall i | 0 <= i < |run| :: Unwanted(run[i], r.name)
  {
    Cleanup.CleanupSparesTheRollout(rmcs, target, listing, limit, gone, failed);
    forall k | k in run[0].nodes ensures run[0].nodes[k].desired != r.name && run[0].nodes[k].current != r.name {
      assert k in Names(listing);
      var j :| 0 <= j < |listing| && listing[j].name == k;
    }
    var i := 0;
    while i < |steps|
      invariant 0 <= i <= |steps|
      invariant forall j | 0 <= j <= i :: Unwanted(run[j], r.name)
    {
      StepKeepsUnwanted(run[i], pool, steps[i], r.name);
      i := i + 1;
    }
  }

  /** The exception is real: an agent that is applying a deleted revision goes on to report it. */
  lemma AtWorkReportsDeleted(c: Cluster, pool: Pool, k: string, rev: string)
    requires k in c.nodes && k in c.agents && c.agents[k].working == Some(rev)
    ensures var report := AgentStep(k, Finish(Success(true)));
      Enabled(c, pool, report) && Next(c, pool, report).nodes[k].current == rev
  {
  }
}
