/** What an event that the watch queued earlier can do (internal/agent/agent.go).

The watch loop handles one event at a time, so while an apply runs the events of the agent's own
patches queue up behind it, showing the node as it was. */
module StaleEvents {
  import opened Order
  import opened Nodes
  import opened Rollout
  import opened NodeUpdate
  import opened Protocol

  /** A step that decides from an old copy keeps a count within the bound exactly when it takes no
      available node or the bound leaves room for one. */
  lemma StaleStepBound(c: Cluster, pool: Pool, step: Step, bound: int)
    requires Shape(c) && step.StaleStep? && Enabled(c, pool, step) && |Unavailable(c.nodes)| <= bound
    ensures |Unavailable(Next(c, pool, step).nodes)| <= bound
       <==> !TakesNode(c.nodes[step.name], step.act) || |Unavailable(c.nodes)| < bound
  {
    var name, c' := step.name, Next(c, pool, step);
    StaleFrame(c.nodes[name], c.agents[name], step.seen.desired, step.act);
    var before, after := Unavailable(c.nodes), Unavailable(c'.nodes);
    if TakesNode(c.nodes[name], step.act) {
      assert after == before + {name};
    } else {
      SubsetSize(after, before);
    }
  }

  /** What an idle agent with no reboot to await makes of an event, when it can fetch the revision. */
  ghost function Handled(c: Cluster, pool: Pool, name: string, seen: Node): Cluster
    requires name in c.nodes && name in c.agents && c.agents[name].working.None? && !AwaitsReboot(seen, c.agents[name])
  {
    if WantsWork(seen) then Next(c, pool, StaleStep(name, seen, Begin)) else c
  }

  /** For a node that is available now, the count stays within the bound exactly when the copy in the
      event shows no work or the bound leaves room. */
  lemma StaleEventBound(c: Cluster, pool: Pool, name: string, seen: Node, bound: int)
    requires Shape(c) && name in c.nodes && c.agents[name].working.None? && !AwaitsReboot(seen, c.agents[name])
    requires !c.nodes[name].paused && !OutOfService(c.nodes[name]) && |Unavailable(c.nodes)| <= bound
    ensures |Unavailable(Handled(c, pool, name, seen).nodes)| <= bound
       <==> !WantsWork(seen) || |Unavailable(c.nodes)| < bound
  {
    if WantsWork(seen) {
      StaleStepBound(c, pool, StaleStep(name, seen, Begin), bound);
    }
  }

  // ------------------------------------------------------------- a run over the budget

  const POOL := Pool("worker", None, 0, 0, true)

  const CALM := Io(0, true, true, true, true, true, true, true, true, true)

  function Plain(name: string): Node
  {
    Node(name, "", 0, false, [], "", "worker", NoStamp, false, NoStamp, 0, "a", Idle, false, false, false)
  }

  /** The first node as its own `applying` report shows it, the second still to be updated. */
  const REPORTED := Plain("n1").(unschedulable := true, cordoned := true, desired := "b", state := Applying)

  const DONE := REPORTED.(state := Done, current := "b")

  const OPENED := DONE.(unschedulable := false, cordoned := false)

  /** A listing of the two nodes names each once. */
  lemma TwoListed(a: Node, b: Node, nodes: map<string, Node>)
    requires a.name == "n1" && b.name == "n2" && nodes == map["n1" := a, "n2" := b]
    ensures IsListing([a, b], nodes)
  {
    assert Names([a, b]) == {"n1", "n2"} by {
      assert a in [a, b] && b in [a, b];
    }
  }

  /** A filter over two elements. */
  lemma FilterTwo<T>(a: T, b: T, p: T -> bool)
    ensures Filter([a, b], p) == (if p(a) then [a] else []) + (if p(b) then [b] else [])
    ensures Count([a, b], p) == (if p(a) then 1 else 0) + (if p(b) then 1 else 0)
  {
    assert [a, b][..1] == [a] && [a][..0] == [];
    assert Filter([a], p) == if p(a) then [a] else [];
    assert Count([a], p) == if p(a) then 1 else 0;
  }

  lemma ContinuingTwo(a: Node, b: Node, target: string)
    ensures Continuing([a, b], target) == (if InProgress(a, target) then [a] else []) + (if InProgress(b, target) then [b] else [])
  {
    FilterTwo(a, b, n => InProgress(n, target));
  }

  lemma SelectedOfTwo(a: Node, b: Node, target: string)
    requires !IsNodeUnavailable(a) && !Eligible(a, target) && Eligible(b, target)
    ensures Selected([a, b], target, 1) == [b]
  {
    FilterTwo(a, b, n => Eligible(n, target));
    FilterTwo(a, b, IsNodeUnavailable);
    assert [b][1..] == [] && Sort([b], UpdateBefore) == [b];
    assert Filter([a, b], n => Eligible(n, target)) == [b];
    var cs := Candidates([a, b], target);
    assert cs == [b];
    assert Slots([a, b], 1) >= 1;
    assert cs[..1] == [b];
  }

  lemma NoneSelectedOfTwo(a: Node, b: Node, target: string)
    requires IsNodeUnavailable(a)
    ensures Selected([a, b], target, 1) == []
  {
    FilterTwo(a, b, IsNodeUnavailable);
  }

  /** What a reconcile makes of the two nodes while the first is done and still cordoned, and after. */
  lemma TwoWorklists()
    ensures Worklist([DONE, Plain("n2")], "b", 1) == [DONE]
    ensures Worklist([OPENED, Plain("n2")], "b", 1) == [Plain("n2")]
  {
    ContinuingTwo(DONE, Plain("n2"), "b");
    NoneSelectedOfTwo(DONE, Plain("n2"), "b");
    ContinuingTwo(OPENED, Plain("n2"), "b");
    SelectedOfTwo(OPENED, Plain("n2"), "b");
  }

  /** The clusters passed through, up to the stale event. */
  function At(n1: Node, a1: Agent, n2: Node, worklist: seq<Node>): Cluster
  {
    Cluster(map["n1" := n1, "n2" := n2], map["n1" := a1, "n2" := Agent(None, "")], worklist, "b", {})
  }

  const IDLE := Agent(None, "")

  const CORDONED := Plain("n2").(unschedulable := true, cordoned := true)

  function StepAt(i: nat): Step
    requires i < 6
  {
    match i
    case 0 => AgentStep("n1", Finish(Success(true)))
    case 1 => StartReconcile("b", [DONE, Plain("n2")])
    case 2 => ProcessNext(true, CALM)
    case 3 => StartReconcile("b", [OPENED, Plain("n2")])
    case 4 => ProcessNext(true, CALM)
    case _ => StaleStep("n1", REPORTED, Begin)
  }

  function ClusterAt(i: nat): Cluster
    requires i <= 6
  {
    match i
    case 0 => At(REPORTED, Agent(Some("b"), ""), Plain("n2"), [])
    case 1 => At(DONE, IDLE, Plain("n2"), [])
    case 2 => At(DONE, IDLE, Plain("n2"), [DONE])
    case 3 => At(OPENED, IDLE, Plain("n2"), [])
    case 4 => At(OPENED, IDLE, Plain("n2"), [Plain("n2")])
    case 5 => At(OPENED, IDLE, CORDONED, [])
    case _ => At(OPENED.(state := Applying), Agent(Some("b"), ""), CORDONED, [])
  }

  ghost predicate StepsTo(i: nat)
    requires i < 6
  {
    Enabled(ClusterAt(i), POOL, StepAt(i)) && Next(ClusterAt(i), POOL, StepAt(i)) == ClusterAt(i + 1)
  }

  lemma AgentReports()
    ensures StepsTo(0)
  {
    assert ClusterAt(1).nodes == ClusterAt(0).nodes["n1" := DONE];
    assert ClusterAt(1).agents == ClusterAt(0).agents["n1" := IDLE];
  }

  lemma ControllerListsTheFirst()
    ensures StepsTo(1)
  {
    TwoListed(DONE, Plain("n2"), ClusterAt(1).nodes);
    TwoWorklists();
  }

  lemma ControllerOpensTheFirst()
    ensures StepsTo(2)
  {
    assert Drained(DONE);
    assert Processed(DONE, DONE, "b", POOL, CALM) == OPENED;
    assert ClusterAt(3).nodes == ClusterAt(2).nodes["n1" := OPENED];
  }

  lemma ControllerListsTheSecond()
    ensures StepsTo(3)
  {
    TwoListed(OPENED, Plain("n2"), ClusterAt(3).nodes);
    TwoWorklists();
  }

  lemma ControllerCordonsTheSecond()
    ensures StepsTo(4)
  {
    assert ClusterAt(5).nodes == ClusterAt(4).nodes["n2" := CORDONED];
  }

  lemma AgentBeginsAgain()
    ensures StepsTo(5)
  {
    assert ClusterAt(6).nodes == ClusterAt(5).nodes["n1" := OPENED.(state := Applying)];
    assert ClusterAt(6).agents == ClusterAt(5).agents["n1" := Agent(Some("b"), "")];
  }

  ghost predicate WithinBudgetAndDrained(c: Cluster)
  {
    Safe(c) && c.worklist == [] && Budget(c, POOL) == 1 && Unavailable(c.nodes) == {"n1"}
  }

  lemma StartsSafe()
    ensures WithinBudgetAndDrained(ClusterAt(0))
  {
    var c := ClusterAt(0);
    assert c.nodes.Keys == {"n1", "n2"} && c.nodes["n1"] == REPORTED && c.nodes["n2"] == Plain("n2");
    assert Drained(REPORTED) && !IsNodeUnavailable(Plain("n2")) && IsNodeUnavailable(REPORTED);
    assert Protected(REPORTED) && !Busy(Plain("n2"), IDLE);
  }

  /** Two nodes unavailable, and the first being changed while it is open to pods. */
  ghost predicate OverBudgetAndExposed(c: Cluster)
  {
    && Unavailable(c.nodes) == {"n1", "n2"} && |Unavailable(c.nodes)| == 2
    && "n1" in c.nodes && "n1" in c.agents && "n1" !in c.shortcut
    && Busy(c.nodes["n1"], c.agents["n1"]) && !Protected(c.nodes["n1"])
  }

  lemma EndsOverBudget()
    ensures OverBudgetAndExposed(ClusterAt(6))
  {
  }

  lemma AllStep(i: nat)
    requires i < 6
    ensures StepsTo(i)
  {
    match i
    case 0 => AgentReports();
    case 1 => ControllerListsTheFirst();
    case 2 => ControllerOpensTheFirst();
    case 3 => ControllerListsTheSecond();
    case 4 => ControllerCordonsTheSecond();
    case _ => AgentBeginsAgain();
  }

  /** The clusters and steps, listed. */
  ghost predicate IsTheRun(run: seq<Cluster>, steps: seq<Step>)
  {
    && |run| == 7 && (forall i | 0 <= i < 7 :: run[i] == ClusterAt(i))
    && |steps| == 6 && (forall i | 0 <= i < 6 :: steps[i] == StepAt(i))
  }

  lemma StepOfTheRun(run: seq<Cluster>, steps: seq<Step>, i: nat)
    requires IsTheRun(run, steps) && i < 6
    ensures Enabled(run[i], POOL, steps[i]) && run[i + 1] == Next(run[i], POOL, steps[i])
    ensures steps[i].StaleStep? ==> steps[i].name in run[0].nodes && run[0].nodes[steps[i].name] == steps[i].seen
  {
    AllStep(i);
    assert run[0] == ClusterAt(0) && run[0].nodes["n1"] == REPORTED;
  }

  lemma TheRunExceedsBudget(run: seq<Cluster>, steps: seq<Step>)
    requires IsTheRun(run, steps)
    ensures IsRun(run, steps, POOL) && CopiesAreQueued(run, steps)
    ensures WithinBudgetAndDrained(run[0]) && OverBudgetAndExposed(run[6])
  {
    forall i | 0 <= i < 6
      ensures Enabled(run[i], POOL, steps[i]) && run[i + 1] == Next(run[i], POOL, steps[i])
      ensures steps[i].StaleStep? ==> steps[i].name in run[0].nodes && run[0].nodes[steps[i].name] == steps[i].seen
    {
      StepOfTheRun(run, steps, i);
    }
    assert run[0] == ClusterAt(0) && run[6] == ClusterAt(6);
    StartsSafe();
    EndsOverBudget();
  }

  /** A budget of one and two nodes.  The first node's agent reports `applying` and then done, the
      controller opens the node and cordons the second, and only then does the first agent come to the
      event of its own `applying` report: it begins again. */
  lemma StaleEventExceedsBudget() returns (run: seq<Cluster>, steps: seq<Step>)
    ensures IsRun(run, steps, POOL) && CopiesAreQueued(run, steps)
    ensures WithinBudgetAndDrained(run[0]) && OverBudgetAndExposed(run[|run| - 1])
  {
    run, steps := seq(7, i requires 0 <= i < 7 => ClusterAt(i)), seq(6, i requires 0 <= i < 6 => StepAt(i));
    TheRunExceedsBudget(run, steps);
  }
}
