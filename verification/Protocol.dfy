/** The rollout protocol: one controller and one agent per node, interleaved.

A reconcile lists the nodes once and then processes its worklist one node at a time; between any
two of those writes every agent may take a step.  An agent handles an event in two writes: it first
reports `applying`, later the outcome; a restart of the agent is one step.  What is fixed over a run: the set of nodes, the budget, and
the human inputs but for force-reboot (`paused`, a manual cordon).  An agent may also handle an event that
its watch queued earlier, deciding from the copy of the node in that event while it writes to the
stored node.  The target may change at every reconcile, writes may fail, agents may fail, crash and reboot, and pods come and go, except that nothing is scheduled
onto an unschedulable node. */
module Protocol {
  import opened Order
  import opened Nodes
  import opened Rollout
  import opened NodeUpdate

  /** An agent process: the revision it is busy applying and the one it awaits a reboot for. */
  datatype Agent = Agent(working: Option<string>, pendingReboot: string)

  /** What the agent writes around a reboot; of the writes that go with an execution, any may fail. */
  datatype RebootWrites = NoWrites | MarkPending | Execute(stateOk: bool, forceOk: bool, pendingOk: bool)

  /** How an apply ends; `told` says whether the report of it reaches the node. */
  datatype Outcome = Failure(reboot: RebootWrites, told: bool) | Success(told: bool) | RebootAwaited(reboot: RebootWrites)

  datatype AgentAct =
    | Begin
    | FetchFailed
    | Finish(outcome: Outcome)
    | Recheck(reboot: RebootWrites)
    | Crash(unmarked: bool)
    | Restart(rebootSeen: bool, told: bool, idleOk: bool)

  datatype Cluster = Cluster(
    nodes: map<string, Node>,
    agents: map<string, Agent>,
    worklist: seq<Node>,      // listed nodes the current reconcile has yet to process
    target: string,           // the revision that reconcile rolls out
    shortcut: set<string>)    // nodes let in without a drain that have not yet reached a revision

  datatype Step =
    | StartReconcile(target: string, listing: seq<Node>)
    | ProcessNext(hasLastSuccessfulRevision: bool, io: Io)
    | AbortReconcile
    | AgentStep(name: string, act: AgentAct)
    | StaleStep(name: string, seen: Node, act: AgentAct)
    | ChangePods(name: string, pods: seq<Pod>)
    | ForceReboot(name: string)   // a person

  /** A list request answers with every node once. */
  ghost predicate IsListing(listing: seq<Node>, nodes: map<string, Node>)
  {
    && NamesDistinct(listing)
    && Names(listing) == nodes.Keys
    && forall n | n in listing :: n.name in nodes && nodes[n.name] == n
  }

  /** handleNodeUpdate goes past its guards: there is a revision to reach. */
  predicate WantsWork(n: Node)
  {
    !n.paused && n.desired != "" && n.desired != n.current
  }

  predicate AwaitsReboot(n: Node, a: Agent)
  {
    a.pendingReboot == n.desired || n.rebootPending
  }

  predicate AgentEnabled(n: Node, a: Agent, act: AgentAct)
  {
    match act
    case Begin => a.working.None? && WantsWork(n) && !AwaitsReboot(n, a)
    case FetchFailed => a.working.None? && WantsWork(n) && !AwaitsReboot(n, a)
    case Finish(_) => a.working.Some?
    case Recheck(_) => a.working.None? && WantsWork(n) && AwaitsReboot(n, a)
    case Crash(_) => true
    case Restart(_, _, _) => true
  }

  /** The annotations an agent reads or writes. */
  datatype Face = Face(desired: string, current: string, state: AgentState, paused: bool, rebootPending: bool, forceReboot: bool)

  function FaceOf(n: Node): Face
  {
    Face(n.desired, n.current, n.state, n.paused, n.rebootPending, n.forceReboot)
  }

  function WriteReboot(f: Face, reboot: RebootWrites): Face
  {
    match reboot
    case NoWrites => f
    case MarkPending => f.(rebootPending := true)
    case Execute(stateOk, forceOk, pendingOk) =>
      f.(state := if stateOk then Rebooting else f.state,
         forceReboot := f.forceReboot && !forceOk,
         rebootPending := f.rebootPending && !pendingOk)
  }

  /** What a step of the agent writes to the annotations. */
  function Annotate(f: Face, a: Agent, act: AgentAct): Face
    requires act.Finish? ==> a.working.Some?
  {
    match act
    case Begin => f.(state := Applying)
    case FetchFailed => f.(state := Failed)
    case Finish(Failure(reboot, told)) =>
      var g := WriteReboot(f, reboot);
      if told then g.(state := Failed) else g
    case Finish(Success(told)) => if told then f.(state := Done, current := a.working.value) else f
    case Finish(RebootAwaited(reboot)) => WriteReboot(f, reboot)
    case Recheck(reboot) => WriteReboot(f, reboot)
    case Crash(unmarked) => f.(rebootPending := f.rebootPending && !unmarked)
    case Restart(rebootSeen, told, idleOk) =>
      var reports := f.rebootPending && rebootSeen && f.desired != "" && told;
      f.(rebootPending := f.rebootPending && !rebootSeen,
         current := if reports then f.desired else f.current,
         state := if idleOk then Idle else if reports then Done else f.state)
  }

  /** A node with the annotations a step of its agent leaves. */
  function AgentWrites(n: Node, a: Agent, act: AgentAct): Node
    requires act.Finish? ==> a.working.Some?
  {
    var f := Annotate(FaceOf(n), a, act);
    n.(current := f.current, state := f.state, rebootPending := f.rebootPending, forceReboot := f.forceReboot)
  }

  /** What a step of the agent leaves in its own memory. */
  function AgentMemory(desired: string, a: Agent, act: AgentAct): Agent
    requires act.Finish? ==> a.working.Some?
  {
    match act
    case Begin => a.(working := Some(desired))
    case FetchFailed => a
    case Finish(Failure(_, _)) => a.(working := None)
    case Finish(Success(_)) => Agent(None, "")
    case Finish(RebootAwaited(_)) => Agent(None, a.working.value)
    case Recheck(_) => a
    case Crash(_) => Agent(None, "")
    case Restart(_, _, _) => Agent(None, "")
  }

  /** The acts that a node event sets off. */
  predicate AnswersEvent(act: AgentAct)
  {
    act.Begin? || act.FetchFailed? || act.Recheck?
  }

  /** Nothing new is scheduled onto an unschedulable node; its pods may only go. */
  ghost predicate PodsMayBecome(n: Node, pods: seq<Pod>)
  {
    n.unschedulable ==> multiset(Evictable(pods)) <= multiset(Evictable(n.pods))
  }

  ghost predicate Enabled(c: Cluster, pool: Pool, step: Step)
  {
    match step
    case StartReconcile(_, listing) => c.worklist == [] && IsListing(listing, c.nodes)
    case ProcessNext(_, _) => c.worklist != [] && c.worklist[0].name in c.nodes
    case AbortReconcile => true
    case AgentStep(name, act) =>
      name in c.nodes && name in c.agents && AgentEnabled(c.nodes[name], c.agents[name], act)
    case StaleStep(name, seen, act) =>
      name in c.nodes && name in c.agents && AnswersEvent(act) && AgentEnabled(seen, c.agents[name], act)
    case ChangePods(name, pods) => name in c.nodes && PodsMayBecome(c.nodes[name], pods)
    case ForceReboot(name) => name in c.nodes
  }

  function Budget(c: Cluster, pool: Pool): int
  {
    CalculateMaxUnavailable(pool.maxUnavailable, |c.nodes|)
  }

  /** The cluster after an act of a node's agent that takes `desired` for the revision to reach. */
  function AgentMoves(c: Cluster, name: string, desired: string, act: AgentAct): Cluster
    requires name in c.nodes && name in c.agents && (act.Finish? ==> c.agents[name].working.Some?)
  {
    var n := AgentWrites(c.nodes[name], c.agents[name], act);
    var a := AgentMemory(desired, c.agents[name], act);
    c.(nodes := c.nodes[name := n], agents := c.agents[name := a],
       shortcut := if n.desired == n.current && a.working.None? then c.shortcut - {name} else c.shortcut)
  }

  ghost function Next(c: Cluster, pool: Pool, step: Step): Cluster
    requires Enabled(c, pool, step)
  {
    match step
    case StartReconcile(target, listing) =>
      c.(target := target, worklist := Worklist(listing, target, CalculateMaxUnavailable(pool.maxUnavailable, |listing|)))
    case ProcessNext(lsr, io) =>
      var seen := c.worklist[0];
      var pool' := pool.(hasLastSuccessfulRevision := lsr);
      c.(worklist := c.worklist[1..],
         nodes := c.nodes[seen.name := Processed(seen, c.nodes[seen.name], c.target, pool', io)],
         shortcut := if TakesShortcut(seen, pool') && io.desiredOk then c.shortcut + {seen.name} else c.shortcut)
    case AbortReconcile => c.(worklist := [])
    case AgentStep(name, act) => AgentMoves(c, name, c.nodes[name].desired, act)
    case StaleStep(name, seen, act) => AgentMoves(c, name, seen.desired, act)
    case ChangePods(name, pods) => c.(nodes := c.nodes[name := c.nodes[name].(pods := pods)])
    case ForceReboot(name) => c.(nodes := c.nodes[name := c.nodes[name].(forceReboot := true)])
  }

  /** A run: a first cluster and the steps taken from it. */
  ghost predicate IsRun(run: seq<Cluster>, steps: seq<Step>, pool: Pool)
  {
    && |run| == |steps| + 1
    && forall i | 0 <= i < |steps| :: Enabled(run[i], pool, steps[i]) && run[i + 1] == Next(run[i], pool, steps[i])
  }

  /** Every stale copy is an earlier state of its node in the run. */
  ghost predicate CopiesAreQueued(run: seq<Cluster>, steps: seq<Step>)
    requires |run| == |steps| + 1
  {
    forall i | 0 <= i < |steps| && steps[i].StaleStep? ::
      exists j | 0 <= j <= i :: steps[i].name in run[j].nodes && run[j].nodes[steps[i].name] == steps[i].seen
  }

  /** A run of the cluster, by live steps only, from one cluster to another. */
  ghost predicate Leads(clusters: seq<Cluster>, steps: seq<Step>, pool: Pool, from: Cluster, to: Cluster)
  {
    && IsRun(clusters, steps, pool) && clusters[0] == from && clusters[|clusters| - 1] == to
    && forall i | 0 <= i < |steps| :: !steps[i].StaleStep?
  }

  lemma OneStepLater(clusters: seq<Cluster>, steps: seq<Step>, pool: Pool, from: Cluster, to: Cluster, step: Step)
    requires Leads(clusters, steps, pool, from, to) && Enabled(to, pool, step) && !step.StaleStep?
    ensures Leads(clusters + [Next(to, pool, step)], steps + [step], pool, from, Next(to, pool, step))
  {
    var cs, ss := clusters + [Next(to, pool, step)], steps + [step];
    forall i | 0 <= i < |ss| ensures Enabled(cs[i], pool, ss[i]) && cs[i + 1] == Next(cs[i], pool, ss[i]) {
      if i < |steps| {
        assert cs[i] == clusters[i] && cs[i + 1] == clusters[i + 1] && ss[i] == steps[i];
      }
    }
  }

  // ---------------------------------------------------------------- the budget

  ghost function Unavailable(nodes: map<string, Node>): set<string>
  {
    set k | k in nodes && OutOfService(nodes[k])
  }

  /** The nodes that are, or that the running reconcile is about to make, unavailable. */
  ghost function Claimed(c: Cluster): set<string>
  {
    Unavailable(c.nodes) + Names(c.worklist)
  }

  /** Facts about names and agents that every step keeps. */
  ghost predicate Shape(c: Cluster)
  {
    && c.agents.Keys == c.nodes.Keys
    && (forall k | k in c.nodes :: c.nodes[k].name == k)
    && (forall k | k in c.nodes :: c.agents[k].working.Some? ==> c.nodes[k].state.Applying?)
    && Names(c.worklist) <= c.nodes.Keys
    && NamesDistinct(c.worklist)
  }

  lemma {:induction false} NamesSize(list: seq<Node>)
    requires NamesDistinct(list)
    ensures |Names(list)| == |list|
  {
    if list != [] {
      var front, last := list[..|list| - 1], list[|list| - 1];
      NamesSize(front);
      assert list == front + [last];
      assert Names(list) == Names(front) + {last.name};
      assert last.name !in Names(front);
    }
  }

  lemma StartKeepsShape(c: Cluster, pool: Pool, target: string, listing: seq<Node>)
    requires Shape(c) && Enabled(c, pool, StartReconcile(target, listing))
    ensures Shape(Next(c, pool, StartReconcile(target, listing)))
    ensures var c' := Next(c, pool, StartReconcile(target, listing));
      forall w | w in c'.worklist :: w.name in c.nodes && w == c.nodes[w.name]
  {
    WorklistDistinct(listing, target, CalculateMaxUnavailable(pool.maxUnavailable, |listing|));
  }

  /** The fields of a node that no agent writes. */
  predicate SameControl(n: Node, m: Node)
  {
    && n.name == m.name && n.unschedulable == m.unschedulable && n.pods == m.pods && n.paused == m.paused
    && n.desired == m.desired && n.cordoned == m.cordoned && n.drainStartedAt == m.drainStartedAt
  }

  lemma RebootFrame(f: Face, reboot: RebootWrites)
    ensures var f' := WriteReboot(f, reboot);
      f'.desired == f.desired && f'.current == f.current && (f'.state == f.state || f'.state == Rebooting)
  {
  }

  /** Busy and unavailable only if it was before. */
  ghost predicate NoNewBusiness(n: Node, a: Agent, n': Node, a': Agent)
  {
    && SameControl(n, n')
    && (a'.working.Some? ==> n'.state.Applying?)
    && (Busy(n', a') ==> Busy(n, a))
    && (OutOfService(n') ==> OutOfService(n))
  }

  lemma FinishFrame(n: Node, a: Agent, outcome: Outcome)
    requires AgentEnabled(n, a, Finish(outcome)) && n.state.Applying?
    ensures NoNewBusiness(n, a, AgentWrites(n, a, Finish(outcome)), AgentMemory(n.desired, a, Finish(outcome)))
  {
    match outcome
    case Failure(reboot, told) => RebootFrame(FaceOf(n), reboot);
    case Success(told) =>
    case RebootAwaited(reboot) => RebootFrame(FaceOf(n), reboot);
  }

  lemma RestartFrame(n: Node, a: Agent, act: AgentAct)
    requires act.Restart?
    ensures NoNewBusiness(n, a, AgentWrites(n, a, act), AgentMemory(n.desired, a, act))
  {
    var n' := AgentWrites(n, a, act);
    assert SameControl(n, n') && (n'.current == n.current || n'.current == n.desired);
    assert n'.state == n.state || n'.state == Idle || n'.state == Done;
  }

  /** An agent leaves the controller's and the human's fields alone, and creates no new business. */
  lemma AgentFrame(n: Node, a: Agent, act: AgentAct)
    requires AgentEnabled(n, a, act)
    requires a.working.Some? ==> n.state.Applying?
    ensures NoNewBusiness(n, a, AgentWrites(n, a, act), AgentMemory(n.desired, a, act))
  {
    match act
    case Finish(outcome) => FinishFrame(n, a, outcome);
    case Recheck(reboot) => RebootFrame(FaceOf(n), reboot);
    case Restart(_, _, _) => RestartFrame(n, a, act);
    case _ =>
  }

  /** An agent that decides from an old copy still leaves the other parties' fields alone; what it may do
      is to make an available node unavailable, or busy. */
  lemma StaleFrame(n: Node, a: Agent, desired: string, act: AgentAct)
    requires AnswersEvent(act) && a.working.None?
    ensures var n', a' := AgentWrites(n, a, act), AgentMemory(desired, a, act);
      && SameControl(n, n')
      && (a'.working.Some? <==> act.Begin?) && (act.Begin? ==> n'.state.Applying?)
      && (Busy(n', a') <==> Busy(n, a) || act.Begin?)
      && (OutOfService(n') ==> OutOfService(n) || TakesNode(n, act))
      && (TakesNode(n, act) ==> OutOfService(n'))
  {
    if act.Recheck? {
      RebootFrame(FaceOf(n), act.reboot);
    }
  }

  /** The act takes an available node. */
  predicate TakesNode(n: Node, act: AgentAct)
  {
    && !n.paused && !OutOfService(n)
    && (act.Begin? || (act.Recheck? && act.reboot.Execute? && act.reboot.stateOk))
  }

  /** The controller writes no annotation that an agent writes. */
  lemma ControllerLeavesFaces(seen: Node, live: Node, target: string, pool: Pool, io: Io)
    ensures var n := Processed(seen, live, target, pool, io);
      && n.current == live.current && n.state == live.state && n.paused == live.paused
      && n.rebootPending == live.rebootPending && n.forceReboot == live.forceReboot
      && (n.desired == live.desired || n.desired == target)
  {
    if TakesShortcut(seen, pool) {
    } else if !IsNodeCordoned(seen) {
    } else if !io.listPodsOk {
    } else if !Drained(live) {
    } else if seen.desired != target {
    } else {
    }
  }

  lemma {:induction false} ProcessedKeepsName(seen: Node, live: Node, target: string, pool: Pool, io: Io)
    ensures var n := Processed(seen, live, target, pool, io);
      n.name == live.name && n.state == live.state && n.pods == live.pods
  {
    if TakesShortcut(seen, pool) {
    } else if !IsNodeCordoned(seen) {
    } else if !io.listPodsOk {
    } else if !Drained(live) {
    } else if seen.desired != target {
    } else {
    }
  }

  lemma StepKeepsShape(c: Cluster, pool: Pool, step: Step)
    requires Shape(c) && Enabled(c, pool, step)
    ensures Shape(Next(c, pool, step))
    ensures Next(c, pool, step).nodes.Keys == c.nodes.Keys
  {
    match step
    case StartReconcile(target, listing) => StartKeepsShape(c, pool, target, listing);
    case ProcessNext(lsr, io) => ProcessKeepsShape(c, pool, lsr, io);
    case AbortReconcile =>
    case AgentStep(name, act) => AgentFrame(c.nodes[name], c.agents[name], act);
    case StaleStep(name, seen, act) => StaleFrame(c.nodes[name], c.agents[name], seen.desired, act);
    case ChangePods(name, pods) =>
    case ForceReboot(name) =>
  }

  lemma ProcessKeepsShape(c: Cluster, pool: Pool, lsr: bool, io: Io)
    requires Shape(c) && Enabled(c, pool, ProcessNext(lsr, io))
    ensures Shape(Next(c, pool, ProcessNext(lsr, io)))
    ensures Next(c, pool, ProcessNext(lsr, io)).nodes.Keys == c.nodes.Keys
  {
    var seen := c.worklist[0];
    ProcessedKeepsName(seen, c.nodes[seen.name], c.target, pool.(hasLastSuccessfulRevision := lsr), io);
    assert Names(c.worklist[1..]) <= Names(c.worklist);
  }

  /** In a listing, the unavailable nodes are counted one by one. */
  lemma ListingCounts(listing: seq<Node>, nodes: map<string, Node>)
    requires IsListing(listing, nodes)
    ensures UnavailableCount(listing) == |Unavailable(nodes)|
    ensures |listing| == |nodes|
  {
    NamesSize(listing);
    assert |nodes| == |nodes.Keys|;
    var down := Filter(listing, OutOfService);
    CountSame(listing, IsNodeUnavailable, OutOfService);
    FilterMembers(listing, OutOfService);
    FilterKeepsNamesDistinct(listing, OutOfService);
    NamesSize(down);
    forall k | k in Unavailable(nodes) ensures k in Names(down) {
      assert k in Names(listing);
    }
    assert Names(down) == Unavailable(nodes);
  }

  /** What a reconcile starts or continues fits beside what is already unavailable. */
  lemma WorklistFits(listing: seq<Node>, nodes: map<string, Node>, target: string, budget: int)
    requires IsListing(listing, nodes)
    ensures var all := Unavailable(nodes) + Names(Worklist(listing, target, budget));
      |all| <= Max(|Unavailable(nodes)|, budget)
  {
    var cont, sel := Continuing(listing, target), Selected(listing, target, budget);
    ListingCounts(listing, nodes);
    SelectionMeetsSpec(listing, target, budget);
    NamesSize(sel);
    assert Names(cont) <= Unavailable(nodes) by {
      FilterMembers(listing, n => InProgress(n, target));
    }
    assert Names(cont + sel) == Names(cont) + Names(sel);
    FitsBeside(Unavailable(nodes), Names(cont), Names(sel), budget);
  }

  lemma FitsBeside(u: set<string>, cont: set<string>, sel: set<string>, budget: int)
    requires cont <= u && (|sel| <= budget - |u| || |sel| == 0)
    ensures |u + (cont + sel)| <= Max(|u|, budget)
  {
    assert u + (cont + sel) == u + sel;
    assert |u + sel| <= |u| + |sel|;
  }

  /** Starting a reconcile claims no more than the budget leaves free. */
  lemma StartClaims(c: Cluster, pool: Pool, target: string, listing: seq<Node>)
    requires Enabled(c, pool, StartReconcile(target, listing))
    ensures var c' := Next(c, pool, StartReconcile(target, listing));
      |Claimed(c')| <= Max(|Unavailable(c.nodes)|, Budget(c, pool))
  {
    ListingCounts(listing, c.nodes);
    WorklistFits(listing, c.nodes, target, Budget(c, pool));
  }

  /** A stale copy that shows work meets a node that is still claimed.  (A failed fetch takes no node.) */
  ghost predicate MeetsClaimed(c: Cluster, step: Step)
  {
    step.StaleStep? && !step.act.FetchFailed? ==> step.name in Claimed(c)
  }

  /** No other step adds to the claimed set. */
  lemma OtherStepsClaimNothing(c: Cluster, pool: Pool, step: Step)
    requires Shape(c) && Enabled(c, pool, step) && !step.StartReconcile? && MeetsClaimed(c, step)
    ensures Claimed(Next(c, pool, step)) <= Claimed(c)
  {
    var c' := Next(c, pool, step);
    if step.ProcessNext? {
      assert c.worklist[0].name in Names(c.worklist);
      assert Names(c.worklist[1..]) <= Names(c.worklist);
    }
    forall k | k in Unavailable(c'.nodes) ensures k in Claimed(c) {
      if step.AgentStep? && step.name == k {
        AgentFrame(c.nodes[k], c.agents[k], step.act);
      } else if step.StaleStep? && step.name == k {
        StaleFrame(c.nodes[k], c.agents[k], step.seen.desired, step.act);
      }
    }
  }

  lemma StepKeepsBound(c: Cluster, pool: Pool, step: Step, bound: int)
    requires Shape(c) && Enabled(c, pool, step) && MeetsClaimed(c, step)
    requires |Claimed(c)| <= bound && Budget(c, pool) <= bound
    ensures |Claimed(Next(c, pool, step))| <= bound
  {
    if step.StartReconcile? {
      StartClaims(c, pool, step.target, step.listing);
      SubsetSize(Unavailable(c.nodes), Claimed(c));
    } else {
      OtherStepsClaimNothing(c, pool, step);
      SubsetSize(Claimed(Next(c, pool, step)), Claimed(c));
    }
  }

  function Max(a: int, b: int): int
  {
    if a < b then b else a
  }

  /** What every step keeps: the nodes, and a claim within the bound. */
  ghost predicate Bounded(c: Cluster, names: set<string>, bound: int)
  {
    Shape(c) && c.nodes.Keys == names && |Claimed(c)| <= bound
  }

  lemma StepKeepsBounded(c: Cluster, pool: Pool, step: Step, names: set<string>, bound: int)
    requires Bounded(c, names, bound) && Enabled(c, pool, step) && MeetsClaimed(c, step)
    requires CalculateMaxUnavailable(pool.maxUnavailable, |names|) <= bound
    ensures Bounded(Next(c, pool, step), names, bound)
  {
    assert |c.nodes| == |c.nodes.Keys|;
    StepKeepsShape(c, pool, step);
    StepKeepsBound(c, pool, step, bound);
  }

  /** The rolling bound: over any run, however long and however interleaved, the number of
      unavailable nodes never exceeds the larger of the budget and what it was at the start, as long as
      the stale events that show work come while their node is still claimed. */
  lemma {:induction false} RollingBound(run: seq<Cluster>, steps: seq<Step>, pool: Pool)
    requires IsRun(run, steps, pool) && forall i | 0 <= i < |steps| :: MeetsClaimed(run[i], steps[i])
    requires Shape(run[0]) && run[0].worklist == []
    ensures forall i | 0 <= i < |run| ::
      && run[i].nodes.Keys == run[0].nodes.Keys
      && |Unavailable(run[i].nodes)| <= Max(|Unavailable(run[0].nodes)|, Budget(run[0], pool))
  {
    var names := run[0].nodes.Keys;
    var bound := Max(|Unavailable(run[0].nodes)|, Budget(run[0], pool));
    assert Claimed(run[0]) == Unavailable(run[0].nodes);
    assert |run[0].nodes| == |names|;
    var i := 0;
    while i < |steps|
      invariant 0 <= i <= |steps|
      invariant forall j | 0 <= j <= i :: Bounded(run[j], names, bound)
    {
      StepKeepsBounded(run[i], pool, steps[i], names, bound);
      i := i + 1;
    }
    forall j | 0 <= j < |run| ensures run[j].nodes.Keys == names && |Unavailable(run[j].nodes)| <= bound {
      assert Bounded(run[j], names, bound);
      SubsetSize(Unavailable(run[j].nodes), Claimed(run[j]));
    }
  }

  // ---------------------------------------------------------------- the loop and the protocol

  /** The cluster after the running reconcile has worked through its list undisturbed. */
  ghost function Drive(c: Cluster, pool: Pool, lsr: bool, io: string -> Io): Cluster
    requires Shape(c)
    decreases |c.worklist|
  {
    if c.worklist == [] then c
    else
      var step := ProcessNext(lsr, io(c.worklist[0].name));
      assert c.worklist[0].name in Names(c.worklist);
      StepKeepsShape(c, pool, step);
      Drive(Next(c, pool, step), pool, lsr, io)
  }

  lemma HeadAndRest(list: seq<Node>)
    requires list != [] && NamesDistinct(list)
    ensures Names(list) == {list[0].name} + Names(list[1..]) && list[0].name !in Names(list[1..])
    ensures forall w | w in list :: w == list[0] || w in list[1..]
  {
    assert list == [list[0]] + list[1..];
  }

  /** Driving leaves every node that is not listed alone, and processes every listed one once. */
  ghost predicate Driven(c: Cluster, r: map<string, Node>, pool: Pool, io: string -> Io)
  {
    && r.Keys == c.nodes.Keys
    && (forall k | k in c.nodes && k !in Names(c.worklist) :: r[k] == c.nodes[k])
    && (forall w | w in c.worklist :: w.name in c.nodes && r[w.name] == Processed(w, c.nodes[w.name], c.target, pool, io(w.name)))
  }

  lemma DrivenOneMore(c: Cluster, r: map<string, Node>, pool: Pool, lsr: bool, io: string -> Io)
    requires Shape(c) && c.worklist != [] && c.worklist[0].name in c.nodes
    requires Driven(Next(c, pool, ProcessNext(lsr, io(c.worklist[0].name))), r, pool.(hasLastSuccessfulRevision := lsr), io)
    ensures Driven(c, r, pool.(hasLastSuccessfulRevision := lsr), io)
  {
    HeadAndRest(c.worklist);
    var c' := Next(c, pool, ProcessNext(lsr, io(c.worklist[0].name)));
    assert c'.worklist == c.worklist[1..] && c'.target == c.target;
    forall w | w in c.worklist[1..] ensures w.name in c.nodes && c'.nodes[w.name] == c.nodes[w.name] {
      assert w.name in Names(c.worklist[1..]);
    }
  }

  lemma {:induction false} DrivePointwise(c: Cluster, pool: Pool, lsr: bool, io: string -> Io)
    requires Shape(c)
    ensures Driven(c, Drive(c, pool, lsr, io).nodes, pool.(hasLastSuccessfulRevision := lsr), io)
    decreases |c.worklist|
  {
    if c.worklist != [] {
      assert c.worklist[0].name in Names(c.worklist);
      var step := ProcessNext(lsr, io(c.worklist[0].name));
      StepKeepsShape(c, pool, step);
      DrivePointwise(Next(c, pool, step), pool, lsr, io);
      DrivenOneMore(c, Drive(c, pool, lsr, io).nodes, pool, lsr, io);
    }
  }

  /** The reconcile loop (NodeClient.Reconcile) is a run of ProcessNext steps with no agent in between. */
  lemma LoopIsARun(c: Cluster, pool: Pool, lsr: bool, io: string -> Io)
    requires Shape(c)
    ensures Drive(c, pool, lsr, io).nodes
         == ProcessedAll(c.nodes, c.worklist, c.target, pool.(hasLastSuccessfulRevision := lsr), io)
  {
    var pool' := pool.(hasLastSuccessfulRevision := lsr);
    DrivePointwise(c, pool, lsr, io);
    ProcessedAllPointwise(c.nodes, c.worklist, c.target, pool', io);
    DrivenIsUnique(c, Drive(c, pool, lsr, io).nodes, ProcessedAll(c.nodes, c.worklist, c.target, pool', io), pool', io);
  }

  lemma DrivenIsUnique(c: Cluster, r: map<string, Node>, r': map<string, Node>, pool: Pool, io: string -> Io)
    requires Driven(c, r, pool, io) && Driven(c, r', pool, io)
    ensures r == r'
  {
    forall k | k in r ensures r[k] == r'[k] {
      if k in Names(c.worklist) {
        var w :| w in c.worklist && w.name == k;
      }
    }
  }

  // ---------------------------------------------------------------- drained before touched

  /** MCO-cordoned, closed to the scheduler and free of evictable pods. */
  predicate Protected(n: Node)
  {
    n.cordoned && n.unschedulable && Drained(n)
  }

  /** The node has been told to move, or its agent is moving it. */
  predicate Busy(n: Node, a: Agent)
  {
    (n.desired != "" && n.desired != n.current) || a.working.Some?
  }

  /** What a listed copy still says about the stored node. */
  ghost predicate InSync(seen: Node, live: Node, a: Agent)
  {
    && live.desired == seen.desired
    && (seen.cordoned ==> live.cordoned)
    && (seen.cordoned && seen.state.Done? && seen.desired == seen.current ==> !Busy(live, a))
  }

  ghost predicate Safe(c: Cluster)
  {
    && Shape(c)
    && (forall k | k in c.nodes :: c.nodes[k].cordoned ==> c.nodes[k].unschedulable)
    && (forall k | k in c.nodes :: Busy(c.nodes[k], c.agents[k]) ==> k in c.shortcut || Protected(c.nodes[k]))
    && (forall w | w in c.worklist :: w.name in c.nodes && InSync(w, c.nodes[w.name], c.agents[w.name]))
  }

  lemma StartKeepsSafe(c: Cluster, pool: Pool, target: string, listing: seq<Node>)
    requires Safe(c) && Enabled(c, pool, StartReconcile(target, listing))
    ensures Safe(Next(c, pool, StartReconcile(target, listing)))
  {
    StartKeepsShape(c, pool, target, listing);
  }

  lemma AgentKeepsSafe(c: Cluster, pool: Pool, name: string, act: AgentAct)
    requires Safe(c) && Enabled(c, pool, AgentStep(name, act))
    ensures Safe(Next(c, pool, AgentStep(name, act)))
  {
    StepKeepsShape(c, pool, AgentStep(name, act));
    AgentFrame(c.nodes[name], c.agents[name], act);
    var c' := Next(c, pool, AgentStep(name, act));
    forall w | w in c'.worklist ensures InSync(w, c'.nodes[w.name], c'.agents[w.name]) {
      assert w in c.worklist && InSync(w, c.nodes[w.name], c.agents[w.name]);
    }
  }

  /** A stale copy that starts an apply meets a node that is still protected (or was let in undrained), and
      that the running reconcile is not about to open. */
  ghost predicate MeetsProtected(c: Cluster, step: Step)
    requires step.StaleStep? ==> step.name in c.nodes
  {
    step.StaleStep? && step.act.Begin? ==>
      && (step.name in c.shortcut || Protected(c.nodes[step.name]))
      && forall w | w in c.worklist && w.name == step.name :: !(w.cordoned && w.state.Done? && w.desired == w.current)
  }

  lemma MetStaleEventKeepsSafe(c: Cluster, pool: Pool, step: Step)
    requires Safe(c) && step.StaleStep? && Enabled(c, pool, step) && MeetsProtected(c, step)
    ensures Safe(Next(c, pool, step))
  {
    var name, c' := step.name, Next(c, pool, step);
    StepKeepsShape(c, pool, step);
    StaleFrame(c.nodes[name], c.agents[name], step.seen.desired, step.act);
    forall w | w in c'.worklist ensures InSync(w, c'.nodes[w.name], c'.agents[w.name]) {
      assert w in c.worklist && InSync(w, c.nodes[w.name], c.agents[w.name]);
    }
  }

  lemma UnmetStaleEventBreaksSafe(c: Cluster, pool: Pool, step: Step)
    requires Shape(c) && step.StaleStep? && Enabled(c, pool, step) && !MeetsProtected(c, step)
    ensures !Safe(Next(c, pool, step))
  {
    var name, c' := step.name, Next(c, pool, step);
    assert Busy(c'.nodes[name], c'.agents[name]) && name in c'.nodes;
    if w :| w in c.worklist && w.name == name && w.cordoned && w.state.Done? && w.desired == w.current {
      assert w in c'.worklist && !InSync(w, c'.nodes[w.name], c'.agents[w.name]);
    } else {
      assert name !in c'.shortcut && !Protected(c'.nodes[name]);
    }
  }

  /** That is exactly when a stale event is safe. */
  lemma StaleEventIsSafeIff(c: Cluster, pool: Pool, step: Step)
    requires Safe(c) && step.StaleStep? && Enabled(c, pool, step)
    ensures Safe(Next(c, pool, step)) <==> MeetsProtected(c, step)
  {
    if MeetsProtected(c, step) {
      MetStaleEventKeepsSafe(c, pool, step);
    } else {
      UnmetStaleEventBreaksSafe(c, pool, step);
    }
  }

  lemma PodsKeepSafe(c: Cluster, pool: Pool, name: string, pods: seq<Pod>)
    requires Safe(c) && Enabled(c, pool, ChangePods(name, pods))
    ensures Safe(Next(c, pool, ChangePods(name, pods)))
  {
    StepKeepsShape(c, pool, ChangePods(name, pods));
    var n := c.nodes[name];
    if n.unschedulable && Drained(n) {
      assert multiset(Evictable(pods)) == multiset{};
      assert |Evictable(pods)| == |multiset(Evictable(pods))| == 0;
    }
  }

  lemma ForceKeepsSafe(c: Cluster, pool: Pool, name: string)
    requires Safe(c) && Enabled(c, pool, ForceReboot(name))
    ensures Safe(Next(c, pool, ForceReboot(name)))
  {
  }

  lemma ProcessKeepsSafe(c: Cluster, pool: Pool, lsr: bool, io: Io)
    requires Safe(c) && Enabled(c, pool, ProcessNext(lsr, io))
    ensures Safe(Next(c, pool, ProcessNext(lsr, io)))
  {
    StepKeepsShape(c, pool, ProcessNext(lsr, io));
    var c' := Next(c, pool, ProcessNext(lsr, io));
    var seen := c.worklist[0];
    assert seen in c.worklist;
    forall w | w in c'.worklist
      ensures w.name in c'.nodes && InSync(w, c'.nodes[w.name], c'.agents[w.name])
    {
      assert w in c.worklist && w.name != seen.name;
    }
  }

  lemma StepKeepsSafe(c: Cluster, pool: Pool, step: Step)
    requires Safe(c) && Enabled(c, pool, step) && MeetsProtected(c, step)
    ensures Safe(Next(c, pool, step))
  {
    match step
    case StartReconcile(target, listing) => StartKeepsSafe(c, pool, target, listing);
    case ProcessNext(lsr, io) => ProcessKeepsSafe(c, pool, lsr, io);
    case AbortReconcile =>
    case AgentStep(name, act) => AgentKeepsSafe(c, pool, name, act);
    case StaleStep(_, _, _) => StaleEventIsSafeIff(c, pool, step);
    case ChangePods(name, pods) => PodsKeepSafe(c, pool, name, pods);
    case ForceReboot(name) => ForceKeepsSafe(c, pool, name);
  }

  /** Apply only when drained: in every reachable cluster, a node that has been told to leave its
      revision, or whose agent is applying one, is cordoned, unschedulable and without evictable
      pods, unless it came in by the new-node shortcut and has not settled since; as long as the stale
      events that start an apply come while their node is still protected. */
  lemma {:induction false} ApplyOnlyWhenDrained(run: seq<Cluster>, steps: seq<Step>, pool: Pool)
    requires IsRun(run, steps, pool) && Safe(run[0])
    requires forall i | 0 <= i < |steps| && steps[i].StaleStep? :: steps[i].name in run[i].nodes && MeetsProtected(run[i], steps[i])
    ensures forall i | 0 <= i < |run| :: Safe(run[i])
    ensures forall i, k | 0 <= i < |run| && k in run[i].nodes && k !in run[i].shortcut ::
      k in run[i].agents && (Busy(run[i].nodes[k], run[i].agents[k]) ==> Protected(run[i].nodes[k]))
    decreases |steps|
  {
    if steps != [] {
      var n := |steps| - 1;
      ApplyOnlyWhenDrained(run[..n + 1], steps[..n], pool);
      assert run[..n + 1][n] == run[n];
      StepKeepsSafe(run[n], pool, steps[n]);
      forall i | 0 <= i < |run| ensures Safe(run[i]) {
        if i <= n {
          assert run[i] == run[..n + 1][i];
        }
      }
    }
  }

  /** The step lets an open node that no pool has ever touched in without a drain, into a pool that some revision has
      succeeded in. */
  ghost predicate Admits(c: Cluster, step: Step, k: string)
  {
    && step.ProcessNext? && step.hasLastSuccessfulRevision && step.io.desiredOk && c.worklist != []
    && var seen := c.worklist[0];
       seen.name == k && seen.current == "" && seen.pool == "" && !seen.cordoned && !seen.unschedulable
  }

  lemma StepExemptsOnlyAdmitted(c: Cluster, pool: Pool, step: Step, k: string)
    requires Enabled(c, pool, step) && k in Next(c, pool, step).shortcut && k !in c.shortcut
    ensures Admits(c, step, k)
  {
  }

  /** Who is exempt from the drain: only nodes that joined during the run. */
  lemma {:induction false} OnlyJoiningNodesAreExempt(run: seq<Cluster>, steps: seq<Step>, pool: Pool, i: nat, k: string) returns (j: nat)
    requires IsRun(run, steps, pool) && run[0].shortcut == {} && i < |run| && k in run[i].shortcut
    ensures j < i && Admits(run[j], steps[j], k)
  {
    if k in run[i - 1].shortcut {
      j := OnlyJoiningNodesAreExempt(run, steps, pool, i - 1, k);
    } else {
      j := i - 1;
      StepExemptsOnlyAdmitted(run[j], pool, steps[j], k);
    }
  }

  /** So the first rollout of a pool exempts nobody: as long as no revision has succeeded, every node that is told to
      move or is being moved is cordoned, unschedulable and drained. */
  lemma FirstRolloutExemptsNobody(run: seq<Cluster>, steps: seq<Step>, pool: Pool)
    requires IsRun(run, steps, pool) && Safe(run[0]) && run[0].shortcut == {}
    requires forall i | 0 <= i < |steps| && steps[i].StaleStep? :: steps[i].name in run[i].nodes && MeetsProtected(run[i], steps[i])
    requires forall i | 0 <= i < |steps| && steps[i].ProcessNext? :: !steps[i].hasLastSuccessfulRevision
    ensures forall i, k | 0 <= i < |run| && k in run[i].nodes ::
      k in run[i].agents && (Busy(run[i].nodes[k], run[i].agents[k]) ==> Protected(run[i].nodes[k]))
  {
    ApplyOnlyWhenDrained(run, steps, pool);
    forall i, k | 0 <= i < |run| && k in run[i].nodes ensures k !in run[i].shortcut {
      if k in run[i].shortcut {
        var j := OnlyJoiningNodesAreExempt(run, steps, pool, i, k);
        assert false;
      }
    }
  }

  /** A fresh cluster is a legitimate start: nobody has a revision to reach and no agent is at work. */
  lemma FreshClusterIsSafe(c: Cluster)
    requires c.agents.Keys == c.nodes.Keys && c.worklist == []
    requires forall k | k in c.nodes ::
      c.nodes[k].name == k && !c.nodes[k].cordoned && c.nodes[k].desired == "" && c.agents[k] == Agent(None, "")
    ensures Safe(c)
  {
  }
}
