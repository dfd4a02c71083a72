/** The rounds of a rollout are runs of the protocol: a reconcile, the agents' turns with their restarts, the
pods' moves, each taken one step at a time. */
module Rounds {
  import opened Order
  import opened Nodes
  import opened Rollout
  import opened NodeUpdate
  import opened Protocol
  import opened Progress

  const IDLE := Agent(None, "")

  /** Every agent is idle and awaits nothing. */
  ghost predicate AllIdle(c: Cluster)
  {
    c.agents.Keys == c.nodes.Keys && forall k | k in c.agents :: c.agents[k] == IDLE
  }

  /** A cluster reached by a run of live steps, together with the run. */
  datatype Reached = Reached(clusters: seq<Cluster>, steps: seq<Step>, to: Cluster)

  ghost predicate From(r: Reached, pool: Pool, from: Cluster)
  {
    Leads(r.clusters, r.steps, pool, from, r.to)
  }

  ghost function Then(r: Reached, pool: Pool, step: Step): Reached
    requires Enabled(r.to, pool, step)
  {
    var c := Next(r.to, pool, step);
    Reached(r.clusters + [c], r.steps + [step], c)
  }

  lemma ThenIsFrom(r: Reached, pool: Pool, from: Cluster, step: Step)
    requires From(r, pool, from) && Enabled(r.to, pool, step) && !step.StaleStep?
    ensures From(Then(r, pool, step), pool, from)
  {
    OneStepLater(r.clusters, r.steps, pool, from, r.to, step);
  }

  // ------------------------------------------------------------- the reconcile

  lemma {:induction false} DriveOn(r: Reached, pool: Pool, from: Cluster, lsr: bool, io: string -> Io) returns (r': Reached)
    requires From(r, pool, from) && Shape(r.to)
    ensures From(r', pool, from) && r'.to == Drive(r.to, pool, lsr, io)
    ensures r'.to.worklist == [] && r'.to.agents == r.to.agents && r'.to.nodes.Keys == r.to.nodes.Keys
    decreases |r.to.worklist|
  {
    if r.to.worklist == [] {
      r' := r;
    } else {
      assert r.to.worklist[0].name in Names(r.to.worklist);
      var step := ProcessNext(lsr, io(r.to.worklist[0].name));
      StepKeepsShape(r.to, pool, step);
      ThenIsFrom(r, pool, from, step);
      r' := DriveOn(Then(r, pool, step), pool, from, lsr, io);
    }
  }

  lemma ReconcileOn(r: Reached, pool: Pool, from: Cluster, target: string, ch: Choices) returns (r': Reached)
    requires From(r, pool, from) && Shape(r.to) && r.to.worklist == [] && AllIdle(r.to) && Legal(r.to.nodes, ch)
    ensures From(r', pool, from) && r'.to.worklist == [] && AllIdle(r'.to)
    ensures r'.to.nodes == AfterReconcile(r.to.nodes, target, pool, ch)
  {
    var start := StartReconcile(target, ch.listing);
    ThenIsFrom(r, pool, from, start);
    StepKeepsShape(r.to, pool, start);
    var r1 := Then(r, pool, start);
    r' := DriveOn(r1, pool, from, ch.hasLastSuccessfulRevision, ch.io);
    WorkIsListed(r.to.nodes, target, pool, ch);
    LoopIsARun(r1.to, pool, ch.hasLastSuccessfulRevision, ch.io);
  }

  // ------------------------------------------------------------- the agents

  /** A cluster but for one node. */
  ghost predicate OnlyNode(c: Cluster, c': Cluster, k: string, n: Node)
  {
    k in c.nodes && c'.nodes == c.nodes[k := n] && c'.agents == c.agents && c'.worklist == c.worklist
  }

  lemma RestartOn(r: Reached, pool: Pool, from: Cluster, k: string) returns (r': Reached)
    requires From(r, pool, from) && AllIdle(r.to) && k in r.to.nodes && !r.to.nodes[k].rebootPending
    ensures From(r', pool, from) && OnlyNode(r.to, r'.to, k, r.to.nodes[k].(state := Idle))
  {
    var step := AgentStep(k, Restart(false, false, true));
    ThenIsFrom(r, pool, from, step);
    r' := Then(r, pool, step);
    assert r'.to.agents == r.to.agents;
  }

  lemma HandleOn(r: Reached, pool: Pool, from: Cluster, k: string) returns (r': Reached)
    requires From(r, pool, from) && AllIdle(r.to) && k in r.to.nodes && !r.to.nodes[k].rebootPending
    ensures From(r', pool, from) && OnlyNode(r.to, r'.to, k, AgentRound(r.to.nodes[k]))
  {
    if WantsWork(r.to.nodes[k]) {
      var begin, finish := AgentStep(k, Begin), AgentStep(k, Finish(Success(true)));
      AgentRoundIsTwoSteps(r.to.nodes[k], IDLE);
      ThenIsFrom(r, pool, from, begin);
      var r1 := Then(r, pool, begin);
      ThenIsFrom(r1, pool, from, finish);
      r' := Then(r1, pool, finish);
      assert r'.to.agents == r.to.agents;
    } else {
      r' := r;
      assert r.to.nodes[k := r.to.nodes[k]] == r.to.nodes;
    }
  }

  lemma TurnOn(r: Reached, pool: Pool, from: Cluster, k: string, before: bool, after: bool) returns (r': Reached)
    requires From(r, pool, from) && AllIdle(r.to) && k in r.to.nodes && !r.to.nodes[k].rebootPending
    ensures From(r', pool, from) && OnlyNode(r.to, r'.to, k, AgentTurn(r.to.nodes[k], before, after))
  {
    var n := r.to.nodes[k];
    var r1 := r;
    if before {
      r1 := RestartOn(r, pool, from, k);
    }
    assert r1.to.nodes[k] == if before then n.(state := Idle) else n;
    var r2 := HandleOn(r1, pool, from, k);
    if after {
      r' := RestartOn(r2, pool, from, k);
    } else {
      r' := r2;
    }
  }

  /** How far a pass over names has got: those passed read as `done` has them, the others as they were. */
  ghost predicate Passed(c: Cluster, c': Cluster, ks: seq<string>, done: map<string, Node>)
  {
    && c'.nodes.Keys == c.nodes.Keys && c'.agents == c.agents && c'.worklist == c.worklist
    && forall k | k in c.nodes :: c'.nodes[k] == if k in ks && k in done then done[k] else c.nodes[k]
  }

  lemma PassedOneMore(c: Cluster, c1: Cluster, c2: Cluster, ks: seq<string>, i: nat, done: map<string, Node>)
    requires i < |ks| && Distinct(ks) && ks[i] in c.nodes && ks[i] in done
    requires Passed(c, c1, ks[..i], done) && OnlyNode(c1, c2, ks[i], done[ks[i]])
    ensures Passed(c, c2, ks[..i + 1], done)
  {
    assert ks[..i + 1] == ks[..i] + [ks[i]];
  }

  lemma NotYetPassed(c: Cluster, c1: Cluster, ks: seq<string>, i: nat, done: map<string, Node>)
    requires i < |ks| && Distinct(ks) && ks[i] in c.nodes && Passed(c, c1, ks[..i], done)
    ensures ks[i] in c1.nodes && c1.nodes[ks[i]] == c.nodes[ks[i]]
  {
    assert ks[i] !in ks[..i];
  }

  ghost predicate NonePending(nodes: map<string, Node>)
  {
    forall k | k in nodes :: !nodes[k].rebootPending
  }

  /** Every node after its agent's turn. */
  ghost predicate AreTurns(nodes: map<string, Node>, ch: Choices, done: map<string, Node>)
  {
    forall k | k in nodes :: k in done && done[k] == AgentTurn(nodes[k], k in ch.before, k in ch.after)
  }

  lemma {:induction false} TurnsOn(r: Reached, pool: Pool, from: Cluster, ks: seq<string>, ch: Choices, done: map<string, Node>)
    returns (r': Reached)
    requires From(r, pool, from) && AllIdle(r.to) && Distinct(ks) && forall k | k in ks :: k in r.to.nodes
    requires NonePending(r.to.nodes) && AreTurns(r.to.nodes, ch, done)
    ensures From(r', pool, from) && Passed(r.to, r'.to, ks, done)
  {
    r' := r;
    var i := 0;
    while i < |ks|
      invariant 0 <= i <= |ks| && From(r', pool, from) && Passed(r.to, r'.to, ks[..i], done)
    {
      var k, c1 := ks[i], r'.to;
      assert k in ks;
      NotYetPassed(r.to, c1, ks, i, done);
      r' := TurnOn(r', pool, from, k, k in ch.before, k in ch.after);
      PassedOneMore(r.to, c1, r'.to, ks, i, done);
      i := i + 1;
    }
    assert ks[..|ks|] == ks;
  }

  // ------------------------------------------------------------- the pods

  /** Every node after its pods moved as they may. */
  ghost predicate ArePodMoves(nodes: map<string, Node>, done: map<string, Node>)
  {
    forall k | k in nodes :: k in done && PodMoves(nodes[k], done[k])
  }

  ghost predicate PodMoves(n: Node, n': Node)
  {
    n' == n.(pods := n'.pods) && PodsMayBecome(n, n'.pods)
  }

  lemma {:induction false} PodsOn(r: Reached, pool: Pool, from: Cluster, ks: seq<string>, done: map<string, Node>) returns (r': Reached)
    requires From(r, pool, from) && Distinct(ks) && forall k | k in ks :: k in r.to.nodes
    requires ArePodMoves(r.to.nodes, done)
    ensures From(r', pool, from) && Passed(r.to, r'.to, ks, done)
  {
    r' := r;
    var i := 0;
    while i < |ks|
      invariant 0 <= i <= |ks| && From(r', pool, from) && Passed(r.to, r'.to, ks[..i], done)
    {
      var k, c1 := ks[i], r'.to;
      assert k in ks;
      NotYetPassed(r.to, c1, ks, i, done);
      var step := ChangePods(k, done[k].pods);
      ThenIsFrom(r', pool, from, step);
      r' := Then(r', pool, step);
      PassedOneMore(r.to, c1, r'.to, ks, i, done);
      i := i + 1;
    }
    assert ks[..|ks|] == ks;
  }

  // ------------------------------------------------------------- a round

  lemma PassedAll(c: Cluster, c': Cluster, ks: seq<string>, done: map<string, Node>)
    requires Passed(c, c', ks, done) && done.Keys == c.nodes.Keys && forall k | k in c.nodes :: k in ks
    ensures c'.nodes == done
  {
  }

  /** What the reconcile of a round leaves still awaits no reboot. */
  lemma NothingPending(s: map<string, Node>, target: string, pool: Pool, ch: Choices, k: string)
    requires Legal(s, ch) && AllSettled(s, target) && k in s
    ensures k in AfterReconcile(s, target, pool, ch) && !AfterReconcile(s, target, pool, ch)[k].rebootPending
  {
    MidNode(s, target, pool, ch, k);
    ControllerLeavesFaces(s[k], s[k], target, pool.(hasLastSuccessfulRevision := ch.hasLastSuccessfulRevision), ch.io(k));
  }

  /** Between rounds: a run that has come to these nodes, with nothing under way. */
  ghost predicate Stands(r: Reached, pool: Pool, from: Cluster, nodes: map<string, Node>)
  {
    From(r, pool, from) && r.to.nodes == nodes && r.to.worklist == [] && AllIdle(r.to)
  }

  ghost predicate Lists(ks: seq<string>, nodes: map<string, Node>)
  {
    Distinct(ks) && forall k :: k in ks <==> k in nodes
  }

  lemma AgentsOnward(r: Reached, pool: Pool, from: Cluster, ch: Choices, ks: seq<string>, turned: map<string, Node>) returns (r': Reached)
    requires Stands(r, pool, from, r.to.nodes) && Lists(ks, r.to.nodes) && turned.Keys == r.to.nodes.Keys
    requires NonePending(r.to.nodes) && AreTurns(r.to.nodes, ch, turned)
    ensures Stands(r', pool, from, turned)
  {
    r' := TurnsOn(r, pool, from, ks, ch, turned);
    PassedAll(r.to, r'.to, ks, turned);
  }

  lemma PodsOnward(r: Reached, pool: Pool, from: Cluster, ks: seq<string>, s': map<string, Node>) returns (r': Reached)
    requires Stands(r, pool, from, r.to.nodes) && Lists(ks, r.to.nodes) && s'.Keys == r.to.nodes.Keys
    requires ArePodMoves(r.to.nodes, s')
    ensures Stands(r', pool, from, s')
  {
    r' := PodsOn(r, pool, from, ks, s');
    PassedAll(r.to, r'.to, ks, s');
  }

  lemma TurnKeepsPods(n: Node, before: bool, after: bool)
    ensures AgentTurn(n, before, after).pods == n.pods && AgentTurn(n, before, after).unschedulable == n.unschedulable
  {
    TurnFrame(n, before, after);
  }

  lemma NodeOfRound(s: map<string, Node>, s': map<string, Node>, target: string, pool: Pool, ch: Choices, k: string)
    requires Round(s, s', target, pool, ch) && k in AfterReconcile(s, target, pool, ch)
    ensures k in s' && PodMoves(AgentTurn(AfterReconcile(s, target, pool, ch)[k], k in ch.before, k in ch.after), s'[k])
  {
    var n := AfterReconcile(s, target, pool, ch)[k];
    TurnKeepsPods(n, k in ch.before, k in ch.after);
  }

  ghost function Turned(mid: map<string, Node>, ch: Choices): map<string, Node>
  {
    map k | k in mid :: AgentTurn(mid[k], k in ch.before, k in ch.after)
  }

  lemma PodsAfterTurns(s: map<string, Node>, s': map<string, Node>, target: string, pool: Pool, ch: Choices)
    requires Round(s, s', target, pool, ch)
    ensures ArePodMoves(Turned(AfterReconcile(s, target, pool, ch), ch), s')
    ensures s'.Keys == AfterReconcile(s, target, pool, ch).Keys
  {
    var mid := AfterReconcile(s, target, pool, ch);
    forall k | k in mid ensures k in s' && PodMoves(Turned(mid, ch)[k], s'[k]) {
      NodeOfRound(s, s', target, pool, ch, k);
    }
  }

  lemma TurnedAreTurns(mid: map<string, Node>, ch: Choices)
    ensures AreTurns(mid, ch, Turned(mid, ch)) && Turned(mid, ch).Keys == mid.Keys
  {
  }

  lemma NothingPendingAnywhere(s: map<string, Node>, target: string, pool: Pool, ch: Choices)
    requires Legal(s, ch) && AllSettled(s, target) && AfterReconcile(s, target, pool, ch).Keys == s.Keys
    ensures NonePending(AfterReconcile(s, target, pool, ch))
  {
    forall k | k in AfterReconcile(s, target, pool, ch) ensures !AfterReconcile(s, target, pool, ch)[k].rebootPending {
      NothingPending(s, target, pool, ch, k);
    }
  }

  /** The nodes after the agents' turns of a round. */
  lemma TurnsOfRound(s: map<string, Node>, s': map<string, Node>, target: string, pool: Pool, ch: Choices) returns (turned: map<string, Node>)
    requires Round(s, s', target, pool, ch) && AllSettled(s, target)
    ensures var mid := AfterReconcile(s, target, pool, ch);
      && turned.Keys == mid.Keys == s'.Keys && AreTurns(mid, ch, turned) && ArePodMoves(turned, s')
      && NonePending(mid)
  {
    turned := Turned(AfterReconcile(s, target, pool, ch), ch);
    NothingPendingAnywhere(s, target, pool, ch);
    TurnedAreTurns(AfterReconcile(s, target, pool, ch), ch);
    PodsAfterTurns(s, s', target, pool, ch);
  }

  /** A round of a rollout is a run of the protocol. */
  lemma RoundOnward(r: Reached, pool: Pool, from: Cluster, s: map<string, Node>, s': map<string, Node>, target: string, ch: Choices, ks: seq<string>)
    returns (r': Reached)
    requires Stands(r, pool, from, s) && Shape(r.to) && Lists(ks, s)
    requires AllSettled(s, target) && Round(s, s', target, pool, ch)
    ensures Stands(r', pool, from, s')
  {
    var turned := TurnsOfRound(s, s', target, pool, ch);
    var r1 := ReconcileOn(r, pool, from, target, ch);
    var r2 := AgentsOnward(r1, pool, from, ch, ks, turned);
    r' := PodsOnward(r2, pool, from, ks, s');
  }

  ghost predicate Consecutive(run: nat -> map<string, Node>, choices: nat -> Choices, target: string, pool: Pool)
  {
    forall i: nat :: RoundAt(run, choices, target, pool, i)
  }

  lemma RoundKeepsSettled(s: map<string, Node>, s': map<string, Node>, ks: seq<string>, target: string, pool: Pool, ch: Choices)
    requires Round(s, s', target, pool, ch) && AllSettled(s, target) && forall k :: k in ks <==> k in s
    ensures s'.Keys == s.Keys && AllSettled(s', target)
  {
    RoundNodes(s, s', target, pool, ch);
  }

  lemma ReachedKeepsShape(r: Reached, pool: Pool, from: Cluster)
    requires From(r, pool, from) && Shape(from)
    ensures Shape(r.to)
  {
    var i := 0;
    while i < |r.steps|
      invariant 0 <= i <= |r.steps| && Shape(r.clusters[i])
    {
      StepKeepsShape(r.clusters[i], pool, r.steps[i]);
      i := i + 1;
    }
  }

  /** The rollout has come to round `n`. */
  ghost predicate HasCome(r: Reached, pool: Pool, c: Cluster, nodes: map<string, Node>, ks: seq<string>, target: string)
  {
    Stands(r, pool, c, nodes) && AllSettled(nodes, target) && Lists(ks, nodes)
  }

  lemma OneRoundOnward(
    r: Reached, pool: Pool, c: Cluster, s: map<string, Node>, s': map<string, Node>, ks: seq<string>, target: string, ch: Choices)
    returns (r': Reached)
    requires Shape(c) && HasCome(r, pool, c, s, ks, target) && Round(s, s', target, pool, ch)
    ensures HasCome(r', pool, c, s', ks, target)
  {
    ReachedKeepsShape(r, pool, c);
    RoundKeepsSettled(s, s', ks, target, pool, ch);
    r' := RoundOnward(r, pool, c, s, s', target, ch, ks);
  }

  /** So the first `n` rounds of a rollout are a run of the protocol, for every `n`: the termination of rounds is
      the termination of runs. */
  lemma {:induction false} RolloutIsARun(
    c: Cluster, run: nat -> map<string, Node>, choices: nat -> Choices, ks: seq<string>, target: string, pool: Pool, n: nat)
    returns (r: Reached)
    requires Shape(c) && c.worklist == [] && AllIdle(c) && c.nodes == run(0)
    requires Consecutive(run, choices, target, pool) && AllSettled(run(0), target) && Lists(ks, run(0))
    ensures HasCome(r, pool, c, run(n), ks, target)
  {
    if n == 0 {
      r := Reached([c], [], c);
    } else {
      r := RolloutIsARun(c, run, choices, ks, target, pool, n - 1);
      r := NextRound(r, pool, c, run, choices, ks, target, n - 1);
    }
  }

  lemma NextRound(
    r: Reached, pool: Pool, c: Cluster, run: nat -> map<string, Node>, choices: nat -> Choices, ks: seq<string>, target: string, i: nat)
    returns (r': Reached)
    requires Shape(c) && HasCome(r, pool, c, run(i), ks, target) && Consecutive(run, choices, target, pool)
    ensures HasCome(r', pool, c, run(i + 1), ks, target)
  {
    assert RoundAt(run, choices, target, pool, i);
    r' := OneRoundOnward(r, pool, c, run(i), run(i + 1), ks, target, choices(i));
  }

  /** A rollout with no node stuck, as a run of the protocol, comes to an end. */
  lemma RolloutRunEnds(c: Cluster, run: nat -> map<string, Node>, choices: nat -> Choices, ks: seq<string>, target: string, pool: Pool)
    returns (r: Reached)
    requires Shape(c) && c.worklist == [] && AllIdle(c) && c.nodes == run(0)
    requires Consecutive(run, choices, target, pool) && AllSettled(run(0), target) && NoneStuck(run(0), target) && Lists(ks, run(0))
    ensures From(r, pool, c) && AllFinished(r.to.nodes, target)
  {
    var end := RolloutTerminates(run, choices, ks, target, pool, 0);
    r := RolloutIsARun(c, run, choices, ks, target, pool, end);
  }
}
