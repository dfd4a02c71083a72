/** One node's walk through cordon, drain, set revision and uncordon, and the reconcile loop that
drives it (internal/controller/node_update.go, cordon.go, machineconfigpool_controller.go).

The controller decides from the copy of a node it listed (`seen`) and writes to the stored node
(`live`), which the agent may have changed meanwhile. */
module NodeUpdate {
  import opened Order
  import opened Nodes
  import opened Rollout
  import opened Drain

  datatype Pool = Pool(
    name: string, maxUnavailable: Option<IntOrString>,
    drainTimeoutSeconds: int, drainRetrySeconds: int,
    hasLastSuccessfulRevision: bool)

  /** How the API calls made for one node turn out, and the time. */
  datatype Io = Io(
    now: int, cordonOk: bool, listPodsOk: bool, drainStartOk: bool, evictOk: bool, retryCountOk: bool,
    desiredOk: bool, setAtOk: bool, poolOk: bool, uncordonOk: bool)

  datatype NodeUpdateResult = NodeUpdateResult(
    requeueAfter: int, drainStuck: bool, cordoned: bool, drainStarted: bool,
    drainComplete: bool, uncordoned: bool, drainFailed: bool)

  function Requeue(d: int): NodeUpdateResult
  {
    NodeUpdateResult(d, false, false, false, false, false, false)
  }

  function Cordon(n: Node): Node
  {
    n.(unschedulable := true, cordoned := true)
  }

  function Uncordon(n: Node): Node
  {
    if !n.unschedulable && !n.cordoned then n
    else n.(unschedulable := false, cordoned := false, drainStartedAt := NoStamp, drainRetryCount := 0)
  }

  function SetDesired(n: Node, target: string, pool: string, io: Io): Node
  {
    n.(desired := target,
       desiredSetAt := if io.setAtOk then At(io.now) else n.desiredSetAt,
       pool := if io.poolOk then pool else n.pool)
  }

  /** A node that no controller has touched, joining a pool that is already configured. */
  predicate TakesShortcut(seen: Node, pool: Pool)
  {
    && seen.current == "" && seen.pool == "" && !seen.cordoned && !seen.unschedulable
    && pool.hasLastSuccessfulRevision
  }

  /** What ProcessNodeUpdate leaves of the stored node. */
  function Processed(seen: Node, live: Node, target: string, pool: Pool, io: Io): Node
  {
    if TakesShortcut(seen, pool) then
      if io.desiredOk then SetDesired(live, target, pool.name, io) else live
    else if !IsNodeCordoned(seen) then
      if io.cordonOk then Cordon(live) else live
    else if !io.listPodsOk then live
    else if !Drained(live) then
      var started :=
        if seen.drainStartedAt == NoStamp && io.drainStartOk then live.(drainStartedAt := At(io.now)) else live;
      if DrainFails(seen, io) && seen.drainStartedAt.At? && io.retryCountOk
      then started.(drainRetryCount := seen.drainRetryCount + 1)
      else started
    else if seen.desired != target then
      if io.desiredOk then SetDesired(live, target, pool.name, io) else live
    else if ShouldUncordon(seen, target) && io.uncordonOk then Uncordon(live)
    else live
  }

  predicate DrainFails(seen: Node, io: Io)
  {
    (seen.drainStartedAt == NoStamp && !io.drainStartOk) || !io.evictOk
  }

  /** What ProcessNodeUpdate answers. */
  function Answer(seen: Node, live: Node, target: string, pool: Pool, io: Io): NodeUpdateResult
  {
    if TakesShortcut(seen, pool) then Requeue(if io.desiredOk then 10 * SECOND else 5 * SECOND)
    else if !IsNodeCordoned(seen) then
      if io.cordonOk then Requeue(SECOND).(cordoned := true) else Requeue(5 * SECOND)
    else if !io.listPodsOk then Requeue(5 * SECOND)
    else if !Drained(live) then
      if DrainFails(seen, io) then
        var retry := HandleDrainRetry(seen.drainStartedAt, io.now, pool.drainTimeoutSeconds, pool.drainRetrySeconds);
        Requeue(retry.requeueAfter).(
          drainStuck := retry.setDrainStuck, drainFailed := true, drainStarted := seen.drainStartedAt == NoStamp)
      else Requeue(5 * SECOND).(drainStarted := seen.drainStartedAt == NoStamp)
    else if seen.desired != target then
      if io.desiredOk then Requeue(SECOND).(drainComplete := seen.drainStartedAt != NoStamp)
      else Requeue(5 * SECOND)
    else if ShouldUncordon(seen, target) then
      if io.uncordonOk then Requeue(0).(uncordoned := true) else Requeue(5 * SECOND)
    else Requeue(10 * SECOND)
  }

  /** A node that has never been given a revision, by any pool, and is open: it joins. */
  predicate Joining(seen: Node)
  {
    seen.current == "" && seen.pool == "" && !seen.cordoned && !seen.unschedulable
  }

  /** When a step tells a node its revision: it is cordoned, was found free of evictable pods and has not been told
      yet; or it joins a pool that some revision has already succeeded in.  Nothing else ever moves it. */
  lemma ToldMeans(seen: Node, live: Node, target: string, pool: Pool, io: Io)
    ensures var n := Processed(seen, live, target, pool, io);
      && (n.desired == live.desired || n.desired == target)
      && (live.desired != target ==>
            (n.desired == target <==>
               && io.desiredOk
               && (|| (Joining(seen) && pool.hasLastSuccessfulRevision)
                   || (seen.cordoned && io.listPodsOk && Drained(live) && seen.desired != target))))
  {
    if TakesShortcut(seen, pool) {
    } else if !seen.cordoned {
    } else if !io.listPodsOk {
    } else if !Drained(live) {
    } else if seen.desired != target {
    } else {
    }
  }

  /** When a step opens or closes a node: it closes one that was not cordoned and does not join, and opens one that
      is drained, at its target and done, and there only the controller's own cordon. */
  lemma OpenedMeans(seen: Node, live: Node, target: string, pool: Pool, io: Io)
    ensures var n := Processed(seen, live, target, pool, io);
      && (!live.cordoned ==>
            (n.cordoned <==> !seen.cordoned && io.cordonOk && !(Joining(seen) && pool.hasLastSuccessfulRevision)))
      && (n.cordoned && !live.cordoned ==> n.unschedulable)
      && (live.cordoned ==>
            (!n.cordoned <==>
               && seen.cordoned && io.listPodsOk && Drained(live) && seen.desired == target
               && seen.current == target && seen.state.Done? && io.uncordonOk))
      && (!n.cordoned && live.cordoned ==> !n.unschedulable)
  {
  }

  /** A node that is told a revision is given the time and the pool with it, as far as those writes succeed. */
  lemma TellingRecords(seen: Node, live: Node, target: string, pool: Pool, io: Io)
    requires Processed(seen, live, target, pool, io).desired != live.desired
    ensures var n := Processed(seen, live, target, pool, io);
      && n.desiredSetAt == (if io.setAtOk then At(io.now) else live.desiredSetAt)
      && n.pool == (if io.poolOk then pool.name else live.pool)
  {
    assert Processed(seen, live, target, pool, io) == SetDesired(live, target, pool.name, io) by {
      ToldMeans(seen, live, target, pool, io);
    }
  }

  /** What a step records of a drain: its start, once, when pods are left and none was recorded; and each failed
      attempt from then on. */
  lemma DrainMarksMean(seen: Node, live: Node, target: string, pool: Pool, io: Io)
    requires seen.cordoned && io.listPodsOk && !Drained(live)
    ensures var n := Processed(seen, live, target, pool, io);
      && n.drainStartedAt == (if seen.drainStartedAt == NoStamp && io.drainStartOk then At(io.now) else live.drainStartedAt)
      && n.drainRetryCount == (if !io.evictOk && seen.drainStartedAt.At? && io.retryCountOk then seen.drainRetryCount + 1 else live.drainRetryCount)
      && n.desired == live.desired && n.cordoned == live.cordoned && n.unschedulable == live.unschedulable
  {
    var started := if seen.drainStartedAt == NoStamp && io.drainStartOk then live.(drainStartedAt := At(io.now)) else live;
    assert started.drainRetryCount == live.drainRetryCount && started.desired == live.desired;
  }

  /** A step that gets to the uncordon of its node, if it was closed. */
  predicate Opens(seen: Node, live: Node, target: string, io: Io)
  {
    && seen.cordoned && io.listPodsOk && Drained(live) && seen.desired == target
    && seen.current == target && seen.state.Done? && io.uncordonOk
    && (live.cordoned || live.unschedulable)
  }

  /** The marks of a drain go when a node that was closed is opened. */
  lemma DrainMarksGo(seen: Node, live: Node, target: string, pool: Pool, io: Io)
    requires Opens(seen, live, target, io)
    ensures var n := Processed(seen, live, target, pool, io);
      !n.cordoned && !n.unschedulable && n.drainStartedAt == NoStamp && n.drainRetryCount == 0
  {
  }

  /** They go at no other time, and nothing else opens a node. */
  lemma DrainMarksStay(seen: Node, live: Node, target: string, pool: Pool, io: Io)
    requires !Opens(seen, live, target, io) && (!seen.cordoned || !io.listPodsOk || Drained(live))
    ensures var n := Processed(seen, live, target, pool, io);
      && n.drainStartedAt == live.drainStartedAt && n.drainRetryCount == live.drainRetryCount
      && (live.cordoned ==> n.cordoned) && (live.unschedulable ==> n.unschedulable)
  {
    if TakesShortcut(seen, pool) {
    } else if !seen.cordoned {
    } else if !io.listPodsOk {
    } else if seen.desired != target {
    } else {
    }
  }

  /** What a reply says of the step: each flag, from the nodes and the calls alone. */
  lemma FlagsMean(seen: Node, live: Node, target: string, pool: Pool, io: Io)
    ensures var r, draining := Answer(seen, live, target, pool, io), seen.cordoned && io.listPodsOk && !Drained(live);
      var drained := seen.cordoned && io.listPodsOk && Drained(live);
      && (r.cordoned <==> !seen.cordoned && io.cordonOk && !(Joining(seen) && pool.hasLastSuccessfulRevision))
      && (r.drainStarted <==> draining && seen.drainStartedAt == NoStamp)
      && (r.drainFailed <==> draining && (!io.evictOk || (seen.drainStartedAt == NoStamp && !io.drainStartOk)))
      && (r.drainStuck <==>
            && r.drainFailed && seen.drainStartedAt.At?
            && io.now - seen.drainStartedAt.time >= (if pool.drainTimeoutSeconds > 0 then pool.drainTimeoutSeconds else 3600) * SECOND)
      && (r.drainComplete <==> drained && seen.desired != target && io.desiredOk && seen.drainStartedAt != NoStamp)
      && (r.uncordoned <==>
            drained && seen.desired == target && seen.current == target && seen.state.Done? && io.uncordonOk)
  {
  }

  /** When the controller asks to come back: not at all only for a node it has just opened; after a second when it has
      just closed a node or told it to move, after ten when it is the agent's turn, and after five when a call
      failed or pods are leaving.  A failed drain is retried by the rules of module Drain. */
  lemma RequeueMeans(seen: Node, live: Node, target: string, pool: Pool, io: Io)
    ensures var n, r := Processed(seen, live, target, pool, io), Answer(seen, live, target, pool, io);
      && (r.requeueAfter == 0 <==> r.uncordoned) && r.requeueAfter >= 0
      && (!r.drainFailed && !r.uncordoned ==>
            var joins, told := Joining(seen) && pool.hasLastSuccessfulRevision, seen.desired == target;
            var drained := seen.cordoned && io.listPodsOk && Drained(live);
            r.requeueAfter ==
              if r.cordoned || (drained && !told && io.desiredOk) then SECOND
              else if (joins && io.desiredOk) || (drained && told && !(seen.current == target && seen.state.Done?)) then 10 * SECOND
              else 5 * SECOND)
  {
  }

  /** The names of a list of nodes. */
  function Names(ns: seq<Node>): set<string>
  {
    set n | n in ns :: n.name
  }

  /** What a reconcile works through: nodes in progress first, then those it may start. */
  function Worklist(all: seq<Node>, target: string, budget: int): seq<Node>
  {
    Continuing(all, target) + Selected(all, target, budget)
  }

  /** The stored nodes after working through a list of listed nodes, first to last. */
  function ProcessedAll(
    nodes: map<string, Node>, list: seq<Node>, target: string, pool: Pool, io: string -> Io): map<string, Node>
    requires Names(list) <= nodes.Keys
  {
    if list == [] then nodes
    else
      var seen := list[|list| - 1];
      assert Names(list[..|list| - 1]) <= Names(list) && seen.name in Names(list);
      var before := ProcessedAll(nodes, list[..|list| - 1], target, pool, io);
      if seen.name in before then
        before[seen.name := Processed(seen, before[seen.name], target, pool, io(seen.name))]
      else before
  }

  /** Each listed node is processed once, on its own stored state; the others are untouched. */
  lemma {:induction false} ProcessedAllPointwise(
    nodes: map<string, Node>, list: seq<Node>, target: string, pool: Pool, io: string -> Io)
    requires Names(list) <= nodes.Keys && NamesDistinct(list)
    ensures var r := ProcessedAll(nodes, list, target, pool, io);
      && r.Keys == nodes.Keys
      && (forall k | k in nodes && k !in Names(list) :: r[k] == nodes[k])
      && (forall seen | seen in list ::
            seen.name in nodes
            && r[seen.name] == Processed(seen, nodes[seen.name], target, pool, io(seen.name)))
  {
    if list != [] {
      var front, seen := list[..|list| - 1], list[|list| - 1];
      assert Names(front) <= Names(list) && seen.name in Names(list);
      ProcessedAllPointwise(nodes, front, target, pool, io);
      assert list == front + [seen];
      assert seen.name !in Names(front);
      assert Names(list) == Names(front) + {seen.name};
    }
  }

  lemma PrefixOneMore(list: seq<Node>, i: nat)
    requires NamesDistinct(list) && i < |list|
    ensures list[..i + 1][..i] == list[..i] && NamesDistinct(list[..i])
    ensures list[i].name in Names(list) && list[i].name !in Names(list[..i])
    ensures Names(list[..i + 1]) == Names(list[..i]) + {list[i].name}
  {
    assert list[..i + 1] == list[..i] + [list[i]];
  }

  /** Nodes in progress are unavailable and started nodes are not, so the two lists never share a node. */
  lemma WorklistDistinct(all: seq<Node>, target: string, budget: int)
    requires NamesDistinct(all)
    ensures NamesDistinct(Worklist(all, target, budget))
    ensures forall n | n in Worklist(all, target, budget) :: n in all && !n.paused
    ensures Names(Continuing(all, target)) !! Names(Selected(all, target, budget))
    ensures var list := Worklist(all, target, budget);
      forall i, j | 0 <= i < j < |list| && OutOfService(list[j]) :: OutOfService(list[i])
  {
    var cont, sel := Continuing(all, target), Selected(all, target, budget);
    FilterMembers(all, n => InProgress(n, target));
    FilterKeepsNamesDistinct(all, n => InProgress(n, target));
    SelectionMeetsSpec(all, target, budget);
    forall x, y | x in cont && y in sel ensures x.name != y.name {
      assert x in all && y in all && IsNodeUnavailable(x) && !IsNodeUnavailable(y);
    }
  }

  /** The next listed node is still as it was stored, and joins those processed. */
  lemma OneMoreProcessed(nodes: map<string, Node>, list: seq<Node>, i: nat, target: string, pool: Pool, io: string -> Io)
    requires NamesDistinct(list) && Names(list) <= nodes.Keys && i < |list|
    ensures Names(list[..i]) <= nodes.Keys && Names(list[..i + 1]) <= nodes.Keys
    ensures var before, seen := ProcessedAll(nodes, list[..i], target, pool, io), list[i];
      && seen.name in before && before[seen.name] == nodes[seen.name]
      && ProcessedAll(nodes, list[..i + 1], target, pool, io)
           == before[seen.name := Processed(seen, nodes[seen.name], target, pool, io(seen.name))]
    ensures var rest := EarliestRequeue(nodes, list[..i], target, pool, io);
      var a := Answer(list[i], nodes[list[i].name], target, pool, io(list[i].name)).requeueAfter;
      EarliestRequeue(nodes, list[..i + 1], target, pool, io) == if a > 0 && (rest == 0 || a < rest) then a else rest
  {
    PrefixOneMore(list, i);
    ProcessedAllPointwise(nodes, list[..i], target, pool, io);
  }

  /** The controller's view of the API server: nodes read and written one request at a time. */
  class NodeClient {
    var nodes: map<string, Node>

    constructor (nodes: map<string, Node>)
      ensures this.nodes == nodes
    {
      this.nodes := nodes;
    }

    method Update(name: string, n: Node, ok: bool) returns (done: bool)
      modifies this
      ensures done == (ok && name in old(nodes))
      ensures nodes == if done then old(nodes)[name := n] else old(nodes)
    {
      done := ok && name in nodes;
      if done {
        nodes := nodes[name := n];
      }
    }

    method CordonNode(name: string, ok: bool) returns (done: bool)
      modifies this
      ensures done == (ok && name in old(nodes))
      ensures nodes == if done then old(nodes)[name := Cordon(old(nodes)[name])] else old(nodes)
    {
      if name !in nodes {
        return false;
      }
      if ok && nodes[name].unschedulable && nodes[name].cordoned {
        assert nodes[name := Cordon(nodes[name])] == nodes;
        return true;
      }
      done := Update(name, nodes[name].(unschedulable := true, cordoned := true), ok);
    }

    method UncordonNode(name: string, ok: bool) returns (done: bool)
      modifies this
      ensures done == (ok && name in old(nodes))
      ensures nodes == if done then old(nodes)[name := Uncordon(old(nodes)[name])] else old(nodes)
    {
      if name !in nodes {
        return false;
      }
      if ok && !nodes[name].unschedulable && !nodes[name].cordoned {
        assert nodes[name := Uncordon(nodes[name])] == nodes;
        return true;
      }
      done := Update(name, nodes[name].(unschedulable := false, cordoned := false,
                                        drainStartedAt := NoStamp, drainRetryCount := 0), ok);
    }

    /** The three writes that hand a node its revision; only the first one's failure is fatal. */
    method SetDesiredRevision(name: string, target: string, pool: Pool, io: Io) returns (done: bool)
      modifies this
      ensures done == (io.desiredOk && name in old(nodes))
      ensures nodes == if done then old(nodes)[name := SetDesired(old(nodes)[name], target, pool.name, io)] else old(nodes)
    {
      if name !in nodes {
        return false;
      }
      done := Update(name, nodes[name].(desired := target), io.desiredOk);
      if !done {
        return;
      }
      var _ := Update(name, nodes[name].(desiredSetAt := At(io.now)), io.setAtOk);
      var _ := Update(name, nodes[name].(pool := pool.name), io.poolOk);
    }

    method SetDrainStartedAt(name: string, now: int, ok: bool) returns (done: bool)
      modifies this
      ensures done == (ok && name in old(nodes))
      ensures nodes == if done then old(nodes)[name := old(nodes)[name].(drainStartedAt := At(now))] else old(nodes)
    {
      if name !in nodes {
        return false;
      }
      done := Update(name, nodes[name].(drainStartedAt := At(now)), ok);
    }

    method SetDrainRetryCount(name: string, count: int, ok: bool) returns (done: bool)
      modifies this
      ensures done == (ok && name in old(nodes))
      ensures nodes == if done then old(nodes)[name := old(nodes)[name].(drainRetryCount := count)] else old(nodes)
    {
      if name !in nodes {
        return false;
      }
      done := Update(name, nodes[name].(drainRetryCount := count), ok);
    }

    method ProcessNodeUpdate(seen: Node, target: string, pool: Pool, io: Io) returns (r: NodeUpdateResult)
      modifies this
      ensures seen.name !in old(nodes) ==> nodes == old(nodes)
      ensures seen.name in old(nodes) ==>
        && nodes == old(nodes)[seen.name := Processed(seen, old(nodes)[seen.name], target, pool, io)]
        && r == Answer(seen, old(nodes)[seen.name], target, pool, io)
    {
      var name := seen.name;
      assert name in nodes ==> nodes == nodes[name := nodes[name]];
      if TakesShortcut(seen, pool) {
        var done := SetDesiredRevision(name, target, pool, io);
        return Requeue(if done then 10 * SECOND else 5 * SECOND);
      }
      var drainWasStarted := seen.drainStartedAt != NoStamp;
      if !IsNodeCordoned(seen) {
        var done := CordonNode(name, io.cordonOk);
        return if done then Requeue(SECOND).(cordoned := true) else Requeue(5 * SECOND);
      }
      if !io.listPodsOk {
        return Requeue(5 * SECOND);
      }
      var evictable := FilterEvictablePods(if name in nodes then nodes[name].pods else [], ROLLOUT_DRAIN);
      if |evictable| != 0 {
        var failed := !io.evictOk;
        if !drainWasStarted {
          var done := SetDrainStartedAt(name, io.now, io.drainStartOk);
          failed := failed || !done;
        }
        if failed {
          var retry := HandleDrainRetry(seen.drainStartedAt, io.now, pool.drainTimeoutSeconds, pool.drainRetrySeconds);
          if seen.drainStartedAt.At? {
            var _ := SetDrainRetryCount(name, seen.drainRetryCount + 1, io.retryCountOk);
          }
          return Requeue(retry.requeueAfter).(
            drainStuck := retry.setDrainStuck, drainFailed := true, drainStarted := !drainWasStarted);
        }
        return Requeue(5 * SECOND).(drainStarted := !drainWasStarted);
      }
      if seen.desired != target {
        var done := SetDesiredRevision(name, target, pool, io);
        return if done then Requeue(SECOND).(drainComplete := drainWasStarted) else Requeue(5 * SECOND);
      }
      if ShouldUncordon(seen, target) {
        var done := UncordonNode(name, io.uncordonOk);
        return if done then Requeue(0).(uncordoned := true) else Requeue(5 * SECOND);
      }
      return Requeue(10 * SECOND);
    }

    /** Processes listed nodes first to last and reports the earliest requeue any of them asked for
        (0 when none did). */
    method ProcessList(list: seq<Node>, target: string, pool: Pool, io: string -> Io) returns (minRequeue: int)
      requires NamesDistinct(list) && Names(list) <= nodes.Keys
      modifies this
      ensures nodes == ProcessedAll(old(nodes), list, target, pool, io)
      ensures minRequeue == EarliestRequeue(old(nodes), list, target, pool, io)
    {
      minRequeue := 0;
      for i := 0 to |list|
        invariant Names(list[..i]) <= old(nodes).Keys
        invariant nodes == ProcessedAll(old(nodes), list[..i], target, pool, io)
        invariant minRequeue == EarliestRequeue(old(nodes), list[..i], target, pool, io)
      {
        OneMoreProcessed(old(nodes), list, i, target, pool, io);
        var r := ProcessNodeUpdate(list[i], target, pool, io(list[i].name));
        if r.requeueAfter > 0 && (minRequeue == 0 || r.requeueAfter < minRequeue) {
          minRequeue := r.requeueAfter;
        }
      }
      assert list[..|list|] == list;
    }

    /** The node part of a reconcile: list, select, merge the two lists, process each. */
    method Reconcile(all: seq<Node>, target: string, pool: Pool, io: string -> Io) returns (minRequeue: int)
      requires NamesDistinct(all) && Names(all) <= nodes.Keys
      modifies this
      ensures var list := Worklist(all, target, CalculateMaxUnavailable(pool.maxUnavailable, |all|));
        && Names(list) <= old(nodes).Keys
        && nodes == ProcessedAll(old(nodes), list, target, pool, io)
        && minRequeue == EarliestRequeue(old(nodes), list, target, pool, io)
    {
      WorklistDistinct(all, target, CalculateMaxUnavailable(pool.maxUnavailable, |all|));
      var starting := SelectNodesForUpdate(pool.maxUnavailable, all, target);
      var list := CollectNodesInProgress(all, target);
      list := AppendMissing(list, starting);
      assert Names(list) <= Names(all);
      minRequeue := ProcessList(list, target, pool, io);
    }
  }

  /** The smallest positive requeue among the answers for a list, or 0. */
  function EarliestRequeue(
    nodes: map<string, Node>, list: seq<Node>, target: string, pool: Pool, io: string -> Io): (d: int)
    requires Names(list) <= nodes.Keys
    ensures d >= 0
    ensures forall seen | seen in list ::
      seen.name in nodes
      && var a := Answer(seen, nodes[seen.name], target, pool, io(seen.name)).requeueAfter;
         a > 0 ==> 0 < d <= a
  {
    if list == [] then 0
    else
      var front, seen := list[..|list| - 1], list[|list| - 1];
      assert Names(front) <= Names(list) && seen.name in Names(list);
      assert list == front + [seen];
      var rest := EarliestRequeue(nodes, front, target, pool, io);
      var a := Answer(seen, nodes[seen.name], target, pool, io(seen.name)).requeueAfter;
      if a > 0 && (rest == 0 || a < rest) then a else rest
  }

  lemma AsksUnlessOpened(seen: Node, live: Node, target: string, pool: Pool, io: Io)
    ensures var r := Answer(seen, live, target, pool, io); r.requeueAfter >= 0 && (r.requeueAfter == 0 <==> r.uncordoned)
  {
    RequeueMeans(seen, live, target, pool, io);
  }

  /** When the node asks to be looked at again. */
  function AsksAfter(nodes: map<string, Node>, seen: Node, target: string, pool: Pool, io: string -> Io): int
    requires seen.name in nodes
  {
    Answer(seen, nodes[seen.name], target, pool, io(seen.name)).requeueAfter
  }

  lemma {:induction false} NobodyAsks(nodes: map<string, Node>, list: seq<Node>, target: string, pool: Pool, io: string -> Io)
    requires Names(list) <= nodes.Keys && forall seen | seen in list :: seen.name in nodes && AsksAfter(nodes, seen, target, pool, io) == 0
    ensures EarliestRequeue(nodes, list, target, pool, io) == 0
  {
    if list != [] {
      var front, seen := list[..|list| - 1], list[|list| - 1];
      assert list == front + [seen] && Names(front) <= Names(list) && seen.name in Names(list);
      NobodyAsks(nodes, front, target, pool, io);
      assert AsksAfter(nodes, seen, target, pool, io) == 0;
    }
  }

  /** A reconcile goes to sleep, with nothing to come back for, only when every node it worked through was opened. */
  lemma SleepsIffAllOpened(nodes: map<string, Node>, list: seq<Node>, target: string, pool: Pool, io: string -> Io)
    requires Names(list) <= nodes.Keys
    ensures EarliestRequeue(nodes, list, target, pool, io) == 0
       <==> forall seen | seen in list :: seen.name in nodes && Answer(seen, nodes[seen.name], target, pool, io(seen.name)).uncordoned
  {
    forall seen | seen in list
      ensures seen.name in nodes
      ensures AsksAfter(nodes, seen, target, pool, io) == 0 <==> Answer(seen, nodes[seen.name], target, pool, io(seen.name)).uncordoned
      ensures AsksAfter(nodes, seen, target, pool, io) >= 0
    {
      assert seen.name in Names(list);
      AsksUnlessOpened(seen, nodes[seen.name], target, pool, io(seen.name));
    }
    if forall seen | seen in list :: AsksAfter(nodes, seen, target, pool, io) == 0 {
      NobodyAsks(nodes, list, target, pool, io);
    }
  }

  function NotNamed(names: set<string>): Node -> bool
  {
    (n: Node) => n.name !in names
  }

  /** Adds the nodes of `extra` whose names `base` does not have, in order. */
  method AppendMissing(base: seq<Node>, extra: seq<Node>) returns (r: seq<Node>)
    ensures r == base + Filter(extra, NotNamed(Names(base)))
    ensures Names(r) == Names(base) + Names(extra)
    ensures Names(base) !! Names(extra) ==> r == base + extra
  {
    r := base;
    var present := set n | n in base :: n.name;
    assert present == Names(base);
    for i := 0 to |extra|
      invariant r == base + Filter(extra[..i], NotNamed(Names(base)))
    {
      assert extra[..i + 1][..i] == extra[..i];
      if extra[i].name !in present {
        r := r + [extra[i]];
      }
    }
    assert extra[..|extra|] == extra;
    FilterMembers(extra, NotNamed(Names(base)));
    AppendedNames(base, extra, Filter(extra, NotNamed(Names(base))), r);
    if Names(base) !! Names(extra) {
      assert forall x | x in extra :: x.name in Names(extra);
      FilterAll(extra, NotNamed(Names(base)));
    }
  }

  lemma AppendedNames(base: seq<Node>, extra: seq<Node>, added: seq<Node>, r: seq<Node>)
    requires r == base + added
    requires forall x :: x in added <==> x in extra && x.name !in Names(base)
    ensures Names(r) == Names(base) + Names(extra)
  {
    forall k ensures k in Names(r) <==> k in Names(base) || k in Names(extra) {
      if k in Names(extra) && k !in Names(base) {
        var x :| x in extra && x.name == k;
        assert x in r;
      }
      if k in Names(base) {
        var x :| x in base && x.name == k;
        assert x in r;
      }
    }
  }
}
