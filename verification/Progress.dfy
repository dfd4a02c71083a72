/** A rollout finishes.

For a fixed target, with agents that neither fail nor reboot and API calls that succeed (evictions may
still be refused), time is cut into rounds: one reconcile, then every agent handles its node, then
pods move.  Agents may restart, any of them and at any time but between the report of a node's target and its
uncordon.  Nodes may start anywhere an earlier target left them: open, cordoned and still draining, told another
revision.  Pods may move anywhere the scheduler allows, so nodes not yet cordoned can gain any number
of them; what is asked of the environment is only that while the controller is draining some node, some
evictable pod leaves some such node. */
module Progress {
  import opened Order
  import opened Nodes
  import opened Rollout
  import opened NodeUpdate
  import opened Protocol

  /** An agent handles its node from guard to report: Begin followed by a Finish that succeeds. */
  function AgentRound(n: Node): Node
  {
    if WantsWork(n) then n.(state := Done, current := n.desired) else n
  }

  /** The same with restarts of the agent before it, after it, or both. */
  function AgentTurn(n: Node, before: bool, after: bool): Node
  {
    var handled := AgentRound(if before then n.(state := Idle) else n);
    if after then handled.(state := Idle) else handled
  }

  /** Restarts show in the state only, and not in that of a node that has just reported. */
  lemma TurnFrame(n: Node, before: bool, after: bool)
    ensures var t, r := AgentTurn(n, before, after), AgentRound(n);
      && t == r.(state := t.state) && (t.state == r.state || t.state == Idle)
      && (WantsWork(n) && !after ==> t.state == Done)
  {
  }

  /** AgentRound is what the two agent steps of the protocol do. */
  lemma AgentRoundIsTwoSteps(n: Node, a: Agent)
    requires WantsWork(n) && a.working.None? && !AwaitsReboot(n, a)
    ensures AgentEnabled(n, a, Begin)
    ensures var n1, a1 := AgentWrites(n, a, Begin), AgentMemory(n.desired, a, Begin);
      AgentEnabled(n1, a1, Finish(Success(true))) && AgentWrites(n1, a1, Finish(Success(true))) == AgentRound(n)
  {
  }

  /** The controller is draining the node: cordoned, in progress, and not yet drained. */
  predicate Draining(n: Node, target: string)
  {
    n.cordoned && !Drained(n) && (n.current != target || n.state.Done?)
  }

  /** The calls a round needs to succeed. */
  predicate Works(io: Io)
  {
    io.cordonOk && io.listPodsOk && io.desiredOk && io.uncordonOk
  }

  /** The choices that differ from round to round. */
  datatype Choices = Choices(
    listing: seq<Node>, hasLastSuccessfulRevision: bool, io: string -> Io,
    before: set<string>, after: set<string>)  // whose agents restart before and after their turn

  ghost predicate Legal(s: map<string, Node>, ch: Choices)
  {
    IsListing(ch.listing, s) && forall k | k in s :: Works(ch.io(k))
  }

  ghost function Work(s: map<string, Node>, target: string, pool: Pool, ch: Choices): seq<Node>
  {
    Worklist(ch.listing, target, CalculateMaxUnavailable(pool.maxUnavailable, |ch.listing|))
  }

  lemma WorkIsListed(s: map<string, Node>, target: string, pool: Pool, ch: Choices)
    requires Legal(s, ch)
    ensures var list := Work(s, target, pool, ch);
      NamesDistinct(list) && Names(list) <= s.Keys && forall w | w in list :: w == s[w.name]
  {
    WorklistDistinct(ch.listing, target, CalculateMaxUnavailable(pool.maxUnavailable, |ch.listing|));
  }

  /** The nodes once the reconcile of the round is through. */
  ghost function AfterReconcile(s: map<string, Node>, target: string, pool: Pool, ch: Choices): map<string, Node>
    requires Legal(s, ch)
  {
    WorkIsListed(s, target, pool, ch);
    ProcessedAll(s, Work(s, target, pool, ch), target,
                 pool.(hasLastSuccessfulRevision := ch.hasLastSuccessfulRevision), ch.io)
  }

  /** Cordoned at its target, with nothing to make its agent report `done` any more: nobody will touch it. */
  predicate Stuck(n: Node, target: string)
  {
    n.cordoned && n.current == target && !n.state.Done? && (n.desired == "" || n.desired == target)
  }

  /** A restart now would leave the node stuck. */
  predicate AwaitsUncordon(n: Node, target: string)
  {
    n.cordoned && n.current == target && n.state.Done? && (n.desired == "" || n.desired == target)
  }

  ghost predicate Round(s: map<string, Node>, s': map<string, Node>, target: string, pool: Pool, ch: Choices)
  {
    && Legal(s, ch)
    && var mid := AfterReconcile(s, target, pool, ch);
    && s'.Keys == s.Keys == mid.Keys
    && (forall k | k in s' ::
          && s'[k] == AgentTurn(mid[k], k in ch.before, k in ch.after).(pods := s'[k].pods)
          && (k in ch.before ==> !AwaitsUncordon(mid[k], target))
          && (k in ch.after ==> !AwaitsUncordon(AgentRound(mid[k]), target))
          && PodsMayBecome(mid[k], s'[k].pods))
    && ((exists k :: k in mid && Draining(mid[k], target)) ==>
         exists k :: k in mid && Draining(mid[k], target) && |Evictable(s'[k].pods)| < |Evictable(mid[k].pods)|)
  }

  /** Where a node can be between rounds: open and with nothing to reach, or cordoned. */
  predicate Settled(n: Node)
  {
    && !n.paused && n.cordoned == n.unschedulable && !n.rebootPending
    && !n.state.Applying? && !n.state.Rebooting?
    && (!n.cordoned ==> n.drainStartedAt == NoStamp && (n.desired == "" || n.desired == n.current))
  }

  predicate Finished(n: Node, target: string)
  {
    n.current == target && !n.cordoned && !n.unschedulable
  }

  ghost predicate AllSettled(s: map<string, Node>, target: string)
  {
    target != "" && forall k | k in s :: s[k].name == k && Settled(s[k])
  }

  ghost predicate NoneStuck(s: map<string, Node>, target: string)
  {
    forall k | k in s :: !Stuck(s[k], target)
  }

  ghost predicate AllFinished(s: map<string, Node>, target: string)
  {
    forall k | k in s :: Finished(s[k], target)
  }

  // ------------------------------------------------------------- the measure

  /** The nodes whose update has not begun. */
  ghost function Waiting(s: map<string, Node>, target: string): set<string>
  {
    set k | k in s && s[k].current != target && !s[k].cordoned
  }

  /** How many rounds a drained node is from its uncordon, at most: one if it is at its target and has been told so,
      three if its agent is about to take it somewhere else. */
  function Rank(n: Node, target: string): nat
  {
    if n.current == target && n.desired == target then 1
    else if WantsWork(n) && n.desired != target then 3
    else 2
  }

  /** What is left to do on a node whose update has begun. */
  function Weight(n: Node, target: string): nat
  {
    if n.cordoned then |Evictable(n.pods)| + Rank(n, target) else 0
  }

  function Load(s: map<string, Node>, ks: seq<string>, target: string): nat
    requires forall k | k in ks :: k in s
  {
    if ks == [] then 0 else Weight(s[ks[0]], target) + Load(s, ks[1..], target)
  }

  lemma {:induction false} LoadFalls(s: map<string, Node>, s': map<string, Node>, ks: seq<string>, target: string)
    requires forall k | k in ks :: k in s && k in s' && Weight(s'[k], target) <= Weight(s[k], target)
    ensures Load(s', ks, target) <= Load(s, ks, target)
    ensures (exists k :: k in ks && Weight(s'[k], target) < Weight(s[k], target)) ==>
      Load(s', ks, target) < Load(s, ks, target)
  {
    if ks != [] {
      LoadFalls(s, s', ks[1..], target);
      if k :| k in ks && Weight(s'[k], target) < Weight(s[k], target) {
        assert k == ks[0] || k in ks[1..];
      }
    }
  }

  // ------------------------------------------------------------- one node, one round

  lemma FewerPods(a: seq<Pod>, b: seq<Pod>)
    requires multiset(a) <= multiset(b)
    ensures |a| <= |b|
  {
    assert |multiset(a)| == |a| && |multiset(b)| == |b|;
    assert multiset(b) == multiset(a) + (multiset(b) - multiset(a));
  }

  /** A node that still hosts evictable pods is drained further, and nothing else. */
  lemma UndrainedNodeWaits(n: Node, target: string, pool: Pool, io: Io)
    requires Settled(n) && n.cordoned && !Drained(n) && Works(io)
    ensures var mid := Processed(n, n, target, pool, io);
      && mid == n.(drainStartedAt := mid.drainStartedAt, drainRetryCount := mid.drainRetryCount)
  {
  }

  /** A drained node goes to its target, or is opened once it is there. */
  lemma DrainedNodeMoves(n: Node, target: string, pool: Pool, io: Io)
    requires Settled(n) && n.cordoned && Drained(n) && Works(io)
    ensures Processed(n, n, target, pool, io) ==
      if n.desired != target then SetDesired(n, target, pool.name, io)
      else if n.current == target && n.state.Done? then Uncordon(n)
      else n
  {
  }

  /** What a turn does to the fields that decide. */
  lemma TurnDecides(mid: Node, target: string, before: bool, after: bool)
    requires !mid.paused
    ensures var t := AgentTurn(mid, before, after);
      && t.cordoned == mid.cordoned && t.unschedulable == mid.unschedulable && t.desired == mid.desired && t.pods == mid.pods
      && t.paused == mid.paused && t.rebootPending == mid.rebootPending && t.drainStartedAt == mid.drainStartedAt && t.name == mid.name
      && t.current == (if mid.desired != "" then mid.desired else mid.current)
      && (t.state == mid.state || t.state == Done || t.state == Idle)
  {
    TurnFrame(mid, before, after);
  }

  /** How a cordoned node comes out of a round: never further from its uncordon, nearer if it is drained and not
      stuck, and stuck exactly if it was. */
  ghost predicate Continues(n: Node, n': Node, target: string)
  {
    && Settled(n') && (n'.cordoned || Finished(n', target))
    && Weight(n', target) <= Weight(n, target)
    && (Drained(n) && !Stuck(n, target) ==> Weight(n', target) < Weight(n, target))
    && (Stuck(n', target) <==> Stuck(n, target))
  }

  lemma UndrainedContinues(n: Node, mid: Node, target: string, pods: seq<Pod>, before: bool, after: bool)
    requires target != "" && Settled(n) && n.cordoned && !Drained(n)
    requires mid == n.(drainStartedAt := mid.drainStartedAt, drainRetryCount := mid.drainRetryCount) && PodsMayBecome(mid, pods)
    requires (before ==> !AwaitsUncordon(mid, target)) && (after ==> !AwaitsUncordon(AgentRound(mid), target))
    ensures Continues(n, AgentTurn(mid, before, after).(pods := pods), target)
  {
    TurnDecides(mid, target, before, after);
    FewerPods(Evictable(pods), Evictable(mid.pods));
  }

  lemma DrainedContinues(n: Node, mid: Node, target: string, pool: Pool, io: Io, pods: seq<Pod>, before: bool, after: bool)
    requires target != "" && Settled(n) && n.cordoned && Drained(n) && PodsMayBecome(mid, pods)
    requires mid == if n.desired != target then SetDesired(n, target, pool.name, io)
                    else if n.current == target && n.state.Done? then Uncordon(n)
                    else n
    requires !Stuck(n, target) && (n.current != target || n.state.Done?)
    requires (before ==> !AwaitsUncordon(mid, target)) && (after ==> !AwaitsUncordon(AgentRound(mid), target))
    ensures Continues(n, AgentTurn(mid, before, after).(pods := pods), target)
  {
    TurnDecides(mid, target, before, after);
    if mid.unschedulable {
      FewerPods(Evictable(pods), Evictable(mid.pods));
    }
  }

  /** A cordoned node that the controller passes over: at the target and not done.  Its agent may still be
      about to take it elsewhere; otherwise it is stuck. */
  lemma PassedOverContinues(n: Node, target: string, pods: seq<Pod>, before: bool, after: bool)
    requires target != "" && Settled(n) && n.cordoned && n.current == target && !n.state.Done? && PodsMayBecome(n, pods)
    ensures Continues(n, AgentTurn(n, before, after).(pods := pods), target)
  {
    TurnDecides(n, target, before, after);
    FewerPods(Evictable(pods), Evictable(n.pods));
  }

  /** A node whose update has begun moves towards uncordon and never back. */
  lemma ContinuedNode(n: Node, target: string, pool: Pool, io: Io, pods: seq<Pod>, before: bool, after: bool)
    requires target != "" && Settled(n) && n.cordoned && Works(io) && InProgress(n, target)
    requires PodsMayBecome(Processed(n, n, target, pool, io), pods)
    requires before ==> !AwaitsUncordon(Processed(n, n, target, pool, io), target)
    requires after ==> !AwaitsUncordon(AgentRound(Processed(n, n, target, pool, io)), target)
    ensures Continues(n, AgentTurn(Processed(n, n, target, pool, io), before, after).(pods := pods), target)
  {
    var mid := Processed(n, n, target, pool, io);
    if !Drained(n) {
      UndrainedNodeWaits(n, target, pool, io);
      UndrainedContinues(n, mid, target, pods, before, after);
    } else {
      DrainedNodeMoves(n, target, pool, io);
      DrainedContinues(n, mid, target, pool, io, pods, before, after);
    }
  }

  /** A node that is started is cordoned, or by the shortcut at once done. */
  lemma StartedNode(n: Node, target: string, pool: Pool, io: Io, pods: seq<Pod>, before: bool, after: bool)
    requires target != "" && Settled(n) && Eligible(n, target) && Works(io)
    ensures var n' := AgentTurn(Processed(n, n, target, pool, io), before, after).(pods := pods);
      Settled(n') && (n'.cordoned ==> n'.current != target) && (n'.cordoned || Finished(n', target))
  {
    assert !n.cordoned;
    TurnDecides(Processed(n, n, target, pool, io), target, before, after);
    if TakesShortcut(n, pool) {
      assert Processed(n, n, target, pool, io) == SetDesired(n, target, pool.name, io);
    } else {
      assert Processed(n, n, target, pool, io) == Cordon(n);
    }
  }

  /** An open node that the round does not touch is as it was, but for its pods and a restart of its agent. */
  lemma UntouchedNode(n: Node, target: string, pods: seq<Pod>, before: bool, after: bool)
    requires Settled(n) && !n.cordoned
    ensures RoundOn(n, AgentTurn(n, before, after).(pods := pods), target, false)
    ensures AgentTurn(n, before, after).name == n.name
  {
    TurnDecides(n, target, before, after);
  }

  /** Between rounds, unavailable means cordoned. */
  lemma UnavailableMeansCordoned(n: Node)
    requires Settled(n)
    ensures IsNodeUnavailable(n) <==> n.cordoned
  {
  }

  // ------------------------------------------------------------- all nodes, one round

  /** How each node comes out of a round. */
  ghost predicate RoundOn(n: Node, n': Node, target: string, worked: bool)
  {
    && Settled(n')
    && (n.cordoned ==> Continues(n, n', target))
    && (!n.cordoned ==> !Stuck(n', target))
    && (!n.cordoned && worked ==> n'.cordoned || Finished(n', target))
    && (!n.cordoned && !worked ==> n'.cordoned == n.cordoned && n'.current == n.current && n'.unschedulable == n.unschedulable)
  }

  /** What the reconcile of a round does to one node. */
  lemma MidNode(s: map<string, Node>, target: string, pool: Pool, ch: Choices, k: string)
    requires Legal(s, ch) && AllSettled(s, target) && k in s
    ensures var mid, n, worked := AfterReconcile(s, target, pool, ch), s[k], k in Names(Work(s, target, pool, ch));
      && k in mid && mid[k].name == k
      && (n.cordoned ==> (worked <==> InProgress(n, target))) && (worked && !n.cordoned ==> Eligible(n, target))
      && mid[k] == if worked then Processed(n, n, target, pool.(hasLastSuccessfulRevision := ch.hasLastSuccessfulRevision), ch.io(k)) else n
  {
    var list := Work(s, target, pool, ch);
    var pool' := pool.(hasLastSuccessfulRevision := ch.hasLastSuccessfulRevision);
    var n := s[k];
    WorkIsListed(s, target, pool, ch);
    ProcessedAllPointwise(s, list, target, pool', ch.io);
    assert n in ch.listing by {
      assert k in Names(ch.listing);
    }
    ProcessedKeepsName(n, n, target, pool', ch.io(k));
    if n.cordoned {
      ContinuedIffInProgress(s, target, pool, ch, n);
    }
    if k in Names(list) {
      if !n.cordoned {
        WorkedIsEligible(s, target, pool, ch, n);
      }
      var w :| w in list && w.name == k;
      assert w == n;
    }
  }

  lemma RoundNode(s: map<string, Node>, s': map<string, Node>, target: string, pool: Pool, ch: Choices, k: string)
    requires Round(s, s', target, pool, ch) && AllSettled(s, target) && k in s
    ensures RoundOn(s[k], s'[k], target, k in Names(Work(s, target, pool, ch)))
    ensures s'[k].name == k
  {
    var pool' := pool.(hasLastSuccessfulRevision := ch.hasLastSuccessfulRevision);
    var mid, n := AfterReconcile(s, target, pool, ch), s[k];
    MidNode(s, target, pool, ch, k);
    TurnFrame(mid[k], k in ch.before, k in ch.after);
    assert Works(ch.io(k)) && PodsMayBecome(mid[k], s'[k].pods);
    if n.cordoned {
      if InProgress(n, target) {
        ContinuedNode(n, target, pool', ch.io(k), s'[k].pods, k in ch.before, k in ch.after);
      } else {
        PassedOverContinues(n, target, s'[k].pods, k in ch.before, k in ch.after);
      }
    } else if k in Names(Work(s, target, pool, ch)) {
      StartedNode(n, target, pool', ch.io(k), s'[k].pods, k in ch.before, k in ch.after);
    } else {
      UntouchedNode(n, target, s'[k].pods, k in ch.before, k in ch.after);
    }
  }

  /** A cordoned node is on the worklist exactly when it is in progress. */
  lemma ContinuedIffInProgress(s: map<string, Node>, target: string, pool: Pool, ch: Choices, n: Node)
    requires Legal(s, ch) && n in ch.listing && n.name in s && s[n.name] == n && Settled(n) && n.cordoned
    ensures n.name in Names(Work(s, target, pool, ch)) <==> InProgress(n, target)
  {
    WorkIsListed(s, target, pool, ch);
    FilterMembers(ch.listing, m => InProgress(m, target));
    SelectionMeetsSpec(ch.listing, target, CalculateMaxUnavailable(pool.maxUnavailable, |ch.listing|));
    UnavailableMeansCordoned(n);
    if InProgress(n, target) {
      assert n in Continuing(ch.listing, target) && n in Work(s, target, pool, ch);
    }
  }

  /** A node on the worklist that is not cordoned was selected. */
  lemma WorkedIsEligible(s: map<string, Node>, target: string, pool: Pool, ch: Choices, n: Node)
    requires Legal(s, ch) && n.name in s && s[n.name] == n && Settled(n) && !n.cordoned
    requires n.name in Names(Work(s, target, pool, ch))
    ensures n in Work(s, target, pool, ch) && Eligible(n, target)
  {
    WorkIsListed(s, target, pool, ch);
    FilterMembers(ch.listing, m => InProgress(m, target));
    SelectionMeetsSpec(ch.listing, target, CalculateMaxUnavailable(pool.maxUnavailable, |ch.listing|));
    UnavailableMeansCordoned(n);
  }

  /** With nothing in progress and something to do, something is started: the budget is never zero. */
  lemma SomethingStarts(s: map<string, Node>, target: string, pool: Pool, ch: Choices) returns (k: string)
    requires Legal(s, ch) && AllSettled(s, target) && !AllFinished(s, target)
    requires forall k | k in s :: !s[k].cordoned
    ensures k in Waiting(s, target) && k in Names(Work(s, target, pool, ch))
  {
    var budget := CalculateMaxUnavailable(pool.maxUnavailable, |ch.listing|);
    var k0 :| k0 in s && !Finished(s[k0], target);
    forall k | k in s ensures !IsNodeUnavailable(s[k]) {
      UnavailableMeansCordoned(s[k]);
    }
    assert Unavailable(s) == {};
    ListingCounts(ch.listing, s);
    SelectionMeetsSpec(ch.listing, target, budget);
    var sel := Selected(ch.listing, target, budget);
    assert k0 in Names(ch.listing);
    var n0 :| n0 in ch.listing && n0.name == k0;
    assert n0 == s[k0] && Eligible(n0, target);
    FilterMembers(ch.listing, n => Eligible(n, target));
    assert |Filter(ch.listing, n => Eligible(n, target))| > 0;
    assert |sel| > 0;
    var n := sel[0];
    assert n in Work(s, target, pool, ch);
    k := n.name;
    assert n in ch.listing && s[k] == n;
  }

  /** Every node comes out of a round as RoundOn says. */
  ghost predicate RoundOnAll(s: map<string, Node>, s': map<string, Node>, target: string, worked: set<string>)
  {
    s'.Keys == s.Keys && forall k | k in s :: s'[k].name == k && RoundOn(s[k], s'[k], target, k in worked)
  }

  lemma RoundNodes(s: map<string, Node>, s': map<string, Node>, target: string, pool: Pool, ch: Choices)
    requires Round(s, s', target, pool, ch) && AllSettled(s, target)
    ensures RoundOnAll(s, s', target, Names(Work(s, target, pool, ch)))
  {
    forall k | k in s ensures s'[k].name == k && RoundOn(s[k], s'[k], target, k in Names(Work(s, target, pool, ch))) {
      RoundNode(s, s', target, pool, ch, k);
    }
  }

  lemma WaitingShrinks(s: map<string, Node>, s': map<string, Node>, target: string, worked: set<string>)
    requires RoundOnAll(s, s', target, worked)
    ensures Waiting(s', target) <= Waiting(s, target)
  {
  }

  /** Nothing gets stuck in a round, and nothing that is stuck gets free. */
  lemma StuckStays(s: map<string, Node>, s': map<string, Node>, target: string, worked: set<string>)
    requires RoundOnAll(s, s', target, worked)
    ensures forall k | k in s :: Stuck(s'[k], target) <==> Stuck(s[k], target)
  {
  }

  /** One round: the lexicographic measure (nodes waiting, work begun) falls, and nothing is lost. */
  lemma RoundProgress(s: map<string, Node>, s': map<string, Node>, ks: seq<string>, target: string, pool: Pool, ch: Choices)
    requires Round(s, s', target, pool, ch) && AllSettled(s, target) && NoneStuck(s, target) && !AllFinished(s, target)
    requires forall k :: k in ks <==> k in s
    ensures s'.Keys == s.Keys && AllSettled(s', target) && NoneStuck(s', target)
    ensures Waiting(s', target) <= Waiting(s, target)
    ensures Waiting(s', target) != Waiting(s, target) || Load(s', ks, target) < Load(s, ks, target)
  {
    RoundNodes(s, s', target, pool, ch);
    StuckStays(s, s', target, Names(Work(s, target, pool, ch)));
    WaitingShrinks(s, s', target, Names(Work(s, target, pool, ch)));
    if Waiting(s', target) == Waiting(s, target) {
      LoadStrictlyFalls(s, s', ks, target, pool, ch);
    }
  }

  /** If no node began, every open node stays open. */
  lemma OpenStaysOpen(s: map<string, Node>, s': map<string, Node>, target: string, pool: Pool, ch: Choices)
    requires Round(s, s', target, pool, ch) && AllSettled(s, target)
    requires RoundOnAll(s, s', target, Names(Work(s, target, pool, ch))) && Waiting(s', target) == Waiting(s, target)
    ensures forall k | k in s && !s[k].cordoned :: !s'[k].cordoned
  {
    forall k | k in s && !s[k].cordoned ensures !s'[k].cordoned {
      if k in Names(Work(s, target, pool, ch)) {
        WorkedIsEligible(s, target, pool, ch, s[k]);
        assert k in Waiting(s, target);
      }
    }
  }

  /** With something to do and nobody stuck, some node is in progress or begins. */
  lemma SomeNodeInProgress(s: map<string, Node>, s': map<string, Node>, target: string, pool: Pool, ch: Choices) returns (k: string)
    requires Round(s, s', target, pool, ch) && AllSettled(s, target) && !AllFinished(s, target)
    requires RoundOnAll(s, s', target, Names(Work(s, target, pool, ch))) && Waiting(s', target) == Waiting(s, target)
    ensures k in s && s[k].cordoned
  {
    if forall k | k in s :: !s[k].cordoned {
      k := SomethingStarts(s, target, pool, ch);
      assert false;
    }
    k :| k in s && s[k].cordoned;
  }

  /** No node newly carries load and one sheds some: the load falls. */
  lemma LoadFallsWith(s: map<string, Node>, s': map<string, Node>, ks: seq<string>, target: string, worked: set<string>, j: string)
    requires RoundOnAll(s, s', target, worked) && forall k :: k in ks <==> k in s
    requires forall k | k in s && !s[k].cordoned :: !s'[k].cordoned
    requires j in s && Weight(s'[j], target) < Weight(s[j], target)
    ensures Load(s', ks, target) < Load(s, ks, target)
  {
    LoadFalls(s, s', ks, target);
    assert j in ks;
  }

  lemma LoadStrictlyFalls(s: map<string, Node>, s': map<string, Node>, ks: seq<string>, target: string, pool: Pool, ch: Choices)
    requires Round(s, s', target, pool, ch) && AllSettled(s, target) && NoneStuck(s, target) && !AllFinished(s, target)
    requires forall k :: k in ks <==> k in s
    requires RoundOnAll(s, s', target, Names(Work(s, target, pool, ch)))
    requires Waiting(s', target) == Waiting(s, target)
    ensures Load(s', ks, target) < Load(s, ks, target)
  {
    OpenStaysOpen(s, s', target, pool, ch);
    var k := SomeNodeInProgress(s, s', target, pool, ch);
    var j := SomeNodeGetsLighter(s, s', target, pool, ch, k);
    LoadFallsWith(s, s', ks, target, Names(Work(s, target, pool, ch)), j);
  }

  lemma SomeNodeGetsLighter(s: map<string, Node>, s': map<string, Node>, target: string, pool: Pool, ch: Choices, k: string) returns (j: string)
    requires Round(s, s', target, pool, ch) && AllSettled(s, target) && NoneStuck(s, target) && k in s && s[k].cordoned
    requires RoundOnAll(s, s', target, Names(Work(s, target, pool, ch)))
    requires forall i | i in s && !s[i].cordoned :: !s'[i].cordoned
    ensures j in s && Weight(s'[j], target) < Weight(s[j], target)
  {
    if i :| i in s && s[i].cordoned && Drained(s[i]) {
      j := i;
      assert Continues(s[i], s'[i], target);
    } else {
      SomeNodeSheds(s, s', target, pool, ch, k);
      j :| j in s && Weight(s'[j], target) < Weight(s[j], target);
    }
  }

  /** When every cordoned node still hosts pods, one of them gets lighter: its agent takes it from where it was
      told to go, or the environment takes a pod from a node the controller is draining. */
  lemma SomeNodeSheds(s: map<string, Node>, s': map<string, Node>, target: string, pool: Pool, ch: Choices, k: string)
    requires Round(s, s', target, pool, ch) && AllSettled(s, target) && NoneStuck(s, target) && k in s && s[k].cordoned
    requires forall j | j in s && s[j].cordoned :: !Drained(s[j])
    requires forall j | j in s && !s[j].cordoned :: !s'[j].cordoned
    ensures exists j :: j in s && Weight(s'[j], target) < Weight(s[j], target)
  {
    var mid := AfterReconcile(s, target, pool, ch);
    MidOfUndrained(s, target, pool, ch, k);
    if Draining(mid[k], target) {
      var j := LighterNode(s, s', target, pool, ch);
      if s[j].cordoned {
        MidOfUndrained(s, target, pool, ch, j);
        LighterWeighsLess(s[j], mid[j], s'[j], target, j in ch.before, j in ch.after);
      }
    } else {
      MovedOnWeighsLess(s[k], mid[k], s'[k], target, k in ch.before, k in ch.after);
    }
  }

  lemma MidOfUndrained(s: map<string, Node>, target: string, pool: Pool, ch: Choices, k: string)
    requires Legal(s, ch) && AllSettled(s, target) && k in s && s[k].cordoned && !Drained(s[k])
    ensures var mid := AfterReconcile(s, target, pool, ch);
      k in mid && mid[k] == s[k].(drainStartedAt := mid[k].drainStartedAt, drainRetryCount := mid[k].drainRetryCount)
  {
    MidNode(s, target, pool, ch, k);
    UndrainedNodeWaits(s[k], target, pool.(hasLastSuccessfulRevision := ch.hasLastSuccessfulRevision), ch.io(k));
  }

  lemma LighterWeighsLess(n: Node, mid: Node, n': Node, target: string, before: bool, after: bool)
    requires target != "" && Settled(n) && n.cordoned
    requires mid == n.(drainStartedAt := mid.drainStartedAt, drainRetryCount := mid.drainRetryCount)
    requires n' == AgentTurn(mid, before, after).(pods := n'.pods) && |Evictable(n'.pods)| < |Evictable(mid.pods)|
    ensures Weight(n', target) < Weight(n, target)
  {
    TurnDecides(mid, target, before, after);
  }

  lemma MovedOnWeighsLess(n: Node, mid: Node, n': Node, target: string, before: bool, after: bool)
    requires target != "" && Settled(n) && n.cordoned && n.current == target && !n.state.Done? && !Stuck(n, target)
    requires mid == n.(drainStartedAt := mid.drainStartedAt, drainRetryCount := mid.drainRetryCount)
    requires n' == AgentTurn(mid, before, after).(pods := n'.pods) && PodsMayBecome(mid, n'.pods)
    ensures Weight(n', target) < Weight(n, target)
  {
    TurnDecides(mid, target, before, after);
    FewerPods(Evictable(n'.pods), Evictable(mid.pods));
  }

  lemma LighterNode(s: map<string, Node>, s': map<string, Node>, target: string, pool: Pool, ch: Choices) returns (j: string)
    requires Round(s, s', target, pool, ch)
    requires exists k :: k in s && Draining(AfterReconcile(s, target, pool, ch)[k], target)
    ensures j in s && s'[j].cordoned
    ensures |Evictable(s'[j].pods)| < |Evictable(AfterReconcile(s, target, pool, ch)[j].pods)|
  {
    var mid := AfterReconcile(s, target, pool, ch);
    j :| j in mid && Draining(mid[j], target) && |Evictable(s'[j].pods)| < |Evictable(mid[j].pods)|;
    TurnFrame(mid[j], j in ch.before, j in ch.after);
  }

  /** Once finished, a rollout stays finished. */
  lemma FinishedIsStable(s: map<string, Node>, s': map<string, Node>, target: string, pool: Pool, ch: Choices)
    requires Round(s, s', target, pool, ch) && AllSettled(s, target) && AllFinished(s, target)
    ensures AllSettled(s', target) && AllFinished(s', target)
  {
    forall k | k in s ensures Settled(s'[k]) && s'[k].name == k && Finished(s'[k], target) {
      RoundNode(s, s', target, pool, ch, k);
      if k in Names(Work(s, target, pool, ch)) {
        WorkedIsEligible(s, target, pool, ch, s[k]);
      }
    }
  }

  ghost predicate RoundAt(run: nat -> map<string, Node>, choices: nat -> Choices, target: string, pool: Pool, i: nat)
  {
    Round(run(i), run(i + 1), target, pool, choices(i))
  }

  lemma ProgressAt(run: nat -> map<string, Node>, choices: nat -> Choices, ks: seq<string>, target: string, pool: Pool, i: nat)
    requires RoundAt(run, choices, target, pool, i)
    requires AllSettled(run(i), target) && NoneStuck(run(i), target) && !AllFinished(run(i), target)
    requires forall k :: k in ks <==> k in run(i)
    ensures AllSettled(run(i + 1), target) && NoneStuck(run(i + 1), target) && (forall k :: k in ks <==> k in run(i + 1))
    ensures Waiting(run(i + 1), target) <= Waiting(run(i), target)
    ensures Waiting(run(i + 1), target) != Waiting(run(i), target) || Load(run(i + 1), ks, target) < Load(run(i), ks, target)
  {
    RoundProgress(run(i), run(i + 1), ks, target, pool, choices(i));
  }

  /** Every infinite sequence of rounds with no node stuck reaches a round at which all nodes are at the target,
      uncordoned and schedulable. */
  lemma {:induction false} RolloutTerminates(
    run: nat -> map<string, Node>, choices: nat -> Choices, ks: seq<string>, target: string, pool: Pool, from: nat)
    returns (end: nat)
    requires forall i: nat :: RoundAt(run, choices, target, pool, i)
    requires AllSettled(run(from), target) && NoneStuck(run(from), target)
    requires forall k :: k in ks <==> k in run(from)
    ensures from <= end && AllFinished(run(end), target)
    decreases Waiting(run(from), target), Load(run(from), ks, target)
  {
    if AllFinished(run(from), target) {
      return from;
    }
    ProgressAt(run, choices, ks, target, pool, from);
    end := RolloutTerminates(run, choices, ks, target, pool, from + 1);
  }

  lemma StuckAt(run: nat -> map<string, Node>, choices: nat -> Choices, target: string, pool: Pool, k: string, i: nat)
    requires RoundAt(run, choices, target, pool, i) && AllSettled(run(i), target) && k in run(i) && Stuck(run(i)[k], target)
    ensures AllSettled(run(i + 1), target) && k in run(i + 1) && Stuck(run(i + 1)[k], target)
  {
    var s, s' := run(i), run(i + 1);
    RoundNodes(s, s', target, pool, choices(i));
    StuckStays(s, s', target, Names(Work(s, target, pool, choices(i))));
  }

  /** A stuck node is stuck in every later round. */
  lemma {:induction false} StuckForGood(
    run: nat -> map<string, Node>, choices: nat -> Choices, target: string, pool: Pool, k: string, from: nat, end: nat)
    requires forall i: nat :: RoundAt(run, choices, target, pool, i)
    requires AllSettled(run(from), target) && k in run(from) && Stuck(run(from)[k], target) && from <= end
    ensures AllSettled(run(end), target) && k in run(end) && Stuck(run(end)[k], target)
    decreases end - from
  {
    if from < end {
      StuckAt(run, choices, target, pool, k, from);
      StuckForGood(run, choices, target, pool, k, from + 1, end);
    }
  }

  /** A rollout finishes exactly when no node starts out stuck. */
  lemma RolloutFinishesIffNoneStuck(
    run: nat -> map<string, Node>, choices: nat -> Choices, ks: seq<string>, target: string, pool: Pool, from: nat)
    requires forall i: nat :: RoundAt(run, choices, target, pool, i)
    requires AllSettled(run(from), target) && forall k :: k in ks <==> k in run(from)
    ensures (exists end: nat :: from <= end && AllFinished(run(end), target)) <==> NoneStuck(run(from), target)
  {
    if NoneStuck(run(from), target) {
      var end := RolloutTerminates(run, choices, ks, target, pool, from);
      assert from <= end && AllFinished(run(end), target);
    }
    if end: nat :| from <= end && AllFinished(run(end), target) {
      forall k | k in run(from) ensures !Stuck(run(from)[k], target) {
        if Stuck(run(from)[k], target) {
          StuckForGood(run, choices, target, pool, k, from, end);
          assert false;
        }
      }
    }
  }

  // ------------------------------------------------------------- how nodes get stuck

  /** A stuck node whose agent is idle: cordoned at its target, and its agent does not report `done`. */
  predicate Stranded(n: Node, a: Agent, target: string)
  {
    !n.paused && Stuck(n, target) && !n.rebootPending && a.working.None?
  }

  /** The controller picks up a cordoned node at its target exactly when the agent reports `done`. */
  lemma PickedUpIffDone(n: Node, target: string)
    requires !n.paused && n.cordoned && n.current == target
    ensures InProgress(n, target) <==> n.state.Done?
    ensures !Eligible(n, target)
  {
  }

  /** One way there: a restart between the report and the uncordon, since startup reports `idle`. */
  lemma RestartStrands(n: Node, a: Agent, target: string, act: AgentAct)
    requires !n.paused && n.cordoned && n.current == target == n.desired && !n.rebootPending
    requires act.Restart? && act.idleOk
    ensures Stranded(AgentWrites(n, a, act), AgentMemory(n.desired, a, act), target)
  {
  }

  /** Another, without any restart in the run: the reconcile of a new target cordons an open node at `back`, and
      the target is rolled back to `back` before the node is told.  It is then stuck exactly when its agent
      does not happen to report `done`, and no agent does that has restarted since its last apply. */
  lemma RollbackStrands(c: Cluster, pool: Pool, step: Step, k: string, back: string)
    requires Enabled(c, pool, step) && step.ProcessNext? && step.io.cordonOk && c.worklist[0].name == k && k in c.agents
    requires c.worklist[0] == c.nodes[k] && !TakesShortcut(c.nodes[k], pool.(hasLastSuccessfulRevision := step.hasLastSuccessfulRevision))
    requires Settled(c.nodes[k]) && !c.nodes[k].cordoned && c.nodes[k].current == back && c.agents[k].working.None?
    ensures var c' := Next(c, pool, step);
      && c'.nodes[k] == Cordon(c.nodes[k]) && Settled(c'.nodes[k])
      && (Stuck(c'.nodes[k], back) <==> !c.nodes[k].state.Done?)
      && (Stranded(c'.nodes[k], c'.agents[k], back) <==> !c.nodes[k].state.Done?)
  {
  }

  lemma StrandedStep(c: Cluster, pool: Pool, step: Step, k: string, target: string)
    requires Shape(c) && Enabled(c, pool, step) && (step.StartReconcile? ==> step.target == target)
    requires step.StaleStep? ==> step.name != k
    requires k in c.nodes && Stranded(c.nodes[k], c.agents[k], target) && k !in Names(c.worklist)
    ensures var c' := Next(c, pool, step);
      Shape(c') && k in c'.nodes && Stranded(c'.nodes[k], c'.agents[k], target) && k !in Names(c'.worklist)
  {
    StepKeepsShape(c, pool, step);
    match step
    case StartReconcile(t, listing) =>
      var budget := CalculateMaxUnavailable(pool.maxUnavailable, |listing|);
      WorklistDistinct(listing, t, budget);
      FilterMembers(listing, m => InProgress(m, t));
      SelectionMeetsSpec(listing, t, budget);
      PickedUpIffDone(c.nodes[k], target);
    case ProcessNext(lsr, io) =>
      assert c.worklist[0].name in Names(c.worklist) && Names(c.worklist[1..]) <= Names(c.worklist);
    case AbortReconcile =>
    case AgentStep(name, act) =>
    case StaleStep(name, _, _) =>
    case ChangePods(name, pods) =>
    case ForceReboot(name) =>
  }

  /** While the target stays, nothing in the protocol ever uncordons a stranded node, but for a stale event of
      its own that sets its agent to work again. */
  lemma {:induction false} StrandedForever(run: seq<Cluster>, steps: seq<Step>, pool: Pool, k: string, target: string)
    requires IsRun(run, steps, pool) && Shape(run[0]) && run[0].worklist == []
    requires forall i | 0 <= i < |steps| :: steps[i].StartReconcile? ==> steps[i].target == target
    requires forall i | 0 <= i < |steps| :: steps[i].StaleStep? ==> steps[i].name != k
    requires k in run[0].nodes && Stranded(run[0].nodes[k], run[0].agents[k], target)
    ensures forall i | 0 <= i < |run| :: k in run[i].nodes && run[i].nodes[k].cordoned
  {
    var i := 0;
    while i < |steps|
      invariant 0 <= i <= |steps|
      invariant Shape(run[i]) && k in run[i].nodes && k !in Names(run[i].worklist)
      invariant Stranded(run[i].nodes[k], run[i].agents[k], target)
      invariant forall j | 0 <= j <= i :: k in run[j].nodes && run[j].nodes[k].cordoned
    {
      StrandedStep(run[i], pool, steps[i], k, target);
      i := i + 1;
    }
  }
}
