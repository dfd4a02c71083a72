/** The status a reconcile reports for a pool (internal/controller/status.go, node_update.go).

Condition messages are left out; one clock reading serves the whole of a status update. */
module Status {
  import opened Order
  import opened Nodes

  const SECOND := 1_000_000_000
  const DEFAULT_APPLY_TIMEOUT_SECONDS := 600

  // ------------------------------------------------------------- counts

  datatype Counts = Counts(
    machines: nat, ready: nat, updated: nat, updating: nat, degraded: nat,
    unavailable: nat, pendingReboot: nat, cordoned: nat, draining: nat)

  function EffectiveTimeout(applyTimeoutSeconds: int): int
  {
    (if applyTimeoutSeconds <= 0 then DEFAULT_APPLY_TIMEOUT_SECONDS else applyTimeoutSeconds) * SECOND
  }

  predicate TimedOut(n: Node, timeout: int, now: int)
  {
    n.state.Applying? && n.desiredSetAt.At? && now - n.desiredSetAt.time > timeout
  }

  function AtTarget(target: string): Node -> bool
  {
    (n: Node) => n.current == target
  }

  function ReadyAt(target: string): Node -> bool
  {
    (n: Node) => n.current == target && (n.state.Done? || n.state.Idle?)
  }

  function IsUpdating(timeout: int, now: int): Node -> bool
  {
    (n: Node) => n.state.Applying? && !TimedOut(n, timeout, now)
  }

  function IsDegraded(timeout: int, now: int): Node -> bool
  {
    (n: Node) => n.state.Failed? || TimedOut(n, timeout, now)
  }

  predicate IsUnavailable(n: Node)
  {
    !n.state.Done? && !n.state.Idle?
  }

  predicate IsPendingReboot(n: Node)
  {
    n.rebootPending
  }

  predicate IsClosed(n: Node)
  {
    n.cordoned || n.unschedulable
  }

  predicate IsDraining(n: Node)
  {
    n.drainStartedAt != NoStamp
  }

  function CountsOf(nodes: seq<Node>, target: string, timeout: int, now: int): Counts
  {
    Counts(|nodes|, Count(nodes, ReadyAt(target)), Count(nodes, AtTarget(target)), Count(nodes, IsUpdating(timeout, now)),
           Count(nodes, IsDegraded(timeout, now)), Count(nodes, IsUnavailable), Count(nodes, IsPendingReboot),
           Count(nodes, IsClosed), Count(nodes, IsDraining))
  }

  lemma CountsOneMore(nodes: seq<Node>, i: nat, target: string, timeout: int, now: int)
    requires i < |nodes|
    ensures var n := nodes[i];
      var c := CountsOf(nodes[..i], target, timeout, now);
      CountsOf(nodes[..i + 1], target, timeout, now) == CountedWith(c.(machines := i + 1), n, target, timeout, now)
  {
    assert nodes[..i + 1][..i] == nodes[..i];
  }

  /** One node more, by what it reports. */
  function CountedWith(c: Counts, n: Node, target: string, timeout: int, now: int): Counts
  {
    Counts(c.machines,
           c.ready + One(n.current == target && !IsUnavailable(n)), c.updated + One(n.current == target),
           c.updating + One(n.state.Applying? && !TimedOut(n, timeout, now)),
           c.degraded + One(n.state.Failed? || TimedOut(n, timeout, now)),
           c.unavailable + One(IsUnavailable(n)), c.pendingReboot + One(n.rebootPending),
           c.cordoned + One(n.cordoned || n.unschedulable), c.draining + One(n.drainStartedAt != NoStamp))
  }

  function One(b: bool): nat
  {
    if b then 1 else 0
  }

  lemma {:induction false} CountSplits<T>(s: seq<T>, p: T -> bool, q: T -> bool, whole: T -> bool)
    requires forall x | x in s :: (p(x) ==> whole(x) && !q(x)) && (q(x) ==> whole(x))
    ensures Count(s, p) + Count(s, q) <= Count(s, whole) <= |s|
  {
    if s != [] {
      assert s[|s| - 1] in s;
      CountSplits(s[..|s| - 1], p, q, whole);
    }
  }

  /** The counts fit together whatever the nodes report. */
  lemma CountsFit(nodes: seq<Node>, target: string, timeout: int, now: int)
    ensures var c := CountsOf(nodes, target, timeout, now);
      && c.ready <= c.updated <= c.machines
      && c.updating + c.degraded <= c.unavailable
      && c.ready + c.unavailable <= c.machines
  {
    var none := (n: Node) => false;
    CountSplits(nodes, ReadyAt(target), none, AtTarget(target));
    CountSplits(nodes, IsUpdating(timeout, now), IsDegraded(timeout, now), IsUnavailable);
    CountSplits(nodes, ReadyAt(target), IsUnavailable, (n: Node) => true);
  }

  /** Somebody is degraded exactly when an agent reports an error, or has been applying for longer than the timeout
      since its node was told; with no timeout configured that is ten minutes. */
  lemma DegradedMeans(nodes: seq<Node>, target: string, applyTimeoutSeconds: int, now: int)
    ensures CountsOf(nodes, target, EffectiveTimeout(applyTimeoutSeconds), now).degraded > 0 <==>
      exists i | 0 <= i < |nodes| :: var n := nodes[i];
        || n.state == Nodes.Failed
        || (&& n.state == Nodes.Applying && n.desiredSetAt.At?
            && now > n.desiredSetAt.time + (if applyTimeoutSeconds > 0 then applyTimeoutSeconds else 600) * SECOND)
  {
    CountedIff(nodes, IsDegraded(EffectiveTimeout(applyTimeoutSeconds), now));
  }

  lemma {:induction false} CountedIff(nodes: seq<Node>, p: Node -> bool)
    ensures Count(nodes, p) > 0 <==> exists i | 0 <= i < |nodes| :: p(nodes[i])
  {
    if nodes != [] {
      var front := nodes[..|nodes| - 1];
      CountedIff(front, p);
      if i :| 0 <= i < |front| && p(front[i]) {
        assert p(nodes[i]);
      }
      if i :| 0 <= i < |nodes| && p(nodes[i]) {
        assert i < |front| ==> front[i] == nodes[i];
      }
    }
  }

  /** Everybody ready means everybody is at the target and nobody is updating or in trouble. */
  lemma AllReady(nodes: seq<Node>, target: string, timeout: int, now: int)
    ensures var c := CountsOf(nodes, target, timeout, now);
      c.ready == c.machines ==> c.updated == c.machines && c.updating == 0 && c.degraded == 0 && c.unavailable == 0
  {
    CountsFit(nodes, target, timeout, now);
  }

  // ------------------------------------------------------------- the pool's current revision

  /** How many nodes run a revision. */
  function Running(nodes: seq<Node>, rev: string): nat
  {
    Count(nodes, AtTarget(rev))
  }

  /** A revision most nodes run: the target if it is one, else the smallest; the target if no node runs any. */
  ghost predicate IsCurrentRevision(nodes: seq<Node>, target: string, rev: string)
  {
    if forall i | 0 <= i < |nodes| :: nodes[i].current == "" then rev == target
    else
      && rev != ""
      && (forall other | other != "" :: Running(nodes, other) <= Running(nodes, rev))
      && (rev != target ==>
            forall other | other != "" && other != rev && Running(nodes, other) == Running(nodes, rev) ::
              other != target && StrLess(rev, other))
  }

  /** Map iteration has no order, but the answer does not depend on it. */
  lemma CurrentRevisionIsDetermined(nodes: seq<Node>, target: string, a: string, b: string)
    requires IsCurrentRevision(nodes, target, a) && IsCurrentRevision(nodes, target, b)
    ensures a == b
  {
    StrLessAsymmetric(a, b);
    if i :| 0 <= i < |nodes| && nodes[i].current != "" {
      assert Running(nodes, a) <= Running(nodes, b) && Running(nodes, b) <= Running(nodes, a);
    }
  }

  /** What the aggregation loop keeps about revisions. */
  ghost predicate Tallied(revisions: map<string, nat>, nodes: seq<Node>)
  {
    && (forall r :: r in revisions <==> r != "" && Running(nodes, r) > 0)
    && (forall r | r in revisions :: revisions[r] == Running(nodes, r))
  }

  method TallyRevision(revisions: map<string, nat>, nodes: seq<Node>, i: nat) returns (next: map<string, nat>)
    requires i < |nodes| && Tallied(revisions, nodes[..i])
    ensures Tallied(next, nodes[..i + 1])
  {
    var current := nodes[i].current;
    next := revisions;
    assert nodes[..i + 1][..i] == nodes[..i];
    if current != "" {
      next := next[current := if current in revisions then revisions[current] + 1 else 1];
    }
  }

  /** The largest count, and the revisions that reach it. */
  method MostRun(counts: map<string, nat>) returns (candidates: seq<string>)
    requires counts != map[]
    ensures forall r :: r in candidates <==> r in counts && forall o | o in counts :: counts[o] <= counts[r]
    ensures candidates != []
  {
    var maxCount := 0;
    var left := counts.Keys;
    ghost var best: Option<string> := None;
    while left != {}
      invariant left <= counts.Keys
      invariant forall r | r in counts.Keys - left :: counts[r] <= maxCount
      invariant best.None? ==> maxCount == 0
      invariant best.Some? ==> best.value in counts && counts[best.value] == maxCount
      decreases |left|
    {
      var r :| r in left;
      left := left - {r};
      if counts[r] > maxCount {
        maxCount := counts[r];
        best := Some(r);
      }
    }
    candidates := [];
    left := counts.Keys;
    while left != {}
      invariant left <= counts.Keys
      invariant forall r :: r in candidates <==> r in counts.Keys - left && counts[r] == maxCount
      decreases |left|
    {
      var r :| r in left;
      left := left - {r};
      if counts[r] == maxCount {
        candidates := candidates + [r];
      }
    }
    if best.None? {
      var some :| some in counts;
      assert some in candidates;
    } else {
      assert best.value in candidates;
    }
  }

  method ComputeCurrentRevision(counts: map<string, nat>, target: string) returns (rev: string)
    ensures counts == map[] ==> rev == target
    ensures counts != map[] ==> rev in counts && forall o | o in counts :: counts[o] <= counts[rev]
    ensures counts != map[] && rev != target ==>
      forall o | o in counts && o != rev && counts[o] == counts[rev] :: o != target && StrLess(rev, o)
  {
    if counts == map[] {
      return target;
    }
    var candidates := MostRun(counts);
    for i := 0 to |candidates|
      invariant forall k | 0 <= k < i :: candidates[k] != target
    {
      if candidates[i] == target {
        return target;
      }
    }
    var sorted := Sort(candidates, StrLess);
    SortPermutes(candidates, StrLess);
    SortKeepsMembers(candidates, StrLess);
    StrLessWeakOrder();
    SortSorts(candidates, StrLess);
    rev := sorted[0];
    forall o | o in counts && o != rev && counts[o] == counts[rev] ensures o != target && StrLess(rev, o) {
      assert o in candidates && o in sorted;
      StrLessTotal(rev, o);
    }
  }

  lemma RunsSomewhere(nodes: seq<Node>, rev: string)
    ensures Running(nodes, rev) > 0 <==> exists i | 0 <= i < |nodes| :: nodes[i].current == rev
  {
    CountedIff(nodes, AtTarget(rev));
    if i :| 0 <= i < |nodes| && nodes[i].current == rev {
      assert AtTarget(rev)(nodes[i]);
    }
  }

  lemma TallyDecides(revisions: map<string, nat>, nodes: seq<Node>, target: string, rev: string)
    requires Tallied(revisions, nodes)
    requires revisions == map[] ==> rev == target
    requires revisions != map[] ==> rev in revisions && forall o | o in revisions :: revisions[o] <= revisions[rev]
    requires revisions != map[] && rev != target ==>
      forall o | o in revisions && o != rev && revisions[o] == revisions[rev] :: o != target && StrLess(rev, o)
    ensures IsCurrentRevision(nodes, target, rev)
  {
    if i :| 0 <= i < |nodes| && nodes[i].current != "" {
      RunsSomewhere(nodes, nodes[i].current);
      assert nodes[i].current in revisions;
    } else if revisions != map[] {
      RunsSomewhere(nodes, rev);
    }
  }

  // ------------------------------------------------------------- conditions

  datatype Kind = Ready | Updating | Degraded | Draining | PoolOverlap | DrainStuck | Other(name: string)

  datatype Truth = True | False | Unknown

  datatype Condition = Condition(kind: Kind, status: Truth, reason: string, time: int)

  predicate Complete(c: Counts)
  {
    c.machines > 0 && c.updated == c.machines && c.degraded == 0
  }

  function ComputeConditions(c: Counts, now: int): (r: seq<Condition>)
    ensures KindsUnique(r)
  {
    [ if Complete(c) then Condition(Ready, True, "AllNodesUpdated", now)
      else if c.degraded > 0 then Condition(Ready, False, "Degraded", now)
      else if c.updating > 0 || c.draining > 0 then Condition(Ready, False, "RolloutInProgress", now)
      else Condition(Ready, False, "NoMachineConfigs", now),
      if c.updated < c.machines then Condition(Updating, True, "RolloutInProgress", now)
      else Condition(Updating, False, "RolloutComplete", now),
      if c.degraded > 0 then Condition(Degraded, True, "NodeErrors", now)
      else Condition(Degraded, False, "NoErrors", now),
      if c.draining > 0 then Condition(Draining, True, "DrainInProgress", now)
      else Condition(Draining, False, "NoDrainsActive", now) ]
  }

  /** The API server keys conditions by type. */
  ghost predicate KindsUnique(s: seq<Condition>)
  {
    forall i, j | 0 <= i < j < |s| :: s[i].kind != s[j].kind
  }

  /** A list of conditions as the lookup table it stands for. */
  function ByKind(s: seq<Condition>): map<Kind, Condition>
  {
    if s == [] then map[] else ByKind(s[..|s| - 1])[s[|s| - 1].kind := s[|s| - 1]]
  }

  lemma {:induction false} ByKindIsListed(s: seq<Condition>)
    ensures forall k | k in ByKind(s) :: ByKind(s)[k].kind == k && ByKind(s)[k] in s
  {
    if s != [] {
      var front := s[..|s| - 1];
      ByKindIsListed(front);
      assert forall c | c in front :: c in s;
    }
  }

  lemma {:induction false} ByKindFinds(s: seq<Condition>)
    ensures forall i | 0 <= i < |s| :: s[i].kind in ByKind(s)
    ensures KindsUnique(s) ==> forall i | 0 <= i < |s| :: ByKind(s)[s[i].kind] == s[i]
  {
    if s != [] {
      var front := s[..|s| - 1];
      ByKindFinds(front);
      assert forall i | 0 <= i < |front| :: front[i] == s[i];
    }
  }

  lemma PutNew(s: seq<Condition>, c: Condition)
    requires KindsUnique(s) && forall i | 0 <= i < |s| :: s[i].kind != c.kind
    ensures KindsUnique(s + [c]) && ByKind(s + [c]) == ByKind(s)[c.kind := c]
    ensures c.kind !in ByKind(s)
  {
    ByKindIsListed(s);
    assert (s + [c])[..|s|] == s;
    assert forall k | k in ByKind(s) :: ByKind(s)[k] in s;
  }

  lemma PutOverKinds(s: seq<Condition>, i: nat, c: Condition)
    requires i < |s| && s[i].kind == c.kind
    ensures ByKind(s[i := c]).Keys == ByKind(s).Keys + {c.kind}
  {
    var t := s[i := c];
    ByKindIsListed(s);
    ByKindFinds(s);
    ByKindIsListed(t);
    ByKindFinds(t);
    forall k ensures k in ByKind(t) <==> k in ByKind(s) || k == c.kind {
      if k in ByKind(t) {
        var j :| 0 <= j < |t| && t[j] == ByKind(t)[k];
        assert s[j].kind == k;
      }
      if k in ByKind(s) {
        var j :| 0 <= j < |s| && s[j] == ByKind(s)[k];
        assert t[j].kind == k;
      }
    }
  }

  lemma PutOver(s: seq<Condition>, i: nat, c: Condition)
    requires KindsUnique(s) && i < |s| && s[i].kind == c.kind
    ensures KindsUnique(s[i := c]) && ByKind(s[i := c]) == ByKind(s)[c.kind := c]
    ensures c.kind in ByKind(s) && ByKind(s)[c.kind] == s[i]
  {
    var t := s[i := c];
    PutOverKinds(s, i, c);
    ByKindFinds(s);
    ByKindIsListed(t);
    ByKindFinds(t);
    forall k | k in ByKind(t) ensures ByKind(t)[k] == ByKind(s)[c.kind := c][k] {
      var j :| 0 <= j < |t| && t[j] == ByKind(t)[k];
      assert j != i ==> s[j] == t[j];
    }
  }

  // ------------------------------------------------------------- what each update does to the table

  type Table = map<Kind, Condition>

  function Lookup(t: Table, k: Kind): Option<Condition>
  {
    if k in t then Some(t[k]) else None
  }

  /** A condition keeps its transition time while its status stays. */
  function Dated(t: Table, c: Condition): Condition
  {
    if c.kind in t && t[c.kind].status == c.status then c.(time := t[c.kind].time) else c
  }

  function Put(t: Table, c: Condition): Table
  {
    t[c.kind := Dated(t, c)]
  }

  function Merged(t: Table, latest: seq<Condition>): Table
  {
    if latest == [] then t else
      var c := latest[|latest| - 1];
      Merged(t, latest[..|latest| - 1])[c.kind := Dated(t, c)]
  }

  /** Degraded is raised, unless it stands already. */
  function Raised(t: Table, reason: string, now: int): Table
  {
    if Degraded in t && t[Degraded].status == True then t
    else t[Degraded := Condition(Degraded, True, reason, now)]
  }

  function OverlapCondition(overlaps: bool, now: int): Condition
  {
    if overlaps then Condition(PoolOverlap, True, "NodesInMultiplePools", now)
    else Condition(PoolOverlap, False, "NoOverlap", now)
  }

  function DrainStuckCondition(stuck: bool, now: int): Condition
  {
    if stuck then Condition(DrainStuck, True, "DrainTimeout", now)
    else Condition(DrainStuck, False, "DrainComplete", now)
  }

  function WithOverlap(t: Table, overlaps: bool, now: int): Table
  {
    var t' := Put(t, OverlapCondition(overlaps, now));
    if overlaps then Raised(t', "PoolOverlapDetected", now) else t'
  }

  function WithDrainStuck(t: Table, stuck: bool, now: int): Table
  {
    var t' := Put(t, DrainStuckCondition(stuck, now));
    if stuck then Raised(t', "DrainStuck", now) else t'
  }

  /** The whole status update of a reconcile. */
  function Reported(t: Table, c: Counts, overlaps: bool, stuck: bool, now: int): Table
  {
    WithDrainStuck(WithOverlap(Merged(t, ComputeConditions(c, now)), overlaps, now), stuck, now)
  }

  lemma MergedAt(t: Table, c: Counts, now: int, k: Kind)
    ensures var f := ComputeConditions(c, now);
      Lookup(Merged(t, f), k) ==
        match k
        case Ready => Some(Dated(t, f[0]))
        case Updating => Some(Dated(t, f[1]))
        case Degraded => Some(Dated(t, f[2]))
        case Draining => Some(Dated(t, f[3]))
        case _ => Lookup(t, k)
  {
    var f := ComputeConditions(c, now);
    assert f[..3][..2] == f[..2] && f[..2][..1] == f[..1] && f[..1][..0] == [];
    assert f[..4] == f;
    assert Merged(t, f[..0]) == t;
    assert Merged(t, f[..1]) == t[Ready := Dated(t, f[0])];
    assert Merged(t, f[..2]) == Merged(t, f[..1])[Updating := Dated(t, f[1])];
    assert Merged(t, f[..3]) == Merged(t, f[..2])[Degraded := Dated(t, f[2])];
  }

  /** Degraded at the end: as merged if it stands then, else raised by whichever trouble there is. */
  function FinalDegraded(merged: Condition, overlaps: bool, stuck: bool, now: int): Condition
  {
    if merged.status == True || (!overlaps && !stuck) then merged
    else Condition(Degraded, True, if overlaps then "PoolOverlapDetected" else "DrainStuck", now)
  }

  /** Each type's condition once the overlap is in. */
  lemma OverlapAt(t: Table, c: Counts, overlaps: bool, now: int, k: Kind)
    ensures var f := ComputeConditions(c, now);
      Lookup(WithOverlap(Merged(t, f), overlaps, now), k) ==
        match k
        case Ready => Some(Dated(t, f[0]))
        case Updating => Some(Dated(t, f[1]))
        case Degraded => Some(FinalDegraded(Dated(t, f[2]), overlaps, false, now))
        case Draining => Some(Dated(t, f[3]))
        case PoolOverlap => Some(Dated(t, OverlapCondition(overlaps, now)))
        case _ => Lookup(t, k)
  {
    MergedAt(t, c, now, k);
    MergedAt(t, c, now, Degraded);
    MergedAt(t, c, now, PoolOverlap);
  }

  /** Each type's condition after a status update. */
  lemma ReportedAt(t: Table, c: Counts, overlaps: bool, stuck: bool, now: int, k: Kind)
    ensures var f := ComputeConditions(c, now);
      Lookup(Reported(t, c, overlaps, stuck, now), k) ==
        match k
        case Ready => Some(Dated(t, f[0]))
        case Updating => Some(Dated(t, f[1]))
        case Degraded => Some(FinalDegraded(Dated(t, f[2]), overlaps, stuck, now))
        case Draining => Some(Dated(t, f[3]))
        case PoolOverlap => Some(Dated(t, OverlapCondition(overlaps, now)))
        case DrainStuck => Some(Dated(t, DrainStuckCondition(stuck, now)))
        case Other(_) => Lookup(t, k)
  {
    OverlapAt(t, c, overlaps, now, k);
    OverlapAt(t, c, overlaps, now, Degraded);
    OverlapAt(t, c, overlaps, now, DrainStuck);
  }

  /** What a type must say, from the nodes' counts, the pool's overlap and its stuck drains. */
  function Due(k: Kind, c: Counts, overlaps: bool, stuck: bool): bool
  {
    match k
    case Ready => c.machines > 0 && c.updated == c.machines && c.degraded == 0
    case Updating => c.updated < c.machines
    case Degraded => c.degraded > 0 || overlaps || stuck
    case Draining => c.draining > 0
    case PoolOverlap => overlaps
    case DrainStuck => stuck
    case Other(_) => false
  }

  /** Every reported condition is True exactly when it is due, whatever was stored before. */
  lemma ConditionsTellTheTruth(t: Table, c: Counts, overlaps: bool, stuck: bool, now: int, k: Kind)
    ensures var r := Reported(t, c, overlaps, stuck, now);
      if k.Other? then Lookup(r, k) == Lookup(t, k)
      else k in r && r[k].status == (if Due(k, c, overlaps, stuck) then True else False)
  {
    ReportedAt(t, c, overlaps, stuck, now, k);
  }

  /** Every type but Degraded keeps its transition time while its status stays, and takes the present one when the
      status changes or is new. */
  lemma TimesAreKept(t: Table, c: Counts, overlaps: bool, stuck: bool, now: int, k: Kind)
    requires k != Degraded
    ensures var r := Reported(t, c, overlaps, stuck, now);
      && (k in t ==> k in r && r[k].time == if r[k].status == t[k].status then t[k].time else now)
      && (k !in t && k in r ==> r[k].time == now)
  {
    ReportedAt(t, c, overlaps, stuck, now, k);
  }

  /** Degraded does not: with its status unchanged, its time is kept unless it stood and no node is
      degraded.  It is then taken down by the merge and raised again, with a new time, at every reconcile
      for as long as the overlap or the stuck drain lasts. */
  lemma DegradedTimeIsKeptUnlessReraised(t: Table, c: Counts, overlaps: bool, stuck: bool, now: int)
    requires Degraded in t && t[Degraded].status == if Due(Degraded, c, overlaps, stuck) then True else False
    ensures var r := Reported(t, c, overlaps, stuck, now);
      && Degraded in r && r[Degraded].status == t[Degraded].status
      && r[Degraded].time == if t[Degraded].status == True && c.degraded == 0 then now else t[Degraded].time
  {
    ReportedAt(t, c, overlaps, stuck, now, Degraded);
  }

  /** The reason given with each condition is the one that holds; trouble is named with nodes' errors before an
      overlap before a stuck drain. */
  lemma ReasonsAreTrue(t: Table, c: Counts, overlaps: bool, stuck: bool, now: int, k: Kind)
    requires !k.Other?
    ensures var r := Reported(t, c, overlaps, stuck, now);
      && k in r
      && match k
         case Ready =>
           && (r[k].reason == "AllNodesUpdated" <==> c.machines > 0 && c.updated == c.machines && c.degraded == 0)
           && (r[k].reason == "Degraded" <==> c.degraded > 0)
           && (r[k].reason == "RolloutInProgress" <==>
                 c.degraded == 0 && (c.machines == 0 || c.updated != c.machines) && (c.updating > 0 || c.draining > 0))
         case Updating => r[k].reason == if c.updated < c.machines then "RolloutInProgress" else "RolloutComplete"
         case Degraded =>
           r[k].reason ==
             if c.degraded > 0 then "NodeErrors" else if overlaps then "PoolOverlapDetected" else if stuck then "DrainStuck" else "NoErrors"
         case Draining => r[k].reason == if c.draining > 0 then "DrainInProgress" else "NoDrainsActive"
         case PoolOverlap => r[k].reason == if overlaps then "NodesInMultiplePools" else "NoOverlap"
         case DrainStuck => r[k].reason == if stuck then "DrainTimeout" else "DrainComplete"
  {
    ReportedAt(t, c, overlaps, stuck, now, k);
  }

  /** Reporting the same twice changes nothing but the time of Degraded. */
  lemma ReportingAgain(t: Table, c: Counts, overlaps: bool, stuck: bool, now: int, later: int, k: Kind)
    requires k != Degraded
    ensures var once := Reported(t, c, overlaps, stuck, now);
      Lookup(Reported(once, c, overlaps, stuck, later), k) == Lookup(once, k)
  {
    ReportedAt(t, c, overlaps, stuck, now, k);
    ReportedAt(Reported(t, c, overlaps, stuck, now), c, overlaps, stuck, later, k);
  }
}
