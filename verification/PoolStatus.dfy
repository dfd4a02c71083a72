/** How a reconcile writes a pool's status: the loops of internal/controller/status.go and
node_update.go, proved against the functions of module Status. */
module PoolStatus {
  import opened Order
  import opened Nodes
  import opened Overlap
  import opened Status

  ghost predicate HasTimedOut(nodes: seq<Node>, name: string, timeout: int, now: int)
  {
    exists i | 0 <= i < |nodes| :: nodes[i].name == name && TimedOut(nodes[i], timeout, now)
  }

  lemma TimedOutOneMore(nodes: seq<Node>, i: nat, timeout: int, now: int)
    requires i < |nodes|
    ensures forall name :: HasTimedOut(nodes[..i + 1], name, timeout, now) <==>
      (HasTimedOut(nodes[..i], name, timeout, now) || (nodes[i].name == name && TimedOut(nodes[i], timeout, now)))
  {
    assert nodes[..i + 1] == nodes[..i] + [nodes[i]];
    forall name | HasTimedOut(nodes[..i], name, timeout, now) ensures HasTimedOut(nodes[..i + 1], name, timeout, now) {
      var k :| 0 <= k < i && nodes[..i][k].name == name && TimedOut(nodes[..i][k], timeout, now);
      assert nodes[..i + 1][k] == nodes[..i][k];
    }
    assert nodes[..i + 1][i] == nodes[i];
  }

  method AggregateStatus(target: string, nodes: seq<Node>, applyTimeoutSeconds: int, now: int)
    returns (counts: Counts, currentRevision: string, timedOut: seq<string>)
    ensures counts == CountsOf(nodes, target, EffectiveTimeout(applyTimeoutSeconds), now)
    ensures IsCurrentRevision(nodes, target, currentRevision)
    ensures forall name :: name in timedOut <==> HasTimedOut(nodes, name, EffectiveTimeout(applyTimeoutSeconds), now)
  {
    var timeout := EffectiveTimeout(applyTimeoutSeconds);
    var revisions: map<string, nat> := map[];
    counts, timedOut := Counts(|nodes|, 0, 0, 0, 0, 0, 0, 0, 0), [];
    for i := 0 to |nodes|
      invariant counts == CountsOf(nodes[..i], target, timeout, now).(machines := |nodes|)
      invariant Tallied(revisions, nodes[..i])
      invariant forall name :: name in timedOut <==> HasTimedOut(nodes[..i], name, timeout, now)
    {
      var n := nodes[i];
      CountsOneMore(nodes, i, target, timeout, now);
      TimedOutOneMore(nodes, i, timeout, now);
      revisions := TallyRevision(revisions, nodes, i);
      counts := CountNode(counts, n, target, timeout, now);
      if TimedOut(n, timeout, now) {
        timedOut := timedOut + [n.name];
      }
    }
    assert nodes[..|nodes|] == nodes;
    currentRevision := ComputeCurrentRevision(revisions, target);
    TallyDecides(revisions, nodes, target, currentRevision);
  }

  /** One node's contribution to the counts. */
  method CountNode(counts: Counts, n: Node, target: string, timeout: int, now: int) returns (c: Counts)
    ensures c == CountedWith(counts, n, target, timeout, now)
  {
    c := counts;
    var isUpdated := n.current == target;
    if isUpdated {
      c := c.(updated := c.updated + 1);
    }
    match n.state {
      case Done =>
        if isUpdated { c := c.(ready := c.ready + 1); }
      case Idle =>
        if isUpdated { c := c.(ready := c.ready + 1); }
      case Applying =>
        if TimedOut(n, timeout, now) {
          c := c.(degraded := c.degraded + 1);
        } else {
          c := c.(updating := c.updating + 1);
        }
        c := c.(unavailable := c.unavailable + 1);
      case Failed =>
        c := c.(degraded := c.degraded + 1, unavailable := c.unavailable + 1);
      case _ =>
        c := c.(unavailable := c.unavailable + 1);
    }
    if n.rebootPending {
      c := c.(pendingReboot := c.pendingReboot + 1);
    }
    if n.cordoned || n.unschedulable {
      c := c.(cordoned := c.cordoned + 1);
    }
    if n.drainStartedAt != NoStamp {
      c := c.(draining := c.draining + 1);
    }
  }

  // ------------------------------------------------------------- merging conditions

  lemma {:induction false} MergedLooksUp(t: Table, latest: seq<Condition>, k: Kind)
    requires KindsUnique(latest)
    ensures forall i | 0 <= i < |latest| && latest[i].kind == k :: Lookup(Merged(t, latest), k) == Some(Dated(t, latest[i]))
    ensures (forall i | 0 <= i < |latest| :: latest[i].kind != k) ==> Lookup(Merged(t, latest), k) == Lookup(t, k)
  {
    if latest != [] {
      MergedLooksUp(t, latest[..|latest| - 1], k);
    }
  }

  /** The merged list, read back: the latest conditions, dated, and the old ones of other types. */
  ghost predicate IsMergedList(existing: seq<Condition>, latest: seq<Condition>, result: seq<Condition>)
  {
    && KindsUnique(result)
    && forall c :: c in result <==>
         || (c in existing && forall i | 0 <= i < |latest| :: latest[i].kind != c.kind)
         || (exists i | 0 <= i < |latest| :: c == Dated(ByKind(existing), latest[i]))
  }

  /** Under unique types, looking a type up finds the condition listed under it. */
  lemma LookupFinds(s: seq<Condition>, k: Kind)
    requires KindsUnique(s)
    ensures forall c | c in s && c.kind == k :: Lookup(ByKind(s), k) == Some(c)
    ensures Lookup(ByKind(s), k).Some? ==> Lookup(ByKind(s), k).value in s && Lookup(ByKind(s), k).value.kind == k
  {
    ByKindIsListed(s);
    ByKindFinds(s);
  }

  lemma MergedListLooksUp(existing: seq<Condition>, latest: seq<Condition>, result: seq<Condition>, k: Kind)
    requires KindsUnique(existing) && KindsUnique(latest) && IsMergedList(existing, latest, result)
    ensures Lookup(ByKind(result), k) == Lookup(Merged(ByKind(existing), latest), k)
  {
    LookupFinds(existing, k);
    LookupFinds(result, k);
    MergedLooksUp(ByKind(existing), latest, k);
    if i :| 0 <= i < |latest| && latest[i].kind == k {
      assert Dated(ByKind(existing), latest[i]) in result;
    } else if k in ByKind(existing) {
      assert ByKind(existing)[k] in result;
    }
  }

  lemma MergedListIsMerged(existing: seq<Condition>, latest: seq<Condition>, result: seq<Condition>)
    requires KindsUnique(existing) && KindsUnique(latest) && IsMergedList(existing, latest, result)
    ensures ByKind(result) == Merged(ByKind(existing), latest)
  {
    var r, m := ByKind(result), Merged(ByKind(existing), latest);
    forall k ensures Lookup(r, k) == Lookup(m, k) {
      MergedListLooksUp(existing, latest, result, k);
    }
    assert forall k :: (k in r <==> Lookup(r, k).Some?) && (k in m <==> Lookup(m, k).Some?);
  }

  method Index(existing: seq<Condition>) returns (table: Table)
    ensures table == ByKind(existing)
  {
    table := map[];
    for i := 0 to |existing|
      invariant table == ByKind(existing[..i])
    {
      assert existing[..i + 1][..i] == existing[..i];
      table := table[existing[i].kind := existing[i]];
    }
    assert existing[..|existing|] == existing;
  }

  /** The latest conditions, each keeping its old time while its status stays, and their types. */
  method DateLatest(existingMap: Table, latest: seq<Condition>) returns (result: seq<Condition>, newTypes: set<Kind>)
    ensures |result| == |latest| && forall k | 0 <= k < |latest| :: result[k] == Dated(existingMap, latest[k])
    ensures forall kind :: kind in newTypes <==> exists k | 0 <= k < |latest| :: latest[k].kind == kind
  {
    result, newTypes := [], {};
    for i := 0 to |latest|
      invariant |result| == i
      invariant forall k | 0 <= k < i :: result[k] == Dated(existingMap, latest[k])
      invariant forall kind :: kind in newTypes <==> exists k | 0 <= k < i :: latest[k].kind == kind
    {
      var c := latest[i];
      newTypes := newTypes + {c.kind};
      if c.kind in existingMap {
        if existingMap[c.kind].status == c.status {
          c := c.(time := existingMap[c.kind].time);
        }
      }
      result := result + [c];
    }
  }

  method MergeConditions(existing: seq<Condition>, latest: seq<Condition>) returns (result: seq<Condition>)
    requires KindsUnique(existing) && KindsUnique(latest)
    ensures KindsUnique(result) && ByKind(result) == Merged(ByKind(existing), latest)
  {
    var existingMap := Index(existing);
    var dated, newTypes := DateLatest(existingMap, latest);
    result := dated;
    for i := 0 to |existing|
      invariant KindsUnique(result)
      invariant forall c | c in result :: c.kind in newTypes || c in existing[..i]
      invariant forall c :: c in result <==> c in dated || (c in existing[..i] && c.kind !in newTypes)
    {
      assert forall k | 0 <= k < i :: existing[..i][k] == existing[k];
      if existing[i].kind !in newTypes {
        result := result + [existing[i]];
      }
    }
    assert existing[..|existing|] == existing;
    MergedListIsMerged(existing, latest, result);
  }

  // ------------------------------------------------------------- the pool's status object

  /** Detection succeeded and found a contested node of the pool. */
  ghost predicate Overlaps(pool: string, overlap: Option<map<string, seq<string>>>)
  {
    overlap.Some? && exists n | n in overlap.value :: pool in overlap.value[n]
  }

  method HasOverlap(pool: string, overlap: Option<map<string, seq<string>>>) returns (overlaps: bool)
    ensures overlaps == Overlaps(pool, overlap)
  {
    if overlap.None? || overlap.value == map[] {
      return false;
    }
    var mine := GetConflictsForPool(overlap.value, pool);
    overlaps := mine != [];
    if overlaps {
      assert mine[0] in mine;
    } else {
      assert forall n | n in overlap.value && pool in overlap.value[n] :: n in mine;
    }
  }

  class Pool {
    var targetRevision: string
    var currentRevision: string
    var lastSuccessfulRevision: string
    var counts: Counts
    var conditions: seq<Condition>

    ghost function Conditions(): Table
      reads this
    {
      ByKind(conditions)
    }

    /** Conditions are listed by type, as the API server requires of them. */
    ghost predicate Valid()
      reads this
    {
      KindsUnique(conditions)
    }

    constructor ()
      ensures Valid() && conditions == []
    {
      targetRevision, currentRevision, lastSuccessfulRevision := "", "", "";
      counts, conditions := Counts(0, 0, 0, 0, 0, 0, 0, 0, 0), [];
    }

    /** The place of a type in the list, or the length of the list. */
    method Find(kind: Kind) returns (i: nat)
      ensures i <= |conditions| && (i < |conditions| ==> conditions[i].kind == kind)
      ensures forall k | 0 <= k < i :: conditions[k].kind != kind
    {
      i := 0;
      while i < |conditions| && conditions[i].kind != kind
        invariant i <= |conditions|
        invariant forall k | 0 <= k < i :: conditions[k].kind != kind
      {
        i := i + 1;
      }
    }

    method SetCondition(condition: Condition)
      requires Valid()
      modifies this`conditions
      ensures Valid() && Conditions() == Put(old(Conditions()), condition)
    {
      var i := Find(condition.kind);
      var c := condition;
      if i < |conditions| {
        if conditions[i].status == c.status {
          c := c.(time := conditions[i].time);
        }
        PutOver(conditions, i, c);
        conditions := conditions[i := c];
      } else {
        PutNew(conditions, c);
        conditions := conditions + [c];
      }
    }

    method SetDegraded(reason: string, now: int)
      requires Valid()
      modifies this`conditions
      ensures Valid() && Conditions() == Raised(old(Conditions()), reason, now)
    {
      var raised := Condition(Degraded, True, reason, now);
      var i := Find(Degraded);
      if i < |conditions| {
        PutOver(conditions, i, raised);
        if conditions[i].status != True {
          conditions := conditions[i := raised];
        }
      } else {
        PutNew(conditions, raised);
        conditions := conditions + [raised];
      }
    }

    method ApplyStatus(target: string, current: string, c: Counts, now: int)
      requires Valid()
      modifies this
      ensures Valid() && Conditions() == Merged(old(Conditions()), ComputeConditions(c, now))
      ensures targetRevision == target && currentRevision == current && counts == c
      ensures lastSuccessfulRevision == if Complete(c) && c.pendingReboot == 0 then target else old(lastSuccessfulRevision)
    {
      targetRevision, currentRevision, counts := target, current, c;
      if c.machines > 0 && c.updated == c.machines && c.degraded == 0 && c.pendingReboot == 0 {
        lastSuccessfulRevision := target;
      }
      conditions := MergeConditions(conditions, ComputeConditions(c, now));
    }

    method ApplyOverlapCondition(name: string, overlap: Option<map<string, seq<string>>>, now: int)
      requires Valid()
      modifies this`conditions
      ensures Valid() && Conditions() == WithOverlap(old(Conditions()), Overlaps(name, overlap), now)
    {
      var overlaps := HasOverlap(name, overlap);
      SetCondition(OverlapCondition(overlaps, now));
      if overlaps {
        SetDegraded("PoolOverlapDetected", now);
      }
    }

    method SetDrainStuckCondition(now: int)
      requires Valid()
      modifies this`conditions
      ensures Valid() && Conditions() == WithDrainStuck(old(Conditions()), true, now)
    {
      SetCondition(DrainStuckCondition(true, now));
      SetDegraded("DrainStuck", now);
    }

    method ClearDrainStuckCondition(now: int)
      requires Valid()
      modifies this`conditions
      ensures Valid() && Conditions() == WithDrainStuck(old(Conditions()), false, now)
    {
      SetCondition(DrainStuckCondition(false, now));
    }

    /** The status update of a reconcile: counts that fit the nodes, and conditions that keep to their types. */
    method UpdateStatus(name: string, target: string, nodes: seq<Node>, applyTimeoutSeconds: int,
                        overlap: Option<map<string, seq<string>>>, stuck: seq<string>, now: int)
      requires Valid()
      modifies this
      ensures Valid()
      ensures targetRevision == target && IsCurrentRevision(nodes, target, currentRevision)
      ensures counts == CountsOf(nodes, target, EffectiveTimeout(applyTimeoutSeconds), now)
      ensures counts.ready <= counts.updated <= counts.machines && counts.ready + counts.unavailable <= counts.machines
      ensures counts.updating + counts.degraded <= counts.unavailable
      ensures lastSuccessfulRevision ==
        if Complete(counts) && counts.pendingReboot == 0 then target else old(lastSuccessfulRevision)
      ensures Conditions() == Reported(old(Conditions()), counts, Overlaps(name, overlap), stuck != [], now)
    {
      var c, current, timedOut := AggregateStatus(target, nodes, applyTimeoutSeconds, now);
      CountsFit(nodes, target, EffectiveTimeout(applyTimeoutSeconds), now);
      ApplyStatus(target, current, c, now);
      ApplyOverlapCondition(name, overlap, now);
      if |stuck| > 0 {
        SetDrainStuckCondition(now);
      } else {
        ClearDrainStuckCondition(now);
      }
    }
  }
}
