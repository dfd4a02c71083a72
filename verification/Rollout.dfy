/** Which nodes a reconcile may start, and which it must continue (internal/controller/rollout.go). */
module Rollout {
  import opened Order
  import opened Nodes

  /** `maxUnavailable`: a number, or a string whose text before an optional '%' did or did not parse. */
  datatype IntOrString = IntVal(i: int) | StrVal(percent: Option<int>)

  function CeilHundredth(x: int): int
  {
    -((-x) / 100)
  }

  function CalculateMaxUnavailable(maxUnavailable: Option<IntOrString>, nodeCount: nat): (m: int)
    ensures m >= 1
  {
    match maxUnavailable
    case None => 1
    case Some(IntVal(i)) => if i < 1 then 1 else i
    case Some(StrVal(None)) => 1
    case Some(StrVal(Some(pct))) =>
      var effective := CeilHundredth(nodeCount * pct);
      if effective < 1 then 1 else effective
  }

  /** What the budget is for each form of the setting: the number itself, or the least number of nodes that
      makes up the percentage; one where the setting is missing, does not parse or asks for less. */
  lemma BudgetMeans(setting: Option<IntOrString>, n: nat)
    ensures var m := CalculateMaxUnavailable(setting, n);
      match setting
      case Some(IntVal(i)) => if i >= 1 then m == i else m == 1
      case Some(StrVal(Some(pct))) => 100 * m >= n * pct && (m == 1 || 100 * (m - 1) < n * pct)
      case _ => m == 1
  {
  }

  lemma CeilHundredthMonotone(x: int, y: int)
    requires x <= y
    ensures CeilHundredth(x) <= CeilHundredth(y)
  {
  }

  /** A larger pool or, in a pool of the same size, a larger percentage never lowers the budget. */
  lemma BudgetMonotone(n: nat, n': nat, p: int, p': int)
    requires n <= n' && p <= p'
    ensures CalculateMaxUnavailable(Some(StrVal(Some(p))), n)
         <= CalculateMaxUnavailable(Some(StrVal(Some(p'))), n')
  {
    if p < 0 {
      assert n * p <= 0 by {
        assert n * (-p) >= 0;
      }
      CeilHundredthMonotone(n * p, 0);
    } else {
      assert n * p <= n' * p <= n' * p' by {
        assert (n' - n) * p >= 0 && n' * (p' - p) >= 0;
      }
      CeilHundredthMonotone(n * p, n' * p');
    }
  }

  /** A percentage of a pool that has nodes stays within the pool exactly up to 100: the code does not
      cap it, and 101 percent already exceeds the pool. */
  lemma BudgetWithinPool(n: nat, p: int)
    requires n >= 1
    ensures CalculateMaxUnavailable(Some(StrVal(Some(p))), n) <= n <==> p <= 100
  {
    if p <= 100 {
      assert n * p <= n * 100 by {
        assert n * (100 - p) >= 0;
      }
      CeilHundredthMonotone(n * p, n * 100);
    } else {
      assert n * p >= n * 100 + 1 by {
        assert n * (p - 101) >= 0;
      }
      CeilHundredthMonotone(n * 100 + 1, n * p);
    }
  }

  /** The `less` of SortNodesForUpdate: zone (the empty zone last), then age, then name. */
  predicate UpdateBefore(a: Node, b: Node)
  {
    if a.zone == "" && b.zone != "" then false
    else if a.zone != "" && b.zone == "" then true
    else if a.zone != b.zone then StrLess(a.zone, b.zone)
    else if a.created != b.created then a.created < b.created
    else StrLess(a.name, b.name)
  }

  lemma UpdateBeforeTransitive(x: Node, y: Node, z: Node)
    requires !UpdateBefore(y, x) && !UpdateBefore(z, y)
    ensures !UpdateBefore(z, x)
  {
    StrLessWeakOrder();
    StrLessTotal(x.zone, y.zone);
    StrLessTotal(y.zone, z.zone);
    StrLessTotal(x.zone, z.zone);
    assert !StrLess(y.name, x.name) && !StrLess(z.name, y.name) ==> !StrLess(z.name, x.name);
    assert !StrLess(y.zone, x.zone) && !StrLess(z.zone, y.zone) ==> !StrLess(z.zone, x.zone);
    assert !StrLess(x.zone, x.zone) && !StrLess(y.zone, y.zone);
  }

  /** The node order is a strict order, total on nodes with different names. */
  lemma UpdateBeforeIsTotal()
    ensures WeakOrder(UpdateBefore)
    ensures forall x: Node, y: Node | x.name != y.name :: UpdateBefore(x, y) || UpdateBefore(y, x)
  {
    forall x, y | UpdateBefore(x, y) ensures !UpdateBefore(y, x) {
      StrLessAsymmetric(x.zone, y.zone);
      StrLessAsymmetric(x.name, y.name);
    }
    forall x, y, z | !UpdateBefore(y, x) && !UpdateBefore(z, y) ensures !UpdateBefore(z, x) {
      UpdateBeforeTransitive(x, y, z);
    }
    forall x: Node, y: Node | x.name != y.name ensures UpdateBefore(x, y) || UpdateBefore(y, x) {
      StrLessTotal(x.name, y.name);
      StrLessTotal(x.zone, y.zone);
    }
  }

  predicate IsNodeUnavailable(n: Node)
  {
    if n.paused then false
    else if n.unschedulable then true
    else if n.cordoned then true
    else if n.drainStartedAt != NoStamp then true
    else if n.state.Applying? || n.state.Rebooting? then true
    else n.desired != "" && n.current != n.desired
  }

  /** An unpaused node in one of the states that count against the budget: closed by hand or by the controller,
      being drained, at work, or told to move. */
  predicate OutOfService(n: Node)
  {
    && !n.paused
    && (|| n.unschedulable || n.cordoned || n.drainStartedAt != NoStamp
        || n.state.Applying? || n.state.Rebooting?
        || (n.desired != "" && n.desired != n.current))
  }

  predicate IsNodeCordoned(n: Node)
  {
    n.cordoned
  }

  predicate ShouldUncordon(n: Node, target: string)
  {
    IsNodeCordoned(n) && n.current == target && n.state.Done?
  }

  predicate Eligible(n: Node, target: string)
  {
    !n.paused && n.current != target && !IsNodeUnavailable(n)
  }

  predicate InProgress(n: Node, target: string)
  {
    !n.paused && IsNodeUnavailable(n) && (n.current != target || ShouldUncordon(n, target))
  }

  function Candidates(all: seq<Node>, target: string): seq<Node>
  {
    Sort(Filter(all, n => Eligible(n, target)), UpdateBefore)
  }

  function UnavailableCount(all: seq<Node>): nat
  {
    Count(all, IsNodeUnavailable)
  }

  function Slots(all: seq<Node>, budget: int): nat
  {
    if budget > UnavailableCount(all) then budget - UnavailableCount(all) else 0
  }

  function Min(a: nat, b: nat): nat
  {
    if a < b then a else b
  }

  /** The nodes that may start: the first `Slots` candidates. */
  function Selected(all: seq<Node>, target: string, budget: int): seq<Node>
  {
    var cs := Candidates(all, target);
    cs[..Min(Slots(all, budget), |cs|)]
  }

  function Continuing(all: seq<Node>, target: string): seq<Node>
  {
    Filter(all, n => InProgress(n, target))
  }

  ghost predicate NamesDistinct(all: seq<Node>)
  {
    forall i, j | 0 <= i < j < |all| :: all[i].name != all[j].name
  }

  method CollectEligible(all: seq<Node>, target: string) returns (needsUpdate: seq<Node>)
    ensures needsUpdate == Filter(all, n => Eligible(n, target))
  {
    needsUpdate := [];
    for i := 0 to |all|
      invariant needsUpdate == Filter(all[..i], n => Eligible(n, target))
    {
      assert all[..i + 1][..i] == all[..i];
      if all[i].paused {
        continue;
      }
      if all[i].current != target && !IsNodeUnavailable(all[i]) {
        needsUpdate := needsUpdate + [all[i]];
      }
    }
    assert all[..|all|] == all;
  }

  method CountUnavailable(all: seq<Node>) returns (unavailable: nat)
    ensures unavailable == UnavailableCount(all)
  {
    unavailable := 0;
    for i := 0 to |all|
      invariant unavailable == UnavailableCount(all[..i])
    {
      assert all[..i + 1][..i] == all[..i];
      if IsNodeUnavailable(all[i]) {
        unavailable := unavailable + 1;
      }
    }
    assert all[..|all|] == all;
  }

  method SelectNodesForUpdate(maxUnavailable: Option<IntOrString>, all: seq<Node>, target: string)
    returns (selected: seq<Node>)
    ensures selected == Selected(all, target, CalculateMaxUnavailable(maxUnavailable, |all|))
  {
    var needsUpdate := CollectEligible(all, target);
    SortPermutes(needsUpdate, UpdateBefore);
    if |needsUpdate| == 0 {
      return [];
    }
    needsUpdate := Sort(needsUpdate, UpdateBefore);
    var unavailable := CountUnavailable(all);
    var canUpdate := CalculateMaxUnavailable(maxUnavailable, |all|) - unavailable;
    if canUpdate <= 0 {
      return [];
    }
    if canUpdate > |needsUpdate| {
      canUpdate := |needsUpdate|;
    }
    return needsUpdate[..canUpdate];
  }

  method CollectNodesInProgress(all: seq<Node>, target: string) returns (inProgress: seq<Node>)
    ensures inProgress == Continuing(all, target)
  {
    inProgress := [];
    for i := 0 to |all|
      invariant inProgress == Filter(all[..i], n => InProgress(n, target))
    {
      assert all[..i + 1][..i] == all[..i];
      if all[i].paused {
        continue;
      }
      if IsNodeUnavailable(all[i]) && (all[i].current != target || ShouldUncordon(all[i], target)) {
        inProgress := inProgress + [all[i]];
      }
    }
    assert all[..|all|] == all;
  }

  /** Everything a caller may rely on about the selection, without naming how it is computed:
      only eligible nodes, each at most once, exactly as many as the budget leaves room for,
      and none picked over an eligible node that comes before it. */
  lemma SelectionMeetsSpec(all: seq<Node>, target: string, budget: int)
    requires NamesDistinct(all)
    ensures var sel := Selected(all, target, budget);
      && (forall n | n in sel :: n in all && Eligible(n, target))
      && NamesDistinct(sel)
      && |sel| == Min(Slots(all, budget), Count(all, n => Eligible(n, target)))
      && (forall i, j | 0 <= i < j < |sel| :: UpdateBefore(sel[i], sel[j]))
      && (forall n, m | n in all && Eligible(n, target) && n !in sel && m in sel :: UpdateBefore(m, n))
  {
    var p := (n: Node) => Eligible(n, target);
    var elig := Filter(all, p);
    var cs := Candidates(all, target);
    UpdateBeforeIsTotal();
    FilterMembers(all, p);
    FilterKeepsNamesDistinct(all, p);
    SortPermutes(elig, UpdateBefore);
    SortSorts(elig, UpdateBefore);
    SortKeepsMembers(elig, UpdateBefore);
    SortKeepsNamesDistinct(elig);
    var sel := Selected(all, target, budget);
    forall n, m | n in all && Eligible(n, target) && n !in sel && m in sel ensures UpdateBefore(m, n) {
      assert n in cs;
      var i :| 0 <= i < |sel| && sel[i] == m;
      var j :| 0 <= j < |cs| && cs[j] == n;
      assert cs[i] == m;
      assert j >= |sel|;
    }
    forall i, j | 0 <= i < j < |sel| ensures UpdateBefore(sel[i], sel[j]) {
      assert cs[i].name != cs[j].name && !UpdateBefore(cs[j], cs[i]);
    }
  }

  /** The node comes before the other in a rollout: zoned ones first, zone by zone, the oldest of a zone first. */
  predicate Ahead(m: Node, n: Node)
  {
    if m.zone == n.zone then m.created < n.created || (m.created == n.created && StrLess(m.name, n.name))
    else n.zone == "" || (m.zone != "" && StrLess(m.zone, n.zone))
  }

  lemma AheadMeans(m: Node, n: Node)
    ensures UpdateBefore(m, n) <==> Ahead(m, n)
  {
    StrLessTotal(m.zone, n.zone);
  }

  /** If a candidate is passed over, the selection has taken every slot. */
  lemma PassedOverSlots(all: seq<Node>, target: string, budget: int, n: Node)
    requires n in all && Eligible(n, target) && n !in Selected(all, target, budget)
    ensures |Selected(all, target, budget)| == Slots(all, budget)
  {
    var p := (n: Node) => Eligible(n, target);
    FilterMembers(all, p);
    SortKeepsMembers(Filter(all, p), UpdateBefore);
    var cs := Candidates(all, target);
    assert n in cs && cs[..|cs|] == cs;
  }

  /** A node that could be started is passed over only when the budget is used up, and only for nodes ahead of it. */
  lemma PassedOverMeans(all: seq<Node>, target: string, budget: int, n: Node)
    requires NamesDistinct(all)
    requires n in all && !n.paused && n.current != target && !OutOfService(n) && n !in Selected(all, target, budget)
    ensures |Selected(all, target, budget)| + Count(all, OutOfService) >= budget
    ensures forall m | m in Selected(all, target, budget) :: Ahead(m, n)
  {
    assert Eligible(n, target);
    PassedOverSlots(all, target, budget, n);
    CountSame(all, IsNodeUnavailable, OutOfService);
    SelectionMeetsSpec(all, target, budget);
    forall m | m in Selected(all, target, budget) ensures Ahead(m, n) {
      AheadMeans(m, n);
    }
  }

  /** The selection on the nodes' own fields.  Whoever is selected is in service, wanted and behind the target; together
      with all the unpaused nodes out of service the selected ones fit the budget; and a node that could be
      started is passed over only when the budget is used up, and only for nodes ahead of it. */
  lemma SelectedAreInService(all: seq<Node>, target: string, budget: int)
    requires NamesDistinct(all)
    ensures forall n | n in Selected(all, target, budget) ::
      && n in all && !n.paused && n.current != target
      && !n.unschedulable && !n.cordoned && n.drainStartedAt == NoStamp
      && !n.state.Applying? && !n.state.Rebooting? && (n.desired == "" || n.desired == n.current)
    ensures var sel := Selected(all, target, budget); sel != [] ==> |sel| + Count(all, OutOfService) <= budget
    ensures forall n | n in all && !n.paused && n.current != target && !OutOfService(n) && n !in Selected(all, target, budget) ::
      && |Selected(all, target, budget)| + Count(all, OutOfService) >= budget
      && forall m | m in Selected(all, target, budget) :: Ahead(m, n)
  {
    SelectionMeetsSpec(all, target, budget);
    CountSame(all, IsNodeUnavailable, OutOfService);
    forall n | n in all && !n.paused && n.current != target && !OutOfService(n) && n !in Selected(all, target, budget)
      ensures |Selected(all, target, budget)| + Count(all, OutOfService) >= budget
      ensures forall m | m in Selected(all, target, budget) :: Ahead(m, n)
    {
      PassedOverMeans(all, target, budget, n);
    }
  }

  /** A reconcile continues exactly the unpaused nodes out of service that are not at the target, or are there with
      their agent done and the controller's cordon still on. */
  lemma ContinuedMeans(all: seq<Node>, target: string, n: Node)
    ensures n in Continuing(all, target) <==>
      && n in all && OutOfService(n)
      && (n.current != target || (n.cordoned && n.state.Done?))
  {
    FilterMembers(all, m => InProgress(m, target));
  }

  lemma {:induction false} FilterKeepsNamesDistinct(all: seq<Node>, p: Node -> bool)
    requires NamesDistinct(all)
    ensures NamesDistinct(Filter(all, p))
  {
    if all != [] {
      var front := all[..|all| - 1];
      FilterKeepsNamesDistinct(front, p);
      FilterMembers(front, p);
      assert forall i | 0 <= i < |Filter(front, p)| :: Filter(front, p)[i] in front;
    }
  }

  lemma {:induction false} InsertKeepsNamesDistinct(x: Node, s: seq<Node>)
    requires NamesDistinct(s) && forall y | y in s :: y.name != x.name
    ensures NamesDistinct(Insert(x, s, UpdateBefore))
  {
    if s != [] && !UpdateBefore(x, s[0]) {
      InsertKeepsNamesDistinct(x, s[1..]);
      InsertPermutes(x, s[1..], UpdateBefore);
      var t := Insert(x, s[1..], UpdateBefore);
      forall y | y in t ensures y.name != s[0].name {
        assert y in multiset(t);
        assert y == x || y in s[1..];
      }
    }
  }

  lemma {:induction false} SortKeepsNamesDistinct(s: seq<Node>)
    requires NamesDistinct(s)
    ensures NamesDistinct(Sort(s, UpdateBefore))
  {
    if s != [] {
      SortKeepsNamesDistinct(s[1..]);
      SortKeepsMembers(s[1..], UpdateBefore);
      InsertKeepsNamesDistinct(s[0], Sort(s[1..], UpdateBefore));
    }
  }
}
