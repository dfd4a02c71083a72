/** Deleting old rendered configs (internal/controller/cleanup.go). */
module Cleanup {
  import opened Order
  import opened Nodes

  /** A rendered config as the cleaner sees it. */
  datatype Rendered = Rendered(name: string, created: int)

  predicate Older(a: Rendered, b: Rendered)
  {
    a.created < b.created
  }

  ghost predicate InUse(name: string, target: string, nodes: seq<Node>)
  {
    name != "" && (name == target || exists i | 0 <= i < |nodes| :: nodes[i].current == name || nodes[i].desired == name)
  }

  method GetRevisionsInUse(nodes: seq<Node>, target: string) returns (inUse: set<string>)
    ensures forall name :: name in inUse <==> InUse(name, target, nodes)
  {
    inUse := if target != "" then {target} else {};
    for i := 0 to |nodes|
      invariant forall name :: name in inUse <==> InUse(name, target, nodes[..i])
    {
      ghost var before := inUse;
      if nodes[i].current != "" {
        inUse := inUse + {nodes[i].current};
      }
      if nodes[i].desired != "" {
        inUse := inUse + {nodes[i].desired};
      }
      InUseOneMore(nodes, i, target);
    }
    assert nodes[..|nodes|] == nodes;
  }

  lemma InUseOneMore(nodes: seq<Node>, i: nat, target: string)
    requires i < |nodes|
    ensures forall name :: InUse(name, target, nodes[..i + 1]) <==>
      (InUse(name, target, nodes[..i]) || (name != "" && (name == nodes[i].current || name == nodes[i].desired)))
  {
    forall name
      ensures InUse(name, target, nodes[..i + 1]) <==>
        (InUse(name, target, nodes[..i]) || (name != "" && (name == nodes[i].current || name == nodes[i].desired)))
    {
      var shorter, longer := nodes[..i], nodes[..i + 1];
      assert longer[i] == nodes[i];
      if k :| 0 <= k < |shorter| && (shorter[k].current == name || shorter[k].desired == name) {
        assert longer[k] == shorter[k];
      }
      if k :| 0 <= k < |longer| && (longer[k].current == name || longer[k].desired == name) {
        assert k < i ==> shorter[k] == longer[k];
      }
    }
  }

  ghost predicate NamesDistinct(rmcs: seq<Rendered>)
  {
    forall i, j | 0 <= i < j < |rmcs| :: rmcs[i].name != rmcs[j].name
  }

  ghost function Elements(rmcs: seq<Rendered>): set<Rendered>
  {
    set r | r in rmcs
  }

  ghost function Used(rmcs: seq<Rendered>, target: string, nodes: seq<Node>): set<Rendered>
  {
    set r | r in rmcs && InUse(r.name, target, nodes)
  }

  function Max(a: int, b: int): int
  {
    if a > b then a else b
  }

  lemma {:induction false} ElementsCount(rmcs: seq<Rendered>)
    requires NamesDistinct(rmcs)
    ensures |Elements(rmcs)| == |rmcs|
  {
    if rmcs != [] {
      var front, last := rmcs[..|rmcs| - 1], rmcs[|rmcs| - 1];
      ElementsCount(front);
      assert rmcs == front + [last];
      assert Elements(rmcs) == Elements(front) + {last};
      assert last !in front;
    }
  }

  /** What a cleanup with a limit may have done to a listing longer than the limit. */
  ghost predicate IsCleanup(rmcs: seq<Rendered>, target: string, nodes: seq<Node>, limit: int, gone: set<Rendered>, failed: Option<Rendered>)
  {
    // only listed and unused ones go
    && gone <= Elements(rmcs) - Used(rmcs, target, nodes)
    // the oldest unused ones go first
    && (forall a, b | a in gone && b in rmcs && b !in gone && !InUse(b.name, target, nodes) :: a.created <= b.created)
    // without an error, as many go as the limit asks for and use allows
    && (failed.None? ==> |rmcs| - |gone| == Max(limit, |Used(rmcs, target, nodes)|))
    // an error stops the cleanup at an unused one, with more still to go and all the older unused ones gone
    && (failed.Some? ==>
          && failed.value in rmcs && failed.value !in gone && !InUse(failed.value.name, target, nodes)
          && |rmcs| - |gone| > limit
          && forall b | b in rmcs && b.created < failed.value.created && !InUse(b.name, target, nodes) :: b in gone)
  }

  method SortByAge(rmcs: seq<Rendered>) returns (sorted: seq<Rendered>)
    ensures multiset(sorted) == multiset(rmcs) && Sorted(sorted, Older)
  {
    sorted := Sort(rmcs, Older);
    SortPermutes(rmcs, Older);
    SortSorts(rmcs, Older);
  }

  /** The sweep has passed the first `i`: the unused ones among them are gone. */
  ghost predicate Swept(sorted: seq<Rendered>, i: nat, target: string, nodes: seq<Node>, gone: set<Rendered>)
    requires i <= |sorted|
  {
    forall r :: r in gone <==> r in sorted[..i] && !InUse(r.name, target, nodes)
  }

  lemma SweptIsUnused(rmcs: seq<Rendered>, sorted: seq<Rendered>, i: nat, target: string, nodes: seq<Node>, gone: set<Rendered>)
    requires NamesDistinct(rmcs) && multiset(sorted) == multiset(rmcs)
    requires i <= |sorted| && Swept(sorted, i, target, nodes, gone)
    ensures gone <= Elements(rmcs) - Used(rmcs, target, nodes)
    ensures |gone| <= |rmcs| - |Used(rmcs, target, nodes)|
    ensures i == |sorted| ==> |gone| == |rmcs| - |Used(rmcs, target, nodes)|
  {
    var all, used := Elements(rmcs), Used(rmcs, target, nodes);
    SameMembers(sorted, rmcs);
    ElementsCount(rmcs);
    assert |all - used| == |all| - |used|;
    SubsetSize(gone, all - used);
    if i == |sorted| {
      assert sorted[..i] == sorted;
      assert gone == all - used;
    }
  }

  /** What the sweep spared for no reason of use comes later in the order of age. */
  lemma SpareIsNotOlder(sorted: seq<Rendered>, i: nat, target: string, nodes: seq<Node>, gone: set<Rendered>, a: Rendered, b: Rendered)
    requires i <= |sorted| && Sorted(sorted, Older) && Swept(sorted, i, target, nodes, gone)
    requires a in gone && b in sorted && b !in gone && !InUse(b.name, target, nodes)
    ensures !Older(b, a)
  {
    var j :| 0 <= j < i && sorted[..i][j] == a;
    var k :| 0 <= k < |sorted| && sorted[k] == b;
    assert b !in sorted[..i];
    assert forall m | 0 <= m < i :: sorted[m] == sorted[..i][m];
  }

  /** An arrangement by age whose sweep stopped where the loop stops is a cleanup of the listing. */
  lemma SweepIsCleanup(rmcs: seq<Rendered>, sorted: seq<Rendered>, i: nat, target: string, nodes: seq<Node>,
                       limit: int, gone: set<Rendered>, failed: Option<Rendered>)
    requires NamesDistinct(rmcs) && multiset(sorted) == multiset(rmcs) && Sorted(sorted, Older)
    requires limit < |rmcs| && i <= |sorted| && Swept(sorted, i, target, nodes, gone)
    requires |gone| <= |rmcs| - limit
    requires failed.None? ==> i == |sorted| || |gone| == |rmcs| - limit
    requires failed.Some? ==>
      i < |sorted| && failed.value == sorted[i] && sorted[i] !in gone && !InUse(sorted[i].name, target, nodes) && |gone| < |rmcs| - limit
    ensures IsCleanup(rmcs, target, nodes, limit, gone, failed)
  {
    SameMembers(sorted, rmcs);
    SweptIsUnused(rmcs, sorted, i, target, nodes, gone);
    forall a, b | a in gone && b in rmcs && b !in gone && !InUse(b.name, target, nodes) ensures !Older(b, a) {
      SpareIsNotOlder(sorted, i, target, nodes, gone, a, b);
    }
    if failed.Some? {
      forall b | b in rmcs && Older(b, failed.value) && !InUse(b.name, target, nodes) ensures b in gone {
        var k :| 0 <= k < |sorted| && sorted[k] == b;
        assert sorted[..i][k] == b;
      }
    }
  }

  class RmcCleaner {
    /** The rendered configs the API server holds. */
    var store: set<Rendered>

    /** `listing` is None when listing fails; `deletes` says of each name whether its deletion succeeds. */
    method CleanupOldRMCs(limit: int, listing: Option<seq<Rendered>>, target: string, nodes: seq<Node>, deletes: string -> bool)
      returns (deleted: nat, failed: bool, ghost gone: set<Rendered>, ghost stoppedAt: Option<Rendered>)
      requires listing.Some? ==> NamesDistinct(listing.value)
      modifies this
      ensures store == old(store) - gone && deleted == |gone|
      ensures limit == 0 || listing.None? || |listing.value| <= limit ==> gone == {}
      ensures limit != 0 && listing.None? ==> failed
      ensures limit == 0 || (listing.Some? && |listing.value| <= limit) ==> !failed
      ensures limit != 0 && listing.Some? && |listing.value| > limit ==>
        && failed == stoppedAt.Some?
        && IsCleanup(listing.value, target, nodes, limit, gone, stoppedAt)
        && (forall r | r in gone :: deletes(r.name)) && (stoppedAt.Some? ==> !deletes(stoppedAt.value.name))
    {
      deleted, failed, gone, stoppedAt := 0, false, {}, None;
      if limit == 0 {
        return;
      }
      if listing.None? {
        failed := true;
        return;
      }
      var rmcs := listing.value;
      if |rmcs| <= limit {
        return;
      }
      var inUse := GetRevisionsInUse(nodes, target);
      var sorted := SortByAge(rmcs);
      SameMembers(rmcs, sorted);
      DistinctByMultiset(rmcs, sorted);
      var toDelete := |rmcs| - limit;
      var i := 0;
      while i < |sorted| && deleted < toDelete
        invariant 0 <= i <= |sorted| && deleted <= toDelete && |gone| == deleted
        invariant Swept(sorted, i, target, nodes, gone)
        invariant store == old(store) - gone
        invariant forall r | r in gone :: deletes(r.name)
      {
        var rmc := sorted[i];
        SweptOneMore(sorted, i, target, nodes, gone);
        if rmc.name in inUse {
          i := i + 1;
          continue;
        }
        if !deletes(rmc.name) {
          failed, stoppedAt := true, Some(rmc);
          SweepIsCleanup(rmcs, sorted, i, target, nodes, limit, gone, stoppedAt);
          return;
        }
        store := store - {rmc};
        gone := gone + {rmc};
        deleted := deleted + 1;
        i := i + 1;
      }
      SweepIsCleanup(rmcs, sorted, i, target, nodes, limit, gone, stoppedAt);
    }
  }

  lemma SweptOneMore(sorted: seq<Rendered>, i: nat, target: string, nodes: seq<Node>, gone: set<Rendered>)
    requires Distinct(sorted) && i < |sorted| && Swept(sorted, i, target, nodes, gone)
    ensures sorted[i] !in gone
    ensures Swept(sorted, i + 1, target, nodes, if InUse(sorted[i].name, target, nodes) then gone else gone + {sorted[i]})
  {
    assert sorted[..i + 1] == sorted[..i] + [sorted[i]];
  }

  // ------------------------------------------------------------- what it means for a rollout

  /** Whatever it deletes and however it ends, no node is left without the config it runs or is told to run,
      and the target stays. */
  lemma CleanupSparesTheRollout(rmcs: seq<Rendered>, target: string, nodes: seq<Node>, limit: int, gone: set<Rendered>, failed: Option<Rendered>)
    requires IsCleanup(rmcs, target, nodes, limit, gone, failed)
    ensures forall r | r in gone :: r.name == "" || (r.name != target && forall i | 0 <= i < |nodes| :: r.name != nodes[i].current && r.name != nodes[i].desired)
  {
    forall r | r in gone ensures !InUse(r.name, target, nodes) {
      assert r in Elements(rmcs) - Used(rmcs, target, nodes);
    }
  }

  /** Where no two unused configs are of the same age, two cleanups that end well delete the same ones:
      the outcome does not depend on how the sort breaks ties. */
  lemma CleanupIsDetermined(rmcs: seq<Rendered>, target: string, nodes: seq<Node>, limit: int, a: set<Rendered>, b: set<Rendered>)
    requires IsCleanup(rmcs, target, nodes, limit, a, None) && IsCleanup(rmcs, target, nodes, limit, b, None)
    requires forall x, y | x in rmcs && y in rmcs && x != y && !InUse(x.name, target, nodes) && !InUse(y.name, target, nodes) ::
               x.created != y.created
    ensures a == b
  {
    if x, y :| x in a && x !in b && y in b && y !in a {
      assert false;
    }
    if a <= b {
      SubsetOfSameSize(a, b);
    } else {
      SubsetOfSameSize(b, a);
    }
  }

  lemma SubsetOfSameSize<T>(a: set<T>, b: set<T>)
    requires a <= b && |a| == |b|
    ensures a == b
  {
    assert b == a + (b - a);
  }
}
