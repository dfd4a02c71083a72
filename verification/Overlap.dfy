/** Which nodes more than one pool claims, and who may write to a node (internal/controller/overlap.go).

Selector evaluation is a parameter: `matches(node, pool)` is None for a selector that does not parse. */
module Overlap {
  import opened Order

  type Matcher = (string, string) -> Option<bool>

  predicate Claims(matches: Matcher, node: string, pool: string)
  {
    matches(node, pool) == Some(true)
  }

  /** The pools that claim a node, in listing order, as the inner loop collects them. */
  function ClaimedBy(matches: Matcher, node: string, pools: seq<string>): seq<string>
  {
    if pools == [] then []
    else
      var last := pools[|pools| - 1];
      ClaimedBy(matches, node, pools[..|pools| - 1]) + if Claims(matches, node, last) then [last] else []
  }

  lemma {:induction false} ClaimedByMembers(matches: Matcher, node: string, pools: seq<string>)
    ensures forall p :: p in ClaimedBy(matches, node, pools) <==> p in pools && Claims(matches, node, p)
    ensures Distinct(pools) ==> Distinct(ClaimedBy(matches, node, pools))
  {
    if pools != [] {
      var front, last := pools[..|pools| - 1], pools[|pools| - 1];
      ClaimedByMembers(matches, node, front);
      assert pools == front + [last];
    }
  }

  /** Two different pools claim the node. */
  ghost predicate Contested(matches: Matcher, node: string, pools: seq<string>)
  {
    exists p, q | p in pools && q in pools && p != q :: Claims(matches, node, p) && Claims(matches, node, q)
  }

  lemma TwoClaimsMakeAConflict(matches: Matcher, node: string, pools: seq<string>)
    requires Distinct(pools)
    ensures |ClaimedBy(matches, node, pools)| > 1 <==> Contested(matches, node, pools)
  {
    var claimed := ClaimedBy(matches, node, pools);
    ClaimedByMembers(matches, node, pools);
    if |claimed| > 1 {
      assert claimed[0] in claimed && claimed[1] in claimed && claimed[0] != claimed[1];
      assert Claims(matches, node, claimed[0]) && Claims(matches, node, claimed[1]);
    }
    if Contested(matches, node, pools) {
      var p, q :| p in pools && q in pools && p != q && Claims(matches, node, p) && Claims(matches, node, q);
      assert p in claimed && q in claimed;
    }
  }

  /** The members of a list in strictly increasing order. */
  ghost predicate SortedListing(s: seq<string>, members: iset<string>)
  {
    && (forall i, j | 0 <= i < j < |s| :: StrLess(s[i], s[j]))
    && (forall x :: x in s <==> x in members)
  }

  lemma SortingLists(s: seq<string>)
    requires Distinct(s)
    ensures SortedListing(Sort(s, StrLess), iset x | x in s)
  {
    var t := Sort(s, StrLess);
    StrLessWeakOrder();
    SortSorts(s, StrLess);
    SortPermutes(s, StrLess);
    SortKeepsMembers(s, StrLess);
    DistinctByMultiset(s, t);
    forall i, j | 0 <= i < j < |t| ensures StrLess(t[i], t[j]) {
      StrLessTotal(t[i], t[j]);
    }
  }

  /** The contested nodes and nothing else, each with all the pools that claim it, sorted. */
  ghost predicate ExactConflicts(conflicts: map<string, seq<string>>, pools: seq<string>, nodes: seq<string>, matches: Matcher)
  {
    && (forall n :: n in conflicts <==> n in nodes && Contested(matches, n, pools))
    && (forall n | n in conflicts ::
          SortedListing(conflicts[n], iset p | p in pools && Claims(matches, n, p)))
  }

  /** The pools collected for a node, "no entry" reading as the empty list. */
  function Listed(m: map<string, seq<string>>, node: string): seq<string>
  {
    if node in m then m[node] else []
  }

  method CollectClaims(pools: seq<string>, nodes: seq<string>, matches: Matcher) returns (nodeToPool: map<string, seq<string>>)
    requires Distinct(nodes)
    ensures forall n | n in nodes :: Listed(nodeToPool, n) == ClaimedBy(matches, n, pools)
    ensures forall n | n in nodeToPool :: n in nodes
  {
    nodeToPool := map[];
    for i := 0 to |nodes|
      invariant forall k | 0 <= k < i :: Listed(nodeToPool, nodes[k]) == ClaimedBy(matches, nodes[k], pools)
      invariant forall n | n in nodeToPool :: n in nodes[..i]
    {
      var node := nodes[i];
      ghost var before := nodeToPool;
      for j := 0 to |pools|
        invariant Listed(nodeToPool, node) == ClaimedBy(matches, node, pools[..j])
        invariant forall n | n != node :: (n in nodeToPool <==> n in before) && Listed(nodeToPool, n) == Listed(before, n)
      {
        var matched := matches(node, pools[j]);
        assert pools[..j + 1][..j] == pools[..j];
        if matched.None? {
          continue;
        }
        if matched.value {
          nodeToPool := nodeToPool[node := Listed(nodeToPool, node) + [pools[j]]];
        }
      }
      assert pools[..|pools|] == pools;
    }
  }

  method KeepShared(nodeToPool: map<string, seq<string>>) returns (conflicts: map<string, seq<string>>)
    ensures forall n :: n in conflicts <==> n in nodeToPool && |nodeToPool[n]| > 1
    ensures forall n | n in conflicts :: conflicts[n] == Sort(nodeToPool[n], StrLess)
  {
    conflicts := map[];
    var left := nodeToPool.Keys;
    while left != {}
      invariant left <= nodeToPool.Keys
      invariant forall n :: n in conflicts <==> n in nodeToPool.Keys - left && |nodeToPool[n]| > 1
      invariant forall n | n in conflicts :: conflicts[n] == Sort(nodeToPool[n], StrLess)
      decreases |left|
    {
      var n :| n in left;  // map iteration has no order
      left := left - {n};
      if |nodeToPool[n]| > 1 {
        conflicts := conflicts[n := Sort(nodeToPool[n], StrLess)];
      }
    }
  }

  lemma SortedClaims(matches: Matcher, node: string, pools: seq<string>)
    requires Distinct(pools)
    ensures SortedListing(Sort(ClaimedBy(matches, node, pools), StrLess), iset p | p in pools && Claims(matches, node, p))
  {
    ClaimedByMembers(matches, node, pools);
    SortingLists(ClaimedBy(matches, node, pools));
  }

  method DetectPoolOverlapFromLists(pools: seq<string>, nodes: seq<string>, matches: Matcher)
    returns (conflicts: map<string, seq<string>>)
    requires Distinct(pools) && Distinct(nodes)
    ensures ExactConflicts(conflicts, pools, nodes, matches)
  {
    var nodeToPool := CollectClaims(pools, nodes, matches);
    conflicts := KeepShared(nodeToPool);
    forall n
      ensures n in conflicts <==> n in nodes && Contested(matches, n, pools)
      ensures n in conflicts ==> SortedListing(conflicts[n], iset p | p in pools && Claims(matches, n, p))
    {
      TwoClaimsMakeAConflict(matches, n, pools);
      SortedClaims(matches, n, pools);
      if n in nodes {
        assert Listed(nodeToPool, n) == ClaimedBy(matches, n, pools);
      }
    }
  }

  /** The nodes of `nodes` that are not contested; all of them when detection failed (None). */
  function NonConflicting(nodes: seq<string>, overlap: Option<map<string, seq<string>>>): seq<string>
  {
    if overlap.None? then nodes else Filter(nodes, n => n !in overlap.value)
  }

  method FilterNonConflictingNodes(nodes: seq<string>, overlap: Option<map<string, seq<string>>>) returns (result: seq<string>)
    ensures result == NonConflicting(nodes, overlap)
  {
    if overlap.None? || |overlap.value| == 0 {
      if overlap.Some? {
        FilterAll(nodes, n => n !in overlap.value);
      }
      return nodes;
    }
    result := [];
    for i := 0 to |nodes|
      invariant result == Filter(nodes[..i], n => n !in overlap.value)
    {
      assert nodes[..i + 1][..i] == nodes[..i];
      if nodes[i] !in overlap.value {
        result := result + [nodes[i]];
      }
    }
    assert nodes[..|nodes|] == nodes;
  }

  /** The nodes a reconcile of `pool` may cordon, drain or give a revision. */
  ghost function Writable(pool: string, nodes: seq<string>, matches: Matcher, overlap: Option<map<string, seq<string>>>): iset<string>
  {
    var selected := NonConflicting(Filter(nodes, n => Claims(matches, n, pool)), overlap);
    iset n | n in selected
  }

  lemma WritableMeans(pool: string, nodes: seq<string>, matches: Matcher, overlap: Option<map<string, seq<string>>>, n: string)
    ensures n in Writable(pool, nodes, matches, overlap)
        <==> n in nodes && Claims(matches, n, pool) && (overlap.Some? ==> n !in overlap.value)
  {
    FilterMembers(nodes, n => Claims(matches, n, pool));
    if overlap.Some? {
      FilterMembers(Filter(nodes, n => Claims(matches, n, pool)), n => n !in overlap.value);
    }
  }

  /** Two pools write to disjoint sets of nodes exactly when detection succeeded or no node is claimed
      by both: a reconcile goes on after a failed detection, and then nothing keeps them apart. */
  lemma ExclusiveOwnership(p: string, q: string, pools: seq<string>, nodes: seq<string>, matches: Matcher,
                           overlap: Option<map<string, seq<string>>>)
    requires p in pools && q in pools && p != q
    requires overlap.Some? ==> ExactConflicts(overlap.value, pools, nodes, matches)
    ensures Writable(p, nodes, matches, overlap) !! Writable(q, nodes, matches, overlap)
       <==> overlap.Some? || !(exists n | n in nodes :: Claims(matches, n, p) && Claims(matches, n, q))
  {
    forall n
      ensures n in Writable(p, nodes, matches, overlap) && n in Writable(q, nodes, matches, overlap)
         <==> overlap.None? && n in nodes && Claims(matches, n, p) && Claims(matches, n, q)
    {
      WritableMeans(p, nodes, matches, overlap, n);
      WritableMeans(q, nodes, matches, overlap, n);
      if overlap.Some? && n in nodes && Claims(matches, n, p) && Claims(matches, n, q) {
        assert Contested(matches, n, pools);
      }
    }
  }

  /** The contested nodes a pool is party to, sorted. */
  method GetConflictsForPool(conflicts: map<string, seq<string>>, pool: string) returns (nodes: seq<string>)
    ensures SortedListing(nodes, iset n | n in conflicts && pool in conflicts[n])
  {
    var found: seq<string> := [];
    var left := conflicts.Keys;
    while left != {}
      invariant left <= conflicts.Keys
      invariant Distinct(found)
      invariant forall n :: n in found <==> n in conflicts.Keys - left && pool in conflicts[n]
      decreases |left|
    {
      var n :| n in left;
      left := left - {n};
      if pool in conflicts[n] {
        found := found + [n];
      }
    }
    SortingLists(found);
    nodes := Sort(found, StrLess);
  }

  /** A pool reports an overlap exactly when one of its nodes is also claimed by another pool. */
  lemma OverlapIsShared(conflicts: map<string, seq<string>>, pool: string, pools: seq<string>, nodes: seq<string>, matches: Matcher)
    requires ExactConflicts(conflicts, pools, nodes, matches) && pool in pools
    ensures (exists n | n in conflicts :: pool in conflicts[n])
       <==> (exists n, other | n in nodes && other in pools && other != pool ::
               Claims(matches, n, pool) && Claims(matches, n, other))
  {
    if n :| n in conflicts && pool in conflicts[n] {
      var p, q :| p in pools && q in pools && p != q && Claims(matches, n, p) && Claims(matches, n, q);
      var other := if p == pool then q else p;
      assert n in nodes && other in pools && other != pool && Claims(matches, n, pool) && Claims(matches, n, other);
    }
    if n, other :| n in nodes && other in pools && other != pool && Claims(matches, n, pool) && Claims(matches, n, other) {
      assert Contested(matches, n, pools);
    }
  }
}
