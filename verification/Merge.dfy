/** Priority merge of machine configs and the canonical form that is hashed
(internal/renderer/merge.go, internal/renderer/hash.go). */
module Merge {
  import opened Order
  import opened Config

  /** Merge order: priority, then name. */
  predicate MergesBefore(a: MachineConfig, b: MachineConfig)
  {
    if a.priority != b.priority then a.priority < b.priority else StrLess(a.name, b.name)
  }

  ghost predicate ConfigNamesDistinct(configs: seq<MachineConfig>)
  {
    KeysUnique(configs, ConfigName)
  }

  function ConfigName(c: MachineConfig): string { c.name }

  lemma MergesBeforeIsWeakOrder()
    ensures WeakOrder(MergesBefore)
    ensures forall a: MachineConfig, b: MachineConfig | a.name != b.name :: MergesBefore(a, b) || MergesBefore(b, a)
  {
    StrLessWeakOrder();
    forall x: MachineConfig, y: MachineConfig, z: MachineConfig | !MergesBefore(y, x) && !MergesBefore(z, y)
      ensures !MergesBefore(z, x)
    {
      assert !StrLess(y.name, x.name) && !StrLess(z.name, y.name) ==> !StrLess(z.name, x.name);
    }
    forall a: MachineConfig, b: MachineConfig | a.name != b.name ensures MergesBefore(a, b) || MergesBefore(b, a) {
      StrLessTotal(a.name, b.name);
    }
  }

  // ------------------------------------------------------------- what a merge means

  /** `c` has the say over key `k`: it lists it, and merges after every other config that does. */
  ghost predicate HasTheSay<T>(configs: seq<MachineConfig>, items: MachineConfig -> seq<T>, key: T -> string, k: string, c: MachineConfig)
  {
    && c in configs && Lists(items(c), key, k)
    && forall d | d in configs && Lists(items(d), key, k) :: d == c || MergesBefore(d, c)
  }

  /** Item `x` and its reboot flag both come from config `c`, the one with the say over its key. */
  ghost predicate Decides<T>(
    configs: seq<MachineConfig>, items: MachineConfig -> seq<T>, key: T -> string, flags: map<string, bool>, x: T, c: MachineConfig)
  {
    && HasTheSay(configs, items, key, key(x), c)
    && LastItem(items(c), key, key(x)) == Some(x)
    && key(x) in flags && flags[key(x)] == c.rebootRequired
  }

  /** The merged list and reboot flags for one kind of item. */
  ghost predicate MergedItems<T>(
    configs: seq<MachineConfig>, items: MachineConfig -> seq<T>, key: T -> string, merged: seq<T>, flags: map<string, bool>)
  {
    && StrictlySorted(merged, key)
    && (forall k :: k in flags <==> Lists(merged, key, k))
    && (forall k :: Lists(merged, key, k) <==> exists c :: c in configs && Lists(items(c), key, k))
    && (forall x | x in merged :: exists c :: Decides(configs, items, key, flags, x, c))
  }

  /** `m` is the merge of `configs`, said without an order of evaluation. */
  ghost predicate IsMergeOf(m: MergedConfig, configs: seq<MachineConfig>)
  {
    && MergedItems(configs, FilesOf, PathOf, m.files, m.fileReboot)
    && MergedItems(configs, UnitsOf, NameOf, m.units, m.unitReboot)
    && (m.rebootRequired <==> exists c :: c in configs && c.rebootRequired)
    && (exists sorted: seq<MachineConfig> ::
          multiset(sorted) == multiset(configs) && Sorted(sorted, MergesBefore) && m.sources == SourcesOf(sorted))
  }

  function SourcesOf(configs: seq<MachineConfig>): seq<Source>
  {
    seq(|configs|, i requires 0 <= i < |configs| => Source(configs[i].name, configs[i].priority))
  }

  // ------------------------------------------------------------- the code

  /** The maps after writing a list of items over them: the last item of a key wins. */
  ghost predicate Overwritten<T>(
    listed: seq<T>, key: T -> string, reboot: bool, byKey: map<string, T>, flags: map<string, bool>,
    byKey': map<string, T>, flags': map<string, bool>)
  {
    && byKey.Keys == flags.Keys && byKey'.Keys == flags'.Keys
    && (forall k :: k in byKey' <==> k in byKey || LastItem(listed, key, k).Some?)
    && (forall k | k in byKey' :: match LastItem(listed, key, k)
          case Some(x) => byKey'[k] == x && flags'[k] == reboot
          case None => byKey'[k] == byKey[k] && flags'[k] == flags[k])
  }

  method Overwrite<T>(listed: seq<T>, key: T -> string, reboot: bool, byKey: map<string, T>, flags: map<string, bool>)
    returns (byKey': map<string, T>, flags': map<string, bool>)
    requires byKey.Keys == flags.Keys
    ensures Overwritten(listed, key, reboot, byKey, flags, byKey', flags')
  {
    byKey', flags' := byKey, flags;
    for i := 0 to |listed|
      invariant Overwritten(listed[..i], key, reboot, byKey, flags, byKey', flags')
    {
      assert listed[..i + 1][..i] == listed[..i];
      byKey' := byKey'[key(listed[i]) := listed[i]];
      flags' := flags'[key(listed[i]) := reboot];
    }
    assert listed[..|listed|] == listed;
  }

  /** The values of a map in key order; the map is walked in no particular order. */
  method SortedSlice<T(!new)>(byKey: map<string, T>, key: T -> string, less: (T, T) -> bool) returns (result: seq<T>)
    requires forall k | k in byKey :: key(byKey[k]) == k
    requires forall x, y :: less(x, y) == StrLess(key(x), key(y))
    ensures StrictlySorted(result, key)
    ensures forall x :: x in result <==> key(x) in byKey && byKey[key(x)] == x
  {
    var rest := byKey.Keys;
    result := [];
    while rest != {}
      invariant rest <= byKey.Keys
      invariant KeysUnique(result, key)
      invariant forall x :: x in result <==> key(x) in byKey && key(x) !in rest && byKey[key(x)] == x
      decreases rest
    {
      var k :| k in rest;
      result := result + [byKey[k]];
      rest := rest - {k};
    }
    SortByKeyIsStrict(result, key, less);
    result := Sort(result, less);
  }

  /** The config with the say over `k` among configs in merge order: the last that lists it. */
  function LastLister<T>(sorted: seq<MachineConfig>, items: MachineConfig -> seq<T>, key: T -> string, k: string): Option<MachineConfig>
  {
    if sorted == [] then None
    else
      var c := sorted[|sorted| - 1];
      if LastItem(items(c), key, k).Some? then Some(c) else LastLister(sorted[..|sorted| - 1], items, key, k)
  }

  /** What the two maps of the merge hold after some configs. */
  ghost predicate Tracks<T>(
    sorted: seq<MachineConfig>, items: MachineConfig -> seq<T>, key: T -> string, byKey: map<string, T>, flags: map<string, bool>)
  {
    && byKey.Keys == flags.Keys
    && (forall k :: k in byKey <==> LastLister(sorted, items, key, k).Some?)
    && (forall k | k in byKey :: LastLister(sorted, items, key, k).Some? &&
          var c := LastLister(sorted, items, key, k).value;
          LastItem(items(c), key, k) == Some(byKey[k]) && flags[k] == c.rebootRequired)
  }

  lemma TracksOneMore<T>(
    done: seq<MachineConfig>, c: MachineConfig, items: MachineConfig -> seq<T>, key: T -> string,
    byKey: map<string, T>, flags: map<string, bool>, byKey': map<string, T>, flags': map<string, bool>)
    requires Tracks(done, items, key, byKey, flags)
    requires Overwritten(items(c), key, c.rebootRequired, byKey, flags, byKey', flags')
    ensures Tracks(done + [c], items, key, byKey', flags')
  {
    assert (done + [c])[..|done|] == done;
  }

  /** The items of one more config, written over the maps. */
  method TrackItems<T>(
    ghost done: seq<MachineConfig>, c: MachineConfig, items: MachineConfig -> seq<T>, key: T -> string,
    byKey: map<string, T>, flags: map<string, bool>)
    returns (byKey': map<string, T>, flags': map<string, bool>)
    requires Tracks(done, items, key, byKey, flags)
    ensures Tracks(done + [c], items, key, byKey', flags')
  {
    byKey', flags' := Overwrite(items(c), key, c.rebootRequired, byKey, flags);
    TracksOneMore(done, c, items, key, byKey, flags, byKey', flags');
  }

  method MergeConfigs(configs: seq<MachineConfig>) returns (m: MergedConfig)
    ensures ConfigNamesDistinct(configs) ==> IsMergeOf(m, configs)
  {
    if |configs| == 0 {
      m := MergedConfig([], [], false, [], map[], map[]);
      assert SourcesOf(configs) == [];
      return;
    }
    var sorted := Sort(configs, MergesBefore);
    var filesByPath: map<string, FileSpec>, fileReboot: map<string, bool> := map[], map[];
    var unitsByName: map<string, UnitSpec>, unitReboot: map<string, bool> := map[], map[];
    var rebootRequired := false;
    var sources := [];
    for i := 0 to |sorted|
      invariant Tracks(sorted[..i], FilesOf, PathOf, filesByPath, fileReboot)
      invariant Tracks(sorted[..i], UnitsOf, NameOf, unitsByName, unitReboot)
      invariant rebootRequired <==> exists c :: c in sorted[..i] && c.rebootRequired
      invariant sources == SourcesOf(sorted[..i])
    {
      var c := sorted[i];
      ghost var done := sorted[..i];
      assert sorted[..i + 1] == done + [c] && sorted[..i + 1][..i] == done;
      filesByPath, fileReboot := TrackItems(done, c, FilesOf, PathOf, filesByPath, fileReboot);
      unitsByName, unitReboot := TrackItems(done, c, UnitsOf, NameOf, unitsByName, unitReboot);
      if c.rebootRequired {
        rebootRequired := true;
      }
      sources := sources + [Source(c.name, c.priority)];
    }
    assert sorted[..|sorted|] == sorted;
    TrackedKeys(sorted, FilesOf, PathOf, filesByPath, fileReboot);
    TrackedKeys(sorted, UnitsOf, NameOf, unitsByName, unitReboot);
    var files := SortedSlice(filesByPath, PathOf, (a, b) => StrLess(PathOf(a), PathOf(b)));
    var units := SortedSlice(unitsByName, NameOf, (a, b) => StrLess(NameOf(a), NameOf(b)));
    m := MergedConfig(files, units, rebootRequired, sources, fileReboot, unitReboot);
    if ConfigNamesDistinct(configs) {
      TrackedIsMerge(configs, m, filesByPath, unitsByName);
    }
  }

  /** What the loop has tracked when it is through all configs is their merge. */
  lemma TrackedIsMerge(configs: seq<MachineConfig>, m: MergedConfig, filesByPath: map<string, FileSpec>, unitsByName: map<string, UnitSpec>)
    requires ConfigNamesDistinct(configs)
    requires var sorted := Sort(configs, MergesBefore);
      && Tracks(sorted, FilesOf, PathOf, filesByPath, m.fileReboot) && Tracks(sorted, UnitsOf, NameOf, unitsByName, m.unitReboot)
      && (m.rebootRequired <==> exists c :: c in sorted && c.rebootRequired) && m.sources == SourcesOf(sorted)
    requires StrictlySorted(m.files, PathOf) && forall x :: x in m.files <==> PathOf(x) in filesByPath && filesByPath[PathOf(x)] == x
    requires StrictlySorted(m.units, NameOf) && forall x :: x in m.units <==> NameOf(x) in unitsByName && unitsByName[NameOf(x)] == x
    ensures IsMergeOf(m, configs)
  {
    var sorted := Sort(configs, MergesBefore);
    MergesBeforeIsWeakOrder();
    SortSorts(configs, MergesBefore);
    SortPermutes(configs, MergesBefore);
    SortKeepsConfigNames(configs);
    TrackedItemsMerge(configs, sorted, FilesOf, PathOf, filesByPath, m.fileReboot, m.files);
    TrackedItemsMerge(configs, sorted, UnitsOf, NameOf, unitsByName, m.unitReboot, m.units);
    SortKeepsMembers(configs, MergesBefore);
  }

  lemma {:induction false} LastListerLists<T>(sorted: seq<MachineConfig>, items: MachineConfig -> seq<T>, key: T -> string, k: string)
    ensures LastLister(sorted, items, key, k).Some? ==>
      LastLister(sorted, items, key, k).value in sorted && Lists(items(LastLister(sorted, items, key, k).value), key, k)
    ensures (exists c :: c in sorted && Lists(items(c), key, k)) ==> LastLister(sorted, items, key, k).Some?
  {
    if sorted != [] {
      var front, c := sorted[..|sorted| - 1], sorted[|sorted| - 1];
      LastItemIsListed(items(c), key, k);
      LastListerLists(front, items, key, k);
      assert sorted == front + [c];
    }
  }

  /** In merge order, the last config that lists a key is the one that has the say. */
  lemma {:induction false} LastListerHasTheSay<T>(sorted: seq<MachineConfig>, items: MachineConfig -> seq<T>, key: T -> string, k: string)
    requires Sorted(sorted, MergesBefore) && ConfigNamesDistinct(sorted)
    requires LastLister(sorted, items, key, k).Some?
    ensures HasTheSay(sorted, items, key, k, LastLister(sorted, items, key, k).value)
  {
    var front, c := sorted[..|sorted| - 1], sorted[|sorted| - 1];
    assert sorted == front + [c];
    LastItemIsListed(items(c), key, k);
    MergesBeforeIsWeakOrder();
    if LastItem(items(c), key, k).Some? {
      forall d | d in sorted && Lists(items(d), key, k) ensures d == c || MergesBefore(d, c) {
        var i :| 0 <= i < |sorted| && sorted[i] == d;
        if i < |sorted| - 1 {
          assert !MergesBefore(c, d) && ConfigName(d) != ConfigName(c);
        }
      }
    } else {
      LastListerHasTheSay(front, items, key, k);
    }
  }

  lemma TrackedKeys<T>(sorted: seq<MachineConfig>, items: MachineConfig -> seq<T>, key: T -> string, byKey: map<string, T>, flags: map<string, bool>)
    requires Tracks(sorted, items, key, byKey, flags)
    ensures forall k | k in byKey :: key(byKey[k]) == k
  {
    forall k | k in byKey ensures key(byKey[k]) == k {
      var c := LastLister(sorted, items, key, k).value;
      LastItemIsListed(items(c), key, k);
    }
  }

  lemma SortKeepsConfigNames(configs: seq<MachineConfig>)
    requires ConfigNamesDistinct(configs)
    ensures ConfigNamesDistinct(Sort(configs, MergesBefore))
  {
    SortKeepsUniqueKeys(configs, ConfigName, MergesBefore);
  }

  /** The maps, listed in key order, are the merge. */
  lemma TrackedItemsMerge<T>(
    configs: seq<MachineConfig>, sorted: seq<MachineConfig>, items: MachineConfig -> seq<T>, key: T -> string,
    byKey: map<string, T>, flags: map<string, bool>, merged: seq<T>)
    requires multiset(sorted) == multiset(configs) && Sorted(sorted, MergesBefore) && ConfigNamesDistinct(sorted)
    requires Tracks(sorted, items, key, byKey, flags)
    requires StrictlySorted(merged, key)
    requires forall x :: x in merged <==> key(x) in byKey && byKey[key(x)] == x
    ensures MergedItems(configs, items, key, merged, flags)
  {
    TrackedKeys(sorted, items, key, byKey, flags);
    forall c ensures c in sorted <==> c in configs {
      assert c in multiset(sorted) <==> c in multiset(configs);
    }
    forall k ensures k in flags <==> Lists(merged, key, k) {
      if k in byKey {
        assert byKey[k] in merged;
      }
      if Lists(merged, key, k) {
        var i :| 0 <= i < |merged| && key(merged[i]) == k;
        assert merged[i] in merged;
      }
    }
    forall k ensures Lists(merged, key, k) <==> exists c :: c in configs && Lists(items(c), key, k) {
      LastListerLists(sorted, items, key, k);
    }
    forall x | x in merged ensures exists c :: Decides(configs, items, key, flags, x, c) {
      var c := LastLister(sorted, items, key, key(x)).value;
      LastListerHasTheSay(sorted, items, key, key(x));
      assert Decides(configs, items, key, flags, x, c);
    }
  }

  // ------------------------------------------------------------- who wins, in numbers and names

  /** Of a higher priority, or of the same priority and a name that sorts behind. */
  predicate Outranks(priority: int, name: string, priority': int, name': string)
  {
    priority > priority' || (priority == priority' && StrLess(name', name))
  }

  /** The item and its reboot flag are those of a config that outranks every other one that lists the key. */
  ghost predicate FromTheGreatest<T>(
    configs: seq<MachineConfig>, items: MachineConfig -> seq<T>, key: T -> string, flags: map<string, bool>, x: T, c: MachineConfig)
  {
    && c in configs && LastItem(items(c), key, key(x)) == Some(x)
    && key(x) in flags && flags[key(x)] == c.rebootRequired
    && forall d | d in configs && d != c && Lists(items(d), key, key(x)) :: Outranks(c.priority, c.name, d.priority, d.name)
  }

  lemma MergedItemWins<T>(
    configs: seq<MachineConfig>, items: MachineConfig -> seq<T>, key: T -> string, merged: seq<T>, flags: map<string, bool>, x: T)
    requires MergedItems(configs, items, key, merged, flags) && x in merged
    ensures exists c :: FromTheGreatest(configs, items, key, flags, x, c)
  {
    var c :| Decides(configs, items, key, flags, x, c);
    assert FromTheGreatest(configs, items, key, flags, x, c);
  }

  /** What is merged, in numbers and names: every file and unit, with its reboot flag, is that of the config of the
      highest priority that lists it, the last by name among equals; and the sources are all the configs in that order. */
  lemma HighestPriorityWins(configs: seq<MachineConfig>, m: MergedConfig)
    requires IsMergeOf(m, configs) && ConfigNamesDistinct(configs)
    ensures forall f | f in m.files :: exists c :: FromTheGreatest(configs, FilesOf, PathOf, m.fileReboot, f, c)
    ensures forall u | u in m.units :: exists c :: FromTheGreatest(configs, UnitsOf, NameOf, m.unitReboot, u, c)
    ensures |m.sources| == |configs| && forall c | c in configs :: Source(c.name, c.priority) in m.sources
    ensures forall i, j | 0 <= i < j < |m.sources| ::
      Outranks(m.sources[j].priority, m.sources[j].name, m.sources[i].priority, m.sources[i].name)
  {
    forall f | f in m.files ensures exists c :: FromTheGreatest(configs, FilesOf, PathOf, m.fileReboot, f, c) {
      MergedItemWins(configs, FilesOf, PathOf, m.files, m.fileReboot, f);
    }
    forall u | u in m.units ensures exists c :: FromTheGreatest(configs, UnitsOf, NameOf, m.unitReboot, u, c) {
      MergedItemWins(configs, UnitsOf, NameOf, m.units, m.unitReboot, u);
    }
    var sorted: seq<MachineConfig> :| multiset(sorted) == multiset(configs) && Sorted(sorted, MergesBefore) && m.sources == SourcesOf(sorted);
    SourcesAscend(configs, sorted);
  }

  lemma SourcesAscend(configs: seq<MachineConfig>, sorted: seq<MachineConfig>)
    requires multiset(sorted) == multiset(configs) && Sorted(sorted, MergesBefore) && ConfigNamesDistinct(configs)
    ensures var s := SourcesOf(sorted);
      && |s| == |configs| && (forall c | c in configs :: Source(c.name, c.priority) in s)
      && forall i, j | 0 <= i < j < |s| :: Outranks(s[j].priority, s[j].name, s[i].priority, s[i].name)
  {
    var s := SourcesOf(sorted);
    SameMembers(sorted, configs);
    forall c | c in configs ensures Source(c.name, c.priority) in s {
      var i :| 0 <= i < |sorted| && sorted[i] == c;
      assert s[i] == Source(c.name, c.priority);
    }
    MergesBeforeIsWeakOrder();
    forall i, j | 0 <= i < j < |s| ensures Outranks(s[j].priority, s[j].name, s[i].priority, s[i].name) {
      DistinctNames(configs, sorted, i, j);
      assert !MergesBefore(sorted[j], sorted[i]) && MergesBefore(sorted[i], sorted[j]);
    }
  }

  /** A rearrangement of configs of different names has different names too. */
  lemma DistinctNames(configs: seq<MachineConfig>, sorted: seq<MachineConfig>, i: nat, j: nat)
    requires multiset(sorted) == multiset(configs) && ConfigNamesDistinct(configs) && i < j < |sorted|
    ensures sorted[i].name != sorted[j].name
  {
    SameMembers(sorted, configs);
    forall a, b | 0 <= a < b < |configs| ensures configs[a] != configs[b] {
      assert ConfigName(configs[a]) != ConfigName(configs[b]);
    }
    DistinctByMultiset(configs, sorted);
    assert sorted[i] in sorted && sorted[j] in sorted;
    var a :| 0 <= a < |configs| && configs[a] == sorted[i];
    var b :| 0 <= b < |configs| && configs[b] == sorted[j];
    assert ConfigName(configs[a]) != ConfigName(configs[b]);
  }

  // ------------------------------------------------------------- order of the input

  lemma OneSay<T>(configs: seq<MachineConfig>, items: MachineConfig -> seq<T>, key: T -> string, k: string, c: MachineConfig, d: MachineConfig)
    requires HasTheSay(configs, items, key, k, c) && HasTheSay(configs, items, key, k, d)
    ensures c == d
  {
    MergesBeforeIsWeakOrder();
  }

  lemma OneMergedItem<T>(
    a: seq<MachineConfig>, b: seq<MachineConfig>, items: MachineConfig -> seq<T>, key: T -> string,
    f: map<string, bool>, g: map<string, bool>, x: T, y: T, c: MachineConfig, d: MachineConfig)
    requires forall c :: c in a <==> c in b
    requires Decides(a, items, key, f, x, c) && Decides(b, items, key, g, y, d) && key(x) == key(y)
    ensures x == y && f[key(x)] == g[key(x)]
  {
    assert HasTheSay(a, items, key, key(x), d);
    OneSay(a, items, key, key(x), c, d);
  }

  lemma OneMergedList<T>(
    a: seq<MachineConfig>, b: seq<MachineConfig>, items: MachineConfig -> seq<T>, key: T -> string,
    m: seq<T>, n: seq<T>, f: map<string, bool>, g: map<string, bool>)
    requires forall c :: c in a <==> c in b
    requires MergedItems(a, items, key, m, f) && MergedItems(b, items, key, n, g)
    ensures forall x | x in m :: x in n && key(x) in f && key(x) in g && f[key(x)] == g[key(x)]
  {
    forall x | x in m ensures x in n && key(x) in f && key(x) in g && f[key(x)] == g[key(x)] {
      var c :| Decides(a, items, key, f, x, c);
      assert c in b && Lists(items(c), key, key(x));
      assert Lists(n, key, key(x));
      var j :| 0 <= j < |n| && key(n[j]) == key(x);
      var y := n[j];
      assert y in n;
      var d :| Decides(b, items, key, g, y, d);
      OneMergedItem(a, b, items, key, f, g, x, y, c, d);
    }
  }

  lemma OneMergedResult<T>(
    a: seq<MachineConfig>, b: seq<MachineConfig>, items: MachineConfig -> seq<T>, key: T -> string,
    m: seq<T>, n: seq<T>, f: map<string, bool>, g: map<string, bool>)
    requires forall c :: c in a <==> c in b
    requires MergedItems(a, items, key, m, f) && MergedItems(b, items, key, n, g)
    ensures m == n && f == g
  {
    OneMergedList(a, b, items, key, m, n, f, g);
    OneMergedList(b, a, items, key, n, m, g, f);
    OneSortedListing(m, n, key);
    forall k | k in f ensures k in g && f[k] == g[k] {
      assert Lists(m, key, k);
      var i :| 0 <= i < |m| && key(m[i]) == k;
      assert m[i] in m;
    }
    forall k | k in g ensures k in f {
      assert Lists(n, key, k);
    }
  }

  /** Merging does not depend on the order configs are listed in: not the files, not the units, not
      any reboot flag, not the recorded sources. */
  lemma MergeIgnoresOrder(a: seq<MachineConfig>, b: seq<MachineConfig>, m: MergedConfig, n: MergedConfig)
    requires multiset(a) == multiset(b) && ConfigNamesDistinct(a)
    requires IsMergeOf(m, a) && IsMergeOf(n, b)
    ensures m == n
  {
    SameMembers(a, b);
    OneMergedResult(a, b, FilesOf, PathOf, m.files, n.files, m.fileReboot, n.fileReboot);
    OneMergedResult(a, b, UnitsOf, NameOf, m.units, n.units, m.unitReboot, n.unitReboot);
    MergesBeforeIsWeakOrder();
    var s: seq<MachineConfig> :| multiset(s) == multiset(a) && Sorted(s, MergesBefore) && m.sources == SourcesOf(s);
    var t: seq<MachineConfig> :| multiset(t) == multiset(b) && Sorted(t, MergesBefore) && n.sources == SourcesOf(t);
    SameMembers(s, a);
    forall x, y | x in s && y in s && x != y ensures MergesBefore(x, y) || MergesBefore(y, x) {
      var i :| 0 <= i < |a| && a[i] == x;
      var j :| 0 <= j < |a| && a[j] == y;
      assert ConfigName(a[i]) != ConfigName(a[j]);
    }
    SortedUnique(s, t, MergesBefore);
  }

  /** Without a config that asks for a reboot, no file or unit is flagged. */
  lemma QuietMerge(configs: seq<MachineConfig>, m: MergedConfig)
    requires IsMergeOf(m, configs) && !m.rebootRequired
    ensures forall k :: !Flag(m.fileReboot, k) && !Flag(m.unitReboot, k)
  {
    forall k ensures !Flag(m.fileReboot, k) {
      if k in m.fileReboot {
        assert Lists(m.files, PathOf, k);
        var i :| 0 <= i < |m.files| && PathOf(m.files[i]) == k;
        assert m.files[i] in m.files;
      }
    }
    forall k ensures !Flag(m.unitReboot, k) {
      if k in m.unitReboot {
        assert Lists(m.units, NameOf, k);
        var i :| 0 <= i < |m.units| && NameOf(m.units[i]) == k;
        assert m.units[i] in m.units;
      }
    }
  }
}
