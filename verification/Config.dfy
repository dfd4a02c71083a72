/** Machine configs and what they are rendered into (api/v1alpha1). */
module Config {
  import opened Order

  datatype FileSpec = FileSpec(path: string, content: string, mode: int, owner: string, state: string)

  datatype UnitSpec = UnitSpec(name: string, enabled: Option<bool>, state: string, mask: bool)

  datatype MachineConfig = MachineConfig(
    name: string, priority: int, files: seq<FileSpec>, units: seq<UnitSpec>, rebootRequired: bool)

  datatype Source = Source(name: string, priority: int)

  datatype MergedConfig = MergedConfig(
    files: seq<FileSpec>, units: seq<UnitSpec>, rebootRequired: bool, sources: seq<Source>,
    fileReboot: map<string, bool>, unitReboot: map<string, bool>)

  datatype RebootSpec = RebootSpec(required: bool, strategy: string, minIntervalSeconds: int)

  /** A RenderedMachineConfig. */
  datatype RMC = RMC(
    name: string, poolName: string, revision: string, configHash: string,
    files: seq<FileSpec>, units: seq<UnitSpec>, sources: seq<Source>,
    fileReboot: map<string, bool>, unitReboot: map<string, bool>, reboot: RebootSpec)

  function PathOf(f: FileSpec): string { f.path }

  function NameOf(u: UnitSpec): string { u.name }

  function FilesOf(c: MachineConfig): seq<FileSpec> { c.files }

  function UnitsOf(c: MachineConfig): seq<UnitSpec> { c.units }

  /** A missing entry of a Go map of booleans reads as false. */
  predicate Flag(m: map<string, bool>, key: string)
  {
    key in m && m[key]
  }

  /** Keys strictly increasing: sorted, and no key twice. */
  ghost predicate StrictlySorted<T>(s: seq<T>, key: T -> string)
  {
    forall i, j | 0 <= i < j < |s| :: StrLess(key(s[i]), key(s[j]))
  }

  /** No key twice. */
  ghost predicate KeysUnique<T>(s: seq<T>, key: T -> string)
  {
    forall i, j | 0 <= i < j < |s| :: key(s[i]) != key(s[j])
  }

  predicate Lists<T>(items: seq<T>, key: T -> string, k: string)
  {
    exists i | 0 <= i < |items| :: key(items[i]) == k
  }

  ghost function Keys<T>(items: seq<T>, key: T -> string): set<string>
  {
    set x | x in items :: key(x)
  }

  /** The last item with a key: what a map filled from the list in order holds for it. */
  function LastItem<T>(items: seq<T>, key: T -> string, k: string): Option<T>
  {
    if items == [] then None
    else if key(items[|items| - 1]) == k then Some(items[|items| - 1])
    else LastItem(items[..|items| - 1], key, k)
  }

  lemma {:induction false} LastItemIsListed<T>(items: seq<T>, key: T -> string, k: string)
    ensures LastItem(items, key, k).Some? <==> Lists(items, key, k)
    ensures LastItem(items, key, k).Some? ==>
      LastItem(items, key, k).value in items && key(LastItem(items, key, k).value) == k
  {
    if items != [] && key(items[|items| - 1]) != k {
      LastItemIsListed(items[..|items| - 1], key, k);
      assert items == items[..|items| - 1] + [items[|items| - 1]];
      if i :| 0 <= i < |items| && key(items[i]) == k {
        assert items[..|items| - 1][i] == items[i];
      }
    }
  }

  /** With unique keys, an item of the list is the one its key finds. */
  lemma UniqueItem<T>(items: seq<T>, key: T -> string, x: T)
    requires KeysUnique(items, key) && x in items
    ensures LastItem(items, key, key(x)) == Some(x)
  {
    LastItemIsListed(items, key, key(x));
    assert Lists(items, key, key(x));
  }

  lemma StrictlySortedUniqueKeys<T>(s: seq<T>, key: T -> string)
    requires StrictlySorted(s, key)
    ensures KeysUnique(s, key)
  {
    forall i, j | 0 <= i < j < |s| ensures key(s[i]) != key(s[j]) {
      StrLessAsymmetric(key(s[i]), key(s[j]));
    }
  }

  lemma TailMembers<T>(s: seq<T>, key: T -> string)
    requires KeysUnique(s, key) && s != []
    ensures forall x :: x in s[1..] <==> x in s && x != s[0]
    ensures forall x | x in s[1..] :: key(x) != key(s[0])
  {
    forall x | x in s[1..] ensures key(x) != key(s[0]) {
      var i :| 0 <= i < |s[1..]| && s[1..][i] == x;
      assert s[i + 1] == x;
    }
    forall x | x in s && x != s[0] ensures x in s[1..] {
      var i :| 0 <= i < |s| && s[i] == x;
      assert s[1..][i - 1] == x;
    }
  }

  /** A set of items has one strictly sorted listing. */
  lemma {:induction false} OneSortedListing<T>(s: seq<T>, t: seq<T>, key: T -> string)
    requires StrictlySorted(s, key) && StrictlySorted(t, key)
    requires forall x :: x in s <==> x in t
    ensures s == t
  {
    assert t != [] ==> t[0] in s;
    assert s != [] ==> s[0] in t;
    if s != [] {
      StrLessAsymmetric(key(s[0]), key(t[0]));
      assert s[0] == t[0];
      StrictlySortedUniqueKeys(s, key);
      StrictlySortedUniqueKeys(t, key);
      TailMembers(s, key);
      TailMembers(t, key);
      OneSortedListing(s[1..], t[1..], key);
      assert s == [s[0]] + s[1..] && t == [t[0]] + t[1..];
    }
  }

  /** Sorting a list with unique keys by key sorts it strictly. */
  lemma SortByKeyIsStrict<T(!new)>(s: seq<T>, key: T -> string, less: (T, T) -> bool)
    requires KeysUnique(s, key)
    requires forall x, y :: less(x, y) == StrLess(key(x), key(y))
    ensures StrictlySorted(Sort(s, less), key)
    ensures forall x :: x in Sort(s, less) <==> x in s
  {
    var r := Sort(s, less);
    ByKeyWeakOrder(key, less);
    SortSorts(s, less);
    SortKeepsMembers(s, less);
    SortKeepsUniqueKeys(s, key, less);
    forall i, j | 0 <= i < j < |r| ensures StrLess(key(r[i]), key(r[j])) {
      assert !less(r[j], r[i]);
      StrLessTotal(key(r[i]), key(r[j]));
    }
  }

  lemma {:induction false} InsertKeepsUniqueKeys<T>(x: T, s: seq<T>, key: T -> string, less: (T, T) -> bool)
    requires KeysUnique(s, key) && forall y | y in s :: key(y) != key(x)
    ensures KeysUnique(Insert(x, s, less), key)
  {
    if s != [] && !less(x, s[0]) {
      InsertKeepsUniqueKeys(x, s[1..], key, less);
      InsertPermutes(x, s[1..], less);
      var t := Insert(x, s[1..], less);
      forall y | y in t ensures key(y) != key(s[0]) {
        assert y in multiset(t);
        assert y == x || y in s[1..];
      }
    }
  }

  lemma {:induction false} SortKeepsUniqueKeys<T>(s: seq<T>, key: T -> string, less: (T, T) -> bool)
    requires KeysUnique(s, key)
    ensures KeysUnique(Sort(s, less), key)
  {
    if s != [] {
      var rest := s[1..];
      SortKeepsUniqueKeys(rest, key, less);
      TailMembers(s, key);
      forall y | y in Sort(rest, less) ensures key(y) != key(s[0]) {
        SortPermutes(rest, less);
        assert y in multiset(Sort(rest, less));
        assert y in multiset(rest);
      }
      InsertKeepsUniqueKeys(s[0], Sort(rest, less), key, less);
    }
  }
}
